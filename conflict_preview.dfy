/**
 * `buildConflictPreviewLines` (src/pages/ConflictResolverPage/utils/buildConflictPreview.ts):
 * the lines the resolver page shows for a conflicted file, tagged by where they come from, in
 * one of three modes: only our side, only their side, or the file as it will be saved.
 *
 * `BuildConflictPreviewLines` runs the loop of the source and is proved to end in `Preview`.
 * For every input, result mode without resolutions shows the file's lines unchanged; for a
 * file made of text and complete blocks, `ExpectedPreview` gives the lines of each mode.
 */
module ConflictPreview {
  import opened Wrappers
  import opened Strings
  import opened GitTypes
  import opened GitConflicts
  import opened Resolution

  datatype Highlight = OursLine | TheirsLine | ResolvedLine | MarkerLine

  /** A shown line; `None` is the absent `highlight`. */
  datatype PreviewLine = PreviewLine(text: string, highlight: Option<Highlight>)

  datatype Mode = OursMode | TheirsMode | ResultMode

  datatype Section = NoSection | OursSection | TheirsSection

  /** The loop's variables between two lines. */
  datatype Cursor = Cursor(
    out: seq<PreviewLine>,
    inConflict: bool,
    section: Section,
    hunkIndex: nat,
    skipBlock: bool,
    active: Option<HunkResolution>)

  /** The state outside any block, with `k` blocks behind. */
  function Idle(out: seq<PreviewLine>, k: nat): Cursor {
    Cursor(out, false, NoSection, k, false, None)
  }

  /** Lines shown as they are. */
  function Plain(ls: seq<string>): (r: seq<PreviewLine>)
    ensures |r| == |ls|
    ensures forall j :: 0 <= j < |ls| ==> r[j] == PreviewLine(ls[j], None)
  {
    seq(|ls|, j requires 0 <= j < |ls| => PreviewLine(ls[j], None))
  }

  /** Lines shown with one highlight. */
  function Tagged(ls: seq<string>, h: Highlight): (r: seq<PreviewLine>)
    ensures |r| == |ls|
    ensures forall j :: 0 <= j < |ls| ==> r[j] == PreviewLine(ls[j], Some(h))
  {
    seq(|ls|, j requires 0 <= j < |ls| => PreviewLine(ls[j], Some(h)))
  }

  /** `fileResolutions?.get(id) ?? null`. */
  function Lookup(res: Option<FileResolutions>, id: nat): Option<HunkResolution> {
    if res.Some? && id in res.value then Some(res.value[id]) else None
  }

  /** The resolution of the `k`-th block's hunk, if there is such a hunk and it has one. */
  function ActiveFor(hunks: seq<ConflictHunk>, res: Option<FileResolutions>, k: nat): Option<HunkResolution> {
    if k < |hunks| then Lookup(res, hunks[k].id) else None
  }

  /** The line a block body contributes, as the mode and the current section decide. */
  function Body(mode: Mode, section: Section, line: string): seq<PreviewLine> {
    match mode
    case OursMode => if section == OursSection then [PreviewLine(line, Some(OursLine))] else []
    case TheirsMode => if section == TheirsSection then [PreviewLine(line, Some(TheirsLine))] else []
    case ResultMode => [PreviewLine(line, Some(if section == OursSection then OursLine else TheirsLine))]
  }

  /** What the loop does with one line. */
  function PreviewStep(hunks: seq<ConflictHunk>, res: Option<FileResolutions>, mode: Mode, line: string, c: Cursor): Cursor {
    if !c.inConflict && StartsWith(line, OURS_MARKER) then
      var active := ActiveFor(hunks, res, c.hunkIndex);
      if mode == ResultMode && active.Some? then
        c.(out := c.out + Tagged(Split(active.value.content, "\n"), ResolvedLine), active := active,
           skipBlock := true, inConflict := true, section := OursSection)
      else
        c.(out := c.out + (if mode == ResultMode then [PreviewLine(line, Some(MarkerLine))] else []),
           active := active, skipBlock := false, inConflict := true, section := OursSection)
    else if c.inConflict && StartsWith(line, SEPARATOR) then
      c.(section := TheirsSection,
         out := c.out + (if mode == ResultMode && c.active.None? then [PreviewLine(line, Some(MarkerLine))] else []))
    else if c.inConflict && StartsWith(line, THEIRS_MARKER) then
      Idle(c.out + (if mode == ResultMode && c.active.None? then [PreviewLine(line, Some(MarkerLine))] else []),
           c.hunkIndex + 1)
    else if c.inConflict then
      if c.skipBlock then c else c.(out := c.out + Body(mode, c.section, line))
    else
      c.(out := c.out + [PreviewLine(line, None)])
  }

  // The five kinds of line, one lemma each, so that proofs need not unfold `PreviewStep` whole.

  lemma StepOpen(hunks: seq<ConflictHunk>, res: Option<FileResolutions>, mode: Mode, line: string, c: Cursor)
    requires !c.inConflict && StartsWith(line, OURS_MARKER)
    ensures var active := ActiveFor(hunks, res, c.hunkIndex);
            (PreviewStep(hunks, res, mode, line, c)
         == if mode == ResultMode && active.Some? then
              Cursor(c.out + Tagged(Split(active.value.content, "\n"), ResolvedLine), true, OursSection, c.hunkIndex, true, active)
            else
              Cursor(c.out + (if mode == ResultMode then [PreviewLine(line, Some(MarkerLine))] else []), true, OursSection,
                     c.hunkIndex, false, active))
  {
  }

  lemma StepSeparator(hunks: seq<ConflictHunk>, res: Option<FileResolutions>, mode: Mode, line: string, c: Cursor)
    requires c.inConflict && StartsWith(line, SEPARATOR)
    ensures PreviewStep(hunks, res, mode, line, c)
         == c.(section := TheirsSection,
               out := c.out + (if mode == ResultMode && c.active.None? then [PreviewLine(line, Some(MarkerLine))] else []))
  {
  }

  lemma StepClose(hunks: seq<ConflictHunk>, res: Option<FileResolutions>, mode: Mode, line: string, c: Cursor)
    requires c.inConflict && !StartsWith(line, SEPARATOR) && StartsWith(line, THEIRS_MARKER)
    ensures PreviewStep(hunks, res, mode, line, c)
         == Idle(c.out + (if mode == ResultMode && c.active.None? then [PreviewLine(line, Some(MarkerLine))] else []),
                 c.hunkIndex + 1)
  {
  }

  lemma StepBody(hunks: seq<ConflictHunk>, res: Option<FileResolutions>, mode: Mode, line: string, c: Cursor)
    requires c.inConflict && !StartsWith(line, SEPARATOR) && !StartsWith(line, THEIRS_MARKER)
    ensures PreviewStep(hunks, res, mode, line, c) == if c.skipBlock then c else c.(out := c.out + Body(mode, c.section, line))
  {
  }

  lemma StepText(hunks: seq<ConflictHunk>, res: Option<FileResolutions>, mode: Mode, line: string, c: Cursor)
    requires !c.inConflict && !StartsWith(line, OURS_MARKER)
    ensures PreviewStep(hunks, res, mode, line, c) == c.(out := c.out + [PreviewLine(line, None)])
  {
  }

  /** The loop over the lines still to come. */
  function PreviewRest(hunks: seq<ConflictHunk>, res: Option<FileResolutions>, mode: Mode, rest: seq<string>,
                       c: Cursor): seq<PreviewLine>
    decreases |rest|
  {
    if rest == [] then c.out else PreviewRest(hunks, res, mode, rest[1..], PreviewStep(hunks, res, mode, rest[0], c))
  }

  /** What `buildConflictPreviewLines` returns. */
  function Preview(file: ConflictFile, res: Option<FileResolutions>, mode: Mode): seq<PreviewLine> {
    if file.conflicts == [] then Plain(Split(file.content, "\n"))
    else PreviewRest(file.conflicts, res, mode, Split(file.content, "\n"), Idle([], 0))
  }

  /**
   * `buildConflictPreviewLines`: without hunks, every line of the file unhighlighted; otherwise
   * the lines the mode shows.
   */
  method BuildConflictPreviewLines(file: ConflictFile, res: Option<FileResolutions>, mode: Mode)
    returns (outputLines: seq<PreviewLine>)
    ensures outputLines == Preview(file, res, mode)
    ensures file.conflicts == [] ==> outputLines == Plain(Split(file.content, "\n"))
  {
    var lines := Split(file.content, "\n");
    if |file.conflicts| == 0 {
      return Plain(lines);
    }
    outputLines := [];
    var inConflict := false;
    var section := NoSection;
    var hunkIndex: nat := 0;
    var skipBlock := false;
    var activeResolution: Option<HunkResolution> := None;
    var i := 0;
    while i < |lines|
      invariant i <= |lines|
      invariant PreviewRest(file.conflicts, res, mode, lines, Idle([], 0))
             == PreviewRest(file.conflicts, res, mode, lines[i..],
                            Cursor(outputLines, inConflict, section, hunkIndex, skipBlock, activeResolution))
    {
      var line := lines[i];
      ghost var c := Cursor(outputLines, inConflict, section, hunkIndex, skipBlock, activeResolution);
      RestStep(file.conflicts, res, mode, lines, i, c);
      if !inConflict && StartsWith(line, OURS_MARKER) {
        StepOpen(file.conflicts, res, mode, line, c);
        outputLines, skipBlock, activeResolution := OpenBlock(file.conflicts, res, mode, line, outputLines, hunkIndex);
        inConflict := true;
        section := OursSection;
      } else if inConflict && StartsWith(line, SEPARATOR) {
        StepSeparator(file.conflicts, res, mode, line, c);
        section := TheirsSection;
        if mode == ResultMode && activeResolution.None? {
          outputLines := outputLines + [PreviewLine(line, Some(MarkerLine))];
        }
      } else if inConflict && StartsWith(line, THEIRS_MARKER) {
        StepClose(file.conflicts, res, mode, line, c);
        if mode == ResultMode && activeResolution.None? {
          outputLines := outputLines + [PreviewLine(line, Some(MarkerLine))];
        }
        inConflict := false;
        section := NoSection;
        skipBlock := false;
        activeResolution := None;
        hunkIndex := hunkIndex + 1;
      } else if inConflict {
        StepBody(file.conflicts, res, mode, line, c);
        if !skipBlock {
          outputLines := AppendBody(outputLines, mode, section, line);
        }
      } else {
        StepText(file.conflicts, res, mode, line, c);
        outputLines := outputLines + [PreviewLine(line, None)];
      }
      assert Cursor(outputLines, inConflict, section, hunkIndex, skipBlock, activeResolution)
          == PreviewStep(file.conflicts, res, mode, line, c);
      i := i + 1;
    }
  }

  /**
   * An opening marker: the block's resolution is looked up; in result mode a resolved block shows
   * the resolution's lines and skips its own, an unresolved one shows the marker.
   */
  method OpenBlock(hunks: seq<ConflictHunk>, res: Option<FileResolutions>, mode: Mode, line: string,
                   out: seq<PreviewLine>, hunkIndex: nat)
    returns (r: seq<PreviewLine>, skipBlock: bool, activeResolution: Option<HunkResolution>)
    ensures activeResolution == ActiveFor(hunks, res, hunkIndex)
    ensures skipBlock == (mode == ResultMode && activeResolution.Some?)
    ensures r == if skipBlock then out + Tagged(Split(activeResolution.value.content, "\n"), ResolvedLine)
                 else out + (if mode == ResultMode then [PreviewLine(line, Some(MarkerLine))] else [])
  {
    r := out;
    activeResolution := if hunkIndex < |hunks| then Lookup(res, hunks[hunkIndex].id) else None;
    if mode == ResultMode && activeResolution.Some? {
      r := AppendResolved(r, Split(activeResolution.value.content, "\n"));
      skipBlock := true;
    } else {
      skipBlock := false;
      if mode == ResultMode {
        r := r + [PreviewLine(line, Some(MarkerLine))];
      }
    }
  }

  /** A line inside a block: kept, with its side's highlight, when the mode shows that side. */
  method AppendBody(out: seq<PreviewLine>, mode: Mode, section: Section, line: string) returns (r: seq<PreviewLine>)
    ensures r == out + Body(mode, section, line)
  {
    r := out;
    if mode == OursMode {
      if section == OursSection {
        r := r + [PreviewLine(line, Some(OursLine))];
      }
    } else if mode == TheirsMode {
      if section == TheirsSection {
        r := r + [PreviewLine(line, Some(TheirsLine))];
      }
    } else {
      r := r + [PreviewLine(line, Some(if section == OursSection then OursLine else TheirsLine))];
    }
  }

  /** The inner loop of the opening marker in result mode: the resolution's lines, tagged as resolved. */
  method AppendResolved(out: seq<PreviewLine>, resolvedLines: seq<string>) returns (r: seq<PreviewLine>)
    ensures r == out + Tagged(resolvedLines, ResolvedLine)
  {
    r := out;
    var j := 0;
    while j < |resolvedLines|
      invariant j <= |resolvedLines|
      invariant r == out + Tagged(resolvedLines[..j], ResolvedLine)
    {
      r := r + [PreviewLine(resolvedLines[j], Some(ResolvedLine))];
      j := j + 1;
    }
    assert resolvedLines[..j] == resolvedLines;
  }

  /** One turn of the loop: the remaining lines lose their first, which steps the cursor. */
  lemma RestStep(hunks: seq<ConflictHunk>, res: Option<FileResolutions>, mode: Mode, lines: seq<string>, i: nat, c: Cursor)
    requires i < |lines|
    ensures PreviewRest(hunks, res, mode, lines[i..], c)
         == PreviewRest(hunks, res, mode, lines[i + 1..], PreviewStep(hunks, res, mode, lines[i], c))
  {
    assert lines[i..][0] == lines[i] && lines[i..][1..] == lines[i + 1..];
  }

  // ================================================================ result mode, nothing resolved

  function Texts(ls: seq<PreviewLine>): (r: seq<string>)
    ensures |r| == |ls|
    ensures forall j :: 0 <= j < |ls| ==> r[j] == ls[j].text
  {
    seq(|ls|, j requires 0 <= j < |ls| => ls[j].text)
  }

  /** No hunk has a resolution. */
  predicate NothingResolved(hunks: seq<ConflictHunk>, res: Option<FileResolutions>) {
    forall k :: 0 <= k < |hunks| ==> Lookup(res, hunks[k].id).None?
  }

  /** With nothing resolved, result mode shows each remaining line exactly once, unchanged. */
  lemma {:induction false} ResultShowsEveryLine(hunks: seq<ConflictHunk>, res: Option<FileResolutions>, rest: seq<string>,
                                                c: Cursor)
    requires NothingResolved(hunks, res) && c.active.None? && !c.skipBlock
    ensures Texts(PreviewRest(hunks, res, ResultMode, rest, c)) == Texts(c.out) + rest
    decreases |rest|
  {
    if rest == [] {
      assert Texts(c.out) + rest == Texts(c.out);
    } else {
      var c' := PreviewStep(hunks, res, ResultMode, rest[0], c);
      assert c'.active.None? && !c'.skipBlock;
      assert Texts(c'.out) == Texts(c.out) + [rest[0]];
      ResultShowsEveryLine(hunks, res, rest[1..], c');
      assert Texts(c.out) + [rest[0]] + rest[1..] == Texts(c.out) + rest;
    }
  }

  /** So, in result mode with nothing resolved, the preview's texts are the file's lines. */
  lemma ResultPreviewIsFile(file: ConflictFile, res: Option<FileResolutions>)
    requires NothingResolved(file.conflicts, res)
    ensures Texts(Preview(file, res, ResultMode)) == Split(file.content, "\n")
  {
    if file.conflicts != [] {
      ResultShowsEveryLine(file.conflicts, res, Split(file.content, "\n"), Idle([], 0));
    }
  }

  // ================================================================ well-formed files

  /**
   * No text line opens a block, and no line inside a block is taken for the separator or the
   * closing marker.
   */
  predicate Previewable(segs: seq<Segment>) {
    forall k :: 0 <= k < |segs| ==> PreviewableSegment(segs[k])
  }

  predicate BodyLines(ls: seq<string>) {
    forall j :: 0 <= j < |ls| ==> !StartsWith(ls[j], SEPARATOR) && !StartsWith(ls[j], THEIRS_MARKER)
  }

  predicate PreviewableSegment(s: Segment) {
    match s
    case Text(t) => forall j :: 0 <= j < |t| ==> !StartsWith(t[j], OURS_MARKER)
    case Block(_, o, _, t) => BodyLines(o) && BodyLines(t)
  }

  /** What one block shows in each mode, given the resolution of its hunk. */
  function BlockPreview(mode: Mode, active: Option<HunkResolution>, ol: string, o: seq<string>, tl: string,
                        t: seq<string>): seq<PreviewLine> {
    match mode
    case OursMode => Tagged(o, OursLine)
    case TheirsMode => Tagged(t, TheirsLine)
    case ResultMode =>
      if active.Some? then Tagged(Split(active.value.content, "\n"), ResolvedLine)
      else [PreviewLine(OpenLine(ol), Some(MarkerLine))] + Tagged(o, OursLine)
           + [PreviewLine(SEPARATOR, Some(MarkerLine))] + Tagged(t, TheirsLine)
           + [PreviewLine(CloseLine(tl), Some(MarkerLine))]
  }

  /**
   * The preview a reader expects of segments whose first block is the `k`-th: text lines
   * unhighlighted in every mode; in ours and theirs modes a block shows only that side's lines,
   * without markers; in result mode a resolved block shows its resolution and an unresolved one
   * its markers and both sides.
   */
  function ExpectedPreview(hunks: seq<ConflictHunk>, res: Option<FileResolutions>, mode: Mode, segs: seq<Segment>,
                           k: nat): seq<PreviewLine>
    decreases |segs|
  {
    if segs == [] then []
    else
      match segs[0]
      case Text(t) => Plain(t) + ExpectedPreview(hunks, res, mode, segs[1..], k)
      case Block(ol, o, tl, t) =>
        BlockPreview(mode, ActiveFor(hunks, res, k), ol, o, tl, t) + ExpectedPreview(hunks, res, mode, segs[1..], k + 1)
  }

  /** Text lines outside a block are shown unhighlighted. */
  lemma {:induction false} PreviewText(hunks: seq<ConflictHunk>, res: Option<FileResolutions>, mode: Mode,
                                       t: seq<string>, more: seq<string>, out: seq<PreviewLine>, k: nat)
    requires forall j :: 0 <= j < |t| ==> !StartsWith(t[j], OURS_MARKER)
    ensures PreviewRest(hunks, res, mode, t + more, Idle(out, k)) == PreviewRest(hunks, res, mode, more, Idle(out + Plain(t), k))
    decreases |t|
  {
    if t == [] {
      assert t + more == more && out + Plain(t) == out;
    } else {
      assert (t + more)[0] == t[0] && (t + more)[1..] == t[1..] + more;
      PreviewText(hunks, res, mode, t[1..], more, out + [PreviewLine(t[0], None)], k);
      assert out + [PreviewLine(t[0], None)] + Plain(t[1..]) == out + Plain(t);
    }
  }

  /** The lines of one side of a block: each adds what `Body` says, or nothing when skipped. */
  function SideLines(mode: Mode, section: Section, skip: bool, ls: seq<string>): seq<PreviewLine> {
    if skip then []
    else match mode
      case OursMode => if section == OursSection then Tagged(ls, OursLine) else []
      case TheirsMode => if section == TheirsSection then Tagged(ls, TheirsLine) else []
      case ResultMode => Tagged(ls, if section == OursSection then OursLine else TheirsLine)
  }

  lemma {:induction false} PreviewSide(hunks: seq<ConflictHunk>, res: Option<FileResolutions>, mode: Mode,
                                       ls: seq<string>, more: seq<string>, c: Cursor)
    requires BodyLines(ls) && c.inConflict && c.section != NoSection
    ensures PreviewRest(hunks, res, mode, ls + more, c)
         == PreviewRest(hunks, res, mode, more, c.(out := c.out + SideLines(mode, c.section, c.skipBlock, ls)))
    decreases |ls|
  {
    if ls == [] {
      assert ls + more == more && c.out + SideLines(mode, c.section, c.skipBlock, ls) == c.out;
      assert c.(out := c.out) == c;
    } else {
      assert (ls + more)[0] == ls[0] && (ls + more)[1..] == ls[1..] + more;
      StepSide(hunks, res, mode, ls[0], c);
      var c' := c.(out := c.out + SideLines(mode, c.section, c.skipBlock, [ls[0]]));
      assert BodyLines(ls[1..]) by {
        forall j | 0 <= j < |ls[1..]| ensures !StartsWith(ls[1..][j], SEPARATOR) && !StartsWith(ls[1..][j], THEIRS_MARKER) {
          assert ls[1..][j] == ls[j + 1];
        }
      }
      PreviewSide(hunks, res, mode, ls[1..], more, c');
      SideLinesCons(mode, c.section, c.skipBlock, ls);
      AppendAssoc(c.out, SideLines(mode, c.section, c.skipBlock, [ls[0]]), SideLines(mode, c.section, c.skipBlock, ls[1..]));
    }
  }

  /** One line of a side adds what `SideLines` adds for it alone. */
  lemma StepSide(hunks: seq<ConflictHunk>, res: Option<FileResolutions>, mode: Mode, line: string, c: Cursor)
    requires c.inConflict && c.section != NoSection
    requires !StartsWith(line, SEPARATOR) && !StartsWith(line, THEIRS_MARKER)
    ensures PreviewStep(hunks, res, mode, line, c) == c.(out := c.out + SideLines(mode, c.section, c.skipBlock, [line]))
  {
    StepBody(hunks, res, mode, line, c);
    if c.skipBlock {
      assert c.out + [] == c.out;
    }
  }

  lemma SideLinesCons(mode: Mode, section: Section, skip: bool, ls: seq<string>)
    requires ls != []
    ensures SideLines(mode, section, skip, ls) == SideLines(mode, section, skip, [ls[0]]) + SideLines(mode, section, skip, ls[1..])
  {
    TaggedCons(ls, OursLine);
    TaggedCons(ls, TheirsLine);
  }

  lemma TaggedCons(ls: seq<string>, h: Highlight)
    requires ls != []
    ensures Tagged(ls, h) == Tagged([ls[0]], h) + Tagged(ls[1..], h)
  {
    assert Tagged(ls, h) == Tagged([ls[0]], h) + Tagged(ls[1..], h);
  }

  lemma MarkersDiffer()
    ensures !StartsWith(SEPARATOR, THEIRS_MARKER)
    ensures StartsWith(SEPARATOR, SEPARATOR)
  {
    assert SEPARATOR[0] != THEIRS_MARKER[0];
  }

  lemma CloseLineIsCloser(tl: string)
    ensures StartsWith(CloseLine(tl), THEIRS_MARKER) && !StartsWith(CloseLine(tl), SEPARATOR)
  {
    assert CloseLine(tl)[0] != SEPARATOR[0];
  }

  /** The opening marker: what is shown for it and the state it leaves. */
  function Opened(hunks: seq<ConflictHunk>, res: Option<FileResolutions>, mode: Mode, ol: string, out: seq<PreviewLine>,
                  k: nat): Cursor {
    var active := ActiveFor(hunks, res, k);
    if mode == ResultMode && active.Some? then
      Cursor(out + Tagged(Split(active.value.content, "\n"), ResolvedLine), true, OursSection, k, true, active)
    else
      Cursor(out + (if mode == ResultMode then [PreviewLine(OpenLine(ol), Some(MarkerLine))] else []),
             true, OursSection, k, false, active)
  }

  /** A whole block leaves the loop outside any block, one hunk further, with its preview added. */
  lemma PreviewBlock(hunks: seq<ConflictHunk>, res: Option<FileResolutions>, mode: Mode, ol: string, o: seq<string>,
                     tl: string, t: seq<string>, more: seq<string>, out: seq<PreviewLine>, k: nat)
    requires BodyLines(o) && BodyLines(t)
    ensures PreviewRest(hunks, res, mode, SegmentLines(Block(ol, o, tl, t)) + more, Idle(out, k))
         == PreviewRest(hunks, res, mode, more, Idle(out + BlockPreview(mode, ActiveFor(hunks, res, k), ol, o, tl, t), k + 1))
  {
    var active := ActiveFor(hunks, res, k);
    var skip := mode == ResultMode && active.Some?;
    var o3 := OursHalf(hunks, res, mode, ol, o, out, k);
    BlockOurs(hunks, res, mode, ol, o, tl, t, more, out, k);
    BlockTheirs(hunks, res, mode, tl, t, more, o3, k, skip, active);
    BlockOutput(hunks, res, mode, ol, o, tl, t, out, k);
  }

  /** The lines shown from the opening marker up to the separator. */
  function OursHalf(hunks: seq<ConflictHunk>, res: Option<FileResolutions>, mode: Mode, ol: string, o: seq<string>,
                    out: seq<PreviewLine>, k: nat): seq<PreviewLine> {
    var active := ActiveFor(hunks, res, k);
    Opened(hunks, res, mode, ol, out, k).out + SideLines(mode, OursSection, mode == ResultMode && active.Some?, o)
      + (if mode == ResultMode && active.None? then [PreviewLine(SEPARATOR, Some(MarkerLine))] else [])
  }

  /** The opening marker, our side and the separator take the loop into their side. */
  lemma BlockOurs(hunks: seq<ConflictHunk>, res: Option<FileResolutions>, mode: Mode, ol: string, o: seq<string>,
                  tl: string, t: seq<string>, more: seq<string>, out: seq<PreviewLine>, k: nat)
    requires BodyLines(o)
    ensures PreviewRest(hunks, res, mode, SegmentLines(Block(ol, o, tl, t)) + more, Idle(out, k))
         == PreviewRest(hunks, res, mode, t + ([CloseLine(tl)] + more),
                        Cursor(OursHalf(hunks, res, mode, ol, o, out, k), true, TheirsSection, k,
                               mode == ResultMode && ActiveFor(hunks, res, k).Some?, ActiveFor(hunks, res, k)))
  {
    var afterSep := t + ([CloseLine(tl)] + more);
    BlockLines(ol, o, tl, t, more);
    var c1 := Opened(hunks, res, mode, ol, out, k);
    StepOpenLine(hunks, res, mode, ol, out, k);
    RestCons(hunks, res, mode, OpenLine(ol), o + ([SEPARATOR] + afterSep), Idle(out, k));
    PreviewSide(hunks, res, mode, o, [SEPARATOR] + afterSep, c1);
    var c2 := c1.(out := c1.out + SideLines(mode, OursSection, c1.skipBlock, o));
    MarkersDiffer();
    StepSeparator(hunks, res, mode, SEPARATOR, c2);
    RestCons(hunks, res, mode, SEPARATOR, afterSep, c2);
  }

  /** Their side and the closing marker leave the loop outside any block, one hunk further. */
  lemma BlockTheirs(hunks: seq<ConflictHunk>, res: Option<FileResolutions>, mode: Mode, tl: string, t: seq<string>,
                    more: seq<string>, o3: seq<PreviewLine>, k: nat, skip: bool, active: Option<HunkResolution>)
    requires BodyLines(t)
    ensures PreviewRest(hunks, res, mode, t + ([CloseLine(tl)] + more), Cursor(o3, true, TheirsSection, k, skip, active))
         == PreviewRest(hunks, res, mode, more,
                        Idle(o3 + SideLines(mode, TheirsSection, skip, t)
                             + (if mode == ResultMode && active.None? then [PreviewLine(CloseLine(tl), Some(MarkerLine))] else []),
                             k + 1))
  {
    var c3 := Cursor(o3, true, TheirsSection, k, skip, active);
    PreviewSide(hunks, res, mode, t, [CloseLine(tl)] + more, c3);
    var c4 := c3.(out := c3.out + SideLines(mode, TheirsSection, skip, t));
    CloseLineIsCloser(tl);
    StepClose(hunks, res, mode, CloseLine(tl), c4);
    RestCons(hunks, res, mode, CloseLine(tl), more, c4);
  }

  /** The lines of a block, grouped as the loop meets them. */
  lemma BlockLines(ol: string, o: seq<string>, tl: string, t: seq<string>, more: seq<string>)
    ensures SegmentLines(Block(ol, o, tl, t)) + more == [OpenLine(ol)] + (o + ([SEPARATOR] + (t + ([CloseLine(tl)] + more))))
  {
    var a, c, e := [OpenLine(ol)], [SEPARATOR], [CloseLine(tl)];
    assert SegmentLines(Block(ol, o, tl, t)) == a + o + c + t + e;
    AppendAssoc(a + o + c + t, e, more);
    AppendAssoc(a + o + c, t, e + more);
    AppendAssoc(a + o, c, t + (e + more));
    AppendAssoc(a, o, c + (t + (e + more)));
  }

  /** The loop takes the first of the remaining lines. */
  lemma RestCons(hunks: seq<ConflictHunk>, res: Option<FileResolutions>, mode: Mode, line: string, rest: seq<string>,
                 c: Cursor)
    ensures PreviewRest(hunks, res, mode, [line] + rest, c) == PreviewRest(hunks, res, mode, rest, PreviewStep(hunks, res, mode, line, c))
  {
    assert ([line] + rest)[0] == line && ([line] + rest)[1..] == rest;
  }

  /** The opening marker outside a block: the state `Opened` describes. */
  lemma StepOpenLine(hunks: seq<ConflictHunk>, res: Option<FileResolutions>, mode: Mode, ol: string,
                     out: seq<PreviewLine>, k: nat)
    ensures PreviewStep(hunks, res, mode, OpenLine(ol), Idle(out, k)) == Opened(hunks, res, mode, ol, out, k)
    ensures var c := Opened(hunks, res, mode, ol, out, k);
            && c.inConflict && c.section == OursSection && c.hunkIndex == k && c.active == ActiveFor(hunks, res, k)
            && c.skipBlock == (mode == ResultMode && ActiveFor(hunks, res, k).Some?)
  {
    assert StartsWith(OpenLine(ol), OURS_MARKER);
    StepOpen(hunks, res, mode, OpenLine(ol), Idle(out, k));
  }

  /** The lines a block adds, as the opening, the two sides, the separator and the close add them. */
  lemma BlockOutput(hunks: seq<ConflictHunk>, res: Option<FileResolutions>, mode: Mode, ol: string, o: seq<string>,
                    tl: string, t: seq<string>, out: seq<PreviewLine>, k: nat)
    ensures var active := ActiveFor(hunks, res, k);
            var c1 := Opened(hunks, res, mode, ol, out, k);
            var skip := mode == ResultMode && active.Some?;
            var resolved := active.None?;
            c1.out + SideLines(mode, OursSection, skip, o)
              + (if mode == ResultMode && resolved then [PreviewLine(SEPARATOR, Some(MarkerLine))] else [])
              + SideLines(mode, TheirsSection, skip, t)
              + (if mode == ResultMode && resolved then [PreviewLine(CloseLine(tl), Some(MarkerLine))] else [])
            == out + BlockPreview(mode, active, ol, o, tl, t)
  {
    var active := ActiveFor(hunks, res, k);
    match mode {
      case OursMode =>
        assert out + [] + Tagged(o, OursLine) + [] + [] + [] == out + Tagged(o, OursLine);
      case TheirsMode =>
        assert out + [] + [] + [] + Tagged(t, TheirsLine) + [] == out + Tagged(t, TheirsLine);
      case ResultMode =>
        if active.Some? {
          var r := Tagged(Split(active.value.content, "\n"), ResolvedLine);
          assert out + r + [] + [] + [] + [] == out + r;
        } else {
          var m1 := [PreviewLine(OpenLine(ol), Some(MarkerLine))];
          var m2 := [PreviewLine(SEPARATOR, Some(MarkerLine))];
          var m3 := [PreviewLine(CloseLine(tl), Some(MarkerLine))];
          assert out + m1 + Tagged(o, OursLine) + m2 + Tagged(t, TheirsLine) + m3
              == out + (m1 + Tagged(o, OursLine) + m2 + Tagged(t, TheirsLine) + m3);
        }
    }
  }

  lemma PreviewableTail(segs: seq<Segment>)
    requires segs != [] && Previewable(segs)
    ensures PreviewableSegment(segs[0]) && Previewable(segs[1..])
  {
    forall j | 0 <= j < |segs[1..]| ensures PreviewableSegment(segs[1..][j]) {
      assert segs[1..][j] == segs[j + 1];
    }
  }

  /** A text segment in front of segments whose preview is known. */
  lemma PreviewTextSegment(hunks: seq<ConflictHunk>, res: Option<FileResolutions>, mode: Mode, segs: seq<Segment>,
                           t: seq<string>, out: seq<PreviewLine>, k: nat)
    requires segs != [] && segs[0] == Text(t) && PreviewableSegment(Text(t))
    requires PreviewRest(hunks, res, mode, Render(segs[1..]), Idle(out + Plain(t), k))
          == out + Plain(t) + ExpectedPreview(hunks, res, mode, segs[1..], k)
    ensures PreviewRest(hunks, res, mode, Render(segs), Idle(out, k)) == out + ExpectedPreview(hunks, res, mode, segs, k)
  {
    RenderCons(segs);
    PreviewText(hunks, res, mode, t, Render(segs[1..]), out, k);
    ExpectedText(hunks, res, mode, segs, t, k);
    AppendAssoc(out, Plain(t), ExpectedPreview(hunks, res, mode, segs[1..], k));
  }

  lemma ExpectedText(hunks: seq<ConflictHunk>, res: Option<FileResolutions>, mode: Mode, segs: seq<Segment>,
                     t: seq<string>, k: nat)
    requires segs != [] && segs[0] == Text(t)
    ensures ExpectedPreview(hunks, res, mode, segs, k) == Plain(t) + ExpectedPreview(hunks, res, mode, segs[1..], k)
  {
  }

  lemma ExpectedBlock(hunks: seq<ConflictHunk>, res: Option<FileResolutions>, mode: Mode, segs: seq<Segment>,
                      ol: string, o: seq<string>, tl: string, t: seq<string>, k: nat)
    requires segs != [] && segs[0] == Block(ol, o, tl, t)
    ensures ExpectedPreview(hunks, res, mode, segs, k)
         == BlockPreview(mode, ActiveFor(hunks, res, k), ol, o, tl, t) + ExpectedPreview(hunks, res, mode, segs[1..], k + 1)
  {
  }

  /** A block segment, showing `b`, in front of segments whose preview is known. */
  lemma PreviewBlockSegment(hunks: seq<ConflictHunk>, res: Option<FileResolutions>, mode: Mode, segs: seq<Segment>,
                            ol: string, o: seq<string>, tl: string, t: seq<string>, b: seq<PreviewLine>,
                            out: seq<PreviewLine>, k: nat)
    requires segs != [] && segs[0] == Block(ol, o, tl, t) && PreviewableSegment(Block(ol, o, tl, t))
    requires b == BlockPreview(mode, ActiveFor(hunks, res, k), ol, o, tl, t)
    requires PreviewRest(hunks, res, mode, Render(segs[1..]), Idle(out + b, k + 1))
          == out + b + ExpectedPreview(hunks, res, mode, segs[1..], k + 1)
    ensures PreviewRest(hunks, res, mode, Render(segs), Idle(out, k)) == out + ExpectedPreview(hunks, res, mode, segs, k)
  {
    BlockRender(hunks, res, mode, segs, ol, o, tl, t, out, k);
    ExpectedBlock(hunks, res, mode, segs, ol, o, tl, t, k);
    AppendAssoc(out, b, ExpectedPreview(hunks, res, mode, segs[1..], k + 1));
  }

  lemma AppendAssoc<T>(a: seq<T>, b: seq<T>, c: seq<T>)
    ensures a + b + c == a + (b + c)
  {
  }

  /** The lines of a leading block take the loop past it. */
  lemma BlockRender(hunks: seq<ConflictHunk>, res: Option<FileResolutions>, mode: Mode, segs: seq<Segment>,
                    ol: string, o: seq<string>, tl: string, t: seq<string>, out: seq<PreviewLine>, k: nat)
    requires segs != [] && segs[0] == Block(ol, o, tl, t) && BodyLines(o) && BodyLines(t)
    ensures PreviewRest(hunks, res, mode, Render(segs), Idle(out, k))
         == PreviewRest(hunks, res, mode, Render(segs[1..]),
                        Idle(out + BlockPreview(mode, ActiveFor(hunks, res, k), ol, o, tl, t), k + 1))
  {
    RenderCons(segs);
    PreviewBlock(hunks, res, mode, ol, o, tl, t, Render(segs[1..]), out, k);
  }

  /** The loop over the lines of previewable segments shows the expected lines. */
  lemma {:induction false} PreviewSegments(hunks: seq<ConflictHunk>, res: Option<FileResolutions>, mode: Mode,
                                           segs: seq<Segment>, out: seq<PreviewLine>, k: nat)
    requires Previewable(segs)
    ensures PreviewRest(hunks, res, mode, Render(segs), Idle(out, k)) == out + ExpectedPreview(hunks, res, mode, segs, k)
    decreases |segs|
  {
    if segs == [] {
      assert out + [] == out;
    } else {
      PreviewableTail(segs);
      match segs[0] {
        case Text(t) =>
          PreviewSegments(hunks, res, mode, segs[1..], out + Plain(t), k);
          PreviewTextSegment(hunks, res, mode, segs, t, out, k);
        case Block(ol, o, tl, t) =>
          var b := BlockPreview(mode, ActiveFor(hunks, res, k), ol, o, tl, t);
          PreviewSegments(hunks, res, mode, segs[1..], out + b, k + 1);
          PreviewBlockSegment(hunks, res, mode, segs, ol, o, tl, t, b, out, k);
      }
    }
  }

  /** For a conflicted file whose lines are previewable segments, the preview is the expected one. */
  lemma PreviewOfSegments(file: ConflictFile, res: Option<FileResolutions>, mode: Mode, segs: seq<Segment>)
    requires file.conflicts != [] && Previewable(segs) && Split(file.content, "\n") == Render(segs)
    ensures Preview(file, res, mode) == ExpectedPreview(file.conflicts, res, mode, segs, 0)
  {
    PreviewSegments(file.conflicts, res, mode, segs, [], 0);
    assert [] + ExpectedPreview(file.conflicts, res, mode, segs, 0) == ExpectedPreview(file.conflicts, res, mode, segs, 0);
  }
}
