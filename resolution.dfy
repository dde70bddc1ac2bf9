/**
 * The resolution side of the conflict resolver page
 * (src/pages/ConflictResolverPage/hooks/useResolution.ts): the text a choice stands for, the
 * per-file record of chosen resolutions, and `buildResolvedContent`, which rewrites a conflicted
 * file by putting each hunk's chosen text in place of its marker block.
 *
 * `BuildResolvedContent` runs the loop of the source and is proved to end in `ResolvedContent`.
 * For a file made of text and complete blocks (the segments of `GitConflicts`), `Expected`
 * says what that is: text kept, the k-th block replaced by the k-th hunk's resolution, or the
 * error the source throws.
 */
module Resolution {
  import opened Wrappers
  import opened Strings
  import opened GitTypes
  import opened GitConflicts

  datatype Choice = Ours | Theirs | Both | Custom

  datatype HunkResolution = HunkResolution(hunkId: nat, choice: Choice, content: string)

  /** The resolutions of one file, by hunk id. */
  type FileResolutions = map<nat, HunkResolution>

  const OUT_OF_SYNC := "Conflict markers out of sync with parsed hunks."
  const INCOMPLETE := "Nem todos os conflitos foram resolvidos."
  const BINARY := "Binary conflict files must be resolved manually."
  const NO_RESOLUTIONS := "Nenhuma resolucao encontrada para este arquivo."

  /** The error for the `k`-th block (0-based) whose hunk has no resolution yet. */
  function Unresolved(k: nat): string {
    "Conflito " + NatToString(k + 1) + " ainda nao foi resolvido."
  }

  /** The text a choice puts in place of a hunk; a custom choice without text is empty. */
  function ChosenContent(hunk: ConflictHunk, choice: Choice, custom: Option<string>): string {
    match choice
    case Ours => hunk.oursContent
    case Theirs => hunk.theirsContent
    case Both => hunk.oursContent + hunk.theirsContent
    case Custom => custom.GetOr("")
  }

  // ================================================================ buildResolvedContent

  /** The loop's variables between two lines. */
  datatype Pass = Pass(out: seq<string>, inConflict: bool, hunkIndex: nat)

  /** What the loop does with one line: an opening marker outside a block is replaced. */
  function ResolveLine(hunks: seq<ConflictHunk>, res: FileResolutions, line: string, p: Pass): Result<Pass, string> {
    if !p.inConflict && StartsWith(line, OURS_MARKER) then
      if p.hunkIndex >= |hunks| then Err(OUT_OF_SYNC)
      else if hunks[p.hunkIndex].id !in res then Err(Unresolved(p.hunkIndex))
      else Ok(p.(out := p.out + Split(res[hunks[p.hunkIndex].id].content, "\n"), inConflict := true))
    else if p.inConflict then
      if StartsWith(line, THEIRS_MARKER) then Ok(p.(inConflict := false, hunkIndex := p.hunkIndex + 1))
      else Ok(p)
    else Ok(p.(out := p.out + [line]))
  }

  /** The loop over the lines still to come, then the final count check and the join. */
  function ResolveRest(hunks: seq<ConflictHunk>, res: FileResolutions, rest: seq<string>, p: Pass): Result<string, string>
    decreases |rest|
  {
    if rest == [] then
      if p.hunkIndex < |hunks| then Err(INCOMPLETE) else Ok(Join(p.out, "\n"))
    else
      match ResolveLine(hunks, res, rest[0], p)
      case Err(e) => Err(e)
      case Ok(q) => ResolveRest(hunks, res, rest[1..], q)
  }

  const Fresh: Pass := Pass([], false, 0)

  /** What `buildResolvedContent` returns or throws for a file and its resolutions. */
  function ResolvedContent(file: ConflictFile, res: FileResolutions): Result<string, string> {
    if file.conflicts == [] then Ok(file.content)
    else ResolveRest(file.conflicts, res, Split(file.content, "\n"), Fresh)
  }

  /**
   * `buildResolvedContent`: a file without hunks comes back unchanged; otherwise its lines are
   * copied, each marker block giving way to its hunk's resolution, and a thrown error is `Err`.
   */
  method BuildResolvedContent(file: ConflictFile, res: FileResolutions) returns (r: Result<string, string>)
    ensures r == ResolvedContent(file, res)
    ensures file.conflicts == [] ==> r == Ok(file.content)
  {
    if |file.conflicts| == 0 {
      return Ok(file.content);
    }
    var lines := Split(file.content, "\n");
    var outputLines: seq<string> := [];
    var inConflict := false;
    var hunkIndex: nat := 0;
    var i := 0;
    while i < |lines|
      invariant i <= |lines|
      invariant ResolveRest(file.conflicts, res, lines, Fresh)
             == ResolveRest(file.conflicts, res, lines[i..], Pass(outputLines, inConflict, hunkIndex))
    {
      var line := lines[i];
      assert lines[i..][0] == line && lines[i..][1..] == lines[i + 1..];
      if !inConflict && StartsWith(line, OURS_MARKER) {
        if hunkIndex >= |file.conflicts| {
          return Err(OUT_OF_SYNC);
        }
        var hunk := file.conflicts[hunkIndex];
        if hunk.id !in res {
          return Err(Unresolved(hunkIndex));
        }
        outputLines := outputLines + Split(res[hunk.id].content, "\n");
        inConflict := true;
      } else if inConflict {
        if StartsWith(line, THEIRS_MARKER) {
          inConflict := false;
          hunkIndex := hunkIndex + 1;
        }
      } else {
        outputLines := outputLines + [line];
      }
      i := i + 1;
    }
    if hunkIndex < |file.conflicts| {
      return Err(INCOMPLETE);
    }
    return Ok(Join(outputLines, "\n"));
  }

  // ================================================================ the expected result

  /** No text line opens a block, and no line inside a block closes it early. */
  predicate Resolvable(segs: seq<Segment>) {
    forall k :: 0 <= k < |segs| ==> ResolvableSegment(segs[k])
  }

  predicate ResolvableSegment(s: Segment) {
    match s
    case Text(t) => forall j :: 0 <= j < |t| ==> !StartsWith(t[j], OURS_MARKER)
    case Block(_, o, _, t) =>
      (forall j :: 0 <= j < |o| ==> !StartsWith(o[j], THEIRS_MARKER))
      && forall j :: 0 <= j < |t| ==> !StartsWith(t[j], THEIRS_MARKER)
  }

  function Prepend(ls: seq<string>, r: Result<seq<string>, string>): Result<seq<string>, string> {
    match r
    case Ok(v) => Ok(ls + v)
    case Err(e) => Err(e)
  }

  /**
   * The lines a reader expects from segments whose first block is the `k`-th: text as it is,
   * a block replaced by its hunk's resolution cut at `\n`; the first missing hunk or resolution
   * is an error, and so is a hunk left over after the last block.
   */
  function Expected(hunks: seq<ConflictHunk>, res: FileResolutions, segs: seq<Segment>, k: nat): Result<seq<string>, string>
    decreases |segs|
  {
    if segs == [] then
      if k < |hunks| then Err(INCOMPLETE) else Ok([])
    else
      match segs[0]
      case Text(t) => Prepend(t, Expected(hunks, res, segs[1..], k))
      case Block(_, _, _, _) =>
        if k >= |hunks| then Err(OUT_OF_SYNC)
        else if hunks[k].id !in res then Err(Unresolved(k))
        else Prepend(Split(res[hunks[k].id].content, "\n"), Expected(hunks, res, segs[1..], k + 1))
  }

  /** The number of blocks. */
  function Blocks(segs: seq<Segment>): nat
    decreases |segs|
  {
    if segs == [] then 0 else (if segs[0].Block? then 1 else 0) + Blocks(segs[1..])
  }

  /**
   * When the expected result is a success: exactly as many hunks as blocks remain, and every
   * one of them has a resolution.
   */
  lemma {:induction false} ExpectedOk(hunks: seq<ConflictHunk>, res: FileResolutions, segs: seq<Segment>, k: nat)
    requires k <= |hunks|
    ensures Expected(hunks, res, segs, k).Ok?
        <==> k + Blocks(segs) == |hunks| && forall j :: k <= j < |hunks| ==> hunks[j].id in res
    decreases |segs|
  {
    if segs != [] {
      if segs[0].Text? {
        ExpectedOk(hunks, res, segs[1..], k);
      } else if k < |hunks| && hunks[k].id in res {
        ExpectedOk(hunks, res, segs[1..], k + 1);
        assert (forall j :: k <= j < |hunks| ==> hunks[j].id in res)
           <==> (forall j :: k + 1 <= j < |hunks| ==> hunks[j].id in res);
      }
    }
  }

  /** More hunks than blocks: the check after the loop throws. */
  lemma {:induction false} ExpectedTooFewBlocks(hunks: seq<ConflictHunk>, res: FileResolutions, segs: seq<Segment>, k: nat)
    requires k + Blocks(segs) < |hunks|
    requires forall j :: 0 <= j < |hunks| ==> hunks[j].id in res
    ensures Expected(hunks, res, segs, k) == Err(INCOMPLETE)
    decreases |segs|
  {
    if segs != [] {
      ExpectedTooFewBlocks(hunks, res, segs[1..], if segs[0].Block? then k + 1 else k);
    }
  }

  /** More blocks than hunks: the first block without a hunk throws. */
  lemma {:induction false} ExpectedTooManyBlocks(hunks: seq<ConflictHunk>, res: FileResolutions, segs: seq<Segment>, k: nat)
    requires k <= |hunks| < k + Blocks(segs)
    requires forall j :: 0 <= j < |hunks| ==> hunks[j].id in res
    ensures Expected(hunks, res, segs, k) == Err(OUT_OF_SYNC)
    decreases |segs|
  {
    if segs[0].Text? {
      ExpectedTooManyBlocks(hunks, res, segs[1..], k);
    } else if k < |hunks| {
      ExpectedTooManyBlocks(hunks, res, segs[1..], k + 1);
    }
  }

  // ---------------------------------------------------------------- the loop meets the expectation

  function Outcome(out: seq<string>, r: Result<seq<string>, string>): Result<string, string> {
    match r
    case Ok(v) => Ok(Join(out + v, "\n"))
    case Err(e) => Err(e)
  }

  /** Text lines outside a block are copied one by one. */
  lemma {:induction false} ResolveText(hunks: seq<ConflictHunk>, res: FileResolutions, t: seq<string>, more: seq<string>,
                                       out: seq<string>, k: nat)
    requires forall j :: 0 <= j < |t| ==> !StartsWith(t[j], OURS_MARKER)
    ensures ResolveRest(hunks, res, t + more, Pass(out, false, k)) == ResolveRest(hunks, res, more, Pass(out + t, false, k))
    decreases |t|
  {
    if t == [] {
      assert t + more == more && out + t == out;
    } else {
      assert (t + more)[0] == t[0] && (t + more)[1..] == t[1..] + more;
      ResolveText(hunks, res, t[1..], more, out + [t[0]], k);
      assert out + [t[0]] + t[1..] == out + t;
    }
  }

  /** Inside a block, lines that do not close it are dropped. */
  lemma {:induction false} ResolveInside(hunks: seq<ConflictHunk>, res: FileResolutions, ls: seq<string>, more: seq<string>,
                                         out: seq<string>, k: nat)
    requires forall j :: 0 <= j < |ls| ==> !StartsWith(ls[j], THEIRS_MARKER)
    ensures ResolveRest(hunks, res, ls + more, Pass(out, true, k)) == ResolveRest(hunks, res, more, Pass(out, true, k))
    decreases |ls|
  {
    if ls == [] {
      assert ls + more == more;
    } else {
      assert (ls + more)[0] == ls[0] && (ls + more)[1..] == ls[1..] + more;
      ResolveInside(hunks, res, ls[1..], more, out, k);
    }
  }

  /** A whole block: its hunk's resolution goes out and the next block takes the next hunk. */
  lemma ResolveBlock(hunks: seq<ConflictHunk>, res: FileResolutions, ol: string, o: seq<string>, tl: string,
                     t: seq<string>, more: seq<string>, out: seq<string>, k: nat)
    requires ResolvableSegment(Block(ol, o, tl, t))
    requires k < |hunks| && hunks[k].id in res
    ensures ResolveRest(hunks, res, SegmentLines(Block(ol, o, tl, t)) + more, Pass(out, false, k))
         == ResolveRest(hunks, res, more, Pass(out + Split(res[hunks[k].id].content, "\n"), false, k + 1))
  {
    var lines := SegmentLines(Block(ol, o, tl, t)) + more;
    var after := o + ([SEPARATOR] + t) + ([CloseLine(tl)] + more);
    assert lines[0] == OpenLine(ol) && lines[1..] == after;
    assert StartsWith(OpenLine(ol), OURS_MARKER);
    var out' := out + Split(res[hunks[k].id].content, "\n");
    assert ResolveRest(hunks, res, lines, Pass(out, false, k)) == ResolveRest(hunks, res, after, Pass(out', true, k));
    assert !StartsWith(SEPARATOR, THEIRS_MARKER) by { assert SEPARATOR[0] != THEIRS_MARKER[0]; }
    var inner := o + ([SEPARATOR] + t);
    assert forall j :: 0 <= j < |inner| ==> !StartsWith(inner[j], THEIRS_MARKER) by {
      forall j | 0 <= j < |inner| ensures !StartsWith(inner[j], THEIRS_MARKER) {
        if j < |o| { assert inner[j] == o[j]; }
        else if j == |o| { assert inner[j] == SEPARATOR; }
        else { assert inner[j] == t[j - |o| - 1]; }
      }
    }
    ResolveInside(hunks, res, inner, [CloseLine(tl)] + more, out', k);
    var close := [CloseLine(tl)] + more;
    assert close[0] == CloseLine(tl) && close[1..] == more;
    assert StartsWith(CloseLine(tl), THEIRS_MARKER);
  }

  /** A block whose hunk is missing or unresolved stops the loop with the source's error. */
  lemma ResolveBlockFails(hunks: seq<ConflictHunk>, res: FileResolutions, ol: string, o: seq<string>, tl: string,
                          t: seq<string>, more: seq<string>, out: seq<string>, k: nat)
    requires k >= |hunks| || hunks[k].id !in res
    ensures ResolveRest(hunks, res, SegmentLines(Block(ol, o, tl, t)) + more, Pass(out, false, k))
         == Err(if k >= |hunks| then OUT_OF_SYNC else Unresolved(k))
  {
    var lines := SegmentLines(Block(ol, o, tl, t)) + more;
    assert lines[0] == OpenLine(ol);
    assert StartsWith(OpenLine(ol), OURS_MARKER);
  }

  lemma OutcomePrepend(out: seq<string>, ls: seq<string>, r: Result<seq<string>, string>)
    ensures Outcome(out + ls, r) == Outcome(out, Prepend(ls, r))
  {
    if r.Ok? {
      assert out + ls + r.value == out + (ls + r.value);
    }
  }

  lemma ResolvableTail(segs: seq<Segment>)
    requires segs != [] && Resolvable(segs)
    ensures ResolvableSegment(segs[0]) && Resolvable(segs[1..])
  {
    forall j | 0 <= j < |segs[1..]| ensures ResolvableSegment(segs[1..][j]) {
      assert segs[1..][j] == segs[j + 1];
    }
  }

  /** One text segment: copied, and the expectation starts with it. */
  lemma ResolveTextSegment(hunks: seq<ConflictHunk>, res: FileResolutions, segs: seq<Segment>, t: seq<string>,
                           out: seq<string>, k: nat)
    requires segs != [] && segs[0] == Text(t) && ResolvableSegment(Text(t))
    ensures ResolveRest(hunks, res, Render(segs), Pass(out, false, k))
         == ResolveRest(hunks, res, Render(segs[1..]), Pass(out + t, false, k))
    ensures Expected(hunks, res, segs, k) == Prepend(t, Expected(hunks, res, segs[1..], k))
  {
    RenderCons(segs);
    ResolveText(hunks, res, t, Render(segs[1..]), out, k);
  }

  /** One block segment whose hunk has a resolution: replaced by it. */
  lemma ResolveBlockSegment(hunks: seq<ConflictHunk>, res: FileResolutions, segs: seq<Segment>,
                            ol: string, o: seq<string>, tl: string, t: seq<string>, out: seq<string>, k: nat)
    requires segs != [] && segs[0] == Block(ol, o, tl, t) && ResolvableSegment(Block(ol, o, tl, t))
    requires k < |hunks| && hunks[k].id in res
    ensures ResolveRest(hunks, res, Render(segs), Pass(out, false, k))
         == ResolveRest(hunks, res, Render(segs[1..]), Pass(out + Split(res[hunks[k].id].content, "\n"), false, k + 1))
    ensures Expected(hunks, res, segs, k)
         == Prepend(Split(res[hunks[k].id].content, "\n"), Expected(hunks, res, segs[1..], k + 1))
  {
    RenderCons(segs);
    ResolveBlock(hunks, res, ol, o, tl, t, Render(segs[1..]), out, k);
  }

  /** One block segment whose hunk or resolution is missing: the error. */
  lemma ResolveFailingSegment(hunks: seq<ConflictHunk>, res: FileResolutions, segs: seq<Segment>,
                              ol: string, o: seq<string>, tl: string, t: seq<string>, out: seq<string>, k: nat)
    requires segs != [] && segs[0] == Block(ol, o, tl, t)
    requires k >= |hunks| || hunks[k].id !in res
    ensures ResolveRest(hunks, res, Render(segs), Pass(out, false, k)) == Outcome(out, Expected(hunks, res, segs, k))
  {
    RenderCons(segs);
    ResolveBlockFails(hunks, res, ol, o, tl, t, Render(segs[1..]), out, k);
  }

  /** The loop over the lines of resolvable segments gives the expected outcome. */
  lemma {:induction false} ResolveSegments(hunks: seq<ConflictHunk>, res: FileResolutions, segs: seq<Segment>,
                                           out: seq<string>, k: nat)
    requires Resolvable(segs)
    ensures ResolveRest(hunks, res, Render(segs), Pass(out, false, k)) == Outcome(out, Expected(hunks, res, segs, k))
    decreases |segs|
  {
    if segs == [] {
      assert out + [] == out;
    } else {
      ResolvableTail(segs);
      match segs[0] {
        case Text(t) =>
          ResolveTextSegment(hunks, res, segs, t, out, k);
          ResolveSegments(hunks, res, segs[1..], out + t, k);
          OutcomePrepend(out, t, Expected(hunks, res, segs[1..], k));
        case Block(ol, o, tl, t) =>
          if k >= |hunks| || hunks[k].id !in res {
            ResolveFailingSegment(hunks, res, segs, ol, o, tl, t, out, k);
          } else {
            var r := Split(res[hunks[k].id].content, "\n");
            ResolveBlockSegment(hunks, res, segs, ol, o, tl, t, out, k);
            ResolveSegments(hunks, res, segs[1..], out + r, k + 1);
            OutcomePrepend(out, r, Expected(hunks, res, segs[1..], k + 1));
          }
      }
    }
  }

  /**
   * For a conflicted file whose lines (cut at `\n`) are resolvable segments, the saved text is
   * the expected lines joined with `\n`, or the expected error.
   */
  lemma ResolvedContentOfSegments(file: ConflictFile, res: FileResolutions, segs: seq<Segment>)
    requires file.conflicts != [] && Resolvable(segs) && Split(file.content, "\n") == Render(segs)
    ensures ResolvedContent(file, res) == Outcome([], Expected(file.conflicts, res, segs, 0))
  {
    ResolveSegments(file.conflicts, res, segs, [], 0);
  }

  lemma {:induction false} JoinSnocEmpty(ls: seq<string>)
    ensures Join(ls + [""], "\n") == Unlines(ls)
    decreases |ls|
  {
    if ls != [] {
      assert (ls + [""])[1..] == ls[1..] + [""];
      JoinSnocEmpty(ls[1..]);
      JoinCons(ls[0], ls[1..] + [""], "\n");
      assert ls + [""] == [ls[0]] + (ls[1..] + [""]);
    }
  }

  lemma RenderThree(a: seq<string>, blk: Segment, b: seq<string>)
    requires blk.Block?
    ensures Render([Text(a), blk, Text(b)]) == a + SegmentLines(blk) + b
  {
    var segs := [Text(a), blk, Text(b)];
    assert segs[1..] == [blk, Text(b)];
    assert segs[1..][1..] == [Text(b)];
    assert Render([Text(b)]) == b + Render([]);
  }

  lemma ExpectedThree(hunks: seq<ConflictHunk>, res: FileResolutions, a: seq<string>, blk: Segment, b: seq<string>)
    requires blk.Block? && |hunks| == 1 && hunks[0].id in res
    ensures Expected(hunks, res, [Text(a), blk, Text(b)], 0) == Ok(a + (Split(res[hunks[0].id].content, "\n") + b))
  {
    var segs := [Text(a), blk, Text(b)];
    var r := Split(res[hunks[0].id].content, "\n");
    assert segs[1..] == [blk, Text(b)];
    assert segs[1..][1..] == [Text(b)];
    assert [Text(b)][1..] == [];
    assert Expected(hunks, res, [], 1) == Ok([]);
    assert b + [] == b;
    assert Expected(hunks, res, [Text(b)], 1) == Ok(b);
    assert Expected(hunks, res, [blk, Text(b)], 0) == Prepend(r, Ok(b));
  }

  lemma ResolvableThree(a: seq<string>, blk: Segment, b: seq<string>)
    requires ResolvableSegment(Text(a)) && ResolvableSegment(blk) && ResolvableSegment(Text(b))
    ensures Resolvable([Text(a), blk, Text(b)])
  {
  }

  /** The empty line after the last `\n` opens no block. */
  lemma ResolvableSnoc(b: seq<string>)
    requires ResolvableSegment(Text(b))
    ensures ResolvableSegment(Text(b + [""]))
  {
    assert !StartsWith("", OURS_MARKER);
    forall j | 0 <= j < |b + [""]| ensures !StartsWith((b + [""])[j], OURS_MARKER) {
      if j < |b| { assert (b + [""])[j] == b[j]; }
    }
  }

  /**
   * Accepting "ours" for the one block of a file git wrote (every line ended by `\n`) leaves
   * the ours lines where the block was, followed by one extra blank line: the `\n` that ends
   * `ours_content` becomes an empty last piece of the split.
   */
  lemma AcceptOursAddsBlankLine(file: ConflictFile, h: ConflictHunk, a: seq<string>, ol: string, o: seq<string>,
                                tl: string, t: seq<string>, b: seq<string>)
    requires forall j :: 0 <= j < |o| ==> '\n' !in o[j]
    requires ResolvableSegment(Text(a)) && ResolvableSegment(Block(ol, o, tl, t)) && ResolvableSegment(Text(b))
    requires Split(file.content, "\n") == a + SegmentLines(Block(ol, o, tl, t)) + b + [""]
    requires file.conflicts == [h] && h.oursContent == Unlines(o)
    ensures ResolvedContent(file, map[h.id := HunkResolution(h.id, Ours, ChosenContent(h, Ours, None))])
         == Ok(Unlines(a + o + [""] + b))
  {
    var res := map[h.id := HunkResolution(h.id, Ours, ChosenContent(h, Ours, None))];
    assert res[h.id].content == Unlines(o);
    AcceptedBlock(file, res, h.id, a, Block(ol, o, tl, t), o, b);
  }

  /** The same, for any recorded resolution whose text is the lines `o`, each ended by `\n`. */
  lemma AcceptedBlock(file: ConflictFile, res: FileResolutions, id: nat, a: seq<string>, blk: Segment, o: seq<string>,
                      b: seq<string>)
    requires forall j :: 0 <= j < |o| ==> '\n' !in o[j]
    requires blk.Block? && ResolvableSegment(Text(a)) && ResolvableSegment(blk) && ResolvableSegment(Text(b))
    requires Split(file.content, "\n") == a + SegmentLines(blk) + b + [""]
    requires |file.conflicts| == 1 && file.conflicts[0].id == id && id in res && res[id].content == Unlines(o)
    ensures ResolvedContent(file, res) == Ok(Unlines(a + o + [""] + b))
  {
    var b' := b + [""];
    ResolvableSnoc(b);
    assert a + SegmentLines(blk) + b + [""] == a + SegmentLines(blk) + b';
    ResolvedThree(file, res, a, blk, b');
    SplitUnlines(o);
    AcceptedLines(a, o, b);
  }

  /** The one block of a file between two runs of text gives way to its resolution's lines. */
  lemma ResolvedThree(file: ConflictFile, res: FileResolutions, a: seq<string>, blk: Segment, b: seq<string>)
    requires blk.Block? && ResolvableSegment(Text(a)) && ResolvableSegment(blk) && ResolvableSegment(Text(b))
    requires Split(file.content, "\n") == a + SegmentLines(blk) + b
    requires |file.conflicts| == 1 && file.conflicts[0].id in res
    ensures ResolvedContent(file, res) == Ok(Join(a + (Split(res[file.conflicts[0].id].content, "\n") + b), "\n"))
  {
    ResolvableThree(a, blk, b);
    RenderThree(a, blk, b);
    ResolvedContentOfSegments(file, res, [Text(a), blk, Text(b)]);
    ExpectedThree(file.conflicts, res, a, blk, b);
    var v := a + (Split(res[file.conflicts[0].id].content, "\n") + b);
    assert [] + v == v;
  }

  lemma AcceptedLines(a: seq<string>, o: seq<string>, b: seq<string>)
    ensures Join(a + ((o + [""]) + (b + [""])), "\n") == Unlines(a + o + [""] + b)
  {
    assert a + ((o + [""]) + (b + [""])) == (a + o + [""] + b) + [""];
    JoinSnocEmpty(a + o + [""] + b);
  }

  // ================================================================ the page's resolution state

  /** The hook's state: chosen resolutions per file, and the files saved since their last change. */
  class ResolutionState {
    var resolutions: map<string, FileResolutions>
    var resolvedFiles: set<string>

    constructor()
      ensures resolutions == map[] && resolvedFiles == {}
    {
      resolutions := map[];
      resolvedFiles := {};
    }

    /** The resolutions recorded for a file; none is the empty record. */
    function FileRecord(filePath: string): (r: FileResolutions)
      reads this
      ensures filePath !in resolutions ==> r == map[]
      ensures filePath in resolutions ==> r == resolutions[filePath]
    {
      if filePath in resolutions then resolutions[filePath] else map[]
    }

    /**
     * `applyResolution`: records the chosen text for that hunk of that file, replacing an
     * earlier choice, and marks the file as unsaved again; nothing else changes.
     */
    method ApplyResolution(filePath: string, hunk: ConflictHunk, choice: Choice, custom: Option<string>)
      modifies this
      ensures resolutions == old(resolutions)[filePath := old(FileRecord(filePath))[hunk.id :=
                 HunkResolution(hunk.id, choice, ChosenContent(hunk, choice, custom))]]
      ensures resolvedFiles == old(resolvedFiles) - {filePath}
    {
      var content := ChosenContent(hunk, choice, custom);
      var fileResolutions := FileRecord(filePath);
      resolutions := resolutions[filePath := fileResolutions[hunk.id := HunkResolution(hunk.id, choice, content)]];
      if filePath in resolvedFiles {
        resolvedFiles := resolvedFiles - {filePath};
      }
    }

    /** `getResolvedContent`: the recorded text of that hunk, or empty. */
    function GetResolvedContent(filePath: string, hunkId: nat): (r: string)
      reads this
      ensures filePath in resolutions && hunkId in resolutions[filePath] ==> r == resolutions[filePath][hunkId].content
      ensures !(filePath in resolutions && hunkId in resolutions[filePath]) ==> r == ""
    {
      if filePath in resolutions && hunkId in resolutions[filePath] then resolutions[filePath][hunkId].content else ""
    }

    /**
     * `saveFile`: refuses binary files and files with no resolutions, builds the text (whose
     * errors it passes on), hands it to the backend (`written` is what that call gave), and only
     * then marks the file as resolved.
     */
    method SaveFile(filePath: string, file: ConflictFile, written: Result<(), string>) returns (r: Result<string, string>)
      modifies this`resolvedFiles
      ensures file.isBinary ==> r == Err(BINARY)
      ensures !file.isBinary && filePath !in resolutions ==> r == Err(NO_RESOLUTIONS)
      ensures !file.isBinary && filePath in resolutions ==>
        r == match ResolvedContent(file, resolutions[filePath])
             case Err(e) => Err(e)
             case Ok(text) => if written.Err? then Err(written.error) else Ok(text)
      ensures resolvedFiles == if r.Ok? then old(resolvedFiles) + {filePath} else old(resolvedFiles)
    {
      if file.isBinary {
        return Err(BINARY);
      }
      if filePath !in resolutions {
        return Err(NO_RESOLUTIONS);
      }
      var resolvedContent := BuildResolvedContent(file, resolutions[filePath]);
      if resolvedContent.Err? {
        return resolvedContent;
      }
      if written.Err? {
        return Err(written.error);
      }
      resolvedFiles := resolvedFiles + {filePath};
      r := resolvedContent;
    }
  }

  /** Recording one resolution changes no other file's record and no other hunk's entry. */
  lemma RecordTouchesOneEntry(m: map<string, FileResolutions>, filePath: string, id: nat, h: HunkResolution,
                              f: string, j: nat)
    requires (f, j) != (filePath, id)
    ensures var rec := if filePath in m then m[filePath] else map[];
            var m' := m[filePath := rec[id := h]];
            (f in m' && j in m'[f]) <==> (f in m && j in m[f])
    ensures var rec := if filePath in m then m[filePath] else map[];
            var m' := m[filePath := rec[id := h]];
            f in m && j in m[f] ==> m'[f][j] == m[f][j]
  {
  }
}
