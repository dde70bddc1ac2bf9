/**
 * The conflict-marker scanner behind `parse_conflict_file` in src-tauri/src/git/mod.rs:
 * one pass over the lines of a conflicted file that cuts it into hunks at
 * `<<<<<<<`, `=======` and `>>>>>>>` marker lines.
 *
 * `Scan` is the scanner as a function of how many lines it has seen; the method
 * `ParseConflictFile` runs the loop of the source and is proved to end in `Scan`'s state.
 * The lemmas say what the hunks are: for every input (ids, marker positions, context
 * windows, count), and exactly for every well-formed conflicted file (`Render` of segments).
 */
module GitConflicts {
  import opened Wrappers
  import opened Strings
  import opened GitTypes

  const OURS_MARKER: string := "<<<<<<<"
  const SEPARATOR: string := "======="
  const THEIRS_MARKER: string := ">>>>>>>"

  /** What reading the conflicted file from disk gave. */
  datatype FileBytes = Unreadable | InvalidUtf8 | Utf8(text: string)

  predicate IsMarkerLine(l: string) {
    StartsWith(l, OURS_MARKER) || StartsWith(l, SEPARATOR) || StartsWith(l, THEIRS_MARKER)
  }

  /** The label after a marker: the marker characters go, then surrounding blanks. */
  function MarkerLabel(line: string, c: char): string {
    Trim(TrimStartChar(line, c))
  }

  /** Up to three lines before the line at index `start` (the index saturates at 0). */
  function ContextBefore(lines: seq<string>, start: nat): (r: seq<string>)
    ensures |r| <= 3
  {
    var e := if start <= |lines| then start else |lines|;
    lines[if e >= 3 then e - 3 else 0..e]
  }

  /** Up to three lines after the line at index `close`, cut at the end of the file. */
  function ContextAfter(lines: seq<string>, close: nat): (r: seq<string>)
    ensures |r| <= 3
  {
    var b := if close + 1 <= |lines| then close + 1 else |lines|;
    var e := if close + 4 <= |lines| then close + 4 else |lines|;
    lines[b..e]
  }

  /** The scanner's variables between two lines. */
  datatype ScanState = ScanState(
    conflicts: seq<ConflictHunk>,
    nextId: nat,
    inOurs: bool,
    inTheirs: bool,
    ours: string,
    theirs: string,
    oursLabel: string,
    startLine: nat,
    startIndex: Option<nat>)

  const Start: ScanState := ScanState([], 0, false, false, "", "", "", 0, None)

  /** The hunk a closing marker at index `n` produces from the text gathered so far. */
  function CloseHunk(lines: seq<string>, n: nat, st: ScanState): ConflictHunk
    requires n < |lines|
  {
    ConflictHunk(st.nextId, st.ours, st.theirs, st.oursLabel, MarkerLabel(lines[n], '>'),
                 st.startLine, n + 1, ContextBefore(lines, st.startIndex.GetOr(n)), ContextAfter(lines, n))
  }

  /** What the scanner does with the line at index `n`. */
  function Step(lines: seq<string>, n: nat, st: ScanState): ScanState
    requires n < |lines|
  {
    var line := lines[n];
    if StartsWith(line, OURS_MARKER) then
      st.(inOurs := true, inTheirs := false, startLine := n + 1, startIndex := Some(n),
          oursLabel := MarkerLabel(line, '<'))
    else if StartsWith(line, SEPARATOR) then
      st.(inOurs := false, inTheirs := true)
    else if StartsWith(line, THEIRS_MARKER) then
      st.(conflicts := st.conflicts + [CloseHunk(lines, n, st)], nextId := st.nextId + 1, inOurs := false,
          inTheirs := false, ours := "", theirs := "", startIndex := None)
    else if st.inOurs then
      st.(ours := st.ours + line + "\n")
    else if st.inTheirs then
      st.(theirs := st.theirs + line + "\n")
    else
      st
  }

  /** The scanner's state after the first `n` lines. */
  function Scan(lines: seq<string>, n: nat): (st: ScanState)
    requires n <= |lines|
    ensures st.nextId == |st.conflicts|
    ensures st.startLine <= n
    ensures st.startIndex.Some? ==> st.startIndex.value < n && st.startLine == st.startIndex.value + 1
    decreases n
  {
    if n == 0 then Start else Step(lines, n - 1, Scan(lines, n - 1))
  }

  /** The hunks of a decoded file: the scanner run over all of its lines. */
  function Hunks(content: string): seq<ConflictHunk> {
    var lines := Lines(content);
    Scan(lines, |lines|).conflicts
  }

  /**
   * `parse_conflict_file`: a file that cannot be read is an error, one that is not UTF-8 is
   * binary with no hunks and no content, any other keeps its text verbatim and gets its hunks.
   */
  method ParseConflictFile(filePath: string, bytes: FileBytes) returns (r: Result<ConflictFile, string>)
    ensures bytes.Unreadable? ==> r == Err("Failed to read " + filePath)
    ensures bytes.InvalidUtf8? ==> r == Ok(ConflictFile(filePath, [], "", true))
    ensures bytes.Utf8? ==> r == Ok(ConflictFile(filePath, Hunks(bytes.text), bytes.text, false))
  {
    if bytes.Unreadable? {
      return Err("Failed to read " + filePath);
    }
    if bytes.InvalidUtf8? {
      return Ok(ConflictFile(filePath, [], "", true));
    }
    var content := bytes.text;
    var lines := Lines(content);
    var conflicts: seq<ConflictHunk> := [];
    var currentHunkId: nat := 0;
    var inOurs := false;
    var inTheirs := false;
    var oursContent := "";
    var theirsContent := "";
    var oursLabel := "";
    var startLine: nat := 0;
    var conflictStartIndex: Option<nat> := None;
    var lineNum := 0;
    while lineNum < |lines|
      invariant lineNum <= |lines|
      invariant Scan(lines, lineNum) == ScanState(conflicts, currentHunkId, inOurs, inTheirs, oursContent,
                                                  theirsContent, oursLabel, startLine, conflictStartIndex)
    {
      var line := lines[lineNum];
      var currentLine := lineNum + 1;
      ghost var st := Scan(lines, lineNum);
      ScanNext(lines, lineNum);
      if StartsWith(line, OURS_MARKER) {
        StepOpen(lines, lineNum, st);
        inOurs := true;
        inTheirs := false;
        startLine := currentLine;
        conflictStartIndex := Some(lineNum);
        oursLabel := MarkerLabel(line, '<');
        assert Scan(lines, lineNum + 1) == ScanState(conflicts, currentHunkId, inOurs, inTheirs, oursContent,
                                                     theirsContent, oursLabel, startLine, conflictStartIndex);
      } else if StartsWith(line, SEPARATOR) {
        StepSeparator(lines, lineNum, st);
        inOurs := false;
        inTheirs := true;
        assert Scan(lines, lineNum + 1) == ScanState(conflicts, currentHunkId, inOurs, inTheirs, oursContent,
                                                     theirsContent, oursLabel, startLine, conflictStartIndex);
      } else if StartsWith(line, THEIRS_MARKER) {
        StepClose(lines, lineNum, st);
        var hunk := ClosingHunk(lines, lineNum, currentHunkId, oursContent, theirsContent, oursLabel,
                                startLine, conflictStartIndex);
        conflicts := conflicts + [hunk];
        currentHunkId := currentHunkId + 1;
        inOurs := false;
        inTheirs := false;
        oursContent := "";
        theirsContent := "";
        conflictStartIndex := None;
        assert Scan(lines, lineNum + 1) == ScanState(conflicts, currentHunkId, inOurs, inTheirs, oursContent,
                                                     theirsContent, oursLabel, startLine, conflictStartIndex);
      } else {
        StepText(lines, lineNum, st);
        if inOurs {
          oursContent := oursContent + line + "\n";
        } else if inTheirs {
          theirsContent := theirsContent + line + "\n";
        }
        assert Scan(lines, lineNum + 1) == ScanState(conflicts, currentHunkId, inOurs, inTheirs, oursContent,
                                                     theirsContent, oursLabel, startLine, conflictStartIndex);
      }
      lineNum := lineNum + 1;
    }
    return Ok(ConflictFile(filePath, conflicts, content, false));
  }

  /** The hunk the closing marker at index `lineNum` completes, with its two context windows. */
  method ClosingHunk(lines: seq<string>, lineNum: nat, currentHunkId: nat, oursContent: string, theirsContent: string,
                     oursLabel: string, startLine: nat, conflictStartIndex: Option<nat>) returns (hunk: ConflictHunk)
    requires lineNum < |lines| && (conflictStartIndex.Some? ==> conflictStartIndex.value < lineNum)
    ensures hunk == CloseHunk(lines, lineNum, ScanState([], currentHunkId, false, false, oursContent, theirsContent,
                                                        oursLabel, startLine, conflictStartIndex))
  {
    var theirsLabel := MarkerLabel(lines[lineNum], '>');
    var startIndex := conflictStartIndex.GetOr(lineNum);
    var contextBeforeStart := if startIndex >= 3 then startIndex - 3 else 0;
    var contextBefore := lines[contextBeforeStart..startIndex];
    var contextAfterStart := lineNum + 1;
    var contextAfterEnd := if contextAfterStart + 3 <= |lines| then contextAfterStart + 3 else |lines|;
    var contextAfter := lines[contextAfterStart..contextAfterEnd];
    hunk := ConflictHunk(currentHunkId, oursContent, theirsContent, oursLabel,
                         theirsLabel, startLine, lineNum + 1, contextBefore, contextAfter);
  }

  // ================================================================ facts for every input

  lemma ScanNext(lines: seq<string>, n: nat)
    requires n < |lines|
    ensures Scan(lines, n + 1) == Step(lines, n, Scan(lines, n))
  {
  }

  lemma CloserIsNoOtherMarker(l: string)
    requires StartsWith(l, THEIRS_MARKER)
    ensures !StartsWith(l, OURS_MARKER) && !StartsWith(l, SEPARATOR)
  {
    assert l[0] == THEIRS_MARKER[0];
  }

  lemma SeparatorIsNoOpener(l: string)
    requires StartsWith(l, SEPARATOR)
    ensures !StartsWith(l, OURS_MARKER)
  {
    assert l[0] == SEPARATOR[0];
  }

  // The four kinds of line, one lemma each, so that proofs need not unfold `Step` as a whole.

  lemma StepOpen(lines: seq<string>, n: nat, st: ScanState)
    requires n < |lines| && StartsWith(lines[n], OURS_MARKER)
    ensures Step(lines, n, st) == st.(inOurs := true, inTheirs := false, startLine := n + 1,
                                      startIndex := Some(n), oursLabel := MarkerLabel(lines[n], '<'))
  {
  }

  lemma StepSeparator(lines: seq<string>, n: nat, st: ScanState)
    requires n < |lines| && StartsWith(lines[n], SEPARATOR)
    ensures Step(lines, n, st) == st.(inOurs := false, inTheirs := true)
  {
    SeparatorIsNoOpener(lines[n]);
  }

  lemma StepClose(lines: seq<string>, n: nat, st: ScanState)
    requires n < |lines| && StartsWith(lines[n], THEIRS_MARKER)
    ensures Step(lines, n, st) == st.(conflicts := st.conflicts + [CloseHunk(lines, n, st)], nextId := st.nextId + 1,
                                      inOurs := false, inTheirs := false, ours := "", theirs := "",
                                      startIndex := None)
  {
    CloserIsNoOtherMarker(lines[n]);
  }

  lemma StepText(lines: seq<string>, n: nat, st: ScanState)
    requires n < |lines| && !IsMarkerLine(lines[n])
    ensures Step(lines, n, st) == if st.inOurs then st.(ours := st.ours + lines[n] + "\n")
                                  else if st.inTheirs then st.(theirs := st.theirs + lines[n] + "\n")
                                  else st
  {
  }

  /** Only a closing marker line changes the list of hunks, and it appends one. */
  lemma StepConflicts(lines: seq<string>, n: nat, st: ScanState)
    requires n < |lines|
    ensures Step(lines, n, st).conflicts
         == if StartsWith(lines[n], THEIRS_MARKER) then st.conflicts + [CloseHunk(lines, n, st)] else st.conflicts
  {
    if StartsWith(lines[n], THEIRS_MARKER) {
      CloserIsNoOtherMarker(lines[n]);
    }
  }

  /** What holds of the `k`-th hunk whatever the file looks like. */
  predicate HunkShape(lines: seq<string>, h: ConflictHunk, k: nat) {
    && h.id == k
    && 0 < h.endLine <= |lines|
    && StartsWith(lines[h.endLine - 1], THEIRS_MARKER)
    && h.theirsLabel == MarkerLabel(lines[h.endLine - 1], '>')
    && h.startLine < h.endLine
    && h.contextAfter == ContextAfter(lines, h.endLine - 1)
    && |h.contextBefore| <= 3
  }

  lemma CloseHunkShape(lines: seq<string>, n: nat, st: ScanState)
    requires n < |lines| && StartsWith(lines[n], THEIRS_MARKER)
    requires st.startLine <= n && st.nextId == |st.conflicts|
    ensures HunkShape(lines, CloseHunk(lines, n, st), |st.conflicts|)
  {
  }

  lemma AppendShapes(lines: seq<string>, a: seq<ConflictHunk>, h: ConflictHunk)
    requires forall k :: 0 <= k < |a| ==> HunkShape(lines, a[k], k)
    requires HunkShape(lines, h, |a|)
    ensures forall k :: 0 <= k < |a + [h]| ==> HunkShape(lines, (a + [h])[k], k)
  {
    forall k | 0 <= k < |a + [h]| ensures HunkShape(lines, (a + [h])[k], k) {
      if k < |a| {
        assert (a + [h])[k] == a[k];
      }
    }
  }

  /** Hunks in increasing order of closing line, all closing within the first `n` lines. */
  predicate OrderedWithin(cs: seq<ConflictHunk>, n: nat) {
    && (forall k :: 0 <= k < |cs| ==> cs[k].endLine <= n)
    && (forall k, k' :: 0 <= k < k' < |cs| ==> cs[k].endLine < cs[k'].endLine)
  }

  lemma OrderedLater(a: seq<ConflictHunk>, n: nat)
    requires OrderedWithin(a, n)
    ensures OrderedWithin(a, n + 1)
  {
  }

  lemma AppendOrdered(a: seq<ConflictHunk>, h: ConflictHunk, n: nat)
    requires OrderedWithin(a, n) && h.endLine == n + 1
    ensures OrderedWithin(a + [h], n + 1)
  {
    var b := a + [h];
    forall k, k' | 0 <= k < k' < |b| ensures b[k].endLine < b[k'].endLine {
      assert b[k] == a[k];
      if k' < |a| {
        assert b[k'] == a[k'];
      }
    }
  }

  /** Every hunk's id is its position; it ends on a `>>>>>>>` line whose label it carries,
   *  after its opening line number, and its trailing context is the next three lines. */
  lemma {:induction false} ScanHunkShapes(lines: seq<string>, n: nat)
    requires n <= |lines|
    ensures forall k :: 0 <= k < |Scan(lines, n).conflicts| ==> HunkShape(lines, Scan(lines, n).conflicts[k], k)
    decreases n
  {
    if n > 0 {
      ScanHunkShapes(lines, n - 1);
      var st := Scan(lines, n - 1);
      StepConflicts(lines, n - 1, st);
      if StartsWith(lines[n - 1], THEIRS_MARKER) {
        CloseHunkShape(lines, n - 1, st);
        AppendShapes(lines, st.conflicts, CloseHunk(lines, n - 1, st));
      }
    }
  }

  /** Hunks come in file order, each closing within the part scanned. */
  lemma {:induction false} ScanOrdered(lines: seq<string>, n: nat)
    requires n <= |lines|
    ensures OrderedWithin(Scan(lines, n).conflicts, n)
    decreases n
  {
    if n > 0 {
      ScanOrdered(lines, n - 1);
      var st := Scan(lines, n - 1);
      assert Scan(lines, n) == Step(lines, n - 1, st);
      StepConflicts(lines, n - 1, st);
      if StartsWith(lines[n - 1], THEIRS_MARKER) {
        AppendOrdered(st.conflicts, CloseHunk(lines, n - 1, st), n - 1);
      } else {
        OrderedLater(st.conflicts, n - 1);
      }
    }
  }

  /** The number of lines among the first `n` that start with `>>>>>>>`. */
  function CountClosers(lines: seq<string>, n: nat): nat
    requires n <= |lines|
    decreases n
  {
    if n == 0 then 0
    else CountClosers(lines, n - 1) + (if StartsWith(lines[n - 1], THEIRS_MARKER) then 1 else 0)
  }

  /** Every `>>>>>>>` line closes exactly one hunk, matched or not. */
  lemma {:induction false} ScanCountsClosers(lines: seq<string>, n: nat)
    requires n <= |lines|
    ensures |Scan(lines, n).conflicts| == CountClosers(lines, n)
    decreases n
  {
    if n > 0 {
      ScanCountsClosers(lines, n - 1);
      CountStep(lines, n - 1);
    }
  }

  lemma CountStep(lines: seq<string>, n: nat)
    requires n < |lines|
    ensures |Scan(lines, n + 1).conflicts|
         == |Scan(lines, n).conflicts| + (if StartsWith(lines[n], THEIRS_MARKER) then 1 else 0)
  {
    ScanNext(lines, n);
    StepConflicts(lines, n, Scan(lines, n));
  }

  lemma {:induction false} NoClosersCountsZero(lines: seq<string>, n: nat)
    requires n <= |lines|
    requires forall j :: 0 <= j < |lines| ==> !StartsWith(lines[j], THEIRS_MARKER)
    ensures CountClosers(lines, n) == 0
    decreases n
  {
    if n > 0 {
      NoClosersCountsZero(lines, n - 1);
    }
  }

  /** A file without any `>>>>>>>` line has no hunks. */
  lemma NoClosersNoHunks(content: string)
    requires forall j :: 0 <= j < |Lines(content)| ==> !StartsWith(Lines(content)[j], THEIRS_MARKER)
    ensures Hunks(content) == []
  {
    var lines := Lines(content);
    ScanCountsClosers(lines, |lines|);
    NoClosersCountsZero(lines, |lines|);
  }

  /** Every hunk of a decoded file: one per closing marker, numbered, placed and in order. */
  lemma HunksShapes(content: string)
    ensures var lines := Lines(content); var cs := Hunks(content);
      && |cs| == CountClosers(lines, |lines|)
      && (forall k :: 0 <= k < |cs| ==> HunkShape(lines, cs[k], k))
      && OrderedWithin(cs, |lines|)
  {
    var lines := Lines(content);
    ScanHunkShapes(lines, |lines|);
    ScanOrdered(lines, |lines|);
    ScanCountsClosers(lines, |lines|);
  }

  /** Line endings do not matter: a file with `\r\n` endings has the hunks of the `\n` one. */
  lemma CrlfSameHunks(ls: seq<string>)
    requires forall k :: 0 <= k < |ls| ==> IsLine(ls[k])
    ensures Hunks(UnlinesCrlf(ls)) == Hunks(Unlines(ls))
  {
    LinesUnlinesCrlf(ls);
    LinesUnlines(ls);
  }

  /** A last line that lacks its `\n` is scanned like one that has it. */
  lemma MissingFinalBreakSameHunks(ls: seq<string>, l: string)
    requires forall k :: 0 <= k < |ls| ==> IsLine(ls[k])
    requires IsLine(l) && l != ""
    ensures Hunks(Unlines(ls) + l) == Hunks(Unlines(ls + [l]))
  {
    LinesWithoutFinalBreak(ls, l);
    LinesSnoc(ls, l);
    LinesUnlines(ls + [l]);
  }

  lemma LinesSnoc(ls: seq<string>, l: string)
    requires forall k :: 0 <= k < |ls| ==> IsLine(ls[k])
    requires IsLine(l)
    ensures forall k :: 0 <= k < |ls + [l]| ==> IsLine((ls + [l])[k])
  {
    var all := ls + [l];
    forall k | 0 <= k < |all| ensures IsLine(all[k]) {
      if k < |ls| { assert all[k] == ls[k]; }
    }
  }

  // ================================================================ quirks of the scanner

  /**
   * A `>>>>>>>` with no opening marker still makes a hunk: its start line is whatever the
   * scanner last recorded (0 here) and its leading context ends at the closing line itself.
   */
  lemma StrayCloserMakesHunk()
    ensures Scan(["a", ">>>>>>> x"], 2).conflicts
         == [ConflictHunk(0, "", "", "", "x", 0, 2, ["a"], [])]
  {
    var lines := ["a", ">>>>>>> x"];
    assert !IsMarkerLine(lines[0]);
    StepText(lines, 0, Start);
    assert StartsWith(lines[1], THEIRS_MARKER);
    StepClose(lines, 1, Scan(lines, 1));
    CloseLabel("x");
    assert CloseLine("x") == lines[1];
    assert ContextBefore(lines, 1) == ["a"];
  }

  /**
   * An opening marker clears neither the "ours" nor the "theirs" text gathered so far and
   * closes no hunk: after a second opening marker, both openings' lines land in one hunk.
   */
  lemma OpenerKeepsText(lines: seq<string>, n: nat)
    requires n < |lines| && StartsWith(lines[n], OURS_MARKER)
    ensures Scan(lines, n + 1).inOurs && !Scan(lines, n + 1).inTheirs
    ensures Scan(lines, n + 1).ours == Scan(lines, n).ours
    ensures Scan(lines, n + 1).theirs == Scan(lines, n).theirs
    ensures Scan(lines, n + 1).conflicts == Scan(lines, n).conflicts
  {
    StepOpen(lines, n, Scan(lines, n));
  }

  // ================================================================ well-formed files

  /** A conflicted file as a sequence of plain text and complete conflict blocks. */
  datatype Segment =
    | Text(text: seq<string>)
    | Block(oursLabel: string, ours: seq<string>, theirsLabel: string, theirs: seq<string>)

  predicate PlainLines(ls: seq<string>) {
    forall j :: 0 <= j < |ls| ==> !IsMarkerLine(ls[j]) && IsLine(ls[j])
  }

  /** A label git can write after a marker: one line, no surrounding blanks. */
  predicate GoodLabel(l: string) {
    IsTrimmed(l) && '\n' !in l
  }

  predicate GoodSegment(s: Segment) {
    match s
    case Text(t) => PlainLines(t)
    case Block(ol, o, tl, t) => GoodLabel(ol) && PlainLines(o) && GoodLabel(tl) && PlainLines(t)
  }

  predicate WellFormed(segs: seq<Segment>) {
    forall k :: 0 <= k < |segs| ==> GoodSegment(segs[k])
  }

  function OpenLine(name: string): string { OURS_MARKER + " " + name }

  function CloseLine(name: string): string { THEIRS_MARKER + " " + name }

  function SegmentLines(s: Segment): seq<string> {
    match s
    case Text(t) => t
    case Block(ol, o, tl, t) => [OpenLine(ol)] + o + [SEPARATOR] + t + [CloseLine(tl)]
  }

  /** The lines of the file the segments describe. */
  function Render(segs: seq<Segment>): seq<string>
    decreases |segs|
  {
    if segs == [] then [] else SegmentLines(segs[0]) + Render(segs[1..])
  }

  /**
   * The hunks a reader of the file expects, numbered from `id`, for segments whose lines
   * start at index `offset` of `lines`: each block's labels and lines, its marker line
   * numbers, and the three lines around it.
   */
  function ExpectedHunks(lines: seq<string>, segs: seq<Segment>, offset: nat, id: nat): seq<ConflictHunk>
    decreases |segs|
  {
    if segs == [] then []
    else match segs[0]
      case Text(t) => ExpectedHunks(lines, segs[1..], offset + |t|, id)
      case Block(ol, o, tl, t) =>
        var close := offset + |o| + |t| + 2;
        [ConflictHunk(id, Unlines(o), Unlines(t), ol, tl, offset + 1, close + 1,
                      ContextBefore(lines, offset), ContextAfter(lines, close))]
        + ExpectedHunks(lines, segs[1..], close + 1, id + 1)
  }

  /** `ls` sits in `lines` from index `p` on. */
  predicate SliceAt(lines: seq<string>, p: nat, ls: seq<string>) {
    p + |ls| <= |lines| && forall j :: 0 <= j < |ls| ==> lines[p + j] == ls[j]
  }

  predicate Idle(st: ScanState) {
    !st.inOurs && !st.inTheirs && st.ours == "" && st.theirs == "" && st.startIndex.None?
  }

  lemma SliceAtSplit(lines: seq<string>, p: nat, a: seq<string>, b: seq<string>)
    requires SliceAt(lines, p, a + b)
    ensures SliceAt(lines, p, a) && SliceAt(lines, p + |a|, b)
  {
    forall j | 0 <= j < |a| ensures lines[p + j] == a[j] {
      assert (a + b)[j] == a[j];
    }
    forall j | 0 <= j < |b| ensures lines[p + |a| + j] == b[j] {
      assert (a + b)[|a| + j] == b[j];
    }
  }

  lemma OpenLabel(name: string)
    requires GoodLabel(name)
    ensures MarkerLabel(OpenLine(name), '<') == name
  {
    assert OpenLine(name) == OURS_MARKER + (" " + name);
    TrimStartCharRun(OURS_MARKER, " " + name, '<');
    TrimAfterBlanks(" ", name);
  }

  lemma CloseLabel(name: string)
    requires GoodLabel(name)
    ensures MarkerLabel(CloseLine(name), '>') == name
  {
    assert CloseLine(name) == THEIRS_MARKER + (" " + name);
    TrimStartCharRun(THEIRS_MARKER, " " + name, '>');
    TrimAfterBlanks(" ", name);
  }

  lemma AppendLine(a: string, b: string, l: string)
    ensures a + b + l + "\n" == a + (b + (l + "\n"))
  {
  }

  /** One more line of "ours" is one more line of the text gathered since the marker. */
  lemma OursGrows(s0: ScanState, s: ScanState, u: seq<string>, l: string)
    requires s == s0.(ours := s0.ours + Unlines(u))
    ensures s.(ours := s.ours + l + "\n") == s0.(ours := s0.ours + Unlines(u + [l]))
  {
    UnlinesSnoc(u, l);
    AppendLine(s0.ours, Unlines(u), l);
  }

  lemma TheirsGrows(s0: ScanState, s: ScanState, u: seq<string>, l: string)
    requires s == s0.(theirs := s0.theirs + Unlines(u))
    ensures s.(theirs := s.theirs + l + "\n") == s0.(theirs := s0.theirs + Unlines(u + [l]))
  {
    UnlinesSnoc(u, l);
    AppendLine(s0.theirs, Unlines(u), l);
  }

  lemma UnlinesSnoc(ls: seq<string>, l: string)
    ensures Unlines(ls + [l]) == Unlines(ls) + (l + "\n")
  {
    UnlinesAppend(ls, [l]);
    assert Unlines([l]) == l + "\n" + Unlines([]);
  }

  /** Plain lines leave an idle scanner as it was. */
  lemma {:induction false} ScanText(lines: seq<string>, p: nat, t: seq<string>, e: nat)
    requires SliceAt(lines, p, t) && PlainLines(t) && Idle(Scan(lines, p))
    requires e == p + |t|
    ensures Scan(lines, e) == Scan(lines, p)
    decreases |t|
  {
    if |t| > 0 {
      var u := t[..|t| - 1];
      assert SliceAt(lines, p, u);
      ScanText(lines, p, u, e - 1);
      assert lines[e - 1] == t[|t| - 1];
    }
  }

  /** Between an opening marker and the separator, plain lines are appended to "ours". */
  lemma {:induction false} ScanOurs(lines: seq<string>, p: nat, o: seq<string>, e: nat)
    requires p <= |lines| && SliceAt(lines, p, o) && PlainLines(o) && e == p + |o|
    requires Scan(lines, p).inOurs && !Scan(lines, p).inTheirs
    ensures Scan(lines, e) == Scan(lines, p).(ours := Scan(lines, p).ours + Unlines(o))
    decreases |o|
  {
    if |o| == 0 {
      assert Scan(lines, p).ours + Unlines(o) == Scan(lines, p).ours;
    } else {
      var u := o[..|o| - 1];
      var l := o[|o| - 1];
      assert SliceAt(lines, p, u);
      ScanOurs(lines, p, u, e - 1);
      var s := Scan(lines, e - 1);
      assert lines[e - 1] == l && !IsMarkerLine(l);
      StepText(lines, e - 1, s);
      assert Scan(lines, e) == Step(lines, e - 1, s);
      assert o == u + [l];
      OursGrows(Scan(lines, p), s, u, l);
    }
  }

  /** Between the separator and the closing marker, plain lines are appended to "theirs". */
  lemma {:induction false} ScanTheirs(lines: seq<string>, p: nat, t: seq<string>, e: nat)
    requires p <= |lines| && SliceAt(lines, p, t) && PlainLines(t) && e == p + |t|
    requires !Scan(lines, p).inOurs && Scan(lines, p).inTheirs
    ensures Scan(lines, e) == Scan(lines, p).(theirs := Scan(lines, p).theirs + Unlines(t))
    decreases |t|
  {
    if |t| == 0 {
      assert Scan(lines, p).theirs + Unlines(t) == Scan(lines, p).theirs;
    } else {
      var u := t[..|t| - 1];
      var l := t[|t| - 1];
      assert SliceAt(lines, p, u);
      ScanTheirs(lines, p, u, e - 1);
      var s := Scan(lines, e - 1);
      assert lines[e - 1] == l && !IsMarkerLine(l);
      StepText(lines, e - 1, s);
      assert Scan(lines, e) == Step(lines, e - 1, s);
      assert t == u + [l];
      TheirsGrows(Scan(lines, p), s, u, l);
    }
  }

  /** Where each part of a block sits once the block sits at index `p`. */
  lemma BlockSlice(lines: seq<string>, p: nat, ol: string, o: seq<string>, tl: string, t: seq<string>)
    requires SliceAt(lines, p, SegmentLines(Block(ol, o, tl, t)))
    ensures p + |o| + |t| + 3 <= |lines|
    ensures lines[p] == OpenLine(ol)
    ensures SliceAt(lines, p + 1, o)
    ensures lines[p + 1 + |o|] == SEPARATOR
    ensures SliceAt(lines, p + 2 + |o|, t)
    ensures lines[p + 2 + |o| + |t|] == CloseLine(tl)
  {
    var all := [OpenLine(ol)] + o + [SEPARATOR] + t + [CloseLine(tl)];
    assert SegmentLines(Block(ol, o, tl, t)) == all;
    assert lines[p] == all[0];
    forall j | 0 <= j < |o| ensures lines[p + 1 + j] == o[j] {
      assert all[1 + j] == o[j];
    }
    assert lines[p + 1 + |o|] == all[1 + |o|];
    forall j | 0 <= j < |t| ensures lines[p + 2 + |o| + j] == t[j] {
      assert all[2 + |o| + j] == t[j];
    }
    assert lines[p + 2 + |o| + |t|] == all[2 + |o| + |t|];
  }

  /** The opening marker and the "ours" lines up to the separator. */
  lemma ScanBlockOurs(lines: seq<string>, p: nat, ol: string, o: seq<string>, m: nat)
    requires m == p + |o| + 2 && m <= |lines|
    requires GoodLabel(ol) && PlainLines(o)
    requires lines[p] == OpenLine(ol) && SliceAt(lines, p + 1, o) && lines[m - 1] == SEPARATOR
    requires Idle(Scan(lines, p))
    ensures Scan(lines, m)
         == Scan(lines, p).(inOurs := false, inTheirs := true, startLine := p + 1, startIndex := Some(p),
                            oursLabel := ol, ours := Unlines(o))
  {
    ScanOpener(lines, p, ol);
    ScanOursFromEmpty(lines, p + 1, o, m - 1);
    ScanSeparator(lines, m - 1);
  }

  /** An opening marker line written by git starts a hunk and reads back its label. */
  lemma ScanOpener(lines: seq<string>, p: nat, ol: string)
    requires p < |lines| && GoodLabel(ol) && lines[p] == OpenLine(ol)
    ensures Scan(lines, p + 1)
         == Scan(lines, p).(inOurs := true, inTheirs := false, startLine := p + 1, startIndex := Some(p), oursLabel := ol)
  {
    assert StartsWith(OpenLine(ol), OURS_MARKER);
    StepOpen(lines, p, Scan(lines, p));
    OpenLabel(ol);
  }

  lemma ScanOursFromEmpty(lines: seq<string>, p: nat, o: seq<string>, e: nat)
    requires p <= |lines| && SliceAt(lines, p, o) && PlainLines(o) && e == p + |o|
    requires Scan(lines, p).inOurs && !Scan(lines, p).inTheirs && Scan(lines, p).ours == ""
    ensures Scan(lines, e) == Scan(lines, p).(ours := Unlines(o))
  {
    ScanOurs(lines, p, o, e);
    EmptyThenText(Scan(lines, p).ours, Unlines(o));
  }

  lemma ScanSeparator(lines: seq<string>, n: nat)
    requires n < |lines| && lines[n] == SEPARATOR
    ensures Scan(lines, n + 1) == Scan(lines, n).(inOurs := false, inTheirs := true)
  {
    StepSeparator(lines, n, Scan(lines, n));
  }

  /** A closing marker line written by git closes the hunk and reads back its label. */
  lemma ScanCloser(lines: seq<string>, n: nat, tl: string, e: nat)
    requires e == n + 1 && e <= |lines| && GoodLabel(tl) && lines[n] == CloseLine(tl)
    ensures var st := Scan(lines, n);
      Scan(lines, e)
        == st.(conflicts := st.conflicts + [CloseHunk(lines, n, st)], nextId := st.nextId + 1,
               inOurs := false, inTheirs := false, ours := "", theirs := "", startIndex := None)
    ensures CloseHunk(lines, n, Scan(lines, n)).theirsLabel == tl
  {
    assert StartsWith(CloseLine(tl), THEIRS_MARKER);
    StepClose(lines, n, Scan(lines, n));
    CloseLabel(tl);
  }

  /** The "theirs" lines and the closing marker. */
  lemma ScanBlockTheirs(lines: seq<string>, q: nat, t: seq<string>, tl: string, e: nat)
    requires e == q + |t| + 1 && e <= |lines|
    requires GoodLabel(tl) && PlainLines(t)
    requires SliceAt(lines, q, t) && lines[e - 1] == CloseLine(tl)
    requires !Scan(lines, q).inOurs && Scan(lines, q).inTheirs && Scan(lines, q).theirs == ""
    ensures var st := Scan(lines, q).(theirs := Unlines(t));
      Scan(lines, e)
        == st.(conflicts := st.conflicts + [CloseHunk(lines, e - 1, st)], nextId := st.nextId + 1,
               inOurs := false, inTheirs := false, ours := "", theirs := "", startIndex := None)
    ensures CloseHunk(lines, e - 1, Scan(lines, q).(theirs := Unlines(t))).theirsLabel == tl
  {
    ScanTheirsFromEmpty(lines, q, t, e - 1);
    ScanCloser(lines, e - 1, tl, e);
  }

  lemma ScanTheirsFromEmpty(lines: seq<string>, p: nat, t: seq<string>, e: nat)
    requires p <= |lines| && SliceAt(lines, p, t) && PlainLines(t) && e == p + |t|
    requires !Scan(lines, p).inOurs && Scan(lines, p).inTheirs && Scan(lines, p).theirs == ""
    ensures Scan(lines, e) == Scan(lines, p).(theirs := Unlines(t))
  {
    ScanTheirs(lines, p, t, e);
    EmptyThenText(Scan(lines, p).theirs, Unlines(t));
  }

  lemma EmptyThenText(a: string, b: string)
    requires a == ""
    ensures a + b == b
  {
  }

  /** A complete conflict block takes an idle scanner to idle again with one hunk more. */
  lemma ScanBlock(lines: seq<string>, p: nat, ol: string, o: seq<string>, tl: string, t: seq<string>, e: nat)
    requires GoodSegment(Block(ol, o, tl, t))
    requires SliceAt(lines, p, SegmentLines(Block(ol, o, tl, t)))
    requires Idle(Scan(lines, p))
    requires e == p + |o| + |t| + 3
    ensures var st := Scan(lines, p);
      Scan(lines, e)
        == ScanState(st.conflicts + [ConflictHunk(st.nextId, Unlines(o), Unlines(t), ol, tl, p + 1, e,
                                                  ContextBefore(lines, p), ContextAfter(lines, e - 1))],
                     st.nextId + 1, false, false, "", "", ol, p + 1, None)
  {
    BlockSlice(lines, p, ol, o, tl, t);
    var st := Scan(lines, p);
    var m := p + 2 + |o|;
    ScanBlockOurs(lines, p, ol, o, m);
    var s3 := st.(inOurs := false, inTheirs := true, startLine := p + 1, startIndex := Some(p),
                  oursLabel := ol, ours := Unlines(o), theirs := Unlines(t));
    ScanBlockTheirs(lines, m, t, tl, e);
    BlockHunk(lines, e - 1, s3, tl, p);
  }

  lemma BlockHunk(lines: seq<string>, n: nat, st: ScanState, tl: string, p: nat)
    requires n < |lines| && st.startIndex == Some(p) && CloseHunk(lines, n, st).theirsLabel == tl
    ensures CloseHunk(lines, n, st)
         == ConflictHunk(st.nextId, st.ours, st.theirs, st.oursLabel, tl, st.startLine, n + 1,
                         ContextBefore(lines, p), ContextAfter(lines, n))
  {
  }

  lemma WellFormedTail(segs: seq<Segment>)
    requires WellFormed(segs) && segs != []
    ensures GoodSegment(segs[0]) && WellFormed(segs[1..])
  {
    forall k | 0 <= k < |segs| - 1 ensures GoodSegment(segs[1..][k]) {
      assert segs[1..][k] == segs[k + 1];
    }
  }

  lemma ExpectedHunksText(lines: seq<string>, segs: seq<Segment>, p: nat, id: nat, q: nat)
    requires segs != [] && segs[0].Text? && q == p + |segs[0].text|
    ensures ExpectedHunks(lines, segs, p, id) == ExpectedHunks(lines, segs[1..], q, id)
  {
  }

  lemma ExpectedHunksBlock(lines: seq<string>, segs: seq<Segment>, p: nat, id: nat,
                            ol: string, o: seq<string>, tl: string, t: seq<string>, q: nat)
    requires segs != [] && segs[0] == Block(ol, o, tl, t) && q == p + |o| + |t| + 3
    ensures ExpectedHunks(lines, segs, p, id)
         == [ConflictHunk(id, Unlines(o), Unlines(t), ol, tl, p + 1, q, ContextBefore(lines, p), ContextAfter(lines, q - 1))]
            + ExpectedHunks(lines, segs[1..], q, id + 1)
  {
  }

  lemma RenderCons(segs: seq<Segment>)
    requires segs != []
    ensures Render(segs) == SegmentLines(segs[0]) + Render(segs[1..])
    ensures |SegmentLines(segs[0])| == match segs[0] case Text(t) => |t| case Block(_, o, _, t) => |o| + |t| + 3
  {
  }

  /** The common part of one segment: the rest of the file is well formed and sits after it. */
  lemma SegmentTail(lines: seq<string>, segs: seq<Segment>, p: nat, q: nat)
    requires WellFormed(segs) && segs != [] && SliceAt(lines, p, Render(segs))
    requires q == p + |SegmentLines(segs[0])|
    ensures GoodSegment(segs[0]) && SliceAt(lines, p, SegmentLines(segs[0]))
    ensures WellFormed(segs[1..]) && SliceAt(lines, q, Render(segs[1..]))
  {
    RenderHead(segs);
    SliceAtParts(lines, p, q, Render(segs), SegmentLines(segs[0]), Render(segs[1..]));
    WellFormedTail(segs);
  }

  lemma RenderHead(segs: seq<Segment>)
    requires segs != []
    ensures Render(segs) == SegmentLines(segs[0]) + Render(segs[1..])
  {
  }

  lemma SliceAtParts(lines: seq<string>, p: nat, q: nat, r: seq<string>, a: seq<string>, b: seq<string>)
    requires r == a + b && q == p + |a| && SliceAt(lines, p, r)
    ensures SliceAt(lines, p, a) && SliceAt(lines, q, b)
  {
    SliceAtSplit(lines, p, a, b);
  }

  /** A plain-text segment adds no hunk. */
  lemma ScanTextSegment(lines: seq<string>, segs: seq<Segment>, p: nat, q: nat, t: seq<string>)
    requires segs != [] && segs[0] == Text(t) && q == p + |t|
    requires PlainLines(t) && SliceAt(lines, p, t) && Idle(Scan(lines, p))
    ensures Scan(lines, q) == Scan(lines, p)
    ensures ExpectedHunks(lines, segs, p, Scan(lines, p).nextId)
         == ExpectedHunks(lines, segs[1..], q, Scan(lines, p).nextId)
  {
    ScanText(lines, p, t, q);
    ExpectedHunksText(lines, segs, p, Scan(lines, p).nextId, q);
  }

  /** A block segment adds the one hunk it describes. */
  lemma ScanBlockSegment(lines: seq<string>, segs: seq<Segment>, p: nat, q: nat,
                         ol: string, o: seq<string>, tl: string, t: seq<string>) returns (h: ConflictHunk)
    requires segs != [] && segs[0] == Block(ol, o, tl, t) && q == p + |o| + |t| + 3
    requires GoodSegment(Block(ol, o, tl, t)) && SliceAt(lines, p, SegmentLines(Block(ol, o, tl, t)))
    requires Idle(Scan(lines, p))
    ensures Idle(Scan(lines, q))
    ensures Scan(lines, q).conflicts == Scan(lines, p).conflicts + [h]
    ensures Scan(lines, q).nextId == Scan(lines, p).nextId + 1
    ensures ExpectedHunks(lines, segs, p, Scan(lines, p).nextId)
         == [h] + ExpectedHunks(lines, segs[1..], q, Scan(lines, p).nextId + 1)
  {
    var st := Scan(lines, p);
    h := ConflictHunk(st.nextId, Unlines(o), Unlines(t), ol, tl, p + 1, q,
                      ContextBefore(lines, p), ContextAfter(lines, q - 1));
    ScanBlock(lines, p, ol, o, tl, t, q);
    ExpectedHunksBlock(lines, segs, p, st.nextId, ol, o, tl, t, q);
  }

  /**
   * Scanning the lines of well-formed segments from an idle state adds exactly the expected
   * hunks and leaves the scanner idle.
   */
  lemma {:induction false} ScanRendered(lines: seq<string>, segs: seq<Segment>, p: nat, e: nat)
    requires WellFormed(segs) && SliceAt(lines, p, Render(segs)) && Idle(Scan(lines, p))
    requires e == p + |Render(segs)|
    ensures Idle(Scan(lines, e))
    ensures Scan(lines, e).conflicts
         == Scan(lines, p).conflicts + ExpectedHunks(lines, segs, p, Scan(lines, p).nextId)
    decreases |segs|, 1
  {
    if segs == [] {
      assert Scan(lines, p).conflicts + [] == Scan(lines, p).conflicts;
    } else {
      RenderCons(segs);
      ScanRenderedCons(lines, segs, p, p + |SegmentLines(segs[0])|, e);
    }
  }

  lemma {:induction false} ScanRenderedCons(lines: seq<string>, segs: seq<Segment>, p: nat, q: nat, e: nat)
    requires WellFormed(segs) && segs != [] && SliceAt(lines, p, Render(segs)) && Idle(Scan(lines, p))
    requires q == p + |SegmentLines(segs[0])| && e == q + |Render(segs[1..])|
    ensures Idle(Scan(lines, e))
    ensures Scan(lines, e).conflicts
         == Scan(lines, p).conflicts + ExpectedHunks(lines, segs, p, Scan(lines, p).nextId)
    decreases |segs|, 0
  {
    SegmentTail(lines, segs, p, q);
    match segs[0]
    case Text(t) =>
      ScanTextSegment(lines, segs, p, q, t);
      ScanRendered(lines, segs[1..], q, e);
    case Block(ol, o, tl, t) =>
      var h := ScanBlockSegment(lines, segs, p, q, ol, o, tl, t);
      ScanRendered(lines, segs[1..], q, e);
      HunksAppend(Scan(lines, p).conflicts, h, Scan(lines, q).conflicts, Scan(lines, e).conflicts,
                  ExpectedHunks(lines, segs[1..], q, Scan(lines, p).nextId + 1));
  }

  lemma HunksAppend(before: seq<ConflictHunk>, h: ConflictHunk, mid: seq<ConflictHunk>, after: seq<ConflictHunk>,
                    tail: seq<ConflictHunk>)
    requires mid == before + [h] && after == mid + tail
    ensures after == before + ([h] + tail)
  {
  }

  lemma MarkerLineIsLine(marker: string, name: string)
    requires GoodLabel(name) && |marker| > 0 && '\n' !in marker
    ensures IsLine(marker + " " + name)
  {
    var l := marker + " " + name;
    forall j | 0 <= j < |l| ensures l[j] != '\n' {
      if j < |marker| {
        assert l[j] == marker[j];
      } else if j > |marker| {
        assert l[j] == name[j - |marker| - 1];
      }
    }
    if |name| > 0 {
      assert l[|l| - 1] == name[|name| - 1];
    }
  }

  lemma SegmentLinesAreLines(s: Segment)
    requires GoodSegment(s)
    ensures forall j :: 0 <= j < |SegmentLines(s)| ==> IsLine(SegmentLines(s)[j])
  {
    match s
    case Text(t) =>
    case Block(ol, o, tl, t) =>
      var all := [OpenLine(ol)] + o + [SEPARATOR] + t + [CloseLine(tl)];
      MarkerLineIsLine(OURS_MARKER, ol);
      MarkerLineIsLine(THEIRS_MARKER, tl);
      forall j | 0 <= j < |all| ensures IsLine(all[j]) {
        if 0 < j <= |o| {
          assert all[j] == o[j - 1];
        } else if |o| + 1 < j <= |o| + 1 + |t| {
          assert all[j] == t[j - |o| - 2];
        }
      }
  }

  lemma AllLinesAppend(a: seq<string>, b: seq<string>)
    requires forall j :: 0 <= j < |a| ==> IsLine(a[j])
    requires forall j :: 0 <= j < |b| ==> IsLine(b[j])
    ensures forall j :: 0 <= j < |a + b| ==> IsLine((a + b)[j])
  {
    forall j | 0 <= j < |a + b| ensures IsLine((a + b)[j]) {
      if j >= |a| {
        assert (a + b)[j] == b[j - |a|];
      }
    }
  }

  /** The lines of a well-formed file are lines: no newline inside, no carriage return at the end. */
  lemma {:induction false} RenderLines(segs: seq<Segment>)
    requires WellFormed(segs)
    ensures forall j :: 0 <= j < |Render(segs)| ==> IsLine(Render(segs)[j])
    decreases |segs|
  {
    if segs != [] {
      WellFormedTail(segs);
      RenderLines(segs[1..]);
      SegmentLinesAreLines(segs[0]);
      RenderCons(segs);
      AllLinesAppend(SegmentLines(segs[0]), Render(segs[1..]));
    }
  }

  /**
   * The parser on a well-formed conflicted file (its lines each ended by a newline):
   * exactly one hunk per conflict block, numbered from 0, carrying the block's labels and
   * lines verbatim (each line followed by `\n`), its 1-based marker line numbers and the
   * three lines on either side.
   */
  lemma ParseWellFormed(segs: seq<Segment>)
    requires WellFormed(segs)
    ensures Hunks(Unlines(Render(segs))) == ExpectedHunks(Render(segs), segs, 0, 0)
  {
    var lines := Render(segs);
    RenderLines(segs);
    LinesUnlines(lines);
    assert SliceAt(lines, 0, lines);
    ScanRendered(lines, segs, 0, |lines|);
    assert [] + ExpectedHunks(lines, segs, 0, 0) == ExpectedHunks(lines, segs, 0, 0);
  }

  /** The file of the format's own example (its five lines, each ended by a newline): one hunk, "foo" against "bar". */
  lemma ParseExample()
    ensures Hunks(Unlines(["<<<<<<< HEAD", "foo", "=======", "bar", ">>>>>>> feature"]))
         == [ConflictHunk(0, "foo\n", "bar\n", "HEAD", "feature", 1, 5, [], [])]
  {
    var segs := [Block("HEAD", ["foo"], "feature", ["bar"])];
    var lines := ["<<<<<<< HEAD", "foo", "=======", "bar", ">>>>>>> feature"];
    ExampleRender(segs, lines);
    ParseWellFormed(segs);
    ExampleHunks(segs, lines);
  }

  lemma ExampleRender(segs: seq<Segment>, lines: seq<string>)
    requires segs == [Block("HEAD", ["foo"], "feature", ["bar"])]
    requires lines == ["<<<<<<< HEAD", "foo", "=======", "bar", ">>>>>>> feature"]
    ensures WellFormed(segs) && Render(segs) == lines
  {
    assert GoodLabel("HEAD") && GoodLabel("feature");
    assert PlainLines(["foo"]) && PlainLines(["bar"]);
    assert OpenLine("HEAD") == lines[0];
    assert CloseLine("feature") == lines[4];
    assert SegmentLines(segs[0]) == lines;
    RenderCons(segs);
  }


  lemma ExampleHunks(segs: seq<Segment>, lines: seq<string>)
    requires segs == [Block("HEAD", ["foo"], "feature", ["bar"])]
    requires lines == ["<<<<<<< HEAD", "foo", "=======", "bar", ">>>>>>> feature"]
    ensures ExpectedHunks(lines, segs, 0, 0) == [ConflictHunk(0, "foo\n", "bar\n", "HEAD", "feature", 1, 5, [], [])]
  {
    ExpectedHunksBlock(lines, segs, 0, 0, "HEAD", ["foo"], "feature", ["bar"], 5);
    assert Unlines(["foo"]) == "foo\n";
    assert Unlines(["bar"]) == "bar\n";
    assert ContextBefore(lines, 0) == [];
    assert ContextAfter(lines, 4) == [];
  }
}
