/**
 * `get_status` in src-tauri/src/git/mod.rs: the reader of `git status --porcelain=v1 --branch`.
 *
 * A `##` line carries the branch and, after `...`, the upstream and the `[ahead N, behind M]`
 * counts; every other line of at least three characters is a file: a two-letter status code,
 * a blank, the path.
 *
 * `get_status` reads the ahead count up to the next `]`, so a line with both counts reads
 * ahead as 0; `ParseStatus` does the same, and `ParseStatusCorrected` stops at the comma.
 */
module GitStatus {
  import opened Wrappers
  import opened Strings
  import opened GitTypes

  // ================================================================ file lines

  /** The status name and staged flag of a two-letter porcelain code. */
  function Classify(code: string): (string, bool) {
    match code
    case "M " => ("Modified", true)
    case " M" => ("Modified", false)
    case "MM" => ("Modified", true)
    case "A " => ("Added", true)
    case " A" => ("Added", false)
    case "D " => ("Deleted", true)
    case " D" => ("Deleted", false)
    case "??" => ("Untracked", false)
    case "R " => ("Renamed", true)
    case "C " => ("Copied", true)
    case _ => ("Unknown", false)
  }

  /** The entry of a file line: its first two characters are the code, the path starts at the fourth. */
  function FileEntry(line: string): FileStatus
    requires |line| >= 3
  {
    var c := Classify(line[0..2]);
    FileStatus(line[3..], c.0, c.1)
  }

  /** The name of a change letter of `git status`. */
  function LetterName(c: char): string {
    match c
    case 'M' => "Modified"
    case 'A' => "Added"
    case 'D' => "Deleted"
    case '?' => "Untracked"
    case 'R' => "Renamed"
    case 'C' => "Copied"
    case _ => "Unknown"
  }

  /**
   * A code the reader knows is named after the letter in its first non-blank column, and it
   * counts as staged exactly when that letter sits in the index column (the first) and is
   * not `?`; an unknown code is never staged.
   */
  lemma ClassifyByColumns(code: string)
    requires |code| == 2
    ensures Classify(code).0 != "Unknown" ==> Classify(code).0 == LetterName(if code[0] != ' ' then code[0] else code[1])
    ensures Classify(code).1 <==> Classify(code).0 != "Unknown" && code[0] != ' ' && code[0] != '?'
  {
  }

  /** Exactly ten codes are known. */
  lemma KnownCodes(code: string)
    ensures Classify(code).0 != "Unknown"
        <==> code in {"M ", " M", "MM", "A ", " A", "D ", " D", "??", "R ", "C "}
  {
  }

  // ================================================================ the branch line

  /** The count after a `[ahead ` as written: the text up to the next `]`. */
  function AheadAsWritten(info: string, prev: nat): nat {
    if Contains(info, "[ahead") then
      var parts := Split(info, "[ahead ");
      if |parts| >= 2 then ParseUnsigned(TrimEndChar(Split(parts[1], "]")[0], ']'), U32_BOUND).GetOr(0) else prev
    else prev
  }

  /** The count after a `[ahead `, read up to the `,` before a `behind` count or the closing `]`. */
  function Ahead(info: string, prev: nat): nat {
    if Contains(info, "[ahead") then
      var parts := Split(info, "[ahead ");
      if |parts| >= 2 then ParseUnsigned(TrimEndChar(Split(Split(parts[1], "]")[0], ",")[0], ']'), U32_BOUND).GetOr(0)
      else prev
    else prev
  }

  /** The count after `behind `, up to the next `]`. */
  function Behind(info: string, prev: nat): nat {
    if Contains(info, "behind") then
      var parts := Split(info, "behind ");
      if |parts| >= 2 then ParseUnsigned(TrimEndChar(Split(parts[1], "]")[0], ']'), U32_BOUND).GetOr(0) else prev
    else prev
  }

  /** Which ahead reader a parse uses: the one the code runs, or the corrected one. */
  datatype AheadReader = AsWritten | Corrected

  function ReadAhead(reader: AheadReader, info: string, prev: nat): nat {
    match reader
    case AsWritten => AheadAsWritten(info, prev)
    case Corrected => Ahead(info, prev)
  }

  /** What the reader does with one line of the output. */
  function ReadStatusLine(st: RepoStatus, line: string, reader: AheadReader): RepoStatus {
    if StartsWith(line, "##") then
      var info := TrimStartMatches(line, "## ");
      st.(currentBranch := Split(info, "...")[0], ahead := ReadAhead(reader, info, st.ahead), behind := Behind(info, st.behind))
    else if |line| >= 3 then
      st.(files := st.files + [FileEntry(line)])
    else
      st
  }

  function ReadStatus(st: RepoStatus, lines: seq<string>, reader: AheadReader): RepoStatus
    decreases |lines|
  {
    if lines == [] then st else ReadStatus(ReadStatusLine(st, lines[0], reader), lines[1..], reader)
  }

  const Initial: RepoStatus := RepoStatus([], "unknown", 0, 0)

  /** The parse `get_status` performs. */
  function ParseStatus(stdout: string): RepoStatus {
    ReadStatus(Initial, Lines(stdout), AsWritten)
  }

  /** The same parse with the corrected ahead reader. */
  function ParseStatusCorrected(stdout: string): RepoStatus {
    ReadStatus(Initial, Lines(stdout), Corrected)
  }

  lemma {:induction false} ReadStatusSnoc(st: RepoStatus, lines: seq<string>, l: string, reader: AheadReader)
    ensures ReadStatus(st, lines + [l], reader) == ReadStatusLine(ReadStatus(st, lines, reader), l, reader)
    decreases |lines|
  {
    if lines == [] {
      assert [l][1..] == [];
    } else {
      assert (lines + [l])[1..] == lines[1..] + [l];
      ReadStatusSnoc(ReadStatusLine(st, lines[0], reader), lines[1..], l, reader);
    }
  }

  /**
   * `get_status`: a failed `git status` is an error carrying its stderr; otherwise the files,
   * branch and counts read from its output.
   */
  method GetStatus(output: ProcessOutput) returns (r: Result<RepoStatus, string>)
    ensures !output.success ==> r == Err("Git command failed: " + output.stderr)
    ensures output.success ==> r == Ok(ParseStatus(output.stdout))
  {
    if !output.success {
      return Err("Git command failed: " + output.stderr);
    }
    var lines := Lines(output.stdout);
    var files: seq<FileStatus> := [];
    var currentBranch := "unknown";
    var ahead: nat := 0;
    var behind: nat := 0;
    var i := 0;
    while i < |lines|
      invariant i <= |lines|
      invariant ReadStatus(Initial, lines[..i], AsWritten) == RepoStatus(files, currentBranch, ahead, behind)
    {
      var line := lines[i];
      ReadStatusSnoc(Initial, lines[..i], line, AsWritten);
      assert lines[..i + 1] == lines[..i] + [line];
      if StartsWith(line, "##") {
        var branchInfo := TrimStartMatches(line, "## ");
        currentBranch := Split(branchInfo, "...")[0];
        ahead := AheadAsWritten(branchInfo, ahead);
        behind := Behind(branchInfo, behind);
      } else if |line| >= 3 {
        var statusCode := line[0..2];
        var filePath := line[3..];
        var c := Classify(statusCode);
        files := files + [FileStatus(filePath, c.0, c.1)];
      }
      i := i + 1;
    }
    assert lines[..|lines|] == lines;
    return Ok(RepoStatus(files, currentBranch, ahead, behind));
  }

  // ================================================================ facts for every input

  predicate IsFileLine(l: string) {
    !StartsWith(l, "##") && |l| >= 3
  }

  /** The entries of the file lines, in order: the reference the reader is compared with. */
  function FileEntries(lines: seq<string>): seq<FileStatus>
    decreases |lines|
  {
    if lines == [] then []
    else (if IsFileLine(lines[0]) then [FileEntry(lines[0])] else []) + FileEntries(lines[1..])
  }

  lemma {:induction false} ReadStatusFiles(st: RepoStatus, lines: seq<string>, reader: AheadReader)
    ensures ReadStatus(st, lines, reader).files == st.files + FileEntries(lines)
    decreases |lines|
  {
    if lines == [] {
      assert st.files + [] == st.files;
    } else {
      var st1 := ReadStatusLine(st, lines[0], reader);
      ReadStatusFiles(st1, lines[1..], reader);
      var head := if IsFileLine(lines[0]) then [FileEntry(lines[0])] else [];
      assert st1.files == st.files + head;
      assert st.files + head + FileEntries(lines[1..]) == st.files + (head + FileEntries(lines[1..]));
    }
  }

  /** The files are exactly the entries of the non-`##` lines of three or more characters, in order. */
  lemma StatusFiles(stdout: string)
    ensures ParseStatus(stdout).files == FileEntries(Lines(stdout))
  {
    ReadStatusFiles(Initial, Lines(stdout), AsWritten);
    assert [] + FileEntries(Lines(stdout)) == FileEntries(Lines(stdout));
  }

  function HasBranchLine(lines: seq<string>): bool {
    exists j :: 0 <= j < |lines| && StartsWith(lines[j], "##")
  }

  lemma {:induction false} ReadStatusNoBranchLine(st: RepoStatus, lines: seq<string>, reader: AheadReader)
    requires !HasBranchLine(lines)
    ensures ReadStatus(st, lines, reader).currentBranch == st.currentBranch
    ensures ReadStatus(st, lines, reader).ahead == st.ahead && ReadStatus(st, lines, reader).behind == st.behind
    decreases |lines|
  {
    if lines != [] {
      assert !StartsWith(lines[0], "##");
      assert !HasBranchLine(lines[1..]) by {
        forall j | 0 <= j < |lines| - 1 ensures !StartsWith(lines[1..][j], "##") {
          assert lines[1..][j] == lines[j + 1];
        }
      }
      ReadStatusNoBranchLine(ReadStatusLine(st, lines[0], reader), lines[1..], reader);
    }
  }

  /** Without a `##` line the branch is "unknown" and both counts are 0. */
  lemma StatusWithoutBranchLine(stdout: string)
    requires !HasBranchLine(Lines(stdout))
    ensures ParseStatus(stdout).currentBranch == "unknown"
    ensures ParseStatus(stdout).ahead == 0 && ParseStatus(stdout).behind == 0
  {
    ReadStatusNoBranchLine(Initial, Lines(stdout), AsWritten);
  }

  // ================================================================ git's branch line

  /** Where the branch tracks an upstream, and how far the two have moved apart. */
  datatype Tracking = Local | Tracks(upstream: string, ahead: nat, behind: nat)

  /** The bracketed counts git prints after the upstream; nothing when both are 0. */
  function Counts(a: nat, m: nat): string {
    if a == 0 && m == 0 then ""
    else if m == 0 then " [ahead " + NatToString(a) + "]"
    else if a == 0 then " [behind " + NatToString(m) + "]"
    else " [ahead " + NatToString(a) + ", behind " + NatToString(m) + "]"
  }

  /** The text after `## `. */
  function BranchInfo(b: string, t: Tracking): string {
    match t
    case Local => b
    case Tracks(u, a, m) => b + "..." + u + Counts(a, m)
  }

  /** A name `git check-ref-format` allows, as far as the reader cares. */
  predicate GoodRefName(n: string) {
    ' ' !in n && '[' !in n && '\n' !in n && '\r' !in n && !Contains(n, "..") && !EndsWith(n, ".")
  }

  /**
   * An upstream the counts can be read after: a good name that does not end in `behind`
   * (the reader looks for the first `behind ` anywhere in the line).
   */
  predicate GoodUpstream(u: string) {
    GoodRefName(u) && !EndsWith(u, "behind")
  }

  /** The counts are below the `u32` bound the reader parses into. */
  predicate CountsFit(t: Tracking) {
    t.Tracks? ==> t.ahead < U32_BOUND && t.behind < U32_BOUND
  }

  function AheadOf(t: Tracking): nat {
    if t.Tracks? then t.ahead else 0
  }

  function BehindOf(t: Tracking): nat {
    if t.Tracks? then t.behind else 0
  }

  /** The `##` line git prints for branch `b`. */
  function HeaderLine(b: string, t: Tracking): string {
    "## " + BranchInfo(b, t)
  }

  // ---------------------------------------------------------------- where "..." is

  lemma NoDotRun(n: string)
    requires !Contains(n, "..") && !EndsWith(n, ".")
    ensures !Contains(n + "..", "...")
  {
    var z := n + "..";
    forall j | 0 <= j <= |z| ensures !OccursAt(z, "...", j) {
      if j + 3 <= |z| {
        assert z[j..j + 2] == z[j..j + 3][..2];
        assert z[j] == z[j..j + 3][0];
        if j + 2 <= |n| {
          assert z[j..j + 2] == n[j..j + 2];
          assert !OccursAt(n, "..", j);
        } else {
          assert j + 1 == |n|;
          assert n[|n| - 1..] == [z[j]];
        }
      }
    }
  }

  lemma InfoBranch(b: string, t: Tracking)
    requires GoodRefName(b)
    ensures Split(BranchInfo(b, t), "...")[0] == b
  {
    match t
    case Local =>
      assert !Contains(b, "...") by {
        forall j | 0 <= j <= |b| ensures !OccursAt(b, "...", j) {
          if j + 3 <= |b| {
            assert b[j..j + 2] == b[j..j + 3][..2];
            assert !OccursAt(b, "..", j);
          }
        }
      }
      SplitLone(b, "...");
    case Tracks(u, a, m) =>
      NoDotRun(b);
      assert "..."[..2] == "..";
      assert BranchInfo(b, t) == b + "..." + (u + Counts(a, m));
      SplitHead(b, "...", u + Counts(a, m));
  }

  // ---------------------------------------------------------------- where the counts are



  /** After an ahead count: the closing bracket, or the behind count. */
  function AfterAhead(m: nat): string {
    if m == 0 then "]" else ", behind " + NatToString(m) + "]"
  }

  lemma NotEndingBehind(p: string, j: nat)
    requires j + 6 == |p| && !EndsWith(p, "behind")
    ensures p[j..j + 6] != "behind"
  {
    assert p[|p| - 6..] == p[j..j + 6];
  }

  lemma UpstreamSuffix(b: string, u: string)
    requires !EndsWith(u, "behind")
    ensures !EndsWith(b + "..." + u, "behind")
  {
    var p := b + "..." + u;
    if |p| >= 6 {
      if |u| >= 6 {
        assert p[|p| - 6..] == u[|u| - 6..];
      } else {
        var k := |p| - |u| - 1;
        assert p[k] == '.';
        assert p[|p| - 6..][5 - |u|] == p[k];
      }
    }
  }

  lemma NoSpaceNoBehind(p: string)
    requires ' ' !in p
    ensures !Contains(p, "behind ")
  {
    forall j | 0 <= j <= |p| ensures !OccursAt(p, "behind ", j) {
      if j + 7 <= |p| {
        assert p[j + 6] in p;
        Mismatch(p, "behind ", j, 6);
      }
    }
  }

  /** With only an ahead count, no `behind ` appears. */
  lemma AheadOnlyNoBehind(p: string, A: string)
    requires ' ' !in p && !EndsWith(p, "behind") && AllDigits(A)
    ensures !Contains(p + " [ahead " + A + "]", "behind ")
  {
    var s := p + " [ahead " + A + "]";
    var t := "behind ";
    forall j | 0 <= j <= |s| ensures !OccursAt(s, t, j) {
      if j + 7 <= |s| {
        var k := j + 6;
        if k < |p| {
          assert s[k] == p[k];
          Mismatch(s, t, j, 6);
        } else if k == |p| {
          NotEndingBehind(p, j);
          assert s[j..j + 6] == p[j..j + 6];
          assert s[j..j + 7][..6] == s[j..j + 6];
        } else if k < |p| + 7 {
          assert s[k] == " [ahead "[k - |p|];
          Mismatch(s, t, j, 6);
        } else if k == |p| + 7 {
          assert s[j] == '[';
          Mismatch(s, t, j, 0);
        } else if k < |p| + 8 + |A| {
          assert s[k] == A[k - |p| - 8];
          Mismatch(s, t, j, 6);
        } else {
          assert s[k] == ']';
          Mismatch(s, t, j, 6);
        }
      }
    }
  }

  /** With both counts, the first `behind ` is the one git wrote. */
  lemma BothFirstBehind(p: string, A: string, M: string)
    requires ' ' !in p && !EndsWith(p, "behind") && AllDigits(A) && |A| > 0
    ensures forall j :: 0 <= j < |p| + |A| + 10 ==> !OccursAt(p + " [ahead " + A + ", behind " + M + "]", "behind ", j)
  {
    var s := p + " [ahead " + A + ", behind " + M + "]";
    var t := "behind ";
    var c := |p| + 8 + |A|;
    forall j | 0 <= j < |p| + |A| + 10 ensures !OccursAt(s, t, j) {
      if j + 7 <= |s| {
        var k := j + 6;
        if k < |p| {
          assert s[k] == p[k];
          Mismatch(s, t, j, 6);
        } else if k == |p| {
          NotEndingBehind(p, j);
          assert s[j..j + 6] == p[j..j + 6];
          assert s[j..j + 7][..6] == s[j..j + 6];
        } else if k < |p| + 7 {
          assert s[k] == " [ahead "[k - |p|];
          Mismatch(s, t, j, 6);
        } else if k == |p| + 7 {
          assert s[j] == '[';
          Mismatch(s, t, j, 0);
        } else if k < c {
          assert s[k] == A[k - |p| - 8];
          Mismatch(s, t, j, 6);
        } else if k == c {
          assert s[k] == ',';
          Mismatch(s, t, j, 6);
        } else if k == c + 1 {
          if j < |p| + 8 {
            assert s[j] == " [ahead "[j - |p|];
          } else {
            assert s[j] == A[j - |p| - 8];
          }
          Mismatch(s, t, j, 0);
        } else {
          assert s[k] == "behind "[k - c - 2];
          Mismatch(s, t, j, 6);
        }
      }
    }
  }

  lemma BehindOnlyNoAhead(p: string, M: string)
    requires '[' !in p && AllDigits(M)
    ensures !Contains(p + " [behind " + M + "]", "[ahead")
  {
    var s := p + " [behind " + M + "]";
    var t := "[ahead";
    forall j | 0 <= j <= |s| ensures !OccursAt(s, t, j) {
      if j + 6 <= |s| {
        if j < |p| {
          assert s[j] == p[j];
          Mismatch(s, t, j, 0);
        } else if j == |p| {
          assert s[j] == ' ';
          Mismatch(s, t, j, 0);
        } else if j == |p| + 1 {
          assert s[j + 1] == 'b';
          Mismatch(s, t, j, 1);
        } else if j < |p| + 9 {
          assert s[j] == " [behind "[j - |p|];
          Mismatch(s, t, j, 0);
        } else if j < |p| + 9 + |M| {
          assert s[j] == M[j - |p| - 9];
          Mismatch(s, t, j, 0);
        }
      }
    }
  }

  lemma CountsAhead(a: nat, m: nat)
    requires a > 0
    ensures Counts(a, m) == " [ahead " + (NatToString(a) + AfterAhead(m))
    ensures '[' !in NatToString(a) + AfterAhead(m)
  {
    NotADigit(NatToString(a), '[');
    if m > 0 {
      NotADigit(NatToString(m), '[');
    }
  }

  /** Where there is an ahead count, the text after `[ahead ` is the count and what follows it. */
  lemma AheadPiece(p: string, a: nat, m: nat)
    requires '[' !in p && a > 0
    ensures Contains(p + Counts(a, m), "[ahead")
    ensures Split(p + Counts(a, m), "[ahead ") == [p + " ", NatToString(a) + AfterAhead(m)]
  {
    CountsAhead(a, m);
    AheadSplit(p, NatToString(a) + AfterAhead(m));
  }

  lemma AheadSplit(p: string, post: string)
    requires '[' !in p && '[' !in post
    ensures Contains(p + (" [ahead " + post), "[ahead")
    ensures Split(p + (" [ahead " + post), "[ahead ") == [p + " ", post]
  {
    var q := p + " ";
    var s := p + (" [ahead " + post);
    assert s == q + "[ahead " + post;
    assert '[' !in q;
    SplitOnce(q, "[ahead ", post);
    assert s[|q|..|q| + 6] == "[ahead";
    ContainsAt(s, "[ahead", |q|);
  }

  /** A count closed by `]` reads back as the count. */
  lemma ClosedCount(n: nat)
    requires n < U32_BOUND
    ensures Split(NatToString(n) + "]", "]")[0] == NatToString(n)
    ensures TrimEndChar(NatToString(n), ']') == NatToString(n)
    ensures ParseUnsigned(NatToString(n), U32_BOUND) == Some(n)
  {
    var N := NatToString(n);
    NotADigit(N, ']');
    FirstCharAbsent(N, "]");
    SplitHead(N, "]", "");
    assert N + "]" + "" == N + "]";
    ParseNatToString(n, U32_BOUND);
  }

  /** The text of an ahead count up to the next `]`: the count, then any behind count. */
  function BeforeClose(a: nat, m: nat): string {
    if m == 0 then NatToString(a) else NatToString(a) + ", behind " + NatToString(m)
  }

  lemma CloseAfterAhead(a: nat, m: nat)
    ensures Split(NatToString(a) + AfterAhead(m), "]")[0] == BeforeClose(a, m)
  {
    var A := NatToString(a);
    NotADigit(A, ']');
    if m == 0 {
      ClosedText(A);
    } else {
      var M := NatToString(m);
      NotADigit(M, ']');
      BehindText(A, M);
      ClosedText(A + ", behind " + M);
    }
  }

  lemma BehindText(A: string, M: string)
    requires ']' !in A && ']' !in M
    ensures ']' !in A + ", behind " + M
    ensures A + (", behind " + M + "]") == A + ", behind " + M + "]"
  {
  }

  /** A text without `]`, closed by one, is the first piece of its split at `]`. */
  lemma ClosedText(x: string)
    requires ']' !in x
    ensures Split(x + "]", "]")[0] == x
  {
    FirstCharAbsent(x, "]");
    SplitHead(x, "]", "");
    assert x + "]" + "" == x + "]";
  }

  lemma CommaAfterAhead(a: nat, m: nat)
    ensures Split(BeforeClose(a, m), ",")[0] == NatToString(a)
  {
    var A := NatToString(a);
    NotADigit(A, ',');
    if m == 0 {
      NoCharNoContains(A, ",");
      SplitLone(A, ",");
    } else {
      var x := BeforeClose(a, m);
      assert x[|A|] == ',';
      assert x[|A|..|A| + 1] == ",";
      forall j | 0 <= j < |A| ensures !OccursAt(x, ",", j) {
        assert x[j] == A[j];
        Mismatch(x, ",", j, 0);
      }
      SplitAt(x, ",", |A|);
      assert x[..|A|] == A;
    }
  }

  lemma AheadCount(p: string, a: nat, m: nat, prev: nat)
    requires '[' !in p && 0 < a < U32_BOUND
    ensures Ahead(p + Counts(a, m), prev) == a
  {
    var info := p + Counts(a, m);
    AheadPiece(p, a, m);
    var parts := Split(info, "[ahead ");
    assert parts[1] == NatToString(a) + AfterAhead(m);
    CloseAfterAhead(a, m);
    var c := Split(parts[1], "]")[0];
    assert c == BeforeClose(a, m);
    CommaAfterAhead(a, m);
    ClosedCount(a);
    assert Ahead(info, prev) == ParseUnsigned(TrimEndChar(Split(c, ",")[0], ']'), U32_BOUND).GetOr(0);
  }

  lemma HeaderAhead(p: string, a: nat, m: nat, prev: nat)
    requires '[' !in p && a < U32_BOUND
    ensures Ahead(p + Counts(a, m), prev) == if a > 0 then a else prev
  {
    if a > 0 {
      AheadCount(p, a, m, prev);
    } else if m == 0 {
      assert p + Counts(a, m) == p;
      NoCharNoContains(p, "[ahead");
    } else {
      NotADigit(NatToString(m), '[');
      BehindOnlyNoAhead(p, NatToString(m));
      assert p + Counts(a, m) == p + " [behind " + NatToString(m) + "]";
    }
  }

  lemma BehindCountAlone(p: string, m: nat, prev: nat)
    requires ' ' !in p && !EndsWith(p, "behind") && 0 < m < U32_BOUND
    ensures Behind(p + Counts(0, m), prev) == m
  {
    var M := NatToString(m);
    assert Counts(0, m) == " [behind " + M + "]";
    NotADigit(M, 'b');
    BehindAloneSplit(p, M);
    ClosedCount(m);
  }

  /** Alone in its bracket, the behind count is what follows `behind `. */
  lemma BehindAloneSplit(p: string, M: string)
    requires ' ' !in p && !EndsWith(p, "behind") && 'b' !in M
    ensures Contains(p + (" [behind " + M + "]"), "behind")
    ensures Split(p + (" [behind " + M + "]"), "behind ") == [p + " [", M + "]"]
  {
    var pre, post := p + " [", M + "]";
    assert p + (" [behind " + M + "]") == pre + "behind " + post;
    assert p + (" [behind " + M + "]") == pre + "behind" + (" " + post);
    ContainsMiddle(pre, "behind", " " + post);
    NoBehindBefore(p);
    SplitHead(pre, "behind ", post);
    NoCharNoContains(post, "behind ");
    SplitLone(post, "behind ");
  }

  /** Up to the end of `[behind`, a name without blanks holds no `behind ` yet. */
  lemma NoBehindBefore(p: string)
    requires ' ' !in p && !EndsWith(p, "behind")
    ensures !Contains(p + " [" + "behind "[..6], "behind ")
  {
    var z := p + " [" + "behind "[..6];
    var t := "behind ";
    assert z == p + " [behind";
    forall j | 0 <= j <= |z| ensures !OccursAt(z, t, j) {
      if j + 7 <= |z| {
        var k := j + 6;
        if k < |p| {
          assert z[k] == p[k];
          Mismatch(z, t, j, 6);
        } else if k == |p| {
          NotEndingBehind(p, j);
          assert z[j..j + 6] == p[j..j + 6];
          assert z[j..j + 7][..6] == z[j..j + 6];
        } else {
          assert z[k] == " [behind"[k - |p|];
          Mismatch(z, t, j, 6);
        }
      }
    }
  }

  lemma BehindAtAfterAhead(p: string, A: string, M: string)
    ensures OccursAt(p + " [ahead " + A + ", behind " + M + "]", "behind ", |p| + |A| + 10)
    ensures (p + " [ahead " + A + ", behind " + M + "]")[|p| + |A| + 17..] == M + "]"
    ensures Contains(p + " [ahead " + A + ", behind " + M + "]", "behind")
  {
    var s := p + " [ahead " + A + ", behind " + M + "]";
    var i := |p| + |A| + 10;
    var q := p + " [ahead " + A + ", behind ";
    assert s == q + (M + "]");
    assert q[|q| - 9..] == ", behind ";
    assert q[|q| - 7..] == q[|q| - 9..][2..];
    assert s[i..i + 7] == q[|q| - 7..];
    assert s[i..i + 6] == s[i..i + 7][..6];
    ContainsAt(s, "behind", i);
  }

  lemma BehindPieceAfterAhead(p: string, A: string, M: string)
    requires ' ' !in p && !EndsWith(p, "behind") && AllDigits(A) && |A| > 0 && AllDigits(M)
    ensures Contains(p + " [ahead " + A + ", behind " + M + "]", "behind")
    ensures |Split(p + " [ahead " + A + ", behind " + M + "]", "behind ")| >= 2
    ensures Split(p + " [ahead " + A + ", behind " + M + "]", "behind ")[1] == M + "]"
  {
    var s := p + " [ahead " + A + ", behind " + M + "]";
    var i := |p| + |A| + 10;
    BehindAtAfterAhead(p, A, M);
    BothFirstBehind(p, A, M);
    SplitAt(s, "behind ", i);
    NotADigit(M, 'b');
    NoCharNoContains(M + "]", "behind ");
    SplitLone(M + "]", "behind ");
  }

  lemma BehindCountAfterAhead(p: string, a: nat, m: nat, prev: nat)
    requires ' ' !in p && !EndsWith(p, "behind") && a > 0 && 0 < m < U32_BOUND
    ensures Behind(p + Counts(a, m), prev) == m
  {
    var A := NatToString(a);
    var M := NatToString(m);
    var s := p + " [ahead " + A + ", behind " + M + "]";
    assert p + Counts(a, m) == s;
    BehindPieceAfterAhead(p, A, M);
    ClosedCount(m);
  }

  lemma HeaderBehind(p: string, a: nat, m: nat, prev: nat)
    requires ' ' !in p && !EndsWith(p, "behind") && m < U32_BOUND
    ensures Behind(p + Counts(a, m), prev) == if m > 0 then m else prev
  {
    if m > 0 {
      if a == 0 {
        BehindCountAlone(p, m, prev);
      } else {
        BehindCountAfterAhead(p, a, m, prev);
      }
    } else if a == 0 {
      assert p + Counts(a, m) == p;
      NoSpaceNoBehind(p);
      SplitLone(p, "behind ");
    } else {
      var A := NatToString(a);
      assert p + Counts(a, m) == p + " [ahead " + A + "]";
      AheadOnlyNoBehind(p, A);
      SplitLone(p + Counts(a, m), "behind ");
    }
  }

  /** As written, a line carrying both counts reads its ahead count as 0. */
  lemma AheadAsWrittenBoth(p: string, a: nat, m: nat, prev: nat)
    requires '[' !in p && a > 0 && m > 0
    ensures AheadAsWritten(p + Counts(a, m), prev) == 0
  {
    var info := p + Counts(a, m);
    AheadPiece(p, a, m);
    var parts := Split(info, "[ahead ");
    assert parts[1] == NatToString(a) + AfterAhead(m);
    CloseAfterAhead(a, m);
    var c := Split(parts[1], "]")[0];
    var A := NatToString(a);
    assert c == A + ", behind " + NatToString(m);
    assert TrimEndChar(c, ']') == c;
    assert c[|A|] == ',';
    ParseNonDigit(c, |A|, U32_BOUND);
    assert AheadAsWritten(info, prev) == ParseUnsigned(TrimEndChar(c, ']'), U32_BOUND).GetOr(0);
  }

  /**
   * As written: a line without an ahead count keeps the old value, an ahead count alone reads
   * back, and an ahead count followed by a behind count reads as 0.
   */
  lemma HeaderAheadAsWritten(p: string, a: nat, m: nat, prev: nat)
    requires '[' !in p && a < U32_BOUND
    ensures AheadAsWritten(p + Counts(a, m), prev) == if a == 0 then prev else if m > 0 then 0 else a
  {
    if a > 0 && m > 0 {
      AheadAsWrittenBoth(p, a, m, prev);
    } else if a > 0 {
      AheadAsWrittenWithoutBehind(p, a, prev);
    } else if m == 0 {
      assert p + Counts(a, m) == p;
      NoCharNoContains(p, "[ahead");
    } else {
      NotADigit(NatToString(m), '[');
      BehindOnlyNoAhead(p, NatToString(m));
      assert p + Counts(a, m) == p + " [behind " + NatToString(m) + "]";
    }
  }

  // ---------------------------------------------------------------- the whole line

  /**
   * The counts of a branch line as each reader gets them: behind as git wrote it, ahead as
   * git wrote it by the corrected reader and 0 as written when a behind count follows it; a
   * missing count keeps the old value.
   */
  lemma InfoCounts(b: string, t: Tracking, pa: nat, pm: nat)
    requires GoodRefName(b) && (t.Tracks? ==> GoodUpstream(t.upstream)) && CountsFit(t)
    ensures AheadAsWritten(BranchInfo(b, t), pa)
         == if AheadOf(t) == 0 then pa else if BehindOf(t) > 0 then 0 else AheadOf(t)
    ensures Ahead(BranchInfo(b, t), pa) == if AheadOf(t) > 0 then AheadOf(t) else pa
    ensures Behind(BranchInfo(b, t), pm) == if BehindOf(t) > 0 then BehindOf(t) else pm
  {
    match t
    case Local =>
      assert b + Counts(0, 0) == b;
      HeaderAhead(b, 0, 0, pa);
      HeaderAheadAsWritten(b, 0, 0, pa);
      NoSpaceNoBehind(b);
      SplitLone(b, "behind ");
    case Tracks(u, a, m) =>
      var p := b + "..." + u;
      assert BranchInfo(b, t) == p + Counts(a, m);
      UpstreamSuffix(b, u);
      HeaderAhead(p, a, m, pa);
      HeaderAheadAsWritten(p, a, m, pa);
      HeaderBehind(p, a, m, pm);
  }

  /** The text after `## ` never starts with another `## `, so the reader strips exactly one. */
  lemma InfoNotHeader(b: string, t: Tracking)
    requires GoodRefName(b)
    ensures TrimStartMatches(HeaderLine(b, t), "## ") == BranchInfo(b, t)
  {
    var info := BranchInfo(b, t);
    if |info| >= 3 {
      if |b| >= 3 {
        assert info[2] == b[2];
        assert b[2] in b;
        Mismatch(info, "## ", 0, 2);
      } else {
        assert t.Tracks?;
        assert info[|b|] == '.';
        Mismatch(info, "## ", 0, |b|);
      }
    }
    TrimStartMatchesOnce("## ", info);
  }

  lemma CountsNoBreak(a: nat, m: nat)
    ensures '\n' !in Counts(a, m) && '\r' !in Counts(a, m)
  {
    NotADigit(NatToString(a), '\n');
    NotADigit(NatToString(a), '\r');
    NotADigit(NatToString(m), '\n');
    NotADigit(NatToString(m), '\r');
  }

  /** No line break in the header: names have none, and neither have the counts. */
  lemma HeaderIsLine(b: string, t: Tracking)
    requires GoodRefName(b) && (t.Tracks? ==> GoodRefName(t.upstream))
    ensures IsLine(HeaderLine(b, t))
  {
    var h := HeaderLine(b, t);
    assert '\n' !in h && '\r' !in h by {
      match t
      case Local =>
      case Tracks(u, a, m) =>
        CountsNoBreak(a, m);
    }
    if |h| > 0 {
      assert h[|h| - 1] in h;
    }
  }

  /** The ahead count a reader gets from git's branch line: as written, 0 when behind is not. */
  function AheadRead(reader: AheadReader, t: Tracking): nat {
    if reader.AsWritten? && BehindOf(t) > 0 then 0 else AheadOf(t)
  }

  /**
   * Git's output for a branch and its files reads back as that branch, its behind count and
   * the entries of the file lines; the ahead count reads back unless a behind count follows
   * it, and then it is 0.
   */
  lemma StatusHeader(b: string, t: Tracking, rest: seq<string>)
    requires GoodRefName(b) && (t.Tracks? ==> GoodUpstream(t.upstream)) && CountsFit(t)
    requires forall k :: 0 <= k < |rest| ==> IsLine(rest[k]) && !StartsWith(rest[k], "##")
    ensures ParseStatus(Unlines([HeaderLine(b, t)] + rest))
         == RepoStatus(FileEntries(rest), b, if BehindOf(t) > 0 then 0 else AheadOf(t), BehindOf(t))
    ensures AheadOf(t) == 0 || BehindOf(t) == 0
        ==> ParseStatus(Unlines([HeaderLine(b, t)] + rest)) == RepoStatus(FileEntries(rest), b, AheadOf(t), BehindOf(t))
  {
    StatusHeaderRead(b, t, rest, AsWritten);
  }

  /** With the corrected ahead reader, the branch, both counts and the files all read back. */
  lemma StatusHeaderCorrected(b: string, t: Tracking, rest: seq<string>)
    requires GoodRefName(b) && (t.Tracks? ==> GoodUpstream(t.upstream)) && CountsFit(t)
    requires forall k :: 0 <= k < |rest| ==> IsLine(rest[k]) && !StartsWith(rest[k], "##")
    ensures ParseStatusCorrected(Unlines([HeaderLine(b, t)] + rest))
         == RepoStatus(FileEntries(rest), b, AheadOf(t), BehindOf(t))
  {
    StatusHeaderRead(b, t, rest, Corrected);
  }

  lemma StatusHeaderRead(b: string, t: Tracking, rest: seq<string>, reader: AheadReader)
    requires GoodRefName(b) && (t.Tracks? ==> GoodUpstream(t.upstream)) && CountsFit(t)
    requires forall k :: 0 <= k < |rest| ==> IsLine(rest[k]) && !StartsWith(rest[k], "##")
    ensures ReadStatus(Initial, Lines(Unlines([HeaderLine(b, t)] + rest)), reader)
         == RepoStatus(FileEntries(rest), b, AheadRead(reader, t), BehindOf(t))
  {
    var h := HeaderLine(b, t);
    HeaderRead(b, t, reader);
    HeadLines(h, rest);
    var st := ReadStatusLine(Initial, h, reader);
    ReadAfterHead(h, rest, reader);
    ReadRest(st, rest, reader);
  }

  /** The header line alone sets the branch and the counts each reader gets. */
  lemma HeaderRead(b: string, t: Tracking, reader: AheadReader)
    requires GoodRefName(b) && (t.Tracks? ==> GoodUpstream(t.upstream)) && CountsFit(t)
    ensures IsLine(HeaderLine(b, t))
    ensures ReadStatusLine(Initial, HeaderLine(b, t), reader) == RepoStatus([], b, AheadRead(reader, t), BehindOf(t))
  {
    HeaderIsLine(b, t);
    InfoNotHeader(b, t);
    InfoBranch(b, t);
    InfoCounts(b, t, 0, 0);
  }

  lemma HeadLines(h: string, rest: seq<string>)
    requires IsLine(h) && forall k :: 0 <= k < |rest| ==> IsLine(rest[k])
    ensures Lines(Unlines([h] + rest)) == [h] + rest
  {
    var lines := [h] + rest;
    assert forall k :: 0 <= k < |lines| ==> IsLine(lines[k]) by {
      forall k | 0 <= k < |lines| ensures IsLine(lines[k]) {
        if k > 0 { assert lines[k] == rest[k - 1]; }
      }
    }
    LinesUnlines(lines);
  }

  lemma ReadAfterHead(h: string, rest: seq<string>, reader: AheadReader)
    ensures ReadStatus(Initial, [h] + rest, reader) == ReadStatus(ReadStatusLine(Initial, h, reader), rest, reader)
  {
    assert ([h] + rest)[1..] == rest;
  }

  /** Lines without a `##` only add files. */
  lemma ReadRest(st: RepoStatus, rest: seq<string>, reader: AheadReader)
    requires forall k :: 0 <= k < |rest| ==> !StartsWith(rest[k], "##")
    ensures ReadStatus(st, rest, reader) == st.(files := st.files + FileEntries(rest))
  {
    ReadStatusFiles(st, rest, reader);
    ReadStatusNoBranchLine(st, rest, reader);
  }

  /** With no behind count the line as written and the corrected reader agree. */
  lemma AheadAsWrittenWithoutBehind(p: string, a: nat, prev: nat)
    requires '[' !in p && 0 < a < U32_BOUND
    ensures AheadAsWritten(p + Counts(a, 0), prev) == Ahead(p + Counts(a, 0), prev) == a
  {
    AheadCount(p, a, 0, prev);
    AheadPiece(p, a, 0);
    CloseAfterAhead(a, 0);
    ClosedCount(a);
  }
}
