/**
 * Commit history in src-tauri/src/git/mod.rs: the `--shortstat` summary line
 * (`parse_shortstat_line`, `get_commit_shortstat`), the `git log` record format
 * (`get_log`, `compare_branches`) and the `rev-list --left-right --count` pair.
 */
module GitHistory {
  import opened Wrappers
  import opened Strings
  import opened GitTypes

  // ================================================================ shortstat

  /** The counts a shortstat reader has found: each is the last value seen for it. */
  datatype Stat = Stat(files: Option<nat>, insertions: Option<nat>, deletions: Option<nat>)

  const NoStat: Stat := Stat(None, None, None)

  predicate NamesFiles(part: string) {
    Contains(part, "file changed") || Contains(part, "files changed")
  }

  /**
   * One comma-separated part: its first token, parsed below `bound`, is the count the rest of
   * the part names; a part without a token, with an unparsable token or naming nothing known
   * changes nothing.
   */
  function ReadPart(st: Stat, part: string, bound: nat): Stat {
    var p := Trim(part);
    var tokens := SplitWhitespace(p);
    if tokens == [] then st
    else
      match ParseUnsigned(tokens[0], bound)
      case None => st
      case Some(v) =>
        if NamesFiles(p) then st.(files := Some(v))
        else if Contains(p, "insertion") then st.(insertions := Some(v))
        else if Contains(p, "deletion") then st.(deletions := Some(v))
        else st
  }

  function ReadParts(st: Stat, parts: seq<string>, bound: nat): Stat
    decreases |parts|
  {
    if parts == [] then st else ReadParts(ReadPart(st, parts[0], bound), parts[1..], bound)
  }

  lemma {:induction false} ReadPartsSnoc(st: Stat, parts: seq<string>, part: string, bound: nat)
    ensures ReadParts(st, parts + [part], bound) == ReadPart(ReadParts(st, parts, bound), part, bound)
    decreases |parts|
  {
    if parts == [] {
      assert [part][1..] == [];
    } else {
      assert (parts + [part])[1..] == parts[1..] + [part];
      ReadPartsSnoc(ReadPart(st, parts[0], bound), parts[1..], part, bound);
    }
  }

  /** The three counts of a summary line as `parse_shortstat_line` returns them: 0 when absent. */
  function ShortstatCounts(line: string): (nat, nat, nat) {
    var st := ReadParts(NoStat, Split(line, ","), USIZE_BOUND);
    (st.files.GetOr(0), st.insertions.GetOr(0), st.deletions.GetOr(0))
  }

  /** `parse_shortstat_line`: one pass over the comma-separated parts of the line. */
  method ParseShortstatLine(line: string) returns (filesChanged: nat, insertions: nat, deletions: nat)
    ensures (filesChanged, insertions, deletions) == ShortstatCounts(line)
  {
    filesChanged, insertions, deletions := 0, 0, 0;
    var parts := Split(line, ",");
    var i := 0;
    while i < |parts|
      invariant i <= |parts|
      invariant filesChanged == ReadParts(NoStat, parts[..i], USIZE_BOUND).files.GetOr(0)
      invariant insertions == ReadParts(NoStat, parts[..i], USIZE_BOUND).insertions.GetOr(0)
      invariant deletions == ReadParts(NoStat, parts[..i], USIZE_BOUND).deletions.GetOr(0)
    {
      ReadPartsSnoc(NoStat, parts[..i], parts[i], USIZE_BOUND);
      assert parts[..i + 1] == parts[..i] + [parts[i]];
      var part := Trim(parts[i]);
      var tokens := SplitWhitespace(part);
      if tokens != [] {
        var value := ParseUnsigned(tokens[0], USIZE_BOUND);
        if value.Some? {
          if NamesFiles(part) {
            filesChanged := value.value;
          } else if Contains(part, "insertion") {
            insertions := value.value;
          } else if Contains(part, "deletion") {
            deletions := value.value;
          }
        }
      }
      i := i + 1;
    }
    assert parts[..|parts|] == parts;
  }

  /** The first token of the trimmed part parses below `bound`: the part carries a count. */
  predicate CarriesCount(part: string, bound: nat) {
    var w := SplitWhitespace(Trim(part));
    w != [] && ParseUnsigned(w[0], bound).Some?
  }

  predicate SetsFiles(part: string, bound: nat) {
    CarriesCount(part, bound) && NamesFiles(Trim(part))
  }

  predicate SetsInsertions(part: string, bound: nat) {
    CarriesCount(part, bound) && !NamesFiles(Trim(part)) && Contains(Trim(part), "insertion")
  }

  predicate SetsDeletions(part: string, bound: nat) {
    CarriesCount(part, bound) && !NamesFiles(Trim(part)) && !Contains(Trim(part), "insertion")
      && Contains(Trim(part), "deletion")
  }

  /** A count that no part sets keeps the value it had before the parts were read. */
  lemma {:induction false} ReadPartsKeeps(st: Stat, parts: seq<string>, bound: nat)
    ensures (forall k :: 0 <= k < |parts| ==> !SetsFiles(parts[k], bound)) ==>
      ReadParts(st, parts, bound).files == st.files
    ensures (forall k :: 0 <= k < |parts| ==> !SetsInsertions(parts[k], bound)) ==>
      ReadParts(st, parts, bound).insertions == st.insertions
    ensures (forall k :: 0 <= k < |parts| ==> !SetsDeletions(parts[k], bound)) ==>
      ReadParts(st, parts, bound).deletions == st.deletions
    decreases |parts|
  {
    if parts != [] {
      ReadPartKeeps(st, parts[0], bound);
      ReadPartsKeeps(ReadPart(st, parts[0], bound), parts[1..], bound);
      assert forall k :: 0 <= k < |parts[1..]| ==> parts[1..][k] == parts[k + 1];
    }
  }

  /** One part changes only the count it sets. */
  lemma ReadPartKeeps(st: Stat, part: string, bound: nat)
    ensures !SetsFiles(part, bound) ==> ReadPart(st, part, bound).files == st.files
    ensures !SetsInsertions(part, bound) ==> ReadPart(st, part, bound).insertions == st.insertions
    ensures !SetsDeletions(part, bound) ==> ReadPart(st, part, bound).deletions == st.deletions
  {
  }

  /** A line in which no part carries a file count reports 0 changed files. */
  lemma FilesDefault(line: string)
    requires forall k :: 0 <= k < |Split(line, ",")| ==> !SetsFiles(Split(line, ",")[k], USIZE_BOUND)
    ensures ShortstatCounts(line).0 == 0
  {
    ReadPartsKeeps(NoStat, Split(line, ","), USIZE_BOUND);
  }

  /** A line in which no part carries an insertion count reports 0 insertions. */
  lemma InsertionsDefault(line: string)
    requires forall k :: 0 <= k < |Split(line, ",")| ==> !SetsInsertions(Split(line, ",")[k], USIZE_BOUND)
    ensures ShortstatCounts(line).1 == 0
  {
    ReadPartsKeeps(NoStat, Split(line, ","), USIZE_BOUND);
  }

  /** A line in which no part carries a deletion count reports 0 deletions. */
  lemma DeletionsDefault(line: string)
    requires forall k :: 0 <= k < |Split(line, ",")| ==> !SetsDeletions(Split(line, ",")[k], USIZE_BOUND)
    ensures ShortstatCounts(line).2 == 0
  {
    ReadPartsKeeps(NoStat, Split(line, ","), USIZE_BOUND);
  }

  /** The summary lines of `git show --shortstat` hold the first line naming changed files. */
  function FirstStatLine(lines: seq<string>): Option<string>
    decreases |lines|
  {
    if lines == [] then None
    else if NamesFiles(Trim(lines[0])) then Some(Trim(lines[0]))
    else FirstStatLine(lines[1..])
  }

  /** The counts of a commit: the parts of its first summary line, read as `u32`s. */
  function CommitStat(stdout: string): Stat {
    match FirstStatLine(Lines(stdout))
    case None => NoStat
    case Some(t) => ReadParts(NoStat, Split(t, ","), U32_BOUND)
  }

  function ToShortStat(st: Stat): CommitShortStat {
    CommitShortStat(st.files, st.insertions, st.deletions)
  }

  /** The inner loop of `get_commit_shortstat`: the parts of one summary line, read as `u32`s. */
  method ReadSummary(trimmed: string) returns (shortstat: Stat)
    ensures shortstat == ReadParts(NoStat, Split(trimmed, ","), U32_BOUND)
  {
    shortstat := NoStat;
    var parts := Split(trimmed, ",");
    var j := 0;
    while j < |parts|
      invariant j <= |parts|
      invariant shortstat == ReadParts(NoStat, parts[..j], U32_BOUND)
    {
      ReadPartsSnoc(NoStat, parts[..j], parts[j], U32_BOUND);
      assert parts[..j + 1] == parts[..j] + [parts[j]];
      var part := Trim(parts[j]);
      var tokens := SplitWhitespace(part);
      if tokens != [] {
        var value := ParseUnsigned(tokens[0], U32_BOUND);
        if value.Some? {
          if NamesFiles(part) {
            shortstat := shortstat.(files := Some(value.value));
          } else if Contains(part, "insertion") {
            shortstat := shortstat.(insertions := Some(value.value));
          } else if Contains(part, "deletion") {
            shortstat := shortstat.(deletions := Some(value.value));
          }
        }
      }
      j := j + 1;
    }
    assert parts[..|parts|] == parts;
  }

  /**
   * `get_commit_shortstat`: a failed `git show` is an error; otherwise the counts of the first
   * line naming changed files, each `None` when that line does not give it.
   */
  method GetCommitShortstat(output: ProcessOutput) returns (r: Result<CommitShortStat, string>)
    ensures !output.success ==> r == Err("Git show failed: " + output.stderr)
    ensures output.success ==> r == Ok(ToShortStat(CommitStat(output.stdout)))
  {
    if !output.success {
      return Err("Git show failed: " + output.stderr);
    }
    var lines := Lines(output.stdout);
    var i := 0;
    while i < |lines|
      invariant i <= |lines|
      invariant FirstStatLine(lines) == FirstStatLine(lines[i..])
    {
      var trimmed := Trim(lines[i]);
      if !NamesFiles(trimmed) {
        assert lines[i..][1..] == lines[i + 1..];
        i := i + 1;
        continue;
      }
      var shortstat := ReadSummary(trimmed);
      return Ok(ToShortStat(shortstat));
    }
    return Ok(ToShortStat(NoStat));
  }

  // ---------------------------------------------------------------- git's summary line

  /** A count and the singular or plural phrase after it, as git's translations spell them. */
  function Counted(n: nat, one: string, many: string): string {
    NatToString(n) + (if n == 1 then one else many)
  }

  /** Git prints the insertions unless it has only deletions to report, and the other way round. */
  predicate ShowsInsertions(i: nat, d: nat) { i > 0 || d == 0 }
  predicate ShowsDeletions(i: nat, d: nat) { d > 0 || i == 0 }

  function FilesText(f: nat): string { Counted(f, " file changed", " files changed") }
  function InsertionsText(i: nat): string { Counted(i, " insertion(+)", " insertions(+)") }
  function DeletionsText(d: nat): string { Counted(d, " deletion(-)", " deletions(-)") }

  /** The phrases git prints, each after a blank but the first: the pieces of its summary line. */
  function StatPhrases(f: nat, i: nat, d: nat): seq<string> {
    [FilesText(f)]
      + (if ShowsInsertions(i, d) then [" " + InsertionsText(i)] else [])
      + (if ShowsDeletions(i, d) then [" " + DeletionsText(d)] else [])
  }

  /** The summary git prints after the leading blank, e.g. `3 files changed, 1 insertion(+)`. */
  function StatText(f: nat, i: nat, d: nat): string {
    Join(StatPhrases(f, i, d), ",")
  }

  function ShortstatLine(f: nat, i: nat, d: nat): string {
    " " + StatText(f, i, d)
  }

  lemma DigitsAreWords(s: string)
    requires AllDigits(s)
    ensures NoWhitespace(s) && ',' !in s && '\n' !in s && 'f' !in s && 'r' !in s
  {
  }

  /** A part `<blanks>N word…` whose last character is not blank yields `N` as its count. */
  lemma PartCount(w: string, n: nat, rest: string, bound: nat)
    requires forall k :: 0 <= k < |w| ==> IsWhitespace(w[k])
    requires |rest| > 1 && IsWhitespace(rest[0]) && !IsWhitespace(rest[|rest| - 1])
    requires n < bound
    ensures Trim(w + (NatToString(n) + rest)) == NatToString(n) + rest
    ensures SplitWhitespace(NatToString(n) + rest) != []
    ensures SplitWhitespace(NatToString(n) + rest)[0] == NatToString(n)
    ensures ParseUnsigned(NatToString(n), bound) == Some(n)
  {
    var N := NatToString(n);
    DigitsAreWords(N);
    assert IsTrimmed(N + rest) by {
      assert (N + rest)[0] == N[0];
      assert (N + rest)[|N + rest| - 1] == rest[|rest| - 1];
    }
    TrimAfterBlanks(w, N + rest);
    SplitWhitespaceWord(N, rest);
    ParseNatToString(n, bound);
  }

  lemma FilesPart(st: Stat, w: string, f: nat, bound: nat)
    requires forall k :: 0 <= k < |w| ==> IsWhitespace(w[k])
    requires f < bound
    ensures ReadPart(st, w + FilesText(f), bound) == st.(files := Some(f))
  {
    var N := NatToString(f);
    var rest := if f == 1 then " file changed" else " files changed";
    PartCount(w, f, rest, bound);
    var p := N + rest;
    assert p[|N| + 1..] == rest[1..];
    if f == 1 {
      ContainsAt(p, "file changed", |N| + 1);
    } else {
      ContainsAt(p, "files changed", |N| + 1);
    }
  }

  lemma InsertionsPart(st: Stat, w: string, i: nat, bound: nat)
    requires forall k :: 0 <= k < |w| ==> IsWhitespace(w[k])
    requires i < bound
    ensures ReadPart(st, w + InsertionsText(i), bound) == st.(insertions := Some(i))
  {
    var rest := if i == 1 then " insertion(+)" else " insertions(+)";
    PartCount(w, i, rest, bound);
    InsertionWords(i);
  }

  /** An insertions part names no files, and names insertions. */
  lemma InsertionWords(i: nat)
    ensures !NamesFiles(InsertionsText(i)) && Contains(InsertionsText(i), "insertion")
  {
    var N := NatToString(i);
    var rest := if i == 1 then " insertion(+)" else " insertions(+)";
    var p := N + rest;
    CountedLacks(i, " insertion(+)", " insertions(+)", 'f');
    CharAbsent(p, "file changed", 0);
    CharAbsent(p, "files changed", 0);
    assert rest[1..10] == "insertion";
    assert p[|N| + 1..|N| + 10] == rest[1..10];
    ContainsAt(p, "insertion", |N| + 1);
  }

  /** A deletions part names neither files nor insertions. */
  lemma DeletionWords(d: nat)
    ensures !NamesFiles(DeletionsText(d)) && !Contains(DeletionsText(d), "insertion")
    ensures Contains(DeletionsText(d), "deletion")
  {
    var N := NatToString(d);
    var rest := if d == 1 then " deletion(-)" else " deletions(-)";
    DigitsAreWords(N);
    var p := N + rest;
    assert 'f' !in rest && 'r' !in rest;
    assert 'f' !in p && 'r' !in p;
    CharAbsent(p, "file changed", 0);
    CharAbsent(p, "files changed", 0);
    assert "insertion"[4] == 'r';
    CharAbsent(p, "insertion", 4);
    assert rest[1..9] == "deletion";
    assert p[|N| + 1..|N| + 9] == rest[1..9];
    ContainsAt(p, "deletion", |N| + 1);
  }

  lemma DeletionsPart(st: Stat, w: string, d: nat, bound: nat)
    requires forall k :: 0 <= k < |w| ==> IsWhitespace(w[k])
    requires d < bound
    ensures ReadPart(st, w + DeletionsText(d), bound) == st.(deletions := Some(d))
  {
    var rest := if d == 1 then " deletion(-)" else " deletions(-)";
    PartCount(w, d, rest, bound);
    DeletionWords(d);
  }

  /** A character that is no digit and not in either phrase is not in the counted text. */
  lemma CountedLacks(n: nat, one: string, many: string, c: char)
    requires !IsDigit(c) && c !in one && c !in many
    ensures c !in Counted(n, one, many)
  {
    var N := NatToString(n);
    assert c !in N;
  }

  /** The parts `split(',')` cuts the summary into, after the blanks `w` in front of it. */
  function StatParts(w: string, f: nat, i: nat, d: nat): seq<string> {
    [w + FilesText(f)]
      + (if ShowsInsertions(i, d) then [" " + InsertionsText(i)] else [])
      + (if ShowsDeletions(i, d) then [" " + DeletionsText(d)] else [])
  }

  lemma SplitStat(w: string, f: nat, i: nat, d: nat)
    requires ',' !in w
    ensures Split(w + StatText(f, i, d), ",") == StatParts(w, f, i, d)
  {
    var ps := StatPhrases(f, i, d);
    PhrasesLack(f, i, d, ',');
    assert "," == [','];
    SplitAfter(w, ps, ',');
    assert StatParts(w, f, i, d) == [w + ps[0]] + ps[1..];
  }

  /** No phrase of the summary holds a comma or a line break. */
  lemma PhrasesLack(f: nat, i: nat, d: nat, c: char)
    requires c == ',' || c == '\n'
    ensures forall p :: p in StatPhrases(f, i, d) ==> c !in p
  {
    CountedLacks(f, " file changed", " files changed", c);
    CountedLacks(i, " insertion(+)", " insertions(+)", c);
    CountedLacks(d, " deletion(-)", " deletions(-)", c);
    var x, y := " " + InsertionsText(i), " " + DeletionsText(d);
    assert c !in x && c !in y;
  }

  /** Splitting a join with text in front of it: the text goes with the first piece. */
  lemma SplitAfter(w: string, ps: seq<string>, c: char)
    requires c !in w && |ps| >= 1
    requires forall p :: p in ps ==> c !in p
    ensures Split(w + Join(ps, [c]), [c]) == [w + ps[0]] + ps[1..]
  {
    var parts := [w + ps[0]] + ps[1..];
    assert [ps[0]] + ps[1..] == ps;
    JoinPrefix(w, ps[0], ps[1..], [c]);
    forall k | 0 <= k < |parts| ensures c !in parts[k] {
      if k > 0 {
        assert parts[k] == ps[k];
      }
    }
    SplitJoin(parts, c);
  }

  lemma ReadPartsOne(st: Stat, part: string, bound: nat)
    ensures ReadParts(st, [part], bound) == ReadPart(st, part, bound)
  {
    assert [part][1..] == [];
  }

  /** What reading git's summary finds: every count it printed, and nothing for the one it left out. */
  function StatOf(f: nat, i: nat, d: nat): Stat {
    Stat(Some(f), if ShowsInsertions(i, d) then Some(i) else None, if ShowsDeletions(i, d) then Some(d) else None)
  }

  lemma ReadStatParts(w: string, f: nat, i: nat, d: nat, bound: nat)
    requires forall k :: 0 <= k < |w| ==> IsWhitespace(w[k])
    requires f < bound && i < bound && d < bound
    ensures ReadParts(NoStat, StatParts(w, f, i, d), bound) == StatOf(f, i, d)
  {
    var s1 := NoStat.(files := Some(f));
    FilesPart(NoStat, w, f, bound);
    var parts := StatParts(w, f, i, d);
    assert parts[0] == w + FilesText(f);
    assert ReadParts(NoStat, parts, bound) == ReadParts(s1, parts[1..], bound);
    if ShowsInsertions(i, d) {
      var s2 := s1.(insertions := Some(i));
      InsertionsPart(s1, " ", i, bound);
      assert parts[1] == " " + InsertionsText(i);
      assert ReadParts(s1, parts[1..], bound) == ReadParts(s2, parts[2..], bound);
      if ShowsDeletions(i, d) {
        DeletionsPart(s2, " ", d, bound);
        assert parts[2..] == [" " + DeletionsText(d)];
        ReadPartsOne(s2, " " + DeletionsText(d), bound);
      } else {
        assert parts[2..] == [];
      }
    } else {
      DeletionsPart(s1, " ", d, bound);
      assert parts[1..] == [" " + DeletionsText(d)];
      ReadPartsOne(s1, " " + DeletionsText(d), bound);
    }
  }

  /** `parse_shortstat_line` reads git's summary line back as the three counts it prints. */
  lemma ShortstatRoundTrip(f: nat, i: nat, d: nat)
    requires f < USIZE_BOUND && i < USIZE_BOUND && d < USIZE_BOUND
    ensures ShortstatCounts(ShortstatLine(f, i, d)) == (f, i, d)
  {
    SplitStat(" ", f, i, d);
    ReadStatParts(" ", f, i, d, USIZE_BOUND);
  }

  lemma FilesWords(f: nat)
    ensures NamesFiles(FilesText(f))
  {
    var N := NatToString(f);
    var rest := if f == 1 then " file changed" else " files changed";
    var p := N + rest;
    assert p[|N| + 1..] == rest[1..];
    if f == 1 {
      ContainsAt(p, "file changed", |N| + 1);
    } else {
      ContainsAt(p, "files changed", |N| + 1);
    }
  }

  lemma StatTextNames(f: nat, i: nat, d: nat)
    ensures NamesFiles(StatText(f, i, d))
  {
    var t := StatText(f, i, d);
    JoinStarts(StatPhrases(f, i, d), ",");
    FilesWords(f);
    if Contains(FilesText(f), "file changed") {
      ContainsInPrefix(FilesText(f), t, "file changed");
    } else {
      ContainsInPrefix(FilesText(f), t, "files changed");
    }
  }

  lemma StatTextEnds(f: nat, i: nat, d: nat)
    ensures IsTrimmed(StatText(f, i, d))
  {
    var ps := StatPhrases(f, i, d);
    var t := StatText(f, i, d);
    JoinStarts(ps, ",");
    assert t[0] == NatToString(f)[0];
    var last := ps[|ps| - 1];
    var lc := last[|last| - 1];
    assert lc == ')' || lc == 'd';
    JoinLastChar(ps, ",");
  }

  lemma StatTextLine(f: nat, i: nat, d: nat)
    ensures '\n' !in StatText(f, i, d)
  {
    var ps := StatPhrases(f, i, d);
    PhrasesLack(f, i, d, '\n');
    assert forall k :: 0 <= k < |ps| ==> ps[k] in ps;
    JoinNoChar(ps, ",", '\n');
  }

  /** Git's summary is one line, names the changed files, and has no blank at either end. */
  lemma StatTextShape(f: nat, i: nat, d: nat)
    ensures IsTrimmed(StatText(f, i, d)) && NamesFiles(StatText(f, i, d))
    ensures IsLine(ShortstatLine(f, i, d))
  {
    var t := StatText(f, i, d);
    StatTextNames(f, i, d);
    StatTextEnds(f, i, d);
    StatTextLine(f, i, d);
    assert ShortstatLine(f, i, d)[|ShortstatLine(f, i, d)| - 1] == t[|t| - 1];
  }

  lemma {:induction false} FirstStatLineAfter(pre: seq<string>, l: string, post: seq<string>)
    requires forall k :: 0 <= k < |pre| ==> !NamesFiles(Trim(pre[k]))
    requires NamesFiles(Trim(l))
    ensures FirstStatLine(pre + [l] + post) == Some(Trim(l))
    decreases |pre|
  {
    if pre == [] {
      assert pre + [l] + post == [l] + post;
    } else {
      assert (pre + [l] + post)[1..] == pre[1..] + [l] + post;
      FirstStatLineAfter(pre[1..], l, post);
    }
  }

  /** The summary line is the one found, and trimming takes its leading blank. */
  lemma FindSummary(pre: seq<string>, f: nat, i: nat, d: nat)
    requires forall k :: 0 <= k < |pre| ==> IsLine(pre[k]) && !NamesFiles(Trim(pre[k]))
    ensures FirstStatLine(Lines(Unlines(pre + [ShortstatLine(f, i, d)]))) == Some(StatText(f, i, d))
  {
    StatTextShape(f, i, d);
    FindLine(pre, ShortstatLine(f, i, d), StatText(f, i, d));
  }

  /** A line that is a blank and then a trimmed text naming files is found after lines naming none. */
  lemma FindLine(pre: seq<string>, l: string, t: string)
    requires forall k :: 0 <= k < |pre| ==> IsLine(pre[k]) && !NamesFiles(Trim(pre[k]))
    requires l == " " + t && IsLine(l) && IsTrimmed(t) && NamesFiles(t)
    ensures FirstStatLine(Lines(Unlines(pre + [l]))) == Some(t)
  {
    LinesOfLines(pre, l);
    TrimAfterBlanks(" ", t);
    FirstStatLineAfter(pre, l, []);
    assert pre + [l] + [] == pre + [l];
  }

  lemma LinesOfLines(pre: seq<string>, l: string)
    requires forall k :: 0 <= k < |pre| ==> IsLine(pre[k])
    requires IsLine(l)
    ensures Lines(Unlines(pre + [l])) == pre + [l]
  {
    var lines := pre + [l];
    forall k | 0 <= k < |lines| ensures IsLine(lines[k]) {
      if k < |pre| {
        assert lines[k] == pre[k];
      }
    }
    LinesUnlines(lines);
  }

  /**
   * `get_commit_shortstat` reads git's summary, after any lines that name no files, back as
   * the counts git printed and `None` for a count it left out.
   */
  lemma CommitStatRoundTrip(pre: seq<string>, f: nat, i: nat, d: nat)
    requires f < U32_BOUND && i < U32_BOUND && d < U32_BOUND
    requires forall k :: 0 <= k < |pre| ==> IsLine(pre[k]) && !NamesFiles(Trim(pre[k]))
    ensures CommitStat(Unlines(pre + [ShortstatLine(f, i, d)])) == StatOf(f, i, d)
  {
    var t := StatText(f, i, d);
    FindSummary(pre, f, i, d);
    assert Split(t, ",") == StatParts("", f, i, d) by {
      SplitStat("", f, i, d);
      assert "" + t == t;
    }
    ReadStatParts("", f, i, d, U32_BOUND);
  }

  // ================================================================ log records

  /** `%x1e` ends each record of the log format, `%x1f` separates its fields. */
  const RECORD_SEP: char := '\U{1E}'
  const FIELD_SEP: char := '\U{1F}'

  /** A record: blank ones and ones with fewer than four fields are skipped; the message is kept as is. */
  function ReadRecord(record: string): Option<CommitInfo> {
    if Trim(record) == "" then None
    else
      var parts := Split(record, [FIELD_SEP]);
      if |parts| < 4 then None
      else Some(CommitInfo(Trim(parts[0]), parts[1], Trim(parts[2]), Trim(parts[3])))
  }

  function Records(records: seq<string>): seq<CommitInfo>
    decreases |records|
  {
    if records == [] then []
    else
      (match ReadRecord(records[0]) case None => [] case Some(c) => [c]) + Records(records[1..])
  }

  function LogCommits(stdout: string): seq<CommitInfo> {
    Records(Split(stdout, [RECORD_SEP]))
  }

  lemma {:induction false} RecordsSnoc(records: seq<string>, r: string)
    ensures Records(records + [r]) == Records(records) + Records([r])
    decreases |records|
  {
    if records == [] {
      assert [] + [r] == [r];
    } else {
      assert (records + [r])[1..] == records[1..] + [r];
      RecordsSnoc(records[1..], r);
    }
  }

  /** One more record read: its commit, if it has one, follows those read before. */
  lemma RecordsNext(records: seq<string>, i: nat)
    requires i < |records|
    ensures Records(records[..i + 1]) ==
              Records(records[..i]) + match ReadRecord(records[i]) case None => [] case Some(c) => [c]
  {
    RecordsSnoc(records[..i], records[i]);
    assert records[..i + 1] == records[..i] + [records[i]];
    assert [records[i]][1..] == [];
  }

  /** The record loop `get_log` and `compare_branches` share. */
  method ReadLog(stdout: string) returns (commits: seq<CommitInfo>)
    ensures commits == LogCommits(stdout)
  {
    var records := Split(stdout, [RECORD_SEP]);
    commits := [];
    var i := 0;
    while i < |records|
      invariant i <= |records|
      invariant commits == Records(records[..i])
    {
      var record := records[i];
      RecordsNext(records, i);
      if Trim(record) == "" {
        i := i + 1;
        continue;
      }
      var parts := Split(record, [FIELD_SEP]);
      if |parts| < 4 {
        i := i + 1;
        continue;
      }
      commits := commits + [CommitInfo(Trim(parts[0]), parts[1], Trim(parts[2]), Trim(parts[3]))];
      i := i + 1;
    }
    assert records[..|records|] == records;
  }

  /** `get_log`: a failed `git log` is an error; otherwise the commits of its records, in order. */
  method GetLog(output: ProcessOutput) returns (r: Result<seq<CommitInfo>, string>)
    ensures !output.success ==> r == Err("Git log failed: " + output.stderr)
    ensures output.success ==> r == Ok(LogCommits(output.stdout))
  {
    if !output.success {
      return Err("Git log failed: " + output.stderr);
    }
    var commits := ReadLog(output.stdout);
    return Ok(commits);
  }

  // ---------------------------------------------------------------- git's log output

  /** A commit the format can carry: no separator inside a field, and the trimmed fields trimmed. */
  predicate GoodCommit(c: CommitInfo) {
    && |c.hash| > 0 && IsTrimmed(c.hash) && IsTrimmed(c.author) && IsTrimmed(c.date)
    && (forall k :: 0 <= k < 4 ==> RECORD_SEP !in Fields(c)[k] && FIELD_SEP !in Fields(c)[k])
  }

  function Fields(c: CommitInfo): seq<string> {
    [c.hash, c.message, c.author, c.date]
  }

  /** `%H%x1f%B%x1f%an%x1f%ai`: the fields joined by the field separator. */
  function Entry(c: CommitInfo): string {
    Join(Fields(c), [FIELD_SEP])
  }

  /** What git prints: each entry followed by the record separator, entries apart by a line break. */
  function LogFrom(cs: seq<CommitInfo>, lead: string): string
    decreases |cs|
  {
    if cs == [] then "" else lead + Entry(cs[0]) + [RECORD_SEP] + LogFrom(cs[1..], "\n")
  }

  function LogText(cs: seq<CommitInfo>): string {
    LogFrom(cs, "")
  }

  /** A string with a non-blank character does not trim to nothing. */
  lemma TrimNotEmpty(s: string, k: nat)
    requires k < |s| && !IsWhitespace(s[k])
    ensures Trim(s) != ""
  {
    var a := TrimStart(s);
    TrimStartShape(s);
    assert |s| - |a| <= k;
    TrimEndShape(a);
    assert |TrimEnd(a)| > 0;
  }

  lemma EntryRecord(c: CommitInfo, lead: string)
    requires GoodCommit(c) && (lead == "" || lead == "\n")
    ensures ReadRecord(lead + Entry(c)) == Some(c)
    ensures RECORD_SEP !in lead + Entry(c)
  {
    var fs := Fields(c);
    var parts := [lead + c.hash, c.message, c.author, c.date];
    assert fs == [c.hash] + fs[1..];
    assert parts == [lead + c.hash] + fs[1..];
    JoinPrefix(lead, c.hash, fs[1..], [FIELD_SEP]);
    var record := lead + Entry(c);
    assert record == Join(parts, [FIELD_SEP]);
    assert forall k :: 0 <= k < 4 ==> FIELD_SEP !in parts[k] && RECORD_SEP !in parts[k] by {
      forall k | 0 <= k < 4 ensures FIELD_SEP !in parts[k] && RECORD_SEP !in parts[k] {
        assert k > 0 ==> parts[k] == fs[k];
        assert FIELD_SEP !in fs[k] && RECORD_SEP !in fs[k];
      }
    }
    SplitJoin(parts, FIELD_SEP);
    JoinNoChar(parts, [FIELD_SEP], RECORD_SEP);
    JoinStarts(parts, [FIELD_SEP]);
    assert record[|lead|] == c.hash[0];
    TrimNotEmpty(record, |lead|);
    TrimAfterBlanks(lead, c.hash);
    TrimOfTrimmed(c.author);
    TrimOfTrimmed(c.date);
  }

  lemma {:induction false} ReadLogFrom(cs: seq<CommitInfo>, lead: string)
    requires forall k :: 0 <= k < |cs| ==> GoodCommit(cs[k])
    requires lead == "" || lead == "\n"
    ensures Records(Split(LogFrom(cs, lead), [RECORD_SEP])) == cs
    decreases |cs|
  {
    if cs == [] {
      SplitNoSep("", RECORD_SEP);
      assert Records([""]) == Records([""][1..]);
    } else {
      var e := lead + Entry(cs[0]);
      EntryRecord(cs[0], lead);
      assert forall k :: 0 <= k < |cs[1..]| ==> cs[1..][k] == cs[k + 1];
      ReadLogFrom(cs[1..], "\n");
      var rest := LogFrom(cs[1..], "\n");
      assert LogFrom(cs, lead) == e + [RECORD_SEP] + rest;
      RecordsFirst(e, cs[0], rest);
      assert [cs[0]] + cs[1..] == cs;
    }
  }

  /** A record that reads as a commit, in front of the rest of the output. */
  lemma RecordsFirst(e: string, c: CommitInfo, rest: string)
    requires RECORD_SEP !in e && ReadRecord(e) == Some(c)
    ensures Records(Split(e + [RECORD_SEP] + rest, [RECORD_SEP])) == [c] + Records(Split(rest, [RECORD_SEP]))
  {
    SplitFirst(e, RECORD_SEP, rest);
    var rs := [e] + Split(rest, [RECORD_SEP]);
    assert rs[0] == e && rs[1..] == Split(rest, [RECORD_SEP]);
  }

  /** Reading git's log output gives back the commits it printed, message text untouched. */
  lemma LogRoundTrip(cs: seq<CommitInfo>)
    requires forall k :: 0 <= k < |cs| ==> GoodCommit(cs[k])
    ensures LogCommits(LogText(cs)) == cs
  {
    ReadLogFrom(cs, "");
  }

  // ================================================================ comparing two branches

  /**
   * `rev-list --left-right --count base...compare` prints the commits only `base` has, then
   * those only `compare` has: how far `compare` is behind and ahead. Unparsable counts are 0,
   * and so are both when fewer than two tokens come back.
   */
  function RevListCounts(stdout: string): (nat, nat) {
    var parts := SplitWhitespace(stdout);
    if |parts| >= 2 then
      (ParseUnsigned(parts[1], USIZE_BOUND).GetOr(0), ParseUnsigned(parts[0], USIZE_BOUND).GetOr(0))
    else (0, 0)
  }

  /** Git's answer `<behind>\t<ahead>\n` reads back as (ahead, behind). */
  lemma RevListRoundTrip(ahead: nat, behind: nat)
    requires ahead < USIZE_BOUND && behind < USIZE_BOUND
    ensures RevListCounts(NatToString(behind) + "\t" + NatToString(ahead) + "\n") == (ahead, behind)
  {
    var B := NatToString(behind);
    var A := NatToString(ahead);
    DigitsAreWords(B);
    DigitsAreWords(A);
    assert B + "\t" + A + "\n" == B + ("\t" + A + "\n");
    SplitWhitespaceWord(B, "\t" + A + "\n");
    assert ("\t" + A + "\n")[1..] == A + "\n";
    assert IsWhitespace(("\t" + A + "\n")[0]);
    SplitWhitespaceWord(A, "\n");
    assert IsWhitespace("\n"[0]) && "\n"[1..] == "";
    ParseNatToString(ahead, USIZE_BOUND);
    ParseNatToString(behind, USIZE_BOUND);
  }

  /**
   * `compare_branches`, given the outputs of its three git runs: a failed `rev-list` is an
   * error; a failed `log` gives no commits and a failed `diff --stat` an empty summary.
   */
  method CompareBranches(revList: ProcessOutput, log: ProcessOutput, diff: ProcessOutput)
    returns (r: Result<BranchComparison, string>)
    ensures !revList.success ==> r == Err("Git rev-list failed: " + revList.stderr)
    ensures revList.success ==> r.Ok?
    ensures r.Ok? ==> (r.value.ahead, r.value.behind) == RevListCounts(revList.stdout)
    ensures r.Ok? ==> r.value.commits == (if log.success then LogCommits(log.stdout) else [])
    ensures r.Ok? ==> r.value.diffSummary == (if diff.success then Trim(diff.stdout) else "")
  {
    if !revList.success {
      return Err("Git rev-list failed: " + revList.stderr);
    }
    var ahead: nat := 0;
    var behind: nat := 0;
    var parts := SplitWhitespace(revList.stdout);
    if |parts| >= 2 {
      behind := ParseUnsigned(parts[0], USIZE_BOUND).GetOr(0);
      ahead := ParseUnsigned(parts[1], USIZE_BOUND).GetOr(0);
    }
    var commits: seq<CommitInfo> := [];
    if log.success {
      commits := ReadLog(log.stdout);
    }
    var diffSummary := if diff.success then Trim(diff.stdout) else "";
    return Ok(BranchComparison(ahead, behind, commits, diffSummary));
  }
}
