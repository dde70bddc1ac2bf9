/**
 * `get_worktrees` in src-tauri/src/git/mod.rs: the reader of `git worktree list --porcelain`.
 *
 * The listing is a run of records, each a `worktree <path>` line followed by `HEAD <hash>`,
 * `branch refs/heads/<name>` or `detached` (or `bare`) and ended by a blank line. The reader
 * keeps the path and branch label it has seen and emits a record when the next record starts,
 * at a blank line and at the end of the output, provided both are known.
 */
module GitWorktrees {
  import opened Wrappers
  import opened Strings
  import opened GitTypes

  /** The reader's variables between two lines. */
  datatype Reader = Reader(worktrees: seq<Worktree>, path: Option<string>, branch: Option<string>, isFirst: bool)

  const Start: Reader := Reader([], None, None, true)

  /** Both the path and the branch are taken; a record is emitted only when both were set. */
  function Flush(st: Reader): Reader {
    if st.path.Some? && st.branch.Some? then
      Reader(st.worktrees + [Worktree(st.path.value, st.branch.value, st.isFirst)], None, None, false)
    else
      st.(path := None, branch := None)
  }

  /** The branch of a `branch ` line, with `refs/heads/` stripped once when present. */
  function BranchName(line: string): string {
    var r := TrimStartMatches(line, "branch ");
    match StripPrefix(r, "refs/heads/")
    case Some(name) => name
    case None => r
  }

  /** `(detached <at most the first seven characters of the hash>)`. */
  function DetachedLabel(hash: string): string {
    "(detached " + hash[..if |hash| < 7 then |hash| else 7] + ")"
  }

  /** What the reader does with one line of the listing. */
  function ReadLine(st: Reader, line: string): Reader {
    if StartsWith(line, "worktree ") then
      Flush(st).(path := Some(TrimStartMatches(line, "worktree ")), branch := None)
    else if StartsWith(line, "branch ") then
      st.(branch := Some(BranchName(line)))
    else if StartsWith(line, "HEAD ") then
      if st.branch.None? then st.(branch := Some(DetachedLabel(TrimStartMatches(line, "HEAD ")))) else st
    else if Trim(line) == "" then
      Flush(st)
    else
      st
  }

  /** The reader after the given lines, read left to right. */
  function Read(st: Reader, lines: seq<string>): Reader
    decreases |lines|
  {
    if lines == [] then st else Read(ReadLine(st, lines[0]), lines[1..])
  }

  /** The records of a finished read: the pending record is kept when both of its parts are known. */
  function Finish(st: Reader): seq<Worktree> {
    if st.path.Some? && st.branch.Some? then st.worktrees + [Worktree(st.path.value, st.branch.value, st.isFirst)]
    else st.worktrees
  }

  function ParseWorktrees(stdout: string): seq<Worktree> {
    Finish(Read(Start, Lines(stdout)))
  }

  lemma {:induction false} ReadSnoc(st: Reader, lines: seq<string>, l: string)
    ensures Read(st, lines + [l]) == ReadLine(Read(st, lines), l)
    decreases |lines|
  {
    if lines == [] {
      assert [l][1..] == [];
    } else {
      assert (lines + [l])[1..] == lines[1..] + [l];
      ReadSnoc(ReadLine(st, lines[0]), lines[1..], l);
    }
  }

  lemma {:induction false} ReadAppend(st: Reader, a: seq<string>, b: seq<string>)
    ensures Read(st, a + b) == Read(Read(st, a), b)
    decreases |a|
  {
    if a == [] {
      assert a + b == b;
    } else {
      assert (a + b)[1..] == a[1..] + b;
      ReadAppend(ReadLine(st, a[0]), a[1..], b);
    }
  }

  lemma ReadOne(st: Reader, a: string)
    ensures Read(st, [a]) == ReadLine(st, a)
  {
    assert [a][1..] == [];
  }

  lemma ReadTwo(st: Reader, a: string, b: string)
    ensures Read(st, [a, b]) == ReadLine(ReadLine(st, a), b)
  {
    assert [a, b][1..] == [b];
    ReadOne(ReadLine(st, a), b);
  }

  lemma ReadThree(st: Reader, a: string, b: string, c: string)
    ensures Read(st, [a, b, c]) == ReadLine(ReadLine(ReadLine(st, a), b), c)
  {
    assert [a, b, c][1..] == [b, c];
    ReadTwo(ReadLine(st, a), b, c);
  }

  lemma ReadFour(st: Reader, a: string, b: string, c: string, d: string)
    ensures Read(st, [a, b, c, d]) == ReadLine(ReadLine(ReadLine(ReadLine(st, a), b), c), d)
  {
    assert [a, b, c, d][1..] == [b, c, d];
    ReadThree(ReadLine(st, a), b, c, d);
  }

  /**
   * `get_worktrees`: a failed `git worktree list` is an error carrying its stderr; otherwise
   * the records of its output.
   */
  method GetWorktrees(output: ProcessOutput) returns (r: Result<seq<Worktree>, string>)
    ensures !output.success ==> r == Err("Git worktree list failed: " + output.stderr)
    ensures output.success ==> r == Ok(ParseWorktrees(output.stdout))
  {
    if !output.success {
      return Err("Git worktree list failed: " + output.stderr);
    }
    var lines := Lines(output.stdout);
    var worktrees: seq<Worktree> := [];
    var currentPath: Option<string> := None;
    var currentBranch: Option<string> := None;
    var isFirst := true;
    var i := 0;
    while i < |lines|
      invariant i <= |lines|
      invariant Read(Start, lines[..i]) == Reader(worktrees, currentPath, currentBranch, isFirst)
    {
      var line := lines[i];
      ReadSnoc(Start, lines[..i], line);
      assert lines[..i + 1] == lines[..i] + [line];
      if StartsWith(line, "worktree ") {
        var path, branch := currentPath, currentBranch;
        currentPath, currentBranch := None, None;
        if path.Some? && branch.Some? {
          worktrees := worktrees + [Worktree(path.value, branch.value, isFirst)];
          isFirst := false;
        }
        currentPath := Some(TrimStartMatches(line, "worktree "));
        currentBranch := None;
      } else if StartsWith(line, "branch ") {
        var branchRef := TrimStartMatches(line, "branch ");
        var branchName := match StripPrefix(branchRef, "refs/heads/") case Some(n) => n case None => branchRef;
        currentBranch := Some(branchName);
      } else if StartsWith(line, "HEAD ") {
        if currentBranch.None? {
          var hash := TrimStartMatches(line, "HEAD ");
          currentBranch := Some("(detached " + hash[..if |hash| < 7 then |hash| else 7] + ")");
        }
      } else if Trim(line) == "" {
        var path, branch := currentPath, currentBranch;
        currentPath, currentBranch := None, None;
        if path.Some? && branch.Some? {
          worktrees := worktrees + [Worktree(path.value, branch.value, isFirst)];
          isFirst := false;
        }
      }
      i := i + 1;
    }
    assert lines[..|lines|] == lines;
    if currentPath.Some? && currentBranch.Some? {
      worktrees := worktrees + [Worktree(currentPath.value, currentBranch.value, isFirst)];
    }
    return Ok(worktrees);
  }

  // ================================================================ facts for every input

  /** Exactly the first record emitted is the main worktree. */
  predicate MainFirst(ws: seq<Worktree>) {
    forall i :: 0 <= i < |ws| ==> (ws[i].isMain <==> i == 0)
  }

  predicate Sound(st: Reader) {
    (st.isFirst <==> st.worktrees == []) && MainFirst(st.worktrees)
  }

  lemma FlushSound(st: Reader)
    requires Sound(st)
    ensures Sound(Flush(st))
  {
    if st.path.Some? && st.branch.Some? {
      var ws := st.worktrees + [Worktree(st.path.value, st.branch.value, st.isFirst)];
      forall i | 0 <= i < |ws| ensures ws[i].isMain <==> i == 0 {
        if i < |st.worktrees| {
          assert ws[i] == st.worktrees[i];
        }
      }
    }
  }

  lemma {:induction false} ReadSound(st: Reader, lines: seq<string>)
    requires Sound(st)
    ensures Sound(Read(st, lines))
    decreases |lines|
  {
    if lines != [] {
      FlushSound(st);
      ReadSound(ReadLine(st, lines[0]), lines[1..]);
    }
  }

  /** Whatever the output, exactly the first record is marked main. */
  lemma ParseMainFirst(stdout: string)
    ensures MainFirst(ParseWorktrees(stdout))
  {
    ReadSound(Start, Lines(stdout));
    FlushSound(Read(Start, Lines(stdout)));
  }

  function WorktreeLines(lines: seq<string>): nat
    decreases |lines|
  {
    if lines == [] then 0 else (if StartsWith(lines[0], "worktree ") then 1 else 0) + WorktreeLines(lines[1..])
  }

  function Held(st: Reader): nat {
    |st.worktrees| + if st.path.Some? then 1 else 0
  }

  lemma {:induction false} ReadHeld(st: Reader, lines: seq<string>)
    ensures Held(Read(st, lines)) <= Held(st) + WorktreeLines(lines)
    decreases |lines|
  {
    if lines != [] {
      ReadHeld(ReadLine(st, lines[0]), lines[1..]);
    }
  }

  /** Every record needs its own `worktree ` line: there are never more records than such lines. */
  lemma ParseBoundedByPaths(stdout: string)
    ensures |ParseWorktrees(stdout)| <= WorktreeLines(Lines(stdout))
  {
    ReadHeld(Start, Lines(stdout));
  }

  // ================================================================ git's own listings

  /** What follows a record's `HEAD` line in git's listing. */
  datatype HeadKind = OnBranch(name: string) | Detached | Bare

  datatype Entry = Entry(path: string, head: string, kind: HeadKind)

  /** A record git can print: one-line fields, no field starting with its own line's keyword. */
  predicate GoodEntry(e: Entry) {
    IsLine(e.path) && !StartsWith(e.path, "worktree ") && IsLine(e.head) && !StartsWith(e.head, "HEAD ")
    && (e.kind.OnBranch? ==> IsLine(e.kind.name))
  }

  function EntryLines(e: Entry): seq<string> {
    match e.kind
    case Bare => ["worktree " + e.path, "bare", ""]
    case Detached => ["worktree " + e.path, "HEAD " + e.head, "detached", ""]
    case OnBranch(n) => ["worktree " + e.path, "HEAD " + e.head, "branch refs/heads/" + n, ""]
  }

  function Listing(es: seq<Entry>): seq<string>
    decreases |es|
  {
    if es == [] then [] else EntryLines(es[0]) + Listing(es[1..])
  }

  /** The records a reader of the listing expects: bare entries have no branch and are not listed. */
  function Expected(es: seq<Entry>, first: bool): seq<Worktree>
    decreases |es|
  {
    if es == [] then []
    else match es[0].kind
      case Bare => Expected(es[1..], first)
      case Detached => [Worktree(es[0].path, DetachedLabel(es[0].head), first)] + Expected(es[1..], false)
      case OnBranch(n) => [Worktree(es[0].path, n, first)] + Expected(es[1..], false)
  }

  lemma PathLine(path: string)
    requires !StartsWith(path, "worktree ")
    ensures StartsWith("worktree " + path, "worktree ")
    ensures TrimStartMatches("worktree " + path, "worktree ") == path
  {
    TrimStartMatchesOnce("worktree ", path);
  }

  lemma HeadLine(head: string)
    requires !StartsWith(head, "HEAD ")
    ensures !StartsWith("HEAD " + head, "worktree ") && !StartsWith("HEAD " + head, "branch ")
    ensures StartsWith("HEAD " + head, "HEAD ")
    ensures TrimStartMatches("HEAD " + head, "HEAD ") == head
  {
    assert ("HEAD " + head)[0] == 'H';
    TrimStartMatchesOnce("HEAD ", head);
  }

  lemma BranchLine(n: string)
    ensures !StartsWith("branch refs/heads/" + n, "worktree ")
    ensures StartsWith("branch refs/heads/" + n, "branch ")
    ensures BranchName("branch refs/heads/" + n) == n
  {
    var line := "branch refs/heads/" + n;
    assert line[0] == 'b';
    assert line == "branch " + ("refs/heads/" + n);
    assert !StartsWith("refs/heads/" + n, "branch ") by {
      assert ("refs/heads/" + n)[0] == 'r';
    }
    TrimStartMatchesOnce("branch ", "refs/heads/" + n);
    assert StripPrefix("refs/heads/" + n, "refs/heads/") == Some(n);
  }

  lemma PlainLine(l: string)
    requires l == "bare" || l == "detached"
    ensures !StartsWith(l, "worktree ") && !StartsWith(l, "branch ") && !StartsWith(l, "HEAD ")
    ensures Trim(l) != ""
  {
    assert l[0] != 'w' && l[0] != 'H';
    assert !StartsWith(l, "branch ") by {
      if l == "bare" {
        assert l[2] != "branch "[2];
      } else {
        assert l[0] != 'b';
      }
    }
    assert Trim(l) == l by {
      TrimOfTrimmed(l);
    }
  }

  lemma BlankLine()
    ensures !StartsWith("", "worktree ") && !StartsWith("", "branch ") && !StartsWith("", "HEAD ")
    ensures Trim("") == ""
  {
  }

  /** State of a reader between records. */
  predicate Between(st: Reader) {
    st.path.None? && st.branch.None?
  }

  /** The record git's listing ends on, as the reader emits it. */
  function Emitted(st: Reader, e: Entry): Reader {
    if e.kind.Bare? then st
    else Reader(st.worktrees + [Worktree(e.path, if e.kind.Detached? then DetachedLabel(e.head) else e.kind.name,
                                         st.isFirst)], None, None, false)
  }

  /** One record of git's listing adds its worktree, unless the worktree is bare. */
  lemma ReadEntry(st: Reader, e: Entry)
    requires Between(st) && GoodEntry(e)
    ensures Read(st, EntryLines(e)) == Emitted(st, e)
  {
    PathLine(e.path);
    var s1 := st.(path := Some(e.path));
    BlankLine();
    assert ReadLine(st, "worktree " + e.path) == s1;
    match e.kind
    case Bare =>
      PlainLine("bare");
      ReadThree(st, "worktree " + e.path, "bare", "");
    case Detached =>
      HeadLine(e.head);
      PlainLine("detached");
      var s2 := s1.(branch := Some(DetachedLabel(e.head)));
      assert ReadLine(s1, "HEAD " + e.head) == s2;
      ReadFour(st, "worktree " + e.path, "HEAD " + e.head, "detached", "");
    case OnBranch(n) =>
      HeadLine(e.head);
      BranchLine(n);
      var s2 := s1.(branch := Some(DetachedLabel(e.head)));
      assert ReadLine(s1, "HEAD " + e.head) == s2;
      var s3 := s1.(branch := Some(n));
      assert ReadLine(s2, "branch refs/heads/" + n) == s3;
      ReadFour(st, "worktree " + e.path, "HEAD " + e.head, "branch refs/heads/" + n, "");
  }

  lemma ExpectedCons(es: seq<Entry>, first: bool)
    requires es != []
    ensures Expected(es, first)
         == (if es[0].kind.Bare? then [] else Emitted(Reader([], None, None, first), es[0]).worktrees)
            + Expected(es[1..], first && es[0].kind.Bare?)
  {
  }

  lemma {:induction false} ReadListing(st: Reader, es: seq<Entry>)
    requires Between(st) && forall k :: 0 <= k < |es| ==> GoodEntry(es[k])
    ensures Between(Read(st, Listing(es)))
    ensures Read(st, Listing(es)).worktrees == st.worktrees + Expected(es, st.isFirst)
    ensures Read(st, Listing(es)).isFirst == (st.isFirst && Expected(es, st.isFirst) == [])
    decreases |es|
  {
    if es == [] {
      assert st.worktrees + [] == st.worktrees;
    } else {
      var e := es[0];
      assert Listing(es) == EntryLines(e) + Listing(es[1..]);
      ReadAppend(st, EntryLines(e), Listing(es[1..]));
      ReadEntry(st, e);
      var st1 := Emitted(st, e);
      ReadListing(st1, es[1..]);
      ExpectedCons(es, st.isFirst);
      var head := if e.kind.Bare? then [] else Emitted(Reader([], None, None, st.isFirst), e).worktrees;
      assert st1.worktrees == st.worktrees + head;
      AppendAssoc(st.worktrees, head, Expected(es[1..], st1.isFirst));
    }
  }

  lemma AppendAssoc(a: seq<Worktree>, b: seq<Worktree>, c: seq<Worktree>)
    ensures (a + b) + c == a + (b + c)
  {
  }

  lemma {:induction false} ListingLines(es: seq<Entry>)
    requires forall k :: 0 <= k < |es| ==> GoodEntry(es[k])
    ensures forall j :: 0 <= j < |Listing(es)| ==> IsLine(Listing(es)[j])
    decreases |es|
  {
    if es != [] {
      var e := es[0];
      ListingLines(es[1..]);
      LineAfter("worktree ", e.path);
      LineAfter("HEAD ", e.head);
      if e.kind.OnBranch? {
        LineAfter("branch refs/heads/", e.kind.name);
      }
      var a := EntryLines(e);
      var b := Listing(es[1..]);
      assert forall j :: 0 <= j < |a| ==> IsLine(a[j]);
      forall j | 0 <= j < |a + b| ensures IsLine((a + b)[j]) {
        if j >= |a| {
          assert (a + b)[j] == b[j - |a|];
        } else {
          assert (a + b)[j] == a[j];
        }
      }
    }
  }

  /**
   * The reader on git's own listing: one record per non-bare worktree in listing order, the
   * first one main, the branch name without `refs/heads/`, a detached worktree labelled with
   * its abbreviated hash.
   */
  lemma ParseListing(es: seq<Entry>)
    requires forall k :: 0 <= k < |es| ==> GoodEntry(es[k])
    ensures ParseWorktrees(Unlines(Listing(es))) == Expected(es, true)
  {
    ListingLines(es);
    LinesUnlines(Listing(es));
    ReadListing(Start, es);
    assert [] + Expected(es, true) == Expected(es, true);
  }

  // ================================================================ quirks of the reader

  /**
   * A `HEAD` line after a `branch` line leaves the branch alone: a detached label is used
   * only while no branch is known.
   */
  lemma BranchBeforeHeadKept(st: Reader, n: string, head: string)
    requires !StartsWith(head, "HEAD ")
    ensures Read(st, ["branch refs/heads/" + n, "HEAD " + head]).branch == Some(n)
  {
    BranchLine(n);
    HeadLine(head);
    assert !StartsWith("branch refs/heads/" + n, "worktree ");
    var s1 := st.(branch := Some(n));
    assert ReadLine(st, "branch refs/heads/" + n) == s1;
    assert ReadLine(s1, "HEAD " + head) == s1;
    ReadTwo(st, "branch refs/heads/" + n, "HEAD " + head);
  }

  /** `trim_start_matches` strips a repeated keyword too: a path starting with "worktree " loses it. */
  lemma RepeatedKeywordStripped(path: string)
    requires !StartsWith(path, "worktree ")
    ensures TrimStartMatches("worktree worktree " + path, "worktree ") == path
  {
    assert "worktree worktree " + path == "worktree " + ("worktree " + path);
    TrimStartMatchesStep("worktree ", "worktree " + path);
    PathLine(path);
  }
}
