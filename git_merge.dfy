/**
 * Merge orchestration in src-tauri/src/git/mod.rs: the guards that refuse to stage or amend
 * while `.git/MERGE_HEAD` exists, the conflict listing from `ls-files -u`, `complete_merge`,
 * the `merge-tree` scan of `merge_preview`, and the outcome rules of `merge_branch`.
 *
 * Git is the oracle `Git` (arguments to output); whether `.git/MERGE_HEAD` exists is a
 * boolean observed at the point where the source looks. Every operation reports its git
 * invocations in an `Outcome`.
 */
module GitMerge {
  import opened Wrappers
  import opened Strings
  import opened GitTypes
  import GitHistory

  // ================================================================ guards

  const STAGE_FILE_BLOCKED := "Cannot stage files while a merge is in progress. Resolve conflicts first."
  const STAGE_ALL_BLOCKED := "Cannot stage all files while a merge is in progress. Resolve conflicts first."
  const AMEND_BLOCKED := "Cannot amend commit while a merge is in progress."

  const ADD_ALL: seq<string> := ["add", "-A"]

  function AmendArgs(message: string): seq<string> {
    ["commit", "--amend", "-m", message]
  }

  /** `stage_file`: refused during a merge; otherwise one `git add <path>`. */
  function StageFile(mergeHead: bool, git: Git, path: string): (o: Outcome<()>)
    ensures mergeHead ==> o == Outcome(Err(STAGE_FILE_BLOCKED), [])
    ensures !mergeHead ==> o.ran == [["add", path]]
    ensures !mergeHead ==> (o.result.Ok? <==> git(["add", path]).success)
    ensures !mergeHead && o.result.Err? ==> o.result.error == "Git add failed: " + git(["add", path]).stderr
  {
    if mergeHead then Outcome(Err(STAGE_FILE_BLOCKED), [])
    else
      var out := git(["add", path]);
      Outcome(if out.success then Ok(()) else Err("Git add failed: " + out.stderr), [["add", path]])
  }

  /** `stage_all`: refused during a merge; otherwise one `git add -A`. */
  function StageAll(mergeHead: bool, git: Git): (o: Outcome<()>)
    ensures mergeHead ==> o == Outcome(Err(STAGE_ALL_BLOCKED), [])
    ensures !mergeHead ==> o.ran == [ADD_ALL]
    ensures !mergeHead ==> (o.result.Ok? <==> git(ADD_ALL).success)
    ensures !mergeHead && o.result.Err? ==> o.result.error == "Git add -A failed: " + git(ADD_ALL).stderr
  {
    if mergeHead then Outcome(Err(STAGE_ALL_BLOCKED), [])
    else
      var out := git(ADD_ALL);
      Outcome(if out.success then Ok(()) else Err("Git add -A failed: " + out.stderr), [ADD_ALL])
  }

  /**
   * `amend_commit`: refused during a merge; otherwise everything is staged first and the
   * amend runs only when staging succeeded.
   */
  function AmendCommit(mergeHead: bool, git: Git, message: string): (o: Outcome<()>)
    ensures mergeHead ==> o == Outcome(Err(AMEND_BLOCKED), [])
    ensures !mergeHead && !git(ADD_ALL).success ==>
      o == Outcome(Err("Git add -A failed: " + git(ADD_ALL).stderr), [ADD_ALL])
    ensures !mergeHead && git(ADD_ALL).success ==> o.ran == [ADD_ALL, AmendArgs(message)]
    ensures o.result.Ok? <==> !mergeHead && git(ADD_ALL).success && git(AmendArgs(message)).success
    ensures !mergeHead && git(ADD_ALL).success && o.result.Err? ==>
      o.result.error == "Git commit --amend failed: " + git(AmendArgs(message)).stderr
  {
    if mergeHead then Outcome(Err(AMEND_BLOCKED), [])
    else
      var staged := StageAll(false, git);
      if staged.result.Err? then staged
      else
        var out := git(AmendArgs(message));
        Outcome(if out.success then Ok(()) else Err("Git commit --amend failed: " + out.stderr),
                staged.ran + [AmendArgs(message)])
  }

  // ================================================================ conflict listing

  const LS_UNMERGED: seq<string> := ["ls-files", "-u"]

  /** `line.split_whitespace().nth(3)` is `p`: the path column of an `ls-files -u` line. */
  predicate PathColumn(line: string, p: string) {
    var w := SplitWhitespace(line);
    |w| >= 4 && w[3] == p
  }

  /** The path column of every line that has one, in line order. */
  function PathColumns(lines: seq<string>): (r: seq<string>)
    ensures forall p :: p in r <==> exists i :: 0 <= i < |lines| && PathColumn(lines[i], p)
  {
    if lines == [] then []
    else
      var w := SplitWhitespace(lines[0]);
      var rest := PathColumns(lines[1..]);
      assert forall i :: 0 <= i < |lines[1..]| ==> lines[1..][i] == lines[i + 1];
      (if |w| >= 4 then [w[3]] else []) + rest
  }

  /** Strictly increasing in byte order, which is Rust's `Ord` on strings. */
  predicate StrictlySorted(s: seq<string>) {
    forall i, j :: 0 <= i < j < |s| ==> LexLess(s[i], s[j])
  }

  predicate NoDuplicates<T(==)>(s: seq<T>) {
    forall i, j :: 0 <= i < j < |s| ==> s[i] != s[j]
  }

  /** Adds `x` to a sorted list at its place, unless it is there already. */
  function Insert(s: seq<string>, x: string): (r: seq<string>)
    requires StrictlySorted(s)
    ensures StrictlySorted(r)
    ensures forall y :: y in r <==> y in s || y == x
  {
    if |s| == 0 then [x]
    else if x == s[0] then s
    else if LexLess(x, s[0]) then
      assert forall j :: 0 <= j < |s| ==> LexLess(x, s[j]) by {
        forall j | 0 < j < |s| ensures LexLess(x, s[j]) { LexLessTransitive(x, s[0], s[j]); }
      }
      [x] + s
    else
      LexLessTotal(x, s[0]);
      var t := Insert(s[1..], x);
      assert forall y :: y in t ==> LexLess(s[0], y) by {
        forall y | y in t ensures LexLess(s[0], y) {
          if y != x {
            var j :| 0 <= j < |s[1..]| && s[1..][j] == y;
            assert s[j + 1] == y;
          }
        }
      }
      [s[0]] + t
  }

  /** The distinct strings of `xs` in sorted order: the `HashSet` collect followed by `sort`. */
  function SortedUnique(xs: seq<string>): (r: seq<string>)
    ensures StrictlySorted(r)
    ensures forall y :: y in r <==> y in xs
  {
    if xs == [] then []
    else
      var r := Insert(SortedUnique(xs[..|xs| - 1]), xs[|xs| - 1]);
      assert xs == xs[..|xs| - 1] + [xs[|xs| - 1]];
      r
  }

  lemma StrictlySortedNoDuplicates(s: seq<string>)
    requires StrictlySorted(s)
    ensures NoDuplicates(s)
  {
    forall i, j | 0 <= i < j < |s| ensures s[i] != s[j] {
      if s[i] == s[j] { LexLessIrreflexive(s[i]); }
    }
  }

  /** The tail of a sorted list is the list without its least element. */
  lemma SortedTail(a: seq<string>, y: string)
    requires StrictlySorted(a) && a != []
    ensures y in a[1..] <==> y in a && y != a[0]
  {
    assert a == [a[0]] + a[1..];
    if y in a[1..] {
      var j :| 0 <= j < |a[1..]| && a[1..][j] == y;
      assert LexLess(a[0], a[j + 1]);
      LexLessIrreflexive(y);
    }
  }

  /**
   * A strictly sorted list is determined by its elements, so the listing equals the sorted
   * set of paths whatever order the `HashSet` yields them in.
   */
  lemma {:induction false} SortedListsAgree(a: seq<string>, b: seq<string>)
    requires StrictlySorted(a) && StrictlySorted(b)
    requires forall y :: y in a <==> y in b
    ensures a == b
    decreases |a|
  {
    if a != [] { assert a[0] in a; }
    if b != [] { assert b[0] in b; }
    if a != [] && b != [] {
      if a[0] != b[0] {
        var i :| 0 <= i < |b| && b[i] == a[0];
        var j :| 0 <= j < |a| && a[j] == b[0];
        assert LexLess(b[0], a[0]);
        assert LexLess(a[0], b[0]);
        LexLessAsymmetric(a[0], b[0]);
      }
      assert forall y :: y in a[1..] <==> y in b[1..] by {
        forall y ensures y in a[1..] <==> y in b[1..] {
          SortedTail(a, y);
          SortedTail(b, y);
        }
      }
      SortedListsAgree(a[1..], b[1..]);
      assert a == [a[0]] + a[1..];
      assert b == [b[0]] + b[1..];
    }
  }

  /** The paths `ls-files -u` printed, sorted and without repetitions. */
  function ConflictPaths(stdout: string): seq<string> {
    SortedUnique(PathColumns(Lines(stdout)))
  }

  /**
   * The listing is sorted, repeats nothing, and holds exactly the 4th whitespace field of the
   * lines that have one.
   */
  lemma ConflictPathsListing(stdout: string)
    ensures StrictlySorted(ConflictPaths(stdout)) && NoDuplicates(ConflictPaths(stdout))
    ensures forall p :: p in ConflictPaths(stdout) <==>
      exists i :: 0 <= i < |Lines(stdout)| && PathColumn(Lines(stdout)[i], p)
  {
    StrictlySortedNoDuplicates(ConflictPaths(stdout));
  }

  /** `get_conflict_files`: empty without a merge; otherwise the `ls-files -u` listing. */
  function GetConflictFiles(mergeHead: bool, git: Git): (o: Outcome<seq<string>>)
    ensures !mergeHead ==> o == Outcome(Ok([]), [])
    ensures mergeHead ==> o.ran == [LS_UNMERGED]
    ensures mergeHead && !git(LS_UNMERGED).success ==>
      o.result == Err("Git ls-files -u failed: " + git(LS_UNMERGED).stderr)
    ensures o.result.Ok? ==> StrictlySorted(o.result.value)
    ensures mergeHead && git(LS_UNMERGED).success ==>
      o.result.Ok? && forall p :: p in o.result.value <==>
        exists i :: 0 <= i < |Lines(git(LS_UNMERGED).stdout)| && PathColumn(Lines(git(LS_UNMERGED).stdout)[i], p)
  {
    if !mergeHead then Outcome(Ok([]), [])
    else
      var out := git(LS_UNMERGED);
      if !out.success then Outcome(Err("Git ls-files -u failed: " + out.stderr), [LS_UNMERGED])
      else
        ConflictPathsListing(out.stdout);
        Outcome(Ok(ConflictPaths(out.stdout)), [LS_UNMERGED])
  }

  // ================================================================ complete_merge

  function CommitArgs(message: Option<string>): seq<string> {
    match message
    case Some(m) => ["commit", "-m", m]
    case None => ["commit", "--no-edit"]
  }

  /**
   * `complete_merge`: no merge, a failed listing, or a non-empty conflict list stops it before
   * the commit; otherwise the commit's stdout is the result.
   */
  function CompleteMerge(mergeHead: bool, git: Git, message: Option<string>): (o: Outcome<string>)
    ensures !mergeHead ==> o == Outcome(Err("No merge in progress"), [])
    ensures mergeHead && !git(LS_UNMERGED).success ==>
      o == Outcome(Err("Git ls-files -u failed: " + git(LS_UNMERGED).stderr), [LS_UNMERGED])
    ensures mergeHead && git(LS_UNMERGED).success && ConflictPaths(git(LS_UNMERGED).stdout) != [] ==>
      o == Outcome(Err("Unresolved conflicts: " + DebugList(ConflictPaths(git(LS_UNMERGED).stdout))), [LS_UNMERGED])
    ensures CommitArgs(message) in o.ran <==>
      mergeHead && git(LS_UNMERGED).success && ConflictPaths(git(LS_UNMERGED).stdout) == []
    ensures o.result.Ok? <==>
      mergeHead && git(LS_UNMERGED).success && ConflictPaths(git(LS_UNMERGED).stdout) == []
        && git(CommitArgs(message)).success
    ensures o.result.Ok? ==> o.result.value == git(CommitArgs(message)).stdout
  {
    if !mergeHead then Outcome(Err("No merge in progress"), [])
    else
      var listed := GetConflictFiles(true, git);
      if listed.result.Err? then Outcome(Err(listed.result.error), listed.ran)
      else if listed.result.value != [] then
        Outcome(Err("Unresolved conflicts: " + DebugList(listed.result.value)), listed.ran)
      else
        var args := CommitArgs(message);
        var out := git(args);
        Outcome(if out.success then Ok(out.stdout) else Err("Git commit failed: " + out.stderr),
                listed.ran + [args])
  }

  // ================================================================ merge_preview's scan

  /** A `changed in both` line opens a conflict section; an empty line closes it. */
  predicate OpensSection(l: string) { StartsWith(l, "changed in both") }

  /** The `  base`, `  our` and `  their` lines name the file the section is about. */
  predicate NamesFile(l: string) {
    StartsWith(l, "  base") || StartsWith(l, "  our") || StartsWith(l, "  their")
  }

  /** What the loop keeps between lines. */
  datatype TreeScan = TreeScan(inConflict: bool, currentFile: string, conflicts: seq<string>)

  /** One line of `merge-tree` output, branch for branch as `merge_preview` handles it. */
  function ScanLine(st: TreeScan, l: string): TreeScan {
    if OpensSection(l) then st.(inConflict := true)
    else if NamesFile(l) then
      var w := SplitWhitespace(l);
      if w == [] then st else st.(currentFile := w[|w| - 1])
    else if st.inConflict && Contains(l, "<<<<<<<") then
      if st.currentFile != "" && st.currentFile !in st.conflicts then st.(conflicts := st.conflicts + [st.currentFile])
      else st
    else if l == "" then st.(inConflict := false)
    else st
  }

  /** The state after the first `j` lines. */
  function ScanUpTo(lines: seq<string>, j: nat): TreeScan
    requires j <= |lines|
  {
    if j == 0 then TreeScan(false, "", []) else ScanLine(ScanUpTo(lines, j - 1), lines[j - 1])
  }

  /** The file list `merge_preview` reports for this `merge-tree` output. */
  function TreeConflicts(stdout: string): seq<string> {
    var lines := Lines(stdout);
    ScanUpTo(lines, |lines|).conflicts
  }

  /** `merge_preview`'s loop over the lines of `merge-tree`'s output. */
  method ScanMergeTree(stdout: string) returns (conflicts: seq<string>)
    ensures conflicts == TreeConflicts(stdout)
  {
    var lines := Lines(stdout);
    var inConflict := false;
    var currentFile := "";
    conflicts := [];
    var i := 0;
    while i < |lines|
      invariant i <= |lines|
      invariant TreeScan(inConflict, currentFile, conflicts) == ScanUpTo(lines, i)
    {
      var line := lines[i];
      if StartsWith(line, "changed in both") {
        inConflict := true;
      } else if StartsWith(line, "  base") || StartsWith(line, "  our") || StartsWith(line, "  their") {
        var words := SplitWhitespace(line);
        if words != [] {
          currentFile := words[|words| - 1];
        }
      } else if inConflict && Contains(line, "<<<<<<<") {
        if currentFile != "" && currentFile !in conflicts {
          conflicts := conflicts + [currentFile];
        }
      } else if line == "" {
        inConflict := false;
      }
      i := i + 1;
    }
  }

  // ---------------------------------------------------------------- the scan, described

  /**
   * Line `j` lies inside a conflict section: some earlier line opened one and no empty line
   * came in between.
   */
  predicate InSection(lines: seq<string>, j: nat)
    requires j <= |lines|
  {
    exists k :: 0 <= k < j && OpensSection(lines[k]) && forall m :: k < m < j ==> lines[m] != ""
  }

  /** The last word of the last file-naming line before line `j`, or "" when none came. */
  function FileBefore(lines: seq<string>, j: nat): string
    requires j <= |lines|
  {
    if j == 0 then ""
    else
      var w := SplitWhitespace(lines[j - 1]);
      if NamesFile(lines[j - 1]) && w != [] then w[|w| - 1] else FileBefore(lines, j - 1)
  }

  /** Line `j` is a conflict marker inside a section, after a named file. */
  predicate Flags(lines: seq<string>, j: nat)
    requires j < |lines|
  {
    !OpensSection(lines[j]) && !NamesFile(lines[j]) && Contains(lines[j], "<<<<<<<")
      && InSection(lines, j) && FileBefore(lines, j) != ""
  }

  /** The named file at every flagged line among the first `j`, in line order. */
  function Flagged(lines: seq<string>, j: nat): seq<string>
    requires j <= |lines|
  {
    if j == 0 then []
    else Flagged(lines, j - 1) + (if Flags(lines, j - 1) then [FileBefore(lines, j - 1)] else [])
  }

  /** Keeps the first occurrence of every element, in order. */
  function Dedup<T(==,!new)>(xs: seq<T>): (r: seq<T>)
    ensures NoDuplicates(r)
    ensures forall y :: y in r <==> y in xs
  {
    if xs == [] then []
    else
      var d := Dedup(xs[..|xs| - 1]);
      assert xs == xs[..|xs| - 1] + [xs[|xs| - 1]];
      if xs[|xs| - 1] in d then d else d + [xs[|xs| - 1]]
  }

  /** Later elements only ever append: the order of the output is the order of first sight. */
  lemma {:induction false} DedupExtends<T(!new)>(xs: seq<T>, ys: seq<T>)
    ensures Dedup(xs) <= Dedup(xs + ys)
    decreases |ys|
  {
    if ys == [] {
      assert xs + ys == xs;
    } else {
      var zs := xs + ys;
      assert zs[..|zs| - 1] == xs + ys[..|ys| - 1];
      DedupExtends(xs, ys[..|ys| - 1]);
    }
  }

  lemma SectionStep(lines: seq<string>, j: nat)
    requires j < |lines|
    ensures InSection(lines, j + 1) <==>
      OpensSection(lines[j]) || (lines[j] != "" && InSection(lines, j))
  {
    if !OpensSection(lines[j]) {
      if lines[j] != "" && InSection(lines, j) {
        var k :| 0 <= k < j && OpensSection(lines[k]) && forall m :: k < m < j ==> lines[m] != "";
        assert forall m :: k < m < j + 1 ==> lines[m] != "";
      }
      if InSection(lines, j + 1) {
        var k :| 0 <= k < j + 1 && OpensSection(lines[k]) && forall m :: k < m < j + 1 ==> lines[m] != "";
        assert k != j;
        assert lines[j] != "";
        assert forall m :: k < m < j ==> lines[m] != "";
      }
    }
  }

  /** The section opener starts with `c`, the file lines with a blank: no line is both. */
  lemma OpenerNamesNothing(l: string)
    requires OpensSection(l)
    ensures !NamesFile(l)
  {
    assert l[0] == "changed in both"[0];
  }

  /** What `ScanDescribed` says the state is after `j` lines. */
  function Described(lines: seq<string>, j: nat): TreeScan
    requires j <= |lines|
  {
    TreeScan(InSection(lines, j), FileBefore(lines, j), Dedup(Flagged(lines, j)))
  }

  lemma DedupSnoc<T(!new)>(xs: seq<T>, x: T)
    ensures Dedup(xs + [x]) == if x in Dedup(xs) then Dedup(xs) else Dedup(xs) + [x]
  {
    assert (xs + [x])[..|xs + [x]| - 1] == xs;
  }

  /** One line moves the description on exactly as the loop body moves the state. */
  lemma DescribedStep(lines: seq<string>, j: nat)
    requires j < |lines|
    ensures ScanLine(Described(lines, j), lines[j]) == Described(lines, j + 1)
  {
    var l := lines[j];
    SectionStep(lines, j);
    if OpensSection(l) {
      OpenerNamesNothing(l);
      assert !Flags(lines, j);
      assert FileBefore(lines, j + 1) == FileBefore(lines, j);
      assert Flagged(lines, j + 1) == Flagged(lines, j);
    } else if NamesFile(l) {
      assert l != "" by { assert |l| >= 5; }
      assert !Flags(lines, j);
      assert Flagged(lines, j + 1) == Flagged(lines, j);
    } else if InSection(lines, j) && Contains(l, "<<<<<<<") {
      assert l != "";
      if FileBefore(lines, j) != "" {
        assert Flags(lines, j);
        DedupSnoc(Flagged(lines, j), FileBefore(lines, j));
      } else {
        assert !Flags(lines, j);
      }
    } else {
      assert !Flags(lines, j);
      assert FileBefore(lines, j + 1) == FileBefore(lines, j);
      assert Flagged(lines, j + 1) == Flagged(lines, j);
      if Contains(l, "<<<<<<<") {
        assert l != "";
      }
    }
  }

  /**
   * The loop's state after `j` lines is described without it: the section flag is `InSection`,
   * the current file is `FileBefore`, and the list is the flagged files without repetitions.
   */
  lemma {:induction false} ScanDescribed(lines: seq<string>, j: nat)
    requires j <= |lines|
    ensures ScanUpTo(lines, j) == Described(lines, j)
  {
    if j > 0 {
      ScanDescribed(lines, j - 1);
      DescribedStep(lines, j - 1);
    }
  }

  /**
   * The `merge_preview` properties of the list: no repetitions, and a file is in it exactly
   * when some line containing `<<<<<<<` inside a `changed in both` section came after a line
   * naming it.
   */
  lemma TreeConflictsListing(stdout: string)
    ensures NoDuplicates(TreeConflicts(stdout))
    ensures forall p :: p in TreeConflicts(stdout) <==>
      exists j :: 0 <= j < |Lines(stdout)| && Flags(Lines(stdout), j) && FileBefore(Lines(stdout), j) == p
  {
    var lines := Lines(stdout);
    ScanDescribed(lines, |lines|);
    FlaggedMembers(lines, |lines|);
  }

  lemma {:induction false} FlaggedMembers(lines: seq<string>, j: nat)
    requires j <= |lines|
    ensures forall p :: p in Flagged(lines, j) <==>
      exists i :: 0 <= i < j && Flags(lines, i) && FileBefore(lines, i) == p
  {
    if j > 0 {
      FlaggedMembers(lines, j - 1);
    }
  }

  /** Without a `changed in both` line no file is ever reported. */
  lemma NoSectionNoConflicts(stdout: string)
    requires forall j :: 0 <= j < |Lines(stdout)| ==> !OpensSection(Lines(stdout)[j])
    ensures TreeConflicts(stdout) == []
  {
    var lines := Lines(stdout);
    ScanDescribed(lines, |lines|);
    NothingFlagged(lines, |lines|);
  }

  lemma {:induction false} NothingFlagged(lines: seq<string>, j: nat)
    requires j <= |lines|
    requires forall k :: 0 <= k < |lines| ==> !OpensSection(lines[k])
    ensures Flagged(lines, j) == []
  {
    if j > 0 {
      NothingFlagged(lines, j - 1);
      assert !InSection(lines, j - 1);
    }
  }
  // ================================================================ merge_preview

  function TargetRef(target: Option<string>): string { target.GetOr("HEAD") }

  function IsAncestorArgs(older: string, newer: string): seq<string> {
    ["merge-base", "--is-ancestor", older, newer]
  }

  function DiffStatArgs(targetRef: string, source: string): seq<string> {
    ["diff", "--shortstat", targetRef + ".." + source]
  }

  function MergeBaseArgs(targetRef: string, source: string): seq<string> {
    ["merge-base", targetRef, source]
  }

  function MergeTreeArgs(base: string, targetRef: string, source: string): seq<string> {
    ["merge-tree", Trim(base), targetRef, source]
  }

  /**
   * `merge_preview`: the ancestry check decides `can_fast_forward`, the trimmed `--shortstat`
   * output gives the counts (its exit status is not looked at), and `merge-tree` between the
   * merge base and both tips gives the conflicts when a merge base exists.
   */
  method MergePreviewOf(git: Git, source: string, target: Option<string>) returns (r: MergePreview)
    ensures r.canFastForward == git(IsAncestorArgs(TargetRef(target), source)).success
    ensures (r.filesChanged, r.insertions, r.deletions) ==
      GitHistory.ShortstatCounts(Trim(git(DiffStatArgs(TargetRef(target), source)).stdout))
    ensures var base := git(MergeBaseArgs(TargetRef(target), source));
      r.conflicts == if base.success
        then TreeConflicts(git(MergeTreeArgs(base.stdout, TargetRef(target), source)).stdout)
        else []
    ensures NoDuplicates(r.conflicts)
  {
    var targetRef := TargetRef(target);
    var canFastForward := git(IsAncestorArgs(targetRef, source)).success;
    var shortstat := git(DiffStatArgs(targetRef, source)).stdout;
    var filesChanged, insertions, deletions := GitHistory.ParseShortstatLine(Trim(shortstat));
    var mergeBase := git(MergeBaseArgs(targetRef, source));
    var conflicts: seq<string> := [];
    if mergeBase.success {
      var tree := git(MergeTreeArgs(mergeBase.stdout, targetRef, source)).stdout;
      conflicts := ScanMergeTree(tree);
      TreeConflictsListing(tree);
    }
    r := MergePreview(canFastForward, conflicts, filesChanged, insertions, deletions);
  }

  // ================================================================ merge_branch

  function MergeArgs(source: string, message: Option<string>): seq<string> {
    ["merge", "--no-commit"] + (match message case Some(m) => ["-m", m] case None => []) + [source]
  }

  /** The summary is git's trimmed stdout, or its trimmed stderr when stdout is blank. */
  function Summary(out: ProcessOutput): (s: string)
    ensures IsTrimmed(s)
    ensures s == Trim(out.stdout) || (Trim(out.stdout) == "" && s == Trim(out.stderr))
  {
    TrimIsTrimmed(out.stdout);
    TrimIsTrimmed(out.stderr);
    if Trim(out.stdout) != "" then Trim(out.stdout) else Trim(out.stderr)
  }

  /**
   * `merge_branch`: the ancestry check, then `merge --no-commit`; `mergeHead` is whether
   * `.git/MERGE_HEAD` exists afterwards. A failed merge that left MERGE_HEAD behind is a
   * merge with conflicts, not an error.
   */
  function MergeBranch(git: Git, source: string, message: Option<string>, mergeHead: bool): (o: Outcome<MergeResult>)
    ensures var out := git(MergeArgs(source, message));
      !out.success && !mergeHead ==> o.result == Err("Git merge failed: " + Trim(out.stderr))
    ensures var out := git(MergeArgs(source, message));
      !out.success && mergeHead && git(LS_UNMERGED).success ==>
        o.result == Ok(MergeResult(git(IsAncestorArgs("HEAD", source)).success, Summary(out), ConflictPaths(git(LS_UNMERGED).stdout)))
    ensures var out := git(MergeArgs(source, message));
      out.success && !mergeHead ==>
        o.result == Ok(MergeResult(git(IsAncestorArgs("HEAD", source)).success, Summary(out), []))
    ensures var out := git(MergeArgs(source, message));
      out.success && mergeHead && git(LS_UNMERGED).success ==>
        o.result == Ok(MergeResult(git(IsAncestorArgs("HEAD", source)).success, Summary(out), ConflictPaths(git(LS_UNMERGED).stdout)))
    ensures mergeHead && !git(LS_UNMERGED).success ==>
      o.result == Err("Git ls-files -u failed: " + git(LS_UNMERGED).stderr)
    ensures o.result.Ok? ==> o.result.value.fastForward == git(IsAncestorArgs("HEAD", source)).success
    ensures o.result.Ok? && o.result.value.conflicts != [] ==> mergeHead
    ensures o.ran == [IsAncestorArgs("HEAD", source), MergeArgs(source, message)] + (if mergeHead then [LS_UNMERGED] else [])
  {
    var ff := git(IsAncestorArgs("HEAD", source)).success;
    var args := MergeArgs(source, message);
    var out := git(args);
    var summary := Summary(out);
    var before := [IsAncestorArgs("HEAD", source), args];
    if !out.success && !mergeHead then Outcome(Err("Git merge failed: " + Trim(out.stderr)), before)
    else
      var listed := GetConflictFiles(mergeHead, git);
      match listed.result
      case Err(e) => Outcome(Err(e), before + listed.ran)
      case Ok(conflicts) => Outcome(Ok(MergeResult(ff, summary, conflicts)), before + listed.ran)
  }
}
