/**
 * The per-file summary of a parsed diff that the comparison dialog and the diff viewer show
 * (src/pages/CommitsPage/components/CompareWithLocalModal.tsx, repeated in
 * src/components/DiffViewer.tsx): the displayed path, the label, the status and the counts of
 * added and deleted lines.
 */
module DiffFiles {
  import opened Wrappers
  import opened Strings

  /** The kind of one line of a hunk, as the diff parser types it. */
  datatype Change = Insert | Delete | Normal

  /** A hunk or a file whose list is missing is treated as having none (`?? []`). */
  datatype Hunk = Hunk(changes: Option<seq<Change>>)
  datatype ParsedFile = ParsedFile(oldPath: Option<string>, newPath: Option<string>, hunks: Option<seq<Hunk>>)

  datatype FileStatus = Added | Deleted | Modified

  /** The path git writes for the side of a diff where the file does not exist. */
  const DEV_NULL := "/dev/null"
  const UNKNOWN_FILE := "Unknown file"
  /** Between the old and the new path of a renamed file: U+2192, the rightwards arrow. */
  const ARROW := " → "

  function DropPrefix(s: string, prefix: string): (r: string)
    ensures StartsWith(s, prefix) ==> prefix + r == s
    ensures !StartsWith(s, prefix) ==> r == s
  {
    if StartsWith(s, prefix) then s[|prefix|..] else s
  }

  /** `normalizePath`: a missing or empty path becomes "", else a leading `a/`, then a leading `b/`, goes. */
  function NormalizePath(path: Option<string>): (r: string)
    ensures |r| <= |path.GetOr("")|
  {
    if path.None? || path.value == "" then ""
    else DropPrefix(DropPrefix(path.value, "a/"), "b/")
  }

  /** The prefixes git puts before the old and the new side are removed. */
  lemma NormalizeSides(p: string)
    requires !StartsWith(p, "a/") && !StartsWith(p, "b/")
    ensures NormalizePath(Some("a/" + p)) == p
    ensures NormalizePath(Some("b/" + p)) == p
    ensures NormalizePath(Some(p)) == p
  {
    assert ("a/" + p)[2..] == p;
    assert ("b/" + p)[2..] == p;
  }

  /** Both prefixes go, one after the other: the old side of a file under `b/` loses that directory. */
  lemma NormalizeBoth(p: string)
    ensures NormalizePath(Some("a/b/" + p)) == p
  {
    assert ("a/b/" + p)[2..] == "b/" + p;
    assert ("b/" + p)[2..] == p;
  }

  /** A side that names a file: non-empty and not /dev/null. */
  predicate Names(path: string) {
    path != "" && path != DEV_NULL
  }

  /** `getFileStatus`. */
  function GetFileStatus(file: ParsedFile): (r: FileStatus)
    ensures r == Added <==> !Names(NormalizePath(file.oldPath))
    ensures r == Deleted <==> Names(NormalizePath(file.oldPath)) && !Names(NormalizePath(file.newPath))
    ensures r == Modified <==> Names(NormalizePath(file.oldPath)) && Names(NormalizePath(file.newPath))
  {
    var oldPath := NormalizePath(file.oldPath);
    var newPath := NormalizePath(file.newPath);
    if oldPath == DEV_NULL || oldPath == "" then Added
    else if newPath == DEV_NULL || newPath == "" then Deleted
    else Modified
  }

  /** `getFileLabel`. */
  function GetFileLabel(file: ParsedFile): string {
    var oldPath := NormalizePath(file.oldPath);
    var newPath := NormalizePath(file.newPath);
    if oldPath != "" && newPath != "" && oldPath != newPath && oldPath != DEV_NULL then oldPath + ARROW + newPath
    else if newPath != "" && newPath != DEV_NULL then newPath
    else if oldPath != "" && oldPath != DEV_NULL then oldPath
    else UNKNOWN_FILE
  }

  /**
   * `getFileLabel` as written: an added file is shown by its new path (or as unknown when it has
   * none), a modified one by its path, or by both when renamed; but a deleted file is shown as a
   * rename to /dev/null when its new side is /dev/null, because the rename case checks only the
   * old side for /dev/null.
   */
  lemma LabelOfStatus(file: ParsedFile)
    ensures var oldPath, newPath := NormalizePath(file.oldPath), NormalizePath(file.newPath);
            var shown := GetFileLabel(file);
            && (GetFileStatus(file) == Added ==> shown == (if Names(newPath) then newPath else UNKNOWN_FILE))
            && (GetFileStatus(file) == Deleted ==> shown == (if newPath == DEV_NULL then oldPath + ARROW + DEV_NULL else oldPath))
            && (GetFileStatus(file) == Modified ==> shown == (if oldPath != newPath then oldPath + ARROW + newPath else newPath))
  {
  }

  /** The input that shows it: deleting `a/notes.txt` is labelled "notes.txt → /dev/null". */
  lemma DeletedShownAsRename()
    ensures var file := ParsedFile(Some("a/notes.txt"), Some(DEV_NULL), None);
            GetFileStatus(file) == Deleted && GetFileLabel(file) == "notes.txt" + ARROW + DEV_NULL
  {
    var file := ParsedFile(Some("a/notes.txt"), Some(DEV_NULL), None);
    assert "a/notes.txt"[..2] == "a/" && "a/notes.txt"[2..] == "notes.txt";
    assert "notes.txt"[0] != "b/"[0];
    assert NormalizePath(file.oldPath) == "notes.txt";
    assert !StartsWith(DEV_NULL, "a/") && !StartsWith(DEV_NULL, "b/");
    assert NormalizePath(file.newPath) == DEV_NULL;
  }

  /** The label with the rename case guarded on both sides, as the fallbacks are. */
  function FileLabel(file: ParsedFile): string {
    var oldPath := NormalizePath(file.oldPath);
    var newPath := NormalizePath(file.newPath);
    if Names(oldPath) && Names(newPath) && oldPath != newPath then oldPath + ARROW + newPath
    else if Names(newPath) then newPath
    else if Names(oldPath) then oldPath
    else UNKNOWN_FILE
  }

  /**
   * With the guard, every file is labelled by the sides that name it: an added file by its new
   * path, a deleted one by its old path, a modified one by its path or both; and the label differs
   * from the one as written only for a deleted file whose new side is /dev/null.
   */
  lemma FileLabelOfStatus(file: ParsedFile)
    ensures var oldPath, newPath := NormalizePath(file.oldPath), NormalizePath(file.newPath);
            var shown := FileLabel(file);
            && (GetFileStatus(file) == Added ==> shown == (if Names(newPath) then newPath else UNKNOWN_FILE))
            && (GetFileStatus(file) == Deleted ==> shown == oldPath)
            && (GetFileStatus(file) == Modified ==> shown == (if oldPath != newPath then oldPath + ARROW + newPath else newPath))
    ensures FileLabel(file) != GetFileLabel(file) <==>
              GetFileStatus(file) == Deleted && NormalizePath(file.newPath) == DEV_NULL
  {
    LabelOfStatus(file);
    var oldPath := NormalizePath(file.oldPath);
    if GetFileStatus(file) == Deleted && NormalizePath(file.newPath) == DEV_NULL {
      assert |oldPath + ARROW + DEV_NULL| > |oldPath|;
    }
  }

  // ---------------------------------------------------------------- counts

  function HunksOf(file: ParsedFile): seq<Hunk> {
    file.hunks.GetOr([])
  }

  function ChangesOf(hunk: Hunk): seq<Change> {
    hunk.changes.GetOr([])
  }

  /** Every change of a list of hunks, hunk after hunk. */
  function AllChanges(hunks: seq<Hunk>): (r: seq<Change>)
    decreases |hunks|
  {
    if hunks == [] then [] else AllChanges(hunks[..|hunks| - 1]) + ChangesOf(hunks[|hunks| - 1])
  }

  /** What `getAddedDeletedCounts` computes: how many inserted and deleted lines the file has. */
  function AddedLines(file: ParsedFile): nat {
    multiset(AllChanges(HunksOf(file)))[Insert]
  }

  function DeletedLines(file: ParsedFile): nat {
    multiset(AllChanges(HunksOf(file)))[Delete]
  }

  /** `getAddedDeletedCounts`, the two nested loops. */
  method GetAddedDeletedCounts(file: ParsedFile) returns (added: nat, deleted: nat)
    ensures added == AddedLines(file) && deleted == DeletedLines(file)
  {
    added, deleted := 0, 0;
    var hunks := HunksOf(file);
    var i := 0;
    while i < |hunks|
      invariant 0 <= i <= |hunks|
      invariant added == multiset(AllChanges(hunks[..i]))[Insert]
      invariant deleted == multiset(AllChanges(hunks[..i]))[Delete]
    {
      var changes := ChangesOf(hunks[i]);
      var j := 0;
      while j < |changes|
        invariant 0 <= j <= |changes|
        invariant added == multiset(AllChanges(hunks[..i]) + changes[..j])[Insert]
        invariant deleted == multiset(AllChanges(hunks[..i]) + changes[..j])[Delete]
      {
        OneMoreChange(AllChanges(hunks[..i]), changes, j);
        if changes[j] == Insert {
          added := added + 1;
        }
        if changes[j] == Delete {
          deleted := deleted + 1;
        }
        j := j + 1;
      }
      assert changes[..j] == changes;
      OneMoreHunk(hunks, i);
      i := i + 1;
    }
    assert hunks[..i] == hunks;
  }

  /** The counts after one more change of a hunk. */
  lemma OneMoreChange(before: seq<Change>, changes: seq<Change>, j: nat)
    requires j < |changes|
    ensures multiset(before + changes[..j + 1])[Insert]
         == multiset(before + changes[..j])[Insert] + (if changes[j] == Insert then 1 else 0)
    ensures multiset(before + changes[..j + 1])[Delete]
         == multiset(before + changes[..j])[Delete] + (if changes[j] == Delete then 1 else 0)
  {
    assert before + changes[..j + 1] == (before + changes[..j]) + [changes[j]];
  }

  /** The changes of the first `i + 1` hunks. */
  lemma OneMoreHunk(hunks: seq<Hunk>, i: nat)
    requires i < |hunks|
    ensures AllChanges(hunks[..i + 1]) == AllChanges(hunks[..i]) + ChangesOf(hunks[i])
  {
    assert hunks[..i + 1][..i] == hunks[..i];
  }

  /** Every change of the file is an insertion, a deletion or neither, so the counts fit in it. */
  lemma CountsBound(file: ParsedFile)
    ensures AddedLines(file) + DeletedLines(file) + multiset(AllChanges(HunksOf(file)))[Normal] == |AllChanges(HunksOf(file))|
  {
    KindsPartition(AllChanges(HunksOf(file)));
  }

  lemma {:induction false} KindsPartition(s: seq<Change>)
    ensures multiset(s)[Insert] + multiset(s)[Delete] + multiset(s)[Normal] == |s|
    decreases |s|
  {
    if s != [] {
      KindsPartition(s[1..]);
      assert s == [s[0]] + s[1..];
      assert multiset(s) == multiset{s[0]} + multiset(s[1..]);
      match s[0]
      case Insert => assert multiset{s[0]}[Insert] == 1 && multiset{s[0]}[Delete] == 0 && multiset{s[0]}[Normal] == 0;
      case Delete => assert multiset{s[0]}[Insert] == 0 && multiset{s[0]}[Delete] == 1 && multiset{s[0]}[Normal] == 0;
      case Normal => assert multiset{s[0]}[Insert] == 0 && multiset{s[0]}[Delete] == 0 && multiset{s[0]}[Normal] == 1;
    }
  }

  /** The counts of consecutive hunks add up. */
  lemma {:induction false} AllChangesAppend(a: seq<Hunk>, b: seq<Hunk>)
    ensures AllChanges(a + b) == AllChanges(a) + AllChanges(b)
    decreases |b|
  {
    if b == [] {
      assert a + b == a;
    } else {
      var init := b[..|b| - 1];
      assert (a + b)[..|a + b| - 1] == a + init;
      assert (a + b)[|a + b| - 1] == b[|b| - 1];
      AllChangesAppend(a, init);
    }
  }

  /** A file without hunks, or whose hunks have no changes, counts nothing. */
  lemma {:induction false} EmptyHunksCountNothing(hunks: seq<Hunk>)
    requires forall k :: 0 <= k < |hunks| ==> ChangesOf(hunks[k]) == []
    ensures AllChanges(hunks) == []
    decreases |hunks|
  {
    if hunks != [] {
      EmptyHunksCountNothing(hunks[..|hunks| - 1]);
    }
  }
}
