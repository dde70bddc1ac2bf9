/**
 * The most-recently-opened repositories of src/stores/recentReposStore.ts: opening a path puts it
 * first, drops its older entry and keeps at most ten; a path can be forgotten, or all of them.
 * The time an entry records is `Date.now()` in the source and a parameter here.
 */
module RecentRepos {
  import opened Paths

  const MAX_RECENT_REPOS: nat := 10

  datatype RecentRepo = RecentRepo(path: string, name: string, lastOpened: int)

  /** `recentRepos.filter((r) => r.path !== path)`. */
  function Dropped(repos: seq<RecentRepo>, path: string): (r: seq<RecentRepo>)
    ensures |r| <= |repos|
    ensures forall j :: 0 <= j < |r| ==> r[j].path != path
  {
    if repos == [] then []
    else (if repos[0].path == path then [] else [repos[0]]) + Dropped(repos[1..], path)
  }

  /** Every entry kept was in the list. */
  lemma {:induction false} DroppedFrom(repos: seq<RecentRepo>, path: string, e: RecentRepo)
    requires e in Dropped(repos, path)
    ensures e in repos && e.path != path
    decreases |repos|
  {
    if repos != [] && (repos[0].path == path || e != repos[0]) {
      DroppedFrom(repos[1..], path, e);
    }
  }

  /** Every entry for another path is kept. */
  lemma {:induction false} DroppedKeeps(repos: seq<RecentRepo>, path: string, e: RecentRepo)
    requires e in repos && e.path != path
    ensures e in Dropped(repos, path)
    decreases |repos|
  {
    if repos[0] != e {
      DroppedKeeps(repos[1..], path, e);
    }
  }

  /** Filtering keeps order: the entries kept from a concatenation are those kept from each part. */
  lemma {:induction false} DroppedAppend(a: seq<RecentRepo>, b: seq<RecentRepo>, path: string)
    ensures Dropped(a + b, path) == Dropped(a, path) + Dropped(b, path)
    decreases |a|
  {
    if a == [] {
      assert a + b == b;
    } else {
      assert (a + b)[0] == a[0] && (a + b)[1..] == a[1..] + b;
      DroppedAppend(a[1..], b, path);
    }
  }

  /** Without an entry for the path, filtering changes nothing. */
  lemma {:induction false} DroppedAbsent(repos: seq<RecentRepo>, path: string)
    requires forall j :: 0 <= j < |repos| ==> repos[j].path != path
    ensures Dropped(repos, path) == repos
    decreases |repos|
  {
    if repos != [] {
      DroppedAbsent(repos[1..], path);
    }
  }

  /** `addRepo`'s new list: the path first, under its folder's name, then the others, ten at most. */
  function Added(repos: seq<RecentRepo>, path: string, now: int): (r: seq<RecentRepo>)
    ensures |r| == if 1 + |Dropped(repos, path)| < MAX_RECENT_REPOS then 1 + |Dropped(repos, path)| else MAX_RECENT_REPOS
    ensures r[0] == RecentRepo(path, BaseName(path), now)
    ensures r[1..] == Dropped(repos, path)[..|r| - 1]
  {
    var updated := [RecentRepo(path, BaseName(path), now)] + Dropped(repos, path);
    if |updated| < MAX_RECENT_REPOS then updated else updated[..MAX_RECENT_REPOS]
  }

  /** After adding a path, it is the first entry and no other entry has it. */
  lemma AddedFirstOnly(repos: seq<RecentRepo>, path: string, now: int)
    ensures var r := Added(repos, path, now);
            (r[0].path == path && forall j :: 1 <= j < |r| ==> r[j].path != path)
  {
    var r := Added(repos, path, now);
    var d := Dropped(repos, path);
    forall j | 1 <= j < |r| ensures r[j].path != path {
      assert r[j] == r[1..][j - 1] == d[j - 1];
    }
  }

  /** No two entries share a path, and there are at most ten. */
  predicate WellFormed(repos: seq<RecentRepo>) {
    |repos| <= MAX_RECENT_REPOS && UniquePaths(repos)
  }

  predicate UniquePaths(repos: seq<RecentRepo>) {
    forall i, j :: 0 <= i < j < |repos| ==> repos[i].path != repos[j].path
  }

  lemma {:induction false} DroppedWellFormed(repos: seq<RecentRepo>, path: string)
    requires UniquePaths(repos)
    ensures UniquePaths(Dropped(repos, path))
    decreases |repos|
  {
    if repos != [] {
      DroppedWellFormed(repos[1..], path);
      var d := Dropped(repos, path);
      var t := Dropped(repos[1..], path);
      if repos[0].path != path {
        assert d == [repos[0]] + t;
        forall i, j | 0 <= i < j < |d| ensures d[i].path != d[j].path {
          assert d[j] == t[j - 1];
          if i == 0 {
            DroppedFrom(repos[1..], path, t[j - 1]);
            var k :| 0 <= k < |repos[1..]| && repos[1..][k] == t[j - 1];
            assert repos[k + 1] == d[j] && d[0] == repos[0];
            assert repos[0].path != repos[k + 1].path;
          } else {
            assert d[i] == t[i - 1];
            assert t[i - 1].path != t[j - 1].path;
          }
        }
      } else {
        assert d == t;
      }
    }
  }

  /** Adding keeps the list well formed, whatever it was. */
  lemma AddKeepsWellFormed(repos: seq<RecentRepo>, path: string, now: int)
    requires WellFormed(repos)
    ensures WellFormed(Added(repos, path, now))
  {
    var r := Added(repos, path, now);
    var d := Dropped(repos, path);
    DroppedWellFormed(repos, path);
    AddedFirstOnly(repos, path, now);
    forall i, j | 0 <= i < j < |r| ensures r[i].path != r[j].path {
      if i > 0 {
        assert r[i] == r[1..][i - 1] == d[i - 1] && r[j] == r[1..][j - 1] == d[j - 1];
      }
    }
  }

  /** An entry that was not among the nine most recent of the others drops off the end. */
  lemma AddKeepsRecentOthers(repos: seq<RecentRepo>, path: string, now: int, j: nat)
    requires j < |Dropped(repos, path)| && j < MAX_RECENT_REPOS - 1
    ensures Added(repos, path, now)[j + 1] == Dropped(repos, path)[j]
  {
    var r := Added(repos, path, now);
    assert r[j + 1] == r[1..][j];
  }

  /** Opening the same path twice at the same moment is opening it once. */
  lemma AddIdempotent(repos: seq<RecentRepo>, path: string, now: int)
    ensures Added(Added(repos, path, now), path, now) == Added(repos, path, now)
  {
    var r := Added(repos, path, now);
    var d := Dropped(repos, path);
    assert r == [r[0]] + r[1..];
    DroppedAppend([r[0]], r[1..], path);
    DroppedAbsent(r[1..], path);
    assert Dropped([r[0]], path) == [] by {
      assert [r[0]][1..] == [];
    }
    assert Dropped(r, path) == r[1..];
    var r2 := Added(r, path, now);
    assert |r2| == |r|;
    assert r2[1..] == r[1..][..|r| - 1] == r[1..];
    assert r2 == [r2[0]] + r2[1..];
  }

  /** The store: one field every action replaces. */
  class RecentReposStore {
    var recentRepos: seq<RecentRepo>

    constructor()
      ensures recentRepos == []
    {
      recentRepos := [];
    }

    /** `addRepo`, with `now` the time `Date.now()` reads. */
    method AddRepo(path: string, now: int)
      modifies this
      ensures recentRepos == Added(old(recentRepos), path, now)
    {
      var name := BaseName(path);
      var newRepo := RecentRepo(path, name, now);
      var filtered := Dropped(recentRepos, path);
      var updated := [newRepo] + filtered;
      recentRepos := if |updated| < MAX_RECENT_REPOS then updated else updated[..MAX_RECENT_REPOS];
    }

    /** `removeRepo`: exactly the entries for that path go; the rest keep their order. */
    method RemoveRepo(path: string)
      modifies this
      ensures recentRepos == Dropped(old(recentRepos), path)
    {
      recentRepos := Dropped(recentRepos, path);
    }

    method ClearHistory()
      modifies this
      ensures recentRepos == []
    {
      recentRepos := [];
    }
  }
}
