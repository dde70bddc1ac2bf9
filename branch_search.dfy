/**
 * `useBranchSearch` (src/pages/BranchesPage/hooks/useBranchSearch.ts): the branch lists of the
 * branches page, split into local and remote, narrowed by a search text, and the labelled
 * options of the branch selectors.
 */
module BranchSearch {
  import opened Strings
  import opened GitTypes
  import opened Seqs

  datatype BranchOption = BranchOption(value: string, labelText: string)

  datatype SearchResult = SearchResult(
    filteredLocalBranches: seq<Branch>,
    filteredRemoteBranches: seq<Branch>,
    branchOptions: seq<BranchOption>,
    localBranchOptions: seq<BranchOption>,
    hasSearchQuery: bool)

  /** The mark `git branch` puts before a branch checked out in another worktree. */
  const WORKTREE_MARK := "+ "

  /** `name.replace(/^\+ /, '')`: one leading mark goes, if there is one. */
  function NormalizeName(name: string): (r: string)
    ensures StartsWith(name, WORKTREE_MARK) ==> WORKTREE_MARK + r == name
    ensures !StartsWith(name, WORKTREE_MARK) ==> r == name
  {
    if StartsWith(name, WORKTREE_MARK) then name[|WORKTREE_MARK|..] else name
  }

  /** Only a single mark is removed: a doubly marked name keeps one. */
  lemma NormalizeOnce(name: string)
    ensures NormalizeName(WORKTREE_MARK + WORKTREE_MARK + name) == WORKTREE_MARK + name
  {
    assert (WORKTREE_MARK + WORKTREE_MARK + name)[|WORKTREE_MARK|..] == WORKTREE_MARK + name;
  }

  /** `searchQuery.trim().toLowerCase()`. */
  function NormalizedQuery(q: string): (r: string)
    ensures |r| <= |q|
    ensures IsTrimmed(r)
    ensures forall i :: 0 <= i < |r| ==> !('A' <= r[i] <= 'Z')
  {
    TrimIsTrimmed(q);
    TrimToLower(q);
    TrimIsTrimmed(ToLower(q));
    TrimShorter(q);
    ToLower(Trim(q))
  }

  lemma TrimShorter(s: string)
    ensures |Trim(s)| <= |s|
  {
    TrimStartShape(s);
    TrimEndShape(TrimStart(s));
  }

  /** Normalizing a normalized query changes nothing. */
  lemma QueryIdempotent(q: string)
    ensures NormalizedQuery(NormalizedQuery(q)) == NormalizedQuery(q)
  {
    var t := Trim(q);
    TrimToLower(t);
    TrimIdempotent(q);
    ToLowerIdempotent(t);
  }

  /** A branch matches when the query occurs in its lowercased, normalized name. */
  predicate Matches(b: Branch, query: string) {
    Contains(ToLower(NormalizeName(b.name)), query)
  }

  function Locals(branches: seq<Branch>): seq<Branch> {
    Filter(branches, (b: Branch) => !b.remote)
  }

  function Remotes(branches: seq<Branch>): seq<Branch> {
    Filter(branches, (b: Branch) => b.remote)
  }

  /** A list narrowed to the branches that match a non-empty query, or left whole. */
  function Narrowed(branches: seq<Branch>, query: string): (r: seq<Branch>)
    ensures query == "" ==> r == branches
    ensures query != "" ==> forall j :: 0 <= j < |r| ==> Matches(r[j], query)
  {
    if |query| > 0 then Filter(branches, (b: Branch) => Matches(b, query)) else branches
  }

  /** The tags of a label, in the order atual, remota, worktree. */
  function Tags(b: Branch, worktreeBranches: set<string>): (r: seq<string>)
    ensures "atual" in r <==> b.current
    ensures "remota" in r <==> b.remote
    ensures "worktree" in r <==> NormalizeName(b.name) in worktreeBranches
    ensures forall i, j :: 0 <= i < j < |r| ==> TagRank(r[i]) < TagRank(r[j])
  {
    (if b.current then ["atual"] else []) + (if b.remote then ["remota"] else [])
    + (if NormalizeName(b.name) in worktreeBranches then ["worktree"] else [])
  }

  function TagRank(tag: string): nat {
    if tag == "atual" then 0 else if tag == "remota" then 1 else 2
  }

  /** `formatBranchLabel`. */
  function Label(b: Branch, worktreeBranches: set<string>): string {
    var name := NormalizeName(b.name);
    var tags := Tags(b, worktreeBranches);
    if |tags| > 0 then name + " (" + Join(tags, ", ") + ")" else name
  }

  /** A label starts with the normalized name, and is just that name exactly when there are no tags. */
  lemma LabelShape(b: Branch, worktreeBranches: set<string>)
    ensures StartsWith(Label(b, worktreeBranches), NormalizeName(b.name))
    ensures Label(b, worktreeBranches) == NormalizeName(b.name) <==> Tags(b, worktreeBranches) == []
  {
    var name := NormalizeName(b.name);
    var tags := Tags(b, worktreeBranches);
    if |tags| > 0 {
      var l := name + " (" + Join(tags, ", ") + ")";
      assert l[..|name|] == name;
      assert |l| > |name|;
    }
  }

  function Option(b: Branch, worktreeBranches: set<string>): BranchOption {
    BranchOption(NormalizeName(b.name), Label(b, worktreeBranches))
  }

  function Options(branches: seq<Branch>, worktreeBranches: set<string>): (r: seq<BranchOption>)
    ensures |r| == |branches|
    ensures forall j :: 0 <= j < |r| ==> r[j] == Option(branches[j], worktreeBranches)
  {
    seq(|branches|, j requires 0 <= j < |branches| => Option(branches[j], worktreeBranches))
  }

  /** `useBranchSearch`. */
  function UseBranchSearch(branches: seq<Branch>, searchQuery: string, worktreeBranches: set<string>): (r: SearchResult)
    ensures r.hasSearchQuery <==> NormalizedQuery(searchQuery) != ""
    ensures !r.hasSearchQuery ==> r.filteredLocalBranches == Locals(branches) && r.filteredRemoteBranches == Remotes(branches)
    ensures forall j :: 0 <= j < |r.filteredLocalBranches| ==>
              !r.filteredLocalBranches[j].remote && Matches(r.filteredLocalBranches[j], NormalizedQuery(searchQuery))
    ensures forall j :: 0 <= j < |r.filteredRemoteBranches| ==>
              r.filteredRemoteBranches[j].remote && Matches(r.filteredRemoteBranches[j], NormalizedQuery(searchQuery))
    ensures |r.branchOptions| == |branches| && |r.localBranchOptions| == |Locals(branches)|
    ensures r.branchOptions[..|r.localBranchOptions|] == r.localBranchOptions
    ensures forall j :: 0 <= j < |r.localBranchOptions| ==> r.localBranchOptions[j] == Option(Locals(branches)[j], worktreeBranches)
    ensures r.filteredLocalBranches == Narrowed(Locals(branches), NormalizedQuery(searchQuery))
    ensures r.filteredRemoteBranches == Narrowed(Remotes(branches), NormalizedQuery(searchQuery))
    ensures r.branchOptions == Options(Locals(branches) + Remotes(branches), worktreeBranches)
  {
    var query := NormalizedQuery(searchQuery);
    var locals := Locals(branches);
    var remotes := Remotes(branches);
    EveryBranchMatchesEmpty(locals);
    EveryBranchMatchesEmpty(remotes);
    FilterSplits(branches, (b: Branch) => !b.remote, (b: Branch) => b.remote);
    var filteredLocal := Narrowed(locals, query);
    var filteredRemote := Narrowed(remotes, query);
    FilterKeepsProperty(locals, query, (b: Branch) => !b.remote);
    FilterKeepsProperty(remotes, query, (b: Branch) => b.remote);
    var options := Options(locals + remotes, worktreeBranches);
    var localOptions := Options(locals, worktreeBranches);
    assert options[..|localOptions|] == localOptions;
    SearchResult(filteredLocal, filteredRemote, options, localOptions, |query| > 0)
  }

  lemma EveryBranchMatchesEmpty(bs: seq<Branch>)
    ensures forall j :: 0 <= j < |bs| ==> Matches(bs[j], "")
  {
    forall j | 0 <= j < |bs| ensures Matches(bs[j], "") {
      assert OccursAt(ToLower(NormalizeName(bs[j].name)), "", 0);
    }
  }

  lemma FilterKeepsProperty(bs: seq<Branch>, query: string, p: Branch -> bool)
    requires forall j :: 0 <= j < |bs| ==> p(bs[j])
    ensures forall j :: 0 <= j < |Narrowed(bs, query)| ==> p(Narrowed(bs, query)[j])
  {
    if |query| > 0 {
      var r := Narrowed(bs, query);
      forall j | 0 <= j < |r| ensures p(r[j]) {
        FilterMembers(bs, (b: Branch) => Matches(b, query), r[j]);
      }
    }
  }

  /**
   * The search keeps exactly the branches that match, in their order: a branch is in the
   * narrowed list iff it is in the list and matches, and narrowing distributes over concatenation.
   */
  lemma NarrowedExactly(bs: seq<Branch>, more: seq<Branch>, query: string, b: Branch)
    requires query != ""
    ensures b in Narrowed(bs, query) <==> b in bs && Matches(b, query)
    ensures Narrowed(bs + more, query) == Narrowed(bs, query) + Narrowed(more, query)
  {
    FilterMembers(bs, (x: Branch) => Matches(x, query), b);
    FilterAppend(bs, more, (x: Branch) => Matches(x, query));
  }

  /**
   * The search keeps exactly the matching branches of each kind: a branch is listed as local
   * (remote) iff it is a local (remote) branch of the input and the query is empty or it matches.
   */
  lemma SearchKeepsExactly(branches: seq<Branch>, searchQuery: string, worktreeBranches: set<string>, b: Branch)
    ensures var r := UseBranchSearch(branches, searchQuery, worktreeBranches);
            b in r.filteredLocalBranches
            <==> b in branches && !b.remote && (!r.hasSearchQuery || Matches(b, NormalizedQuery(searchQuery)))
    ensures var r := UseBranchSearch(branches, searchQuery, worktreeBranches);
            b in r.filteredRemoteBranches
            <==> b in branches && b.remote && (!r.hasSearchQuery || Matches(b, NormalizedQuery(searchQuery)))
  {
    var query := NormalizedQuery(searchQuery);
    FilterMembers(branches, (x: Branch) => !x.remote, b);
    FilterMembers(branches, (x: Branch) => x.remote, b);
    if query != "" {
      NarrowedExactly(Locals(branches), [], query, b);
      NarrowedExactly(Remotes(branches), [], query, b);
    }
  }

  /** A query of blanks is no query: the lists come back whole. */
  lemma BlankQueryShowsAll(branches: seq<Branch>, searchQuery: string, worktreeBranches: set<string>)
    requires forall i :: 0 <= i < |searchQuery| ==> IsWhitespace(searchQuery[i])
    ensures !UseBranchSearch(branches, searchQuery, worktreeBranches).hasSearchQuery
  {
    BlankTrimsToEmpty(searchQuery);
  }

  lemma {:induction false} BlankTrimsToEmpty(s: string)
    requires forall i :: 0 <= i < |s| ==> IsWhitespace(s[i])
    ensures Trim(s) == ""
    decreases |s|
  {
    if |s| > 0 {
      BlankTrimsToEmpty(s[1..]);
      assert TrimStart(s) == TrimStart(s[1..]);
    }
  }
}
