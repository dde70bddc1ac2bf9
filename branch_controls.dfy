/**
 * The branch selector of the header (src/components/BranchControls.tsx): which branches it
 * offers, in what order and with what flags, and what choosing one of them checks out.
 */
module BranchControls {
  import opened Wrappers
  import opened Strings
  import opened GitTypes
  import opened Seqs
  import BranchSearch

  /**
   * One entry of the selector. A remote option is never disabled; the divider is the fixed entry
   * with value `__divider1__` and key `divider1`.
   */
  datatype SelectorOption =
    | LocalOption(value: string, labelText: string, disabled: bool, key: string, inWorktree: bool)
    | RemoteOption(value: string, labelText: string, key: string, remoteName: string)
    | Divider

  /** The checkout a choice starts. */
  datatype Checkout = CheckoutRemoteBranch(remoteName: string) | CheckoutBranch(name: string)

  /** The branches checked out in worktrees other than the main one. */
  function NonMainWorktreeBranches(worktrees: seq<Worktree>): (r: set<string>)
    ensures forall name :: name in r <==> exists w :: w in worktrees && !w.isMain && w.branch == name
  {
    set w | w in worktrees && !w.isMain :: w.branch
  }

  /**
   * `remoteName.replace(/^[^/]+\//, '')`: the remote's name and its slash go, provided the
   * name is not empty; a ref without a slash, or starting with one, is left as it is.
   */
  function LocalName(remoteRef: string): (r: string)
    ensures r == remoteRef || (exists k :: 0 < k < |remoteRef| && remoteRef[k] == '/' && r == remoteRef[k + 1..])
  {
    match IndexOf(remoteRef, "/")
    case Some(k) => if k > 0 then remoteRef[k + 1..] else remoteRef
    case None => remoteRef
  }

  /** `origin/feature/x` is offered as `feature/x`: only the first segment goes. */
  lemma LocalNameOfRemote(remote: string, branch: string)
    requires remote != "" && '/' !in remote
    ensures LocalName(remote + "/" + branch) == branch
  {
    var s := remote + "/" + branch;
    assert s[|remote|] == '/';
    IndexOfChar(s, '/', |remote|);
    assert s[|remote| + 1..] == branch;
  }

  /** The local names of the local branches. */
  function LocalNames(branches: seq<Branch>): set<string> {
    set b | b in branches && !b.remote :: BranchSearch.NormalizeName(b.name)
  }

  /** A remote whose local name is neither a local branch nor busy in another worktree. */
  predicate IsOrphan(b: Branch, localNames: set<string>, busy: set<string>) {
    LocalName(b.name) !in localNames && LocalName(b.name) !in busy
  }

  function LocalOptionOf(b: Branch, busy: set<string>): SelectorOption {
    var name := BranchSearch.NormalizeName(b.name);
    LocalOption(name, name, b.current, "local-" + b.name, name in busy)
  }

  function RemoteOptionOf(b: Branch): SelectorOption {
    RemoteOption(b.name, LocalName(b.name), "remote-" + b.name, b.name)
  }

  function Orphans(branches: seq<Branch>, worktrees: seq<Worktree>): seq<Branch> {
    var localNames := LocalNames(branches);
    var busy := NonMainWorktreeBranches(worktrees);
    Filter(BranchSearch.Remotes(branches), (b: Branch) => IsOrphan(b, localNames, busy))
  }

  function LocalOptions(branches: seq<Branch>, worktrees: seq<Worktree>): (r: seq<SelectorOption>)
    ensures |r| == |BranchSearch.Locals(branches)|
    ensures forall j :: 0 <= j < |r| ==> r[j] == LocalOptionOf(BranchSearch.Locals(branches)[j], NonMainWorktreeBranches(worktrees))
  {
    var locals := BranchSearch.Locals(branches);
    var busy := NonMainWorktreeBranches(worktrees);
    seq(|locals|, j requires 0 <= j < |locals| => LocalOptionOf(locals[j], busy))
  }

  function RemoteOptions(branches: seq<Branch>, worktrees: seq<Worktree>): (r: seq<SelectorOption>)
    ensures |r| == |Orphans(branches, worktrees)|
    ensures forall j :: 0 <= j < |r| ==> r[j] == RemoteOptionOf(Orphans(branches, worktrees)[j])
  {
    var orphans := Orphans(branches, worktrees);
    seq(|orphans|, j requires 0 <= j < |orphans| => RemoteOptionOf(orphans[j]))
  }

  /** `branchOptions`, built as the source pushes onto `result`. */
  function BranchOptions(branches: seq<Branch>, worktrees: seq<Worktree>): (r: seq<SelectorOption>)
  {
    var localOptions := LocalOptions(branches, worktrees);
    var remoteOptions := RemoteOptions(branches, worktrees);
    var result := if |localOptions| > 0 then localOptions else [];
    if |remoteOptions| > 0 then
      (if |result| > 0 then result + [Divider] else result) + remoteOptions
    else result
  }

  /**
   * The list is the local options, then a divider exactly when there are options on both
   * sides of it, then the remote options.
   */
  lemma OptionsLayout(branches: seq<Branch>, worktrees: seq<Worktree>)
    ensures var l := LocalOptions(branches, worktrees);
            var m := RemoteOptions(branches, worktrees);
            BranchOptions(branches, worktrees) == l + (if |l| > 0 && |m| > 0 then [Divider] else []) + m
    ensures Divider in BranchOptions(branches, worktrees) <==>
              |LocalOptions(branches, worktrees)| > 0 && |RemoteOptions(branches, worktrees)| > 0
  {
    var l := LocalOptions(branches, worktrees);
    var m := RemoteOptions(branches, worktrees);
    assert forall j :: 0 <= j < |l| ==> !l[j].Divider?;
    assert forall j :: 0 <= j < |m| ==> !m[j].Divider?;
    if |l| > 0 && |m| > 0 {
      assert (l + [Divider] + m)[|l|] == Divider;
    } else {
      assert l + [] + m == l + m;
      NoDivider(l, m);
    }
  }

  lemma NoDivider(l: seq<SelectorOption>, m: seq<SelectorOption>)
    requires forall j :: 0 <= j < |l| ==> !l[j].Divider?
    requires forall j :: 0 <= j < |m| ==> !m[j].Divider?
    ensures Divider !in l + m
  {
    forall k | 0 <= k < |l + m| ensures !(l + m)[k].Divider? {
      if k < |l| {
        assert (l + m)[k] == l[k];
      } else {
        assert (l + m)[k] == m[k - |l|];
      }
    }
  }

  /**
   * A remote branch is offered exactly when its local name is neither the name of a local branch
   * nor checked out in a worktree other than the main one.
   */
  lemma OrphanRule(branches: seq<Branch>, worktrees: seq<Worktree>, b: Branch)
    requires b in branches && b.remote
    ensures b in Orphans(branches, worktrees) <==>
              (LocalName(b.name) !in LocalNames(branches) && LocalName(b.name) !in NonMainWorktreeBranches(worktrees))
  {
    var localNames := LocalNames(branches);
    var busy := NonMainWorktreeBranches(worktrees);
    FilterMembers(branches, (x: Branch) => x.remote, b);
    FilterMembers(BranchSearch.Remotes(branches), (x: Branch) => IsOrphan(x, localNames, busy), b);
  }

  /** What choosing an option checks out (`onChange`). */
  function Route(value: string, option: SelectorOption): Checkout {
    if option.RemoteOption? && option.remoteName != "" then CheckoutRemoteBranch(option.remoteName)
    else CheckoutBranch(value)
  }

  /**
   * Choosing a local option checks out its normalized name, disabled when it is the current
   * branch; choosing a remote option checks out the full remote ref, shown under its local name.
   */
  lemma ChoosingAnOption(branches: seq<Branch>, worktrees: seq<Worktree>, j: nat)
    requires j < |BranchOptions(branches, worktrees)|
    ensures var o := BranchOptions(branches, worktrees)[j];
            && (o.LocalOption? ==> exists b :: (b in branches && !b.remote && o.value == BranchSearch.NormalizeName(b.name)
                                     && o.labelText == o.value && o.disabled == b.current
                                     && (o.inWorktree <==> o.value in NonMainWorktreeBranches(worktrees))
                                     && Route(o.value, o) == CheckoutBranch(BranchSearch.NormalizeName(b.name))))
            && (o.RemoteOption? ==> exists b :: (b in branches && b.remote && o.value == b.name
                                     && o.labelText == LocalName(b.name)
                                     && (b.name != "" ==> Route(o.value, o) == CheckoutRemoteBranch(b.name))))
  {
    OptionsLayout(branches, worktrees);
    var l := LocalOptions(branches, worktrees);
    var m := RemoteOptions(branches, worktrees);
    var d := if |l| > 0 && |m| > 0 then [Divider] else [];
    var o := BranchOptions(branches, worktrees)[j];
    if j < |l| {
      assert o == l[j];
      LocalChoice(branches, worktrees, j);
    } else if j >= |l| + |d| {
      var k := j - |l| - |d|;
      ThirdPart(l, d, m, j);
      RemoteChoice(branches, worktrees, k);
    }
  }

  lemma ThirdPart(l: seq<SelectorOption>, d: seq<SelectorOption>, m: seq<SelectorOption>, j: nat)
    requires |l| + |d| <= j < |l| + |d| + |m|
    ensures (l + d + m)[j] == m[j - |l| - |d|]
  {
  }

  lemma LocalChoice(branches: seq<Branch>, worktrees: seq<Worktree>, j: nat)
    requires j < |LocalOptions(branches, worktrees)|
    ensures var o := LocalOptions(branches, worktrees)[j];
            o.LocalOption? && exists b :: (b in branches && !b.remote && o.value == BranchSearch.NormalizeName(b.name)
                                 && o.labelText == o.value && o.disabled == b.current
                                 && (o.inWorktree <==> o.value in NonMainWorktreeBranches(worktrees))
                                 && Route(o.value, o) == CheckoutBranch(BranchSearch.NormalizeName(b.name)))
  {
    var b := BranchSearch.Locals(branches)[j];
    LocalIsBranch(branches, b);
    assert LocalOptions(branches, worktrees)[j] == LocalOptionOf(b, NonMainWorktreeBranches(worktrees));
  }

  lemma RemoteChoice(branches: seq<Branch>, worktrees: seq<Worktree>, k: nat)
    requires k < |RemoteOptions(branches, worktrees)|
    ensures var o := RemoteOptions(branches, worktrees)[k];
            o.RemoteOption? && exists b :: (b in branches && b.remote && o.value == b.name
                                 && o.labelText == LocalName(b.name)
                                 && (b.name != "" ==> Route(o.value, o) == CheckoutRemoteBranch(b.name)))
  {
    var b := Orphans(branches, worktrees)[k];
    OrphanIsBranch(branches, worktrees, b);
    assert RemoteOptions(branches, worktrees)[k] == RemoteOptionOf(b);
  }

  lemma LocalIsBranch(branches: seq<Branch>, b: Branch)
    requires b in BranchSearch.Locals(branches)
    ensures b in branches && !b.remote
  {
    FilterMembers(branches, (x: Branch) => !x.remote, b);
  }

  lemma OrphanIsBranch(branches: seq<Branch>, worktrees: seq<Worktree>, b: Branch)
    requires b in Orphans(branches, worktrees)
    ensures b in branches && b.remote
  {
    var localNames := LocalNames(branches);
    var busy := NonMainWorktreeBranches(worktrees);
    FilterMembers(BranchSearch.Remotes(branches), (x: Branch) => IsOrphan(x, localNames, busy), b);
    FilterMembers(branches, (x: Branch) => x.remote, b);
  }
}
