/**
 * The tab store of src/stores/tabStore.ts: a record of tabs by id, the order they are shown in
 * and the active id, with the actions that open, close, activate, reorder and update tabs, and
 * the persistence that saves a part of each tab and rebuilds the store from it.
 *
 * The store's three fields live in the class `TabStore`; each action is proved to leave them as
 * a function of the old ones (`Created`, `Closed`, ...), and the lemmas state what those
 * functions promise: well-formed stores stay well-formed, closing activates the left neighbour,
 * reordering permutes, and saving then restoring keeps everything except the per-session state.
 * Tab ids come from `crypto.randomUUID()` in the source; here the new id is a parameter.
 */
module Tabs {
  import opened Wrappers
  import opened GitTypes
  import opened Paths

  datatype TabPage = CommitsPage | BranchesPage | HistoryPage | ConflictResolverPage | SetupPage | InitRepoPage

  /** `'none' | 'git' | 'no-git'`. */
  datatype RepoState = NoRepo | GitRepo | NoGitRepo

  datatype ChatMessage = ChatMessage(role: string, content: string)

  datatype TabGitState = TabGitState(
    status: Option<RepoStatus>,
    branches: seq<Branch>,
    worktrees: seq<Worktree>,
    commits: seq<CommitInfo>,
    selectedFile: Option<string>,
    selectedDiff: Option<string>,
    isLoading: bool)

  datatype TabMergeState = TabMergeState(isMergeInProgress: bool, conflictCount: int)

  datatype TabAiState = TabAiState(
    commitSuggestion: Option<string>,
    commitMessageDraft: string,
    isGenerating: bool,
    chatMessages: seq<ChatMessage>)

  datatype TabState = TabState(
    tabId: string,
    title: string,
    repoPath: Option<string>,
    repoState: RepoState,
    git: TabGitState,
    navigation: TabPage,
    merge: TabMergeState,
    ai: TabAiState)

  const NEW_TAB_TITLE := "Nova Aba"
  const EMPTY_GIT := TabGitState(None, [], [], [], None, None, false)
  const EMPTY_MERGE := TabMergeState(false, 0)
  const EMPTY_AI := TabAiState(None, "", false, [])

  /** JavaScript truthiness of a string that may be null: present and non-empty. */
  predicate Truthy(s: Option<string>) {
    s.Some? && s.value != ""
  }

  /** `a || b` on strings that may be null. */
  function OrElse(a: Option<string>, b: Option<string>): (r: Option<string>)
    ensures Truthy(r) <==> Truthy(a) || Truthy(b)
    ensures Truthy(a) ==> r == a
  {
    if Truthy(a) then a else b
  }

  /** `getTitleFromPath`: a new tab's title is its folder's name, or "Nova Aba" without a path. */
  function TitleFromPath(repoPath: Option<string>): (r: string)
    ensures r != ""
    ensures !Truthy(repoPath) ==> r == NEW_TAB_TITLE
    ensures Truthy(repoPath) ==> r == BaseName(repoPath.value)
  {
    if !Truthy(repoPath) then NEW_TAB_TITLE else BaseName(repoPath.value)
  }

  /**
   * `createEmptyTabState`: a given non-empty title wins over the folder's name, an empty path
   * is stored as null, and nothing is loaded yet.
   */
  function EmptyTab(tabId: string, repoPath: Option<string>, title: Option<string>): (t: TabState)
    ensures t.tabId == tabId && t.title != ""
    ensures Truthy(title) ==> t.title == title.value
    ensures !Truthy(title) ==> t.title == TitleFromPath(repoPath)
    ensures Truthy(t.repoPath) <==> Truthy(repoPath)
    ensures t.repoPath.Some? ==> t.repoPath == repoPath
    ensures t.repoState == NoRepo && t.navigation == CommitsPage
    ensures t.git == EMPTY_GIT && t.merge == EMPTY_MERGE && t.ai == EMPTY_AI
  {
    TabState(tabId, OrElse(title, Some(TitleFromPath(repoPath))).value, OrElse(repoPath, None), NoRepo,
             EMPTY_GIT, CommitsPage, EMPTY_MERGE, EMPTY_AI)
  }

  // ================================================================ the store as a value

  datatype Store = Store(tabs: map<string, TabState>, tabOrder: seq<string>, activeTabId: Option<string>)

  predicate Distinct(s: seq<string>) {
    forall i, j :: 0 <= i < j < |s| ==> s[i] != s[j]
  }

  /**
   * What the actions keep: the order lists every tab once and nothing else, ids are non-empty
   * (they are UUIDs), and the active id names a tab, and is set whenever there is a tab.
   */
  ghost predicate Valid(s: Store) {
    && Distinct(s.tabOrder)
    && (forall id :: id in s.tabOrder <==> id in s.tabs)
    && (forall id :: id in s.tabs ==> id != "")
    && (s.activeTabId.Some? ==> s.activeTabId.value in s.tabs)
    && (s.tabOrder != [] ==> s.activeTabId.Some?)
  }

  const INITIAL := Store(map[], [], None)

  lemma InitialValid()
    ensures Valid(INITIAL)
  {
  }

  /** `createTab`'s update: the new tab is added, appended to the order and made active. */
  function Created(s: Store, tabId: string, tab: TabState): (r: Store)
    ensures r.tabs.Keys == s.tabs.Keys + {tabId} && r.tabs[tabId] == tab
    ensures forall id :: id in s.tabs && id != tabId ==> r.tabs[id] == s.tabs[id]
    ensures r.tabOrder == s.tabOrder + [tabId] && r.activeTabId == Some(tabId)
  {
    Store(s.tabs[tabId := tab], s.tabOrder + [tabId], Some(tabId))
  }

  lemma CreateKeepsValid(s: Store, tabId: string, tab: TabState)
    requires Valid(s) && tabId != "" && tabId !in s.tabs
    ensures Valid(Created(s, tabId, tab))
  {
    var r := Created(s, tabId, tab);
    forall i, j | 0 <= i < j < |r.tabOrder| ensures r.tabOrder[i] != r.tabOrder[j] {
      if j == |s.tabOrder| {
        assert r.tabOrder[i] == s.tabOrder[i];
      }
    }
  }

  /** `tabOrder.filter((id) => id !== tabId)`. */
  function Without(order: seq<string>, tabId: string): (r: seq<string>)
    ensures forall id :: id in r <==> id in order && id != tabId
    ensures |r| <= |order|
  {
    if order == [] then []
    else (if order[0] == tabId then [] else [order[0]]) + Without(order[1..], tabId)
  }

  /** In a list without repeats, filtering an id out removes its one position. */
  lemma {:induction false} WithoutAt(order: seq<string>, i: nat)
    requires Distinct(order) && i < |order|
    ensures Without(order, order[i]) == order[..i] + order[i + 1..]
    decreases |order|
  {
    if i == 0 {
      NotThere(order[1..], order[0]);
      assert order[1..] == order[..0] + order[1..];
    } else {
      WithoutAt(order[1..], i - 1);
      assert order[1..][i - 1] == order[i];
      assert [order[0]] + (order[1..][..i - 1] + order[1..][i..]) == order[..i] + order[i + 1..];
    }
  }

  lemma {:induction false} NotThere(order: seq<string>, tabId: string)
    requires tabId !in order
    ensures Without(order, tabId) == order
    decreases |order|
  {
    if order != [] {
      NotThere(order[1..], tabId);
    }
  }

  /** `indexOf`: the first position of the id, or -1. */
  function Position(order: seq<string>, tabId: string): (r: int)
    ensures -1 <= r < |order|
    ensures r >= 0 ==> order[r] == tabId && tabId !in order[..r]
    ensures r == -1 <==> tabId !in order
  {
    if order == [] then -1
    else if order[0] == tabId then 0
    else
      var p := Position(order[1..], tabId);
      assert order[1..][..if p < 0 then 0 else p] == order[1..if p < 0 then 1 else p + 1];
      if p < 0 then -1 else p + 1
  }

  /** `array[i]`, undefined outside the array. */
  function At(s: seq<string>, i: int): (r: Option<string>)
    ensures r.Some? <==> 0 <= i < |s|
    ensures r.Some? ==> r.value == s[i]
  {
    if 0 <= i < |s| then Some(s[i]) else None
  }

  /** The active id after closing `tabId`. */
  function NextActive(order: seq<string>, active: Option<string>, tabId: string): Option<string> {
    if active == Some(tabId) then
      var nextOrder := Without(order, tabId);
      var p := Position(order, tabId);
      OrElse(At(nextOrder, if p - 1 < 0 then 0 else p - 1), OrElse(At(nextOrder, 0), None))
    else active
  }

  /** `closeTab`'s update: nothing when only one tab is open; otherwise the tab goes away. */
  function Closed(s: Store, tabId: string): Store {
    if |s.tabOrder| == 1 then s
    else Store(s.tabs - {tabId}, Without(s.tabOrder, tabId), NextActive(s.tabOrder, s.activeTabId, tabId))
  }

  /**
   * Closing the tab at position `i` of a well-formed store with more than one tab removes it;
   * when it was active, the tab to its left becomes active, or the new first tab when it was
   * first; any other active tab stays.
   */
  lemma CloseAt(s: Store, i: nat)
    requires Valid(s) && i < |s.tabOrder| && |s.tabOrder| > 1
    ensures var tabId := s.tabOrder[i];
            (Closed(s, tabId)
         == Store(s.tabs - {tabId}, s.tabOrder[..i] + s.tabOrder[i + 1..],
                  if s.activeTabId != Some(tabId) then s.activeTabId
                  else if i > 0 then Some(s.tabOrder[i - 1])
                  else Some(s.tabOrder[1])))
  {
    var order := s.tabOrder;
    var tabId := order[i];
    WithoutAt(order, i);
    var nextOrder := order[..i] + order[i + 1..];
    if s.activeTabId == Some(tabId) {
      if i > 0 {
        assert nextOrder[i - 1] == order[i - 1];
        assert order[i - 1] in s.tabs;
      } else {
        assert nextOrder[0] == order[1];
        assert order[1] in s.tabs;
      }
    }
  }

  /** Closing an id that is not open changes nothing. */
  lemma CloseUnknown(s: Store, tabId: string)
    requires Valid(s) && tabId !in s.tabs
    ensures Closed(s, tabId) == s
  {
    NotThere(s.tabOrder, tabId);
    assert s.tabs - {tabId} == s.tabs;
  }

  lemma CloseKeepsValid(s: Store, tabId: string)
    requires Valid(s)
    ensures Valid(Closed(s, tabId))
  {
    if |s.tabOrder| != 1 {
      if tabId in s.tabs {
        var i := Position(s.tabOrder, tabId);
        CloseAt(s, i);
        RemovedAt(s.tabOrder, i);
        NeighbourStays(s.tabOrder, i);
      } else {
        CloseUnknown(s, tabId);
      }
    }
  }

  /** Removing one position of a list without repeats leaves a list without repeats, of the other ids. */
  lemma RemovedAt(order: seq<string>, i: nat)
    requires Distinct(order) && i < |order|
    ensures Distinct(order[..i] + order[i + 1..])
    ensures forall id :: id in order[..i] + order[i + 1..] <==> id in order && id != order[i]
  {
    var r := order[..i] + order[i + 1..];
    forall a, b | 0 <= a < b < |r| ensures r[a] != r[b] {
      var a' := if a < i then a else a + 1;
      var b' := if b < i then b else b + 1;
      assert r[a] == order[a'] && r[b] == order[b'];
    }
    WithoutAt(order, i);
  }

  /** The tabs that can become active on closing position `i` are other tabs. */
  lemma NeighbourStays(order: seq<string>, i: nat)
    requires Distinct(order) && i < |order| && |order| > 1
    ensures i > 0 ==> order[i - 1] in order && order[i - 1] != order[i]
    ensures i == 0 ==> order[1] in order && order[1] != order[i]
  {
  }

  /** `setActiveTab`'s update: only an open tab can become active. */
  function Activated(s: Store, tabId: string): (r: Store)
    ensures tabId in s.tabs ==> r == s.(activeTabId := Some(tabId))
    ensures tabId !in s.tabs ==> r == s
  {
    if tabId in s.tabs then s.(activeTabId := Some(tabId)) else s
  }

  /** `splice(from, 1)` then `splice(to, 0, removed)`. */
  function Moved(order: seq<string>, from: nat, to: nat): seq<string>
    requires from < |order| && to < |order|
  {
    var rest := order[..from] + order[from + 1..];
    rest[..to] + [order[from]] + rest[to..]
  }

  /**
   * Moving keeps the same ids, puts the moved one at `to`, and leaves the others in their
   * relative order.
   */
  lemma MovedPermutes(order: seq<string>, from: nat, to: nat)
    requires from < |order| && to < |order|
    ensures var m := Moved(order, from, to);
            |m| == |order| && multiset(m) == multiset(order) && m[to] == order[from]
            && m[..to] + m[to + 1..] == order[..from] + order[from + 1..]
  {
    var rest := order[..from] + order[from + 1..];
    var m := Moved(order, from, to);
    assert order == order[..from] + [order[from]] + order[from + 1..];
    assert multiset(order) == multiset(order[..from]) + multiset([order[from]]) + multiset(order[from + 1..]);
    assert multiset(rest) == multiset(order[..from]) + multiset(order[from + 1..]);
    assert rest == rest[..to] + rest[to..];
    assert multiset(rest) == multiset(rest[..to]) + multiset(rest[to..]);
    assert multiset(m) == multiset(rest[..to]) + multiset([order[from]]) + multiset(rest[to..]);
    assert multiset(m) == multiset(rest) + multiset([order[from]]);
    assert multiset(order) == multiset(rest) + multiset([order[from]]);
    assert m[..to] == rest[..to] && m[to + 1..] == rest[to..];
  }

  /** Moving an id within a list without repeats leaves a list without repeats. */
  lemma MovedDistinct(order: seq<string>, from: nat, to: nat)
    requires Distinct(order) && from < |order| && to < |order|
    ensures Distinct(Moved(order, from, to))
  {
    var m := Moved(order, from, to);
    MovedPermutes(order, from, to);
    forall i, j | 0 <= i < j < |m| ensures m[i] != m[j] {
      if m[i] == m[j] {
        MultisetTwice(m, i, j);
        MultisetOnce(order, m[i]);
      }
    }
  }

  lemma MultisetTwice(s: seq<string>, i: nat, j: nat)
    requires i < j < |s| && s[i] == s[j]
    ensures multiset(s)[s[i]] >= 2
  {
    assert s == s[..i] + [s[i]] + s[i + 1..j] + [s[j]] + s[j + 1..];
  }

  lemma {:induction false} MultisetOnce(s: seq<string>, x: string)
    requires Distinct(s)
    ensures multiset(s)[x] <= 1
    decreases |s|
  {
    if s != [] {
      assert s == [s[0]] + s[1..];
      MultisetOnce(s[1..], x);
      if s[0] == x {
        assert x !in s[1..];
      }
    }
  }

  /** `reorderTabs`' update, for positions inside the order. */
  function Reordered(s: Store, from: nat, to: nat): Store
    requires from < |s.tabOrder| && to < |s.tabOrder|
  {
    s.(tabOrder := Moved(s.tabOrder, from, to))
  }

  lemma ReorderKeepsValid(s: Store, from: nat, to: nat)
    requires Valid(s) && from < |s.tabOrder| && to < |s.tabOrder|
    ensures Valid(Reordered(s, from, to))
  {
    MovedPermutes(s.tabOrder, from, to);
    MovedDistinct(s.tabOrder, from, to);
    var m := Moved(s.tabOrder, from, to);
    forall id ensures id in m <==> id in s.tabOrder {
      assert id in m <==> id in multiset(m);
    }
  }

  // ================================================================ updates of one tab

  /** `Partial<TabState>`: `None` is a key the update does not give. */
  datatype TabPatch = TabPatch(
    tabId: Option<string>,
    title: Option<string>,
    repoPath: Option<Option<string>>,
    repoState: Option<RepoState>,
    git: Option<TabGitState>,
    navigation: Option<TabPage>,
    merge: Option<TabMergeState>,
    ai: Option<TabAiState>)

  datatype GitPatch = GitPatch(
    status: Option<Option<RepoStatus>>,
    branches: Option<seq<Branch>>,
    worktrees: Option<seq<Worktree>>,
    commits: Option<seq<CommitInfo>>,
    selectedFile: Option<Option<string>>,
    selectedDiff: Option<Option<string>>,
    isLoading: Option<bool>)

  datatype MergePatch = MergePatch(isMergeInProgress: Option<bool>, conflictCount: Option<int>)

  datatype AiPatch = AiPatch(
    commitSuggestion: Option<Option<string>>,
    commitMessageDraft: Option<string>,
    isGenerating: Option<bool>,
    chatMessages: Option<seq<ChatMessage>>)

  /** `{ ...tab, ...updates }`. */
  function PatchTab(t: TabState, p: TabPatch): TabState {
    TabState(p.tabId.GetOr(t.tabId), p.title.GetOr(t.title), p.repoPath.GetOr(t.repoPath),
             p.repoState.GetOr(t.repoState), p.git.GetOr(t.git), p.navigation.GetOr(t.navigation),
             p.merge.GetOr(t.merge), p.ai.GetOr(t.ai))
  }

  function PatchGit(g: TabGitState, p: GitPatch): TabGitState {
    TabGitState(p.status.GetOr(g.status), p.branches.GetOr(g.branches), p.worktrees.GetOr(g.worktrees),
                p.commits.GetOr(g.commits), p.selectedFile.GetOr(g.selectedFile),
                p.selectedDiff.GetOr(g.selectedDiff), p.isLoading.GetOr(g.isLoading))
  }

  function PatchMerge(m: TabMergeState, p: MergePatch): TabMergeState {
    TabMergeState(p.isMergeInProgress.GetOr(m.isMergeInProgress), p.conflictCount.GetOr(m.conflictCount))
  }

  function PatchAi(a: TabAiState, p: AiPatch): TabAiState {
    TabAiState(p.commitSuggestion.GetOr(a.commitSuggestion), p.commitMessageDraft.GetOr(a.commitMessageDraft),
               p.isGenerating.GetOr(a.isGenerating), p.chatMessages.GetOr(a.chatMessages))
  }

  /**
   * Applying a shallow merge twice is applying it once, and an update with a key keeps that
   * key's new value: `updateTab` and its sub-record variants are idempotent.
   */
  lemma PatchesIdempotent(t: TabState, p: TabPatch, gp: GitPatch, mp: MergePatch, ap: AiPatch)
    ensures PatchTab(PatchTab(t, p), p) == PatchTab(t, p)
    ensures PatchGit(PatchGit(t.git, gp), gp) == PatchGit(t.git, gp)
    ensures PatchMerge(PatchMerge(t.merge, mp), mp) == PatchMerge(t.merge, mp)
    ensures PatchAi(PatchAi(t.ai, ap), ap) == PatchAi(t.ai, ap)
    ensures p.git.None? ==> PatchTab(t, p).git == t.git
  {
  }

  /**
   * The shape of every per-tab update: an unknown id leaves the store as it is; otherwise only
   * that tab's record changes, to `f` of the old one.
   */
  function Modified(s: Store, tabId: string, f: TabState -> TabState): (r: Store)
    ensures r.tabs.Keys == s.tabs.Keys && r.tabOrder == s.tabOrder && r.activeTabId == s.activeTabId
    ensures forall id :: id in s.tabs && id != tabId ==> r.tabs[id] == s.tabs[id]
    ensures tabId in s.tabs ==> r.tabs[tabId] == f(s.tabs[tabId])
    ensures tabId !in s.tabs ==> r == s
  {
    if tabId in s.tabs then s.(tabs := s.tabs[tabId := f(s.tabs[tabId])]) else s
  }

  lemma ModifyKeepsValid(s: Store, tabId: string, f: TabState -> TabState)
    requires Valid(s)
    ensures Valid(Modified(s, tabId, f))
  {
  }

  /** `getActiveTab`: the active tab's record, when the active id is set and open. */
  function ActiveTab(s: Store): (r: Option<TabState>)
    ensures r.Some? ==> s.activeTabId.Some? && s.activeTabId.value in s.tabs && r.value == s.tabs[s.activeTabId.value]
    ensures Valid(s) && s.activeTabId.Some? ==> r.Some?
  {
    if Truthy(s.activeTabId) && s.activeTabId.value in s.tabs then Some(s.tabs[s.activeTabId.value]) else None
  }

  // ================================================================ persistence

  /** The part of a tab `partialize` saves; `None` is a key missing from the saved JSON, or null. */
  datatype SavedTab = SavedTab(
    tabId: Option<string>,
    title: Option<string>,
    repoPath: Option<string>,
    repoState: Option<RepoState>,
    navigation: Option<TabPage>)

  datatype Saved = Saved(tabs: Option<map<string, SavedTab>>, tabOrder: Option<seq<string>>, activeTabId: Option<string>)

  function SaveTab(t: TabState): SavedTab {
    SavedTab(Some(t.tabId), Some(t.title), t.repoPath, Some(t.repoState), Some(t.navigation))
  }

  /** `partialize`: identity, title, path, repository state and page of each tab, the order and the active id. */
  function Partialize(s: Store): (r: Saved)
    ensures r.tabs.Some? && r.tabs.value.Keys == s.tabs.Keys
    ensures r.tabOrder == Some(s.tabOrder) && r.activeTabId == s.activeTabId
  {
    Saved(Some(map id | id in s.tabs :: SaveTab(s.tabs[id])), Some(s.tabOrder), s.activeTabId)
  }

  /** One entry of the rehydrating `merge`: the saved fields over a fresh tab for that id. */
  function RestoreTab(id: string, t: SavedTab): (r: TabState)
    ensures r.git == EMPTY_GIT && r.merge == EMPTY_MERGE && r.ai == EMPTY_AI
    ensures r.tabId == t.tabId.GetOr(id) && r.repoPath == t.repoPath
    ensures r.title == if t.title.Some? then t.title.value else TitleFromPath(t.repoPath)
  {
    var base := EmptyTab(id, t.repoPath, t.title);
    base.(tabId := t.tabId.GetOr(id), title := t.title.GetOr(base.title),
          repoPath := if t.repoPath.Some? then t.repoPath else base.repoPath,
          repoState := t.repoState.GetOr(base.repoState), navigation := t.navigation.GetOr(base.navigation))
  }

  /** `(stored.tabOrder ?? []).filter((id) => nextTabs[id])`. */
  function KeepOpen(order: seq<string>, ids: set<string>): (r: seq<string>)
    ensures forall id :: id in r <==> id in order && id in ids
    ensures (forall id :: id in order ==> id in ids) ==> r == order
  {
    if order == [] then []
    else (if order[0] in ids then [order[0]] else []) + KeepOpen(order[1..], ids)
  }

  function RestoredTabs(saved: Saved): map<string, TabState> {
    var stored := saved.tabs.GetOr(map[]);
    map id | id in stored :: RestoreTab(id, stored[id])
  }

  /** Rebuilding one more saved tab extends the map of those already rebuilt. */
  lemma RestoreOne(stored: map<string, SavedTab>, todo: set<string>, id: string, done: map<string, TabState>)
    requires id in todo && todo <= stored.Keys
    requires done == map k | k in stored && k !in todo :: RestoreTab(k, stored[k])
    ensures done[id := RestoreTab(id, stored[id])] == map k | k in stored && k !in todo - {id} :: RestoreTab(k, stored[k])
  {
  }

  lemma RestoreAll(saved: Saved, stored: map<string, SavedTab>, done: map<string, TabState>)
    requires stored == saved.tabs.GetOr(map[])
    requires done == map k | k in stored && k !in {} :: RestoreTab(k, stored[k])
    ensures done == RestoredTabs(saved)
  {
  }

  /**
   * The rehydrating `merge`: every saved tab rebuilt with empty git, merge and AI state, the
   * order filtered to rebuilt tabs, and the saved active id if it names one, else the first.
   */
  function Rehydrated(saved: Saved): (r: Store)
    ensures r.tabs.Keys == saved.tabs.GetOr(map[]).Keys
    ensures forall id :: id in r.tabOrder ==> id in r.tabs
    ensures r.activeTabId.Some? ==> r.activeTabId.value in r.tabs
    ensures r.tabOrder != [] ==> r.activeTabId.Some?
  {
    var tabs := RestoredTabs(saved);
    var order := KeepOpen(saved.tabOrder.GetOr([]), tabs.Keys);
    var active := if Truthy(saved.activeTabId) && saved.activeTabId.value in tabs then saved.activeTabId else At(order, 0);
    Store(tabs, order, active)
  }

  /** What a restart keeps of a tab: everything but its git, merge and AI state. */
  function Cleared(t: TabState): TabState {
    t.(git := EMPTY_GIT, merge := EMPTY_MERGE, ai := EMPTY_AI)
  }

  /** Saving a well-formed store and rehydrating it gives the same tabs, order and active tab, cleared. */
  lemma SaveRestore(s: Store)
    requires Valid(s)
    ensures Rehydrated(Partialize(s)) == Store(map id | id in s.tabs :: Cleared(s.tabs[id]), s.tabOrder, s.activeTabId)
  {
    var saved := Partialize(s);
    var expected := map id | id in s.tabs :: Cleared(s.tabs[id]);
    assert RestoredTabs(saved) == expected by {
      forall id | id in s.tabs ensures RestoredTabs(saved)[id] == expected[id] {
        RestoreSaved(id, s.tabs[id]);
      }
    }
  }

  lemma RestoreSaved(id: string, t: TabState)
    ensures RestoreTab(id, SaveTab(t)) == Cleared(t)
  {
  }

  // ================================================================ the store object

  /** The zustand store: three fields every action replaces. */
  class TabStore {
    var tabs: map<string, TabState>
    var tabOrder: seq<string>
    var activeTabId: Option<string>

    function State(): Store
      reads this
    {
      Store(tabs, tabOrder, activeTabId)
    }

    constructor()
      ensures State() == INITIAL
    {
      tabs := map[];
      tabOrder := [];
      activeTabId := None;
    }

    /** `createTab`, with `newId` the id `createTabId` draws. */
    method CreateTab(repoPath: Option<string>, title: Option<string>, newId: string) returns (tabId: string)
      modifies this
      ensures tabId == newId
      ensures State() == Created(old(State()), newId, EmptyTab(newId, repoPath, title))
    {
      tabId := newId;
      var newTab := EmptyTab(tabId, repoPath, title);
      tabs := tabs[tabId := newTab];
      tabOrder := tabOrder + [tabId];
      activeTabId := Some(tabId);
    }

    method CloseTab(tabId: string)
      modifies this
      ensures State() == Closed(old(State()), tabId)
      ensures |old(tabOrder)| == 1 ==> State() == old(State())
    {
      if |tabOrder| == 1 {
        return;
      }
      var nextTabs := tabs - {tabId};
      var nextOrder := Without(tabOrder, tabId);
      var nextActive := activeTabId;
      if activeTabId == Some(tabId) {
        var currentIndex := Position(tabOrder, tabId);
        nextActive := OrElse(At(nextOrder, if currentIndex - 1 < 0 then 0 else currentIndex - 1),
                             OrElse(At(nextOrder, 0), None));
      }
      tabs, tabOrder, activeTabId := nextTabs, nextOrder, nextActive;
    }

    method SetActiveTab(tabId: string)
      modifies this
      ensures State() == Activated(old(State()), tabId)
    {
      if tabId in tabs {
        activeTabId := Some(tabId);
      }
    }

    method ReorderTabs(fromIndex: nat, toIndex: nat)
      requires fromIndex < |tabOrder| && toIndex < |tabOrder|
      modifies this
      ensures State() == Reordered(old(State()), fromIndex, toIndex)
    {
      var nextOrder := tabOrder;
      var removed := nextOrder[fromIndex];
      nextOrder := nextOrder[..fromIndex] + nextOrder[fromIndex + 1..];
      nextOrder := nextOrder[..toIndex] + [removed] + nextOrder[toIndex..];
      tabOrder := nextOrder;
    }

    method UpdateTab(tabId: string, updates: TabPatch)
      modifies this
      ensures State() == Modified(old(State()), tabId, t => PatchTab(t, updates))
    {
      if tabId in tabs {
        tabs := tabs[tabId := PatchTab(tabs[tabId], updates)];
      }
    }

    method UpdateTabGit(tabId: string, updates: GitPatch)
      modifies this
      ensures State() == Modified(old(State()), tabId, (t: TabState) => t.(git := PatchGit(t.git, updates)))
    {
      if tabId in tabs {
        tabs := tabs[tabId := tabs[tabId].(git := PatchGit(tabs[tabId].git, updates))];
      }
    }

    method UpdateTabNavigation(tabId: string, page: TabPage)
      modifies this
      ensures State() == Modified(old(State()), tabId, (t: TabState) => t.(navigation := page))
    {
      if tabId in tabs {
        tabs := tabs[tabId := tabs[tabId].(navigation := page)];
      }
    }

    method UpdateTabMerge(tabId: string, updates: MergePatch)
      modifies this
      ensures State() == Modified(old(State()), tabId, (t: TabState) => t.(merge := PatchMerge(t.merge, updates)))
    {
      if tabId in tabs {
        tabs := tabs[tabId := tabs[tabId].(merge := PatchMerge(tabs[tabId].merge, updates))];
      }
    }

    method UpdateTabAi(tabId: string, updates: AiPatch)
      modifies this
      ensures State() == Modified(old(State()), tabId, (t: TabState) => t.(ai := PatchAi(t.ai, updates)))
    {
      if tabId in tabs {
        tabs := tabs[tabId := tabs[tabId].(ai := PatchAi(tabs[tabId].ai, updates))];
      }
    }

    method ResetTabGit(tabId: string)
      modifies this
      ensures State() == Modified(old(State()), tabId, (t: TabState) => t.(git := EMPTY_GIT))
    {
      if tabId in tabs {
        tabs := tabs[tabId := tabs[tabId].(git := EMPTY_GIT)];
      }
    }

    function GetActiveTab(): (r: Option<TabState>)
      reads this
      ensures r == ActiveTab(State())
    {
      if Truthy(activeTabId) && activeTabId.value in tabs then Some(tabs[activeTabId.value]) else None
    }

    function GetTab(tabId: string): (r: Option<TabState>)
      reads this
      ensures r.Some? <==> tabId in tabs
      ensures r.Some? ==> r.value == tabs[tabId]
    {
      if tabId in tabs then Some(tabs[tabId]) else None
    }

    /** What the persistence layer writes. */
    function Persisted(): (r: Saved)
      reads this
      ensures r == Partialize(State())
    {
      Saved(Some(map id | id in tabs :: SaveTab(tabs[id])), Some(tabOrder), activeTabId)
    }

    /** The rehydrating `merge`, looping over the saved entries as the source does. */
    method Rehydrate(saved: Saved)
      modifies this
      ensures State() == Rehydrated(saved)
    {
      var storedTabs := saved.tabs.GetOr(map[]);
      var nextTabs: map<string, TabState> := map[];
      var todo := storedTabs.Keys;
      while todo != {}
        invariant todo <= storedTabs.Keys
        invariant nextTabs == map id | id in storedTabs && id !in todo :: RestoreTab(id, storedTabs[id])
        decreases |todo|
      {
        var id :| id in todo;
        RestoreOne(storedTabs, todo, id, nextTabs);
        nextTabs := nextTabs[id := RestoreTab(id, storedTabs[id])];
        todo := todo - {id};
      }
      RestoreAll(saved, storedTabs, nextTabs);
      var nextOrder := KeepOpen(saved.tabOrder.GetOr([]), nextTabs.Keys);
      var nextActive := if Truthy(saved.activeTabId) && saved.activeTabId.value in nextTabs then saved.activeTabId
                        else At(nextOrder, 0);
      tabs, tabOrder, activeTabId := nextTabs, nextOrder, nextActive;
    }
  }
}
