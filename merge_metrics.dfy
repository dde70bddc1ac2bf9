/**
 * `useMergeMetrics` (src/pages/BranchesPage/hooks/useMergeMetrics.ts): the flags and labels the
 * merge panel derives from the chosen branches, their comparison and the merge preview.
 * The branch names arrive as strings that may be null (or undefined), and JavaScript tests
 * them for truthiness, so an empty name counts as missing. The ahead and behind counts are
 * numbers in the source; here they are rendered as the panel shows them.
 */
module MergeMetrics {
  import opened Wrappers
  import opened Strings
  import opened GitTypes

  datatype MetricsInput = MetricsInput(
    sourceBranch: Option<string>,
    targetBranch: Option<string>,
    currentBranch: Option<string>,
    comparison: Option<BranchComparison>,
    preview: Option<MergePreview>,
    loading: bool)

  datatype Metrics = Metrics(
    isSameBranch: bool,
    isTargetNotCurrent: bool,
    hasNoCommits: bool,
    hasConflicts: bool,
    aheadLabel: string,
    behindLabel: string,
    filesChangedLabel: string,
    insertionsLabel: string,
    deletionsLabel: string,
    conflictsLabel: string,
    mergeDisabled: bool)

  const NO_DATA := "-"
  const NO_CONFLICTS := "Nenhum"

  /** A branch name JavaScript treats as given: present and non-empty. */
  predicate Given(s: Option<string>) {
    s.Some? && s.value != ""
  }

  /** A count, or the dash shown while there is nothing to count. */
  function CountLabel(n: Option<nat>): (r: string)
    ensures n.None? ==> r == NO_DATA
    ensures n.Some? ==> AllDigits(r) && r != ""
  {
    match n
    case None => NO_DATA
    case Some(k) => NatToString(k)
  }

  /** The metrics of one render. */
  function MetricsOf(m: MetricsInput): (r: Metrics)
    ensures r.isSameBranch <==> Given(m.sourceBranch) && Given(m.targetBranch) && m.sourceBranch == m.targetBranch
    ensures r.isTargetNotCurrent <==> Given(m.targetBranch) && Given(m.currentBranch) && m.targetBranch != m.currentBranch
    ensures r.hasNoCommits <==> Ready(m) && m.comparison.Some? && m.comparison.value.ahead == 0
    ensures r.hasConflicts <==> m.preview.Some? && |m.preview.value.conflicts| > 0
    ensures r.mergeDisabled <==> !Ready(m) || m.loading || r.hasNoCommits
  {
    var isSameBranch := Given(m.sourceBranch) && Given(m.targetBranch) && m.sourceBranch == m.targetBranch;
    var isMergeReady := Given(m.sourceBranch) && Given(m.targetBranch) && !isSameBranch;
    var isTargetNotCurrent := Given(m.targetBranch) && Given(m.currentBranch) && m.targetBranch != m.currentBranch;
    var hasNoCommits := isMergeReady && m.comparison.Some? && m.comparison.value.ahead == 0;
    var hasConflicts := m.preview.Some? && |m.preview.value.conflicts| > 0;
    Metrics(
      isSameBranch,
      isTargetNotCurrent,
      hasNoCommits,
      hasConflicts,
      CountLabel(if m.comparison.Some? then Some(m.comparison.value.ahead) else None),
      CountLabel(if m.comparison.Some? then Some(m.comparison.value.behind) else None),
      CountLabel(if m.preview.Some? then Some(m.preview.value.filesChanged) else None),
      CountLabel(if m.preview.Some? then Some(m.preview.value.insertions) else None),
      CountLabel(if m.preview.Some? then Some(m.preview.value.deletions) else None),
      if m.preview.None? then NO_DATA
      else if |m.preview.value.conflicts| > 0 then NatToString(|m.preview.value.conflicts|)
      else NO_CONFLICTS,
      !isMergeReady || m.loading || hasNoCommits)
  }

  /** `isMergeReady`: two given branches that differ. */
  predicate Ready(m: MetricsInput) {
    Given(m.sourceBranch) && Given(m.targetBranch) && m.sourceBranch != m.targetBranch
  }

  /** Merging is refused for the same branch twice, or while a branch is missing. */
  lemma DisabledWithoutTwoBranches(m: MetricsInput)
    requires !Given(m.sourceBranch) || !Given(m.targetBranch) || MetricsOf(m).isSameBranch
    ensures MetricsOf(m).mergeDisabled
  {
  }

  /** Merging is offered exactly for two different branches, not loading, with commits to bring. */
  lemma EnabledExactly(m: MetricsInput)
    ensures !MetricsOf(m).mergeDisabled <==>
              Ready(m) && !m.loading && !(m.comparison.Some? && m.comparison.value.ahead == 0)
  {
  }

  lemma DigitsAreNotWords(n: nat)
    ensures NatToString(n) != NO_DATA && NatToString(n) != NO_CONFLICTS
  {
    var s := NatToString(n);
    assert IsDigit(s[0]);
  }

  /**
   * The labels: a dash exactly when there is no data; with a preview, the conflicts label reads
   * "Nenhum" exactly when there are none, and otherwise counts them.
   */
  lemma LabelsMeaning(m: MetricsInput)
    ensures var r := MetricsOf(m);
            && (r.aheadLabel == NO_DATA <==> m.comparison.None?)
            && (r.behindLabel == NO_DATA <==> m.comparison.None?)
            && (r.filesChangedLabel == NO_DATA <==> m.preview.None?)
            && (r.conflictsLabel == NO_DATA <==> m.preview.None?)
            && (r.conflictsLabel == NO_CONFLICTS <==> m.preview.Some? && |m.preview.value.conflicts| == 0)
            && (m.comparison.Some? ==> r.aheadLabel == NatToString(m.comparison.value.ahead))
  {
    if m.comparison.Some? {
      DigitsAreNotWords(m.comparison.value.ahead);
      DigitsAreNotWords(m.comparison.value.behind);
    }
    if m.preview.Some? {
      DigitsAreNotWords(m.preview.value.filesChanged);
      DigitsAreNotWords(|m.preview.value.conflicts|);
    }
  }
}
