/**
 * `parseBranchInUseError` of src/components/BranchInUseModal.tsx: git's refusal to check out a
 * branch that another worktree holds names the branch and that worktree's path, and the modal
 * reads both back with the pattern `fatal: '([^']+)' is already used by worktree at '([^']+)'`.
 */
module BranchInUse {
  import opened Wrappers
  import opened Strings

  const HEAD := "fatal: '"
  const MIDDLE := "' is already used by worktree at '"

  predicate QuoteFree(s: string) {
    forall t :: 0 <= t < |s| ==> s[t] != '\''
  }

  /** The message git prints for branch `b` held by the worktree at `p`. */
  function Message(b: string, p: string): string {
    Framed(HEAD, b, MIDDLE, p)
  }

  /** The shape of the pattern: an opening text, a group, a middle text, a group and a quote. */
  function Framed(h: string, b: string, mid: string, p: string): string {
    h + b + mid + p + "'"
  }

  /** `[^']+` taken greedily: the length of the quote-free run that starts at `k`. */
  function Run(s: string, k: nat): (n: nat)
    requires k <= |s|
    ensures k + n <= |s| && forall t :: k <= t < k + n ==> s[t] != '\''
    ensures k + n == |s| || s[k + n] == '\''
    decreases |s| - k
  {
    if k == |s| || s[k] == '\'' then 0 else 1 + Run(s, k + 1)
  }

  lemma RunQuoteFree(s: string, k: nat)
    requires k <= |s|
    ensures QuoteFree(s[k..k + Run(s, k)])
  {
    var w := s[k..k + Run(s, k)];
    forall t | 0 <= t < |w| ensures w[t] != '\'' {
      assert w[t] == s[k + t];
    }
  }

  /**
   * A pattern of that shape tried at position `i`. A class with no quote in it can stop only
   * before a quote or at the end, so each group is the whole quote-free run; the match needs it
   * non-empty and followed by the rest of the pattern.
   */
  function MatchFramed(s: string, i: nat, h: string, mid: string): Option<(string, string)> {
    if !OccursAt(s, h, i) then None
    else
      var k := i + |h|;
      var n := Run(s, k);
      if n == 0 || !OccursAt(s, mid, k + n) then None
      else
        var m := k + n + |mid|;
        var q := Run(s, m);
        if q == 0 || m + q == |s| then None
        else Some((s[k..k + n], s[m..m + q]))
  }

  /** The pattern of the modal tried at position `i`. */
  function MatchAt(s: string, i: nat): Option<(string, string)> {
    MatchFramed(s, i, HEAD, MIDDLE)
  }

  /** The leftmost position at or after `i` where the pattern matches. */
  function FirstMatch(s: string, i: nat): (r: Option<nat>)
    ensures r.Some? ==> i <= r.value && MatchAt(s, r.value).Some?
    ensures r.Some? ==> forall j :: i <= j < r.value ==> MatchAt(s, j).None?
    ensures r.None? ==> forall j :: i <= j ==> MatchAt(s, j).None?
    decreases |s| - i
  {
    if i + |HEAD| > |s| then None
    else if MatchAt(s, i).Some? then Some(i)
    else FirstMatch(s, i + 1)
  }

  /** `parseBranchInUseError`: the two groups of the leftmost match, or nothing. */
  function ParseBranchInUseError(error: string): (r: Option<(string, string)>)
    ensures r.None? <==> forall j :: 0 <= j <= |error| ==> MatchAt(error, j).None?
    ensures r.Some? ==> exists i :: 0 <= i <= |error| && MatchAt(error, i) == r
                                  && forall j :: 0 <= j < i ==> MatchAt(error, j).None?
  {
    match FirstMatch(error, 0)
    case None => None
    case Some(i) => MatchAt(error, i)
  }

  /** A quote-free `w` followed by a quote at `k` is exactly the run there. */
  lemma RunOf(s: string, k: nat, w: string)
    requires k + |w| < |s| && s[k..k + |w|] == w && s[k + |w|] == '\'' && QuoteFree(w)
    ensures Run(s, k) == |w|
  {
    assert forall t :: k <= t < k + |w| ==> s[t] == w[t - k];
  }

  /** The slice `s[a..c]` is `s[a..b]` followed by `s[b..c]`. */
  lemma SliceSplit(s: string, a: nat, b: nat, c: nat)
    requires a <= b <= c <= |s|
    ensures s[a..c] == s[a..b] + s[b..c]
  {
  }

  /** Five adjacent slices holding the pieces make up the framed text. */
  lemma Assemble(s: string, i: nat, k: nat, x: nat, m: nat, y: nat, h: string, b: string, mid: string, p: string)
    requires i <= k <= x <= m <= y < |s|
    requires s[i..k] == h && s[k..x] == b && s[x..m] == mid && s[m..y] == p && s[y] == '\''
    ensures s[i..y + 1] == Framed(h, b, mid, p)
  {
    assert s[y..y + 1] == "'";
    SliceSplit(s, i, k, x);
    SliceSplit(s, i, x, m);
    SliceSplit(s, i, m, y);
    SliceSplit(s, i, y, y + 1);
  }

  /** What a match finds is the framed text of its groups, and they are non-empty and quote-free. */
  lemma MatchFramedSound(s: string, i: nat, h: string, mid: string)
    requires MatchFramed(s, i, h, mid).Some?
    ensures var (b, p) := MatchFramed(s, i, h, mid).value;
      |b| > 0 && |p| > 0 && QuoteFree(b) && QuoteFree(p) && OccursAt(s, Framed(h, b, mid, p), i)
  {
    var k := i + |h|;
    var n := Run(s, k);
    var m := k + n + |mid|;
    var q := Run(s, m);
    assert MatchFramed(s, i, h, mid).value == (s[k..k + n], s[m..m + q]) && s[m + q] == '\'';
    RunQuoteFree(s, k);
    RunQuoteFree(s, m);
    FramedAt(s, i, h, mid, k, n, m, q);
  }

  /** Runs between the texts of the frame, closed by a quote, make up the framed text. */
  lemma FramedAt(s: string, i: nat, h: string, mid: string, k: nat, n: nat, m: nat, q: nat)
    requires OccursAt(s, h, i) && k == i + |h| && OccursAt(s, mid, k + n) && m == k + n + |mid|
    requires m + q < |s| && s[m + q] == '\''
    ensures OccursAt(s, Framed(h, s[k..k + n], mid, s[m..m + q]), i)
  {
    Assemble(s, i, k, k + n, m, m + q, h, s[k..k + n], mid, s[m..m + q]);
  }

  /** The pieces of a framed text, where it occurs. */
  lemma Pieces(s: string, i: nat, h: string, b: string, mid: string, p: string)
    requires |mid| > 0 && OccursAt(s, Framed(h, b, mid, p), i)
    ensures var k, m := i + |h|, i + |h| + |b| + |mid|;
      OccursAt(s, h, i) && s[k..k + |b|] == b && s[k + |b|] == mid[0] && OccursAt(s, mid, k + |b|)
      && m + |p| < |s| && s[m..m + |p|] == p && s[m + |p|] == '\''
  {
    var msg := Framed(h, b, mid, p);
    var x, y := |h| + |b|, |h| + |b| + |mid|;
    FramedPieces(h, b, mid, p);
    InnerSlice(s, i, msg, 0, |h|);
    InnerSlice(s, i, msg, |h|, x);
    InnerSlice(s, i, msg, x, y);
    InnerSlice(s, i, msg, y, y + |p|);
    assert s[i + x] == msg[x];
    assert s[i + y + |p|] == msg[y + |p|];
  }

  /** A framed text with non-empty quote-free groups is matched where it stands, with those groups. */
  lemma MatchFramedComplete(s: string, i: nat, h: string, b: string, mid: string, p: string)
    requires |mid| > 0 && mid[0] == '\''
    requires |b| > 0 && |p| > 0 && QuoteFree(b) && QuoteFree(p) && OccursAt(s, Framed(h, b, mid, p), i)
    ensures MatchFramed(s, i, h, mid) == Some((b, p))
  {
    Pieces(s, i, h, b, mid, p);
    MatchPieces(s, i, h, b, mid, p);
  }

  /** The match at `i` when the pieces stand where they should. */
  lemma MatchPieces(s: string, i: nat, h: string, b: string, mid: string, p: string)
    requires |mid| > 0 && mid[0] == '\'' && |b| > 0 && |p| > 0 && QuoteFree(b) && QuoteFree(p)
    requires var k, m := i + |h|, i + |h| + |b| + |mid|;
      m + |p| < |s| && OccursAt(s, h, i) && s[k..k + |b|] == b && s[k + |b|] == mid[0] && OccursAt(s, mid, k + |b|)
      && s[m..m + |p|] == p && s[m + |p|] == '\''
    ensures MatchFramed(s, i, h, mid) == Some((b, p))
  {
    var k := i + |h|;
    var m := k + |b| + |mid|;
    RunOf(s, k, b);
    RunOf(s, m, p);
    MatchFramedFound(s, i, h, mid, b, p, k, m);
  }

  /** The match at `i` when both runs are known. */
  lemma MatchFramedFound(s: string, i: nat, h: string, mid: string, b: string, p: string, k: nat, m: nat)
    requires k == i + |h| && m == k + |b| + |mid| && m + |p| < |s|
    requires OccursAt(s, h, i) && Run(s, k) == |b| > 0 && s[k..k + |b|] == b && OccursAt(s, mid, k + |b|)
    requires Run(s, m) == |p| > 0 && s[m..m + |p|] == p
    ensures MatchFramed(s, i, h, mid) == Some((b, p))
  {
  }

  /** Where the pieces of a framed text sit. */
  lemma FramedPieces(h: string, b: string, mid: string, p: string)
    ensures var msg, x, y := Framed(h, b, mid, p), |h| + |b|, |h| + |b| + |mid|;
      |msg| == y + |p| + 1 && msg[..|h|] == h && msg[|h|..x] == b && msg[x..y] == mid
      && msg[y..y + |p|] == p && msg[y + |p|] == '\''
  {
  }

  /** Inside an occurrence of `t`, the text is `t`'s. */
  lemma InnerSlice(s: string, i: nat, t: string, a: nat, c: nat)
    requires OccursAt(s, t, i) && a <= c <= |t|
    ensures s[i + a..i + c] == t[a..c]
  {
    assert s[i..i + |t|] == t;
    forall u | 0 <= u < c - a ensures s[i + a..i + c][u] == t[a..c][u] {
      assert s[i + a + u] == s[i..i + |t|][a + u];
    }
  }

  /** What a match at `i` finds is a message whose groups are non-empty and quote-free. */
  lemma MatchAtSound(s: string, i: nat)
    requires MatchAt(s, i).Some?
    ensures var (b, p) := MatchAt(s, i).value;
      |b| > 0 && |p| > 0 && QuoteFree(b) && QuoteFree(p) && OccursAt(s, Message(b, p), i)
  {
    MatchFramedSound(s, i, HEAD, MIDDLE);
  }

  /** A message with non-empty quote-free groups at `i` is matched there, with those groups. */
  lemma MatchAtComplete(s: string, i: nat, b: string, p: string)
    requires |b| > 0 && |p| > 0 && QuoteFree(b) && QuoteFree(p) && OccursAt(s, Message(b, p), i)
    ensures MatchAt(s, i) == Some((b, p))
  {
    MatchFramedComplete(s, i, HEAD, b, MIDDLE, p);
  }

  /** The two groups always come out non-empty and quote-free, from a message in the text. */
  lemma ParseSound(error: string)
    requires ParseBranchInUseError(error).Some?
    ensures var (b, p) := ParseBranchInUseError(error).value;
      |b| > 0 && |p| > 0 && QuoteFree(b) && QuoteFree(p) && Contains(error, Message(b, p))
  {
    var i := FirstMatch(error, 0).value;
    MatchAtSound(error, i);
  }

  /** Nothing comes back only when the text holds no such message anywhere. */
  lemma ParseNone(error: string, b: string, p: string, i: nat)
    requires ParseBranchInUseError(error).None?
    requires |b| > 0 && |p| > 0 && QuoteFree(b) && QuoteFree(p)
    ensures !OccursAt(error, Message(b, p), i)
  {
    if OccursAt(error, Message(b, p), i) {
      MatchAtComplete(error, i, b, p);
    }
  }

  /** A text before the message with no quote in it cannot start an earlier match. */
  lemma NoEarlierMatch(pre: string, b: string, p: string, post: string, j: nat)
    requires QuoteFree(pre) && j < |pre|
    ensures MatchAt(pre + Message(b, p) + post, j).None?
  {
    var s := pre + Message(b, p) + post;
    if j + |HEAD| <= |s| {
      assert HEAD[7] == '\'';
      if j + 7 < |pre| {
        assert s[j + 7] == pre[j + 7];
      } else {
        assert s[j + 7] == HEAD[j + 7 - |pre|];
      }
      assert s[j..j + |HEAD|][7] != HEAD[7];
    }
  }

  /** Round trip: the message git prints reads back as its branch and path. */
  lemma ParseRoundTrip(pre: string, b: string, p: string, post: string)
    requires QuoteFree(pre) && |b| > 0 && |p| > 0 && QuoteFree(b) && QuoteFree(p)
    ensures ParseBranchInUseError(pre + Message(b, p) + post) == Some((b, p))
  {
    var s := pre + Message(b, p) + post;
    assert s[|pre|..|pre| + |Message(b, p)|] == Message(b, p);
    MatchAtComplete(s, |pre|, b, p);
    forall j | 0 <= j < |pre| ensures MatchAt(s, j).None? {
      NoEarlierMatch(pre, b, p, post, j);
    }
  }
}
