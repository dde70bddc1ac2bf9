/**
 * The git-error toasts of src/lib/gitErrors.ts: the error text is classified by the first of an
 * ordered list of case-insensitive patterns, some kinds offer an action button, and a registry
 * maps kinds to the handlers screens install. The regular expressions are the only ones the
 * list uses: phrases, and `a.*b` (`a`, then `b` later on the same line).
 */
module GitErrors {
  import opened Wrappers
  import opened Strings

  datatype ErrorId =
    | BranchInWorktree | BranchNotMerged | PushRejected | UncommittedChanges
    | NoTracking | AuthFailed | RemoteNotFound | MergeCommit | Unknown

  /** One alternative of a pattern, over the lowercased message. */
  datatype Alternative = Phrase(p: string) | Then(a: string, b: string)

  datatype ErrorPattern = ErrorPattern(id: ErrorId, alternatives: seq<Alternative>, actionLabel: Option<string>)

  /** `GIT_ERROR_PATTERNS`, in the order they are tried. */
  const GIT_ERROR_PATTERNS: seq<ErrorPattern> := [
    ErrorPattern(BranchInWorktree, [Then("cannot delete branch", "checked out at")], Some("Force delete")),
    ErrorPattern(BranchNotMerged, [Phrase("not fully merged")], Some("Force delete (-D)")),
    ErrorPattern(PushRejected, [Then("rejected", "non-fast-forward"), Phrase("remote contains work"), Phrase("fetch first")],
                 Some("Pull first")),
    ErrorPattern(UncommittedChanges, [Then("local changes", "would be overwritten"), Phrase("uncommitted changes")],
                 Some("Stash")),
    ErrorPattern(NoTracking, [Phrase("no tracking information"), Phrase("no upstream branch")], None),
    ErrorPattern(AuthFailed, [Phrase("authentication failed"), Phrase("could not read username")], None),
    ErrorPattern(RemoteNotFound, [Phrase("does not appear to be a git repository"), Phrase("could not resolve host")], None),
    ErrorPattern(MergeCommit, [Phrase("is a merge"), Phrase("-m option")], None)
  ]

  /** A line terminator, which `.` does not match. */
  predicate IsBreak(c: char) { c == '\n' || c == '\r' || c == '\U{2028}' || c == '\U{2029}' }

  predicate NoBreak(s: string) {
    forall i :: 0 <= i < |s| ==> !IsBreak(s[i])
  }

  /** `a.*b`: an `a`, then a `b` that starts after it, with no line break between them. */
  predicate FollowsOnLine(s: string, a: string, b: string) {
    exists i, j :: 0 <= i <= |s| && i + |a| <= j <= |s| && OccursAt(s, a, i) && OccursAt(s, b, j) && NoBreak(s[i + |a|..j])
  }

  /** A match ignores letter case: it is tested on the lowercased message. */
  predicate AlternativeMatches(alt: Alternative, message: string) {
    var s := ToLower(message);
    match alt
    case Phrase(p) => Contains(s, p)
    case Then(a, b) => FollowsOnLine(s, a, b)
  }

  /** `pattern.test(message)`: some alternative of the pattern matches. */
  predicate PatternMatches(p: ErrorPattern, message: string) {
    exists k :: 0 <= k < |p.alternatives| && AlternativeMatches(p.alternatives[k], message)
  }

  /** The kind of the first pattern of `ps` that matches the message, or `Unknown`. */
  function FirstMatch(ps: seq<ErrorPattern>, message: string): (r: ErrorId)
    ensures (forall k :: 0 <= k < |ps| ==> !PatternMatches(ps[k], message)) ==> r == Unknown
    ensures (exists k :: 0 <= k < |ps| && PatternMatches(ps[k], message)) ==>
      exists k :: 0 <= k < |ps| && ps[k].id == r && PatternMatches(ps[k], message)
                  && forall j :: 0 <= j < k ==> !PatternMatches(ps[j], message)
    decreases |ps|
  {
    if ps == [] then Unknown
    else if PatternMatches(ps[0], message) then ps[0].id
    else
      var r := FirstMatch(ps[1..], message);
      assert forall k :: 1 <= k < |ps| ==> ps[k] == ps[1..][k - 1];
      r
  }

  lemma FirstMatchStep(ps: seq<ErrorPattern>, i: nat, message: string)
    requires i < |ps|
    ensures FirstMatch(ps[i..], message)
         == if PatternMatches(ps[i], message) then ps[i].id else FirstMatch(ps[i + 1..], message)
  {
    assert ps[i..][0] == ps[i];
    assert ps[i..][1..] == ps[i + 1..];
  }

  /** The kind `detectErrorType` gives a message. */
  function DetectedKind(message: string): ErrorId {
    FirstMatch(GIT_ERROR_PATTERNS, message)
  }

  /** `detectErrorType`: the kind of the first pattern that matches, or `Unknown`. */
  method DetectErrorType(message: string) returns (id: ErrorId)
    ensures id == DetectedKind(message)
    ensures id == Unknown <==> forall k :: 0 <= k < |GIT_ERROR_PATTERNS| ==> !PatternMatches(GIT_ERROR_PATTERNS[k], message)
    ensures id != Unknown ==>
      exists k :: 0 <= k < |GIT_ERROR_PATTERNS| && GIT_ERROR_PATTERNS[k].id == id && PatternMatches(GIT_ERROR_PATTERNS[k], message)
                  && forall j :: 0 <= j < k ==> !PatternMatches(GIT_ERROR_PATTERNS[j], message)
  {
    PatternIdsDistinct();
    var i := 0;
    while i < |GIT_ERROR_PATTERNS|
      invariant 0 <= i <= |GIT_ERROR_PATTERNS|
      invariant forall j :: 0 <= j < i ==> !PatternMatches(GIT_ERROR_PATTERNS[j], message)
      invariant FirstMatch(GIT_ERROR_PATTERNS[i..], message) == DetectedKind(message)
    {
      if PatternMatches(GIT_ERROR_PATTERNS[i], message) {
        FirstMatchStep(GIT_ERROR_PATTERNS, i, message);
        return GIT_ERROR_PATTERNS[i].id;
      }
      FirstMatchStep(GIT_ERROR_PATTERNS, i, message);
      i := i + 1;
    }
    return Unknown;
  }

  /** Letter case never changes which patterns match, so it never changes the kind. */
  lemma MatchesCaseBlind(p: ErrorPattern, a: string, b: string)
    requires ToLower(a) == ToLower(b)
    ensures PatternMatches(p, a) <==> PatternMatches(p, b)
  {
    assert forall k :: 0 <= k < |p.alternatives| ==> (AlternativeMatches(p.alternatives[k], a) <==> AlternativeMatches(p.alternatives[k], b));
  }

  /** Two phrases with text between them that stays on one line match `a.*b`. */
  lemma FollowsOnLineSpan(a: string, m: string, b: string, pre: string, post: string)
    requires NoBreak(m)
    ensures FollowsOnLine(pre + a + m + b + post, a, b)
  {
    var s := pre + a + m + b + post;
    var i, j := |pre|, |pre| + |a| + |m|;
    assert s[i..i + |a|] == a;
    assert s[j..j + |b|] == b;
    assert s[i + |a|..j] == m;
    assert OccursAt(s, a, i) && OccursAt(s, b, j) && NoBreak(s[i + |a|..j]);
  }

  /** No kind is tried twice: the kinds of the list are distinct and none of them is `Unknown`. */
  lemma PatternIdsDistinct()
    ensures forall j, k :: 0 <= j < k < |GIT_ERROR_PATTERNS| ==> GIT_ERROR_PATTERNS[j].id != GIT_ERROR_PATTERNS[k].id
    ensures forall k :: 0 <= k < |GIT_ERROR_PATTERNS| ==> GIT_ERROR_PATTERNS[k].id != Unknown
  {
  }

  /** `getActionLabel`: the label of the first pattern of that kind, if it has one. */
  function ActionLabel(id: ErrorId): (r: Option<string>)
    ensures r.Some? <==> id in {BranchInWorktree, BranchNotMerged, PushRejected, UncommittedChanges}
    ensures id == BranchInWorktree ==> r == Some("Force delete")
    ensures id == PushRejected ==> r == Some("Pull first")
  {
    LabelsOfPatterns(id);
    FindLabel(GIT_ERROR_PATTERNS, id)
  }

  /** The labels the list gives, kind by kind. */
  lemma LabelsOfPatterns(id: ErrorId)
    ensures FindLabel(GIT_ERROR_PATTERNS, id) ==
              match id
              case BranchInWorktree => Some("Force delete")
              case BranchNotMerged => Some("Force delete (-D)")
              case PushRejected => Some("Pull first")
              case UncommittedChanges => Some("Stash")
              case _ => None
  {
    var ps := GIT_ERROR_PATTERNS;
    match id
    case BranchInWorktree => FindLabelAt(ps, id, 0);
    case BranchNotMerged => FindLabelAt(ps, id, 1);
    case PushRejected => FindLabelAt(ps, id, 2);
    case UncommittedChanges => FindLabelAt(ps, id, 3);
    case NoTracking => FindLabelAt(ps, id, 4);
    case AuthFailed => FindLabelAt(ps, id, 5);
    case RemoteNotFound => FindLabelAt(ps, id, 6);
    case MergeCommit => FindLabelAt(ps, id, 7);
    case Unknown =>
  }

  /** The `find` stops at the first pattern of the kind. */
  lemma {:induction false} FindLabelAt(ps: seq<ErrorPattern>, id: ErrorId, k: nat)
    requires k < |ps| && ps[k].id == id
    requires forall j :: 0 <= j < k ==> ps[j].id != id
    ensures FindLabel(ps, id) == ps[k].actionLabel
    decreases k
  {
    if k > 0 {
      FindLabelAt(ps[1..], id, k - 1);
    }
  }

  /** The `find` over the list, followed by `?.actionLabel`. */
  function FindLabel(ps: seq<ErrorPattern>, id: ErrorId): (r: Option<string>)
    ensures r.Some? ==> exists k :: 0 <= k < |ps| && ps[k].id == id && ps[k].actionLabel == r
    ensures (forall k :: 0 <= k < |ps| ==> ps[k].id != id) ==> r.None?
    decreases |ps|
  {
    if ps == [] then None
    else if ps[0].id == id then ps[0].actionLabel
    else FindLabel(ps[1..], id)
  }

  // ---------------------------------------------------------------- messages

  /** A property of a thrown object: missing, a string, or something else. */
  datatype Field = Missing | Text(s: string) | NotText

  /**
   * What can be thrown, as far as `getErrorMessage` looks at it: a string, an `Error`, another
   * object with its `message` and `stderr` properties and its `String(...)` form, or anything else
   * with its `String(...)` form.
   */
  datatype Thrown = Str(s: string) | ErrorObject(message: string) | Object(messageProp: Field, stderrProp: Field, shown: string)
                  | Other(shown: string)

  /** `getErrorMessage`. */
  function GetErrorMessage(e: Thrown): (r: string)
    ensures e.Str? ==> r == e.s
    ensures e.ErrorObject? ==> r == e.message
    ensures e.Object? && e.messageProp.Text? ==> r == e.messageProp.s
    ensures e.Object? && !e.messageProp.Text? && e.stderrProp.Text? ==> r == e.stderrProp.s
    ensures e.Object? && !e.messageProp.Text? && !e.stderrProp.Text? ==> r == e.shown
    ensures e.Other? ==> r == e.shown
  {
    match e
    case Str(s) => s
    case ErrorObject(m) => m
    case Object(m, err, shown) => if m.Text? then m.s else if err.Text? then err.s else shown
    case Other(shown) => shown
  }

  /** A handler, by identity: what the page hands in or registers. */
  type Handler = nat

  /** The toast `handleGitError` shows: the message, how long, and the button if there is one. */
  datatype Toast = Toast(message: string, duration: nat, action: Option<(string, Handler)>)

  /** The registry of action handlers, one per kind. */
  class ErrorActions {
    var handlers: map<ErrorId, Handler>

    constructor()
      ensures handlers == map[]
    {
      handlers := map[];
    }

    /** `registerErrorAction`: the handler for that kind, replacing any earlier one. */
    method Register(id: ErrorId, h: Handler)
      modifies this
      ensures handlers == old(handlers)[id := h]
    {
      handlers := handlers[id := h];
    }

    /**
     * The cleanup `registerErrorAction` returns: it removes whatever handler the kind has then,
     * even one registered after it.
     */
    method Unregister(id: ErrorId)
      modifies this
      ensures handlers == old(handlers) - {id}
    {
      handlers := handlers - {id};
    }

    /** `clearErrorActions`. */
    method Clear()
      modifies this
      ensures handlers == map[]
    {
      handlers := map[];
    }
  }

  /** Register, then clean up: the kind has no handler, and every other kind keeps its own. */
  lemma RegisterThenCleanup(m: map<ErrorId, Handler>, id: ErrorId, h: Handler)
    ensures id !in m[id := h] - {id}
    ensures forall k :: k != id ==> (k in m[id := h] - {id} <==> k in m)
    ensures forall k :: k != id && k in m ==> (m[id := h] - {id})[k] == m[k]
  {
  }

  /**
   * `handleGitError`: the kind is the one `detectErrorType` finds in the message; the page's own
   * handler wins over a registered one, and the button appears only for a kind with a label and
   * some handler.
   */
  function HandleGitError(e: Thrown, onAction: Option<Handler>, handlers: map<ErrorId, Handler>): (t: Toast)
    ensures t.message == GetErrorMessage(e)
    ensures var id := DetectedKind(GetErrorMessage(e));
            t.action.Some? <==> ActionLabel(id).Some? && (onAction.Some? || id in handlers)
    ensures var id := DetectedKind(GetErrorMessage(e));
            t.action.Some? ==> t.action.value.0 == ActionLabel(id).value && t.duration == 8000
    ensures t.action.Some? && onAction.Some? ==> t.action.value.1 == onAction.value
    ensures t.action.Some? && onAction.None? ==> t.action.value.1 == handlers[DetectedKind(GetErrorMessage(e))]
    ensures t.action.None? ==> t.duration == 5000
    ensures DetectedKind(GetErrorMessage(e)) == Unknown ==> t == Toast(GetErrorMessage(e), 5000, None)
  {
    var message := GetErrorMessage(e);
    var id := DetectedKind(message);
    var handler := if onAction.Some? then onAction else if id in handlers then Some(handlers[id]) else None;
    if ActionLabel(id).Some? && handler.Some? then Toast(message, 8000, Some((ActionLabel(id).value, handler.value)))
    else Toast(message, 5000, None)
  }
}
