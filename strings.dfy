/**
 * The string primitives the backend (Rust `str`) and the front end (JavaScript `String`)
 * rely on, restricted to ASCII text. Each one is written to behave as the library routine
 * it stands for; the lemmas at the end are the facts the rest of the model builds on.
 */
module Strings {
  import opened Wrappers

  // ---------------------------------------------------------------- characters

  /** The ASCII members of Unicode's White_Space set, used by Rust's `trim` and JS `trim`. */
  predicate IsWhitespace(c: char) {
    c == ' ' || c == '\t' || c == '\n' || c == '\r' || c == '\U{0B}' || c == '\U{0C}'
  }

  predicate IsDigit(c: char) { '0' <= c <= '9' }

  predicate IsAsciiAlphanumeric(c: char) {
    IsDigit(c) || 'a' <= c <= 'z' || 'A' <= c <= 'Z'
  }

  function LowerChar(c: char): char {
    if 'A' <= c <= 'Z' then (c as int + 32) as char else c
  }

  function UpperChar(c: char): char {
    if 'a' <= c <= 'z' then (c as int - 32) as char else c
  }

  /** ASCII `to_lowercase` / `toLowerCase`. */
  function ToLower(s: string): (r: string)
    ensures |r| == |s|
    ensures forall i :: 0 <= i < |s| ==> r[i] == LowerChar(s[i])
  {
    seq(|s|, i requires 0 <= i < |s| => LowerChar(s[i]))
  }

  /** ASCII `toUpperCase`. */
  function ToUpper(s: string): (r: string)
    ensures |r| == |s|
    ensures forall i :: 0 <= i < |s| ==> r[i] == UpperChar(s[i])
  {
    seq(|s|, i requires 0 <= i < |s| => UpperChar(s[i]))
  }

  // ---------------------------------------------------------------- searching

  /** `s.starts_with(p)` / `s.startsWith(p)`. */
  predicate StartsWith(s: string, p: string) { p <= s }

  predicate EndsWith(s: string, p: string) {
    |p| <= |s| && s[|s| - |p|..] == p
  }

  /** `t` occurs in `s` starting at position `j`. */
  predicate OccursAt(s: string, t: string, j: int) {
    0 <= j && j + |t| <= |s| && s[j..j + |t|] == t
  }

  /** `s.contains(t)` / `s.includes(t)`. */
  predicate Contains(s: string, t: string) {
    exists j :: 0 <= j <= |s| && OccursAt(s, t, j)
  }

  /** The first occurrence of `t` in `s` at or after position `k`. */
  function IndexFrom(s: string, t: string, k: nat): (r: Option<nat>)
    ensures r.Some? ==> k <= r.value && OccursAt(s, t, r.value)
    ensures r.Some? ==> forall j :: k <= j < r.value ==> !OccursAt(s, t, j)
    ensures r.None? ==> forall j :: k <= j ==> !OccursAt(s, t, j)
    decreases |s| - k
  {
    if k + |t| > |s| then None
    else if OccursAt(s, t, k) then Some(k)
    else IndexFrom(s, t, k + 1)
  }

  /** `s.find(t)` / `s.indexOf(t)`: the first occurrence of `t`. */
  function IndexOf(s: string, t: string): (r: Option<nat>)
    ensures r.None? <==> !Contains(s, t)
    ensures r.Some? ==> OccursAt(s, t, r.value)
    ensures r.Some? ==> forall j :: 0 <= j < r.value ==> !OccursAt(s, t, j)
  {
    IndexFrom(s, t, 0)
  }

  // ---------------------------------------------------------------- splitting and joining

  /** `s.split(sep)` for a non-empty separator, in Rust and in JavaScript alike. */
  function Split(s: string, sep: string): (r: seq<string>)
    requires |sep| > 0
    ensures |r| >= 1
    decreases |s|
  {
    match IndexOf(s, sep)
    case None => [s]
    case Some(i) => [s[..i]] + Split(s[i + |sep|..], sep)
  }

  /** `parts.join(sep)`. */
  function Join(parts: seq<string>, sep: string): string
    decreases |parts|
  {
    if |parts| == 0 then ""
    else if |parts| == 1 then parts[0]
    else parts[0] + sep + Join(parts[1..], sep)
  }

  /** Removes one `\r` at the end of a line, as `str::lines` does before a `\n`. */
  function StripCR(l: string): string {
    if |l| > 0 && l[|l| - 1] == '\r' then l[..|l| - 1] else l
  }

  /**
   * Rust's `str::lines`: pieces ended by `\n` (a `\r` right before that `\n` is dropped too);
   * no empty piece after a final `\n`, and none at all for the empty string.
   */
  function Lines(s: string): seq<string>
    decreases |s|
  {
    match IndexOf(s, "\n")
    case None => if s == [] then [] else [s]
    case Some(i) => [StripCR(s[..i])] + Lines(s[i + 1..])
  }

  /** Each line followed by `\n`: the text that a file made of these lines holds. */
  function Unlines(ls: seq<string>): string
    decreases |ls|
  {
    if ls == [] then "" else ls[0] + "\n" + Unlines(ls[1..])
  }

  /** A line as `str::lines` can produce it: no `\n` inside and no `\r` at its end. */
  predicate IsLine(l: string) {
    '\n' !in l && (|l| > 0 ==> l[|l| - 1] != '\r')
  }

  // ---------------------------------------------------------------- trimming

  function TrimStart(s: string): string
    decreases |s|
  {
    if |s| > 0 && IsWhitespace(s[0]) then TrimStart(s[1..]) else s
  }

  function TrimEnd(s: string): string
    decreases |s|
  {
    if |s| > 0 && IsWhitespace(s[|s| - 1]) then TrimEnd(s[..|s| - 1]) else s
  }

  /** `s.trim()`. */
  function Trim(s: string): string {
    TrimEnd(TrimStart(s))
  }

  /** A string `trim` leaves as it is. */
  predicate IsTrimmed(s: string) {
    |s| > 0 ==> !IsWhitespace(s[0]) && !IsWhitespace(s[|s| - 1])
  }

  /** `s.trim_start_matches(c)` for a character: every leading `c` goes. */
  function TrimStartChar(s: string, c: char): string
    decreases |s|
  {
    if |s| > 0 && s[0] == c then TrimStartChar(s[1..], c) else s
  }

  /** `s.trim_end_matches(c)` for a character. */
  function TrimEndChar(s: string, c: char): string
    decreases |s|
  {
    if |s| > 0 && s[|s| - 1] == c then TrimEndChar(s[..|s| - 1], c) else s
  }

  /** `s.trim_start_matches(p)` for a string: the prefix `p` is removed as often as it repeats. */
  function TrimStartMatches(s: string, p: string): string
    decreases |s|
  {
    if |p| > 0 && StartsWith(s, p) then TrimStartMatches(s[|p|..], p) else s
  }

  /** `s.strip_prefix(p)`. */
  function StripPrefix(s: string, p: string): (r: Option<string>)
    ensures r.Some? <==> StartsWith(s, p)
    ensures r.Some? ==> p + r.value == s
  {
    if StartsWith(s, p) then Some(s[|p|..]) else None
  }

  // ---------------------------------------------------------------- whitespace tokens

  /** The length of the run of non-whitespace characters at the start of `s`. */
  function TokenLength(s: string): (n: nat)
    ensures n <= |s|
    decreases |s|
  {
    if |s| == 0 || IsWhitespace(s[0]) then 0 else 1 + TokenLength(s[1..])
  }

  /** `s.split_whitespace()`: the maximal runs of non-whitespace characters. */
  function SplitWhitespace(s: string): seq<string>
    decreases |s|
  {
    if |s| == 0 then []
    else if IsWhitespace(s[0]) then SplitWhitespace(s[1..])
    else
      var n := TokenLength(s);
      [s[..n]] + SplitWhitespace(s[n..])
  }

  // ---------------------------------------------------------------- numbers

  function DigitChar(d: nat): char
    requires d < 10
  {
    ('0' as int + d) as char
  }

  predicate AllDigits(s: string) {
    forall i :: 0 <= i < |s| ==> IsDigit(s[i])
  }

  /** The value of a string of decimal digits. */
  function DigitsValue(s: string): nat
    requires AllDigits(s)
    decreases |s|
  {
    if |s| == 0 then 0 else DigitsValue(s[..|s| - 1]) * 10 + (s[|s| - 1] as int - '0' as int)
  }

  /** Decimal rendering of a natural number (`n.to_string()`, `String(n)`, `{}`). */
  function NatToString(n: nat): (r: string)
    ensures |r| > 0 && AllDigits(r)
    decreases n
  {
    if n < 10 then [DigitChar(n)] else NatToString(n / 10) + [DigitChar(n % 10)]
  }

  /**
   * Rust's `str::parse` for an unsigned integer type whose values are below `bound`:
   * an optional `+`, then one or more ASCII digits; anything else, or a value that does
   * not fit, is an error.
   */
  function ParseUnsigned(t: string, bound: nat): (r: Option<nat>)
    ensures r.Some? ==> r.value < bound
  {
    var d := if |t| > 0 && t[0] == '+' then t[1..] else t;
    if |d| > 0 && AllDigits(d) && DigitsValue(d) < bound then Some(DigitsValue(d)) else None
  }

  const U32_BOUND: nat := 0x1_0000_0000
  const USIZE_BOUND: nat := 0x1_0000_0000_0000_0000

  // ---------------------------------------------------------------- replacing

  /** `s.replace(c, r)` for a single character `c`. */
  function ReplaceChar(s: string, c: char, r: string): string
    decreases |s|
  {
    if |s| == 0 then "" else (if s[0] == c then r else [s[0]]) + ReplaceChar(s[1..], c, r)
  }

  // ---------------------------------------------------------------- ordering

  /** Rust's `Ord` on `String`: lexicographic on characters, a proper prefix first. */
  predicate LexLess(a: string, b: string)
    decreases |a|
  {
    if |a| == 0 then |b| > 0
    else if |b| == 0 then false
    else if a[0] != b[0] then a[0] < b[0]
    else LexLess(a[1..], b[1..])
  }

  // ---------------------------------------------------------------- Rust's debug format

  /** Rust's `{:?}` of one string: quoted, with backslash, quote and the usual controls escaped. */
  function DebugString(s: string): string {
    "\"" + DebugChars(s) + "\""
  }

  function DebugChars(s: string): string
    decreases |s|
  {
    if s == [] then ""
    else
      var c := s[0];
      (if c == '"' then "\\\"" else if c == '\\' then "\\\\" else if c == '\n' then "\\n"
       else if c == '\r' then "\\r" else if c == '\t' then "\\t" else if c == '\0' then "\\0"
       else [c]) + DebugChars(s[1..])
  }

  function DebugStrings(xs: seq<string>): string
    decreases |xs|
  {
    if xs == [] then ""
    else if |xs| == 1 then DebugString(xs[0])
    else DebugString(xs[0]) + ", " + DebugStrings(xs[1..])
  }

  /** Rust's `{:?}` of a `Vec<String>`: `["a", "b"]`. */
  function DebugList(xs: seq<string>): string {
    "[" + DebugStrings(xs) + "]"
  }

  // ================================================================ lemmas

  lemma {:induction false} JoinSplit(s: string, sep: string)
    requires |sep| > 0
    ensures Join(Split(s, sep), sep) == s
    decreases |s|
  {
    match IndexOf(s, sep)
    case None =>
    case Some(i) =>
      var rest := s[i + |sep|..];
      var tail := Split(rest, sep);
      JoinSplit(rest, sep);
      assert Split(s, sep) == [s[..i]] + tail;
      JoinCons(s[..i], tail, sep);
      assert s == s[..i] + s[i..i + |sep|] + rest;
  }

  lemma JoinCons(a: string, xs: seq<string>, sep: string)
    requires |xs| >= 1
    ensures Join([a] + xs, sep) == a + sep + Join(xs, sep)
  {
    assert ([a] + xs)[1..] == xs;
  }

  /** The first occurrence of a character, given where it is and that it is not earlier. */
  lemma IndexOfChar(s: string, c: char, k: nat)
    requires k < |s| && s[k] == c
    requires forall j :: 0 <= j < k ==> s[j] != c
    ensures IndexOf(s, [c]) == Some(k)
  {
    assert s[k..k + 1] == [c];
    assert OccursAt(s, [c], k);
    assert Contains(s, [c]);
    forall j | 0 <= j < k ensures !OccursAt(s, [c], j) {
      assert s[j..j + 1][0] == s[j];
    }
  }

  /** The split piece around a separator that does not occur in the piece before. */
  lemma SplitFirst(pre: string, sep: char, post: string)
    requires sep !in pre
    ensures Split(pre + [sep] + post, [sep]) == [pre] + Split(post, [sep])
  {
    var s := pre + [sep] + post;
    forall j | 0 <= j < |pre| ensures s[j] != sep {
      assert s[j] == pre[j];
    }
    IndexOfChar(s, sep, |pre|);
    assert s[..|pre|] == pre;
    assert s[|pre| + 1..] == post;
  }

  lemma SplitNoSep(s: string, sep: char)
    requires sep !in s
    ensures Split(s, [sep]) == [s]
  {
    forall j | 0 <= j <= |s| ensures !OccursAt(s, [sep], j) {
      if j < |s| {
        assert s[j] in s;
      }
    }
  }

  /**
   * Splitting at a separator whose first occurrence is the one right after `pre`: no
   * occurrence starts inside `pre`, not even one running into the separator itself.
   */
  lemma SplitHead(pre: string, sep: string, post: string)
    requires |sep| > 0 && !Contains(pre + sep[..|sep| - 1], sep)
    ensures Split(pre + sep + post, sep) == [pre] + Split(post, sep)
  {
    var s := pre + sep + post;
    var z := pre + sep[..|sep| - 1];
    assert s[|pre|..|pre| + |sep|] == sep;
    assert OccursAt(s, sep, |pre|);
    forall j | 0 <= j < |pre| ensures !OccursAt(s, sep, j) {
      if OccursAt(s, sep, j) {
        assert j + |sep| <= |z|;
        assert z[j..j + |sep|] == s[j..j + |sep|];
        assert OccursAt(z, sep, j);
        assert false;
      }
    }
    assert IndexOf(s, sep) == Some(|pre|);
    assert s[..|pre|] == pre;
    assert s[|pre| + |sep|..] == post;
  }

  /** No occurrence can start in front of a separator whose first character is absent. */
  lemma FirstCharAbsent(pre: string, sep: string)
    requires |sep| > 0 && sep[0] !in pre
    ensures !Contains(pre + sep[..|sep| - 1], sep)
  {
    var z := pre + sep[..|sep| - 1];
    forall j | 0 <= j <= |z| ensures !OccursAt(z, sep, j) {
      if j < |pre| {
        assert z[j] == pre[j];
        assert z[j] != sep[0];
      }
    }
  }

  lemma SplitLone(s: string, sep: string)
    requires |sep| > 0 && !Contains(s, sep)
    ensures Split(s, sep) == [s]
  {
  }

  /** A separator whose first character occurs on neither side splits the text in two. */
  lemma SplitOnce(pre: string, sep: string, post: string)
    requires |sep| > 0 && sep[0] !in pre && sep[0] !in post
    ensures Split(pre + sep + post, sep) == [pre, post]
  {
    FirstCharAbsent(pre, sep);
    SplitHead(pre, sep, post);
    NoCharNoContains(post, sep);
    SplitLone(post, sep);
  }

  lemma NoCharNoContains(s: string, t: string)
    requires |t| > 0 && t[0] !in s
    ensures !Contains(s, t)
  {
    forall j | 0 <= j <= |s| ensures !OccursAt(s, t, j) {
      if j < |s| {
        assert s[j] in s;
      }
    }
  }

  /** The first piece of a split is a prefix, ended by the first occurrence when there is one. */
  lemma SplitFirstPiece(s: string, sep: string)
    requires |sep| > 0
    ensures Split(s, sep)[0] <= s
    ensures Split(s, sep)[0] == s <==> !Contains(s, sep)
    ensures Contains(s, sep) ==> OccursAt(s, sep, |Split(s, sep)[0]|)
    ensures forall j :: 0 <= j < |Split(s, sep)[0]| ==> !OccursAt(s, sep, j)
  {
    match IndexOf(s, sep)
    case None =>
    case Some(i) =>
      assert Split(s, sep)[0] == s[..i];
      assert |s[..i]| < |s|;
  }

  /** `parse` fails on text with a non-digit after its first character. */
  lemma ParseNonDigit(s: string, i: nat, bound: nat)
    requires 0 < i < |s| && !IsDigit(s[i])
    ensures ParseUnsigned(s, bound) == None
  {
    var d := if |s| > 0 && s[0] == '+' then s[1..] else s;
    if s[0] == '+' {
      assert d[i - 1] == s[i];
    } else {
      assert d[i] == s[i];
    }
  }

  lemma LinesFirst(pre: string, post: string)
    requires '\n' !in pre
    ensures Lines(pre + "\n" + post) == [StripCR(pre)] + Lines(post)
  {
    var s := pre + "\n" + post;
    forall j | 0 <= j < |pre| ensures s[j] != '\n' {
      assert s[j] == pre[j];
    }
    IndexOfChar(s, '\n', |pre|);
    assert s[..|pre|] == pre;
    assert s[|pre| + 1..] == post;
  }

  /** A file of well-formed lines, each ended by `\n`, reads back as exactly those lines. */
  lemma {:induction false} LinesUnlines(ls: seq<string>)
    requires forall k :: 0 <= k < |ls| ==> IsLine(ls[k])
    ensures Lines(Unlines(ls)) == ls
    decreases |ls|
  {
    if ls != [] {
      LinesUnlines(ls[1..]);
      LinesFirst(ls[0], Unlines(ls[1..]));
      assert StripCR(ls[0]) == ls[0];
    }
  }

  /** Each line followed by `\r\n`: the same lines as a Windows file holds them. */
  function UnlinesCrlf(ls: seq<string>): string
    decreases |ls|
  {
    if ls == [] then "" else ls[0] + "\r\n" + UnlinesCrlf(ls[1..])
  }

  /** `str::lines` drops the `\r` of each `\r\n`: a Windows file reads as the same lines. */
  lemma {:induction false} LinesUnlinesCrlf(ls: seq<string>)
    requires forall k :: 0 <= k < |ls| ==> IsLine(ls[k])
    ensures Lines(UnlinesCrlf(ls)) == ls
    decreases |ls|
  {
    if ls != [] {
      LinesUnlinesCrlf(ls[1..]);
      CrlfLine(ls[0], UnlinesCrlf(ls[1..]));
      LinesFirst(ls[0] + "\r", UnlinesCrlf(ls[1..]));
    }
  }

  lemma CrlfLine(a: string, rest: string)
    requires IsLine(a)
    ensures a + "\r\n" + rest == (a + "\r") + "\n" + rest
    ensures '\n' !in a + "\r" && StripCR(a + "\r") == a
  {
    assert (a + "\r")[..|a|] == a;
  }

  lemma LineThenRest(a: string, rest: string, l: string)
    ensures a + "\n" + rest + l == a + "\n" + (rest + l)
  {
  }

  lemma ConsTail<T>(xs: seq<T>, tail: seq<T>)
    requires xs != []
    ensures [xs[0]] + (xs[1..] + tail) == xs + tail
  {
    assert xs == [xs[0]] + xs[1..];
  }

  /** A last line without its `\n` is still a line; an empty one adds nothing. */
  lemma {:induction false} LinesWithoutFinalBreak(ls: seq<string>, l: string)
    requires forall k :: 0 <= k < |ls| ==> IsLine(ls[k])
    requires '\n' !in l
    ensures Lines(Unlines(ls) + l) == ls + (if l == "" then [] else [l])
    decreases |ls|
  {
    if ls == [] {
      assert Unlines(ls) + l == l;
      NoCharNoContains(l, "\n");
    } else {
      var tail := if l == "" then [] else [l];
      assert forall k :: 0 <= k < |ls[1..]| ==> ls[1..][k] == ls[k + 1];
      LinesWithoutFinalBreak(ls[1..], l);
      LineThenRest(ls[0], Unlines(ls[1..]), l);
      assert IsLine(ls[0]);
      LinesFirst(ls[0], Unlines(ls[1..]) + l);
      assert StripCR(ls[0]) == ls[0];
      ConsTail(ls, tail);
    }
  }

  /** Splitting that same text on `\n` (JavaScript `split('\n')`) adds one empty piece. */
  lemma {:induction false} SplitUnlines(ls: seq<string>)
    requires forall k :: 0 <= k < |ls| ==> '\n' !in ls[k]
    ensures Split(Unlines(ls), "\n") == ls + [""]
    decreases |ls|
  {
    if ls == [] {
      SplitNoSep("", '\n');
    } else {
      var rest := Unlines(ls[1..]);
      assert forall k :: 0 <= k < |ls[1..]| ==> ls[1..][k] == ls[k + 1];
      SplitUnlines(ls[1..]);
      assert Unlines(ls) == ls[0] + ['\n'] + rest;
      SplitFirst(ls[0], '\n', rest);
      assert [ls[0]] + (ls[1..] + [""]) == ls + [""];
    }
  }

  lemma {:induction false} UnlinesAppend(a: seq<string>, b: seq<string>)
    ensures Unlines(a + b) == Unlines(a) + Unlines(b)
    decreases |a|
  {
    if a != [] {
      UnlinesAppend(a[1..], b);
      assert (a + b)[1..] == a[1..] + b;
      calc {
        Unlines(a + b);
        a[0] + "\n" + Unlines(a[1..] + b);
        a[0] + "\n" + (Unlines(a[1..]) + Unlines(b));
        (a[0] + "\n" + Unlines(a[1..])) + Unlines(b);
      }
    } else {
      assert a + b == b;
    }
  }

  lemma {:induction false} DigitsValueNatToString(n: nat)
    ensures DigitsValue(NatToString(n)) == n
    decreases n
  {
    if n >= 10 {
      DigitsValueNatToString(n / 10);
      var s := NatToString(n / 10) + [DigitChar(n % 10)];
      assert s[..|s| - 1] == NatToString(n / 10);
    }
  }

  /** `parse` reads back what `to_string` wrote, for any value of the type. */
  lemma ParseNatToString(n: nat, bound: nat)
    requires n < bound
    ensures ParseUnsigned(NatToString(n), bound) == Some(n)
  {
    DigitsValueNatToString(n);
  }

  lemma {:induction false} TrimStartWhitespacePrefix(w: string, t: string)
    requires forall i :: 0 <= i < |w| ==> IsWhitespace(w[i])
    requires |t| > 0 ==> !IsWhitespace(t[0])
    ensures TrimStart(w + t) == t
    decreases |w|
  {
    if |w| > 0 {
      assert (w + t)[1..] == w[1..] + t;
      TrimStartWhitespacePrefix(w[1..], t);
    } else {
      assert w + t == t;
    }
  }

  /** A run of `c` in front of text not starting with `c` is exactly what goes. */
  lemma {:induction false} TrimStartCharRun(w: string, rest: string, c: char)
    requires forall i :: 0 <= i < |w| ==> w[i] == c
    requires |rest| > 0 ==> rest[0] != c
    ensures TrimStartChar(w + rest, c) == rest
    decreases |w|
  {
    if |w| > 0 {
      assert (w + rest)[1..] == w[1..] + rest;
      TrimStartCharRun(w[1..], rest, c);
    } else {
      assert w + rest == rest;
    }
  }

  /** `trim_start_matches(p)` removes a leading `p` and goes on with the rest. */
  lemma TrimStartMatchesStep(p: string, rest: string)
    requires |p| > 0
    ensures TrimStartMatches(p + rest, p) == TrimStartMatches(rest, p)
  {
    assert StartsWith(p + rest, p);
    assert (p + rest)[|p|..] == rest;
  }

  /** `trim_start_matches(p)` removes one `p` in front of text that does not start with `p`. */
  lemma TrimStartMatchesOnce(p: string, rest: string)
    requires |p| > 0 && !StartsWith(rest, p)
    ensures TrimStartMatches(p + rest, p) == rest
  {
    assert StartsWith(p + rest, p);
    assert (p + rest)[|p|..] == rest;
  }

  /** A line with text in front of it is still a line when the text has no newline. */
  lemma LineAfter(a: string, b: string)
    requires '\n' !in a && IsLine(b) && (|b| == 0 ==> IsLine(a))
    ensures IsLine(a + b)
  {
    if |b| > 0 {
      assert (a + b)[|a + b| - 1] == b[|b| - 1];
    } else {
      assert a + b == a;
    }
    forall j | 0 <= j < |a + b| ensures (a + b)[j] != '\n' {
      if j < |a| {
        assert (a + b)[j] == a[j];
      } else {
        assert (a + b)[j] == b[j - |a|];
      }
    }
  }

  lemma TrimEndOfTrimmed(t: string)
    requires |t| > 0 ==> !IsWhitespace(t[|t| - 1])
    ensures TrimEnd(t) == t
  {
  }

  /** `trim` of a trimmed string is that string, after any run of leading blanks. */
  lemma TrimAfterBlanks(w: string, t: string)
    requires forall i :: 0 <= i < |w| ==> IsWhitespace(w[i])
    requires IsTrimmed(t)
    ensures Trim(w + t) == t
  {
    TrimStartWhitespacePrefix(w, t);
  }

  lemma TrimOfTrimmed(t: string)
    requires IsTrimmed(t)
    ensures Trim(t) == t
  {
    TrimAfterBlanks("", t);
    assert "" + t == t;
  }

  /** What `trim_start` removes is a run of blanks, and what it keeps starts with none. */
  lemma {:induction false} TrimStartShape(s: string)
    ensures |TrimStart(s)| <= |s| && TrimStart(s) == s[|s| - |TrimStart(s)|..]
    ensures forall i :: 0 <= i < |s| - |TrimStart(s)| ==> IsWhitespace(s[i])
    ensures |TrimStart(s)| > 0 ==> !IsWhitespace(TrimStart(s)[0])
    decreases |s|
  {
    if |s| > 0 && IsWhitespace(s[0]) {
      TrimStartShape(s[1..]);
    }
  }

  lemma {:induction false} TrimEndShape(s: string)
    ensures |TrimEnd(s)| <= |s| && TrimEnd(s) == s[..|TrimEnd(s)|]
    ensures forall i :: |TrimEnd(s)| <= i < |s| ==> IsWhitespace(s[i])
    ensures |TrimEnd(s)| > 0 ==> !IsWhitespace(TrimEnd(s)[|TrimEnd(s)| - 1])
    decreases |s|
  {
    if |s| > 0 && IsWhitespace(s[|s| - 1]) {
      TrimEndShape(s[..|s| - 1]);
    }
  }

  lemma TrimIsTrimmed(s: string)
    ensures IsTrimmed(Trim(s))
  {
    var a := TrimStart(s);
    var r := TrimEnd(a);
    TrimStartShape(s);
    TrimEndShape(a);
    if |r| > 0 {
      assert r[0] == a[0];
    }
  }

  lemma TrimIdempotent(s: string)
    ensures Trim(Trim(s)) == Trim(s)
  {
    TrimIsTrimmed(s);
    TrimOfTrimmed(Trim(s));
  }

  lemma ToLowerIdempotent(s: string)
    ensures ToLower(ToLower(s)) == ToLower(s)
  {
  }

  /** Lowercasing neither adds nor removes whitespace, so trimming and lowercasing commute. */
  lemma {:induction false} TrimStartToLower(s: string)
    ensures TrimStart(ToLower(s)) == ToLower(TrimStart(s))
    decreases |s|
  {
    if |s| > 0 {
      var l := ToLower(s);
      assert l[0] == LowerChar(s[0]);
      assert IsWhitespace(l[0]) == IsWhitespace(s[0]);
      if IsWhitespace(s[0]) {
        assert l[1..] == ToLower(s[1..]);
        TrimStartToLower(s[1..]);
      }
    }
  }

  lemma {:induction false} TrimEndToLower(s: string)
    ensures TrimEnd(ToLower(s)) == ToLower(TrimEnd(s))
    decreases |s|
  {
    if |s| > 0 {
      var l := ToLower(s);
      assert l[|s| - 1] == LowerChar(s[|s| - 1]);
      assert IsWhitespace(l[|s| - 1]) == IsWhitespace(s[|s| - 1]);
      if IsWhitespace(s[|s| - 1]) {
        assert l[..|s| - 1] == ToLower(s[..|s| - 1]);
        TrimEndToLower(s[..|s| - 1]);
      }
    }
  }

  lemma TrimToLower(s: string)
    ensures Trim(ToLower(s)) == ToLower(Trim(s))
  {
    TrimStartToLower(s);
    TrimEndToLower(TrimStart(s));
  }

  lemma ContainsAt(s: string, t: string, j: nat)
    requires j + |t| <= |s| && s[j..j + |t|] == t
    ensures Contains(s, t)
  {
    assert OccursAt(s, t, j);
  }

  lemma ContainsMiddle(a: string, t: string, b: string)
    ensures Contains(a + t + b, t)
  {
    assert (a + t + b)[|a|..|a| + |t|] == t;
    assert OccursAt(a + t + b, t, |a|);
  }

  /** A one-character text occurs exactly when the character does. */
  lemma ContainsChar(s: string, c: char)
    ensures Contains(s, [c]) <==> c in s
  {
    if c in s {
      var k :| 0 <= k < |s| && s[k] == c;
      assert s[k..k + 1] == [c];
      assert OccursAt(s, [c], k);
    }
    if Contains(s, [c]) {
      var j :| 0 <= j <= |s| && OccursAt(s, [c], j);
      assert s[j..j + 1][0] == s[j];
    }
  }

  lemma ContainsSelf(t: string)
    ensures Contains(t, t)
  {
    assert t[0..|t|] == t;
    assert OccursAt(t, t, 0);
  }

  lemma {:induction false} LexLessIrreflexive(a: string)
    ensures !LexLess(a, a)
    decreases |a|
  {
    if |a| > 0 {
      LexLessIrreflexive(a[1..]);
    }
  }

  lemma {:induction false} LexLessTransitive(a: string, b: string, c: string)
    requires LexLess(a, b) && LexLess(b, c)
    ensures LexLess(a, c)
    decreases |a|
  {
    if |a| > 0 && |b| > 0 && |c| > 0 && a[0] == b[0] && b[0] == c[0] {
      LexLessTransitive(a[1..], b[1..], c[1..]);
    }
  }

  lemma {:induction false} LexLessTotal(a: string, b: string)
    requires a != b
    ensures LexLess(a, b) || LexLess(b, a)
    decreases |a|
  {
    if |a| > 0 && |b| > 0 && a[0] == b[0] {
      assert a == [a[0]] + a[1..];
      assert b == [b[0]] + b[1..];
      LexLessTotal(a[1..], b[1..]);
    }
  }

  lemma LexLessAsymmetric(a: string, b: string)
    requires LexLess(a, b)
    ensures !LexLess(b, a)
  {
    if LexLess(b, a) {
      LexLessTransitive(a, b, a);
      LexLessIrreflexive(a);
    }
  }

  /** One mismatching character rules an occurrence out. */
  lemma Mismatch(s: string, t: string, j: nat, k: nat)
    requires j + |t| <= |s| && k < |t| && s[j + k] != t[k]
    ensures !OccursAt(s, t, j)
  {
    assert s[j..j + |t|][k] == s[j + k];
  }

  /** Splitting at a known first occurrence. */
  lemma SplitAt(s: string, t: string, i: nat)
    requires |t| > 0 && OccursAt(s, t, i)
    requires forall j :: 0 <= j < i ==> !OccursAt(s, t, j)
    ensures Split(s, t) == [s[..i]] + Split(s[i + |t|..], t)
  {
    IndexOfAt(s, t, i);
  }

  /** A known first occurrence is the one `IndexOf` finds. */
  lemma IndexOfAt(s: string, t: string, i: nat)
    requires OccursAt(s, t, i)
    requires forall j :: 0 <= j < i ==> !OccursAt(s, t, j)
    ensures IndexOf(s, t) == Some(i)
  {
    assert 0 <= i <= |s| && OccursAt(s, t, i);
  }

  lemma NotADigit(A: string, c: char)
    requires AllDigits(A) && !IsDigit(c)
    ensures c !in A
  {
  }

  /** A character of `t` that `s` lacks rules out every occurrence of `t`. */
  lemma CharAbsent(s: string, t: string, k: nat)
    requires k < |t| && t[k] !in s
    ensures !Contains(s, t)
  {
    forall j | 0 <= j <= |s| ensures !OccursAt(s, t, j) {
      if j + |t| <= |s| {
        assert s[j + k] in s;
        Mismatch(s, t, j, k);
      }
    }
  }

  predicate NoWhitespace(s: string) {
    forall i :: 0 <= i < |s| ==> !IsWhitespace(s[i])
  }

  lemma {:induction false} TokenLengthWord(x: string, rest: string)
    requires NoWhitespace(x)
    requires |rest| > 0 ==> IsWhitespace(rest[0])
    ensures TokenLength(x + rest) == |x|
    decreases |x|
  {
    if |x| > 0 {
      assert (x + rest)[1..] == x[1..] + rest;
      TokenLengthWord(x[1..], rest);
    } else {
      assert x + rest == rest;
    }
  }

  /** A word followed by a blank (or by nothing) is the first token `split_whitespace` yields. */
  lemma SplitWhitespaceWord(x: string, rest: string)
    requires |x| > 0 && NoWhitespace(x)
    requires |rest| > 0 ==> IsWhitespace(rest[0])
    ensures SplitWhitespace(x + rest) == [x] + SplitWhitespace(rest)
  {
    TokenLengthWord(x, rest);
    var s := x + rest;
    assert !IsWhitespace(s[0]);
    assert s[..|x|] == x && s[|x|..] == rest;
  }

  /** Splitting at a character undoes joining with it, when no piece holds that character. */
  lemma {:induction false} SplitJoin(parts: seq<string>, c: char)
    requires |parts| >= 1
    requires forall k :: 0 <= k < |parts| ==> c !in parts[k]
    ensures Split(Join(parts, [c]), [c]) == parts
    decreases |parts|
  {
    if |parts| == 1 {
      SplitNoSep(parts[0], c);
    } else {
      var rest := parts[1..];
      SplitJoin(rest, c);
      JoinCons(parts[0], rest, [c]);
      assert [parts[0]] + rest == parts;
      SplitFirst(parts[0], c, Join(rest, [c]));
    }
  }

  /** Text in front of a join belongs to its first piece. */
  lemma JoinPrefix(w: string, p: string, rest: seq<string>, sep: string)
    ensures Join([w + p] + rest, sep) == w + Join([p] + rest, sep)
  {
    if |rest| == 0 {
      assert [w + p] + rest == [w + p];
      assert [p] + rest == [p];
    } else {
      JoinCons(w + p, rest, sep);
      JoinCons(p, rest, sep);
    }
  }

  lemma {:induction false} JoinStarts(parts: seq<string>, sep: string)
    requires |parts| >= 1
    ensures parts[0] <= Join(parts, sep)
    decreases |parts|
  {
    if |parts| > 1 {
      assert Join(parts, sep) == parts[0] + (sep + Join(parts[1..], sep));
    }
  }

  lemma {:induction false} JoinLastChar(parts: seq<string>, sep: string)
    requires |parts| >= 1 && |parts[|parts| - 1]| > 0
    ensures |Join(parts, sep)| > 0
    ensures Join(parts, sep)[|Join(parts, sep)| - 1] == parts[|parts| - 1][|parts[|parts| - 1]| - 1]
    decreases |parts|
  {
    if |parts| > 1 {
      JoinLastChar(parts[1..], sep);
      assert parts[1..][|parts[1..]| - 1] == parts[|parts| - 1];
    }
  }

  lemma {:induction false} JoinNoChar(parts: seq<string>, sep: string, c: char)
    requires c !in sep && forall k :: 0 <= k < |parts| ==> c !in parts[k]
    ensures c !in Join(parts, sep)
    decreases |parts|
  {
    if |parts| > 1 {
      JoinNoChar(parts[1..], sep, c);
    }
  }

  lemma ContainsInPrefix(x: string, s: string, t: string)
    requires x <= s && Contains(x, t)
    ensures Contains(s, t)
  {
    var j :| 0 <= j <= |x| && OccursAt(x, t, j);
    assert s[j..j + |t|] == x[j..j + |t|];
    assert OccursAt(s, t, j);
  }
}
