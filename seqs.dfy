/** `Array.prototype.filter`, which the front end uses to build every derived list. */
module Seqs {
  /** The elements `keep` accepts, in their order. */
  function Filter<T>(s: seq<T>, keep: T -> bool): (r: seq<T>)
    ensures |r| <= |s|
    ensures forall j :: 0 <= j < |r| ==> keep(r[j])
  {
    if s == [] then [] else (if keep(s[0]) then [s[0]] else []) + Filter(s[1..], keep)
  }

  /** An element is kept exactly when it is in the list and accepted. */
  lemma {:induction false} FilterMembers<T>(s: seq<T>, keep: T -> bool, x: T)
    ensures x in Filter(s, keep) <==> x in s && keep(x)
    decreases |s|
  {
    if s != [] {
      FilterMembers(s[1..], keep, x);
      assert s == [s[0]] + s[1..];
    }
  }

  /** Filtering keeps order: the kept elements of a concatenation are those of each part, in turn. */
  lemma {:induction false} FilterAppend<T>(a: seq<T>, b: seq<T>, keep: T -> bool)
    ensures Filter(a + b, keep) == Filter(a, keep) + Filter(b, keep)
    decreases |a|
  {
    if a == [] {
      assert a + b == b;
    } else {
      assert (a + b)[0] == a[0] && (a + b)[1..] == a[1..] + b;
      FilterAppend(a[1..], b, keep);
    }
  }

  /** A filter that accepts everything keeps the list as it is. */
  lemma {:induction false} FilterAll<T>(s: seq<T>, keep: T -> bool)
    requires forall j :: 0 <= j < |s| ==> keep(s[j])
    ensures Filter(s, keep) == s
    decreases |s|
  {
    if s != [] {
      FilterAll(s[1..], keep);
    }
  }

  /** A filter and its negation split the list: between them they keep every element once. */
  lemma {:induction false} FilterSplits<T>(s: seq<T>, keep: T -> bool, drop: T -> bool)
    requires forall x :: drop(x) == !keep(x)
    ensures |Filter(s, keep)| + |Filter(s, drop)| == |s|
    decreases |s|
  {
    if s != [] {
      FilterSplits(s[1..], keep, drop);
    }
  }
}
