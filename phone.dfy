/**
 * The phone-number field of src/ui/PhoneInput.tsx: the country code as the field uses it, and
 * the display format it puts on whatever digits were typed.
 */
module Phone {
  import opened Wrappers
  import opened Strings

  /** `normalizeCountry`: no country, or an empty one, is the US; any other is uppercased. */
  function NormalizeCountry(country: Option<string>): (r: string)
    ensures country.None? || country == Some("") ==> r == "US"
    ensures country.Some? && country.value != "" ==> r == ToUpper(country.value)
  {
    ToUpper(if country.None? || country.value == "" then "US" else country.value)
  }

  /** `digits.replace(/\D/g, '')`: the digits, in order. */
  function Digits(s: string): (r: string)
    ensures AllDigits(r) && |r| <= |s|
    ensures AllDigits(s) ==> r == s
    decreases |s|
  {
    if s == [] then "" else (if IsDigit(s[0]) then [s[0]] else "") + Digits(s[1..])
  }

  /** JavaScript `s.slice(a, b)` for `0 <= a <= b`: out-of-range ends are clipped. */
  function Slice(s: string, a: nat, b: nat): (r: string)
    requires a <= b
    ensures |r| == (if b <= |s| then b else |s|) - (if a <= |s| then a else |s|)
  {
    var e := if b <= |s| then b else |s|;
    var s0 := if a <= |s| then a else |s|;
    s[s0..e]
  }

  /** How many digits a country's number holds. */
  function DigitLimit(country: string): nat {
    if country == "BR" then 11 else 10
  }

  /**
   * The display shape both countries share: up to `a` digits bare, up to `b` as `(x) y`, then
   * `(x) y-z`, where the groups end at positions `a`, `b` and `n`.
   */
  function Layout(limited: string, a: nat, b: nat, n: nat): string
    requires a <= b <= n
  {
    var x, y, z := Slice(limited, 0, a), Slice(limited, a, b), Slice(limited, b, n);
    if |limited| <= a then x
    else if |limited| <= b then "(" + x + ") " + y
    else "(" + x + ") " + y + "-" + z
  }

  /**
   * `formatDigitsForCountry`: the digits, at most 11 for Brazil as `(dd) ppppp-ssss` and at most
   * 10 elsewhere as `(aaa) fff-llll`.
   */
  function FormatDigits(digits: string, country: string): string {
    var cleaned := Digits(digits);
    if country == "BR" then Layout(Slice(cleaned, 0, 11), 2, 7, 11)
    else Layout(Slice(cleaned, 0, 10), 3, 6, 10)
  }

  lemma {:induction false} DigitsAppend(a: string, b: string)
    ensures Digits(a + b) == Digits(a) + Digits(b)
    decreases |a|
  {
    if a != [] {
      assert (a + b)[1..] == a[1..] + b;
      DigitsAppend(a[1..], b);
    } else {
      assert a + b == b;
    }
  }

  lemma DigitsPunctuation()
    ensures Digits("(") == "" && Digits(") ") == "" && Digits("-") == ""
  {
    assert ") "[1..] == " ";
  }

  lemma TwoGroups(x: string, y: string)
    requires AllDigits(x) && AllDigits(y)
    ensures Digits("(" + x + ") " + y) == x + y
  {
    var u := "(" + x;
    var v := u + ") ";
    DigitsPunctuation();
    DigitsAppend("(", x);
    assert Digits(u) == x by {
      assert "" + x == x;
    }
    DigitsAppend(u, ") ");
    assert Digits(v) == x by {
      assert x + "" == x;
    }
    DigitsAppend(v, y);
  }

  lemma ThreeGroups(x: string, y: string, z: string)
    requires AllDigits(x) && AllDigits(y) && AllDigits(z)
    ensures Digits("(" + x + ") " + y + "-" + z) == x + y + z
  {
    TwoGroups(x, y);
    DashJoin("(" + x + ") " + y, z);
  }

  lemma DashJoin(w: string, z: string)
    ensures Digits(w + "-" + z) == Digits(w) + Digits(z)
  {
    DigitsPunctuation();
    DigitsAppend(w + "-", z);
    DigitsAppend(w, "-");
  }

  /** The shape adds only punctuation: its digits are the digits it was given. */
  lemma LayoutDigits(l: string, a: nat, b: nat, n: nat)
    requires a <= b <= n && AllDigits(l) && |l| <= n
    ensures Digits(Layout(l, a, b, n)) == l
  {
    LayoutShapes(l, a, b, n);
    if a < |l| <= b {
      SplitTwo(l, a);
    } else if b < |l| {
      SplitThree(l, a, b);
    }
  }

  lemma SplitTwo(l: string, a: nat)
    requires a < |l| && AllDigits(l)
    ensures Digits("(" + l[..a] + ") " + l[a..]) == l
  {
    DigitRange(l, 0, a);
    DigitRange(l, a, |l|);
    TwoGroups(l[..a], l[a..]);
    assert l == l[..a] + l[a..];
  }

  lemma SplitThree(l: string, a: nat, b: nat)
    requires a <= b < |l| && AllDigits(l)
    ensures Digits("(" + l[..a] + ") " + l[a..b] + "-" + l[b..]) == l
  {
    DigitRange(l, 0, a);
    DigitRange(l, a, b);
    DigitRange(l, b, |l|);
    ThreeGroups(l[..a], l[a..b], l[b..]);
    assert l == l[..a] + l[a..b] + l[b..];
  }

  lemma DigitRange(l: string, i: nat, j: nat)
    requires i <= j <= |l| && AllDigits(l)
    ensures AllDigits(l[i..j])
  {
    assert forall k :: 0 <= k < j - i ==> l[i..j][k] == l[i + k];
  }

  /** The digits of the output are the first 11 input digits for Brazil and the first 10 otherwise. */
  lemma FormatKeepsDigits(digits: string, country: string)
    ensures Digits(FormatDigits(digits, country)) == Slice(Digits(digits), 0, DigitLimit(country))
  {
    var l := Slice(Digits(digits), 0, DigitLimit(country));
    if country == "BR" {
      LayoutDigits(l, 2, 7, 11);
    } else {
      LayoutDigits(l, 3, 6, 10);
    }
  }

  /** The format depends only on the digits that fit. */
  lemma FormatOnlyDigits(u: string, v: string, country: string)
    requires Slice(Digits(u), 0, DigitLimit(country)) == Slice(Digits(v), 0, DigitLimit(country))
    ensures FormatDigits(u, country) == FormatDigits(v, country)
  {
  }

  /** Formatting formatted text changes nothing, which is what reformatting on a country change relies on. */
  lemma FormatIdempotent(digits: string, country: string)
    ensures FormatDigits(FormatDigits(digits, country), country) == FormatDigits(digits, country)
  {
    var f := FormatDigits(digits, country);
    FormatKeepsDigits(digits, country);
    var n := DigitLimit(country);
    var l := Slice(Digits(digits), 0, n);
    assert Digits(f) == l;
    assert Slice(l, 0, n) == l;
    FormatOnlyDigits(f, digits, country);
  }

  /** The three shapes, in terms of the digits that fit. */
  lemma LayoutShapes(l: string, a: nat, b: nat, n: nat)
    requires a <= b <= n && |l| <= n
    ensures |l| <= a ==> Layout(l, a, b, n) == l
    ensures a < |l| <= b ==> Layout(l, a, b, n) == "(" + l[..a] + ") " + l[a..]
    ensures b < |l| ==> Layout(l, a, b, n) == "(" + l[..a] + ") " + l[a..b] + "-" + l[b..]
  {
  }

  /** Brazil: up to two digits bare, up to seven as `(dd) ppppp`, then `(dd) ppppp-ssss`. */
  lemma BrazilShapes(digits: string)
    ensures var l := Slice(Digits(digits), 0, 11); var f := FormatDigits(digits, "BR");
      (|l| <= 2 ==> f == l)
      && (2 < |l| <= 7 ==> f == "(" + l[..2] + ") " + l[2..])
      && (7 < |l| ==> f == "(" + l[..2] + ") " + l[2..7] + "-" + l[7..])
  {
    LayoutShapes(Slice(Digits(digits), 0, 11), 2, 7, 11);
  }

  /** Elsewhere: up to three digits bare, up to six as `(aaa) fff`, then `(aaa) fff-llll`. */
  lemma DefaultShapes(digits: string, country: string)
    requires country != "BR"
    ensures var l := Slice(Digits(digits), 0, 10); var f := FormatDigits(digits, country);
      (|l| <= 3 ==> f == l)
      && (3 < |l| <= 6 ==> f == "(" + l[..3] + ") " + l[3..])
      && (6 < |l| ==> f == "(" + l[..3] + ") " + l[3..6] + "-" + l[6..])
  {
    LayoutShapes(Slice(Digits(digits), 0, 10), 3, 6, 10);
  }
}
