/** Reviews, the mean rating (`calculateAverageRating`) and the one-decimal
    rendering of a number (`Number.prototype.toFixed(1)`), all on exact reals. */
module Ratings {
  import opened Wrappers

  /** One review. Only `rating` is read; the other fields the review service
      sends (text, author, date, ...) are passed through untouched. */
  datatype Review = Review(rating: real, details: map<string, string>)

  /** `ratings.reduce((sum, rating) => sum + rating, 0)`. */
  function Sum(rs: seq<Review>): real
  {
    if rs == [] then 0.0 else rs[0].rating + Sum(rs[1..])
  }

  /** `calculateAverageRating`: the total divided by the count. Both callers
      guard it with a non-empty check, so it is never asked for the mean of
      nothing. */
  function Mean(rs: seq<Review>): (m: real)
    requires |rs| > 0
    ensures m * (|rs| as real) == Sum(rs)
  {
    Sum(rs) / (|rs| as real)
  }

  lemma {:induction false} SumBounds(rs: seq<Review>, lo: real, hi: real)
    requires forall i :: 0 <= i < |rs| ==> lo <= rs[i].rating <= hi
    ensures lo * (|rs| as real) <= Sum(rs) <= hi * (|rs| as real)
  {
    if rs != [] {
      SumBounds(rs[1..], lo, hi);
      assert lo * (|rs| as real) == lo + lo * (|rs[1..]| as real);
      assert hi * (|rs| as real) == hi + hi * (|rs[1..]| as real);
    }
  }

  /** The mean lies between the smallest and the largest rating. */
  lemma MeanBounds(rs: seq<Review>, lo: real, hi: real)
    requires |rs| > 0
    requires forall i :: 0 <= i < |rs| ==> lo <= rs[i].rating <= hi
    ensures lo <= Mean(rs) <= hi
  {
    SumBounds(rs, lo, hi);
  }

  /** Reviews that all carry the same rating average to that rating. */
  lemma MeanOfEqualRatings(rs: seq<Review>, v: real)
    requires |rs| > 0
    requires forall i :: 0 <= i < |rs| ==> rs[i].rating == v
    ensures Mean(rs) == v
  {
    MeanBounds(rs, v, v);
  }

  predicate IsDigit(c: char)
  {
    '0' <= c <= '9'
  }

  predicate AllDigits(s: string)
  {
    forall i :: 0 <= i < |s| ==> IsDigit(s[i])
  }

  function DigitChar(d: nat): (c: char)
    requires d < 10
    ensures IsDigit(c)
  {
    "0123456789"[d]
  }

  function DigitValue(c: char): nat
    requires IsDigit(c)
  {
    (c as int - '0' as int) as nat
  }

  /** The decimal notation of a natural number, without leading zeros. */
  function NatToString(n: nat): (s: string)
    ensures |s| > 0 && AllDigits(s)
  {
    if n < 10 then [DigitChar(n)] else NatToString(n / 10) + [DigitChar(n % 10)]
  }

  /** The number a string of decimal digits denotes. */
  function DigitsValue(s: string): nat
    requires AllDigits(s)
  {
    if s == [] then 0 else DigitsValue(s[..|s| - 1]) * 10 + DigitValue(s[|s| - 1])
  }

  lemma {:induction false} NatToStringValue(n: nat)
    ensures DigitsValue(NatToString(n)) == n
  {
    if n >= 10 {
      NatToStringValue(n / 10);
      var s := NatToString(n);
      assert s[..|s| - 1] == NatToString(n / 10);
    }
  }

  /** The integer `k` of the step `x.toFixed(1)` that picks `k / 10` nearest
      to `x`, taking the larger one on a tie. */
  function NearestTenths(x: real): (k: int)
    ensures (k as real) / 10.0 - x <= 0.05
    ensures x - (k as real) / 10.0 < 0.05
  {
    (10.0 * x + 0.5).Floor
  }

  /** Characters a rendered number can hold. */
  predicate NumberChar(c: char)
  {
    IsDigit(c) || c == '.' || c == '-'
  }

  /** `k` tenths written out: the integer digits, a point and one digit. */
  function TenthsText(k: nat): (s: string)
    ensures forall i :: 0 <= i < |s| ==> IsDigit(s[i]) || s[i] == '.'
  {
    NatToString(k / 10) + "." + [DigitChar(k % 10)]
  }

  /** `x.toFixed(1)`: an optional minus sign, the integer digits, a point and
      one digit. A negative `x` is rendered as `-` followed by the rendering
      of `-x`, as ECMAScript prescribes. */
  function ToFixed1(x: real): (s: string)
    ensures forall i :: 0 <= i < |s| ==> NumberChar(s[i])
  {
    if x < 0.0 then "-" + TenthsText(NearestTenths(-x) as nat) else TenthsText(NearestTenths(x) as nat)
  }

  function ParseUnsigned(u: string): Option<real>
  {
    if |u| >= 3 && u[|u| - 2] == '.' && AllDigits(u[..|u| - 2]) && IsDigit(u[|u| - 1])
    then Some((DigitsValue(u[..|u| - 2]) * 10 + DigitValue(u[|u| - 1])) as real / 10.0)
    else None
  }

  /** Reads back a number written with exactly one decimal. */
  function ParseFixed1(s: string): Option<real>
  {
    if |s| > 0 && s[0] == '-' then
      match ParseUnsigned(s[1..])
      case Some(v) => Some(-v)
      case None => None
    else ParseUnsigned(s)
  }

  lemma TenthsTextValue(k: nat)
    ensures ParseUnsigned(TenthsText(k)) == Some((k as real) / 10.0)
    ensures TenthsText(k)[0] != '-'
  {
    var u := TenthsText(k);
    var d := NatToString(k / 10);
    assert u == d + "." + [DigitChar(k % 10)];
    assert u[..|u| - 2] == d;
    NatToStringValue(k / 10);
    assert DigitValue(DigitChar(k % 10)) == k % 10;
    assert d[0] != '-';
  }

  /** A leading minus sign negates what follows it. */
  lemma NegatedTenths(k: nat)
    ensures ParseFixed1("-" + TenthsText(k)) == Some(-((k as real) / 10.0))
  {
    TenthsTextValue(k);
    var s := "-" + TenthsText(k);
    assert s[0] == '-' && s[1..] == TenthsText(k);
  }

  /** The value `x.toFixed(1)` denotes: `x` rounded to the nearest tenth,
      ties away from zero. */
  function RoundedToTenths(x: real): real
  {
    if x < 0.0 then -((NearestTenths(-x) as real) / 10.0) else (NearestTenths(x) as real) / 10.0
  }

  /** Rounding to tenths moves a value by at most 0.05. */
  lemma RoundedClose(x: real)
    ensures -0.05 <= RoundedToTenths(x) - x <= 0.05
  {
    if x < 0.0 {
      var k := NearestTenths(-x);
      assert -0.05 <= (k as real) / 10.0 - -x <= 0.05;
    }
  }

  /** What `toFixed(1)` writes reads back as the rounded value. */
  lemma ToFixed1Denotes(x: real)
    ensures ParseFixed1(ToFixed1(x)) == Some(RoundedToTenths(x))
  {
    if x < 0.0 {
      NegatedTenths(NearestTenths(-x) as nat);
    } else {
      TenthsTextValue(NearestTenths(x) as nat);
    }
  }

  lemma MeanExamples()
    ensures Mean([Review(2.0, map[]), Review(4.0, map[])]) == 3.0
    ensures Mean([Review(5.0, map[])]) == 5.0
    ensures ToFixed1(3.0) == "3.0"
    ensures ToFixed1(-0.04) == "-0.0"
  {
    var rs := [Review(2.0, map[]), Review(4.0, map[])];
    assert Sum(rs) == 6.0 by {
      assert rs[1..] == [Review(4.0, map[])];
      assert rs[1..][1..] == [];
    }
    assert [Review(5.0, map[])][1..] == [];
    assert NearestTenths(3.0) == 30;
    assert NearestTenths(0.04) == 0;
  }
}
