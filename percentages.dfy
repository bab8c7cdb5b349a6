/**
 `max_percentage` (src/consumer_complaints.py): count how often each entry of a non-empty
 list occurs, turn each count into a rounded percentage of the list length and return the
 largest. The float division of the source is replaced by exact rational rounding of
 100 * count / length; the tie rule is a parameter, because the code (`round`, half to
 even) and its documentation (half up) disagree at exact halves.
 */
module Percentages {

  /** How an exact half is resolved. */
  datatype Rounding = HalfUp | HalfEven

  /** `r` is an integer nearest to a / n, and an exact half is resolved by `mode`. */
  predicate RoundsTo(mode: Rounding, a: nat, n: nat, r: int)
    requires n > 0
  {
    var d := 2 * (a - r * n);  // 2n times the distance a/n - r
    -(n as int) <= d <= n
    && (d == n ==> mode == HalfEven && r % 2 == 0)
    && (d == -(n as int) ==> mode == HalfUp || r % 2 == 0)
  }

  /** a / n rounded to an integer; HalfEven is Python's `round`. */
  function Round(mode: Rounding, a: nat, n: nat): nat
    requires n > 0
  {
    var q, m := a / n, a % n;
    match mode
    case HalfUp =>
      if 2 * m < n then q else q + 1
    case HalfEven =>
      if 2 * m < n then q
      else if 2 * m > n then q + 1
      else if q % 2 == 0 then q
      else q + 1
  }

  /** `Round` meets the rounding specification. */
  lemma RoundIsNearest(mode: Rounding, a: nat, n: nat)
    requires n > 0
    ensures RoundsTo(mode, a, n, Round(mode, a, n))
  {
    DivMod(a, n);
    NextMultiple(a / n, n);
  }

  lemma DivMod(a: nat, n: nat)
    requires n > 0
    ensures a == (a / n) * n + a % n && 0 <= a % n < n
  {
  }

  lemma NextMultiple(q: int, n: int)
    ensures (q + 1) * n == q * n + n
  {
  }

  /** Two different multiples of n > 0 are at least n apart, and exactly n apart only
      for neighbouring factors. */
  lemma MultiplesApart(n: nat, r1: int, r2: int)
    requires n > 0 && r1 < r2
    ensures r2 * n >= r1 * n + n
    ensures r2 * n == r1 * n + n ==> r2 == r1 + 1
  {
    var k := r2 - r1;
    assert r2 * n == r1 * n + k * n;
    if k >= 2 {
      assert k * n >= 2 * n;
    }
  }

  /** The rounding specification determines its result. */
  lemma RoundsToUnique(mode: Rounding, a: nat, n: nat, r1: int, r2: int)
    requires n > 0
    requires RoundsTo(mode, a, n, r1) && RoundsTo(mode, a, n, r2)
    ensures r1 == r2
  {
    if r1 < r2 {
      MultiplesApart(n, r1, r2);
    } else if r2 < r1 {
      MultiplesApart(n, r2, r1);
    }
  }

  /** Rounding never decreases when the numerator grows. */
  lemma RoundMonotone(mode: Rounding, a: nat, b: nat, n: nat)
    requires n > 0 && a <= b
    ensures Round(mode, a, n) <= Round(mode, b, n)
  {
    var ra, rb := Round(mode, a, n), Round(mode, b, n);
    RoundIsNearest(mode, a, n);
    RoundIsNearest(mode, b, n);
    if rb < ra {
      MultiplesApart(n, rb, ra);
    }
  }

  /** A numerator of at most 100 n gives at most 100 and exactly 100 n gives 100. */
  lemma PercentBounds(mode: Rounding, a: nat, n: nat)
    requires n > 0 && a <= 100 * n
    ensures Round(mode, a, n) <= 100
    ensures a == 100 * n ==> Round(mode, a, n) == 100
  {
    RoundMonotone(mode, a, 100 * n, n);
    RoundIsNearest(mode, 100 * n, n);
    assert RoundsTo(mode, 100 * n, n, 100);
    RoundsToUnique(mode, 100 * n, n, 100, Round(mode, 100 * n, n));
  }

  /** The number of times `x` occurs in `s`: `Counter(s)[x]`. */
  function Count<T(==)>(s: seq<T>, x: T): nat
  {
    multiset(s)[x]
  }

  lemma {:induction false} CountBound<T>(s: seq<T>, x: T)
    ensures Count(s, x) <= |s|
    ensures x in s ==> Count(s, x) >= 1
  {
    if s != [] {
      CountBound(s[..|s| - 1], x);
      assert s == s[..|s| - 1] + [s[|s| - 1]];
    }
  }

  /** The largest element of a non-empty sequence: `max` of the source. */
  function MaxOf(xs: seq<nat>): nat
    requires |xs| > 0
  {
    if |xs| == 1 then xs[0]
    else
      var m := MaxOf(xs[..|xs| - 1]);
      if xs[|xs| - 1] > m then xs[|xs| - 1] else m
  }

  /** `MaxOf` is an element of the sequence and no element exceeds it. */
  lemma {:induction false} MaxOfIsMax(xs: seq<nat>)
    requires |xs| > 0
    ensures MaxOf(xs) in xs
    ensures forall i :: 0 <= i < |xs| ==> xs[i] <= MaxOf(xs)
  {
    if |xs| > 1 {
      var init := xs[..|xs| - 1];
      MaxOfIsMax(init);
      assert forall i :: 0 <= i < |init| ==> init[i] == xs[i];
    }
  }

  /** The rounded percentage of `s` that the entry `x` makes up. */
  function Percentage<T(==)>(mode: Rounding, s: seq<T>, x: T): nat
    requires |s| > 0
  {
    Round(mode, 100 * Count(s, x), |s|)
  }

  /** The values of the `percentages` dictionary, listed once per entry of `s`
      (repeated entries repeat their value, which leaves the maximum unchanged). */
  function PercentageValues<T(==)>(mode: Rounding, s: seq<T>): (ps: seq<nat>)
    requires |s| > 0
  {
    seq(|s|, i requires 0 <= i < |s| => Percentage(mode, s, s[i]))
  }

  /** `max_percentage`: the highest rounded share of any single entry. */
  function MaxPercentage<T(==)>(mode: Rounding, s: seq<T>): nat
    requires |s| > 0
  {
    MaxOf(PercentageValues(mode, s))
  }

  /** `max_percentage` is between 0 and 100, no entry has a larger share and some entry
      has exactly that share. */
  lemma MaxPercentageIsLargestShare<T>(mode: Rounding, s: seq<T>)
    requires |s| > 0
    ensures MaxPercentage(mode, s) <= 100
    ensures forall x :: x in s ==> Percentage(mode, s, x) <= MaxPercentage(mode, s)
    ensures exists i :: 0 <= i < |s| && MaxPercentage(mode, s) == Percentage(mode, s, s[i])
  {
    var ps := PercentageValues(mode, s);
    var r := MaxOf(ps);
    MaxOfIsMax(ps);
    forall x | x in s ensures Percentage(mode, s, x) <= r {
      var i :| 0 <= i < |s| && s[i] == x;
      assert ps[i] == Percentage(mode, s, x);
    }
    var i :| 0 <= i < |s| && ps[i] == r;
    CountBound(s, s[i]);
    PercentBounds(mode, 100 * Count(s, s[i]), |s|);
  }

  /** The largest number of times any entry occurs in a non-empty `s`. */
  function MaxCount<T(==)>(s: seq<T>): (c: nat)
    requires |s| > 0
    ensures 1 <= c <= |s|
    ensures forall x :: x in s ==> Count(s, x) <= c
    ensures exists i :: 0 <= i < |s| && c == Count(s, s[i])
  {
    var cs := seq(|s|, i requires 0 <= i < |s| => Count(s, s[i]));
    var c := MaxOf(cs);
    MaxOfIsMax(cs);
    assert forall x :: x in s ==> Count(s, x) <= c by {
      forall x | x in s ensures Count(s, x) <= c {
        var i :| 0 <= i < |s| && s[i] == x;
        assert cs[i] == Count(s, x);
      }
    }
    var i :| 0 <= i < |s| && cs[i] == c;
    CountBound(s, s[i]);
    c
  }

  /** Rounding is monotone, so `max_percentage` is the rounded share of the most frequent
      entry, under either tie rule. */
  lemma MaxPercentageOfMaxCount<T>(mode: Rounding, s: seq<T>)
    requires |s| > 0
    ensures MaxPercentage(mode, s) == Round(mode, 100 * MaxCount(s), |s|)
  {
    var r, c := MaxPercentage(mode, s), MaxCount(s);
    MaxPercentageIsLargestShare(mode, s);
    var i :| 0 <= i < |s| && r == Percentage(mode, s, s[i]);
    var j :| 0 <= j < |s| && c == Count(s, s[j]);
    RoundMonotone(mode, 100 * Count(s, s[i]), 100 * c, |s|);
    assert Percentage(mode, s, s[j]) <= r;
  }

  /** A list made of one repeated value gives 100. */
  lemma {:induction false} UniformGivesHundred<T>(mode: Rounding, s: seq<T>)
    requires |s| > 0
    requires forall i :: 0 <= i < |s| ==> s[i] == s[0]
    ensures MaxPercentage(mode, s) == 100
  {
    CountAllSame(s, s[0]);
    PercentBounds(mode, 100 * |s|, |s|);
    MaxPercentageIsLargestShare(mode, s);
    assert Percentage(mode, s, s[0]) == 100;
  }

  lemma {:induction false} CountAllSame<T>(s: seq<T>, x: T)
    requires forall i :: 0 <= i < |s| ==> s[i] == x
    ensures Count(s, x) == |s|
  {
    if s != [] {
      CountAllSame(s[..|s| - 1], x);
      assert s == s[..|s| - 1] + [s[|s| - 1]];
    }
  }

  /** Python's `round` (half to even) rounds the share of five entries out of eight,
      exactly 62.5, down to 62; rounding half up gives 63. */
  lemma TieRoundsDownAsWritten()
    ensures MaxPercentage(HalfEven, [1, 1, 1, 1, 1, 2, 3, 4]) == 62
    ensures MaxPercentage(HalfUp, [1, 1, 1, 1, 1, 2, 3, 4]) == 63
  {
    var s := [1, 1, 1, 1, 1, 2, 3, 4];
    FiveOfEight();
    MaxPercentageOfMaxCount(HalfEven, s);
    MaxPercentageOfMaxCount(HalfUp, s);
    assert Round(HalfEven, 500, 8) == 62 && Round(HalfUp, 500, 8) == 63;
  }

  /** The most frequent entry of the tie example occurs five times. */
  lemma FiveOfEight()
    ensures MaxCount([1, 1, 1, 1, 1, 2, 3, 4]) == 5
  {
    var s := [1, 1, 1, 1, 1, 2, 3, 4];
    assert Count(s, 1) == 5 && Count(s, 2) == 1 && Count(s, 3) == 1 && Count(s, 4) == 1;
    forall i | 0 <= i < |s| ensures Count(s, s[i]) <= 5 {
      assert s[i] in {1, 2, 3, 4};
    }
    MaxCountIs(s, 1, 5);
  }

  /** When `v` occurs `c` times in `s` and nothing occurs more often, `c` is the largest count. */
  lemma MaxCountIs<T>(s: seq<T>, v: T, c: nat)
    requires |s| > 0 && v in s && Count(s, v) == c
    requires forall i :: 0 <= i < |s| ==> Count(s, s[i]) <= c
    ensures MaxCount(s) == c
  {
  }

  /** Two equal entries and a different one: two thirds, 67 under either tie rule. */
  lemma TwoOfThree<T>(mode: Rounding, x: T, y: T)
    requires x != y
    ensures MaxPercentage(mode, [x, x, y]) == 67
  {
    assert multiset([x, x, y]) == multiset{x, x, y};
    MaxCountIs([x, x, y], x, 2);
    MaxPercentageOfMaxCount(mode, [x, x, y]);
    assert Round(mode, 200, 3) == 67;
  }

  /** The example in the documentation of `max_percentage`: two thirds round to 67 under
      either tie rule (the documentation says 66). */
  lemma TwoThirds()
    ensures MaxPercentage(HalfEven, "aab") == 67 && MaxPercentage(HalfUp, "aab") == 67
  {
    TwoOfThree(HalfEven, 'a', 'b');
    TwoOfThree(HalfUp, 'a', 'b');
  }

  /** The test suite's two values occurring twice each: 50. */
  lemma TwoPairs(mode: Rounding)
    ensures MaxPercentage(mode, "aabb") == 50
  {
    assert multiset("aabb") == multiset{'a', 'a', 'b', 'b'};
    MaxCountIs("aabb", 'a', 2);
    MaxPercentageOfMaxCount(mode, "aabb");
    assert Round(mode, 200, 4) == 50;
  }

  /** The test suite's two pairs and a single value: 40. */
  lemma TwoPairsAndOne(mode: Rounding)
    ensures MaxPercentage(mode, "aabbc") == 40
  {
    assert multiset("aabbc") == multiset{'a', 'a', 'b', 'b', 'c'};
    MaxCountIs("aabbc", 'a', 2);
    MaxPercentageOfMaxCount(mode, "aabbc");
    assert Round(mode, 200, 5) == 40;
  }

  /** The test suite's three distinct values: 33. */
  lemma AllDistinct(mode: Rounding)
    ensures MaxPercentage(mode, "abc") == 33
  {
    assert multiset("abc") == multiset{'a', 'b', 'c'};
    MaxCountIs("abc", 'a', 1);
    MaxPercentageOfMaxCount(mode, "abc");
    assert Round(mode, 100, 3) == 33;
  }

  /** The boundary case of the documented convention: one entry in 200 is exactly 0.5%,
      which the documentation rounds up to 1 and Python's `round` rounds down to 0. */
  lemma HalfPercent()
    ensures Round(HalfUp, 100, 200) == 1 && Round(HalfEven, 100, 200) == 0
  {
  }

  /** The two tie rules agree unless the largest share is exactly an odd number of halves. */
  lemma RulesAgreeOffTies<T>(s: seq<T>)
    requires |s| > 0
    requires 2 * (100 * MaxCount(s) % |s|) != |s|
    ensures MaxPercentage(HalfEven, s) == MaxPercentage(HalfUp, s)
  {
    MaxPercentageOfMaxCount(HalfEven, s);
    MaxPercentageOfMaxCount(HalfUp, s);
  }
}
