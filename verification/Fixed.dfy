/** Integer arithmetic on prices: truncating division, the median, rescaling to an exponent. */
module Fixed {
  import opened Counting
  import opened Sorting

  function Abs(a: int): int { if a < 0 then -a else a }

  /** Division of bigints: toward zero, whatever the signs. */
  function TruncDiv(a: int, b: int): int
    requires b != 0
  {
    var q := Abs(a) / Abs(b);
    if (a < 0) == (b < 0) then q else -q
  }

  /** `q` is `a / d` without its fraction: multiplied back it falls short of `a` by less than `d`, and it has
      the sign of the quotient. */
  predicate TowardZero(q: int, a: int, d: int) {
    Abs(q) * Abs(d) <= Abs(a) < Abs(q) * Abs(d) + Abs(d) && (q == 0 || (q > 0) == ((a > 0) == (d > 0)))
  }

  lemma QuotientIff(q: int, x: int, d: int)
    requires d > 0
    ensures q == x / d <==> q * d <= x < q * d + d
  {
    DivBounds(x, d);
    var r := x / d;
    assert q * d + d == (q + 1) * d && r * d + d == (r + 1) * d;
    if q < r { MulMonotone(d, q + 1, r); }
    if r < q { MulMonotone(d, r + 1, q); }
  }

  /** Truncating division is the one rounding toward zero, for every sign of both arguments. */
  lemma TruncDivIsTowardZero(q: int, a: int, d: int)
    requires d != 0
    ensures q == TruncDiv(a, d) <==> TowardZero(q, a, d)
  {
    QuotientIff(Abs(q), Abs(a), Abs(d));
    QuotientIff(0, Abs(a), Abs(d));
  }

  predicate IntLe(a: int, b: int) { a <= b }

  /** The middle value; for an even count, the floor of the mean of the two middle values. */
  function Median(values: seq<int>): int
    requires values != []
  {
    var sorted := Sort(IntLe, values);
    var mid := |sorted| / 2;
    if |sorted| % 2 == 1 then sorted[mid]
    else
      var sum := sorted[mid - 1] + sorted[mid];
      if sum >= 0 then TruncDiv(sum, 2) else -TruncDiv(-sum + 1, 2)
  }

  /** How many values are at most `x`. */
  function CountLe(values: seq<int>, x: int): (n: nat)
    ensures n <= |values|
  {
    if values == [] then 0 else (if values[0] <= x then 1 else 0) + CountLe(values[1..], x)
  }

  lemma {:induction false} CountInsert(y: int, s: seq<int>, x: int)
    ensures CountLe(Insert(IntLe, y, s), x) == CountLe(s, x) + if y <= x then 1 else 0
  {
    if s == [] || y <= s[0] {
      assert ([y] + s)[1..] == s;
    } else {
      CountInsert(y, s[1..], x);
      assert Insert(IntLe, y, s)[1..] == Insert(IntLe, y, s[1..]);
    }
  }

  lemma {:induction false} CountSort(s: seq<int>, x: int)
    ensures CountLe(Sort(IntLe, s), x) == CountLe(s, x)
  {
    if s != [] {
      CountSort(s[1..], x);
      CountInsert(s[0], Sort(IntLe, s[1..]), x);
    }
  }

  lemma {:induction false} CountOrdered(t: seq<int>, k: nat, x: int)
    requires Ordered(IntLe, t) && k < |t|
    ensures t[k] <= x <==> CountLe(t, x) > k
  {
    var rest := t[1..];
    if t[0] <= x {
      if k > 0 { CountOrdered(rest, k - 1, x); }
    } else {
      assert IntLe(t[0], t[k]) || k == 0;
      if rest != [] {
        assert IntLe(t[0], t[1]);
        CountOrdered(rest, 0, x);
      }
    }
  }

  /** The value of rank `k` is at most `x` exactly when more than `k` values are. */
  lemma {:induction false} SortedRank(values: seq<int>, k: nat, x: int)
    requires k < |values|
    ensures Sort(IntLe, values)[k] <= x <==> CountLe(values, x) > k
  {
    SortOrdered(IntLe, values);
    CountSort(values, x);
    CountOrdered(Sort(IntLe, values), k, x);
  }

  /** The median through its ranks alone: no sorting, no rounding rule. */
  lemma {:induction false} MedianRank(values: seq<int>)
    requires values != []
    ensures forall x :: CountLe(values, x) > |values| / 2 ==> Median(values) <= x
    ensures forall x :: 2 * CountLe(values, x) < |values| ==> Median(values) > x
  {
    var sorted, mid := Sort(IntLe, values), |values| / 2;
    var low := if |values| % 2 == 1 then mid else mid - 1;
    SortOrdered(IntLe, values);
    assert low == mid || IntLe(sorted[low], sorted[mid]);
    assert sorted[low] <= Median(values) <= sorted[mid];
    forall x ensures CountLe(values, x) > mid ==> sorted[mid] <= x { SortedRank(values, mid, x); }
    forall x ensures 2 * CountLe(values, x) < |values| ==> sorted[low] > x { SortedRank(values, low, x); }
  }

  /** `x` is the value of rank `k`: more than `k` values are at most `x`, and no more than `k` are below it. */
  predicate HasRank(values: seq<int>, k: nat, x: int) { CountLe(values, x) > k && CountLe(values, x - 1) <= k }

  lemma {:induction false} CountStepIsMember(values: seq<int>, x: int)
    requires CountLe(values, x - 1) < CountLe(values, x)
    ensures x in values
  {
    if values[0] != x { CountStepIsMember(values[1..], x); }
  }

  /** Every rank has exactly one value, and it is one of the values. */
  lemma {:induction false} RankIsSorted(values: seq<int>, k: nat, x: int)
    requires k < |values|
    ensures HasRank(values, k, x) <==> x == Sort(IntLe, values)[k]
    ensures HasRank(values, k, x) ==> x in values
  {
    SortedRank(values, k, x);
    SortedRank(values, k, x - 1);
    if HasRank(values, k, x) { CountStepIsMember(values, x); }
  }

  /** The median of an odd count is the value of the middle rank. That of an even count is the mean of the
      values of the two middle ranks, rounded down, also below zero. */
  predicate IsMedian(values: seq<int>, m: int, a: int, b: int) {
    var n := |values|;
    if n % 2 == 1 then a == m == b && HasRank(values, n / 2, m)
    else n > 0 && HasRank(values, n / 2 - 1, a) && HasRank(values, n / 2, b) && 2 * m <= a + b < 2 * m + 2
  }

  lemma HalfRoundsDown(sum: int)
    ensures var half := if sum >= 0 then TruncDiv(sum, 2) else -TruncDiv(-sum + 1, 2); 2 * half <= sum < 2 * half + 2
  {
  }

  /** Counting alone settles the median: it is `m` if and only if `m` is one for some two middle values. */
  lemma {:induction false} MedianByCounting(values: seq<int>, m: int)
    requires values != []
    ensures m == Median(values) <==> exists a, b :: a in values && b in values && IsMedian(values, m, a, b)
  {
    var sorted, n := Sort(IntLe, values), |values|;
    var low := if n % 2 == 1 then n / 2 else n / 2 - 1;
    HalfRoundsDown(sorted[low] + sorted[n / 2]);
    RankIsSorted(values, low, sorted[low]);
    RankIsSorted(values, n / 2, sorted[n / 2]);
    if m == Median(values) { assert IsMedian(values, m, sorted[low], sorted[n / 2]); }
    if a, b :| a in values && b in values && IsMedian(values, m, a, b) {
      RankIsSorted(values, low, a);
      RankIsSorted(values, n / 2, b);
    }
  }

  lemma {:induction false} CountLeAtLeast(values: seq<int>, smaller: seq<int>, x: int)
    requires |values| == |smaller| && forall i :: 0 <= i < |values| ==> smaller[i] <= values[i]
    ensures CountLe(smaller, x) >= CountLe(values, x)
  {
    if values != [] { CountLeAtLeast(values[1..], smaller[1..], x); }
  }

  /** A pointwise smaller sequence has a smaller median. */
  lemma MedianMonotone(a: seq<int>, b: seq<int>)
    requires |a| == |b| > 0 && forall i :: 0 <= i < |a| ==> a[i] <= b[i]
    ensures Median(a) <= Median(b)
  {
    var s, t, mid := Sort(IntLe, a), Sort(IntLe, b), |a| / 2;
    forall k: nat | k < |a| ensures s[k] <= t[k] {
      SortedRank(b, k, t[k]);
      CountLeAtLeast(b, a, t[k]);
      SortedRank(a, k, t[k]);
    }
    if |a| % 2 == 0 { assert s[mid - 1] + s[mid] <= t[mid - 1] + t[mid]; }
  }

  /** How many of the authors are in `faulty`. */
  function CountIn(authors: seq<nat>, faulty: set<nat>): nat {
    if authors == [] then 0 else (if authors[0] in faulty then 1 else 0) + CountIn(authors[1..], faulty)
  }

  lemma {:induction false} CountInBound(authors: seq<nat>, faulty: set<nat>)
    requires Distinct(authors)
    ensures CountIn(authors, faulty) <= |faulty|
  {
    if authors != [] {
      var a, rest := authors[0], authors[1..];
      assert forall j :: 0 <= j < |rest| ==> rest[j] == authors[j + 1];
      if a in faulty {
        CountInBound(rest, faulty - {a});
        CountInSame(rest, faulty, a);
      } else {
        CountInBound(rest, faulty);
      }
    }
  }

  lemma {:induction false} CountInSame(authors: seq<nat>, faulty: set<nat>, a: nat)
    requires a !in authors
    ensures CountIn(authors, faulty) == CountIn(authors, faulty - {a})
  {
    if authors != [] { CountInSame(authors[1..], faulty, a); }
  }

  lemma {:induction false} HonestCounts(values: seq<int>, authors: seq<nat>, faulty: set<nat>, lo: int, hi: int)
    requires |values| == |authors| && forall k :: 0 <= k < |values| && authors[k] !in faulty ==> lo <= values[k] <= hi
    ensures CountLe(values, hi) >= |values| - CountIn(authors, faulty)
    ensures CountLe(values, lo - 1) <= CountIn(authors, faulty)
  {
    if values != [] { HonestCounts(values[1..], authors[1..], faulty, lo, hi); }
  }

  /** With faulty authors in the minority, the median lies between the least and the greatest honest value. */
  lemma MedianBetweenHonest(values: seq<int>, authors: seq<nat>, faulty: set<nat>, lo: int, hi: int)
    requires |values| == |authors| && Distinct(authors) && 2 * |faulty| < |values|
    requires forall k :: 0 <= k < |values| && authors[k] !in faulty ==> lo <= values[k] <= hi
    ensures lo <= Median(values) <= hi
  {
    CountInBound(authors, faulty);
    HonestCounts(values, authors, faulty, lo, hi);
    MedianRank(values);
  }

  /** In particular the median lies between the least and the greatest of all its values. */
  lemma MedianInHull(values: seq<int>, lo: int, hi: int)
    requires values != [] && forall k :: 0 <= k < |values| ==> lo <= values[k] <= hi
    ensures lo <= Median(values) <= hi
  {
    MedianBetweenHonest(values, seq(|values|, i requires 0 <= i < |values| => i), {}, lo, hi);
  }

  function Pow10(k: nat): (p: int)
    ensures p > 0
  {
    if k == 0 then 1 else 10 * Pow10(k - 1)
  }

  lemma EighteenDecimals()
    ensures Pow10(18) == 1_000_000_000_000_000_000
  {
    assert Pow10(6) == 1_000_000;
    assert Pow10(12) == 1_000_000_000_000;
  }

  lemma {:induction false} Pow10Adds(a: nat, b: nat)
    ensures Pow10(a + b) == Pow10(a) * Pow10(b)
  {
    if a > 0 {
      Pow10Adds(a - 1, b);
      var p, q := Pow10(a - 1), Pow10(b);
      assert 10 * (p * q) == (10 * p) * q;
    }
  }

  /** 18-decimal fixed point to an integer at `expo`, rounding half away from zero. */
  function ToExpo(value: int, expo: int): int {
    var shift := 18 + expo;
    if shift < 0 then value * Pow10(-shift)
    else
      var divisor := Pow10(shift);
      (if value < 0 then -1 else 1) * ((Abs(value) * 2 + divisor) / (2 * divisor))
  }

  lemma DivBounds(x: int, d: int)
    requires d > 0
    ensures d * (x / d) <= x < d * (x / d) + d
  {
  }

  lemma MulMonotone(d: int, a: int, b: int)
    requires d >= 0 && a <= b
    ensures d * a <= d * b
  {
    assert d * (b - a) >= 0;
  }

  lemma DivAtLeast(n: nat, lo: int, sum: int)
    requires n > 0 && n * lo <= sum
    ensures lo <= sum / n
  {
    DivBounds(sum, n);
    assert n * (sum / n + 1) == n * (sum / n) + n;
    if sum / n + 1 <= lo { MulMonotone(n, sum / n + 1, lo); }
  }

  lemma DivAtMost(n: nat, hi: int, sum: int)
    requires n > 0 && sum <= n * hi
    ensures sum / n <= hi
  {
    DivBounds(sum, n);
    assert n * (hi + 1) == n * hi + n;
    if hi + 1 <= sum / n { MulMonotone(n, hi + 1, sum / n); }
  }

  lemma MulNegated(n: int, x: int)
    ensures n * -x == -(n * x)
  {
  }

  lemma QuotientBetween(sum: int, n: nat, lo: int, hi: int)
    requires n > 0 && n * lo <= sum <= n * hi
    ensures lo <= TruncDiv(sum, n) <= hi
  {
    if sum >= 0 {
      DivAtLeast(n, lo, sum);
      DivAtMost(n, hi, sum);
    } else {
      MulNegated(n, lo);
      MulNegated(n, hi);
      DivAtLeast(n, -hi, -sum);
      DivAtMost(n, -lo, -sum);
    }
  }

  /** Adding half the divisor before dividing rounds to a nearest multiple. */
  lemma RoundedQuotient(a: int, d: int)
    requires a >= 0 && d > 0
    ensures var q := (a * 2 + d) / (2 * d); q >= 0 && -d <= 2 * (a - q * d) < d
  {
    var q := (a * 2 + d) / (2 * d);
    DivBounds(a * 2 + d, 2 * d);
    var t := q * d;
    assert (2 * d) * q == 2 * t;
  }

  /** The result is the nearest integer, the one further from zero where two are equally near; and below
      eighteen decimals nothing is lost. */
  lemma {:induction false} ToExpoNearest(value: int, expo: int)
    ensures 18 + expo >= 0 ==>
              var unit, r := Pow10(18 + expo), ToExpo(value, expo);
              -unit <= 2 * (Abs(value) - Abs(r) * unit) < unit && (value >= 0 ==> r >= 0) && (value <= 0 ==> r <= 0)
    ensures 18 + expo < 0 ==> ToExpo(value, expo) == value * Pow10(-(18 + expo))
  {
    if 18 + expo >= 0 {
      var d, a := Pow10(18 + expo), Abs(value);
      var q := (a * 2 + d) / (2 * d);
      RoundedQuotient(a, d);
      assert ToExpo(value, expo) == if value < 0 then -q else q;
    }
  }

  /** Rounding half up: to the nearest, and from the middle upwards. */
  predicate RoundsHalfUp(value: int, unit: int, r: int) { (2 * r - 1) * unit <= 2 * value < (2 * r + 1) * unit }

  /** Half-way between two multiples. */
  ghost predicate HalfWay(value: int, unit: int) { exists k: int :: 2 * value == k * unit + k * unit + unit }

  lemma SignedTimes(r: int, unit: int)
    ensures (2 * r - 1) * unit == 2 * (r * unit) - unit && (2 * r + 1) * unit == 2 * (r * unit) + unit
    ensures Abs(r) * unit == if r < 0 then -(r * unit) else r * unit
  {
    assert -r * unit == -(r * unit);
  }

  /** The rescaling is documented to round half up. It does, except that a negative value half-way goes down. */
  lemma {:induction false} HalfUpIff(value: int, expo: int)
    requires 18 + expo >= 0
    ensures RoundsHalfUp(value, Pow10(18 + expo), ToExpo(value, expo))
       <==> !(value < 0 && HalfWay(value, Pow10(18 + expo)))
  {
    var unit, r := Pow10(18 + expo), ToExpo(value, expo);
    ToExpoNearest(value, expo);
    SignedTimes(r, unit);
    if value < 0 {
      assert RoundsHalfUp(value, unit, r) <==> 2 * value != 2 * (r * unit) + unit;
      if 2 * value == 2 * (r * unit) + unit { assert HalfWay(value, unit); }
      if k: int :| 2 * value == k * unit + k * unit + unit {
        HalfWayIs(value, unit, r, k);
      }
    }
  }

  lemma HalfWayIs(value: int, unit: int, r: int, k: int)
    requires unit > 0 && 2 * value == 2 * (k * unit) + unit && -unit < 2 * value - 2 * (r * unit) <= unit
    ensures r == k
  {
    if r < k { MulMonotone(unit, r + 1, k); }
    if k < r { MulMonotone(unit, k + 1, r); }
  }

  /** Minus one half becomes minus one, where half up would give zero. */
  lemma NegativeHalfGoesDown()
    ensures ToExpo(-500_000_000_000_000_000, 0) == -1 && HalfWay(-500_000_000_000_000_000, Pow10(18))
  {
    EighteenDecimals();
    assert 2 * -500_000_000_000_000_000 == -1 * Pow10(18) + -1 * Pow10(18) + Pow10(18);
  }
}
