/** JavaScript's `Number(bigint)`: rounding to a double's 53 significant bits, half to even. */
module Doubles {
  const EXACT := 0x20_0000_0000_0000 // 2^53

  /** Drops low bits until 53 are left. `half` is the bit dropped last, `rest` whether any before it was set. */
  function RoundBits(n: nat, half: bool, rest: bool): nat {
    if n >= EXACT then 2 * RoundBits(n / 2, n % 2 == 1, half || rest)
    else if half && (rest || n % 2 == 1) then n + 1
    else n
  }

  function Number(n: nat): nat { RoundBits(n, false, false) }

  lemma {:induction false} RoundedIsLarge(n: nat, half: bool, rest: bool)
    requires n >= EXACT / 2
    ensures RoundBits(n, half, rest) >= EXACT / 2 && (n >= EXACT ==> RoundBits(n, half, rest) >= EXACT)
  {
    if n >= EXACT { RoundedIsLarge(n / 2, n % 2 == 1, half || rest); }
  }

  /** The dropped part of the first number is no larger than the second's. */
  predicate DroppedLe(half: bool, rest: bool, half': bool, rest': bool) {
    (half ==> half') && (half == half' ==> (rest ==> rest'))
  }

  lemma {:induction false} RoundBitsMonotone(n: nat, half: bool, rest: bool, m: nat, half': bool, rest': bool)
    requires n < m || (n == m && DroppedLe(half, rest, half', rest'))
    ensures RoundBits(n, half, rest) <= RoundBits(m, half', rest')
  {
    if n >= EXACT {
      RoundBitsMonotone(n / 2, n % 2 == 1, half || rest, m / 2, m % 2 == 1, half' || rest');
    } else if m >= EXACT {
      RoundedIsLarge(m, half', rest');
    }
  }

  /** Above 2^53 only even integers are doubles: an odd one goes to the multiple of four beside it. */
  lemma NumberRoundsToEven(m: nat)
    requires EXACT / 2 <= m < EXACT
    ensures Number(2 * m) == 2 * m && Number(2 * m + 1) == 2 * (if m % 2 == 0 then m else m + 1)
  {
    Halved(2 * m, false, false);
    Halved(2 * m + 1, false, false);
  }

  /** Above 2^54 only multiples of four are: what lies between goes to the nearer, and from the middle to the
      multiple of eight. */
  lemma NumberRoundsToNearest(m: nat)
    requires EXACT / 2 <= m < EXACT
    ensures Number(4 * m) == 4 * m && Number(4 * m + 1) == 4 * m && Number(4 * m + 3) == 4 * (m + 1)
    ensures Number(4 * m + 2) == 4 * (if m % 2 == 0 then m else m + 1)
  {
    HalvedTwice(m, 0);
    HalvedTwice(m, 1);
    HalvedTwice(m, 2);
    HalvedTwice(m, 3);
  }

  lemma HalvedTwice(m: nat, low: nat)
    requires EXACT / 2 <= m < EXACT && low < 4
    ensures Number(4 * m + low) == 4 * RoundBits(m, low >= 2, low % 2 == 1)
  {
    var n := 4 * m + low;
    Halved(n, false, false);
    Halved(n / 2, n % 2 == 1, false);
  }

  lemma Halved(n: nat, half: bool, rest: bool)
    requires n >= EXACT
    ensures RoundBits(n, half, rest) == 2 * RoundBits(n / 2, n % 2 == 1, half || rest)
  {
  }

  /** Rounding keeps the order. */
  lemma NumberMonotone(n: nat, m: nat)
    requires n <= m
    ensures Number(n) <= Number(m)
  {
    RoundBitsMonotone(n, false, false, m, false, false);
  }

  /** Every integer up to 2^53 is a double. */
  lemma NumberExact(n: nat)
    requires n <= EXACT
    ensures Number(n) == n
  {
    if n == EXACT { assert RoundBits(EXACT / 2, false, false) == EXACT / 2; }
  }
}
