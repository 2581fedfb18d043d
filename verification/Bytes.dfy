/** Bytes, fixed-width little-endian integers, the byte order used to sort hashes and keys, and the
    imperative Writer and Reader that the protocol's codecs drive. */
module Bytes {
  import opened Wrappers

  type byte = x: int | 0 <= x < 256
  type Bytes = seq<byte>
  type Bytes32 = b: Bytes | |b| == 32 witness seq(32, i => 0)
  type Bytes33 = b: Bytes | |b| == 33 witness seq(33, i => 0)
  type Bytes65 = b: Bytes | |b| == 65 witness seq(65, i => 0)

  type u8 = x: int | 0 <= x < 0x100
  type u16 = x: int | 0 <= x < 0x1_0000
  type u32 = x: int | 0 <= x < 0x1_0000_0000
  type u64 = x: int | 0 <= x < 0x1_0000_0000_0000_0000
  type i32 = x: int | -0x8000_0000 <= x < 0x8000_0000
  type i64 = x: int | -0x8000_0000_0000_0000 <= x < 0x8000_0000_0000_0000

  // ----- unsigned and two's complement integers, least significant byte first

  function Pow256(n: nat): (p: int)
    ensures p > 0
  {
    if n == 0 then 1 else 256 * Pow256(n - 1)
  }

  lemma Pow256Values()
    ensures Pow256(1) == 0x100 && Pow256(2) == 0x1_0000 && Pow256(4) == 0x1_0000_0000
    ensures Pow256(8) == 0x1_0000_0000_0000_0000
  {
    assert Pow256(3) == 0x100_0000;
    assert Pow256(5) == 0x100_0000_0000;
    assert Pow256(7) == 0x100_0000_0000_0000;
  }

  function ToLE(size: nat, v: int): (b: Bytes)
    requires 0 <= v < Pow256(size)
    ensures |b| == size
  {
    if size == 0 then [] else [v % 256] + ToLE(size - 1, v / 256)
  }

  /** The lowest byte first. */
  lemma {:induction false} LowestFirst(size: nat, v: int, i: nat)
    requires 0 <= v < Pow256(size) && i < size
    ensures ToLE(size, v)[i] == v / Pow256(i) % 256
  {
    if i > 0 {
      LowestFirst(size - 1, v / 256, i - 1);
      DivideTwice(v, Pow256(i - 1));
    }
  }

  lemma DivideTwice(v: int, p: int)
    requires v >= 0 && p > 0
    ensures v / 256 / p == v / (256 * p)
  {
    var q, r := v / 256 / p, v / 256 % p;
    assert v == 256 * (p * q + r) + v % 256;
    assert 256 * (p * q) == (256 * p) * q;
    assert 0 <= 256 * r + v % 256 < 256 * p;
    Quotient(v, 256 * p, q, 256 * r + v % 256);
  }

  lemma Quotient(v: int, d: int, q: int, r: int)
    requires d > 0 && v == d * q + r && 0 <= r < d
    ensures v / d == q
  {
    var p := v / d;
    assert v == d * p + v % d;
    if p < q { TimesLess(d, p, q); }
    if q < p { TimesLess(d, q, p); }
  }

  lemma TimesLess(d: int, a: int, b: int)
    requires d > 0 && a < b
    ensures d * a + d <= d * b
  {
    assert d * b - d * a - d == d * (b - a - 1);
    assert d * (b - a - 1) >= 0;
  }

  function FromLE(b: Bytes): (v: int)
    ensures 0 <= v < Pow256(|b|)
  {
    if b == [] then 0 else b[0] + 256 * FromLE(b[1..])
  }

  lemma {:induction false} FromToLE(size: nat, v: int)
    requires 0 <= v < Pow256(size)
    ensures FromLE(ToLE(size, v)) == v
  {
    if size != 0 {
      FromToLE(size - 1, v / 256);
      assert ToLE(size, v)[1..] == ToLE(size - 1, v / 256);
    }
  }

  lemma {:induction false} ToFromLE(b: Bytes)
    ensures ToLE(|b|, FromLE(b)) == b
  {
    if b != [] {
      ToFromLE(b[1..]);
      var rest := FromLE(b[1..]);
      assert FromLE(b) % 256 == b[0] && FromLE(b) / 256 == rest;
      assert b == [b[0]] + b[1..];
    }
  }

  predicate InSigned(size: nat, v: int) {
    -Pow256(size) <= 2 * v < Pow256(size)
  }

  /** Two's complement: a negative value is stored as itself plus 2^(8·size). */
  function Wrap(size: nat, v: int): (u: int)
    requires InSigned(size, v)
    ensures 0 <= u < Pow256(size)
  {
    if v < 0 then v + Pow256(size) else v
  }

  function Unwrap(size: nat, u: int): (v: int)
    requires 0 <= u < Pow256(size)
    ensures InSigned(size, v)
    ensures Wrap(size, v) == u
  {
    if 2 * u < Pow256(size) then u else u - Pow256(size)
  }

  // ----- lexicographic order

  predicate LexLe(a: seq<int>, b: seq<int>) {
    a == [] || (b != [] && (a[0] < b[0] || (a[0] == b[0] && LexLe(a[1..], b[1..]))))
  }

  lemma {:induction false} LexTotal(a: seq<int>, b: seq<int>)
    ensures LexLe(a, b) || LexLe(b, a)
  {
    if a != [] && b != [] { LexTotal(a[1..], b[1..]); }
  }

  lemma {:induction false} LexAntisymmetric(a: seq<int>, b: seq<int>)
    requires LexLe(a, b) && LexLe(b, a)
    ensures a == b
  {
    if a != [] && b != [] {
      LexAntisymmetric(a[1..], b[1..]);
      assert a == [a[0]] + a[1..] && b == [b[0]] + b[1..];
    }
  }

  lemma {:induction false} LexTransitive(a: seq<int>, b: seq<int>, c: seq<int>)
    requires LexLe(a, b) && LexLe(b, c)
    ensures LexLe(a, c)
  {
    if a != [] && a[0] == b[0] && b[0] == c[0] { LexTransitive(a[1..], b[1..], c[1..]); }
  }

  predicate LexLt(a: seq<int>, b: seq<int>) {
    LexLe(a, b) && a != b
  }

  lemma LexLtTransitive(a: seq<int>, b: seq<int>, c: seq<int>)
    requires LexLt(a, b) && LexLt(b, c)
    ensures LexLt(a, c)
  {
    LexTransitive(a, b, c);
    if a == c { LexAntisymmetric(a, b); }
  }

  // ----- the imperative writer and reader

  /** Everything written so far, in order. */
  function Concat(parts: seq<Bytes>): (b: Bytes) {
    if parts == [] then [] else Concat(parts[..|parts| - 1]) + parts[|parts| - 1]
  }

  class Writer {
    var parts: seq<Bytes>

    ghost function Written(): Bytes
      reads this
    {
      Concat(parts)
    }

    constructor ()
      ensures Written() == []
    {
      parts := [];
    }

    method PutBytes(value: Bytes)
      modifies this
      ensures Written() == old(Written()) + value
    {
      parts := parts + [value];
      assert parts[..|parts| - 1] == old(parts);
    }

    /** A value outside `[min, max]` throws and writes nothing. */
    method PutInt(value: int, size: nat, min: int, max: int) returns (ok: bool)
      requires size > 0
      requires (min == 0 && max == Pow256(size) - 1) || (2 * min == -Pow256(size) && max == -min - 1)
      modifies this
      ensures ok <==> min <= value <= max
      ensures !ok ==> Written() == old(Written())
      ensures ok && min == 0 ==> Written() == old(Written()) + ToLE(size, value)
      ensures ok && min < 0 ==> InSigned(size, value) && Written() == old(Written()) + ToLE(size, Wrap(size, value))
    {
      if value < min || value > max {
        return false;
      }
      var out := IntBytes(if value < 0 then value + Pow256(size) else value, size);
      PutBytes(out);
      return true;
    }
  }

  /** The byte loop of `PutInt`. */
  method IntBytes(value: int, size: nat) returns (out: Bytes)
    requires 0 <= value < Pow256(size)
    ensures out == ToLE(size, value)
  {
    out := [];
    var unsigned := value;
    for i := 0 to size
      invariant |out| == i && 0 <= unsigned < Pow256(size - i)
      invariant ToLE(size, value) == out + ToLE(size - i, unsigned)
    {
      out := out + [unsigned % 256];
      unsigned := unsigned / 256;
    }
  }

  class Reader {
    const data: Bytes
    var offset: nat

    ghost predicate Valid()
      reads this
    {
      offset <= |data|
    }

    constructor (data: Bytes)
      ensures Valid() && this.data == data && offset == 0
    {
      this.data := data;
      offset := 0;
    }

    /** Past the end it throws and does not move. */
    method GetBytes(length: nat) returns (r: Option<Bytes>)
      requires Valid()
      modifies this
      ensures Valid()
      ensures r.Some? <==> old(offset) + length <= |data|
      ensures r.Some? ==> offset == old(offset) + length && r.value == data[old(offset)..offset]
      ensures r.None? ==> offset == old(offset)
    {
      var end := offset + length;
      if end > |data| {
        return None;
      }
      r := Some(data[offset..end]);
      offset := end;
    }

    method GetUint(size: nat) returns (r: Option<int>)
      requires Valid()
      modifies this
      ensures Valid()
      ensures r.Some? <==> old(offset) + size <= |data|
      ensures r.Some? ==> offset == old(offset) + size && r.value == FromLE(data[old(offset)..offset])
      ensures r.None? ==> offset == old(offset)
    {
      var bytes := GetBytes(size);
      if bytes.None? {
        return None;
      }
      var b := bytes.value;
      var value: int := 0;
      var i := size;
      while i > 0
        invariant 0 <= i <= size
        invariant value == FromLE(b[i..])
      {
        i := i - 1;
        value := value * 256 + b[i];
        assert b[i..][1..] == b[i + 1..];
      }
      assert b[0..] == b;
      return Some(value);
    }

    /** `BigInt.asIntN`: the stored bits read back as a two's complement number. */
    method GetInt(size: nat) returns (r: Option<int>)
      requires Valid()
      modifies this
      ensures Valid()
      ensures r.Some? <==> old(offset) + size <= |data|
      ensures r.Some? ==> offset == old(offset) + size && InSigned(size, r.value)
                          && ToLE(size, Wrap(size, r.value)) == data[old(offset)..offset]
      ensures r.None? ==> offset == old(offset)
    {
      var u := GetUint(size);
      if u.None? {
        return None;
      }
      var limit := Pow256(size);
      ToFromLE(data[old(offset)..offset]);
      return Some(if 2 * u.value < limit then u.value else u.value - limit);
    }
  }
}
