/** A grammar of the byte layouts the protocol uses. */
module Formats {
  // Every concrete layout is a `Format`, so decoding undoing encoding, and a decoder accepting only
  // canonical bytes, are each proved once.

  import opened Bytes
  import opened Wrappers

  datatype Format =
    | Literal(bytes: Bytes)               // magic, version, reserved bytes
    | Fixed(size: nat)                    // raw bytes
    | UInt(size: nat)                     // little-endian unsigned
    | SInt(size: nat)                     // little-endian two's complement
    | Sized(width: nat)                   // a count of `width` bytes, then that many raw bytes
    | Record(fields: seq<Format>)         // fields in order
    | Counted(width: nat, item: Format)   // a count of `width` bytes, then that many items
    | Optional(item: Format)              // marker 0, or marker 1 and the item

  datatype Value =
    | Unit
    | Raw(raw: Bytes)
    | Int(num: int)
    | List(items: seq<Value>)

  /** The values a format can carry. */
  predicate Conforms(f: Format, v: Value)
    decreases f
  {
    match f
    case Literal(_) => v.Unit?
    case Fixed(size) => v.Raw? && |v.raw| == size
    case UInt(size) => v.Int? && 0 <= v.num < Pow256(size)
    case SInt(size) => v.Int? && InSigned(size, v.num)
    case Sized(width) => v.Raw? && |v.raw| < Pow256(width)
    case Record(fields) => v.List? && |v.items| == |fields|
        && forall i :: 0 <= i < |fields| ==> Conforms(fields[i], v.items[i])
    case Counted(width, item) => v.List? && |v.items| < Pow256(width)
        && forall i :: 0 <= i < |v.items| ==> Conforms(item, v.items[i])
    case Optional(item) => v.List? && |v.items| <= 1 && forall i :: 0 <= i < |v.items| ==> Conforms(item, v.items[i])
  }

  function Encode(f: Format, v: Value): Bytes
    requires Conforms(f, v)
    decreases f, 0, 0
  {
    match f
    case Literal(bytes) => bytes
    case Fixed(_) => v.raw
    case UInt(size) => ToLE(size, v.num)
    case SInt(size) => ToLE(size, Wrap(size, v.num))
    case Sized(width) => ToLE(width, |v.raw|) + v.raw
    case Record(fields) => EncodeFields(fields, v.items)
    case Counted(width, item) => ToLE(width, |v.items|) + EncodeItems(item, v.items)
    case Optional(item) => [|v.items|] + EncodeItems(item, v.items)
  }

  function EncodeFields(fields: seq<Format>, vs: seq<Value>): Bytes
    requires |vs| == |fields| && forall i :: 0 <= i < |fields| ==> Conforms(fields[i], vs[i])
    decreases fields, 1, 0
  {
    if fields == [] then [] else Encode(fields[0], vs[0]) + EncodeFields(fields[1..], vs[1..])
  }

  function EncodeItems(item: Format, vs: seq<Value>): Bytes
    requires forall i :: 0 <= i < |vs| ==> Conforms(item, vs[i])
    decreases item, 1, |vs|
  {
    if vs == [] then [] else Encode(item, vs[0]) + EncodeItems(item, vs[1..])
  }

  function Joined(parts: seq<Bytes>): Bytes {
    if parts == [] then [] else parts[0] + Joined(parts[1..])
  }

  /** A record is its fields' bytes, one after the other. */
  lemma {:induction false} FieldsJoined(fields: seq<Format>, vs: seq<Value>, parts: seq<Bytes>)
    requires |vs| == |fields| == |parts| && forall i :: 0 <= i < |fields| ==> Conforms(fields[i], vs[i])
    requires forall i :: 0 <= i < |fields| ==> Encode(fields[i], vs[i]) == parts[i]
    ensures EncodeFields(fields, vs) == Joined(parts)
  {
    if fields != [] { FieldsJoined(fields[1..], vs[1..], parts[1..]); }
  }

  /** And a list its items'. */
  lemma {:induction false} ItemsJoined(item: Format, vs: seq<Value>, parts: seq<Bytes>)
    requires |vs| == |parts| && forall i :: 0 <= i < |vs| ==> Conforms(item, vs[i])
    requires forall i :: 0 <= i < |vs| ==> Encode(item, vs[i]) == parts[i]
    ensures EncodeItems(item, vs) == Joined(parts)
  {
    if vs != [] { ItemsJoined(item, vs[1..], parts[1..]); }
  }

  lemma {:induction false} JoinedAppend(a: seq<Bytes>, b: seq<Bytes>)
    ensures Joined(a + b) == Joined(a) + Joined(b)
  {
    if a == [] {
      assert a + b == b;
    } else {
      JoinedAppend(a[1..], b);
      assert (a + b)[1..] == a[1..] + b;
    }
  }

  type Parsed<+T> = Option<(T, Bytes)>

  function Take(s: Bytes, n: nat): Parsed<Bytes> {
    if n <= |s| then Some((s[..n], s[n..])) else None
  }

  /** The value at the front of `s` and the bytes after it. */
  function Decode(f: Format, s: Bytes): Parsed<Value>
    decreases f, 0, 0
  {
    match f
    case Literal(bytes) =>
      if bytes <= s then Some((Unit, s[|bytes|..])) else None
    case Fixed(size) =>
      (match Take(s, size) case None => None case Some((b, rest)) => Some((Raw(b), rest)))
    case UInt(size) =>
      (match Take(s, size) case None => None case Some((b, rest)) => Some((Int(FromLE(b)), rest)))
    case SInt(size) =>
      (match Take(s, size) case None => None case Some((b, rest)) => Some((Int(Unwrap(size, FromLE(b))), rest)))
    case Sized(width) =>
      (match Take(s, width)
       case None => None
       case Some((b, tail)) =>
         match Take(tail, FromLE(b)) case None => None case Some((raw, rest)) => Some((Raw(raw), rest)))
    case Record(fields) =>
      (match DecodeFields(fields, s) case None => None case Some((vs, rest)) => Some((List(vs), rest)))
    case Counted(width, item) =>
      (match Take(s, width)
       case None => None
       case Some((b, tail)) =>
         match DecodeItems(item, FromLE(b), tail) case None => None case Some((vs, rest)) => Some((List(vs), rest)))
    case Optional(item) =>
      if s == [] || s[0] > 1 then None
      else
        match DecodeItems(item, s[0], s[1..]) case None => None case Some((vs, rest)) => Some((List(vs), rest))
  }

  function DecodeFields(fields: seq<Format>, s: Bytes): Parsed<seq<Value>>
    decreases fields, 1, 0
  {
    if fields == [] then Some(([], s))
    else
      match Decode(fields[0], s)
      case None => None
      case Some((v, tail)) =>
        match DecodeFields(fields[1..], tail) case None => None case Some((vs, rest)) => Some(([v] + vs, rest))
  }

  function DecodeItems(item: Format, count: nat, s: Bytes): Parsed<seq<Value>>
    decreases item, 1, count
  {
    if count == 0 then Some(([], s))
    else
      match Decode(item, s)
      case None => None
      case Some((v, tail)) =>
        match DecodeItems(item, count - 1, tail) case None => None case Some((vs, rest)) => Some(([v] + vs, rest))
  }

  lemma TakeFront(a: Bytes, rest: Bytes)
    ensures Take(a + rest, |a|) == Some((a, rest))
  {
    assert (a + rest)[..|a|] == a && (a + rest)[|a|..] == rest;
  }

  // ----- decoding undoes encoding, whatever follows

  lemma {:induction false} DecodeEncode(f: Format, v: Value, rest: Bytes)
    requires Conforms(f, v)
    ensures Decode(f, Encode(f, v) + rest) == Some((v, rest))
    decreases f, 0, 0
  {
    var s := Encode(f, v) + rest;
    match f
    case Literal(bytes) =>
      assert s[|bytes|..] == rest;
    case Fixed(size) =>
      TakeFront(v.raw, rest);
    case UInt(size) =>
      FromToLE(size, v.num);
      TakeFront(ToLE(size, v.num), rest);
    case SInt(size) =>
      FromToLE(size, Wrap(size, v.num));
      TakeFront(ToLE(size, Wrap(size, v.num)), rest);
    case Sized(width) =>
      FromToLE(width, |v.raw|);
      TakeFront(ToLE(width, |v.raw|), v.raw + rest);
      TakeFront(v.raw, rest);
      assert s == ToLE(width, |v.raw|) + (v.raw + rest);
    case Record(fields) =>
      DecodeEncodeFields(fields, v.items, rest);
    case Counted(width, item) =>
      var head, body := ToLE(width, |v.items|), EncodeItems(item, v.items);
      FromToLE(width, |v.items|);
      TakeFront(head, body + rest);
      assert s == head + (body + rest);
      DecodeEncodeItems(item, v.items, rest);
    case Optional(item) =>
      var body := EncodeItems(item, v.items);
      assert s[0] == |v.items| && s[1..] == body + rest;
      DecodeEncodeItems(item, v.items, rest);
  }

  lemma {:induction false} DecodeEncodeFields(fields: seq<Format>, vs: seq<Value>, rest: Bytes)
    requires |vs| == |fields| && forall i :: 0 <= i < |fields| ==> Conforms(fields[i], vs[i])
    ensures DecodeFields(fields, EncodeFields(fields, vs) + rest) == Some((vs, rest))
    decreases fields, 1, 0
  {
    if fields == [] {
      assert EncodeFields(fields, vs) + rest == rest;
    } else {
      var head, tail := Encode(fields[0], vs[0]), EncodeFields(fields[1..], vs[1..]);
      assert EncodeFields(fields, vs) + rest == head + (tail + rest);
      DecodeEncode(fields[0], vs[0], tail + rest);
      DecodeEncodeFields(fields[1..], vs[1..], rest);
      assert [vs[0]] + vs[1..] == vs;
    }
  }

  lemma {:induction false} DecodeEncodeItems(item: Format, vs: seq<Value>, rest: Bytes)
    requires forall i :: 0 <= i < |vs| ==> Conforms(item, vs[i])
    ensures DecodeItems(item, |vs|, EncodeItems(item, vs) + rest) == Some((vs, rest))
    decreases item, 1, |vs|
  {
    if vs == [] {
      assert EncodeItems(item, vs) + rest == rest;
    } else {
      var head, tail := Encode(item, vs[0]), EncodeItems(item, vs[1..]);
      assert EncodeItems(item, vs) + rest == head + (tail + rest);
      DecodeEncode(item, vs[0], tail + rest);
      DecodeEncodeItems(item, vs[1..], rest);
      assert [vs[0]] + vs[1..] == vs;
    }
  }

  // ----- what a decoder accepts re-encodes to itself

  lemma {:induction false} EncodeDecode(f: Format, s: Bytes)
    ensures var r := Decode(f, s);
            r.Some? ==> Conforms(f, r.value.0) && s == Encode(f, r.value.0) + r.value.1
    decreases f, 0, 0
  {
    match f
    case Literal(bytes) =>
    case Fixed(size) =>
    case UInt(size) =>
      if size <= |s| { ToFromLE(s[..size]); }
    case SInt(size) =>
      if size <= |s| { ToFromLE(s[..size]); }
    case Sized(width) =>
      EncodeDecodeSized(width, s);
    case Record(fields) =>
      EncodeDecodeFields(fields, s);
    case Counted(width, item) =>
      EncodeDecodeCounted(width, item, s);
    case Optional(item) =>
      if Decode(f, s).Some? {
        var (v, rest) := Decode(f, s).value;
        EncodeDecodeItems(item, s[0], s[1..]);
        assert s == [s[0]] + (EncodeItems(item, v.items) + rest);
      }
  }

  lemma {:induction false} EncodeDecodeSized(width: nat, s: Bytes)
    ensures var r := Decode(Sized(width), s);
            r.Some? ==> Conforms(Sized(width), r.value.0) && s == Encode(Sized(width), r.value.0) + r.value.1
  {
    if Decode(Sized(width), s).Some? {
      var (v, rest) := Decode(Sized(width), s).value;
      ToFromLE(s[..width]);
      assert s == s[..width] + (v.raw + rest);
    }
  }

  lemma {:induction false} EncodeDecodeCounted(width: nat, item: Format, s: Bytes)
    ensures var r := Decode(Counted(width, item), s);
            r.Some? ==>
                Conforms(Counted(width, item), r.value.0) && s == Encode(Counted(width, item), r.value.0) + r.value.1
    decreases item, 2, 0
  {
    if Decode(Counted(width, item), s).Some? {
      var (v, rest) := Decode(Counted(width, item), s).value;
      ToFromLE(s[..width]);
      EncodeDecodeItems(item, FromLE(s[..width]), s[width..]);
      assert s == s[..width] + (EncodeItems(item, v.items) + rest);
    }
  }

  lemma {:induction false} EncodeDecodeFields(fields: seq<Format>, s: Bytes)
    ensures var r := DecodeFields(fields, s);
            r.Some? ==> |r.value.0| == |fields|
                        && (forall i :: 0 <= i < |fields| ==> Conforms(fields[i], r.value.0[i]))
                        && s == EncodeFields(fields, r.value.0) + r.value.1
    decreases fields, 1, 0
  {
    if fields != [] && DecodeFields(fields, s).Some? {
      EncodeDecode(fields[0], s);
      var (v, tail) := Decode(fields[0], s).value;
      EncodeDecodeFields(fields[1..], tail);
      var (vs, rest) := DecodeFields(fields[1..], tail).value;
      assert ([v] + vs)[1..] == vs;
    }
  }

  lemma {:induction false} EncodeDecodeItems(item: Format, count: nat, s: Bytes)
    ensures var r := DecodeItems(item, count, s);
            r.Some? ==> |r.value.0| == count
                        && (forall i :: 0 <= i < count ==> Conforms(item, r.value.0[i]))
                        && s == EncodeItems(item, r.value.0) + r.value.1
    decreases item, 1, count
  {
    if count != 0 && DecodeItems(item, count, s).Some? {
      EncodeDecode(item, s);
      var (v, tail) := Decode(item, s).value;
      EncodeDecodeItems(item, count - 1, tail);
      var (vs, rest) := DecodeItems(item, count - 1, tail).value;
      assert ([v] + vs)[1..] == vs;
    }
  }

  // ----- a whole buffer: trailing bytes are refused

  function DecodeAll(f: Format, s: Bytes): (r: Option<Value>) {
    match Decode(f, s)
    case Some((v, rest)) => if rest == [] then Some(v) else None
    case None => None
  }

  /** Both directions at once: exactly the encodings are accepted, each as the value it encodes. */
  lemma {:induction false} DecodeAllIffEncoded(f: Format, s: Bytes, v: Value)
    ensures DecodeAll(f, s) == Some(v) <==> Conforms(f, v) && s == Encode(f, v)
  {
    if DecodeAll(f, s) == Some(v) {
      EncodeDecode(f, s);
      assert s == Encode(f, v) + [];
    }
    if Conforms(f, v) && s == Encode(f, v) {
      DecodeEncode(f, v, []);
      assert s + [] == s;
    }
  }

  lemma {:induction false} EncodeInjective(f: Format, v: Value, w: Value)
    requires Conforms(f, v) && Conforms(f, w) && Encode(f, v) == Encode(f, w)
    ensures v == w
  {
    DecodeAllIffEncoded(f, Encode(f, v), v);
    DecodeAllIffEncoded(f, Encode(f, v), w);
  }

  /** The length of a format without lists or options. */
  function FixedLength(f: Format): (n: Option<nat>)
    decreases f, 0
  {
    match f
    case Literal(bytes) => Some(|bytes|)
    case Fixed(size) => Some(size)
    case UInt(size) => Some(size)
    case SInt(size) => Some(size)
    case Record(fields) => FixedLengths(fields)
    case _ => None
  }

  function FixedLengths(fields: seq<Format>): (n: Option<nat>)
    decreases fields, 1
  {
    if fields == [] then Some(0)
    else
      match FixedLength(fields[0])
      case None => None
      case Some(n) => match FixedLengths(fields[1..]) case None => None case Some(m) => Some(n + m)
  }

  lemma {:induction false} EncodedLength(f: Format, v: Value)
    requires Conforms(f, v) && FixedLength(f).Some?
    ensures |Encode(f, v)| == FixedLength(f).value
    decreases f, 0
  {
    match f
    case Record(fields) => EncodedLengths(fields, v.items);
    case _ =>
  }

  lemma {:induction false} EncodedLengths(fields: seq<Format>, vs: seq<Value>)
    requires |vs| == |fields| && forall i :: 0 <= i < |fields| ==> Conforms(fields[i], vs[i])
    requires FixedLengths(fields).Some?
    ensures |EncodeFields(fields, vs)| == FixedLengths(fields).value
    decreases fields, 1
  {
    if fields != [] {
      EncodedLength(fields[0], vs[0]);
      EncodedLengths(fields[1..], vs[1..]);
    }
  }

  lemma {:induction false} EncodedItemsLength(item: Format, vs: seq<Value>)
    requires FixedLength(item).Some? && forall i :: 0 <= i < |vs| ==> Conforms(item, vs[i])
    ensures |EncodeItems(item, vs)| == |vs| * FixedLength(item).value
  {
    if vs != [] {
      EncodedLength(item, vs[0]);
      EncodedItemsLength(item, vs[1..]);
      var n := FixedLength(item).value;
      assert |vs| * n == n + (|vs| - 1) * n;
    }
  }

  lemma {:induction false} EncodeItemsAppend(item: Format, vs: seq<Value>, last: Value)
    requires Conforms(item, last) && forall i :: 0 <= i < |vs| ==> Conforms(item, vs[i])
    ensures EncodeItems(item, vs + [last]) == EncodeItems(item, vs) + Encode(item, last)
  {
    if vs == [] {
      assert [last][1..] == [] && vs + [last] == [last];
    } else {
      EncodeItemsAppend(item, vs[1..], last);
      assert (vs + [last])[1..] == vs[1..] + [last];
    }
  }

  lemma {:induction false} LengthsCons(first: Format, rest: seq<Format>)
    requires FixedLength(first).Some? && FixedLengths(rest).Some?
    ensures FixedLengths([first] + rest) == Some(FixedLength(first).value + FixedLengths(rest).value)
  {
    assert ([first] + rest)[1..] == rest;
  }

  lemma {:induction false} Lengths2(a: Format, b: Format)
    requires FixedLength(a).Some? && FixedLength(b).Some?
    ensures FixedLengths([a, b]) == Some(FixedLength(a).value + FixedLength(b).value)
  {
    LengthsCons(b, []);
    LengthsCons(a, [b]);
    assert [b] + [] == [b] && [a] + [b] == [a, b];
  }

  lemma {:induction false} Lengths3(a: Format, b: Format, c: Format)
    requires FixedLength(a).Some? && FixedLength(b).Some? && FixedLength(c).Some?
    ensures FixedLengths([a, b, c]) == Some(FixedLength(a).value + FixedLength(b).value + FixedLength(c).value)
  {
    Lengths2(b, c);
    LengthsCons(a, [b, c]);
    assert [a] + [b, c] == [a, b, c];
  }

  lemma {:induction false} Lengths4(a: Format, b: Format, c: Format, d: Format)
    requires FixedLength(a).Some? && FixedLength(b).Some? && FixedLength(c).Some? && FixedLength(d).Some?
    ensures FixedLengths([a, b, c, d])
        == Some(FixedLength(a).value + FixedLength(b).value + FixedLength(c).value + FixedLength(d).value)
  {
    Lengths3(b, c, d);
    LengthsCons(a, [b, c, d]);
    assert [a] + [b, c, d] == [a, b, c, d];
  }
}
