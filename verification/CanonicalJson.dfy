/** The text a committee configuration is hashed as: one text per meaning. */
module CanonicalJson {
  import opened Bytes
  import opened Hashing
  import opened Sorting
  import opened Wrappers

  /** A string is a sequence of UTF-16 units. */
  type Unit = x: int | 0 <= x < 0x1_0000
  type Text = seq<Unit>

  datatype Field = Field(key: Text, value: Json)

  /** A JavaScript value. `Other` is anything that has no canonical form: a fraction, a bigint, a function. */
  datatype Json =
    | Null | Bool(flag: bool) | Number(num: int) | Str(text: Text) | Undefined | Other
    | Array(items: seq<Json>) | Object(fields: seq<Field>)

  const MAX_SAFE_INTEGER := 0x1F_FFFF_FFFF_FFFF

  // ----- strings, escaped as section 7 of RFC 8259 requires

  predicate IsHigh(u: Unit) { 0xD800 <= u < 0xDC00 }

  predicate IsLow(u: Unit) { 0xDC00 <= u < 0xE000 }

  function HexDigit(d: nat): (u: Unit)
    requires d < 16
  {
    if d < 10 then 48 + d else 87 + d
  }

  /** `\uXXXX`, in lower case. */
  function HexEscape(u: Unit): (t: Text)
    ensures |t| == 6
  {
    [92, 117, HexDigit(u / 4096), HexDigit(u / 256 % 16), HexDigit(u / 16 % 16), HexDigit(u % 16)]
  }

  /** The control characters that have a short escape, with its letter. */
  function ShortEscape(u: Unit): Option<Unit> {
    if u == 8 then Some(98) else if u == 9 then Some(116) else if u == 10 then Some(110)
    else if u == 12 then Some(102) else if u == 13 then Some(114)
    else if u == 34 then Some(34) else if u == 92 then Some(92) else None
  }

  function EscapeUnit(u: Unit): (t: Text)
    ensures t != []
  {
    match ShortEscape(u)
    case Some(letter) => [92, letter]
    case None => if u < 32 || IsHigh(u) || IsLow(u) then HexEscape(u) else [u]
  }

  /** Surrogates stay as they are in pairs, and are escaped alone. */
  function Escape(s: Text): Text {
    if s == [] then []
    else if |s| > 1 && IsHigh(s[0]) && IsLow(s[1]) then [s[0], s[1]] + Escape(s[2..])
    else EscapeUnit(s[0]) + Escape(s[1..])
  }

  function Quote(s: Text): Text { [34] + Escape(s) + [34] }

  // ----- numbers

  function Digits(n: nat): (t: Text)
    ensures t != [] && forall k :: 0 <= k < |t| ==> IsDigit(t[k])
  {
    if n < 10 then [48 + n] else Digits(n / 10) + [48 + n % 10]
  }

  predicate IsDigit(u: Unit) { 48 <= u < 58 }

  function Decimal(n: int): Text { if n < 0 then [45] + Digits(-n) else Digits(n) }

  // ----- values

  /** The order of `<` on strings: by unit, a prefix first. */
  predicate KeyLe(a: Field, b: Field) { LexLe(a.key, b.key) }

  /** Fields without a value dropped, the rest by key, all the way down. */
  function Normal(v: Json): Json {
    match v
    case Array(items) => Array(NormalItems(items))
    case Object(fields) => Object(Sort(KeyLe, NormalFields(fields)))
    case _ => v
  }

  function NormalItems(items: seq<Json>): (r: seq<Json>)
    ensures |r| == |items|
  {
    if items == [] then [] else [Normal(items[0])] + NormalItems(items[1..])
  }

  function NormalFields(fields: seq<Field>): seq<Field> {
    if fields == [] then []
    else
      (if fields[0].value.Undefined? then [] else [Field(fields[0].key, Normal(fields[0].value))])
      + NormalFields(fields[1..])
  }

  /** The text of a normal value. */
  function Print(v: Json): Text
    decreases v
  {
    match v
    case Null => [110, 117, 108, 108]
    case Bool(flag) => if flag then [116, 114, 117, 101] else [102, 97, 108, 115, 101]
    case Number(n) => Decimal(n)
    case Str(s) => Quote(s)
    case Array(items) => PrintItems(91, items)
    case Object(fields) => PrintFields(123, fields)
    case _ => []
  }

  /** Items from some point on: the bracket or comma that leads the first, commas before the rest, the
      closing bracket. */
  function PrintItems(lead: Unit, items: seq<Json>): Text
    decreases items
  {
    if items == [] then (if lead == 44 then [] else [lead]) + [93]
    else [lead] + (Print(items[0]) + PrintItems(44, items[1..]))
  }

  function PrintField(f: Field): Text
    decreases f
  {
    Quote(f.key) + ([58] + Print(f.value))
  }

  function PrintFields(lead: Unit, fields: seq<Field>): Text
    decreases fields
  {
    if fields == [] then (if lead == 44 then [] else [lead]) + [125]
    else [lead] + (PrintField(fields[0]) + PrintFields(44, fields[1..]))
  }

  /** No part makes the printer throw. */
  predicate Printable(v: Json) {
    match v
    case Number(n) => -MAX_SAFE_INTEGER <= n <= MAX_SAFE_INTEGER
    case Undefined | Other => false
    case Array(items) => forall k :: 0 <= k < |items| ==> Printable(items[k])
    case Object(fields) => forall k :: 0 <= k < |fields| ==> fields[k].value.Undefined? || Printable(fields[k].value)
    case _ => true
  }

  /** `None` is the thrown error. */
  function Canonical(v: Json): Option<Text> { if Printable(v) then Some(Print(Normal(v))) else None }

  // ----- strings read back

  function HexValue(u: Unit): nat { if 48 <= u < 58 then u - 48 else if 97 <= u < 103 then u - 87 else 0 }

  function LongEscaped(letter: Unit): Unit {
    if letter == 98 then 8 else if letter == 116 then 9 else if letter == 110 then 10
    else if letter == 102 then 12 else if letter == 114 then 13 else letter
  }

  /** The unit at the start of an escaped string, and how much text it took. */
  function ReadUnit(t: Text): (Unit, nat)
    requires t != []
  {
    if t[0] != 92 || |t| < 2 then (t[0], 1)
    else if t[1] == 117 && |t| >= 6
      then ((HexValue(t[2]) * 4096 + HexValue(t[3]) * 256 + HexValue(t[4]) * 16 + HexValue(t[5])) % 0x1_0000, 6)
    else (LongEscaped(t[1]), 2)
  }

  lemma HexDigitReadsBack(d: nat)
    requires d < 16
    ensures HexValue(HexDigit(d)) == d
  {
  }

  lemma HexDigitsOf(u: Unit)
    ensures HexValue(HexDigit(u / 4096)) * 4096 + HexValue(HexDigit(u / 256 % 16)) * 256
        + HexValue(HexDigit(u / 16 % 16)) * 16 + HexValue(HexDigit(u % 16)) == u
  {
    HexDigitReadsBack(u / 4096);
    HexDigitReadsBack(u / 256 % 16);
    HexDigitReadsBack(u / 16 % 16);
    HexDigitReadsBack(u % 16);
    var x, y: nat := u / 16, u / 256;
    assert y == x / 16 && u / 4096 == y / 16;
  }

  lemma ReadHexEscape(u: Unit, rest: Text)
    ensures ReadUnit(HexEscape(u) + rest) == (u, 6)
  {
    var t := HexEscape(u) + rest;
    assert t[0] == 92 && t[1] == 117 && t[2] == HexDigit(u / 4096) && t[3] == HexDigit(u / 256 % 16)
           && t[4] == HexDigit(u / 16 % 16) && t[5] == HexDigit(u % 16);
    HexDigitsOf(u);
  }

  lemma ReadEscapedUnit(u: Unit, rest: Text)
    ensures EscapeUnit(u)[0] != 34 && ReadUnit(EscapeUnit(u) + rest) == (u, |EscapeUnit(u)|)
  {
    if ShortEscape(u).None? && (u < 32 || IsHigh(u) || IsLow(u)) { ReadHexEscape(u, rest); }
  }

  /** A string and the text after its closing quote. */
  function Unescape(t: Text): Option<(Text, Text)>
    decreases |t|
  {
    if t == [] then None
    else if t[0] == 34 then Some(([], t[1..]))
    else
      var (u, k) := ReadUnit(t);
      match Unescape(t[k..]) case None => None case Some((s, r)) => Some(([u] + s, r))
  }

  lemma {:induction false} UnescapeStep(e: Text, u: Unit, rest: Text, s: Text, r: Text)
    requires e != [] && e[0] != 34 && ReadUnit(e + rest) == (u, |e|) && Unescape(rest) == Some((s, r))
    ensures Unescape(e + rest) == Some(([u] + s, r))
  {
    assert (e + rest)[|e|..] == rest;
  }

  lemma Assoc(a: Text, b: Text, c: Text)
    ensures (a + b) + c == a + (b + c)
  {
  }

  lemma {:induction false} PairReadsBack(hi: Unit, lo: Unit, rest: Text, s: Text, r: Text)
    requires IsHigh(hi) && IsLow(lo) && Unescape(rest) == Some((s, r))
    ensures Unescape([hi, lo] + rest) == Some(([hi, lo] + s, r))
  {
    UnescapeStep([lo], lo, rest, s, r);
    UnescapeStep([hi], hi, [lo] + rest, [lo] + s, r);
    assert [hi, lo] + rest == [hi] + ([lo] + rest) && [hi, lo] + s == [hi] + ([lo] + s);
  }

  /** Whatever follows, an escaped string reads back as itself. */
  lemma {:induction false} EscapeReadsBack(s: Text, end: Text)
    requires end != [] && end[0] == 34
    ensures Unescape(Escape(s) + end) == Some((s, end[1..]))
    decreases |s|
  {
    if s == [] {
      assert Escape(s) + end == end;
    } else if |s| > 1 && IsHigh(s[0]) && IsLow(s[1]) {
      EscapeReadsBack(s[2..], end);
      PairReadsBack(s[0], s[1], Escape(s[2..]) + end, s[2..], end[1..]);
      Assoc([s[0], s[1]], Escape(s[2..]), end);
      assert [s[0], s[1]] + s[2..] == s;
    } else {
      EscapeReadsBack(s[1..], end);
      ReadEscapedUnit(s[0], Escape(s[1..]) + end);
      UnescapeStep(EscapeUnit(s[0]), s[0], Escape(s[1..]) + end, s[1..], end[1..]);
      Assoc(EscapeUnit(s[0]), Escape(s[1..]), end);
      assert [s[0]] + s[1..] == s;
    }
  }

  /** Two quoted strings with the same text in front of anything are the same string. */
  lemma QuoteDetermines(s: Text, r: Text, t: Text, q: Text)
    requires Quote(s) + r == Quote(t) + q
    ensures s == t && r == q
  {
    assert (Quote(s) + r)[1..] == Escape(s) + ([34] + r) && (Quote(t) + q)[1..] == Escape(t) + ([34] + q);
    EscapeReadsBack(s, [34] + r);
    EscapeReadsBack(t, [34] + q);
    assert ([34] + r)[1..] == r && ([34] + q)[1..] == q;
  }

  // ----- numbers read back

  /** What can follow a value inside a larger text. */
  predicate Stops(r: Text) { r == [] || r[0] == 44 || r[0] == 93 || r[0] == 125 }

  function DigitsValue(t: Text): int {
    if t == [] then 0
    else
      var last: int := t[|t| - 1];
      DigitsValue(t[..|t| - 1]) * 10 + last - 48
  }

  lemma {:induction false} DigitsReadBack(n: nat)
    ensures DigitsValue(Digits(n)) == n
  {
    var t := Digits(n);
    if n < 10 {
      assert t[..0] == [];
    } else {
      DigitsReadBack(n / 10);
      assert t[..|t| - 1] == Digits(n / 10);
    }
  }

  lemma Drop(a: Text, r: Text, b: Text, q: Text)
    requires a + r == b + q && |a| == |b|
    ensures a == b && r == q
  {
    assert (a + r)[..|a|] == a && (b + q)[..|a|] == b && (a + r)[|a|..] == r && (b + q)[|a|..] == q;
  }

  lemma {:induction false} DigitsThenStop(n: nat, r: Text)
    requires Stops(r)
    ensures var x, a := Digits(n) + r, Digits(n);
            (forall k :: 0 <= k < |a| ==> IsDigit(x[k])) && (|a| < |x| ==> !IsDigit(x[|a|]))
  {
  }

  /** The digits end where the following text begins. */
  lemma {:induction false} DigitsDetermine(m: nat, r: Text, n: nat, q: Text)
    requires Digits(m) + r == Digits(n) + q && Stops(r) && Stops(q)
    ensures m == n && r == q
  {
    DigitsThenStop(m, r);
    DigitsThenStop(n, q);
    Drop(Digits(m), r, Digits(n), q);
    DigitsReadBack(m);
    DigitsReadBack(n);
  }

  lemma SignAgrees(m: int, r: Text, n: int, q: Text)
    requires Decimal(m) + r == Decimal(n) + q
    ensures m < 0 <==> n < 0
  {
    assert (Decimal(m) + r)[0] == Decimal(m)[0] && (Decimal(n) + q)[0] == Decimal(n)[0];
  }

  lemma DecimalDetermines(m: int, r: Text, n: int, q: Text)
    requires Decimal(m) + r == Decimal(n) + q && Stops(r) && Stops(q)
    ensures m == n && r == q
  {
    SignAgrees(m, r, n, q);
    if m < 0 {
      Assoc([45], Digits(-m), r);
      Assoc([45], Digits(-n), q);
      Drop([45], Digits(-m) + r, [45], Digits(-n) + q);
      DigitsDetermine(-m, r, -n, q);
    } else {
      DigitsDetermine(m, r, n, q);
    }
  }

  // ----- values read back

  /** Nothing unprintable anywhere, not even as a field. */
  predicate Solid(v: Json) {
    match v
    case Undefined | Other => false
    case Array(items) => AllSolid(items)
    case Object(fields) => FieldsSolid(fields)
    case _ => true
  }

  predicate AllSolid(items: seq<Json>) { forall k :: 0 <= k < |items| ==> Solid(items[k]) }

  predicate FieldsSolid(fields: seq<Field>) { forall k :: 0 <= k < |fields| ==> Solid(fields[k].value) }

  /** The first unit tells the kind of value; a digit or a minus, a number. */
  predicate Opens(v: Json, u: Unit) {
    match v
    case Null => u == 110
    case Bool(flag) => u == if flag then 116 else 102
    case Number(_) => u == 45 || IsDigit(u)
    case Str(_) => u == 34
    case Array(_) => u == 91
    case Object(_) => u == 123
    case _ => false
  }

  lemma {:induction false} FirstUnit(v: Json, r: Text)
    requires Solid(v)
    ensures Print(v) + r != [] && Opens(v, (Print(v) + r)[0])
  {
  }

  lemma {:induction false} ItemsStep(lead: Unit, items: seq<Json>, r: Text)
    requires items != []
    ensures PrintItems(lead, items) + r == [lead] + (Print(items[0]) + (PrintItems(44, items[1..]) + r))
  {
  }

  lemma {:induction false} ItemsStop(items: seq<Json>, r: Text)
    ensures Stops(PrintItems(44, items) + r)
  {
  }

  lemma {:induction false} EmptyArrayDiffers(lead: Unit, items: seq<Json>, r: Text, q: Text)
    requires items != [] && Solid(items[0]) && (lead == 44 || lead == 91)
    ensures PrintItems(lead, items) + r != PrintItems(lead, []) + q
  {
    var rest := PrintItems(44, items[1..]) + r;
    ItemsStep(lead, items, r);
    FirstUnit(items[0], rest);
    assert ([lead] + (Print(items[0]) + rest))[1] == (Print(items[0]) + rest)[0];
    assert if lead == 44 then (PrintItems(lead, []) + q)[0] == 93 else (PrintItems(lead, []) + q)[1] == 93;
  }

  /** A printed value determines itself and what follows it. */
  lemma {:induction false} PrintDetermines(v: Json, r: Text, w: Json, q: Text)
    requires Solid(v) && Solid(w) && Print(v) + r == Print(w) + q && Stops(r) && Stops(q)
    ensures v == w && r == q
    decreases v
  {
    FirstUnit(v, r);
    FirstUnit(w, q);
    match v
    case Number(n) => DecimalDetermines(n, r, w.num, q);
    case Str(s) => QuoteDetermines(s, r, w.text, q);
    case Array(items) => ItemsDetermine(91, items, r, w.items, q);
    case Object(fields) => FieldsDetermine(123, fields, r, w.fields, q);
    case _ => Drop(Print(v), r, Print(w), q);
  }

  lemma {:induction false} ItemsDetermine(lead: Unit, items: seq<Json>, r: Text, others: seq<Json>, q: Text)
    requires lead == 44 || lead == 91
    requires AllSolid(items) && AllSolid(others) && PrintItems(lead, items) + r == PrintItems(lead, others) + q
    requires Stops(r) && Stops(q)
    ensures items == others && r == q
    decreases items
  {
    if items == [] && others == [] {
      Drop(PrintItems(lead, items), r, PrintItems(lead, others), q);
    } else if others == [] {
      EmptyArrayDiffers(lead, items, r, q);
    } else if items == [] {
      EmptyArrayDiffers(lead, others, q, r);
    } else {
      var a, b := PrintItems(44, items[1..]) + r, PrintItems(44, others[1..]) + q;
      ItemsStep(lead, items, r);
      ItemsStep(lead, others, q);
      Drop([lead], Print(items[0]) + a, [lead], Print(others[0]) + b);
      ItemsStop(items[1..], r);
      ItemsStop(others[1..], q);
      PrintDetermines(items[0], a, others[0], b);
      ItemsDetermine(44, items[1..], r, others[1..], q);
      assert items == [items[0]] + items[1..] && others == [others[0]] + others[1..];
    }
  }

  lemma {:induction false} FieldDetermines(f: Field, r: Text, g: Field, q: Text)
    requires Solid(f.value) && Solid(g.value) && PrintField(f) + r == PrintField(g) + q && Stops(r) && Stops(q)
    ensures f == g && r == q
    decreases f
  {
    FieldStep(f, r);
    FieldStep(g, q);
    var a, b := Print(f.value) + r, Print(g.value) + q;
    QuoteDetermines(f.key, [58] + a, g.key, [58] + b);
    Drop([58], a, [58], b);
    PrintDetermines(f.value, r, g.value, q);
  }

  lemma {:induction false} FieldStep(f: Field, r: Text)
    ensures PrintField(f) + r == Quote(f.key) + ([58] + (Print(f.value) + r)) && (PrintField(f) + r)[0] == 34
  {
    Assoc(Quote(f.key), [58] + Print(f.value), r);
    Assoc([58], Print(f.value), r);
  }

  lemma {:induction false} FieldsStep(lead: Unit, fields: seq<Field>, r: Text)
    requires fields != []
    ensures PrintFields(lead, fields) + r == [lead] + (PrintField(fields[0]) + (PrintFields(44, fields[1..]) + r))
  {
  }

  lemma {:induction false} FieldsStop(fields: seq<Field>, r: Text)
    ensures Stops(PrintFields(44, fields) + r)
  {
  }

  lemma {:induction false} EmptyObjectDiffers(lead: Unit, fields: seq<Field>, r: Text, q: Text)
    requires fields != [] && (lead == 44 || lead == 123)
    ensures PrintFields(lead, fields) + r != PrintFields(lead, []) + q
  {
    var rest := PrintFields(44, fields[1..]) + r;
    FieldsStep(lead, fields, r);
    FieldStep(fields[0], rest);
    assert ([lead] + (PrintField(fields[0]) + rest))[1] == (PrintField(fields[0]) + rest)[0];
    assert if lead == 44 then (PrintFields(lead, []) + q)[0] == 125 else (PrintFields(lead, []) + q)[1] == 125;
  }

  lemma {:induction false} FieldsDetermine(lead: Unit, fields: seq<Field>, r: Text, others: seq<Field>, q: Text)
    requires lead == 44 || lead == 123
    requires FieldsSolid(fields) && FieldsSolid(others)
    requires PrintFields(lead, fields) + r == PrintFields(lead, others) + q && Stops(r) && Stops(q)
    ensures fields == others && r == q
    decreases fields
  {
    if fields == [] && others == [] {
      Drop(PrintFields(lead, fields), r, PrintFields(lead, others), q);
    } else if others == [] {
      EmptyObjectDiffers(lead, fields, r, q);
    } else if fields == [] {
      EmptyObjectDiffers(lead, others, q, r);
    } else {
      var a, b := PrintFields(44, fields[1..]) + r, PrintFields(44, others[1..]) + q;
      FieldsStep(lead, fields, r);
      FieldsStep(lead, others, q);
      Drop([lead], PrintField(fields[0]) + a, [lead], PrintField(others[0]) + b);
      FieldsStop(fields[1..], r);
      FieldsStop(others[1..], q);
      FieldDetermines(fields[0], a, others[0], b);
      FieldsDetermine(44, fields[1..], r, others[1..], q);
      assert fields == [fields[0]] + fields[1..] && others == [others[0]] + others[1..];
    }
  }

  // ----- what a value means, apart from how it is written down

  datatype Meaning =
    | Nothing | Flag(flag: bool) | Quantity(num: int) | Words(text: Text)
    | Listing(items: seq<Meaning>) | Mapping(fields: map<Text, Meaning>)

  /** An object means the finite map of its defined fields. */
  function Meant(v: Json): Meaning
    decreases v
  {
    match v
    case Bool(flag) => Flag(flag)
    case Number(n) => Quantity(n)
    case Str(s) => Words(s)
    case Array(items) => Listing(MeantItems(items))
    case Object(fields) => Mapping(MeantFields(fields))
    case _ => Nothing
  }

  function MeantItems(items: seq<Json>): (r: seq<Meaning>)
    ensures |r| == |items|
    decreases items
  {
    if items == [] then [] else [Meant(items[0])] + MeantItems(items[1..])
  }

  function MeantFields(fields: seq<Field>): map<Text, Meaning>
    decreases fields
  {
    if fields == [] then map[]
    else
      var rest := MeantFields(fields[1..]);
      if fields[0].value.Undefined? then rest else rest[fields[0].key := Meant(fields[0].value)]
  }

  predicate DistinctKeys(fields: seq<Field>) { forall i, j :: 0 <= i < j < |fields| ==> fields[i].key != fields[j].key }

  /** As any JavaScript object: no object holds a key twice. */
  predicate KeysUnique(v: Json) {
    match v
    case Array(items) => forall k :: 0 <= k < |items| ==> KeysUnique(items[k])
    case Object(fields) => DistinctKeys(fields) && forall k :: 0 <= k < |fields| ==> KeysUnique(fields[k].value)
    case _ => true
  }

  // ----- the normal form keeps the meaning

  function Keys(fields: seq<Field>): set<Text> { set f | f in fields :: f.key }

  lemma KeysOfCons(first: Field, rest: seq<Field>)
    ensures Keys([first] + rest) == Keys(rest) + {first.key}
  {
    var all := [first] + rest;
    assert first in all && forall f :: f in all <==> f == first || f in rest;
    assert forall f :: f in rest ==> f.key in Keys(rest);
    assert forall f :: f in all ==> f.key in Keys(all);
  }

  lemma KeyAt(fields: seq<Field>, key: Text)
    ensures key in Keys(fields) <==> exists k :: 0 <= k < |fields| && fields[k].key == key
  {
    if key in Keys(fields) {
      var f :| f in fields && f.key == key;
      var k :| 0 <= k < |fields| && fields[k] == f;
    }
    if k :| 0 <= k < |fields| && fields[k].key == key { assert fields[k] in fields; }
  }

  lemma DistinctFront(first: Field, rest: seq<Field>)
    requires DistinctKeys(rest) && first.key !in Keys(rest)
    ensures DistinctKeys([first] + rest)
  {
    var all := [first] + rest;
    KeyAt(rest, first.key);
    forall i, j | 0 <= i < j < |all| ensures all[i].key != all[j].key {
      assert all[j] == rest[j - 1] && (i == 0 || all[i] == rest[i - 1]);
    }
  }

  lemma DistinctBack(first: Field, rest: seq<Field>)
    requires DistinctKeys([first] + rest)
    ensures DistinctKeys(rest) && first.key !in Keys(rest)
  {
    var all := [first] + rest;
    KeyAt(rest, first.key);
    forall j | 0 <= j < |rest| ensures rest[j].key != first.key { assert all[0] == first && all[j + 1] == rest[j]; }
    forall i, j | 0 <= i < j < |rest| ensures rest[i].key != rest[j].key {
      assert all[i + 1] == rest[i] && all[j + 1] == rest[j];
    }
  }

  lemma KeysStep(first: Field, rest: seq<Field>)
    ensures Keys([first] + rest) == Keys(rest) + {first.key}
    ensures DistinctKeys([first] + rest) <==> DistinctKeys(rest) && first.key !in Keys(rest)
  {
    KeysOfCons(first, rest);
    if DistinctKeys([first] + rest) {
      DistinctBack(first, rest);
    } else if DistinctKeys(rest) && first.key !in Keys(rest) {
      DistinctFront(first, rest);
    }
  }

  lemma KeysTail(fields: seq<Field>)
    requires fields != []
    ensures Keys(fields) == Keys(fields[1..]) + {fields[0].key}
    ensures DistinctKeys(fields) <==> DistinctKeys(fields[1..]) && fields[0].key !in Keys(fields[1..])
  {
    assert fields == [fields[0]] + fields[1..];
    KeysStep(fields[0], fields[1..]);
  }

  lemma {:induction false} NormalKeys(fields: seq<Field>)
    ensures Keys(NormalFields(fields)) <= Keys(fields) && (DistinctKeys(fields) ==> DistinctKeys(NormalFields(fields)))
  {
    if fields != [] {
      NormalKeys(fields[1..]);
      KeysTail(fields);
      KeysStep(Field(fields[0].key, Normal(fields[0].value)), NormalFields(fields[1..]));
      assert [] + NormalFields(fields[1..]) == NormalFields(fields[1..]);
    }
  }

  lemma {:induction false} InsertKeys(x: Field, s: seq<Field>)
    ensures Keys(Insert(KeyLe, x, s)) == Keys(s) + {x.key}
    ensures DistinctKeys(s) && x.key !in Keys(s) ==> DistinctKeys(Insert(KeyLe, x, s))
  {
    if s == [] || KeyLe(x, s[0]) {
      KeysStep(x, s);
    } else {
      InsertKeys(x, s[1..]);
      KeysTail(s);
      KeysStep(s[0], Insert(KeyLe, x, s[1..]));
    }
  }

  lemma {:induction false} SortKeys(s: seq<Field>)
    ensures Keys(Sort(KeyLe, s)) == Keys(s) && (DistinctKeys(s) ==> DistinctKeys(Sort(KeyLe, s)))
  {
    if s != [] {
      SortKeys(s[1..]);
      KeysTail(s);
      InsertKeys(s[0], Sort(KeyLe, s[1..]));
    }
  }

  lemma {:induction false} MeantCons(first: Field, rest: seq<Field>)
    ensures MeantFields([first] + rest)
        == if first.value.Undefined? then MeantFields(rest) else MeantFields(rest)[first.key := Meant(first.value)]
  {
    assert ([first] + rest)[1..] == rest;
  }

  lemma {:induction false} InsertMeans(x: Field, s: seq<Field>)
    requires !x.value.Undefined? && x.key !in Keys(s)
    ensures MeantFields(Insert(KeyLe, x, s)) == MeantFields(s)[x.key := Meant(x.value)]
  {
    if s == [] || KeyLe(x, s[0]) {
      MeantCons(x, s);
    } else {
      KeysTail(s);
      InsertMeans(x, s[1..]);
      MeantCons(s[0], Insert(KeyLe, x, s[1..]));
      CommutingUpdates(MeantFields(s[1..]), x.key, Meant(x.value), s[0].key, Meant(s[0].value));
    }
  }

  lemma CommutingUpdates(m: map<Text, Meaning>, a: Text, x: Meaning, b: Text, y: Meaning)
    requires a != b
    ensures m[a := x][b := y] == m[b := y][a := x]
  {
  }

  predicate NoneUndefined(fields: seq<Field>) { forall k :: 0 <= k < |fields| ==> !fields[k].value.Undefined? }

  lemma {:induction false} SortMeans(s: seq<Field>)
    requires NoneUndefined(s) && DistinctKeys(s)
    ensures MeantFields(Sort(KeyLe, s)) == MeantFields(s)
  {
    if s != [] {
      KeysTail(s);
      SortMeans(s[1..]);
      SortKeys(s[1..]);
      InsertMeans(s[0], Sort(KeyLe, s[1..]));
    }
  }

  lemma {:induction false} NormalMeans(v: Json)
    requires KeysUnique(v)
    ensures Meant(Normal(v)) == Meant(v)
    decreases v
  {
    match v
    case Array(items) => NormalItemsMean(items);
    case Object(fields) =>
      NormalFieldsMean(fields);
      NormalKeys(fields);
      SortMeans(NormalFields(fields));
    case _ =>
  }

  lemma {:induction false} NormalItemsMean(items: seq<Json>)
    requires forall k :: 0 <= k < |items| ==> KeysUnique(items[k])
    ensures MeantItems(NormalItems(items)) == MeantItems(items)
    decreases items
  {
    if items != [] {
      NormalMeans(items[0]);
      NormalItemsMean(items[1..]);
      assert NormalItems(items)[1..] == NormalItems(items[1..]);
    }
  }

  lemma {:induction false} NormalUndefined(v: Json)
    ensures Normal(v).Undefined? <==> v.Undefined?
  {
  }

  lemma {:induction false} NormalFieldsMean(fields: seq<Field>)
    requires forall k :: 0 <= k < |fields| ==> KeysUnique(fields[k].value)
    ensures MeantFields(NormalFields(fields)) == MeantFields(fields) && NoneUndefined(NormalFields(fields))
    decreases fields
  {
    if fields != [] {
      NormalFieldsMean(fields[1..]);
      NormalUndefined(fields[0].value);
      if !fields[0].value.Undefined? {
        NormalMeans(fields[0].value);
        assert NormalFields(fields)[1..] == NormalFields(fields[1..]);
      } else {
        assert NormalFields(fields) == NormalFields(fields[1..]);
      }
    }
  }

  // ----- one normal form per meaning

  /** Every object's keys strictly ascend, and nothing unprintable is left. */
  predicate Canonized(v: Json) {
    match v
    case Undefined | Other => false
    case Array(items) => ItemsCanonized(items)
    case Object(fields) => FieldsCanonized(fields)
    case _ => true
  }

  predicate ItemsCanonized(items: seq<Json>) { forall k :: 0 <= k < |items| ==> Canonized(items[k]) }

  predicate FieldsCanonized(fields: seq<Field>) {
    Ascending(fields) && forall k :: 0 <= k < |fields| ==> Canonized(fields[k].value)
  }

  predicate Ascending(fields: seq<Field>) {
    forall i, j :: 0 <= i < j < |fields| ==> LexLt(fields[i].key, fields[j].key)
  }

  lemma {:induction false} CanonizedIsSolid(v: Json)
    requires Canonized(v)
    ensures Solid(v)
    decreases v
  {
    match v
    case Array(items) => forall k | 0 <= k < |items| { CanonizedIsSolid(items[k]); }
    case Object(fields) => forall k | 0 <= k < |fields| { CanonizedIsSolid(fields[k].value); }
    case _ =>
  }

  lemma KeyOrder()
    ensures TotalOrder(KeyLe)
  {
    forall a: Field, b: Field ensures KeyLe(a, b) || KeyLe(b, a) { LexTotal(a.key, b.key); }
    forall a: Field, b: Field, c: Field | KeyLe(a, b) && KeyLe(b, c) ensures KeyLe(a, c) {
      LexTransitive(a.key, b.key, c.key);
    }
  }

  lemma {:induction false} NormalIsCanonized(v: Json)
    requires Printable(v) && KeysUnique(v)
    ensures Canonized(Normal(v))
    decreases v
  {
    match v
    case Array(items) => NormalItemsCanonized(items);
    case Object(fields) =>
      var entries := NormalFields(fields);
      NormalFieldsCanonized(fields);
      NormalKeys(fields);
      SortKeys(entries);
      KeyOrder();
      SortOrdered(KeyLe, entries);
      forall k | 0 <= k < |entries| ensures Canonized(Sort(KeyLe, entries)[k].value) {
        SortMembers(KeyLe, entries, Sort(KeyLe, entries)[k]);
      }
    case _ =>
  }

  lemma {:induction false} NormalItemsCanonized(items: seq<Json>)
    requires forall k :: 0 <= k < |items| ==> Printable(items[k]) && KeysUnique(items[k])
    ensures ItemsCanonized(NormalItems(items))
    decreases items
  {
    if items != [] {
      NormalIsCanonized(items[0]);
      NormalItemsCanonized(items[1..]);
    }
  }

  lemma {:induction false} NormalFieldsCanonized(fields: seq<Field>)
    requires forall k ::
        0 <= k < |fields| ==> (fields[k].value.Undefined? || Printable(fields[k].value)) && KeysUnique(fields[k].value)
    ensures forall f :: f in NormalFields(fields) ==> Canonized(f.value)
    decreases fields
  {
    if fields != [] {
      NormalFieldsCanonized(fields[1..]);
      if !fields[0].value.Undefined? { NormalIsCanonized(fields[0].value); }
    }
  }

  lemma {:induction false} MeantKeys(fields: seq<Field>)
    requires NoneUndefined(fields)
    ensures MeantFields(fields).Keys == Keys(fields)
  {
    if fields != [] {
      KeysTail(fields);
      MeantKeys(fields[1..]);
    }
  }

  /** The first key of an ascending object is the least key of its map. */
  lemma {:induction false} FirstKeyIsLeast(fields: seq<Field>, key: Text)
    requires fields != [] && Ascending(fields) && key in Keys(fields)
    ensures LexLe(fields[0].key, key) && fields[0].key in Keys(fields) && fields[0].key !in Keys(fields[1..])
  {
    var f :| f in fields && f.key == key;
    var k :| 0 <= k < |fields| && fields[k] == f;
    LexTotal(key, key);
    assert k == 0 || LexLt(fields[0].key, fields[k].key);
    assert fields[0] in fields;
    KeysTail(fields);
  }

  lemma {:induction false} MeaningDetermines(v: Json, w: Json)
    requires Canonized(v) && Canonized(w) && Meant(v) == Meant(w)
    ensures v == w
    decreases v
  {
    match v
    case Array(items) => ItemsMeaningDetermines(items, w.items);
    case Object(fields) => FieldsMeaningDetermines(fields, w.fields);
    case _ =>
  }

  lemma {:induction false} ItemsMeaningDetermines(items: seq<Json>, others: seq<Json>)
    requires ItemsCanonized(items) && ItemsCanonized(others) && MeantItems(items) == MeantItems(others)
    ensures items == others
    decreases items
  {
    if items != [] {
      assert MeantItems(items)[0] == MeantItems(others)[0] && MeantItems(items)[1..] == MeantItems(others)[1..];
      MeaningDetermines(items[0], others[0]);
      ItemsMeaningDetermines(items[1..], others[1..]);
      assert items == [items[0]] + items[1..] && others == [others[0]] + others[1..];
    }
  }

  lemma SameFirstKey(fields: seq<Field>, others: seq<Field>)
    requires fields != [] && others != [] && Ascending(fields) && Ascending(others) && Keys(fields) == Keys(others)
    ensures fields[0].key == others[0].key && fields[0].key !in Keys(fields[1..]) && others[0].key !in Keys(others[1..])
  {
    assert fields[0] in fields && others[0] in others;
    FirstKeyIsLeast(fields, others[0].key);
    FirstKeyIsLeast(others, fields[0].key);
    LexAntisymmetric(fields[0].key, others[0].key);
  }

  lemma {:induction false} MeantTail(fields: seq<Field>)
    requires fields != [] && NoneUndefined(fields) && fields[0].key !in Keys(fields[1..])
    ensures fields[0].key in MeantFields(fields) && MeantFields(fields)[fields[0].key] == Meant(fields[0].value)
    ensures MeantFields(fields[1..]) == MeantFields(fields) - {fields[0].key}
  {
    MeantKeys(fields[1..]);
  }

  lemma {:induction false} FieldsMeaningDetermines(fields: seq<Field>, others: seq<Field>)
    requires FieldsCanonized(fields) && FieldsCanonized(others) && MeantFields(fields) == MeantFields(others)
    ensures fields == others
    decreases fields
  {
    MeantKeys(fields);
    MeantKeys(others);
    if fields != [] && others != [] {
      SameFirstKey(fields, others);
      MeantTail(fields);
      MeantTail(others);
      MeaningDetermines(fields[0].value, others[0].value);
      FieldsMeaningDetermines(fields[1..], others[1..]);
      assert fields == [fields[0]] + fields[1..] && others == [others[0]] + others[1..];
    } else {
      SameEmptiness(fields, others);
    }
  }

  lemma SameEmptiness(fields: seq<Field>, others: seq<Field>)
    requires Keys(fields) == Keys(others)
    ensures fields == [] <==> others == []
  {
    if fields != [] { KeysTail(fields); }
    if others != [] { KeysTail(others); }
  }

  /** Two values have the same text exactly when they mean the same: key order and undefined fields never
      matter, and nothing else is ever lost. */
  lemma {:induction false} SameTextIffSameMeaning(v: Json, w: Json)
    requires Printable(v) && Printable(w) && KeysUnique(v) && KeysUnique(w)
    ensures Canonical(v) == Canonical(w) <==> Meant(v) == Meant(w)
  {
    var a, b := Normal(v), Normal(w);
    NormalIsCanonized(v);
    NormalIsCanonized(w);
    NormalMeans(v);
    NormalMeans(w);
    if Print(a) == Print(b) {
      CanonizedIsSolid(a);
      CanonizedIsSolid(b);
      assert Print(a) + [] == Print(b) + [];
      PrintDetermines(a, [], b, []);
    }
    if Meant(v) == Meant(w) { MeaningDetermines(a, b); }
  }

  /** The configuration hash, for any encoding of texts as bytes. */
  function ConfigHash(c: Crypto, utf8: Text -> Bytes, config: Json): Option<Digest> {
    match Canonical(config) case None => None case Some(text) => Some(c.hash(DOMAIN_COMMITTEE_CONFIG + utf8(text)))
  }

  /** One configuration hash means one configuration. */
  lemma {:induction false} ConfigHashIdentifies(c: Crypto, utf8: Text -> Bytes, v: Json, w: Json)
    requires Printable(v) && Printable(w) && KeysUnique(v) && KeysUnique(w)
    requires utf8(Canonical(v).value) == utf8(Canonical(w).value) ==> Canonical(v).value == Canonical(w).value
    requires CollisionFree(c,
        {DOMAIN_COMMITTEE_CONFIG + utf8(Canonical(v).value), DOMAIN_COMMITTEE_CONFIG + utf8(Canonical(w).value)})
    ensures ConfigHash(c, utf8, v) == ConfigHash(c, utf8, w) <==> Meant(v) == Meant(w)
  {
    SameTextIffSameMeaning(v, w);
    if ConfigHash(c, utf8, v) == ConfigHash(c, utf8, w) {
      DropPrefix(DOMAIN_COMMITTEE_CONFIG, utf8(Canonical(v).value), utf8(Canonical(w).value));
    }
  }
}
