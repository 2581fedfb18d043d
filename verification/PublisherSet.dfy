/** Committee cell data: the key sets, their encoding, and the rules on a single state. The rules on how
    one state may follow another are in `Governance`. */
module PublisherSets {
  import opened Bytes
  import opened Formats
  import opened Hashing
  import opened Wrappers

  const MAX_PUBLISHERS := 9
  const GOVERNANCE_PAUSED := 2

  datatype PublisherSet = PublisherSet(setIndex: u32, pubkeys: seq<PubKey>)

  /** The set before the current one: it may only have signed ticks before `untilMs`. */
  datatype PreviousSet = PreviousSet(outgoing: PublisherSet, untilMs: u64)

  datatype PublisherSetData = PublisherSetData(
    networkId: Bytes32, governanceNonce: u64, governanceFlags: u8, minRotationIntervalS: u64,
    current: PublisherSet, previous: Option<PreviousSet>)

  predicate ValidSet(s: PublisherSet) {
    && 0 < |s.pubkeys| <= MAX_PUBLISHERS
    && (forall i :: 0 <= i < |s.pubkeys| ==> s.pubkeys[i][0] == 2 || s.pubkeys[i][0] == 3)
    && (forall i :: 0 < i < |s.pubkeys| ==> LexLt(s.pubkeys[i - 1], s.pubkeys[i]))
  }

  function Quorum(s: PublisherSet): nat { 2 * |s.pubkeys| / 3 + 1 }

  predicate IsPaused(d: PublisherSetData) { d.governanceFlags / GOVERNANCE_PAUSED % 2 == 1 }

  /** No flag but PAUSED may be set. */
  predicate ValidData(d: PublisherSetData) {
    && ValidSet(d.current) && d.minRotationIntervalS != 0
    && (d.governanceFlags == 0 || d.governanceFlags == GOVERNANCE_PAUSED)
    && (d.previous.Some? ==>
          ValidSet(d.previous.value.outgoing) && d.previous.value.untilMs != 0
          && d.previous.value.outgoing.setIndex + 1 == d.current.setIndex)
  }

  /** The set that may have signed `setIndex` at a tick: the current one, or the previous one before its switch. */
  function SetFor(d: PublisherSetData, setIndex: u32, publishTimeMs: u64): Option<PublisherSet> {
    if setIndex == d.current.setIndex then Some(d.current)
    else if d.previous.Some? && d.previous.value.outgoing.setIndex == setIndex
        && publishTimeMs < d.previous.value.untilMs
    then Some(d.previous.value.outgoing)
    else None
  }

  /** The state names these keys for this index and tick: they are current, or previous and the tick is before
      the switch. */
  predicate MaySign(d: PublisherSetData, setIndex: u32, tick: u64, keys: PublisherSet) {
    keys.setIndex == setIndex
    && (keys == d.current || (d.previous.Some? && keys == d.previous.value.outgoing && tick < d.previous.value.untilMs))
  }

  lemma SetForIff(d: PublisherSetData, setIndex: u32, tick: u64, keys: PublisherSet)
    requires ValidData(d)
    ensures SetFor(d, setIndex, tick) == Some(keys) <==> MaySign(d, setIndex, tick, keys)
  {
  }

  predicate Trusts(d: PublisherSetData, setIndex: u32) {
    setIndex == d.current.setIndex || (d.previous.Some? && d.previous.value.outgoing.setIndex == setIndex)
  }

  /** The keys a state names under an index it trusts. */
  function NamedSet(d: PublisherSetData, setIndex: u32): PublisherSet
    requires Trusts(d, setIndex)
  {
    if setIndex == d.current.setIndex then d.current else d.previous.value.outgoing
  }

  lemma {:induction false} KeysAscend(s: PublisherSet, i: nat, j: nat)
    requires ValidSet(s) && i < j < |s.pubkeys|
    ensures LexLt(s.pubkeys[i], s.pubkeys[j])
    decreases j
  {
    if i + 1 < j {
      KeysAscend(s, i, j - 1);
      LexLtTransitive(s.pubkeys[i], s.pubkeys[j - 1], s.pubkeys[j]);
    }
  }

  /** A set is one to nine compressed keys, each greater than all before it. */
  lemma ValidSetIff(s: PublisherSet)
    ensures ValidSet(s)
       <==> 1 <= |s.pubkeys| <= 9 && (forall k :: k in s.pubkeys ==> k[0] in {2, 3})
            && forall i, j :: 0 <= i < j < |s.pubkeys| ==> LexLt(s.pubkeys[i], s.pubkeys[j])
  {
    if ValidSet(s) {
      forall i, j | 0 <= i < j < |s.pubkeys| ensures LexLt(s.pubkeys[i], s.pubkeys[j]) { KeysAscend(s, i, j); }
    }
    assert (forall k :: k in s.pubkeys ==> k[0] in {2, 3}) ==> forall i ::
        0 <= i < |s.pubkeys| ==> s.pubkeys[i] in s.pubkeys;
  }

  /** A state is valid under exactly these conditions; a set kept from before has a switch and the index before. */
  lemma ValidDataIff(d: PublisherSetData)
    ensures ValidData(d)
       <==> ValidSet(d.current) && d.minRotationIntervalS > 0 && d.governanceFlags in {0, 2}
            && (d.previous.None?
                || exists s, until: u64 :: d.previous == Some(PreviousSet(s, until)) && ValidSet(s) && until > 0
                                           && d.current.setIndex - s.setIndex == 1)
  {
    if d.previous.Some? { assert d.previous == Some(PreviousSet(d.previous.value.outgoing, d.previous.value.untilMs)); }
  }

  /** No key is listed twice, so distinct indexes are distinct publishers. */
  lemma KeysDistinct(s: PublisherSet, i: nat, j: nat)
    requires ValidSet(s) && i < |s.pubkeys| && j < |s.pubkeys| && s.pubkeys[i] == s.pubkeys[j]
    ensures i == j
  {
    if i < j { KeysAscend(s, i, j); } else if j < i { KeysAscend(s, j, i); }
  }

  // ----- encoding

  const SET_FORMAT := Record([UInt(4), Counted(1, Fixed(33))])
  const PREVIOUS_FORMAT := Record([SET_FORMAT, UInt(8)])
  const DATA_FORMAT := Record([
    Literal(Ascii("PSET") + [2]), Fixed(32), UInt(8), UInt(1), Literal([0]), UInt(8), SET_FORMAT,
        Optional(PREVIOUS_FORMAT)])

  function SetValue(s: PublisherSet): Value {
    List([Int(s.setIndex), List(seq(|s.pubkeys|, i requires 0 <= i < |s.pubkeys| => Raw(s.pubkeys[i])))])
  }

  function ValueSet(v: Value): PublisherSet
    requires Conforms(SET_FORMAT, v)
  {
    Pow256Values();
    assert Conforms(UInt(4), v.items[0]) && Conforms(Counted(1, Fixed(33)), v.items[1]);
    var keys := v.items[1].items;
    PublisherSet(v.items[0].num,
        seq(|keys|, i requires 0 <= i < |keys| => assert Conforms(Fixed(33), keys[i]); keys[i].raw))
  }

  lemma ValueOfSet(s: PublisherSet)
    requires |s.pubkeys| < 256
    ensures Conforms(SET_FORMAT, SetValue(s)) && ValueSet(SetValue(s)) == s
  {
    Pow256Values();
    var v := SetValue(s);
    assert Conforms(Counted(1, Fixed(33)), v.items[1]);
    assert forall i :: 0 <= i < 2 ==> Conforms(SET_FORMAT.fields[i], v.items[i]);
    assert ValueSet(v).pubkeys == s.pubkeys;
  }

  lemma {:induction false} SetOfValue(v: Value)
    requires Conforms(SET_FORMAT, v)
    ensures SetValue(ValueSet(v)) == v && |ValueSet(v).pubkeys| < 256
  {
    Pow256Values();
    assert Conforms(UInt(4), v.items[0]) && Conforms(Counted(1, Fixed(33)), v.items[1]);
    forall i | 0 <= i < |v.items[1].items| ensures v.items[1].items[i] == SetValue(ValueSet(v)).items[1].items[i] {
      assert Conforms(Fixed(33), v.items[1].items[i]);
    }
    assert v.items[1].items == SetValue(ValueSet(v)).items[1].items;
    assert v.items == SetValue(ValueSet(v)).items;
  }

  function PreviousValue(p: Option<PreviousSet>): Value {
    List(if p.None? then [] else [List([SetValue(p.value.outgoing), Int(p.value.untilMs)])])
  }

  function ValuePrevious(v: Value): Option<PreviousSet>
    requires Conforms(Optional(PREVIOUS_FORMAT), v)
  {
    Pow256Values();
    if v.items == [] then None
    else
      assert Conforms(PREVIOUS_FORMAT, v.items[0]);
      var p := v.items[0].items;
      assert Conforms(PREVIOUS_FORMAT.fields[0], p[0]) && Conforms(PREVIOUS_FORMAT.fields[1], p[1]);
      Some(PreviousSet(ValueSet(p[0]), p[1].num))
  }

  lemma ValueOfPrevious(p: Option<PreviousSet>)
    requires p.Some? ==> |p.value.outgoing.pubkeys| < 256
    ensures Conforms(Optional(PREVIOUS_FORMAT), PreviousValue(p)) && ValuePrevious(PreviousValue(p)) == p
  {
    Pow256Values();
    if p.Some? {
      ValueOfSet(p.value.outgoing);
      var r := PreviousValue(p).items[0];
      assert Conforms(PREVIOUS_FORMAT.fields[0], r.items[0]) && Conforms(PREVIOUS_FORMAT.fields[1], r.items[1]);
      assert Conforms(PREVIOUS_FORMAT, r);
    }
  }

  lemma {:induction false} PreviousOfValue(v: Value)
    requires Conforms(Optional(PREVIOUS_FORMAT), v)
    ensures PreviousValue(ValuePrevious(v)) == v
    ensures ValuePrevious(v).Some? ==> |ValuePrevious(v).value.outgoing.pubkeys| < 256
  {
    Pow256Values();
    if v.items != [] {
      var r := v.items[0];
      assert Conforms(PREVIOUS_FORMAT, r);
      assert Conforms(PREVIOUS_FORMAT.fields[0], r.items[0]) && Conforms(PREVIOUS_FORMAT.fields[1], r.items[1]);
      SetOfValue(r.items[0]);
      assert r.items == [r.items[0], r.items[1]] && v.items == [r];
    }
  }

  function DataValue(d: PublisherSetData): Value {
    List([Unit, Raw(d.networkId), Int(d.governanceNonce), Int(d.governanceFlags), Unit, Int(d.minRotationIntervalS),
          SetValue(d.current), PreviousValue(d.previous)])
  }

  /** The eight fields of a conforming value. */
  lemma DataFields(w: seq<Value>)
    requires |w| == 8
    ensures Conforms(DATA_FORMAT, List(w)) <==>
            w[0].Unit? && Conforms(Fixed(32), w[1]) && Conforms(UInt(8), w[2]) && Conforms(UInt(1), w[3]) && w[4].Unit?
            && Conforms(UInt(8), w[5]) && Conforms(SET_FORMAT, w[6]) && Conforms(Optional(PREVIOUS_FORMAT), w[7])
  {
    var f := DATA_FORMAT.fields;
    assert Conforms(f[0], w[0]) == w[0].Unit? && Conforms(f[4], w[4]) == w[4].Unit?;
    assert f[1] == Fixed(32) && f[2] == UInt(8) && f[3] == UInt(1) && f[5] == UInt(8) && f[6] == SET_FORMAT
        && f[7] == Optional(PREVIOUS_FORMAT);
  }

  function ValueData(v: Value): PublisherSetData
    requires Conforms(DATA_FORMAT, v)
  {
    Pow256Values();
    var w := v.items;
    DataFields(w);
    PublisherSetData(w[1].raw, w[2].num, w[3].num, w[5].num, ValueSet(w[6]), ValuePrevious(w[7]))
  }

  predicate Encodable(d: PublisherSetData) {
    |d.current.pubkeys| < 256 && (d.previous.Some? ==> |d.previous.value.outgoing.pubkeys| < 256)
  }

  lemma ValueOfData(d: PublisherSetData)
    requires Encodable(d)
    ensures Conforms(DATA_FORMAT, DataValue(d)) && ValueData(DataValue(d)) == d
  {
    Pow256Values();
    ValueOfSet(d.current);
    ValueOfPrevious(d.previous);
    DataFields(DataValue(d).items);
  }

  lemma EightItems(w: seq<Value>, x: seq<Value>)
    requires |w| == |x| == 8 && w[0] == x[0] && w[1] == x[1] && w[2] == x[2] && w[3] == x[3] && w[4] == x[4]
    requires w[5] == x[5] && w[6] == x[6] && w[7] == x[7]
    ensures w == x
  {
  }

  lemma {:induction false} DataOfValue(v: Value)
    requires Conforms(DATA_FORMAT, v)
    ensures DataValue(ValueData(v)) == v && Encodable(ValueData(v))
  {
    Pow256Values();
    var w := v.items;
    DataFields(w);
    SetOfValue(w[6]);
    PreviousOfValue(w[7]);
    EightItems(DataValue(ValueData(v)).items, w);
  }

  function DecodeData(s: Bytes): Option<PublisherSetData> {
    match DecodeAll(DATA_FORMAT, s)
    case None => None
    case Some(v) =>
      DecodeAllIffEncoded(DATA_FORMAT, s, v);
      if ValidData(ValueData(v)) then Some(ValueData(v)) else None
  }

  function EncodeData(d: PublisherSetData): Bytes
    requires Encodable(d)
  {
    ValueOfData(d);
    Formats.Encode(DATA_FORMAT, DataValue(d))
  }

  /** The decoder accepts exactly the encodings of valid states, each as the state it encodes. */
  lemma DecodeDataIffEncoded(s: Bytes, d: PublisherSetData)
    ensures DecodeData(s) == Some(d) <==> ValidData(d) && s == EncodeData(d)
  {
    if DecodeData(s) == Some(d) {
      var v := DecodeAll(DATA_FORMAT, s).value;
      DecodeAllIffEncoded(DATA_FORMAT, s, v);
      DataOfValue(v);
    }
    if ValidData(d) && s == EncodeData(d) {
      ValueOfData(d);
      DecodeAllIffEncoded(DATA_FORMAT, s, DataValue(d));
    }
  }

  lemma EncodeDataInjective(d: PublisherSetData, e: PublisherSetData)
    requires Encodable(d) && Encodable(e) && EncodeData(d) == EncodeData(e)
    ensures d == e
  {
    ValueOfData(d);
    ValueOfData(e);
    EncodeInjective(DATA_FORMAT, DataValue(d), DataValue(e));
  }
}
