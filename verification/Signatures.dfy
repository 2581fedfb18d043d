/** Signature bundles: their encoding, and the two ways a bundle is checked against a key set. */
module Signatures {
  import opened Bytes
  import opened Counting
  import opened Formats
  import opened Hashing
  import opened PublisherSets
  import opened Wrappers

  datatype IndexedSignature = IndexedSignature(publisherIndex: u8, signature: Signature)
  type Bundle = seq<IndexedSignature>

  const ENTRY_FORMAT := Record([UInt(1), Fixed(65)])
  const BUNDLE_FORMAT := Counted(1, ENTRY_FORMAT)

  function EntryValue(e: IndexedSignature): Value { List([Int(e.publisherIndex), Raw(e.signature)]) }

  lemma EntryFields(w: seq<Value>)
    requires |w| == 2
    ensures Conforms(ENTRY_FORMAT, List(w)) <==> Conforms(UInt(1), w[0]) && Conforms(Fixed(65), w[1])
  {
    assert ENTRY_FORMAT.fields[0] == UInt(1) && ENTRY_FORMAT.fields[1] == Fixed(65);
  }

  lemma EntryConforms(e: IndexedSignature)
    ensures Conforms(ENTRY_FORMAT, EntryValue(e))
  {
    Pow256Values();
    EntryFields(EntryValue(e).items);
  }

  function ValueEntry(v: Value): (e: IndexedSignature)
    requires Conforms(ENTRY_FORMAT, v)
    ensures EntryValue(e) == v
  {
    Pow256Values();
    var w := v.items;
    EntryFields(w);
    assert w == [w[0], w[1]];
    IndexedSignature(w[0].num, w[1].raw)
  }

  function BundleValue(b: Bundle): (v: Value)
    ensures v.List? && |v.items| == |b| && forall i :: 0 <= i < |b| ==> v.items[i] == EntryValue(b[i])
  {
    List(seq(|b|, i requires 0 <= i < |b| => EntryValue(b[i])))
  }

  lemma BundleConforms(b: Bundle)
    ensures Conforms(BUNDLE_FORMAT, BundleValue(b)) <==> |b| < 256
    ensures forall i :: 0 <= i < |b| ==> Conforms(ENTRY_FORMAT, BundleValue(b).items[i])
  {
    Pow256Values();
    forall i | 0 <= i < |b| ensures Conforms(ENTRY_FORMAT, BundleValue(b).items[i]) { EntryConforms(b[i]); }
  }

  function ValueBundle(v: Value): (b: Bundle)
    requires Conforms(BUNDLE_FORMAT, v)
    ensures BundleValue(b) == v && |b| < 256
  {
    Pow256Values();
    var b := seq(|v.items|, i requires 0 <= i < |v.items| => ValueEntry(v.items[i]));
    assert BundleValue(b).items == v.items;
    b
  }

  lemma BundleValueInjective(a: Bundle, b: Bundle)
    requires BundleValue(a) == BundleValue(b)
    ensures a == b
  {
    forall i | 0 <= i < |a| ensures a[i] == b[i] {
      assert BundleValue(a).items[i] == EntryValue(a[i]) && BundleValue(b).items[i] == EntryValue(b[i]);
      assert EntryValue(a[i]).items == EntryValue(b[i]).items;
      assert EntryValue(a[i]).items[0] == EntryValue(b[i]).items[0]
          && EntryValue(a[i]).items[1] == EntryValue(b[i]).items[1];
    }
  }

  /** The bundle at the front of `data`, and what follows it. */
  function DecodeBundlePrefix(data: Bytes): Option<(Bundle, Bytes)> {
    match Formats.Decode(BUNDLE_FORMAT, data)
    case None => None
    case Some((v, rest)) => EncodeDecode(BUNDLE_FORMAT, data); Some((ValueBundle(v), rest))
  }

  function EncodeBundle(b: Bundle): Bytes
    requires |b| < 256
  {
    BundleConforms(b);
    Formats.Encode(BUNDLE_FORMAT, BundleValue(b))
  }

  lemma DecodeBundleIffEncoded(data: Bytes, b: Bundle, rest: Bytes)
    ensures DecodeBundlePrefix(data) == Some((b, rest)) <==> |b| < 256 && data == EncodeBundle(b) + rest
  {
    if DecodeBundlePrefix(data) == Some((b, rest)) {
      EncodeDecode(BUNDLE_FORMAT, data);
    }
    if |b| < 256 && data == EncodeBundle(b) + rest {
      BundleConforms(b);
      DecodeEncode(BUNDLE_FORMAT, BundleValue(b), rest);
      BundleValueInjective(ValueBundle(BundleValue(b)), b);
    }
  }

  lemma EncodedEntry(e: IndexedSignature)
    ensures Conforms(ENTRY_FORMAT, EntryValue(e))
    ensures Formats.Encode(ENTRY_FORMAT, EntryValue(e)) == [e.publisherIndex] + e.signature
  {
    EntryConforms(e);
    var w := EntryValue(e).items;
    assert w[1..] == [Raw(e.signature)] && w[1..][1..] == [];
    var f := ENTRY_FORMAT.fields;
    assert f[1..] == [Fixed(65)] && f[1..][1..] == [];
    assert EncodeFields(f[1..], w[1..]) == e.signature + [];
    assert ToLE(1, e.publisherIndex) == [e.publisherIndex] + ToLE(0, e.publisherIndex / 256);
    assert EncodeFields(f, w) == Formats.Encode(f[0], w[0]) + EncodeFields(f[1..], w[1..]);
  }

  /** `parse_prefix`: the byte loop, returning the bundle and the number of bytes used. */
  method ParsePrefix(data: Bytes) returns (r: Option<(Bundle, nat)>)
    ensures r.Some? <==> DecodeBundlePrefix(data).Some?
    ensures r.Some? ==> r.value.1 <= |data| && DecodeBundlePrefix(data) == Some((r.value.0, data[r.value.1..]))
  {
    if data == [] {
      return None;
    }
    var count: int := data[0];
    var expected := 1 + count * 66;
    if |data| < expected {
      if DecodeBundlePrefix(data).Some? { BundleLength(data); }
      return None;
    }
    var bundle: Bundle := [];
    var offset := 1;
    BundleConforms([]);
    while |bundle| < count
      invariant |bundle| <= count && offset == 1 + 66 * |bundle|
      invariant data[1..offset] == EntriesBytes(bundle)
    {
      var publisherIndex := data[offset];
      var signature := data[offset + 1..offset + 66];
      var entry := IndexedSignature(publisherIndex, signature);
      EntriesAppend(bundle, entry);
      assert data[1..offset + 66] == data[1..offset] + ([publisherIndex] + signature);
      bundle := bundle + [entry];
      offset := offset + 66;
    }
    BundleBytes(bundle);
    assert data == ([count] + data[1..offset]) + data[offset..];
    DecodeBundleIffEncoded(data, bundle, data[offset..]);
    return Some((bundle, expected));
  }

  function EntriesBytes(b: Bundle): Bytes {
    BundleConforms(b);
    EncodeItems(ENTRY_FORMAT, BundleValue(b).items)
  }

  lemma EntriesAppend(b: Bundle, e: IndexedSignature)
    ensures EntriesBytes(b + [e]) == EntriesBytes(b) + ([e.publisherIndex] + e.signature)
  {
    BundleConforms(b);
    EncodedEntry(e);
    EncodeItemsAppend(ENTRY_FORMAT, BundleValue(b).items, EntryValue(e));
    assert BundleValue(b + [e]).items == BundleValue(b).items + [EntryValue(e)];
  }

  lemma BundleBytes(b: Bundle)
    requires |b| < 256
    ensures EncodeBundle(b) == [|b|] + EntriesBytes(b)
  {
    BundleConforms(b);
    assert ToLE(1, |b|) == [|b|] + ToLE(0, |b| / 256);
  }

  lemma BundleLength(data: Bytes)
    requires DecodeBundlePrefix(data).Some?
    ensures data != [] && |data| >= 1 + 66 * (data[0] as int)
  {
    var (b, rest) := DecodeBundlePrefix(data).value;
    DecodeBundleIffEncoded(data, b, rest);
    BundleBytes(b);
    BundleConforms(b);
    EntryLength();
    EncodedItemsLength(ENTRY_FORMAT, BundleValue(b).items);
  }

  lemma EntryLength()
    ensures FixedLength(ENTRY_FORMAT) == Some(66)
  {
    Lengths2(UInt(1), Fixed(65));
  }

  // ----- checking a bundle

  /** At least a quorum, in strictly ascending index order, every signature by the key at its index. */
  predicate Threshold(c: Crypto, b: Bundle, digest: Digest, s: PublisherSet) {
    && Quorum(s) <= |b| <= |s.pubkeys|
    && (forall i :: 0 < i < |b| ==> b[i - 1].publisherIndex < b[i].publisherIndex)
    && (forall i :: 0 <= i < |b| ==> b[i].publisherIndex < |s.pubkeys|
                                     && c.valid(digest, b[i].signature, s.pubkeys[b[i].publisherIndex]))
  }

  method VerifyThreshold(c: Crypto, b: Bundle, digest: Digest, s: PublisherSet) returns (ok: bool)
    ensures ok <==> Threshold(c, b, digest, s)
  {
    if |b| < Quorum(s) || |b| > |s.pubkeys| {
      return false;
    }
    var previous: Option<u8> := None;
    for k := 0 to |b|
      invariant previous == if k == 0 then None else Some(b[k - 1].publisherIndex)
      invariant forall i :: 0 < i < k ==> b[i - 1].publisherIndex < b[i].publisherIndex
      invariant forall i :: 0 <= i < k ==> b[i].publisherIndex < |s.pubkeys|
                                           && c.valid(digest, b[i].signature, s.pubkeys[b[i].publisherIndex])
    {
      var entry := b[k];
      if previous.Some? && entry.publisherIndex <= previous.value {
        return false;
      }
      previous := Some(entry.publisherIndex);
      if entry.publisherIndex >= |s.pubkeys| || !c.valid(digest, entry.signature, s.pubkeys[entry.publisherIndex]) {
        return false;
      }
    }
    return true;
  }

  /** Proof of possession: every key of the set, in index order. */
  predicate AllSigned(c: Crypto, b: Bundle, digest: Digest, s: PublisherSet) {
    |b| == |s.pubkeys|
    && forall i :: 0 <= i < |b| ==> b[i].publisherIndex == i && c.valid(digest, b[i].signature, s.pubkeys[i])
  }

  method VerifyAll(c: Crypto, b: Bundle, digest: Digest, s: PublisherSet) returns (ok: bool)
    ensures ok <==> AllSigned(c, b, digest, s)
  {
    if |b| != |s.pubkeys| {
      return false;
    }
    for index := 0 to |b|
      invariant forall i :: 0 <= i < index ==> b[i].publisherIndex == i && c.valid(digest, b[i].signature, s.pubkeys[i])
    {
      if b[index].publisherIndex != index || !c.valid(digest, b[index].signature, s.pubkeys[index]) {
        return false;
      }
    }
    return true;
  }

  /** A quorum of distinct keys of `s` each have a valid signature over `digest` in the bundle. */
  ghost predicate QuorumSigned(c: Crypto, b: Bundle, digest: Digest, s: PublisherSet) {
    exists signers: set<PubKey> :: |signers| >= Quorum(s) && SignersOf(c, b, digest, s, signers)
  }

  ghost predicate SignersOf(c: Crypto, b: Bundle, digest: Digest, s: PublisherSet, signers: set<PubKey>) {
    forall k :: k in signers ==> k in s.pubkeys && exists i :: 0 <= i < |b| && c.valid(digest, b[i].signature, k)
  }

  lemma {:induction false} IndexesAscend(b: Bundle, i: nat, j: nat)
    requires forall i :: 0 < i < |b| ==> b[i - 1].publisherIndex < b[i].publisherIndex
    requires i < j < |b|
    ensures b[i].publisherIndex < b[j].publisherIndex
    decreases j
  {
    if i + 1 < j { IndexesAscend(b, i, j - 1); }
  }

  /** The keys a bundle that passes the threshold check speaks for. */
  ghost function BundleKeys(b: Bundle, s: PublisherSet): seq<PubKey>
    requires forall i :: 0 <= i < |b| ==> b[i].publisherIndex < |s.pubkeys|
  {
    seq(|b|, i requires 0 <= i < |b| => s.pubkeys[b[i].publisherIndex])
  }

  lemma BundleKeysDistinct(b: Bundle, s: PublisherSet, i: nat, j: nat)
    requires ValidSet(s) && forall i :: 0 <= i < |b| ==> b[i].publisherIndex < |s.pubkeys|
    requires forall i :: 0 < i < |b| ==> b[i - 1].publisherIndex < b[i].publisherIndex
    requires i < j < |b|
    ensures BundleKeys(b, s)[i] != BundleKeys(b, s)[j]
  {
    IndexesAscend(b, i, j);
    if BundleKeys(b, s)[i] == BundleKeys(b, s)[j] { KeysDistinct(s, b[i].publisherIndex, b[j].publisherIndex); }
  }

  /** The threshold check is what its name says: a quorum of different publishers signed. */
  lemma ThresholdMeansQuorum(c: Crypto, b: Bundle, digest: Digest, s: PublisherSet) returns (signers: set<PubKey>)
    requires ValidSet(s) && Threshold(c, b, digest, s)
    ensures |signers| >= Quorum(s) && SignersOf(c, b, digest, s, signers)
    ensures QuorumSigned(c, b, digest, s)
  {
    var keys := BundleKeys(b, s);
    signers := Elements(keys);
    forall i, j | 0 <= i < j < |keys| ensures keys[i] != keys[j] { BundleKeysDistinct(b, s, i, j); }
    DistinctCount(keys);
    forall k | k in signers ensures k in s.pubkeys && exists i :: 0 <= i < |b| && c.valid(digest, b[i].signature, k) {
      var i :| 0 <= i < |keys| && keys[i] == k;
    }
  }

  /** More than two thirds of the members signed, each named once, in ascending order. */
  predicate TwoThirdsSigned(c: Crypto, b: Bundle, digest: Digest, s: PublisherSet) {
    3 * |b| > 2 * |s.pubkeys|
    && (forall i, j :: 0 <= i < j < |b| ==> b[i].publisherIndex < b[j].publisherIndex)
    && forall e ::
        e in b ==> e.publisherIndex < |s.pubkeys| && c.valid(digest, e.signature, s.pubkeys[e.publisherIndex])
  }

  lemma {:induction false} IndexAtLeast(b: Bundle, i: nat)
    requires i < |b| && forall i, j :: 0 <= i < j < |b| ==> b[i].publisherIndex < b[j].publisherIndex
    ensures b[i].publisherIndex >= i
  {
    if i > 0 { IndexAtLeast(b, i - 1); }
  }

  /** The threshold check accepts a bundle if and only if more than two thirds of the members signed. */
  lemma ThresholdIff(c: Crypto, b: Bundle, digest: Digest, s: PublisherSet)
    ensures Threshold(c, b, digest, s) <==> TwoThirdsSigned(c, b, digest, s)
  {
    if Threshold(c, b, digest, s) {
      forall i, j | 0 <= i < j < |b| ensures b[i].publisherIndex < b[j].publisherIndex { IndexesAscend(b, i, j); }
    }
    if TwoThirdsSigned(c, b, digest, s) {
      IndexAtLeast(b, |b| - 1);
      assert forall i :: 0 <= i < |b| ==> b[i] in b;
    }
  }

  /** The bundle of one signature per member, in order. */
  function OneEach(signatures: seq<Signature>): Bundle
    requires |signatures| <= 256
  {
    seq(|signatures|, i requires 0 <= i < |signatures| => IndexedSignature(i, signatures[i]))
  }

  /** Proof of possession accepts exactly one valid signature of every member, in order. */
  lemma AllSignedIff(c: Crypto, b: Bundle, digest: Digest, s: PublisherSet, signatures: seq<Signature>)
    requires |signatures| == |s.pubkeys| <= 256
    ensures b == OneEach(signatures) ==>
              (AllSigned(c, b, digest, s) <==> forall i ::
                  0 <= i < |signatures| ==> c.valid(digest, signatures[i], s.pubkeys[i]))
    ensures AllSigned(c, b, digest, s) ==> b == OneEach(seq(|b|, i requires 0 <= i < |b| => b[i].signature))
  {
  }

  // ----- two quorums of one set share an honest key

  /** The quorum is the least that leaves fewer than a third of the set out. */
  lemma QuorumIsLeast(s: PublisherSet)
    requires s.pubkeys != []
    ensures var n, absent := |s.pubkeys|, |s.pubkeys| - Quorum(s); 0 <= absent && 3 * absent < n <= 3 * (absent + 1)
  {
  }

  ghost function KeySet(s: PublisherSet): set<PubKey> { set k | k in s.pubkeys }

  lemma KeySetSize(s: PublisherSet)
    requires ValidSet(s)
    ensures |KeySet(s)| == |s.pubkeys|
  {
    forall i, j | 0 <= i < j < |s.pubkeys| ensures s.pubkeys[i] != s.pubkeys[j] {
      if s.pubkeys[i] == s.pubkeys[j] { KeysDistinct(s, i, j); }
    }
    assert KeySet(s) == Elements(s.pubkeys);
    DistinctCount(s.pubkeys);
  }

  /** With at most n - quorum keys outside `honest`, any two quorums have an honest key in common. */
  lemma QuorumsIntersect(s: PublisherSet, honest: set<PubKey>, a: set<PubKey>, b: set<PubKey>) returns (k: PubKey)
    requires ValidSet(s) && a <= KeySet(s) && b <= KeySet(s)
    requires |a| >= Quorum(s) && |b| >= Quorum(s)
    requires |KeySet(s) - honest| <= |s.pubkeys| - Quorum(s)
    ensures k in a && k in b && k in honest
  {
    KeySetSize(s);
    var n, faulty := |s.pubkeys|, KeySet(s) - honest;
    SubsetCount(a + b, KeySet(s));
    assert |a * b| >= 2 * Quorum(s) - n;
    if a * b <= faulty {
      SubsetCount(a * b, faulty);
    }
    k :| k in a * b && k !in faulty;
  }
}
