/** The bytes of every record, field by field. */
module Layouts {
  import opened Aggregate
  import opened Bytes
  import opened Formats
  import opened Hashing
  import opened PriceFeeds
  import PriceUpdates
  import opened PublisherSets
  import Signatures
  import Wire
  import opened Wrappers

  lemma {:induction false} OneByte(v: int)
    requires 0 <= v < 256
    ensures Pow256(1) == 256 && ToLE(1, v) == [v]
  {
    assert ToLE(1, v) == [v] + ToLE(0, 0);
  }

  lemma Complement8(v: i64)
    ensures InSigned(8, v) && Wrap(8, v) == v % 0x1_0000_0000_0000_0000
  {
    Pow256Values();
  }

  lemma Complement4(v: i32)
    ensures InSigned(4, v) && Wrap(4, v) == v % 0x1_0000_0000
  {
    Pow256Values();
  }

  lemma Magics()
    ensures Ascii("LOPU") + [1] == [76, 79, 80, 85, 1] && Ascii("PSET") + [2] == [80, 83, 69, 84, 2]
    ensures Ascii("LOOB") + [1] == [76, 79, 79, 66, 1]
  {
  }

  // ----- headers, messages and cells

  /** `LOPU`, version 1, committee, set index, publish time, period, configuration, leaf count, root. */
  lemma HeaderLayout(h: PriceUpdates.Header)
    ensures PriceUpdates.EncodeHeader(h)
         == Joined([[76, 79, 80, 85, 1], h.publisherSetTypeHash, LE4(h.setIndex), LE8(h.publishTimeMs),
             LE4(h.tickPeriodMs),
                    h.configHash, LE2(h.leafCount), h.merkleRoot])
  {
    PriceUpdates.HeaderConforms(h);
    Pow256Values();
    FieldsJoined(PriceUpdates.HEADER_FORMAT.fields, PriceUpdates.HeaderValue(h).items,
        [[76, 79, 80, 85, 1], h.publisherSetTypeHash, LE4(h.setIndex), LE8(h.publishTimeMs), LE4(h.tickPeriodMs),
         h.configHash, LE2(h.leafCount), h.merkleRoot]);
  }

  function LE2(v: u16): Bytes { Pow256Values(); ToLE(2, v) }

  function LE4(v: u32): Bytes { Pow256Values(); ToLE(4, v) }

  function LE8(v: u64): Bytes { Pow256Values(); ToLE(8, v) }

  /** Negative numbers as two's complement. */
  function Signed8(v: i64): Bytes { LE8(v % 0x1_0000_0000_0000_0000) }

  function Signed4(v: i32): Bytes { LE4(v % 0x1_0000_0000) }

  /** Price, confidence, exponent. */
  function PriceBytes(price: i64, conf: u64, expo: i32): Bytes { Joined([Signed8(price), LE8(conf), Signed4(expo)]) }

  /** Previous publish time, average price and confidence, source time, publishers. */
  function TailBytes(prev: u64, emaPrice: i64, emaConf: u64, sourceTimeMs: u64, numPublishers: u8): Bytes {
    Joined([LE8(prev), Signed8(emaPrice), LE8(emaConf), LE8(sourceTimeMs), [numPublishers]])
  }

  lemma PriceLayout(price: i64, conf: u64, expo: i32)
    ensures Conforms(PriceUpdates.PRICE_FORMAT, PriceUpdates.PriceValue(price, conf, expo))
    ensures Encode(PriceUpdates.PRICE_FORMAT, PriceUpdates.PriceValue(price, conf, expo))
        == PriceBytes(price, conf, expo)
  {
    PriceUpdates.PriceConforms(price, conf, expo);
    Pow256Values();
    Complement8(price);
    Complement4(expo);
    FieldsJoined(PriceUpdates.PRICE_FORMAT.fields, PriceUpdates.PriceValue(price, conf, expo).items,
        [Signed8(price), LE8(conf), Signed4(expo)]);
  }

  lemma TailLayout(prev: u64, emaPrice: i64, emaConf: u64, sourceTimeMs: u64, numPublishers: u8)
    ensures Conforms(PriceUpdates.TAIL_FORMAT,
              PriceUpdates.TailValue(prev, emaPrice, emaConf, sourceTimeMs, numPublishers))
    ensures Encode(PriceUpdates.TAIL_FORMAT,
        PriceUpdates.TailValue(prev, emaPrice, emaConf, sourceTimeMs, numPublishers))
         == TailBytes(prev, emaPrice, emaConf, sourceTimeMs, numPublishers)
  {
    PriceUpdates.TailConforms(prev, emaPrice, emaConf, sourceTimeMs, numPublishers);
    Pow256Values();
    Complement8(emaPrice);
    OneByte(numPublishers);
    FieldsJoined(PriceUpdates.TAIL_FORMAT.fields,
        PriceUpdates.TailValue(prev, emaPrice, emaConf, sourceTimeMs, numPublishers).items,
        [LE8(prev), Signed8(emaPrice), LE8(emaConf), LE8(sourceTimeMs), [numPublishers]]);
  }

  lemma MessageJoin(m: PriceUpdates.Message, price: Bytes, tail: Bytes)
    requires var p := PriceUpdates.PriceValue(m.price, m.conf, m.expo);
             Conforms(PriceUpdates.PRICE_FORMAT, p) && Encode(PriceUpdates.PRICE_FORMAT, p) == price
    requires var t :=
               PriceUpdates.TailValue(m.prevPublishTimeMs, m.emaPrice, m.emaConf, m.sourceTimeMs, m.numPublishers);
             Conforms(PriceUpdates.TAIL_FORMAT, t) && Encode(PriceUpdates.TAIL_FORMAT, t) == tail
    ensures PriceUpdates.EncodeMessage(m) == Joined([[0], m.feedId, price, tail])
  {
    PriceUpdates.MessageConforms(m);
    FieldsJoined(PriceUpdates.MESSAGE_FORMAT.fields, PriceUpdates.MessageValue(m).items, [[0], m.feedId, price, tail]);
  }

  /** Type 0, feed, then price, confidence and exponent, then previous publish time, averages, source time and
      publishers. */
  lemma MessageLayout(m: PriceUpdates.Message)
    ensures PriceUpdates.EncodeMessage(m)
         == Joined([[0], m.feedId, PriceBytes(m.price, m.conf, m.expo),
                    TailBytes(m.prevPublishTimeMs, m.emaPrice, m.emaConf, m.sourceTimeMs, m.numPublishers)])
  {
    PriceLayout(m.price, m.conf, m.expo);
    TailLayout(m.prevPublishTimeMs, m.emaPrice, m.emaConf, m.sourceTimeMs, m.numPublishers);
    MessageJoin(m, PriceBytes(m.price, m.conf, m.expo),
        TailBytes(m.prevPublishTimeMs, m.emaPrice, m.emaConf, m.sourceTimeMs, m.numPublishers));
  }

  lemma {:induction false} FeedParts(d: PriceFeedData, f: seq<Format>, w: seq<Value>, price: Bytes, tail: Bytes)
    requires f == FEED_FORMAT.fields && w == FeedValue(d).items && |f| == |w| == 6
    requires forall i :: 0 <= i < 6 ==> Conforms(f[i], w[i])
    requires Encode(f[2], w[2]) == price && Encode(f[4], w[4]) == tail
    ensures EncodeFields(f, w)
         == Joined([d.feedId, d.publisherSetTypeHash, price, LE8(d.publishTimeMs), tail, LE4(d.setIndex)])
  {
    Pow256Values();
    SixJoined(f, w, d.feedId, d.publisherSetTypeHash, price, LE8(d.publishTimeMs), tail, LE4(d.setIndex));
  }

  lemma FeedFieldsConform(d: PriceFeedData)
    ensures Conforms(FEED_FORMAT, FeedValue(d)) && |FEED_FORMAT.fields| == |FeedValue(d).items| == 6
    ensures forall i :: 0 <= i < 6 ==> Conforms(FEED_FORMAT.fields[i], FeedValue(d).items[i])
  {
    FeedConforms(d);
  }

  lemma FeedJoin(d: PriceFeedData, price: Bytes, tail: Bytes)
    requires var p := PriceUpdates.PriceValue(d.price, d.conf, d.expo);
             Conforms(PriceUpdates.PRICE_FORMAT, p) && Encode(PriceUpdates.PRICE_FORMAT, p) == price
    requires var t :=
               PriceUpdates.TailValue(d.prevPublishTimeMs, d.emaPrice, d.emaConf, d.sourceTimeMs, d.numPublishers);
             Conforms(PriceUpdates.TAIL_FORMAT, t) && Encode(PriceUpdates.TAIL_FORMAT, t) == tail
    ensures EncodeFeed(d)
         == Joined([d.feedId, d.publisherSetTypeHash, price, LE8(d.publishTimeMs), tail, LE4(d.setIndex)])
  {
    FeedFieldsConform(d);
    FeedParts(d, FEED_FORMAT.fields, FeedValue(d).items, price, tail);
  }

  /** Feed, committee, price, confidence and exponent, publish time, previous publish time, averages, source time
      and publishers, set index. */
  lemma FeedLayout(d: PriceFeedData)
    ensures EncodeFeed(d)
         == Joined([d.feedId, d.publisherSetTypeHash, PriceBytes(d.price, d.conf, d.expo), LE8(d.publishTimeMs),
                    TailBytes(d.prevPublishTimeMs, d.emaPrice, d.emaConf, d.sourceTimeMs, d.numPublishers),
                    LE4(d.setIndex)])
  {
    PriceLayout(d.price, d.conf, d.expo);
    TailLayout(d.prevPublishTimeMs, d.emaPrice, d.emaConf, d.sourceTimeMs, d.numPublishers);
    FeedJoin(d, PriceBytes(d.price, d.conf, d.expo),
        TailBytes(d.prevPublishTimeMs, d.emaPrice, d.emaConf, d.sourceTimeMs, d.numPublishers));
  }

  lemma {:induction false} SixJoined(
      f: seq<Format>, w: seq<Value>, p0: Bytes, p1: Bytes, p2: Bytes, p3: Bytes, p4: Bytes, p5: Bytes)
    requires |f| == |w| == 6 && forall i :: 0 <= i < 6 ==> Conforms(f[i], w[i])
    requires Encode(f[0], w[0]) == p0 && Encode(f[1], w[1]) == p1 && Encode(f[2], w[2]) == p2
    requires Encode(f[3], w[3]) == p3 && Encode(f[4], w[4]) == p4 && Encode(f[5], w[5]) == p5
    ensures EncodeFields(f, w) == Joined([p0, p1, p2, p3, p4, p5])
  {
    FieldsJoined(f, w, [p0, p1, p2, p3, p4, p5]);
  }

  lemma {:induction false} EightJoined(
      f: seq<Format>, w: seq<Value>, p0: Bytes, p1: Bytes, p2: Bytes, p3: Bytes, p4: Bytes, p5: Bytes, p6: Bytes,
      p7: Bytes)
    requires |f| == |w| == 8 && forall i :: 0 <= i < 8 ==> Conforms(f[i], w[i])
    requires Encode(f[0], w[0]) == p0 && Encode(f[1], w[1]) == p1 && Encode(f[2], w[2]) == p2
    requires Encode(f[3], w[3]) == p3 && Encode(f[4], w[4]) == p4 && Encode(f[5], w[5]) == p5
    requires Encode(f[6], w[6]) == p6 && Encode(f[7], w[7]) == p7
    ensures EncodeFields(f, w) == Joined([p0, p1, p2, p3, p4, p5, p6, p7])
  {
    FieldsJoined(f, w, [p0, p1, p2, p3, p4, p5, p6, p7]);
  }

  // ----- bundles and blobs

  function Members(b: Signatures.Bundle): (r: seq<Bytes>)
    ensures |r| == |b| && forall i :: 0 <= i < |r| ==> r[i] == [b[i].publisherIndex] + b[i].signature
  {
    seq(|b|, i requires 0 <= i < |b| => [b[i].publisherIndex] + b[i].signature)
  }

  /** A count, then index and signature of each. */
  lemma BundleLayout(b: Signatures.Bundle)
    requires |b| < 256
    ensures Signatures.EncodeBundle(b) == [|b|] + Joined(Members(b))
  {
    Signatures.BundleConforms(b);
    OneByte(|b|);
    forall i | 0 <= i < |b|
      ensures Conforms(Signatures.ENTRY_FORMAT, Signatures.BundleValue(b).items[i])
      ensures Encode(Signatures.ENTRY_FORMAT, Signatures.BundleValue(b).items[i]) == Members(b)[i]
    {
      Signatures.EncodedEntry(b[i]);
    }
    ItemsJoined(Signatures.ENTRY_FORMAT, Signatures.BundleValue(b).items, Members(b));
  }

  function EntryBytes(e: PriceUpdates.Entry): Bytes
    requires PriceUpdates.ValidEntry(e)
  {
    e.messageBytes + ([|e.proof|] + Joined(e.proof))
  }

  function Entries(entries: seq<PriceUpdates.Entry>): (r: seq<Bytes>)
    requires forall i :: 0 <= i < |entries| ==> PriceUpdates.ValidEntry(entries[i])
    ensures |r| == |entries| && forall i :: 0 <= i < |r| ==> r[i] == EntryBytes(entries[i])
  {
    seq(|entries|, i requires 0 <= i < |entries| => EntryBytes(entries[i]))
  }

  lemma EntryLayout(e: PriceUpdates.Entry)
    requires PriceUpdates.ValidEntry(e)
    ensures Conforms(PriceUpdates.ENTRY_FORMAT, PriceUpdates.EntryValue(e))
    ensures Encode(PriceUpdates.ENTRY_FORMAT, PriceUpdates.EntryValue(e)) == EntryBytes(e)
  {
    PriceUpdates.EntryConforms(e);
    OneByte(|e.proof|);
    var f, w := PriceUpdates.ENTRY_FORMAT.fields, PriceUpdates.EntryValue(e).items;
    PriceUpdates.EntryFields(w);
    ItemsJoined(Fixed(32), w[1].items, e.proof);
    FieldsJoined(f, w, [e.messageBytes, [|e.proof|] + Joined(e.proof)]);
    JoinedTwo(e.messageBytes, [|e.proof|] + Joined(e.proof));
  }

  lemma JoinedTwo(a: Bytes, b: Bytes)
    ensures Joined([a, b]) == a + b
  {
    assert [a, b][1..] == [b] && [b][1..] == [];
    assert Joined([b]) == b + Joined([]);
  }

  lemma EntriesLayout(entries: seq<PriceUpdates.Entry>)
    requires |entries| < 256 && forall i :: 0 <= i < |entries| ==> PriceUpdates.ValidEntry(entries[i])
    ensures Conforms(Counted(1, PriceUpdates.ENTRY_FORMAT), PriceUpdates.EntriesValue(entries))
    ensures Encode(Counted(1, PriceUpdates.ENTRY_FORMAT), PriceUpdates.EntriesValue(entries))
         == [|entries|] + Joined(Entries(entries))
  {
    PriceUpdates.EntriesConform(entries);
    OneByte(|entries|);
    var items := PriceUpdates.EntriesValue(entries).items;
    forall i | 0 <= i < |entries|
      ensures Conforms(PriceUpdates.ENTRY_FORMAT, items[i])
      ensures Encode(PriceUpdates.ENTRY_FORMAT, items[i]) == Entries(entries)[i]
    {
      EntryLayout(entries[i]);
    }
    ItemsJoined(PriceUpdates.ENTRY_FORMAT, items, Entries(entries));
  }

  lemma BlobParts(b: PriceUpdates.Blob, entries: Bytes)
    requires PriceUpdates.ValidBlob(b)
    requires Conforms(Counted(1, PriceUpdates.ENTRY_FORMAT), PriceUpdates.EntriesValue(b.entries))
    requires Encode(Counted(1, PriceUpdates.ENTRY_FORMAT), PriceUpdates.EntriesValue(b.entries)) == entries
    ensures PriceUpdates.EncodeBlob(b)
         == Joined([PriceUpdates.EncodeHeader(b.header), Signatures.EncodeBundle(b.signatures), entries])
  {
    PriceUpdates.BlobConforms(b);
    PriceUpdates.BlobFields(PriceUpdates.BlobValue(b).items);
    ThreeJoined(PriceUpdates.BLOB_FORMAT.fields, PriceUpdates.BlobValue(b).items,
        PriceUpdates.EncodeHeader(b.header), Signatures.EncodeBundle(b.signatures), entries);
  }

  /** Header, signature bundle, a count, then each message behind it with its proof. */
  lemma BlobLayout(b: PriceUpdates.Blob)
    requires PriceUpdates.ValidBlob(b)
    ensures PriceUpdates.EncodeBlob(b)
         == Joined([PriceUpdates.EncodeHeader(b.header), Signatures.EncodeBundle(b.signatures),
                    [|b.entries|] + Joined(Entries(b.entries))])
  {
    EntriesLayout(b.entries);
    BlobParts(b, [|b.entries|] + Joined(Entries(b.entries)));
  }

  predicate FitsBlob(b: PriceUpdates.Blob) {
    && b.header.leafCount >= 1 && |b.signatures| <= 255 && 1 <= |b.entries| <= 255
    && forall i :: 0 <= i < |b.entries| ==> |b.entries[i].messageBytes| == 86 && |b.entries[i].proof| <= 16
  }

  /** A blob is accepted exactly when it is laid out so, commits to something, and holds one to 255 messages of 86
      bytes with proofs of at most 16 nodes. */
  lemma BlobIff(bytes: Bytes, b: PriceUpdates.Blob)
    ensures PriceUpdates.DecodeBlob(bytes) == Some(b)
       <==> FitsBlob(b)
            && bytes == Joined([PriceUpdates.EncodeHeader(b.header), Signatures.EncodeBundle(b.signatures),
                                [|b.entries|] + Joined(Entries(b.entries))])
  {
    PriceUpdates.DecodeBlobIffEncoded(bytes, b);
    if PriceUpdates.ValidBlob(b) { BlobLayout(b); }
  }

  // ----- committee states

  /** Index, a count, then the keys. */
  function SetBytes(s: PublisherSet): Bytes
    requires |s.pubkeys| < 256
  {
    LE4(s.setIndex) + ([|s.pubkeys|] + Joined(s.pubkeys))
  }

  lemma SetLayout(s: PublisherSet)
    requires |s.pubkeys| < 256
    ensures Conforms(SET_FORMAT, SetValue(s)) && Encode(SET_FORMAT, SetValue(s)) == SetBytes(s)
  {
    ValueOfSet(s);
    Pow256Values();
    OneByte(|s.pubkeys|);
    var w := SetValue(s).items;
    assert SET_FORMAT.fields[1] == Counted(1, Fixed(33)) && Conforms(Counted(1, Fixed(33)), w[1]);
    ItemsJoined(Fixed(33), w[1].items, s.pubkeys);
    FieldsJoined(SET_FORMAT.fields, w, [LE4(s.setIndex), [|s.pubkeys|] + Joined(s.pubkeys)]);
    JoinedTwo(LE4(s.setIndex), [|s.pubkeys|] + Joined(s.pubkeys));
  }

  /** A marker, then the outgoing set and its switch. */
  function PreviousBytes(p: Option<PreviousSet>): Bytes
    requires p.Some? ==> |p.value.outgoing.pubkeys| < 256
  {
    if p.None? then [0] else [1] + (SetBytes(p.value.outgoing) + LE8(p.value.untilMs))
  }

  lemma PreviousLayout(p: Option<PreviousSet>)
    requires p.Some? ==> |p.value.outgoing.pubkeys| < 256
    ensures Conforms(Optional(PREVIOUS_FORMAT), PreviousValue(p))
    ensures Encode(Optional(PREVIOUS_FORMAT), PreviousValue(p)) == PreviousBytes(p)
  {
    ValueOfPrevious(p);
    Pow256Values();
    var items := PreviousValue(p).items;
    if p.Some? {
      var q := p.value;
      SetLayout(q.outgoing);
      assert Conforms(PREVIOUS_FORMAT, items[0]);
      FieldsJoined(PREVIOUS_FORMAT.fields, items[0].items, [SetBytes(q.outgoing), LE8(q.untilMs)]);
      JoinedTwo(SetBytes(q.outgoing), LE8(q.untilMs));
      ItemsJoined(PREVIOUS_FORMAT, items, [SetBytes(q.outgoing) + LE8(q.untilMs)]);
      assert Joined([SetBytes(q.outgoing) + LE8(q.untilMs)]) == SetBytes(q.outgoing) + LE8(q.untilMs) + Joined([]);
    }
  }

  lemma DataParts(d: PublisherSetData, current: Bytes, previous: Bytes)
    requires Encodable(d) && Conforms(SET_FORMAT, SetValue(d.current))
    requires Conforms(Optional(PREVIOUS_FORMAT), PreviousValue(d.previous))
    requires Encode(SET_FORMAT, SetValue(d.current)) == current
    requires Encode(Optional(PREVIOUS_FORMAT), PreviousValue(d.previous)) == previous
    ensures EncodeData(d)
         == Joined([[80, 83, 69, 84, 2], d.networkId, LE8(d.governanceNonce), [d.governanceFlags], [0],
                    LE8(d.minRotationIntervalS), current, previous])
  {
    Pow256Values();
    OneByte(d.governanceFlags);
    Magics();
    DataFields(DataValue(d).items);
    EightJoined(DATA_FORMAT.fields, DataValue(d).items, [80, 83, 69, 84, 2], d.networkId, LE8(d.governanceNonce),
        [d.governanceFlags], [0], LE8(d.minRotationIntervalS), current, previous);
  }

  /** `PSET`, version 2, network, nonce, flags, a zero, interval, current set, previous set. */
  lemma DataLayout(d: PublisherSetData)
    requires Encodable(d)
    ensures EncodeData(d)
         == Joined([[80, 83, 69, 84, 2], d.networkId, LE8(d.governanceNonce), [d.governanceFlags], [0],
                    LE8(d.minRotationIntervalS), SetBytes(d.current), PreviousBytes(d.previous)])
  {
    SetLayout(d.current);
    PreviousLayout(d.previous);
    DataParts(d, SetBytes(d.current), PreviousBytes(d.previous));
  }

  // ----- observations

  function Observed(entries: seq<ObservationEntry>): (r: seq<Bytes>)
    ensures |r| == |entries|
    ensures forall i :: 0 <= i < |r| ==>
              r[i] == Joined([entries[i].feedId, Signed8(entries[i].price), LE8(entries[i].conf),
                  LE8(entries[i].sourceTimeMs)])
  {
    seq(|entries|, i requires 0 <= i < |entries| =>
      Joined([entries[i].feedId, Signed8(entries[i].price), LE8(entries[i].conf), LE8(entries[i].sourceTimeMs)]))
  }

  lemma ObservedLayout(e: ObservationEntry)
    ensures Conforms(Wire.OBSERVATION_ENTRY_FORMAT, Wire.EntryValue(e))
    ensures Encode(Wire.OBSERVATION_ENTRY_FORMAT, Wire.EntryValue(e))
         == Joined([e.feedId, Signed8(e.price), LE8(e.conf), LE8(e.sourceTimeMs)])
  {
    Wire.EntryConforms(e);
    Pow256Values();
    Complement8(e.price);
    FieldsJoined(Wire.OBSERVATION_ENTRY_FORMAT.fields, Wire.EntryValue(e).items,
        [e.feedId, Signed8(e.price), LE8(e.conf), LE8(e.sourceTimeMs)]);
  }

  lemma ObservedListLayout(entries: seq<ObservationEntry>)
    requires |entries| < 256
    ensures Conforms(Counted(1, Wire.OBSERVATION_ENTRY_FORMAT), Wire.EntriesValue(entries))
    ensures Encode(Counted(1, Wire.OBSERVATION_ENTRY_FORMAT), Wire.EntriesValue(entries))
         == [|entries|] + Joined(Observed(entries))
  {
    Wire.EntriesConform(entries);
    OneByte(|entries|);
    var items := Wire.EntriesValue(entries).items;
    forall i | 0 <= i < |entries|
      ensures Conforms(Wire.OBSERVATION_ENTRY_FORMAT, items[i])
      ensures Encode(Wire.OBSERVATION_ENTRY_FORMAT, items[i]) == Observed(entries)[i]
    {
      ObservedLayout(entries[i]);
    }
    ItemsJoined(Wire.OBSERVATION_ENTRY_FORMAT, items, Observed(entries));
  }

  function HeadBytes(o: Observation): Bytes {
    Joined([o.publisherSetTypeHash, LE4(o.setIndex), LE8(o.tickMs), o.configHash, [o.publisherIndex]])
  }

  lemma HeadLayout(o: Observation)
    ensures Conforms(Wire.OBSERVATION_HEAD_FORMAT, Wire.HeadValue(o))
    ensures Encode(Wire.OBSERVATION_HEAD_FORMAT, Wire.HeadValue(o)) == HeadBytes(o)
  {
    Wire.HeadConforms(o);
    Pow256Values();
    OneByte(o.publisherIndex);
    FieldsJoined(Wire.OBSERVATION_HEAD_FORMAT.fields, Wire.HeadValue(o).items,
        [o.publisherSetTypeHash, LE4(o.setIndex), LE8(o.tickMs), o.configHash, [o.publisherIndex]]);
  }

  lemma {:induction false} ThreeJoined(f: seq<Format>, w: seq<Value>, a: Bytes, b: Bytes, c: Bytes)
    requires |f| == |w| == 3 && Conforms(f[0], w[0]) && Conforms(f[1], w[1]) && Conforms(f[2], w[2])
    requires Encode(f[0], w[0]) == a && Encode(f[1], w[1]) == b && Encode(f[2], w[2]) == c
    ensures EncodeFields(f, w) == Joined([a, b, c])
  {
    FieldsJoined(f, w, [a, b, c]);
  }

  lemma ObservationParts(o: Observation, head: Bytes, entries: Bytes)
    requires Wire.ValidObservation(o) && Conforms(Wire.OBSERVATION_HEAD_FORMAT, Wire.HeadValue(o))
    requires Conforms(Counted(1, Wire.OBSERVATION_ENTRY_FORMAT), Wire.EntriesValue(o.entries))
    requires Encode(Wire.OBSERVATION_HEAD_FORMAT, Wire.HeadValue(o)) == head
    requires Encode(Counted(1, Wire.OBSERVATION_ENTRY_FORMAT), Wire.EntriesValue(o.entries)) == entries
    ensures Wire.EncodeObservation(o) == Joined([[76, 79, 79, 66, 1], head, entries])
  {
    var f, w := Wire.OBSERVATION_FORMAT.fields, Wire.ObservationValue(o).items;
    Wire.ObservationFields(w);
    Magics();
    ThreeJoined(f, w, Ascii("LOOB") + [1], head, entries);
  }

  /** `LOOB`, version 1, committee, set index, tick, configuration, author, a count, then feed, price,
      confidence and source time of each entry. */
  lemma ObservationLayout(o: Observation)
    requires Wire.ValidObservation(o)
    ensures Wire.EncodeObservation(o)
         == Joined([[76, 79, 79, 66, 1], HeadBytes(o), [|o.entries|] + Joined(Observed(o.entries))])
  {
    HeadLayout(o);
    ObservedListLayout(o.entries);
    ObservationParts(o, HeadBytes(o), [|o.entries|] + Joined(Observed(o.entries)));
  }
}
