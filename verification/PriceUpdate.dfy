/** Signed price updates: header, messages and blobs, their encoding, assembly and verification. */
module PriceUpdates {
  import opened Bytes
  import opened Formats
  import opened Hashing
  import opened Merkle
  import opened PublisherSets
  import opened Signatures
  import opened Wrappers

  const MESSAGE_LEN := 86
  const MAX_PROOF_LEN := 16

  datatype Header = Header(
    publisherSetTypeHash: Bytes32, setIndex: u32, publishTimeMs: u64, tickPeriodMs: u32, configHash: Bytes32,
    leafCount: u16, merkleRoot: Digest)

  datatype Message = Message(
    feedId: Bytes32, price: i64, conf: u64, expo: i32, prevPublishTimeMs: u64, emaPrice: i64, emaConf: u64,
    sourceTimeMs: u64, numPublishers: u8)

  // ----- header encoding

  const HEADER_FORMAT := Record([
    Literal(Ascii("LOPU") + [1]), Fixed(32), UInt(4), UInt(8), UInt(4), Fixed(32), UInt(2), Fixed(32)])

  function HeaderValue(h: Header): Value {
    List([Unit, Raw(h.publisherSetTypeHash), Int(h.setIndex), Int(h.publishTimeMs), Int(h.tickPeriodMs),
        Raw(h.configHash),
          Int(h.leafCount), Raw(h.merkleRoot)])
  }

  lemma HeaderFields(w: seq<Value>)
    requires |w| == 8
    ensures Conforms(HEADER_FORMAT, List(w)) <==>
            w[0].Unit? && Conforms(Fixed(32), w[1]) && Conforms(UInt(4), w[2]) && Conforms(UInt(8), w[3])
            && Conforms(UInt(4), w[4])
            && Conforms(Fixed(32), w[5]) && Conforms(UInt(2), w[6]) && Conforms(Fixed(32), w[7])
  {
    var f := HEADER_FORMAT.fields;
    assert Conforms(f[0], w[0]) == w[0].Unit?;
    assert f[1] == Fixed(32) && f[2] == UInt(4) && f[3] == UInt(8) && f[4] == UInt(4) && f[5] == Fixed(32)
        && f[6] == UInt(2) && f[7] == Fixed(32);
  }

  function ValueHeader(v: Value): (h: Header)
    requires Conforms(HEADER_FORMAT, v)
    ensures HeaderValue(h) == v
  {
    Pow256Values();
    var w := v.items;
    HeaderFields(w);
    assert w == [w[0], w[1], w[2], w[3], w[4], w[5], w[6], w[7]];
    Header(w[1].raw, w[2].num, w[3].num, w[4].num, w[5].raw, w[6].num, w[7].raw)
  }

  lemma HeaderConforms(h: Header)
    ensures Conforms(HEADER_FORMAT, HeaderValue(h)) && ValueHeader(HeaderValue(h)) == h
  {
    Pow256Values();
    HeaderFields(HeaderValue(h).items);
  }

  function EncodeHeader(h: Header): Bytes {
    HeaderConforms(h);
    Formats.Encode(HEADER_FORMAT, HeaderValue(h))
  }

  function DecodeHeader(s: Bytes): Option<Header> {
    match DecodeAll(HEADER_FORMAT, s)
    case None => None
    case Some(v) =>
      DecodeAllIffEncoded(HEADER_FORMAT, s, v);
      if ValueHeader(v).leafCount > 0 then Some(ValueHeader(v)) else None
  }

  lemma DecodeHeaderIffEncoded(s: Bytes, h: Header)
    ensures DecodeHeader(s) == Some(h) <==> h.leafCount > 0 && s == EncodeHeader(h)
  {
    HeaderConforms(h);
    DecodeAllIffEncoded(HEADER_FORMAT, s, HeaderValue(h));
    if DecodeHeader(s) == Some(h) {
      DecodeAllIffEncoded(HEADER_FORMAT, s, DecodeAll(HEADER_FORMAT, s).value);
    }
  }

  function SigningPreimage(h: Header): Bytes { DOMAIN_PRICE_UPDATE + EncodeHeader(h) }

  /** The digest the committee quorum signs. */
  function SigningHash(c: Crypto, h: Header): Digest { c.hash(SigningPreimage(h)) }

  lemma SigningHashInjective(c: Crypto, g: Header, h: Header)
    requires CollisionFree(c, {SigningPreimage(g), SigningPreimage(h)}) && SigningHash(c, g) == SigningHash(c, h)
    ensures g == h
  {
    HeaderConforms(g);
    HeaderConforms(h);
    DropPrefix(DOMAIN_PRICE_UPDATE, EncodeHeader(g), EncodeHeader(h));
    EncodeInjective(HEADER_FORMAT, HeaderValue(g), HeaderValue(h));
  }

  // ----- message encoding

  const PRICE_FORMAT := Record([SInt(8), UInt(8), SInt(4)])
  const TAIL_FORMAT := Record([UInt(8), SInt(8), UInt(8), UInt(8), UInt(1)])
  const MESSAGE_FORMAT := Record([Literal([0]), Fixed(32), PRICE_FORMAT, TAIL_FORMAT])

  function PriceValue(price: i64, conf: u64, expo: i32): Value { List([Int(price), Int(conf), Int(expo)]) }

  function TailValue(prev: u64, emaPrice: i64, emaConf: u64, sourceTimeMs: u64, numPublishers: u8): Value {
    List([Int(prev), Int(emaPrice), Int(emaConf), Int(sourceTimeMs), Int(numPublishers)])
  }

  /** The ranges a decoded price and its tail are in. */
  lemma PriceFields(w: seq<Value>)
    requires |w| == 3
    ensures Conforms(PRICE_FORMAT, List(w))
        <==> Conforms(SInt(8), w[0]) && Conforms(UInt(8), w[1]) && Conforms(SInt(4), w[2])
  {
    var f := PRICE_FORMAT.fields;
    assert f[0] == SInt(8) && f[1] == UInt(8) && f[2] == SInt(4);
  }

  lemma TailFields(w: seq<Value>)
    requires |w| == 5
    ensures Conforms(TAIL_FORMAT, List(w)) <==>
            Conforms(UInt(8), w[0]) && Conforms(SInt(8), w[1]) && Conforms(UInt(8), w[2]) && Conforms(UInt(8), w[3])
            && Conforms(UInt(1), w[4])
  {
    var f := TAIL_FORMAT.fields;
    assert f[0] == UInt(8) && f[1] == SInt(8) && f[2] == UInt(8) && f[3] == UInt(8) && f[4] == UInt(1);
  }

  lemma PriceConforms(price: i64, conf: u64, expo: i32)
    ensures Conforms(PRICE_FORMAT, PriceValue(price, conf, expo))
  {
    Pow256Values();
    PriceFields(PriceValue(price, conf, expo).items);
  }

  lemma TailConforms(prev: u64, emaPrice: i64, emaConf: u64, sourceTimeMs: u64, numPublishers: u8)
    ensures Conforms(TAIL_FORMAT, TailValue(prev, emaPrice, emaConf, sourceTimeMs, numPublishers))
  {
    Pow256Values();
    TailFields(TailValue(prev, emaPrice, emaConf, sourceTimeMs, numPublishers).items);
  }

  function MessageValue(m: Message): Value {
    List([Unit, Raw(m.feedId), PriceValue(m.price, m.conf, m.expo),
          TailValue(m.prevPublishTimeMs, m.emaPrice, m.emaConf, m.sourceTimeMs, m.numPublishers)])
  }

  lemma MessageFields(w: seq<Value>)
    requires |w| == 4
    ensures Conforms(MESSAGE_FORMAT, List(w)) <==>
            w[0].Unit? && Conforms(Fixed(32), w[1]) && Conforms(PRICE_FORMAT, w[2]) && Conforms(TAIL_FORMAT, w[3])
  {
    var f := MESSAGE_FORMAT.fields;
    assert Conforms(f[0], w[0]) == w[0].Unit?;
    assert f[1] == Fixed(32) && f[2] == PRICE_FORMAT && f[3] == TAIL_FORMAT;
  }

  function ValueMessage(v: Value): (m: Message)
    requires Conforms(MESSAGE_FORMAT, v)
    ensures MessageValue(m) == v
  {
    Pow256Values();
    MessageFields(v.items);
    var p, q := v.items[2].items, v.items[3].items;
    PriceFields(p);
    TailFields(q);
    assert p == [p[0], p[1], p[2]] && q == [q[0], q[1], q[2], q[3], q[4]];
    assert v.items == [v.items[0], v.items[1], v.items[2], v.items[3]];
    Message(v.items[1].raw, p[0].num, p[1].num, p[2].num, q[0].num, q[1].num, q[2].num, q[3].num, q[4].num)
  }

  lemma MessageConforms(m: Message)
    ensures Conforms(MESSAGE_FORMAT, MessageValue(m)) && ValueMessage(MessageValue(m)) == m
  {
    PriceConforms(m.price, m.conf, m.expo);
    TailConforms(m.prevPublishTimeMs, m.emaPrice, m.emaConf, m.sourceTimeMs, m.numPublishers);
    MessageFields(MessageValue(m).items);
    MessageValueInjective(ValueMessage(MessageValue(m)), m);
  }

  lemma PriceValueInjective(a: i64, b: u64, c: i32, x: i64, y: u64, z: i32)
    requires PriceValue(a, b, c) == PriceValue(x, y, z)
    ensures a == x && b == y && c == z
  {
    var p, q := PriceValue(a, b, c).items, PriceValue(x, y, z).items;
    assert p[0] == q[0] && p[1] == q[1] && p[2] == q[2];
  }

  lemma TailValueInjective(a: u64, b: i64, c: u64, d: u64, e: u8, v: u64, w: i64, x: u64, y: u64, z: u8)
    requires TailValue(a, b, c, d, e) == TailValue(v, w, x, y, z)
    ensures a == v && b == w && c == x && d == y && e == z
  {
    var p, q := TailValue(a, b, c, d, e).items, TailValue(v, w, x, y, z).items;
    assert p[0] == q[0] && p[1] == q[1] && p[2] == q[2] && p[3] == q[3] && p[4] == q[4];
  }

  lemma MessageValueInjective(a: Message, b: Message)
    requires MessageValue(a) == MessageValue(b)
    ensures a == b
  {
    var v, w := MessageValue(a).items, MessageValue(b).items;
    assert v[1] == w[1] && v[2] == w[2] && v[3] == w[3];
    PriceValueInjective(a.price, a.conf, a.expo, b.price, b.conf, b.expo);
    TailValueInjective(a.prevPublishTimeMs, a.emaPrice, a.emaConf, a.sourceTimeMs, a.numPublishers,
                       b.prevPublishTimeMs, b.emaPrice, b.emaConf, b.sourceTimeMs, b.numPublishers);
  }

  function EncodeMessage(m: Message): Bytes {
    MessageConforms(m);
    Formats.Encode(MESSAGE_FORMAT, MessageValue(m))
  }

  function DecodeMessage(s: Bytes): Option<Message> {
    match DecodeAll(MESSAGE_FORMAT, s)
    case None => None
    case Some(v) =>
      DecodeAllIffEncoded(MESSAGE_FORMAT, s, v);
      Some(ValueMessage(v))
  }

  lemma DecodeMessageIffEncoded(s: Bytes, m: Message)
    ensures DecodeMessage(s) == Some(m) <==> s == EncodeMessage(m)
  {
    MessageConforms(m);
    DecodeAllIffEncoded(MESSAGE_FORMAT, s, MessageValue(m));
    if DecodeMessage(s) == Some(m) {
      DecodeAllIffEncoded(MESSAGE_FORMAT, s, DecodeAll(MESSAGE_FORMAT, s).value);
    }
  }

  lemma PriceLength()
    ensures FixedLength(PRICE_FORMAT) == Some(20)
  {
    Lengths3(SInt(8), UInt(8), SInt(4));
  }

  lemma TailLength()
    ensures FixedLength(TAIL_FORMAT) == Some(33)
  {
    Lengths4(SInt(8), UInt(8), UInt(8), UInt(1));
    LengthsCons(UInt(8), [SInt(8), UInt(8), UInt(8), UInt(1)]);
    assert [UInt(8)] + [SInt(8), UInt(8), UInt(8), UInt(1)] == TAIL_FORMAT.fields;
  }

  lemma MessageFormatLength()
    ensures FixedLength(MESSAGE_FORMAT) == Some(MESSAGE_LEN)
  {
    PriceLength();
    TailLength();
    Lengths4(Literal([0]), Fixed(32), PRICE_FORMAT, TAIL_FORMAT);
  }

  lemma MessageLength(m: Message)
    ensures |EncodeMessage(m)| == MESSAGE_LEN
  {
    MessageConforms(m);
    MessageFormatLength();
    EncodedLength(MESSAGE_FORMAT, MessageValue(m));
  }

  lemma MessageStart(m: Message) returns (tail: Bytes)
    ensures EncodeMessage(m) == [0] + (m.feedId + tail)
  {
    MessageConforms(m);
    var f, w := MESSAGE_FORMAT.fields, MessageValue(m).items;
    tail := EncodeFields(f[1..][1..], w[1..][1..]);
    assert EncodeFields(f[1..], w[1..]) == m.feedId + tail;
    assert EncodeFields(f, w) == Formats.Encode(f[0], w[0]) + EncodeFields(f[1..], w[1..]);
    assert Formats.Encode(f[0], w[0]) == [0];
  }

  /** The feed id sits at bytes 1 to 32, where `find_entry` compares it. */
  lemma MessageFeedId(m: Message)
    ensures |EncodeMessage(m)| == MESSAGE_LEN && EncodeMessage(m)[1..33] == m.feedId
  {
    MessageLength(m);
    var tail := MessageStart(m);
    assert ([0] + (m.feedId + tail))[1..33] == m.feedId;
  }

  // ----- blobs

  /** An entry as the contracts hold it: raw message bytes, decoded only when the feed is looked up. */
  datatype Entry = Entry(messageBytes: Bytes, proof: seq<Digest>)

  datatype Blob = Blob(header: Header, signatures: Bundle, entries: seq<Entry>)

  const ENTRY_FORMAT := Record([Fixed(86), Counted(1, Fixed(32))])
  const BLOB_FORMAT := Record([HEADER_FORMAT, BUNDLE_FORMAT, Counted(1, ENTRY_FORMAT)])

  predicate ValidEntry(e: Entry) { |e.messageBytes| == MESSAGE_LEN && |e.proof| <= MAX_PROOF_LEN }

  predicate ValidBlob(b: Blob) {
    b.header.leafCount > 0 && |b.signatures| < 256 && 0 < |b.entries| < 256
    && forall i :: 0 <= i < |b.entries| ==> ValidEntry(b.entries[i])
  }

  function EntryValue(e: Entry): Value {
    List([Raw(e.messageBytes), List(seq(|e.proof|, i requires 0 <= i < |e.proof| => Raw(e.proof[i])))])
  }

  lemma EntryFields(w: seq<Value>)
    requires |w| == 2
    ensures Conforms(ENTRY_FORMAT, List(w)) <==> Conforms(Fixed(86), w[0]) && Conforms(Counted(1, Fixed(32)), w[1])
  {
    assert ENTRY_FORMAT.fields[0] == Fixed(86) && ENTRY_FORMAT.fields[1] == Counted(1, Fixed(32));
  }

  lemma EntryConforms(e: Entry)
    requires |e.messageBytes| == MESSAGE_LEN && |e.proof| < 256
    ensures Conforms(ENTRY_FORMAT, EntryValue(e))
  {
    Pow256Values();
    var w := EntryValue(e).items;
    assert Conforms(Counted(1, Fixed(32)), w[1]);
    EntryFields(w);
  }

  function ValueEntry(v: Value): (e: Entry)
    requires Conforms(ENTRY_FORMAT, v)
    ensures EntryValue(e) == v && |e.messageBytes| == MESSAGE_LEN && |e.proof| < 256
  {
    Pow256Values();
    var w := v.items;
    EntryFields(w);
    assert w == [w[0], w[1]];
    var nodes := w[1].items;
    assert forall i :: 0 <= i < |nodes| ==> Conforms(Fixed(32), nodes[i]);
    var e := Entry(w[0].raw,
        seq(|nodes|, i requires 0 <= i < |nodes| => assert Conforms(Fixed(32), nodes[i]); nodes[i].raw));
    assert EntryValue(e).items[1].items == nodes;
    assert EntryValue(e).items == w;
    e
  }

  lemma EntryValueInjective(a: Entry, b: Entry)
    requires EntryValue(a) == EntryValue(b)
    ensures a == b
  {
    assert EntryValue(a).items[0] == EntryValue(b).items[0];
    var x, y := EntryValue(a).items[1].items, EntryValue(b).items[1].items;
    assert x == y;
    forall i | 0 <= i < |a.proof| ensures a.proof[i] == b.proof[i] { assert x[i] == y[i]; }
    assert a.proof == b.proof;
  }

  function EntriesValue(entries: seq<Entry>): (v: Value)
    ensures v.List? && |v.items| == |entries| && forall i :: 0 <= i < |entries| ==> v.items[i] == EntryValue(entries[i])
  {
    List(seq(|entries|, i requires 0 <= i < |entries| => EntryValue(entries[i])))
  }

  lemma EntriesConform(entries: seq<Entry>)
    requires |entries| < 256 && forall i :: 0 <= i < |entries| ==> ValidEntry(entries[i])
    ensures Conforms(Counted(1, ENTRY_FORMAT), EntriesValue(entries))
  {
    Pow256Values();
    forall i | 0 <= i < |entries| ensures Conforms(ENTRY_FORMAT, EntriesValue(entries).items[i]) {
      EntryConforms(entries[i]);
    }
  }

  function ValueEntries(v: Value): (entries: seq<Entry>)
    requires Conforms(Counted(1, ENTRY_FORMAT), v)
    ensures EntriesValue(entries) == v && |entries| < 256
    ensures forall i :: 0 <= i < |entries| ==> |entries[i].messageBytes| == MESSAGE_LEN
  {
    Pow256Values();
    var entries := seq(|v.items|, i requires 0 <= i < |v.items| => ValueEntry(v.items[i]));
    assert EntriesValue(entries).items == v.items;
    entries
  }

  lemma EntriesValueInjective(a: seq<Entry>, b: seq<Entry>)
    requires EntriesValue(a) == EntriesValue(b)
    ensures a == b
  {
    forall i | 0 <= i < |a| ensures a[i] == b[i] {
      assert EntriesValue(a).items[i] == EntriesValue(b).items[i];
      EntryValueInjective(a[i], b[i]);
    }
  }

  function BlobValue(b: Blob): Value {
    List([HeaderValue(b.header), BundleValue(b.signatures), EntriesValue(b.entries)])
  }

  lemma BlobFields(w: seq<Value>)
    requires |w| == 3
    ensures Conforms(BLOB_FORMAT, List(w)) <==>
            Conforms(HEADER_FORMAT, w[0]) && Conforms(BUNDLE_FORMAT, w[1]) && Conforms(Counted(1, ENTRY_FORMAT), w[2])
  {
    var f := BLOB_FORMAT.fields;
    assert f[0] == HEADER_FORMAT && f[1] == BUNDLE_FORMAT && f[2] == Counted(1, ENTRY_FORMAT);
  }

  function ValueBlob(v: Value): (b: Blob)
    requires Conforms(BLOB_FORMAT, v)
    ensures BlobValue(b) == v && |b.signatures| < 256 && |b.entries| < 256
    ensures forall i :: 0 <= i < |b.entries| ==> |b.entries[i].messageBytes| == MESSAGE_LEN
  {
    var w := v.items;
    BlobFields(w);
    assert w == [w[0], w[1], w[2]];
    Blob(ValueHeader(w[0]), ValueBundle(w[1]), ValueEntries(w[2]))
  }

  lemma BlobConforms(b: Blob)
    requires ValidBlob(b)
    ensures Conforms(BLOB_FORMAT, BlobValue(b)) && ValueBlob(BlobValue(b)) == b
  {
    HeaderConforms(b.header);
    BundleConforms(b.signatures);
    EntriesConform(b.entries);
    BlobFields(BlobValue(b).items);
    var r := ValueBlob(BlobValue(b));
    assert BlobValue(r).items[0] == BlobValue(b).items[0] && BlobValue(r).items[1] == BlobValue(b).items[1]
        && BlobValue(r).items[2] == BlobValue(b).items[2];
    BundleValueInjective(r.signatures, b.signatures);
    EntriesValueInjective(r.entries, b.entries);
  }

  function EncodeBlob(b: Blob): Bytes
    requires ValidBlob(b)
  {
    BlobConforms(b);
    Formats.Encode(BLOB_FORMAT, BlobValue(b))
  }

  function DecodeBlob(s: Bytes): Option<Blob> {
    match DecodeAll(BLOB_FORMAT, s)
    case None => None
    case Some(v) =>
      DecodeAllIffEncoded(BLOB_FORMAT, s, v);
      if ValidBlob(ValueBlob(v)) then Some(ValueBlob(v)) else None
  }

  /** `from_bytes` accepts exactly the encodings of valid blobs, each as the blob it encodes. */
  lemma DecodeBlobIffEncoded(s: Bytes, b: Blob)
    ensures DecodeBlob(s) == Some(b) <==> ValidBlob(b) && s == EncodeBlob(b)
  {
    if DecodeBlob(s) == Some(b) {
      DecodeAllIffEncoded(BLOB_FORMAT, s, DecodeAll(BLOB_FORMAT, s).value);
    }
    if ValidBlob(b) && s == EncodeBlob(b) {
      BlobConforms(b);
      DecodeAllIffEncoded(BLOB_FORMAT, s, BlobValue(b));
    }
  }

  // ----- verification

  datatype VerifyError =
    | Malformed | FeedNotFound | DuplicateFeed | BadProof | WrongSet | Paused | SetIndex | BadSignature

  datatype VerifiedPrice = VerifiedPrice(header: Header, message: Message)

  function VerifyHeader(
      c: Crypto, h: Header, signatures: Bundle, committee: Bytes32, d: PublisherSetData): Result<(), VerifyError> {
    if h.publisherSetTypeHash != committee then Err(WrongSet)
    else if IsPaused(d) then Err(Paused)
    else
      match SetFor(d, h.setIndex, h.publishTimeMs)
      case None => Err(SetIndex)
      case Some(s) => if Threshold(c, signatures, SigningHash(c, h), s) then Ok(()) else Err(BadSignature)
  }

  predicate EntryIsFor(e: Entry, feedId: Bytes32) { |e.messageBytes| >= 33 && e.messageBytes[1..33] == feedId }

  /** The entries for a feed, in order. */
  function EntriesFor(entries: seq<Entry>, feedId: Bytes32): (r: seq<Entry>)
    ensures forall e :: e in r ==> e in entries && EntryIsFor(e, feedId)
  {
    if entries == [] then []
    else
      var last := entries[|entries| - 1];
      EntriesFor(entries[..|entries| - 1], feedId) + if EntryIsFor(last, feedId) then [last] else []
  }

  lemma {:induction false} EntriesForGrows(entries: seq<Entry>, feedId: Bytes32, n: nat)
    requires n <= |entries|
    ensures |EntriesFor(entries[..n], feedId)| <= |EntriesFor(entries, feedId)|
    decreases |entries| - n
  {
    if n == |entries| {
      assert entries[..n] == entries;
    } else {
      assert entries[..n + 1][..n] == entries[..n];
      EntriesForGrows(entries, feedId, n + 1);
    }
  }

  /** A present entry's message, if its bytes decode and its proof holds. */
  function EntryMessage(c: Crypto, root: Digest, e: Entry): Result<Message, VerifyError> {
    match DecodeMessage(e.messageBytes)
    case None => Err(Malformed)
    case Some(m) => if VerifyProof(c, root, LeafHash(c, e.messageBytes), e.proof) then Ok(m) else Err(BadProof)
  }

  /** The one entry for a feed: none and two are both errors. */
  function FindEntry(c: Crypto, b: Blob, feedId: Bytes32): Result<Message, VerifyError> {
    var found := EntriesFor(b.entries, feedId);
    if found == [] then Err(FeedNotFound)
    else if |found| > 1 then Err(DuplicateFeed)
    else EntryMessage(c, b.header.merkleRoot, found[0])
  }

  /** `find_entry`: one pass, stopping at a second entry for the feed. */
  method ComputeFindEntry(c: Crypto, b: Blob, feedId: Bytes32) returns (r: Result<Message, VerifyError>)
    requires forall i :: 0 <= i < |b.entries| ==> |b.entries[i].messageBytes| == MESSAGE_LEN
    ensures r == FindEntry(c, b, feedId)
  {
    var found: Option<Entry> := None;
    for k := 0 to |b.entries|
      invariant EntriesFor(b.entries[..k], feedId) == if found.Some? then [found.value] else []
    {
      assert b.entries[..k + 1][..k] == b.entries[..k];
      if b.entries[k].messageBytes[1..33] == feedId {
        if found.Some? {
          EntriesForGrows(b.entries, feedId, k + 1);
          return Err(DuplicateFeed);
        }
        found := Some(b.entries[k]);
      }
    }
    assert b.entries[..|b.entries|] == b.entries;
    if found.None? {
      return Err(FeedNotFound);
    }
    return EntryMessage(c, b.header.merkleRoot, found.value);
  }

  function VerifyPriceUpdate(
      c: Crypto, blob: Bytes, feedId: Bytes32, committee: Bytes32,
      d: PublisherSetData): Result<VerifiedPrice, VerifyError> {
    match DecodeBlob(blob)
    case None => Err(Malformed)
    case Some(update) =>
      match FindEntry(c, update, feedId)
      case Err(error) => Err(error)
      case Ok(message) =>
        match VerifyHeader(c, update.header, update.signatures, committee, d)
        case Err(error) => Err(error)
        case Ok(_) => Ok(VerifiedPrice(update.header, message))
  }

  /** What an accepted price rests on: the committee's own unpaused state named a set for this tick, a
      quorum of that set signed this header, and the message is proven against the header's root. */
  ghost predicate Authentic(c: Crypto, p: VerifiedPrice, committee: Bytes32, d: PublisherSetData) {
    && p.header.publisherSetTypeHash == committee && !IsPaused(d)
    && SetFor(d, p.header.setIndex, p.header.publishTimeMs).Some?
    && (exists signatures ::
        QuorumSigned(c, signatures, SigningHash(c, p.header),
            SetFor(d, p.header.setIndex, p.header.publishTimeMs).value))
    && (exists proof :: VerifyProof(c, p.header.merkleRoot, LeafHash(c, EncodeMessage(p.message)), proof))
  }

  lemma VerifiedIsAuthentic(c: Crypto, blob: Bytes, feedId: Bytes32, committee: Bytes32, d: PublisherSetData)
    requires ValidData(d) && VerifyPriceUpdate(c, blob, feedId, committee, d).Ok?
    ensures Authentic(c, VerifyPriceUpdate(c, blob, feedId, committee, d).value, committee, d)
    ensures VerifyPriceUpdate(c, blob, feedId, committee, d).value.message.feedId == feedId
  {
    var update := DecodeBlob(blob).value;
    var message := FindEntry(c, update, feedId).value;
    var entry := EntriesFor(update.entries, feedId)[0];
    assert entry in EntriesFor(update.entries, feedId);
    DecodeMessageIffEncoded(entry.messageBytes, message);
    MessageFeedId(message);
    HeaderIsSigned(c, update.header, update.signatures, committee, d);
  }

  lemma HeaderIsSigned(c: Crypto, h: Header, signatures: Bundle, committee: Bytes32, d: PublisherSetData)
    requires ValidData(d) && VerifyHeader(c, h, signatures, committee, d).Ok?
    ensures SetFor(d, h.setIndex, h.publishTimeMs).Some?
    ensures QuorumSigned(c, signatures, SigningHash(c, h), SetFor(d, h.setIndex, h.publishTimeMs).value)
  {
    var signers := ThresholdMeansQuorum(c, signatures, SigningHash(c, h), SetFor(d, h.setIndex, h.publishTimeMs).value);
  }

  // ----- exactly what verifies

  /** The header names this committee, which is not paused, and more than two thirds of a set it may be signed
      by for its index and tick signed it. */
  ghost predicate HeaderHolds(
      c: Crypto, h: Header, signatures: Bundle, committee: Bytes32, d: PublisherSetData, keys: PublisherSet) {
    && h.publisherSetTypeHash == committee && d.governanceFlags == 0
    && MaySign(d, h.setIndex, h.publishTimeMs, keys) && TwoThirdsSigned(c, signatures, SigningHash(c, h), keys)
  }

  /** Some set the state names may have signed the header, and did. */
  ghost predicate Taken(c: Crypto, h: Header, signatures: Bundle, committee: Bytes32, d: PublisherSetData) {
    exists keys :: HeaderHolds(c, h, signatures, committee, d, keys)
  }

  lemma HeaderIff(c: Crypto, h: Header, signatures: Bundle, committee: Bytes32, d: PublisherSetData)
    requires ValidData(d)
    ensures VerifyHeader(c, h, signatures, committee, d).Ok? <==> Taken(c, h, signatures, committee, d)
  {
    var found := SetFor(d, h.setIndex, h.publishTimeMs);
    if found.Some? {
      SetForIff(d, h.setIndex, h.publishTimeMs, found.value);
      ThresholdIff(c, signatures, SigningHash(c, h), found.value);
      if VerifyHeader(c, h, signatures, committee, d).Ok? {
        assert HeaderHolds(c, h, signatures, committee, d, found.value);
      }
    }
    if keys :| HeaderHolds(c, h, signatures, committee, d, keys) { SetForIff(d, h.setIndex, h.publishTimeMs, keys); }
  }

  /** Entry `i` carries the message, proven, and no other entry is for its feed. */
  ghost predicate OnlyEntry(c: Crypto, b: Blob, i: nat, m: Message) {
    i < |b.entries| && b.entries[i].messageBytes == EncodeMessage(m)
    && VerifyProof(c, b.header.merkleRoot, LeafHash(c, EncodeMessage(m)), b.entries[i].proof)
    && forall j :: 0 <= j < |b.entries| && j != i ==> !ForFeed(b.entries[j], m.feedId)
  }

  /** The feed id sits behind the one byte of the message type. */
  ghost predicate ForFeed(e: Entry, feedId: Bytes32) {
    |e.messageBytes| == 86 && exists tag: Bytes, rest: Bytes :: |tag| == 1 && e.messageBytes == tag + (feedId + rest)
  }

  lemma ForFeedIff(e: Entry, feedId: Bytes32)
    requires ValidEntry(e)
    ensures ForFeed(e, feedId) <==> EntryIsFor(e, feedId)
  {
    var s := e.messageBytes;
    if EntryIsFor(e, feedId) { assert s == s[..1] + (feedId + s[33..]); }
    if tag: Bytes, rest: Bytes :| |tag| == 1 && s == tag + (feedId + rest) {
      assert (tag + (feedId + rest))[1..33] == feedId;
    }
  }

  lemma {:induction false} NoneFor(entries: seq<Entry>, feedId: Bytes32)
    ensures EntriesFor(entries, feedId) == [] <==> forall j :: 0 <= j < |entries| ==> !EntryIsFor(entries[j], feedId)
  {
    if entries != [] {
      var n := |entries| - 1;
      NoneFor(entries[..n], feedId);
      assert entries == entries[..n] + [entries[n]];
    }
  }

  lemma {:induction false} OneFor(entries: seq<Entry>, feedId: Bytes32, i: nat)
    requires i < |entries| && EntryIsFor(entries[i], feedId)
    requires forall j :: 0 <= j < |entries| && j != i ==> !EntryIsFor(entries[j], feedId)
    ensures EntriesFor(entries, feedId) == [entries[i]]
  {
    var n := |entries| - 1;
    NoneFor(entries[..n], feedId);
    if i < n { OneFor(entries[..n], feedId, i); }
  }

  lemma {:induction false} OnlyFor(entries: seq<Entry>, feedId: Bytes32) returns (i: nat)
    requires |EntriesFor(entries, feedId)| == 1
    ensures i < |entries| && EntriesFor(entries, feedId) == [entries[i]] && EntryIsFor(entries[i], feedId)
    ensures forall j :: 0 <= j < |entries| && j != i ==> !EntryIsFor(entries[j], feedId)
  {
    var n := |entries| - 1;
    if EntryIsFor(entries[n], feedId) {
      i := n;
      NoneFor(entries[..n], feedId);
    } else {
      i := OnlyFor(entries[..n], feedId);
    }
    assert forall j :: 0 <= j < n ==> entries[..n][j] == entries[j];
  }

  lemma EntryIff(c: Crypto, b: Blob, feedId: Bytes32, m: Message)
    requires ValidBlob(b)
    ensures FindEntry(c, b, feedId) == Ok(m) <==> m.feedId == feedId && exists i: nat :: OnlyEntry(c, b, i, m)
  {
    MessageFeedId(m);
    forall j | 0 <= j < |b.entries| ensures ForFeed(b.entries[j], feedId) <==> EntryIsFor(b.entries[j], feedId) {
      ForFeedIff(b.entries[j], feedId);
    }
    if FindEntry(c, b, feedId) == Ok(m) {
      var i := OnlyFor(b.entries, feedId);
      DecodeMessageIffEncoded(b.entries[i].messageBytes, m);
      assert OnlyEntry(c, b, i, m);
    }
    if i: nat :| m.feedId == feedId && OnlyEntry(c, b, i, m) {
      DecodeMessageIffEncoded(b.entries[i].messageBytes, m);
      OneFor(b.entries, feedId, i);
    }
  }

  ghost predicate Verifies(
      c: Crypto, b: Blob, feedId: Bytes32, committee: Bytes32, d: PublisherSetData, p: VerifiedPrice) {
    p.header == b.header && p.message.feedId == feedId && (exists i: nat :: OnlyEntry(c, b, i, p.message))
    && Taken(c, b.header, b.signatures, committee, d)
  }

  /** A blob verifies for a feed as this price if and only if it encodes an update under the price's header
      that holds for the committee's state, with exactly one entry for the feed, which is the price's message
      and is proven under the header's root. Bytes that encode no update never do. */
  lemma VerifiedIff(
      c: Crypto, blob: Bytes, b: Blob, feedId: Bytes32, committee: Bytes32, d: PublisherSetData, p: VerifiedPrice)
    requires ValidData(d)
    ensures ValidBlob(b) && blob == EncodeBlob(b) ==>
              (VerifyPriceUpdate(c, blob, feedId, committee, d) == Ok(p) <==> Verifies(c, b, feedId, committee, d, p))
    ensures (forall x: Blob :: ValidBlob(x) ==> blob != EncodeBlob(x)) ==>
              VerifyPriceUpdate(c, blob, feedId, committee, d) == Err(Malformed)
  {
    DecodeBlobIffEncoded(blob, b);
    if DecodeBlob(blob).Some? { DecodeBlobIffEncoded(blob, DecodeBlob(blob).value); }
    HeaderIff(c, b.header, b.signatures, committee, d);
    if ValidBlob(b) { EntryIff(c, b, feedId, p.message); }
  }
}
