/** Signed observations and the peer frames publishers exchange. Both are layouts, so each decoder
    accepts exactly the encodings; an observation must also be sorted by feed, and its signature verified. */
module Wire {
  import opened Aggregate
  import opened Bytes
  import opened Formats
  import opened Hashing
  import opened PublisherSets
  import opened Wrappers

  datatype SignedObservation = SignedObservation(observation: Observation, signature: Signature)

  // ----- observations

  const OBSERVATION_ENTRY_FORMAT := Record([Fixed(32), SInt(8), UInt(8), UInt(8)])
  const OBSERVATION_HEAD_FORMAT := Record([Fixed(32), UInt(4), UInt(8), Fixed(32), UInt(1)])
  const OBSERVATION_FORMAT :=
      Record([Literal(Ascii("LOOB") + [1]), OBSERVATION_HEAD_FORMAT, Counted(1, OBSERVATION_ENTRY_FORMAT)])

  /** Entries strictly ascending by feed id: encoding anything else throws, and decoding refuses it. */
  predicate SortedUnique(entries: seq<ObservationEntry>) {
    forall i :: 0 < i < |entries| ==> LexLt(entries[i - 1].feedId, entries[i].feedId)
  }

  predicate ValidObservation(o: Observation) { |o.entries| < 256 && SortedUnique(o.entries) }

  function EntryValue(e: ObservationEntry): Value {
    List([Raw(e.feedId), Int(e.price), Int(e.conf), Int(e.sourceTimeMs)])
  }

  lemma EntryFields(w: seq<Value>)
    requires |w| == 4
    ensures Conforms(OBSERVATION_ENTRY_FORMAT, List(w)) <==>
            Conforms(Fixed(32), w[0]) && Conforms(SInt(8), w[1]) && Conforms(UInt(8), w[2]) && Conforms(UInt(8), w[3])
  {
    var f := OBSERVATION_ENTRY_FORMAT.fields;
    assert f[0] == Fixed(32) && f[1] == SInt(8) && f[2] == UInt(8) && f[3] == UInt(8);
  }

  lemma EntryConforms(e: ObservationEntry)
    ensures Conforms(OBSERVATION_ENTRY_FORMAT, EntryValue(e))
  {
    Pow256Values();
    EntryFields(EntryValue(e).items);
  }

  function ValueEntry(v: Value): (e: ObservationEntry)
    requires Conforms(OBSERVATION_ENTRY_FORMAT, v)
    ensures EntryValue(e) == v
  {
    Pow256Values();
    var w := v.items;
    EntryFields(w);
    assert w == [w[0], w[1], w[2], w[3]];
    ObservationEntry(w[0].raw, w[1].num, w[2].num, w[3].num)
  }

  function EntriesValue(entries: seq<ObservationEntry>): (v: Value)
    ensures v.List? && |v.items| == |entries| && forall i :: 0 <= i < |entries| ==> v.items[i] == EntryValue(entries[i])
  {
    List(seq(|entries|, i requires 0 <= i < |entries| => EntryValue(entries[i])))
  }

  lemma EntriesConform(entries: seq<ObservationEntry>)
    requires |entries| < 256
    ensures Conforms(Counted(1, OBSERVATION_ENTRY_FORMAT), EntriesValue(entries))
  {
    Pow256Values();
    forall i | 0 <= i < |entries| ensures Conforms(OBSERVATION_ENTRY_FORMAT, EntriesValue(entries).items[i]) {
      EntryConforms(entries[i]);
    }
  }

  function ValueEntries(v: Value): (entries: seq<ObservationEntry>)
    requires Conforms(Counted(1, OBSERVATION_ENTRY_FORMAT), v)
    ensures EntriesValue(entries) == v && |entries| < 256
  {
    Pow256Values();
    var entries := seq(|v.items|, i requires 0 <= i < |v.items| => ValueEntry(v.items[i]));
    assert EntriesValue(entries).items == v.items;
    entries
  }

  lemma EntriesValueInjective(a: seq<ObservationEntry>, b: seq<ObservationEntry>)
    requires EntriesValue(a) == EntriesValue(b)
    ensures a == b
  {
    forall i | 0 <= i < |a| ensures a[i] == b[i] {
      assert EntriesValue(a).items[i] == EntriesValue(b).items[i];
      var v, w := EntryValue(a[i]).items, EntryValue(b[i]).items;
      assert v[0] == w[0] && v[1] == w[1] && v[2] == w[2] && v[3] == w[3];
    }
  }

  function HeadValue(o: Observation): Value {
    List([Raw(o.publisherSetTypeHash), Int(o.setIndex), Int(o.tickMs), Raw(o.configHash), Int(o.publisherIndex)])
  }

  lemma HeadFields(w: seq<Value>)
    requires |w| == 5
    ensures Conforms(OBSERVATION_HEAD_FORMAT, List(w)) <==>
            Conforms(Fixed(32), w[0]) && Conforms(UInt(4), w[1]) && Conforms(UInt(8), w[2])
            && Conforms(Fixed(32), w[3]) && Conforms(UInt(1), w[4])
  {
    var f := OBSERVATION_HEAD_FORMAT.fields;
    assert f[0] == Fixed(32) && f[1] == UInt(4) && f[2] == UInt(8) && f[3] == Fixed(32) && f[4] == UInt(1);
  }

  lemma HeadConforms(o: Observation)
    ensures Conforms(OBSERVATION_HEAD_FORMAT, HeadValue(o))
  {
    Pow256Values();
    HeadFields(HeadValue(o).items);
  }

  function ObservationValue(o: Observation): Value { List([Unit, HeadValue(o), EntriesValue(o.entries)]) }

  lemma ObservationFields(w: seq<Value>)
    requires |w| == 3
    ensures Conforms(OBSERVATION_FORMAT, List(w)) <==>
            w[0].Unit? && Conforms(OBSERVATION_HEAD_FORMAT, w[1])
            && Conforms(Counted(1, OBSERVATION_ENTRY_FORMAT), w[2])
  {
    var f := OBSERVATION_FORMAT.fields;
    assert Conforms(f[0], w[0]) == w[0].Unit?;
    assert f[1] == OBSERVATION_HEAD_FORMAT && f[2] == Counted(1, OBSERVATION_ENTRY_FORMAT);
  }

  function ValueObservation(v: Value): (o: Observation)
    requires Conforms(OBSERVATION_FORMAT, v)
    ensures ObservationValue(o) == v && |o.entries| < 256
  {
    Pow256Values();
    ObservationFields(v.items);
    var h := v.items[1].items;
    HeadFields(h);
    assert h == [h[0], h[1], h[2], h[3], h[4]] && v.items == [v.items[0], v.items[1], v.items[2]];
    Observation(h[0].raw, h[1].num, h[2].num, h[3].raw, h[4].num, ValueEntries(v.items[2]))
  }

  lemma ObservationConforms(o: Observation)
    requires |o.entries| < 256
    ensures Conforms(OBSERVATION_FORMAT, ObservationValue(o)) && ValueObservation(ObservationValue(o)) == o
  {
    HeadConforms(o);
    EntriesConform(o.entries);
    ObservationFields(ObservationValue(o).items);
    ObservationValueInjective(ValueObservation(ObservationValue(o)), o);
  }

  lemma ObservationValueInjective(a: Observation, b: Observation)
    requires ObservationValue(a) == ObservationValue(b)
    ensures a == b
  {
    var v, w := ObservationValue(a).items, ObservationValue(b).items;
    assert v[1] == w[1] && v[2] == w[2];
    var x, y := v[1].items, w[1].items;
    assert x[0] == y[0] && x[1] == y[1] && x[2] == y[2] && x[3] == y[3] && x[4] == y[4];
    EntriesValueInjective(a.entries, b.entries);
  }

  function EncodeObservation(o: Observation): Bytes
    requires ValidObservation(o)
  {
    ObservationConforms(o);
    Formats.Encode(OBSERVATION_FORMAT, ObservationValue(o))
  }

  function DecodeObservation(s: Bytes): Option<Observation> {
    match DecodeAll(OBSERVATION_FORMAT, s)
    case None => None
    case Some(v) =>
      DecodeAllIffEncoded(OBSERVATION_FORMAT, s, v);
      if SortedUnique(ValueObservation(v).entries) then Some(ValueObservation(v)) else None
  }

  lemma DecodeObservationIffEncoded(s: Bytes, o: Observation)
    ensures DecodeObservation(s) == Some(o) <==> ValidObservation(o) && s == EncodeObservation(o)
  {
    if DecodeObservation(s) == Some(o) {
      DecodeAllIffEncoded(OBSERVATION_FORMAT, s, DecodeAll(OBSERVATION_FORMAT, s).value);
    }
    if ValidObservation(o) && s == EncodeObservation(o) {
      ObservationConforms(o);
      DecodeAllIffEncoded(OBSERVATION_FORMAT, s, ObservationValue(o));
    }
  }

  /** A decoded observation prices each feed once, which is what the aggregation relies on. */
  lemma {:induction false} SortedIsDistinct(entries: seq<ObservationEntry>, i: nat, j: nat)
    requires SortedUnique(entries) && i < j < |entries|
    ensures LexLt(entries[i].feedId, entries[j].feedId)
    decreases j
  {
    if i + 1 < j {
      SortedIsDistinct(entries, i, j - 1);
      LexLtTransitive(entries[i].feedId, entries[j - 1].feedId, entries[j].feedId);
    }
  }

  function ObservationPreimage(o: Observation): Bytes
    requires ValidObservation(o)
  {
    DOMAIN_OBSERVATION + EncodeObservation(o)
  }

  function ObservationHash(c: Crypto, o: Observation): Digest
    requires ValidObservation(o)
  {
    c.hash(ObservationPreimage(o))
  }

  /** The hash a proposal names an observation by says which one it is. */
  lemma ObservationHashInjective(c: Crypto, a: Observation, b: Observation)
    requires ValidObservation(a) && ValidObservation(b) && ObservationHash(c, a) == ObservationHash(c, b)
    requires CollisionFree(c, {ObservationPreimage(a), ObservationPreimage(b)})
    ensures a == b
  {
    DropPrefix(DOMAIN_OBSERVATION, EncodeObservation(a), EncodeObservation(b));
    DecodeObservationIffEncoded(EncodeObservation(a), a);
    DecodeObservationIffEncoded(EncodeObservation(a), b);
  }

  /** The signature is by the key at the observation's index, and the observation is for this set. */
  predicate VerifyObservation(c: Crypto, s: SignedObservation, signers: PublisherSet) {
    && ValidObservation(s.observation)
    && s.observation.publisherIndex < |signers.pubkeys| && s.observation.setIndex == signers.setIndex
    && c.valid(ObservationHash(c, s.observation), s.signature, signers.pubkeys[s.observation.publisherIndex])
  }

  function EncodeSignedObservation(s: SignedObservation): Bytes
    requires ValidObservation(s.observation)
  {
    EncodeObservation(s.observation) + s.signature
  }

  function DecodeSignedObservation(data: Bytes): Option<SignedObservation> {
    if |data| < 65 then None
    else
      match DecodeObservation(data[..|data| - 65])
      case None => None
      case Some(o) => Some(SignedObservation(o, data[|data| - 65..]))
  }

  lemma DecodeSignedObservationIffEncoded(data: Bytes, s: SignedObservation)
    ensures DecodeSignedObservation(data) == Some(s)
        <==> ValidObservation(s.observation) && data == EncodeSignedObservation(s)
  {
    if |data| >= 65 {
      var cut := |data| - 65;
      DecodeObservationIffEncoded(data[..cut], s.observation);
      assert data == data[..cut] + data[cut..];
      if ValidObservation(s.observation) && data == EncodeSignedObservation(s) {
        assert data[..cut] == EncodeObservation(s.observation) && data[cut..] == s.signature;
      }
    }
  }

  // ----- peer frames

  datatype Chosen = Chosen(index: u8, hash: Digest)

  datatype ProposalBody = ProposalBody(tickMs: u64, anchorTickMs: u64, anchorHash: Digest, prevTickMs: u64,
      chosen: seq<Chosen>)

  datatype SignedProposal = SignedProposal(rank: u8, proposer: u8, body: ProposalBody, signature: Signature)

  datatype PeerMessage =
    | ObservationFrame(signed: SignedObservation)
    | ProposalFrame(proposal: SignedProposal)
    | SignatureFrame(tickMs: u64, headerHash: Digest, signature: Signature)
    | ObsRequest(tickMs: u64, indexes: seq<u8>)
    | SyncRequest(afterTickMs: u64)
    | SyncResponse(blobs: seq<Bytes>)
    | TickRequest(tickMs: u64)

  const CHOSEN_FORMAT := Record([UInt(1), Fixed(32)])
  const BODY_FORMAT :=
      Record([Record([UInt(1), UInt(1), UInt(8), UInt(8), Fixed(32)]), UInt(8), Counted(1, CHOSEN_FORMAT)])

  /** The layout after the type byte, by type; observations carry their own format to the end of the frame. */
  function FrameFormat(kind: byte): Option<Format> {
    if kind == 2 then Some(Record([BODY_FORMAT, Fixed(65)]))
    else if kind == 3 then Some(Record([UInt(8), Fixed(32), Fixed(65)]))
    else if kind == 4 then Some(Record([UInt(8), Counted(1, UInt(1))]))
    else if kind == 5 then Some(UInt(8))
    else if kind == 6 then Some(Counted(2, Sized(4)))
    else if kind == 7 then Some(UInt(8))
    else None
  }

  function FrameKind(m: PeerMessage): byte {
    match m
    case ObservationFrame(_) => 1
    case ProposalFrame(_) => 2
    case SignatureFrame(_, _, _) => 3
    case ObsRequest(_, _) => 4
    case SyncRequest(_) => 5
    case SyncResponse(_) => 6
    case TickRequest(_) => 7
  }

  function ChosenValue(ch: Chosen): Value { List([Int(ch.index), Raw(ch.hash)]) }

  function BodyValue(rank: u8, proposer: u8, b: ProposalBody): Value {
    List([List([Int(rank), Int(proposer), Int(b.tickMs), Int(b.anchorTickMs), Raw(b.anchorHash)]), Int(b.prevTickMs),
          List(seq(|b.chosen|, i requires 0 <= i < |b.chosen| => ChosenValue(b.chosen[i])))])
  }

  function FrameValue(m: PeerMessage): Value
    requires !m.ObservationFrame?
  {
    match m
    case ProposalFrame(p) => List([BodyValue(p.rank, p.proposer, p.body), Raw(p.signature)])
    case SignatureFrame(tick, hash, signature) => List([Int(tick), Raw(hash), Raw(signature)])
    case ObsRequest(tick, indexes) =>
        List([Int(tick), List(seq(|indexes|, i requires 0 <= i < |indexes| => Int(indexes[i])))])
    case SyncRequest(after) => Int(after)
    case SyncResponse(blobs) => List(seq(|blobs|, i requires 0 <= i < |blobs| => Raw(blobs[i])))
    case TickRequest(tick) => Int(tick)
  }

  /** The counts fit their width; an observation is one the encoder accepts. */
  predicate ValidMessage(m: PeerMessage) {
    match m
    case ObservationFrame(s) => ValidObservation(s.observation)
    case ProposalFrame(p) => |p.body.chosen| < 256
    case ObsRequest(_, indexes) => |indexes| < 256
    case SyncResponse(blobs) => |blobs| < 0x1_0000 && forall i :: 0 <= i < |blobs| ==> |blobs[i]| < 0x1_0000_0000
    case _ => true
  }

  lemma {:induction false} ListFields2(a: Format, b: Format, w: seq<Value>)
    requires |w| == 2
    ensures Conforms(Record([a, b]), List(w)) <==> Conforms(a, w[0]) && Conforms(b, w[1])
  {
    var f := [a, b];
    assert f[0] == a && f[1] == b;
  }

  lemma {:induction false} ListFields3(a: Format, b: Format, c: Format, w: seq<Value>)
    requires |w| == 3
    ensures Conforms(Record([a, b, c]), List(w)) <==> Conforms(a, w[0]) && Conforms(b, w[1]) && Conforms(c, w[2])
  {
    var f := [a, b, c];
    assert f[0] == a && f[1] == b && f[2] == c;
  }

  lemma {:induction false} ListFields5(a: Format, b: Format, c: Format, d: Format, e: Format, w: seq<Value>)
    requires |w| == 5
    ensures Conforms(Record([a, b, c, d, e]), List(w)) <==>
            Conforms(a, w[0]) && Conforms(b, w[1]) && Conforms(c, w[2]) && Conforms(d, w[3]) && Conforms(e, w[4])
  {
    var f := [a, b, c, d, e];
    assert f[0] == a && f[1] == b && f[2] == c && f[3] == d && f[4] == e;
  }

  lemma ChosenConforms(ch: Chosen)
    ensures Conforms(CHOSEN_FORMAT, ChosenValue(ch))
  {
    Pow256Values();
    ListFields2(UInt(1), Fixed(32), ChosenValue(ch).items);
  }

  function ValueChosen(v: Value): (ch: Chosen)
    requires Conforms(CHOSEN_FORMAT, v)
    ensures ChosenValue(ch) == v
  {
    Pow256Values();
    ListFields2(UInt(1), Fixed(32), v.items);
    assert v.items == [v.items[0], v.items[1]];
    Chosen(v.items[0].num, v.items[1].raw)
  }

  lemma BodyConforms(rank: u8, proposer: u8, b: ProposalBody)
    ensures Conforms(BODY_FORMAT, BodyValue(rank, proposer, b)) <==> |b.chosen| < 256
  {
    Pow256Values();
    var w := BodyValue(rank, proposer, b).items;
    ListFields5(UInt(1), UInt(1), UInt(8), UInt(8), Fixed(32), w[0].items);
    ListFields3(Record([UInt(1), UInt(1), UInt(8), UInt(8), Fixed(32)]), UInt(8), Counted(1, CHOSEN_FORMAT), w);
    forall i | 0 <= i < |b.chosen| ensures Conforms(CHOSEN_FORMAT, w[2].items[i]) { ChosenConforms(b.chosen[i]); }
  }

  function ValueBody(v: Value): (r: (u8, u8, ProposalBody))
    requires Conforms(BODY_FORMAT, v)
    ensures BodyValue(r.0, r.1, r.2) == v
  {
    Pow256Values();
    var w := v.items;
    ListFields3(Record([UInt(1), UInt(1), UInt(8), UInt(8), Fixed(32)]), UInt(8), Counted(1, CHOSEN_FORMAT), w);
    var h, items := w[0].items, w[2].items;
    ListFields5(UInt(1), UInt(1), UInt(8), UInt(8), Fixed(32), h);
    var chosen := seq(|items|, i requires 0 <= i < |items| => ValueChosen(items[i]));
    var body := ProposalBody(h[2].num, h[3].num, h[4].raw, w[1].num, chosen);
    assert BodyValue(h[0].num, h[1].num, body).items[2].items == items;
    assert h == [h[0], h[1], h[2], h[3], h[4]] && w == [w[0], w[1], w[2]];
    (h[0].num, h[1].num, body)
  }

  lemma ChosenInjective(a: seq<Chosen>, b: seq<Chosen>)
    requires |a| == |b| && forall i :: 0 <= i < |a| ==> ChosenValue(a[i]) == ChosenValue(b[i])
    ensures a == b
  {
    forall i | 0 <= i < |a| ensures a[i] == b[i] {
      var v, w := ChosenValue(a[i]).items, ChosenValue(b[i]).items;
      assert v[0] == w[0] && v[1] == w[1];
    }
  }

  lemma BodyValueInjective(r: u8, p: u8, a: ProposalBody, s: u8, q: u8, b: ProposalBody)
    requires BodyValue(r, p, a) == BodyValue(s, q, b)
    ensures r == s && p == q && a == b
  {
    var v, w := BodyValue(r, p, a).items, BodyValue(s, q, b).items;
    assert v[0].items == w[0].items && v[1] == w[1] && v[2].items == w[2].items;
    var x, y := v[0].items, w[0].items;
    assert x[0] == y[0] && x[1] == y[1] && x[2] == y[2] && x[3] == y[3] && x[4] == y[4];
    forall i | 0 <= i < |a.chosen| ensures ChosenValue(a.chosen[i]) == ChosenValue(b.chosen[i]) {
      assert v[2].items[i] == w[2].items[i];
    }
    ChosenInjective(a.chosen, b.chosen);
  }

  lemma SyncResponseConforms(m: PeerMessage)
    requires m.SyncResponse?
    ensures Conforms(FrameFormat(FrameKind(m)).value, FrameValue(m)) <==> ValidMessage(m)
  {
    Pow256Values();
    var w := FrameValue(m).items;
    assert forall i :: 0 <= i < |m.blobs| ==> w[i] == Raw(m.blobs[i]);
    assert forall i :: 0 <= i < |m.blobs| ==> (Conforms(Sized(4), w[i]) <==> |m.blobs[i]| < 0x1_0000_0000);
  }

  lemma FrameConforms(m: PeerMessage)
    requires !m.ObservationFrame?
    ensures Conforms(FrameFormat(FrameKind(m)).value, FrameValue(m)) <==> ValidMessage(m)
  {
    Pow256Values();
    match m
    case ProposalFrame(p) =>
      BodyConforms(p.rank, p.proposer, p.body);
      ListFields2(BODY_FORMAT, Fixed(65), FrameValue(m).items);
    case SignatureFrame(_, _, _) =>
      ListFields3(UInt(8), Fixed(32), Fixed(65), FrameValue(m).items);
    case ObsRequest(_, indexes) =>
      ListFields2(UInt(8), Counted(1, UInt(1)), FrameValue(m).items);
    case SyncResponse(_) => SyncResponseConforms(m);
    case _ =>
  }

  function ValueFrame(kind: byte, v: Value): (m: PeerMessage)
    requires FrameFormat(kind).Some? && Conforms(FrameFormat(kind).value, v)
    ensures !m.ObservationFrame? && FrameKind(m) == kind && FrameValue(m) == v
  {
    Pow256Values();
    if kind == 2 then
      ListFields2(BODY_FORMAT, Fixed(65), v.items);
      assert v.items == [v.items[0], v.items[1]];
      var (rank, proposer, body) := ValueBody(v.items[0]);
      ProposalFrame(SignedProposal(rank, proposer, body, v.items[1].raw))
    else if kind == 3 then
      ListFields3(UInt(8), Fixed(32), Fixed(65), v.items);
      assert v.items == [v.items[0], v.items[1], v.items[2]];
      SignatureFrame(v.items[0].num, v.items[1].raw, v.items[2].raw)
    else if kind == 4 then
      ListFields2(UInt(8), Counted(1, UInt(1)), v.items);
      var items := v.items[1].items;
      assert forall i :: 0 <= i < |items| ==> Conforms(UInt(1), items[i]);
      var m := ObsRequest(v.items[0].num,
          seq(|items|, i requires 0 <= i < |items| => assert Conforms(UInt(1), items[i]); items[i].num));
      assert FrameValue(m).items[1].items == items;
      assert FrameValue(m).items == v.items;
      m
    else if kind == 5 then SyncRequest(v.num)
    else if kind == 6 then
      assert forall i :: 0 <= i < |v.items| ==> Conforms(Sized(4), v.items[i]);
      var m := SyncResponse(seq(|v.items|, i requires 0 <= i < |v.items| => assert Conforms(Sized(4), v.items[i]);
          v.items[i].raw));
      assert FrameValue(m).items == v.items;
      m
    else TickRequest(v.num)
  }

  lemma FrameValueInjective(a: PeerMessage, b: PeerMessage)
    requires !a.ObservationFrame? && FrameKind(a) == FrameKind(b) && FrameValue(a) == FrameValue(b)
    ensures a == b
  {
    match a
    case ProposalFrame(p) =>
      var v, w := FrameValue(a).items, FrameValue(b).items;
      assert v[0] == w[0] && v[1] == w[1];
      BodyValueInjective(p.rank, p.proposer, p.body, b.proposal.rank, b.proposal.proposer, b.proposal.body);
    case SignatureFrame(_, _, _) =>
      var v, w := FrameValue(a).items, FrameValue(b).items;
      assert v[0] == w[0] && v[1] == w[1] && v[2] == w[2];
    case ObsRequest(_, indexes) =>
      var v, w := FrameValue(a).items, FrameValue(b).items;
      assert v[0] == w[0] && v[1].items == w[1].items;
      forall i | 0 <= i < |indexes| ensures indexes[i] == b.indexes[i] { assert v[1].items[i] == w[1].items[i]; }
      assert indexes == b.indexes;
    case SyncResponse(blobs) =>
      var v, w := FrameValue(a).items, FrameValue(b).items;
      forall i | 0 <= i < |blobs| ensures blobs[i] == b.blobs[i] { assert v[i] == w[i]; }
      assert blobs == b.blobs;
    case _ =>
  }

  function EncodeFrame(m: PeerMessage): Bytes
    requires ValidMessage(m)
  {
    if m.ObservationFrame? then [1] + EncodeSignedObservation(m.signed)
    else
      FrameConforms(m);
      [FrameKind(m)] + Formats.Encode(FrameFormat(FrameKind(m)).value, FrameValue(m))
  }

  function DecodeFrame(data: Bytes): Option<PeerMessage> {
    if data == [] then None
    else if data[0] == 1 then
      match DecodeSignedObservation(data[1..]) case None => None case Some(s) => Some(ObservationFrame(s))
    else
      match FrameFormat(data[0])
      case None => None
      case Some(f) =>
        match DecodeAll(f, data[1..])
        case None => None
        case Some(v) => DecodeAllIffEncoded(f, data[1..], v); Some(ValueFrame(data[0], v))
  }

  /** All seven frames: exactly the encodings are accepted, each as the message it encodes. */
  lemma DecodeFrameIffEncoded(data: Bytes, m: PeerMessage)
    ensures DecodeFrame(data) == Some(m) <==> ValidMessage(m) && data == EncodeFrame(m)
  {
    if m.ObservationFrame? {
      if data != [] {
        DecodeSignedObservationIffEncoded(data[1..], m.signed);
        assert data == [data[0]] + data[1..];
      }
    } else {
      if DecodeFrame(data) == Some(m) {
        var f := FrameFormat(data[0]).value;
        DecodeAllIffEncoded(f, data[1..], DecodeAll(f, data[1..]).value);
        FrameConforms(m);
        assert data == [data[0]] + data[1..];
      }
      if ValidMessage(m) && data == EncodeFrame(m) {
        FrameConforms(m);
        var f := FrameFormat(FrameKind(m)).value;
        assert data[0] == FrameKind(m) && data[1..] == Formats.Encode(f, FrameValue(m));
        DecodeAllIffEncoded(f, data[1..], FrameValue(m));
        FrameValueInjective(ValueFrame(data[0], FrameValue(m)), m);
      }
    }
  }

  /** The digest a proposer signs. */
  function ProposalDigest(c: Crypto, rank: u8, proposer: u8, b: ProposalBody): Digest
    requires |b.chosen| < 256
  {
    BodyConforms(rank, proposer, b);
    c.hash(DOMAIN_PROPOSAL + Formats.Encode(BODY_FORMAT, BodyValue(rank, proposer, b)))
  }
}
