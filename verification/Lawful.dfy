/** Exactly which transactions the two scripts accept. */
module Lawful {
  import opened Bytes
  import opened Hashing
  import opened PriceFeeds
  import opened PriceUpdates
  import opened PublisherSets
  import opened Signatures
  import opened Transactions
  import opened Wrappers
  import G = Governance
  import F = PriceFeedScript

  // ----- the shape of a script group

  function Carriers(cells: seq<Cell>, s: Script): set<int> { set i | 0 <= i < |cells| && cells[i].typ == Some(s) }

  function Spent(tx: Transaction): (r: seq<Cell>)
    ensures |r| == |tx.inputs| && forall i :: 0 <= i < |r| ==> r[i] == tx.inputs[i].cell
  {
    seq(|tx.inputs|, i requires 0 <= i < |tx.inputs| => tx.inputs[i].cell)
  }

  /** A script continues where one input and one output carry it, is created where one output does, and is
      burnt where one input does. */
  lemma GroupShapes(tx: Transaction, s: Script, i: int, o: int)
    ensures Continues(tx, s, i, o) <==> Carriers(Spent(tx), s) == {i} && Carriers(tx.outputs, s) == {o}
    ensures Creates(tx, s, o) <==> Carriers(Spent(tx), s) == {} && Carriers(tx.outputs, s) == {o}
    ensures Burns(tx, s, i) <==> Carriers(Spent(tx), s) == {i} && Carriers(tx.outputs, s) == {}
  {
    var ins, outs := Carriers(Spent(tx), s), Carriers(tx.outputs, s);
    assert forall k :: k in ins <==> InputIs(tx, k, s);
    assert forall k :: k in outs <==> OutputIs(tx, k, s);
  }

  /** The first output of a new cell names it: its id is the hash of the first input and the output's index. */
  predicate NamedByFirstInput(c: Crypto, tx: Transaction, o: int, typeId: Bytes) {
    o >= 0 && tx.inputs != [] && typeId == c.hash(tx.inputs[0].serialized + ToLE(8, o % 0x1_0000_0000_0000_0000))
  }

  lemma NamedIff(c: Crypto, tx: Transaction, o: int, typeId: Bytes)
    requires o >= 0
    ensures TypeIdValid(c, tx, o, typeId) <==> NamedByFirstInput(c, tx, o, typeId)
  {
    Pow256Values();
  }

  // ----- the committee script

  /** What an operation makes of a state: every field it does not name stays. */
  predicate Follows(prior: PublisherSetData, next: PublisherSetData, operation: u8) {
    prior.governanceNonce < 0xFFFF_FFFF_FFFF_FFFF
    && var counted := prior.(governanceNonce := prior.governanceNonce + 1);
       if operation == 1 then
         next.previous.Some? && next.current.setIndex == prior.current.setIndex + 1
         && (prior.previous.Some? ==> prior.previous.value.untilMs < next.previous.value.untilMs)
         && next == counted.(current := next.current, previous :=
             Some(PreviousSet(prior.current, next.previous.value.untilMs)))
       else if operation == 2 then
         next.current.setIndex == prior.current.setIndex + 1
         && next == counted.(current := next.current, previous := None)
       else if operation == 3 then prior.governanceFlags == 0 && next == counted.(governanceFlags := 2)
       else if operation == 4 then prior.governanceFlags == 2 && next == counted.(governanceFlags := 0)
       else operation == 5 && prior.previous.Some? && next == counted.(previous := None)
  }

  /** Each operation is allowed exactly as a change of the fields it names. */
  lemma TransitionIff(prior: PublisherSetData, next: PublisherSetData, operation: u8)
    requires ValidData(prior)
    ensures G.CheckTransition(prior, next, operation).Ok? <==> Follows(prior, next, operation)
  {
  }

  /** What the witness of an update carries: the operation, the outgoing set's signatures, and a rotation's
      proof of possession, with nothing after. */
  datatype Witness = Witness(operation: u8, authorization: Bundle, possession: Bundle)

  predicate Fits(w: Witness) { |w.authorization| < 256 && |w.possession| < 256 }

  function WitnessBytes(w: Witness): Bytes
    requires Fits(w)
  {
    [w.operation] + (EncodeBundle(w.authorization) + if w.operation in {1, 2} then EncodeBundle(w.possession) else [])
  }

  /** More than two thirds of the outgoing set signed the step; of a new set, every key signed for itself. */
  ghost predicate Authorized(e: Env, committee: Bytes32, prior: PublisherSetData, next: PublisherSetData, w: Witness)
    requires Encodable(prior) && Encodable(next)
  {
    && TwoThirdsSigned(e.crypto, w.authorization,
         e.crypto.hash(G.UpdatePreimage(e.crypto, committee, prior, next, w.operation)), prior.current)
    && (w.operation in {1, 2} ==>
          exists signatures: seq<Signature> ::
            |signatures| == |next.current.pubkeys| && w.possession == OneEach(signatures)
            && forall i :: 0 <= i < |signatures| ==>
                 e.crypto.valid(e.crypto.hash(G.PopPreimage(e.crypto, committee, next)), signatures[i],
                     next.current.pubkeys[i]))
  }

  /** A rotation waits out the interval, and some header shows its switch is at most an hour ahead. */
  predicate InTime(tx: Transaction, i: int, prior: PublisherSetData, next: PublisherSetData, operation: u8)
    requires 0 <= i < |tx.inputs|
  {
    operation == 1 ==>
      0xC000_0000_0000_0000 + prior.minRotationIntervalS <= tx.inputs[i].since < 0xC100_0000_0000_0000
      && next.previous.Some? && exists h :: h in tx.headers && next.previous.value.untilMs <= h + 3_600_000
  }

  ghost predicate LawfulStep(
      e: Env, tx: Transaction, s: Script, i: int, o: int, prior: PublisherSetData, next: PublisherSetData,
      w: Witness) {
    0 <= i < |tx.inputs| && 0 <= o < |tx.outputs| && ValidData(prior) && ValidData(next) && Fits(w)
    && tx.inputs[i].cell.data == EncodeData(prior) && tx.outputs[o].data == EncodeData(next)
    && tx.outputs[o].lockHash == tx.inputs[i].cell.lockHash && tx.outputs[o].capacity >= tx.inputs[i].cell.capacity
    && tx.inputs[i].args == InputType(WitnessBytes(w)) && Follows(prior, next, w.operation)
    && InTime(tx, i, prior, next, w.operation) && Authorized(e, e.scriptHash(s), prior, next, w)
  }

  lemma PossessionIff(c: Crypto, b: Bundle, digest: Digest, s: PublisherSet)
    requires |s.pubkeys| <= 256
    ensures AllSigned(c, b, digest, s)
       <==> exists signatures: seq<Signature> ::
              |signatures| == |s.pubkeys| && b == OneEach(signatures)
              && forall i :: 0 <= i < |signatures| ==> c.valid(digest, signatures[i], s.pubkeys[i])
  {
    if AllSigned(c, b, digest, s) {
      var signatures := seq(|b|, i requires 0 <= i < |b| => b[i].signature);
      AllSignedIff(c, b, digest, s, signatures);
    }
    if signatures: seq<Signature> :|
      |signatures| == |s.pubkeys| && b == OneEach(signatures)
      && forall i :: 0 <= i < |signatures| ==> c.valid(digest, signatures[i], s.pubkeys[i])
    {
      AllSignedIff(c, b, digest, s, signatures);
    }
  }

  /** Authorization succeeds on a payload if and only if it is the bytes of an authorizing witness. */
  lemma AuthorizationIff(
      e: Env, committee: Bytes32, prior: PublisherSetData, next: PublisherSetData, payload: Bytes, w: Witness)
    requires payload != [] && ValidData(prior) && ValidData(next) && Fits(w) && payload == WitnessBytes(w)
    ensures G.AuthorizationCode(e, committee, prior, next, payload) == 0 <==> Authorized(e, committee, prior, next, w)
  {
    var rest := if w.operation in {1, 2} then EncodeBundle(w.possession) else [];
    assert payload[0] == w.operation && payload[1..] == EncodeBundle(w.authorization) + rest;
    DecodeBundleIffEncoded(payload[1..], w.authorization, rest);
    ThresholdIff(e.crypto, w.authorization,
        e.crypto.hash(G.UpdatePreimage(e.crypto, committee, prior, next, w.operation)), prior.current);
    if w.operation in {1, 2} {
      assert rest == EncodeBundle(w.possession) + [];
      DecodeBundleIffEncoded(rest, w.possession, []);
      PossessionIff(e.crypto, w.possession, e.crypto.hash(G.PopPreimage(e.crypto, committee, next)), next.current);
    }
  }

  /** A payload that authorizes is the bytes of some witness. */
  lemma AuthorizedPayload(e: Env, committee: Bytes32, prior: PublisherSetData, next: PublisherSetData, payload: Bytes)
      returns (w: Witness)
    requires payload != [] && ValidData(prior) && ValidData(next)
    requires G.AuthorizationCode(e, committee, prior, next, payload) == 0
    ensures Fits(w) && payload == WitnessBytes(w) && w.operation == payload[0]
  {
    var (authorization, rest) := DecodeBundlePrefix(payload[1..]).value;
    DecodeBundleIffEncoded(payload[1..], authorization, rest);
    if payload[0] in {1, 2} {
      var (possession, trailing) := DecodeBundlePrefix(rest).value;
      DecodeBundleIffEncoded(rest, possession, trailing);
      assert EncodeBundle(possession) + [] == EncodeBundle(possession);
      w := Witness(payload[0], authorization, possession);
    } else {
      w := Witness(payload[0], authorization, []);
    }
    assert payload == [payload[0]] + payload[1..];
  }

  lemma InTimeIff(tx: Transaction, i: int, prior: PublisherSetData, next: PublisherSetData, operation: u8)
    requires 0 <= i < |tx.inputs| && (operation == 1 ==> next.previous.Some?)
    ensures InTime(tx, i, prior, next, operation)
       <==> (operation == G.OP_ROTATE ==>
               G.IntervalMet(tx.inputs[i].since, prior.minRotationIntervalS)
               && G.UntilAllowed(next.previous.value.untilMs, tx.headers))
  {
  }

  lemma StepIsLawful(e: Env, tx: Transaction, s: Script, i: int, o: int)
      returns (prior: PublisherSetData, next: PublisherSetData, w: Witness)
    requires 0 <= i < |tx.inputs| && 0 <= o < |tx.outputs| && G.UpdateCode(e, tx, s, i, o) == 0
    ensures LawfulStep(e, tx, s, i, o, prior, next, w)
  {
    prior, next := DecodeData(tx.inputs[i].cell.data).value, DecodeData(tx.outputs[o].data).value;
    DecodeDataIffEncoded(tx.inputs[i].cell.data, prior);
    DecodeDataIffEncoded(tx.outputs[o].data, next);
    var payload := tx.inputs[i].args.bytes;
    w := AuthorizedPayload(e, e.scriptHash(s), prior, next, payload);
    AuthorizationIff(e, e.scriptHash(s), prior, next, payload, w);
    TransitionIff(prior, next, w.operation);
    InTimeIff(tx, i, prior, next, w.operation);
  }

  lemma LawfulPasses(
      e: Env, tx: Transaction, s: Script, i: int, o: int, prior: PublisherSetData, next: PublisherSetData, w: Witness)
    requires LawfulStep(e, tx, s, i, o, prior, next, w)
    ensures G.UpdateCode(e, tx, s, i, o) == 0
  {
    DecodeDataIffEncoded(tx.inputs[i].cell.data, prior);
    DecodeDataIffEncoded(tx.outputs[o].data, next);
    var payload := WitnessBytes(w);
    AuthorizationIff(e, e.scriptHash(s), prior, next, payload, w);
    TransitionIff(prior, next, w.operation);
    InTimeIff(tx, i, prior, next, w.operation);
  }

  /** The state a committee begins with. */
  predicate First(d: PublisherSetData) {
    ValidData(d) && d.governanceNonce == 0 && d.current.setIndex == 0 && d.previous.None?
  }

  ghost predicate LawfulCreation(e: Env, tx: Transaction, s: Script, o: int, d: PublisherSetData) {
    0 <= o < |tx.outputs| && First(d) && tx.outputs[o].data == EncodeData(d)
    && |s.args| == 32 && NamedByFirstInput(e.crypto, tx, o, s.args)
  }

  lemma CreationIff(e: Env, tx: Transaction, s: Script, o: int)
    requires 0 <= o < |tx.outputs|
    ensures G.CreateCode(e, tx, s, o) == 0 <==> exists d :: LawfulCreation(e, tx, s, o, d)
  {
    NamedIff(e.crypto, tx, o, s.args);
    var decoded := DecodeData(tx.outputs[o].data);
    if decoded.Some? {
      DecodeDataIffEncoded(tx.outputs[o].data, decoded.value);
      if G.CreateCode(e, tx, s, o) == 0 { assert LawfulCreation(e, tx, s, o, decoded.value); }
    }
    if d :| LawfulCreation(e, tx, s, o, d) { DecodeDataIffEncoded(tx.outputs[o].data, d); }
  }

  /** One output and no input carries the script and begins a committee, or one of each does and the step
      between them is lawful. */
  ghost predicate CommitteeLawful(e: Env, tx: Transaction, s: Script) {
    (exists o, d :: Carriers(Spent(tx), s) == {} && Carriers(tx.outputs, s) == {o} && LawfulCreation(e, tx, s, o, d))
    || exists i, o, prior, next, w ::
         Carriers(Spent(tx), s) == {i} && Carriers(tx.outputs, s) == {o} && LawfulStep(e, tx, s, i, o, prior, next, w)
  }

  /** The committee script accepts a transaction if and only if it is lawful, to the byte. */
  lemma CommitteeAcceptsIff(e: Env, tx: Transaction, s: Script)
    ensures G.Accepts(e, tx, s) <==> CommitteeLawful(e, tx, s)
  {
    if G.Accepts(e, tx, s) { AcceptedIsLawful(e, tx, s); }
    if CommitteeLawful(e, tx, s) { LawfulIsAccepted(e, tx, s); }
  }

  lemma AcceptedIsLawful(e: Env, tx: Transaction, s: Script)
    requires G.Accepts(e, tx, s)
    ensures CommitteeLawful(e, tx, s)
  {
    if o :| Creates(tx, s, o) && G.CreateCode(e, tx, s, o) == 0 {
      GroupShapes(tx, s, 0, o);
      CreationIff(e, tx, s, o);
    } else {
      var i, o :| Continues(tx, s, i, o) && G.UpdateCode(e, tx, s, i, o) == 0;
      GroupShapes(tx, s, i, o);
      var prior, next, w := StepIsLawful(e, tx, s, i, o);
    }
  }

  lemma LawfulIsAccepted(e: Env, tx: Transaction, s: Script)
    requires CommitteeLawful(e, tx, s)
    ensures G.Accepts(e, tx, s)
  {
    if o, d :| Carriers(Spent(tx), s) == {} && Carriers(tx.outputs, s) == {o} && LawfulCreation(e, tx, s, o, d) {
      GroupShapes(tx, s, 0, o);
      CreationIff(e, tx, s, o);
    } else {
      var i, o, prior, next, w :|
        Carriers(Spent(tx), s) == {i} && Carriers(tx.outputs, s) == {o} && LawfulStep(e, tx, s, i, o, prior, next, w);
      GroupShapes(tx, s, i, o);
      LawfulPasses(e, tx, s, i, o, prior, next, w);
    }
  }

  // ----- the price feed script

  /** The input is a feed of this committee under the same code, and its script goes on in some output. */
  ghost predicate Updating(tx: Transaction, s: Script, committee: Bytes32, k: int) {
    0 <= k < |tx.inputs| && tx.inputs[k].cell.typ.Some?
    && tx.inputs[k].cell.typ.value.codeHash == s.codeHash && tx.inputs[k].cell.typ.value.hashType == s.hashType
    && Carriers(tx.outputs, tx.inputs[k].cell.typ.value) != {}
    && exists f: PriceFeedData :: tx.inputs[k].cell.data == EncodeFeed(f) && f.publisherSetTypeHash == committee
  }

  lemma UpdatingIff(tx: Transaction, s: Script, committee: Bytes32, k: int)
    ensures F.IsCandidate(tx, s, committee, k) <==> Updating(tx, s, committee, k)
  {
    if 0 <= k < |tx.inputs| {
      var data := tx.inputs[k].cell.data;
      if DecodeFeed(data).Some? { DecodeFeedIffEncoded(data, DecodeFeed(data).value); }
      if f: PriceFeedData :| data == EncodeFeed(f) && f.publisherSetTypeHash == committee {
        DecodeFeedIffEncoded(data, f);
      }
      if tx.inputs[k].cell.typ.Some? {
        var t := tx.inputs[k].cell.typ.value;
        assert forall o :: o in Carriers(tx.outputs, t) <==> OutputIs(tx, o, t);
      }
    }
  }

  ghost predicate Leads(tx: Transaction, s: Script, committee: Bytes32, k: nat) {
    Updating(tx, s, committee, k) && forall j :: 0 <= j < k ==> !Updating(tx, s, committee, j)
  }

  /** The leader is the lowest updating input. */
  lemma LeaderIff(tx: Transaction, s: Script, committee: Bytes32, k: nat)
    ensures F.Leader(tx, s, committee) == Some(k) <==> Leads(tx, s, committee, k)
  {
    var r := F.Leader(tx, s, committee);
    forall j: int ensures F.IsCandidate(tx, s, committee, j) <==> Updating(tx, s, committee, j) {
      UpdatingIff(tx, s, committee, j);
    }
    if r.Some? && Leads(tx, s, committee, k) { assert !(k < r.value) && !(r.value < k); }
  }

  /** The witness is the blob behind its length in four bytes. */
  lemma {:induction false} WitnessIff(tx: Transaction, k: nat, blob: Bytes)
    requires k < |tx.inputs|
    ensures F.LoadUpdateBlob(tx, k) == Ok(blob)
       <==> |blob| < 0x1_0000_0000 && tx.inputs[k].args == InputType(ToLE(4, |blob|) + blob)
  {
    Pow256Values();
    if tx.inputs[k].args.InputType? {
      var bytes := tx.inputs[k].args.bytes;
      if |bytes| >= 4 {
        ToFromLE(bytes[..4]);
        assert bytes == bytes[..4] + bytes[4..];
      }
      if |blob| < 0x1_0000_0000 {
        FromToLE(4, |blob|);
        assert (ToLE(4, |blob|) + blob)[..4] == ToLE(4, |blob|) && (ToLE(4, |blob|) + blob)[4..] == blob;
      }
    }
  }

  predicate Names(e: Env, cell: Cell, committee: Bytes32) {
    cell.typ.Some? && e.scriptHash(cell.typ.value) == committee
  }

  /** One cell dep carries the committee's type script, and its data is this state. */
  ghost predicate OnlyDep(e: Env, tx: Transaction, committee: Bytes32, m: nat, d: PublisherSetData) {
    m < |tx.deps| && (forall n :: 0 <= n < |tx.deps| ==> (Names(e, tx.deps[n], committee) <==> n == m))
    && ValidData(d) && tx.deps[m].data == EncodeData(d)
  }

  lemma {:induction false} DepsAre(e: Env, deps: seq<Cell>, committee: Bytes32)
    ensures forall n: nat :: n in F.DepsNaming(e, deps, committee) <==> n < |deps| && Names(e, deps[n], committee)
    ensures forall i, j :: 0 <= i < j < |F.DepsNaming(e, deps, committee)| ==>
              F.DepsNaming(e, deps, committee)[i] < F.DepsNaming(e, deps, committee)[j]
  {
    if deps != [] {
      var n := |deps| - 1;
      DepsAre(e, deps[..n], committee);
      var rest := F.DepsNaming(e, deps[..n], committee);
      assert forall i :: 0 <= i < |rest| ==> rest[i] in rest;
    }
  }

  lemma AtMostOne(found: seq<nat>, m: nat)
    requires forall i, j :: 0 <= i < j < |found| ==> found[i] < found[j]
    ensures (forall n :: n in found ==> n == m) ==> |found| <= 1
  {
    if |found| > 1 { assert found[0] in found && found[1] in found; }
  }

  lemma DepIff(e: Env, tx: Transaction, committee: Bytes32, d: PublisherSetData)
    ensures F.PublisherSetDep(e, tx, committee) == Ok(d) <==> exists m: nat :: OnlyDep(e, tx, committee, m, d)
  {
    var found := F.DepsNaming(e, tx.deps, committee);
    DepsAre(e, tx.deps, committee);
    if |found| == 1 {
      assert forall n: nat :: n in found <==> n == found[0];
      DecodeDataIffEncoded(tx.deps[found[0]].data, d);
      if F.PublisherSetDep(e, tx, committee) == Ok(d) { assert OnlyDep(e, tx, committee, found[0], d); }
    }
    if m: nat :| OnlyDep(e, tx, committee, m, d) {
      assert m in found;
      AtMostOne(found, m);
      DecodeDataIffEncoded(tx.deps[m].data, d);
    }
  }

  /** The cell that stores a message under a header. */
  function Stored(h: Header, m: Message): PriceFeedData {
    PriceFeedData(m.feedId, h.publisherSetTypeHash, m.price, m.conf, m.expo, h.publishTimeMs, m.prevPublishTimeMs,
        m.emaPrice, m.emaConf, m.sourceTimeMs, m.numPublishers, h.setIndex)
  }

  lemma StoredIff(d: PriceFeedData, h: Header, m: Message)
    ensures d == Stored(h, m) <==> Matches(d, VerifiedPrice(h, m)) && d.publisherSetTypeHash == h.publisherSetTypeHash
  {
  }

  /** The leader's witness is a blob whose only entry for the feed is the message, proven under a header that
      holds for the committee's one dep. */
  ghost predicate Proven(
      e: Env, tx: Transaction, s: Script, committee: Bytes32, b: Blob, d: PublisherSetData, m: Message) {
    ValidBlob(b) && |EncodeBlob(b)| < 0x1_0000_0000
    && (exists k: nat ::
        Leads(tx, s, committee, k) && tx.inputs[k].args == InputType(ToLE(4, |EncodeBlob(b)|) + EncodeBlob(b)))
    && (exists n: nat :: OnlyDep(e, tx, committee, n, d))
    && (exists n: nat :: OnlyEntry(e.crypto, b, n, m))
    && Taken(e.crypto, b.header, b.signatures, committee, d)
  }

  /** The cell moves to exactly the message the committee signed for its feed at a later time. */
  ghost predicate LawfulMove(
      e: Env, tx: Transaction, s: Script, i: int, o: int, prior: PriceFeedData, b: Blob, d: PublisherSetData,
      m: Message) {
    0 <= i < |tx.inputs| && 0 <= o < |tx.outputs| && |s.args| == 64
    && tx.inputs[i].cell.data == EncodeFeed(prior) && tx.outputs[o].data == EncodeFeed(Stored(b.header, m))
    && s.args[..32] == m.feedId == prior.feedId && prior.publisherSetTypeHash == b.header.publisherSetTypeHash
    && prior.publishTimeMs < b.header.publishTimeMs && Proven(e, tx, s, b.header.publisherSetTypeHash, b, d, m)
  }

  lemma VerifiedIsProven(
      e: Env, tx: Transaction, s: Script, committee: Bytes32, blob: Bytes, d: PublisherSetData, feedId: Bytes32,
      p: VerifiedPrice) returns (b: Blob)
    requires F.SharedBlob(e, tx, s, committee, blob, d)
    requires VerifyPriceUpdate(e.crypto, blob, feedId, committee, d) == Ok(p)
    ensures Proven(e, tx, s, committee, b, d, p.message) && b.header == p.header && p.message.feedId == feedId
    ensures b.header.publisherSetTypeHash == committee
  {
    b := DecodeBlob(blob).value;
    DecodeBlobIffEncoded(blob, b);
    DepIff(e, tx, committee, d);
    var k := F.Leader(tx, s, committee).value;
    LeaderIff(tx, s, committee, k);
    WitnessIff(tx, k, blob);
    VerifiedIff(e.crypto, blob, b, feedId, committee, d, p);
  }

  lemma ProvenIsVerified(
      e: Env, tx: Transaction, s: Script, committee: Bytes32, b: Blob, d: PublisherSetData, m: Message)
    requires Proven(e, tx, s, committee, b, d, m)
    ensures F.SharedBlob(e, tx, s, committee, EncodeBlob(b), d)
    ensures VerifyPriceUpdate(e.crypto, EncodeBlob(b), m.feedId, committee, d) == Ok(VerifiedPrice(b.header, m))
  {
    DepIff(e, tx, committee, d);
    var k: nat :| Leads(tx, s, committee, k)
        && tx.inputs[k].args == InputType(ToLE(4, |EncodeBlob(b)|) + EncodeBlob(b));
    LeaderIff(tx, s, committee, k);
    WitnessIff(tx, k, EncodeBlob(b));
    VerifiedIff(e.crypto, EncodeBlob(b), b, m.feedId, committee, d, VerifiedPrice(b.header, m));
  }

  lemma MoveIff(e: Env, tx: Transaction, s: Script, i: int, o: int)
    requires 0 <= i < |tx.inputs| && 0 <= o < |tx.outputs| && |s.args| == 64
    ensures (exists blob, d :: F.FullyVerified(e, tx, s, i, o, blob, d))
       <==> exists prior, b, d, m :: LawfulMove(e, tx, s, i, o, prior, b, d, m)
  {
    if blob, d :| F.FullyVerified(e, tx, s, i, o, blob, d) {
      var prior, next := DecodeFeed(tx.inputs[i].cell.data).value, DecodeFeed(tx.outputs[o].data).value;
      var p := VerifyPriceUpdate(e.crypto, blob, s.args[..32], next.publisherSetTypeHash, d).value;
      var b := VerifiedIsProven(e, tx, s, next.publisherSetTypeHash, blob, d, s.args[..32], p);
      DecodeFeedIffEncoded(tx.inputs[i].cell.data, prior);
      DecodeFeedIffEncoded(tx.outputs[o].data, next);
      StoredIff(next, b.header, p.message);
      assert LawfulMove(e, tx, s, i, o, prior, b, d, p.message);
    }
    if prior, b, d, m :| LawfulMove(e, tx, s, i, o, prior, b, d, m) {
      ProvenIsVerified(e, tx, s, b.header.publisherSetTypeHash, b, d, m);
      DecodeFeedIffEncoded(tx.inputs[i].cell.data, prior);
      DecodeFeedIffEncoded(tx.outputs[o].data, Stored(b.header, m));
      StoredIff(Stored(b.header, m), b.header, m);
      assert F.FullyVerified(e, tx, s, i, o, EncodeBlob(b), d);
    }
  }

  /** A new feed cell holds nothing but its feed and its committee. */
  function Blank(feedId: Bytes32, committee: Bytes32): PriceFeedData {
    PriceFeedData(feedId, committee, 0, 0, 0, 0, 0, 0, 0, 0, 0, 0)
  }

  ghost predicate LawfulFeed(e: Env, tx: Transaction, s: Script, o: int, committee: Bytes32) {
    0 <= o < |tx.outputs| && |s.args| == 64 && tx.outputs[o].data == EncodeFeed(Blank(s.args[..32], committee))
    && (exists m: nat, d :: OnlyDep(e, tx, committee, m, d)) && NamedByFirstInput(e.crypto, tx, o, s.args[32..])
  }

  lemma FeedCreationIff(e: Env, tx: Transaction, s: Script, o: int)
    requires 0 <= o < |tx.outputs| && |s.args| == 64
    ensures F.CreateCode(e, tx, s, o) == 0 <==> exists committee :: LawfulFeed(e, tx, s, o, committee)
  {
    NamedIff(e.crypto, tx, o, s.args[32..]);
    var decoded := DecodeFeed(tx.outputs[o].data);
    if decoded.Some? {
      var committee := decoded.value.publisherSetTypeHash;
      DecodeFeedIffEncoded(tx.outputs[o].data, decoded.value);
      if F.CreateCode(e, tx, s, o) == 0 {
        DepIff(e, tx, committee, F.PublisherSetDep(e, tx, committee).value);
        assert LawfulFeed(e, tx, s, o, committee);
      }
    }
    if committee :| LawfulFeed(e, tx, s, o, committee) {
      DecodeFeedIffEncoded(tx.outputs[o].data, Blank(s.args[..32], committee));
      var m: nat, d :| OnlyDep(e, tx, committee, m, d);
      DepIff(e, tx, committee, d);
    }
  }

  ghost predicate Begins(e: Env, tx: Transaction, s: Script, o: int, committee: Bytes32) {
    Carriers(Spent(tx), s) == {} && Carriers(tx.outputs, s) == {o} && LawfulFeed(e, tx, s, o, committee)
  }

  ghost predicate Moves(
      e: Env, tx: Transaction, s: Script, i: int, o: int, prior: PriceFeedData, b: Blob, d: PublisherSetData,
      m: Message) {
    Carriers(Spent(tx), s) == {i} && Carriers(tx.outputs, s) == {o} && LawfulMove(e, tx, s, i, o, prior, b, d, m)
  }

  predicate Ends(tx: Transaction, s: Script, i: int) {
    Carriers(Spent(tx), s) == {i} && Carriers(tx.outputs, s) == {}
  }

  /** The script's one feed cell is created blank, moves lawfully, or is burnt. */
  ghost predicate FeedLawful(e: Env, tx: Transaction, s: Script) {
    |s.args| == 64
    && ((exists o, committee :: Begins(e, tx, s, o, committee))
        || (exists i, o, prior, b, d, m :: Moves(e, tx, s, i, o, prior, b, d, m))
        || (exists i :: Ends(tx, s, i)))
  }

  lemma AloneIsLawful(e: Env, tx: Transaction, s: Script)
    requires F.AcceptsAlone(e, tx, s)
    ensures FeedLawful(e, tx, s)
  {
    if o :| Creates(tx, s, o) && F.CreateCode(e, tx, s, o) == 0 {
      GroupShapes(tx, s, 0, o);
      FeedCreationIff(e, tx, s, o);
      var committee :| LawfulFeed(e, tx, s, o, committee);
      assert Begins(e, tx, s, o, committee);
    } else if i :| Burns(tx, s, i) {
      GroupShapes(tx, s, i, 0);
      assert Ends(tx, s, i);
    } else {
      var i, o, blob, d :| Continues(tx, s, i, o) && F.FullyVerified(e, tx, s, i, o, blob, d);
      GroupShapes(tx, s, i, o);
      MoveIff(e, tx, s, i, o);
      var prior, b, state, m :| LawfulMove(e, tx, s, i, o, prior, b, state, m);
      assert Moves(e, tx, s, i, o, prior, b, state, m);
    }
  }

  lemma LawfulAlone(e: Env, tx: Transaction, s: Script)
    requires FeedLawful(e, tx, s)
    ensures F.AcceptsAlone(e, tx, s)
  {
    if o, committee :| Begins(e, tx, s, o, committee) {
      GroupShapes(tx, s, 0, o);
      FeedCreationIff(e, tx, s, o);
    } else if i :| Ends(tx, s, i) {
      GroupShapes(tx, s, i, 0);
    } else {
      var i, o, prior, b, d, m :| Moves(e, tx, s, i, o, prior, b, d, m);
      GroupShapes(tx, s, i, o);
      MoveIff(e, tx, s, i, o);
    }
  }

  /** All feed scripts of one code accept a transaction if and only if each one's cell is lawful, to the byte:
      whatever else is in it, however many feeds and committees it moves, and though only leaders check
      signatures. */
  lemma FeedsAcceptIff(e: Env, tx: Transaction, code: Script)
    ensures F.AllAccept(e, tx, code)
       <==> forall s ::
           F.SameCode(s, code) && Carriers(Spent(tx), s) + Carriers(tx.outputs, s) != {} ==> FeedLawful(e, tx, s)
  {
    F.SharedCheckIsExact(e, tx, code);
    forall s: Script
      ensures F.AcceptsAlone(e, tx, s) <==> FeedLawful(e, tx, s)
      ensures F.Carried(tx, s) <==> Carriers(Spent(tx), s) + Carriers(tx.outputs, s) != {}
    {
      if F.AcceptsAlone(e, tx, s) { AloneIsLawful(e, tx, s); }
      if FeedLawful(e, tx, s) { LawfulAlone(e, tx, s); }
      CarriedIff(tx, s);
    }
  }

  lemma CarriedIff(tx: Transaction, s: Script)
    ensures F.Carried(tx, s) <==> Carriers(Spent(tx), s) + Carriers(tx.outputs, s) != {}
  {
    var ins, outs := Carriers(Spent(tx), s), Carriers(tx.outputs, s);
    assert forall k :: k in ins <==> InputIs(tx, k, s);
    assert forall k :: k in outs <==> OutputIs(tx, k, s);
    if ins + outs != {} { var k :| k in ins + outs; }
    if i :| InputIs(tx, i, s) { assert i in ins + outs; }
    if o :| OutputIs(tx, o, s) { assert o in ins + outs; }
  }

  // ----- the consumer

  /** A cell is usable exactly when it is this feed's, of this committee, was ever updated, and the committee is
      not paused and still names the set that signed it. */
  lemma UsableIff(data: Bytes, feedId: Bytes32, committee: Bytes32, d: PublisherSetData, f: PriceFeedData)
    requires ValidData(d)
    ensures CheckFeedCell(data, feedId, committee, d) == Ok(f)
       <==> data == EncodeFeed(f) && f.feedId == feedId && f.publisherSetTypeHash == committee && f.publishTimeMs > 0
            && d.governanceFlags == 0
            && (f.setIndex == d.current.setIndex || (d.previous.Some? && f.setIndex + 1 == d.current.setIndex))
  {
    DecodeFeedIffEncoded(data, f);
    if DecodeFeed(data).Some? { DecodeFeedIffEncoded(data, DecodeFeed(data).value); }
  }
}
