/** One publisher's per-tick protocol: what each kind of frame does to it. */
module Node {
  import opened Aggregate
  import opened Assembly
  import opened Bytes
  import opened Counting
  import opened Hashing
  import opened PriceUpdates
  import opened PublisherSets
  import opened Signatures
  import opened Store
  import opened Wire
  import opened Wrappers

  datatype ActiveConfig = ActiveConfig(
    hash: Bytes32, tickPeriodMs: u32, observationDeadlineMs: nat, maxSigningLagMs: nat, feeds: seq<FeedConfig>)

  /** What a process is started with. `schedule` and `leaderOrder` are the config schedule and the seeded
      leader order, as functions of their inputs. */
  datatype Setup = Setup(
    crypto: Crypto, index: u8, typeHash: Bytes32, current: PublisherSet, schedule: u64 -> Option<ActiveConfig>,
    leaderOrder: (u64, Digest, nat) -> seq<nat>, skewMs: nat)

  datatype Derived = Derived(header: Header, entries: seq<UpdateEntry>, headerHash: Digest)

  datatype TickState = TickState(
    observations: map<u8, SignedObservation>, own: Option<Observation>, best: Option<SignedProposal>,
    pending: seq<(u8, SignedProposal)>, derived: map<Digest, Derived>, signatures: map<Digest, map<u8, Signature>>,
    finalized: bool, sharedWith: set<u8>)

  const FRESH := TickState(map[], None, None, [], map[], map[], false, {})

  type Memory = map<u64, TickState>

  function TickOf(memory: Memory, tick: u64): TickState { if tick in memory then memory[tick] else FRESH }

  lemma LastUpdateWins(memory: Memory, tick: u64, a: TickState, b: TickState)
    ensures memory[tick := a][tick := b] == memory[tick := b]
  {
  }

  datatype Send = Broadcast(frame: PeerMessage) | SendTo(to: u8, frame: PeerMessage)

  /** The state after a handler ran, the frames it sent, and the header whose hash it handed to the signer. */
  datatype Outcome = Outcome(memory: Memory, store: State, sends: seq<Send>, sign: Option<Header>)

  const NO_ANCHOR: Digest :=
    [0, 0, 0, 0, 0, 0, 0, 0, 0, 0, 0, 0, 0, 0, 0, 0,
     0, 0, 0, 0, 0, 0, 0, 0, 0, 0, 0, 0, 0, 0, 0, 0]

  function N(setup: Setup): nat { |setup.current.pubkeys| }

  // ----- what the handlers read

  /** A later tick is already finalized and this one is not: it is abandoned. */
  ghost predicate Passed(store: State, tick: u64) {
    var latest := LatestFinalizedTick(store);
    latest.Some? && latest.value >= tick && tick !in store.finalized
  }

  ghost function PrevTick(store: State): u64 {
    var latest := LatestFinalizedTick(store);
    if latest.Some? then latest.value else 0
  }

  /** Stored rows always decode, so the fallback is never taken. */
  function AnchorHash(c: Crypto, blob: Bytes): Digest {
    match DecodeUpdate(blob) case Some(u) => SigningHash(c, u.header) case None => NO_ANCHOR
  }

  /** The latest finalized update at or before two periods back; it seeds the leader order. */
  ghost function Anchor(setup: Setup, store: State, tick: u64): (u64, Digest) {
    match setup.schedule(tick)
    case None => (0, NO_ANCHOR)
    case Some(active) =>
      match FinalizedAtOrBefore(store, tick - 2 * active.tickPeriodMs)
      case None => (0, NO_ANCHOR)
      case Some(t) => (t, AnchorHash(setup.crypto, store.finalized[t]))
  }

  predicate LeaderIs(setup: Setup, tick: u64, anchor: Digest, rank: nat, proposer: nat) {
    var order := setup.leaderOrder(tick, anchor, N(setup));
    rank <= N(setup) - Quorum(setup.current) && rank < |order| && order[rank] == proposer
  }

  predicate AscendingIndexes(chosen: seq<Chosen>, n: nat) {
    (forall k :: 0 <= k < |chosen| ==> chosen[k].index < n)
    && (forall k :: 0 < k < |chosen| ==> chosen[k - 1].index < chosen[k].index)
  }

  datatype Verdict = Refuse | BehindPeer | Consider

  /** The checks before the chosen observations are looked at, in their order. */
  ghost function CheckProposal(setup: Setup, store: State, active: ActiveConfig, p: SignedProposal, now: int): Verdict
    requires |p.body.chosen| < 256
  {
    var body, tick := p.body, p.body.tickMs;
    var (anchorTick, anchorHash) := Anchor(setup, store, tick);
    if body.anchorTickMs > anchorTick then BehindPeer
    else if body.anchorTickMs != anchorTick || body.anchorHash != anchorHash then Refuse
    else if !LeaderIs(setup, tick, anchorHash, p.rank, p.proposer) then Refuse
    else if p.proposer >= N(setup)
            || !setup.crypto.valid(ProposalDigest(setup.crypto, p.rank, p.proposer, body), p.signature,
                setup.current.pubkeys[p.proposer]) then Refuse
    else if now + setup.skewMs < tick + p.rank * active.observationDeadlineMs then Refuse
    else if tick < now - active.maxSigningLagMs || tick > now + active.tickPeriodMs then Refuse
    else if body.prevTickMs > PrevTick(store) then BehindPeer
    else if body.prevTickMs < PrevTick(store) then Refuse
    else if |body.chosen| < Quorum(setup.current) || !AscendingIndexes(body.chosen, N(setup)) then Refuse
    else Consider
  }

  function Missing(chosen: seq<Chosen>, observations: map<u8, SignedObservation>): seq<u8> {
    if chosen == [] then []
    else (if chosen[0].index in observations then [] else [chosen[0].index]) + Missing(chosen[1..], observations)
  }

  lemma {:induction false} NoneMissing(chosen: seq<Chosen>, observations: map<u8, SignedObservation>)
    ensures Missing(chosen, observations) == [] <==> forall k :: 0 <= k < |chosen| ==> chosen[k].index in observations
  {
    if chosen != [] {
      NoneMissing(chosen[1..], observations);
      assert forall k :: 0 < k < |chosen| ==> chosen[k] == chosen[1..][k - 1];
    }
  }

  /** The observations a proposal chose, when all are at hand. */
  function ChosenObservations(chosen: seq<Chosen>, observations: map<u8, SignedObservation>): (r: seq<Observation>)
    requires forall k :: 0 <= k < |chosen| ==> chosen[k].index in observations
    ensures |r| == |chosen| && forall k :: 0 <= k < |r| ==> r[k] == observations[chosen[k].index].observation
  {
    seq(|chosen|, k requires 0 <= k < |chosen| => observations[chosen[k].index].observation)
  }

  predicate HashesMatch(c: Crypto, chosen: seq<Chosen>, observations: seq<Observation>)
    requires |observations| == |chosen|
  {
    forall k ::
        0 <= k < |chosen| ==> ValidObservation(observations[k]) && ObservationHash(c, observations[k]) == chosen[k].hash
  }

  function ToMessage(m: Draft): Message
    requires Fits(m)
  {
    Message(m.feedId, m.price, m.conf, m.expo, m.prevPublishTimeMs, m.emaPrice, m.emaConf, m.sourceTimeMs,
        m.numPublishers)
  }

  /** The messages, header and proofs this publisher computes itself. `None` when no feed reached quorum,
      or when an average, a field or a repeated feed throws. */
  function Derive(
      setup: Setup, feeds: FeedStates, tick: u64, active: ActiveConfig,
      observations: seq<Observation>): (r: Option<Derived>)
    ensures r.Some? ==>
        r.value.header.publishTimeMs == tick && r.value.headerHash == SigningHash(setup.crypto, r.value.header)
                        && r.value.header.publisherSetTypeHash == setup.typeHash
                        && r.value.header.setIndex == setup.current.setIndex
  {
    match AggregateMessages(active.feeds, observations, Quorum(setup.current), tick, feeds)
    case None => None
    case Some(drafts) =>
      if drafts == [] || exists k :: 0 <= k < |drafts| && !Fits(drafts[k]) then None
      else
        var messages := seq(|drafts|, k requires 0 <= k < |drafts| => ToMessage(drafts[k]));
        match Assemble(setup.crypto, setup.typeHash, setup.current.setIndex, tick, active.tickPeriodMs, active.hash,
            messages)
        case None => None
        case Some((header, entries)) => Some(Derived(header, entries, SigningHash(setup.crypto, header)))
  }

  function ToleranceOf(feeds: seq<FeedConfig>, feedId: Bytes32): nat {
    if feeds == [] then 0 else if feeds[0].feedId == feedId then feeds[0].toleranceBps
    else ToleranceOf(feeds[1..], feedId)
  }

  /** This publisher's own price for the feed, if it has one, is within tolerance of the derived one. */
  predicate AgreesOn(own: Observation, feeds: seq<FeedConfig>, m: Message) {
    var mine := FeedEntries(own.entries, m.feedId);
    mine == [] || WithinTolerance(m.price, mine[0].price, ToleranceOf(feeds, m.feedId))
  }

  predicate OwnAgrees(own: Option<Observation>, feeds: seq<FeedConfig>, entries: seq<UpdateEntry>) {
    own.Some? ==> forall k :: 0 <= k < |entries| ==> AgreesOn(own.value, feeds, entries[k].message)
  }

  // ----- the tolerance, without the order it is looked up in

  predicate FirstEntry(entries: seq<ObservationEntry>, j: int, feedId: Bytes32) {
    0 <= j < |entries| && entries[j].feedId == feedId && forall i :: 0 <= i < j ==> entries[i].feedId != feedId
  }

  predicate FirstFeed(feeds: seq<FeedConfig>, c: int, feedId: Bytes32) {
    0 <= c < |feeds| && feeds[c].feedId == feedId && forall i :: 0 <= i < c ==> feeds[i].feedId != feedId
  }

  /** No further apart than so many ten-thousandths of this publisher's own price. */
  predicate Near(aggregate: int, own: int, toleranceBps: nat) {
    var slack := toleranceBps * (if own < 0 then -own else own);
    -slack <= 10_000 * (aggregate - own) <= slack
  }

  /** The price this publisher observed for the message's feed, if any, is near the message's. */
  ghost predicate Close(own: Observation, feeds: seq<FeedConfig>, m: Message) {
    forall j, c :: FirstEntry(own.entries, j, m.feedId) && FirstFeed(feeds, c, m.feedId) ==>
      Near(m.price, own.entries[j].price, feeds[c].toleranceBps)
  }

  lemma {:induction false} EntryFound(entries: seq<ObservationEntry>, feedId: Bytes32)
    ensures var found := FeedEntries(entries, feedId);
            (found == [] ==> forall j :: !FirstEntry(entries, j, feedId))
            && (found != [] ==> exists j :: FirstEntry(entries, j, feedId) && entries[j] == found[0])
  {
    if entries != [] {
      if entries[0].feedId == feedId {
        assert FirstEntry(entries, 0, feedId);
      } else {
        EntryFound(entries[1..], feedId);
        if j :| FirstEntry(entries[1..], j, feedId) { assert FirstEntry(entries, j + 1, feedId); }
        forall j | FirstEntry(entries, j, feedId) ensures FirstEntry(entries[1..], j - 1, feedId) {
        }
        var found := FeedEntries(entries[1..], feedId);
        if found != [] {
          var j :| FirstEntry(entries[1..], j, feedId) && entries[1..][j] == found[0];
          assert FirstEntry(entries, j + 1, feedId) && entries[j + 1] == found[0];
        }
      }
    }
  }

  lemma {:induction false} FeedFound(feeds: seq<FeedConfig>, feedId: Bytes32)
    requires exists f :: f in feeds && f.feedId == feedId
    ensures exists c :: FirstFeed(feeds, c, feedId) && ToleranceOf(feeds, feedId) == feeds[c].toleranceBps
  {
    if feeds[0].feedId == feedId {
      assert FirstFeed(feeds, 0, feedId);
    } else {
      FeedFound(feeds[1..], feedId);
      var c :| FirstFeed(feeds[1..], c, feedId) && ToleranceOf(feeds[1..], feedId) == feeds[1..][c].toleranceBps;
      assert FirstFeed(feeds, c + 1, feedId);
    }
  }

  lemma AgreesIff(own: Observation, feeds: seq<FeedConfig>, m: Message)
    requires exists f :: f in feeds && f.feedId == m.feedId
    ensures AgreesOn(own, feeds, m) <==> Close(own, feeds, m)
  {
    EntryFound(own.entries, m.feedId);
    FeedFound(feeds, m.feedId);
    var c :| FirstFeed(feeds, c, m.feedId) && ToleranceOf(feeds, m.feedId) == feeds[c].toleranceBps;
    if FeedEntries(own.entries, m.feedId) != [] {
      var j :| FirstEntry(own.entries, j, m.feedId) && own.entries[j] == FeedEntries(own.entries, m.feedId)[0];
      assert WithinTolerance(m.price, own.entries[j].price, feeds[c].toleranceBps)
        <==> Near(m.price, own.entries[j].price, feeds[c].toleranceBps);
    }
  }

  // ----- finalizing

  /** The signatures held for a header, by ascending publisher index below `n`. */
  function BundleOf(signatures: map<u8, Signature>, n: nat): (b: Bundle)
    requires n <= 256
    ensures forall i ::
        0 <= i < |b| ==>
            b[i].publisherIndex < n && b[i].publisherIndex in signatures
            && signatures[b[i].publisherIndex] == b[i].signature
    ensures forall i :: 0 < i < |b| ==> b[i - 1].publisherIndex < b[i].publisherIndex
  {
    if n == 0 then []
    else BundleOf(signatures, n - 1) + if n - 1 in signatures then [IndexedSignature(n - 1, signatures[n - 1])] else []
  }

  function UpdateFrom(d: Derived, bundle: Bundle): Update { Update(d.header, bundle, d.entries) }

  predicate SetFits(setup: Setup) { 0 < N(setup) <= MAX_PUBLISHERS }

  /** The last result says whether it ran to its end: an update that does not fit a blob throws while it is
      encoded, after the tick was marked and before anything is stored. */
  ghost function TryFinalize(
      setup: Setup, memory: Memory, store: State, tick: u64, headerHash: Digest): (Memory, State, bool)
    requires SetFits(setup)
  {
    var st := TickOf(memory, tick);
    if st.finalized || headerHash !in st.derived || headerHash !in st.signatures
       || |st.signatures[headerHash]| < Quorum(setup.current) || Passed(store, tick)
    then (memory[tick := st], store, true)
    else
      var all := BundleOf(st.signatures[headerHash], N(setup));
      var u := UpdateFrom(st.derived[headerHash],
          if |all| > Quorum(setup.current) then all[..Quorum(setup.current)] else all);
      var marked := memory[tick := st.(finalized := true)];
      if ValidBlob(ToBlob(u)) then (marked, Save(store, u, EncodeBlob(ToBlob(u))).0, true) else (marked, store, false)
  }

  /** A peer still working on a finalized tick gets our finalized update, once. */
  function ShareFinalized(setup: Setup, memory: Memory, store: State, to: u8, tick: u64): (Memory, seq<Send>) {
    var st := TickOf(memory, tick);
    if to == setup.index || to in st.sharedWith || tick !in store.finalized then (memory[tick := st], [])
    else (memory[tick := st.(sharedWith := st.sharedWith + {to})], [SendTo(to, SyncResponse([store.finalized[tick]]))])
  }

  // ----- the handlers

  ghost function OnSignature(
      setup: Setup, memory: Memory, store: State, from: u8, tick: u64, headerHash: Digest,
      signature: Signature): Outcome
    requires SetFits(setup)
  {
    if from >= N(setup) || !setup.crypto.valid(headerHash, signature, setup.current.pubkeys[from]) then
        Outcome(memory, store, [], None)
    else
      var st := TickOf(memory, tick);
      if st.finalized then
        var (shared, sends) := ShareFinalized(setup, memory, store, from, tick);
        Outcome(shared, store, sends, None)
      else
        var byHeader: map<u8, Signature> := if headerHash in st.signatures then st.signatures[headerHash] else map[];
        var recorded := memory[tick := st.(signatures := st.signatures[headerHash := byHeader[from := signature]])];
        var (after, saved, _) := TryFinalize(setup, recorded, store, tick, headerHash);
        Outcome(after, saved, [], None)
  }

  /** The whole of `onProposal` up to the call of the signer: it never waits in between. */
  ghost function OnProposal(setup: Setup, memory: Memory, store: State, from: u8, p: SignedProposal, now: int): Outcome
    requires SetFits(setup) && |p.body.chosen| < 256
  {
    var tick := p.body.tickMs;
    match setup.schedule(tick)
    case None => Outcome(memory, store, [], None)
    case Some(active) =>
      var st := TickOf(memory, tick);
      if st.finalized then
        var (shared, sends) := ShareFinalized(setup, memory, store, from, tick);
        Outcome(shared, store, sends, None)
      else if Passed(store, tick) then Outcome(memory[tick := st], store, [], None)
      else
        match CheckProposal(setup, store, active, p, now)
        case Refuse => Outcome(memory[tick := st], store, [], None)
        case BehindPeer => Outcome(memory[tick := st], store, [SendTo(from, SyncRequest(PrevTick(store)))], None)
        case Consider => ConsiderProposal(setup, memory, store, active, from, p)
  }

  function Remember(st: TickState, p: SignedProposal): TickState {
    if st.best.None? || p.rank < st.best.value.rank then st.(best := Some(p)) else st
  }

  function AskFor(from: u8, p: SignedProposal, missing: seq<u8>): seq<Send> {
    var request := ObsRequest(p.body.tickMs, missing);
    [SendTo(from, request)] + if p.proposer != from then [SendTo(p.proposer, request)] else []
  }

  ghost function ConsiderProposal(
      setup: Setup, memory: Memory, store: State, active: ActiveConfig, from: u8, p: SignedProposal): Outcome
    requires SetFits(setup)
  {
    var tick, chosen := p.body.tickMs, p.body.chosen;
    var st := Remember(TickOf(memory, tick), p);
    var missing := Missing(chosen, st.observations);
    NoneMissing(chosen, st.observations);
    if missing != [] then
      Outcome(memory[tick := st.(pending := st.pending + [(from, p)])], store, AskFor(from, p, missing), None)
    else
      var observations := ChosenObservations(chosen, st.observations);
      if !HashesMatch(setup.crypto, chosen, observations) then Outcome(memory[tick := st], store, [], None)
      else
        match Derive(setup, store.feeds, tick, active, observations)
        case None => Outcome(memory[tick := st], store, [], None)
        case Some(d) => SignDerived(setup, memory, store, active, tick, st, d)
  }

  /** The guard is last: what it refuses is never handed to the signer. */
  ghost function SignDerived(
      setup: Setup, memory: Memory, store: State, active: ActiveConfig, tick: u64, st: TickState, d: Derived): Outcome
    requires SetFits(setup)
  {
    var derived := memory[tick := st.(derived := st.derived[d.headerHash := d])];
    var (after, saved, done) := TryFinalize(setup, derived, store, tick, d.headerHash);
    if !done || !OwnAgrees(st.own, active.feeds, d.entries) then Outcome(after, saved, [], None)
    else
      var (reserved, ok) := Reserve(saved, tick, d.headerHash);
      Outcome(after, reserved, [], if ok then Some(d.header) else None)
  }

  predicate Acceptable(setup: Setup, s: SignedObservation) {
    var o := s.observation;
    o.publisherSetTypeHash == setup.typeHash && setup.schedule(o.tickMs).Some?
    && o.configHash == setup.schedule(o.tickMs).value.hash
    && VerifyObservation(setup.crypto, s, setup.current)
  }

  /** The first observation of an author is kept; proposals that waited are handed back for another try. */
  function OnObservation(setup: Setup, memory: Memory, s: SignedObservation): (Memory, seq<(u8, SignedProposal)>) {
    var tick, author := s.observation.tickMs, s.observation.publisherIndex;
    if !Acceptable(setup, s) then (memory, [])
    else
      var st := TickOf(memory, tick);
      if author in st.observations then (memory[tick := st], [])
      else (memory[tick := st.(observations := st.observations[author := s], pending := [])], st.pending)
  }

  /** The set a synced update is checked against: ours, or an earlier one this publisher knows. */
  function KnownSet(setup: Setup, store: State, setIndex: u32): Option<PublisherSet> {
    if setIndex == setup.current.setIndex then Some(setup.current)
    else if setIndex < setup.current.setIndex && setIndex in store.keySets then Some(store.keySets[setIndex])
    else None
  }

  predicate AcceptableUpdate(setup: Setup, store: State, u: Update) {
    && u.header.publisherSetTypeHash == setup.typeHash
    && KnownSet(setup, store, u.header.setIndex).Some?
    && Threshold(setup.crypto, u.signatures, SigningHash(setup.crypto, u.header),
        KnownSet(setup, store, u.header.setIndex).value)
    && |u.entries| == u.header.leafCount && AllProven(setup.crypto, u)
  }

  function AcceptFinalized(setup: Setup, memory: Memory, store: State, blob: Bytes): (Memory, State) {
    match DecodeUpdate(blob)
    case None => (memory, store)
    case Some(u) =>
      if !AcceptableUpdate(setup, store, u) then (memory, store)
      else
        var tick := u.header.publishTimeMs;
        var (saved, stored) := Save(store, u, blob);
        (if stored then memory[tick := TickOf(memory, tick).(finalized := true)] else memory, saved)
  }

  function PruneMemory(memory: Memory, cutoff: int): Memory { map t | t in memory && t >= cutoff :: memory[t] }

  // ----- what the handlers promise

  /** Sharing sends a peer the stored row, and after that nothing more for the tick, whatever was stored since. */
  lemma SharedOnce(setup: Setup, memory: Memory, store: State, later: State, to: u8, tick: u64)
    ensures var (after, sends) := ShareFinalized(setup, memory, store, to, tick);
            (sends != [] ==> tick in store.finalized && sends == [SendTo(to, SyncResponse([store.finalized[tick]]))])
            && (sends != [] <==> to != setup.index && to !in TickOf(memory, tick).sharedWith && tick in store.finalized)
            && (sends != [] ==> ShareFinalized(setup, after, later, to, tick) == (after, []))
  {
    var after := ShareFinalized(setup, memory, store, to, tick).0;
    assert after[tick := after[tick]] == after;
  }

  /** `u` with its first entry in place of every entry. */
  function Repeated(u: Update): Update
    requires u.entries != []
  {
    u.(entries := seq(|u.entries|, i => u.entries[0]))
  }

  /** Counting and proving entries does not exclude repetition: repeating the first entry of any acceptable
      update of two or more gives another that is acceptable, fits a blob if the first did, and repeats a
      feed. */
  lemma RepeatedIsAcceptable(setup: Setup, store: State, u: Update)
    requires AcceptableUpdate(setup, store, u) && |u.entries| >= 2
    ensures AcceptableUpdate(setup, store, Repeated(u)) && !DistinctFeeds(Messages(Repeated(u).entries))
    ensures Repeated(u).header == u.header && Repeated(u).signatures == u.signatures
    ensures ValidBlob(ToBlob(u)) ==> ValidBlob(ToBlob(Repeated(u)))
  {
    var r := Repeated(u);
    assert r.entries[0] == r.entries[1];
    assert Messages(r.entries)[0] == Messages(r.entries)[1];
    if ValidBlob(ToBlob(u)) {
      forall i | 0 <= i < |r.entries| ensures ValidEntry(RawEntries(r.entries)[i]) {
        assert RawEntries(r.entries)[i] == RawEntries(u.entries)[0];
      }
    }
  }

  /** A new acceptable update is saved; one of a stored tick changes nothing. */
  lemma AcceptedOnce(setup: Setup, memory: Memory, store: State, u: Update)
    requires ValidBlob(ToBlob(u))
    ensures var (after, saved) := AcceptFinalized(setup, memory, store, EncodeBlob(ToBlob(u)));
            (u.header.publishTimeMs in store.finalized ==> after == memory && saved == store)
            && (AcceptableUpdate(setup, store, u) ==> saved == Save(store, u, EncodeBlob(ToBlob(u))).0)
  {
    DecodeUpdateIffEncoded(EncodeBlob(ToBlob(u)), u);
  }

  predicate SameFeed(before: FeedStates, after: FeedStates, feedId: Bytes32) {
    (feedId in after <==> feedId in before) && (feedId in before ==> after[feedId] == before[feedId])
  }

  lemma RepeatedPricesOne(store: State, u: Update, blob: Bytes, feedId: Bytes32)
    requires u.entries != [] && feedId != u.entries[0].message.feedId
    ensures SameFeed(store.feeds, Save(store, Repeated(u), blob).0.feeds, feedId)
  {
    AdvanceFeedsAt(store.feeds, Repeated(u).entries, u.header.publishTimeMs, feedId);
    if FirstFor(Repeated(u).entries, feedId).Some? { FirstIsAmong(Repeated(u).entries, feedId); }
  }

  /** A syncing publisher that meets the repeated form first stores it, and its average of every feed but the
      first stays where it was: when the tick's own form arrives, nothing changes any more. */
  lemma RepeatedStarvesFeeds(setup: Setup, memory: Memory, store: State, u: Update)
    requires AcceptableUpdate(setup, store, u) && |u.entries| >= 2 && ValidBlob(ToBlob(u))
    requires u.header.publishTimeMs !in store.finalized
    ensures ValidBlob(ToBlob(Repeated(u)))
    ensures var (met, saved) := AcceptFinalized(setup, memory, store, EncodeBlob(ToBlob(Repeated(u))));
            u.header.publishTimeMs in saved.finalized
            && AcceptFinalized(setup, met, saved, EncodeBlob(ToBlob(u))) == (met, saved)
            && forall feedId :: feedId != u.entries[0].message.feedId ==> SameFeed(store.feeds, saved.feeds, feedId)
  {
    RepeatedIsAcceptable(setup, store, u);
    AcceptedOnce(setup, memory, store, Repeated(u));
    var (met, saved) := AcceptFinalized(setup, memory, store, EncodeBlob(ToBlob(Repeated(u))));
    AcceptedOnce(setup, met, saved, u);
    forall feedId | feedId != u.entries[0].message.feedId ensures SameFeed(store.feeds, saved.feeds, feedId) {
      RepeatedPricesOne(store, u, EncodeBlob(ToBlob(Repeated(u))), feedId);
    }
  }

  /** The proposal followed the leader order and this publisher's own history, in time, and named a quorum. */
  ghost predicate FollowsRules(setup: Setup, store: State, active: ActiveConfig, p: SignedProposal, now: int)
    requires |p.body.chosen| < 256
  {
    var body := p.body;
    && (body.anchorTickMs, body.anchorHash) == Anchor(setup, store, body.tickMs) && body.prevTickMs == PrevTick(store)
    && LeaderIs(setup, body.tickMs, body.anchorHash, p.rank, p.proposer) && p.proposer < N(setup)
    && setup.crypto.valid(ProposalDigest(setup.crypto, p.rank, p.proposer, body), p.signature,
        setup.current.pubkeys[p.proposer])
    && now - active.maxSigningLagMs <= body.tickMs <= now + active.tickPeriodMs
    && body.tickMs + p.rank * active.observationDeadlineMs <= now + setup.skewMs
    && |body.chosen| >= Quorum(setup.current) && AscendingIndexes(body.chosen, N(setup))
  }

  /** The proposer names a later anchor or a later finalized tick than this publisher has. */
  ghost predicate ClaimsMore(setup: Setup, store: State, p: SignedProposal) {
    p.body.anchorTickMs > Anchor(setup, store, p.body.tickMs).0 || p.body.prevTickMs > PrevTick(store)
  }

  /** A proposal is looked into if and only if it follows the rules; a sync is asked of its sender only if the
      proposer claims to know more. */
  lemma ConsiderIff(setup: Setup, store: State, active: ActiveConfig, p: SignedProposal, now: int)
    requires |p.body.chosen| < 256
    ensures CheckProposal(setup, store, active, p, now).Consider? <==> FollowsRules(setup, store, active, p, now)
    ensures CheckProposal(setup, store, active, p, now).BehindPeer? ==> ClaimsMore(setup, store, p)
  {
  }

  lemma {:induction false} ChosenAscend(chosen: seq<Chosen>, n: nat, i: nat, j: nat)
    requires AscendingIndexes(chosen, n) && i < j < |chosen|
    ensures chosen[i].index < chosen[j].index
    decreases j
  {
    if i + 1 < j { ChosenAscend(chosen, n, i, j - 1); }
  }

  predicate InRange(chosen: seq<Chosen>, n: nat) { forall j :: 0 <= j < |chosen| ==> chosen[j].index < n }

  predicate Rising(chosen: seq<Chosen>) {
    forall i, j :: 0 <= i < j < |chosen| ==> chosen[i].index < chosen[j].index
  }

  /** The chosen indexes pass exactly when each names a member and each is greater than all before it. */
  lemma AscendingIff(chosen: seq<Chosen>, n: nat)
    ensures AscendingIndexes(chosen, n) <==> InRange(chosen, n) && Rising(chosen)
  {
    if AscendingIndexes(chosen, n) {
      forall i, j | 0 <= i < j < |chosen| ensures chosen[i].index < chosen[j].index { ChosenAscend(chosen, n, i, j); }
    }
  }

  /** History is compared by the newest finalized tick, zero while there is none. */
  lemma PrevTickIs(store: State, t: u64)
    ensures t == PrevTick(store) <==> if store.finalized == map[] then t == 0 else IsNewest(store.finalized.Keys, t)
  {
    if store.finalized != map[] {
      var x :| x in store.finalized;
      assert x in store.finalized.Keys;
    }
  }

  /** The anchor of a tick is the newest finalized update at least two periods old, under its own hash; without
      one, or without a configuration, it is zero. */
  lemma AnchorIs(setup: Setup, store: State, tick: u64)
    ensures var (t, hash) := Anchor(setup, store, tick);
            if setup.schedule(tick).None? then t == 0 && hash == seq(32, i => 0)
            else
              var period := setup.schedule(tick).value.tickPeriodMs;
              if forall x :: x in store.finalized ==> x + 2 * period > tick then t == 0 && hash == seq(32, i => 0)
              else
                t in store.finalized && t + 2 * period <= tick
                && (forall x :: x in store.finalized && x + 2 * period <= tick ==> x <= t)
                && forall u ::
                    DecodeUpdate(store.finalized[t]) == Some(u) ==> hash == SigningHash(setup.crypto, u.header)
  {
    assert NO_ANCHOR == seq(32, i => 0);
    if setup.schedule(tick).Some? {
      var aged := set t | t in store.finalized.Keys && t <= tick - 2 * setup.schedule(tick).value.tickPeriodMs;
      assert forall x :: x in aged <==> x in store.finalized && x + 2 * setup.schedule(tick).value.tickPeriodMs <= tick;
    }
  }

  /** The seeded order names every member once. */
  predicate IsOrder(order: seq<nat>, n: nat) {
    |order| == n && Distinct(order) && forall k :: 0 <= k < n ==> order[k] < n
  }

  /** The first n - quorum + 1 ranks of the order may propose and no later one, so whichever n - quorum members
      are faulty or down, some rank's proposer is neither. */
  lemma SomeLeaderIsHonest(setup: Setup, tick: u64, anchor: Digest, faulty: set<nat>) returns (rank: nat)
    requires SetFits(setup) && IsOrder(setup.leaderOrder(tick, anchor, N(setup)), N(setup))
    requires |faulty| <= N(setup) - Quorum(setup.current)
    ensures var order := setup.leaderOrder(tick, anchor, N(setup));
            rank < |order| && order[rank] !in faulty && LeaderIs(setup, tick, anchor, rank, order[rank])
            && forall r: nat, k: nat :: LeaderIs(setup, tick, anchor, r, k) <==>
                 r < |order| && 3 * r < N(setup) && r + Quorum(setup.current) <= N(setup) && order[r] == k
  {
    var order := setup.leaderOrder(tick, anchor, N(setup));
    var first := order[..N(setup) - Quorum(setup.current) + 1];
    DistinctCount(first);
    if Elements(first) <= faulty { SubsetCount(Elements(first), faulty); }
    var k :| k in Elements(first) && k !in faulty;
    rank :| 0 <= rank < |first| && first[rank] == k;
  }

  /** Of the proposals considered for a tick, the one kept for backups is of the lowest rank, and the earliest
      of that rank. */
  function RememberAll(st: TickState, proposals: seq<SignedProposal>): TickState {
    if proposals == [] then st
    else Remember(RememberAll(st, proposals[..|proposals| - 1]), proposals[|proposals| - 1])
  }

  predicate IsEarliestLowest(proposals: seq<SignedProposal>, k: nat) {
    k < |proposals|
    && (forall j :: 0 <= j < |proposals| ==> proposals[k].rank <= proposals[j].rank)
    && forall j :: 0 <= j < k ==> proposals[k].rank < proposals[j].rank
  }

  lemma {:induction false} LowestIsKept(st: TickState, proposals: seq<SignedProposal>) returns (k: nat)
    requires st.best.None? && proposals != []
    ensures IsEarliestLowest(proposals, k) && RememberAll(st, proposals) == st.(best := Some(proposals[k]))
  {
    var n := |proposals| - 1;
    var before := proposals[..n];
    assert forall j :: 0 <= j < n ==> before[j] == proposals[j];
    if n == 0 {
      k := 0;
    } else {
      k := LowestIsKept(st, before);
      if proposals[n].rank < proposals[k].rank { k := n; }
    }
  }

  /** Missing observations are asked of the sender and the proposer, each once. */
  lemma AskedOfBoth(from: u8, p: SignedProposal, missing: seq<u8>)
    ensures var sends := AskFor(from, p, missing);
            (forall s :: s in sends <==>
               s == SendTo(from, ObsRequest(p.body.tickMs, missing))
               || s == SendTo(p.proposer, ObsRequest(p.body.tickMs, missing)))
            && Distinct(sends)
  {
  }

  /** What is missing is what was chosen and is not at hand, in the order chosen. */
  lemma {:induction false} MissingAre(chosen: seq<Chosen>, observations: map<u8, SignedObservation>, i: u8)
    ensures i in Missing(chosen, observations) <==> i !in observations && exists k ::
        0 <= k < |chosen| && chosen[k].index == i
  {
    if chosen != [] {
      MissingAre(chosen[1..], observations, i);
      if k :| 0 <= k < |chosen| && chosen[k].index == i && k > 0 { assert chosen[1..][k - 1].index == i; }
    }
  }

  /** Nothing is signed without every check having passed: the rules above, every chosen observation at
      hand under the hash the proposal names, a header derived from exactly those, and this publisher's
      own prices within tolerance of all of it. */
  lemma SignedMeansChecked(setup: Setup, memory: Memory, store: State, from: u8, p: SignedProposal, now: int)
    requires SetFits(setup) && |p.body.chosen| < 256 && OnProposal(setup, memory, store, from, p, now).sign.Some?
    ensures setup.schedule(p.body.tickMs).Some?
    ensures var active, st := setup.schedule(p.body.tickMs).value, TickOf(memory, p.body.tickMs);
            FollowsRules(setup, store, active, p, now) && !st.finalized && !Passed(store, p.body.tickMs)
            && (forall k :: 0 <= k < |p.body.chosen| ==> p.body.chosen[k].index in st.observations)
            && var observations := ChosenObservations(p.body.chosen, st.observations);
               HashesMatch(setup.crypto, p.body.chosen, observations)
               && Derive(setup, store.feeds, p.body.tickMs, active, observations).Some?
               && var d := Derive(setup, store.feeds, p.body.tickMs, active, observations).value;
                  d.header == OnProposal(setup, memory, store, from, p, now).sign.value
                  && OwnAgrees(st.own, active.feeds, d.entries)
  {
    NoneMissing(p.body.chosen, TickOf(memory, p.body.tickMs).observations);
  }

  // ----- the publisher itself

  class PublisherNode {
    const setup: Setup
    const store: PublisherStore
    var ticks: Memory

    ghost predicate Valid()
      reads this
    {
      SetFits(setup)
    }

    constructor (setup: Setup, store: PublisherStore)
      requires SetFits(setup)
      ensures Valid() && this.setup == setup && this.store == store && ticks == map[]
    {
      this.setup := setup;
      this.store := store;
      ticks := map[];
    }

    method IsPassed(tick: u64) returns (passed: bool)
      ensures passed == Passed(store.Rows(), tick)
    {
      var latest := store.LatestTick();
      return latest.Some? && latest.value >= tick && tick !in store.finalized;
    }

    method GetAnchor(tick: u64) returns (anchor: (u64, Digest))
      ensures anchor == Anchor(setup, store.Rows(), tick)
    {
      var active := setup.schedule(tick);
      if active.None? {
        return (0, NO_ANCHOR);
      }
      var t := store.AtOrBefore(tick - 2 * active.value.tickPeriodMs);
      if t.None? {
        return (0, NO_ANCHOR);
      }
      return (t.value, AnchorHash(setup.crypto, store.finalized[t.value]));
    }

    /** The answer is false where the source throws. */
    method AttemptFinalize(tick: u64, headerHash: Digest) returns (done: bool)
      requires Valid()
      modifies this, store
      ensures (ticks, store.Rows(), done) == TryFinalize(setup, old(ticks), old(store.Rows()), tick, headerHash)
    {
      var st := TickOf(ticks, tick);
      ticks := ticks[tick := st];
      var passed := IsPassed(tick);
      if st.finalized || headerHash !in st.derived || headerHash !in st.signatures
         || |st.signatures[headerHash]| < Quorum(setup.current) || passed {
        return true;
      }
      var bundle := CollectBundle(st.signatures[headerHash]);
      var update := UpdateFrom(st.derived[headerHash], bundle);
      LastUpdateWins(old(ticks), tick, st, st.(finalized := true));
      ticks := ticks[tick := st.(finalized := true)];
      if !ValidBlob(ToBlob(update)) {
        return false;
      }
      var stored := store.SaveFinalized(update, EncodeBlob(ToBlob(update)));
      return true;
    }

    method CollectBundle(signatures: map<u8, Signature>) returns (bundle: Bundle)
      requires Valid()
      ensures bundle
          == (var all := BundleOf(signatures, N(setup));
              if |all| > Quorum(setup.current) then all[..Quorum(setup.current)] else all)
    {
      bundle := [];
      for i := 0 to N(setup)
        invariant bundle == BundleOf(signatures, i)
      {
        if i in signatures {
          bundle := bundle + [IndexedSignature(i, signatures[i])];
        }
      }
      if |bundle| > Quorum(setup.current) {
        bundle := bundle[..Quorum(setup.current)];
      }
    }

    method SendFinalized(to: u8, tick: u64) returns (sends: seq<Send>)
      modifies this`ticks
      ensures (ticks, sends) == ShareFinalized(setup, old(ticks), store.Rows(), to, tick)
    {
      var st := TickOf(ticks, tick);
      ticks := ticks[tick := st];
      if to == setup.index || to in st.sharedWith || tick !in store.finalized {
        return [];
      }
      LastUpdateWins(old(ticks), tick, st, st.(sharedWith := st.sharedWith + {to}));
      ticks := ticks[tick := st.(sharedWith := st.sharedWith + {to})];
      return [SendTo(to, SyncResponse([store.finalized[tick]]))];
    }

    method ReceiveSignature(from: u8, tick: u64, headerHash: Digest, signature: Signature) returns (sends: seq<Send>)
      requires Valid()
      modifies this, store
      ensures Outcome(ticks, store.Rows(), sends, None)
          == OnSignature(setup, old(ticks), old(store.Rows()), from, tick, headerHash, signature)
    {
      sends := [];
      if from >= N(setup) || !setup.crypto.valid(headerHash, signature, setup.current.pubkeys[from]) {
        return;
      }
      var st := TickOf(ticks, tick);
      if st.finalized {
        sends := SendFinalized(from, tick);
        return;
      }
      var byHeader: map<u8, Signature> := if headerHash in st.signatures then st.signatures[headerHash] else map[];
      ticks := ticks[tick := st.(signatures := st.signatures[headerHash := byHeader[from := signature]])];
      var done := AttemptFinalize(tick, headerHash);
    }

    method JudgeProposal(active: ActiveConfig, p: SignedProposal, now: int) returns (verdict: Verdict)
      requires |p.body.chosen| < 256
      ensures verdict == CheckProposal(setup, store.Rows(), active, p, now)
      ensures verdict.Consider? <==> FollowsRules(setup, store.Rows(), active, p, now)
      ensures verdict.BehindPeer? ==> ClaimsMore(setup, store.Rows(), p)
    {
      var body, tick := p.body, p.body.tickMs;
      var anchor := GetAnchor(tick);
      if body.anchorTickMs > anchor.0 {
        return BehindPeer;
      }
      if body.anchorTickMs != anchor.0 || body.anchorHash != anchor.1
          || !LeaderIs(setup, tick, anchor.1, p.rank, p.proposer) {
        return Refuse;
      }
      if p.proposer >= N(setup)
         || !setup.crypto.valid(ProposalDigest(setup.crypto, p.rank, p.proposer, body), p.signature,
             setup.current.pubkeys[p.proposer]) {
        return Refuse;
      }
      if now + setup.skewMs < tick + p.rank * active.observationDeadlineMs {
        return Refuse;
      }
      if tick < now - active.maxSigningLagMs || tick > now + active.tickPeriodMs {
        return Refuse;
      }
      var latest := store.LatestTick();
      var myPrev := if latest.Some? then latest.value else 0;
      if body.prevTickMs > myPrev {
        return BehindPeer;
      }
      if body.prevTickMs < myPrev || |body.chosen| < Quorum(setup.current) || !AscendingIndexes(body.chosen, N(setup)) {
        return Refuse;
      }
      return Consider;
    }

    method ReceiveProposal(from: u8, p: SignedProposal, now: int) returns (sends: seq<Send>, sign: Option<Header>)
      requires Valid() && |p.body.chosen| < 256
      modifies this, store
      ensures Outcome(ticks, store.Rows(), sends, sign)
          == OnProposal(setup, old(ticks), old(store.Rows()), from, p, now)
    {
      var tick := p.body.tickMs;
      sends, sign := [], None;
      var active := setup.schedule(tick);
      if active.None? {
        return;
      }
      var st := TickOf(ticks, tick);
      if st.finalized {
        sends := SendFinalized(from, tick);
        return;
      }
      var passed := IsPassed(tick);
      if passed {
        ticks := ticks[tick := st];
        return;
      }
      var verdict := JudgeProposal(active.value, p, now);
      match verdict
      case Refuse =>
        ticks := ticks[tick := st];
      case BehindPeer =>
        ticks := ticks[tick := st];
        var latest := store.LatestTick();
        sends := [SendTo(from, SyncRequest(if latest.Some? then latest.value else 0))];
      case Consider =>
        sends, sign := WeighProposal(active.value, from, p);
    }

    method WeighProposal(
        active: ActiveConfig, from: u8, p: SignedProposal) returns (sends: seq<Send>, sign: Option<Header>)
      requires Valid()
      modifies this, store
      ensures Outcome(ticks, store.Rows(), sends, sign)
          == ConsiderProposal(setup, old(ticks), old(store.Rows()), active, from, p)
    {
      var tick, chosen := p.body.tickMs, p.body.chosen;
      sends, sign := [], None;
      var st := Remember(TickOf(ticks, tick), p);
      var missing := FindMissing(chosen, st.observations);
      NoneMissing(chosen, st.observations);
      if missing != [] {
        ticks := ticks[tick := st.(pending := st.pending + [(from, p)])];
        sends := AskFor(from, p, missing);
        return;
      }
      var observations := ChosenObservations(chosen, st.observations);
      if !HashesMatch(setup.crypto, chosen, observations) {
        ticks := ticks[tick := st];
        return;
      }
      var derived := Derive(setup, store.feeds, tick, active, observations);
      if derived.None? {
        ticks := ticks[tick := st];
        return;
      }
      sign := SignOrHold(active, tick, st, derived.value);
    }

    method SignOrHold(active: ActiveConfig, tick: u64, st: TickState, d: Derived) returns (sign: Option<Header>)
      requires Valid()
      modifies this, store
      ensures Outcome(ticks, store.Rows(), [], sign)
          == SignDerived(setup, old(ticks), old(store.Rows()), active, tick, st, d)
    {
      ticks := ticks[tick := st.(derived := st.derived[d.headerHash := d])];
      var done := AttemptFinalize(tick, d.headerHash);
      if !done {
        return None;
      }
      var agrees := CheckOwn(st.own, active.feeds, d.entries);
      if !agrees {
        return None;
      }
      var ok := store.ReserveSignature(tick, d.headerHash);
      sign := if ok then Some(d.header) else None;
    }

    method CheckOwn(own: Option<Observation>, feeds: seq<FeedConfig>, entries: seq<UpdateEntry>) returns (agrees: bool)
      ensures agrees == OwnAgrees(own, feeds, entries)
    {
      if own.None? {
        return true;
      }
      for k := 0 to |entries|
        invariant forall i :: 0 <= i < k ==> AgreesOn(own.value, feeds, entries[i].message)
      {
        if !AgreesOn(own.value, feeds, entries[k].message) {
          return false;
        }
      }
      return true;
    }

    method FindMissing(chosen: seq<Chosen>, observations: map<u8, SignedObservation>) returns (missing: seq<u8>)
      ensures missing == Missing(chosen, observations)
    {
      missing := [];
      assert chosen[0..] == chosen;
      for k := 0 to |chosen|
        invariant missing + Missing(chosen[k..], observations) == Missing(chosen, observations)
      {
        assert chosen[k..][1..] == chosen[k + 1..];
        if chosen[k].index !in observations {
          missing := missing + [chosen[k].index];
        }
      }
      assert chosen[|chosen|..] == [];
    }

    method ReceiveObservation(s: SignedObservation) returns (retry: seq<(u8, SignedProposal)>)
      modifies this`ticks
      ensures (ticks, retry) == OnObservation(setup, old(ticks), s)
    {
      retry := [];
      if !Acceptable(setup, s) {
        return;
      }
      var tick, author := s.observation.tickMs, s.observation.publisherIndex;
      var st := TickOf(ticks, tick);
      if author in st.observations {
        ticks := ticks[tick := st];
        return;
      }
      retry := st.pending;
      ticks := ticks[tick := st.(observations := st.observations[author := s], pending := [])];
    }

    method ReceiveFinalized(blob: Bytes)
      modifies this`ticks, store
      ensures (ticks, store.Rows()) == AcceptFinalized(setup, old(ticks), old(store.Rows()), blob)
    {
      var decoded := DecodeUpdate(blob);
      if decoded.None? {
        return;
      }
      var u := decoded.value;
      if u.header.publisherSetTypeHash != setup.typeHash {
        return;
      }
      var known := KnownSet(setup, store.Rows(), u.header.setIndex);
      if known.None? {
        return;
      }
      var signed := VerifyThreshold(setup.crypto, u.signatures, SigningHash(setup.crypto, u.header), known.value);
      if !signed || |u.entries| != u.header.leafCount || !AllProven(setup.crypto, u) {
        return;
      }
      var stored := store.SaveFinalized(u, blob);
      if stored {
        var tick := u.header.publishTimeMs;
        ticks := ticks[tick := TickOf(ticks, tick).(finalized := true)];
      }
    }

    method Prune(now: int, keepMs: nat)
      modifies this`ticks
      ensures ticks == PruneMemory(old(ticks), now - keepMs)
      ensures forall t :: t in ticks <==> t in old(ticks) && t + keepMs >= now
      ensures forall t :: t in ticks ==> ticks[t] == old(ticks)[t]
    {
      var cutoff := now - keepMs;
      var rest := ticks.Keys;
      while rest != {}
        invariant rest <= ticks.Keys <= old(ticks).Keys
        invariant forall t :: t in ticks ==> ticks[t] == old(ticks)[t] && (t in rest || t >= cutoff)
        invariant forall t :: t in old(ticks) && t !in ticks ==> t < cutoff
        decreases |rest|
      {
        var t :| t in rest;
        rest := rest - {t};
        if t < cutoff {
          ticks := ticks - {t};
        }
      }
    }
  }
}
