/** The averages of two honest publishers, over whole runs. */
module Agreement {
  import opened Aggregate
  import opened Assembly
  import opened Attestation
  import opened Bytes
  import opened Counting
  import opened Finality
  import opened Hashing
  import opened Merkle
  import opened Node
  import opened PriceUpdates
  import opened Protocol
  import opened PublisherSets
  import opened Signatures
  import opened Store
  import opened Wire
  import opened Wrappers

  // ----- what a step does to the rows and the averages

  /** Nothing new stored, no average moved. */
  predicate Quiet(before: State, after: State) {
    after.feeds == before.feeds
    && forall t :: t in after.finalized ==> t in before.finalized && after.finalized[t] == before.finalized[t]
  }

  predicate HasVersion(s: State, tick: u64, u: Update) {
    tick in s.finalized && DecodeUpdate(s.finalized[tick]) == Some(u)
  }

  /** One update of a new tick was stored, and its feeds advanced. */
  predicate Saves(before: State, after: State, u: Update) {
    var tick := u.header.publishTimeMs;
    && tick !in before.finalized && HasVersion(after, tick, u)
    && after.finalized == before.finalized[tick := after.finalized[tick]]
    && after.feeds == AdvanceFeeds(before.feeds, u.entries, tick)
  }

  ghost predicate Changed(before: State, after: State) { Quiet(before, after) || exists u :: Saves(before, after, u) }

  lemma SaveChanges(store: State, u: Update, blob: Bytes)
    requires DecodeUpdate(blob) == Some(u)
    ensures Changed(store, Save(store, u, blob).0)
  {
    var after := Save(store, u, blob).0;
    if u.header.publishTimeMs !in store.finalized { assert Saves(store, after, u); }
  }

  lemma FinalizingChanges(setup: Setup, memory: Memory, store: State, tick: u64, headerHash: Digest)
    requires SetFits(setup)
    ensures Changed(store, TryFinalize(setup, memory, store, tick, headerHash).1)
  {
    if TryFinalize(setup, memory, store, tick, headerHash).1 != store {
      var u := FinalizingStores(setup, memory, store, tick, headerHash);
      DecodeUpdateIffEncoded(EncodeBlob(ToBlob(u)), u);
      SaveChanges(store, u, EncodeBlob(ToBlob(u)));
    }
  }

  lemma SameRowsChanged(before: State, after: State, other: State)
    requires Changed(before, after) && other.finalized == after.finalized && other.feeds == after.feeds
    ensures Changed(before, other)
  {
    if u :| Saves(before, after, u) { assert Saves(before, other, u); }
  }

  lemma SignatureChanges(
      setup: Setup, memory: Memory, store: State, from: u8, tick: u64, headerHash: Digest, signature: Signature)
    requires SetFits(setup)
    ensures Changed(store, OnSignature(setup, memory, store, from, tick, headerHash, signature).store)
  {
    var st := TickOf(memory, tick);
    var byHeader: map<u8, Signature> := if headerHash in st.signatures then st.signatures[headerHash] else map[];
    FinalizingChanges(setup,
        memory[tick := st.(signatures := st.signatures[headerHash := byHeader[from := signature]])], store, tick,
        headerHash);
  }

  lemma DerivedChanges(
      setup: Setup, memory: Memory, store: State, active: ActiveConfig, tick: u64, st: TickState, d: Derived)
    requires SetFits(setup)
    ensures Changed(store, SignDerived(setup, memory, store, active, tick, st, d).store)
  {
    var derived := memory[tick := st.(derived := st.derived[d.headerHash := d])];
    FinalizingChanges(setup, derived, store, tick, d.headerHash);
    SigningKeepsRows(setup, memory, store, active, tick, st, d);
    SameRowsChanged(store, TryFinalize(setup, derived, store, tick, d.headerHash).1,
        SignDerived(setup, memory, store, active, tick, st, d).store);
  }

  lemma ConsideredChanges(setup: Setup, memory: Memory, store: State, active: ActiveConfig, from: u8, p: SignedProposal)
    requires SetFits(setup)
    ensures Changed(store, ConsiderProposal(setup, memory, store, active, from, p).store)
  {
    var tick, chosen := p.body.tickMs, p.body.chosen;
    var st := Remember(TickOf(memory, tick), p);
    NoneMissing(chosen, st.observations);
    if Missing(chosen, st.observations) == [] {
      var observations := ChosenObservations(chosen, st.observations);
      var derived := Derive(setup, store.feeds, tick, active, observations);
      if HashesMatch(setup.crypto, chosen, observations) && derived.Some? {
        DerivedChanges(setup, memory, store, active, tick, st, derived.value);
      }
    }
  }

  lemma ProposalChanges(setup: Setup, memory: Memory, store: State, from: u8, p: SignedProposal, now: int)
    requires SetFits(setup) && |p.body.chosen| < 256
    ensures Changed(store, OnProposal(setup, memory, store, from, p, now).store)
  {
    var tick, schedule := p.body.tickMs, setup.schedule(p.body.tickMs);
    if schedule.Some? && !TickOf(memory, tick).finalized && !Passed(store, tick)
        && CheckProposal(setup, store, schedule.value, p, now).Consider? {
      ConsideredChanges(setup, memory, store, schedule.value, from, p);
    }
  }

  lemma AcceptedChanges(setup: Setup, memory: Memory, store: State, blob: Bytes)
    ensures Changed(store, AcceptFinalized(setup, memory, store, blob).1)
  {
    var u := DecodeUpdate(blob);
    if u.Some? { SaveChanges(store, u.value, blob); }
  }

  lemma StepChanges(p: Publisher, event: Event)
    requires SetFits(p.setup)
    requires event.GetProposal? || event.CrashBeforeSigning? ==> |event.proposal.body.chosen| < 256
    ensures Changed(p.store, After(p, event).store)
  {
    match event
    case GetProposal(from, proposal) => ProposalChanges(p.setup, p.memory, p.store, from, proposal, p.clock);
    case CrashBeforeSigning(from, proposal, _, _) =>
      ProposalChanges(p.setup, p.memory, p.store, from, proposal, p.clock);
      SameRowsChanged(p.store, OnProposal(p.setup, p.memory, p.store, from, proposal, p.clock).store,
          After(p, event).store);
    case GetSignature(from, tick, headerHash, signature) =>
        SignatureChanges(p.setup, p.memory, p.store, from, tick, headerHash, signature);
    case GetFinalized(blob) => AcceptedChanges(p.setup, p.memory, p.store, blob);
    case _ =>
  }

  // ----- an average is the newest one ever stored

  predicate HoldsAt(w: World, k: PubKey, tick: u64, u: Update) { k in w && HasVersion(w[k].store, tick, u) }

  /** At some moment up to the `n`th the publisher held this update for the tick, pruned since or not. */
  ghost predicate EverHeld(worlds: seq<World>, n: nat, k: PubKey, tick: u64, u: Update) {
    exists j :: 0 <= j <= n && j < |worlds| && HoldsAt(worlds[j], k, tick, u)
  }

  lemma HeldStep(worlds: seq<World>, n: nat, k: PubKey, tick: u64, u: Update)
    requires 0 < n < |worlds|
    ensures EverHeld(worlds, n, k, tick, u) <==> EverHeld(worlds, n - 1, k, tick, u) || HoldsAt(worlds[n], k, tick, u)
  {
    if HoldsAt(worlds[n], k, tick, u) { assert EverHeld(worlds, n, k, tick, u); }
  }

  predicate Carries(u: Update, feedId: Bytes32, s: FeedState) {
    var first := FirstFor(u.entries, feedId);
    first.Some? && s == FeedState(s.tickMs, first.value.emaPrice, first.value.emaConf)
  }

  /** The feed's state is the average in an update once held for its tick, and no update ever held for a
      later tick prices the feed. */
  ghost predicate NewestHeld(worlds: seq<World>, n: nat, k: PubKey, feeds: FeedStates, feedId: Bytes32) {
    (feedId in feeds ==> exists u ::
        EverHeld(worlds, n, k, feeds[feedId].tickMs, u) && Carries(u, feedId, feeds[feedId]))
    && forall t: u64, u: Update ::
        EverHeld(worlds, n, k, t, u) && FirstFor(u.entries, feedId).Some? ==>
            feedId in feeds && t <= feeds[feedId].tickMs
  }

  lemma QuietStays(worlds: seq<World>, n: nat, k: PubKey, feedId: Bytes32)
    requires 0 < n < |worlds| && k in worlds[n - 1] && k in worlds[n]
    requires NewestHeld(worlds, n - 1, k, worlds[n - 1][k].store.feeds, feedId)
    requires Quiet(worlds[n - 1][k].store, worlds[n][k].store)
    ensures NewestHeld(worlds, n, k, worlds[n][k].store.feeds, feedId)
  {
    forall t, u ensures EverHeld(worlds, n, k, t, u) <==> EverHeld(worlds, n - 1, k, t, u) {
      HeldStep(worlds, n, k, t, u);
      if HoldsAt(worlds[n], k, t, u) { assert HoldsAt(worlds[n - 1], k, t, u); }
    }
  }

  lemma HeldAfterSave(worlds: seq<World>, n: nat, k: PubKey, u: Update, t: u64, v: Update)
    requires 0 < n < |worlds| && k in worlds[n - 1] && k in worlds[n]
    requires Saves(worlds[n - 1][k].store, worlds[n][k].store, u)
    ensures EverHeld(worlds, n, k, t, v)
        <==> EverHeld(worlds, n - 1, k, t, v) || (t == u.header.publishTimeMs && v == u)
  {
    HeldStep(worlds, n, k, t, v);
    if HoldsAt(worlds[n], k, t, v) && t != u.header.publishTimeMs { assert HoldsAt(worlds[n - 1], k, t, v); }
  }

  lemma SavedIsNewest(worlds: seq<World>, n: nat, k: PubKey, feedId: Bytes32, u: Update)
    requires 0 < n < |worlds| && k in worlds[n - 1] && k in worlds[n]
    requires NewestHeld(worlds, n - 1, k, worlds[n - 1][k].store.feeds, feedId)
    requires Saves(worlds[n - 1][k].store, worlds[n][k].store, u)
    ensures NewestHeld(worlds, n, k, worlds[n][k].store.feeds, feedId)
  {
    var tick, before, after := u.header.publishTimeMs, worlds[n - 1][k].store.feeds, worlds[n][k].store.feeds;
    AdvanceFeedsAt(before, u.entries, tick, feedId);
    HeldAfterSave(worlds, n, k, u, tick, u);
    if feedId in before && after[feedId] == before[feedId] {
      var v :| EverHeld(worlds, n - 1, k, before[feedId].tickMs, v) && Carries(v, feedId, before[feedId]);
      HeldAfterSave(worlds, n, k, u, before[feedId].tickMs, v);
    }
    forall t: u64, v: Update | EverHeld(worlds, n, k, t, v) && FirstFor(v.entries, feedId).Some?
        ensures feedId in after && t <= after[feedId].tickMs {
      HeldAfterSave(worlds, n, k, u, t, v);
    }
  }

  lemma {:induction false} AlwaysNewest(
      e: Committee, worlds: seq<World>, moves: seq<Move>, n: nat, k: PubKey, feedId: Bytes32)
    requires Run(e, worlds, moves) && n < |worlds| && k in worlds[n]
    ensures NewestHeld(worlds, n, k, worlds[n][k].store.feeds, feedId)
  {
    if n > 0 {
      var before, m := worlds[n - 1], moves[n - 1];
      assert StepAt(e, worlds, moves, n - 1);
      AlwaysNewest(e, worlds, moves, n - 1, k, feedId);
      if k == m.who { StepChanges(before[k], m.event); }
      if u :| Saves(before[k].store, worlds[n][k].store, u) {
        SavedIsNewest(worlds, n, k, feedId, u);
      } else {
        QuietStays(worlds, n, k, feedId);
      }
    }
  }

  // ----- two versions of one tick

  lemma GoodAfterStep(e: Committee, before: World, m: Move, after: World, tick: u64, u: Update)
    requires Step(e, before, m, after) && GoodUpdate(e, before, tick, u)
    ensures GoodUpdate(e, after, tick, u)
  {
    StepIsLater(e, before, m, after);
    var d := SigningHash(e.crypto, u.header);
    forall i, k | 0 <= i < |u.signatures| && k in after && e.crypto.valid(d, u.signatures[i].signature, k)
        ensures Asked(e.crypto, after[k], d) {
      assert Issued(e, before, d, u.signatures[i].signature);
      AskedLater(e, before, after, k, d);
    }
  }

  lemma HoldsGood(e: Committee, worlds: seq<World>, moves: seq<Move>, n: nat, k: PubKey, tick: u64, u: Update)
    requires Run(e, worlds, moves) && n < |worlds| && HoldsAt(worlds[n], k, tick, u)
    ensures GoodUpdate(e, worlds[n], tick, u)
  {
    AlwaysGood(e, worlds, moves, n, k);
    assert GoodRow(e, worlds[n], tick, worlds[n][k].store.finalized[tick]);
  }

  lemma {:induction false} GoodEverAfter(
      e: Committee, worlds: seq<World>, moves: seq<Move>, i: nat, n: nat, tick: u64, u: Update)
    requires Run(e, worlds, moves) && i <= n < |worlds| && GoodUpdate(e, worlds[i], tick, u)
    ensures GoodUpdate(e, worlds[n], tick, u)
    decreases n
  {
    if i < n {
      assert StepAt(e, worlds, moves, n - 1);
      GoodEverAfter(e, worlds, moves, i, n - 1, tick, u);
      GoodAfterStep(e, worlds[n - 1], moves[n - 1], worlds[n], tick, u);
    }
  }

  /** Whatever was ever held is, from then on, an update for its tick that every check passes. */
  lemma HeldIsGood(e: Committee, worlds: seq<World>, moves: seq<Move>, n: nat, k: PubKey, tick: u64, u: Update)
    requires Run(e, worlds, moves) && n < |worlds| && EverHeld(worlds, n, k, tick, u)
    ensures GoodUpdate(e, worlds[n], tick, u)
  {
    var j :| 0 <= j <= n && j < |worlds| && HoldsAt(worlds[j], k, tick, u);
    HoldsGood(e, worlds, moves, j, k, tick, u);
    GoodEverAfter(e, worlds, moves, j, n, tick, u);
  }

  /** The messages an honest publisher put under the header, where one did. */
  ghost function SignedMessages(e: Committee, w: World, h: Header): (messages: seq<Message>)
    ensures Attested(e, w, h) ==> Covers(e.crypto, h, messages)
  {
    if Attested(e, w, h) then
      var observations, messages :| Witnessed(e, w, h, observations, messages);
      messages
    else []
  }

  predicate NoFeedTwice(u: Update) { DistinctFeeds(Messages(u.entries)) }

  ghost predicate CleanTree(e: Committee, w: World, u: Update) {
    CollisionFree(e.crypto, CheckedPreimages(e.crypto, SignedMessages(e, w, u.header), u.entries))
  }

  /** Under one set with few faulty members, no feed repeated, and no collision among the bytes hashed for
      the two headers and their trees. */
  ghost predicate Comparable(e: Committee, w: World, u: Update, v: Update) {
    && u.header.setIndex == v.header.setIndex && FewFaulty(w, e.sets(u.header.setIndex))
    && NoFeedTwice(u) && NoFeedTwice(v)
    && CollisionFree(e.crypto, Preimages(w, u.header, v.header)) && CleanTree(e, w, u) && CleanTree(e, w, v)
  }

  lemma CarriesSigned(e: Committee, worlds: seq<World>, moves: seq<Move>, tick: u64, u: Update)
    requires Run(e, worlds, moves) && GoodUpdate(e, worlds[|moves|], tick, u)
    requires FewFaulty(worlds[|moves|], e.sets(u.header.setIndex))
    requires NoFeedTwice(u) && CleanTree(e, worlds[|moves|], u)
    requires CollisionFree(e.crypto, Preimages(worlds[|moves|], u.header, u.header))
    ensures Elements(Messages(u.entries)) == Elements(SignedMessages(e, worlds[|moves|], u.header))
  {
    QuorumIsAttested(e, worlds, moves, u.header, u.signatures);
    ExactIffDistinct(e.crypto, SignedMessages(e, worlds[|moves|], u.header), u);
  }

  /** Two honest publishers' versions of a tick carry the same header and the same messages. */
  lemma VersionsAgree(e: Committee, worlds: seq<World>, moves: seq<Move>, tick: u64, u: Update, v: Update)
    requires Run(e, worlds, moves) && GoodUpdate(e, worlds[|moves|], tick, u) && GoodUpdate(e, worlds[|moves|], tick, v)
    requires Comparable(e, worlds[|moves|], u, v)
    ensures u.header == v.header && Elements(Messages(u.entries)) == Elements(Messages(v.entries))
  {
    OneHeaderPerTick(e, worlds, moves, e.sets(u.header.setIndex), u.header, u.signatures, v.header, v.signatures);
    CarriesSigned(e, worlds, moves, tick, u);
    CarriesSigned(e, worlds, moves, tick, v);
  }

  lemma {:induction false} SameFirst(u: Update, v: Update, feedId: Bytes32)
    requires NoFeedTwice(v) && Elements(Messages(u.entries)) == Elements(Messages(v.entries))
    requires FirstFor(u.entries, feedId).Some?
    ensures FirstFor(v.entries, feedId) == FirstFor(u.entries, feedId)
  {
    FirstIsAmong(u.entries, feedId);
    var m := FirstFor(u.entries, feedId).value;
    assert m in Messages(u.entries) && m in Elements(Messages(v.entries));
    var i :| 0 <= i < |v.entries| && Messages(v.entries)[i] == m;
    FirstIsOnly(v.entries, i);
  }

  // ----- agreement

  ghost predicate EverFinalized(worlds: seq<World>, n: nat, k: PubKey, tick: u64) {
    exists u :: EverHeld(worlds, n, k, tick, u)
  }

  /** The two ever finalized the same ticks, and any versions they held of one tick are comparable. */
  ghost predicate SameHistory(e: Committee, worlds: seq<World>, n: nat, p: PubKey, q: PubKey)
    requires n < |worlds|
  {
    && (forall t: u64 :: EverFinalized(worlds, n, p, t) <==> EverFinalized(worlds, n, q, t))
    && forall t, u, v :: EverHeld(worlds, n, p, t, u) && EverHeld(worlds, n, q, t, v) ==> Comparable(e, worlds[n], u, v)
  }

  /** Where one of two publishers held an update that prices a feed, the other held one of the same tick that
      prices it the same. */
  lemma {:induction false} OtherHeldIt(
      e: Committee, worlds: seq<World>, moves: seq<Move>, p: PubKey, q: PubKey, tick: u64, u: Update, v: Update,
      feedId: Bytes32)
    requires Run(e, worlds, moves) && EverHeld(worlds, |moves|, p, tick, u) && EverHeld(worlds, |moves|, q, tick, v)
    requires Comparable(e, worlds[|moves|], u, v)
    ensures FirstFor(u.entries, feedId) == FirstFor(v.entries, feedId)
  {
    HeldIsGood(e, worlds, moves, |moves|, p, tick, u);
    HeldIsGood(e, worlds, moves, |moves|, q, tick, v);
    VersionsAgree(e, worlds, moves, tick, u, v);
    if FirstFor(u.entries, feedId).Some? { SameFirst(u, v, feedId); }
    if FirstFor(v.entries, feedId).Some? { SameFirst(v, u, feedId); }
  }

  lemma AverageFrom(e: Committee, worlds: seq<World>, moves: seq<Move>, p: PubKey, feedId: Bytes32) returns (u: Update)
    requires Run(e, worlds, moves) && p in worlds[|moves|] && feedId in worlds[|moves|][p].store.feeds
    ensures var mine := worlds[|moves|][p].store.feeds[feedId];
            EverHeld(worlds, |moves|, p, mine.tickMs, u) && Carries(u, feedId, mine)
  {
    AlwaysNewest(e, worlds, moves, |moves|, p, feedId);
    var mine := worlds[|moves|][p].store.feeds[feedId];
    u :| EverHeld(worlds, |moves|, p, mine.tickMs, u) && Carries(u, feedId, mine);
  }

  lemma FeedReaches(e: Committee, worlds: seq<World>, moves: seq<Move>, p: PubKey, q: PubKey, feedId: Bytes32)
    requires Run(e, worlds, moves) && p in worlds[|moves|] && q in worlds[|moves|]
    requires SameHistory(e, worlds, |moves|, p, q)
    requires feedId in worlds[|moves|][p].store.feeds
    ensures feedId in worlds[|moves|][q].store.feeds
    ensures worlds[|moves|][p].store.feeds[feedId].tickMs <= worlds[|moves|][q].store.feeds[feedId].tickMs
  {
    var n := |moves|;
    var mine := worlds[n][p].store.feeds[feedId];
    var u := AverageFrom(e, worlds, moves, p, feedId);
    AlwaysNewest(e, worlds, moves, n, q, feedId);
    assert EverFinalized(worlds, n, p, mine.tickMs);
    var v :| EverHeld(worlds, n, q, mine.tickMs, v);
    OtherHeldIt(e, worlds, moves, p, q, mine.tickMs, u, v, feedId);
  }

  lemma FeedMatches(e: Committee, worlds: seq<World>, moves: seq<Move>, p: PubKey, q: PubKey, feedId: Bytes32)
    requires Run(e, worlds, moves) && p in worlds[|moves|] && q in worlds[|moves|]
    requires SameHistory(e, worlds, |moves|, p, q)
    requires feedId in worlds[|moves|][p].store.feeds && feedId in worlds[|moves|][q].store.feeds
    requires worlds[|moves|][p].store.feeds[feedId].tickMs == worlds[|moves|][q].store.feeds[feedId].tickMs
    ensures worlds[|moves|][p].store.feeds[feedId] == worlds[|moves|][q].store.feeds[feedId]
  {
    var u := AverageFrom(e, worlds, moves, p, feedId);
    var v := AverageFrom(e, worlds, moves, q, feedId);
    OtherHeldIt(e, worlds, moves, p, q, worlds[|moves|][p].store.feeds[feedId].tickMs, u, v, feedId);
  }

  lemma HistoryIsMutual(e: Committee, worlds: seq<World>, n: nat, p: PubKey, q: PubKey)
    requires n < |worlds| && SameHistory(e, worlds, n, p, q)
    ensures SameHistory(e, worlds, n, q, p)
  {
    forall t, u, v | EverHeld(worlds, n, q, t, u) && EverHeld(worlds, n, p, t, v)
        ensures Comparable(e, worlds[n], u, v) {
      assert Comparable(e, worlds[n], v, u);
      assert Preimages(worlds[n], v.header, u.header) == Preimages(worlds[n], u.header, v.header);
    }
  }

  /** Two honest publishers that ever finalized the same ticks average from the same state, in whatever order
      the ticks reached them, whichever they finalized themselves, and whatever either lost or pruned. */
  lemma AveragesAgree(e: Committee, worlds: seq<World>, moves: seq<Move>, p: PubKey, q: PubKey)
    requires Run(e, worlds, moves) && p in worlds[|moves|] && q in worlds[|moves|]
    requires SameHistory(e, worlds, |moves|, p, q)
    ensures worlds[|moves|][p].store.feeds == worlds[|moves|][q].store.feeds
  {
    var a, b := worlds[|moves|][p].store.feeds, worlds[|moves|][q].store.feeds;
    HistoryIsMutual(e, worlds, |moves|, p, q);
    forall feedId: Bytes32
      ensures feedId in a <==> feedId in b
      ensures feedId in a ==> a[feedId] == b[feedId]
    {
      if feedId in a { FeedReaches(e, worlds, moves, p, q, feedId); }
      if feedId in b { FeedReaches(e, worlds, moves, q, p, feedId); }
      if feedId in a { FeedMatches(e, worlds, moves, p, q, feedId); }
    }
  }

  // ----- and derive the same header

  /** What two publishers hash to check the observations a proposal names. */
  ghost function ObservationPreimages(observations: seq<Observation>): set<Bytes> {
    set o | o in observations && ValidObservation(o) :: ObservationPreimage(o)
  }

  lemma {:induction false} SameObserved(c: Crypto, chosen: seq<Chosen>, a: seq<Observation>, b: seq<Observation>)
    requires |a| == |chosen| == |b| && HashesMatch(c, chosen, a) && HashesMatch(c, chosen, b)
    requires CollisionFree(c, ObservationPreimages(a + b))
    ensures a == b
  {
    forall k | 0 <= k < |chosen| ensures a[k] == b[k] {
      assert a[k] in a + b && b[k] in a + b;
      assert ObservationPreimage(a[k]) in ObservationPreimages(a + b)
          && ObservationPreimage(b[k]) in ObservationPreimages(a + b);
      CollisionFreeSubset(c, ObservationPreimages(a + b), {ObservationPreimage(a[k]), ObservationPreimage(b[k])});
      ObservationHashInjective(c, a[k], b[k]);
    }
  }

  /** What the publisher would sign, were it handed the proposal at this moment. */
  ghost function WouldSign(p: Publisher, from: u8, proposal: SignedProposal): Option<Header>
    requires SetFits(p.setup) && |proposal.body.chosen| < 256
  {
    OnProposal(p.setup, p.memory, p.store, from, proposal, p.clock).sign
  }

  /** The observations the publisher holds of those the proposal names, none if one is missing. */
  ghost function Held(p: Publisher, proposal: SignedProposal): seq<Observation> {
    var observations := TickOf(p.memory, proposal.body.tickMs).observations;
    if forall k :: 0 <= k < |proposal.body.chosen| ==> proposal.body.chosen[k].index in observations
    then ChosenObservations(proposal.body.chosen, observations) else []
  }

  lemma SignedIsDerived(p: Publisher, from: u8, proposal: SignedProposal)
    requires SetFits(p.setup) && |proposal.body.chosen| < 256 && WouldSign(p, from, proposal).Some?
    ensures |Held(p, proposal)| == |proposal.body.chosen|
    ensures HashesMatch(p.setup.crypto, proposal.body.chosen, Held(p, proposal))
    ensures p.setup.schedule(proposal.body.tickMs).Some?
    ensures var d :=
              Derive(p.setup, p.store.feeds, proposal.body.tickMs, p.setup.schedule(proposal.body.tickMs).value,
                  Held(p, proposal));
            d.Some? && WouldSign(p, from, proposal) == Some(d.value.header)
  {
    SignedMeansChecked(p.setup, p.memory, p.store, from, proposal, p.clock);
  }

  /** Two publishers under one set and configuration that would both sign for the proposal, no two
      observations they hold for it hashing alike. */
  ghost predicate BothWouldSign(e: Committee, a: Publisher, b: Publisher, from: u8, via: u8, proposal: SignedProposal)
    requires |proposal.body.chosen| < 256
  {
    && SetFits(a.setup) && SetFits(b.setup) && a.setup.current == b.setup.current
    && a.setup.schedule(proposal.body.tickMs) == b.setup.schedule(proposal.body.tickMs)
    && WouldSign(a, from, proposal).Some? && WouldSign(b, via, proposal).Some?
    && CollisionFree(e.crypto, ObservationPreimages(Held(a, proposal) + Held(b, proposal)))
  }

  /** So two such publishers, handed the same proposal, sign the same header whenever both sign: whoever
      handed it to them and whoever proposed it has no say in it. */
  lemma SameProposalSameHeader(
      e: Committee, worlds: seq<World>, moves: seq<Move>, p: PubKey, q: PubKey, from: u8, via: u8,
      proposal: SignedProposal)
    requires Run(e, worlds, moves) && p in worlds[|moves|] && q in worlds[|moves|]
    requires SameHistory(e, worlds, |moves|, p, q)
    requires |proposal.body.chosen| < 256
    requires BothWouldSign(e, worlds[|moves|][p], worlds[|moves|][q], from, via, proposal)
    ensures WouldSign(worlds[|moves|][p], from, proposal) == WouldSign(worlds[|moves|][q], via, proposal)
  {
    var a, b := worlds[|moves|][p], worlds[|moves|][q];
    AveragesAgree(e, worlds, moves, p, q);
    AlwaysGuarded(e, worlds, moves, |moves|, p);
    AlwaysGuarded(e, worlds, moves, |moves|, q);
    SignedIsDerived(a, from, proposal);
    SignedIsDerived(b, via, proposal);
    SameObserved(e.crypto, proposal.body.chosen, Held(a, proposal), Held(b, proposal));
    SameDerivation(a.setup, b.setup, a.store.feeds, proposal.body.tickMs,
        a.setup.schedule(proposal.body.tickMs).value, Held(a, proposal));
  }

  /** Nothing else a publisher is started with enters a derivation. */
  lemma SameDerivation(
      a: Setup, b: Setup, feeds: FeedStates, tick: u64, active: ActiveConfig, observations: seq<Observation>)
    requires a.crypto == b.crypto && a.typeHash == b.typeHash && a.current == b.current
    ensures Derive(a, feeds, tick, active, observations) == Derive(b, feeds, tick, active, observations)
  {
  }
}
