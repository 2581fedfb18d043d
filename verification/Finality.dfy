/** What honest publishers store, over whole runs. */
module Finality {
  // Every row is one any peer would accept, and no two publishers' rows differ.

  import opened Aggregate
  import opened Assembly
  import opened Bytes
  import opened Hashing
  import opened Node
  import opened PriceUpdates
  import opened Protocol
  import opened PublisherSets
  import opened Signatures
  import opened Store
  import opened Wire
  import opened Wrappers

  predicate NamesTick(e: Committee, u: Update, tick: u64) {
    u.header.publishTimeMs == tick && u.header.publisherSetTypeHash == e.typeHash
  }

  /** The update passes every check a peer makes before it stores it. */
  predicate Verified(e: Committee, u: Update) {
    && Threshold(e.crypto, u.signatures, SigningHash(e.crypto, u.header), e.sets(u.header.setIndex))
    && |u.entries| == u.header.leafCount && AllProven(e.crypto, u)
  }

  ghost predicate GoodUpdate(e: Committee, w: World, tick: u64, u: Update) {
    NamesTick(e, u, tick) && Verified(e, u) && BundleIssued(e, w, SigningHash(e.crypto, u.header), u.signatures)
  }

  ghost predicate GoodRow(e: Committee, w: World, tick: u64, blob: Bytes) {
    DecodeUpdate(blob).Some? && GoodUpdate(e, w, tick, DecodeUpdate(blob).value)
  }

  ghost predicate GoodTable(e: Committee, w: World, rows: Table<Bytes>) {
    forall t :: t in rows ==> GoodRow(e, w, t, rows[t])
  }

  ghost predicate GoodRows(e: Committee, w: World, s: State) {
    && GoodTable(e, w, s.finalized)
    && (forall i :: i in s.keySets ==> s.keySets[i] == e.sets(i))
  }

  /** A signature kept in memory is by the publisher it is filed under, and no forgery. */
  ghost predicate GoodSignatures(
      e: Committee, w: World, n: PublisherSet, headerHash: Digest, held: map<u8, Signature>) {
    forall i :: i in held ==>
      i < |n.pubkeys| && e.crypto.valid(headerHash, held[i], n.pubkeys[i]) && Issued(e, w, headerHash, held[i])
  }

  predicate ProvesItself(c: Crypto, d: Derived) {
    0 < |d.entries| == d.header.leafCount && AllProven(c, UpdateFrom(d, []))
    && forall i :: 0 <= i < |d.entries| ==> |d.entries[i].proof| <= MAX_PROOF_LEN
  }

  /** What this publisher derived itself names its committee, set and tick, and proves every entry. */
  ghost predicate GoodDerived(e: Committee, setup: Setup, tick: u64, headerHash: Digest, d: Derived) {
    && headerHash == d.headerHash == SigningHash(e.crypto, d.header)
    && d.header.publishTimeMs == tick && d.header.publisherSetTypeHash == e.typeHash
    && d.header.setIndex == setup.current.setIndex
    && ProvesItself(e.crypto, d)
  }

  ghost predicate GoodTick(e: Committee, w: World, setup: Setup, tick: u64, st: TickState) {
    && (forall d :: d in st.signatures ==> GoodSignatures(e, w, setup.current, d, st.signatures[d]))
    && (forall d :: d in st.derived ==> GoodDerived(e, setup, tick, d, st.derived[d]))
  }

  ghost predicate GoodMemory(e: Committee, w: World, setup: Setup, memory: Memory) {
    forall t :: t in memory ==> GoodTick(e, w, setup, t, memory[t])
  }

  ghost predicate StoreInvariant(e: Committee, w: World, p: Publisher) {
    GoodSetup(e, p.setup) && GoodMemory(e, w, p.setup, p.memory) && GoodRows(e, w, p.store)
  }

  // ----- finalizing locally gives a row every peer accepts

  lemma {:induction false} BundleHasAll(held: map<u8, Signature>, n: nat)
    requires n <= 256
    ensures |BundleOf(held, n)| == |set i | i in held && i < n|
  {
    if n > 0 {
      BundleHasAll(held, n - 1);
      var before := set i | i in held && i < n - 1;
      assert (set i | i in held && i < n) == if n - 1 in held then before + {n - 1} else before;
    } else {
      assert (set i | i in held && i < n) == {};
    }
  }

  lemma {:induction false} QuorumHeld(
      e: Committee, w: World, n: PublisherSet, headerHash: Digest, held: map<u8, Signature>)
    requires ValidSet(n) && GoodSignatures(e, w, n, headerHash, held) && |held| >= Quorum(n)
    ensures var all := BundleOf(held, |n.pubkeys|);
            |all| >= Quorum(n) && Threshold(e.crypto, all[..Quorum(n)], headerHash, n)
            && BundleIssued(e, w, headerHash, all[..Quorum(n)])
  {
    BundleHasAll(held, |n.pubkeys|);
    assert (set i | i in held && i < |n.pubkeys|) == held.Keys;
  }

  lemma GoodTableGrows(e: Committee, w: World, rows: Table<Bytes>, tick: u64, blob: Bytes)
    requires GoodTable(e, w, rows) && GoodRow(e, w, tick, blob)
    ensures GoodTable(e, w, rows[tick := blob])
  {
  }

  lemma RowAdded(e: Committee, w: World, store: State, u: Update, blob: Bytes)
    requires GoodRows(e, w, store) && DecodeUpdate(blob) == Some(u) && GoodUpdate(e, w, u.header.publishTimeMs, u)
    ensures GoodRows(e, w, Save(store, u, blob).0)
  {
    assert GoodRow(e, w, u.header.publishTimeMs, blob);
    GoodTableGrows(e, w, store.finalized, u.header.publishTimeMs, blob);
  }

  lemma EncodedRowAdded(e: Committee, w: World, store: State, u: Update)
    requires GoodRows(e, w, store) && GoodUpdate(e, w, u.header.publishTimeMs, u) && ValidBlob(ToBlob(u))
    ensures GoodRows(e, w, Save(store, u, EncodeBlob(ToBlob(u))).0)
  {
    DecodeUpdateIffEncoded(EncodeBlob(ToBlob(u)), u);
    RowAdded(e, w, store, u, EncodeBlob(ToBlob(u)));
  }

  lemma {:induction false} FinalizedUpdateIsGood(
      e: Committee, w: World, setup: Setup, tick: u64, headerHash: Digest, held: map<u8, Signature>, d: Derived)
    requires GoodCommittee(e) && GoodSetup(e, setup) && GoodDerived(e, setup, tick, headerHash, d)
    requires GoodSignatures(e, w, setup.current, headerHash, held) && |held| >= Quorum(setup.current)
    ensures |BundleOf(held, N(setup))| >= Quorum(setup.current)
    ensures GoodUpdate(e, w, tick, UpdateFrom(d, BundleOf(held, N(setup))[..Quorum(setup.current)]))
  {
    QuorumHeld(e, w, setup.current, headerHash, held);
    assert AllProven(e.crypto, UpdateFrom(d, []))
        == AllProven(e.crypto, UpdateFrom(d, BundleOf(held, N(setup))[..Quorum(setup.current)]));
  }

  lemma TickUpdated(e: Committee, w: World, setup: Setup, memory: Memory, tick: u64, st: TickState)
    requires GoodMemory(e, w, setup, memory) && GoodTick(e, w, setup, tick, st)
    ensures GoodMemory(e, w, setup, memory[tick := st])
  {
  }

  lemma FinalizingMarks(
      setup: Setup, memory: Memory, store: State, tick: u64, headerHash: Digest) returns (st: TickState)
    requires SetFits(setup)
    ensures TryFinalize(setup, memory, store, tick, headerHash).0 == memory[tick := st]
    ensures st.signatures == TickOf(memory, tick).signatures && st.derived == TickOf(memory, tick).derived
    ensures st.observations == TickOf(memory, tick).observations
  {
    st := TryFinalize(setup, memory, store, tick, headerHash).0[tick];
  }

  /** What a successful attempt stores: the derived header under its first quorum of signatures. */
  lemma FinalizingStores(setup: Setup, memory: Memory, store: State, tick: u64, headerHash: Digest) returns (u: Update)
    requires SetFits(setup) && TryFinalize(setup, memory, store, tick, headerHash).1 != store
    ensures var st := TickOf(memory, tick);
            headerHash in st.derived && headerHash in st.signatures
            && |st.signatures[headerHash]| >= Quorum(setup.current)
            && var all := BundleOf(st.signatures[headerHash], N(setup));
               u == UpdateFrom(st.derived[headerHash],
                   if |all| > Quorum(setup.current) then all[..Quorum(setup.current)] else all)
    ensures ValidBlob(ToBlob(u)) && !Passed(store, tick)
    ensures TryFinalize(setup, memory, store, tick, headerHash).1 == Save(store, u, EncodeBlob(ToBlob(u))).0
  {
    var st := TickOf(memory, tick);
    var all := BundleOf(st.signatures[headerHash], N(setup));
    u := UpdateFrom(st.derived[headerHash],
        if |all| > Quorum(setup.current) then all[..Quorum(setup.current)] else all);
  }

  lemma FinalizedIsGood(
      e: Committee, w: World, setup: Setup, memory: Memory, store: State, tick: u64, headerHash: Digest)
      returns (u: Update)
    requires GoodCommittee(e) && GoodSetup(e, setup) && GoodMemory(e, w, setup, memory)
    requires TryFinalize(setup, memory, store, tick, headerHash).1 != store
    ensures ValidBlob(ToBlob(u)) && GoodUpdate(e, w, tick, u)
    ensures TryFinalize(setup, memory, store, tick, headerHash).1 == Save(store, u, EncodeBlob(ToBlob(u))).0
  {
    u := FinalizingStores(setup, memory, store, tick, headerHash);
    var st := TickOf(memory, tick);
    var all := BundleOf(st.signatures[headerHash], N(setup));
    assert GoodTick(e, w, setup, tick, st);
    FinalizedUpdateIsGood(e, w, setup, tick, headerHash, st.signatures[headerHash], st.derived[headerHash]);
    assert all[..|all|] == all;
  }

  lemma FinalizingIsGood(
      e: Committee, w: World, setup: Setup, memory: Memory, store: State, tick: u64, headerHash: Digest)
    requires GoodCommittee(e) && GoodSetup(e, setup) && GoodMemory(e, w, setup, memory) && GoodRows(e, w, store)
    ensures GoodMemory(e, w, setup, TryFinalize(setup, memory, store, tick, headerHash).0)
    ensures GoodRows(e, w, TryFinalize(setup, memory, store, tick, headerHash).1)
  {
    var marked := FinalizingMarks(setup, memory, store, tick, headerHash);
    TickUpdated(e, w, setup, memory, tick, marked);
    if TryFinalize(setup, memory, store, tick, headerHash).1 != store {
      var u := FinalizedIsGood(e, w, setup, memory, store, tick, headerHash);
      EncodedRowAdded(e, w, store, u);
    }
  }

  lemma SharingKeeps(e: Committee, w: World, setup: Setup, memory: Memory, store: State, to: u8, tick: u64)
    requires GoodMemory(e, w, setup, memory)
    ensures GoodMemory(e, w, setup, ShareFinalized(setup, memory, store, to, tick).0)
  {
    var st := TickOf(memory, tick);
    TickUpdated(e, w, setup, memory, tick, st);
    TickUpdated(e, w, setup, memory, tick, st.(sharedWith := st.sharedWith + {to}));
  }

  lemma RecordedIsGood(
      e: Committee, w: World, setup: Setup, memory: Memory, from: u8, tick: u64, headerHash: Digest,
      signature: Signature) returns (recorded: TickState)
    requires GoodMemory(e, w, setup, memory) && GoodSetup(e, setup) && Issued(e, w, headerHash, signature)
    requires from < N(setup) && setup.crypto.valid(headerHash, signature, setup.current.pubkeys[from])
    ensures var st := TickOf(memory, tick);
            var byHeader: map<u8, Signature> :=
                if headerHash in st.signatures then st.signatures[headerHash] else map[];
            recorded == st.(signatures := st.signatures[headerHash := byHeader[from := signature]])
    ensures GoodMemory(e, w, setup, memory[tick := recorded])
  {
    var st := TickOf(memory, tick);
    var byHeader: map<u8, Signature> := if headerHash in st.signatures then st.signatures[headerHash] else map[];
    recorded := st.(signatures := st.signatures[headerHash := byHeader[from := signature]]);
    assert GoodSignatures(e, w, setup.current, headerHash, byHeader[from := signature]);
    TickUpdated(e, w, setup, memory, tick, recorded);
  }

  lemma SignatureIsGood(
      e: Committee, w: World, setup: Setup, memory: Memory, store: State, from: u8, tick: u64, headerHash: Digest,
      signature: Signature)
    requires GoodCommittee(e) && GoodSetup(e, setup) && GoodMemory(e, w, setup, memory) && GoodRows(e, w, store)
    requires Issued(e, w, headerHash, signature)
    ensures var o := OnSignature(setup, memory, store, from, tick, headerHash, signature);
            GoodMemory(e, w, setup, o.memory) && GoodRows(e, w, o.store)
  {
    SharingKeeps(e, w, setup, memory, store, from, tick);
    if from < N(setup) && setup.crypto.valid(headerHash, signature, setup.current.pubkeys[from])
        && !TickOf(memory, tick).finalized {
      var recorded := RecordedIsGood(e, w, setup, memory, from, tick, headerHash, signature);
      FinalizingIsGood(e, w, setup, memory[tick := recorded], store, tick, headerHash);
    }
  }

  /** What a publisher derives itself proves every entry, and fits a blob with any bundle while it has at most
      255 entries. */
  lemma DerivedProves(setup: Setup, feeds: FeedStates, tick: u64, active: ActiveConfig, observations: seq<Observation>)
    requires Derive(setup, feeds, tick, active, observations).Some?
    ensures ProvesItself(setup.crypto, Derive(setup, feeds, tick, active, observations).value)
  {
    var drafts := AggregateMessages(active.feeds, observations, Quorum(setup.current), tick, feeds).value;
    var messages := seq(|drafts|, k requires 0 <= k < |drafts| => ToMessage(drafts[k]));
    forall i | 0 <= i < |messages| {
      AssembledEntriesVerify(setup.crypto, setup.typeHash, setup.current.setIndex, tick, active.tickPeriodMs,
          active.hash, messages, i);
    }
  }

  lemma DerivedIsGood(
      e: Committee, setup: Setup, feeds: FeedStates, tick: u64, active: ActiveConfig, observations: seq<Observation>)
    requires GoodSetup(e, setup) && SetFits(setup) && Derive(setup, feeds, tick, active, observations).Some?
    ensures var d := Derive(setup, feeds, tick, active, observations).value;
            GoodDerived(e, setup, tick, d.headerHash, d)
  {
    DerivedProves(setup, feeds, tick, active, observations);
  }

  lemma SignDerivedIsGood(
      e: Committee, w: World, setup: Setup, memory: Memory, store: State, active: ActiveConfig, tick: u64,
      st: TickState, d: Derived)
    requires GoodCommittee(e) && GoodSetup(e, setup) && GoodMemory(e, w, setup, memory) && GoodRows(e, w, store)
    requires GoodTick(e, w, setup, tick, st) && GoodDerived(e, setup, tick, d.headerHash, d)
    ensures var o := SignDerived(setup, memory, store, active, tick, st, d);
            GoodMemory(e, w, setup, o.memory) && GoodRows(e, w, o.store)
  {
    var derived := st.(derived := st.derived[d.headerHash := d]);
    assert GoodTick(e, w, setup, tick, derived);
    TickUpdated(e, w, setup, memory, tick, derived);
    FinalizingIsGood(e, w, setup, memory[tick := derived], store, tick, d.headerHash);
    SigningKeepsRows(setup, memory, store, active, tick, st, d);
    var tried := TryFinalize(setup, memory[tick := derived], store, tick, d.headerHash);
    var o := SignDerived(setup, memory, store, active, tick, st, d);
    SameRowsGood(e, w, tried.1, o.store);
  }

  lemma SameRowsGood(e: Committee, w: World, before: State, after: State)
    requires GoodRows(e, w, before) && after.finalized == before.finalized && after.keySets == before.keySets
    ensures GoodRows(e, w, after)
  {
  }

  lemma ProposalIsGood(
      e: Committee, w: World, setup: Setup, memory: Memory, store: State, from: u8, p: SignedProposal, now: int)
    requires GoodCommittee(e) && GoodSetup(e, setup) && GoodMemory(e, w, setup, memory) && GoodRows(e, w, store)
    requires |p.body.chosen| < 256
    ensures var o := OnProposal(setup, memory, store, from, p, now);
            GoodMemory(e, w, setup, o.memory) && GoodRows(e, w, o.store)
  {
    var tick := p.body.tickMs;
    var schedule := setup.schedule(tick);
    SharingKeeps(e, w, setup, memory, store, from, tick);
    TickUpdated(e, w, setup, memory, tick, TickOf(memory, tick));
    if schedule.Some? && !TickOf(memory, tick).finalized && !Passed(store, tick)
        && CheckProposal(setup, store, schedule.value, p, now).Consider? {
      ConsideredIsGood(e, w, setup, memory, store, schedule.value, from, p);
    }
  }

  lemma ConsideredIsGood(
      e: Committee, w: World, setup: Setup, memory: Memory, store: State, active: ActiveConfig, from: u8,
      p: SignedProposal)
    requires GoodCommittee(e) && GoodSetup(e, setup) && GoodMemory(e, w, setup, memory) && GoodRows(e, w, store)
    ensures var o := ConsiderProposal(setup, memory, store, active, from, p);
            GoodMemory(e, w, setup, o.memory) && GoodRows(e, w, o.store)
  {
    var tick, chosen := p.body.tickMs, p.body.chosen;
    var st := Remember(TickOf(memory, tick), p);
    assert GoodTick(e, w, setup, tick, st);
    NoneMissing(chosen, st.observations);
    if Missing(chosen, st.observations) == [] {
      var observations := ChosenObservations(chosen, st.observations);
      var derived := Derive(setup, store.feeds, tick, active, observations);
      if HashesMatch(setup.crypto, chosen, observations) && derived.Some? {
        DerivedIsGood(e, setup, store.feeds, tick, active, observations);
        SignDerivedIsGood(e, w, setup, memory, store, active, tick, st, derived.value);
      }
    }
  }

  lemma AcceptableIsGood(e: Committee, w: World, setup: Setup, store: State, u: Update)
    requires GoodSetup(e, setup) && GoodRows(e, w, store) && AcceptableUpdate(setup, store, u)
    requires BundleIssued(e, w, SigningHash(e.crypto, u.header), u.signatures)
    ensures GoodUpdate(e, w, u.header.publishTimeMs, u)
  {
  }

  lemma AcceptedIsGood(e: Committee, w: World, setup: Setup, memory: Memory, store: State, blob: Bytes)
    requires GoodCommittee(e) && GoodSetup(e, setup) && GoodMemory(e, w, setup, memory) && GoodRows(e, w, store)
    requires DecodeUpdate(blob).Some? ==>
        BundleIssued(e, w, SigningHash(e.crypto, DecodeUpdate(blob).value.header), DecodeUpdate(blob).value.signatures)
    ensures var (after, saved) := AcceptFinalized(setup, memory, store, blob);
            GoodMemory(e, w, setup, after) && GoodRows(e, w, saved)
  {
    var decoded := DecodeUpdate(blob);
    if decoded.Some? && AcceptableUpdate(setup, store, decoded.value) {
      var tick := decoded.value.header.publishTimeMs;
      AcceptableIsGood(e, w, setup, store, decoded.value);
      RowAdded(e, w, store, decoded.value, blob);
      TickUpdated(e, w, setup, memory, tick, TickOf(memory, tick).(finalized := true));
    }
  }

  // ----- and so on every run

  /** What was issued stays issued, so what was good stays good. */
  lemma GoodStaysGood(e: Committee, before: World, after: World, p: Publisher)
    requires Later(before, after) && StoreInvariant(e, before, p)
    ensures StoreInvariant(e, after, p)
  {
    forall digest, signature | Issued(e, before, digest, signature) ensures Issued(e, after, digest, signature) {
      forall k | k in after && e.crypto.valid(digest, signature, k) ensures Asked(e.crypto, after[k], digest) {
        var x :| x in AskedPreimages(before[k]) && e.crypto.hash(x) == digest;
        assert x in AskedPreimages(after[k]);
      }
    }
  }

  lemma StoreStep(e: Committee, w: World, m: Move)
    requires GoodCommittee(e) && Allowed(e, w, m) && StoreInvariant(e, w, w[m.who])
    ensures StoreInvariant(e, w, After(w[m.who], m.event))
  {
    var p := w[m.who];
    match m.event
    case GetProposal(from, proposal) => ProposalIsGood(e, w, p.setup, p.memory, p.store, from, proposal, p.clock);
    case CrashBeforeSigning(from, proposal, _, _) =>
        ProposalIsGood(e, w, p.setup, p.memory, p.store, from, proposal, p.clock);
    case GetSignature(from, tick, headerHash, signature) =>
      SignatureIsGood(e, w, p.setup, p.memory, p.store, from, tick, headerHash, signature);
    case GetFinalized(blob) => AcceptedIsGood(e, w, p.setup, p.memory, p.store, blob);
    case _ =>
  }

  lemma {:induction false} AlwaysGood(e: Committee, worlds: seq<World>, moves: seq<Move>, i: nat, k: PubKey)
    requires Run(e, worlds, moves) && i < |worlds| && k in worlds[i]
    ensures StoreInvariant(e, worlds[i], worlds[i][k])
  {
    if i > 0 {
      assert StepAt(e, worlds, moves, i - 1);
      StepIsLater(e, worlds[i - 1], moves[i - 1], worlds[i]);
      AlwaysGood(e, worlds, moves, i - 1, k);
      if k == moves[i - 1].who { StoreStep(e, worlds[i - 1], moves[i - 1]); }
      GoodStaysGood(e, worlds[i - 1], worlds[i], worlds[i][k]);
    }
  }

  // ----- finalizing moves forward

  /** The moves in which a publisher can finalize a tick itself, rather than be handed one. */
  predicate FinalizesItself(event: Event) { event.GetProposal? || event.GetSignature? || event.CrashBeforeSigning? }

  /** The store is as it was, or gained one row for a tick later than every row it had. */
  ghost predicate MovesForward(before: Table<Bytes>, after: Table<Bytes>) {
    after == before || exists t: u64, blob: Bytes :: Gains(before, after, t, blob) && forall x :: x in before ==> x < t
  }

  predicate Gains(before: Table<Bytes>, after: Table<Bytes>, t: u64, blob: Bytes) {
    t !in before && after == before[t := blob]
  }

  lemma FinalizingMovesForward(
      e: Committee, w: World, setup: Setup, memory: Memory, store: State, tick: u64, headerHash: Digest)
    requires SetFits(setup) && GoodMemory(e, w, setup, memory)
    ensures MovesForward(store.finalized, TryFinalize(setup, memory, store, tick, headerHash).1.finalized)
  {
    var after := TryFinalize(setup, memory, store, tick, headerHash).1;
    if after.finalized != store.finalized {
      var u := FinalizingStores(setup, memory, store, tick, headerHash);
      assert GoodDerived(e, setup, tick, headerHash, TickOf(memory, tick).derived[headerHash]);
      assert u.header.publishTimeMs == tick;
      assert Gains(store.finalized, after.finalized, tick, EncodeBlob(ToBlob(u)));
    }
  }

  lemma SignatureMovesForward(
      e: Committee, w: World, setup: Setup, memory: Memory, store: State, from: u8, tick: u64, headerHash: Digest,
      signature: Signature)
    requires GoodCommittee(e) && GoodSetup(e, setup) && GoodMemory(e, w, setup, memory)
    requires Issued(e, w, headerHash, signature)
    ensures MovesForward(store.finalized,
        OnSignature(setup, memory, store, from, tick, headerHash, signature).store.finalized)
  {
    var st := TickOf(memory, tick);
    if from < N(setup) && setup.crypto.valid(headerHash, signature, setup.current.pubkeys[from]) && !st.finalized {
      var recorded := RecordedIsGood(e, w, setup, memory, from, tick, headerHash, signature);
      FinalizingMovesForward(e, w, setup, memory[tick := recorded], store, tick, headerHash);
    }
  }

  lemma DerivedMovesForward(
      e: Committee, w: World, setup: Setup, memory: Memory, store: State, active: ActiveConfig, tick: u64,
      st: TickState, d: Derived)
    requires GoodCommittee(e) && GoodSetup(e, setup) && GoodMemory(e, w, setup, memory)
    requires GoodTick(e, w, setup, tick, st) && GoodDerived(e, setup, tick, d.headerHash, d)
    ensures MovesForward(store.finalized, SignDerived(setup, memory, store, active, tick, st, d).store.finalized)
  {
    var derived := st.(derived := st.derived[d.headerHash := d]);
    TickUpdated(e, w, setup, memory, tick, derived);
    FinalizingMovesForward(e, w, setup, memory[tick := derived], store, tick, d.headerHash);
    SigningKeepsRows(setup, memory, store, active, tick, st, d);
  }

  lemma ConsideredMovesForward(
      e: Committee, w: World, setup: Setup, memory: Memory, store: State, active: ActiveConfig, from: u8,
      p: SignedProposal)
    requires GoodCommittee(e) && GoodSetup(e, setup) && GoodMemory(e, w, setup, memory)
    ensures MovesForward(store.finalized, ConsiderProposal(setup, memory, store, active, from, p).store.finalized)
  {
    var tick, chosen := p.body.tickMs, p.body.chosen;
    var st := Remember(TickOf(memory, tick), p);
    NoneMissing(chosen, st.observations);
    if Missing(chosen, st.observations) == [] {
      var observations := ChosenObservations(chosen, st.observations);
      var derived := Derive(setup, store.feeds, tick, active, observations);
      if HashesMatch(setup.crypto, chosen, observations) && derived.Some? {
        DerivedIsGood(e, setup, store.feeds, tick, active, observations);
        DerivedMovesForward(e, w, setup, memory, store, active, tick, st, derived.value);
      }
    }
  }

  lemma ProposalMovesForward(
      e: Committee, w: World, setup: Setup, memory: Memory, store: State, from: u8, p: SignedProposal, now: int)
    requires GoodCommittee(e) && GoodSetup(e, setup) && GoodMemory(e, w, setup, memory) && |p.body.chosen| < 256
    ensures MovesForward(store.finalized, OnProposal(setup, memory, store, from, p, now).store.finalized)
  {
    var tick, schedule := p.body.tickMs, setup.schedule(p.body.tickMs);
    if schedule.Some? && !TickOf(memory, tick).finalized && !Passed(store, tick)
        && CheckProposal(setup, store, schedule.value, p, now).Consider? {
      ConsideredMovesForward(e, w, setup, memory, store, schedule.value, from, p);
    }
  }

  lemma OwnStepMovesForward(e: Committee, w: World, m: Move)
    requires GoodCommittee(e) && Allowed(e, w, m) && StoreInvariant(e, w, w[m.who]) && FinalizesItself(m.event)
    ensures MovesForward(w[m.who].store.finalized, After(w[m.who], m.event).store.finalized)
  {
    var p := w[m.who];
    match m.event
    case GetProposal(from, proposal) => ProposalMovesForward(e, w, p.setup, p.memory, p.store, from, proposal, p.clock);
    case CrashBeforeSigning(from, proposal, _, _) =>
        ProposalMovesForward(e, w, p.setup, p.memory, p.store, from, proposal, p.clock);
    case GetSignature(from, tick, headerHash, signature) =>
      SignatureMovesForward(e, w, p.setup, p.memory, p.store, from, tick, headerHash, signature);
  }

  /** Between two moments the publisher pruned its store past the tick. */
  ghost predicate PrunedPast(moves: seq<Move>, i: nat, j: nat, k: PubKey, tick: u64) {
    exists x :: i <= x < j && x < |moves| && PrunesPast(moves[x], k, tick)
  }

  predicate PrunesPast(m: Move, k: PubKey, tick: u64) { m.who == k && m.event.PruneStore? && tick < m.event.before }

  lemma AcceptingKeepsRows(setup: Setup, memory: Memory, store: State, blob: Bytes)
    ensures store.finalized.Keys <= AcceptFinalized(setup, memory, store, blob).1.finalized.Keys
  {
  }

  predicate HasRow(p: Publisher, tick: u64) { tick in p.store.finalized }

  /** The moves that neither finalize nor accept only remove rows, and only by pruning. */
  lemma OtherMovesKeepRows(p: Publisher, event: Event, tick: u64)
    requires SetFits(p.setup) && !FinalizesItself(event) && !event.GetFinalized?
    requires HasRow(p, tick) && (event.PruneStore? ==> tick >= event.before)
    ensures HasRow(After(p, event), tick)
  {
  }

  lemma RowsStay(e: Committee, w: World, m: Move, after: World, tick: u64)
    requires GoodCommittee(e) && Step(e, w, m, after) && StoreInvariant(e, w, w[m.who])
    requires HasRow(w[m.who], tick) && !PrunesPast(m, m.who, tick)
    ensures HasRow(after[m.who], tick)
  {
    if FinalizesItself(m.event) {
      OwnStepMovesForward(e, w, m);
    } else if m.event.GetFinalized? {
      AcceptingKeepsRows(w[m.who].setup, w[m.who].memory, w[m.who].store, m.event.blob);
    } else {
      OtherMovesKeepRows(w[m.who], m.event, tick);
    }
  }

  lemma {:induction false} StoredUnlessPruned(
      e: Committee, worlds: seq<World>, moves: seq<Move>, i: nat, j: nat, k: PubKey, tick: u64)
    requires Run(e, worlds, moves) && i <= j < |worlds| && k in worlds[i] && tick in worlds[i][k].store.finalized
    ensures k in worlds[j] && (tick in worlds[j][k].store.finalized || PrunedPast(moves, i, j, k, tick))
    decreases j
  {
    if i < j {
      StoredUnlessPruned(e, worlds, moves, i, j - 1, k, tick);
      assert StepAt(e, worlds, moves, j - 1);
      if PrunedPast(moves, i, j - 1, k, tick) || PrunesPast(moves[j - 1], k, tick) {
        assert PrunedPast(moves, i, j, k, tick);
      } else if k == moves[j - 1].who {
        AlwaysGood(e, worlds, moves, j - 1, k);
        RowsStay(e, worlds[j - 1], moves[j - 1], worlds[j], tick);
      }
    }
  }

  /** A tick a publisher finalizes itself is later than every tick it ever stored before and has not pruned
      since, across all restarts: history it is handed late never makes it go back. */
  lemma FinalizesForward(e: Committee, worlds: seq<World>, moves: seq<Move>, i: nat, j: nat, earlier: u64, later: u64)
    requires Run(e, worlds, moves) && i <= j < |moves| && FinalizesItself(moves[j].event)
    requires moves[j].who in worlds[i] && earlier in worlds[i][moves[j].who].store.finalized
    requires moves[j].who in worlds[j] && moves[j].who in worlds[j + 1]
    requires later in worlds[j + 1][moves[j].who].store.finalized && later !in worlds[j][moves[j].who].store.finalized
    ensures earlier < later || PrunedPast(moves, i, j, moves[j].who, earlier)
  {
    assert StepAt(e, worlds, moves, j);
    StoredUnlessPruned(e, worlds, moves, i, j, moves[j].who, earlier);
    AlwaysGood(e, worlds, moves, j, moves[j].who);
    OwnStepMovesForward(e, worlds[j], moves[j]);
  }

  /** No two honest publishers ever hold different headers for a tick under one set. */
  lemma FinalizedAgree(e: Committee, worlds: seq<World>, moves: seq<Move>, p: PubKey, q: PubKey, tick: u64)
    requires Run(e, worlds, moves)
    requires var w := worlds[|moves|]; p in w && q in w && tick in w[p].store.finalized && tick in w[q].store.finalized
    ensures var w := worlds[|moves|];
            DecodeUpdate(w[p].store.finalized[tick]).Some? && DecodeUpdate(w[q].store.finalized[tick]).Some?
            && var a := DecodeUpdate(w[p].store.finalized[tick]).value.header;
               var b := DecodeUpdate(w[q].store.finalized[tick]).value.header;
               (a.setIndex == b.setIndex && FewFaulty(w, e.sets(a.setIndex))
                && CollisionFree(e.crypto, Preimages(w, a, b))) ==> a == b
  {
    var w := worlds[|moves|];
    AlwaysGood(e, worlds, moves, |moves|, p);
    AlwaysGood(e, worlds, moves, |moves|, q);
    var u, v := DecodeUpdate(w[p].store.finalized[tick]).value, DecodeUpdate(w[q].store.finalized[tick]).value;
    if u.header.setIndex == v.header.setIndex && FewFaulty(w, e.sets(u.header.setIndex))
        && CollisionFree(e.crypto, Preimages(w, u.header, v.header)) {
      OneHeaderPerTick(e, worlds, moves, e.sets(u.header.setIndex), u.header, u.signatures, v.header, v.signatures);
    }
  }

  /** Whatever one honest publisher stored, another accepts exactly when it knows the set. */
  lemma StoredIsAcceptable(e: Committee, worlds: seq<World>, moves: seq<Move>, p: PubKey, q: PubKey, tick: u64)
    requires Run(e, worlds, moves)
    requires var w := worlds[|moves|]; p in w && q in w && tick in w[p].store.finalized
    ensures var w := worlds[|moves|];
            DecodeUpdate(w[p].store.finalized[tick]).Some?
            && var u := DecodeUpdate(w[p].store.finalized[tick]).value;
               (AcceptableUpdate(w[q].setup, w[q].store, u) <==>
                KnownSet(w[q].setup, w[q].store, u.header.setIndex).Some?)
  {
    AlwaysGood(e, worlds, moves, |moves|, p);
    AlwaysGood(e, worlds, moves, |moves|, q);
  }
}
