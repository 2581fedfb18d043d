/** What a quorum's signature on a header says about prices. */
module Attestation {
  import opened Aggregate
  import opened Assembly
  import opened Bytes
  import opened Counting
  import opened Finality
  import opened Fixed
  import opened Hashing
  import opened Merkle
  import opened Node
  import opened PriceUpdates
  import opened Protocol
  import opened PublisherSets
  import opened Signatures
  import opened Sorting
  import opened Store
  import opened Wire
  import opened Wrappers

  // ----- observations held in memory

  /** The observation names a member of the set and encodes; if that member's key is honest, the key was asked to
      sign it. */
  ghost predicate Genuine(e: Committee, w: World, keys: PublisherSet, o: Observation) {
    && o.publisherIndex < |keys.pubkeys| && ValidObservation(o)
    && var k := keys.pubkeys[o.publisherIndex];
       k in w ==> Asked(e.crypto, w[k], ObservationHash(e.crypto, o))
  }

  ghost predicate Filed(
      e: Committee, w: World, keys: PublisherSet, tick: u64, observations: map<u8, SignedObservation>) {
    forall i :: i in observations ==>
      var o := observations[i].observation;
      o.publisherIndex == i && o.tickMs == tick && Genuine(e, w, keys, o)
  }

  ghost predicate AllFiled(e: Committee, w: World, keys: PublisherSet, memory: Memory) {
    forall t :: t in memory ==> Filed(e, w, keys, t, memory[t].observations)
  }

  /** No handler but the two that file observations touches them. */
  predicate SameObservations(before: Memory, after: Memory) {
    before.Keys <= after.Keys && forall t :: t in after ==> after[t].observations == TickOf(before, t).observations
  }

  lemma ReplacingFilesNothing(memory: Memory, tick: u64, st: TickState)
    requires st.observations == TickOf(memory, tick).observations
    ensures SameObservations(memory, memory[tick := st])
  {
  }

  lemma FilesNothingTwice(a: Memory, b: Memory, c: Memory)
    requires SameObservations(a, b) && SameObservations(b, c)
    ensures SameObservations(a, c)
  {
  }

  lemma SignatureFilesNothing(
      setup: Setup, memory: Memory, store: State, from: u8, tick: u64, headerHash: Digest, signature: Signature)
    requires SetFits(setup)
    ensures SameObservations(memory, OnSignature(setup, memory, store, from, tick, headerHash, signature).memory)
  {
    var st := TickOf(memory, tick);
    if from < N(setup) && setup.crypto.valid(headerHash, signature, setup.current.pubkeys[from]) {
      if st.finalized {
        SharingFilesNothing(setup, memory, store, from, tick);
      } else {
        var byHeader: map<u8, Signature> := if headerHash in st.signatures then st.signatures[headerHash] else map[];
        var recorded := st.(signatures := st.signatures[headerHash := byHeader[from := signature]]);
        ReplacingFilesNothing(memory, tick, recorded);
        FinalizingFilesNothing(setup, memory[tick := recorded], store, tick, headerHash);
        FilesNothingTwice(memory, memory[tick := recorded],
            TryFinalize(setup, memory[tick := recorded], store, tick, headerHash).0);
      }
    }
  }

  lemma FinalizingFilesNothing(setup: Setup, memory: Memory, store: State, tick: u64, headerHash: Digest)
    requires SetFits(setup)
    ensures SameObservations(memory, TryFinalize(setup, memory, store, tick, headerHash).0)
  {
    var marked := FinalizingMarks(setup, memory, store, tick, headerHash);
    ReplacingFilesNothing(memory, tick, marked);
  }

  lemma AcceptingFilesNothing(setup: Setup, memory: Memory, store: State, blob: Bytes)
    ensures SameObservations(memory, AcceptFinalized(setup, memory, store, blob).0)
  {
    var u := DecodeUpdate(blob);
    if u.Some? {
      var tick := u.value.header.publishTimeMs;
      ReplacingFilesNothing(memory, tick, TickOf(memory, tick).(finalized := true));
    }
  }

  lemma SigningFilesNothing(
      setup: Setup, memory: Memory, store: State, active: ActiveConfig, tick: u64, st: TickState, d: Derived)
    requires SetFits(setup) && st.observations == TickOf(memory, tick).observations
    ensures SameObservations(memory, SignDerived(setup, memory, store, active, tick, st, d).memory)
  {
    var derived := st.(derived := st.derived[d.headerHash := d]);
    ReplacingFilesNothing(memory, tick, derived);
    FinalizingFilesNothing(setup, memory[tick := derived], store, tick, d.headerHash);
    FilesNothingTwice(memory, memory[tick := derived],
        TryFinalize(setup, memory[tick := derived], store, tick, d.headerHash).0);
    SigningKeepsRows(setup, memory, store, active, tick, st, d);
  }

  lemma ConsideringFilesNothing(
      setup: Setup, memory: Memory, store: State, active: ActiveConfig, from: u8, p: SignedProposal)
    requires SetFits(setup)
    ensures SameObservations(memory, ConsiderProposal(setup, memory, store, active, from, p).memory)
  {
    var tick, chosen := p.body.tickMs, p.body.chosen;
    var st := Remember(TickOf(memory, tick), p);
    NoneMissing(chosen, st.observations);
    ReplacingFilesNothing(memory, tick, st);
    if Missing(chosen, st.observations) != [] {
      ReplacingFilesNothing(memory, tick, st.(pending := st.pending + [(from, p)]));
    } else {
      var observations := ChosenObservations(chosen, st.observations);
      var derived := Derive(setup, store.feeds, tick, active, observations);
      if HashesMatch(setup.crypto, chosen, observations) && derived.Some? {
        SigningFilesNothing(setup, memory, store, active, tick, st, derived.value);
      }
    }
  }

  lemma SharingFilesNothing(setup: Setup, memory: Memory, store: State, to: u8, tick: u64)
    ensures SameObservations(memory, ShareFinalized(setup, memory, store, to, tick).0)
  {
  }

  lemma CreatingFilesNothing(memory: Memory, tick: u64)
    ensures SameObservations(memory, memory) && SameObservations(memory, memory[tick := TickOf(memory, tick)])
  {
  }

  lemma ProposalFilesNothing(setup: Setup, memory: Memory, store: State, from: u8, p: SignedProposal, now: int)
    requires SetFits(setup) && |p.body.chosen| < 256
    ensures SameObservations(memory, OnProposal(setup, memory, store, from, p, now).memory)
  {
    var tick, schedule := p.body.tickMs, setup.schedule(p.body.tickMs);
    CreatingFilesNothing(memory, tick);
    if schedule.Some? {
      if TickOf(memory, tick).finalized {
        SharingFilesNothing(setup, memory, store, from, tick);
      } else {
        ConsideringFilesNothing(setup, memory, store, schedule.value, from, p);
      }
    }
  }

  lemma StaysFiled(e: Committee, w: World, keys: PublisherSet, before: Memory, after: Memory)
    requires AllFiled(e, w, keys, before) && SameObservations(before, after)
    ensures AllFiled(e, w, keys, after)
  {
    forall t | t in after ensures Filed(e, w, keys, t, after[t].observations) {
      if t in before { assert Filed(e, w, keys, t, before[t].observations); }
    }
  }

  /** A relayed observation is kept only with its author's signature on it. */
  lemma ObservationIsFiled(e: Committee, w: World, setup: Setup, memory: Memory, s: SignedObservation)
    requires GoodSetup(e, setup) && AllFiled(e, w, setup.current, memory)
    requires ValidObservation(s.observation) ==> Issued(e, w, ObservationHash(e.crypto, s.observation), s.signature)
    ensures AllFiled(e, w, setup.current, OnObservation(setup, memory, s).0)
  {
    if Acceptable(setup, s) { assert Genuine(e, w, setup.current, s.observation); }
  }

  lemma OwnIsFiled(e: Committee, w: World, who: PubKey, p: Publisher, own: SignedObservation)
    requires who in w && w[who] == p && GoodCommittee(e) && GoodSetup(e, p.setup)
    requires AllFiled(e, w, p.setup.current, p.memory) && OwnObservation(e, who, p, own.observation)
    ensures AllFiled(e, w, p.setup.current, RecordedOwn(p.memory, own))
  {
    assert Genuine(e, w, p.setup.current, own.observation);
  }

  // ----- the first observation stays

  /** The observation an author has on file for a tick. */
  function OnFile(memory: Memory, tick: u64, author: u8): Option<SignedObservation> {
    var observations := TickOf(memory, tick).observations;
    if author in observations then Some(observations[author]) else None
  }

  /** The observation is this committee's, for the configuration of its tick and the current set, and signed by
      the member it names. */
  ghost predicate ByMember(setup: Setup, s: SignedObservation) {
    var o := s.observation;
    && ValidObservation(o) && o.publisherSetTypeHash == setup.typeHash && o.setIndex == setup.current.setIndex
    && (exists active :: setup.schedule(o.tickMs) == Some(active) && active.hash == o.configHash)
    && exists k :: 0 <= k < |setup.current.pubkeys| && k == o.publisherIndex
                   && setup.crypto.valid(ObservationHash(setup.crypto, o), s.signature, setup.current.pubkeys[k])
  }

  /** The first observation by a member is filed as it came, and hands back the proposals that waited for one;
      nothing else is filed or handed back. */
  lemma FiledIff(setup: Setup, memory: Memory, s: SignedObservation)
    ensures var (after, retry) := OnObservation(setup, memory, s);
            var tick, author := s.observation.tickMs, s.observation.publisherIndex;
            var isNew := ByMember(setup, s) && OnFile(memory, tick, author).None?;
            OnFile(after, tick, author) == (if isNew then Some(s) else OnFile(memory, tick, author))
            && retry == (if isNew then TickOf(memory, tick).pending else [])
            && forall t: u64, a: u8 :: (t, a) != (tick, author) ==> OnFile(after, t, a) == OnFile(memory, t, a)
  {
  }

  /** The moves that may replace what an author has on file: being that author, dropping old ticks, dying. */
  predicate Refiles(event: Event, author: u8) {
    event.PruneTicks? || event.Restart? || event.CrashBeforeSigning?
    || (event.RecordOwn? && event.own.observation.publisherIndex == author)
  }

  lemma FiledStays(before: Memory, after: Memory, tick: u64, author: u8)
    requires SameObservations(before, after) && OnFile(before, tick, author).Some?
    ensures OnFile(after, tick, author) == OnFile(before, tick, author)
  {
  }

  lemma FiledStep(p: Publisher, event: Event, tick: u64, author: u8)
    requires SetFits(p.setup) && (event.GetProposal? ==> |event.proposal.body.chosen| < 256)
    requires !Refiles(event, author) && OnFile(p.memory, tick, author).Some?
    ensures OnFile(After(p, event).memory, tick, author) == OnFile(p.memory, tick, author)
  {
    match event
    case GetProposal(from, proposal) =>
      ProposalFilesNothing(p.setup, p.memory, p.store, from, proposal, p.clock);
      FiledStays(p.memory, OnProposal(p.setup, p.memory, p.store, from, proposal, p.clock).memory, tick, author);
    case GetSignature(from, t, headerHash, signature) =>
      SignatureFilesNothing(p.setup, p.memory, p.store, from, t, headerHash, signature);
      FiledStays(p.memory, OnSignature(p.setup, p.memory, p.store, from, t, headerHash, signature).memory, tick,
          author);
    case GetFinalized(blob) =>
      AcceptingFilesNothing(p.setup, p.memory, p.store, blob);
      FiledStays(p.memory, AcceptFinalized(p.setup, p.memory, p.store, blob).0, tick, author);
    case _ =>
  }

  /** An author that sends two observations of a tick is heard once: while the process lives and keeps the
      tick, what it has on file never changes. */
  lemma {:induction false} FirstObservationStays(
      e: Committee, worlds: seq<World>, moves: seq<Move>, i: nat, j: nat, k: PubKey, tick: u64, author: u8)
    requires Run(e, worlds, moves) && i <= j < |worlds| && k in worlds[i]
    requires OnFile(worlds[i][k].memory, tick, author).Some?
    requires forall x :: i <= x < j && moves[x].who == k ==> !Refiles(moves[x].event, author)
    ensures k in worlds[j] && OnFile(worlds[j][k].memory, tick, author) == OnFile(worlds[i][k].memory, tick, author)
    decreases j
  {
    if i < j {
      FirstObservationStays(e, worlds, moves, i, j - 1, k, tick, author);
      assert StepAt(e, worlds, moves, j - 1);
      if k == moves[j - 1].who { FiledStep(worlds[j - 1][k], moves[j - 1].event, tick, author); }
    }
  }

  // ----- what a signed header stands for

  /** The message is the median of at least a quorum of the observations. */
  ghost predicate Aggregated(m: Message, observations: seq<Observation>, quorum: nat) {
    var entries := AllEntries(observations, m.feedId);
    |entries| >= quorum && entries != []
    && m.price == Median(Prices(entries)) && m.conf == Median(Confs(entries))
    && m.sourceTimeMs == Median(SourceTimes(entries))
    && m.numPublishers == |entries|
  }

  /** The header's root and count are over exactly these messages. */
  ghost predicate Covers(c: Crypto, h: Header, messages: seq<Message>) {
    messages != [] && DistinctFeeds(messages) && h.merkleRoot == Root(c, Leaves(c, messages))
    && h.leafCount == |messages|
  }

  /** The header's root is over exactly these messages, each aggregated from these observations, which are
      genuine, of this tick, at least a quorum, and from different members. */
  ghost predicate Witnessed(e: Committee, w: World, h: Header, observations: seq<Observation>, messages: seq<Message>) {
    var keys := e.sets(h.setIndex);
    && |observations| >= Quorum(keys) && ChosenWell(observations)
    && (forall o :: o in observations ==> Genuine(e, w, keys, o) && o.tickMs == h.publishTimeMs)
    && Covers(e.crypto, h, messages) && forall m :: m in messages ==> Aggregated(m, observations, Quorum(keys))
  }

  ghost predicate Attested(e: Committee, w: World, h: Header) {
    exists observations, messages :: Witnessed(e, w, h, observations, messages)
  }

  predicate DraftFrom(d: Draft, observations: seq<Observation>, quorum: nat) {
    var entries := AllEntries(observations, d.feedId);
    |entries| >= quorum && entries != []
    && d.price == Median(Prices(entries)) && d.conf == Median(Confs(entries))
    && d.sourceTimeMs == Median(SourceTimes(entries))
    && d.numPublishers == |entries|
  }

  lemma {:induction false} DraftsFrom(
      feeds: seq<FeedConfig>, observations: seq<Observation>, quorum: nat, tickMs: u64, states: FeedStates)
    requires quorum > 0 && AggregateMessages(feeds, observations, quorum, tickMs, states).Some?
    ensures forall d ::
        d in AggregateMessages(feeds, observations, quorum, tickMs, states).value ==> DraftFrom(d, observations, quorum)
  {
    if feeds != [] { DraftsFrom(feeds[..|feeds| - 1], observations, quorum, tickMs, states); }
  }

  lemma {:induction false} AggregatedMessages(
      c: Crypto, observations: seq<Observation>, quorum: nat, drafts: seq<Draft>, messages: seq<Message>, m: Message)
    requires forall d :: d in drafts ==> DraftFrom(d, observations, quorum) && Fits(d)
    requires |messages| == |drafts| && forall k :: 0 <= k < |drafts| ==> messages[k] == ToMessage(drafts[k])
    requires SortedMessages(messages).Some? && m in SortedMessages(messages).value
    ensures Aggregated(m, observations, quorum)
  {
    SortMembers(FeedIdLe, messages, m);
    var k :| 0 <= k < |messages| && messages[k] == m;
    assert drafts[k] in drafts;
  }

  function DraftMessages(drafts: seq<Draft>): (r: seq<Message>)
    requires forall k :: 0 <= k < |drafts| ==> Fits(drafts[k])
    ensures |r| == |drafts| && forall k :: 0 <= k < |r| ==> r[k] == ToMessage(drafts[k])
  {
    seq(|drafts|, k requires 0 <= k < |drafts| => ToMessage(drafts[k]))
  }

  lemma AssembledCovers(
      c: Crypto, committee: Bytes32, setIndex: u32, tick: u64, period: u32, configHash: Bytes32,
      messages: seq<Message>)
    requires Assemble(c, committee, setIndex, tick, period, configHash, messages).Some?
    ensures SortedMessages(messages).Some?
    ensures Covers(c, Assemble(c, committee, setIndex, tick, period, configHash, messages).value.0,
        SortedMessages(messages).value)
  {
    SortedMessagesDistinct(messages);
  }

  /** The messages under a derived header: the drafts, in the order of their feeds. */
  lemma DerivedMessages(
      setup: Setup, feeds: FeedStates, tick: u64, active: ActiveConfig, observations: seq<Observation>)
      returns (sorted: seq<Message>)
    requires Derive(setup, feeds, tick, active, observations).Some? && Quorum(setup.current) > 0
    ensures Covers(setup.crypto, Derive(setup, feeds, tick, active, observations).value.header, sorted)
    ensures forall m :: m in sorted ==> Aggregated(m, observations, Quorum(setup.current))
  {
    var quorum := Quorum(setup.current);
    var drafts := AggregateMessages(active.feeds, observations, quorum, tick, feeds).value;
    var messages := DraftMessages(drafts);
    DraftsFrom(active.feeds, observations, quorum, tick, feeds);
    AssembledCovers(setup.crypto, setup.typeHash, setup.current.setIndex, tick, active.tickPeriodMs, active.hash,
        messages);
    sorted := SortedMessages(messages).value;
    forall m | m in sorted ensures Aggregated(m, observations, quorum) {
      AggregatedMessages(setup.crypto, observations, quorum, drafts, messages, m);
    }
  }

  /** What a publisher derives itself is witnessed by the observations it derived it from. */
  lemma DerivedIsWitnessed(
      e: Committee, w: World, setup: Setup, feeds: FeedStates, tick: u64, active: ActiveConfig,
      observations: seq<Observation>)
    requires GoodCommittee(e) && GoodSetup(e, setup) && Derive(setup, feeds, tick, active, observations).Some?
    requires |observations| >= Quorum(setup.current) && ChosenWell(observations)
    requires forall o :: o in observations ==> Genuine(e, w, setup.current, o) && o.tickMs == tick
    ensures Attested(e, w, Derive(setup, feeds, tick, active, observations).value.header)
  {
    var sorted := DerivedMessages(setup, feeds, tick, active, observations);
    assert Witnessed(e, w, Derive(setup, feeds, tick, active, observations).value.header, observations, sorted);
  }

  lemma ChosenAreWell(
      e: Committee, w: World, setup: Setup, tick: u64, observed: map<u8, SignedObservation>, chosen: seq<Chosen>)
    requires Filed(e, w, setup.current, tick, observed) && AscendingIndexes(chosen, N(setup))
    requires forall k :: 0 <= k < |chosen| ==> chosen[k].index in observed
    ensures ChosenWell(ChosenObservations(chosen, observed))
    ensures forall o ::
        o in ChosenObservations(chosen, observed) ==> Genuine(e, w, setup.current, o) && o.tickMs == tick
  {
    var r := ChosenObservations(chosen, observed);
    forall i, j | 0 <= i < j < |r| ensures r[i].publisherIndex != r[j].publisherIndex {
      ChosenAscend(chosen, N(setup), i, j);
    }
    forall i | 0 <= i < |r| ensures DistinctEntries(r[i]) { SortedMeansDistinct(r[i]); }
  }

  lemma SortedMeansDistinct(o: Observation)
    requires ValidObservation(o)
    ensures DistinctEntries(o)
  {
    forall i, j | 0 <= i < j < |o.entries| ensures o.entries[i].feedId != o.entries[j].feedId {
      SortedIsDistinct(o.entries, i, j);
    }
  }

  lemma SignedIsAttested(
      e: Committee, w: World, setup: Setup, memory: Memory, store: State, from: u8, p: SignedProposal, now: int)
    requires GoodCommittee(e) && GoodSetup(e, setup) && AllFiled(e, w, setup.current, memory) && |p.body.chosen| < 256
    requires OnProposal(setup, memory, store, from, p, now).sign.Some?
    ensures Attested(e, w, OnProposal(setup, memory, store, from, p, now).sign.value)
  {
    var tick, chosen := p.body.tickMs, p.body.chosen;
    var active, st := setup.schedule(tick).value, Remember(TickOf(memory, tick), p);
    NoneMissing(chosen, st.observations);
    var observations := ChosenObservations(chosen, st.observations);
    assert Filed(e, w, setup.current, tick, st.observations);
    ChosenAreWell(e, w, setup, tick, st.observations, chosen);
    DerivedIsWitnessed(e, w, setup, store.feeds, tick, active, observations);
  }

  // ----- over whole runs

  ghost predicate AttestInvariant(e: Committee, w: World, p: Publisher) {
    GoodSetup(e, p.setup) && AllFiled(e, w, p.setup.current, p.memory)
    && forall h :: h in p.headers ==> Attested(e, w, h)
  }

  lemma ProposalAttests(e: Committee, w: World, p: Publisher, from: u8, proposal: SignedProposal)
    requires GoodCommittee(e) && AttestInvariant(e, w, p) && |proposal.body.chosen| < 256
    ensures AttestInvariant(e, w, After(p, GetProposal(from, proposal)))
  {
    var o := OnProposal(p.setup, p.memory, p.store, from, proposal, p.clock);
    ProposalFilesNothing(p.setup, p.memory, p.store, from, proposal, p.clock);
    StaysFiled(e, w, p.setup.current, p.memory, o.memory);
    if o.sign.Some? { SignedIsAttested(e, w, p.setup, p.memory, p.store, from, proposal, p.clock); }
  }

  lemma AttestStep(e: Committee, w: World, m: Move)
    requires GoodCommittee(e) && Allowed(e, w, m) && AttestInvariant(e, w, w[m.who])
    ensures AttestInvariant(e, w, After(w[m.who], m.event))
  {
    var p := w[m.who];
    match m.event
    case GetProposal(from, proposal) => ProposalAttests(e, w, p, from, proposal);
    case GetSignature(from, tick, headerHash, signature) =>
      SignatureFilesNothing(p.setup, p.memory, p.store, from, tick, headerHash, signature);
      QuietStep(e, w, p, OnSignature(p.setup, p.memory, p.store, from, tick, headerHash, signature).memory,
          After(p, m.event));
    case GetFinalized(blob) =>
      AcceptingFilesNothing(p.setup, p.memory, p.store, blob);
      QuietStep(e, w, p, AcceptFinalized(p.setup, p.memory, p.store, blob).0, After(p, m.event));
    case GetObservation(signed) => ObservationIsFiled(e, w, p.setup, p.memory, signed);
    case RecordOwn(own) => OwnIsFiled(e, w, m.who, p, own);
    case _ =>
  }

  lemma QuietStep(e: Committee, w: World, p: Publisher, memory: Memory, after: Publisher)
    requires AttestInvariant(e, w, p) && SameObservations(p.memory, memory)
    requires after.setup == p.setup && after.memory == memory && after.headers == p.headers
    ensures AttestInvariant(e, w, after)
  {
    StaysFiled(e, w, p.setup.current, p.memory, memory);
  }

  lemma AskedLater(e: Committee, before: World, after: World, k: PubKey, digest: Digest)
    requires Later(before, after) && k in before && Asked(e.crypto, before[k], digest)
    ensures Asked(e.crypto, after[k], digest)
  {
    var x :| x in AskedPreimages(before[k]) && e.crypto.hash(x) == digest;
    assert x in AskedPreimages(after[k]);
  }

  lemma GenuineLater(e: Committee, before: World, after: World, keys: PublisherSet, o: Observation)
    requires Later(before, after) && Genuine(e, before, keys, o)
    ensures Genuine(e, after, keys, o)
  {
    var k := keys.pubkeys[o.publisherIndex];
    if k in after { AskedLater(e, before, after, k, ObservationHash(e.crypto, o)); }
  }

  lemma AttestedLater(e: Committee, before: World, after: World, h: Header)
    requires Later(before, after) && Attested(e, before, h)
    ensures Attested(e, after, h)
  {
    var observations, messages :| Witnessed(e, before, h, observations, messages);
    forall o | o in observations ensures Genuine(e, after, e.sets(h.setIndex), o) {
      GenuineLater(e, before, after, e.sets(h.setIndex), o);
    }
    assert Witnessed(e, after, h, observations, messages);
  }

  lemma InvariantLater(e: Committee, before: World, after: World, p: Publisher)
    requires Later(before, after) && AttestInvariant(e, before, p)
    ensures AttestInvariant(e, after, p)
  {
    forall t | t in p.memory ensures Filed(e, after, p.setup.current, t, p.memory[t].observations) {
      forall i | i in p.memory[t].observations
          ensures Genuine(e, after, p.setup.current, p.memory[t].observations[i].observation) {
        GenuineLater(e, before, after, p.setup.current, p.memory[t].observations[i].observation);
      }
    }
    forall h | h in p.headers ensures Attested(e, after, h) { AttestedLater(e, before, after, h); }
  }

  lemma {:induction false} AlwaysAttested(e: Committee, worlds: seq<World>, moves: seq<Move>, i: nat, k: PubKey)
    requires Run(e, worlds, moves) && i < |worlds| && k in worlds[i]
    ensures AttestInvariant(e, worlds[i], worlds[i][k])
  {
    if i > 0 {
      assert StepAt(e, worlds, moves, i - 1);
      StepIsLater(e, worlds[i - 1], moves[i - 1], worlds[i]);
      AlwaysAttested(e, worlds, moves, i - 1, k);
      if k == moves[i - 1].who { AttestStep(e, worlds[i - 1], moves[i - 1]); }
      InvariantLater(e, worlds[i - 1], worlds[i], worlds[i][k]);
    }
  }

  /** A header with a quorum of signatures was signed by an honest publisher, so it is attested. */
  lemma QuorumIsAttested(e: Committee, worlds: seq<World>, moves: seq<Move>, h: Header, signatures: Bundle)
    requires Run(e, worlds, moves) && FewFaulty(worlds[|moves|], e.sets(h.setIndex))
    requires Threshold(e.crypto, signatures, SigningHash(e.crypto, h), e.sets(h.setIndex))
    requires BundleIssued(e, worlds[|moves|], SigningHash(e.crypto, h), signatures)
    requires CollisionFree(e.crypto, Preimages(worlds[|moves|], h, h))
    ensures Attested(e, worlds[|moves|], h)
  {
    var w, s := worlds[|moves|], e.sets(h.setIndex);
    var signers := ThresholdMeansQuorum(e.crypto, signatures, SigningHash(e.crypto, h), s);
    var k := QuorumsIntersect(s, w.Keys, signers, signers);
    AlwaysGuarded(e, worlds, moves, |moves|, k);
    AlwaysAttested(e, worlds, moves, |moves|, k);
    CollisionFreeSubset(e.crypto, Preimages(w, h, h), AskedPreimages(w[k]) + {SigningPreimage(h)});
    AskedMeansSigned(e, w[k], h);
  }

  // ----- the prices

  ghost function FaultyIndexes(w: World, s: PublisherSet): set<nat> {
    set i: nat | i < |s.pubkeys| && s.pubkeys[i] !in w
  }

  ghost function KeysAt(s: PublisherSet, indexes: set<nat>): set<PubKey>
    requires forall i :: i in indexes ==> i < |s.pubkeys|
  {
    set i | i in indexes :: s.pubkeys[i]
  }

  lemma {:induction false} KeysOfIndexes(s: PublisherSet, indexes: set<nat>)
    requires ValidSet(s) && forall i :: i in indexes ==> i < |s.pubkeys|
    ensures |KeysAt(s, indexes)| == |indexes|
    decreases |indexes|
  {
    if indexes == {} {
      assert KeysAt(s, indexes) == {};
    } else {
      var i :| i in indexes;
      var rest := indexes - {i};
      KeysOfIndexes(s, rest);
      forall j | j in rest ensures s.pubkeys[j] != s.pubkeys[i] {
        if s.pubkeys[j] == s.pubkeys[i] { KeysDistinct(s, i, j); }
      }
      assert KeysAt(s, indexes) == KeysAt(s, rest) + {s.pubkeys[i]};
    }
  }

  lemma FewFaultyIndexes(w: World, s: PublisherSet)
    requires ValidSet(s) && FewFaulty(w, s)
    ensures |FaultyIndexes(w, s)| <= |s.pubkeys| - Quorum(s)
  {
    var faulty := FaultyIndexes(w, s);
    KeysOfIndexes(s, faulty);
    SubsetCount(KeysAt(s, faulty), KeySet(s) - w.Keys);
  }

  /** Aggregated from the observations, and within every range that holds their honest values. */
  ghost predicate HonestEntry(e: Committee, w: World, h: Header, observations: seq<Observation>, m: Message) {
    Aggregated(m, observations, Quorum(e.sets(h.setIndex)))
    && forall r: Ranges ::
        HonestWithin(observations, FaultyIndexes(w, e.sets(h.setIndex)), m.feedId, r) ==>
            r.Hold(m.price, m.conf, m.sourceTimeMs)
  }

  /** A witnessed price lies between the least and the greatest that honest publishers observed and signed. */
  lemma WitnessedIsHonest(
      e: Committee, w: World, h: Header, observations: seq<Observation>, messages: seq<Message>, m: Message)
    requires GoodCommittee(e) && FewFaulty(w, e.sets(h.setIndex)) && Witnessed(e, w, h, observations, messages)
    requires m in messages
    ensures HonestEntry(e, w, h, observations, m)
  {
    var s := e.sets(h.setIndex);
    FewFaultyIndexes(w, s);
    forall r: Ranges | HonestWithin(observations, FaultyIndexes(w, s), m.feedId, r)
        ensures r.Hold(m.price, m.conf, m.sourceTimeMs) {
      MediansBetweenHonest(s, FaultyIndexes(w, s), m.feedId, observations, r);
    }
  }

  /** Every price proven in an update that gathered a quorum is honest: whoever relayed it, and whatever
      the faulty publishers proposed, observed or signed, each entry is the median of genuine observations
      by a quorum of different members, and lies in the range the honest ones among them signed. */
  lemma QuorumPricesAreHonest(
      e: Committee, worlds: seq<World>, moves: seq<Move>, u: Update)
      returns (observations: seq<Observation>, messages: seq<Message>)
    requires Run(e, worlds, moves) && FewFaulty(worlds[|moves|], e.sets(u.header.setIndex)) && AllProven(e.crypto, u)
    requires Threshold(e.crypto, u.signatures, SigningHash(e.crypto, u.header), e.sets(u.header.setIndex))
    requires BundleIssued(e, worlds[|moves|], SigningHash(e.crypto, u.header), u.signatures)
    requires CollisionFree(e.crypto, Preimages(worlds[|moves|], u.header, u.header))
    ensures Witnessed(e, worlds[|moves|], u.header, observations, messages)
    ensures CollisionFree(e.crypto, CheckedPreimages(e.crypto, messages, u.entries)) ==>
              forall i ::
                  0 <= i < |u.entries| ==> HonestEntry(e, worlds[|moves|], u.header, observations, u.entries[i].message)
  {
    var w := worlds[|moves|];
    QuorumIsAttested(e, worlds, moves, u.header, u.signatures);
    observations, messages :| Witnessed(e, w, u.header, observations, messages);
    if CollisionFree(e.crypto, CheckedPreimages(e.crypto, messages, u.entries)) {
      forall i | 0 <= i < |u.entries| ensures HonestEntry(e, w, u.header, observations, u.entries[i].message) {
        ProvenAreSigned(e.crypto, messages, u, i);
        WitnessedIsHonest(e, w, u.header, observations, messages, u.entries[i].message);
      }
    }
  }
}
