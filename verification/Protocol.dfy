/** Whole runs of a committee's publishers. */
module Protocol {
  // The network loses, repeats, reorders and invents frames; publishers crash, restart and prune; and some
  // publishers are under no control at all.

  import opened Aggregate
  import opened Assembly
  import opened Bytes
  import opened Hashing
  import opened Node
  import opened PriceUpdates
  import opened PublisherSets
  import opened Signatures
  import opened Store
  import opened Wire
  import opened Wrappers

  /** `sets` is what each set index means on chain; `lag` bounds every configuration's signing window. */
  datatype Committee = Committee(crypto: Crypto, typeHash: Bytes32, sets: u32 -> PublisherSet, lag: nat)

  /** An honest publisher. `headers` and `others` record everything its key was ever asked to sign. */
  datatype Publisher = Publisher(
    setup: Setup, memory: Memory, store: State, clock: int, headers: set<Header>, others: set<Bytes>)

  /** The honest publishers, by key. */
  type World = map<PubKey, Publisher>

  datatype Event =
    | GetProposal(from: u8, proposal: SignedProposal)
    | GetObservation(signed: SignedObservation)
    | GetSignature(from: u8, tick: u64, headerHash: Digest, signature: Signature)
    | GetFinalized(blob: Bytes)
    | RecordOwn(own: SignedObservation)
    | SignOther(preimage: Bytes)
    | Advance(now: int)
    | PruneTicks(keepMs: nat)
    | PruneStore(before: int)
    | LearnSet(keys: PublisherSet)
    | Restart(setup: Setup)
    /** The process died in the proposal handler before the signer was asked: after the guard row was
        written or, unless `reserved`, between the finalized row and the guard row. */
    | CrashBeforeSigning(from: u8, proposal: SignedProposal, reserved: bool, setup: Setup)

  datatype Move = Move(who: PubKey, event: Event)

  const PRICE_UPDATE_DOMAIN := 3

  /** Bytes hashed under any domain but the price update's: observations, proposals, hellos, governance. */
  ghost predicate OtherDomain(preimage: Bytes) {
    exists d: nat, x: Bytes :: d < |DOMAINS| && d != PRICE_UPDATE_DOMAIN && preimage == DOMAINS[d] + x
  }

  ghost function AskedPreimages(p: Publisher): set<Bytes> { (set h | h in p.headers :: SigningPreimage(h)) + p.others }

  ghost predicate Asked(c: Crypto, p: Publisher, digest: Digest) {
    exists x :: x in AskedPreimages(p) && c.hash(x) == digest
  }

  /** A signature by an honest key exists only over digests that key was asked to sign. */
  ghost predicate Issued(e: Committee, w: World, digest: Digest, signature: Signature) {
    forall k :: k in w && e.crypto.valid(digest, signature, k) ==> Asked(e.crypto, w[k], digest)
  }

  ghost predicate BundleIssued(e: Committee, w: World, digest: Digest, b: Bundle) {
    forall i :: 0 <= i < |b| ==> Issued(e, w, digest, b[i].signature)
  }

  ghost predicate GoodSetup(e: Committee, setup: Setup) {
    && setup.crypto == e.crypto && setup.typeHash == e.typeHash && setup.current == e.sets(setup.current.setIndex)
    && forall t: u64 :: setup.schedule(t).Some? ==> setup.schedule(t).value.maxSigningLagMs <= e.lag
  }

  ghost predicate GoodCommittee(e: Committee) { forall i: u32 :: ValidSet(e.sets(i)) && e.sets(i).setIndex == i }

  /** A publisher files its own observation after signing it, under the index of its own key. */
  ghost predicate OwnObservation(e: Committee, who: PubKey, p: Publisher, o: Observation) {
    && ValidObservation(o) && o.publisherIndex < N(p.setup) && p.setup.current.pubkeys[o.publisherIndex] == who
    && Asked(e.crypto, p, ObservationHash(e.crypto, o))
  }

  /** What the environment may do to a publisher: anything, except forge an honest signature, turn its
      clock back, prune inside the signing window, or start it with a key set the chain does not have. */
  ghost predicate Allowed(e: Committee, w: World, m: Move) {
    m.who in w
    && var p := w[m.who];
       match m.event
       case GetProposal(_, proposal) => |proposal.body.chosen| < 256
       case GetObservation(s) => ValidObservation(s.observation) ==>
           Issued(e, w, ObservationHash(e.crypto, s.observation), s.signature)
       case GetSignature(_, _, headerHash, signature) => Issued(e, w, headerHash, signature)
       case GetFinalized(blob) =>
         DecodeUpdate(blob).Some? ==>
             BundleIssued(e, w, SigningHash(e.crypto, DecodeUpdate(blob).value.header),
                 DecodeUpdate(blob).value.signatures)
       case RecordOwn(own) => OwnObservation(e, m.who, p, own.observation)
       case SignOther(preimage) => OtherDomain(preimage)
       case Advance(now) => now >= p.clock
       case PruneStore(before) => before <= p.clock - e.lag
       case LearnSet(keys) => keys == e.sets(keys.setIndex)
       case Restart(setup) => GoodSetup(e, setup)
       case CrashBeforeSigning(_, proposal, _, setup) => |proposal.body.chosen| < 256 && GoodSetup(e, setup)
       case _ => true
  }

  function RecordedOwn(memory: Memory, s: SignedObservation): Memory {
    var tick := s.observation.tickMs;
    var st := TickOf(memory, tick);
    memory[tick := st.(own := Some(s.observation), observations := st.observations[s.observation.publisherIndex := s])]
  }

  ghost function After(p: Publisher, event: Event): Publisher
    requires SetFits(p.setup)
    requires event.GetProposal? || event.CrashBeforeSigning? ==> |event.proposal.body.chosen| < 256
  {
    match event
    case GetProposal(from, proposal) =>
      var o := OnProposal(p.setup, p.memory, p.store, from, proposal, p.clock);
      p.(memory := o.memory, store := o.store, headers := p.headers + if o.sign.Some? then {o.sign.value} else {})
    case GetObservation(signed) => p.(memory := OnObservation(p.setup, p.memory, signed).0)
    case GetSignature(from, tick, headerHash, signature) =>
      var o := OnSignature(p.setup, p.memory, p.store, from, tick, headerHash, signature);
      p.(memory := o.memory, store := o.store)
    case GetFinalized(blob) =>
      var (memory, store) := AcceptFinalized(p.setup, p.memory, p.store, blob);
      p.(memory := memory, store := store)
    case RecordOwn(own) => p.(memory := RecordedOwn(p.memory, own))
    case SignOther(preimage) => p.(others := p.others + {preimage})
    case Advance(now) => p.(clock := now)
    case PruneTicks(keepMs) => p.(memory := PruneMemory(p.memory, p.clock - keepMs))
    case PruneStore(before) => p.(store := Pruned(p.store, before))
    case LearnSet(keys) => p.(store := WithKeySet(p.store, keys))
    case Restart(setup) => p.(setup := setup, memory := map[])
    case CrashBeforeSigning(from, proposal, reserved, setup) =>
      var left := OnProposal(p.setup, p.memory, p.store, from, proposal, p.clock).store;
      p.(store := if reserved then left else left.(signed := p.store.signed), setup := setup, memory := map[])
  }

  // ----- the invariants

  /** Every header ever signed is still guarded, or its tick has left the signing window for good. */
  ghost predicate Guarded(e: Committee, p: Publisher) {
    forall h :: h in p.headers ==>
      Holds(p.store.signed, h.publishTimeMs, SigningHash(e.crypto, h)) || h.publishTimeMs < p.clock - e.lag
  }

  predicate Holds(signed: Table<Digest>, tick: u64, d: Digest) { tick in signed && signed[tick] == d }

  /** One header hash per tick, over the publisher's whole life. */
  ghost predicate OnePerTick(e: Committee, p: Publisher) {
    forall g, h ::
        g in p.headers && h in p.headers && g.publishTimeMs == h.publishTimeMs ==>
            SigningHash(e.crypto, g) == SigningHash(e.crypto, h)
  }

  ghost predicate OthersSeparate(p: Publisher) { forall x :: x in p.others ==> OtherDomain(x) }

  ghost predicate GuardInvariant(e: Committee, p: Publisher) {
    GoodSetup(e, p.setup) && Guarded(e, p) && OnePerTick(e, p) && OthersSeparate(p)
  }

  // ----- what a proposal can do to the guard

  predicate Extends(before: Table<Digest>, after: Table<Digest>) {
    forall t :: t in before ==> t in after && after[t] == before[t]
  }

  lemma FinalizingKeepsGuard(setup: Setup, memory: Memory, store: State, tick: u64, headerHash: Digest)
    requires SetFits(setup)
    ensures TryFinalize(setup, memory, store, tick, headerHash).1.signed == store.signed
    ensures TryFinalize(setup, memory, store, tick, headerHash).1.keySets == store.keySets
  {
  }

  /** Past the attempt to finalize, only the guard table changes. */
  lemma SigningKeepsRows(
      setup: Setup, memory: Memory, store: State, active: ActiveConfig, tick: u64, st: TickState, d: Derived)
    requires SetFits(setup)
    ensures var o := SignDerived(setup, memory, store, active, tick, st, d);
            var tried :=
              TryFinalize(setup, memory[tick := st.(derived := st.derived[d.headerHash := d])], store, tick,
                  d.headerHash);
            o.memory == tried.0 && o.store == tried.1.(signed := o.store.signed)
  {
  }

  /** A header is handed to the signer only inside the window, and only once it holds the tick's guard row. */
  lemma SigningIsGuarded(setup: Setup, memory: Memory, store: State, from: u8, p: SignedProposal, now: int)
    requires SetFits(setup) && |p.body.chosen| < 256
    ensures var o := OnProposal(setup, memory, store, from, p, now);
            Extends(store.signed, o.store.signed)
            && (o.sign.Some? ==>
                  var h := o.sign.value;
                  h.publishTimeMs == p.body.tickMs && h.publisherSetTypeHash == setup.typeHash
                  && h.setIndex == setup.current.setIndex
                  && Holds(o.store.signed, h.publishTimeMs, SigningHash(setup.crypto, h))
                  && setup.schedule(h.publishTimeMs).Some?
                  && h.publishTimeMs >= now - setup.schedule(h.publishTimeMs).value.maxSigningLagMs)
  {
    var schedule, st := setup.schedule(p.body.tickMs), TickOf(memory, p.body.tickMs);
    if schedule.Some? && !st.finalized && !Passed(store, p.body.tickMs)
        && CheckProposal(setup, store, schedule.value, p, now).Consider? {
      ConsideredIsGuarded(setup, memory, store, schedule.value, from, p);
    }
  }

  lemma DerivedIsGuarded(
      setup: Setup, memory: Memory, store: State, active: ActiveConfig, tick: u64, st: TickState, d: Derived)
    requires SetFits(setup) && d.header.publishTimeMs == tick && d.headerHash == SigningHash(setup.crypto, d.header)
    ensures var o := SignDerived(setup, memory, store, active, tick, st, d);
            Extends(store.signed, o.store.signed)
            && (o.sign.Some? ==> o.sign == Some(d.header) && Holds(o.store.signed, tick, d.headerHash))
  {
    FinalizingKeepsGuard(setup, memory[tick := st.(derived := st.derived[d.headerHash := d])], store, tick,
        d.headerHash);
  }

  lemma ConsideredIsGuarded(
      setup: Setup, memory: Memory, store: State, active: ActiveConfig, from: u8, p: SignedProposal)
    requires SetFits(setup)
    ensures var o := ConsiderProposal(setup, memory, store, active, from, p);
            Extends(store.signed, o.store.signed)
            && (o.sign.Some? ==>
                  var h := o.sign.value;
                  h.publishTimeMs == p.body.tickMs && h.publisherSetTypeHash == setup.typeHash
                  && h.setIndex == setup.current.setIndex
                  && Holds(o.store.signed, h.publishTimeMs, SigningHash(setup.crypto, h)))
  {
    var tick, chosen := p.body.tickMs, p.body.chosen;
    var st := Remember(TickOf(memory, tick), p);
    NoneMissing(chosen, st.observations);
    if Missing(chosen, st.observations) == [] {
      var observations := ChosenObservations(chosen, st.observations);
      var derived := Derive(setup, store.feeds, tick, active, observations);
      if HashesMatch(setup.crypto, chosen, observations) && derived.Some? {
        DerivedIsGuarded(setup, memory, store, active, tick, st, derived.value);
      }
    }
  }

  lemma ProposalKeepsGuard(e: Committee, p: Publisher, from: u8, proposal: SignedProposal)
    requires GoodCommittee(e) && GuardInvariant(e, p) && |proposal.body.chosen| < 256
    ensures GuardInvariant(e, After(p, GetProposal(from, proposal)))
  {
    SigningIsGuarded(p.setup, p.memory, p.store, from, proposal, p.clock);
  }

  lemma CrashKeepsGuard(e: Committee, p: Publisher, from: u8, proposal: SignedProposal, reserved: bool, setup: Setup)
    requires GoodCommittee(e) && GuardInvariant(e, p) && GoodSetup(e, setup) && |proposal.body.chosen| < 256
    ensures GuardInvariant(e, After(p, CrashBeforeSigning(from, proposal, reserved, setup)))
  {
    SigningIsGuarded(p.setup, p.memory, p.store, from, proposal, p.clock);
  }

  lemma GuardStep(e: Committee, w: World, m: Move)
    requires GoodCommittee(e) && Allowed(e, w, m) && GuardInvariant(e, w[m.who])
    ensures GuardInvariant(e, After(w[m.who], m.event))
  {
    var p := w[m.who];
    match m.event
    case GetProposal(from, proposal) => ProposalKeepsGuard(e, p, from, proposal);
    case CrashBeforeSigning(from, proposal, reserved, setup) => CrashKeepsGuard(e, p, from, proposal, reserved, setup);
    case GetSignature(from, tick, headerHash, signature) =>
      SignatureKeepsGuard(p.setup, p.memory, p.store, from, tick, headerHash, signature);
    case _ =>
  }

  lemma SignatureKeepsGuard(
      setup: Setup, memory: Memory, store: State, from: u8, tick: u64, headerHash: Digest, signature: Signature)
    requires SetFits(setup)
    ensures var after := OnSignature(setup, memory, store, from, tick, headerHash, signature).store;
            after.signed == store.signed && after.keySets == store.keySets
  {
  }

  // ----- runs

  ghost predicate Start(e: Committee, w: World) {
    forall k ::
        k in w ==>
            GoodSetup(e, w[k].setup) && w[k].memory == map[] && w[k].store == EMPTY && w[k].headers == {}
            && w[k].others == {}
  }

  ghost predicate Step(e: Committee, before: World, m: Move, after: World) {
    Allowed(e, before, m) && SetFits(before[m.who].setup) && after == before[m.who := After(before[m.who], m.event)]
  }

  ghost predicate Run(e: Committee, worlds: seq<World>, moves: seq<Move>) {
    && GoodCommittee(e) && |worlds| == |moves| + 1 && Start(e, worlds[0])
    && forall i: nat :: i < |moves| ==> StepAt(e, worlds, moves, i)
  }

  ghost predicate StepAt(e: Committee, worlds: seq<World>, moves: seq<Move>, i: nat) {
    i < |moves| && i + 1 < |worlds| && Step(e, worlds[i], moves[i], worlds[i + 1])
  }

  lemma {:induction false} AlwaysGuarded(e: Committee, worlds: seq<World>, moves: seq<Move>, i: nat, k: PubKey)
    requires Run(e, worlds, moves) && i < |worlds| && k in worlds[i]
    ensures GuardInvariant(e, worlds[i][k])
  {
    if i > 0 {
      assert StepAt(e, worlds, moves, i - 1);
      AlwaysGuarded(e, worlds, moves, i - 1, k);
      if k == moves[i - 1].who { GuardStep(e, worlds[i - 1], moves[i - 1]); }
    }
  }

  /** Publishers stay, and what their keys were asked to sign only grows. */
  ghost predicate Later(before: World, after: World) {
    before.Keys == after.Keys && forall k :: k in before ==> AskedPreimages(before[k]) <= AskedPreimages(after[k])
  }

  lemma StepIsLater(e: Committee, before: World, m: Move, after: World)
    requires Step(e, before, m, after)
    ensures Later(before, after)
  {
  }

  // ----- one header per tick

  /** Everything the honest keys ever signed, and the two headers in question. */
  ghost function Preimages(w: World, a: Header, b: Header): set<Bytes> {
    (set k, x | k in w && x in AskedPreimages(w[k]) :: x) + {SigningPreimage(a), SigningPreimage(b)}
  }

  lemma OtherIsNotHeader(preimage: Bytes, h: Header)
    requires OtherDomain(preimage)
    ensures preimage != SigningPreimage(h)
  {
    var d: nat, x: Bytes :| d < |DOMAINS| && d != PRICE_UPDATE_DOMAIN && preimage == DOMAINS[d] + x;
    DomainsSeparate(d, PRICE_UPDATE_DOMAIN, x, EncodeHeader(h));
  }

  /** An honest key asked to sign a header's hash was asked to sign that header. */
  lemma AskedMeansSigned(e: Committee, p: Publisher, h: Header)
    requires OthersSeparate(p) && Asked(e.crypto, p, SigningHash(e.crypto, h))
    requires CollisionFree(e.crypto, AskedPreimages(p) + {SigningPreimage(h)})
    ensures h in p.headers
  {
    var x :| x in AskedPreimages(p) && e.crypto.hash(x) == SigningHash(e.crypto, h);
    assert x == SigningPreimage(h);
    if x in p.others {
      OtherIsNotHeader(x, h);
    } else {
      var g :| g in p.headers && x == SigningPreimage(g);
      SigningHashInjective(e.crypto, g, h);
    }
  }

  lemma HonestKeySignsOne(e: Committee, w: World, k: PubKey, a: Header, b: Header)
    requires k in w && GuardInvariant(e, w[k]) && a.publishTimeMs == b.publishTimeMs
    requires Asked(e.crypto, w[k], SigningHash(e.crypto, a)) && Asked(e.crypto, w[k], SigningHash(e.crypto, b))
    requires CollisionFree(e.crypto, Preimages(w, a, b))
    ensures a == b
  {
    CollisionFreeSubset(e.crypto, Preimages(w, a, b), AskedPreimages(w[k]) + {SigningPreimage(a)});
    CollisionFreeSubset(e.crypto, Preimages(w, a, b), AskedPreimages(w[k]) + {SigningPreimage(b)});
    CollisionFreeSubset(e.crypto, Preimages(w, a, b), {SigningPreimage(a), SigningPreimage(b)});
    AskedMeansSigned(e, w[k], a);
    AskedMeansSigned(e, w[k], b);
    SigningHashInjective(e.crypto, a, b);
  }

  /** Fewer publishers are beyond control than a quorum could lose. */
  ghost predicate FewFaulty(w: World, s: PublisherSet) { |KeySet(s) - w.Keys| <= |s.pubkeys| - Quorum(s) }

  /** Whatever the network, the crashes and the faulty publishers did: two headers of one tick that both
      gathered a quorum of one key set are the same header. */
  lemma OneHeaderPerTick(
      e: Committee, worlds: seq<World>, moves: seq<Move>, s: PublisherSet, a: Header, signedA: Bundle, b: Header,
      signedB: Bundle)
    requires Run(e, worlds, moves) && ValidSet(s) && FewFaulty(worlds[|moves|], s) && a.publishTimeMs == b.publishTimeMs
    requires Threshold(e.crypto, signedA, SigningHash(e.crypto, a), s)
    requires BundleIssued(e, worlds[|moves|], SigningHash(e.crypto, a), signedA)
    requires Threshold(e.crypto, signedB, SigningHash(e.crypto, b), s)
    requires BundleIssued(e, worlds[|moves|], SigningHash(e.crypto, b), signedB)
    requires CollisionFree(e.crypto, Preimages(worlds[|moves|], a, b))
    ensures a == b
  {
    var w := worlds[|moves|];
    var signersA := ThresholdMeansQuorum(e.crypto, signedA, SigningHash(e.crypto, a), s);
    var signersB := ThresholdMeansQuorum(e.crypto, signedB, SigningHash(e.crypto, b), s);
    var k := QuorumsIntersect(s, w.Keys, signersA, signersB);
    AlwaysGuarded(e, worlds, moves, |moves|, k);
    HonestKeySignsOne(e, w, k, a, b);
  }

  // ----- why pruning must stay behind the window

  /** A publisher that already reserved a header of the tick, pruned, and derives another: it signs the other
      exactly when the prune went past the tick and nothing else stops the handler. */
  lemma PruningForgets(
      setup: Setup, memory: Memory, store: State, before: int, active: ActiveConfig, tick: u64, st: TickState,
      g: Digest, d: Derived)
    requires SetFits(setup) && Holds(store.signed, tick, g) && g != d.headerHash
    ensures var pruned, derived := Pruned(store, before), memory[tick := st.(derived := st.derived[d.headerHash := d])];
            SignDerived(setup, memory, pruned, active, tick, st, d).sign == Some(d.header)
            <==> (tick < before && OwnAgrees(st.own, active.feeds, d.entries)
                  && TryFinalize(setup, derived, pruned, tick, d.headerHash).2)
  {
  }

  /** A signature over the digest by this key and by no other honest one. */
  ghost predicate OnlyBy(e: Committee, w: World, k: PubKey, digest: Digest, signature: Signature) {
    e.crypto.valid(digest, signature, k) && forall x :: x in w && e.crypto.valid(digest, signature, x) ==> x == k
  }

  lemma AloneIsQuorum(e: Committee, w: World, k: PubKey, s: PublisherSet, h: Header, signature: Signature)
    requires k in w && h in w[k].headers && s.pubkeys == [k]
    requires OnlyBy(e, w, k, SigningHash(e.crypto, h), signature)
    ensures Threshold(e.crypto, [IndexedSignature(0, signature)], SigningHash(e.crypto, h), s)
    ensures BundleIssued(e, w, SigningHash(e.crypto, h), [IndexedSignature(0, signature)])
  {
    assert SigningPreimage(h) in AskedPreimages(w[k]);
  }

  /** Two moves in a row, the first of them a prune. */
  ghost function PruneThenProposal(w: World, k: PubKey, before: int, from: u8, proposal: SignedProposal): World
    requires k in w && SetFits(w[k].setup) && |proposal.body.chosen| < 256
  {
    w[k := After(After(w[k], PruneStore(before)), GetProposal(from, proposal))]
  }

  /** Without the bound the protocol is not safe, whatever else holds. Take a committee of one honest
      publisher that signed a header, prunes, and is then led to sign another of the same tick: the prune
      went past the bound, and two headers of one tick each have a quorum, with nobody faulty and nothing
      forged. */
  lemma EarlyPruneSplits(
      e: Committee, w: World, k: PubKey, s: PublisherSet, g: Header, h: Header, before: int, from: u8,
      proposal: SignedProposal, signedG: Signature, signedH: Signature)
    requires GoodCommittee(e) && k in w && GuardInvariant(e, w[k]) && ValidSet(s) && s.pubkeys == [k]
    requires g in w[k].headers && Holds(w[k].store.signed, g.publishTimeMs, SigningHash(e.crypto, g))
    requires h.publishTimeMs == g.publishTimeMs && SigningHash(e.crypto, h) != SigningHash(e.crypto, g)
    requires |proposal.body.chosen| < 256
    requires h in PruneThenProposal(w, k, before, from, proposal)[k].headers
    requires OnlyBy(e, w, k, SigningHash(e.crypto, g), signedG) && OnlyBy(e, w, k, SigningHash(e.crypto, h), signedH)
    ensures g.publishTimeMs < before && !Allowed(e, w, Move(k, PruneStore(before)))
    ensures var after, a, b := PruneThenProposal(w, k, before, from, proposal),
              [IndexedSignature(0, signedG)], [IndexedSignature(0, signedH)];
            FewFaulty(after, s) && g != h
            && Threshold(e.crypto, a, SigningHash(e.crypto, g), s)
            && Threshold(e.crypto, b, SigningHash(e.crypto, h), s)
            && BundleIssued(e, after, SigningHash(e.crypto, g), a)
            && BundleIssued(e, after, SigningHash(e.crypto, h), b)
  {
    var pruned, after := After(w[k], PruneStore(before)), PruneThenProposal(w, k, before, from, proposal);
    SigningIsGuarded(pruned.setup, pruned.memory, pruned.store, from, proposal, pruned.clock);
    assert KeySet(s) - after.Keys == {};
    AloneIsQuorum(e, after, k, s, g, signedG);
    AloneIsQuorum(e, after, k, s, h, signedH);
  }
}
