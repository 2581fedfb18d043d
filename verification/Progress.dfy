/** A quorum of signatures is enough, whatever their order. */
module Progress {
  import opened Aggregate
  import opened Assembly
  import opened Averages
  import opened Bytes
  import opened Finality
  import opened Hashing
  import opened Node
  import opened PriceUpdates
  import opened Protocol
  import opened PublisherSets
  import opened Signatures
  import opened Store
  import opened Wire
  import opened Wrappers

  /** The members whose signatures over the digest are on file for the tick. */
  function Signers(p: Publisher, tick: u64, headerHash: Digest): set<u8> {
    var signatures := TickOf(p.memory, tick).signatures;
    if headerHash in signatures then signatures[headerHash].Keys else {}
  }

  /** Nothing stored at the tick or after it, and the tick not marked. */
  predicate Open(p: Publisher, tick: u64) {
    !TickOf(p.memory, tick).finalized && forall t :: t in p.store.finalized ==> t < tick
  }

  predicate HasDerived(p: Publisher, tick: u64, d: Derived) {
    var derived := TickOf(p.memory, tick).derived;
    d.headerHash in derived && derived[d.headerHash] == d
  }

  /** The tick is open, its header derived, and a quorum has not signed it yet. */
  ghost predicate Waiting(e: Committee, w: World, p: Publisher, tick: u64, d: Derived) {
    && GoodSetup(e, p.setup) && GoodMemory(e, w, p.setup, p.memory) && GoodRows(e, w, p.store)
    && Open(p, tick) && HasDerived(p, tick, d) && |d.entries| < 256
    && |Signers(p, tick, d.headerHash)| < Quorum(p.setup.current)
  }

  /** The tick's row holds the derived header and entries, and the tick is marked. */
  predicate Settled(p: Publisher, tick: u64, d: Derived) {
    && TickOf(p.memory, tick).finalized && HasRow(p, tick) && DecodeUpdate(p.store.finalized[tick]).Some?
    && DecodeUpdate(p.store.finalized[tick]).value.header == d.header
    && DecodeUpdate(p.store.finalized[tick]).value.entries == d.entries
  }

  /** The tick is settled, or still waits with exactly these members on file. */
  ghost predicate Decided(e: Committee, w: World, p: Publisher, tick: u64, d: Derived, members: set<u8>) {
    if |members| >= Quorum(p.setup.current) then Settled(p, tick, d)
    else Waiting(e, w, p, tick, d) && Signers(p, tick, d.headerHash) == members
  }

  lemma OpenIsNotPassed(p: Publisher, tick: u64)
    requires Open(p, tick)
    ensures !Passed(p.store, tick) && tick !in p.store.finalized
  {
  }

  lemma BundleFits(d: Derived, c: Crypto, bundle: Bundle)
    requires ProvesItself(c, d) && |d.entries| < 256 && |bundle| < 256
    ensures ValidBlob(ToBlob(UpdateFrom(d, bundle)))
  {
    forall i | 0 <= i < |d.entries| ensures ValidEntry(RawEntries(d.entries)[i]) {
      MessageFeedId(d.entries[i].message);
    }
  }

  lemma EnoughSettles(e: Committee, w: World, p: Publisher, tick: u64, d: Derived)
    requires GoodCommittee(e) && GoodSetup(e, p.setup) && GoodMemory(e, w, p.setup, p.memory)
    requires Open(p, tick) && HasDerived(p, tick, d) && |d.entries| < 256
    requires |Signers(p, tick, d.headerHash)| >= Quorum(p.setup.current)
    ensures var (memory, store, done) := TryFinalize(p.setup, p.memory, p.store, tick, d.headerHash);
            done && Settled(p.(memory := memory, store := store), tick, d)
  {
    OpenIsNotPassed(p, tick);
    var st := TickOf(p.memory, tick);
    assert GoodTick(e, w, p.setup, tick, st);
    QuorumHeld(e, w, p.setup.current, d.headerHash, st.signatures[d.headerHash]);
    var all := BundleOf(st.signatures[d.headerHash], N(p.setup));
    var u := UpdateFrom(d, if |all| > Quorum(p.setup.current) then all[..Quorum(p.setup.current)] else all);
    BundleFits(d, e.crypto, u.signatures);
    DecodeUpdateIffEncoded(EncodeBlob(ToBlob(u)), u);
  }

  lemma TooFewWaits(e: Committee, w: World, p: Publisher, tick: u64, d: Derived)
    requires Waiting(e, w, p, tick, d) && SetFits(p.setup)
    ensures var (memory, store, done) := TryFinalize(p.setup, p.memory, p.store, tick, d.headerHash);
            var after := p.(memory := memory, store := store);
            done && Waiting(e, w, after, tick, d)
            && Signers(after, tick, d.headerHash) == Signers(p, tick, d.headerHash)
  {
    TickUpdated(e, w, p.setup, p.memory, tick, TickOf(p.memory, tick));
  }

  /** What is on file decides an attempt to finalize an open tick. */
  lemma AttemptDecides(e: Committee, w: World, p: Publisher, tick: u64, d: Derived)
    requires GoodCommittee(e) && StoreInvariant(e, w, p)
    requires Open(p, tick) && HasDerived(p, tick, d) && |d.entries| < 256
    ensures var (memory, store, done) := TryFinalize(p.setup, p.memory, p.store, tick, d.headerHash);
            done && Decided(e, w, p.(memory := memory, store := store), tick, d, Signers(p, tick, d.headerHash))
  {
    if |Signers(p, tick, d.headerHash)| >= Quorum(p.setup.current) {
      EnoughSettles(e, w, p, tick, d);
    } else {
      TooFewWaits(e, w, p, tick, d);
    }
  }

  predicate SignatureBy(p: Publisher, headerHash: Digest, from: u8, signature: Signature) {
    from < N(p.setup) && p.setup.crypto.valid(headerHash, signature, p.setup.current.pubkeys[from])
  }

  lemma SignatureAttempts(
      e: Committee, w: World, p: Publisher, tick: u64, d: Derived, from: u8, signature: Signature)
      returns (q: Publisher)
    requires Waiting(e, w, p, tick, d) && SetFits(p.setup)
    requires SignatureBy(p, d.headerHash, from, signature) && Issued(e, w, d.headerHash, signature)
    ensures q == p.(memory := q.memory) && GoodMemory(e, w, p.setup, q.memory) && Open(q, tick)
    ensures HasDerived(q, tick, d)
    ensures Signers(q, tick, d.headerHash) == Signers(p, tick, d.headerHash) + {from}
    ensures var after := After(p, GetSignature(from, tick, d.headerHash, signature));
            var tried := TryFinalize(p.setup, q.memory, p.store, tick, d.headerHash);
            after == p.(memory := tried.0, store := tried.1)
  {
    var recorded := RecordedIsGood(e, w, p.setup, p.memory, from, tick, d.headerHash, signature);
    q := p.(memory := p.memory[tick := recorded]);
  }

  /** One more valid signature settles an open tick if and only if it brings the different members on file
      to a quorum. */
  lemma SignatureSettlesIff(e: Committee, w: World, p: Publisher, tick: u64, d: Derived, from: u8, signature: Signature)
    requires GoodCommittee(e) && Waiting(e, w, p, tick, d)
    requires SignatureBy(p, d.headerHash, from, signature) && Issued(e, w, d.headerHash, signature)
    ensures var after := After(p, GetSignature(from, tick, d.headerHash, signature));
            Decided(e, w, after, tick, d, Signers(p, tick, d.headerHash) + {from})
  {
    var q := SignatureAttempts(e, w, p, tick, d, from, signature);
    AttemptDecides(e, w, q, tick, d);
  }

  /** A settled tick stays settled whatever signature comes. */
  lemma SettledStays(p: Publisher, tick: u64, d: Derived, from: u8, headerHash: Digest, signature: Signature)
    requires SetFits(p.setup) && Settled(p, tick, d)
    ensures Settled(After(p, GetSignature(from, tick, headerHash, signature)), tick, d)
  {
  }

  datatype Signed = Signed(from: u8, signature: Signature)

  ghost function AfterSignatures(p: Publisher, tick: u64, headerHash: Digest, signed: seq<Signed>): (q: Publisher)
    requires SetFits(p.setup)
    ensures q.setup == p.setup
  {
    if signed == [] then p
    else
      var last := signed[|signed| - 1];
      After(AfterSignatures(p, tick, headerHash, signed[..|signed| - 1]),
          GetSignature(last.from, tick, headerHash, last.signature))
  }

  function Senders(signed: seq<Signed>): set<u8> { set s | s in signed :: s.from }

  ghost predicate AllValid(e: Committee, w: World, p: Publisher, headerHash: Digest, signed: seq<Signed>) {
    forall s :: s in signed ==> SignatureBy(p, headerHash, s.from, s.signature) && Issued(e, w, headerHash, s.signature)
  }

  lemma MoreMembers<T>(small: set<T>, large: set<T>)
    requires small <= large
    ensures |small| <= |large|
  {
    assert large == small + (large - small);
  }

  lemma OneMoreSignature(e: Committee, w: World, p: Publisher, tick: u64, d: Derived, members: set<u8>, s: Signed)
    requires GoodCommittee(e) && SetFits(p.setup) && Decided(e, w, p, tick, d, members)
    requires SignatureBy(p, d.headerHash, s.from, s.signature) && Issued(e, w, d.headerHash, s.signature)
    ensures Decided(e, w, After(p, GetSignature(s.from, tick, d.headerHash, s.signature)), tick, d, members + {s.from})
  {
    MoreMembers(members, members + {s.from});
    if |members| >= Quorum(p.setup.current) {
      SettledStays(p, tick, d, s.from, d.headerHash, s.signature);
    } else {
      SignatureSettlesIff(e, w, p, tick, d, s.from, s.signature);
    }
  }

  /** Valid signatures, in any order and with any repetitions, settle a waiting tick if and only if they come,
      with those on file, from a quorum of different members. */
  lemma {:induction false} SignaturesSettleIff(
      e: Committee, w: World, p: Publisher, tick: u64, d: Derived, signed: seq<Signed>)
    requires GoodCommittee(e) && Waiting(e, w, p, tick, d) && AllValid(e, w, p, d.headerHash, signed)
    ensures Decided(e, w, AfterSignatures(p, tick, d.headerHash, signed), tick, d,
              Signers(p, tick, d.headerHash) + Senders(signed))
  {
    var before := Signers(p, tick, d.headerHash);
    if signed == [] {
      assert before + Senders(signed) == before;
    } else {
      var rest, s := signed[..|signed| - 1], signed[|signed| - 1];
      assert s in signed && signed == rest + [s];
      SignaturesSettleIff(e, w, p, tick, d, rest);
      assert before + Senders(signed) == before + Senders(rest) + {s.from};
      OneMoreSignature(e, w, AfterSignatures(p, tick, d.headerHash, rest), tick, d, before + Senders(rest), s);
    }
  }

  // ----- the proposal may come after the signatures

  /** The proposal passes every check of this publisher, and the header it derives from it is `d`. */
  ghost predicate Derives(p: Publisher, proposal: SignedProposal, d: Derived)
    requires |proposal.body.chosen| < 256
  {
    var tick, chosen := proposal.body.tickMs, proposal.body.chosen;
    var observations := TickOf(p.memory, tick).observations;
    && p.setup.schedule(tick).Some? && FollowsRules(p.setup, p.store, p.setup.schedule(tick).value, proposal, p.clock)
    && (forall k :: 0 <= k < |chosen| ==> chosen[k].index in observations)
    && HashesMatch(p.setup.crypto, chosen, ChosenObservations(chosen, observations))
    && Derive(p.setup, p.store.feeds, tick, p.setup.schedule(tick).value, ChosenObservations(chosen, observations))
        == Some(d)
  }

  lemma DerivesGood(e: Committee, p: Publisher, proposal: SignedProposal, d: Derived)
    requires GoodCommittee(e) && GoodSetup(e, p.setup) && |proposal.body.chosen| < 256 && Derives(p, proposal, d)
    ensures GoodDerived(e, p.setup, proposal.body.tickMs, d.headerHash, d)
  {
    var tick, chosen := proposal.body.tickMs, proposal.body.chosen;
    DerivedIsGood(e, p.setup, p.store.feeds, tick, p.setup.schedule(tick).value,
        ChosenObservations(chosen, TickOf(p.memory, tick).observations));
  }

  /** The publisher with what a considered proposal leaves in memory. */
  function Recorded(p: Publisher, proposal: SignedProposal, d: Derived): Publisher {
    var tick := proposal.body.tickMs;
    var st := Remember(TickOf(p.memory, tick), proposal);
    p.(memory := p.memory[tick := st.(derived := st.derived[d.headerHash := d])])
  }

  lemma RecordedWaits(e: Committee, w: World, p: Publisher, proposal: SignedProposal, d: Derived)
    requires GoodMemory(e, w, p.setup, p.memory) && Open(p, proposal.body.tickMs)
    requires GoodDerived(e, p.setup, proposal.body.tickMs, d.headerHash, d)
    ensures var q, tick := Recorded(p, proposal, d), proposal.body.tickMs;
            GoodMemory(e, w, p.setup, q.memory) && Open(q, tick) && HasDerived(q, tick, d)
            && Signers(q, tick, d.headerHash) == Signers(p, tick, d.headerHash)
  {
    var tick := proposal.body.tickMs;
    var st := Remember(TickOf(p.memory, tick), proposal);
    assert GoodTick(e, w, p.setup, tick, st);
    TickUpdated(e, w, p.setup, p.memory, tick, st.(derived := st.derived[d.headerHash := d]));
  }

  lemma DerivesConsidered(p: Publisher, from: u8, proposal: SignedProposal, d: Derived)
    requires SetFits(p.setup) && |proposal.body.chosen| < 256 && Derives(p, proposal, d)
    ensures var active, tick := p.setup.schedule(proposal.body.tickMs).value, proposal.body.tickMs;
            ConsiderProposal(p.setup, p.memory, p.store, active, from, proposal)
            == SignDerived(p.setup, p.memory, p.store, active, tick, Remember(TickOf(p.memory, tick), proposal), d)
  {
    NoneMissing(proposal.body.chosen, Remember(TickOf(p.memory, proposal.body.tickMs), proposal).observations);
  }

  lemma ProposalIsConsidered(p: Publisher, from: u8, proposal: SignedProposal, d: Derived)
    requires SetFits(p.setup) && |proposal.body.chosen| < 256 && Derives(p, proposal, d)
    requires Open(p, proposal.body.tickMs)
    ensures var active, tick := p.setup.schedule(proposal.body.tickMs).value, proposal.body.tickMs;
            OnProposal(p.setup, p.memory, p.store, from, proposal, p.clock)
            == SignDerived(p.setup, p.memory, p.store, active, tick, Remember(TickOf(p.memory, tick), proposal), d)
  {
    OpenIsNotPassed(p, proposal.body.tickMs);
    DerivesConsidered(p, from, proposal, d);
    assert CheckProposal(p.setup, p.store, p.setup.schedule(proposal.body.tickMs).value, proposal, p.clock).Consider?;
  }

  /** A proposal this publisher derives a header from settles the open tick if and only if a quorum of
      different members had already signed that header, whether or not this publisher will. */
  lemma ProposalSettlesIff(e: Committee, w: World, p: Publisher, from: u8, proposal: SignedProposal, d: Derived)
    requires GoodCommittee(e) && StoreInvariant(e, w, p)
    requires |proposal.body.chosen| < 256 && Derives(p, proposal, d) && Open(p, proposal.body.tickMs)
    requires |d.entries| < 256
    ensures Decided(e, w, After(p, GetProposal(from, proposal)), proposal.body.tickMs, d,
              Signers(p, proposal.body.tickMs, d.headerHash))
  {
    var tick := proposal.body.tickMs;
    var active, st := p.setup.schedule(tick).value, Remember(TickOf(p.memory, tick), proposal);
    DerivesGood(e, p, proposal, d);
    RecordedWaits(e, w, p, proposal, d);
    ProposalIsConsidered(p, from, proposal, d);
    AttemptDecides(e, w, Recorded(p, proposal, d), tick, d);
    SigningKeepsRows(p.setup, p.memory, p.store, active, tick, st, d);
    ProposalIsGood(e, w, p.setup, p.memory, p.store, from, proposal, p.clock);
  }

  /** What this publisher observed of its own is near the header's prices. */
  ghost predicate OwnClose(p: Publisher, tick: u64, feeds: seq<FeedConfig>, d: Derived) {
    var own := TickOf(p.memory, tick).own;
    own.Some? ==> forall k :: 0 <= k < |d.entries| ==> Close(own.value, feeds, d.entries[k].message)
  }

  lemma OwnAgreesIff(p: Publisher, proposal: SignedProposal, d: Derived)
    requires |proposal.body.chosen| < 256 && Derives(p, proposal, d)
    ensures var tick := proposal.body.tickMs;
            var feeds := p.setup.schedule(tick).value.feeds;
            OwnAgrees(TickOf(p.memory, tick).own, feeds, d.entries) <==> OwnClose(p, tick, feeds, d)
  {
    var tick, chosen := proposal.body.tickMs, proposal.body.chosen;
    var active := p.setup.schedule(tick).value;
    forall k | 0 <= k < |d.entries| && TickOf(p.memory, tick).own.Some?
      ensures AgreesOn(TickOf(p.memory, tick).own.value, active.feeds, d.entries[k].message)
         <==> Close(TickOf(p.memory, tick).own.value, active.feeds, d.entries[k].message)
    {
      EntriesAreConfigured(p.setup, p.store.feeds, tick, active,
          ChosenObservations(chosen, TickOf(p.memory, tick).observations), k);
      AgreesIff(TickOf(p.memory, tick).own.value, active.feeds, d.entries[k].message);
    }
  }

  /** A publisher signs what it derives from a proposal for an open tick if and only if its own prices are near
      it and it never reserved another header of the tick. */
  lemma SignsIff(e: Committee, w: World, p: Publisher, from: u8, proposal: SignedProposal, d: Derived)
    requires GoodCommittee(e) && StoreInvariant(e, w, p) && |proposal.body.chosen| < 256
    requires Derives(p, proposal, d) && Open(p, proposal.body.tickMs) && |d.entries| < 256
    ensures var tick := proposal.body.tickMs;
            OnProposal(p.setup, p.memory, p.store, from, proposal, p.clock).sign
            == if OwnClose(p, tick, p.setup.schedule(tick).value.feeds, d)
                  && (tick in p.store.signed ==> p.store.signed[tick] == d.headerHash) then Some(d.header) else None
  {
    var tick, q := proposal.body.tickMs, Recorded(p, proposal, d);
    DerivesGood(e, p, proposal, d);
    RecordedWaits(e, w, p, proposal, d);
    ProposalIsConsidered(p, from, proposal, d);
    AttemptDecides(e, w, q, tick, d);
    FinalizingKeepsGuard(q.setup, q.memory, q.store, tick, d.headerHash);
    OwnAgreesIff(p, proposal, d);
  }

  /** So in any run, an honest publisher that is handed a proposal it derives a header from, with signatures
      over that header before it and after it in any order, ends with the tick stored under that header if and
      only if the signatures come from a quorum of different members. */
  lemma {:induction false} QuorumSettles(
      e: Committee, worlds: seq<World>, moves: seq<Move>, k: PubKey, from: u8, proposal: SignedProposal, d: Derived,
      signed: seq<Signed>)
    requires Run(e, worlds, moves) && k in worlds[|moves|] && |proposal.body.chosen| < 256
    requires var p := worlds[|moves|][k]; Derives(p, proposal, d) && Open(p, proposal.body.tickMs)
    requires |d.entries| < 256 && AllValid(e, worlds[|moves|], worlds[|moves|][k], d.headerHash, signed)
    ensures SetFits(worlds[|moves|][k].setup)
    ensures var p, tick := worlds[|moves|][k], proposal.body.tickMs;
            Settled(AfterSignatures(After(p, GetProposal(from, proposal)), tick, d.headerHash, signed), tick, d)
            <==> |Signers(p, tick, d.headerHash) + Senders(signed)| >= Quorum(p.setup.current)
  {
    var w, p, tick := worlds[|moves|], worlds[|moves|][k], proposal.body.tickMs;
    AlwaysGood(e, worlds, moves, |moves|, k);
    ProposalSettlesIff(e, w, p, from, proposal, d);
    var q, before := After(p, GetProposal(from, proposal)), Signers(p, tick, d.headerHash);
    MoreMembers(before, before + Senders(signed));
    if |before| >= Quorum(p.setup.current) {
      SettledThroughout(q, tick, d, signed);
    } else {
      SignaturesSettleIff(e, w, q, tick, d, signed);
    }
  }

  lemma {:induction false} SettledThroughout(p: Publisher, tick: u64, d: Derived, signed: seq<Signed>)
    requires SetFits(p.setup) && Settled(p, tick, d)
    ensures Settled(AfterSignatures(p, tick, d.headerHash, signed), tick, d)
  {
    if signed != [] {
      var n := |signed| - 1;
      SettledThroughout(p, tick, d, signed[..n]);
      SettledStays(AfterSignatures(p, tick, d.headerHash, signed[..n]), tick, d, signed[n].from, d.headerHash,
          signed[n].signature);
    }
  }
}
