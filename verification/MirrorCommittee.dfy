/** The mirror's view of a committee: the key sets it has seen on chain, and its check of an update. */
module MirrorCommittee {
  import opened Assembly
  import opened Bytes
  import opened Counting
  import opened Doubles
  import opened Governance
  import opened Hashing
  import opened Merkle
  import opened PriceUpdates
  import opened PublisherSets
  import opened Signatures
  import opened Wrappers

  /** A set and, once a newer one was seen, the first tick it no longer speaks for. Bounds are doubles. */
  datatype KnownSet = KnownSet(keys: PublisherSet, retiredAtMs: Option<nat>)

  datatype MirrorState = MirrorState(sets: map<u32, KnownSet>, currentIndex: Option<u32>, paused: bool)

  const UNSEEN := MirrorState(map[], None, false)

  // ----- observing the committee cell

  /** The bound a known set gets: the predecessor's comes from the cell, 0 once revoked; an older one keeps its own. */
  function Bound(known: KnownSet, i: u32, data: PublisherSetData, now: nat): nat {
    if i == data.current.setIndex - 1 then
      if data.previous.Some? && data.previous.value.outgoing.setIndex == i then Number(data.previous.value.untilMs)
      else 0
    else if known.retiredAtMs.Some? then known.retiredAtMs.value
    else now
  }

  function Retired(known: KnownSet, i: u32, data: PublisherSetData, now: nat): KnownSet {
    var bound := Bound(known, i, data, now);
    if i != data.current.setIndex && (known.retiredAtMs.None? || bound < known.retiredAtMs.value) then
        known.(retiredAtMs := Some(bound)) else known
  }

  function RetireAll(sets: map<u32, KnownSet>, data: PublisherSetData, now: nat): map<u32, KnownSet> {
    map i | i in sets :: Retired(sets[i], i, data, now)
  }

  /** The previous set is learned from the cell when the mirror never saw it current. */
  function LearnPrevious(sets: map<u32, KnownSet>, data: PublisherSetData): map<u32, KnownSet> {
    if data.previous.Some? && data.previous.value.outgoing.setIndex !in sets
    then sets[data.previous.value.outgoing.setIndex :=
        KnownSet(data.previous.value.outgoing, Some(Number(data.previous.value.untilMs)))]
    else sets
  }

  function Observed(s: MirrorState, data: PublisherSetData, now: nat): MirrorState {
    var index := data.current.setIndex;
    if s.currentIndex.Some? && index < s.currentIndex.value then s
    else
      var sets := LearnPrevious(RetireAll(s.sets, data, now), data);
      if s.currentIndex == Some(index) then MirrorState(sets, s.currentIndex, IsPaused(data))
      else MirrorState(sets[index := KnownSet(data.current, None)], Some(index), IsPaused(data))
  }

  // ----- checking an update

  datatype Refusal =
    | BadEncoding | AnotherCommittee | CommitteePaused | UnknownSet | RetiredSet
    | NotComplete | DuplicateFeed | UnprovenEntry | NoQuorum

  /** The keys the mirror checks a header against. */
  function SetAndTick(s: MirrorState, setIndex: u32, tick: u64): Result<PublisherSet, Refusal> {
    if setIndex !in s.sets then Err(UnknownSet)
    else if s.sets[setIndex].retiredAtMs.Some? && Number(tick) >= s.sets[setIndex].retiredAtMs.value then
        Err(RetiredSet)
    else Ok(s.sets[setIndex].keys)
  }

  function Verify(s: MirrorState, typeHash: Bytes32, c: Crypto, blob: Bytes): Result<Update, Refusal> {
    match DecodeUpdate(blob)
    case None => Err(BadEncoding)
    case Some(u) =>
      if u.header.publisherSetTypeHash != typeHash then Err(AnotherCommittee)
      else if s.paused then Err(CommitteePaused)
      else
        match SetAndTick(s, u.header.setIndex, u.header.publishTimeMs)
        case Err(refusal) => Err(refusal)
        case Ok(keys) =>
          if |u.entries| != u.header.leafCount then Err(NotComplete)
          else if !DistinctFeeds(Messages(u.entries)) then Err(Refusal.DuplicateFeed)
          else if !AllProven(c, u) then Err(UnprovenEntry)
          else if !Threshold(c, u.signatures, SigningHash(c, u.header), keys) then Err(NoQuorum)
          else Ok(u)
  }

  class Committee {
    const typeHash: Bytes32
    var sets: map<u32, KnownSet>
    var currentIndex: Option<u32>
    var paused: bool

    function State(): MirrorState
      reads this
    {
      MirrorState(sets, currentIndex, paused)
    }

    constructor (typeHash: Bytes32)
      ensures State() == UNSEEN && this.typeHash == typeHash
    {
      this.typeHash := typeHash;
      sets, currentIndex, paused := map[], None, false;
    }

    method Observe(data: PublisherSetData, now: nat)
      modifies this
      ensures State() == Observed(old(State()), data, now)
    {
      var index := data.current.setIndex;
      if currentIndex.Some? && index < currentIndex.value {
        return;
      }
      var changed := currentIndex != Some(index);
      paused := IsPaused(data);
      var rest := sets.Keys;
      while rest != {}
        invariant rest <= sets.Keys == old(sets).Keys
        invariant forall i :: i in rest ==> sets[i] == old(sets)[i]
        invariant forall i :: i in sets && i !in rest ==> sets[i] == Retired(old(sets)[i], i, data, now)
        invariant currentIndex == old(currentIndex) && paused == IsPaused(data)
        decreases |rest|
      {
        var i :| i in rest;
        rest := rest - {i};
        sets := sets[i := Retired(sets[i], i, data, now)];
      }
      assert sets == RetireAll(old(sets), data, now);
      sets := LearnPrevious(sets, data);
      if changed {
        sets := sets[index := KnownSet(data.current, None)];
        currentIndex := Some(index);
      }
    }

    method Check(c: Crypto, blob: Bytes) returns (r: Result<Update, Refusal>)
      ensures r == Verify(State(), typeHash, c, blob)
    {
      var decoded := DecodeUpdate(blob);
      if decoded.None? {
        return Err(BadEncoding);
      }
      var u := decoded.value;
      if u.header.publisherSetTypeHash != typeHash {
        return Err(AnotherCommittee);
      }
      if paused {
        return Err(CommitteePaused);
      }
      var keys := SetAndTick(State(), u.header.setIndex, u.header.publishTimeMs);
      if keys.Err? {
        return Err(keys.error);
      }
      if |u.entries| != u.header.leafCount {
        return Err(NotComplete);
      }
      var ids := set m | m in Messages(u.entries) :: m.feedId;
      DistinctByCount(Messages(u.entries));
      if |ids| != |u.entries| {
        return Err(Refusal.DuplicateFeed);
      }
      for k := 0 to |u.entries|
        invariant forall i ::
            0 <= i < k ==>
                VerifyProof(c, u.header.merkleRoot, LeafHash(c, EncodeMessage(u.entries[i].message)),
                    u.entries[i].proof)
      {
        if !VerifyProof(c, u.header.merkleRoot, LeafHash(c, EncodeMessage(u.entries[k].message)), u.entries[k].proof) {
          return Err(UnprovenEntry);
        }
      }
      var signed := VerifyThreshold(c, u.signatures, SigningHash(c, u.header), keys.value);
      return if signed then Ok(u) else Err(NoQuorum);
    }
  }

  function FeedIds(messages: seq<Message>): (r: seq<Bytes32>)
    ensures |r| == |messages| && forall k :: 0 <= k < |r| ==> r[k] == messages[k].feedId
  {
    seq(|messages|, k requires 0 <= k < |messages| => messages[k].feedId)
  }

  /** As many different ids as entries: no feed occurs twice. */
  lemma DistinctByCount(messages: seq<Message>)
    ensures |set m | m in messages :: m.feedId| == |messages| <==> DistinctFeeds(messages)
  {
    var ids := FeedIds(messages);
    DistinctCount(ids);
    assert (set m | m in messages :: m.feedId) == Elements(ids) by {
      forall x | x in (set m | m in messages :: m.feedId) ensures x in Elements(ids) {
        var k :| 0 <= k < |messages| && messages[k].feedId == x;
        assert ids[k] == x;
      }
      forall x | x in Elements(ids) ensures x in (set m | m in messages :: m.feedId) {
        var k :| 0 <= k < |ids| && ids[k] == x;
        assert messages[k] in messages;
      }
    }
  }

  // ----- the mirror follows the chain

  /** What was seen: a position in the committee's history, and the mirror's clock. */
  datatype Sighting = Sighting(at: nat, now: nat)

  /** Sightings never go back in the history; they may repeat a state and skip any number. */
  ghost predicate InOrder(states: seq<PublisherSetData>, seen: seq<Sighting>) {
    (forall k :: 0 <= k < |seen| ==> seen[k].at < |states|)
    && forall k :: 0 < k < |seen| ==> seen[k - 1].at <= seen[k].at
  }

  ghost function AfterSeeing(states: seq<PublisherSetData>, seen: seq<Sighting>): MirrorState
    requires InOrder(states, seen)
  {
    if seen == [] then UNSEEN
    else
      var n := |seen| - 1;
      Observed(AfterSeeing(states, seen[..n]), states[seen[n].at], seen[n].now)
  }

  /** The mirror's bounds are those of the state: no bound on its current set, the cell's on its
      predecessor, some bound on every older one. */
  ghost predicate Bounded(d: PublisherSetData, s: MirrorState) {
    && s.currentIndex == Some(d.current.setIndex) && s.paused == IsPaused(d)
    && d.current.setIndex in s.sets && s.sets[d.current.setIndex] == KnownSet(d.current, None)
    && (forall i :: i in s.sets && i != d.current.setIndex ==> i < d.current.setIndex && s.sets[i].retiredAtMs.Some?)
    && (d.previous.Some? ==> PredecessorKnown(d, s))
    && (d.previous.None? ==> forall i ::
        i in s.sets && i + 1 == d.current.setIndex ==> s.sets[i].retiredAtMs == Some(0))
  }

  ghost predicate PredecessorKnown(d: PublisherSetData, s: MirrorState)
    requires d.previous.Some?
  {
    var outgoing := d.previous.value.outgoing;
    outgoing.setIndex in s.sets
    && s.sets[outgoing.setIndex] == KnownSet(outgoing, Some(Number(d.previous.value.untilMs)))
  }

  ghost predicate WasCurrent(states: seq<PublisherSetData>, p: nat, i: u32, keys: PublisherSet)
    requires p < |states|
  {
    exists j: nat :: j <= p && states[j].current == keys && keys.setIndex == i
  }

  /** Every set the mirror knows was current at some point, under its own index. */
  ghost predicate KnownWereCurrent(states: seq<PublisherSetData>, p: nat, s: MirrorState)
    requires p < |states|
  {
    forall i :: i in s.sets ==> WasCurrent(states, p, i, s.sets[i].keys)
  }

  ghost predicate Follows(states: seq<PublisherSetData>, p: nat, s: MirrorState)
    requires p < |states|
  {
    Bounded(states[p], s) && KnownWereCurrent(states, p, s)
  }

  /** While a set stays current, the one before it is kept unchanged or dropped for good. */
  lemma {:induction false} PreviousOnlyDrops(states: seq<PublisherSetData>, ops: seq<u8>, a: nat, b: nat)
    requires StateRun(states, ops) && a <= b < |states| && states[a].current.setIndex == states[b].current.setIndex
    ensures states[b].previous == states[a].previous || states[b].previous.None?
    decreases b
  {
    if a < b {
      IndexMonotone(states, ops, a, b - 1);
      IndexMonotone(states, ops, b - 1, b);
      PreviousOnlyDrops(states, ops, a, b - 1);
      assert CheckTransition(states[b - 1], states[b], ops[b - 1]).Ok?;
    }
  }

  lemma SameSetBounds(before: PublisherSetData, after: PublisherSetData, s: MirrorState, now: nat)
    requires ValidData(before) && ValidData(after) && Bounded(before, s)
    requires after.current == before.current && (after.previous == before.previous || after.previous.None?)
    ensures Bounded(after, Observed(s, after, now))
  {
  }

  lemma NewSetBounds(before: PublisherSetData, after: PublisherSetData, s: MirrorState, now: nat)
    requires ValidData(before) && ValidData(after) && Bounded(before, s)
    requires after.current.setIndex > before.current.setIndex
    requires after.previous.Some? && after.previous.value.outgoing.setIndex == before.current.setIndex ==>
        after.previous.value.outgoing == before.current
    ensures Bounded(after, Observed(s, after, now))
  {
  }

  /** Observing adds no keys but the two sets the cell names, and changes none. */
  lemma ObservedKeys(s: MirrorState, data: PublisherSetData, now: nat, i: u32)
    requires i in Observed(s, data, now).sets
    ensures var keys := Observed(s, data, now).sets[i].keys;
            (i in s.sets && keys == s.sets[i].keys) || (data.current.setIndex == i && keys == data.current)
            || (data.previous.Some? && data.previous.value.outgoing.setIndex == i
                && keys == data.previous.value.outgoing)
  {
  }

  lemma KeysFollow(states: seq<PublisherSetData>, ops: seq<u8>, p: nat, q: nat, s: MirrorState, now: nat)
    requires StateRun(states, ops) && p <= q < |states| && KnownWereCurrent(states, p, s)
    ensures KnownWereCurrent(states, q, Observed(s, states[q], now))
  {
    var d, next := states[q], Observed(s, states[q], now);
    forall i | i in next.sets ensures WasCurrent(states, q, i, next.sets[i].keys) {
      ObservedKeys(s, d, now, i);
      if i in s.sets && next.sets[i].keys == s.sets[i].keys {
        var j: nat :| j <= p && states[j].current == s.sets[i].keys && s.sets[i].keys.setIndex == i;
      } else if i != d.current.setIndex {
        var j := PreviousWasCurrent(states, ops, q);
      }
    }
  }

  lemma BoundsFollow(states: seq<PublisherSetData>, ops: seq<u8>, p: nat, q: nat, s: MirrorState, now: nat)
    requires StateRun(states, ops) && p <= q < |states| && Bounded(states[p], s)
    ensures Bounded(states[q], Observed(s, states[q], now))
  {
    IndexMonotone(states, ops, p, q);
    if states[q].current.setIndex == states[p].current.setIndex {
      PreviousOnlyDrops(states, ops, p, q);
      SameSetBounds(states[p], states[q], s, now);
    } else {
      if states[q].previous.Some? {
        var j := PreviousWasCurrent(states, ops, q);
        if j <= p { IndexMonotone(states, ops, j, p); } else { IndexMonotone(states, ops, p, j); }
      }
      NewSetBounds(states[p], states[q], s, now);
    }
  }

  lemma {:induction false} AlwaysFollows(states: seq<PublisherSetData>, ops: seq<u8>, seen: seq<Sighting>)
    requires StateRun(states, ops) && InOrder(states, seen) && seen != []
    ensures Follows(states, seen[|seen| - 1].at, AfterSeeing(states, seen))
  {
    var n := |seen| - 1;
    if n == 0 {
      assert seen[..0] == [];
      KeysFollow(states, ops, 0, seen[0].at, UNSEEN, seen[0].now);
    } else {
      AlwaysFollows(states, ops, seen[..n]);
      KeysFollow(states, ops, seen[n - 1].at, seen[n].at, AfterSeeing(states, seen[..n]), seen[n].now);
      BoundsFollow(states, ops, seen[n - 1].at, seen[n].at, AfterSeeing(states, seen[..n]), seen[n].now);
    }
  }

  /** The mirror's test and the chain's give the same answer. */
  predicate Agrees(s: MirrorState, d: PublisherSetData, setIndex: u32, tick: u64) {
    SetFor(d, setIndex, tick) == match SetAndTick(s, setIndex, tick) case Ok(keys) => Some(keys) case Err(_) => None
  }

  /** The guard of rounding: the last tick before the switch is still below it as a double. */
  predicate SwitchIsSharp(d: PublisherSetData) {
    d.previous.Some? && d.previous.value.untilMs > 0 ==>
        Number(d.previous.value.untilMs - 1) < Number(d.previous.value.untilMs)
  }

  ghost predicate AgreesOnEveryTick(s: MirrorState, d: PublisherSetData, setIndex: u32) {
    forall tick: u64 :: Agrees(s, d, setIndex, tick)
  }

  lemma RoundedSwitch(until: u64, tick: u64)
    requires until > 0 && Number(until - 1) < Number(until)
    ensures tick < until <==> Number(tick) < Number(until)
  {
    if tick < until { NumberMonotone(tick, until - 1); } else { NumberMonotone(until, tick); }
  }

  lemma PredecessorAgrees(s: MirrorState, d: PublisherSetData, i: u32)
    requires ValidData(d) && d.previous.Some? && PredecessorKnown(d, s) && i == d.previous.value.outgoing.setIndex
    ensures AgreesOnEveryTick(s, d, i) <==> SwitchIsSharp(d)
  {
    var until := d.previous.value.untilMs;
    if SwitchIsSharp(d) {
      forall tick: u64 ensures Agrees(s, d, i, tick) { RoundedSwitch(until, tick); }
    } else {
      assert !Agrees(s, d, i, until - 1);
    }
  }

  /** Whatever states the mirror missed, it agrees with the last one it saw on the current set and every
      tick, and on the set before it exactly when the switch tick is not blurred by rounding. */
  lemma {:induction false} MirrorAgrees(states: seq<PublisherSetData>, ops: seq<u8>, seen: seq<Sighting>)
    requires StateRun(states, ops) && InOrder(states, seen) && seen != []
    ensures var s, d := AfterSeeing(states, seen), states[seen[|seen| - 1].at];
            AgreesOnEveryTick(s, d, d.current.setIndex)
            && (d.current.setIndex > 0 ==> (AgreesOnEveryTick(s, d, d.current.setIndex - 1) <==> SwitchIsSharp(d)))
  {
    var s, d := AfterSeeing(states, seen), states[seen[|seen| - 1].at];
    AlwaysFollows(states, ops, seen);
    if d.previous.Some? { PredecessorAgrees(s, d, d.previous.value.outgoing.setIndex); }
  }

  /** For any switch tick up to 2^53 ms, a quarter of a million years from now, the two always agree. */
  lemma SharpUpToExact(d: PublisherSetData)
    requires d.previous.Some? ==> d.previous.value.untilMs <= EXACT
    ensures SwitchIsSharp(d)
  {
    if d.previous.Some? && d.previous.value.untilMs > 0 {
      NumberExact(d.previous.value.untilMs);
      NumberExact(d.previous.value.untilMs - 1);
    }
  }

  /** Just above it they differ: the chain still takes the outgoing set's last tick, and the mirror refuses it. */
  lemma BlurredSwitch(s: MirrorState, d: PublisherSetData)
    requires ValidData(d) && d.previous.Some? && d.previous.value.untilMs == EXACT + 1 && PredecessorKnown(d, s)
    ensures !SwitchIsSharp(d)
    ensures var i, tick := d.previous.value.outgoing.setIndex, d.previous.value.untilMs - 1;
            SetFor(d, i, tick) == Some(d.previous.value.outgoing) && SetAndTick(s, i, tick).Err?
  {
    NumberExact(EXACT);
    assert RoundBits(EXACT / 2, true, false) == EXACT / 2;
  }

  ghost predicate NoneAhead(s: MirrorState) {
    if s.currentIndex.None? then s.sets == map[] else forall i :: i in s.sets ==> i <= s.currentIndex.value
  }

  /** Set `i` is retired in both states under the same keys, and what the later one accepts from it the
      earlier one did too. */
  ghost predicate Tightened(before: MirrorState, after: MirrorState, i: u32) {
    && IsRetired(before, i) && IsRetired(after, i) && after.sets[i].keys == before.sets[i].keys
    && after.sets[i].retiredAtMs.value <= before.sets[i].retiredAtMs.value
    && forall tick: u64 :: SetAndTick(after, i, tick).Ok? ==> SetAndTick(after, i, tick) == SetAndTick(before, i, tick)
  }

  predicate IsRetired(s: MirrorState, i: u32) {
    i in s.sets && s.sets[i].retiredAtMs.Some? && s.currentIndex != Some(i)
  }

  lemma ObservingTightens(s: MirrorState, data: PublisherSetData, now: nat, i: u32)
    requires ValidData(data) && NoneAhead(s) && IsRetired(s, i)
    ensures NoneAhead(Observed(s, data, now)) && Tightened(s, Observed(s, data, now), i)
  {
  }

  function AfterObserving(s: MirrorState, shown: seq<(PublisherSetData, nat)>): MirrorState {
    if shown == [] then s
    else Observed(AfterObserving(s, shown[..|shown| - 1]), shown[|shown| - 1].0, shown[|shown| - 1].1)
  }

  /** Whatever states it is shown next, real or not and in whatever order, the ticks the mirror accepts from
      a retired set never grow. */
  lemma {:induction false} RetirementOnlyTightens(s: MirrorState, shown: seq<(PublisherSetData, nat)>, i: u32)
    requires (forall x :: x in shown ==> ValidData(x.0)) && NoneAhead(s) && IsRetired(s, i)
    ensures NoneAhead(AfterObserving(s, shown)) && Tightened(s, AfterObserving(s, shown), i)
  {
    if shown != [] {
      var last := shown[|shown| - 1];
      assert last in shown;
      RetirementOnlyTightens(s, shown[..|shown| - 1], i);
      ObservingTightens(AfterObserving(s, shown[..|shown| - 1]), last.0, last.1, i);
    }
  }

  /** What the mirror accepts: a quorum of a set that once was current, for this committee, over exactly
      the messages the header's root was built from. */
  lemma {:induction false} AcceptedIsExact(
      states: seq<PublisherSetData>, ops: seq<u8>, seen: seq<Sighting>, typeHash: Bytes32, c: Crypto, blob: Bytes,
      u: Update, messages: seq<Message>)
    requires StateRun(states, ops) && InOrder(states, seen) && seen != []
    requires Verify(AfterSeeing(states, seen), typeHash, c, blob) == Ok(u)
    requires messages != [] && DistinctFeeds(messages) && u.header.merkleRoot == Root(c, Leaves(c, messages))
    requires u.header.leafCount == |messages|
    requires CollisionFree(c, CheckedPreimages(c, messages, u.entries))
    ensures Elements(Messages(u.entries)) == Elements(messages) && |u.entries| == |messages|
    ensures Distinct(Messages(u.entries))
    ensures u.header.publisherSetTypeHash == typeHash && !IsPaused(states[seen[|seen| - 1].at])
    ensures exists keys ::
        WasCurrent(states, seen[|seen| - 1].at, u.header.setIndex, keys)
        && QuorumSigned(c, u.signatures, SigningHash(c, u.header), keys)
  {
    var s := AfterSeeing(states, seen);
    AlwaysFollows(states, ops, seen);
    CompleteIsExact(c, messages, u);
    var keys := s.sets[u.header.setIndex].keys;
    var j: nat :| j <= seen[|seen| - 1].at && states[j].current == keys && keys.setIndex == u.header.setIndex;
    var signers := ThresholdMeansQuorum(c, u.signatures, SigningHash(c, u.header), keys);
  }

  /** Complete, no feed twice, every entry proven. */
  ghost predicate Whole(c: Crypto, blob: Bytes, u: Update) {
    ValidBlob(ToBlob(u)) && blob == EncodeBlob(ToBlob(u)) && CompleteUpdate(c, u)
  }

  lemma VerifyIff(s: MirrorState, typeHash: Bytes32, c: Crypto, blob: Bytes, u: Update)
    ensures Verify(s, typeHash, c, blob) == Ok(u)
       <==> Whole(c, blob, u) && u.header.publisherSetTypeHash == typeHash && !s.paused
            && SetAndTick(s, u.header.setIndex, u.header.publishTimeMs).Ok?
            && TwoThirdsSigned(c, u.signatures, SigningHash(c, u.header),
                 SetAndTick(s, u.header.setIndex, u.header.publishTimeMs).value)
  {
    DecodeUpdateIffEncoded(blob, u);
    var found := SetAndTick(s, u.header.setIndex, u.header.publishTimeMs);
    if found.Ok? { ThresholdIff(c, u.signatures, SigningHash(c, u.header), found.value); }
  }

  /** On the set current in the last state it saw, and on the one before it unless rounding blurs the switch,
      the mirror accepts a blob as this update if and only if it encodes it, it is whole, and its header is one
      the chain would take under that state. */
  lemma {:induction false} MirrorAcceptsIff(
      states: seq<PublisherSetData>, ops: seq<u8>, seen: seq<Sighting>, typeHash: Bytes32, c: Crypto, blob: Bytes,
      u: Update)
    requires StateRun(states, ops) && InOrder(states, seen) && seen != []
    requires var d := states[seen[|seen| - 1].at];
             u.header.setIndex == d.current.setIndex
             || (u.header.setIndex + 1 == d.current.setIndex && SwitchIsSharp(d))
    ensures Verify(AfterSeeing(states, seen), typeHash, c, blob) == Ok(u)
       <==> Whole(c, blob, u)
            && Taken(c, u.header, u.signatures, typeHash, states[seen[|seen| - 1].at])
  {
    var s, d := AfterSeeing(states, seen), states[seen[|seen| - 1].at];
    AlwaysFollows(states, ops, seen);
    MirrorAgrees(states, ops, seen);
    assert Agrees(s, d, u.header.setIndex, u.header.publishTimeMs);
    VerifyIff(s, typeHash, c, blob, u);
    HeaderIff(c, u.header, u.signatures, typeHash, d);
    var found := SetFor(d, u.header.setIndex, u.header.publishTimeMs);
    if found.Some? { ThresholdIff(c, u.signatures, SigningHash(c, u.header), found.value); }
  }
}
