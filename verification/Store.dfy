/** The publisher's durable store: the double-sign guard, finalized updates and per-feed EMA state. */
module Store {
  import opened Aggregate
  import opened Assembly
  import opened Bytes
  import opened Hashing
  import opened PriceUpdates
  import opened PublisherSets
  import opened Wrappers

  type Table<T> = map<u64, T>

  /** The rows of the four tables, for this store's committee. */
  datatype State = State(signed: Table<Digest>, finalized: Table<Bytes>, keySets: map<u32, PublisherSet>,
      feeds: FeedStates)

  const EMPTY := State(map[], map[], map[], map[])

  // ----- the operations as functions on the rows

  /** Insert unless the tick already has a row, then compare: the first header reserved for a tick wins. */
  function Reserve(s: State, tick: u64, headerHash: Digest): (State, bool) {
    if tick in s.signed then (s, s.signed[tick] == headerHash)
    else (s.(signed := s.signed[tick := headerHash]), true)
  }

  /** A feed moves on only to a later tick than the one it is at. */
  function AdvanceFeed(feeds: FeedStates, m: Message, tick: u64): FeedStates {
    if m.feedId in feeds && feeds[m.feedId].tickMs >= tick then feeds
    else feeds[m.feedId := FeedState(tick, m.emaPrice, m.emaConf)]
  }

  function AdvanceFeeds(feeds: FeedStates, entries: seq<UpdateEntry>, tick: u64): FeedStates {
    if entries == [] then feeds
    else AdvanceFeed(AdvanceFeeds(feeds, entries[..|entries| - 1], tick), entries[|entries| - 1].message, tick)
  }

  /** A tick that is already stored is left as it is. */
  function Save(s: State, u: Update, blob: Bytes): (State, bool) {
    var tick := u.header.publishTimeMs;
    if tick in s.finalized then (s, false)
    else (s.(finalized := s.finalized[tick := blob], feeds := AdvanceFeeds(s.feeds, u.entries, tick)), true)
  }

  /** The first set saved under an index stays. */
  function WithKeySet(s: State, keys: PublisherSet): State {
    if keys.setIndex in s.keySets then s else s.(keySets := s.keySets[keys.setIndex := keys])
  }

  function From<T>(rows: Table<T>, before: int): Table<T> { map t | t in rows && t >= before :: rows[t] }

  function Pruned(s: State, before: int): State {
    s.(finalized := From(s.finalized, before), signed := From(s.signed, before))
  }

  // ----- queries over the finalized rows

  ghost predicate IsNewest(ticks: set<u64>, t: u64) { t in ticks && forall x :: x in ticks ==> x <= t }

  lemma {:induction false} NewestExists(ticks: set<u64>) returns (t: u64)
    requires ticks != {}
    ensures IsNewest(ticks, t)
    decreases |ticks|
  {
    var x :| x in ticks;
    if ticks == {x} {
      t := x;
    } else {
      var rest := NewestExists(ticks - {x});
      t := if rest < x then x else rest;
      assert forall y :: y in ticks ==> y == x || y in ticks - {x};
    }
  }

  /** `SELECT MAX(tick_ms)`. */
  ghost function Newest(ticks: set<u64>): Option<u64> {
    if ticks == {} then None else Some(NewestTick(ticks))
  }

  ghost function NewestTick(ticks: set<u64>): (t: u64)
    requires ticks != {}
    ensures IsNewest(ticks, t)
  {
    assert exists t :: IsNewest(ticks, t) by { var w := NewestExists(ticks); }
    var t :| IsNewest(ticks, t);
    t
  }

  ghost function LatestFinalizedTick(s: State): Option<u64> { Newest(s.finalized.Keys) }

  /** The latest finalized tick at or before a time. */
  ghost function FinalizedAtOrBefore(s: State, tickMs: int): Option<u64> {
    Newest(set t | t in s.finalized.Keys && t <= tickMs)
  }

  // ----- the store itself

  class PublisherStore {
    var signed: Table<Digest>
    var finalized: Table<Bytes>
    var keySets: map<u32, PublisherSet>
    var feeds: FeedStates

    function Rows(): State
      reads this
    {
      State(signed, finalized, keySets, feeds)
    }

    constructor ()
      ensures Rows() == EMPTY
    {
      signed, finalized, keySets, feeds := map[], map[], map[], map[];
    }

    method ReserveSignature(tick: u64, headerHash: Digest) returns (ok: bool)
      modifies this`signed
      ensures (Rows(), ok) == Reserve(old(Rows()), tick, headerHash)
    {
      if tick !in signed {
        signed := signed[tick := headerHash];
      }
      ok := signed[tick] == headerHash;
    }

    method SaveKeySet(s: PublisherSet)
      modifies this`keySets
      ensures Rows() == WithKeySet(old(Rows()), s)
    {
      if s.setIndex !in keySets {
        keySets := keySets[s.setIndex := s];
      }
    }

    method SaveFinalized(u: Update, blob: Bytes) returns (stored: bool)
      modifies this`finalized, this`feeds
      ensures (Rows(), stored) == Save(old(Rows()), u, blob)
    {
      var tick := u.header.publishTimeMs;
      if tick in finalized {
        return false;
      }
      finalized := finalized[tick := blob];
      for k := 0 to |u.entries|
        invariant feeds == AdvanceFeeds(old(feeds), u.entries[..k], tick)
        invariant signed == old(signed) && keySets == old(keySets) && finalized == old(finalized)[tick := blob]
      {
        assert u.entries[..k + 1][..k] == u.entries[..k];
        var m := u.entries[k].message;
        if !(m.feedId in feeds && feeds[m.feedId].tickMs >= tick) {
          feeds := feeds[m.feedId := FeedState(tick, m.emaPrice, m.emaConf)];
        }
      }
      assert u.entries[..|u.entries|] == u.entries;
      return true;
    }

    method LatestTick() returns (r: Option<u64>)
      ensures r == LatestFinalizedTick(Rows())
    {
      if finalized == map[] {
        assert finalized.Keys == {};
        return None;
      }
      ghost var newest := NewestTick(finalized.Keys);
      var t :| t in finalized.Keys && forall x :: x in finalized.Keys ==> x <= t;
      return Some(t);
    }

    method AtOrBefore(tickMs: int) returns (r: Option<u64>)
      ensures r == FinalizedAtOrBefore(Rows(), tickMs)
    {
      var ticks := set t | t in finalized.Keys && t <= tickMs;
      if ticks == {} {
        return None;
      }
      ghost var newest := NewestTick(ticks);
      var t :| t in ticks && forall x :: x in ticks ==> x <= t;
      return Some(t);
    }

    /** Finalized rows go in batches, in whatever order the database picks; the loop stops at a short batch. */
    method Prune(before: int, batch: nat) returns (removed: nat)
      requires batch >= 1
      modifies this`finalized, this`signed
      ensures Rows() == Pruned(old(Rows()), before)
      ensures removed == |old(finalized)| - |finalized|
    {
      removed := 0;
      while true
        invariant From(finalized, before) == From(old(finalized), before) && finalized.Keys <= old(finalized).Keys
        invariant forall t :: t in finalized ==> finalized[t] == old(finalized)[t]
        invariant removed == |old(finalized)| - |finalized|
        invariant signed == old(signed) && keySets == old(keySets) && feeds == old(feeds)
        decreases |finalized|
      {
        var stale := set t | t in finalized.Keys && t < before;
        var picked := PickBatch(stale, batch);
        KeysRemoved(finalized, picked);
        finalized := finalized - picked;
        removed := removed + |picked|;
        if |picked| < batch {
          break;
        }
      }
      assert forall t :: t in finalized ==> t >= before;
      signed := From(signed, before);
    }
  }

  lemma KeysRemoved<K, V>(rows: map<K, V>, picked: set<K>)
    requires picked <= rows.Keys
    ensures |rows - picked| == |rows| - |picked|
  {
    assert (rows - picked).Keys == rows.Keys - picked;
    assert rows.Keys == (rows.Keys - picked) + picked;
  }

  /** `LIMIT batch`: some of the rows, as many as there are up to the batch size. */
  method PickBatch<K(==)>(stale: set<K>, batch: nat) returns (picked: set<K>)
    ensures picked <= stale && (|picked| == batch || (picked == stale && |picked| < batch))
  {
    picked := {};
    var rest := stale;
    while rest != {} && |picked| < batch
      invariant picked + rest == stale && picked !! rest && |picked| <= batch
      decreases |rest|
    {
      var t :| t in rest;
      picked, rest := picked + {t}, rest - {t};
    }
  }

  // ----- the feed state does not depend on the order of arrival

  /** The first entry for a feed in an update: the one that counts if a relayed update repeats a feed. */
  function FirstFor(entries: seq<UpdateEntry>, feedId: Bytes32): Option<Message> {
    if entries == [] then None
    else if entries[0].message.feedId == feedId then Some(entries[0].message)
    else FirstFor(entries[1..], feedId)
  }

  lemma {:induction false} FirstForAppend(entries: seq<UpdateEntry>, last: UpdateEntry, feedId: Bytes32)
    ensures FirstFor(entries + [last], feedId)
         == if FirstFor(entries, feedId).Some? then FirstFor(entries, feedId)
            else if last.message.feedId == feedId then Some(last.message) else None
  {
    if entries == [] {
      assert entries + [last] == [last];
    } else {
      FirstForAppend(entries[1..], last, feedId);
      assert (entries + [last])[1..] == entries[1..] + [last];
    }
  }

  lemma {:induction false} FirstIsAmong(entries: seq<UpdateEntry>, feedId: Bytes32)
    requires FirstFor(entries, feedId).Some?
    ensures exists i ::
        0 <= i < |entries| && entries[i].message.feedId == feedId
        && entries[i].message == FirstFor(entries, feedId).value
  {
    if entries[0].message.feedId != feedId {
      FirstIsAmong(entries[1..], feedId);
      var i :| 0 <= i < |entries| - 1 && entries[1..][i].message.feedId == feedId
          && entries[1..][i].message == FirstFor(entries, feedId).value;
      assert entries[i + 1] == entries[1..][i];
    }
  }

  lemma {:induction false} FirstIsOnly(entries: seq<UpdateEntry>, i: nat)
    requires i < |entries| && DistinctFeeds(Messages(entries))
    ensures FirstFor(entries, entries[i].message.feedId) == Some(entries[i].message)
  {
    if i > 0 {
      var messages, rest := Messages(entries), Messages(entries[1..]);
      assert messages[0].feedId != messages[i].feedId;
      assert forall k :: 0 <= k < |rest| ==> rest[k] == messages[k + 1];
      FirstIsOnly(entries[1..], i - 1);
    }
  }

  lemma {:induction false} AdvanceFeedsAt(feeds: FeedStates, entries: seq<UpdateEntry>, tick: u64, feedId: Bytes32)
    ensures var next, first := AdvanceFeeds(feeds, entries, tick), FirstFor(entries, feedId);
            if first.None? || (feedId in feeds && feeds[feedId].tickMs >= tick)
            then (feedId in next <==> feedId in feeds) && (feedId in feeds ==> next[feedId] == feeds[feedId])
            else feedId in next && next[feedId] == FeedState(tick, first.value.emaPrice, first.value.emaConf)
  {
    if entries != [] {
      var n := |entries| - 1;
      AdvanceFeedsAt(feeds, entries[..n], tick, feedId);
      FirstForAppend(entries[..n], entries[n], feedId);
      assert entries == entries[..n] + [entries[n]];
    }
  }

  datatype Op = SaveOp(tick: u64) | PruneOp(before: int)

  /** The updates of a committee: one per tick. */
  type Family = u64 -> Update

  ghost predicate OnePerTick(family: Family) { forall t: u64 :: family(t).header.publishTimeMs == t }

  function Apply(s: State, family: Family, op: Op, blob: Bytes): State {
    match op
    case SaveOp(tick) => Save(s, family(tick), blob).0
    case PruneOp(before) => Pruned(s, before)
  }

  function StateAfter(family: Family, ops: seq<Op>): State {
    if ops == [] then EMPTY else Apply(StateAfter(family, ops[..|ops| - 1]), family, ops[|ops| - 1], [])
  }

  /** Every tick saved at some point, pruned since or not. */
  ghost function EverSaved(ops: seq<Op>): set<u64> { set i | 0 <= i < |ops| && ops[i].SaveOp? :: ops[i].tick }

  /** The ever-saved ticks whose update prices the feed. */
  ghost function Pricing(family: Family, ops: seq<Op>, feedId: Bytes32): set<u64> {
    set t | t in EverSaved(ops) && FirstFor(family(t).entries, feedId).Some?
  }

  /** A feed's state is the average carried by the newest update ever saved that prices it. */
  ghost predicate FeedIsNewest(family: Family, ops: seq<Op>, feedId: Bytes32) {
    var feeds, pricing := StateAfter(family, ops).feeds, Pricing(family, ops, feedId);
    (feedId in feeds <==> pricing != {})
    && (feedId in feeds ==>
          IsNewest(pricing, feeds[feedId].tickMs)
          && var m := FirstFor(family(feeds[feedId].tickMs).entries, feedId).value;
             feeds[feedId] == FeedState(feeds[feedId].tickMs, m.emaPrice, m.emaConf))
  }

  lemma {:induction false} EverSavedStep(family: Family, ops: seq<Op>, feedId: Bytes32)
    requires ops != []
    ensures var before, last := ops[..|ops| - 1], ops[|ops| - 1];
            EverSaved(ops) == EverSaved(before) + (if last.SaveOp? then {last.tick} else {})
            && Pricing(family, ops, feedId)
               == Pricing(family, before, feedId)
                  + (if last.SaveOp? && FirstFor(family(last.tick).entries, feedId).Some? then {last.tick} else {})
  {
    var before, last := ops[..|ops| - 1], ops[|ops| - 1];
    forall t ensures t in EverSaved(ops) <==> t in EverSaved(before) || (last.SaveOp? && t == last.tick) {
      if t in EverSaved(before) {
        var i :| 0 <= i < |before| && before[i].SaveOp? && before[i].tick == t;
        assert ops[i] == before[i];
      }
      if t in EverSaved(ops) {
        var i :| 0 <= i < |ops| && ops[i].SaveOp? && ops[i].tick == t;
        assert i == |before| || ops[i] == before[i];
      }
    }
  }

  lemma {:induction false} StoredWasSaved(family: Family, ops: seq<Op>)
    requires OnePerTick(family)
    ensures StateAfter(family, ops).finalized.Keys <= EverSaved(ops)
  {
    if ops != [] {
      StoredWasSaved(family, ops[..|ops| - 1]);
      EverSavedStep(family, ops, seq(32, i => 0));
    }
  }

  /** Whatever order ticks are saved, saved again and pruned in, each feed ends at its newest update. */
  lemma {:induction false} FeedStateIsNewest(family: Family, ops: seq<Op>, feedId: Bytes32)
    requires OnePerTick(family)
    ensures FeedIsNewest(family, ops, feedId)
  {
    if ops != [] {
      var before, last := ops[..|ops| - 1], ops[|ops| - 1];
      FeedStateIsNewest(family, before, feedId);
      EverSavedStep(family, ops, feedId);
      StoredWasSaved(family, before);
      if last.SaveOp? {
        AdvanceFeedsAt(StateAfter(family, before).feeds, family(last.tick).entries, last.tick, feedId);
      }
    }
  }

  /** So two publishers that ever saved the same ticks average from the same state, whatever arrived
      first and whatever either has pruned. */
  lemma {:induction false} OrderDoesNotMatter(family: Family, a: seq<Op>, b: seq<Op>)
    requires OnePerTick(family) && EverSaved(a) == EverSaved(b)
    ensures StateAfter(family, a).feeds == StateAfter(family, b).feeds
  {
    forall feedId: Bytes32
      ensures feedId in StateAfter(family, a).feeds <==> feedId in StateAfter(family, b).feeds
      ensures feedId in StateAfter(family, a).feeds ==>
          StateAfter(family, a).feeds[feedId] == StateAfter(family, b).feeds[feedId]
    {
      FeedStateIsNewest(family, a, feedId);
      FeedStateIsNewest(family, b, feedId);
      assert Pricing(family, a, feedId) == Pricing(family, b, feedId);
    }
  }
}
