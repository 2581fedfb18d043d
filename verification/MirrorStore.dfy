/** The mirror's tables: verified updates, an index of the feeds they price, and evidence of equivocation. */
module MirrorStore {
  import opened Assembly
  import opened Bytes
  import opened Counting
  import opened Hashing
  import opened PriceUpdates
  import opened SkipScan
  import opened Store
  import opened Wrappers

  datatype Key = Key(committee: Bytes32, tick: u64)

  datatype Row = Row(headerHash: Digest, blob: Bytes, receivedMs: nat)

  datatype FeedTick = FeedTick(feedId: Bytes32, key: Key)

  datatype EvidenceKey = EvidenceKey(key: Key, headerHash: Digest)

  type Evidence = map<EvidenceKey, Row>

  datatype Tables = Tables(updates: map<Key, Row>, feedTicks: set<FeedTick>, evidence: Evidence)

  datatype InsertResult = New | Duplicate | Equivocation

  function FeedsIn(entries: seq<UpdateEntry>): set<Bytes32> { set e | e in entries :: e.message.feedId }

  /** The feeds a stored blob prices. */
  function BlobFeeds(blob: Bytes): set<Bytes32> {
    match DecodeUpdate(blob) case None => {} case Some(u) => FeedsIn(u.entries)
  }

  // ----- the invariants

  /** The index holds exactly the occurrences of feeds in stored updates. */
  ghost predicate IndexExact(t: Tables) {
    forall f: FeedTick :: f in t.feedTicks <==> f.key in t.updates && f.feedId in BlobFeeds(t.updates[f.key].blob)
  }

  /** A row is filed under what its blob says. */
  predicate RowMatches(c: Crypto, key: Key, row: Row) {
    DecodeUpdate(row.blob).Some?
    && var h := DecodeUpdate(row.blob).value.header;
       h.publisherSetTypeHash == key.committee && h.publishTimeMs == key.tick && SigningHash(c, h) == row.headerHash
  }

  predicate UpdatesMatch(c: Crypto, updates: map<Key, Row>) {
    forall k :: k in updates ==> RowMatches(c, k, updates[k])
  }

  predicate EvidenceMatches(c: Crypto, evidence: Evidence) {
    forall k :: k in evidence ==> k.headerHash == evidence[k].headerHash && RowMatches(c, k.key, evidence[k])
  }

  /** Evidence never stands alone: it shows two different headers of the tick. */
  ghost predicate EvidenceProves(evidence: Evidence) { forall k :: k in evidence ==> Contradicted(evidence, k) }

  ghost predicate Contradicted(evidence: Evidence, k: EvidenceKey) {
    exists other :: other in evidence && other.key == k.key && other.headerHash != k.headerHash
  }

  ghost predicate Sound(c: Crypto, t: Tables) {
    IndexExact(t) && UpdatesMatch(c, t.updates) && EvidenceMatches(c, t.evidence) && EvidenceProves(t.evidence)
  }

  // ----- inserting

  function WithEvidence(evidence: Evidence, key: Key, row: Row): Evidence {
    if EvidenceKey(key, row.headerHash) in evidence then evidence else evidence[EvidenceKey(key, row.headerHash) := row]
  }

  function KeyOf(u: Update): Key { Key(u.header.publisherSetTypeHash, u.header.publishTimeMs) }

  function IndexRows(u: Update): set<FeedTick> { set id | id in FeedsIn(u.entries) :: FeedTick(id, KeyOf(u)) }

  function Inserted(c: Crypto, t: Tables, u: Update, blob: Bytes, receivedMs: nat): (Tables, InsertResult) {
    var key, row := KeyOf(u), Row(SigningHash(c, u.header), blob, receivedMs);
    if key !in t.updates then (t.(updates := t.updates[key := row], feedTicks := t.feedTicks + IndexRows(u)), New)
    else if t.updates[key].headerHash == row.headerHash then (t, Duplicate)
    else
      var withFirst := WithEvidence(t.evidence, key, t.updates[key]);
      (t.(evidence := WithEvidence(withFirst, key, row)),
          if EvidenceKey(key, row.headerHash) in withFirst then Duplicate else Equivocation)
  }

  function PrunedTables(t: Tables, before: int): Tables {
    t.(updates := map k | k in t.updates && k.tick >= before ::
        t.updates[k], feedTicks := set f | f in t.feedTicks && f.key.tick >= before)
  }

  /** The index rows a new update brings are the occurrences it brings. */
  lemma NewRowsIndexed(t: Tables, u: Update, row: Row)
    requires IndexExact(t) && KeyOf(u) !in t.updates && DecodeUpdate(row.blob) == Some(u)
    ensures IndexExact(t.(updates := t.updates[KeyOf(u) := row], feedTicks := t.feedTicks + IndexRows(u)))
  {
    var next := t.(updates := t.updates[KeyOf(u) := row], feedTicks := t.feedTicks + IndexRows(u));
    forall f: FeedTick ensures f in next.feedTicks
        <==> f.key in next.updates && f.feedId in BlobFeeds(next.updates[f.key].blob) {
      assert f in IndexRows(u) <==> f.key == KeyOf(u) && f.feedId in FeedsIn(u.entries);
      assert f in t.feedTicks <==> f.key in t.updates && f.feedId in BlobFeeds(t.updates[f.key].blob);
    }
  }

  lemma InsertKeepsIndex(c: Crypto, t: Tables, u: Update, blob: Bytes, receivedMs: nat)
    requires IndexExact(t) && DecodeUpdate(blob) == Some(u)
    ensures IndexExact(Inserted(c, t, u, blob, receivedMs).0)
  {
    if KeyOf(u) !in t.updates { NewRowsIndexed(t, u, Row(SigningHash(c, u.header), blob, receivedMs)); }
  }

  lemma RowOfUpdate(c: Crypto, u: Update, blob: Bytes, receivedMs: nat)
    requires DecodeUpdate(blob) == Some(u)
    ensures RowMatches(c, KeyOf(u), Row(SigningHash(c, u.header), blob, receivedMs))
  {
  }

  lemma AddedEvidenceMatches(c: Crypto, evidence: Evidence, key: Key, row: Row)
    requires EvidenceMatches(c, evidence) && RowMatches(c, key, row)
    ensures EvidenceMatches(c, WithEvidence(evidence, key, row))
  {
  }

  lemma AddedRowMatches(c: Crypto, updates: map<Key, Row>, key: Key, row: Row)
    requires UpdatesMatch(c, updates) && RowMatches(c, key, row)
    ensures UpdatesMatch(c, updates[key := row])
  {
  }

  /** Two different headers of one tick, added together, keep every piece of evidence contradicted. */
  lemma AddedPairProves(evidence: Evidence, key: Key, first: Row, second: Row)
    requires EvidenceProves(evidence) && first.headerHash != second.headerHash
    ensures EvidenceProves(WithEvidence(WithEvidence(evidence, key, first), key, second))
  {
    var next := WithEvidence(WithEvidence(evidence, key, first), key, second);
    var a := EvidenceKey(key, first.headerHash);
    var b := EvidenceKey(key, second.headerHash);
    assert a in next && b in next;
    forall k | k in next ensures Contradicted(next, k) {
      if k in evidence {
        var other :| other in evidence && other.key == k.key && other.headerHash != k.headerHash;
        assert other in next;
      } else {
        assert k == a || k == b;
      }
    }
  }

  lemma InsertKeepsSound(c: Crypto, t: Tables, u: Update, blob: Bytes, receivedMs: nat)
    requires Sound(c, t) && DecodeUpdate(blob) == Some(u)
    ensures Sound(c, Inserted(c, t, u, blob, receivedMs).0)
  {
    var key, row := KeyOf(u), Row(SigningHash(c, u.header), blob, receivedMs);
    InsertKeepsIndex(c, t, u, blob, receivedMs);
    RowOfUpdate(c, u, blob, receivedMs);
    if key !in t.updates {
      AddedRowMatches(c, t.updates, key, row);
    } else if t.updates[key].headerHash != row.headerHash {
      AddedEvidenceMatches(c, t.evidence, key, t.updates[key]);
      AddedEvidenceMatches(c, WithEvidence(t.evidence, key, t.updates[key]), key, row);
      AddedPairProves(t.evidence, key, t.updates[key], row);
    }
  }

  lemma PruneKeepsIndex(t: Tables, before: int)
    requires IndexExact(t)
    ensures IndexExact(PrunedTables(t, before))
  {
  }

  lemma PruneKeepsSound(c: Crypto, t: Tables, before: int)
    requires Sound(c, t)
    ensures Sound(c, PrunedTables(t, before))
  {
    PruneKeepsIndex(t, before);
  }

  // ----- runs of inserts and prunes

  datatype Op = InsertOp(blob: Bytes, receivedMs: nat) | PruneOp(before: int)

  /** Only verified updates are inserted, so a blob that does not decode never is. */
  function Applied(c: Crypto, t: Tables, op: Op): Tables {
    match op
    case InsertOp(blob, receivedMs) =>
      (match DecodeUpdate(blob) case None => t case Some(u) => Inserted(c, t, u, blob, receivedMs).0)
    case PruneOp(before) => PrunedTables(t, before)
  }

  const EMPTY_TABLES := Tables(map[], {}, map[])

  function AfterOps(c: Crypto, ops: seq<Op>): Tables {
    if ops == [] then EMPTY_TABLES else Applied(c, AfterOps(c, ops[..|ops| - 1]), ops[|ops| - 1])
  }

  lemma {:induction false} AlwaysSound(c: Crypto, ops: seq<Op>)
    ensures Sound(c, AfterOps(c, ops))
  {
    if ops != [] {
      var before, last := AfterOps(c, ops[..|ops| - 1]), ops[|ops| - 1];
      AlwaysSound(c, ops[..|ops| - 1]);
      match last
      case InsertOp(blob, receivedMs) =>
        if DecodeUpdate(blob).Some? { InsertKeepsSound(c, before, DecodeUpdate(blob).value, blob, receivedMs); }
      case PruneOp(bound) => PruneKeepsSound(c, before, bound);
    }
  }

  /** Nothing in the evidence was lost or altered. */
  predicate EvidenceGrew(early: Evidence, late: Evidence) {
    forall k :: k in early ==> k in late && late[k] == early[k]
  }

  predicate StillStored(early: Tables, late: Tables, key: Key) {
    key in early.updates ==> key in late.updates && late.updates[key] == early.updates[key]
  }

  lemma OpKeeps(c: Crypto, t: Tables, op: Op, key: Key)
    ensures EvidenceGrew(t.evidence, Applied(c, t, op).evidence)
    ensures (op.PruneOp? ==> key.tick >= op.before) ==> StillStored(t, Applied(c, t, op), key)
  {
  }

  /** Between any two moments, a stored header stays until a prune past its tick, and evidence stays for good. */
  lemma {:induction false} FirstStaysAndEvidenceGrows(c: Crypto, ops: seq<Op>, n: nat, key: Key)
    requires n <= |ops|
    ensures EvidenceGrew(AfterOps(c, ops[..n]).evidence, AfterOps(c, ops).evidence)
    ensures (forall i :: n <= i < |ops| && ops[i].PruneOp? ==> key.tick >= ops[i].before)
            ==> StillStored(AfterOps(c, ops[..n]), AfterOps(c, ops), key)
    decreases |ops|
  {
    if n == |ops| {
      assert ops[..n] == ops;
    } else {
      var last := |ops| - 1;
      assert ops[..last][..n] == ops[..n];
      FirstStaysAndEvidenceGrows(c, ops[..last], n, key);
      OpKeeps(c, AfterOps(c, ops[..last]), ops[last], key);
    }
  }

  /** An update whose committee and tick have no row is stored there as it came, with its feeds indexed, and
      nothing else changes; only such an update is answered New. */
  lemma FreshIsStored(c: Crypto, t: Tables, u: Update, blob: Bytes, receivedMs: nat)
    ensures var key := KeyOf(u);
            var (next, result) := Inserted(c, t, u, blob, receivedMs);
            (result == New <==> key !in t.updates)
            && (key !in t.updates ==>
                  key in next.updates && next.updates[key] == Row(SigningHash(c, u.header), blob, receivedMs)
                  && next.updates - {key} == t.updates && next.evidence == t.evidence
                  && forall f: FeedTick :: f in next.feedTicks <==>
                       f in t.feedTicks || (f.key == key && exists e :: e in u.entries && e.message.feedId == f.feedId))
  {
    var next := Inserted(c, t, u, blob, receivedMs).0;
    if KeyOf(u) !in t.updates {
      assert next.updates - {KeyOf(u)} == t.updates;
      forall f: FeedTick ensures f in IndexRows(u) <==> f.key == KeyOf(u) && f.feedId in FeedsIn(u.entries) {
      }
    }
  }

  // ----- what a run of inserts and prunes leaves stored

  predicate InsertsAt(op: Op, key: Key) {
    op.InsertOp? && DecodeUpdate(op.blob).Some? && KeyOf(DecodeUpdate(op.blob).value) == key
  }

  /** The `i`th operation inserts under the key, and no later prune goes past its tick. */
  predicate Lives(ops: seq<Op>, i: nat, key: Key) {
    i < |ops| && InsertsAt(ops[i], key) && forall j :: i < j < |ops| && ops[j].PruneOp? ==> key.tick >= ops[j].before
  }

  predicate FirstLiving(ops: seq<Op>, i: nat, key: Key) {
    Lives(ops, i, key) && forall j: nat :: j < i ==> !Lives(ops, j, key)
  }

  function RowFrom(c: Crypto, op: Op): Row
    requires op.InsertOp? && DecodeUpdate(op.blob).Some?
  {
    Row(SigningHash(c, DecodeUpdate(op.blob).value.header), op.blob, op.receivedMs)
  }

  lemma LivesStep(ops: seq<Op>, i: nat, key: Key)
    requires ops != []
    ensures var n, last := |ops| - 1, ops[|ops| - 1];
            Lives(ops, i, key) <==> if i == n then InsertsAt(last, key)
                                    else Lives(ops[..n], i, key) && (last.PruneOp? ==> key.tick >= last.before)
  {
  }

  /** The row of a key is that of the first living insert. */
  ghost predicate HoldsFirst(c: Crypto, ops: seq<Op>, key: Key, updates: map<Key, Row>) {
    if key in updates then exists i: nat :: FirstLiving(ops, i, key) && updates[key] == RowFrom(c, ops[i])
    else forall i: nat :: !Lives(ops, i, key)
  }

  lemma KeptFirst(c: Crypto, ops: seq<Op>, key: Key, updates: map<Key, Row>)
    requires ops != [] && HoldsFirst(c, ops[..|ops| - 1], key, updates)
    requires ops[|ops| - 1].PruneOp? ==> key.tick >= ops[|ops| - 1].before
    requires key in updates || !InsertsAt(ops[|ops| - 1], key)
    ensures HoldsFirst(c, ops, key, updates)
  {
    forall i: nat ensures Lives(ops, i, key)
        <==> Lives(ops[..|ops| - 1], i, key) || (i == |ops| - 1 && InsertsAt(ops[i], key)) {
      LivesStep(ops, i, key);
    }
    if key in updates {
      var i: nat :| FirstLiving(ops[..|ops| - 1], i, key) && updates[key] == RowFrom(c, ops[..|ops| - 1][i]);
      assert FirstLiving(ops, i, key);
    }
  }

  lemma LastChanges(c: Crypto, ops: seq<Op>, key: Key, before: map<Key, Row>, after: map<Key, Row>)
    requires ops != [] && HoldsFirst(c, ops[..|ops| - 1], key, before)
    requires var last := ops[|ops| - 1];
             if last.PruneOp? then key.tick < last.before && key !in after
             else InsertsAt(last, key) && key !in before && key in after && after[key] == RowFrom(c, last)
    ensures HoldsFirst(c, ops, key, after)
  {
    forall i: nat ensures Lives(ops, i, key) <==> i == |ops| - 1 && InsertsAt(ops[i], key) {
      LivesStep(ops, i, key);
    }
    if key in after { assert FirstLiving(ops, |ops| - 1, key); }
  }

  lemma OpOnKey(c: Crypto, t: Tables, op: Op, key: Key)
    ensures var before, after := t.updates, Applied(c, t, op).updates;
            if op.PruneOp? && key.tick < op.before then key !in after
            else if InsertsAt(op, key) && key !in before then key in after && after[key] == RowFrom(c, op)
            else (key in before <==> key in after) && (key in before ==> after[key] == before[key])
  {
  }

  /** Over any run, a committee's tick has a row if and only if some insert of it came after the last prune past
      it, and the row is that of the first such insert, to the byte. */
  lemma {:induction false} RowIsFirstLiving(c: Crypto, ops: seq<Op>, key: Key)
    ensures HoldsFirst(c, ops, key, AfterOps(c, ops).updates)
  {
    if ops != [] {
      var rest, last := ops[..|ops| - 1], ops[|ops| - 1];
      var before, after := AfterOps(c, rest).updates, AfterOps(c, ops).updates;
      RowIsFirstLiving(c, rest, key);
      OpOnKey(c, AfterOps(c, rest), last, key);
      if (last.PruneOp? && key.tick < last.before) || (InsertsAt(last, key) && key !in before) {
        LastChanges(c, ops, key, before, after);
      } else {
        KeptFirst(c, ops, key, before);
        SameRow(c, ops, key, before, after);
      }
    }
  }

  lemma SameRow(c: Crypto, ops: seq<Op>, key: Key, before: map<Key, Row>, after: map<Key, Row>)
    requires HoldsFirst(c, ops, key, before)
    requires (key in before <==> key in after) && (key in before ==> after[key] == before[key])
    ensures HoldsFirst(c, ops, key, after)
  {
  }

  /** A second header for a stored tick ends up in the evidence next to the first. */
  lemma ConflictIsRecorded(c: Crypto, t: Tables, u: Update, blob: Bytes, receivedMs: nat)
    requires KeyOf(u) in t.updates
    ensures var key, hash := KeyOf(u), SigningHash(c, u.header);
            var (next, result) := Inserted(c, t, u, blob, receivedMs);
            next.updates == t.updates && next.feedTicks == t.feedTicks
            && (t.updates[key].headerHash != hash ==>
                  EvidenceKey(key, hash) in next.evidence
                  && EvidenceKey(key, t.updates[key].headerHash) in next.evidence)
            && (result == Equivocation <==> t.updates[key].headerHash != hash && EvidenceKey(key, hash) !in t.evidence)
  {
  }

  // ----- what a query returns: a scan of every stored update

  predicate Matches(k: Key, committee: Option<Bytes32>) { committee.None? || committee.value == k.committee }

  /** Every stored update pricing the feed, whoever's. */
  function Scan(t: Tables, feedId: Bytes32, committee: Option<Bytes32>): set<Key> {
    set k | k in t.updates.Keys && feedId in BlobFeeds(t.updates[k].blob) && Matches(k, committee)
  }

  /** What the index and the join give instead. */
  function IndexHits(t: Tables, feedId: Bytes32, committee: Option<Bytes32>): set<Key> {
    set f | f in t.feedTicks && f.feedId == feedId && f.key in t.updates && Matches(f.key, committee) :: f.key
  }

  lemma IndexIsScan(t: Tables, feedId: Bytes32, committee: Option<Bytes32>)
    requires IndexExact(t)
    ensures IndexHits(t, feedId, committee) == Scan(t, feedId, committee)
  {
    forall k | k in Scan(t, feedId, committee) ensures k in IndexHits(t, feedId, committee) {
      assert FeedTick(feedId, k) in t.feedTicks;
    }
  }

  lemma {:induction false} LivingIsHit(
      c: Crypto, ops: seq<Op>, i: nat, key: Key, feedId: Bytes32, committee: Option<Bytes32>)
    requires FirstLiving(ops, i, key) && feedId in BlobFeeds(ops[i].blob) && Matches(key, committee)
    ensures key in IndexHits(AfterOps(c, ops), feedId, committee)
  {
    AlwaysIndexed(c, ops);
    FirstLivingRow(c, ops, i, key, AfterOps(c, ops).updates);
    StoredIsHit(AfterOps(c, ops), key, ops[i].blob, feedId, committee);
  }

  lemma {:induction false} AlwaysIndexed(c: Crypto, ops: seq<Op>)
    ensures IndexExact(AfterOps(c, ops))
  {
    AlwaysSound(c, ops);
  }

  /** So whatever was inserted and not pruned is found: among what the index gives for any feed of a living
      tick's first insert, whether asked for by its committee or by none, the newest is at or after that tick. */
  lemma {:induction false} LivingIsFound(
      c: Crypto, ops: seq<Op>, i: nat, key: Key, feedId: Bytes32, committee: Option<Bytes32>, hits: set<Key>,
      newest: Key)
    requires FirstLiving(ops, i, key) && feedId in BlobFeeds(ops[i].blob) && Matches(key, committee)
    requires hits == IndexHits(AfterOps(c, ops), feedId, committee) && FirstBy(true, hits, newest)
    ensures key in hits && key.tick <= newest.tick
  {
    LivingIsHit(c, ops, i, key, feedId, committee);
  }

  lemma StoredIsHit(t: Tables, key: Key, blob: Bytes, feedId: Bytes32, committee: Option<Bytes32>)
    requires IndexExact(t) && key in t.updates && t.updates[key].blob == blob
    requires feedId in BlobFeeds(blob) && Matches(key, committee)
    ensures key in IndexHits(t, feedId, committee)
  {
    IndexIsScan(t, feedId, committee);
  }

  lemma {:induction false} FirstLivingRow(c: Crypto, ops: seq<Op>, i: nat, key: Key, updates: map<Key, Row>)
    requires FirstLiving(ops, i, key) && updates == AfterOps(c, ops).updates
    ensures key in updates && updates[key] == RowFrom(c, ops[i])
  {
    RowIsFirstLiving(c, ops, key);
    if key in updates {
      var j: nat :| FirstLiving(ops, j, key) && updates[key] == RowFrom(c, ops[j]);
      assert i == j;
    }
  }

  function Later(keys: set<Key>, tickMs: int): set<Key> { set k | k in keys && k.tick >= tickMs }

  function Within(keys: set<Key>, from: int, to: int): set<Key> { set k | k in keys && from <= k.tick <= to }

  /** A query scans the stored updates that price the feed, of the committee if one is given, both bounds included. */
  lemma ScannedIff(t: Tables, feedId: Bytes32, committee: Option<Bytes32>, from: int, to: int, k: Key)
    ensures var found := k in t.updates && feedId in BlobFeeds(t.updates[k].blob)
                         && (committee == None || committee == Some(k.committee));
            (k in Scan(t, feedId, committee) <==> found)
            && (k in Later(Scan(t, feedId, committee), from) <==> found && k.tick - from >= 0)
            && (k in Within(Scan(t, feedId, committee), from, to) <==> found && k.tick - from >= 0 && to - k.tick >= 0)
  {
  }

  /** No key of `keys` comes before `k` in the order asked for. */
  predicate FirstBy(descending: bool, keys: set<Key>, k: Key) {
    k in keys && forall x :: x in keys ==> if descending then x.tick <= k.tick else k.tick <= x.tick
  }

  lemma {:induction false} FirstExists(descending: bool, keys: set<Key>) returns (k: Key)
    requires keys != {}
    ensures FirstBy(descending, keys, k)
    decreases |keys|
  {
    var x :| x in keys;
    if keys == {x} {
      k := x;
    } else {
      var rest := FirstExists(descending, keys - {x});
      k := if (if descending then rest.tick <= x.tick else x.tick <= rest.tick) then x else rest;
      assert forall y :: y in keys ==> y == x || y in keys - {x};
    }
  }

  /** `ORDER BY tick LIMIT 1`: among equal ticks, of different committees, any. */
  method PickFirst(descending: bool, keys: set<Key>) returns (r: Option<Key>)
    ensures r.None? <==> keys == {}
    ensures r.Some? ==> FirstBy(descending, keys, r.value)
  {
    if keys == {} {
      return None;
    }
    ghost var first := FirstExists(descending, keys);
    var k :| k in keys && forall x :: x in keys ==> if descending then x.tick <= k.tick else k.tick <= x.tick;
    return Some(k);
  }

  /** The first `limit` keys, oldest first. */
  predicate IsPage(keys: set<Key>, limit: nat, page: seq<Key>) {
    && (forall i, j :: 0 <= i < j < |page| ==> page[i] != page[j] && page[i].tick <= page[j].tick)
    && (forall k :: k in page ==> k in keys)
    && |page| <= limit && (|page| < limit ==> forall k :: k in keys ==> k in page)
    && (forall k, i :: k in keys && k !in page && 0 <= i < |page| ==> page[i].tick <= k.tick)
  }

  class MirrorStore {
    const crypto: Crypto
    var updates: map<Key, Row>
    var feedTicks: set<FeedTick>
    var evidence: Evidence

    function All(): Tables
      reads this
    {
      Tables(updates, feedTicks, evidence)
    }

    ghost predicate Valid()
      reads this
    {
      Sound(crypto, All())
    }

    constructor (crypto: Crypto)
      ensures Valid() && All() == EMPTY_TABLES && this.crypto == crypto
    {
      this.crypto := crypto;
      updates, feedTicks, evidence := map[], {}, map[];
    }

    method Insert(u: Update, blob: Bytes, receivedMs: nat) returns (result: InsertResult)
      requires Valid() && DecodeUpdate(blob) == Some(u)
      modifies this
      ensures Valid() && (All(), result) == Inserted(crypto, old(All()), u, blob, receivedMs)
    {
      InsertKeepsSound(crypto, All(), u, blob, receivedMs);
      result := Record(u, blob, receivedMs);
    }

    method Record(u: Update, blob: Bytes, receivedMs: nat) returns (result: InsertResult)
      modifies this
      ensures (All(), result) == Inserted(crypto, old(All()), u, blob, receivedMs)
    {
      var key, headerHash := KeyOf(u), SigningHash(crypto, u.header);
      if key in updates && updates[key].headerHash == headerHash {
        return Duplicate;
      }
      if key in updates {
        result := RecordConflict(key, updates[key], Row(headerHash, blob, receivedMs));
        return;
      }
      updates := updates[key := Row(headerHash, blob, receivedMs)];
      IndexEntries(u);
      return New;
    }

    method RecordConflict(key: Key, first: Row, second: Row) returns (result: InsertResult)
      modifies this`evidence
      ensures evidence == WithEvidence(WithEvidence(old(evidence), key, first), key, second)
      ensures result
          == if EvidenceKey(key, second.headerHash) in WithEvidence(old(evidence), key, first) then Duplicate
              else Equivocation
    {
      if EvidenceKey(key, first.headerHash) !in evidence {
        evidence := evidence[EvidenceKey(key, first.headerHash) := first];
      }
      if EvidenceKey(key, second.headerHash) in evidence {
        return Duplicate;
      }
      evidence := evidence[EvidenceKey(key, second.headerHash) := second];
      return Equivocation;
    }

    method IndexEntries(u: Update)
      modifies this`feedTicks
      ensures feedTicks == old(feedTicks) + IndexRows(u)
    {
      for k := 0 to |u.entries|
        invariant feedTicks == old(feedTicks) + set id | id in FeedsIn(u.entries[..k]) :: FeedTick(id, KeyOf(u))
      {
        var id := u.entries[k].message.feedId;
        assert FeedsIn(u.entries[..k + 1]) == FeedsIn(u.entries[..k]) + {id} by { FeedsStep(u.entries, k); }
        feedTicks := feedTicks + {FeedTick(id, KeyOf(u))};
      }
      assert u.entries[..|u.entries|] == u.entries;
    }

    /** The newest update pricing the feed, found through the index, is the newest a full scan finds. */
    method Latest(feedId: Bytes32, committee: Option<Bytes32>) returns (r: Option<Key>)
      requires Valid()
      ensures r.None? <==> Scan(All(), feedId, committee) == {}
      ensures r.Some? ==> FirstBy(true, Scan(All(), feedId, committee), r.value)
    {
      IndexIsScan(All(), feedId, committee);
      r := PickFirst(true, IndexHits(All(), feedId, committee));
    }

    method AtOrAfter(feedId: Bytes32, tickMs: int, committee: Option<Bytes32>) returns (r: Option<Key>)
      requires Valid()
      ensures r.None? <==> Later(Scan(All(), feedId, committee), tickMs) == {}
      ensures r.Some? ==> FirstBy(false, Later(Scan(All(), feedId, committee), tickMs), r.value)
    {
      IndexIsScan(All(), feedId, committee);
      r := PickFirst(false, Later(IndexHits(All(), feedId, committee), tickMs));
    }

    method Range(feedId: Bytes32, from: int, to: int, limit: nat, committee: Option<Bytes32>) returns (page: seq<Key>)
      requires Valid()
      ensures IsPage(Within(Scan(All(), feedId, committee), from, to), limit, page)
    {
      IndexIsScan(All(), feedId, committee);
      page := TakePage(Within(IndexHits(All(), feedId, committee), from, to), limit);
    }

    /** Batched deletes committee by committee, then index rows feed by feed: exactly the old rows go. */
    method Prune(before: int, batch: nat) returns (removed: nat)
      requires Valid() && batch >= 1
      modifies this
      ensures Valid() && All() == PrunedTables(old(All()), before)
      ensures removed == |old(updates)| - |updates|
    {
      PruneKeepsSound(crypto, All(), before);
      removed := PruneUpdates(before, batch);
      PruneIndex(before);
    }

    method PruneUpdates(before: int, batch: nat) returns (removed: nat)
      requires batch >= 1
      modifies this`updates
      ensures updates == PrunedTables(old(All()), before).updates
      ensures removed == |old(updates)| - |updates|
    {
      var committees := DistinctValues(set k | k in updates.Keys :: k.committee);
      removed := 0;
      for n := 0 to |committees|
        invariant Thinned(old(updates), updates, before)
        invariant forall k :: k in updates && k.tick < before ==> k.committee !in committees[..n]
        invariant removed == |old(updates)| - |updates|
      {
        var dropped := DropCommittee(committees[n], before, batch);
        removed := removed + dropped;
        assert committees[..n + 1] == committees[..n] + [committees[n]];
      }
      assert committees[..|committees|] == committees;
      forall k | k in updates ensures k.tick >= before {
        assert k.committee in Elements(committees);
      }
    }

    method DropCommittee(committee: Bytes32, before: int, batch: nat) returns (removed: nat)
      requires batch >= 1
      modifies this`updates
      ensures Thinned(old(updates), updates, before)
      ensures forall k :: k in updates && k.committee == committee ==> k.tick >= before
      ensures removed == |old(updates)| - |updates|
    {
      removed := 0;
      while true
        invariant Thinned(old(updates), updates, before)
        invariant removed == |old(updates)| - |updates|
        decreases |updates|
      {
        var stale := set k | k in updates.Keys && k.committee == committee && k.tick < before;
        var picked := PickBatch(stale, batch);
        KeysRemoved(updates, picked);
        updates := updates - picked;
        removed := removed + |picked|;
        if |picked| < batch {
          break;
        }
      }
    }

    method PruneIndex(before: int)
      modifies this`feedTicks
      ensures feedTicks == PrunedTables(old(All()), before).feedTicks
    {
      var feeds := DistinctValues(set f | f in feedTicks :: f.feedId);
      for n := 0 to |feeds|
        invariant ThinnedIndex(old(feedTicks), feedTicks, before)
        invariant forall f :: f in feedTicks && f.key.tick < before ==> f.feedId !in feeds[..n]
      {
        DropFeed(feeds[n], before);
        assert feeds[..n + 1] == feeds[..n] + [feeds[n]];
      }
      assert feeds[..|feeds|] == feeds;
      forall f | f in feedTicks ensures f.key.tick >= before { assert f.feedId in Elements(feeds); }
    }

    /** Seeks from committee to committee of one feed while the rows behind it are being deleted. */
    method DropFeed(feedId: Bytes32, before: int)
      modifies this`feedTicks
      ensures ThinnedIndex(old(feedTicks), feedTicks, before)
      ensures forall f :: f in feedTicks && f.feedId == feedId ==> f.key.tick >= before
    {
      ghost var committees := CommitteesOf(feedTicks, feedId);
      var c := Next(CommitteesOf(feedTicks, feedId), None);
      CommitteesCover(feedTicks, feedId, None);
      ghost var last: Option<Bytes32> := None;
      while c.Some?
        invariant ThinnedIndex(old(feedTicks), feedTicks, before)
        invariant CommitteesOf(feedTicks, feedId) <= committees
        invariant c.Some? ==>
            c.value in committees && Past(last, c.value) && IsNext(CommitteesOf(feedTicks, feedId), last, c.value)
        invariant forall f ::
            f in feedTicks && f.feedId == feedId && f.key.tick < before ==> c.Some? && Past(last, f.key.committee)
        decreases c.Some?, Rest(committees, last)
      {
        CommitteesCover(feedTicks, feedId, last);
        RestShrinks(CommitteesOf(feedTicks, feedId), last, c.value);
        SeekShrinks(committees, last, c.value);
        feedTicks := set f | f in feedTicks
        && !(f.feedId == feedId && f.key.committee == c.value && f.key.tick < before);
        last := c;
        c := Next(CommitteesOf(feedTicks, feedId), c);
        CommitteesCover(feedTicks, feedId, last);
      }
    }
  }

  lemma CommitteesCover(feedTicks: set<FeedTick>, feedId: Bytes32, last: Option<Bytes32>)
    ensures forall f ::
        f in feedTicks && f.feedId == feedId && Past(last, f.key.committee) ==>
            f.key.committee in Rest(CommitteesOf(feedTicks, feedId), last)
  {
  }

  lemma FeedsStep(entries: seq<UpdateEntry>, k: nat)
    requires k < |entries|
    ensures FeedsIn(entries[..k + 1]) == FeedsIn(entries[..k]) + {entries[k].message.feedId}
  {
    assert entries[..k + 1] == entries[..k] + [entries[k]];
  }

  /** Only rows older than the bound are gone, and no row changed. */
  ghost predicate Thinned(all: map<Key, Row>, kept: map<Key, Row>, before: int) {
    (forall k :: k in kept ==> k in all && kept[k] == all[k]) && forall k :: k in all && k.tick >= before ==> k in kept
  }

  ghost predicate ThinnedIndex(all: set<FeedTick>, kept: set<FeedTick>, before: int) {
    kept <= all && forall f :: f in all && f.key.tick >= before ==> f in kept
  }

  function CommitteesOf(feedTicks: set<FeedTick>, feedId: Bytes32): set<Bytes32> {
    set f | f in feedTicks && f.feedId == feedId :: f.key.committee
  }

  lemma SeekShrinks(committees: set<Bytes32>, last: Option<Bytes32>, c: Bytes32)
    requires c in committees && Past(last, c)
    ensures Rest(committees, Some(c)) < Rest(committees, last)
  {
    forall w | w in Rest(committees, Some(c)) ensures w in Rest(committees, last) {
      if last.Some? { LexLtTransitive(last.value, c, w); }
    }
    assert c in Rest(committees, last) && c !in Rest(committees, Some(c));
  }

  method TakePage(hits: set<Key>, limit: nat) returns (page: seq<Key>)
    ensures IsPage(hits, limit, page)
  {
    page := [];
    var rest := hits;
    while rest != {} && |page| < limit
      invariant rest <= hits && |page| <= limit
      invariant forall k :: k in hits <==> k in rest || k in page
      invariant forall k :: k in rest ==> k !in page
      invariant forall i, j :: 0 <= i < j < |page| ==> page[i] != page[j] && page[i].tick <= page[j].tick
      invariant forall k, i :: k in rest && 0 <= i < |page| ==> page[i].tick <= k.tick
      decreases |rest|
    {
      var k := PickFirst(false, rest);
      page, rest := page + [k.value], rest - {k.value};
    }
  }
}
