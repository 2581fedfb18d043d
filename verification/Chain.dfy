/** A feed cell and its committee over a whole chain history. */
module Chain {
  import opened Bytes
  import opened Hashing
  import opened Merkle
  import opened PriceFeeds
  import opened PriceFeedScript
  import opened PriceUpdates
  import opened PublisherSets
  import opened Signatures
  import opened Transactions
  import opened Wrappers
  import Governance

  /** A history. `cells` is the committee cell's own history; after step `k` its live state is
      `cells[at[k]]` and the feed cell, if it exists, is `feeds[k]`. Step `k` is transaction `txs[k]`. */
  datatype History = History(
    cells: seq<Cell>, governance: seq<Transaction>, at: seq<nat>, feeds: seq<Option<Cell>>, txs: seq<Transaction>)

  /** Type ID keeps one live committee cell, so a dep with the committee's type hash is that cell. */
  ghost predicate DepsAreLive(e: Env, tx: Transaction, committee: Bytes32, live: Cell) {
    forall k :: 0 <= k < |tx.deps| && DepIs(e, tx.deps[k], committee) ==> tx.deps[k] == live
  }

  /** What one transaction may do to the feed cell: nothing, create it, update it or burn it. */
  ghost predicate FeedStep(e: Env, tx: Transaction, s: Script, before: Option<Cell>, after: Option<Cell>) {
    || after == before
    || (before.None? && after.Some? && exists o :: Creates(tx, s, o) && tx.outputs[o] == after.value)
    || (before.Some? && after.Some?
    && exists i, o :: Continues(tx, s, i, o) && tx.inputs[i].cell == before.value && tx.outputs[o] == after.value)
    || (before.Some? && after.None? && exists i :: Burns(tx, s, i))
  }

  ghost predicate ValidHistory(e: Env, committee: Script, feed: Script, h: History) {
    && Governance.CellRun(e, committee, h.cells, h.governance)
    && |h.at| == |h.feeds| == |h.txs| + 1 && h.feeds[0].None?
    && (forall k :: 0 <= k < |h.at| ==> h.at[k] < |h.cells|)
    && (forall k :: 0 <= k < |h.txs| ==> h.at[k] <= h.at[k + 1])
    && (forall k :: 0 <= k < |h.txs| ==> AllAccept(e, h.txs[k], feed))
    && (forall k :: 0 <= k < |h.txs| ==> DepsAreLive(e, h.txs[k], e.scriptHash(committee), h.cells[h.at[k]]))
    && (forall k :: 0 <= k < |h.txs| ==> FeedStep(e, h.txs[k], feed, h.feeds[k], h.feeds[k + 1]))
  }

  /** The committee's decoded state after step `k`. */
  ghost function CommitteeAt(h: History, k: nat): Option<PublisherSetData>
    requires k < |h.at| && h.at[k] < |h.cells|
  {
    DecodeData(h.cells[h.at[k]].data)
  }

  ghost function FeedAt(h: History, k: nat): Option<PriceFeedData>
    requires k < |h.feeds|
  {
    if h.feeds[k].None? then None else DecodeFeed(h.feeds[k].value.data)
  }

  lemma AllAcceptGives(e: Env, tx: Transaction, s: Script)
    requires AllAccept(e, tx, s) && Carried(tx, s)
    ensures Accepts(e, tx, s)
  {
  }

  lemma CreatedCell(e: Env, tx: Transaction, s: Script, o: int)
    requires AllAccept(e, tx, s) && Creates(tx, s, o)
    ensures DecodeFeed(tx.outputs[o].data).Some?
    ensures IsUninitialized(DecodeFeed(tx.outputs[o].data).value)
    ensures |s.args| == 64 && DecodeFeed(tx.outputs[o].data).value.feedId == s.args[..32]
  {
    AllAcceptGives(e, tx, s);
  }

  /** The state the one dep with this type hash carries is the live committee's. */
  lemma DepIsLiveState(e: Env, tx: Transaction, committee: Bytes32, live: Cell)
    requires DepsAreLive(e, tx, committee, live) && PublisherSetDep(e, tx, committee).Ok?
    ensures DecodeData(live.data) == Some(PublisherSetDep(e, tx, committee).value)
  {
  }

  /** An accepted update of a cell anchored to this committee stores a price authentic under the live state. */
  lemma UpdatedCell(
      e: Env, tx: Transaction, s: Script, i: int, o: int, committee: Bytes32, live: Cell) returns (p: VerifiedPrice)
    requires AllAccept(e, tx, s) && Continues(tx, s, i, o) && DepsAreLive(e, tx, committee, live)
    ensures |s.args| == 64 && DecodeFeed(tx.inputs[i].cell.data).Some? && DecodeFeed(tx.outputs[o].data).Some?
    ensures var prior, next := DecodeFeed(tx.inputs[i].cell.data).value, DecodeFeed(tx.outputs[o].data).value;
            next.publishTimeMs > prior.publishTimeMs && StaticFieldsUnchanged(prior, next)
            && next.feedId == s.args[..32]
            && (next.publisherSetTypeHash == committee ==>
                  Matches(next, p) && DecodeData(live.data).Some?
                  && Authentic(e.crypto, p, committee, DecodeData(live.data).value))
  {
    var blob, d := SharedCheckRefines(e, tx, s, i, o);
    var next := DecodeFeed(tx.outputs[o].data).value;
    p := VerifyPriceUpdate(e.crypto, blob, s.args[..32], next.publisherSetTypeHash, d).value;
    if next.publisherSetTypeHash == committee {
      DepIsLiveState(e, tx, committee, live);
      DecodeDataIffEncoded(live.data, d);
      VerifiedIsAuthentic(e.crypto, blob, s.args[..32], committee, d);
    }
  }

  /** A feed cell is always well formed and keeps its identity; unless it is untouched since its
      creation, some earlier committee state authenticated exactly what it stores. */
  ghost predicate Grounded(e: Env, committee: Script, feed: Script, h: History, k: nat)
    requires ValidHistory(e, committee, feed, h) && k < |h.feeds|
  {
    h.feeds[k].Some? ==>
      && FeedAt(h, k).Some? && |feed.args| == 64 && FeedAt(h, k).value.feedId == feed.args[..32]
      && (FeedAt(h, k).value.publishTimeMs != 0
          && FeedAt(h, k).value.publisherSetTypeHash == e.scriptHash(committee) ==>
            exists j, p :: StoredUnder(e, committee, feed, h, k, j, p))
  }

  /** The price stored at `k` is `p`, authentic under the committee state of step `j`. */
  ghost predicate StoredUnder(e: Env, committee: Script, feed: Script, h: History, k: nat, j: nat, p: VerifiedPrice)
    requires ValidHistory(e, committee, feed, h) && k < |h.feeds|
  {
    j <= k && FeedAt(h, k).Some? && Matches(FeedAt(h, k).value, p)
    && CommitteeAt(h, j).Some? && Authentic(e.crypto, p, e.scriptHash(committee), CommitteeAt(h, j).value)
  }

  lemma {:induction false} AlwaysGrounded(e: Env, committee: Script, feed: Script, h: History, k: nat)
    requires ValidHistory(e, committee, feed, h) && k < |h.feeds|
    ensures Grounded(e, committee, feed, h, k)
  {
    if k != 0 {
      AlwaysGrounded(e, committee, feed, h, k - 1);
      GroundedStep(e, committee, feed, h, k);
    }
  }

  lemma GroundedStays(e: Env, committee: Script, feed: Script, h: History, last: nat, k: nat)
    requires ValidHistory(e, committee, feed, h) && last < k < |h.feeds| && h.feeds[k] == h.feeds[last]
    requires Grounded(e, committee, feed, h, last)
    ensures Grounded(e, committee, feed, h, k)
  {
    if j, p :| StoredUnder(e, committee, feed, h, last, j, p) {
      assert StoredUnder(e, committee, feed, h, k, j, p);
    }
  }

  lemma GroundedUpdate(e: Env, committee: Script, feed: Script, h: History, k: nat, i: int, o: int)
    requires ValidHistory(e, committee, feed, h) && 0 < k < |h.feeds| && AllAccept(e, h.txs[k - 1], feed)
    requires h.feeds[k].Some?
    requires Continues(h.txs[k - 1], feed, i, o) && h.txs[k - 1].outputs[o] == h.feeds[k].value
    requires DepsAreLive(e, h.txs[k - 1], e.scriptHash(committee), h.cells[h.at[k - 1]])
    ensures Grounded(e, committee, feed, h, k)
  {
    var p := UpdatedCell(e, h.txs[k - 1], feed, i, o, e.scriptHash(committee), h.cells[h.at[k - 1]]);
    if FeedAt(h, k).value.publisherSetTypeHash == e.scriptHash(committee) {
      assert StoredUnder(e, committee, feed, h, k, k - 1, p);
    }
  }

  lemma GroundedStep(e: Env, committee: Script, feed: Script, h: History, k: nat)
    requires ValidHistory(e, committee, feed, h) && 0 < k < |h.feeds| && Grounded(e, committee, feed, h, k - 1)
    ensures Grounded(e, committee, feed, h, k)
  {
    var tx, before, after := h.txs[k - 1], h.feeds[k - 1], h.feeds[k];
    assert AllAccept(e, tx, feed) && FeedStep(e, tx, feed, before, after);
    assert DepsAreLive(e, tx, e.scriptHash(committee), h.cells[h.at[k - 1]]);
    if after.None? {
    } else if after == before {
      GroundedStays(e, committee, feed, h, k - 1, k);
    } else if before.None? {
      var o :| Creates(tx, feed, o) && tx.outputs[o] == after.value;
      CreatedCell(e, tx, feed, o);
    } else {
      var i, o :| Continues(tx, feed, i, o) && tx.inputs[i].cell == before.value && tx.outputs[o] == after.value;
      GroundedUpdate(e, committee, feed, h, k, i, o);
    }
  }

  /** Over any stretch of history a feed cell lives through, its publish time never falls, strictly
      rises whenever its data changes, and its feed and committee never change. */
  lemma {:induction false} FeedMovesForward(e: Env, committee: Script, feed: Script, h: History, a: nat, b: nat)
    requires ValidHistory(e, committee, feed, h) && a <= b < |h.feeds|
    requires forall k :: a <= k <= b ==> h.feeds[k].Some?
    ensures FeedAt(h, a).Some? && FeedAt(h, b).Some?
    ensures StaticFieldsUnchanged(FeedAt(h, a).value, FeedAt(h, b).value)
    ensures FeedAt(h, a).value.publishTimeMs <= FeedAt(h, b).value.publishTimeMs
    ensures h.feeds[a] == h.feeds[b] || FeedAt(h, a).value.publishTimeMs < FeedAt(h, b).value.publishTimeMs
    decreases b
  {
    AlwaysGrounded(e, committee, feed, h, a);
    if a < b {
      FeedMovesForward(e, committee, feed, h, a, b - 1);
      var tx, before, after := h.txs[b - 1], h.feeds[b - 1], h.feeds[b];
      assert FeedStep(e, tx, feed, before, after) && AllAccept(e, tx, feed);
      if after != before {
        var i, o :| Continues(tx, feed, i, o) && tx.inputs[i].cell == before.value && tx.outputs[o] == after.value;
        var p := UpdatedCell(e, tx, feed, i, o, e.scriptHash(committee), h.cells[h.at[b - 1]]);
      }
    }
  }

  /** A consumer's freshness test, once passed by a live feed cell, stays passed for as long as the cell lives. */
  lemma FreshnessLasts(e: Env, committee: Script, feed: Script, h: History, a: nat, b: nat, notBeforeMs: u64)
    requires ValidHistory(e, committee, feed, h) && a <= b < |h.feeds| && forall k :: a <= k <= b ==> h.feeds[k].Some?
    ensures FeedAt(h, a).Some? && FeedAt(h, b).Some?
    ensures PublishedAfter(FeedAt(h, a).value, notBeforeMs).Ok? ==> PublishedAfter(FeedAt(h, b).value, notBeforeMs).Ok?
  {
    FeedMovesForward(e, committee, feed, h, a, b);
  }

  /** A consumer that asks for something newer than what it saw gets it exactly when the cell was updated since. */
  lemma NewerIffUpdated(e: Env, committee: Script, feed: Script, h: History, a: nat, b: nat)
    requires ValidHistory(e, committee, feed, h) && a <= b < |h.feeds| && forall k :: a <= k <= b ==> h.feeds[k].Some?
    ensures FeedAt(h, a).Some? && FeedAt(h, b).Some?
    ensures PublishedAfter(FeedAt(h, b).value, FeedAt(h, a).value.publishTimeMs).Ok? <==> h.feeds[a] != h.feeds[b]
  {
    FeedMovesForward(e, committee, feed, h, a, b);
  }

  /** What a consumer gets: the stored price is a message proven in a header that a quorum signed, and
      that quorum belongs to the very key set the committee cell names now under the stored index. */
  ghost predicate BackedNow(c: Crypto, stored: PriceFeedData, now: PublisherSetData, p: VerifiedPrice) {
    && Trusts(now, stored.setIndex) && Matches(stored, p)
    && (exists signatures :: QuorumSigned(c, signatures, SigningHash(c, p.header), NamedSet(now, stored.setIndex)))
    && (exists proof :: VerifyProof(c, p.header.merkleRoot, LeafHash(c, EncodeMessage(p.message)), proof))
  }

  /** Whenever `check_feed_cell` accepts a live feed cell against the live committee cell, the price in
      it is backed by the key set the committee stands behind at that moment. */
  lemma AcceptedPriceIsBacked(
      e: Env, committee: Script, feed: Script, h: History, k: nat, feedId: Bytes32) returns (p: VerifiedPrice)
    requires ValidHistory(e, committee, feed, h) && k < |h.feeds| && h.feeds[k].Some? && CommitteeAt(h, k).Some?
    requires CheckFeedCell(h.feeds[k].value.data, feedId, e.scriptHash(committee), CommitteeAt(h, k).value).Ok?
    ensures BackedNow(e.crypto,
        CheckFeedCell(h.feeds[k].value.data, feedId, e.scriptHash(committee), CommitteeAt(h, k).value).value,
                      CommitteeAt(h, k).value, p)
    ensures p.header.publisherSetTypeHash == e.scriptHash(committee) && p.message.feedId == feedId
  {
    AlwaysGrounded(e, committee, feed, h, k);
    var j: nat, q: VerifiedPrice :| StoredUnder(e, committee, feed, h, k, j, q);
    p := q;
    SameKeysThenAndNow(e, committee, feed, h, j, k, p.header.setIndex);
  }

  lemma SameKeysThenAndNow(e: Env, committee: Script, feed: Script, h: History, j: nat, k: nat, index: u32)
    requires ValidHistory(e, committee, feed, h) && j < |h.at| && k < |h.at|
    requires CommitteeAt(h, j).Some? && CommitteeAt(h, k).Some?
    requires Trusts(CommitteeAt(h, j).value, index) && Trusts(CommitteeAt(h, k).value, index)
    ensures NamedSet(CommitteeAt(h, j).value, index) == NamedSet(CommitteeAt(h, k).value, index)
  {
    var states, ops := Governance.RunOfCells(e, committee, h.cells, h.governance);
    Governance.IndexNamesOneSet(states, ops, h.at[j], h.at[k], index);
  }
}
