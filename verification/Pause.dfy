/** Pausing a committee stops every price, and nothing else does. */
module Pause {
  import opened Assembly
  import opened Bytes
  import opened Governance
  import opened Hashing
  import opened MirrorCommittee
  import opened PriceFeeds
  import PriceFeedScript
  import opened PriceUpdates
  import opened PublisherSets
  import opened Transactions
  import opened Wrappers

  /** The flag a committee is created with, then what the last of its pauses and unpauses left. */
  function PausedAfter(atCreation: bool, ops: seq<u8>): bool {
    if ops == [] then atCreation
    else if ops[|ops| - 1] == OP_PAUSE then true
    else if ops[|ops| - 1] == OP_UNPAUSE then false
    else PausedAfter(atCreation, ops[..|ops| - 1])
  }

  ghost predicate PausedAt(states: seq<PublisherSetData>, ops: seq<u8>, k: nat)
    requires k < |states| && k <= |ops|
  {
    PausedAfter(states[0].governanceFlags == 2, ops[..k])
  }

  /** The flag byte is two exactly after a pause, and zero otherwise. */
  lemma {:induction false} FlagFollowsOps(states: seq<PublisherSetData>, ops: seq<u8>, k: nat)
    requires StateRun(states, ops) && k < |states|
    ensures states[k].governanceFlags == if PausedAt(states, ops, k) then 2 else 0
  {
    if k > 0 {
      FlagFollowsOps(states, ops, k - 1);
      assert ops[..k][..k - 1] == ops[..k - 1];
      assert CheckTransition(states[k - 1], states[k], ops[k - 1]).Ok?;
    }
  }

  /** What each reader of the committee's state answers while it is paused. */
  ghost predicate RefusesAll(c: Crypto, d: PublisherSetData) {
    && (forall blob, feedId, committee :: VerifyPriceUpdate(c, blob, feedId, committee, d).Err?)
    && (forall data, feedId, committee :: CheckFeedCell(data, feedId, committee, d).Err?)
  }

  ghost predicate NeverSaysPaused(c: Crypto, d: PublisherSetData) {
    && (forall blob, feedId, committee ::
          VerifyPriceUpdate(c, blob, feedId, committee, d) != Err(VerifyError.Paused))
    && (forall data, feedId, committee ::
          CheckFeedCell(data, feedId, committee, d) != Err(FeedCheckError.Paused))
  }

  lemma FlagStopsPrice(c: Crypto, blob: Bytes, feedId: Bytes32, committee: Bytes32, d: PublisherSetData)
    ensures d.governanceFlags == 2 ==> VerifyPriceUpdate(c, blob, feedId, committee, d).Err?
    ensures d.governanceFlags == 0 ==> VerifyPriceUpdate(c, blob, feedId, committee, d) != Err(VerifyError.Paused)
  {
  }

  lemma FlagStopsCell(data: Bytes, feedId: Bytes32, committee: Bytes32, d: PublisherSetData)
    ensures d.governanceFlags == 2 ==> CheckFeedCell(data, feedId, committee, d).Err?
    ensures d.governanceFlags == 0 ==> CheckFeedCell(data, feedId, committee, d) != Err(FeedCheckError.Paused)
  {
  }

  /** On chain: no price verifies and no cell is usable under the state if the last pause or unpause was a
      pause; otherwise nothing is refused for being paused. */
  lemma PauseStopsChain(c: Crypto, states: seq<PublisherSetData>, ops: seq<u8>, k: nat)
    requires StateRun(states, ops) && k < |states|
    ensures PausedAt(states, ops, k) ==> RefusesAll(c, states[k])
    ensures !PausedAt(states, ops, k) ==> NeverSaysPaused(c, states[k])
  {
    FlagFollowsOps(states, ops, k);
    forall blob, feedId, committee { FlagStopsPrice(c, blob, feedId, committee, states[k]); }
    forall data, feedId, committee { FlagStopsCell(data, feedId, committee, states[k]); }
  }

  /** A committee whose one cell dep is paused has no feed updated in the transaction. */
  lemma PauseStopsUpdates(
      e: Env, tx: Transaction, s: Script, i: int, o: int, states: seq<PublisherSetData>, ops: seq<u8>, k: nat)
    requires StateRun(states, ops) && k < |states| && PausedAt(states, ops, k)
    requires Continues(tx, s, i, o) && DecodeFeed(tx.outputs[o].data).Some?
    requires PriceFeedScript.PublisherSetDep(e, tx, DecodeFeed(tx.outputs[o].data).value.publisherSetTypeHash)
        == Ok(states[k])
    ensures !PriceFeedScript.AllAccept(e, tx, s)
  {
    PauseStopsChain(e.crypto, states, ops, k);
    if PriceFeedScript.AllAccept(e, tx, s) {
      var blob, d := PriceFeedScript.SharedCheckRefines(e, tx, s, i, o);
    }
  }

  lemma {:induction false} MirrorPaused(states: seq<PublisherSetData>, ops: seq<u8>, seen: seq<Sighting>)
    requires StateRun(states, ops) && InOrder(states, seen) && seen != []
    ensures AfterSeeing(states, seen).paused <==> PausedAt(states, ops, seen[|seen| - 1].at)
  {
    AlwaysFollows(states, ops, seen);
    FlagFollowsOps(states, ops, seen[|seen| - 1].at);
  }

  /** Off chain: a mirror that last saw a paused state refuses every blob, and one that last saw any other
      never refuses one for being paused. */
  lemma {:induction false} PauseStopsMirror(
      states: seq<PublisherSetData>, ops: seq<u8>, seen: seq<Sighting>, typeHash: Bytes32, c: Crypto, blob: Bytes)
    requires StateRun(states, ops) && InOrder(states, seen) && seen != []
    ensures var verdict := Verify(AfterSeeing(states, seen), typeHash, c, blob);
            if PausedAt(states, ops, seen[|seen| - 1].at) then verdict.Err? else verdict != Err(CommitteePaused)
  {
    MirrorPaused(states, ops, seen);
  }

  /** A committee may be created paused: then it is, with no pause among its operations. */
  lemma CreatedPaused(d: PublisherSetData)
    requires ValidData(d) && d.governanceNonce == 0 && d.current.setIndex == 0 && d.previous.None?
    requires d.governanceFlags == 2
    ensures StateRun([d], []) && PausedAt([d], [], 0) && forall c: Crypto :: RefusesAll(c, d)
  {
  }
}
