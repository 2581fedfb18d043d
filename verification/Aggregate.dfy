/** Aggregating a tick's observations into messages: medians, and the exponential moving average. */
module Aggregate {
  import opened Bytes
  import opened Fixed
  import opened PublisherSets
  import opened Wrappers

  /** The fields of a feed's configuration that aggregation reads. */
  datatype FeedConfig = FeedConfig(feedId: Bytes32, expo: i32, toleranceBps: nat, emaHalfLifeMs: nat)

  datatype ObservationEntry = ObservationEntry(feedId: Bytes32, price: i64, conf: u64, sourceTimeMs: u64)

  datatype Observation = Observation(
    publisherSetTypeHash: Bytes32, setIndex: u32, tickMs: u64, configHash: Bytes32, publisherIndex: u8,
    entries: seq<ObservationEntry>)

  /** A feed's state after its latest finalized tick. */
  datatype FeedState = FeedState(tickMs: u64, emaPrice: i64, emaConf: u64)

  type FeedStates = map<Bytes32, FeedState>

  /** A message before its fields are known to fit their encoding. */
  datatype Draft = Draft(
    feedId: Bytes32, price: int, conf: int, expo: i32, prevPublishTimeMs: u64, emaPrice: int, emaConf: int,
    sourceTimeMs: int, numPublishers: nat)

  /** The time constant, half-life / ln 2. */
  function EmaTauMs(halfLifeMs: nat): nat { halfLifeMs * 1_000_000 / 693_147 }

  lemma EmaTauPositive(halfLifeMs: nat)
    requires halfLifeMs > 0
    ensures EmaTauMs(halfLifeMs) > 0
  {
  }

  /** The first value starts the average; dividing by zero throws. */
  function NextEma(previous: Option<int>, value: int, dtMs: int, tauMs: int): Option<int> {
    if previous.None? then Some(value)
    else if dtMs + tauMs == 0 then None
    else Some(previous.value + TruncDiv((value - previous.value) * dtMs, dtMs + tauMs))
  }

  // ----- the entries for one feed

  function FeedEntries(entries: seq<ObservationEntry>, feedId: Bytes32): seq<ObservationEntry> {
    if entries == [] then []
    else (if entries[0].feedId == feedId then [entries[0]] else []) + FeedEntries(entries[1..], feedId)
  }

  function AllEntries(observations: seq<Observation>, feedId: Bytes32): seq<ObservationEntry> {
    if observations == [] then []
    else FeedEntries(observations[0].entries, feedId) + AllEntries(observations[1..], feedId)
  }

  function Prices(entries: seq<ObservationEntry>): (r: seq<int>)
    ensures |r| == |entries| && forall i :: 0 <= i < |r| ==> r[i] == entries[i].price
  {
    seq(|entries|, i requires 0 <= i < |entries| => entries[i].price)
  }

  function Confs(entries: seq<ObservationEntry>): (r: seq<int>)
    ensures |r| == |entries| && forall i :: 0 <= i < |r| ==> r[i] == entries[i].conf
  {
    seq(|entries|, i requires 0 <= i < |entries| => entries[i].conf)
  }

  function SourceTimes(entries: seq<ObservationEntry>): (r: seq<int>)
    ensures |r| == |entries| && forall i :: 0 <= i < |r| ==> r[i] == entries[i].sourceTimeMs
  {
    seq(|entries|, i requires 0 <= i < |entries| => entries[i].sourceTimeMs)
  }

  /** One feed's message from its entries; `None` where the average divides by zero. */
  function AggregateFeed(
      feed: FeedConfig, entries: seq<ObservationEntry>, tickMs: u64, states: FeedStates): Option<Draft>
    requires entries != []
  {
    var price, conf := Median(Prices(entries)), Median(Confs(entries));
    var previous := if feed.feedId in states then Some(states[feed.feedId]) else None;
    match Averages(previous, price, conf, tickMs, EmaTauMs(feed.emaHalfLifeMs))
    case None => None
    case Some((emaPrice, emaConf)) =>
      Some(Draft(feed.feedId, price, conf, feed.expo, if previous.Some? then previous.value.tickMs else 0,
                 emaPrice, emaConf, Median(SourceTimes(entries)), |entries|))
  }

  /** Both averages, over the gap since the feed's latest finalized tick. */
  function Averages(previous: Option<FeedState>, price: int, conf: int, tickMs: u64, tauMs: int): Option<(int, int)> {
    if previous.None? then Some((price, conf))
    else
      var dt := tickMs - previous.value.tickMs;
      match (NextEma(Some(previous.value.emaPrice), price, dt, tauMs),
          NextEma(Some(previous.value.emaConf), conf, dt, tauMs))
      case (Some(emaPrice), Some(emaConf)) => Some((emaPrice, emaConf))
      case _ => None
  }

  /** Every feed that a quorum of observations prices, in the configuration's order. */
  function AggregateMessages(
      feeds: seq<FeedConfig>, observations: seq<Observation>, quorum: nat, tickMs: u64,
      states: FeedStates): Option<seq<Draft>>
    requires quorum > 0
  {
    if feeds == [] then Some([])
    else
      var entries := AllEntries(observations, feeds[|feeds| - 1].feedId);
      match AggregateMessages(feeds[..|feeds| - 1], observations, quorum, tickMs, states)
      case None => None
      case Some(messages) =>
        if |entries| < quorum then Some(messages)
        else
          match AggregateFeed(feeds[|feeds| - 1], entries, tickMs, states)
          case None => None
          case Some(m) => Some(messages + [m])
  }

  method ComputeMessages(
      feeds: seq<FeedConfig>, observations: seq<Observation>, quorum: nat, tickMs: u64, states: FeedStates)
      returns (r: Option<seq<Draft>>)
    requires quorum > 0
    ensures r == AggregateMessages(feeds, observations, quorum, tickMs, states)
  {
    var messages: seq<Draft> := [];
    for k := 0 to |feeds|
      invariant AggregateMessages(feeds[..k], observations, quorum, tickMs, states) == Some(messages)
    {
      var feed := feeds[k];
      assert feeds[..k + 1][..k] == feeds[..k];
      var entries := CollectEntries(observations, feed.feedId);
      if |entries| >= quorum {
        var m := AggregateFeed(feed, entries, tickMs, states);
        if m.None? {
          OnceThrown(feeds, observations, quorum, tickMs, states, k + 1);
          return None;
        }
        messages := messages + [m.value];
      }
    }
    assert feeds[..|feeds|] == feeds;
    return Some(messages);
  }

  lemma {:induction false} OnceThrown(
      feeds: seq<FeedConfig>, observations: seq<Observation>, quorum: nat, tickMs: u64, states: FeedStates, k: nat)
    requires quorum > 0 && k <= |feeds| && AggregateMessages(feeds[..k], observations, quorum, tickMs, states).None?
    ensures AggregateMessages(feeds, observations, quorum, tickMs, states).None?
    decreases |feeds| - k
  {
    if k == |feeds| {
      assert feeds[..k] == feeds;
    } else {
      assert feeds[..k + 1][..k] == feeds[..k];
      OnceThrown(feeds, observations, quorum, tickMs, states, k + 1);
    }
  }

  method CollectEntries(observations: seq<Observation>, feedId: Bytes32) returns (entries: seq<ObservationEntry>)
    ensures entries == AllEntries(observations, feedId)
  {
    entries := [];
    assert observations[0..] == observations;
    for k := 0 to |observations|
      invariant entries + AllEntries(observations[k..], feedId) == AllEntries(observations, feedId)
    {
      assert observations[k..][1..] == observations[k + 1..];
      entries := entries + FeedEntries(observations[k].entries, feedId);
    }
    assert observations[|observations|..] == [];
  }

  // ----- Byzantine observers

  predicate DistinctEntries(o: Observation) {
    forall i, j :: 0 <= i < j < |o.entries| ==> o.entries[i].feedId != o.entries[j].feedId
  }

  /** What the chosen observations of a proposal are: at least a quorum, one per publisher, each naming a feed once. */
  predicate ChosenWell(observations: seq<Observation>) {
    (forall i, j :: 0 <= i < j < |observations| ==> observations[i].publisherIndex != observations[j].publisherIndex)
    && forall i :: 0 <= i < |observations| ==> DistinctEntries(observations[i])
  }

  /** The author of each entry for a feed, in the same order as the entries. */
  function Authors(observations: seq<Observation>, feedId: Bytes32): (r: seq<nat>)
    ensures |r| == |AllEntries(observations, feedId)|
  {
    if observations == [] then []
    else
      var own := FeedEntries(observations[0].entries, feedId);
      seq(|own|, i => observations[0].publisherIndex) + Authors(observations[1..], feedId)
  }

  lemma {:induction false} FeedEntriesMembers(entries: seq<ObservationEntry>, feedId: Bytes32)
    ensures forall e :: e in FeedEntries(entries, feedId) ==> e in entries && e.feedId == feedId
  {
    if entries != [] { FeedEntriesMembers(entries[1..], feedId); }
  }

  lemma {:induction false} AtMostOneEntry(entries: seq<ObservationEntry>, feedId: Bytes32)
    requires forall i, j :: 0 <= i < j < |entries| ==> entries[i].feedId != entries[j].feedId
    ensures |FeedEntries(entries, feedId)| <= 1
  {
    if entries != [] {
      var rest := entries[1..];
      assert forall i :: 0 <= i < |rest| ==> rest[i] == entries[i + 1];
      AtMostOneEntry(rest, feedId);
      FeedEntriesMembers(rest, feedId);
      if FeedEntries(rest, feedId) != [] {
        var e := FeedEntries(rest, feedId)[0];
        assert e in rest && e.feedId == feedId;
      }
    }
  }

  /** The observation an entry for the feed came from. */
  lemma {:induction false} AuthorOf(observations: seq<Observation>, feedId: Bytes32, k: nat) returns (o: Observation)
    requires k < |Authors(observations, feedId)|
    ensures o in observations && o.publisherIndex == Authors(observations, feedId)[k]
    ensures AllEntries(observations, feedId)[k] in o.entries && AllEntries(observations, feedId)[k].feedId == feedId
  {
    var own := FeedEntries(observations[0].entries, feedId);
    if k < |own| {
      o := observations[0];
      FeedEntriesMembers(o.entries, feedId);
      assert AllEntries(observations, feedId)[k] == own[k];
    } else {
      o := AuthorOf(observations[1..], feedId, k - |own|);
    }
  }

  lemma {:induction false} AuthorsDistinct(observations: seq<Observation>, feedId: Bytes32, i: nat, j: nat)
    requires ChosenWell(observations) && i < j < |Authors(observations, feedId)|
    ensures Authors(observations, feedId)[i] != Authors(observations, feedId)[j]
  {
    var first, rest := observations[0], observations[1..];
    assert DistinctEntries(first);
    AtMostOneEntry(first.entries, feedId);
    var n := |FeedEntries(first.entries, feedId)|;
    assert ChosenWell(rest);
    if i < n {
      var o := AuthorOf(rest, feedId, j - n);
      var k :| 0 <= k < |rest| && rest[k] == o;
      assert observations[k + 1] == o;
    } else {
      AuthorsDistinct(rest, feedId, i - n, j - n);
    }
  }

  /** A range each for price, confidence and source time. */
  datatype Ranges = Ranges(price: (int, int), conf: (int, int), time: (int, int)) {
    predicate Hold(price: int, conf: int, time: int) {
      this.price.0 <= price <= this.price.1 && this.conf.0 <= conf <= this.conf.1 && this.time.0 <= time <= this.time.1
    }
  }

  /** Every honest observation of the feed has its values in the ranges. */
  ghost predicate HonestWithin(observations: seq<Observation>, faulty: set<nat>, feedId: Bytes32, r: Ranges) {
    forall o, e :: o in observations && o.publisherIndex !in faulty && e in o.entries && e.feedId == feedId ==>
      r.Hold(e.price, e.conf, e.sourceTimeMs)
  }

  lemma FaultyAreMinority(signers: PublisherSet, faulty: set<nat>, count: nat)
    requires signers.pubkeys != [] && |faulty| <= |signers.pubkeys| - Quorum(signers) && count >= Quorum(signers)
    ensures 2 * |faulty| < count
  {
  }

  /** With at most n - quorum faulty publishers, the medians of a feed that reaches quorum lie between the
      least and the greatest value an honest publisher observed. */
  lemma {:induction false} MediansBetweenHonest(
      signers: PublisherSet, faulty: set<nat>, feedId: Bytes32, observations: seq<Observation>, r: Ranges)
    requires signers.pubkeys != [] && |faulty| <= |signers.pubkeys| - Quorum(signers)
    requires ChosenWell(observations) && |AllEntries(observations, feedId)| >= Quorum(signers)
    requires HonestWithin(observations, faulty, feedId, r)
    ensures var entries := AllEntries(observations, feedId);
            r.Hold(Median(Prices(entries)), Median(Confs(entries)), Median(SourceTimes(entries)))
  {
    var entries, authors := AllEntries(observations, feedId), Authors(observations, feedId);
    FaultyAreMinority(signers, faulty, |entries|);
    forall i, j | 0 <= i < j < |authors| ensures authors[i] != authors[j] {
      AuthorsDistinct(observations, feedId, i, j);
    }
    forall k | 0 <= k < |entries| && authors[k] !in faulty
      ensures r.Hold(entries[k].price, entries[k].conf, entries[k].sourceTimeMs)
    {
      var o := AuthorOf(observations, feedId, k);
    }
    MedianBetweenHonest(Prices(entries), authors, faulty, r.price.0, r.price.1);
    MedianBetweenHonest(Confs(entries), authors, faulty, r.conf.0, r.conf.1);
    MedianBetweenHonest(SourceTimes(entries), authors, faulty, r.time.0, r.time.1);
  }

  /** So does each value the aggregation puts into a message. */
  lemma {:induction false} AggregateBetweenHonest(
      signers: PublisherSet, faulty: set<nat>, feed: FeedConfig, observations: seq<Observation>, tickMs: u64,
      states: FeedStates, r: Ranges)
    requires signers.pubkeys != [] && |faulty| <= |signers.pubkeys| - Quorum(signers)
    requires ChosenWell(observations) && |AllEntries(observations, feed.feedId)| >= Quorum(signers)
    requires HonestWithin(observations, faulty, feed.feedId, r)
    requires AggregateFeed(feed, AllEntries(observations, feed.feedId), tickMs, states).Some?
    ensures var m := AggregateFeed(feed, AllEntries(observations, feed.feedId), tickMs, states).value;
            r.Hold(m.price, m.conf, m.sourceTimeMs)
  {
    MediansBetweenHonest(signers, faulty, feed.feedId, observations, r);
  }

  // ----- the moving average

  lemma TruncDivBetween(a: int, b: int, d: int)
    requires d > 0 && 0 <= b <= d
    ensures a >= 0 ==> 0 <= TruncDiv(a * b, d) <= a
    ensures a <= 0 ==> a <= TruncDiv(a * b, d) <= 0
  {
    var n := Abs(a);
    ShareOf(n, b, d);
    if a < 0 {
      assert a * b == -(n * b);
    }
  }

  /** A fraction b/d of `n`, rounded down, is between zero and `n`. */
  lemma ShareOf(n: nat, b: int, d: int)
    requires d > 0 && 0 <= b <= d
    ensures 0 <= n * b && 0 <= (n * b) / d <= n
  {
    MulMonotone(n, 0, b);
    MulMonotone(n, b, d);
    var q := (n * b) / d;
    DivBounds(n * b, d);
    assert d * (n + 1) == n * d + d;
    if q > n { MulMonotone(d, n + 1, q); }
    if q < 0 { MulMonotone(d, q, -1); }
  }

  // ----- what a message says, without the arithmetic that computes it

  /** The time constant is the half-life over ln 2, to the millisecond below. */
  predicate IsTau(tau: nat, halfLifeMs: nat) { tau * 693_147 <= halfLifeMs * 1_000_000 < (tau + 1) * 693_147 }

  lemma TauIs(tau: nat, halfLifeMs: nat)
    ensures tau == EmaTauMs(halfLifeMs) <==> IsTau(tau, halfLifeMs)
  {
  }

  /** The average moved from `prior` toward `value` by the share `dt` has of `dt + tau`, without the fraction. */
  predicate AverageMoved(prior: int, value: int, next: int, dtMs: int, tau: nat) {
    dtMs + tau != 0 && TowardZero(next - prior, (value - prior) * dtMs, dtMs + tau)
  }

  lemma NextEmaMoves(prior: int, value: int, next: int, dtMs: int, tau: nat)
    ensures NextEma(Some(prior), value, dtMs, tau) == Some(next) <==> AverageMoved(prior, value, next, dtMs, tau)
  {
    if dtMs + tau != 0 { TruncDivIsTowardZero(next - prior, (value - prior) * dtMs, dtMs + tau); }
  }

  /** The averages in a message: the values themselves where none was kept, else one step from what was kept. */
  ghost predicate AveragesMoved(feed: FeedConfig, tickMs: u64, states: FeedStates, m: Draft) {
    if feed.feedId !in states then m.emaPrice == m.price && m.emaConf == m.conf && m.prevPublishTimeMs == 0
    else
      var s := states[feed.feedId];
      m.prevPublishTimeMs == s.tickMs
      && exists tau: nat :: IsTau(tau, feed.emaHalfLifeMs)
           && AverageMoved(s.emaPrice, m.price, m.emaPrice, tickMs - s.tickMs, tau)
           && AverageMoved(s.emaConf, m.conf, m.emaConf, tickMs - s.tickMs, tau)
  }

  /** The message these entries make of the feed. */
  ghost predicate MessageOf(feed: FeedConfig, entries: seq<ObservationEntry>, tickMs: u64, states: FeedStates, m: Draft)
    requires entries != []
  {
    && m.feedId == feed.feedId && m.expo == feed.expo && m.numPublishers == |entries|
    && m.price == Median(Prices(entries)) && m.conf == Median(Confs(entries))
    && m.sourceTimeMs == Median(SourceTimes(entries)) && AveragesMoved(feed, tickMs, states, m)
  }

  lemma AveragesAre(feed: FeedConfig, price: int, conf: int, tickMs: u64, states: FeedStates, m: Draft)
    requires m.price == price && m.conf == conf
    requires m.prevPublishTimeMs == if feed.feedId in states then states[feed.feedId].tickMs else 0
    ensures var previous := if feed.feedId in states then Some(states[feed.feedId]) else None;
            Averages(previous, price, conf, tickMs, EmaTauMs(feed.emaHalfLifeMs)) == Some((m.emaPrice, m.emaConf))
            <==> AveragesMoved(feed, tickMs, states, m)
  {
    if feed.feedId in states {
      var s, tau := states[feed.feedId], EmaTauMs(feed.emaHalfLifeMs);
      TauIs(tau, feed.emaHalfLifeMs);
      NextEmaMoves(s.emaPrice, price, m.emaPrice, tickMs - s.tickMs, tau);
      NextEmaMoves(s.emaConf, conf, m.emaConf, tickMs - s.tickMs, tau);
      forall other: nat | IsTau(other, feed.emaHalfLifeMs) ensures other == tau { TauIs(other, feed.emaHalfLifeMs); }
    }
  }

  /** A feed's message is `m` if and only if `m` is what its entries make. */
  lemma FeedMessageIff(feed: FeedConfig, entries: seq<ObservationEntry>, tickMs: u64, states: FeedStates, m: Draft)
    requires entries != []
    ensures AggregateFeed(feed, entries, tickMs, states) == Some(m) <==> MessageOf(feed, entries, tickMs, states, m)
  {
    var price, conf := Median(Prices(entries)), Median(Confs(entries));
    if m.price == price && m.conf == conf
       && m.prevPublishTimeMs == (if feed.feedId in states then states[feed.feedId].tickMs else 0) {
      AveragesAre(feed, price, conf, tickMs, states, m);
    }
  }

  /** The kept state is a whole time constant ahead of the tick, so the divisor is zero. */
  predicate DividesByZero(feed: FeedConfig, tickMs: u64, states: FeedStates) {
    feed.feedId in states && states[feed.feedId].tickMs >= tickMs
    && IsTau(states[feed.feedId].tickMs - tickMs, feed.emaHalfLifeMs)
  }

  lemma ThrowsIff(feed: FeedConfig, entries: seq<ObservationEntry>, tickMs: u64, states: FeedStates)
    requires entries != []
    ensures AggregateFeed(feed, entries, tickMs, states).None? <==> DividesByZero(feed, tickMs, states)
  {
    if feed.feedId in states && states[feed.feedId].tickMs >= tickMs {
      TauIs(states[feed.feedId].tickMs - tickMs, feed.emaHalfLifeMs);
    }
  }

  /** The feeds at least a quorum of observations price, in the configuration's order. */
  function QuorumFeeds(feeds: seq<FeedConfig>, observations: seq<Observation>, quorum: nat): seq<FeedConfig> {
    if feeds == [] then []
    else
      var last := feeds[|feeds| - 1];
      QuorumFeeds(feeds[..|feeds| - 1], observations, quorum)
      + if |AllEntries(observations, last.feedId)| >= quorum then [last] else []
  }

  lemma {:induction false} QuorumFeedsMembers(feeds: seq<FeedConfig>, observations: seq<Observation>, quorum: nat)
    ensures forall f :: f in QuorumFeeds(feeds, observations, quorum)
                   <==> f in feeds && |AllEntries(observations, f.feedId)| >= quorum
  {
    if feeds != [] {
      QuorumFeedsMembers(feeds[..|feeds| - 1], observations, quorum);
      assert feeds == feeds[..|feeds| - 1] + [feeds[|feeds| - 1]];
    }
  }

  /** One message per feed, the `j`th what the entries for the `j`th feed make of it. */
  ghost predicate MessagesOf(
      feeds: seq<FeedConfig>, observations: seq<Observation>, tickMs: u64, states: FeedStates, messages: seq<Draft>) {
    |messages| == |feeds|
    && forall j :: 0 <= j < |feeds| ==>
         AllEntries(observations, feeds[j].feedId) != []
         && MessageOf(feeds[j], AllEntries(observations, feeds[j].feedId), tickMs, states, messages[j])
  }

  ghost predicate Throws(feeds: seq<FeedConfig>, tickMs: u64, states: FeedStates) {
    exists f :: f in feeds && DividesByZero(f, tickMs, states)
  }

  lemma ThrowsLast(feeds: seq<FeedConfig>, last: FeedConfig, tickMs: u64, states: FeedStates)
    ensures Throws(feeds + [last], tickMs, states)
        <==> Throws(feeds, tickMs, states) || DividesByZero(last, tickMs, states)
  {
    if f :| f in feeds && DividesByZero(f, tickMs, states) { assert f in feeds + [last]; }
    if DividesByZero(last, tickMs, states) { assert last in feeds + [last]; }
  }

  lemma {:induction false} MessagesLast(
      feeds: seq<FeedConfig>, last: FeedConfig, observations: seq<Observation>, tickMs: u64, states: FeedStates,
      messages: seq<Draft>, m: Draft)
    requires MessagesOf(feeds, observations, tickMs, states, messages)
    requires AllEntries(observations, last.feedId) != []
    requires MessageOf(last, AllEntries(observations, last.feedId), tickMs, states, m)
    ensures MessagesOf(feeds + [last], observations, tickMs, states, messages + [m])
  {
  }

  /** A tick's messages are exactly those of the feeds a quorum prices, in order; and there are none only
      where one of these feeds divides by zero. */
  lemma {:induction false} MessagesAreExact(
      feeds: seq<FeedConfig>, observations: seq<Observation>, quorum: nat, tickMs: u64, states: FeedStates)
    requires quorum > 0
    ensures var r := AggregateMessages(feeds, observations, quorum, tickMs, states);
            var priced := QuorumFeeds(feeds, observations, quorum);
            (r.None? <==> Throws(priced, tickMs, states))
            && (r.Some? ==> MessagesOf(priced, observations, tickMs, states, r.value))
  {
    if feeds != [] {
      var before, last := feeds[..|feeds| - 1], feeds[|feeds| - 1];
      var entries, priced := AllEntries(observations, last.feedId), QuorumFeeds(before, observations, quorum);
      MessagesAreExact(before, observations, quorum, tickMs, states);
      if |entries| < quorum {
        assert priced + [] == priced;
      } else {
        ThrowsLast(priced, last, tickMs, states);
        ThrowsIff(last, entries, tickMs, states);
        var r := AggregateMessages(before, observations, quorum, tickMs, states);
        var m := AggregateFeed(last, entries, tickMs, states);
        if r.Some? && m.Some? {
          FeedMessageIff(last, entries, tickMs, states, m.value);
          MessagesLast(priced, last, observations, tickMs, states, r.value, m.value);
        }
      }
    }
  }

  function Occurrences(observations: seq<Observation>, e: ObservationEntry): nat {
    if observations == [] then 0 else multiset(observations[0].entries)[e] + Occurrences(observations[1..], e)
  }

  lemma {:induction false} FeedEntriesCount(entries: seq<ObservationEntry>, feedId: Bytes32, e: ObservationEntry)
    ensures multiset(FeedEntries(entries, feedId))[e] == if e.feedId == feedId then multiset(entries)[e] else 0
  {
    if entries != [] {
      FeedEntriesCount(entries[1..], feedId, e);
      assert entries == [entries[0]] + entries[1..];
    }
  }

  /** The entries aggregated for a feed are all its entries, each as often as it was observed, and no other. */
  lemma {:induction false} EntriesAreAll(observations: seq<Observation>, feedId: Bytes32, e: ObservationEntry)
    ensures multiset(AllEntries(observations, feedId))[e]
        == if e.feedId == feedId then Occurrences(observations, e) else 0
  {
    if observations != [] {
      EntriesAreAll(observations[1..], feedId, e);
      FeedEntriesCount(observations[0].entries, feedId, e);
    }
  }

  /** One step of the average lands between the old average and the new value. */
  lemma EmaStepInHull(previous: int, value: int, dtMs: int, tauMs: int)
    requires dtMs >= 0 && tauMs > 0
    ensures NextEma(Some(previous), value, dtMs, tauMs).Some?
    ensures var next := NextEma(Some(previous), value, dtMs, tauMs).value;
            (previous <= next <= value) || (value <= next <= previous)
  {
    TruncDivBetween(value - previous, dtMs, dtMs + tauMs);
  }

  lemma EmaWithin(previous: Option<int>, value: int, dtMs: int, tauMs: int, lo: int, hi: int)
    requires dtMs >= 0 && tauMs > 0 && lo <= value <= hi && (previous.Some? ==> lo <= previous.value <= hi)
    ensures NextEma(previous, value, dtMs, tauMs).Some? && lo <= NextEma(previous, value, dtMs, tauMs).value <= hi
  {
    if previous.Some? { EmaStepInHull(previous.value, value, dtMs, tauMs); }
  }

  /** A feed's prices over time, each with the gap since the one before it. */
  datatype Tick = Tick(value: int, gapMs: nat)

  function EmaAfter(ticks: seq<Tick>, tauMs: int): Option<int> {
    if ticks == [] then None
    else NextEma(EmaAfter(ticks[..|ticks| - 1], tauMs), ticks[|ticks| - 1].value, ticks[|ticks| - 1].gapMs, tauMs)
  }

  /** The average over any history of ticks lies between the least and the greatest value in it. */
  lemma {:induction false} EmaInHull(ticks: seq<Tick>, tauMs: int, lo: int, hi: int)
    requires ticks != [] && tauMs > 0 && forall i :: 0 <= i < |ticks| ==> lo <= ticks[i].value <= hi
    ensures EmaAfter(ticks, tauMs).Some? && lo <= EmaAfter(ticks, tauMs).value <= hi
  {
    var before, last := ticks[..|ticks| - 1], ticks[|ticks| - 1];
    if before != [] {
      EmaInHull(before, tauMs, lo, hi);
      EmaStepInHull(EmaAfter(before, tauMs).value, last.value, last.gapMs, tauMs);
    }
  }

  /** So every message a tick produces fits its encoding: nothing an observer or the stored state says
      can push a field out of range. */
  predicate Fits(m: Draft) {
    -0x8000_0000_0000_0000 <= m.price < 0x8000_0000_0000_0000 && 0 <= m.conf < 0x1_0000_0000_0000_0000
    && -0x8000_0000_0000_0000 <= m.emaPrice < 0x8000_0000_0000_0000 && 0 <= m.emaConf < 0x1_0000_0000_0000_0000
    && 0 <= m.sourceTimeMs < 0x1_0000_0000_0000_0000 && m.numPublishers < 256
  }

  lemma AggregateFits(feed: FeedConfig, entries: seq<ObservationEntry>, tickMs: u64, states: FeedStates)
    requires 0 < |entries| < 256 && feed.emaHalfLifeMs > 0
    requires feed.feedId in states ==> states[feed.feedId].tickMs <= tickMs
    ensures AggregateFeed(feed, entries, tickMs, states).Some?
    ensures Fits(AggregateFeed(feed, entries, tickMs, states).value)
  {
    MediansFit(entries);
    EmaTauPositive(feed.emaHalfLifeMs);
    AveragesFit(
      if feed.feedId in states then Some(states[feed.feedId]) else None,
      Median(Prices(entries)), Median(Confs(entries)), tickMs,
                EmaTauMs(feed.emaHalfLifeMs));
  }

  lemma AveragesFit(previous: Option<FeedState>, price: i64, conf: u64, tickMs: u64, tauMs: int)
    requires tauMs > 0 && (previous.Some? ==> previous.value.tickMs <= tickMs)
    ensures var r := Averages(previous, price, conf, tickMs, tauMs);
            r.Some? && -0x8000_0000_0000_0000 <= r.value.0 < 0x8000_0000_0000_0000
            && 0 <= r.value.1 < 0x1_0000_0000_0000_0000
  {
    if previous.Some? {
      var s := previous.value;
      EmaWithin(Some(s.emaPrice), price, tickMs - s.tickMs, tauMs, -0x8000_0000_0000_0000, 0x7FFF_FFFF_FFFF_FFFF);
      EmaWithin(Some(s.emaConf), conf, tickMs - s.tickMs, tauMs, 0, 0xFFFF_FFFF_FFFF_FFFF);
    }
  }

  lemma MediansFit(entries: seq<ObservationEntry>)
    requires entries != []
    ensures -0x8000_0000_0000_0000 <= Median(Prices(entries)) < 0x8000_0000_0000_0000
    ensures 0 <= Median(Confs(entries)) < 0x1_0000_0000_0000_0000
    ensures 0 <= Median(SourceTimes(entries)) < 0x1_0000_0000_0000_0000
  {
    MedianInHull(Prices(entries), -0x8000_0000_0000_0000, 0x7FFF_FFFF_FFFF_FFFF);
    MedianInHull(Confs(entries), 0, 0xFFFF_FFFF_FFFF_FFFF);
    MedianInHull(SourceTimes(entries), 0, 0xFFFF_FFFF_FFFF_FFFF);
  }

  /** The aggregate is within `toleranceBps` of this publisher's own price. */
  predicate WithinTolerance(aggregate: int, own: int, toleranceBps: nat) {
    Abs(aggregate - own) * 10_000 <= toleranceBps * Abs(own)
  }
}
