/** Time-weighted averages: a feed averaged over the finalized prices of another feed. */
module Twap {
  import opened Aggregate
  import opened Bytes
  import opened Fixed
  import opened PriceUpdates
  import opened Wrappers

  datatype TwapRule = TwapRule(source: string, windowMs: nat, everyMs: nat, minTicks: nat)

  /** The fields of a feed's configuration that averaging reads; a feed with a rule is a TWAP feed. */
  datatype Feed = Feed(symbol: string, feedId: Bytes32, expo: i32, twap: Option<TwapRule>)

  datatype TwapPoint = TwapPoint(tickMs: u64, price: i64, conf: u64, expo: i32)

  /** A finalized update, decoded: its tick and its messages. */
  datatype Finalized = Finalized(tickMs: u64, messages: seq<Message>)

  /** The end of the window a boundary averages, exclusive start and inclusive end. */
  function WindowEnd(tickMs: u64, tickPeriodMs: nat): int { tickMs - 2 * tickPeriodMs }

  function WindowStart(tickMs: u64, windowMs: nat, tickPeriodMs: nat): int {
    WindowEnd(tickMs, tickPeriodMs) - windowMs
  }

  predicate Averaged(p: TwapPoint, from: int, to: int, expo: i32) { from < p.tickMs <= to && p.expo == expo }

  function InWindow(points: seq<TwapPoint>, from: int, to: int, expo: i32): seq<TwapPoint> {
    if points == [] then []
    else (if Averaged(points[0], from, to, expo) then [points[0]] else []) + InWindow(points[1..], from, to, expo)
  }

  lemma {:induction false} InWindowMembers(points: seq<TwapPoint>, from: int, to: int, expo: i32)
    ensures forall p :: p in InWindow(points, from, to, expo) ==> p in points && Averaged(p, from, to, expo)
  {
    if points != [] { InWindowMembers(points[1..], from, to, expo); }
  }

  function Sum(values: seq<int>): int { if values == [] then 0 else values[0] + Sum(values[1..]) }

  lemma {:induction false} SumBetween(values: seq<int>, lo: int, hi: int)
    requires forall k :: 0 <= k < |values| ==> lo <= values[k] <= hi
    ensures |values| * lo <= Sum(values) <= |values| * hi
  {
    if values != [] {
      SumBetween(values[1..], lo, hi);
      assert |values| * lo == lo + (|values| - 1) * lo && |values| * hi == hi + (|values| - 1) * hi;
    }
  }

  function Mean(values: seq<int>): int
    requires values != []
  {
    TruncDiv(Sum(values), |values|)
  }

  /** Truncating the mean toward zero never leaves the range of the values. */
  lemma MeanInHull(values: seq<int>, lo: int, hi: int)
    requires values != [] && forall k :: 0 <= k < |values| ==> lo <= values[k] <= hi
    ensures lo <= Mean(values) <= hi
  {
    SumBetween(values, lo, hi);
    QuotientBetween(Sum(values), |values|, lo, hi);
  }

  /** The mean is the sum over the count, without the fraction, also below zero. */
  lemma {:induction false} MeanIsExact(values: seq<int>, m: int)
    requires values != []
    ensures m == Mean(values) <==> TowardZero(m, Sum(values), |values|)
  {
    TruncDivIsTowardZero(m, Sum(values), |values|);
  }

  function PointPrices(points: seq<TwapPoint>): (r: seq<int>)
    ensures |r| == |points| && forall k :: 0 <= k < |r| ==> r[k] == points[k].price
  {
    seq(|points|, k requires 0 <= k < |points| => points[k].price)
  }

  function PointConfs(points: seq<TwapPoint>): (r: seq<int>)
    ensures |r| == |points| && forall k :: 0 <= k < |r| ==> r[k] == points[k].conf
  {
    seq(|points|, k requires 0 <= k < |points| => points[k].conf)
  }

  function Deviations(prices: seq<int>, mid: int): (r: seq<int>)
    ensures |r| == |prices| && forall k :: 0 <= k < |r| ==> r[k] == Abs(prices[k] - mid)
  {
    seq(|prices|, k requires 0 <= k < |prices| => Abs(prices[k] - mid))
  }

  /** Median absolute deviation. */
  function Mad(prices: seq<int>): int
    requires prices != []
  {
    Median(Deviations(prices, Median(prices)))
  }

  lemma MadInHull(prices: seq<int>, lo: int, hi: int)
    requires prices != [] && forall k :: 0 <= k < |prices| ==> lo <= prices[k] <= hi
    ensures 0 <= Mad(prices) <= hi - lo
  {
    MedianInHull(prices, lo, hi);
    MedianInHull(Deviations(prices, Median(prices)), 0, hi - lo);
  }

  function NewestTick(points: seq<TwapPoint>): (t: u64)
    ensures forall k :: 0 <= k < |points| ==> points[k].tickMs <= t
    ensures points != [] ==> exists k :: 0 <= k < |points| && points[k].tickMs == t
  {
    if points == [] then 0
    else
      var rest := NewestTick(points[1..]);
      assert forall k :: 0 < k < |points| ==> points[k] == points[1..][k - 1];
      if points[0].tickMs >= rest then points[0].tickMs
      else assert exists k :: 0 <= k < |points| && points[k].tickMs == rest; rest
  }

  /** The averages fit the observation's fields whatever the window holds. */
  lemma AveragesFit(window: seq<TwapPoint>)
    requires window != []
    ensures -0x8000_0000_0000_0000 <= Mean(PointPrices(window)) < 0x8000_0000_0000_0000
    ensures 0 <= Mean(PointConfs(window)) < 0x1_0000_0000_0000_0000
    ensures 0 <= Mad(PointPrices(window)) < 0x1_0000_0000_0000_0000
  {
    MeanInHull(PointPrices(window), -0x8000_0000_0000_0000, 0x7FFF_FFFF_FFFF_FFFF);
    MeanInHull(PointConfs(window), 0, 0xFFFF_FFFF_FFFF_FFFF);
    MadInHull(PointPrices(window), -0x8000_0000_0000_0000, 0x7FFF_FFFF_FFFF_FFFF);
  }

  /** The averaged values of a non-empty window: price, confidence and newest tick. */
  function AveragePoints(window: seq<TwapPoint>): (i64, u64, u64)
    requires window != []
  {
    AveragesFit(window);
    var conf, mad := Mean(PointConfs(window)), Mad(PointPrices(window));
    (Mean(PointPrices(window)), if conf > mad then conf else mad, NewestTick(window))
  }

  /** The entry for one feed at a boundary, unless this publisher must sit it out. */
  function ComputeTwap(
      feed: Feed, points: seq<TwapPoint>, tickMs: u64, tickPeriodMs: nat,
      latest: Option<u64>): (r: Option<ObservationEntry>)
    requires feed.twap.Some?
  {
    var from, to := WindowStart(tickMs, feed.twap.value.windowMs, tickPeriodMs), WindowEnd(tickMs, tickPeriodMs);
    if latest.None? || latest.value < to then None
    else
      var window := InWindow(points, from, to, feed.expo);
      if |window| < feed.twap.value.minTicks || window == [] then None
      else
        var (price, conf, newest) := AveragePoints(window);
        if price <= 0 then None else Some(ObservationEntry(feed.feedId, price, conf, newest))
  }

  /** Every average lies within its window's prices, its confidence within their spread or their own
      confidences, and its source time is the newest tick averaged. */
  lemma TwapInHull(
      feed: Feed, points: seq<TwapPoint>, tickMs: u64, tickPeriodMs: nat, latest: Option<u64>, lo: i64, hi: i64,
      conf: u64)
    requires feed.twap.Some? && ComputeTwap(feed, points, tickMs, tickPeriodMs, latest).Some?
    requires var from := WindowStart(tickMs, feed.twap.value.windowMs, tickPeriodMs);
             var to := WindowEnd(tickMs, tickPeriodMs);
             forall p :: p in points && Averaged(p, from, to, feed.expo) ==> lo <= p.price <= hi && p.conf <= conf
    ensures var r := ComputeTwap(feed, points, tickMs, tickPeriodMs, latest).value;
            lo <= r.price <= hi && r.price > 0 && (r.conf <= conf || r.conf <= hi - lo)
            && WindowStart(tickMs, feed.twap.value.windowMs, tickPeriodMs) < r.sourceTimeMs
                <= WindowEnd(tickMs, tickPeriodMs)
  {
    var from, to := WindowStart(tickMs, feed.twap.value.windowMs, tickPeriodMs), WindowEnd(tickMs, tickPeriodMs);
    var window := InWindow(points, from, to, feed.expo);
    InWindowMembers(points, from, to, feed.expo);
    assert forall k :: 0 <= k < |window| ==> window[k] in window;
    MeanInHull(PointPrices(window), lo, hi);
    MeanInHull(PointConfs(window), 0, conf);
    MadInHull(PointPrices(window), lo, hi);
  }

  lemma {:induction false} InWindowIs(points: seq<TwapPoint>, from: int, to: int, expo: i32, p: TwapPoint)
    ensures multiset(InWindow(points, from, to, expo))[p]
         == if from < p.tickMs <= to && p.expo == expo then multiset(points)[p] else 0
  {
    if points != [] {
      InWindowIs(points[1..], from, to, expo, p);
      assert points == [points[0]] + points[1..];
    }
  }

  predicate IsMax(m: int, a: int, b: int) { m >= a && m >= b && m in {a, b} }

  /** The averages of a window that ends two periods back, for a publisher synced that far: the means of its
      prices and confidences, and the newest of its ticks. */
  ghost predicate IsTwap(
      feed: Feed, window: seq<TwapPoint>, tickMs: u64, tickPeriodMs: nat, latest: Option<u64>, r: ObservationEntry)
    requires feed.twap.Some?
  {
    && latest.Some? && latest.value + 2 * tickPeriodMs >= tickMs && window != [] && |window| >= feed.twap.value.minTicks
    && r.feedId == feed.feedId && r.price > 0 && IsAverage(window, r)
  }

  ghost predicate IsAverage(window: seq<TwapPoint>, r: ObservationEntry)
    requires window != []
  {
    TowardZero(r.price, Sum(PointPrices(window)), |window|) && IsSpread(window, r.conf)
    && IsNewestTick(window, r.sourceTimeMs)
  }

  lemma AverageIff(window: seq<TwapPoint>, r: ObservationEntry)
    requires window != []
    ensures AveragePoints(window) == (r.price, r.conf, r.sourceTimeMs) <==> IsAverage(window, r)
  {
    MeanIsExact(PointPrices(window), r.price);
    SpreadIff(window, r.conf);
    NewestIff(window, r.sourceTimeMs);
  }

  /** The larger of the mean confidence and the median absolute deviation. */
  ghost predicate IsSpread(window: seq<TwapPoint>, conf: int)
    requires window != []
  {
    exists c: int :: TowardZero(c, Sum(PointConfs(window)), |window|) && IsMax(conf, c, Mad(PointPrices(window)))
  }

  ghost predicate IsNewestTick(window: seq<TwapPoint>, t: u64) {
    (exists p :: p in window && p.tickMs == t) && forall p :: p in window ==> p.tickMs <= t
  }

  lemma SpreadIff(window: seq<TwapPoint>, conf: int)
    requires window != []
    ensures IsSpread(window, conf)
       <==> conf == if Mean(PointConfs(window)) > Mad(PointPrices(window)) then Mean(PointConfs(window))
                    else Mad(PointPrices(window))
  {
    var mean := Mean(PointConfs(window));
    MeanIsExact(PointConfs(window), mean);
    if c: int :| TowardZero(c, Sum(PointConfs(window)), |window|) && IsMax(conf, c, Mad(PointPrices(window))) {
      MeanIsExact(PointConfs(window), c);
    }
  }

  lemma {:induction false} NewestIff(window: seq<TwapPoint>, t: u64)
    requires window != []
    ensures t == NewestTick(window) <==> IsNewestTick(window, t)
  {
    var k :| 0 <= k < |window| && window[k].tickMs == NewestTick(window);
    assert window[k] in window;
    if p :| p in window && p.tickMs == t { var j :| 0 <= j < |window| && window[j] == p; }
  }

  lemma {:induction false} WindowAverages(
      feed: Feed, points: seq<TwapPoint>, tickMs: u64, tickPeriodMs: nat, latest: Option<u64>, window: seq<TwapPoint>,
      r: ObservationEntry)
    requires feed.twap.Some? && latest.Some? && latest.value >= WindowEnd(tickMs, tickPeriodMs)
    requires window != [] && |window| >= feed.twap.value.minTicks
    requires var to := WindowEnd(tickMs, tickPeriodMs);
             window == InWindow(points, WindowStart(tickMs, feed.twap.value.windowMs, tickPeriodMs), to, feed.expo)
    ensures ComputeTwap(feed, points, tickMs, tickPeriodMs, latest) == Some(r)
       <==> r.feedId == feed.feedId && r.price > 0 && AveragePoints(window) == (r.price, r.conf, r.sourceTimeMs)
  {
  }

  lemma {:induction false} NoAverage(
      feed: Feed, points: seq<TwapPoint>, tickMs: u64, tickPeriodMs: nat, latest: Option<u64>, window: seq<TwapPoint>)
    requires feed.twap.Some?
    requires var to := WindowEnd(tickMs, tickPeriodMs);
             window == InWindow(points, WindowStart(tickMs, feed.twap.value.windowMs, tickPeriodMs), to, feed.expo)
    requires latest.None? || latest.value < WindowEnd(tickMs, tickPeriodMs) || window == []
             || |window| < feed.twap.value.minTicks
    ensures ComputeTwap(feed, points, tickMs, tickPeriodMs, latest).None?
  {
  }

  lemma {:induction false} EnoughAverages(
      feed: Feed, points: seq<TwapPoint>, tickMs: u64, tickPeriodMs: nat, latest: Option<u64>, window: seq<TwapPoint>,
      r: ObservationEntry)
    requires feed.twap.Some? && latest.Some? && latest.value >= WindowEnd(tickMs, tickPeriodMs)
    requires window != [] && |window| >= feed.twap.value.minTicks
    requires var to := WindowEnd(tickMs, tickPeriodMs);
             window == InWindow(points, WindowStart(tickMs, feed.twap.value.windowMs, tickPeriodMs), to, feed.expo)
    ensures ComputeTwap(feed, points, tickMs, tickPeriodMs, latest) == Some(r)
       <==> IsTwap(feed, window, tickMs, tickPeriodMs, latest, r)
  {
    WindowAverages(feed, points, tickMs, tickPeriodMs, latest, window, r);
    AverageIff(window, r);
  }

  /** A publisher observes an average if and only if it is the one its window gives. */
  lemma {:induction false} TwapIff(
      feed: Feed, points: seq<TwapPoint>, tickMs: u64, tickPeriodMs: nat, latest: Option<u64>, window: seq<TwapPoint>,
      r: ObservationEntry)
    requires feed.twap.Some?
    requires var to := tickMs - 2 * tickPeriodMs;
             window == InWindow(points, to - feed.twap.value.windowMs, to, feed.expo)
    ensures ComputeTwap(feed, points, tickMs, tickPeriodMs, latest) == Some(r)
       <==> IsTwap(feed, window, tickMs, tickPeriodMs, latest, r)
  {
    if latest.None? || latest.value < tickMs - 2 * tickPeriodMs || window == [] || |window| < feed.twap.value.minTicks {
      NoAverage(feed, points, tickMs, tickPeriodMs, latest, window);
    } else {
      EnoughAverages(feed, points, tickMs, tickPeriodMs, latest, window, r);
    }
  }

  /** A feed is due on the multiples of its period. */
  lemma DueIff(feed: Feed, tickMs: u64)
    requires feed.twap.Some? && feed.twap.value.everyMs > 0
    ensures Due(feed, tickMs) <==> exists q: nat :: q * feed.twap.value.everyMs == tickMs
  {
    var every := feed.twap.value.everyMs;
    if Due(feed, tickMs) { assert (tickMs / every) * every == tickMs; }
    if q: nat :| q * every == tickMs { QuotientIff(q, tickMs, every); }
  }

  /** The source is the last feed of that symbol. */
  lemma {:induction false} SourceIdIff(feeds: seq<Feed>, symbol: string, id: Bytes32)
    ensures SourceId(feeds, symbol) == Some(id)
       <==> exists k :: 0 <= k < |feeds| && feeds[k].symbol == symbol && feeds[k].feedId == id
                        && forall j :: k < j < |feeds| ==> feeds[j].symbol != symbol
  {
    if feeds != [] {
      var n := |feeds| - 1;
      SourceIdIff(feeds[..n], symbol, id);
      assert forall j :: 0 <= j < n ==> feeds[..n][j] == feeds[j];
      if k :| 0 <= k < n && feeds[..n][k].symbol == symbol && feeds[..n][k].feedId == id
              && (forall j :: k < j < n ==> feeds[..n][j].symbol != symbol) && feeds[n].symbol != symbol
      {
        assert feeds[k].symbol == symbol;
      }
    }
  }

  // ----- reading the widest window once

  /** One point per message of the source feed, in the updates' order. */
  function PointsOf(updates: seq<Finalized>, source: Bytes32): seq<TwapPoint> {
    if updates == [] then []
    else MessagePoints(updates[0].tickMs, updates[0].messages, source) + PointsOf(updates[1..], source)
  }

  function MessagePoint(tickMs: u64, m: Message): TwapPoint { TwapPoint(tickMs, m.price, m.conf, m.expo) }

  function MessagePoints(tickMs: u64, messages: seq<Message>, source: Bytes32): seq<TwapPoint> {
    if messages == [] then []
    else
      (if messages[0].feedId == source then [MessagePoint(tickMs, messages[0])] else [])
      + MessagePoints(tickMs, messages[1..], source)
  }

  type PointMap = map<Bytes32, seq<TwapPoint>>

  function PointsAt(points: PointMap, source: Bytes32): seq<TwapPoint> {
    if source in points then points[source] else []
  }

  method PointsByFeed(updates: seq<Finalized>) returns (points: PointMap)
    ensures forall source :: PointsAt(points, source) == PointsOf(updates, source)
  {
    points := map[];
    for k := 0 to |updates|
      invariant forall source :: PointsAt(points, source) == PointsOf(updates[..k], source)
    {
      points := AddMessages(points, updates[k]);
      forall source ensures PointsAt(points, source) == PointsOf(updates[..k + 1], source) {
        PointsOfAppend(updates[..k], updates[k], source);
        assert updates[..k + 1] == updates[..k] + [updates[k]];
      }
    }
    assert updates[..|updates|] == updates;
  }

  /** Every list grew by the points of these messages. */
  ghost predicate Grown(before: PointMap, points: PointMap, tickMs: u64, added: seq<Message>) {
    forall source :: PointsAt(points, source) == PointsAt(before, source) + MessagePoints(tickMs, added, source)
  }

  method AddMessages(before: PointMap, u: Finalized) returns (points: PointMap)
    ensures Grown(before, points, u.tickMs, u.messages)
  {
    points := before;
    for k := 0 to |u.messages|
      invariant Grown(before, points, u.tickMs, u.messages[..k])
    {
      var m := u.messages[k];
      assert u.messages[..k + 1] == u.messages[..k] + [m];
      GrownByOne(before, points, u.tickMs, u.messages[..k], m);
      points := points[m.feedId := PointsAt(points, m.feedId) + [MessagePoint(u.tickMs, m)]];
    }
    assert u.messages[..|u.messages|] == u.messages;
  }

  lemma GrownByOne(before: PointMap, points: PointMap, tickMs: u64, added: seq<Message>, m: Message)
    requires Grown(before, points, tickMs, added)
    ensures Grown(before, points[m.feedId := PointsAt(points, m.feedId) + [MessagePoint(tickMs, m)]], tickMs, added
        + [m])
  {
    var next := points[m.feedId := PointsAt(points, m.feedId) + [MessagePoint(tickMs, m)]];
    forall source
        ensures PointsAt(next, source) == PointsAt(before, source) + MessagePoints(tickMs, added + [m], source) {
      MessagePointsAppend(tickMs, added, m, source);
    }
  }

  lemma {:induction false} MessagePointsAppend(tickMs: u64, messages: seq<Message>, m: Message, source: Bytes32)
    ensures MessagePoints(tickMs, messages + [m], source)
         == MessagePoints(tickMs, messages, source) + if m.feedId == source then [MessagePoint(tickMs, m)] else []
  {
    if messages == [] {
      assert messages + [m] == [m];
    } else {
      MessagePointsAppend(tickMs, messages[1..], m, source);
      assert (messages + [m])[1..] == messages[1..] + [m];
    }
  }

  lemma {:induction false} PointsOfAppend(updates: seq<Finalized>, u: Finalized, source: Bytes32)
    ensures PointsOf(updates + [u], source) == PointsOf(updates, source) + MessagePoints(u.tickMs, u.messages, source)
  {
    if updates == [] {
      assert updates + [u] == [u];
    } else {
      var first := MessagePoints(updates[0].tickMs, updates[0].messages, source);
      var rest := PointsOf(updates[1..], source);
      var last := MessagePoints(u.tickMs, u.messages, source);
      PointsOfAppend(updates[1..], u, source);
      assert (updates + [u])[1..] == updates[1..] + [u];
      Associative(first, rest, last);
    }
  }

  /** The finalized updates with `from < tick <= to`, in order. */
  function Between(updates: seq<Finalized>, from: int, to: int): seq<Finalized> {
    if updates == [] then []
    else (if from < updates[0].tickMs <= to then [updates[0]] else []) + Between(updates[1..], from, to)
  }

  predicate Due(feed: Feed, tickMs: u64)
    requires feed.twap.Some? ==> feed.twap.value.everyMs > 0
  {
    feed.twap.Some? && tickMs % feed.twap.value.everyMs == 0
  }

  predicate GoodFeeds(feeds: seq<Feed>) {
    forall k :: 0 <= k < |feeds| && feeds[k].twap.Some? ==> feeds[k].twap.value.everyMs > 0
  }

  /** The widest window of the feeds due at a boundary. */
  function Widest(feeds: seq<Feed>, tickMs: u64): (w: nat)
    requires GoodFeeds(feeds)
    ensures forall k :: 0 <= k < |feeds| && Due(feeds[k], tickMs) ==> feeds[k].twap.value.windowMs <= w
  {
    if feeds == [] then 0
    else
      var rest := Widest(feeds[1..], tickMs);
      assert forall k :: 0 < k < |feeds| ==> feeds[k] == feeds[1..][k - 1];
      if Due(feeds[0], tickMs) && feeds[0].twap.value.windowMs > rest then feeds[0].twap.value.windowMs else rest
  }

  /** The feed a symbol names: the last one, as filling a map leaves it. */
  function SourceId(feeds: seq<Feed>, symbol: string): Option<Bytes32> {
    if feeds == [] then None
    else if feeds[|feeds| - 1].symbol == symbol then Some(feeds[|feeds| - 1].feedId)
    else SourceId(feeds[..|feeds| - 1], symbol)
  }

  function SourcePoints(feeds: seq<Feed>, feed: Feed, updates: seq<Finalized>): seq<TwapPoint>
    requires feed.twap.Some?
  {
    match SourceId(feeds, feed.twap.value.source) case None => [] case Some(id) => PointsOf(updates, id)
  }

  function Entry(e: Option<ObservationEntry>): seq<ObservationEntry> { match e case None => [] case Some(x) => [x] }

  /** Each due feed averaged over its own window of the whole history. */
  function TwapEntries(
      feeds: seq<Feed>, k: nat, tickMs: u64, tickPeriodMs: nat, history: seq<Finalized>,
      latest: Option<u64>): seq<ObservationEntry>
    requires GoodFeeds(feeds) && k <= |feeds|
  {
    if k == 0 then []
    else
      TwapEntries(feeds, k - 1, tickMs, tickPeriodMs, history, latest)
      + if !Due(feeds[k - 1], tickMs) then []
        else Entry(ComputeTwap(feeds[k - 1], SourcePoints(feeds, feeds[k - 1], history), tickMs, tickPeriodMs, latest))
  }

  lemma Associative(a: seq<TwapPoint>, b: seq<TwapPoint>, c: seq<TwapPoint>)
    ensures (a + b) + c == a + (b + c)
  {
  }

  lemma {:induction false} InWindowAppend(a: seq<TwapPoint>, b: seq<TwapPoint>, from: int, to: int, expo: i32)
    ensures InWindow(a + b, from, to, expo) == InWindow(a, from, to, expo) + InWindow(b, from, to, expo)
  {
    if a == [] {
      assert a + b == b;
    } else {
      InWindowAppend(a[1..], b, from, to, expo);
      assert (a + b)[0] == a[0] && (a + b)[1..] == a[1..] + b;
      var first := if Averaged(a[0], from, to, expo) then [a[0]] else [];
      assert InWindow(a, from, to, expo) == first + InWindow(a[1..], from, to, expo);
      Associative(first, InWindow(a[1..], from, to, expo), InWindow(b, from, to, expo));
    }
  }

  lemma {:induction false} OutsideWindow(
      tickMs: u64, messages: seq<Message>, source: Bytes32, from: int, to: int, expo: i32)
    requires !(from < tickMs <= to)
    ensures InWindow(MessagePoints(tickMs, messages, source), from, to, expo) == []
  {
    if messages != [] {
      var rest := MessagePoints(tickMs, messages[1..], source);
      OutsideWindow(tickMs, messages[1..], source, from, to, expo);
      assert ([MessagePoint(tickMs, messages[0])] + rest)[1..] == rest && [] + rest == rest;
    }
  }

  /** Reading more history than the window adds nothing to it. */
  lemma {:induction false} WiderReadSameWindow(
      history: seq<Finalized>, source: Bytes32, wide: int, from: int, to: int, expo: i32)
    requires wide <= from
    ensures InWindow(PointsOf(Between(history, wide, to), source), from, to, expo)
        == InWindow(PointsOf(history, source), from, to, expo)
  {
    if history != [] {
      var u, rest := history[0], history[1..];
      var first := MessagePoints(u.tickMs, u.messages, source);
      WiderReadSameWindow(rest, source, wide, from, to, expo);
      InWindowAppend(first, PointsOf(rest, source), from, to, expo);
      if wide < u.tickMs <= to {
        assert Between(history, wide, to)[1..] == Between(rest, wide, to);
        InWindowAppend(first, PointsOf(Between(rest, wide, to), source), from, to, expo);
      } else {
        OutsideWindow(u.tickMs, u.messages, source, from, to, expo);
        assert Between(history, wide, to) == Between(rest, wide, to);
      }
    }
  }

  lemma {:induction false} WidestIsEnough(
      feeds: seq<Feed>, k: nat, tickMs: u64, tickPeriodMs: nat, history: seq<Finalized>, latest: Option<u64>,
      wide: int)
    requires GoodFeeds(feeds) && k <= |feeds| && wide == WindowStart(tickMs, Widest(feeds, tickMs), tickPeriodMs)
    ensures TwapEntries(feeds, k, tickMs, tickPeriodMs, Between(history, wide, WindowEnd(tickMs, tickPeriodMs)), latest)
         == TwapEntries(feeds, k, tickMs, tickPeriodMs, history, latest)
  {
    if k > 0 {
      WidestIsEnough(feeds, k - 1, tickMs, tickPeriodMs, history, latest, wide);
      var feed := feeds[k - 1];
      if Due(feed, tickMs) && SourceId(feeds, feed.twap.value.source).Some? {
        WiderReadSameWindow(history, SourceId(feeds, feed.twap.value.source).value, wide,
                            WindowStart(tickMs, feed.twap.value.windowMs, tickPeriodMs),
                            WindowEnd(tickMs, tickPeriodMs), feed.expo);
      }
    }
  }

  /** What the publisher runs: one read of the widest window serves every due feed, and each gets exactly
      the entry its own window over the whole history would give it. */
  method ComputeTwapEntries(
      feeds: seq<Feed>, tickMs: u64, tickPeriodMs: nat, history: seq<Finalized>, latest: Option<u64>)
      returns (entries: seq<ObservationEntry>)
    requires GoodFeeds(feeds)
    ensures entries == TwapEntries(feeds, |feeds|, tickMs, tickPeriodMs, history, latest)
  {
    var wide, to := WindowStart(tickMs, Widest(feeds, tickMs), tickPeriodMs), WindowEnd(tickMs, tickPeriodMs);
    var read := Between(history, wide, to);
    var points := PointsByFeed(read);
    entries := [];
    for k := 0 to |feeds|
      invariant entries == TwapEntries(feeds, k, tickMs, tickPeriodMs, read, latest)
    {
      var feed := feeds[k];
      if Due(feed, tickMs) {
        var source := SourceId(feeds, feed.twap.value.source);
        var from := if source.None? then [] else PointsAt(points, source.value);
        entries := entries + Entry(ComputeTwap(feed, from, tickMs, tickPeriodMs, latest));
      }
    }
    WidestIsEnough(feeds, |feeds|, tickMs, tickPeriodMs, history, latest, wide);
  }

  /** Publishers that hold the same finalized updates inside the window, and are synced past its end,
      observe the same entry however much older or newer history each of them holds. */
  lemma {:induction false} SyncedPublishersAgree(
      feed: Feed, source: Bytes32, tickMs: u64, tickPeriodMs: nat, mine: seq<Finalized>, theirs: seq<Finalized>,
      myLatest: u64, theirLatest: u64)
    requires feed.twap.Some?
    requires var from := WindowStart(tickMs, feed.twap.value.windowMs, tickPeriodMs);
             var to := WindowEnd(tickMs, tickPeriodMs);
             Between(mine, from, to) == Between(theirs, from, to) && myLatest >= to && theirLatest >= to
    ensures ComputeTwap(feed, PointsOf(mine, source), tickMs, tickPeriodMs, Some(myLatest))
         == ComputeTwap(feed, PointsOf(theirs, source), tickMs, tickPeriodMs, Some(theirLatest))
  {
    var from, to := WindowStart(tickMs, feed.twap.value.windowMs, tickPeriodMs), WindowEnd(tickMs, tickPeriodMs);
    WiderReadSameWindow(mine, source, from, from, to, feed.expo);
    WiderReadSameWindow(theirs, source, from, from, to, feed.expo);
  }
}
