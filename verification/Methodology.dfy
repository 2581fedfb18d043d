/** How a publisher prices one feed: a price per venue, then one price across venues. */
module Methodology {
  import opened Fixed
  import opened Wrappers

  datatype Quote = Quote(timeMs: int, bid: int, ask: int, bidSize: Option<nat>, askSize: Option<nat>)

  datatype Trade = Trade(timeMs: int, price: int, qty: int)

  /** What the market data keeps: crossed books, free bids and empty trades never enter it. */
  predicate ValidQuotes(quotes: seq<Quote>) { forall k :: 0 <= k < |quotes| ==> 0 < quotes[k].bid <= quotes[k].ask }

  predicate ValidTrades(trades: seq<Trade>) {
    forall k :: 0 <= k < |trades| ==> trades[k].price > 0 && trades[k].qty > 0
  }

  predicate QuotesByTime(quotes: seq<Quote>) {
    forall i, j :: 0 <= i < j < |quotes| ==> quotes[i].timeMs <= quotes[j].timeMs
  }

  predicate TradesByTime(trades: seq<Trade>) {
    forall i, j :: 0 <= i < j < |trades| ==> trades[i].timeMs <= trades[j].timeMs
  }

  /** The book state at a time: the most recent quote at or before it. */
  function LatestQuote(quotes: seq<Quote>, atMs: int): Option<Quote> {
    if quotes == [] then None
    else if quotes[|quotes| - 1].timeMs <= atMs then Some(quotes[|quotes| - 1])
    else LatestQuote(quotes[..|quotes| - 1], atMs)
  }

  // ----- the one-pass trade filter

  predicate Inside(t: Trade, q: Quote, slack: int) { q.bid - slack <= t.price <= q.ask + slack }

  /** Quote `j` is the state in force at `t - tolerance`, or arrives in `(t - tolerance, t + tolerance]`. */
  predicate Candidate(quotes: seq<Quote>, t: Trade, toleranceMs: nat, j: nat) {
    j < |quotes| && quotes[j].timeMs <= t.timeMs + toleranceMs
    && (quotes[j].timeMs > t.timeMs - toleranceMs || j + 1 == |quotes| || quotes[j + 1].timeMs > t.timeMs - toleranceMs)
  }

  /** Quote `j` lets the trade through. */
  predicate Admits(quotes: seq<Quote>, t: Trade, toleranceMs: nat, slack: int, j: nat) {
    Candidate(quotes, t, toleranceMs, j) && Inside(t, quotes[j], slack)
  }

  predicate Accepted(quotes: seq<Quote>, t: Trade, toleranceMs: nat, slack: int) {
    exists j :: 0 <= j < |quotes| && Admits(quotes, t, toleranceMs, slack, j)
  }

  function Kept(trades: seq<Trade>, quotes: seq<Quote>, toleranceMs: nat, slack: int): seq<Trade> {
    if trades == [] then []
    else
      Kept(trades[..|trades| - 1], quotes, toleranceMs, slack)
      + if Accepted(quotes, trades[|trades| - 1], toleranceMs, slack) then [trades[|trades| - 1]] else []
  }

  /** One pass, with a pointer that never moves back, keeps exactly the trades accepted one by one, in order. */
  method TradesInsideBook(
      trades: seq<Trade>, quotes: seq<Quote>, toleranceMs: nat, slack: int) returns (kept: seq<Trade>)
    requires QuotesByTime(quotes) && TradesByTime(trades)
    ensures kept == Kept(trades, quotes, toleranceMs, slack)
  {
    kept := [];
    var lo := 0;
    for k := 0 to |trades|
      invariant lo <= |quotes|
      invariant forall j :: 0 <= j < lo && k < |trades| ==> quotes[j].timeMs <= trades[k].timeMs - toleranceMs
      invariant kept == Kept(trades[..k], quotes, toleranceMs, slack)
    {
      var t := trades[k];
      while lo < |quotes| && quotes[lo].timeMs <= t.timeMs - toleranceMs
        invariant lo <= |quotes|
        invariant forall j :: 0 <= j < lo ==> quotes[j].timeMs <= t.timeMs - toleranceMs
      {
        lo := lo + 1;
      }
      var ok := CheckTrade(quotes, t, toleranceMs, slack, lo);
      assert trades[..k + 1][..k] == trades[..k];
      if ok {
        kept := kept + [t];
      }
    }
    assert trades[..|trades|] == trades;
  }

  /** `lo` is the first quote after `t - tolerance`. */
  method CheckTrade(quotes: seq<Quote>, t: Trade, toleranceMs: nat, slack: int, lo: nat) returns (ok: bool)
    requires QuotesByTime(quotes) && lo <= |quotes|
    requires forall j :: 0 <= j < lo ==> quotes[j].timeMs <= t.timeMs - toleranceMs
    requires lo < |quotes| ==> quotes[lo].timeMs > t.timeMs - toleranceMs
    ensures ok == Accepted(quotes, t, toleranceMs, slack)
  {
    ok := lo > 0 && Inside(t, quotes[lo - 1], slack);
    assert ok ==> Admits(quotes, t, toleranceMs, slack, lo - 1);
    var j := lo;
    while !ok && j < |quotes| && quotes[j].timeMs <= t.timeMs + toleranceMs
      invariant lo <= j <= |quotes|
      invariant ok ==> Accepted(quotes, t, toleranceMs, slack)
      invariant !ok ==> forall i :: 0 <= i < j ==> !Admits(quotes, t, toleranceMs, slack, i)
      decreases |quotes| - j
    {
      ok := Inside(t, quotes[j], slack);
      assert ok ==> Admits(quotes, t, toleranceMs, slack, j);
      j := j + 1;
    }
  }

  // ----- what the filter keeps, against the book states it is documented by

  /** The trade is inside some book state that was in force within `tolerance` of it. */
  ghost predicate InsideSomeState(quotes: seq<Quote>, t: Trade, toleranceMs: nat, slack: int) {
    exists x: int :: InsideStateAt(quotes, t, slack, x) && t.timeMs - toleranceMs <= x <= t.timeMs + toleranceMs
  }

  predicate InsideStateAt(quotes: seq<Quote>, t: Trade, slack: int, x: int) {
    LatestQuote(quotes, x).Some? && Inside(t, LatestQuote(quotes, x).value, slack)
  }

  /** The next quote carries the same time, so quote `j` was never the latest. */
  predicate Shadowed(quotes: seq<Quote>, j: nat) {
    j + 1 < |quotes| && quotes[j + 1].timeMs == quotes[j].timeMs
  }

  predicate OnlyShadowedAdmit(quotes: seq<Quote>, t: Trade, toleranceMs: nat, slack: int) {
    forall j :: 0 <= j < |quotes| && Admits(quotes, t, toleranceMs, slack, j) ==> Shadowed(quotes, j)
  }

  lemma {:induction false} LatestQuoteIsLast(quotes: seq<Quote>, atMs: int) returns (j: int)
    ensures -1 <= j < |quotes| && (j == -1 <==> LatestQuote(quotes, atMs).None?)
    ensures j >= 0 ==> LatestQuote(quotes, atMs) == Some(quotes[j]) && quotes[j].timeMs <= atMs
    ensures forall i :: j < i < |quotes| ==> quotes[i].timeMs > atMs
  {
    if quotes == [] {
      j := -1;
    } else if quotes[|quotes| - 1].timeMs <= atMs {
      j := |quotes| - 1;
    } else {
      j := LatestQuoteIsLast(quotes[..|quotes| - 1], atMs);
    }
  }

  lemma StateIsCandidate(quotes: seq<Quote>, t: Trade, toleranceMs: nat, slack: int)
    requires QuotesByTime(quotes) && InsideSomeState(quotes, t, toleranceMs, slack)
    ensures exists j :: 0 <= j < |quotes| && Admits(quotes, t, toleranceMs, slack, j) && !Shadowed(quotes, j)
  {
    var x :| InsideStateAt(quotes, t, slack, x) && t.timeMs - toleranceMs <= x <= t.timeMs + toleranceMs;
    var j := LatestQuoteIsLast(quotes, x);
    assert Admits(quotes, t, toleranceMs, slack, j) && !Shadowed(quotes, j);
  }

  lemma CandidateIsState(quotes: seq<Quote>, t: Trade, toleranceMs: nat, slack: int, j: nat)
    requires QuotesByTime(quotes) && Admits(quotes, t, toleranceMs, slack, j) && !Shadowed(quotes, j)
    ensures InsideSomeState(quotes, t, toleranceMs, slack)
  {
    var x := if quotes[j].timeMs > t.timeMs - toleranceMs then quotes[j].timeMs else t.timeMs - toleranceMs;
    var last := LatestQuoteIsLast(quotes, x);
    assert last == j by {
      if j + 1 < |quotes| { assert quotes[j].timeMs < quotes[j + 1].timeMs; }
    }
    assert InsideStateAt(quotes, t, slack, x);
  }

  /** The book states near a trade are exactly its candidates with no later quote of the same time. */
  lemma InsideStateIffAdmitted(quotes: seq<Quote>, t: Trade, toleranceMs: nat, slack: int)
    requires QuotesByTime(quotes)
    ensures InsideSomeState(quotes, t, toleranceMs, slack)
       <==> exists j :: 0 <= j < |quotes| && Admits(quotes, t, toleranceMs, slack, j) && !Shadowed(quotes, j)
  {
    if InsideSomeState(quotes, t, toleranceMs, slack) { StateIsCandidate(quotes, t, toleranceMs, slack); }
    if j :| 0 <= j < |quotes| && Admits(quotes, t, toleranceMs, slack, j) && !Shadowed(quotes, j) {
      CandidateIsState(quotes, t, toleranceMs, slack, j);
    }
  }

  /** Nothing inside a book state is dropped. A trade outside all of them is kept exactly when some quote
      admits it and every quote that does shares its time with the next. */
  lemma KeptOutsideStatesIff(quotes: seq<Quote>, t: Trade, toleranceMs: nat, slack: int)
    requires QuotesByTime(quotes)
    ensures InsideSomeState(quotes, t, toleranceMs, slack) ==> Accepted(quotes, t, toleranceMs, slack)
    ensures Accepted(quotes, t, toleranceMs, slack) && !InsideSomeState(quotes, t, toleranceMs, slack)
       <==> Accepted(quotes, t, toleranceMs, slack) && OnlyShadowedAdmit(quotes, t, toleranceMs, slack)
  {
    InsideStateIffAdmitted(quotes, t, toleranceMs, slack);
  }

  predicate DistinctTimes(quotes: seq<Quote>) {
    forall i, j :: 0 <= i < j < |quotes| ==> quotes[i].timeMs != quotes[j].timeMs
  }

  /** So while no two quotes share a millisecond, the filter is the documented one. */
  lemma DistinctTimesAgree(quotes: seq<Quote>, t: Trade, toleranceMs: nat, slack: int)
    requires QuotesByTime(quotes) && DistinctTimes(quotes)
    ensures Accepted(quotes, t, toleranceMs, slack) <==> InsideSomeState(quotes, t, toleranceMs, slack)
  {
    KeptOutsideStatesIff(quotes, t, toleranceMs, slack);
    forall j | 0 <= j < |quotes| ensures !Shadowed(quotes, j) {
      if j + 1 < |quotes| { assert quotes[j].timeMs != quotes[j + 1].timeMs; }
    }
  }

  /** Two quotes of one millisecond: the first admits a trade although it was never in force. */
  lemma SharedTimesKeepMore(quotes: seq<Quote>, t: Trade)
    requires quotes == [Quote(10, 5, 5, None, None), Quote(10, 7, 7, None, None)] && t == Trade(10, 5, 1)
    ensures Accepted(quotes, t, 1, 0) && !InsideSomeState(quotes, t, 1, 0)
  {
    assert Admits(quotes, t, 1, 0, 0);
    KeptOutsideStatesIff(quotes, t, 1, 0);
  }

  // ----- one venue

  const ONE := 1_000_000_000_000_000_000
  const DEFAULT_MAX_BOOK_AGE_MS := 60_000
  const SAMPLE_MS := 100

  datatype PriceMethod = PriceMethod(
    usesVwap: bool, windowMs: nat, maxQuoteAgeMs: nat, maxBookAgeMs: Option<nat>, maxSpreadBps: nat,
    minTopNotional: Option<nat>, maxDeviationBps: Option<nat>, vwapClampToBook: Option<bool>,
    tradeBookToleranceMs: Option<nat>, tradeBookSlackPct: Option<nat>, vwapMinWindowNotional: Option<nat>,
    minVenues: nat)

  /** One market's data; `polled` venues stamp trades with the time of the poll. */
  datatype Market = Market(quotes: seq<Quote>, trades: seq<Trade>, alive: Option<int>, polled: bool)

  datatype VenuePrice = VenuePrice(price: int, halfSpread: int, timeMs: int, gap: int)

  predicate ValidMarket(m: Market) {
    ValidQuotes(m.quotes) && ValidTrades(m.trades) && QuotesByTime(m.quotes) && TradesByTime(m.trades)
  }

  function QuotesIn(quotes: seq<Quote>, from: int, to: int): (r: seq<Quote>)
    ensures forall q :: q in r ==> q in quotes && from < q.timeMs <= to
  {
    if quotes == [] then []
    else
      QuotesIn(quotes[..|quotes| - 1], from, to)
      + if from < quotes[|quotes| - 1].timeMs <= to then [quotes[|quotes| - 1]] else []
  }

  function TradesIn(trades: seq<Trade>, from: int, to: int): (r: seq<Trade>)
    ensures forall t :: t in r ==> t in trades && from < t.timeMs <= to
  {
    if trades == [] then []
    else
      TradesIn(trades[..|trades| - 1], from, to)
      + if from < trades[|trades| - 1].timeMs <= to then [trades[|trades| - 1]] else []
  }

  function Bids(quotes: seq<Quote>): (r: seq<int>)
    ensures |r| == |quotes| && forall k :: 0 <= k < |r| ==> r[k] == quotes[k].bid
  {
    seq(|quotes|, k requires 0 <= k < |quotes| => quotes[k].bid)
  }

  function Asks(quotes: seq<Quote>): (r: seq<int>)
    ensures |r| == |quotes| && forall k :: 0 <= k < |r| ==> r[k] == quotes[k].ask
  {
    seq(|quotes|, k requires 0 <= k < |quotes| => quotes[k].ask)
  }

  function HalfSpreads(quotes: seq<Quote>): (r: seq<int>)
    ensures |r| == |quotes| && forall k :: 0 <= k < |r| ==> r[k] == TruncDiv(quotes[k].ask - quotes[k].bid, 2)
  {
    seq(|quotes|, k requires 0 <= k < |quotes| => TruncDiv(quotes[k].ask - quotes[k].bid, 2))
  }

  function Mids(quotes: seq<Quote>): (r: seq<int>)
    ensures |r| == |quotes| && forall k :: 0 <= k < |r| ==> r[k] == TruncDiv(quotes[k].bid + quotes[k].ask, 2)
  {
    seq(|quotes|, k requires 0 <= k < |quotes| => TruncDiv(quotes[k].bid + quotes[k].ask, 2))
  }

  function Volume(trades: seq<Trade>): int {
    if trades == [] then 0 else Volume(trades[..|trades| - 1]) + trades[|trades| - 1].qty
  }

  function Notional(trades: seq<Trade>): int {
    if trades == [] then 0 else Notional(trades[..|trades| - 1]) + trades[|trades| - 1].price * trades[|trades| - 1].qty
  }

  function SpreadBps(q: Quote): int
    requires 0 < q.bid <= q.ask
  {
    TruncDiv((q.ask - q.bid) * 20_000, q.ask + q.bid)
  }

  function MaxBookAge(m: PriceMethod): nat {
    if m.maxBookAgeMs.Some? then m.maxBookAgeMs.value else DEFAULT_MAX_BOOK_AGE_MS
  }

  predicate IsAlive(m: PriceMethod, alive: Option<int>, tickMs: int) {
    alive.Some? && tickMs - alive.value <= m.maxQuoteAgeMs
  }

  predicate BigEnough(m: PriceMethod, q: Quote) {
    m.minTopNotional.Some? && q.bidSize.Some? && q.askSize.Some? ==>
      TruncDiv(q.bidSize.value * q.bid, ONE) >= m.minTopNotional.value * ONE
      && TruncDiv(q.askSize.value * q.ask, ONE) >= m.minTopNotional.value * ONE
  }

  /** The book state at a time, unless the venue is silent or the state is old, wide or dust. */
  function UsableQuote(m: PriceMethod, market: Market, atMs: int, tickMs: int): (r: Option<Quote>)
    requires ValidQuotes(market.quotes)
    ensures r.Some? ==> r.value in market.quotes
  {
    if !IsAlive(m, market.alive, tickMs) then None
    else
      LatestQuoteMember(market.quotes, atMs);
      match LatestQuote(market.quotes, atMs)
      case None => None
      case Some(q) =>
        if atMs - q.timeMs > MaxBookAge(m) || SpreadBps(q) > m.maxSpreadBps || !BigEnough(m, q) then None
        else Some(q)
  }

  lemma {:induction false} LatestQuoteMember(quotes: seq<Quote>, atMs: int)
    ensures LatestQuote(quotes, atMs).Some? ==> LatestQuote(quotes, atMs).value in quotes
  {
    if quotes != [] { LatestQuoteMember(quotes[..|quotes| - 1], atMs); }
  }

  function BookFrom(m: PriceMethod, tickMs: int): int {
    var tolerance := if m.tradeBookToleranceMs.Some? then m.tradeBookToleranceMs.value else 0;
    tickMs - m.windowMs - tolerance - MaxBookAge(m)
  }

  /** The book the v2 trade rule looks at, and the part of it inside the pricing window. */
  function Book(m: PriceMethod, market: Market, tickMs: int): seq<Quote> {
    QuotesIn(market.quotes, BookFrom(m, tickMs), tickMs)
  }

  /** Quotes of the window, or the state in force when none arrived. */
  function BookWindow(m: PriceMethod, book: seq<Quote>, tickMs: int): (r: seq<Quote>)
    ensures forall q :: q in r ==> q in book
  {
    var inWindow := QuotesIn(book, tickMs - m.windowMs, tickMs);
    if inWindow != [] then inWindow else if book == [] then [] else [book[|book| - 1]]
  }

  predicate ChecksTrades(m: PriceMethod, market: Market) {
    m.tradeBookToleranceMs.Some? && m.tradeBookSlackPct.Some? && !market.polled
  }

  function Slack(m: PriceMethod, window: seq<Quote>): int
    requires window != [] && m.tradeBookSlackPct.Some?
  {
    TruncDiv(Median(HalfSpreads(window)) * m.tradeBookSlackPct.value, 100)
  }

  /** Trades count all together unless the rule checks them against the book; without a book none counts. */
  function UsedTrades(
      m: PriceMethod, market: Market, trades: seq<Trade>, book: seq<Quote>, window: seq<Quote>): seq<Trade> {
    if !ChecksTrades(m, market) then trades
    else if window == [] then []
    else Kept(trades, book, m.tradeBookToleranceMs.value, Slack(m, window))
  }

  function Clamp(price: int, bid: int, ask: int): int {
    if price < bid then bid else if price > ask then ask else price
  }

  predicate BelowFloor(m: PriceMethod, notional: int) {
    m.vwapMinWindowNotional.Some? && TruncDiv(notional, ONE) < m.vwapMinWindowNotional.value * ONE
  }

  /** A traded price as it stands, or kept inside the book. */
  function KeptInBook(m: PriceMethod, window: seq<Quote>, price: int, halfSpread: int, time: int): Option<VenuePrice> {
    if m.vwapClampToBook != Some(true) then Some(VenuePrice(price, halfSpread, time, 0))
    else if window == [] then None
    else
      var bid, ask := Median(Bids(window)), Median(Asks(window));
      Some(VenuePrice(Clamp(price, bid, ask), halfSpread, time, Abs(price - TruncDiv(bid + ask, 2))))
  }

  /** The price of the trades that counted; `None` means: use the `mid` rule. */
  function VwapOf(m: PriceMethod, used: seq<Trade>, window: seq<Quote>): Option<VenuePrice> {
    var volume, notional := Volume(used), Notional(used);
    if volume == 0 || BelowFloor(m, notional) then None
    else
      var halfSpread := if window == [] then 0 else Median(HalfSpreads(window));
      KeptInBook(m, window, TruncDiv(notional, volume), halfSpread, used[|used| - 1].timeMs)
  }

  function ClampedVwap(m: PriceMethod, market: Market, tickMs: int, trades: seq<Trade>): Option<VenuePrice> {
    var book := Book(m, market, tickMs);
    var window := BookWindow(m, book, tickMs);
    VwapOf(m, UsedTrades(m, market, trades, book, window), window)
  }

  lemma {:induction false} QuotesInByTime(quotes: seq<Quote>, from: int, to: int)
    requires QuotesByTime(quotes)
    ensures QuotesByTime(QuotesIn(quotes, from, to))
  {
    if quotes != [] {
      var n := |quotes| - 1;
      QuotesInByTime(quotes[..n], from, to);
      var before := QuotesIn(quotes[..n], from, to);
      forall k | 0 <= k < |before| ensures before[k].timeMs <= quotes[n].timeMs { assert before[k] in before; }
    }
  }

  lemma BookByTime(m: PriceMethod, market: Market, tickMs: int)
    requires QuotesByTime(market.quotes)
    ensures QuotesByTime(Book(m, market, tickMs))
  {
    QuotesInByTime(market.quotes, BookFrom(m, tickMs), tickMs);
  }

  method SelectTrades(
      m: PriceMethod, market: Market, trades: seq<Trade>, book: seq<Quote>, window: seq<Quote>)
      returns (used: seq<Trade>)
    requires QuotesByTime(book) && TradesByTime(trades)
    ensures used == UsedTrades(m, market, trades, book, window)
  {
    used := trades;
    if ChecksTrades(m, market) {
      if window == [] {
        used := [];
      } else {
        used := TradesInsideBook(trades, book, m.tradeBookToleranceMs.value, Slack(m, window));
      }
    }
  }

  method ComputeClampedVwap(
      m: PriceMethod, market: Market, tickMs: int, trades: seq<Trade>) returns (r: Option<VenuePrice>)
    requires ValidMarket(market) && TradesByTime(trades)
    ensures r == ClampedVwap(m, market, tickMs, trades)
  {
    var book := Book(m, market, tickMs);
    var window := BookWindow(m, book, tickMs);
    BookByTime(m, market, tickMs);
    var used := SelectTrades(m, market, trades, book, window);
    r := VwapOf(m, used, window);
  }

  // ----- which quotes and trades count

  lemma {:induction false} QuotesInAre(quotes: seq<Quote>, from: int, to: int, q: Quote)
    ensures multiset(QuotesIn(quotes, from, to))[q] == if from < q.timeMs <= to then multiset(quotes)[q] else 0
  {
    if quotes != [] {
      var n := |quotes| - 1;
      QuotesInAre(quotes[..n], from, to, q);
      assert quotes == quotes[..n] + [quotes[n]];
    }
  }

  lemma {:induction false} TradesInAre(trades: seq<Trade>, from: int, to: int, t: Trade)
    ensures multiset(TradesIn(trades, from, to))[t] == if from < t.timeMs <= to then multiset(trades)[t] else 0
  {
    if trades != [] {
      var n := |trades| - 1;
      TradesInAre(trades[..n], from, to, t);
      assert trades == trades[..n] + [trades[n]];
    }
  }

  /** Quote `j` is the last one at or before the time. */
  predicate IsState(quotes: seq<Quote>, atMs: int, j: int) {
    0 <= j < |quotes| && quotes[j].timeMs <= atMs && forall i :: j < i < |quotes| ==> quotes[i].timeMs > atMs
  }

  /** The venue spoke within the limit, and the quote is recent, narrow and not dust, in whole units. */
  predicate Fresh(m: PriceMethod, market: Market, q: Quote, atMs: int, tickMs: int) {
    && market.alive.Some? && tickMs <= market.alive.value + m.maxQuoteAgeMs
    && atMs <= q.timeMs + (if m.maxBookAgeMs.Some? then m.maxBookAgeMs.value else 60_000)
    && (q.ask - q.bid) * 20_000 < (m.maxSpreadBps + 1) * (q.ask + q.bid)
    && (m.minTopNotional.Some? && q.bidSize.Some? && q.askSize.Some? ==>
          var floor := m.minTopNotional.value * ONE * ONE;
          q.bidSize.value * q.bid >= floor && q.askSize.value * q.ask >= floor)
  }

  lemma QuotientAtMost(x: int, d: int, most: int)
    requires x >= 0 && d > 0
    ensures x / d <= most <==> x < (most + 1) * d
  {
    DivBounds(x, d);
    if x / d <= most { MulMonotone(d, x / d + 1, most + 1); } else { MulMonotone(d, most + 1, x / d); }
  }

  lemma QuotientAtLeast(x: int, d: int, least: int)
    requires x >= 0 && d > 0
    ensures x / d >= least <==> x >= least * d
  {
    QuotientAtMost(x, d, least - 1);
  }

  lemma SpreadIs(q: Quote, most: nat)
    requires 0 < q.bid <= q.ask
    ensures SpreadBps(q) <= most <==> (q.ask - q.bid) * 20_000 < (most + 1) * (q.ask + q.bid)
  {
    QuotientAtMost((q.ask - q.bid) * 20_000, q.ask + q.bid, most);
  }

  lemma NotionalIs(size: nat, price: int, floor: nat)
    requires price > 0
    ensures TruncDiv(size * price, ONE) >= floor * ONE <==> size * price >= floor * ONE * ONE
  {
    MulMonotone(price, 0, size);
    QuotientAtLeast(size * price, ONE, floor * ONE);
  }

  lemma FreshIff(m: PriceMethod, market: Market, q: Quote, atMs: int, tickMs: int)
    requires 0 < q.bid <= q.ask
    ensures Fresh(m, market, q, atMs, tickMs)
       <==> IsAlive(m, market.alive, tickMs) && atMs - q.timeMs <= MaxBookAge(m) && SpreadBps(q) <= m.maxSpreadBps
            && BigEnough(m, q)
  {
    SpreadIs(q, m.maxSpreadBps);
    if m.minTopNotional.Some? && q.bidSize.Some? && q.askSize.Some? {
      NotionalIs(q.bidSize.value, q.bid, m.minTopNotional.value);
      NotionalIs(q.askSize.value, q.ask, m.minTopNotional.value);
    }
  }

  /** The book is usable at a time exactly when the state in force then is fresh. */
  lemma UsableIff(m: PriceMethod, market: Market, atMs: int, tickMs: int, q: Quote)
    requires ValidQuotes(market.quotes)
    ensures UsableQuote(m, market, atMs, tickMs) == Some(q)
       <==> exists j :: IsState(market.quotes, atMs, j) && market.quotes[j] == q && Fresh(m, market, q, atMs, tickMs)
  {
    var j := LatestQuoteIsLast(market.quotes, atMs);
    if j >= 0 {
      assert IsState(market.quotes, atMs, j);
      FreshIff(m, market, market.quotes[j], atMs, tickMs);
    }
    forall i | IsState(market.quotes, atMs, i) ensures i == j {
    }
  }

  /** The `k`th sample back is inside the window and finds the quote. */
  predicate SampleFinds(m: PriceMethod, market: Market, atMs: int, downTo: int, tickMs: int, q: Quote, k: nat)
    requires ValidQuotes(market.quotes)
  {
    atMs - 100 * k > downTo && UsableQuote(m, market, atMs - 100 * k, tickMs) == Some(q)
  }

  lemma NextSample(m: PriceMethod, market: Market, atMs: int, downTo: int, tickMs: int, q: Quote, k: nat)
    requires ValidQuotes(market.quotes)
    ensures SampleFinds(m, market, atMs, downTo, tickMs, q, k + 1)
       <==> SampleFinds(m, market, atMs - SAMPLE_MS, downTo, tickMs, q, k)
  {
    assert atMs - 100 * (k + 1) == atMs - SAMPLE_MS - 100 * k;
  }

  /** The book is sampled every 100 ms, back from the tick as far as the window reaches. */
  lemma {:induction false} SampledIff(m: PriceMethod, market: Market, atMs: int, downTo: int, tickMs: int, q: Quote)
    requires ValidQuotes(market.quotes)
    ensures q in Samples(m, market, atMs, downTo, tickMs)
       <==> exists k: nat :: SampleFinds(m, market, atMs, downTo, tickMs, q, k)
    decreases atMs - downTo
  {
    if atMs > downTo {
      SampledIff(m, market, atMs - SAMPLE_MS, downTo, tickMs, q);
      assert UsableQuote(m, market, atMs, tickMs) == Some(q) <==> SampleFinds(m, market, atMs, downTo, tickMs, q, 0);
      var earlier := atMs - SAMPLE_MS;
      if k: nat :| SampleFinds(m, market, earlier, downTo, tickMs, q, k) {
        NextSample(m, market, atMs, downTo, tickMs, q, k);
      }
      if k: nat :| SampleFinds(m, market, atMs, downTo, tickMs, q, k) && k > 0 {
        NextSample(m, market, atMs, downTo, tickMs, q, k - 1);
      }
    }
  }

  lemma SamplesReach(m: PriceMethod, tickMs: int)
    ensures var back := tickMs - SampleFrom(m, tickMs);
            if m.usesVwap then back == m.windowMs
            else back <= m.windowMs && back <= m.maxQuoteAgeMs && back in {m.windowMs, m.maxQuoteAgeMs}
  {
  }

  /** Clamping gives the price in the book nearest to the trades'. */
  lemma ClampIsNearest(price: int, bid: int, ask: int, x: int)
    requires bid <= x <= ask
    ensures bid <= Clamp(price, bid, ask) <= ask && Abs(price - Clamp(price, bid, ask)) <= Abs(price - x)
  {
  }

  lemma MediansUncrossed(market: Market, window: seq<Quote>)
    requires ValidQuotes(market.quotes) && window != [] && forall q :: q in window ==> q in market.quotes
    ensures Median(Bids(window)) <= Median(Asks(window))
  {
    forall k | 0 <= k < |window| ensures Bids(window)[k] <= Asks(window)[k] { assert window[k] in market.quotes; }
    MedianMonotone(Bids(window), Asks(window));
  }

  /** A clamped price lies between the window's median bid and median ask, which are never crossed. */
  lemma ClampStaysInBook(m: PriceMethod, market: Market, tickMs: int, trades: seq<Trade>)
    requires ValidMarket(market) && m.vwapClampToBook == Some(true) && ClampedVwap(m, market, tickMs, trades).Some?
    ensures var window := BookWindow(m, Book(m, market, tickMs), tickMs);
            window != []
            && Median(Bids(window)) <= ClampedVwap(m, market, tickMs, trades).value.price <= Median(Asks(window))
  {
    var window := BookWindow(m, Book(m, market, tickMs), tickMs);
    MediansUncrossed(market, window);
  }

  // ----- sampling the book

  function Samples(m: PriceMethod, market: Market, atMs: int, downTo: int, tickMs: int): (r: seq<Quote>)
    requires ValidQuotes(market.quotes)
    ensures forall q :: q in r ==> q in market.quotes
    decreases atMs - downTo
  {
    if atMs <= downTo then []
    else
      var rest := Samples(m, market, atMs - SAMPLE_MS, downTo, tickMs);
      match UsableQuote(m, market, atMs, tickMs) case None => rest case Some(q) => [q] + rest
  }

  function SampleFrom(m: PriceMethod, tickMs: int): int {
    tickMs - if !m.usesVwap && m.maxQuoteAgeMs < m.windowMs then m.maxQuoteAgeMs else m.windowMs
  }

  function MidOf(samples: seq<Quote>): Option<VenuePrice> {
    if samples == [] then None
    else Some(VenuePrice(Median(Mids(samples)), Median(HalfSpreads(samples)), samples[0].timeMs, 0))
  }

  predicate UsesV2(m: PriceMethod) {
    m.vwapClampToBook.Some? || m.tradeBookToleranceMs.Some? || m.vwapMinWindowNotional.Some?
  }

  function PlainVwap(m: PriceMethod, market: Market, tickMs: int, trades: seq<Trade>): VenuePrice
    requires ValidMarket(market) && trades != [] && Volume(trades) != 0
  {
    var halfSpread :=
      match UsableQuote(m, market, tickMs, tickMs) case None => 0 case Some(q) => TruncDiv(q.ask - q.bid, 2);
    VenuePrice(TruncDiv(Notional(trades), Volume(trades)), halfSpread, trades[|trades| - 1].timeMs, 0)
  }

  lemma {:induction false} TradesInValid(trades: seq<Trade>, from: int, to: int)
    requires ValidTrades(trades)
    ensures ValidTrades(TradesIn(trades, from, to))
  {
    if trades != [] { TradesInValid(trades[..|trades| - 1], from, to); }
  }

  lemma {:induction false} TradesInByTime(trades: seq<Trade>, from: int, to: int)
    requires TradesByTime(trades)
    ensures TradesByTime(TradesIn(trades, from, to))
  {
    if trades != [] {
      var n := |trades| - 1;
      TradesInByTime(trades[..n], from, to);
      var before := TradesIn(trades[..n], from, to);
      forall k | 0 <= k < |before| ensures before[k].timeMs <= trades[n].timeMs { assert before[k] in before; }
    }
  }

  lemma {:induction false} VolumePositive(trades: seq<Trade>)
    requires ValidTrades(trades)
    ensures Volume(trades) >= |trades|
  {
    if trades != [] { VolumePositive(trades[..|trades| - 1]); }
  }

  function WindowTrades(m: PriceMethod, market: Market, tickMs: int): seq<Trade> {
    TradesIn(market.trades, tickMs - m.windowMs, tickMs)
  }

  predicate GoodTrades(trades: seq<Trade>) {
    ValidTrades(trades) && TradesByTime(trades) && (trades != [] ==> Volume(trades) > 0)
  }

  lemma {:induction false} TradesInGood(trades: seq<Trade>, from: int, to: int)
    requires ValidTrades(trades) && TradesByTime(trades)
    ensures GoodTrades(TradesIn(trades, from, to))
  {
    TradesInValid(trades, from, to);
    TradesInByTime(trades, from, to);
    VolumePositive(TradesIn(trades, from, to));
  }

  /** The price by the trades of the window, where the rule asks for it and the venue is alive. */
  function TradePrice(m: PriceMethod, market: Market, tickMs: int, trades: seq<Trade>): Option<VenuePrice>
    requires ValidMarket(market) && (trades != [] ==> Volume(trades) > 0)
  {
    if !(m.usesVwap && trades != [] && IsAlive(m, market.alive, tickMs)) then None
    else if UsesV2(m) then ClampedVwap(m, market, tickMs, trades)
    else Some(PlainVwap(m, market, tickMs, trades))
  }

  /** One market's price: the trade rule where it applies, else the median of the sampled midpoints. */
  function MarketPrice(m: PriceMethod, market: Market, tickMs: int): Option<VenuePrice>
    requires ValidMarket(market)
  {
    TradesInGood(market.trades, tickMs - m.windowMs, tickMs);
    OrElse(TradePrice(m, market, tickMs, WindowTrades(m, market, tickMs)),
        MidOf(Samples(m, market, tickMs, SampleFrom(m, tickMs), tickMs)))
  }

  function OrElse(a: Option<VenuePrice>, b: Option<VenuePrice>): Option<VenuePrice> { if a.Some? then a else b }

  method ComputeMarketPrice(m: PriceMethod, market: Market, tickMs: int) returns (r: Option<VenuePrice>)
    requires ValidMarket(market)
    ensures r == MarketPrice(m, market, tickMs)
  {
    var trades := WindowTrades(m, market, tickMs);
    TradesInGood(market.trades, tickMs - m.windowMs, tickMs);
    if m.usesVwap && trades != [] && IsAlive(m, market.alive, tickMs) {
      if UsesV2(m) {
        r := ComputeClampedVwap(m, market, tickMs, trades);
      } else {
        r := Some(PlainVwap(m, market, tickMs, trades));
      }
      if r.Some? {
        return;
      }
    }
    var samples := CollectSamples(m, market, tickMs);
    r := MidOf(samples);
  }

  method CollectSamples(m: PriceMethod, market: Market, tickMs: int) returns (samples: seq<Quote>)
    requires ValidQuotes(market.quotes)
    ensures samples == Samples(m, market, tickMs, SampleFrom(m, tickMs), tickMs)
  {
    samples := [];
    var at, downTo := tickMs, SampleFrom(m, tickMs);
    while at > downTo
      invariant samples + Samples(m, market, at, downTo, tickMs) == Samples(m, market, tickMs, downTo, tickMs)
      decreases at - downTo
    {
      var q := UsableQuote(m, market, at, tickMs);
      if q.Some? {
        samples := samples + [q.value];
      }
      at := at - SAMPLE_MS;
    }
  }

  // ----- every rule stays inside what the venue showed

  /** Everything the venue showed lies in the range. */
  predicate ShownWithin(market: Market, lo: int, hi: int) {
    (forall k :: 0 <= k < |market.quotes| ==> lo <= market.quotes[k].bid && market.quotes[k].ask <= hi)
    && forall k :: 0 <= k < |market.trades| ==> lo <= market.trades[k].price <= hi
  }

  lemma MulBetween(q: int, lo: int, price: int, hi: int)
    requires q >= 0 && lo <= price <= hi
    ensures lo * q <= price * q <= hi * q
  {
    MulMonotone(q, lo, price);
    MulMonotone(q, price, hi);
  }

  lemma {:induction false} NotionalBetween(trades: seq<Trade>, lo: int, hi: int)
    requires ValidTrades(trades) && forall k :: 0 <= k < |trades| ==> lo <= trades[k].price <= hi
    ensures Volume(trades) * lo <= Notional(trades) <= Volume(trades) * hi
  {
    if trades != [] {
      var n := |trades| - 1;
      var last, before := trades[n], Volume(trades[..n]);
      NotionalBetween(trades[..n], lo, hi);
      MulBetween(last.qty, lo, last.price, hi);
      assert (before + last.qty) * lo == before * lo + last.qty * lo
          && (before + last.qty) * hi == before * hi + last.qty * hi;
    }
  }

  lemma {:induction false} VwapInHull(trades: seq<Trade>, lo: int, hi: int)
    requires trades != [] && ValidTrades(trades) && forall k :: 0 <= k < |trades| ==> lo <= trades[k].price <= hi
    ensures Volume(trades) > 0 && lo <= TruncDiv(Notional(trades), Volume(trades)) <= hi
  {
    VolumePositive(trades);
    NotionalBetween(trades, lo, hi);
    QuotientBetween(Notional(trades), Volume(trades), lo, hi);
  }

  lemma {:induction false} KeptMembers(trades: seq<Trade>, quotes: seq<Quote>, toleranceMs: nat, slack: int)
    ensures forall t :: t in Kept(trades, quotes, toleranceMs, slack) ==> t in trades
  {
    if trades != [] { KeptMembers(trades[..|trades| - 1], quotes, toleranceMs, slack); }
  }

  lemma ClampedInHull(m: PriceMethod, market: Market, tickMs: int, trades: seq<Trade>, lo: int, hi: int)
    requires ValidMarket(market) && ShownWithin(market, lo, hi) && ClampedVwap(m, market, tickMs, trades).Some?
    requires ValidTrades(trades) && forall t :: t in trades ==> lo <= t.price <= hi
    ensures lo <= ClampedVwap(m, market, tickMs, trades).value.price <= hi
  {
    var book := Book(m, market, tickMs);
    var window := BookWindow(m, book, tickMs);
    var used := UsedTrades(m, market, trades, book, window);
    if ChecksTrades(m, market) && window != [] {
      KeptMembers(trades, book, m.tradeBookToleranceMs.value, Slack(m, window));
    }
    assert forall k :: 0 <= k < |used| ==> used[k] in trades;
    VwapInHull(used, lo, hi);
    if m.vwapClampToBook == Some(true) { WindowInHull(market, window, lo, hi); }
  }

  lemma WindowInHull(market: Market, window: seq<Quote>, lo: int, hi: int)
    requires ValidQuotes(market.quotes) && ShownWithin(market, lo, hi) && window != []
    requires forall q :: q in window ==> q in market.quotes
    ensures lo <= Median(Bids(window)) && Median(Asks(window)) <= hi && lo <= Median(Mids(window)) <= hi
    ensures Median(Bids(window)) <= hi && lo <= Median(Asks(window))
  {
    forall k | 0 <= k < |window| ensures lo <= window[k].bid <= window[k].ask <= hi {
      assert window[k] in market.quotes;
    }
    MedianInHull(Bids(window), lo, hi);
    MedianInHull(Asks(window), lo, hi);
    MedianInHull(Mids(window), lo, hi);
  }

  predicate Within(r: Option<VenuePrice>, lo: int, hi: int) { r.Some? ==> lo <= r.value.price <= hi }

  lemma TradePriceInHull(m: PriceMethod, market: Market, tickMs: int, trades: seq<Trade>, lo: int, hi: int)
    requires ValidMarket(market) && ShownWithin(market, lo, hi) && GoodTrades(trades)
    requires forall t :: t in trades ==> lo <= t.price <= hi
    ensures Within(TradePrice(m, market, tickMs, trades), lo, hi)
  {
    assert forall k :: 0 <= k < |trades| ==> trades[k] in trades;
    if TradePrice(m, market, tickMs, trades).Some? {
      if UsesV2(m) {
        ClampedInHull(m, market, tickMs, trades, lo, hi);
      } else {
        VwapInHull(trades, lo, hi);
      }
    }
  }

  lemma MidPriceInHull(market: Market, samples: seq<Quote>, lo: int, hi: int)
    requires ValidQuotes(market.quotes) && ShownWithin(market, lo, hi)
    requires forall q :: q in samples ==> q in market.quotes
    ensures Within(MidOf(samples), lo, hi)
  {
    if samples != [] { WindowInHull(market, samples, lo, hi); }
  }

  /** Whichever rule prices it, a venue's price lies in the range of the bids, asks and trades it showed;
      so it is positive. */
  lemma VenuePriceInHull(m: PriceMethod, market: Market, tickMs: int, lo: int, hi: int)
    requires ValidMarket(market) && ShownWithin(market, lo, hi)
    ensures Within(MarketPrice(m, market, tickMs), lo, hi)
  {
    var trades := WindowTrades(m, market, tickMs);
    TradesInGood(market.trades, tickMs - m.windowMs, tickMs);
    TradePriceInHull(m, market, tickMs, trades, lo, hi);
    MidPriceInHull(market, Samples(m, market, tickMs, SampleFrom(m, tickMs), tickMs), lo, hi);
  }

  // ----- across venues

  datatype FeedPrice = FeedPrice(price: int, conf: int, sourceTimeMs: int)

  function VenuePrices(venues: seq<VenuePrice>): (r: seq<int>)
    ensures |r| == |venues| && forall k :: 0 <= k < |r| ==> r[k] == venues[k].price
  {
    seq(|venues|, k requires 0 <= k < |venues| => venues[k].price)
  }

  predicate Near(price: int, first: int, bound: int) { Abs(price - first) * 10_000 <= bound }

  function NearVenues(venues: seq<VenuePrice>, first: int, bound: int): (r: seq<VenuePrice>)
    ensures forall v :: v in r ==> v in venues && Near(v.price, first, bound)
  {
    if venues == [] then []
    else
      NearVenues(venues[..|venues| - 1], first, bound)
      + if Near(venues[|venues| - 1].price, first, bound) then [venues[|venues| - 1]] else []
  }

  function Max(a: int, b: int): int { if a > b then a else b }

  function Column(venues: seq<VenuePrice>, field: VenuePrice -> int): (r: seq<int>)
    ensures |r| == |venues|
  {
    seq(|venues|, k requires 0 <= k < |venues| => field(venues[k]))
  }

  function Summary(kept: seq<VenuePrice>): FeedPrice
    requires kept != []
  {
    var price := Median(VenuePrices(kept));
    var mad := Median(Column(kept, (v: VenuePrice) => Abs(v.price - price)));
    var halfSpread := Median(Column(kept, (v: VenuePrice) => v.halfSpread));
    var gap := Median(Column(kept, (v: VenuePrice) => v.gap));
    FeedPrice(price, Max(Max(mad, halfSpread), gap), Median(Column(kept, (v: VenuePrice) => v.timeMs)))
  }

  /** A median, then without the outliers a median again. */
  function Combine(m: PriceMethod, venues: seq<VenuePrice>): Option<FeedPrice>
    requires m.minVenues > 0
  {
    if |venues| < m.minVenues then None
    else if m.maxDeviationBps.None? then Some(Summary(venues))
    else
      var first := Median(VenuePrices(venues));
      var kept := NearVenues(venues, first, m.maxDeviationBps.value * first);
      if |kept| < m.minVenues then None else Some(Summary(kept))
  }

  lemma {:induction false} NearVenuesAre(venues: seq<VenuePrice>, first: int, bound: int, v: VenuePrice)
    ensures multiset(NearVenues(venues, first, bound))[v]
         == if -bound <= 10_000 * (v.price - first) <= bound then multiset(venues)[v] else 0
  {
    if venues != [] {
      var n := |venues| - 1;
      NearVenuesAre(venues[..n], first, bound, v);
      assert venues == venues[..n] + [venues[n]];
    }
  }

  predicate IsSummary(kept: seq<VenuePrice>, p: FeedPrice)
    requires kept != []
  {
    && p.price == Median(VenuePrices(kept)) && p.sourceTimeMs == Median(Column(kept, (v: VenuePrice) => v.timeMs))
    && var mad := Median(Column(kept, (v: VenuePrice) => Abs(v.price - p.price)));
       var halfSpread := Median(Column(kept, (v: VenuePrice) => v.halfSpread));
       var gap := Median(Column(kept, (v: VenuePrice) => v.gap));
       p.conf >= mad && p.conf >= halfSpread && p.conf >= gap && p.conf in {mad, halfSpread, gap}
  }

  /** A feed has a price if and only if enough venues do, also without the outliers; and it is their summary. */
  lemma CombineIff(m: PriceMethod, venues: seq<VenuePrice>, p: FeedPrice)
    requires m.minVenues > 0
    ensures Combine(m, venues) == Some(p)
       <==> |venues| >= m.minVenues
            && var first := Median(VenuePrices(venues));
               var kept := if m.maxDeviationBps.None? then venues
                           else NearVenues(venues, first, m.maxDeviationBps.value * first);
               |kept| >= m.minVenues && IsSummary(kept, p)
  {
  }

  lemma MedianNear(prices: seq<int>, first: int, bound: int)
    requires prices != [] && forall k :: 0 <= k < |prices| ==> Near(prices[k], first, bound)
    ensures Near(Median(prices), first, bound)
  {
    MedianInHull(prices, first - bound / 10_000, first + bound / 10_000);
  }

  /** The combined price stays within the allowed deviation of the first median of all venues. */
  lemma CombinedNearFirst(m: PriceMethod, venues: seq<VenuePrice>)
    requires m.minVenues > 0 && m.maxDeviationBps.Some? && Combine(m, venues).Some?
    ensures var first := Median(VenuePrices(venues));
            Near(Combine(m, venues).value.price, first, m.maxDeviationBps.value * first)
  {
    var first := Median(VenuePrices(venues));
    var bound := m.maxDeviationBps.value * first;
    var kept := NearVenues(venues, first, bound);
    forall k | 0 <= k < |kept| ensures Near(VenuePrices(kept)[k], first, bound) { assert kept[k] in kept; }
    MedianNear(VenuePrices(kept), first, bound);
  }

  /** No further from the range than `d` basis points of its ends. */
  predicate InReach(price: int, d: nat, lo: int, hi: int) {
    price * 10_000 <= hi * (10_000 + d) && (d <= 10_000 ==> lo * (10_000 - d) <= price * 10_000)
  }

  lemma NearMeansInReach(price: int, first: int, d: nat, lo: int, hi: int)
    requires lo <= first <= hi && Near(price, first, d * first)
    ensures InReach(price, d, lo, hi)
  {
    MulMonotone(10_000 + d, first, hi);
    if d <= 10_000 { MulMonotone(10_000 - d, lo, first); }
    assert first * (10_000 + d) == first * 10_000 + d * first && first * (10_000 - d) == first * 10_000 - d * first;
  }

  lemma FirstMedianBetween(venues: seq<VenuePrice>, wrong: set<nat>, lo: int, hi: int)
    requires 2 * |wrong| < |venues| && forall k :: 0 <= k < |venues| && k !in wrong ==> lo <= venues[k].price <= hi
    ensures lo <= Median(VenuePrices(venues)) <= hi
  {
    var authors := seq(|venues|, i requires 0 <= i < |venues| => i);
    MedianBetweenHonest(VenuePrices(venues), authors, wrong, lo, hi);
  }

  /** A minority of venues, whatever they report, moves the combined price no further than the allowed
      deviation beyond the prices of the others. */
  lemma MinorityCannotSetPrice(m: PriceMethod, venues: seq<VenuePrice>, wrong: set<nat>, lo: int, hi: int)
    requires m.minVenues > 0 && m.maxDeviationBps.Some? && Combine(m, venues).Some? && 2 * |wrong| < |venues|
    requires forall k :: 0 <= k < |venues| && k !in wrong ==> lo <= venues[k].price <= hi
    ensures InReach(Combine(m, venues).value.price, m.maxDeviationBps.value, lo, hi)
  {
    FirstMedianBetween(venues, wrong, lo, hi);
    CombinedNearFirst(m, venues);
    NearMeansInReach(Combine(m, venues).value.price, Median(VenuePrices(venues)), m.maxDeviationBps.value, lo, hi);
  }
}
