/** What a venue's price is worth, rule by rule. */
module Venues {
  import opened Wrappers
  import opened Fixed
  import opened Methodology

  /** The volume-weighted price of some trades worth enough, rounded down, and the time of the last of them. */
  predicate Traded(m: PriceMethod, used: seq<Trade>, price: int, timeMs: int) {
    && used != [] && TowardZero(price, Notional(used), Volume(used)) && timeMs == used[|used| - 1].timeMs
    && (m.vwapMinWindowNotional.Some? ==> Notional(used) >= m.vwapMinWindowNotional.value * ONE * ONE)
  }

  predicate IsMiddle(mid: int, bid: int, ask: int) { TowardZero(mid, bid + ask, 2) }

  /** The price in the book nearest to the raw one, and how far the raw one is from the middle. */
  ghost predicate Held(p: VenuePrice, raw: int, bid: int, ask: int) {
    && bid <= p.price <= ask
    && (raw <= bid ==> p.price == bid) && (raw >= ask ==> p.price == ask) && (bid < raw < ask ==> p.price == raw)
    && exists mid: int :: IsMiddle(mid, bid, ask) && p.gap == Abs(raw - mid)
  }

  /** The price the trades give, as traded or held in the book. */
  ghost predicate Priced(m: PriceMethod, window: seq<Quote>, p: VenuePrice, raw: int) {
    if m.vwapClampToBook == Some(true) then window != [] && Held(p, raw, Median(Bids(window)), Median(Asks(window)))
    else p.price == raw && p.gap == 0
  }

  predicate SpreadOver(window: seq<Quote>, half: int) {
    if window == [] then half == 0 else half == Median(HalfSpreads(window))
  }

  ghost predicate ByTrades(m: PriceMethod, used: seq<Trade>, window: seq<Quote>, p: VenuePrice) {
    SpreadOver(window, p.halfSpread) && exists raw: int :: Traded(m, used, raw, p.timeMs) && Priced(m, window, p, raw)
  }

  lemma {:induction false} NotionalNatural(trades: seq<Trade>)
    requires ValidTrades(trades)
    ensures Notional(trades) >= 0
  {
    if trades != [] {
      var last := trades[|trades| - 1];
      NotionalNatural(trades[..|trades| - 1]);
      MulMonotone(last.qty, 0, last.price);
    }
  }

  lemma FloorMet(m: PriceMethod, notional: int)
    requires notional >= 0 && m.vwapMinWindowNotional.Some?
    ensures TruncDiv(notional, ONE) >= m.vwapMinWindowNotional.value * ONE
       <==> notional >= m.vwapMinWindowNotional.value * ONE * ONE
  {
    QuotientAtLeast(notional, ONE, m.vwapMinWindowNotional.value * ONE);
  }

  /** The quotient the code takes, where it takes one. */
  predicate Divided(m: PriceMethod, used: seq<Trade>, price: int, timeMs: int) {
    && Volume(used) != 0 && price == TruncDiv(Notional(used), Volume(used)) && timeMs == used[|used| - 1].timeMs
    && !BelowFloor(m, Notional(used))
  }

  lemma TradedIff(m: PriceMethod, used: seq<Trade>, price: int, timeMs: int)
    requires ValidTrades(used)
    ensures Traded(m, used, price, timeMs) <==> Divided(m, used, price, timeMs)
  {
    if used != [] {
      VolumePositive(used);
      NotionalNatural(used);
      TruncDivIsTowardZero(price, Notional(used), Volume(used));
      if m.vwapMinWindowNotional.Some? { FloorMet(m, Notional(used)); }
    }
  }

  lemma HeldIff(p: VenuePrice, raw: int, bid: int, ask: int)
    requires bid <= ask
    ensures Held(p, raw, bid, ask)
       <==> p.price == Clamp(raw, bid, ask) && p.gap == Abs(raw - TruncDiv(bid + ask, 2))
  {
    TruncDivIsTowardZero(TruncDiv(bid + ask, 2), bid + ask, 2);
    assert IsMiddle(TruncDiv(bid + ask, 2), bid, ask);
    forall mid: int | IsMiddle(mid, bid, ask) ensures mid == TruncDiv(bid + ask, 2) {
      TruncDivIsTowardZero(mid, bid + ask, 2);
    }
  }

  predicate Uncrossed(window: seq<Quote>) { window != [] ==> Median(Bids(window)) <= Median(Asks(window)) }

  /** The clamp the code applies, where it applies one. */
  predicate Clamped(m: PriceMethod, window: seq<Quote>, p: VenuePrice, raw: int) {
    if m.vwapClampToBook != Some(true) then p.price == raw && p.gap == 0
    else window != [] && p.price == Clamp(raw, Median(Bids(window)), Median(Asks(window)))
         && p.gap == Abs(raw - TruncDiv(Median(Bids(window)) + Median(Asks(window)), 2))
  }

  lemma PricedIff(m: PriceMethod, window: seq<Quote>, p: VenuePrice, raw: int)
    requires Uncrossed(window)
    ensures Priced(m, window, p, raw) <==> Clamped(m, window, p, raw)
  {
    if window != [] { HeldIff(p, raw, Median(Bids(window)), Median(Asks(window))); }
  }

  lemma KeptIff(m: PriceMethod, window: seq<Quote>, raw: int, half: int, time: int, p: VenuePrice)
    ensures KeptInBook(m, window, raw, half, time) == Some(p)
       <==> p.halfSpread == half && p.timeMs == time && Clamped(m, window, p, raw)
  {
  }

  /** The price by trades is there exactly when some counted and were worth the floor, and then it is their
      volume-weighted price, or the price of the book nearest to it. */
  lemma VwapIff(m: PriceMethod, used: seq<Trade>, window: seq<Quote>, p: VenuePrice)
    requires ValidTrades(used) && Uncrossed(window)
    ensures VwapOf(m, used, window) == Some(p) <==> ByTrades(m, used, window, p)
  {
    if VwapOf(m, used, window) == Some(p) {
      var raw := TruncDiv(Notional(used), Volume(used));
      KeptIff(m, window, raw, p.halfSpread, p.timeMs, p);
      TradedIff(m, used, raw, p.timeMs);
      PricedIff(m, window, p, raw);
      assert Traded(m, used, raw, p.timeMs) && Priced(m, window, p, raw);
    }
    if ByTrades(m, used, window, p) {
      var raw: int :| Traded(m, used, raw, p.timeMs) && Priced(m, window, p, raw);
      TradedIff(m, used, raw, p.timeMs);
      PricedIff(m, window, p, raw);
      KeptIff(m, window, raw, p.halfSpread, p.timeMs, p);
    }
  }

  predicate Shown(quotes: seq<Quote>, from: int, to: int, q: Quote) { q in quotes && from < q.timeMs <= to }

  function Times(quotes: seq<Quote>, q: Quote): nat { multiset(quotes)[q] }

  function TradeTimes(trades: seq<Trade>, t: Trade): nat { multiset(trades)[t] }

  lemma {:induction false} QuotesCounted(quotes: seq<Quote>, from: int, to: int, q: Quote)
    ensures Times(QuotesIn(quotes, from, to), q) == if from < q.timeMs <= to then Times(quotes, q) else 0
  {
    QuotesInAre(quotes, from, to, q);
  }

  lemma {:induction false} ShownIff(quotes: seq<Quote>, from: int, to: int, q: Quote)
    ensures q in QuotesIn(quotes, from, to) <==> Shown(quotes, from, to, q)
  {
    QuotesInAre(quotes, from, to, q);
    assert q in QuotesIn(quotes, from, to) <==> q in multiset(QuotesIn(quotes, from, to));
  }

  lemma {:induction false} TradesCounted(trades: seq<Trade>, from: int, to: int, t: Trade)
    ensures TradeTimes(TradesIn(trades, from, to), t) == if from < t.timeMs <= to then TradeTimes(trades, t) else 0
  {
    TradesInAre(trades, from, to, t);
  }

  predicate AnyShown(quotes: seq<Quote>, from: int, to: int) { exists q :: q in quotes && Shown(quotes, from, to, q) }

  lemma {:induction false} AnyShownIff(quotes: seq<Quote>, from: int, to: int)
    ensures AnyShown(quotes, from, to) <==> QuotesIn(quotes, from, to) != []
  {
    if q :| q in quotes && Shown(quotes, from, to, q) { ShownIff(quotes, from, to, q); }
    if QuotesIn(quotes, from, to) != [] { ShownIff(quotes, from, to, QuotesIn(quotes, from, to)[0]); }
  }

  lemma {:induction false} BusyIsShown(m: PriceMethod, book: seq<Quote>, tickMs: int)
    requires AnyShown(book, tickMs - m.windowMs, tickMs)
    ensures BookWindow(m, book, tickMs) == QuotesIn(book, tickMs - m.windowMs, tickMs)
  {
    AnyShownIff(book, tickMs - m.windowMs, tickMs);
  }

  /** The window holds every quote of the book that arrived in it. */
  lemma BusyWindow(m: PriceMethod, book: seq<Quote>, tickMs: int, q: Quote)
    requires AnyShown(book, tickMs - m.windowMs, tickMs)
    ensures Times(BookWindow(m, book, tickMs), q)
        == if tickMs - m.windowMs < q.timeMs <= tickMs then Times(book, q) else 0
  {
    BusyIsShown(m, book, tickMs);
    QuotesCounted(book, tickMs - m.windowMs, tickMs, q);
  }

  /** A quiet book shows its last quote. */
  lemma QuietWindow(m: PriceMethod, book: seq<Quote>, tickMs: int)
    requires !AnyShown(book, tickMs - m.windowMs, tickMs)
    ensures BookWindow(m, book, tickMs) == if book == [] then [] else [book[|book| - 1]]
  {
    AnyShownIff(book, tickMs - m.windowMs, tickMs);
  }

  /** The book of the trade rule reaches past the window by the tolerance and the age of a state. */
  lemma BookIs(m: PriceMethod, market: Market, tickMs: int, q: Quote)
    ensures var back := m.windowMs + (if m.tradeBookToleranceMs.Some? then m.tradeBookToleranceMs.value else 0)
                        + (if m.maxBookAgeMs.Some? then m.maxBookAgeMs.value else 60_000);
            Times(Book(m, market, tickMs), q)
            == if tickMs - back < q.timeMs <= tickMs then Times(market.quotes, q) else 0
  {
    QuotesCounted(market.quotes, BookFrom(m, tickMs), tickMs, q);
  }

  lemma WindowTradesAre(m: PriceMethod, market: Market, tickMs: int, t: Trade)
    ensures TradeTimes(WindowTrades(m, market, tickMs), t)
         == if tickMs - m.windowMs < t.timeMs <= tickMs then TradeTimes(market.trades, t) else 0
  {
    TradesCounted(market.trades, tickMs - m.windowMs, tickMs, t);
  }

  /** The slack is a percentage of the median half spread. */
  lemma SlackIs(m: PriceMethod, window: seq<Quote>, slack: int)
    requires window != [] && m.tradeBookSlackPct.Some?
    ensures slack == Slack(m, window)
       <==> TowardZero(slack, Median(HalfSpreads(window)) * m.tradeBookSlackPct.value, 100)
  {
    TruncDivIsTowardZero(slack, Median(HalfSpreads(window)) * m.tradeBookSlackPct.value, 100);
  }

  /** Without the extended rule: all trades of the window, with the spread of the book in force at the tick. */
  predicate Plain(m: PriceMethod, market: Market, tickMs: int, trades: seq<Trade>, p: VenuePrice)
    requires ValidMarket(market)
  {
    && trades != [] && TowardZero(p.price, Notional(trades), Volume(trades))
    && p.timeMs == trades[|trades| - 1].timeMs && p.gap == 0
    && match UsableQuote(m, market, tickMs, tickMs)
       case None => p.halfSpread == 0
       case Some(q) => TowardZero(p.halfSpread, q.ask - q.bid, 2)
  }

  lemma {:induction false} PlainIff(m: PriceMethod, market: Market, tickMs: int, trades: seq<Trade>, p: VenuePrice)
    requires ValidMarket(market) && trades != [] && Volume(trades) != 0
    ensures p == PlainVwap(m, market, tickMs, trades) <==> Plain(m, market, tickMs, trades, p)
  {
    TruncDivIsTowardZero(p.price, Notional(trades), Volume(trades));
    match UsableQuote(m, market, tickMs, tickMs)
    case None =>
    case Some(q) => TruncDivIsTowardZero(p.halfSpread, q.ask - q.bid, 2);
  }

  /** The trades of the window set the price: the rule asks for them and the venue spoke recently. */
  ghost predicate FromTrades(m: PriceMethod, market: Market, tickMs: int, trades: seq<Trade>, p: VenuePrice)
    requires ValidMarket(market)
  {
    && m.usesVwap && market.alive.Some? && tickMs <= market.alive.value + m.maxQuoteAgeMs && trades != []
    && if m.vwapClampToBook.None? && m.tradeBookToleranceMs.None? && m.vwapMinWindowNotional.None?
       then Plain(m, market, tickMs, trades, p)
       else
         var book := Book(m, market, tickMs);
         var window := BookWindow(m, book, tickMs);
         ByTrades(m, UsedTrades(m, market, trades, book, window), window, p)
  }

  lemma UsedValid(m: PriceMethod, market: Market, trades: seq<Trade>, book: seq<Quote>, window: seq<Quote>)
    requires ValidTrades(trades)
    ensures ValidTrades(UsedTrades(m, market, trades, book, window))
  {
    if ChecksTrades(m, market) && window != [] {
      KeptMembers(trades, book, m.tradeBookToleranceMs.value, Slack(m, window));
    }
    var used := UsedTrades(m, market, trades, book, window);
    assert forall k :: 0 <= k < |used| ==> used[k] in trades;
  }

  lemma FromTradesIff(m: PriceMethod, market: Market, tickMs: int, trades: seq<Trade>, p: VenuePrice)
    requires ValidMarket(market) && GoodTrades(trades)
    ensures TradePrice(m, market, tickMs, trades) == Some(p) <==> FromTrades(m, market, tickMs, trades, p)
  {
    if trades != [] {
      if UsesV2(m) {
        var book := Book(m, market, tickMs);
        var window := BookWindow(m, book, tickMs);
        if window != [] { MediansUncrossed(market, window); }
        UsedValid(m, market, trades, book, window);
        VwapIff(m, UsedTrades(m, market, trades, book, window), window, p);
      } else {
        PlainIff(m, market, tickMs, trades, p);
      }
    }
  }

  /** Otherwise the samples of the book do: the medians of their middles and half spreads, dated by the newest. */
  predicate FromBook(samples: seq<Quote>, p: VenuePrice) {
    && samples != [] && p.timeMs == samples[0].timeMs && p.gap == 0
    && p.price == Median(Mids(samples)) && p.halfSpread == Median(HalfSpreads(samples))
  }

  ghost predicate TradesSpeak(m: PriceMethod, market: Market, tickMs: int, trades: seq<Trade>)
    requires ValidMarket(market)
  {
    exists p: VenuePrice :: FromTrades(m, market, tickMs, trades, p)
  }

  /** A venue's price is what its trades of the window say, where they say anything, else what the samples of
      its book say, and nothing else. */
  lemma {:induction false} MarketPriceIff(m: PriceMethod, market: Market, tickMs: int, p: VenuePrice)
    requires ValidMarket(market)
    ensures var trades := WindowTrades(m, market, tickMs);
            (MarketPrice(m, market, tickMs) == Some(p)
             <==> FromTrades(m, market, tickMs, trades, p)
                  || (!TradesSpeak(m, market, tickMs, trades)
                      && FromBook(Samples(m, market, tickMs, SampleFrom(m, tickMs), tickMs), p)))
  {
    var trades := WindowTrades(m, market, tickMs);
    TradesInGood(market.trades, tickMs - m.windowMs, tickMs);
    FromTradesIff(m, market, tickMs, trades, p);
    var byTrades := TradePrice(m, market, tickMs, trades);
    if byTrades.Some? { FromTradesIff(m, market, tickMs, trades, byTrades.value); }
    forall x: VenuePrice | FromTrades(m, market, tickMs, trades, x) ensures byTrades == Some(x) {
      FromTradesIff(m, market, tickMs, trades, x);
    }
  }
}
