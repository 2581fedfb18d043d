/** The moving averages that signed headers carry. */
module Averages {
  import opened Aggregate
  import opened Assembly
  import opened Attestation
  import opened Bytes
  import opened Finality
  import opened Fixed
  import opened Node
  import opened PriceUpdates
  import opened Protocol
  import opened PublisherSets
  import opened Signatures
  import opened Sorting
  import opened Store
  import opened Wire
  import opened Wrappers

  // ----- a derived update, message by message

  predicate SameMessages(entries: seq<UpdateEntry>, messages: seq<Message>) {
    multiset(Messages(entries)) == multiset(messages) && DistinctFeeds(Messages(entries))
  }

  lemma AssembledMessages(setup: Setup, tick: u64, active: ActiveConfig, messages: seq<Message>)
    requires Assemble(setup.crypto, setup.typeHash, setup.current.setIndex, tick, active.tickPeriodMs, active.hash,
               messages).Some?
    ensures SameMessages(Assemble(setup.crypto, setup.typeHash, setup.current.setIndex, tick, active.tickPeriodMs,
              active.hash, messages).value.1, messages)
  {
    var sorted := SortedMessages(messages).value;
    var entries :=
      Assemble(setup.crypto, setup.typeHash, setup.current.setIndex, tick, active.tickPeriodMs, active.hash,
          messages).value.1;
    SortedMessagesDistinct(messages);
    assert Messages(entries) == sorted;
  }

  /** The entries of a derived update are the aggregated messages, each feed once. */
  lemma DerivedEntries(setup: Setup, feeds: FeedStates, tick: u64, active: ActiveConfig, observations: seq<Observation>)
      returns (drafts: seq<Draft>)
    requires Derive(setup, feeds, tick, active, observations).Some?
    ensures AggregateMessages(active.feeds, observations, Quorum(setup.current), tick, feeds) == Some(drafts)
    ensures forall k :: 0 <= k < |drafts| ==> Fits(drafts[k])
    ensures SameMessages(Derive(setup, feeds, tick, active, observations).value.entries, DraftMessages(drafts))
  {
    drafts := AggregateMessages(active.feeds, observations, Quorum(setup.current), tick, feeds).value;
    AssembledMessages(setup, tick, active, DraftMessages(drafts));
  }

  lemma MessageAmong(entries: seq<UpdateEntry>, messages: seq<Message>, k: nat) returns (i: nat)
    requires SameMessages(entries, messages) && k < |messages|
    ensures i < |entries| && entries[i].message == messages[k]
    ensures FirstFor(entries, messages[k].feedId) == Some(messages[k])
  {
    assert messages[k] in multiset(Messages(entries));
    i :| 0 <= i < |entries| && Messages(entries)[i] == messages[k];
    FirstIsOnly(entries, i);
  }

  lemma AmongMessages(entries: seq<UpdateEntry>, messages: seq<Message>, i: nat) returns (k: nat)
    requires SameMessages(entries, messages) && i < |entries|
    ensures k < |messages| && messages[k] == entries[i].message
  {
    assert Messages(entries)[i] in multiset(messages);
    k :| 0 <= k < |messages| && messages[k] == entries[i].message;
  }

  /** What the update says of one configured feed: nothing below quorum, else what the entries make. */
  ghost predicate SaysOf(
      feed: FeedConfig, observations: seq<Observation>, quorum: nat, tick: u64, feeds: FeedStates,
      said: Option<Message>) {
    var entries := AllEntries(observations, feed.feedId);
    if |entries| < quorum || entries == [] then said.None?
    else exists m: Draft :: Fits(m) && MessageOf(feed, entries, tick, feeds, m) && said == Some(ToMessage(m))
  }

  /** Every entry is of a configured feed. */
  lemma EntriesAreConfigured(
      setup: Setup, feeds: FeedStates, tick: u64, active: ActiveConfig, observations: seq<Observation>, i: nat)
    requires Derive(setup, feeds, tick, active, observations).Some?
    requires i < |Derive(setup, feeds, tick, active, observations).value.entries|
    ensures exists f :: f in active.feeds
              && f.feedId == Derive(setup, feeds, tick, active, observations).value.entries[i].message.feedId
  {
    var entries, quorum := Derive(setup, feeds, tick, active, observations).value.entries, Quorum(setup.current);
    var drafts := DerivedEntries(setup, feeds, tick, active, observations);
    var k := AmongMessages(entries, DraftMessages(drafts), i);
    MessagesAreExact(active.feeds, observations, quorum, tick, feeds);
    QuorumFeedsMembers(active.feeds, observations, quorum);
    assert QuorumFeeds(active.feeds, observations, quorum)[k] in active.feeds;
  }

  predicate NoFeedTwiceIn(feeds: seq<FeedConfig>) {
    forall i, j :: 0 <= i < j < |feeds| ==> feeds[i].feedId != feeds[j].feedId
  }

  /** Everything the feeds' observations make of them fits its encoding. */
  ghost predicate AllFit(feeds: seq<FeedConfig>, observations: seq<Observation>, tick: u64, states: FeedStates) {
    forall f :: f in feeds ==> OneFits(f, observations, tick, states)
  }

  lemma FitIff(
      feeds: seq<FeedConfig>, observations: seq<Observation>, tick: u64, states: FeedStates, messages: seq<Draft>)
    requires MessagesOf(feeds, observations, tick, states, messages)
    ensures AllFit(feeds, observations, tick, states) <==> forall k :: 0 <= k < |messages| ==> Fits(messages[k])
  {
    forall k | 0 <= k < |feeds| ensures Fits(messages[k]) <==> OneFits(feeds[k], observations, tick, states) {
      OneFitsIff(feeds[k], observations, tick, states, messages[k]);
    }
    assert forall k :: 0 <= k < |feeds| ==> feeds[k] in feeds;
  }

  ghost predicate OneFits(f: FeedConfig, observations: seq<Observation>, tick: u64, states: FeedStates) {
    AllEntries(observations, f.feedId) != []
    && exists m: Draft :: Fits(m) && MessageOf(f, AllEntries(observations, f.feedId), tick, states, m)
  }

  lemma {:induction false} OneFitsIff(
      f: FeedConfig, observations: seq<Observation>, tick: u64, states: FeedStates, m: Draft)
    requires AllEntries(observations, f.feedId) != []
    requires MessageOf(f, AllEntries(observations, f.feedId), tick, states, m)
    ensures Fits(m) <==> OneFits(f, observations, tick, states)
  {
    var entries := AllEntries(observations, f.feedId);
    FeedMessageIff(f, entries, tick, states, m);
    if other: Draft :| Fits(other) && MessageOf(f, entries, tick, states, other) {
      FeedMessageIff(f, entries, tick, states, other);
    }
  }

  lemma ThrowsUnfit(feeds: seq<FeedConfig>, observations: seq<Observation>, tick: u64, states: FeedStates)
    requires Throws(feeds, tick, states)
    ensures !AllFit(feeds, observations, tick, states)
  {
    var f :| f in feeds && DividesByZero(f, tick, states);
    var entries := AllEntries(observations, f.feedId);
    if entries != [] {
      ThrowsIff(f, entries, tick, states);
      forall m: Draft ensures !MessageOf(f, entries, tick, states, m) { FeedMessageIff(f, entries, tick, states, m); }
    }
  }

  lemma {:induction false} DraftsDerive(
      setup: Setup, feeds: FeedStates, tick: u64, active: ActiveConfig, observations: seq<Observation>,
      drafts: seq<Draft>)
    requires AggregateMessages(active.feeds, observations, Quorum(setup.current), tick, feeds) == Some(drafts)
    ensures Derive(setup, feeds, tick, active, observations).Some?
       <==> (forall k :: 0 <= k < |drafts| ==> Fits(drafts[k])) && 1 <= |drafts| <= 65535
            && forall i, j :: 0 <= i < j < |drafts| ==> drafts[i].feedId != drafts[j].feedId
  {
    if forall k :: 0 <= k < |drafts| ==> Fits(drafts[k]) {
      var messages := DraftMessages(drafts);
      AssembleIff(setup.crypto, setup.typeHash, setup.current.setIndex, tick, active.tickPeriodMs, active.hash,
          messages);
      assert forall k :: 0 <= k < |drafts| ==> messages[k].feedId == drafts[k].feedId;
    }
  }

  /** A header is derived if and only if a quorum prices some feed, at most 65535 of them and none twice, and
      what it makes of each fits. */
  lemma {:induction false} DeriveIff(
      setup: Setup, feeds: FeedStates, tick: u64, active: ActiveConfig, observations: seq<Observation>)
    ensures var priced := QuorumFeeds(active.feeds, observations, Quorum(setup.current));
            Derive(setup, feeds, tick, active, observations).Some?
            <==> 1 <= |priced| <= 65535 && NoFeedTwiceIn(priced) && AllFit(priced, observations, tick, feeds)
  {
    var quorum := Quorum(setup.current);
    var priced := QuorumFeeds(active.feeds, observations, quorum);
    var r := AggregateMessages(active.feeds, observations, quorum, tick, feeds);
    MessagesAreExact(active.feeds, observations, quorum, tick, feeds);
    if r.None? {
      ThrowsUnfit(priced, observations, tick, feeds);
    } else {
      FitIff(priced, observations, tick, feeds, r.value);
      DraftsDerive(setup, feeds, tick, active, observations, r.value);
      assert forall k :: 0 <= k < |priced| ==> r.value[k].feedId == priced[k].feedId;
    }
  }

  lemma {:induction false} NeverPriced(
      priced: seq<FeedConfig>, observations: seq<Observation>, k: nat, feedId: Bytes32, quorum: nat)
    requires k < |priced| && forall f :: f in priced ==> |AllEntries(observations, f.feedId)| >= quorum
    requires |AllEntries(observations, feedId)| < quorum
    ensures priced[k].feedId != feedId
  {
    assert priced[k] in priced;
  }

  lemma {:induction false} SaidNothing(
      setup: Setup, feeds: FeedStates, tick: u64, active: ActiveConfig, observations: seq<Observation>,
      feed: FeedConfig)
    requires Derive(setup, feeds, tick, active, observations).Some?
    requires |AllEntries(observations, feed.feedId)| < Quorum(setup.current)
    ensures FirstFor(Derive(setup, feeds, tick, active, observations).value.entries, feed.feedId).None?
  {
    var entries, quorum := Derive(setup, feeds, tick, active, observations).value.entries, Quorum(setup.current);
    var drafts := DerivedEntries(setup, feeds, tick, active, observations);
    if FirstFor(entries, feed.feedId).Some? {
      FirstIsAmong(entries, feed.feedId);
      var i :| 0 <= i < |entries| && entries[i].message.feedId == feed.feedId;
      var k := AmongMessages(entries, DraftMessages(drafts), i);
      MessagesAreExact(active.feeds, observations, quorum, tick, feeds);
      QuorumFeedsMembers(active.feeds, observations, quorum);
      var priced := QuorumFeeds(active.feeds, observations, quorum);
      NeverPriced(priced, observations, k, feed.feedId, quorum);
    }
  }

  lemma {:induction false} SaidOnce(
      setup: Setup, feeds: FeedStates, tick: u64, active: ActiveConfig, observations: seq<Observation>,
      feed: FeedConfig)
    requires Derive(setup, feeds, tick, active, observations).Some? && feed in active.feeds
    requires |AllEntries(observations, feed.feedId)| >= Quorum(setup.current)
    ensures SaysOf(feed, observations, Quorum(setup.current), tick, feeds,
              FirstFor(Derive(setup, feeds, tick, active, observations).value.entries, feed.feedId))
  {
    var quorum := Quorum(setup.current);
    var drafts := DerivedEntries(setup, feeds, tick, active, observations);
    MessagesAreExact(active.feeds, observations, quorum, tick, feeds);
    QuorumFeedsMembers(active.feeds, observations, quorum);
    var priced := QuorumFeeds(active.feeds, observations, quorum);
    var k :| 0 <= k < |priced| && priced[k] == feed;
    var i := MessageAmong(Derive(setup, feeds, tick, active, observations).value.entries, DraftMessages(drafts), k);
    assert MessageOf(feed, AllEntries(observations, feed.feedId), tick, feeds, drafts[k]);
  }

  /** For every configured feed, a derived update carries exactly what the feed's observations make of it:
      medians, and averages one exact step from the ones this publisher kept. */
  lemma DerivedSays(
      setup: Setup, feeds: FeedStates, tick: u64, active: ActiveConfig, observations: seq<Observation>,
      feed: FeedConfig)
    requires Derive(setup, feeds, tick, active, observations).Some? && feed in active.feeds
    ensures SaysOf(feed, observations, Quorum(setup.current), tick, feeds,
              FirstFor(Derive(setup, feeds, tick, active, observations).value.entries, feed.feedId))
  {
    if |AllEntries(observations, feed.feedId)| < Quorum(setup.current) {
      SaidNothing(setup, feeds, tick, active, observations, feed);
    } else {
      SaidOnce(setup, feeds, tick, active, observations, feed);
    }
  }

  /** So does every header this publisher signs: under its root lie exactly the entries that say so. */
  lemma SignedSays(
      setup: Setup, memory: Memory, store: State, from: u8, p: SignedProposal, now: int) returns (d: Derived)
    requires SetFits(setup) && |p.body.chosen| < 256 && OnProposal(setup, memory, store, from, p, now).sign.Some?
    ensures OnProposal(setup, memory, store, from, p, now).sign == Some(d.header)
    ensures ProvesItself(setup.crypto, d)
    ensures var observations := TickOf(memory, p.body.tickMs).observations;
            && setup.schedule(p.body.tickMs).Some?
            && (forall k :: 0 <= k < |p.body.chosen| ==> p.body.chosen[k].index in observations)
            && forall feed :: feed in setup.schedule(p.body.tickMs).value.feeds ==>
                 SaysOf(feed, ChosenObservations(p.body.chosen, observations), Quorum(setup.current), p.body.tickMs,
                   store.feeds, FirstFor(d.entries, feed.feedId))
  {
    SignedMeansChecked(setup, memory, store, from, p, now);
    var active, tick := setup.schedule(p.body.tickMs).value, p.body.tickMs;
    var observations := ChosenObservations(p.body.chosen, TickOf(memory, tick).observations);
    d := Derive(setup, store.feeds, tick, active, observations).value;
    DerivedProves(setup, store.feeds, tick, active, observations);
    forall feed | feed in active.feeds
      ensures SaysOf(feed, observations, Quorum(setup.current), tick, store.feeds, FirstFor(d.entries, feed.feedId))
    {
      DerivedSays(setup, store.feeds, tick, active, observations, feed);
    }
  }

  // ----- averages over a run of ticks

  /** Updates derived one after the other, each saved before the next is derived. */
  ghost predicate SavedInTurn(
      setup: Setup, active: ActiveConfig, observed: seq<seq<Observation>>, updates: seq<Derived>,
      states: seq<FeedStates>) {
    && |states| == |updates| + 1 == |observed| + 1 && states[0] == map[] && TicksAscend(updates)
    && forall k: nat :: k < |updates| ==> TurnAt(setup, active, observed, updates, states, k)
  }

  predicate TicksAscend(updates: seq<Derived>) {
    forall i, k :: 0 <= i < k < |updates| ==> updates[i].header.publishTimeMs < updates[k].header.publishTimeMs
  }

  ghost predicate TurnAt(
      setup: Setup, active: ActiveConfig, observed: seq<seq<Observation>>, updates: seq<Derived>,
      states: seq<FeedStates>, k: nat) {
    k < |updates| && k < |observed| && k + 1 < |states|
    && Turn(setup, active, observed[k], updates[k], states[k], states[k + 1])
  }

  ghost predicate Turn(
      setup: Setup, active: ActiveConfig, observations: seq<Observation>, d: Derived, before: FeedStates,
      after: FeedStates) {
    var tick := d.header.publishTimeMs;
    Derive(setup, before, tick, active, observations) == Some(d) && after == AdvanceFeeds(before, d.entries, tick)
  }

  /** The newest tick that priced the feed. */
  function LastPriced(updates: seq<Derived>, feedId: Bytes32): Option<u64> {
    if updates == [] then None
    else
      var last := updates[|updates| - 1];
      if FirstFor(last.entries, feedId).Some? then Some(last.header.publishTimeMs)
      else LastPriced(updates[..|updates| - 1], feedId)
  }

  function Gap(before: Option<u64>, tick: u64): nat {
    if before.Some? && before.value <= tick then tick - before.value else 0
  }

  /** The feed's own values over the updates, each with the gap since the one before it. */
  function History(updates: seq<Derived>, feedId: Bytes32, value: Message -> int): seq<Tick> {
    if updates == [] then []
    else
      var before, last := updates[..|updates| - 1], updates[|updates| - 1];
      match FirstFor(last.entries, feedId)
      case None => History(before, feedId, value)
      case Some(m) =>
        History(before, feedId, value) + [Tick(value(m), Gap(LastPriced(before, feedId), last.header.publishTimeMs))]
  }

  function Price(m: Message): int { m.price }

  function Conf(m: Message): int { m.conf }

  /** What is kept for a feed after some updates: its newest tick, and the averages of its whole history. */
  ghost predicate KeepsHistory(updates: seq<Derived>, feed: FeedConfig, states: FeedStates) {
    var f, tau := feed.feedId, EmaTauMs(feed.emaHalfLifeMs);
    if LastPriced(updates, f).None? then f !in states && History(updates, f, Price) == [] == History(updates, f, Conf)
    else
      f in states && states[f].tickMs == LastPriced(updates, f).value
      && EmaAfter(History(updates, f, Price), tau) == Some(states[f].emaPrice)
      && EmaAfter(History(updates, f, Conf), tau) == Some(states[f].emaConf)
  }

  lemma {:induction false} EmaStep(ticks: seq<Tick>, t: Tick, tau: int)
    ensures EmaAfter(ticks + [t], tau) == NextEma(EmaAfter(ticks, tau), t.value, t.gapMs, tau)
  {
    assert (ticks + [t])[..|ticks|] == ticks;
  }

  /** The averages in a message are those of the feed's whole history up to it. */
  ghost predicate CarriesHistory(updates: seq<Derived>, feed: FeedConfig, m: Message) {
    var tau := EmaTauMs(feed.emaHalfLifeMs);
    EmaAfter(History(updates, feed.feedId, Price), tau) == Some(m.emaPrice)
    && EmaAfter(History(updates, feed.feedId, Conf), tau) == Some(m.emaConf)
  }

  lemma AveragesSplit(previous: Option<FeedState>, price: int, conf: int, tick: u64, tau: int, gap: nat, a: int, b: int)
    requires Averages(previous, price, conf, tick, tau) == Some((a, b))
    requires previous.Some? ==> gap == tick - previous.value.tickMs
    ensures NextEma(if previous.Some? then Some(previous.value.emaPrice) else None, price, gap, tau) == Some(a)
    ensures NextEma(if previous.Some? then Some(previous.value.emaConf) else None, conf, gap, tau) == Some(b)
  {
  }

  lemma {:induction false} HistoryStep(before: seq<Derived>, d: Derived, feed: FeedConfig, value: Message -> int)
    requires FirstFor(d.entries, feed.feedId).Some?
    ensures var gap := Gap(LastPriced(before, feed.feedId), d.header.publishTimeMs);
            var tau := EmaTauMs(feed.emaHalfLifeMs);
            EmaAfter(History(before + [d], feed.feedId, value), tau)
            == NextEma(EmaAfter(History(before, feed.feedId, value), tau),
                value(FirstFor(d.entries, feed.feedId).value), gap, tau)
  {
    assert (before + [d])[..|before|] == before;
    EmaStep(History(before, feed.feedId, value),
        Tick(value(FirstFor(d.entries, feed.feedId).value),
            Gap(LastPriced(before, feed.feedId), d.header.publishTimeMs)),
        EmaTauMs(feed.emaHalfLifeMs));
  }

  lemma {:induction false} MessageStep(
      before: seq<Derived>, d: Derived, feed: FeedConfig, entries: seq<ObservationEntry>, states: FeedStates,
      draft: Draft)
    requires KeepsHistory(before, feed, states) && entries != [] && Fits(draft)
    requires LastPriced(before, feed.feedId).Some? ==> LastPriced(before, feed.feedId).value < d.header.publishTimeMs
    requires MessageOf(feed, entries, d.header.publishTimeMs, states, draft)
    requires FirstFor(d.entries, feed.feedId) == Some(ToMessage(draft))
    ensures CarriesHistory(before + [d], feed, ToMessage(draft))
  {
    var f, tick := feed.feedId, d.header.publishTimeMs;
    var previous := if f in states then Some(states[f]) else None;
    HistoryStep(before, d, feed, Price);
    HistoryStep(before, d, feed, Conf);
    AveragesAre(feed, draft.price, draft.conf, tick, states, draft);
    AveragesSplit(previous, draft.price, draft.conf, tick, EmaTauMs(feed.emaHalfLifeMs),
        Gap(LastPriced(before, f), tick),
        draft.emaPrice, draft.emaConf);
  }

  lemma {:induction false} TurnKeepsHistory(
      setup: Setup, active: ActiveConfig, observations: seq<Observation>, before: seq<Derived>, d: Derived,
      states: FeedStates, after: FeedStates, feed: FeedConfig)
    requires Turn(setup, active, observations, d, states, after) && feed in active.feeds
    requires KeepsHistory(before, feed, states)
    requires LastPriced(before, feed.feedId).Some? ==> LastPriced(before, feed.feedId).value < d.header.publishTimeMs
    ensures KeepsHistory(before + [d], feed, after)
    ensures var said := FirstFor(d.entries, feed.feedId); said.Some? ==> CarriesHistory(before + [d], feed, said.value)
  {
    var tick := d.header.publishTimeMs;
    assert (before + [d])[..|before|] == before;
    AdvanceFeedsAt(states, d.entries, tick, feed.feedId);
    DerivedSays(setup, states, tick, active, observations, feed);
    var entries := AllEntries(observations, feed.feedId);
    if FirstFor(d.entries, feed.feedId).Some? {
      var draft :| Fits(draft) && MessageOf(feed, entries, tick, states, draft)
                   && FirstFor(d.entries, feed.feedId) == Some(ToMessage(draft));
      MessageStep(before, d, feed, entries, states, draft);
    }
  }

  lemma {:induction false} LastPricedIsBefore(updates: seq<Derived>, n: nat, k: nat, feedId: Bytes32)
    requires TicksAscend(updates) && n <= k < |updates| && LastPriced(updates[..n], feedId).Some?
    ensures LastPriced(updates[..n], feedId).value < updates[k].header.publishTimeMs
  {
    assert updates[..n][..n - 1] == updates[..n - 1];
    if FirstFor(updates[n - 1].entries, feedId).None? { LastPricedIsBefore(updates, n - 1, k, feedId); }
  }

  lemma SplitLast(updates: seq<Derived>, n: nat)
    requires n < |updates|
    ensures updates[..n] + [updates[n]] == updates[..n + 1]
  {
  }

  lemma NextTurn(
      setup: Setup, active: ActiveConfig, observed: seq<seq<Observation>>, updates: seq<Derived>,
      states: seq<FeedStates>, n: nat, feed: FeedConfig)
    requires SavedInTurn(setup, active, observed, updates, states) && n < |updates| && feed in active.feeds
    requires KeepsHistory(updates[..n], feed, states[n])
    ensures KeepsHistory(updates[..n + 1], feed, states[n + 1])
    ensures var said := FirstFor(updates[n].entries, feed.feedId);
            said.Some? ==> CarriesHistory(updates[..n + 1], feed, said.value)
  {
    assert TurnAt(setup, active, observed, updates, states, n);
    if LastPriced(updates[..n], feed.feedId).Some? { LastPricedIsBefore(updates, n, n, feed.feedId); }
    TurnKeepsHistory(setup, active, observed[n], updates[..n], updates[n], states[n], states[n + 1], feed);
    SplitLast(updates, n);
  }

  /** Over any run of ticks each saved before the next, what is kept for a feed is the exponential moving
      averages of all its prices and confidences so far, over the gaps between them. */
  lemma {:induction false} StateFollowsHistory(
      setup: Setup, active: ActiveConfig, observed: seq<seq<Observation>>, updates: seq<Derived>,
      states: seq<FeedStates>, n: nat, feed: FeedConfig)
    requires SavedInTurn(setup, active, observed, updates, states) && n <= |updates| && feed in active.feeds
    ensures KeepsHistory(updates[..n], feed, states[n])
  {
    if n > 0 {
      StateFollowsHistory(setup, active, observed, updates, states, n - 1, feed);
      NextTurn(setup, active, observed, updates, states, n - 1, feed);
    }
  }

  /** And so are the averages in every message: those of the feed's whole history up to and with it. */
  lemma AveragesFollowHistory(
      setup: Setup, active: ActiveConfig, observed: seq<seq<Observation>>, updates: seq<Derived>,
      states: seq<FeedStates>, n: nat, feed: FeedConfig)
    requires SavedInTurn(setup, active, observed, updates, states) && n < |updates| && feed in active.feeds
    requires FirstFor(updates[n].entries, feed.feedId).Some?
    ensures CarriesHistory(updates[..n + 1], feed, FirstFor(updates[n].entries, feed.feedId).value)
  {
    StateFollowsHistory(setup, active, observed, updates, states, n, feed);
    NextTurn(setup, active, observed, updates, states, n, feed);
  }
}
