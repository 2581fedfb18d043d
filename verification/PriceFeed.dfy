/** Feed cell data, its encoding, and the checks a consumer script makes on it. */
module PriceFeeds {
  import opened Bytes
  import opened Formats
  import opened PriceUpdates
  import opened PublisherSets
  import opened Wrappers

  datatype PriceFeedData = PriceFeedData(
    feedId: Bytes32, publisherSetTypeHash: Bytes32, price: i64, conf: u64, expo: i32, publishTimeMs: u64,
    prevPublishTimeMs: u64, emaPrice: i64, emaConf: u64, sourceTimeMs: u64, numPublishers: u8, setIndex: u32)

  const FEED_FORMAT := Record([Fixed(32), Fixed(32), PRICE_FORMAT, UInt(8), TAIL_FORMAT, UInt(4)])

  function FeedValue(d: PriceFeedData): Value {
    List([Raw(d.feedId), Raw(d.publisherSetTypeHash), PriceValue(d.price, d.conf, d.expo), Int(d.publishTimeMs),
          TailValue(d.prevPublishTimeMs, d.emaPrice, d.emaConf, d.sourceTimeMs, d.numPublishers), Int(d.setIndex)])
  }

  lemma FeedFields(w: seq<Value>)
    requires |w| == 6
    ensures Conforms(FEED_FORMAT, List(w)) <==>
            Conforms(Fixed(32), w[0]) && Conforms(Fixed(32), w[1]) && Conforms(PRICE_FORMAT, w[2])
            && Conforms(UInt(8), w[3]) && Conforms(TAIL_FORMAT, w[4]) && Conforms(UInt(4), w[5])
  {
    var f := FEED_FORMAT.fields;
    assert f[0] == Fixed(32) && f[1] == Fixed(32) && f[2] == PRICE_FORMAT && f[3] == UInt(8) && f[4] == TAIL_FORMAT
        && f[5] == UInt(4);
  }

  function ValueFeed(v: Value): (d: PriceFeedData)
    requires Conforms(FEED_FORMAT, v)
    ensures FeedValue(d) == v
  {
    Pow256Values();
    var w := v.items;
    FeedFields(w);
    var p, q := w[2].items, w[4].items;
    PriceFields(p);
    TailFields(q);
    assert p == [p[0], p[1], p[2]] && q == [q[0], q[1], q[2], q[3], q[4]];
    assert w == [w[0], w[1], w[2], w[3], w[4], w[5]];
    PriceFeedData(w[0].raw, w[1].raw, p[0].num, p[1].num, p[2].num, w[3].num, q[0].num, q[1].num, q[2].num, q[3].num,
        q[4].num, w[5].num)
  }

  lemma FeedValueConforms(d: PriceFeedData)
    ensures Conforms(FEED_FORMAT, FeedValue(d))
  {
    Pow256Values();
    PriceConforms(d.price, d.conf, d.expo);
    TailConforms(d.prevPublishTimeMs, d.emaPrice, d.emaConf, d.sourceTimeMs, d.numPublishers);
    FeedFields(FeedValue(d).items);
  }

  lemma FeedConforms(d: PriceFeedData)
    ensures Conforms(FEED_FORMAT, FeedValue(d)) && ValueFeed(FeedValue(d)) == d
  {
    FeedValueConforms(d);
    FeedValueInjective(ValueFeed(FeedValue(d)), d);
  }

  lemma FeedValueInjective(a: PriceFeedData, b: PriceFeedData)
    requires FeedValue(a) == FeedValue(b)
    ensures a == b
  {
    var v, w := FeedValue(a).items, FeedValue(b).items;
    assert v[0] == w[0] && v[1] == w[1] && v[2] == w[2] && v[3] == w[3] && v[4] == w[4] && v[5] == w[5];
    PriceValueInjective(a.price, a.conf, a.expo, b.price, b.conf, b.expo);
    TailValueInjective(a.prevPublishTimeMs, a.emaPrice, a.emaConf, a.sourceTimeMs, a.numPublishers,
                       b.prevPublishTimeMs, b.emaPrice, b.emaConf, b.sourceTimeMs, b.numPublishers);
  }

  function EncodeFeed(d: PriceFeedData): Bytes {
    FeedConforms(d);
    Formats.Encode(FEED_FORMAT, FeedValue(d))
  }

  function DecodeFeed(s: Bytes): Option<PriceFeedData> {
    match DecodeAll(FEED_FORMAT, s)
    case None => None
    case Some(v) => DecodeAllIffEncoded(FEED_FORMAT, s, v); Some(ValueFeed(v))
  }

  lemma DecodeFeedIffEncoded(s: Bytes, d: PriceFeedData)
    ensures DecodeFeed(s) == Some(d) <==> s == EncodeFeed(d)
  {
    FeedConforms(d);
    DecodeAllIffEncoded(FEED_FORMAT, s, FeedValue(d));
    if DecodeFeed(s) == Some(d) {
      DecodeAllIffEncoded(FEED_FORMAT, s, DecodeAll(FEED_FORMAT, s).value);
    }
  }

  predicate IsUninitialized(d: PriceFeedData) {
    d.price == 0 && d.conf == 0 && d.expo == 0 && d.publishTimeMs == 0 && d.prevPublishTimeMs == 0 && d.emaPrice == 0
    && d.emaConf == 0 && d.sourceTimeMs == 0 && d.numPublishers == 0 && d.setIndex == 0
  }

  predicate StaticFieldsUnchanged(a: PriceFeedData, b: PriceFeedData) {
    a.feedId == b.feedId && a.publisherSetTypeHash == b.publisherSetTypeHash
  }

  /** The cell equals the authenticated message exactly. */
  predicate Matches(d: PriceFeedData, p: VerifiedPrice) {
    d.feedId == p.message.feedId && d.price == p.message.price && d.conf == p.message.conf && d.expo == p.message.expo
    && d.publishTimeMs == p.header.publishTimeMs && d.prevPublishTimeMs == p.message.prevPublishTimeMs
    && d.emaPrice == p.message.emaPrice && d.emaConf == p.message.emaConf && d.sourceTimeMs == p.message.sourceTimeMs
    && d.numPublishers == p.message.numPublishers && d.setIndex == p.header.setIndex
  }

  /** The message and the committee determine the cell: nothing in it is left to the submitter. */
  lemma MatchesDeterminesCell(a: PriceFeedData, b: PriceFeedData, p: VerifiedPrice)
    requires Matches(a, p) && Matches(b, p) && a.publisherSetTypeHash == b.publisherSetTypeHash
    ensures a == b && EncodeFeed(a) == EncodeFeed(b)
  {
  }

  datatype FeedCheckError = Malformed | WrongFeed | WrongCommittee | Uninitialized | Stale | Paused | UntrustedSet

  function CheckFeedCell(
      data: Bytes, feedId: Bytes32, committeeTypeHash: Bytes32,
      committee: PublisherSetData): Result<PriceFeedData, FeedCheckError> {
    match DecodeFeed(data)
    case None => Err(FeedCheckError.Malformed)
    case Some(feed) =>
      if feed.feedId != feedId then Err(WrongFeed)
      else if feed.publisherSetTypeHash != committeeTypeHash then Err(WrongCommittee)
      else if feed.publishTimeMs == 0 then Err(Uninitialized)
      else if IsPaused(committee) then Err(FeedCheckError.Paused)
      else if !Trusts(committee, feed.setIndex) then Err(UntrustedSet)
      else Ok(feed)
  }

  function PublishedAfter(feed: PriceFeedData, notBeforeMs: u64): Result<(), FeedCheckError> {
    if feed.publishTimeMs > notBeforeMs then Ok(()) else Err(Stale)
  }
}
