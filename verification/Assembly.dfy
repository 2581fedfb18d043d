/** Building updates, and what complete and selected ones prove. */
module Assembly {
  import opened Bytes
  import opened Counting
  import opened Hashing
  import opened Merkle
  import opened PriceUpdates
  import opened PublisherSets
  import opened Signatures
  import opened Sorting
  import opened Wrappers

  /** An entry as the SDK holds it: the message already decoded. */
  datatype UpdateEntry = UpdateEntry(message: Message, proof: seq<Digest>)

  datatype Update = Update(header: Header, signatures: Bundle, entries: seq<UpdateEntry>)

  function RawEntries(entries: seq<UpdateEntry>): (r: seq<Entry>)
    ensures |r| == |entries|
    ensures forall i :: 0 <= i < |r| ==> r[i] == Entry(EncodeMessage(entries[i].message), entries[i].proof)
  {
    seq(|entries|, i requires 0 <= i < |entries| => Entry(EncodeMessage(entries[i].message), entries[i].proof))
  }

  function ToBlob(u: Update): Blob { Blob(u.header, u.signatures, RawEntries(u.entries)) }

  /** Every entry's bytes decode to a price message, or none of the update is returned. */
  function DecodeEntries(entries: seq<Entry>): (r: Option<seq<UpdateEntry>>)
    ensures r.Some? ==> |r.value| == |entries|
  {
    if entries == [] then Some([])
    else
      match (DecodeEntries(entries[..|entries| - 1]), DecodeMessage(entries[|entries| - 1].messageBytes))
      case (Some(rest), Some(m)) => Some(rest + [UpdateEntry(m, entries[|entries| - 1].proof)])
      case _ => None
  }

  lemma {:induction false} DecodeRaw(entries: seq<UpdateEntry>)
    ensures DecodeEntries(RawEntries(entries)) == Some(entries)
  {
    if entries != [] {
      var n := |entries| - 1;
      DecodeRaw(entries[..n]);
      DecodeMessageIffEncoded(EncodeMessage(entries[n].message), entries[n].message);
      assert RawEntries(entries)[..n] == RawEntries(entries[..n]);
      assert entries == entries[..n] + [entries[n]];
    }
  }

  lemma {:induction false} RawDecode(entries: seq<Entry>)
    ensures DecodeEntries(entries).Some? ==> entries == RawEntries(DecodeEntries(entries).value)
  {
    if entries != [] && DecodeEntries(entries).Some? {
      var n := |entries| - 1;
      RawDecode(entries[..n]);
      var decoded := DecodeEntries(entries).value;
      DecodeMessageIffEncoded(entries[n].messageBytes, decoded[n].message);
      assert decoded[..n] == DecodeEntries(entries[..n]).value;
      assert RawEntries(decoded)[..n] == RawEntries(decoded[..n]);
      assert entries == entries[..n] + [entries[n]];
    }
  }

  function DecodeUpdate(s: Bytes): Option<Update> {
    match DecodeBlob(s)
    case None => None
    case Some(b) =>
      match DecodeEntries(b.entries)
      case None => None
      case Some(entries) => Some(Update(b.header, b.signatures, entries))
  }

  /** The SDK decoder accepts exactly the encodings of updates that fit a blob. */
  lemma DecodeUpdateIffEncoded(s: Bytes, u: Update)
    ensures DecodeUpdate(s) == Some(u) <==> ValidBlob(ToBlob(u)) && s == EncodeBlob(ToBlob(u))
  {
    DecodeBlobIffEncoded(s, ToBlob(u));
    DecodeRaw(u.entries);
    if DecodeBlob(s).Some? {
      var b := DecodeBlob(s).value;
      DecodeBlobIffEncoded(s, b);
      RawDecode(b.entries);
    }
  }

  // ----- assembling

  predicate FeedIdLe(a: Message, b: Message) { LexLe(a.feedId, b.feedId) }

  lemma FeedIdOrder()
    ensures TotalOrder(FeedIdLe)
  {
    forall a: Message, b: Message ensures FeedIdLe(a, b) || FeedIdLe(b, a) { LexTotal(a.feedId, b.feedId); }
    forall a: Message, b: Message, c: Message | FeedIdLe(a, b) && FeedIdLe(b, c) ensures FeedIdLe(a, c) {
      LexTransitive(a.feedId, b.feedId, c.feedId);
    }
  }

  predicate DistinctFeeds(messages: seq<Message>) {
    forall i, j :: 0 <= i < j < |messages| ==> messages[i].feedId != messages[j].feedId
  }

  function MessageBytes(messages: seq<Message>): (r: seq<Bytes>)
    ensures |r| == |messages| && forall i :: 0 <= i < |r| ==> r[i] == EncodeMessage(messages[i])
  {
    seq(|messages|, i requires 0 <= i < |messages| => EncodeMessage(messages[i]))
  }

  function Leaves(c: Crypto, messages: seq<Message>): (r: seq<Digest>)
    ensures |r| == |messages| && forall i :: 0 <= i < |r| ==> r[i] == LeafHash(c, EncodeMessage(messages[i]))
  {
    LeafHashes(c, MessageBytes(messages))
  }

  /** The sorted messages, unless a neighbour repeats a feed. */
  function SortedMessages(messages: seq<Message>): Option<seq<Message>> {
    var sorted := Sort(FeedIdLe, messages);
    if exists i :: 0 < i < |sorted| && sorted[i - 1].feedId == sorted[i].feedId then None else Some(sorted)
  }

  /** The header and every entry's proof. Duplicated feeds and an empty tick throw; a leaf count beyond
      u16 throws when the header is encoded. */
  function Assemble(
      c: Crypto, committee: Bytes32, setIndex: u32, publishTimeMs: u64, tickPeriodMs: u32, configHash: Bytes32,
      messages: seq<Message>): (r: Option<(Header, seq<UpdateEntry>)>)
    ensures r.Some? ==>
        r.value.0.publisherSetTypeHash == committee && r.value.0.setIndex == setIndex
        && r.value.0.publishTimeMs == publishTimeMs
                        && r.value.0.leafCount == |messages| == |r.value.1|
  {
    match SortedMessages(messages)
    case None => None
    case Some(sorted) =>
      if sorted == [] || |sorted| > 0xFFFF then None
      else
        var leaves := Leaves(c, sorted);
        Some((Header(committee, setIndex, publishTimeMs, tickPeriodMs, configHash, |sorted|, Root(c, leaves)),
              seq(|sorted|, i requires 0 <= i < |sorted| => UpdateEntry(sorted[i], Proof(c, leaves, i)))))
  }

  /** Comparing neighbours after sorting finds every repetition. */
  lemma SortedMessagesDistinct(messages: seq<Message>)
    ensures SortedMessages(messages).Some? <==> DistinctFeeds(messages)
    ensures SortedMessages(messages).Some? ==> DistinctFeeds(SortedMessages(messages).value)
  {
    var sorted := Sort(FeedIdLe, messages);
    FeedIdOrder();
    SortOrdered(FeedIdLe, messages);
    if SortedMessages(messages).Some? {
      forall i, j | 0 <= i < j < |sorted| ensures sorted[i].feedId != sorted[j].feedId {
        assert FeedIdLe(sorted[i], sorted[i + 1]) && (i + 1 == j || FeedIdLe(sorted[i + 1], sorted[j]));
        if sorted[i].feedId == sorted[j].feedId {
          LexAntisymmetric(sorted[i].feedId, sorted[i + 1].feedId);
        }
      }
    }
    if DistinctFeeds(messages) { DistinctIsMultiset(messages, sorted); }
    if DistinctFeeds(sorted) { DistinctIsMultiset(sorted, messages); }
  }

  /** Messages make an update if and only if there are one to 65535 of them, no two of one feed. */
  lemma AssembleIff(
      c: Crypto, committee: Bytes32, setIndex: u32, publishTimeMs: u64, tickPeriodMs: u32, configHash: Bytes32,
      messages: seq<Message>)
    ensures Assemble(c, committee, setIndex, publishTimeMs, tickPeriodMs, configHash, messages).Some?
       <==> 1 <= |messages| <= 65535 && DistinctFeeds(messages)
  {
    SortedMessagesDistinct(messages);
  }

  /** Distinctness does not depend on the order. */
  lemma DistinctIsMultiset(a: seq<Message>, b: seq<Message>)
    requires multiset(a) == multiset(b) && DistinctFeeds(a)
    ensures DistinctFeeds(b)
  {
    forall i, j | 0 <= i < j < |b| ensures b[i].feedId != b[j].feedId {
      if b[i] == b[j] {
        CountedTwice(b, b[i]);
        CountedTwice(a, b[i]);
      } else {
        assert b[i] in multiset(a) && b[j] in multiset(a);
        var k :| 0 <= k < |a| && a[k] == b[i];
        var l :| 0 <= l < |a| && a[l] == b[j];
      }
    }
  }

  /** Everything assembled verifies against the assembled header, and fits the blob encoding. */
  lemma AssembledEntriesVerify(
      c: Crypto, committee: Bytes32, setIndex: u32, publishTimeMs: u64, tickPeriodMs: u32, configHash: Bytes32,
      messages: seq<Message>, i: nat)
    requires Assemble(c, committee, setIndex, publishTimeMs, tickPeriodMs, configHash, messages).Some? && i < |messages|
    ensures var (h, entries) :=
              Assemble(c, committee, setIndex, publishTimeMs, tickPeriodMs, configHash, messages).value;
            VerifyProof(c, h.merkleRoot, LeafHash(c, EncodeMessage(entries[i].message)), entries[i].proof)
            && |entries[i].proof| <= MAX_PROOF_LEN
            && entries[i].message in messages
  {
    var sorted := SortedMessages(messages).value;
    var leaves := Leaves(c, sorted);
    ProofVerifies(c, leaves, i);
    ProofFitsBlob(c, leaves, i);
    SortMembers(FeedIdLe, messages, sorted[i]);
  }

  // ----- selecting feeds

  function KeepFeeds(entries: seq<UpdateEntry>, wanted: set<Bytes32>): seq<UpdateEntry> {
    if entries == [] then []
    else
      KeepFeeds(entries[..|entries| - 1], wanted)
      + if entries[|entries| - 1].message.feedId in wanted then [entries[|entries| - 1]] else []
  }

  function SelectFeeds(u: Update, wanted: set<Bytes32>): Option<Update> {
    var entries := KeepFeeds(u.entries, wanted);
    if entries == [] then None else Some(u.(entries := entries))
  }

  lemma {:induction false} LookupAppend(entries: seq<UpdateEntry>, last: UpdateEntry, feedId: Bytes32)
    ensures EntriesFor(RawEntries(entries + [last]), feedId)
         == EntriesFor(RawEntries(entries), feedId)
            + if last.message.feedId == feedId then [Entry(EncodeMessage(last.message), last.proof)] else []
  {
    MessageFeedId(last.message);
    assert RawEntries(entries + [last])[..|entries|] == RawEntries(entries);
  }

  lemma {:induction false} KeptLast(
      rest: seq<UpdateEntry>, kept: seq<UpdateEntry>, last: UpdateEntry, wanted: set<Bytes32>, feedId: Bytes32)
    requires EntriesFor(RawEntries(kept), feedId)
        == if feedId in wanted then EntriesFor(RawEntries(rest), feedId) else []
    ensures EntriesFor(RawEntries(kept + if last.message.feedId in wanted then [last] else []), feedId)
         == if feedId in wanted then EntriesFor(RawEntries(rest + [last]), feedId) else []
  {
    LookupAppend(rest, last, feedId);
    LookupAppend(kept, last, feedId);
    assert kept + [] == kept;
  }

  lemma {:induction false} KeepFeedsLooksUpTheSame(entries: seq<UpdateEntry>, wanted: set<Bytes32>, feedId: Bytes32)
    ensures EntriesFor(RawEntries(KeepFeeds(entries, wanted)), feedId)
        == if feedId in wanted then EntriesFor(RawEntries(entries), feedId) else []
  {
    if entries != [] {
      var n := |entries| - 1;
      KeepFeedsLooksUpTheSame(entries[..n], wanted, feedId);
      assert entries == entries[..n] + [entries[n]];
      KeptLast(entries[..n], KeepFeeds(entries[..n], wanted), entries[n], wanted, feedId);
    }
  }

  /** A selected update gives every kept feed exactly the verdict the full update gives it, and knows no other feed. */
  lemma SelectKeepsVerdicts(c: Crypto, u: Update, wanted: set<Bytes32>, feedId: Bytes32)
    requires SelectFeeds(u, wanted).Some?
    ensures FindEntry(c, ToBlob(SelectFeeds(u, wanted).value), feedId)
         == if feedId in wanted then FindEntry(c, ToBlob(u), feedId) else Err(FeedNotFound)
    ensures SelectFeeds(u, wanted).value.header == u.header && SelectFeeds(u, wanted).value.signatures == u.signatures
  {
    KeepFeedsLooksUpTheSame(u.entries, wanted, feedId);
  }

  lemma {:induction false} KeepFeedsMembers(entries: seq<UpdateEntry>, wanted: set<Bytes32>)
    ensures |KeepFeeds(entries, wanted)| <= |entries|
    ensures forall e :: e in KeepFeeds(entries, wanted) ==> e in entries
  {
    if entries != [] { KeepFeedsMembers(entries[..|entries| - 1], wanted); }
  }

  /** Selecting feeds from an update that fits a blob leaves one that fits. */
  lemma SelectedFits(u: Update, wanted: set<Bytes32>)
    requires SelectFeeds(u, wanted).Some? && ValidBlob(ToBlob(u))
    ensures ValidBlob(ToBlob(SelectFeeds(u, wanted).value))
  {
    var kept := KeepFeeds(u.entries, wanted);
    KeepFeedsMembers(u.entries, wanted);
    forall i | 0 <= i < |kept| ensures ValidEntry(RawEntries(kept)[i]) {
      assert kept[i] in u.entries;
      var j :| 0 <= j < |u.entries| && u.entries[j] == kept[i];
      assert ValidEntry(RawEntries(u.entries)[j]);
    }
  }

  /** So a consumer of the selected blob's bytes reaches, for every kept feed, the verdict the full blob's
      bytes give under the same committee and cell, and finds no other feed. */
  lemma SelectedBlobVerifies(
      c: Crypto, u: Update, wanted: set<Bytes32>, feedId: Bytes32, committee: Bytes32, d: PublisherSetData)
    requires SelectFeeds(u, wanted).Some? && ValidBlob(ToBlob(u))
    ensures ValidBlob(ToBlob(SelectFeeds(u, wanted).value))
    ensures VerifyPriceUpdate(c, EncodeBlob(ToBlob(SelectFeeds(u, wanted).value)), feedId, committee, d)
         == if feedId in wanted then VerifyPriceUpdate(c, EncodeBlob(ToBlob(u)), feedId, committee, d)
             else Err(FeedNotFound)
  {
    var selected := SelectFeeds(u, wanted).value;
    SelectedFits(u, wanted);
    SelectKeepsVerdicts(c, u, wanted, feedId);
    DecodeBlobIffEncoded(EncodeBlob(ToBlob(u)), ToBlob(u));
    DecodeBlobIffEncoded(EncodeBlob(ToBlob(selected)), ToBlob(selected));
  }

  // ----- complete updates

  function Messages(entries: seq<UpdateEntry>): (r: seq<Message>)
    ensures |r| == |entries| && forall i :: 0 <= i < |r| ==> r[i] == entries[i].message
  {
    seq(|entries|, i requires 0 <= i < |entries| => entries[i].message)
  }

  predicate AllProven(c: Crypto, u: Update) {
    forall i ::
        0 <= i < |u.entries| ==>
            VerifyProof(c, u.header.merkleRoot, LeafHash(c, EncodeMessage(u.entries[i].message)), u.entries[i].proof)
  }

  /** As many entries as the header counts, no feed twice, every entry proven. */
  predicate CompleteUpdate(c: Crypto, u: Update) {
    |u.entries| == u.header.leafCount && DistinctFeeds(Messages(u.entries)) && AllProven(c, u)
  }

  /** Everything hashed by building the signed tree and checking the entries against it. */
  ghost function CheckedPreimages(c: Crypto, messages: seq<Message>, entries: seq<UpdateEntry>): set<Bytes> {
    set i, x | 0 <= i < |entries|
        && x in SoundnessPreimages(c, MessageBytes(messages), EncodeMessage(entries[i].message), entries[i].proof) :: x
  }

  /** No proven entry is made up: each is one of the messages the header's root was built from. */
  lemma {:induction false} ProvenAreSigned(c: Crypto, messages: seq<Message>, u: Update, i: nat)
    requires messages != [] && u.header.merkleRoot == Root(c, Leaves(c, messages)) && AllProven(c, u) && i < |u.entries|
    requires CollisionFree(c, CheckedPreimages(c, messages, u.entries))
    ensures u.entries[i].message in messages
  {
    var bytes := EncodeMessage(u.entries[i].message);
    CollisionFreeSubset(c, CheckedPreimages(c, messages, u.entries),
        SoundnessPreimages(c, MessageBytes(messages), bytes, u.entries[i].proof));
    ProofSound(c, MessageBytes(messages), bytes, u.entries[i].proof);
    var k :| 0 <= k < |messages| && EncodeMessage(messages[k]) == bytes;
    DecodeMessageIffEncoded(bytes, messages[k]);
    DecodeMessageIffEncoded(bytes, u.entries[i].message);
  }

  /** An update with as many proven entries as the header counts carries exactly the signed messages,
      none missing and none repeated, if and only if no feed occurs twice in it. */
  lemma {:induction false} ExactIffDistinct(c: Crypto, messages: seq<Message>, u: Update)
    requires messages != [] && DistinctFeeds(messages)
    requires u.header.merkleRoot == Root(c, Leaves(c, messages)) && |u.entries| == u.header.leafCount == |messages|
    requires AllProven(c, u) && CollisionFree(c, CheckedPreimages(c, messages, u.entries))
    ensures DistinctFeeds(Messages(u.entries)) <==> Elements(Messages(u.entries)) == Elements(messages)
  {
    var carried := Messages(u.entries);
    forall m | m in Elements(carried) ensures m in Elements(messages) {
      var i :| 0 <= i < |u.entries| && u.entries[i].message == m;
      ProvenAreSigned(c, messages, u, i);
    }
    DistinctCount(carried);
    DistinctCount(messages);
    SubsetCount(Elements(carried), Elements(messages));
    if Distinct(carried) {
      forall i, j | 0 <= i < j < |carried| ensures carried[i].feedId != carried[j].feedId {
        assert carried[i] in Elements(messages) && carried[j] in Elements(messages);
        var k :| 0 <= k < |messages| && messages[k] == carried[i];
        var l :| 0 <= l < |messages| && messages[l] == carried[j];
      }
    }
  }

  /** So a complete update is exact. */
  lemma {:induction false} CompleteIsExact(c: Crypto, messages: seq<Message>, u: Update)
    requires messages != [] && DistinctFeeds(messages)
    requires u.header.merkleRoot == Root(c, Leaves(c, messages)) && u.header.leafCount == |messages|
    requires CompleteUpdate(c, u) && CollisionFree(c, CheckedPreimages(c, messages, u.entries))
    ensures |u.entries| == |messages| && Distinct(Messages(u.entries))
    ensures Elements(Messages(u.entries)) == Elements(messages)
  {
    ExactIffDistinct(c, messages, u);
  }
}
