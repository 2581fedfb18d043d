# A verified model of the Lean Oracle's trust core

This project models the parts of the oracle that its safety rests on, in Dafny, and proves what they
promise. `dafny verify dfyconfig.toml` checks all of it.

The model follows the system's three layers.

**Publishers** (`Node`, `Store`, `Aggregate`, `Fixed`, `Twap`, `Methodology`, `Venues`, `Wire`). A publisher is a
class whose handlers change its per-tick memory and its durable store; each handler is proved equal to a
function of the state before it. `Protocol` puts the honest publishers of a committee into one world. A
step delivers any frame to any of them, or lets one crash, restart, prune, learn a key set or move its
clock. Publishers outside the world are unconstrained. `Protocol.OneHeaderPerTick` is the safety of the
signing protocol over whole runs, `Finality.FinalizedAgree` is what follows for the stores,
`Attestation.QuorumPricesAreHonest` says what a quorum's signature means for the prices under it, and
`Agreement.AveragesAgree` says that two honest publishers with the same finalized ticks average from the
same state, so that one proposal gives both the same header (`Agreement.SameProposalSameHeader`).
`Progress.QuorumSettles` is the other half of safety: a quorum of signatures is enough to finalize, in any
order. `Averages.AveragesFollowHistory` says what the averages in a message are.

**Chain** (`PublisherSets`, `Governance`, `PriceUpdates`, `Merkle`, `Signatures`, `PriceFeeds`,
`PriceFeedScript`, `Chain`). The two type scripts are functions from a transaction to an exit code. Their
loops are methods proved against those functions. Governance is a step relation with its invariants over
every run; `PriceFeedScript.SharedCheckIsExact` shows that one shared signature check decides exactly
what a check per cell would; `Chain.AcceptedPriceIsBacked` ties a consumer's check to the key set in
force. `Lawful` says exactly which transactions either script accepts, to the byte, and `Pause` what a
paused committee stops.

**Mirror** (`MirrorCommittee`, `MirrorStore`, `SkipScan`, `Doubles`) and the shared SDK (`Bytes`,
`Formats`, `Assembly`, `CanonicalJson`). The mirror's view of the key sets is compared with the chain's
rule, and its indexed tables with a plain scan.

## How the pieces are idealized

The protocol hash is a parameter, `bytes -> 32 bytes`. Nothing is assumed of it except, in the theorems
that say so, that a named finite set of byte strings does not collide. Signature checking is a parameter
too: a relation between digest, signature and key. In the world of `Protocol`, a valid signature by an
honest key exists only over a digest that key was asked to sign. Codecs are byte exact: every layout is a
value of one small grammar (`Formats`), the two-way theorem about the grammar gives each layout its own,
and `Layouts` spells each out as a sequence of bytes.

`Protocol` makes two hypotheses explicit that the code leaves to its operator: the prune bound stays
behind the longest signing window, and a publisher's clock does not run backwards.
`Protocol.PruningForgets` says exactly when a publisher that broke the first signs a second header of a
tick it already reserved; `Protocol.EarlyPruneSplits` shows, on a committee of one, two headers of one tick
that then both have a quorum.

`Methodology` takes quotes and trades sorted by time. Its source says so too, but `MarketData.push`
(`apps/publisher/src/marketData.ts:71-79`) appends in order of arrival and does not sort; the theorems about
venue prices hold while the feeds deliver in order.

## Where the code and its documentation differ

- `apps/publisher/src/node.ts:133-135` reads a cached anchor from the tick's state, but nothing ever
  assigns it; the model follows the code and computes the anchor each time.
- `apps/publisher/src/node.ts:421-427` counts and proves entries of a synced update but does not compare
  their feeds. `Assembly.ExactIffDistinct` says exactly when such an update carries the signed messages:
  if and only if no feed repeats. `Node.RepeatedIsAcceptable` gives the inputs that fail, one for every
  acceptable update of two or more entries, and `Node.RepeatedStarvesFeeds` what they do to the averages.
  `Agreement` names the condition where it needs it. The mirror does compare the feeds.
- `apps/mirror/src/committee.ts:90` and `:120` compare ticks as doubles. The agreement with the chain is
  therefore exact only under `MirrorCommittee.SwitchIsSharp`, which holds for every switch tick up to
  2^53 ms.
- `apps/publisher/src/fixed.ts:37` says rescaling rounds half up. The code does, except that a negative value
  half-way goes down (`Fixed.HalfUpIff`, `Fixed.NegativeHalfGoesDown`).
- `apps/publisher/src/methodology.ts:49-54` describes the trade filter by the book states near a trade.
  With two quotes in one millisecond it keeps a little more (`Methodology.SharedTimesKeepMore`):
  `Methodology.KeptOutsideStatesIff` says exactly which trades, and `Methodology.DistinctTimesAgree` that
  there are none while no two quotes share a time.

## Model

| member | source | states |
|---|---|---|
| Protocol.OneHeaderPerTick | apps/publisher/src/node.ts:334-404 | Over every run of the honest publishers, with any frames delivered, lost, repeated or reordered, crashes that keep the store, restarts, and prunes behind the signing window: two headers of one tick that both gathered a quorum of one key set are equal, if at most n - quorum keys are outside the honest set. |
| Progress.QuorumSettles | apps/publisher/src/node.ts:312-404 | In any run: a publisher handed a proposal it derives a header from, with valid signatures over that header before and after it in any order and with repetitions, ends with the tick stored under that header and those entries if and only if the signatures come from a quorum of different members. |
| Progress.SignatureSettlesIff | apps/publisher/src/node.ts:383-404 | One more valid signature stores an open tick under its derived header if and only if it brings the different members on file to a quorum; otherwise it is filed and nothing else changes. |
| Progress.ProposalSettlesIff | apps/publisher/src/node.ts:354-404 | A proposal this publisher derives a header from stores the open tick if and only if a quorum of members had already signed that header, whether or not this publisher will sign it. |
| Progress.SignsIff | apps/publisher/src/node.ts:334-380 | A publisher signs what it derives from a proposal for an open tick if and only if its own prices are within tolerance of every message and it never reserved another header of the tick. |
| Lawful.CommitteeAcceptsIff | contracts/publisher_set_type/src/main.rs:50-175 | The committee script accepts a transaction if and only if it is lawful, to the byte: a first state named by the first input, or a step that changes only the fields of its operation, in time, signed by more than two thirds of the outgoing set and by every key of a new one, with nothing trailing. |
| Lawful.FeedsAcceptIff | contracts/price_feed_type/src/main.rs:50-205 | All feed scripts of one code accept a transaction if and only if each one's cell is created blank, burnt, or moved to exactly the message that more than two thirds of the committee's set signed for its feed at a later time, whatever else the transaction holds. |
| Finality.FinalizedAgree | apps/publisher/src/node.ts:394-431 | No two honest publishers ever hold different headers for a tick under one set index. |
| Finality.StoredIsAcceptable | apps/publisher/src/node.ts:406-431 | What one honest publisher stored passes every check another makes, exactly when that one knows the key set. |
| Protocol.AlwaysGuarded | apps/publisher/src/store.ts:52-60 | At every moment of every run, each header a publisher ever signed is either still in its double-sign guard or outside the signing window for good, and it signed one header hash per tick. |
| Protocol.SigningIsGuarded | apps/publisher/src/node.ts:334-380 | One proposal, up to the call of the signer: the guard rows only grow, and a header handed to the signer holds its tick's row, names this committee and set, and is inside the window. |
| Protocol.HonestKeySignsOne | apps/publisher/src/store.ts:48-60 | An honest key asked to sign the hashes of two headers of one tick was asked for one header. |
| Protocol.AskedMeansSigned | apps/publisher/src/node.ts:312-381 | A signature request for a header's digest can only have been for that header: no observation, proposal, hello or governance digest collides with it. |
| Protocol.PruningForgets | apps/publisher/src/store.ts:148-165 | A publisher that reserved one header of a tick, pruned, and derives another signs the other if and only if the prune went past the tick and nothing else stops the handler. |
| Protocol.EarlyPruneSplits | apps/publisher/src/store.ts:148-165 | For a committee of one honest publisher: if it prunes and then signs a second header of a tick it still guarded, the prune broke the bound, and two headers of one tick each have a quorum although no key is faulty and no signature forged. |
| Finality.FinalizedUpdateIsGood | apps/publisher/src/node.ts:394-402 | The first quorum of signatures held for a derived header makes an update that passes the threshold check and proves every entry. |
| Finality.AlwaysGood | apps/publisher/src/node.ts:383-431 | At every moment every stored row decodes to an update for its own tick and committee with a quorum of its set, complete and proven; every signature in memory is by the member it is filed under. |
| Attestation.QuorumPricesAreHonest | apps/publisher/src/aggregate.ts:30-59 | End to end: every entry proven in an update that gathered a quorum is the median of genuine observations by a quorum of different members, and its price, confidence and source time lie in every range that holds the values the honest ones signed. |
| Attestation.QuorumIsAttested | apps/publisher/src/node.ts:354-380 | A header with a quorum of signatures was derived by an honest publisher from genuine observations of its tick. |
| Attestation.WitnessedIsHonest | apps/publisher/src/aggregate.ts:30-59 | A witnessed message lies between the least and the greatest honest value among the observations it came from. |
| Attestation.DerivedIsWitnessed | apps/publisher/src/node.ts:464-477 | The header a publisher derives commits to exactly the aggregated messages of the observations it was given. |
| Attestation.ChosenAreWell | apps/publisher/src/node.ts:342-356 | Strictly ascending chosen indexes with matching observations are one observation per member, each naming a feed once. |
| Attestation.AlwaysAttested | apps/publisher/src/node.ts:284-310 | At every moment every observation in memory is filed under its author and tick and was signed by it if its key is honest, and every header ever signed is attested. |
| Node.SignedMeansChecked | apps/publisher/src/node.ts:312-381 | Nothing reaches the signer without every check: leader, proposer signature, anchor, history, slot, window, quorum of ascending indexes, hashes of the observations, and own prices within tolerance of every derived message. |
| Node.ConsiderIff | apps/publisher/src/node.ts:324-348 | A proposal is looked into if and only if it follows the leader order, this publisher's history, the slot, the window and the quorum rule; its sender is asked for a sync only if the proposer claims to know more. |
| Node.PrevTickIs | apps/publisher/src/node.ts:340-345 | History is compared by the newest finalized tick, zero while there is none. |
| Node.AscendingIff | apps/publisher/src/node.ts:347-350 | The chosen indexes pass if and only if each names a member of the set and is greater than every one before it. |
| Node.AnchorIs | apps/publisher/src/node.ts:132-138 | The anchor is the newest finalized update at least two periods before the tick, under its own hash, and zero where there is none. |
| Node.SomeLeaderIsHonest | apps/publisher/src/node.ts:113-121 | Whichever n - quorum members are faulty or down, some rank that may propose belongs to another; and exactly the first n - quorum + 1 ranks of the seeded order may. |
| Node.LowestIsKept | apps/publisher/src/node.ts:349-350 | Of all proposals considered for a tick the one kept for backups is the earliest of the lowest rank. |
| Node.AgreesIff | apps/publisher/src/node.ts:369-375 | The tolerance test is about the first own entry of the feed and its first configuration: no further apart than so many ten-thousandths of the own price. |
| Attestation.FiledIff | apps/publisher/src/node.ts:284-310 | An observation is filed, and hands back the proposals that waited, if and only if it is the first by a member, for this committee, set and configuration, with that member's signature; nothing else is touched. |
| Node.RepeatedIsAcceptable | apps/publisher/src/node.ts:421-427 | From any acceptable update of two or more entries, repeating its first entry gives another that is acceptable under the same header and signatures, fits a blob if the first did, and repeats a feed. |
| Node.RepeatedStarvesFeeds | apps/publisher/src/node.ts:406-432 | A publisher that meets the repeated form of a new tick first stores it; its average of every feed but the first stays where it was, and the tick's own form changes nothing when it comes. |
| Node.SharedOnce | apps/publisher/src/node.ts:434-441 | What is shared with a peer is the stored row, and after one sharing nothing more is sent to it for the tick, whatever was stored since. |
| Attestation.FirstObservationStays | apps/publisher/src/node.ts:284-299 | Over every run: while the process lives and keeps the tick, the observation on file under an author never changes, however many it sends and whatever else is delivered. |
| Agreement.AveragesAgree | apps/publisher/src/store.ts:75-102 | Over every run: two honest publishers that ever finalized the same ticks under one set with few faulty members, no stored update repeating a feed, have equal average states, whoever finalized what, in whatever order the ticks came, and whatever either lost or pruned. |
| Agreement.SameProposalSameHeader | apps/publisher/src/node.ts:354-380 | Two such publishers under one set and configuration, handed the same proposal, sign the same header whenever both sign. |
| Agreement.AlwaysNewest | apps/publisher/src/store.ts:81-102 | Over every run: a feed's average is the one carried by an update once held for its tick, and no update ever held for a later tick prices the feed. |
| Agreement.VersionsAgree | apps/publisher/src/node.ts:406-431 | Two versions of one tick ever held by honest publishers carry one header and the same messages, if no feed repeats in either. |
| Agreement.HeldIsGood | apps/publisher/src/node.ts:383-431 | Whatever a publisher ever held for a tick is, from then on, an update for that tick with a quorum of its set, complete and proven. |
| Wire.ObservationHashInjective | packages/sdk/src/protocol/observation.ts:93-95 | The hash a proposal names an observation by says which observation it is. |
| Finality.FinalizesForward | apps/publisher/src/node.ts:394-404 | Over every run: a tick a publisher finalizes itself is later than every tick it ever stored before and has not pruned since, across restarts, crashes and late synced history. |
| Node.PublisherNode.ReceiveProposal | apps/publisher/src/node.ts:312-381 | The handler up to the signer: new memory, new store rows, frames sent and the header to sign, for every branch. |
| Node.PublisherNode.JudgeProposal | apps/publisher/src/node.ts:324-348 | A proposal passes if and only if it names this publisher's own anchor and history, comes from the leader of its rank with that leader's signature, in its slot and window, with a quorum of ascending indexes; a sync is asked for only of a proposer that claims to know more. |
| Node.PublisherNode.WeighProposal | apps/publisher/src/node.ts:349-378 | Remembering the best proposal, waiting for missing observations, deriving, finalizing, tolerance and the guard. |
| Node.PublisherNode.ReceiveSignature | apps/publisher/src/node.ts:383-392 | A valid signature is recorded under its publisher and may finalize; a finalized tick is shared instead. |
| Node.PublisherNode.AttemptFinalize | apps/publisher/src/node.ts:394-404 | The exact new memory and store rows of an attempt, and whether it threw; that a quorum is enough and fewer are not is `Progress.QuorumSettles`. |
| Node.PublisherNode.CollectBundle | apps/publisher/src/node.ts:394-400 | The first quorum of held signatures by ascending publisher index. |
| Node.PublisherNode.ReceiveFinalized | apps/publisher/src/node.ts:406-432 | A synced update is stored only for this committee, under a known set, with a quorum, complete and proven, and only once. |
| Node.PublisherNode.GetAnchor | apps/publisher/src/node.ts:132-138 | The anchor: the latest finalized update at or before two periods back. |
| Node.PublisherNode.Prune | apps/publisher/src/node.ts:233-236 | Deleting while iterating over the ticks leaves exactly those at or after the cutoff, each as it was. |
| Node.Derive | apps/publisher/src/node.ts:464-477 | A derived header names this tick, committee and set, and comes with its own signing hash. |
| Store.FeedStateIsNewest | apps/publisher/src/store.ts:81-102 | For any order of saves, re-saves and prunes of one update per tick, a feed's state is the average carried by the newest update ever saved that prices it. |
| Store.OrderDoesNotMatter | apps/publisher/src/store.ts:81-114 | Two publishers that ever saved the same ticks have equal feed states, whatever the order and whatever either pruned. |
| Store.PublisherStore.ReserveSignature | apps/publisher/src/store.ts:52-60 | First header wins: the row is inserted only if absent, and the answer says whether the row holds this header. |
| Store.PublisherStore.SaveFinalized | apps/publisher/src/store.ts:81-102 | A new tick is stored once and each of its feeds advances only forward. |
| Store.PublisherStore.SaveKeySet | apps/publisher/src/store.ts:67-69 | The first key set saved under an index stays. |
| Store.PublisherStore.LatestTick | apps/publisher/src/store.ts:116-119 | The greatest finalized tick, if any. |
| Store.PublisherStore.AtOrBefore | apps/publisher/src/store.ts:122-127 | The greatest finalized tick at or before a time. |
| Store.PublisherStore.Prune | apps/publisher/src/store.ts:153-165 | Batched deletion ends with exactly the rows at or after the bound, key sets and feed states untouched, and counts what it removed. |
| Aggregate.MessagesAreExact | apps/publisher/src/aggregate.ts:30-59 | A tick's messages are those of the feeds a quorum prices, in order, each with the medians of its entries, the previous publish time, and averages one exact truncated step from the kept ones; and there are none only where the divisor of such a step is zero. |
| Aggregate.FeedMessageIff | apps/publisher/src/aggregate.ts:38-57 | A feed's message is `m` if and only if `m` carries the medians and counts of the entries and the exact next averages. |
| Aggregate.EntriesAreAll | apps/publisher/src/aggregate.ts:33-37 | The entries aggregated for a feed are all its entries in the observations, each as often as observed, and no other. |
| Averages.AveragesFollowHistory | apps/publisher/src/aggregate.ts:20-57 | Over any run of ticks each saved before the next, the averages in a message are the exponential moving averages of all the feed's prices and confidences so far, over the gaps between them. |
| Averages.StateFollowsHistory | apps/publisher/src/store.ts:81-102 | Over the same runs, what the store keeps for a feed is its newest tick and the averages of its whole history. |
| Averages.DerivedSays | apps/publisher/src/node.ts:464-477 | For every configured feed, a derived update carries exactly what the feed's observations and this publisher's kept averages make of it, and nothing below quorum. |
| Averages.SignedSays | apps/publisher/src/node.ts:354-380 | Every header a publisher signs covers exactly such entries, derived from its own kept averages. |
| Averages.DeriveIff | apps/publisher/src/node.ts:464-477 | A header is derived if and only if a quorum prices some feed, at most 65535 of them and none twice, and what it makes of each fits its encoding. |
| Aggregate.AggregateBetweenHonest | apps/publisher/src/aggregate.ts:30-59 | With at most n - quorum faulty publishers, the aggregated price, confidence and source time lie between the least and the greatest honest values. |
| Aggregate.ComputeMessages | apps/publisher/src/aggregate.ts:30-59 | The loop produces one message per feed that reaches quorum, in configuration order, or fails where the average divides by zero. |
| Aggregate.EmaStepInHull | apps/publisher/src/aggregate.ts:20-24 | One truncating step of the average lands between the old average and the new value. |
| Aggregate.EmaInHull | apps/publisher/src/aggregate.ts:20-24 | Over any history of ticks with non-negative gaps the average stays between the least and the greatest value so far. |
| Aggregate.AggregateFits | apps/publisher/src/aggregate.ts:30-59 | For any entries and any stored state not ahead of the tick, every field of the message fits its encoding. |
| Fixed.MedianRank | apps/publisher/src/fixed.ts:27-35 | A value that more than half the values reach bounds the median from above, one that fewer than half reach from below. |
| Fixed.MedianByCounting | apps/publisher/src/fixed.ts:27-35 | Counting alone settles the median: it is the member of middle rank for an odd count, and for an even one the mean of the two members of middle rank rounded down, also below zero. |
| Fixed.TruncDivIsTowardZero | apps/publisher/src/aggregate.ts:20-24 | Division is the one rounding toward zero, for every sign of both arguments. |
| Fixed.MedianBetweenHonest | apps/publisher/src/fixed.ts:27-35 | With a minority of faulty authors the median lies between the least and the greatest honest value, for odd and even counts. |
| Fixed.MedianMonotone | apps/publisher/src/fixed.ts:27-35 | Pointwise smaller values have a smaller median. |
| Fixed.SortedRank | apps/publisher/src/fixed.ts:28-32 | The value of rank k is at most x exactly when more than k values are. |
| Fixed.ToExpoNearest | apps/publisher/src/fixed.ts:37-43 | Rescaling gives the nearest integer, the one further from zero where two are equally near, and loses nothing below eighteen decimals. |
| Fixed.HalfUpIff | apps/publisher/src/fixed.ts:37-44 | Rescaling rounds half up, as documented, if and only if the value is not a negative one half-way between two results. |
| Fixed.NegativeHalfGoesDown | apps/publisher/src/fixed.ts:37-44 | Minus one half at exponent zero becomes minus one. |
| Twap.ComputeTwapEntries | apps/publisher/src/node.ts:144-160 | One read of the widest window for all due feeds gives each feed exactly the entry its own window over the whole history gives. |
| Twap.TwapIff | apps/publisher/src/twap.ts:41-60 | A publisher observes an average if and only if it is synced to the end of the window two periods back, the window holds enough ticks, and price, confidence and source time are the truncated means, the larger of mean confidence and median deviation, and the newest tick. |
| Twap.DueIff | apps/publisher/src/twap.ts:29-31 | A feed is due exactly on the multiples of its period. |
| Twap.MeanIsExact | apps/publisher/src/twap.ts:53-55 | The mean is the sum over the count without its fraction. |
| Twap.WiderReadSameWindow | apps/publisher/src/twap.ts:41-60 | Reading more history than a window adds nothing to the window. |
| Twap.TwapInHull | apps/publisher/src/twap.ts:41-60 | The average lies between the least and the greatest price in the window and is positive; confidence and source time are bounded by the window. |
| Twap.SyncedPublishersAgree | apps/publisher/src/twap.ts:32-60 | Publishers synced past the window that hold the same updates inside it observe the same entry. |
| Twap.PointsByFeed | apps/publisher/src/twap.ts:68-79 | The nested loops file every message of every update under its feed, in order. |
| Twap.MeanInHull | apps/publisher/src/twap.ts:53-55 | A truncated mean never leaves the range of its values. |
| Methodology.TradesInsideBook | apps/publisher/src/methodology.ts:55-66 | The one-pass filter keeps, in order, exactly the trades accepted by the naive definition. |
| Methodology.InsideStateIffAdmitted | apps/publisher/src/methodology.ts:49-54 | A trade is inside a book state in force within the tolerance if and only if a candidate quote admits it that does not share its time with the next quote. |
| Methodology.KeptOutsideStatesIff | apps/publisher/src/methodology.ts:49-66 | No trade inside a book state is dropped, and a trade outside all of them is kept if and only if some quote admits it and every quote that does shares its time with the next. |
| Methodology.DistinctTimesAgree | apps/publisher/src/methodology.ts:49-66 | While no two quotes share a time, the filter keeps exactly the trades inside some book state. |
| Methodology.SharedTimesKeepMore | apps/publisher/src/methodology.ts:49-66 | With two quotes of one millisecond a trade can be kept although it was inside no state that was ever in force. |
| Methodology.ComputeMarketPrice | apps/publisher/src/methodology.ts:107-137 | The venue price: trade rule where it applies, else the sampled midpoints, with the sampling loop. |
| Methodology.UsableIff | apps/publisher/src/methodology.ts:37-47 | The book is usable at a time if and only if the state in force then is of a venue heard from, recent, narrow, and not dust, as inequalities without division. |
| Methodology.SampledIff | apps/publisher/src/methodology.ts:121-130 | The samples are the usable states every 100 ms back from the tick, down to the window's start. |
| Methodology.CombineIff | apps/publisher/src/methodology.ts:139-160 | A feed has a price if and only if enough venues do, also without the outliers, and it is their summary: medians, and the largest of the three spreads. |
| Venues.MarketPriceIff | apps/publisher/src/methodology.ts:107-137 | A venue's price is p if and only if the rule asks for trades, the venue spoke recently and its trades of the window say p, or they say nothing and p is the medians of its samples, dated by the newest. |
| Venues.VwapIff | apps/publisher/src/methodology.ts:87-101 | The trades give a price if and only if some counted and were worth the floor. It is notional over volume cut off, or the price of the book nearest to that, with its distance from the middle as gap, the median half spread, and the time of the last trade. |
| Venues.BusyWindow | apps/publisher/src/methodology.ts:74-79 | The book window holds each quote that arrived in it as often as the book does, and no other. |
| Venues.QuietWindow | apps/publisher/src/methodology.ts:78-79 | When no quote arrived in the window, the book window is the last quote of the book alone. |
| Venues.BookIs | apps/publisher/src/methodology.ts:74-77 | The book of the trade rule is every quote back to the window plus the tolerance plus the age limit, and no other. |
| Venues.SlackIs | apps/publisher/src/methodology.ts:85 | The slack is the percentage of the median half spread, cut off. |
| Methodology.ClampIsNearest | apps/publisher/src/methodology.ts:92-99 | Clamping gives the price inside the book nearest to the trades'. |
| Methodology.ComputeClampedVwap | apps/publisher/src/methodology.ts:73-101 | The v2 trade rule: book window, trade filter, volume and notional floors, clamp. |
| Methodology.ClampStaysInBook | apps/publisher/src/methodology.ts:92-99 | A clamped price lies between the window's median bid and median ask. |
| Methodology.MediansUncrossed | apps/publisher/src/methodology.ts:94-95 | The median bid never exceeds the median ask. |
| Methodology.VenuePriceInHull | apps/publisher/src/methodology.ts:107-137 | Under every rule a venue's price lies in the range of the bids, asks and trades the venue showed. |
| Methodology.VwapInHull | apps/publisher/src/methodology.ts:116-119 | A volume-weighted price lies between the least and the greatest trade price. |
| Methodology.CombinedNearFirst | apps/publisher/src/methodology.ts:139-153 | The combined price is within maxDeviationBps of the first median of all venues. |
| Methodology.MinorityCannotSetPrice | apps/publisher/src/methodology.ts:139-153 | A minority of venues moves the combined price no further than the allowed deviation beyond the others' range. |
| Merkle.ProofVerifies | contracts/common/src/price_update.rs:124-162 | For every non-empty leaf sequence and every index the generated proof verifies against the root. |
| Merkle.ProofDepth | contracts/common/src/price_update.rs:144-162 | A proof has at most k nodes whenever there are at most 2^k leaves. |
| Merkle.ProofFitsBlob | contracts/common/src/price_update.rs:14-16 | Any u16 leaf count gives proofs within the blob's limit of 16 nodes. |
| Merkle.ProofSound | contracts/common/src/price_update.rs:115-141 | Any proof that verifies against a root proves one of the original leaves, sorted pairs and promoted nodes notwithstanding. |
| Merkle.MerkleRoot | packages/sdk/src/protocol/merkle.ts:24-29 | The level loop computes the root. |
| Merkle.MerkleProof | packages/sdk/src/protocol/merkle.ts:32-43 | The level loop computes the sibling path of an index. |
| Merkle.ComputeNextLevel | packages/sdk/src/protocol/merkle.ts:17-21 | One level up: pairs hashed, an odd node promoted. |
| Assembly.AssembledEntriesVerify | packages/sdk/src/protocol/priceUpdate.ts:164-180 | Everything assembled proves against the assembled header, fits the proof limit, and is one of the given messages. |
| Assembly.SortedMessagesDistinct | packages/sdk/src/protocol/priceUpdate.ts:165-168 | Comparing neighbours after sorting throws exactly when some feed repeats. |
| Assembly.AssembleIff | packages/sdk/src/protocol/priceUpdate.ts:164-180 | Messages make an update if and only if there are one to 65535 of them and no two are of one feed. |
| Assembly.SelectKeepsVerdicts | packages/sdk/src/protocol/priceUpdate.ts:183-188 | A selected update gives every kept feed the entry or error the full update gives it and knows no other feed; header and signatures are untouched. |
| Assembly.SelectedBlobVerifies | packages/sdk/src/protocol/priceUpdate.ts:183-188 | The bytes of a selected update fit a blob, and full verification of them gives every kept feed the verdict of the full blob's bytes, under any committee and cell. |
| Assembly.ProvenAreSigned | packages/sdk/src/protocol/merkle.ts:45-48 | Every proven entry is one of the messages the header's root was built from. |
| Assembly.ExactIffDistinct | apps/publisher/src/node.ts:421-427 | An update with as many proven entries as leaves carries exactly the signed messages if and only if no feed repeats in it. |
| Assembly.CompleteIsExact | apps/mirror/src/committee.ts:122-128 | A complete update carries exactly the signed messages, none missing and none added. |
| Assembly.DecodeUpdateIffEncoded | packages/sdk/src/protocol/priceUpdate.ts:121-152 | The decoder accepts exactly the encodings of updates that fit a blob. |
| Signatures.DecodeBundleIffEncoded | contracts/common/src/signatures.rs:25-52 | Parsing a prefix and encoding undo each other in both directions, with the rest of the bytes left over. |
| Signatures.ParsePrefix | contracts/common/src/signatures.rs:25-42 | The offset loop returns the bundle and the length it used, or nothing. |
| Signatures.VerifyThreshold | contracts/common/src/signatures.rs:54-73 | Accepts exactly: between quorum and n entries, strictly ascending indexes, every signature by the key at its index. |
| Signatures.VerifyAll | contracts/common/src/signatures.rs:75-87 | Accepts exactly one valid signature per key, in index order. |
| Signatures.ThresholdIff | contracts/common/src/signatures.rs:54-73 | The threshold check accepts a bundle if and only if more than two thirds of the members signed, each named once and in ascending order. |
| Signatures.QuorumIsLeast | contracts/common/src/publisher_set.rs:79-81 | The quorum is the least that leaves fewer than a third of the set out. |
| Signatures.ThresholdMeansQuorum | contracts/common/src/signatures.rs:54-73 | A bundle that passes speaks for a quorum of different keys. |
| Signatures.QuorumsIntersect | contracts/common/src/publisher_set.rs:79-81 | Any two quorums share an honest key when at most n - quorum keys are faulty. |
| PublisherSets.DecodeDataIffEncoded | contracts/common/src/publisher_set.rs:113-162 | The decoder accepts exactly the encodings of valid committee states. |
| PublisherSets.EncodeDataInjective | contracts/common/src/publisher_set.rs:143-162 | Different states have different encodings. |
| PublisherSets.SetForIff | contracts/common/src/publisher_set.rs:201-214 | A state names a set for an index and tick if and only if it is the current one, or the previous one and the tick is before the switch. |
| PublisherSets.ValidSetIff | contracts/common/src/publisher_set.rs:63-77 | A set is valid if and only if it is one to nine compressed keys, each greater than all before it. |
| PublisherSets.ValidDataIff | contracts/common/src/publisher_set.rs:113-140 | Exactly the states the decoder accepts: flags zero or two, a positive interval, and a kept set with a switch and the index before. |
| PublisherSets.KeysDistinct | contracts/common/src/publisher_set.rs:63-77 | Ascending keys are distinct keys. |
| Governance.ValidateUpdate | contracts/publisher_set_type/src/main.rs:71-125 | The exit code of an update, check by check in order. |
| Governance.CheckUntil | contracts/publisher_set_type/src/main.rs:154-165 | The loop over header deps accepts exactly when some timestamp proves the switch is within an hour. |
| Governance.CheckAuthorization | contracts/publisher_set_type/src/main.rs:102-124 | Authorization by the outgoing quorum and proof of possession by every incoming key, with nothing trailing. |
| Governance.AcceptedStep | contracts/publisher_set_type/src/main.rs:71-142 | An accepted cell step is one allowed transition between valid states, authorized by a quorum of the outgoing set, under the same lock with no less capacity; a rotation is spent under a relative lock of at least the minimum interval and has its switch within the hour. |
| Lawful.TransitionIff | contracts/common/src/publisher_set.rs:218-249 | Each operation is allowed exactly as a change of the fields it names, from the states it may be applied to; every other field stays. |
| Governance.RunOfCells | contracts/publisher_set_type/src/main.rs:50-125 | Every history of a committee cell from its creation is a run of allowed transitions. |
| Governance.NonceAndIndexCount | contracts/common/src/publisher_set.rs:218-249 | Over any run the nonce counts operations, the set index counts rotations, and network and interval never change. |
| Governance.IndexNamesOneSet | contracts/common/src/publisher_set.rs:201-249 | A set index means the same keys wherever in a run it is named. |
| Governance.PreviousWasCurrent | contracts/common/src/publisher_set.rs:226-246 | The one previous set kept is exactly the set current just before the current one. |
| Governance.RejectionIsForever | contracts/common/src/publisher_set.rs:201-214 | An index not ahead of the run, once refused for a tick or distrusted, stays so in every later state. |
| Governance.CapacityNeverFalls | contracts/publisher_set_type/src/main.rs:127-142 | Over any run the lock stays and the capacity never falls. |
| Governance.UpdateHashInjective | contracts/common/src/publisher_set.rs:183-193 | The authorized digest determines committee, both states and operation. |
| Governance.NoReplay | contracts/common/src/publisher_set.rs:183-197 | Two different steps, of one cell or of two, have different digests, so no bundle authorizes both. |
| Hashing.DomainsSeparate | packages/sdk/src/protocol/hash.ts:11-21 | No byte string hashed under one of the twelve domain tags is ever hashed under another. |
| PriceUpdates.VerifiedIsAuthentic | contracts/common/src/price_update.rs:241-292 | A verified price is a message for the asked feed, proven in a header for this committee that a quorum of the set valid for its tick signed, while not paused. |
| PriceUpdates.VerifiedIff | contracts/common/src/price_update.rs:241-292 | A blob verifies for a feed as a price if and only if it encodes an update under the price's header, that header holds under the committee's state with flags zero, and exactly one entry is for the feed, carries the price's message and is proven. |
| Pause.PauseStopsChain | contracts/common/src/price_update.rs:250-252 | Under the state after any operations, if the last pause or unpause was a pause no blob verifies and no feed cell is usable; otherwise nothing is ever refused for being paused. |
| Pause.PauseStopsUpdates | contracts/price_feed_type/src/main.rs:101-112 | While the committee's one cell dep is paused, no transaction updates any of its feeds. |
| Pause.PauseStopsMirror | apps/mirror/src/committee.ts:115-121 | A mirror that last saw a paused state refuses every blob, and one that last saw any other refuses none for being paused. |
| Pause.FlagFollowsOps | contracts/common/src/publisher_set.rs:218-249 | The flag byte is two exactly after a pause, and zero otherwise. |
| Pause.CreatedPaused | contracts/publisher_set_type/src/main.rs:60-69 | A committee may be created paused, with no pause among its operations; `Pause.PausedAt` therefore starts from the created flag. |
| PriceUpdates.ComputeFindEntry | contracts/common/src/price_update.rs:262-278 | The loop returns the single entry for a feed with its proof checked, or which check failed. |
| PriceUpdates.SigningHashInjective | contracts/common/src/price_update.rs:61-63 | Two headers with one signing hash are one header. |
| PriceUpdates.DecodeHeaderIffEncoded | contracts/common/src/price_update.rs:30-59 | Header bytes decode to a header exactly when they encode it. |
| PriceUpdates.DecodeMessageIffEncoded | contracts/common/src/price_update.rs:81-112 | Message bytes decode to a message exactly when they encode it. |
| PriceUpdates.DecodeBlobIffEncoded | contracts/common/src/price_update.rs:179-216 | Blob bytes decode to a valid blob exactly when they encode it. |
| PriceUpdates.HeaderIsSigned | contracts/common/src/price_update.rs:241-258 | A header that passes was signed by a quorum of the set valid for its tick. |
| PriceFeeds.DecodeFeedIffEncoded | contracts/common/src/price_feed.rs:30-67 | Feed cell bytes decode exactly when they encode. |
| PriceFeeds.MatchesDeterminesCell | contracts/common/src/price_feed.rs:87-101 | Message and committee determine every byte of the cell. |
| PriceFeedScript.SharedCheckIsExact | contracts/price_feed_type/src/main.rs:83-118 | For any inputs and outputs, all updated cells of a committee accept with the one shared signature check exactly when each would with its own full check. |
| PriceFeedScript.SharedCheckRefines | contracts/price_feed_type/src/main.rs:83-118 | If every script accepts, each updated cell's new value is the price a full verification of the leader's blob against the single committee dep yields for its own feed. |
| PriceFeedScript.OneHeaderPerCommittee | contracts/price_feed_type/src/main.rs:101-113 | Any two cells of one committee updated in one transaction take their price from one blob: it verifies in full for both against one committee cell, each under its own feed, and its one header passes the signature check and gives both their time and set index. |
| PriceFeedScript.FindLeader | contracts/price_feed_type/src/main.rs:133-154 | The loop finds the lowest input of this code and committee that continues, and says whether it is this cell. |
| PriceFeedScript.HasContinuation | contracts/price_feed_type/src/main.rs:157-168 | Whether some output carries exactly this type script. |
| PriceFeedScript.LoadPublisherSet | contracts/price_feed_type/src/main.rs:184-203 | The one dep with the committee's type hash, or the error for none, several or malformed. |
| PriceFeedScript.ValidateUpdate | contracts/price_feed_type/src/main.rs:83-118 | The exit code of an update, check by check in order. |
| PriceFeedScript.CheckCommittee | contracts/price_feed_type/src/main.rs:105-112 | Only the leader checks signatures; a follower only compares the committee. |
| Lawful.LeaderIff | contracts/price_feed_type/src/main.rs:133-154 | The leader is the lowest input of this code and committee whose script goes on in an output. |
| Lawful.WitnessIff | contracts/price_feed_type/src/main.rs:170-182 | The witness is a blob behind its length in four bytes, and nothing else. |
| Lawful.DepIff | contracts/price_feed_type/src/main.rs:184-203 | The committee's state is read if and only if exactly one cell dep carries its type script and encodes a valid state. |
| Lawful.FeedCreationIff | contracts/price_feed_type/src/main.rs:60-82 | A feed cell may be created if and only if it holds nothing but its feed and an existing committee, and its id is the hash of the first input and its position. |
| Chain.AlwaysGrounded | contracts/price_feed_type/src/main.rs:66-118 | Over every history a live feed cell is well formed, keeps its feed, and holds either its creation value or a price authenticated under an earlier committee state. |
| Chain.FeedMovesForward | contracts/price_feed_type/src/main.rs:95-100 | Over every history the publish time strictly increases with every change and the identity fields never change. |
| Chain.AcceptedPriceIsBacked | contracts/common/src/consumer.rs:39-62 | Whenever a consumer's check accepts, the stored price was signed by a quorum of the very keys the committee names now under that index. |
| Lawful.UsableIff | contracts/common/src/consumer.rs:39-62 | A cell is usable if and only if it is this feed's, of this committee, was ever updated, and the committee is not paused and still names the index that signed it. |
| Chain.NewerIffUpdated | contracts/common/src/consumer.rs:64-71 | Asking for a price later than the one last seen succeeds if and only if the cell was updated since. |
| Chain.FreshnessLasts | contracts/common/src/consumer.rs:64-71 | A freshness test once passed by a live feed cell stays passed. |
| Bytes.FromToLE | packages/sdk/src/internal/codec.ts:31-43 | Reading back the little-endian bytes of an unsigned integer gives the integer. |
| Bytes.ToFromLE | packages/sdk/src/internal/codec.ts:72-77 | Writing the integer read from bytes gives the bytes. |
| Bytes.Unwrap | packages/sdk/src/internal/codec.ts:59-64 | Reading a signed integer undoes two's complement. |
| Bytes.Writer.PutInt | packages/sdk/src/internal/codec.ts:31-43 | Throws exactly outside the range, and otherwise appends the two's complement bytes. |
| Bytes.IntBytes | packages/sdk/src/internal/codec.ts:35-40 | The byte loop writes the little-endian bytes. |
| Bytes.Reader.GetBytes | packages/sdk/src/internal/codec.ts:51-57 | Takes the next bytes, or fails and leaves the cursor where it was. |
| Bytes.Reader.GetUint | packages/sdk/src/internal/codec.ts:72-77 | The byte loop reads an unsigned integer and advances the cursor. |
| Bytes.Reader.GetInt | packages/sdk/src/internal/codec.ts:59-64 | Reads a signed integer of the given width. |
| Formats.DecodeAllIffEncoded | packages/sdk/src/internal/codec.ts:46-78 | For every layout: a byte string is accepted as a value exactly when it is that value's encoding. |
| Formats.DecodeEncode | packages/sdk/src/internal/codec.ts:5-78 | For every layout, decoding an encoding followed by anything returns the value and the rest. |
| Formats.EncodeDecode | packages/sdk/src/internal/codec.ts:46-78 | For every layout, whatever the decoder accepts re-encodes to the same bytes. |
| Formats.EncodeInjective | packages/sdk/src/internal/codec.ts:5-44 | For every layout, different values have different encodings. |
| Bytes.LowestFirst | packages/sdk/src/internal/codec.ts:35-40 | The lowest byte of an integer is written first. |
| Layouts.HeaderLayout | contracts/common/src/price_update.rs:30-59 | The bytes of a header: magic and version, then every field in order, width and byte order. |
| Layouts.MessageLayout | contracts/common/src/price_update.rs:81-112 | The bytes of a message, negative numbers as two's complement. |
| Layouts.BlobLayout | contracts/common/src/price_update.rs:179-216 | The bytes of a blob: header, bundle, count, then each message with its proof. |
| Layouts.BlobIff | contracts/common/src/price_update.rs:179-216 | Blob bytes are accepted as a value if and only if they are its layout, its leaf count is not zero, and it holds 1 to 255 entries, each an 86-byte message with at most 16 proof nodes. |
| Layouts.BundleLayout | contracts/common/src/signatures.rs:25-52 | The bytes of a bundle: count, then index and signature of each. |
| Layouts.DataLayout | contracts/common/src/publisher_set.rs:113-162 | The bytes of a committee state, the previous set behind a marker. |
| Layouts.FeedLayout | contracts/common/src/price_feed.rs:30-67 | The bytes of a feed cell. |
| Layouts.ObservationLayout | packages/sdk/src/protocol/observation.ts:48-91 | The bytes of an observation. |
| Wire.DecodeObservationIffEncoded | packages/sdk/src/protocol/observation.ts:48-91 | Observation bytes decode exactly when they encode an observation sorted by feed. |
| Wire.DecodeSignedObservationIffEncoded | packages/sdk/src/protocol/observation.ts:97-113 | The same for the signed form. |
| Wire.DecodeFrameIffEncoded | apps/publisher/src/wire.ts:74-138 | All seven peer frames: exactly the encodings are accepted, each as the message it encodes. |
| Wire.SortedIsDistinct | packages/sdk/src/protocol/observation.ts:40-46 | Neighbours strictly ascending means all entries strictly ascending. |
| MirrorCommittee.MirrorAgrees | apps/mirror/src/committee.ts:74-105 | After any sightings in chain order, repeats and skips allowed, the mirror agrees with the chain on the current set for every tick, and on the one before it for every tick exactly when the switch tick is not blurred by rounding to a double. |
| MirrorCommittee.SharpUpToExact | apps/mirror/src/committee.ts:89-93 | Up to 2^53 ms no switch tick is blurred. |
| MirrorCommittee.BlurredSwitch | apps/mirror/src/committee.ts:89-93 | The switch tick 2^53 + 1 is blurred: the chain still names the outgoing set for its last tick, and the mirror refuses it. |
| MirrorCommittee.RetirementOnlyTightens | apps/mirror/src/committee.ts:82-97 | Over any sequence of observed states, in order or not, a retired set keeps its keys and the ticks accepted from it never grow. |
| MirrorCommittee.AcceptedIsExact | apps/mirror/src/committee.ts:115-131 | Every update the mirror accepts carries exactly the signed messages, signed by a quorum of a set that was current, while not paused. |
| MirrorCommittee.MirrorAcceptsIff | apps/mirror/src/committee.ts:107-131 | After any sightings in chain order, on the current set and, unless rounding blurs the switch, on the one before: the mirror accepts a blob if and only if it is complete, repeats no feed, proves every entry, and its header is one the chain would take. |
| MirrorCommittee.AlwaysFollows | apps/mirror/src/committee.ts:74-105 | After any sightings in order the mirror's sets and bounds are those of the last state seen, and every set it knows was current under its index. |
| MirrorCommittee.Committee.Observe | apps/mirror/src/committee.ts:74-105 | The loop over known sets and the updates after it leave exactly the specified state. |
| MirrorCommittee.Committee.Check | apps/mirror/src/committee.ts:115-131 | The verdict on a blob: the update, or the first check that fails. |
| MirrorCommittee.DistinctByCount | apps/mirror/src/committee.ts:123-124 | As many different ids as entries means no feed repeats. |
| Doubles.NumberMonotone | apps/mirror/src/committee.ts:90-120 | Rounding to a double keeps the order. |
| Doubles.NumberExact | apps/mirror/src/committee.ts:90-120 | Every integer up to 2^53 survives the rounding. |
| Doubles.NumberRoundsToEven | apps/mirror/src/committee.ts:90-120 | From 2^53 to 2^54 an odd integer goes to the multiple of four beside it. |
| Doubles.NumberRoundsToNearest | apps/mirror/src/committee.ts:90-120 | From 2^54 to 2^55 an integer goes to the nearer multiple of four, and from the middle to the multiple of eight. |
| MirrorStore.AlwaysSound | apps/mirror/src/store.ts:70-95 | Over any inserts and prunes the feed index holds exactly the feed occurrences in stored updates, every row is filed under what its blob says, and every piece of evidence has a contradicting one beside it. |
| MirrorStore.FirstStaysAndEvidenceGrows | apps/mirror/src/store.ts:70-95 | Between any two moments a stored header is never replaced before a prune past its tick, and evidence is never lost or altered. |
| MirrorStore.FreshIsStored | apps/mirror/src/store.ts:70-95 | An update whose committee and tick have no row is stored there as it came, with exactly its feeds indexed and nothing else changed; only such an update is answered New. |
| MirrorStore.RowIsFirstLiving | apps/mirror/src/store.ts:70-95 | Over any run, a committee's tick has a row if and only if some insert of it came after the last prune past it, and the row is that of the first such insert, to the byte. |
| MirrorStore.LivingIsFound | apps/mirror/src/store.ts:103-105 | Whatever was inserted and not pruned is found: the newest update of any of its feeds is at or after its tick. |
| MirrorStore.ScannedIff | apps/mirror/src/store.ts:179-185 | A query scans exactly the stored updates that price the feed, of the committee if one is given, with both bounds included. |
| MirrorStore.ConflictIsRecorded | apps/mirror/src/store.ts:77-84 | A second header for a stored tick ends up in the evidence next to the first, and the answer says whether it was new. |
| MirrorStore.IndexIsScan | apps/mirror/src/store.ts:179-185 | The indexed candidates of a feed are the candidates of a full scan. |
| MirrorStore.MirrorStore.Insert | apps/mirror/src/store.ts:70-95 | The exact new tables and answer of an insert; the invariant is kept. |
| MirrorStore.MirrorStore.Latest | apps/mirror/src/store.ts:103-105 | The newest update a full scan finds for the feed. |
| MirrorStore.MirrorStore.AtOrAfter | apps/mirror/src/store.ts:108-110 | The first update at or after a time that a full scan finds for the feed. |
| MirrorStore.MirrorStore.Range | apps/mirror/src/store.ts:113-119 | The oldest updates within bounds, in order, as many as the limit allows. |
| MirrorStore.MirrorStore.Prune | apps/mirror/src/store.ts:144-165 | Skip-scan and batches end with exactly the rows at or after the bound in both tables, evidence untouched, and count what was removed. |
| MirrorStore.MirrorStore.DropFeed | apps/mirror/src/store.ts:158-164 | Seeking from committee to committee while deleting behind the cursor misses no old row of the feed. |
| SkipScan.DistinctValues | apps/mirror/src/store.ts:168-173 | Seeking past each value in turn visits every distinct value once, in ascending order, and stops. |
| CanonicalJson.SameTextIffSameMeaning | packages/sdk/src/protocol/committeeConfig.ts:116-130 | Two values print to the same text if and only if they mean the same up to key order and undefined fields. |
| CanonicalJson.ConfigHashIdentifies | packages/sdk/src/protocol/committeeConfig.ts:132-134 | One configuration hash means one configuration. |
| CanonicalJson.PrintDetermines | packages/sdk/src/protocol/committeeConfig.ts:116-130 | A printed value determines itself and the text that follows it. |
| CanonicalJson.EscapeReadsBack | packages/sdk/src/protocol/committeeConfig.ts:116-118 | An escaped string reads back as itself, controls, quotes, backslashes and surrogates included. |
| CanonicalJson.NormalMeans | packages/sdk/src/protocol/committeeConfig.ts:123-127 | Dropping undefined fields and sorting keys keeps the meaning. |

## Left out

- Cryptography: blake2b, secp256k1 recovery and key management are parameters, not modelled.
- Transport, WebSocket and HTTP servers, DNS, exchange parsers, the recorder and timers: a frame is an event and time is an input.
- SQL and SQLite: tables are maps and sets, a query is what it selects, and a transaction is one step; the 63-bit limit of an integer column is not modelled.
- CKB system calls and molecule parsing: a transaction is its inputs, outputs, deps, header timestamps and witnesses, and a failing system call appears only where a witness is malformed.
- Type ID: that at most one live cell carries a type script is a hypothesis of `Chain`, not proved from the creation rule.
- `maybePropose`, `observe`, `proposeEarly`, `ownBody` and the answers to requests: a proposal or observation is an event with any content, which covers what these send; when they send it is not modelled.
- After the signer answers, a publisher broadcasts its signature and handles it itself: both are later events here, the second a signature that arrives like any other.
- Liveness: deadlines, grace periods and leader slots matter only through the checks on a received proposal.
- The leader order and the configuration schedule are functions the publisher is given; their own definitions are not modelled.
- `mergeEntries`, `parseDecimal`, `price_at_expo` and the best-effort logs: easy next to the rest.
- Hexadecimal text: identifiers and hashes are bytes, so upper and lower case cannot differ.
- Lengths beyond one byte: the contracts' encoders truncate a count to a byte and the peer frames do the same; the model encodes only counts that fit, which every validated value does.
- Cursor-style codecs: each concrete decoder is a layout of `Formats` rather than its own sequence of cursor calls; the cursor's own operations are modelled in `Bytes.Reader` and `Bytes.Writer`.
- The median of nothing throws; callers in the model show their list is not empty.
- UTF-8: the configuration hash is over any encoding that keeps the two texts apart.
- The finalized history handed to the averaging feeds is a sequence of decoded updates, oldest first; reading it out of the store's table is not modelled.
- Transaction builders, deployment, presets, the rate limiter, alerts, the web site and the example lock.
