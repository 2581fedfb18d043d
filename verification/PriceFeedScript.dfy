/** The price feed type script, and its shared signature check. */
module PriceFeedScript {
  // Several feed cells of one committee may move in one transaction: the leader's script checks the
  // committee's signatures once, and the others rely on it.

  import opened Bytes
  import opened PriceFeeds
  import opened PriceUpdates
  import opened PublisherSets
  import opened Signatures
  import opened Transactions
  import opened Wrappers

  predicate SameCode(a: Script, b: Script) { a.codeHash == b.codeHash && a.hashType == b.hashType }

  predicate HasOutput(tx: Transaction, s: Script) { exists o :: 0 <= o < |tx.outputs| && OutputIs(tx, o, s) }

  /** An updating feed cell of this committee under this code: not burnt, and naming the committee. */
  predicate IsCandidate(tx: Transaction, code: Script, committee: Bytes32, i: int) {
    && 0 <= i < |tx.inputs| && tx.inputs[i].cell.typ.Some?
    && SameCode(tx.inputs[i].cell.typ.value, code)
    && DecodeFeed(tx.inputs[i].cell.data).Some?
    && DecodeFeed(tx.inputs[i].cell.data).value.publisherSetTypeHash == committee
    && HasOutput(tx, tx.inputs[i].cell.typ.value)
  }

  /** The first candidate from position `start` on. */
  function LeaderFrom(tx: Transaction, code: Script, committee: Bytes32, start: nat): (r: Option<nat>)
    requires start <= |tx.inputs|
    ensures r.Some? ==> start <= r.value && IsCandidate(tx, code, committee, r.value)
    ensures forall j :: start <= j < (if r.Some? then r.value else |tx.inputs|) ==> !IsCandidate(tx, code, committee, j)
    decreases |tx.inputs| - start
  {
    if start == |tx.inputs| then None
    else if IsCandidate(tx, code, committee, start) then Some(start)
    else LeaderFrom(tx, code, committee, start + 1)
  }

  function Leader(tx: Transaction, code: Script, committee: Bytes32): Option<nat> { LeaderFrom(tx, code, committee, 0) }

  /** The input index of the leader and whether it is this cell. */
  method FindLeader(tx: Transaction, s: Script, committee: Bytes32) returns (r: Result<(nat, bool), int>)
    ensures r == match Leader(tx, s, committee)
                 case None => Err(ERROR_FEED_LEADER)
                 case Some(i) => Ok((i, tx.inputs[i].cell.typ == Some(s)))
  {
    var index := 0;
    while index < |tx.inputs|
      invariant index <= |tx.inputs|
      invariant LeaderFrom(tx, s, committee, index) == Leader(tx, s, committee)
    {
      var typ := tx.inputs[index].cell.typ;
      if typ.Some? && SameCode(typ.value, s) {
        var feed := DecodeFeed(tx.inputs[index].cell.data);
        if feed.Some? && feed.value.publisherSetTypeHash == committee {
          var continues := HasContinuation(tx, typ.value);
          if continues {
            return Ok((index, typ.value == s));
          }
        }
      }
      index := index + 1;
    }
    return Err(ERROR_FEED_LEADER);
  }

  method HasContinuation(tx: Transaction, candidate: Script) returns (found: bool)
    ensures found <==> HasOutput(tx, candidate)
  {
    var index := 0;
    while index < |tx.outputs|
      invariant index <= |tx.outputs|
      invariant forall o :: 0 <= o < index ==> !OutputIs(tx, o, candidate)
    {
      if tx.outputs[index].typ == Some(candidate) {
        assert OutputIs(tx, index, candidate);
        return true;
      }
      index := index + 1;
    }
    return false;
  }

  /** `update_len u32 | update blob` in the leader's WitnessArgs. */
  function LoadUpdateBlob(tx: Transaction, leader: nat): Result<Bytes, int>
    requires leader < |tx.inputs|
  {
    match tx.inputs[leader].args
    case InputType(bytes) =>
      if |bytes| < 4 || |bytes| - 4 != FromLE(bytes[..4]) then Err(ERROR_FEED_WITNESS_MALFORMED) else Ok(bytes[4..])
    case _ => Err(ERROR_FEED_WITNESS_MALFORMED)
  }

  predicate DepIs(e: Env, dep: Cell, expected: Bytes32) { dep.typ.Some? && e.scriptHash(dep.typ.value) == expected }

  /** Positions of the cell deps with the expected type hash, in order. */
  function DepsNaming(e: Env, deps: seq<Cell>, expected: Bytes32): (r: seq<nat>)
    ensures forall k :: 0 <= k < |r| ==> r[k] < |deps| && DepIs(e, deps[r[k]], expected)
  {
    if deps == [] then []
    else
      var rest := DepsNaming(e, deps[..|deps| - 1], expected);
      if DepIs(e, deps[|deps| - 1], expected) then rest + [|deps| - 1] else rest
  }

  /** The committee's state, from the one dep naming it. */
  function PublisherSetDep(e: Env, tx: Transaction, expected: Bytes32): Result<PublisherSetData, int> {
    var found := DepsNaming(e, tx.deps, expected);
    if |found| != 1 then Err(ERROR_FEED_SET_DEP)
    else
      match DecodeData(tx.deps[found[0]].data) case None => Err(ERROR_PUBLISHER_SET_MALFORMED) case Some(d) => Ok(d)
  }

  method LoadPublisherSet(e: Env, tx: Transaction, expected: Bytes32) returns (r: Result<PublisherSetData, int>)
    ensures r == PublisherSetDep(e, tx, expected)
  {
    var found := FindOneDep(e, tx.deps, expected);
    if found.None? {
      return Err(ERROR_FEED_SET_DEP);
    }
    var data := DecodeData(tx.deps[found.value].data);
    return if data.None? then Err(ERROR_PUBLISHER_SET_MALFORMED) else Ok(data.value);
  }

  method FindOneDep(e: Env, deps: seq<Cell>, expected: Bytes32) returns (found: Option<nat>)
    ensures found.Some? <==> |DepsNaming(e, deps, expected)| == 1
    ensures found.Some? ==> found.value == DepsNaming(e, deps, expected)[0]
  {
    found := None;
    var index := 0;
    while index < |deps|
      invariant index <= |deps|
      invariant DepsNaming(e, deps[..index], expected) == if found.Some? then [found.value] else []
    {
      assert deps[..index + 1][..index] == deps[..index];
      if DepIs(e, deps[index], expected) {
        if found.Some? {
          MoreDeps(e, deps, expected, index + 1);
          return None;
        }
        found := Some(index);
      }
      index := index + 1;
    }
    assert deps[..index] == deps;
  }

  lemma {:induction false} MoreDeps(e: Env, deps: seq<Cell>, expected: Bytes32, n: nat)
    requires n <= |deps|
    ensures |DepsNaming(e, deps[..n], expected)| <= |DepsNaming(e, deps, expected)|
    decreases |deps| - n
  {
    if n == |deps| {
      assert deps[..n] == deps;
    } else {
      assert deps[..n + 1][..n] == deps[..n];
      MoreDeps(e, deps, expected, n + 1);
    }
  }

  function VerifyErrorCode(error: VerifyError): int {
    match error
    case Malformed => ERROR_UPDATE_MALFORMED
    case FeedNotFound | DuplicateFeed => ERROR_UPDATE_FEED_NOT_FOUND
    case BadProof => ERROR_UPDATE_PROOF
    case WrongSet | Paused | SetIndex => ERROR_UPDATE_SET
    case BadSignature => ERROR_UPDATE_SIGNATURE
  }

  /** The committee check: only the leader looks at the committee cell and the signatures. */
  ghost function CommitteeCode(e: Env, tx: Transaction, update: Blob, committee: Bytes32, isSelf: bool): int {
    if isSelf then
      match PublisherSetDep(e, tx, committee)
      case Err(code) => code
      case Ok(d) =>
        match VerifyHeader(e.crypto, update.header, update.signatures, committee, d)
        case Err(error) => VerifyErrorCode(error)
        case Ok(_) => 0
    else if update.header.publisherSetTypeHash != committee then ERROR_UPDATE_SET
    else 0
  }

  /** `validate_update` for the cell moving from input `i` to output `o`. */
  ghost function UpdateCode(e: Env, tx: Transaction, s: Script, i: int, o: int): int
    requires 0 <= i < |tx.inputs| && 0 <= o < |tx.outputs| && |s.args| == 64
  {
    var feedId := s.args[..32];
    match (DecodeFeed(tx.inputs[i].cell.data), DecodeFeed(tx.outputs[o].data))
    case (Some(prior), Some(next)) =>
      if next.feedId != feedId then ERROR_FEED_ID_MISMATCH
      else if !StaticFieldsUnchanged(prior, next) then ERROR_CONFIG_MUTATED
      else if next.publishTimeMs <= prior.publishTimeMs then ERROR_FEED_NOT_FORWARD
      else
        (match Leader(tx, s, next.publisherSetTypeHash)
         case None => ERROR_FEED_LEADER
         case Some(leader) =>
           match LoadUpdateBlob(tx, leader)
           case Err(code) => code
           case Ok(blob) =>
             match DecodeBlob(blob)
             case None => ERROR_UPDATE_MALFORMED
             case Some(update) =>
               var committeeCode :=
                 CommitteeCode(e, tx, update, next.publisherSetTypeHash, tx.inputs[leader].cell.typ == Some(s));
               if committeeCode != 0 then committeeCode
               else
                 match FindEntry(e.crypto, update, feedId)
                 case Err(error) => VerifyErrorCode(error)
                 case Ok(message) => if Matches(next, VerifiedPrice(update.header, message)) then 0
                     else ERROR_UPDATE_MISMATCH)
    case _ => ERROR_FEED_DATA_MALFORMED
  }

  method CheckCommittee(e: Env, tx: Transaction, update: Blob, committee: Bytes32, isSelf: bool) returns (code: int)
    ensures code == CommitteeCode(e, tx, update, committee, isSelf)
  {
    if !isSelf {
      return if update.header.publisherSetTypeHash != committee then ERROR_UPDATE_SET else 0;
    }
    var loaded := LoadPublisherSet(e, tx, committee);
    if loaded.Err? {
      return loaded.error;
    }
    var d := loaded.value;
    if update.header.publisherSetTypeHash != committee || IsPaused(d) {
      return ERROR_UPDATE_SET;
    }
    var signers := SetFor(d, update.header.setIndex, update.header.publishTimeMs);
    if signers.None? {
      return ERROR_UPDATE_SET;
    }
    var ok := VerifyThreshold(e.crypto, update.signatures, SigningHash(e.crypto, update.header), signers.value);
    return if ok then 0 else ERROR_UPDATE_SIGNATURE;
  }

  method ValidateUpdate(e: Env, tx: Transaction, s: Script, i: int, o: int) returns (code: int)
    requires 0 <= i < |tx.inputs| && 0 <= o < |tx.outputs| && |s.args| == 64
    ensures code == UpdateCode(e, tx, s, i, o)
  {
    var feedId := s.args[..32];
    var decodedOld, decodedNew := DecodeFeed(tx.inputs[i].cell.data), DecodeFeed(tx.outputs[o].data);
    if decodedOld.None? || decodedNew.None? {
      return ERROR_FEED_DATA_MALFORMED;
    }
    var prior, next := decodedOld.value, decodedNew.value;
    if next.feedId != feedId {
      return ERROR_FEED_ID_MISMATCH;
    }
    if !StaticFieldsUnchanged(prior, next) {
      return ERROR_CONFIG_MUTATED;
    }
    if next.publishTimeMs <= prior.publishTimeMs {
      return ERROR_FEED_NOT_FORWARD;
    }
    var found := FindLeader(tx, s, next.publisherSetTypeHash);
    if found.Err? {
      return found.error;
    }
    var (leader, isSelf) := found.value;
    var blob := LoadUpdateBlob(tx, leader);
    if blob.Err? {
      return blob.error;
    }
    var update := DecodeBlob(blob.value);
    if update.None? {
      return ERROR_UPDATE_MALFORMED;
    }
    code := CheckCommittee(e, tx, update.value, next.publisherSetTypeHash, isSelf);
    if code != 0 {
      return;
    }
    DecodeBlobIffEncoded(blob.value, update.value);
    var message := ComputeFindEntry(e.crypto, update.value, feedId);
    if message.Err? {
      return VerifyErrorCode(message.error);
    }
    return if Matches(next, VerifiedPrice(update.value.header, message.value)) then 0 else ERROR_UPDATE_MISMATCH;
  }

  /** `validate_create` for output `o`: configuration only, an existing committee, a valid Type ID. */
  function CreateCode(e: Env, tx: Transaction, s: Script, o: int): int
    requires 0 <= o < |tx.outputs| && |s.args| == 64
  {
    match DecodeFeed(tx.outputs[o].data)
    case None => ERROR_FEED_DATA_MALFORMED
    case Some(d) =>
      if d.feedId != s.args[..32] then ERROR_FEED_ID_MISMATCH
      else if !IsUninitialized(d) then ERROR_FEED_CREATION_NONZERO
      else
        match PublisherSetDep(e, tx, d.publisherSetTypeHash)
        case Err(code) => code
        case Ok(_) =>
          if tx.inputs == [] then ERROR_SYSCALL
          else if TypeIdSeed(e.crypto, tx.inputs[0].serialized, o) == s.args[32..] then 0
          else ERROR_TYPE_ID_INVALID
  }

  /** The script's verdict on its own group: create, update or burn. */
  ghost predicate Accepts(e: Env, tx: Transaction, s: Script) {
    |s.args| == 64
    && ((exists o :: Creates(tx, s, o) && CreateCode(e, tx, s, o) == 0)
        || (exists i, o :: Continues(tx, s, i, o) && UpdateCode(e, tx, s, i, o) == 0)
        || (exists i :: Burns(tx, s, i)))
  }

  ghost predicate Carried(tx: Transaction, s: Script) {
    (exists i :: InputIs(tx, i, s)) || (exists o :: OutputIs(tx, o, s))
  }

  /** Every feed script of this code in the transaction accepts. */
  ghost predicate AllAccept(e: Env, tx: Transaction, code: Script) {
    forall s :: SameCode(s, code) && Carried(tx, s) ==> Accepts(e, tx, s)
  }

  // ----- the reference: every updated cell verified on its own

  /** The blob every cell of a committee reads, and the committee state it is checked against. */
  ghost predicate SharedBlob(
      e: Env, tx: Transaction, code: Script, committee: Bytes32, blob: Bytes, d: PublisherSetData) {
    Leader(tx, code, committee).Some? && LoadUpdateBlob(tx, Leader(tx, code, committee).value) == Ok(blob)
    && PublisherSetDep(e, tx, committee) == Ok(d)
  }

  /** The full check of one moving cell by itself, with nothing taken on trust from another script. */
  ghost predicate FullyVerified(e: Env, tx: Transaction, s: Script, i: int, o: int, blob: Bytes, d: PublisherSetData)
    requires 0 <= i < |tx.inputs| && 0 <= o < |tx.outputs| && |s.args| == 64
  {
    && DecodeFeed(tx.inputs[i].cell.data).Some? && DecodeFeed(tx.outputs[o].data).Some?
    && var prior, next := DecodeFeed(tx.inputs[i].cell.data).value, DecodeFeed(tx.outputs[o].data).value;
       next.feedId == s.args[..32] && StaticFieldsUnchanged(prior, next) && next.publishTimeMs > prior.publishTimeMs
       && SharedBlob(e, tx, s, next.publisherSetTypeHash, blob, d)
       && VerifyPriceUpdate(e.crypto, blob, s.args[..32], next.publisherSetTypeHash, d).Ok?
       && Matches(next, VerifyPriceUpdate(e.crypto, blob, s.args[..32], next.publisherSetTypeHash, d).value)
  }

  ghost predicate AcceptsAlone(e: Env, tx: Transaction, s: Script) {
    |s.args| == 64
    && ((exists o :: Creates(tx, s, o) && CreateCode(e, tx, s, o) == 0)
        || (exists i, o, blob, d :: Continues(tx, s, i, o) && FullyVerified(e, tx, s, i, o, blob, d))
        || (exists i :: Burns(tx, s, i)))
  }

  ghost predicate AllAcceptAlone(e: Env, tx: Transaction, code: Script) {
    forall s :: SameCode(s, code) && Carried(tx, s) ==> AcceptsAlone(e, tx, s)
  }

  lemma {:induction false} LeaderDependsOnCode(tx: Transaction, s: Script, t: Script, committee: Bytes32, start: nat)
    requires SameCode(s, t) && start <= |tx.inputs|
    ensures LeaderFrom(tx, s, committee, start) == LeaderFrom(tx, t, committee, start)
    decreases |tx.inputs| - start
  {
    if start < |tx.inputs| { LeaderDependsOnCode(tx, s, t, committee, start + 1); }
  }

  lemma AcceptedUpdate(e: Env, tx: Transaction, s: Script, i: int, o: int)
    requires Accepts(e, tx, s) && Continues(tx, s, i, o)
    ensures |s.args| == 64 && UpdateCode(e, tx, s, i, o) == 0
  {
    if j, p :| Continues(tx, s, j, p) && UpdateCode(e, tx, s, j, p) == 0 {
      assert j == i && p == o;
    }
  }

  /** What exit code zero says about one moving cell: everything but, for a follower, the signatures. */
  lemma UpdateFacts(e: Env, tx: Transaction, s: Script, i: int, o: int) returns (blob: Bytes)
    requires 0 <= i < |tx.inputs| && 0 <= o < |tx.outputs| && |s.args| == 64 && UpdateCode(e, tx, s, i, o) == 0
    ensures DecodeFeed(tx.inputs[i].cell.data).Some? && DecodeFeed(tx.outputs[o].data).Some?
    ensures var prior, next := DecodeFeed(tx.inputs[i].cell.data).value, DecodeFeed(tx.outputs[o].data).value;
            next.feedId == s.args[..32] && StaticFieldsUnchanged(prior, next)
            && next.publishTimeMs > prior.publishTimeMs
    ensures var next := DecodeFeed(tx.outputs[o].data).value;
            var leader := Leader(tx, s, next.publisherSetTypeHash);
            leader.Some? && LoadUpdateBlob(tx, leader.value) == Ok(blob) && DecodeBlob(blob).Some?
            && CommitteeCode(e, tx, DecodeBlob(blob).value, next.publisherSetTypeHash,
                tx.inputs[leader.value].cell.typ == Some(s)) == 0
            && FindEntry(e.crypto, DecodeBlob(blob).value, s.args[..32]).Ok?
            && Matches(next,
                VerifiedPrice(DecodeBlob(blob).value.header,
                FindEntry(e.crypto, DecodeBlob(blob).value, s.args[..32]).value))
  {
    var next := DecodeFeed(tx.outputs[o].data).value;
    blob := LoadUpdateBlob(tx, Leader(tx, s, next.publisherSetTypeHash).value).value;
  }

  /** The leader of a committee is itself an accepted update of that committee, so its own script
      checked the shared header's signatures against the committee cell. */
  lemma LeaderChecked(
      e: Env, tx: Transaction, code: Script, committee: Bytes32) returns (d: PublisherSetData, blob: Bytes)
    requires AllAccept(e, tx, code) && Leader(tx, code, committee).Some?
    ensures SharedBlob(e, tx, code, committee, blob, d) && DecodeBlob(blob).Some?
    ensures VerifyHeader(e.crypto, DecodeBlob(blob).value.header, DecodeBlob(blob).value.signatures, committee, d).Ok?
  {
    var leader := Leader(tx, code, committee).value;
    var s := tx.inputs[leader].cell.typ.value;
    assert InputIs(tx, leader, s);
    assert Carried(tx, s) && Accepts(e, tx, s);
    var out :| 0 <= out < |tx.outputs| && OutputIs(tx, out, s);
    var o := LeaderContinues(e, tx, s, leader, out);
    AcceptedUpdate(e, tx, s, leader, o);
    blob := UpdateFacts(e, tx, s, leader, o);
    LeaderDependsOnCode(tx, s, code, committee, 0);
    d := PublisherSetDep(e, tx, committee).value;
  }

  lemma LeaderContinues(e: Env, tx: Transaction, s: Script, i: int, out: int) returns (o: int)
    requires Accepts(e, tx, s) && InputIs(tx, i, s) && OutputIs(tx, out, s)
    ensures Continues(tx, s, i, o)
  {
    var j, p :| Continues(tx, s, j, p) && UpdateCode(e, tx, s, j, p) == 0;
    o := p;
  }

  /** One shared signature check is as good as one per cell: whenever every feed script accepts, every
      updated cell passes full verification of the leader's blob for its own feed, against the
      committee's one cell dep, and stores exactly the verified price. */
  lemma SharedCheckRefines(
      e: Env, tx: Transaction, s: Script, i: int, o: int) returns (blob: Bytes, d: PublisherSetData)
    requires AllAccept(e, tx, s) && Continues(tx, s, i, o)
    ensures |s.args| == 64 && FullyVerified(e, tx, s, i, o, blob, d)
  {
    assert Carried(tx, s) && Accepts(e, tx, s);
    AcceptedUpdate(e, tx, s, i, o);
    blob := UpdateFacts(e, tx, s, i, o);
    var other: Bytes;
    d, other := LeaderChecked(e, tx, s, DecodeFeed(tx.outputs[o].data).value.publisherSetTypeHash);
  }

  /** All updated cells of one committee take their price from one signed header: one blob and one committee
      cell verify in full for both, each under its own feed. */
  lemma OneHeaderPerCommittee(
      e: Env, tx: Transaction, s: Script, i: int, o: int, t: Script, j: int, p: int)
      returns (blob: Bytes, d: PublisherSetData)
    requires AllAccept(e, tx, s) && SameCode(s, t) && Continues(tx, s, i, o) && Continues(tx, t, j, p)
    requires DecodeFeed(tx.outputs[o].data).Some? && DecodeFeed(tx.outputs[p].data).Some?
    requires DecodeFeed(tx.outputs[o].data).value.publisherSetTypeHash
        == DecodeFeed(tx.outputs[p].data).value.publisherSetTypeHash
    ensures |s.args| == 64 && FullyVerified(e, tx, s, i, o, blob, d)
    ensures |t.args| == 64 && FullyVerified(e, tx, t, j, p, blob, d)
    ensures DecodeBlob(blob).Some?
    ensures var h := DecodeBlob(blob).value.header;
            var a := DecodeFeed(tx.outputs[o].data).value;
            var b := DecodeFeed(tx.outputs[p].data).value;
            a.publishTimeMs == h.publishTimeMs == b.publishTimeMs && a.setIndex == h.setIndex == b.setIndex
            && VerifyHeader(e.crypto, h, DecodeBlob(blob).value.signatures, a.publisherSetTypeHash, d).Ok?
  {
    blob, d := SharedCheckRefines(e, tx, s, i, o);
    assert AllAccept(e, tx, t) by { assert forall u :: SameCode(u, t) ==> SameCode(u, s); }
    var blobT, dT := SharedCheckRefines(e, tx, t, j, p);
    LeaderDependsOnCode(tx, s, t, DecodeFeed(tx.outputs[o].data).value.publisherSetTypeHash, 0);
  }

  lemma AloneImpliesShared(e: Env, tx: Transaction, s: Script, i: int, o: int, blob: Bytes, d: PublisherSetData)
    requires 0 <= i < |tx.inputs| && 0 <= o < |tx.outputs| && |s.args| == 64 && FullyVerified(e, tx, s, i, o, blob, d)
    ensures UpdateCode(e, tx, s, i, o) == 0
  {
  }

  /** And nothing is refused that per-cell verification would accept: the two checks agree on every transaction. */
  lemma SharedCheckIsExact(e: Env, tx: Transaction, code: Script)
    ensures AllAccept(e, tx, code) <==> AllAcceptAlone(e, tx, code)
  {
    if AllAccept(e, tx, code) {
      forall s | SameCode(s, code) && Carried(tx, s) ensures AcceptsAlone(e, tx, s) { SharedToAlone(e, tx, s); }
    }
    if AllAcceptAlone(e, tx, code) {
      forall s | SameCode(s, code) && Carried(tx, s) ensures Accepts(e, tx, s) { AloneToShared(e, tx, s); }
    }
  }

  lemma SharedToAlone(e: Env, tx: Transaction, s: Script)
    requires AllAccept(e, tx, s) && Carried(tx, s)
    ensures AcceptsAlone(e, tx, s)
  {
    assert Accepts(e, tx, s);
    if i, o :| Continues(tx, s, i, o) {
      var blob, d := SharedCheckRefines(e, tx, s, i, o);
    }
  }

  lemma AloneToShared(e: Env, tx: Transaction, s: Script)
    requires AcceptsAlone(e, tx, s)
    ensures Accepts(e, tx, s)
  {
    if i, o, blob, d :| Continues(tx, s, i, o) && FullyVerified(e, tx, s, i, o, blob, d) {
      AloneImpliesShared(e, tx, s, i, o, blob, d);
    }
  }
}
