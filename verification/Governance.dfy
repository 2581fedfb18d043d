/** The committee cell's governance, step by step and over runs. */
module Governance {
  import opened Bytes
  import opened Hashing
  import opened PublisherSets
  import opened Signatures
  import opened Transactions
  import opened Wrappers

  const OP_ROTATE := 1
  const OP_ROTATE_REVOKE := 2
  const OP_PAUSE := 3
  const OP_UNPAUSE := 4
  const OP_REVOKE_PREVIOUS := 5
  const MAX_UNTIL_AHEAD_MS := 3_600_000
  const SINCE_RELATIVE_TIMESTAMP := 0xC0
  const U64_MAX := 0xFFFF_FFFF_FFFF_FFFF

  datatype TransitionError = Continuity | Operation

  predicate SameSets(a: PublisherSetData, b: PublisherSetData) { a.current == b.current && a.previous == b.previous }

  /** `next` is exactly what `operation` produces from `old`. */
  function CheckTransition(
      prior: PublisherSetData, next: PublisherSetData, operation: u8): Result<(), TransitionError> {
    if next.networkId != prior.networkId
       || next.governanceNonce != prior.governanceNonce + 1
       || next.minRotationIntervalS != prior.minRotationIntervalS
    then Err(Continuity)
    else
      var sameFlags := next.governanceFlags == prior.governanceFlags;
      var nextIndex := next.current.setIndex == prior.current.setIndex + 1;
      var ok :=
        if operation == OP_ROTATE then
          sameFlags && nextIndex && next.previous.Some? && next.previous.value.outgoing == prior.current
          && (prior.previous.Some? ==> next.previous.value.untilMs > prior.previous.value.untilMs)
        else if operation == OP_ROTATE_REVOKE then
          sameFlags && nextIndex && next.previous.None?
        else if operation == OP_PAUSE then
          !IsPaused(prior) && next.governanceFlags == prior.governanceFlags + GOVERNANCE_PAUSED && SameSets(next, prior)
        else if operation == OP_UNPAUSE then
          IsPaused(prior) && next.governanceFlags == prior.governanceFlags - GOVERNANCE_PAUSED && SameSets(next, prior)
        else if operation == OP_REVOKE_PREVIOUS then
          sameFlags && prior.previous.Some? && next.previous.None? && next.current == prior.current
        else false;
      if ok then Ok(()) else Err(Operation)
  }

  predicate Rotates(operation: u8) { operation == OP_ROTATE || operation == OP_ROTATE_REVOKE }

  // ----- what the quorum signs

  function StatePreimage(d: PublisherSetData): Bytes
    requires Encodable(d)
  {
    DOMAIN_SET_STATE + EncodeData(d)
  }

  function UpdatePreimage(
      c: Crypto, committee: Bytes32, prior: PublisherSetData, next: PublisherSetData, operation: u8): Bytes
    requires Encodable(prior) && Encodable(next)
  {
    DOMAIN_SET_UPDATE + (committee + [operation] + c.hash(StatePreimage(prior)) + c.hash(StatePreimage(next)))
  }

  function PopPreimage(c: Crypto, committee: Bytes32, next: PublisherSetData): Bytes
    requires Encodable(next)
  {
    DOMAIN_SET_POP + (committee + c.hash(StatePreimage(next)))
  }

  // ----- the type script

  /** A relative timestamp `since` of at least the interval. */
  predicate IntervalMet(since: u64, intervalS: u64) {
    since / 0x100_0000_0000_0000 == SINCE_RELATIVE_TIMESTAMP && since % 0x100_0000_0000_0000 >= intervalS
  }

  function SaturatingAdd(a: u64, b: u64): u64 { if a + b > U64_MAX then U64_MAX else a + b }

  /** Some header dep proves the clock is within an hour of `untilMs`. */
  ghost predicate UntilAllowed(untilMs: u64, headers: seq<u64>) {
    exists h :: h in headers && untilMs <= SaturatingAdd(h, MAX_UNTIL_AHEAD_MS)
  }

  /** `check_until`: the loop keeps the newest timestamp and compares once. */
  method CheckUntil(untilMs: u64, headers: seq<u64>) returns (code: int)
    ensures code == if UntilAllowed(untilMs, headers) then 0 else ERROR_PUBLISHER_SET_UNTIL
  {
    var newest: Option<u64> := None;
    for k := 0 to |headers|
      invariant newest.None? <==> k == 0
      invariant newest.Some? ==> newest.value in headers[..k] && forall i :: 0 <= i < k ==> headers[i] <= newest.value
    {
      var timestamp := headers[k];
      newest := Some(if newest.Some? && newest.value > timestamp then newest.value else timestamp);
    }
    if newest.Some? && untilMs <= SaturatingAdd(newest.value, MAX_UNTIL_AHEAD_MS) {
      return 0;
    }
    return ERROR_PUBLISHER_SET_UNTIL;
  }

  /** The authorization bundle, and the proof of possession that a rotation carries after it. */
  ghost function AuthorizationCode(
      e: Env, committee: Bytes32, prior: PublisherSetData, next: PublisherSetData, payload: Bytes): int
    requires payload != [] && Encodable(prior) && Encodable(next)
  {
    var operation := payload[0];
    match DecodeBundlePrefix(payload[1..])
    case None => ERROR_ENCODING
    case Some((authorization, rest)) =>
      if !Threshold(e.crypto, authorization,
          e.crypto.hash(UpdatePreimage(e.crypto, committee, prior, next, operation)), prior.current)
      then ERROR_PUBLISHER_SET_AUTH
      else if Rotates(operation) then
        match DecodeBundlePrefix(rest)
        case None => ERROR_ENCODING
        case Some((pop, trailing)) =>
          if trailing != [] then ERROR_ENCODING
          else if !AllSigned(e.crypto, pop, e.crypto.hash(PopPreimage(e.crypto, committee, next)), next.current)
          then ERROR_PUBLISHER_SET_POP
          else 0
      else if rest != [] then ERROR_ENCODING
      else 0
  }

  /** `validate_update` for the group input `i` and output `o`. */
  ghost function UpdateCode(e: Env, tx: Transaction, s: Script, i: int, o: int): int
    requires 0 <= i < |tx.inputs| && 0 <= o < |tx.outputs|
  {
    var inCell, outCell := tx.inputs[i].cell, tx.outputs[o];
    match (DecodeData(inCell.data), DecodeData(outCell.data))
    case (Some(prior), Some(next)) =>
      if inCell.lockHash != outCell.lockHash then ERROR_CONFIG_MUTATED
      else if outCell.capacity < inCell.capacity then ERROR_PUBLISHER_SET_CELL
      else
        (match tx.inputs[i].args
         case Malformed => ERROR_SYSCALL
         case NoInputType => ERROR_ENCODING
         case InputType(payload) =>
           if payload == [] then ERROR_ENCODING
           else
             var operation := payload[0];
             match CheckTransition(prior, next, operation)
             case Err(Continuity) => ERROR_PUBLISHER_SET_CONTINUITY
             case Err(Operation) => ERROR_PUBLISHER_SET_OPERATION
             case Ok(_) =>
               if operation == OP_ROTATE && !IntervalMet(tx.inputs[i].since, prior.minRotationIntervalS) then
                   ERROR_PUBLISHER_SET_INTERVAL
               else if operation == OP_ROTATE && !UntilAllowed(next.previous.value.untilMs, tx.headers) then
                   ERROR_PUBLISHER_SET_UNTIL
               else
                 DecodeDataIffEncoded(inCell.data, prior);
                 DecodeDataIffEncoded(outCell.data, next);
                 AuthorizationCode(e, e.scriptHash(s), prior, next, payload))
    case _ => ERROR_PUBLISHER_SET_MALFORMED
  }

  method ValidateUpdate(e: Env, tx: Transaction, s: Script, i: int, o: int) returns (code: int)
    requires 0 <= i < |tx.inputs| && 0 <= o < |tx.outputs|
    ensures code == UpdateCode(e, tx, s, i, o)
  {
    var inCell, outCell := tx.inputs[i].cell, tx.outputs[o];
    var decodedOld, decodedNew := DecodeData(inCell.data), DecodeData(outCell.data);
    if decodedOld.None? || decodedNew.None? {
      return ERROR_PUBLISHER_SET_MALFORMED;
    }
    var prior, next := decodedOld.value, decodedNew.value;
    if inCell.lockHash != outCell.lockHash {
      return ERROR_CONFIG_MUTATED;
    }
    if outCell.capacity < inCell.capacity {
      return ERROR_PUBLISHER_SET_CELL;
    }
    if tx.inputs[i].args.Malformed? {
      return ERROR_SYSCALL;
    }
    if tx.inputs[i].args.NoInputType? || tx.inputs[i].args.bytes == [] {
      return ERROR_ENCODING;
    }
    var payload := tx.inputs[i].args.bytes;
    var operation := payload[0];
    var transition := CheckTransition(prior, next, operation);
    if transition.Err? {
      return if transition.error == Continuity then ERROR_PUBLISHER_SET_CONTINUITY else ERROR_PUBLISHER_SET_OPERATION;
    }
    if operation == OP_ROTATE {
      if !IntervalMet(tx.inputs[i].since, prior.minRotationIntervalS) {
        return ERROR_PUBLISHER_SET_INTERVAL;
      }
      var until := CheckUntil(next.previous.value.untilMs, tx.headers);
      if until != 0 {
        return until;
      }
    }
    DecodeDataIffEncoded(inCell.data, prior);
    DecodeDataIffEncoded(outCell.data, next);
    code := CheckAuthorization(e, e.scriptHash(s), prior, next, payload);
  }

  method CheckAuthorization(
      e: Env, committee: Bytes32, prior: PublisherSetData, next: PublisherSetData, payload: Bytes) returns (code: int)
    requires payload != [] && Encodable(prior) && Encodable(next)
    ensures code == AuthorizationCode(e, committee, prior, next, payload)
  {
    var operation := payload[0];
    var parsed := ParsePrefix(payload[1..]);
    if parsed.None? {
      return ERROR_ENCODING;
    }
    var (authorization, used) := parsed.value;
    var quorumSigned :=
      VerifyThreshold(e.crypto, authorization,
          e.crypto.hash(UpdatePreimage(e.crypto, committee, prior, next, operation)), prior.current);
    if !quorumSigned {
      return ERROR_PUBLISHER_SET_AUTH;
    }
    var rest := payload[1..][used..];
    if !Rotates(operation) {
      return if rest == [] then 0 else ERROR_ENCODING;
    }
    var pop := ParsePrefix(rest);
    if pop.None? || pop.value.1 != |rest| {
      return ERROR_ENCODING;
    }
    var possessed :=
      VerifyAll(e.crypto, pop.value.0, e.crypto.hash(PopPreimage(e.crypto, committee, next)), next.current);
    return if possessed then 0 else ERROR_PUBLISHER_SET_POP;
  }

  /** `validate_create` for the group output `o`. */
  ghost function CreateCode(e: Env, tx: Transaction, s: Script, o: int): int
    requires 0 <= o < |tx.outputs|
  {
    match DecodeData(tx.outputs[o].data)
    case None => ERROR_PUBLISHER_SET_MALFORMED
    case Some(d) =>
      if d.governanceNonce != 0 || d.current.setIndex != 0 || d.previous.Some? then ERROR_PUBLISHER_SET_CONTINUITY
      else if |s.args| != 32 then ERROR_TYPE_ID_INVALID
      else if tx.inputs == [] then ERROR_SYSCALL
      else if TypeIdValid(e.crypto, tx, o, s.args) then 0
      else ERROR_TYPE_ID_INVALID
  }

  /** The script accepts: a creation or a one-to-one update with exit code zero. A committee cell is never burnt. */
  ghost predicate Accepts(e: Env, tx: Transaction, s: Script) {
    (exists o :: Creates(tx, s, o) && CreateCode(e, tx, s, o) == 0)
    || (exists i, o :: Continues(tx, s, i, o) && UpdateCode(e, tx, s, i, o) == 0)
  }

  // ----- runs

  /** One accepted operation takes the cell from `a` to `b`. */
  ghost predicate CellStep(e: Env, s: Script, a: Cell, b: Cell, tx: Transaction) {
    Accepts(e, tx, s) && exists i, o :: Continues(tx, s, i, o) && tx.inputs[i].cell == a && tx.outputs[o] == b
  }

  /** What an accepted step leaves behind: the decoded states, the operation, a quorum of the outgoing
      set behind it, and a signature of every key of a new set. */
  ghost predicate AuthorizedStep(e: Env, committee: Bytes32, a: PublisherSetData, b: PublisherSetData, operation: u8) {
    ValidData(a) && ValidData(b) && CheckTransition(a, b, operation).Ok?
    && (exists authorization ::
          QuorumSigned(e.crypto, authorization, e.crypto.hash(UpdatePreimage(e.crypto, committee, a, b, operation)),
              a.current))
    && (Rotates(operation) ==> exists pop ::
          AllSigned(e.crypto, pop, e.crypto.hash(PopPreimage(e.crypto, committee, b)), b.current))
  }

  /** The cell is spent with a relative lock in seconds of at least the interval: tag byte 0xC0, then the
      seconds in the seven bytes below it. */
  predicate SpentAfter(tx: Transaction, a: Cell, intervalS: u64) {
    exists i :: 0 <= i < |tx.inputs| && tx.inputs[i].cell == a
      && 0xC000_0000_0000_0000 + intervalS <= tx.inputs[i].since < 0xC100_0000_0000_0000
  }

  lemma AcceptedStep(e: Env, s: Script, a: Cell, b: Cell, tx: Transaction) returns (operation: u8)
    requires CellStep(e, s, a, b, tx)
    ensures DecodeData(a.data).Some? && DecodeData(b.data).Some?
    ensures AuthorizedStep(e, e.scriptHash(s), DecodeData(a.data).value, DecodeData(b.data).value, operation)
    ensures b.lockHash == a.lockHash && b.capacity >= a.capacity
    ensures operation == OP_ROTATE ==> UntilAllowed(DecodeData(b.data).value.previous.value.untilMs, tx.headers)
    ensures operation == OP_ROTATE ==> SpentAfter(tx, a, DecodeData(a.data).value.minRotationIntervalS)
  {
    var i, o :| Continues(tx, s, i, o) && tx.inputs[i].cell == a && tx.outputs[o] == b;
    assert UpdateCode(e, tx, s, i, o) == 0;
    var payload := tx.inputs[i].args.bytes;
    operation := payload[0];
    var x, y := DecodeData(a.data).value, DecodeData(b.data).value;
    DecodeDataIffEncoded(a.data, x);
    DecodeDataIffEncoded(b.data, y);
    var authorization := DecodeBundlePrefix(payload[1..]).value.0;
    var signers :=
      ThresholdMeansQuorum(e.crypto, authorization,
          e.crypto.hash(UpdatePreimage(e.crypto, e.scriptHash(s), x, y, operation)), x.current);
  }

  /** The states of a committee from its creation, one operation at a time. */
  ghost predicate StateRun(states: seq<PublisherSetData>, ops: seq<u8>) {
    |states| == |ops| + 1
    && states[0].governanceNonce == 0 && states[0].current.setIndex == 0 && states[0].previous.None?
    && (forall k :: 0 <= k < |states| ==> ValidData(states[k]))
    && (forall k :: 0 <= k < |ops| ==> CheckTransition(states[k], states[k + 1], ops[k]).Ok?)
  }

  /** A committee cell's whole history: `txs[0]` creates `cells[0]`, `txs[k + 1]` takes `cells[k]` to `cells[k + 1]`. */
  ghost predicate CellRun(e: Env, s: Script, cells: seq<Cell>, txs: seq<Transaction>) {
    |cells| == |txs| > 0
    && Accepts(e, txs[0], s) && (exists o :: Creates(txs[0], s, o) && txs[0].outputs[o] == cells[0])
    && forall k :: 0 < k < |txs| ==> CellStep(e, s, cells[k - 1], cells[k], txs[k])
  }

  lemma ExtendRun(states: seq<PublisherSetData>, ops: seq<u8>, d: PublisherSetData, op: u8)
    requires StateRun(states, ops) && ValidData(d) && CheckTransition(states[|ops|], d, op).Ok?
    ensures StateRun(states + [d], ops + [op])
  {
  }

  /** Every history on chain is a run of states. */
  lemma {:induction false} RunOfCells(
      e: Env, s: Script, cells: seq<Cell>, txs: seq<Transaction>)
      returns (states: seq<PublisherSetData>, ops: seq<u8>)
    requires CellRun(e, s, cells, txs)
    ensures StateRun(states, ops) && |states| == |cells|
    ensures forall k :: 0 <= k < |cells| ==> DecodeData(cells[k].data) == Some(states[k])
    decreases |cells|
  {
    var last := |cells| - 1;
    if last == 0 {
      states := FirstState(e, s, cells[0], txs[0]);
      ops := [];
    } else {
      assert CellRun(e, s, cells[..last], txs[..last]);
      states, ops := RunOfCells(e, s, cells[..last], txs[..last]);
      assert DecodeData(cells[..last][last - 1].data) == Some(states[last - 1]);
      states, ops := ExtendByStep(e, s, states, ops, cells[last - 1], cells[last], txs[last]);
    }
  }

  lemma ExtendByStep(e: Env, s: Script, states: seq<PublisherSetData>, ops: seq<u8>, a: Cell, b: Cell, tx: Transaction)
    returns (longer: seq<PublisherSetData>, more: seq<u8>)
    requires StateRun(states, ops) && CellStep(e, s, a, b, tx) && DecodeData(a.data) == Some(states[|ops|])
    ensures StateRun(longer, more) && |longer| == |states| + 1 && longer[..|states|] == states
    ensures DecodeData(b.data) == Some(longer[|states|])
  {
    var op := AcceptedStep(e, s, a, b, tx);
    var d := DecodeData(b.data).value;
    ExtendRun(states, ops, d, op);
    longer, more := states + [d], ops + [op];
  }

  lemma FirstState(e: Env, s: Script, cell: Cell, tx: Transaction) returns (states: seq<PublisherSetData>)
    requires Accepts(e, tx, s) && exists o :: Creates(tx, s, o) && tx.outputs[o] == cell
    ensures StateRun(states, []) && |states| == 1 && DecodeData(cell.data) == Some(states[0])
  {
    var o :| Creates(tx, s, o) && tx.outputs[o] == cell;
    assert CreateCode(e, tx, s, o) == 0;
    var d := DecodeData(cell.data).value;
    DecodeDataIffEncoded(cell.data, d);
    states := [d];
  }

  lemma {:induction false} CapacityNeverFalls(
      e: Env, s: Script, cells: seq<Cell>, txs: seq<Transaction>, a: nat, b: nat)
    requires CellRun(e, s, cells, txs) && a <= b < |cells|
    ensures cells[a].capacity <= cells[b].capacity && cells[a].lockHash == cells[b].lockHash
    decreases b
  {
    if a < b {
      CapacityNeverFalls(e, s, cells, txs, a, b - 1);
      assert CellStep(e, s, cells[b - 1], cells[b], txs[b]);
      var op := AcceptedStep(e, s, cells[b - 1], cells[b], txs[b]);
    }
  }

  function Rotations(ops: seq<u8>): nat {
    if ops == [] then 0 else Rotations(ops[..|ops| - 1]) + if Rotates(ops[|ops| - 1]) then 1 else 0
  }

  /** The nonce counts operations, the set index counts rotations, and nothing else about the committee moves. */
  lemma {:induction false} NonceAndIndexCount(states: seq<PublisherSetData>, ops: seq<u8>, k: nat)
    requires StateRun(states, ops) && k < |states|
    ensures states[k].governanceNonce == k && states[k].current.setIndex == Rotations(ops[..k])
    ensures states[k].networkId == states[0].networkId
    ensures states[k].minRotationIntervalS == states[0].minRotationIntervalS
  {
    if k != 0 {
      NonceAndIndexCount(states, ops, k - 1);
      assert ops[..k][..k - 1] == ops[..k - 1];
      assert CheckTransition(states[k - 1], states[k], ops[k - 1]).Ok?;
    }
  }

  lemma {:induction false} IndexMonotone(states: seq<PublisherSetData>, ops: seq<u8>, a: nat, b: nat)
    requires StateRun(states, ops) && a <= b < |states|
    ensures states[a].current.setIndex <= states[b].current.setIndex
    ensures states[a].current.setIndex == states[b].current.setIndex ==> states[a].current == states[b].current
    decreases b
  {
    if a < b {
      IndexMonotone(states, ops, a, b - 1);
      assert CheckTransition(states[b - 1], states[b], ops[b - 1]).Ok?;
    }
  }

  /** The one previous set ever kept is exactly the set that was current just before the current one. */
  lemma {:induction false} PreviousWasCurrent(states: seq<PublisherSetData>, ops: seq<u8>, k: nat) returns (j: nat)
    requires StateRun(states, ops) && k < |states| && states[k].previous.Some?
    ensures j < k && states[j].current == states[k].previous.value.outgoing
    ensures states[j].current.setIndex + 1 == states[k].current.setIndex
    ensures states[j + 1].current == states[k].current && states[j + 1].previous == states[k].previous
  {
    assert CheckTransition(states[k - 1], states[k], ops[k - 1]).Ok?;
    if ops[k - 1] == OP_ROTATE {
      j := k - 1;
    } else {
      j := PreviousWasCurrent(states, ops, k - 1);
    }
  }

  /** Every set a state names was the current set of some state with that index. */
  lemma NamedWasCurrent(states: seq<PublisherSetData>, ops: seq<u8>, k: nat, index: u32) returns (j: nat)
    requires StateRun(states, ops) && k < |states| && Trusts(states[k], index)
    ensures j <= k && states[j].current == NamedSet(states[k], index) && states[j].current.setIndex == index
  {
    if index == states[k].current.setIndex { j := k; } else { j := PreviousWasCurrent(states, ops, k); }
  }

  /** A set index means the same keys wherever in the run it is named. */
  lemma IndexNamesOneSet(states: seq<PublisherSetData>, ops: seq<u8>, a: nat, b: nat, index: u32)
    requires StateRun(states, ops) && a < |states| && b < |states|
    requires Trusts(states[a], index) && Trusts(states[b], index)
    ensures NamedSet(states[a], index) == NamedSet(states[b], index)
  {
    var i := NamedWasCurrent(states, ops, a, index);
    var j := NamedWasCurrent(states, ops, b, index);
    if i <= j { IndexMonotone(states, ops, i, j); } else { IndexMonotone(states, ops, j, i); }
  }

  /** An index that is not ahead of the run, once refused for a tick, is refused for it ever after; and
      once distrusted, it is never trusted again. */
  lemma {:induction false} RejectionIsForever(
      states: seq<PublisherSetData>, ops: seq<u8>, a: nat, b: nat, index: u32, tick: u64)
    requires StateRun(states, ops) && a <= b < |states| && index <= states[a].current.setIndex
    ensures SetFor(states[a], index, tick).None? ==> SetFor(states[b], index, tick).None?
    ensures !Trusts(states[a], index) ==> !Trusts(states[b], index)
    decreases b
  {
    if a < b {
      RejectionIsForever(states, ops, a, b - 1, index, tick);
      IndexMonotone(states, ops, a, b - 1);
      assert CheckTransition(states[b - 1], states[b], ops[b - 1]).Ok?;
    }
  }

  // ----- no authorization can be replayed

  ghost function StepPreimages(
      c: Crypto, committee: Bytes32, a: PublisherSetData, b: PublisherSetData, operation: u8): set<Bytes>
    requires Encodable(a) && Encodable(b)
  {
    {StatePreimage(a), StatePreimage(b), UpdatePreimage(c, committee, a, b, operation)}
  }

  /** The signed digest determines the committee, both states and the operation. */
  lemma UpdateHashInjective(
      c: Crypto, committee1: Bytes32, a1: PublisherSetData, b1: PublisherSetData, op1: u8, committee2: Bytes32,
      a2: PublisherSetData, b2: PublisherSetData, op2: u8)
    requires Encodable(a1) && Encodable(b1) && Encodable(a2) && Encodable(b2)
    requires CollisionFree(c, StepPreimages(c, committee1, a1, b1, op1) + StepPreimages(c, committee2, a2, b2, op2))
    requires c.hash(UpdatePreimage(c, committee1, a1, b1, op1)) == c.hash(UpdatePreimage(c, committee2, a2, b2, op2))
    ensures committee1 == committee2 && a1 == a2 && b1 == b2 && op1 == op2
  {
    var p := committee1 + [op1] + c.hash(StatePreimage(a1)) + c.hash(StatePreimage(b1));
    var q := committee2 + [op2] + c.hash(StatePreimage(a2)) + c.hash(StatePreimage(b2));
    DropPrefix(DOMAIN_SET_UPDATE, p, q);
    UpdateParts(committee1, op1, c.hash(StatePreimage(a1)), c.hash(StatePreimage(b1)));
    UpdateParts(committee2, op2, c.hash(StatePreimage(a2)), c.hash(StatePreimage(b2)));
    StatePreimageInjective(c, a1, a2);
    StatePreimageInjective(c, b1, b2);
  }

  lemma UpdateParts(committee: Bytes32, op: byte, x: Digest, y: Digest)
    ensures var p := committee + [op] + x + y;
            p[..32] == committee && p[32] == op && p[33..65] == x && p[65..97] == y
  {
  }

  lemma StatePreimageInjective(c: Crypto, a: PublisherSetData, b: PublisherSetData)
    requires Encodable(a) && Encodable(b)
    requires CollisionFree(c, {StatePreimage(a), StatePreimage(b)})
    requires c.hash(StatePreimage(a)) == c.hash(StatePreimage(b))
    ensures a == b
  {
    DropPrefix(DOMAIN_SET_STATE, EncodeData(a), EncodeData(b));
    EncodeDataInjective(a, b);
  }

  /** Two different steps of one run, or any two steps of runs on two committee cells, are authorized
      by different digests: a bundle for one is a bundle over something else than the other. */
  lemma NoReplay(
      c: Crypto, committee1: Bytes32, states1: seq<PublisherSetData>, ops1: seq<u8>, i: nat, committee2: Bytes32,
      states2: seq<PublisherSetData>, ops2: seq<u8>, j: nat)
    requires StateRun(states1, ops1) && StateRun(states2, ops2) && i < |ops1| && j < |ops2|
    requires committee1 != committee2 || (states1 == states2 && i != j)
    requires CollisionFree(c, StepPreimages(c, committee1, states1[i], states1[i + 1], ops1[i])
                              + StepPreimages(c, committee2, states2[j], states2[j + 1], ops2[j]))
    ensures c.hash(UpdatePreimage(c, committee1, states1[i], states1[i + 1], ops1[i]))
         != c.hash(UpdatePreimage(c, committee2, states2[j], states2[j + 1], ops2[j]))
  {
    if c.hash(UpdatePreimage(c, committee1, states1[i], states1[i + 1], ops1[i]))
       == c.hash(UpdatePreimage(c, committee2, states2[j], states2[j + 1], ops2[j])) {
      UpdateHashInjective(c, committee1, states1[i], states1[i + 1], ops1[i], committee2, states2[j], states2[j + 1],
          ops2[j]);
      NonceAndIndexCount(states1, ops1, i);
      NonceAndIndexCount(states2, ops2, j);
    }
  }
}
