/** A CKB transaction as a type script sees it, and the exit codes of the two scripts. */
module Transactions {
  import opened Bytes
  import opened Hashing
  import opened Wrappers

  datatype Script = Script(codeHash: Bytes32, hashType: u8, args: Bytes)

  datatype Cell = Cell(lockHash: Bytes32, typ: Option<Script>, capacity: u64, data: Bytes)

  /** An input: the cell it spends, its `since`, its serialized CellInput and its WitnessArgs. */
  datatype Input = Input(cell: Cell, since: u64, serialized: Bytes, args: WitnessArgs)

  datatype WitnessArgs = Malformed | NoInputType | InputType(bytes: Bytes)

  /** `headers` holds the timestamps of the header deps. */
  datatype Transaction = Transaction(inputs: seq<Input>, outputs: seq<Cell>, deps: seq<Cell>, headers: seq<u64>)

  /** The hash functions scripts rely on: the protocol hash and signatures, and the hash naming a type script. */
  datatype Env = Env(crypto: Crypto, scriptHash: Script -> Bytes32)

  const ERROR_ENCODING := -1
  const ERROR_SYSCALL := -2
  const ERROR_CONFIG_MUTATED := 12
  const ERROR_TYPE_ID_INVALID := 14
  const ERROR_PUBLISHER_SET_MALFORMED := 60
  const ERROR_PUBLISHER_SET_CONTINUITY := 61
  const ERROR_PUBLISHER_SET_AUTH := 62
  const ERROR_PUBLISHER_SET_POP := 63
  const ERROR_PUBLISHER_SET_OPERATION := 64
  const ERROR_PUBLISHER_SET_INTERVAL := 65
  const ERROR_PUBLISHER_SET_CELL := 66
  const ERROR_PUBLISHER_SET_UNTIL := 67
  const ERROR_FEED_DATA_MALFORMED := 80
  const ERROR_FEED_ID_MISMATCH := 81
  const ERROR_FEED_CREATION_NONZERO := 82
  const ERROR_FEED_NOT_FORWARD := 83
  const ERROR_FEED_WITNESS_MALFORMED := 84
  const ERROR_FEED_SET_DEP := 85
  const ERROR_UPDATE_MALFORMED := 86
  const ERROR_UPDATE_FEED_NOT_FOUND := 87
  const ERROR_UPDATE_PROOF := 88
  const ERROR_UPDATE_SET := 89
  const ERROR_UPDATE_SIGNATURE := 90
  const ERROR_UPDATE_MISMATCH := 91
  const ERROR_FEED_LEADER := 92

  predicate InputIs(tx: Transaction, i: int, s: Script) { 0 <= i < |tx.inputs| && tx.inputs[i].cell.typ == Some(s) }

  predicate OutputIs(tx: Transaction, i: int, s: Script) { 0 <= i < |tx.outputs| && tx.outputs[i].typ == Some(s) }

  /** A one-in, one-out group: `old` at input `i` continues as `new` at output `o`, and nothing else carries
      the script. */
  ghost predicate Continues(tx: Transaction, s: Script, i: int, o: int) {
    InputIs(tx, i, s) && OutputIs(tx, o, s)
    && (forall k :: InputIs(tx, k, s) ==> k == i) && (forall k :: OutputIs(tx, k, s) ==> k == o)
  }

  ghost predicate Creates(tx: Transaction, s: Script, o: int) {
    OutputIs(tx, o, s) && (forall k :: !InputIs(tx, k, s)) && (forall k :: OutputIs(tx, k, s) ==> k == o)
  }

  ghost predicate Burns(tx: Transaction, s: Script, i: int) {
    InputIs(tx, i, s) && (forall k :: InputIs(tx, k, s) ==> k == i) && (forall k :: !OutputIs(tx, k, s))
  }

  /** `type_id_seed(first_input, output_index)`. */
  function TypeIdSeed(c: Crypto, firstInput: Bytes, outputIndex: nat): Bytes32 {
    c.hash(firstInput + ToLE(8, outputIndex % Pow256(8)))
  }

  ghost predicate TypeIdValid(c: Crypto, tx: Transaction, o: int, typeId: Bytes) {
    o >= 0 && tx.inputs != [] && TypeIdSeed(c, tx.inputs[0].serialized, o) == typeId
  }
}
