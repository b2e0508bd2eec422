/**
 Values that the block store handles: transactions, blocks and the rows of its tables.

 Hashes, key images and public keys are identifiers. A transaction or block carries the hash
 that the program would compute from it. The per-output arrays of a transaction
 (`output_unlock_times`, `rct_signatures.outPk`) are kept inside the output they belong to.
 */
module ChainTypes {

  type Hash = nat
  type KeyImage = nat

  datatype Option<+T> = None | Some(value: T)

  const V2_RINGCT: nat := 2
  const V3_PER_OUTPUT_UNLOCK_TIMES: nat := 3

  /** `OtherIn` stands for the input kinds that the store does not support. */
  datatype TxIn = ToKey(keyImage: KeyImage) | Gen(height: nat) | OtherIn

  datatype Target = KeyTarget(key: nat) | OtherTarget

  datatype TxOut = TxOut(amount: nat, target: Target, unlockTime: nat, mask: nat)

  /** `stakes` says that `extra` holds both a transaction secret key and a contributor address. */
  datatype Tx = Tx(hash: Hash, version: nat, unlockTime: nat, vin: seq<TxIn>, vout: seq<TxOut>, stakes: bool)

  datatype Block = Block(hash: Hash, prevId: Hash, majorVersion: nat, timestamp: nat, minerTx: Tx, txHashes: seq<Hash>)

  /** Everything `add_block` is given. */
  datatype BlockInput = BlockInput(block: Block, txs: seq<Tx>, weight: nat, longTermWeight: nat,
                                   cumulativeDifficulty: nat, coins: nat)

  datatype Commitment = ZeroCommit(amount: nat) | Mask(mask: nat)

  datatype Error =
    | SizeMismatch | KeyImageExists | TxExists | TxDne | BlockExists | BlockParentDne | BlockDne | OutputDne | DbError

  datatype Outcome = Ok | Threw(error: Error)
}
