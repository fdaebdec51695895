/** The part of the consensus context that the helpers of the consensus
    service read and write: the block being built, the validators, the view,
    the collected transactions and the payload arrays, one slot per validator. */
module ConsensusTypes {
  import opened Wrappers
  import opened Records

  /** An `ECPoint`, as its hex encoding. */
  type PublicKey = string
  /** A `UInt256`, as its hex encoding. */
  type Hash = string
  type Signature = string

  datatype Transaction = Transaction(hash: Hash, size: nat, systemFee: int)

  datatype CommitPayload = CommitPayload(viewNumber: nat, signature: Signature)
  datatype ChangeViewPayload = ChangeViewPayload(viewNumber: nat, newViewNumber: nat)
  datatype PreparationPayload = PreparationPayload(viewNumber: nat, hash: Hash)

  /** A number that the source may compute as `NaN` (a remainder by zero). */
  datatype PrimaryIndex = Num(value: nat) | NaN

  /** A key of `lastSeenMessage`: a validator's hex key, or a validator's
      position written as a number. */
  datatype SeenKey = ByValidator(hex: string) | ByPosition(position: nat)

  /** The block's consensus data: the primary index, and the hash and
      serialized size the block builder derives from it. */
  datatype ConsensusData = ConsensusData(primaryIndex: PrimaryIndex, hash: Hash, size: nat)

  /** The options the block builder holds. */
  datatype BlockOptions = BlockOptions(
    version: nat,
    index: Option<nat>,
    previousHash: Option<Hash>,
    merkleRoot: Option<Hash>,
    nextConsensus: Option<Hash>,
    messageMagic: Option<int>,
    timestamp: Option<int>,
    consensusData: ConsensusData,
    transactions: Option<seq<Transaction>>)

  datatype ConsensusContext = ConsensusContext(
    block: BlockOptions,
    validators: seq<PublicKey>,
    myIndex: int,
    viewNumber: nat,
    witnessSize: nat,
    blockReceivedTimeMs: int,
    transactionHashes: Option<seq<Hash>>,
    /** hash -> transaction, in insertion order; a value may be `undefined` */
    transactions: Record<Hash, Option<Transaction>>,
    preparationPayloads: seq<Option<PreparationPayload>>,
    commitPayloads: seq<Option<CommitPayload>>,
    changeViewPayloads: seq<Option<ChangeViewPayload>>,
    lastChangeViewPayloads: seq<Option<ChangeViewPayload>>,
    lastSeenMessage: map<SeenKey, int>)

  datatype ConsensusError =
    | BlockIndexUndefined       // nullthrows on the block builder's index
    | PreviousHashUndefined     // nullthrows on the block builder's previous hash
    | TransactionsUndefined     // 'this should have already been defined'
    | PreviousBlockMissing      // 'expected previous block'

  /** `_.range(n).map(() => undefined)`. */
  function Undefineds<T>(n: nat): (s: seq<Option<T>>)
    ensures |s| == n && forall i :: 0 <= i < n ==> s[i].None?
  {
    seq(n, _ => None)
  }

  /** `_.findIndex(validators, v => v equals key)`: the first position of
      the key, or -1. */
  function FindIndex(validators: seq<PublicKey>, key: PublicKey): (r: int)
    ensures -1 <= r < |validators|
    ensures r == -1 <==> key !in validators
    ensures r >= 0 ==> validators[r] == key && forall j :: 0 <= j < r ==> validators[j] != key
  {
    if validators == [] then -1
    else if validators[0] == key then 0
    else
      var r := FindIndex(validators[1..], key);
      if r < 0 then -1 else r + 1
  }
}
