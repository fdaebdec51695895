/** The expected size and system fee of the block a consensus node is
    building, and the limitation that keeps the proposed transactions within
    the chain's maximum block size, system fee and transaction count. */
module BlockSize {
  import opened Wrappers
  import opened Records
  import opened ConsensusTypes

  /* Serialized sizes, in bytes, of Neo's fixed-width fields. */
  const SizeOfUInt8: nat := 1
  const SizeOfUInt32LE: nat := 4
  const SizeOfUInt64LE: nat := 8
  const SizeOfUInt160: nat := 20
  const SizeOfUInt256: nat := 32

  /** The fixed part of a block: version, previous hash, merkle root,
      timestamp, index, next consensus and the witness-count byte. */
  const HeaderSize: nat :=
    SizeOfUInt32LE + SizeOfUInt256 + SizeOfUInt256 + SizeOfUInt64LE + SizeOfUInt32LE + SizeOfUInt160 + SizeOfUInt8

  /** The size of a variable-length unsigned integer in Neo's serialization. */
  function VarUIntSize(value: nat): (r: nat)
    ensures r == 1 || r == 3 || r == 5 || r == 9
    ensures value < 0xfd <==> r == 1
  {
    if value < 0xfd then SizeOfUInt8
    else if value <= 0xffff then SizeOfUInt8 + 2
    else if value <= 0xffff_ffff then SizeOfUInt8 + SizeOfUInt32LE
    else SizeOfUInt8 + SizeOfUInt64LE
  }

  lemma VarUIntSizeMonotone(a: nat, b: nat)
    requires a <= b
    ensures VarUIntSize(a) <= VarUIntSize(b)
  {
  }

  /** `getExpectedBlockSizeWithoutTransactions`: the header, the witness,
      the consensus data and the transaction count. */
  function ExpectedBlockSizeWithoutTransactions(context: ConsensusContext, expectedTransactions: nat): (size: nat)
    ensures var fixed := HeaderSize + context.witnessSize + context.block.consensusData.size;
      fixed < size <= fixed + 9 && (size == fixed + 1 <==> expectedTransactions < 0xfc)
  {
    HeaderSize + context.witnessSize + context.block.consensusData.size + VarUIntSize(expectedTransactions + 1)
  }

  /** `tx?.size ?? 0` */
  function SizeOrZero(tx: Option<Transaction>): nat {
    if tx.Some? then tx.value.size else 0
  }

  /** `tx?.systemFee ?? 0` */
  function FeeOrZero(tx: Option<Transaction>): int {
    if tx.Some? then tx.value.systemFee else 0
  }

  /** The sum of sizes, folded from the left as `reduce` does. */
  function SumSizes(txs: seq<Option<Transaction>>): (total: nat)
    ensures forall i :: 0 <= i < |txs| ==> SizeOrZero(txs[i]) <= total
  {
    if txs == [] then 0
    else
      var init := txs[..|txs| - 1];
      assert forall i :: 0 <= i < |init| ==> init[i] == txs[i];
      SumSizes(init) + SizeOrZero(txs[|txs| - 1])
  }

  /** The sum of system fees, folded from the left as `reduce` does. */
  function SumFees(txs: seq<Option<Transaction>>): (total: int)
    ensures (forall i :: 0 <= i < |txs| ==> FeeOrZero(txs[i]) >= 0) ==> total >= 0
    ensures (forall i :: 0 <= i < |txs| ==> txs[i].None?) ==> total == 0
  {
    if txs == [] then 0
    else
      var init := txs[..|txs| - 1];
      assert forall i :: 0 <= i < |init| ==> init[i] == txs[i];
      SumFees(init) + FeeOrZero(txs[|txs| - 1])
  }

  lemma {:induction false} SumsAppend(a: seq<Option<Transaction>>, b: seq<Option<Transaction>>)
    ensures SumSizes(a + b) == SumSizes(a) + SumSizes(b)
    ensures SumFees(a + b) == SumFees(a) + SumFees(b)
  {
    if b != [] {
      assert (a + b)[..|a + b| - 1] == a + b[..|b| - 1];
      SumsAppend(a, b[..|b| - 1]);
    } else {
      assert a + b == a;
    }
  }

  /** `getExpectedBlockSize` */
  function ExpectedBlockSize(context: ConsensusContext): (size: nat)
    ensures forall i :: 0 <= i < |context.transactions| ==>
      ExpectedBlockSizeWithoutTransactions(context, |context.transactions|) + SizeOrZero(context.transactions[i].value) <= size
  {
    assert forall i :: 0 <= i < |context.transactions| ==> Values(context.transactions)[i] == context.transactions[i].value;
    ExpectedBlockSizeWithoutTransactions(context, |context.transactions|) + SumSizes(Values(context.transactions))
  }

  /** `getExpectedBlockSystemFee` */
  function ExpectedBlockSystemFee(context: ConsensusContext): (fee: int)
    ensures (forall i :: 0 <= i < |context.transactions| ==> FeeOrZero(context.transactions[i].value) >= 0) ==> fee >= 0
    ensures (forall i :: 0 <= i < |context.transactions| ==> context.transactions[i].value.None?) ==> fee == 0
  {
    assert forall i :: 0 <= i < |context.transactions| ==> Values(context.transactions)[i] == context.transactions[i].value;
    SumFees(Values(context.transactions))
  }

  /** Adding one more entry to the transactions adds its size and its fee
      (an `undefined` entry adds neither) and may widen the count field. */
  lemma ExpectedAfterNewEntry(context: ConsensusContext, hash: Hash, tx: Option<Transaction>)
    requires DistinctKeys(context.transactions) && hash !in Keys(context.transactions)
    ensures var after := context.(transactions := Put(context.transactions, hash, tx));
      && ExpectedBlockSize(after)
         == ExpectedBlockSizeWithoutTransactions(context, |context.transactions| + 1)
            + SumSizes(Values(context.transactions)) + SizeOrZero(tx)
      && ExpectedBlockSystemFee(after) == ExpectedBlockSystemFee(context) + FeeOrZero(tx)
  {
    var table := context.transactions;
    PutShape(table, hash, tx);
    assert Values(table + [Entry(hash, tx)]) == Values(table) + [tx];
    SumsAppend(Values(table), [tx]);
    assert SumSizes([tx]) == SizeOrZero(tx) by {
      assert [tx][..0] == [];
    }
    assert SumFees([tx]) == FeeOrZero(tx) by {
      assert [tx][..0] == [];
    }
  }

  // ---------------------------------------------------------------------
  // ensureMaxBlockLimitation

  /** `transactionsIn.slice(0, end)`: a negative end counts from the back. */
  function SliceTo<T>(s: seq<T>, end: int): (r: seq<T>)
    ensures |r| <= |s| && r == s[..|r|]
    ensures end >= 0 ==> |r| == if end < |s| then end else |s|
    ensures end < 0 ==> |r| == if |s| + end < 0 then 0 else |s| + end
  {
    if end < 0 then (if |s| + end < 0 then [] else s[..|s| + end])
    else if end < |s| then s[..end]
    else s
  }

  /** The accumulator of the limitation's reduce. */
  datatype Limitation = Limitation(
    hashes: seq<Hash>,
    transactions: Record<Hash, Option<Transaction>>,
    blockSize: int,
    blockSystemFee: int)

  /** One step of the reduce: a transaction that would push the running size
      over the maximum is rejected but its size is still counted; one that
      would push the running fee over the maximum is rejected but its size
      and fee are still counted; any other is accepted. */
  function LimitStep(acc: Limitation, tx: Transaction, maxBlockSize: int, maxBlockSystemFee: int): (r: Limitation)
    ensures r.blockSize == acc.blockSize + tx.size
    ensures r.hashes == acc.hashes + [tx.hash]
      <==> acc.blockSize + tx.size <= maxBlockSize && acc.blockSystemFee + tx.systemFee <= maxBlockSystemFee
    ensures r.hashes != acc.hashes + [tx.hash] ==> r.hashes == acc.hashes && r.transactions == acc.transactions
    ensures r.hashes == acc.hashes + [tx.hash] ==>
      r.transactions == Put(acc.transactions, tx.hash, Some(tx)) && r.blockSystemFee == acc.blockSystemFee + tx.systemFee
  {
    var newBlockSize := acc.blockSize + tx.size;
    if newBlockSize > maxBlockSize then acc.(blockSize := newBlockSize)
    else
      var newBlockSystemFee := acc.blockSystemFee + tx.systemFee;
      if newBlockSystemFee > maxBlockSystemFee then
        acc.(blockSize := newBlockSize, blockSystemFee := newBlockSystemFee)
      else
        Limitation(acc.hashes + [tx.hash], Put(acc.transactions, tx.hash, Some(tx)), newBlockSize, newBlockSystemFee)
  }

  /** The reduce over `txs`, starting from no transactions, the given size
      and a zero fee. */
  function Limit(txs: seq<Transaction>, initialSize: int, maxBlockSize: int, maxBlockSystemFee: int): (r: Limitation)
    ensures r.blockSize == initialSize + TotalSize(txs)
    ensures |r.hashes| <= |txs|
  {
    if txs == [] then Limitation([], [], initialSize, 0)
    else LimitStep(Limit(txs[..|txs| - 1], initialSize, maxBlockSize, maxBlockSystemFee), txs[|txs| - 1], maxBlockSize, maxBlockSystemFee)
  }

  /** `ensureMaxBlockLimitation`: the chain's maxima are parameters (they are
      read from the blockchain), and the verification context is left out. */
  function EnsureMaxBlockLimitation(
    context: ConsensusContext, transactionsIn: seq<Transaction>,
    maxBlockSize: int, maxBlockSystemFee: int, maxTransactionsPerBlock: int): (r: ConsensusContext)
    ensures r.transactionHashes.Some?
    ensures r.(transactionHashes := context.transactionHashes, transactions := context.transactions) == context
  {
    var txs := SliceTo(transactionsIn, maxTransactionsPerBlock);
    var acc := Limit(txs, ExpectedBlockSizeWithoutTransactions(context, |txs|), maxBlockSize, maxBlockSystemFee);
    context.(transactionHashes := Some(acc.hashes), transactions := acc.transactions)
  }

  // Reference definitions: the longest prefix that fits.

  function TotalSize(txs: seq<Transaction>): nat {
    if txs == [] then 0 else TotalSize(txs[..|txs| - 1]) + txs[|txs| - 1].size
  }

  function TotalFee(txs: seq<Transaction>): int {
    if txs == [] then 0 else TotalFee(txs[..|txs| - 1]) + txs[|txs| - 1].systemFee
  }

  function Hashes(txs: seq<Transaction>): seq<Hash> {
    seq(|txs|, i requires 0 <= i < |txs| => txs[i].hash)
  }

  /** The transactions as the object the reduce builds, one entry per hash. */
  function Table(txs: seq<Transaction>): Record<Hash, Option<Transaction>> {
    seq(|txs|, i requires 0 <= i < |txs| => Entry(txs[i].hash, Some(txs[i])))
  }

  /** The record built by putting each transaction under its hash in turn. */
  function PutAll(txs: seq<Transaction>): Record<Hash, Option<Transaction>> {
    if txs == [] then [] else Put(PutAll(txs[..|txs| - 1]), txs[|txs| - 1].hash, Some(txs[|txs| - 1]))
  }

  ghost predicate NonNegativeFees(txs: seq<Transaction>) {
    forall i :: 0 <= i < |txs| ==> txs[i].systemFee >= 0
  }

  ghost predicate DistinctHashes(txs: seq<Transaction>) {
    forall i, j :: 0 <= i < j < |txs| ==> txs[i].hash != txs[j].hash
  }

  /** A block of `base` bytes holding `txs` respects both maxima. */
  predicate Fits(base: int, txs: seq<Transaction>, maxBlockSize: int, maxBlockSystemFee: int) {
    base + TotalSize(txs) <= maxBlockSize && TotalFee(txs) <= maxBlockSystemFee
  }

  /** The length of the longest non-empty prefix of `txs` that fits, or 0. */
  function FittingCount(base: int, txs: seq<Transaction>, maxBlockSize: int, maxBlockSystemFee: int): (k: nat)
    ensures k <= |txs|
  {
    if txs == [] then 0
    else if Fits(base, txs, maxBlockSize, maxBlockSystemFee) then |txs|
    else FittingCount(base, txs[..|txs| - 1], maxBlockSize, maxBlockSystemFee)
  }

  /** With non-negative fees, a prefix of a batch costs no more than the batch. */
  lemma {:induction false} TotalsOfPrefix(txs: seq<Transaction>, j: nat)
    requires NonNegativeFees(txs) && j <= |txs|
    ensures TotalSize(txs[..j]) <= TotalSize(txs) && TotalFee(txs[..j]) <= TotalFee(txs)
  {
    if j < |txs| {
      var shorter := txs[..|txs| - 1];
      assert shorter[..j] == txs[..j];
      TotalsOfPrefix(shorter, j);
    } else {
      assert txs[..j] == txs;
    }
  }

  /** `FittingCount` is the longest fitting prefix: a non-empty prefix fits
      exactly when it is no longer than the count. */
  lemma {:induction false} FittingCountIsLongest(base: int, txs: seq<Transaction>, maxBlockSize: int, maxBlockSystemFee: int)
    requires NonNegativeFees(txs)
    ensures forall j :: 0 < j <= |txs| ==>
      (Fits(base, txs[..j], maxBlockSize, maxBlockSystemFee) <==> j <= FittingCount(base, txs, maxBlockSize, maxBlockSystemFee))
  {
    if txs != [] {
      var shorter := txs[..|txs| - 1];
      if Fits(base, txs, maxBlockSize, maxBlockSystemFee) {
        forall j | 0 < j <= |txs| ensures Fits(base, txs[..j], maxBlockSize, maxBlockSystemFee) {
          TotalsOfPrefix(txs, j);
        }
      } else {
        FittingCountIsLongest(base, shorter, maxBlockSize, maxBlockSystemFee);
        forall j | 0 < j < |txs| ensures txs[..j] == shorter[..j] { }
        assert txs[..|txs|] == txs;
      }
    }
  }

  /** The reduce accepts exactly the longest fitting prefix: its hashes and
      its table are those of that prefix, in input order, and the running
      size counts every transaction, rejected or not. Once a transaction has
      been rejected the running totals stay over a maximum, so every later
      one is rejected as well. */
  lemma {:induction false} LimitAcceptsFittingPrefix(txs: seq<Transaction>, base: int, maxBlockSize: int, maxBlockSystemFee: int)
    requires NonNegativeFees(txs)
    ensures var acc := Limit(txs, base, maxBlockSize, maxBlockSystemFee);
      var k := FittingCount(base, txs, maxBlockSize, maxBlockSystemFee);
      && acc.hashes == Hashes(txs[..k])
      && acc.transactions == PutAll(txs[..k])
      && acc.blockSize == base + TotalSize(txs)
      && (k == |txs| ==> acc.blockSystemFee == TotalFee(txs))
      && (k < |txs| ==> acc.blockSize > maxBlockSize || acc.blockSystemFee > maxBlockSystemFee)
  {
    if txs == [] {
      assert Hashes(txs[..0]) == [];
    } else {
      var shorter := txs[..|txs| - 1];
      var tx := txs[|txs| - 1];
      LimitAcceptsFittingPrefix(shorter, base, maxBlockSize, maxBlockSystemFee);
      var k' := FittingCount(base, shorter, maxBlockSize, maxBlockSystemFee);
      assert shorter[..k'] == txs[..k'];
      if k' == |shorter| {
        if Fits(base, txs, maxBlockSize, maxBlockSystemFee) {
          assert txs[..|txs|] == txs;
          assert shorter[..k'] == shorter;
          assert Hashes(txs) == Hashes(shorter) + [tx.hash];
        }
      } else {
        assert !Fits(base, shorter, maxBlockSize, maxBlockSystemFee);
      }
    }
  }

  /** Distinct hashes: putting each transaction in turn appends it. */
  lemma {:induction false} PutAllIsTable(txs: seq<Transaction>)
    requires DistinctHashes(txs)
    ensures PutAll(txs) == Table(txs)
    ensures DistinctKeys(Table(txs))
  {
    if txs != [] {
      var shorter := txs[..|txs| - 1];
      var tx := txs[|txs| - 1];
      PutAllIsTable(shorter);
      assert Keys(Table(shorter)) == Hashes(shorter);
      forall i | 0 <= i < |shorter| ensures Keys(Table(shorter))[i] != tx.hash {
        assert txs[i].hash != txs[|txs| - 1].hash;
      }
      PutShape(Table(shorter), tx.hash, Some(tx));
      assert Table(shorter) + [Entry(tx.hash, Some(tx))] == Table(txs);
    }
  }

  // ---------------------------------------------------------------------
  // The transactions of the block (createBlock)

  /** Each hash looked up in the table, missing and `undefined` entries dropped. */
  function Collect(hashes: seq<Hash>, table: Record<Hash, Option<Transaction>>): seq<Transaction> {
    if hashes == [] then []
    else
      var found := Get(table, hashes[|hashes| - 1]);
      Collect(hashes[..|hashes| - 1], table)
      + if found.Some? && found.value.Some? then [found.value.value] else []
  }

  /** The transactions `createBlock` puts in the block; an undefined list of
      hashes is an error. */
  function BlockTransactions(context: ConsensusContext): (r: Result<seq<Transaction>, ConsensusError>)
    ensures r.Err? <==> context.transactionHashes.None?
    ensures r.Err? ==> r.error == TransactionsUndefined
  {
    match context.transactionHashes
    case None => Err(TransactionsUndefined)
    case Some(hashes) => Ok(Collect(hashes, context.transactions))
  }

  /** Looking up the hashes of distinct transactions in their table gives
      back the transactions, in order. */
  lemma {:induction false} CollectTable(txs: seq<Transaction>, j: nat)
    requires DistinctHashes(txs) && j <= |txs|
    ensures Collect(Hashes(txs)[..j], Table(txs)) == txs[..j]
  {
    if j > 0 {
      CollectTable(txs, j - 1);
      assert Hashes(txs)[..j][..j - 1] == Hashes(txs)[..j - 1];
      PutAllIsTable(txs);
      GetAt(Table(txs), j - 1);
      assert txs[..j] == txs[..j - 1] + [txs[j - 1]];
    }
  }

  /** Distinct transactions looked up by their own hashes come back whole. */
  lemma CollectAll(txs: seq<Transaction>)
    requires DistinctHashes(txs)
    ensures Collect(Hashes(txs), Table(txs)) == txs
  {
    CollectTable(txs, |txs|);
    assert Hashes(txs)[..|txs|] == Hashes(txs);
    assert txs[..|txs|] == txs;
  }

  /** A block holding a fitting batch of distinct transactions is within
      both maxima, counted the way `getExpectedBlockSize` and
      `getExpectedBlockSystemFee` count it. */
  lemma TableWithinLimits(context: ConsensusContext, txs: seq<Transaction>, expected: nat, maxBlockSize: int, maxBlockSystemFee: int)
    requires DistinctHashes(txs) && |txs| <= expected
    requires Fits(ExpectedBlockSizeWithoutTransactions(context, expected), txs, maxBlockSize, maxBlockSystemFee)
    ensures ExpectedBlockSize(context.(transactions := Table(txs))) <= maxBlockSize
    ensures ExpectedBlockSystemFee(context.(transactions := Table(txs))) <= maxBlockSystemFee
  {
    VarUIntSizeMonotone(|txs| + 1, expected + 1);
    assert Values(Table(txs)) == seq(|txs|, i requires 0 <= i < |txs| => Some(txs[i]));
    PresentSums(txs);
  }

  /** The transactions `ensureMaxBlockLimitation` accepts, by the reference
      definition: the longest fitting prefix of the sliced input. */
  function Accepted(
    context: ConsensusContext, transactionsIn: seq<Transaction>,
    maxBlockSize: int, maxBlockSystemFee: int, maxTransactionsPerBlock: int): seq<Transaction>
  {
    var txs := SliceTo(transactionsIn, maxTransactionsPerBlock);
    txs[..FittingCount(ExpectedBlockSizeWithoutTransactions(context, |txs|), txs, maxBlockSize, maxBlockSystemFee)]
  }

  /** A prefix of a batch keeps its fees non-negative. */
  lemma PrefixKeepsNonNegative(txs: seq<Transaction>, k: nat)
    requires NonNegativeFees(txs) && k <= |txs|
    ensures NonNegativeFees(txs[..k])
  {
    assert forall i :: 0 <= i < k ==> txs[..k][i] == txs[i];
  }

  /** A prefix of a batch keeps its hashes distinct. */
  lemma PrefixKeepsDistinct(txs: seq<Transaction>, k: nat)
    requires DistinctHashes(txs) && k <= |txs|
    ensures DistinctHashes(txs[..k])
  {
    assert forall i :: 0 <= i < k ==> txs[..k][i] == txs[i];
  }

  /** The accepted transactions come first in the input, number at most
      `maxTransactionsPerBlock`, and are the longest prefix that fits. */
  lemma AcceptedIsLongestFittingPrefix(
    context: ConsensusContext, transactionsIn: seq<Transaction>,
    maxBlockSize: int, maxBlockSystemFee: int, maxTransactionsPerBlock: int)
    requires NonNegativeFees(transactionsIn)
    ensures var accepted := Accepted(context, transactionsIn, maxBlockSize, maxBlockSystemFee, maxTransactionsPerBlock);
      var txs := SliceTo(transactionsIn, maxTransactionsPerBlock);
      var base := ExpectedBlockSizeWithoutTransactions(context, |txs|);
      && accepted == transactionsIn[..|accepted|]
      && (maxTransactionsPerBlock >= 0 ==> |accepted| <= maxTransactionsPerBlock)
      && (forall j :: 0 < j <= |txs| ==> (Fits(base, txs[..j], maxBlockSize, maxBlockSystemFee) <==> j <= |accepted|))
  {
    var txs := SliceTo(transactionsIn, maxTransactionsPerBlock);
    PrefixKeepsNonNegative(transactionsIn, |txs|);
    FittingCountIsLongest(ExpectedBlockSizeWithoutTransactions(context, |txs|), txs, maxBlockSize, maxBlockSystemFee);
  }

  /** The context `ensureMaxBlockLimitation` returns lists the accepted
      transactions' hashes, in order, and holds them under their hashes. */
  lemma LimitedContextHoldsAccepted(
    context: ConsensusContext, transactionsIn: seq<Transaction>,
    maxBlockSize: int, maxBlockSystemFee: int, maxTransactionsPerBlock: int)
    requires NonNegativeFees(transactionsIn) && DistinctHashes(transactionsIn)
    ensures var accepted := Accepted(context, transactionsIn, maxBlockSize, maxBlockSystemFee, maxTransactionsPerBlock);
      var r := EnsureMaxBlockLimitation(context, transactionsIn, maxBlockSize, maxBlockSystemFee, maxTransactionsPerBlock);
      && DistinctHashes(accepted)
      && r.transactionHashes == Some(Hashes(accepted))
      && r.transactions == Table(accepted)
  {
    var txs := SliceTo(transactionsIn, maxTransactionsPerBlock);
    var base := ExpectedBlockSizeWithoutTransactions(context, |txs|);
    var k := FittingCount(base, txs, maxBlockSize, maxBlockSystemFee);
    PrefixKeepsNonNegative(transactionsIn, |txs|);
    PrefixKeepsDistinct(transactionsIn, |txs|);
    PrefixKeepsDistinct(txs, k);
    LimitAcceptsFittingPrefix(txs, base, maxBlockSize, maxBlockSystemFee);
    PutAllIsTable(txs[..k]);
  }

  /** The whole limitation: the accepted transactions are the longest prefix
      of the first `maxTransactionsPerBlock` that fits, in input order; the
      block then built from them stays within the maximum size and system
      fee, and holds exactly those transactions. */
  lemma LimitedBlockWithinLimits(
    context: ConsensusContext, transactionsIn: seq<Transaction>,
    maxBlockSize: int, maxBlockSystemFee: int, maxTransactionsPerBlock: int)
    requires NonNegativeFees(transactionsIn) && DistinctHashes(transactionsIn)
    ensures var accepted := Accepted(context, transactionsIn, maxBlockSize, maxBlockSystemFee, maxTransactionsPerBlock);
      var r := EnsureMaxBlockLimitation(context, transactionsIn, maxBlockSize, maxBlockSystemFee, maxTransactionsPerBlock);
      && (accepted != [] ==> ExpectedBlockSize(r) <= maxBlockSize && ExpectedBlockSystemFee(r) <= maxBlockSystemFee)
      && BlockTransactions(r) == Ok(accepted)
  {
    var accepted := Accepted(context, transactionsIn, maxBlockSize, maxBlockSystemFee, maxTransactionsPerBlock);
    var txs := SliceTo(transactionsIn, maxTransactionsPerBlock);
    AcceptedIsLongestFittingPrefix(context, transactionsIn, maxBlockSize, maxBlockSystemFee, maxTransactionsPerBlock);
    LimitedContextHoldsAccepted(context, transactionsIn, maxBlockSize, maxBlockSystemFee, maxTransactionsPerBlock);
    if accepted != [] {
      assert txs[..|accepted|] == accepted;
      TableWithinLimits(context, accepted, |txs|, maxBlockSize, maxBlockSystemFee);
    }
    CollectAll(accepted);
  }

  /** The sums over `Some` of each transaction are the batch totals. */
  lemma {:induction false} PresentSums(txs: seq<Transaction>)
    ensures var present := seq(|txs|, i requires 0 <= i < |txs| => Some(txs[i]));
      SumSizes(present) == TotalSize(txs) && SumFees(present) == TotalFee(txs)
  {
    if txs != [] {
      var shorter := txs[..|txs| - 1];
      PresentSums(shorter);
      var present := seq(|txs|, i requires 0 <= i < |txs| => Some(txs[i]));
      assert present[..|present| - 1] == seq(|shorter|, i requires 0 <= i < |shorter| => Some(shorter[i]));
    }
  }
}
