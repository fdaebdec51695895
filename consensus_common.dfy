/** The helpers of the consensus service that choose the primary, assemble
    the proposed block, and reset the context for a new view or a new block. */
module ConsensusCommon {
  import opened Wrappers
  import opened Records
  import opened ConsensusTypes
  import opened BlockSize

  // ---------------------------------------------------------------------
  // The primary of a view

  /** JavaScript's `%` on integers: the remainder takes the sign of the
      dividend (Dafny's `%` is never negative). */
  function JsRemainder(a: int, n: int): (r: int)
    requires n > 0
    ensures a >= 0 ==> 0 <= r < n
    ensures a < 0 ==> -n < r <= 0
  {
    if a >= 0 then a % n else -((-a) % n)
  }

  /** The primary of view `viewNumber`: the block index minus the view,
      reduced into `[0, n)` for `n` validators (Dafny's `%` is the
      mathematical residue); `NaN` when there are none. An undefined block
      index is an error (`nullthrows`). */
  function PrimaryIndexOf(context: ConsensusContext, viewNumber: nat): (r: Result<PrimaryIndex, ConsensusError>)
    ensures r.Err? <==> context.block.index.None?
    ensures r.Err? ==> r.error == BlockIndexUndefined
    ensures r.Ok? ==> (r.value.NaN? <==> |context.validators| == 0)
    ensures r.Ok? && r.value.Num? ==> r.value.value < |context.validators|
  {
    match context.block.index
    case None => Err(BlockIndexUndefined)
    case Some(index) =>
      if |context.validators| == 0 then Ok(NaN)
      else Ok(Num((index - viewNumber) % |context.validators|))
  }

  /** `getPrimaryIndex`: the JavaScript remainder, made non-negative, is the
      residue. */
  method GetPrimaryIndex(context: ConsensusContext, viewNumber: nat) returns (r: Result<PrimaryIndex, ConsensusError>)
    ensures r == PrimaryIndexOf(context, viewNumber)
  {
    if context.block.index.None? {
      return Err(BlockIndexUndefined);
    }
    var n := |context.validators|;
    if n == 0 {
      // the remainder by zero is NaN, and `NaN < 0` is false
      return Ok(NaN);
    }
    var a := context.block.index.value - viewNumber;
    var primaryIndex := JsRemainder(a, n);
    if primaryIndex < 0 {
      primaryIndex := primaryIndex + n;
    }
    if a < 0 {
      NegativeResidue(-a, n);
    }
    r := Ok(Num(primaryIndex));
  }

  lemma MulAtLeast(n: nat, k: int)
    requires k >= 1
    ensures n * k >= n
  {
    if k > 1 {
      MulAtLeast(n, k - 1);
      assert n * k == n * (k - 1) + n;
    }
  }

  /** The residue is the remainder of any division with a remainder in `[0, n)`. */
  lemma ResidueUnique(x: int, n: int, d: int, s: int)
    requires n > 0 && 0 <= s < n && x == n * d + s
    ensures x % n == s
  {
    var q := x / n;
    assert x == n * q + x % n;
    assert n * (d - q) == x % n - s;
    if d - q >= 1 {
      MulAtLeast(n, d - q);
    } else if q - d >= 1 {
      MulAtLeast(n, q - d);
    }
  }

  /** The residue of a negative number, from the remainder of its magnitude. */
  lemma NegativeResidue(b: int, n: int)
    requires n > 0 && b >= 0
    ensures (-b) % n == if b % n == 0 then 0 else n - b % n
  {
    var q := b / n;
    assert b == n * q + b % n;
    if b % n == 0 {
      ResidueUnique(-b, n, -q, 0);
    } else {
      ResidueUnique(-b, n, -q - 1, n - b % n);
    }
  }

  /** The primary index differs from the block index minus the view by a
      whole number of rounds of the validators. */
  lemma PrimaryIndexCongruent(context: ConsensusContext, viewNumber: nat)
    requires context.block.index.Some? && |context.validators| > 0
    ensures exists rounds: int ::
      context.block.index.value - viewNumber == rounds * |context.validators| + PrimaryIndexOf(context, viewNumber).value.value
  {
    var n := |context.validators|;
    var a := context.block.index.value - viewNumber;
    assert a == (a / n) * n + a % n;
  }

  /** Views rotate through the validators: the next view's primary is the
      previous validator, wrapping from the first to the last. */
  lemma PrimaryRotates(context: ConsensusContext, viewNumber: nat)
    requires context.block.index.Some? && |context.validators| > 0
    ensures var p := PrimaryIndexOf(context, viewNumber).value.value;
      PrimaryIndexOf(context, viewNumber + 1).value.value == if p == 0 then |context.validators| - 1 else p - 1
  {
    var n := |context.validators|;
    var a := context.block.index.value - viewNumber;
    var p := a % n;
    var q := a / n;
    assert a == n * q + p;
    if p == 0 {
      ResidueUnique(a - 1, n, q - 1, n - 1);
    } else {
      ResidueUnique(a - 1, n, q, p - 1);
    }
  }

  // ---------------------------------------------------------------------
  // ensureHeader

  datatype Header = Header(context: ConsensusContext, hasBlock: bool)

  /** `ensureHeader`: without transaction hashes there is no block yet;
      otherwise a missing merkle root is computed over the consensus data's
      hash followed by the transaction hashes (`MerkleTree.computeRoot` is
      the parameter `computeRoot`). */
  function EnsureHeader(context: ConsensusContext, computeRoot: seq<Hash> -> Hash): (r: Header)
    ensures r.hasBlock <==> context.transactionHashes.Some?
    ensures r.hasBlock ==> r.context.block.merkleRoot.Some?
    ensures !r.hasBlock || context.block.merkleRoot.Some? ==> r.context == context
    ensures r.hasBlock && context.block.merkleRoot.None? ==>
      r.context.block.merkleRoot == Some(computeRoot([context.block.consensusData.hash] + context.transactionHashes.value))
    ensures r.context == context.(block := context.block.(merkleRoot := r.context.block.merkleRoot))
  {
    match context.transactionHashes
    case None => Header(context, false)
    case Some(hashes) =>
      if context.block.merkleRoot.None? then
        var merkleRoot := computeRoot([context.block.consensusData.hash] + hashes);
        Header(context.(block := context.block.(merkleRoot := Some(merkleRoot))), true)
      else Header(context, true)
  }

  /** Ensuring the header twice is ensuring it once. */
  lemma EnsureHeaderIdempotent(context: ConsensusContext, computeRoot: seq<Hash> -> Hash)
    ensures EnsureHeader(EnsureHeader(context, computeRoot).context, computeRoot) == EnsureHeader(context, computeRoot)
  {
  }

  // ---------------------------------------------------------------------
  // createBlock

  /** The validator at `i` has a commit for the context's view. */
  predicate CommitsInView(context: ConsensusContext, i: nat) {
    i < |context.commitPayloads|
    && context.commitPayloads[i].Some?
    && context.commitPayloads[i].value.viewNumber == context.viewNumber
  }

  /** A signature added to the multi-signature contract's parameters. */
  datatype SignatureEntry = SignatureEntry(position: nat, validator: PublicKey, signature: Signature)

  /** The commit signatures of the first `n` validators for the context's
      view, in validator order. */
  function EligibleCommits(context: ConsensusContext, n: nat): (r: seq<SignatureEntry>)
    requires n <= |context.validators|
    ensures |r| <= n
    ensures forall k :: 0 <= k < |r| ==> r[k].position < n
  {
    if n == 0 then [] else EligibleCommits(context, n - 1) + LastCommit(context, n - 1)
  }

  /** The signature the validator at `i` contributes, if any. */
  function LastCommit(context: ConsensusContext, i: nat): (r: seq<SignatureEntry>)
    requires i < |context.validators|
    ensures |r| <= 1 && forall k :: 0 <= k < |r| ==> r[k].position == i
  {
    if CommitsInView(context, i)
    then [SignatureEntry(i, context.validators[i], context.commitPayloads[i].value.signature)]
    else []
  }

  /** The first `m` elements of `s`, or all of it. */
  function Take<T>(s: seq<T>, m: int): (r: seq<T>)
    ensures |r| <= |s| && r == s[..|r|]
    ensures |r| == if m <= 0 then 0 else if m < |s| then m else |s|
  {
    if m <= 0 then [] else if m < |s| then s[..m] else s
  }

  /** `entry` is the current-view commit signature of the validator at its
      position. */
  predicate IsCurrentCommit(context: ConsensusContext, entry: SignatureEntry) {
    && entry.position < |context.validators|
    && CommitsInView(context, entry.position)
    && entry.validator == context.validators[entry.position]
    && entry.signature == context.commitPayloads[entry.position].value.signature
  }

  /** Each eligible entry is a current-view commit of the validator at its
      position. */
  lemma {:induction false} EligibleCommitsAreCurrent(context: ConsensusContext, n: nat)
    requires n <= |context.validators|
    ensures forall k :: 0 <= k < |EligibleCommits(context, n)| ==> IsCurrentCommit(context, EligibleCommits(context, n)[k])
  {
    if n > 0 {
      EligibleCommitsAreCurrent(context, n - 1);
      var e := EligibleCommits(context, n);
      var prefix := EligibleCommits(context, n - 1);
      assert e == prefix + LastCommit(context, n - 1);
      forall k | 0 <= k < |e| ensures IsCurrentCommit(context, e[k]) {
        if k < |prefix| {
          assert e[k] == prefix[k];
        } else {
          assert e[k] == LastCommit(context, n - 1)[0];
        }
      }
    }
  }

  /** Eligible entries are in strictly increasing validator order. */
  lemma {:induction false} EligibleCommitsAscending(context: ConsensusContext, n: nat)
    requires n <= |context.validators|
    ensures forall a, b :: 0 <= a < b < |EligibleCommits(context, n)| ==>
      EligibleCommits(context, n)[a].position < EligibleCommits(context, n)[b].position
  {
    if n > 0 {
      EligibleCommitsAscending(context, n - 1);
      var e := EligibleCommits(context, n);
      var prefix := EligibleCommits(context, n - 1);
      assert e == prefix + LastCommit(context, n - 1);
      forall a, b | 0 <= a < b < |e| ensures e[a].position < e[b].position {
        assert e[a] == prefix[a];
        if b < |prefix| {
          assert e[b] == prefix[b];
        } else {
          assert e[b] == LastCommit(context, n - 1)[0];
        }
      }
    }
  }

  /** No current-view commit is missed. */
  lemma {:induction false} EligibleCommitsComplete(context: ConsensusContext, n: nat, i: nat)
    requires n <= |context.validators| && i < n && CommitsInView(context, i)
    ensures exists k :: 0 <= k < |EligibleCommits(context, n)| && EligibleCommits(context, n)[k].position == i
  {
    var e := EligibleCommits(context, n);
    var prefix := EligibleCommits(context, n - 1);
    assert e == prefix + LastCommit(context, n - 1);
    if i < n - 1 {
      EligibleCommitsComplete(context, n - 1, i);
      var k :| 0 <= k < |prefix| && prefix[k].position == i;
      assert e[k] == prefix[k];
    } else {
      assert e[|prefix|] == LastCommit(context, n - 1)[0];
    }
  }

  /** Eligible commits of fewer validators are a prefix of those of more. */
  lemma {:induction false} EligibleCommitsPrefix(context: ConsensusContext, i: nat, n: nat)
    requires i <= n <= |context.validators|
    ensures |EligibleCommits(context, i)| <= |EligibleCommits(context, n)|
    ensures EligibleCommits(context, i) == EligibleCommits(context, n)[..|EligibleCommits(context, i)|]
  {
    if i < n {
      EligibleCommitsPrefix(context, i, n - 1);
      var e := EligibleCommits(context, n - 1);
      assert EligibleCommits(context, n)[..|e|] == e;
    } else {
      assert EligibleCommits(context, n)[..|EligibleCommits(context, n)|] == EligibleCommits(context, n);
    }
  }

  /** The signature loop of `createBlock`: walks the validators, skipping
      those without a commit or with a commit of another view, and stops
      after `m` signatures (`context.M`). */
  method CollectCommitSignatures(context: ConsensusContext, m: int) returns (signatures: seq<SignatureEntry>)
    ensures signatures == Take(EligibleCommits(context, |context.validators|), m)
  {
    signatures := [];
    var i, j := 0, 0;
    while i < |context.validators| && j < m
      invariant 0 <= i <= |context.validators|
      invariant signatures == EligibleCommits(context, i)
      invariant j == |signatures|
      invariant j == 0 || j <= m
    {
      assert EligibleCommits(context, i + 1) == signatures + LastCommit(context, i);
      if i < |context.commitPayloads| && context.commitPayloads[i].Some?
        && context.commitPayloads[i].value.viewNumber == context.viewNumber
      {
        signatures := signatures + [SignatureEntry(i, context.validators[i], context.commitPayloads[i].value.signature)];
        j := j + 1;
      }
      i := i + 1;
    }
    var all := EligibleCommits(context, |context.validators|);
    EligibleCommitsPrefix(context, i, |context.validators|);
    if i == |context.validators| {
      assert signatures == all;
    } else {
      assert j == m || m <= 0;
    }
  }

  /** At most `m` signatures, each a current-view commit, in increasing
      validator order; fewer than `m` only when every current-view commit
      was taken. */
  lemma CollectedSignatures(context: ConsensusContext, m: int)
    ensures var s := Take(EligibleCommits(context, |context.validators|), m);
      && (m >= 0 ==> |s| <= m)
      && (forall k :: 0 <= k < |s| ==> IsCurrentCommit(context, s[k]))
      && (forall a, b :: 0 <= a < b < |s| ==> s[a].position < s[b].position)
      && (|s| < m ==> forall i :: 0 <= i < |context.validators| && CommitsInView(context, i) ==>
            exists k :: 0 <= k < |s| && s[k].position == i)
  {
    EligibleCommitsAreCurrent(context, |context.validators|);
    EligibleCommitsAscending(context, |context.validators|);
    var e := EligibleCommits(context, |context.validators|);
    var s := Take(e, m);
    if |s| < m {
      forall i | 0 <= i < |context.validators| && CommitsInView(context, i)
        ensures exists k :: 0 <= k < |s| && s[k].position == i
      {
        EligibleCommitsComplete(context, |context.validators|, i);
        assert s == e;
      }
    }
    forall k | 0 <= k < |s| ensures s[k] == e[k] { }
  }

  datatype ProposedBlock = ProposedBlock(context: ConsensusContext, signatures: seq<SignatureEntry>)

  /** `createBlock`: the header is ensured, the previous hash must be known,
      up to `m` commit signatures are collected and the block takes the
      transactions listed by hash. Computing the witness from the signatures
      and the script hashes to verify are not part of this model. */
  method CreateBlock(contextIn: ConsensusContext, m: int, computeRoot: seq<Hash> -> Hash)
    returns (r: Result<ProposedBlock, ConsensusError>)
    ensures var context := EnsureHeader(contextIn, computeRoot).context;
      && (contextIn.block.previousHash.None? ==> r == Err(PreviousHashUndefined))
      && (contextIn.block.previousHash.Some? && contextIn.transactionHashes.None? ==> r == Err(TransactionsUndefined))
      && (r.Ok? ==>
            r.value.signatures == Take(EligibleCommits(context, |context.validators|), m)
            && r.value.context
               == context.(block := context.block.(transactions := Some(Collect(context.transactionHashes.value, context.transactions)))))
    ensures r.Ok? <==> contextIn.block.previousHash.Some? && contextIn.transactionHashes.Some?
  {
    var context := EnsureHeader(contextIn, computeRoot).context;
    if context.block.previousHash.None? {
      return Err(PreviousHashUndefined);
    }
    var signatures := CollectCommitSignatures(context, m);
    var transactions := BlockTransactions(context);
    if transactions.Err? {
      return Err(transactions.error);
    }
    context := context.(block := context.block.(transactions := Some(transactions.value)));
    r := Ok(ProposedBlock(context, signatures));
  }

  // ---------------------------------------------------------------------
  // lastSeenMessage, refreshed when the validators change

  /** The key the source's reduce writes: the object literal
      `{ ...acc, validatorHex: index }` names the property "validatorHex"
      rather than the value of the variable `validatorHex`. */
  const LiteralKey: SeenKey := ByValidator("validatorHex")

  /** The last block index at which a validator was seen: the previous
      value, or the current block index for a validator not seen before. */
  function SeenAt(previous: map<SeenKey, int>, validator: PublicKey, currentBlockIndex: nat): int {
    if ByValidator(validator) in previous then previous[ByValidator(validator)] else currentBlockIndex
  }

  /** The reduce as written: every validator overwrites the one literal
      key, so the refreshed map holds at most that key, carrying the last
      validator's value, and no validator's own key is ever present. */
  function LastSeenAsWritten(previous: map<SeenKey, int>, validators: seq<PublicKey>, currentBlockIndex: nat): (r: map<SeenKey, int>)
    ensures r.Keys <= {LiteralKey}
    ensures validators != [] ==> r == map[LiteralKey := SeenAt(previous, validators[|validators| - 1], currentBlockIndex)]
  {
    if validators == [] then map[]
    else
      LastSeenAsWritten(previous, validators[..|validators| - 1], currentBlockIndex)[
        LiteralKey := SeenAt(previous, validators[|validators| - 1], currentBlockIndex)]
  }

  /** A concrete case: two validators, nothing seen before. Neither
      validator's key is recorded. */
  lemma LastSeenAsWrittenDropsValidators()
    ensures var result := LastSeenAsWritten(map[], ["02aa", "03bb"], 7);
      ByValidator("02aa") !in result && ByValidator("03bb") !in result && |result| == 1
  {
    var result := LastSeenAsWritten(map[], ["02aa", "03bb"], 7);
    assert result == map[LiteralKey := 7];
  }

  /** The reduce as evidently intended: the refreshed map keys exactly the
      new validators by their hex keys, each carrying the index at which it
      was last seen, or the current block index. */
  function LastSeenRefreshed(previous: map<SeenKey, int>, validators: seq<PublicKey>, currentBlockIndex: nat): (r: map<SeenKey, int>)
    ensures forall key :: key in r <==> key.ByValidator? && key.hex in validators
    ensures forall v :: v in validators ==> r[ByValidator(v)] == SeenAt(previous, v, currentBlockIndex)
  {
    if validators == [] then map[]
    else
      var shorter := validators[..|validators| - 1];
      var validator := validators[|validators| - 1];
      assert validators == shorter + [validator];
      LastSeenRefreshed(previous, shorter, currentBlockIndex)[
        ByValidator(validator) := SeenAt(previous, validator, currentBlockIndex)]
  }

  // ---------------------------------------------------------------------
  // lastSeenMessage, recorded when the view changes

  /** The view-change write as written: the block index is stored under this
      node's position (`mutableLastSeenMessage[context.myIndex]`), a key no
      validator lookup reads, so what is recorded for every validator is
      unchanged. */
  function SeenAfterViewAsWritten(context: ConsensusContext): (r: map<SeenKey, int>)
    requires context.block.index.Some?
    ensures context.myIndex < 0 ==> r == context.lastSeenMessage
    ensures forall v :: ByValidator(v) in r <==> ByValidator(v) in context.lastSeenMessage
    ensures forall v :: ByValidator(v) in r ==> r[ByValidator(v)] == context.lastSeenMessage[ByValidator(v)]
  {
    if context.myIndex >= 0
    then context.lastSeenMessage[ByPosition(context.myIndex) := context.block.index.value]
    else context.lastSeenMessage
  }

  /** A node that had not been seen before is still not recorded after the
      view change as written, though it is the node taking part. */
  lemma SeenAfterViewAsWrittenMissesSelf(context: ConsensusContext)
    requires context.block.index.Some?
    requires 0 <= context.myIndex < |context.validators|
    requires ByValidator(context.validators[context.myIndex]) !in context.lastSeenMessage
    ensures ByValidator(context.validators[context.myIndex]) !in SeenAfterViewAsWritten(context)
  {
  }

  /** The view-change write as evidently intended: the block index is
      recorded under this node's own validator key, and every other entry
      is kept. */
  function SeenAfterView(context: ConsensusContext): (r: map<SeenKey, int>)
    requires context.block.index.Some?
    ensures !(0 <= context.myIndex < |context.validators|) ==> r == context.lastSeenMessage
    ensures 0 <= context.myIndex < |context.validators| ==>
      var own := ByValidator(context.validators[context.myIndex]);
      && r.Keys == context.lastSeenMessage.Keys + {own}
      && r[own] == context.block.index.value
      && forall key :: key in context.lastSeenMessage && key != own ==> r[key] == context.lastSeenMessage[key]
  {
    if 0 <= context.myIndex < |context.validators|
    then context.lastSeenMessage[ByValidator(context.validators[context.myIndex]) := context.block.index.value]
    else context.lastSeenMessage
  }

  // ---------------------------------------------------------------------
  // reset

  /** What `reset` reads from the blockchain. `previousNextConsensus` is the
      previous block's next consensus, absent when there is no previous
      block; `refreshCommittee` is `shouldRefreshCommittee(1)`. */
  datatype ChainState = ChainState(
    currentBlockIndex: nat,
    currentBlockHash: Hash,
    currentNextConsensus: Hash,
    previousNextConsensus: Option<Hash>,
    validators: seq<PublicKey>,
    nextBlockValidators: seq<PublicKey>,
    refreshCommittee: bool,
    messageMagic: int)

  /** `validatorsChanged`: never at the genesis block; otherwise the current
      and previous blocks' next consensus differ. A missing previous block
      is an error. */
  function ValidatorsChanged(chain: ChainState): (r: Result<bool, ConsensusError>)
    ensures r.Err? <==> chain.currentBlockIndex != 0 && chain.previousNextConsensus.None?
    ensures r.Err? ==> r.error == PreviousBlockMissing
    ensures r == Ok(true) <==>
      chain.currentBlockIndex != 0 && chain.previousNextConsensus.Some? && chain.previousNextConsensus.value != chain.currentNextConsensus
  {
    if chain.currentBlockIndex == 0 then Ok(false)
    else match chain.previousNextConsensus
      case None => Err(PreviousBlockMissing)
      case Some(previous) => Ok(chain.currentNextConsensus != previous)
  }

  /** The change-view payload kept for validator `i` when moving to view
      `viewNumber`: its payload if it asked for that view or a later one. */
  predicate KeepsChangeView(context: ConsensusContext, i: nat, viewNumber: nat) {
    i < |context.changeViewPayloads|
    && context.changeViewPayloads[i].Some?
    && context.changeViewPayloads[i].value.newViewNumber >= viewNumber
  }

  /** `reset` for a view after the first: the last change-view payloads are
      rebuilt in place, the primary moves, the block's merkle root,
      timestamp and transactions are cleared, preparation payloads are
      emptied, and this node records having been seen at the block index
      under its own validator key. `digest` gives the consensus data's hash and
      size for a primary index. */
  method ResetView(context: ConsensusContext, viewNumber: nat, digest: PrimaryIndex -> (Hash, nat))
    returns (r: Result<ConsensusContext, ConsensusError>)
    requires viewNumber > 0
    ensures r.Err? <==> context.block.index.None?
    ensures r.Err? ==> r.error == BlockIndexUndefined
    ensures r.Ok? ==>
      var c := r.value;
      && c.viewNumber == viewNumber
      && |c.lastChangeViewPayloads| == |context.lastChangeViewPayloads|
      && (forall i :: 0 <= i < |c.lastChangeViewPayloads| ==>
            c.lastChangeViewPayloads[i] == (if KeepsChangeView(context, i, viewNumber) then context.changeViewPayloads[i] else None))
      && c.block.consensusData.primaryIndex == PrimaryIndexOf(context, viewNumber).value
      && c.block.consensusData.hash == digest(c.block.consensusData.primaryIndex).0
      && c.block.consensusData.size == digest(c.block.consensusData.primaryIndex).1
      && c.block.merkleRoot.None? && c.block.timestamp == Some(0) && c.block.transactions.None?
      && c.block.(consensusData := context.block.consensusData, merkleRoot := context.block.merkleRoot,
                  timestamp := context.block.timestamp, transactions := context.block.transactions) == context.block
      && c.transactionHashes.None?
      && c.preparationPayloads == Undefineds(|context.validators|)
      && c.lastSeenMessage == SeenAfterView(context)
      && c.(viewNumber := context.viewNumber, lastChangeViewPayloads := context.lastChangeViewPayloads,
            block := context.block, transactionHashes := context.transactionHashes,
            preparationPayloads := context.preparationPayloads, lastSeenMessage := context.lastSeenMessage) == context
  {
    var n := |context.lastChangeViewPayloads|;
    var lastChangeViewPayloads := new Option<ChangeViewPayload>[n](i requires 0 <= i < n => context.lastChangeViewPayloads[i]);
    for i := 0 to n
      invariant forall j :: 0 <= j < i ==>
        lastChangeViewPayloads[j] == if KeepsChangeView(context, j, viewNumber) then context.changeViewPayloads[j] else None
    {
      if KeepsChangeView(context, i, viewNumber) {
        lastChangeViewPayloads[i] := context.changeViewPayloads[i];
      } else {
        lastChangeViewPayloads[i] := None;
      }
    }
    var primaryIndex := GetPrimaryIndex(context, viewNumber);
    if primaryIndex.Err? {
      return Err(primaryIndex.error);
    }
    var (hash, size) := digest(primaryIndex.value);
    var block := context.block.(
      consensusData := ConsensusData(primaryIndex.value, hash, size),
      merkleRoot := None, timestamp := Some(0), transactions := None);
    var lastSeenMessage := context.lastSeenMessage;
    if 0 <= context.myIndex < |context.validators| {
      lastSeenMessage := lastSeenMessage[ByValidator(context.validators[context.myIndex]) := context.block.index.value];
    }
    r := Ok(context.(
      viewNumber := viewNumber,
      lastChangeViewPayloads := lastChangeViewPayloads[..],
      block := block,
      transactionHashes := None,
      preparationPayloads := Undefineds(|context.validators|),
      lastSeenMessage := lastSeenMessage));
  }

  /** `reset` for view 0, the start of a new block: the validators become
      the next block's validators, whose payload arrays start empty; the
      witness size is recomputed when unknown or when the validator count
      changes; `lastSeenMessage` is rebuilt when the validators changed or
      when it is empty. `witnessSizeFor` and `consensusAddress` stand for
      the multi-signature witness size and `crypto.getConsensusAddress`;
      `publicKey` is this node's public key. */
  method ResetBlock(
    context: ConsensusContext, chain: ChainState, publicKey: PublicKey,
    witnessSizeFor: seq<PublicKey> -> nat, consensusAddress: seq<PublicKey> -> Hash)
    returns (r: Result<ConsensusContext, ConsensusError>)
    ensures r.Err? <==> ValidatorsChanged(chain).Err?
    ensures r.Err? ==> r.error == PreviousBlockMissing
    ensures r.Ok? ==>
      var c := r.value;
      var next := chain.nextBlockValidators;
      && c.validators == next
      && c.viewNumber == context.viewNumber
      && c.changeViewPayloads == Undefineds(|next|)
      && c.lastChangeViewPayloads == Undefineds(|next|)
      && c.commitPayloads == Undefineds(|next|)
      && (c.myIndex == -1 <==> publicKey !in next)
      && c.myIndex < |next|
      && (c.myIndex >= 0 ==> next[c.myIndex] == publicKey && forall j :: 0 <= j < c.myIndex ==> next[j] != publicKey)
      && c.witnessSize == (if context.witnessSize == 0 || |context.validators| != |next| then witnessSizeFor(next) else context.witnessSize)
      && c.lastSeenMessage == (if ValidatorsChanged(chain).value || |context.lastSeenMessage| == 0
           then LastSeenRefreshed(context.lastSeenMessage, next, chain.currentBlockIndex)
           else context.lastSeenMessage)
      && c.block.previousHash == Some(chain.currentBlockHash)
      && c.block.index == Some(chain.currentBlockIndex + 1)
      && c.block.nextConsensus == Some(consensusAddress(if chain.refreshCommittee then chain.validators else next))
      && c.block.merkleRoot.None?
      && c.block.messageMagic == Some(chain.messageMagic)
      && c.block.(previousHash := context.block.previousHash, index := context.block.index,
                  nextConsensus := context.block.nextConsensus, merkleRoot := context.block.merkleRoot,
                  messageMagic := context.block.messageMagic) == context.block
      && c.(block := context.block, validators := context.validators, witnessSize := context.witnessSize,
            myIndex := context.myIndex, changeViewPayloads := context.changeViewPayloads,
            lastChangeViewPayloads := context.lastChangeViewPayloads, commitPayloads := context.commitPayloads,
            lastSeenMessage := context.lastSeenMessage) == context
  {
    var next := chain.nextBlockValidators;
    var block := context.block.(
      previousHash := Some(chain.currentBlockHash),
      index := Some(chain.currentBlockIndex + 1),
      nextConsensus := Some(consensusAddress(if chain.refreshCommittee then chain.validators else next)),
      merkleRoot := None,
      messageMagic := Some(chain.messageMagic));
    var witnessSize := context.witnessSize;
    if witnessSize == 0 || |context.validators| != |next| {
      witnessSize := witnessSizeFor(next);
    }
    var changed := ValidatorsChanged(chain);
    if changed.Err? {
      return Err(changed.error);
    }
    var lastSeenMessage := context.lastSeenMessage;
    if changed.value || |context.lastSeenMessage| == 0 {
      lastSeenMessage := LastSeenRefreshed(context.lastSeenMessage, next, chain.currentBlockIndex);
    }
    r := Ok(context.(
      block := block,
      validators := next,
      witnessSize := witnessSize,
      myIndex := FindIndex(next, publicKey),
      changeViewPayloads := Undefineds(|next|),
      lastChangeViewPayloads := Undefineds(|next|),
      commitPayloads := Undefineds(|next|),
      lastSeenMessage := lastSeenMessage));
  }

  // ---------------------------------------------------------------------
  // getInitialContext

  /** `getInitialContext`: view 0 of the block after the current one, with
      the primary for that view, this node's position among the validators
      and no payloads yet. The fields the source leaves to the context's
      constructor start empty. `nowMs` stands for `Date.now()`. */
  function InitialContext(
    currentBlockIndex: nat, publicKey: PublicKey, validators: seq<PublicKey>, nowMs: int,
    digest: PrimaryIndex -> (Hash, nat)): (r: ConsensusContext)
    ensures r.viewNumber == 0 && r.witnessSize == 0 && r.validators == validators
    ensures r.block.index == Some(currentBlockIndex + 1) && r.block.version == 0
    ensures r.myIndex == -1 <==> publicKey !in validators
    ensures r.myIndex < |validators|
    ensures r.myIndex >= 0 ==> validators[r.myIndex] == publicKey && forall j :: 0 <= j < r.myIndex ==> validators[j] != publicKey
    ensures Ok(r.block.consensusData.primaryIndex) == PrimaryIndexOf(r, 0)
    ensures r.block.consensusData.primaryIndex.Num? ==> r.block.consensusData.primaryIndex.value < |validators|
  {
    var blockIndex := currentBlockIndex + 1;
    var primaryIndex := if |validators| == 0 then NaN else Num(blockIndex % |validators|);
    var (hash, size) := digest(primaryIndex);
    var block := BlockOptions(
      version := 0, index := Some(blockIndex), previousHash := None, merkleRoot := None,
      nextConsensus := None, messageMagic := None, timestamp := None,
      consensusData := ConsensusData(primaryIndex, hash, size), transactions := None);
    ConsensusContext(
      block := block, validators := validators, myIndex := FindIndex(validators, publicKey),
      viewNumber := 0, witnessSize := 0, blockReceivedTimeMs := nowMs,
      transactionHashes := None, transactions := [],
      preparationPayloads := [], commitPayloads := [], changeViewPayloads := [], lastChangeViewPayloads := [],
      lastSeenMessage := map[])
  }
}
