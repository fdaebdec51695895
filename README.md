# neo-one: local key store, wallet persistence and consensus context helpers

This project models three pieces of the neo-one TypeScript code base in Dafny and proves properties of the model.

- **`LocalKeyStore`** is the client's in-memory wallet registry. It is a two-level object from network name to address to wallet, together with the current account. A wallet is *locked* (it holds only its NEP-2 encrypted key) or *unlocked* (it holds the private key and, when known, the NEP-2 key). The store adds, renames, deletes, locks and unlocks wallets. It selects the current account, and it looks up wallets and private keys with typed errors. Adding, renaming and deleting an account write to the persistence layer before changing memory. Locking and unlocking change only the in-memory wallet, and selecting changes only the current account.
- **`LocalStringStore`** is that persistence layer. It writes each wallet to a string key/value storage under the key `network-address`. It never writes an unlocked wallet of the `main` network, and it refuses a `main` wallet that has no NEP-2 key.
- **The consensus context helpers** (`node-consensus/src/context/common.ts`) cover:
  - choosing the primary validator of a view;
  - the expected block size and system fee;
  - keeping the proposed transactions within the chain's maximum block size, system fee and transaction count;
  - ensuring the block header has a merkle root;
  - collecting at most `M` commit signatures for the proposed block;
  - resetting the context for a new view or a new block;
  - building the initial context.

Modules:

- `Wrappers` holds `Option`, `Result` and `Outcome`.
- `Records` models a JavaScript object as an insertion-ordered list of entries. `{...o, [k]: v}` is `Put`: it replaces the value in place or appends a new entry. Dropping a key through a rest pattern is `Remove`.
- `WalletTypes` holds the wallet records and errors. `StringStore` holds the class `LocalStringStore`, and `KeyStore` holds the class `LocalKeyStore`.
- `ConsensusTypes` holds the fields of `ConsensusContext` the helpers read and write.
- `BlockSize` holds the size and fee arithmetic and `ensureMaxBlockLimitation`. `ConsensusCommon` holds the rest of `common.ts`.

Each of the two stores is a class whose fields the methods reassign. Each method's `ensures` states the new state exactly, as a function of the old state. The lemmas beside those functions state what the source promises. For example:

- a lookup after an update reads the new wallet, and every other account reads as before;
- the registry stays well formed;
- nothing unlocked is ever persisted for `main`.

The pure helpers of `common.ts` are functions. Each is paired with a reference definition or a characterising lemma. For example, the transaction limitation accepts exactly the longest fitting prefix, and the primary moves back one validator per view. The source's two loops become methods with loop invariants, each proved against a specification function:

- the signature loop of `createBlock`;
- the in-place rebuild of the last change-view payloads in `reset`.

The `let` and the negative fix-up of `getPrimaryIndex` become the method `GetPrimaryIndex`, proved equal to the function `PrimaryIndexOf`.

## Model

| member | source | states |
|---|---|---|
| Records.GetPut | packages/neo-one-client-core/src/user/keystore/LocalKeyStore.ts:386-392 | after `{...o, [k]: v}`, key `k` reads `v` and every other key reads as before |
| Records.GetRemove | packages/neo-one-client-core/src/user/keystore/LocalKeyStore.ts:276 | after the rest pattern drops `k`, `k` is absent and every other key reads as before |
| KeyStore.PrivateKeyOf | packages/neo-one-client-core/src/user/keystore/LocalKeyStore.ts:371-382 | the private key is returned exactly when the wallet exists and is unlocked; a locked wallet gives `LockedAccountError` and a missing one `UnknownAccountError`, both with the address |
| KeyStore.WithWallet | packages/neo-one-client-core/src/user/keystore/LocalKeyStore.ts:384-393 | after the nested spread, the wallet's own account reads that wallet |
| KeyStore.WithoutWallet | packages/neo-one-client-core/src/user/keystore/LocalKeyStore.ts:270-286 | after the rest pattern drops the address, the account is unknown |
| KeyStore.Flatten | packages/neo-one-client-core/src/user/keystore/LocalKeyStore.ts:45-50 | every wallet stored under any network and address is listed |
| KeyStore.FirstAccount | packages/neo-one-client-core/src/user/keystore/LocalKeyStore.ts:395-400 | no account is picked only when every network is empty |
| KeyStore.FromList | packages/neo-one-client-core/src/user/keystore/LocalKeyStore.ts:356-366 | every account in the list can be looked up in the reduced registry |
| KeyStore.LookupWallet | packages/neo-one-client-core/src/user/keystore/LocalKeyStore.ts:166-178 | the only failure of `getWallet` is `UnknownAccountError` carrying the address |
| KeyStore.LookupFindsOwnAccount | packages/neo-one-client-core/src/user/keystore/LocalKeyStore.ts:166-178 | in a well-formed registry, the wallet found for an account has that account's id |
| KeyStore.LookupWithWallet | packages/neo-one-client-core/src/user/keystore/LocalKeyStore.ts:384-393 | after `updateWallet(w)`, `w`'s account reads `w`; every other network and address reads as before |
| KeyStore.WithWalletWellFormed | packages/neo-one-client-core/src/user/keystore/LocalKeyStore.ts:384-393 | `updateWallet` keeps keys distinct at both levels and keeps every wallet under its own network and address |
| KeyStore.LookupWithoutWallet | packages/neo-one-client-core/src/user/keystore/LocalKeyStore.ts:270-286 | after deleting an account it is unknown; every other account reads as before |
| KeyStore.WithoutWalletWellFormed | packages/neo-one-client-core/src/user/keystore/LocalKeyStore.ts:270-286 | deleting an account keeps the registry well formed |
| KeyStore.FlattenAt | packages/neo-one-client-core/src/user/keystore/LocalKeyStore.ts:45-50 | `flattenWallets` lists exactly the wallets stored under some network and address |
| KeyStore.FlattenMembership | packages/neo-one-client-core/src/user/keystore/LocalKeyStore.ts:45-50 | a wallet is listed if and only if `getWallet` of its own account returns it |
| KeyStore.LookupIsListed | packages/neo-one-client-core/src/user/keystore/LocalKeyStore.ts:92-94 | every wallet `getWallet` finds is among `wallets` |
| KeyStore.ListedAreStored | packages/neo-one-client-core/src/user/keystore/LocalKeyStore.ts:92-94 | every listed wallet is the one `getWallet` returns for its account |
| KeyStore.FirstAccountIsStored | packages/neo-one-client-core/src/user/keystore/LocalKeyStore.ts:395-400 | the account `newCurrentAccount` picks belongs to a stored wallet; it picks none only when no account is stored |
| KeyStore.FromListLookup | packages/neo-one-client-core/src/user/keystore/LocalKeyStore.ts:356-366 | the reduce of `initWithWallets` stores, for each account, the last listed wallet with that account and nothing else, and is well formed |
| KeyStore.PrivateKeyAfterUpdate | packages/neo-one-client-core/src/user/keystore/LocalKeyStore.ts:371-393 | after storing a locked wallet `getPrivateKey` throws `LockedAccountError`; after storing an unlocked one it returns that wallet's key |
| KeyStore.Renamed | packages/neo-one-client-core/src/user/keystore/LocalKeyStore.ts:135-156 | the renamed wallet differs from the old one in `account.name` only: same kind, id, public key, NEP-2 key and private key |
| KeyStore.NewAccount | packages/neo-one-client-core/src/user/keystore/LocalKeyStore.ts:212-248 | fails unless a private key, or both a NEP-2 key and a password, are given. Otherwise: the key is valid; the account is derived from it; the name defaults to the address; the kept wallet is unlocked; the wallet handed to the store is locked exactly when a NEP-2 key is known. The NEP-2 key is the given one, or else the key encrypted under the password, or none without a password |
| KeyStore.MainnetAccountNeedsPassword | packages/neo-one-client-core/src/user/keystore/LocalKeyStore.ts:225-250 | on `main`, a private key without a password or NEP-2 key is refused by the store with `PasswordRequiredError` |
| KeyStore.MainnetAccountPersistedLocked | packages/neo-one-client-core/src/user/keystore/LocalKeyStore.ts:245-250 | whatever `addAccount` gets persisted on `main` is persisted locked and unchanged by the store |
| KeyStore.LocalKeyStore.constructor | packages/neo-one-client-core/src/user/keystore/LocalKeyStore.ts:62-82 | the registry is built from the store's wallets as `initWithWallets` builds it, and the current account is the first one |
| KeyStore.LocalKeyStore.GetWallet | packages/neo-one-client-core/src/user/keystore/LocalKeyStore.ts:166-178 | throws `UnknownAccountError(address)` when the network or the address is missing; otherwise returns the listed wallet of exactly that account, and every listed wallet of that account is found |
| KeyStore.LocalKeyStore.GetPrivateKey | packages/neo-one-client-core/src/user/keystore/LocalKeyStore.ts:371-382 | returns the key if and only if the wallet exists and is unlocked; throws `LockedAccountError` for a locked wallet and `UnknownAccountError` for a missing one |
| KeyStore.LocalKeyStore.Sign | packages/neo-one-client-core/src/user/keystore/LocalKeyStore.ts:96-118 | signs with the account's private key exactly when `getPrivateKey` succeeds, and otherwise fails with its error |
| KeyStore.LocalKeyStore.UserAccounts | packages/neo-one-client-core/src/user/keystore/LocalKeyStore.ts:88-90 | one account per listed wallet, in order, each the account of the wallet stored under it |
| KeyStore.LocalKeyStore.UpdateWallet | packages/neo-one-client-core/src/user/keystore/LocalKeyStore.ts:384-393 | the registry becomes the old one with the wallet put under its network and address, and stays well formed |
| KeyStore.LocalKeyStore.NewCurrentAccount | packages/neo-one-client-core/src/user/keystore/LocalKeyStore.ts:395-400 | the current account becomes that of the first listed wallet, or none |
| KeyStore.LocalKeyStore.InitWithWallets | packages/neo-one-client-core/src/user/keystore/LocalKeyStore.ts:356-369 | the registry becomes the reduce over the list, well formed, and the current account is re-chosen |
| KeyStore.LocalKeyStore.SelectUserAccount | packages/neo-one-client-core/src/user/keystore/LocalKeyStore.ts:120-128 | no id re-selects the first account; an unknown id fails and changes nothing; a known id selects that wallet's account |
| KeyStore.LocalKeyStore.UpdateUserAccountName | packages/neo-one-client-core/src/user/keystore/LocalKeyStore.ts:130-164 | an unknown account, or a wallet the store refuses, changes nothing. Otherwise the renamed wallet is saved in its persisted form and then replaces the old one in memory; the current account is untouched |
| KeyStore.LocalKeyStore.AddAccount | packages/neo-one-client-core/src/user/keystore/LocalKeyStore.ts:193-263 | any failure of key handling or of the store changes nothing. On success: the unlocked wallet is kept in memory; the store holds its persisted form; the current account is set only if none was set |
| KeyStore.LocalKeyStore.DeleteUserAccount | packages/neo-one-client-core/src/user/keystore/LocalKeyStore.ts:265-299 | a missing network or address changes nothing. Otherwise: only that address is removed, in memory and in storage; a current account equal to it is replaced by the first remaining account |
| KeyStore.LocalKeyStore.UnlockWallet | packages/neo-one-client-core/src/user/keystore/LocalKeyStore.ts:301-334 | an unknown account fails; an unlocked wallet is left as it is. A locked wallet becomes unlocked with the same account and NEP-2 key and the decrypted key; a wrong password changes nothing |
| KeyStore.LocalKeyStore.LockWallet | packages/neo-one-client-core/src/user/keystore/LocalKeyStore.ts:336-349 | an unknown account fails. A locked wallet, or one without a NEP-2 key, is left as it is. Otherwise the wallet becomes locked with the same account and NEP-2 key, and it no longer holds the private key |
| StringStore.SafeWallet | packages/neo-one-client-core/src/user/keystore/LocalStringStore.ts:21-32 | refused with `PasswordRequiredError` exactly for a `main` wallet without a NEP-2 key. A `main` wallet is otherwise written locked, with the same account and NEP-2 key; any other wallet is written unchanged |
| StringStore.StorageKey | packages/neo-one-client-core/src/user/keystore/LocalStringStore.ts:41-47 | for an address without `-`, the key `network-address` splits back into the account id at its last `-` |
| StringStore.KeyOf | packages/neo-one-client-core/src/user/keystore/LocalStringStore.ts:41-47 | `getKey` of a wallet splits back into that wallet's account id |
| StringStore.OtherWritesKeepKey | packages/neo-one-client-core/src/user/keystore/LocalStringStore.ts:21-39 | saves and deletes of other accounts leave what is stored under an account's key unchanged |
| StringStore.StoredIsListed | packages/neo-one-client-core/src/user/keystore/LocalStringStore.ts:14-19 | every wallet stored under a key is among the wallets `getWallets` returns |
| StringStore.StorageKeyInjective | packages/neo-one-client-core/src/user/keystore/LocalStringStore.ts:41-47 | two accounts whose addresses have no `-` share a storage key only if they are the same account |
| StringStore.SavePreservesInvariants | packages/neo-one-client-core/src/user/keystore/LocalStringStore.ts:21-35 | saving keeps every wallet under its own key and never leaves a `main` wallet unlocked |
| StringStore.DeletePreservesInvariants | packages/neo-one-client-core/src/user/keystore/LocalStringStore.ts:37-39 | deleting keeps both storage invariants and leaves the wallet's key absent |
| StringStore.SavedIsReadBack | packages/neo-one-client-core/src/user/keystore/LocalStringStore.ts:14-39 | a wallet saved, then followed by any saves and deletions of other accounts, is among the wallets read back, in its persisted form |
| StringStore.LocalStringStore.constructor | packages/neo-one-client-core/src/user/keystore/LocalStringStore.ts:12 | the store wraps the given storage |
| StringStore.LocalStringStore.GetWallets | packages/neo-one-client-core/src/user/keystore/LocalStringStore.ts:14-19 | one wallet per stored key, in key order |
| StringStore.LocalStringStore.SaveWallet | packages/neo-one-client-core/src/user/keystore/LocalStringStore.ts:21-35 | fails exactly when the wallet is refused, and then writes nothing; otherwise the persisted form is stored under the wallet's key and reads back |
| StringStore.LocalStringStore.DeleteWallet | packages/neo-one-client-core/src/user/keystore/LocalStringStore.ts:37-39 | removes only the wallet's key; every other key reads as before |
| ConsensusTypes.FindIndex | packages/neo-one-node-consensus/src/context/common.ts:352 | the first position of the key among the validators, or -1 exactly when it is absent |
| BlockSize.VarUIntSize | packages/neo-one-node-consensus/src/context/common.ts:44 | a variable-length integer takes 1, 3, 5 or 9 bytes; it takes 1 exactly below `0xfd` |
| BlockSize.ExpectedBlockSizeWithoutTransactions | packages/neo-one-node-consensus/src/context/common.ts:32-46 | the fixed header fields, the witness and the consensus data plus a 1 to 9 byte count; the count takes 1 byte exactly when fewer than `0xfc` transactions are expected |
| BlockSize.ExpectedBlockSize | packages/neo-one-node-consensus/src/context/common.ts:48-55 | the size without transactions plus the sizes of the present transactions: each present transaction's size is counted |
| BlockSize.ExpectedBlockSystemFee | packages/neo-one-node-consensus/src/context/common.ts:57-58 | the sum of the present transactions' fees: zero when all entries are `undefined`, and non-negative when every fee is |
| BlockSize.SumSizes | packages/neo-one-node-consensus/src/context/common.ts:53 | the size sum is at least every entry's size, an `undefined` entry counting 0 |
| BlockSize.SumFees | packages/neo-one-node-consensus/src/context/common.ts:58 | the fee sum is non-negative when every fee is, and zero when every entry is `undefined` |
| BlockSize.LimitStep | packages/neo-one-node-consensus/src/context/common.ts:147-184 | the running size always grows by the transaction's size; the transaction is accepted (hash appended, stored under its hash, fee added) exactly when both running totals stay within the maxima, and otherwise hashes and transactions are unchanged |
| BlockSize.Limit | packages/neo-one-node-consensus/src/context/common.ts:147-189 | the running size ends at the initial size plus every transaction's size, and at most one hash is accepted per transaction |
| BlockSize.VarUIntSizeMonotone | packages/neo-one-node-consensus/src/context/common.ts:44 | a larger count never takes fewer bytes |
| BlockSize.SumsAppend | packages/neo-one-node-consensus/src/context/common.ts:53-58 | the size and fee sums of two batches add up |
| BlockSize.ExpectedAfterNewEntry | packages/neo-one-node-consensus/src/context/common.ts:48-58 | one more transaction adds its size and its fee, and an `undefined` entry adds neither, to the expected block size and system fee |
| BlockSize.PresentSums | packages/neo-one-node-consensus/src/context/common.ts:53-58 | with every entry present, the expected sums are the batch's total size and fee |
| BlockSize.TableWithinLimits | packages/neo-one-node-consensus/src/context/common.ts:48-58 | a block holding a fitting batch has an expected size and system fee within the maxima |
| BlockSize.SliceTo | packages/neo-one-node-consensus/src/context/common.ts:144 | `slice(0, end)` is a prefix of the input, of length `end` capped at the input's length, counted from the back when `end` is negative |
| BlockSize.EnsureMaxBlockLimitation | packages/neo-one-node-consensus/src/context/common.ts:133-198 | the returned context defines the transaction hashes; only the hashes and the transactions change |
| BlockSize.FittingCountIsLongest | packages/neo-one-node-consensus/src/context/common.ts:147-189 | a non-empty prefix fits both maxima exactly when it is no longer than the fitting count |
| BlockSize.LimitAcceptsFittingPrefix | packages/neo-one-node-consensus/src/context/common.ts:147-189 | the reduce accepts exactly the longest fitting prefix, in input order. Its running size counts every transaction, rejected or not, and after a rejection a running total stays over a maximum |
| BlockSize.PutAllIsTable | packages/neo-one-node-consensus/src/context/common.ts:174-178 | with distinct hashes, putting each transaction in turn appends one entry per hash |
| BlockSize.AcceptedIsLongestFittingPrefix | packages/neo-one-node-consensus/src/context/common.ts:144-189 | the accepted transactions come first in the input, number at most `maxTransactionsPerBlock`, and form the longest prefix that fits |
| BlockSize.LimitedContextHoldsAccepted | packages/neo-one-node-consensus/src/context/common.ts:191-197 | the returned context lists the accepted hashes in order and holds each accepted transaction under its hash |
| BlockSize.LimitedBlockWithinLimits | packages/neo-one-node-consensus/src/context/common.ts:133-198 | a block built from a non-empty accepted batch stays within the maximum size and system fee, and holds exactly the accepted transactions |
| BlockSize.BlockTransactions | packages/neo-one-node-consensus/src/context/common.ts:107-112 | fails with 'this should have already been defined' exactly when the transaction hashes are undefined |
| BlockSize.CollectTable | packages/neo-one-node-consensus/src/context/common.ts:107-109 | looking up a prefix of the hashes of distinct transactions gives that prefix of the transactions |
| BlockSize.CollectAll | packages/neo-one-node-consensus/src/context/common.ts:107-109 | distinct transactions looked up by their own hashes come back whole and in order |
| ConsensusCommon.JsRemainder | packages/neo-one-node-consensus/src/context/common.ts:67 | JavaScript's remainder lies in `[0, n)` for a non-negative dividend and in `(-n, 0]` for a negative one |
| ConsensusCommon.PrimaryIndexOf | packages/neo-one-node-consensus/src/context/common.ts:60-73 | an undefined block index throws; no validators gives `NaN`; otherwise the primary is a position below the validator count |
| ConsensusCommon.GetPrimaryIndex | packages/neo-one-node-consensus/src/context/common.ts:60-73 | the truncating remainder, with `n` added when it is negative, is the residue of `index - viewNumber` |
| ConsensusCommon.PrimaryIndexCongruent | packages/neo-one-node-consensus/src/context/common.ts:67-72 | the primary differs from `index - viewNumber` by a whole number of rounds of the validators |
| ConsensusCommon.PrimaryRotates | packages/neo-one-node-consensus/src/context/common.ts:67-72 | the next view's primary is the previous validator, wrapping from the first to the last |
| ConsensusCommon.EnsureHeader | packages/neo-one-node-consensus/src/context/common.ts:118-131 | there is a block exactly when the hashes are defined, and it always has a merkle root. A missing root becomes the root over the consensus data's hash followed by the transaction hashes; nothing else changes |
| ConsensusCommon.EnsureHeaderIdempotent | packages/neo-one-node-consensus/src/context/common.ts:118-131 | ensuring the header twice is ensuring it once |
| ConsensusCommon.EligibleCommits | packages/neo-one-node-consensus/src/context/common.ts:90-104 | among the first `n` validators, at most `n` signatures, each from a position below `n` |
| ConsensusCommon.LastCommit | packages/neo-one-node-consensus/src/context/common.ts:91-103 | a validator contributes at most one signature, carrying its own position |
| ConsensusCommon.EligibleCommitsAreCurrent | packages/neo-one-node-consensus/src/context/common.ts:91-102 | each collected signature comes from a commit of the context's view by the validator at its position |
| ConsensusCommon.EligibleCommitsAscending | packages/neo-one-node-consensus/src/context/common.ts:90 | collected signatures are in strictly increasing validator order |
| ConsensusCommon.EligibleCommitsComplete | packages/neo-one-node-consensus/src/context/common.ts:90-104 | no commit of the context's view is skipped |
| ConsensusCommon.CollectCommitSignatures | packages/neo-one-node-consensus/src/context/common.ts:90-104 | the loop yields the first `M` of the eligible signatures |
| ConsensusCommon.CollectedSignatures | packages/neo-one-node-consensus/src/context/common.ts:90-104 | at most `M` signatures, each a commit of the current view, in ascending validator order; fewer than `M` only when every such commit was taken |
| ConsensusCommon.CreateBlock | packages/neo-one-node-consensus/src/context/common.ts:75-116 | an undefined previous hash or undefined transaction hashes throws, and the block is built otherwise. It carries the signatures collected after the header is ensured and the transactions listed by hash |
| ConsensusCommon.LastSeenAsWritten | packages/neo-one-node-consensus/src/context/common.ts:260-274 | as written, the refreshed map holds at most the literal key `validatorHex`, carrying the last validator's value |
| ConsensusCommon.LastSeenAsWrittenDropsValidators | packages/neo-one-node-consensus/src/context/common.ts:260-274 | as written, two new validators never seen before are both missing from the refreshed map |
| ConsensusCommon.LastSeenRefreshed | packages/neo-one-node-consensus/src/context/common.ts:260-274 | as intended, the refreshed map keys exactly the new validators, each at its last-seen index or the current block index |
| ConsensusCommon.ValidatorsChanged | packages/neo-one-node-consensus/src/context/common.ts:200-213 | never at block 0; a missing previous block throws; otherwise a change is reported exactly when the current and previous next consensus differ |
| ConsensusCommon.SeenAfterViewAsWritten | packages/neo-one-node-consensus/src/context/common.ts:318-321 | as written, the view-change write goes under this node's position, so what is recorded for every validator key is unchanged |
| ConsensusCommon.SeenAfterViewAsWrittenMissesSelf | packages/neo-one-node-consensus/src/context/common.ts:318-321 | as written, a node not seen before is still not recorded under its own validator key after the view change |
| ConsensusCommon.SeenAfterView | packages/neo-one-node-consensus/src/context/common.ts:318-321 | as intended, the block index is recorded under this node's own validator key and every other entry is kept |
| ConsensusCommon.ResetView | packages/neo-one-node-consensus/src/context/common.ts:293-332 | each last change-view payload is kept exactly when it asks for this view or a later one; the array keeps its length. The primary moves to the view's; merkle root, timestamp, transactions, hashes and preparation payloads are cleared. This node is marked seen under its own validator key (the corrected write); nothing else changes |
| ConsensusCommon.ResetBlock | packages/neo-one-node-consensus/src/context/common.ts:226-291 | the validators become the next block's, with empty payload arrays and this node's first position (or -1). The witness size is recomputed when unknown or when the count changes; `lastSeenMessage` is refreshed when the validators changed or it is empty. The block options point at the next block; the view, the other block options, the preparation payloads, the transaction hashes and transactions and the receive time are kept |
| ConsensusCommon.InitialContext | packages/neo-one-node-consensus/src/context/common.ts:339-369 | view 0 of the next block, witness size 0, this node's first position among the validators or -1, and the primary of view 0 |

## Left out

- The observable plumbing of `LocalKeyStore` is not modelled: `BehaviorSubject`, `distinctUntilChanged`, `getWallet$`, monitor spans and `initPromise`. The class holds the current values of the two subjects. The constructor gives the state once `init()` (LocalKeyStore.ts:351-354) has completed. `LocalStringStore` has no `getWalletsSync`, so that branch of the constructor is not modelled.
- `LocalKeyStore` is modelled over `LocalStringStore` as its store. Other implementations of the `Store` interface are not part of this model.
- Cryptography is not modelled. NEP-2 encryption and decryption (the NEP-2 standard), key derivation, address derivation, `args.assertPrivateKey` and message signing are function-valued parameters. A failed decryption is `None`; a rejected key is `InvalidPrivateKey`. Hex decoding of the signed message is part of the `sign` parameter.
- Asynchrony is not modelled. Calls run to completion one at a time, so interleaved calls on the same store are not captured.
- `JSON.stringify` and `JSON.parse` are taken as the identity: the storage maps keys to wallets rather than to strings.
- Storage failures are not modelled: `setItem`, `removeItem`, `getItem` and `getAllKeys` always succeed.
- `getAllKeys` is taken to list keys in insertion order; the `Storage` interface promises no order.
- Object key order is insertion order. JavaScript lists integer-like keys first; Base58 addresses are never integer-like, and network names are assumed not to be integer-like (a private network may be named freely).
- StringStore.StorageKeyInjective: assumes the address contains no `-`, as Base58 addresses never do. A network name may contain one.
- StringStore.SavedIsReadBack: holds for accounts whose addresses contain no `-`, for the same reason.
- The foreign consensus code is not part of this model:
  - `getBlockScriptHashesForVerifying`;
  - `ContractParametersContext` and the witness it produces;
  - `AccountContract.createMultiSigContract`;
  - `MerkleTree.computeRoot`;
  - `crypto.getConsensusAddress`;
  - the witness-size computation.

  Merkle root, consensus address and witness size are function-valued parameters. `CreateBlock` returns the signatures it collected rather than a witness.
- The comparison `scriptHashes === [undefined]` (common.ts line 83) compares against a fresh array literal and is always false, so it is not modelled.
- The consensus data's hash and serialized size are derived by the block builder, which is not part of this model. They come from a `digest` parameter applied to the primary index.
- `ConsensusContext.clone` is not part of this model. A clone with `blockOptions` is taken to replace only the fields named, keeping the rest.
- The verification context and its `addTransaction` calls are not modelled. Neither is the blockchain's async reads of the maxima, the validators or the chain state, which become parameters (`ChainState`).
- `context.M` is the parameter `m` of `CreateBlock`; `getM` is not part of this model.
- `Date.now()` is the parameter `nowMs` of `InitialContext`.
- Block sizes, fees and indices are unbounded integers. `BN` is arbitrary precision, and the sizes are far below 2^53.
- `reset` is modelled as two methods, one per branch on `viewNumber === 0`: `ResetBlock` for view 0 and `ResetView` for the others.
- Payload arrays hold typed messages (commit, change-view, preparation). A payload whose message has another type is not modelled.
- `saveContext` only throws 'not implemented'. It is not modelled.
- `IOHelper.sizeOfVarUIntLE` is not part of this model. `VarUIntSize` follows Neo's variable-length integer encoding.
- BlockSize.FittingCountIsLongest: assumes non-negative system fees. With a negative fee a longer prefix can fit where a shorter one does not.
- BlockSize.LimitAcceptsFittingPrefix: assumes non-negative system fees. With a negative fee the reduce can accept a transaction after rejecting one, so the accepted set need not be a prefix.
- BlockSize.AcceptedIsLongestFittingPrefix: assumes non-negative system fees, for the same reason.
- BlockSize.LimitedContextHoldsAccepted: assumes non-negative system fees, and distinct hashes for the table (a repeated hash would overwrite its entry).
- BlockSize.LimitedBlockWithinLimits: assumes non-negative fees and distinct hashes. It bounds the block only when at least one transaction is accepted: an empty block's fixed size is not compared with the maximum.
- ConsensusCommon.ResetView: requires a view after the first, which is the branch of `reset` it models. It records this node under its validator key (`SeenAfterView`), not under its position as written.
- ConsensusCommon.ResetBlock: refreshes `lastSeenMessage` with the corrected reduce (`LastSeenRefreshed`), not the literal-key reduce as written.

## Findings

| source | as written | input that shows it | evidently intended | confidence | as-written member | corrected member |
|---|---|---|---|---|---|---|
| packages/neo-one-node-consensus/src/context/common.ts:260-274 | the reduce writes `{ ...acc, validatorHex: value }`, which sets the property literally named "validatorHex" on every step, so the refreshed `lastSeenMessage` has at most that one key | validators `02aa`, `03bb`, an empty `lastSeenMessage` and current block index 7 give `{ validatorHex: 7 }`, with neither validator recorded (`LastSeenAsWrittenDropsValidators`) | `{ ...acc, [validatorHex]: value }`: one entry per new validator, at its previous index or the current block index (`LastSeenRefreshed`); `ResetBlock` uses this version | not executed | ConsensusCommon.LastSeenAsWritten | ConsensusCommon.LastSeenRefreshed |
| packages/neo-one-node-consensus/src/context/common.ts:318-321 | the view change writes `mutableLastSeenMessage[context.myIndex]`, keying the entry by this node's position, while the block reset keys entries by validator hex | this node at position 0 and not yet in `lastSeenMessage`: after the view change its validator key is still absent (`SeenAfterViewAsWrittenMissesSelf`) | the entry keyed by this node's validator key (`SeenAfterView`); `ResetView` uses this version | not executed | ConsensusCommon.SeenAfterViewAsWritten | ConsensusCommon.SeenAfterView |
