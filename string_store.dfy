/** `LocalStringStore`: persists wallets in a string key/value storage
    under the key `network-address`, and never writes an unlocked wallet of
    the main network. The storage is an ordered record from key to wallet;
    `JSON.stringify` and `JSON.parse` are treated as the identity. */
module StringStore {
  import opened Wrappers
  import opened Records
  import opened WalletTypes

  type Storage = Record<string, Wallet>

  /** The storage key of an account: `${network}-${address}`. An address
      without '-' (as every Base58 address is) can be read back from it. */
  function StorageKey(id: UserAccountId): (key: string)
    ensures '-' !in id.address ==> ParseStorageKey(key) == Some(id)
  {
    var key := id.network + "-" + id.address;
    if '-' in id.address then key
    else
      TailAfterDashOfKey(id.network, id.address);
      assert key[..|id.network|] == id.network;
      assert key[|key| - |id.address|..] == id.address;
      key
  }

  /** `getKey(wallet)`: the key names the wallet's own account. */
  function KeyOf(wallet: Wallet): (key: string)
    ensures '-' !in wallet.account.id.address ==> ParseStorageKey(key) == Some(wallet.account.id)
  {
    StorageKey(wallet.account.id)
  }

  /** The account a storage key names: the text before its last '-' is the
      network and the text after it the address; `None` without a '-'. */
  function ParseStorageKey(key: string): Option<UserAccountId> {
    var n := TailAfterDash(key);
    if n == |key| then None else Some(UserAccountId(key[..|key| - n - 1], key[|key| - n..]))
  }

  /** The form in which `saveWallet` writes a wallet: a wallet of the main
      network is written locked and must have a NEP-2 key; any other is
      written as it is. */
  function SafeWallet(wallet: Wallet): (r: Result<Wallet, ClientError>)
    ensures wallet.account.id.network != MainNetwork ==> r == Ok(wallet)
    ensures r.Err? <==> wallet.account.id.network == MainNetwork && wallet.Nep2().None?
    ensures r.Err? ==> r.error == PasswordRequired
    ensures r.Ok? && wallet.account.id.network == MainNetwork ==> r.value.Locked?
    ensures r.Ok? ==> r.value.account == wallet.account && r.value.Nep2() == wallet.Nep2()
  {
    if wallet.account.id.network == MainNetwork then
      match wallet.Nep2()
      case None => Err(PasswordRequired)
      case Some(nep2) => Ok(Locked(wallet.account, nep2))
    else Ok(wallet)
  }

  /** No main-network wallet is stored unlocked. */
  ghost predicate MainnetLocked(storage: Storage) {
    forall e :: e in storage && e.value.account.id.network == MainNetwork ==> e.value.Locked?
  }

  /** Every wallet is stored under its own key. */
  ghost predicate KeyedByAccount(storage: Storage) {
    forall e :: e in storage ==> e.key == KeyOf(e.value)
  }

  /** The number of characters after the last '-' of a string. */
  function TailAfterDash(s: string): (n: nat)
    ensures n <= |s|
  {
    if s == [] || s[|s| - 1] == '-' then 0 else 1 + TailAfterDash(s[..|s| - 1])
  }

  lemma {:induction false} TailAfterDashOfKey(prefix: string, address: Address)
    requires '-' !in address
    ensures TailAfterDash(prefix + "-" + address) == |address|
  {
    if address != [] {
      var s := prefix + "-" + address;
      var shorter := address[..|address| - 1];
      assert s[..|s| - 1] == prefix + "-" + shorter;
      assert s[|s| - 1] == address[|address| - 1];
      TailAfterDashOfKey(prefix, shorter);
    } else {
      assert (prefix + "-" + address)[|prefix|] == '-';
    }
  }

  /** Two accounts whose addresses have no '-' share a storage key only if
      they are the same account, so saving one wallet never overwrites
      another. (Base58 addresses have no '-'; network names may.) */
  lemma StorageKeyInjective(a: UserAccountId, b: UserAccountId)
    requires '-' !in a.address && '-' !in b.address
    requires StorageKey(a) == StorageKey(b)
    ensures a == b
  {
    assert ParseStorageKey(StorageKey(a)) == Some(a) && ParseStorageKey(StorageKey(b)) == Some(b);
  }

  /** Saving keeps both storage invariants: a main-network wallet is never
      stored unlocked, and every wallet stays under its own key. */
  lemma {:induction false} SavePreservesInvariants(storage: Storage, wallet: Wallet)
    requires MainnetLocked(storage) && KeyedByAccount(storage)
    requires SafeWallet(wallet).Ok?
    ensures MainnetLocked(Put(storage, KeyOf(wallet), SafeWallet(wallet).value))
    ensures KeyedByAccount(Put(storage, KeyOf(wallet), SafeWallet(wallet).value))
  {
    PutEntries(storage, KeyOf(wallet), SafeWallet(wallet).value);
  }

  /** Deleting keeps both storage invariants. */
  lemma {:induction false} DeletePreservesInvariants(storage: Storage, wallet: Wallet)
    requires MainnetLocked(storage) && KeyedByAccount(storage)
    ensures MainnetLocked(Remove(storage, KeyOf(wallet)))
    ensures KeyedByAccount(Remove(storage, KeyOf(wallet)))
    ensures Get(Remove(storage, KeyOf(wallet)), KeyOf(wallet)) == None
  {
    RemoveEntries(storage, KeyOf(wallet));
    GetRemove(storage, KeyOf(wallet), KeyOf(wallet));
  }

  /** One write to the storage: `saveWallet` or `deleteWallet` of a wallet. */
  datatype StorageOp = Save(wallet: Wallet) | Delete(wallet: Wallet)

  /** The storage after one write; a refused save writes nothing. */
  function ApplyOp(storage: Storage, op: StorageOp): Storage {
    match op
    case Save(w) => if SafeWallet(w).Ok? then Put(storage, KeyOf(w), SafeWallet(w).value) else storage
    case Delete(w) => Remove(storage, KeyOf(w))
  }

  /** The storage after a sequence of writes, in order. */
  function ApplyAll(storage: Storage, ops: seq<StorageOp>): Storage
    decreases ops
  {
    if ops == [] then storage else ApplyAll(ApplyOp(storage, ops[0]), ops[1..])
  }

  /** Writes of other accounts leave an account's key as it was. */
  lemma {:induction false} OtherWritesKeepKey(storage: Storage, ops: seq<StorageOp>, id: UserAccountId)
    requires '-' !in id.address
    requires forall i :: 0 <= i < |ops| ==> '-' !in ops[i].wallet.account.id.address && ops[i].wallet.account.id != id
    ensures Get(ApplyAll(storage, ops), StorageKey(id)) == Get(storage, StorageKey(id))
    decreases ops
  {
    if ops != [] {
      var w := ops[0].wallet;
      if KeyOf(w) == StorageKey(id) {
        StorageKeyInjective(w.account.id, id);
      }
      if ops[0].Save? {
        if SafeWallet(w).Ok? {
          GetPut(storage, KeyOf(w), SafeWallet(w).value, StorageKey(id));
        }
      } else {
        GetRemove(storage, KeyOf(w), StorageKey(id));
      }
      assert forall i :: 0 <= i < |ops[1..]| ==> ops[1..][i] == ops[i + 1];
      OtherWritesKeepKey(ApplyOp(storage, ops[0]), ops[1..], id);
    }
  }

  /** Whatever a key holds is among the wallets `getWallets` reads back. */
  lemma StoredIsListed(storage: Storage, key: string, wallet: Wallet)
    requires Get(storage, key) == Some(wallet)
    ensures wallet in Values(storage)
  {
    var i :| 0 <= i < |storage| && storage[i] == Entry(key, wallet);
    assert Values(storage)[i] == wallet;
  }

  /** A wallet that was saved, followed by any saves and deletions of other
      accounts, is among the wallets read back, in its persisted form. */
  lemma SavedIsReadBack(storage: Storage, wallet: Wallet, later: seq<StorageOp>)
    requires SafeWallet(wallet).Ok?
    requires '-' !in wallet.account.id.address
    requires forall i :: 0 <= i < |later| ==>
      '-' !in later[i].wallet.account.id.address && later[i].wallet.account.id != wallet.account.id
    ensures SafeWallet(wallet).value in Values(ApplyAll(storage, [Save(wallet)] + later))
  {
    var saved := ApplyOp(storage, Save(wallet));
    GetPut(storage, KeyOf(wallet), SafeWallet(wallet).value, KeyOf(wallet));
    assert ([Save(wallet)] + later)[1..] == later;
    OtherWritesKeepKey(saved, later, wallet.account.id);
    StoredIsListed(ApplyAll(saved, later), KeyOf(wallet), SafeWallet(wallet).value);
  }

  class LocalStringStore {
    var storage: Storage

    constructor (storage: Storage)
      ensures this.storage == storage
    {
      this.storage := storage;
    }

    /** One wallet per stored key, in the storage's key order. */
    method GetWallets() returns (wallets: seq<Wallet>)
      ensures |wallets| == |storage|
      ensures forall i :: 0 <= i < |storage| ==> wallets[i] == storage[i].value
    {
      wallets := Values(storage);
    }

    method SaveWallet(wallet: Wallet) returns (r: Outcome<ClientError>)
      modifies this
      ensures r.Fail? <==> SafeWallet(wallet).Err?
      ensures r.Fail? ==> r.error == PasswordRequired && storage == old(storage)
      ensures r.Pass? ==> storage == Put(old(storage), KeyOf(wallet), SafeWallet(wallet).value)
      ensures r.Pass? ==> Get(storage, KeyOf(wallet)) == Some(SafeWallet(wallet).value)
      ensures storage == ApplyOp(old(storage), Save(wallet))
    {
      var safeWallet := wallet;
      if wallet.account.id.network == MainNetwork {
        if wallet.Nep2().None? {
          return Fail(PasswordRequired);
        }
        safeWallet := Locked(wallet.account, wallet.Nep2().value);
      }
      storage := Put(storage, KeyOf(safeWallet), safeWallet);
      GetPut(old(storage), KeyOf(safeWallet), safeWallet, KeyOf(safeWallet));
      r := Pass;
    }

    method DeleteWallet(wallet: Wallet)
      modifies this
      ensures storage == Remove(old(storage), KeyOf(wallet))
      ensures storage == ApplyOp(old(storage), Delete(wallet))
      ensures forall k :: Get(storage, k) == if k == KeyOf(wallet) then None else Get(old(storage), k)
    {
      storage := Remove(storage, KeyOf(wallet));
      forall k ensures Get(storage, k) == if k == KeyOf(wallet) then None else Get(old(storage), k) {
        GetRemove(old(storage), KeyOf(wallet), k);
      }
    }
  }
}
