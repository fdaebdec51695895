/** `LocalKeyStore`: the in-memory registry of wallets, a two-level object
    from network to address to wallet, together with the current account.
    The observable plumbing around the two pieces of state is left out: the
    class holds their current values. The persistent store it writes through
    is a `LocalStringStore`. */
module KeyStore {
  import opened Wrappers
  import opened Records
  import opened WalletTypes
  import opened StringStore

  /** `Wallets`: network -> address -> wallet, both levels in insertion order. */
  type Wallets = Record<NetworkType, Record<Address, Wallet>>

  /** The wallets of one network; `{}` when the network has none. */
  function NetworkWallets(wallets: Wallets, network: NetworkType): Record<Address, Wallet> {
    Get(wallets, network).GetOr([])
  }

  /** Both levels have distinct keys and every wallet sits under its own
      network and address. */
  ghost predicate WellFormed(wallets: Wallets) {
    && DistinctKeys(wallets)
    && (forall i :: 0 <= i < |wallets| ==> DistinctKeys(wallets[i].value))
    && (forall i, j :: 0 <= i < |wallets| && 0 <= j < |wallets[i].value| ==>
          wallets[i].value[j].value.account.id == UserAccountId(wallets[i].key, wallets[i].value[j].key))
  }

  /** The lookup of `getWallet`. */
  function LookupWallet(wallets: Wallets, id: UserAccountId): (r: Result<Wallet, ClientError>)
    ensures r.Err? ==> r.error == UnknownAccount(id.address)
  {
    match Get(wallets, id.network)
    case None => Err(UnknownAccount(id.address))
    case Some(networkWallets) =>
      match Get(networkWallets, id.address)
      case None => Err(UnknownAccount(id.address))
      case Some(wallet) => Ok(wallet)
  }

  /** The lookup of `getPrivateKey`. */
  function PrivateKeyOf(wallets: Wallets, id: UserAccountId): (r: Result<PrivateKey, ClientError>)
    ensures r.Ok? <==> LookupWallet(wallets, id).Ok? && LookupWallet(wallets, id).value.Unlocked?
    ensures r.Ok? ==> r.value == LookupWallet(wallets, id).value.privateKey
    ensures LookupWallet(wallets, id).Ok? && r.Err? ==> r.error == LockedAccount(id.address)
    ensures LookupWallet(wallets, id).Err? ==> r == Err(UnknownAccount(id.address))
  {
    match LookupWallet(wallets, id)
    case Err(e) => Err(e)
    case Ok(Locked(_, _)) => Err(LockedAccount(id.address))
    case Ok(Unlocked(_, privateKey, _)) => Ok(privateKey)
  }

  /** The object `updateWallet` publishes. */
  function WithWallet(wallets: Wallets, wallet: Wallet): (r: Wallets)
    ensures LookupWallet(r, wallet.account.id) == Ok(wallet)
  {
    var id := wallet.account.id;
    var inner := Put(NetworkWallets(wallets, id.network), id.address, wallet);
    GetPut(wallets, id.network, inner, id.network);
    GetPut(NetworkWallets(wallets, id.network), id.address, wallet, id.address);
    Put(wallets, id.network, inner)
  }

  /** The object `deleteUserAccount` publishes, or the old one when the
      network or the address is missing. */
  function WithoutWallet(wallets: Wallets, id: UserAccountId): (r: Wallets)
    ensures LookupWallet(r, id) == Err(UnknownAccount(id.address))
  {
    match Get(wallets, id.network)
    case None => wallets
    case Some(networkWallets) =>
      if Get(networkWallets, id.address).None? then wallets
      else
        GetPut(wallets, id.network, Remove(networkWallets, id.address), id.network);
        GetRemove(networkWallets, id.address, id.address);
        Put(wallets, id.network, Remove(networkWallets, id.address))
  }

  /** `flattenWallets`: every wallet, network by network, in insertion order. */
  function Flatten(wallets: Wallets): (all: seq<Wallet>)
    ensures forall i, j :: 0 <= i < |wallets| && 0 <= j < |wallets[i].value| ==> wallets[i].value[j].value in all
  {
    if wallets == [] then []
    else
      var first := Values(wallets[0].value);
      var rest := Flatten(wallets[1..]);
      assert forall i, j :: 0 <= i < |wallets| && 0 <= j < |wallets[i].value| ==> wallets[i].value[j].value in first + rest by {
        forall i, j | 0 <= i < |wallets| && 0 <= j < |wallets[i].value|
          ensures wallets[i].value[j].value in first + rest
        {
          if i == 0 {
            assert first[j] == wallets[0].value[j].value;
          } else {
            assert wallets[1..][i - 1] == wallets[i];
          }
        }
      }
      first + rest
  }

  /** The account `newCurrentAccount` selects: that of the first wallet. */
  function FirstAccount(wallets: Wallets): (r: Option<UserAccount>)
    ensures r.None? ==> forall i :: 0 <= i < |wallets| ==> wallets[i].value == []
  {
    var all := Flatten(wallets);
    assert forall i :: 0 <= i < |wallets| && wallets[i].value != [] ==> wallets[i].value[0].value in all;
    if all == [] then None else Some(all[0].account)
  }

  /** The object `initWithWallets` builds: the reduce that stores each
      wallet under its network and address, a later wallet replacing an
      earlier one with the same account. */
  function FromList(list: seq<Wallet>): (r: Wallets)
    ensures forall k :: 0 <= k < |list| ==> LookupWallet(r, list[k].account.id).Ok?
  {
    if list == [] then []
    else
      var init := list[..|list| - 1];
      var last := list[|list| - 1];
      var before := FromList(init);
      assert forall k :: 0 <= k < |list| ==> LookupWallet(WithWallet(before, last), list[k].account.id).Ok? by {
        forall k | 0 <= k < |list| ensures LookupWallet(WithWallet(before, last), list[k].account.id).Ok? {
          LookupWithWallet(before, last, list[k].account.id);
          if k < |init| {
            assert init[k] == list[k];
          }
        }
      }
      WithWallet(before, last)
  }

  /** The last wallet of the list with the given account, if any. */
  function LastWithId(list: seq<Wallet>, id: UserAccountId): Result<Wallet, ClientError> {
    if list == [] then Err(UnknownAccount(id.address))
    else if list[|list| - 1].account.id == id then Ok(list[|list| - 1])
    else LastWithId(list[..|list| - 1], id)
  }

  /** The wallet `updateUserAccountName` builds: same kind, same keys. */
  function Renamed(wallet: Wallet, name: string): (r: Wallet)
    ensures r == wallet.(account := wallet.account.(name := name))
  {
    var account := UserAccount(wallet.account.id, name, wallet.account.publicKey);
    match wallet
    case Locked(_, nep2) => Locked(account, nep2)
    case Unlocked(_, privateKey, nep2) => Unlocked(account, privateKey, nep2)
  }

  /** The in-memory wallet of `addAccount` and the one it hands to the store. */
  datatype NewWallets = NewWallets(unlocked: Wallet, toSave: Wallet)

  /** The key handling of `addAccount`, up to the call to the store. */
  function NewAccount(
    network: NetworkType, privateKeyIn: Option<PrivateKey>, name: Option<string>,
    password: Option<string>, nep2In: Option<string>, crypto: Crypto): (r: Result<NewWallets, ClientError>)
    ensures privateKeyIn.None? && (nep2In.None? || password.None?) ==> r == Err(MissingKeyMaterial)
    ensures privateKeyIn.Some? ==> (r.Ok? <==> crypto.isPrivateKey(privateKeyIn.value))
    ensures privateKeyIn.None? && nep2In.Some? && password.Some? ==>
      (r.Ok? <==> crypto.decryptNEP2(nep2In.value, password.value).Some?
                  && crypto.isPrivateKey(crypto.decryptNEP2(nep2In.value, password.value).value))
    ensures r.Ok? ==> r.value.unlocked.Unlocked? && crypto.isPrivateKey(r.value.unlocked.privateKey)
    ensures r.Ok? && privateKeyIn.Some? ==> r.value.unlocked.privateKey == privateKeyIn.value
    ensures r.Ok? ==>
      var account := r.value.unlocked.account;
      && account.publicKey == crypto.privateKeyToPublicKey(r.value.unlocked.privateKey)
      && account.id == UserAccountId(network, crypto.publicKeyToAddress(account.publicKey))
      && account.name == name.GetOr(account.id.address)
    ensures r.Ok? && nep2In.Some? ==> r.value.unlocked.Nep2() == nep2In
    ensures r.Ok? && password.Some? ==> r.value.unlocked.Nep2().Some?
    ensures r.Ok? && nep2In.None? ==>
      r.value.unlocked.Nep2() == (if password.Some? then Some(crypto.encryptNEP2(r.value.unlocked.privateKey, password.value)) else None)
    ensures r.Ok? ==> r.value.toSave.account == r.value.unlocked.account
    ensures r.Ok? ==> r.value.toSave.Nep2() == r.value.unlocked.Nep2()
    ensures r.Ok? ==> (r.value.toSave.Locked? <==> r.value.unlocked.Nep2().Some?)
    ensures r.Ok? && r.value.toSave.Unlocked? ==> r.value.toSave == r.value.unlocked
  {
    var pk :=
      if privateKeyIn.Some? then Ok(privateKeyIn.value)
      else if nep2In.None? || password.None? then Err(MissingKeyMaterial)
      else match crypto.decryptNEP2(nep2In.value, password.value)
        case None => Err(DecryptionFailed)
        case Some(key) => Ok(key);
    if pk.Err? then Err(pk.error)
    else if !crypto.isPrivateKey(pk.value) then Err(InvalidPrivateKey)
    else
      var privateKey := pk.value;
      var publicKey := crypto.privateKeyToPublicKey(privateKey);
      var address := crypto.publicKeyToAddress(publicKey);
      var nep2 := if nep2In.None? && password.Some? then Some(crypto.encryptNEP2(privateKey, password.value)) else nep2In;
      var account := UserAccount(UserAccountId(network, address), name.GetOr(address), publicKey);
      var unlocked := Unlocked(account, privateKey, nep2);
      Ok(NewWallets(unlocked, if nep2.Some? then Locked(account, nep2.value) else unlocked))
  }

  // ---------------------------------------------------------------------
  // Properties of the registry

  /** After `updateWallet(wallet)` the wallet's own account reads the new
      wallet and every other account reads as before. */
  lemma LookupWithWallet(wallets: Wallets, wallet: Wallet, id: UserAccountId)
    ensures LookupWallet(WithWallet(wallets, wallet), id) ==
      if id == wallet.account.id then Ok(wallet) else LookupWallet(wallets, id)
  {
    var w := wallet.account.id;
    GetPut(wallets, w.network, Put(NetworkWallets(wallets, w.network), w.address, wallet), id.network);
    if id.network == w.network {
      GetPut(NetworkWallets(wallets, w.network), w.address, wallet, id.address);
    }
  }

  /** After deleting an account it is unknown, and every other account
      reads as before. */
  lemma LookupWithoutWallet(wallets: Wallets, id: UserAccountId, other: UserAccountId)
    ensures LookupWallet(WithoutWallet(wallets, id), other) ==
      if other == id then Err(UnknownAccount(other.address)) else LookupWallet(wallets, other)
  {
    match Get(wallets, id.network)
    case None =>
    case Some(networkWallets) =>
      if Get(networkWallets, id.address).Some? {
        GetPut(wallets, id.network, Remove(networkWallets, id.address), other.network);
        if other.network == id.network {
          GetRemove(networkWallets, id.address, other.address);
        }
      }
  }

  /** Every stored entry of one network's record is a wallet of that network. */
  lemma NetworkWalletsWellFormed(wallets: Wallets, network: NetworkType)
    requires WellFormed(wallets)
    ensures DistinctKeys(NetworkWallets(wallets, network))
    ensures forall j :: 0 <= j < |NetworkWallets(wallets, network)| ==>
      NetworkWallets(wallets, network)[j].value.account.id == UserAccountId(network, NetworkWallets(wallets, network)[j].key)
  {
    if Get(wallets, network).Some? {
      var i :| 0 <= i < |wallets| && wallets[i] == Entry(network, Get(wallets, network).value);
    }
  }

  /** `updateWallet` keeps the registry well formed. */
  lemma WithWalletWellFormed(wallets: Wallets, wallet: Wallet)
    requires WellFormed(wallets)
    ensures WellFormed(WithWallet(wallets, wallet))
  {
    var id := wallet.account.id;
    var inner := NetworkWallets(wallets, id.network);
    NetworkWalletsWellFormed(wallets, id.network);
    var inner' := Put(inner, id.address, wallet);
    PutKeepsDistinct(inner, id.address, wallet);
    PutEntries(inner, id.address, wallet);
    assert forall j :: 0 <= j < |inner'| ==> inner'[j].value.account.id == UserAccountId(id.network, inner'[j].key) by {
      forall j | 0 <= j < |inner'|
        ensures inner'[j].value.account.id == UserAccountId(id.network, inner'[j].key)
      {
        assert inner'[j] in inner';
        if inner'[j] != Entry(id.address, wallet) {
          var k :| 0 <= k < |inner| && inner[k] == inner'[j];
        }
      }
    }
    var outer := Put(wallets, id.network, inner');
    PutKeepsDistinct(wallets, id.network, inner');
    PutEntries(wallets, id.network, inner');
    forall i | 0 <= i < |outer|
      ensures DistinctKeys(outer[i].value)
      ensures forall j :: 0 <= j < |outer[i].value| ==>
        outer[i].value[j].value.account.id == UserAccountId(outer[i].key, outer[i].value[j].key)
    {
      assert outer[i] in outer;
      if outer[i] != Entry(id.network, inner') {
        var k :| 0 <= k < |wallets| && wallets[k] == outer[i];
      }
    }
  }

  /** `deleteUserAccount` keeps the registry well formed. */
  lemma WithoutWalletWellFormed(wallets: Wallets, id: UserAccountId)
    requires WellFormed(wallets)
    ensures WellFormed(WithoutWallet(wallets, id))
  {
    match Get(wallets, id.network)
    case None =>
    case Some(inner) =>
      if Get(inner, id.address).Some? {
        NetworkWalletsWellFormed(wallets, id.network);
        var inner' := Remove(inner, id.address);
        RemoveKeepsDistinct(inner, id.address);
        RemoveEntries(inner, id.address);
        assert forall j :: 0 <= j < |inner'| ==> inner'[j].value.account.id == UserAccountId(id.network, inner'[j].key) by {
          forall j | 0 <= j < |inner'|
            ensures inner'[j].value.account.id == UserAccountId(id.network, inner'[j].key)
          {
            assert inner'[j] in inner';
            var k :| 0 <= k < |inner| && inner[k] == inner'[j];
          }
        }
        var outer := Put(wallets, id.network, inner');
        PutKeepsDistinct(wallets, id.network, inner');
        PutEntries(wallets, id.network, inner');
        forall i | 0 <= i < |outer|
          ensures DistinctKeys(outer[i].value)
          ensures forall j :: 0 <= j < |outer[i].value| ==>
            outer[i].value[j].value.account.id == UserAccountId(outer[i].key, outer[i].value[j].key)
        {
          assert outer[i] in outer;
          if outer[i] != Entry(id.network, inner') {
            var k :| 0 <= k < |wallets| && wallets[k] == outer[i];
          }
        }
      }
  }

  /** A wallet found by `getWallet` belongs to the account asked for. */
  lemma LookupFindsOwnAccount(wallets: Wallets, id: UserAccountId)
    requires WellFormed(wallets)
    ensures LookupWallet(wallets, id).Ok? ==> LookupWallet(wallets, id).value.account.id == id
  {
    if LookupWallet(wallets, id).Ok? {
      NetworkWalletsWellFormed(wallets, id.network);
      var inner := NetworkWallets(wallets, id.network);
      var j :| 0 <= j < |inner| && inner[j] == Entry(id.address, LookupWallet(wallets, id).value);
    }
  }

  /** The flattened list holds exactly the wallets of the registry's entries. */
  lemma {:induction false} FlattenAt(wallets: Wallets, w: Wallet)
    ensures w in Flatten(wallets) <==>
      exists i, j :: 0 <= i < |wallets| && 0 <= j < |wallets[i].value| && wallets[i].value[j].value == w
  {
    if wallets != [] {
      FlattenAt(wallets[1..], w);
      var rest := wallets[1..];
      if w in Flatten(wallets) {
        if w in Values(wallets[0].value) {
          var j :| 0 <= j < |wallets[0].value| && Values(wallets[0].value)[j] == w;
          assert wallets[0].value[j].value == w;
        } else {
          assert w in Flatten(rest);
          var i, j :| 0 <= i < |rest| && 0 <= j < |rest[i].value| && rest[i].value[j].value == w;
          assert wallets[i + 1].value[j].value == w;
        }
      }
      if exists i, j :: 0 <= i < |wallets| && 0 <= j < |wallets[i].value| && wallets[i].value[j].value == w {
        var i, j :| 0 <= i < |wallets| && 0 <= j < |wallets[i].value| && wallets[i].value[j].value == w;
        if i == 0 {
          assert Values(wallets[0].value)[j] == w;
        } else {
          assert rest[i - 1].value[j].value == w;
        }
      }
    }
  }

  /** A wallet is in the flattened list exactly when `getWallet` of its
      own account returns it. */
  lemma FlattenMembership(wallets: Wallets, w: Wallet)
    requires WellFormed(wallets)
    ensures w in Flatten(wallets) <==> LookupWallet(wallets, w.account.id) == Ok(w)
  {
    FlattenAt(wallets, w);
    var id := w.account.id;
    if w in Flatten(wallets) {
      var i, j :| 0 <= i < |wallets| && 0 <= j < |wallets[i].value| && wallets[i].value[j].value == w;
      GetAt(wallets, i);
      GetAt(wallets[i].value, j);
    }
    if LookupWallet(wallets, id) == Ok(w) {
      var i :| 0 <= i < |wallets| && wallets[i] == Entry(id.network, Get(wallets, id.network).value);
      var inner := wallets[i].value;
      var j :| 0 <= j < |inner| && inner[j] == Entry(id.address, w);
      assert wallets[i].value[j].value == w;
    }
  }

  /** A wallet found by `getWallet` is one of the listed wallets. */
  lemma LookupIsListed(wallets: Wallets, id: UserAccountId)
    requires WellFormed(wallets)
    ensures LookupWallet(wallets, id).Ok? ==>
      LookupWallet(wallets, id).value.account.id == id && LookupWallet(wallets, id).value in Flatten(wallets)
  {
    LookupFindsOwnAccount(wallets, id);
    if LookupWallet(wallets, id).Ok? {
      FlattenMembership(wallets, LookupWallet(wallets, id).value);
    }
  }

  /** Every listed wallet is the one `getWallet` returns for its account. */
  lemma ListedAreStored(wallets: Wallets)
    requires WellFormed(wallets)
    ensures forall i :: 0 <= i < |Flatten(wallets)| ==>
      LookupWallet(wallets, Flatten(wallets)[i].account.id) == Ok(Flatten(wallets)[i])
  {
    forall i | 0 <= i < |Flatten(wallets)|
      ensures LookupWallet(wallets, Flatten(wallets)[i].account.id) == Ok(Flatten(wallets)[i])
    {
      FlattenMembership(wallets, Flatten(wallets)[i]);
    }
  }

  /** The account `newCurrentAccount` selects belongs to a stored wallet,
      and it selects none only when no account is stored. */
  lemma FirstAccountIsStored(wallets: Wallets)
    requires WellFormed(wallets)
    ensures FirstAccount(wallets).Some? ==>
      var a := FirstAccount(wallets).value;
      LookupWallet(wallets, a.id).Ok? && LookupWallet(wallets, a.id).value.account == a
    ensures FirstAccount(wallets).None? ==> forall id :: LookupWallet(wallets, id).Err?
  {
    if FirstAccount(wallets).Some? {
      FlattenMembership(wallets, Flatten(wallets)[0]);
    } else {
      forall id ensures LookupWallet(wallets, id).Err? {
        if LookupWallet(wallets, id).Ok? {
          LookupFindsOwnAccount(wallets, id);
          FlattenMembership(wallets, LookupWallet(wallets, id).value);
        }
      }
    }
  }

  /** `initWithWallets` stores, for each account, the last wallet of the
      list that has it, and nothing else; the result is well formed. */
  lemma {:induction false} FromListLookup(list: seq<Wallet>, id: UserAccountId)
    ensures LookupWallet(FromList(list), id) == LastWithId(list, id)
    ensures WellFormed(FromList(list))
  {
    if list != [] {
      var init := list[..|list| - 1];
      FromListLookup(init, id);
      LookupWithWallet(FromList(init), list[|list| - 1], id);
      WithWalletWellFormed(FromList(init), list[|list| - 1]);
    }
  }

  /** Locking through `updateWallet` makes `getPrivateKey` refuse the
      account, and unlocking makes it return the decrypted key. */
  lemma PrivateKeyAfterUpdate(wallets: Wallets, wallet: Wallet)
    ensures wallet.Locked? ==>
      PrivateKeyOf(WithWallet(wallets, wallet), wallet.account.id) == Err(LockedAccount(wallet.account.id.address))
    ensures wallet.Unlocked? ==>
      PrivateKeyOf(WithWallet(wallets, wallet), wallet.account.id) == Ok(wallet.privateKey)
  {
    LookupWithWallet(wallets, wallet, wallet.account.id);
  }

  /** `addAccount` on the main network with a private key and neither a
      password nor a NEP-2 key is refused by the store: nothing is added. */
  lemma MainnetAccountNeedsPassword(privateKey: PrivateKey, name: Option<string>, crypto: Crypto)
    requires NewAccount(MainNetwork, Some(privateKey), name, None, None, crypto).Ok?
    ensures SafeWallet(NewAccount(MainNetwork, Some(privateKey), name, None, None, crypto).value.toSave) == Err(PasswordRequired)
  {
  }

  /** Whatever `addAccount` hands to the store on the main network is
      persisted locked. */
  lemma MainnetAccountPersistedLocked(
    privateKeyIn: Option<PrivateKey>, name: Option<string>, password: Option<string>,
    nep2In: Option<string>, crypto: Crypto)
    requires NewAccount(MainNetwork, privateKeyIn, name, password, nep2In, crypto).Ok?
    ensures var nw := NewAccount(MainNetwork, privateKeyIn, name, password, nep2In, crypto).value;
      SafeWallet(nw.toSave).Ok? ==> SafeWallet(nw.toSave) == Ok(nw.toSave) && nw.toSave.Locked?
  {
  }

  // ---------------------------------------------------------------------
  // The class

  class LocalKeyStore {
    var wallets: Wallets
    var currentAccount: Option<UserAccount>
    const store: LocalStringStore

    ghost predicate Valid()
      reads this
    {
      WellFormed(wallets)
    }

    /** Builds the registry from the wallets the store holds (`init`). */
    constructor (store: LocalStringStore)
      ensures Valid()
      ensures this.store == store
      ensures wallets == FromList(Values(store.storage))
      ensures currentAccount == FirstAccount(wallets)
    {
      this.store := store;
      wallets := [];
      currentAccount := None;
      new;
      var list := store.GetWallets();
      assert list == Values(store.storage);
      InitWithWallets(list);
    }

    /** `getWallet`. */
    function GetWallet(id: UserAccountId): (r: Result<Wallet, ClientError>)
      reads this
      requires Valid()
      ensures r.Err? ==> r.error == UnknownAccount(id.address)
      ensures r.Ok? ==> r.value.account.id == id && r.value in Flatten(wallets)
      ensures forall w :: w in Flatten(wallets) && w.account.id == id ==> r == Ok(w)
    {
      LookupIsListed(wallets, id);
      assert forall w :: w in Flatten(wallets) && w.account.id == id ==> LookupWallet(wallets, id) == Ok(w) by {
        forall w | w in Flatten(wallets) && w.account.id == id
          ensures LookupWallet(wallets, id) == Ok(w)
        {
          FlattenMembership(wallets, w);
        }
      }
      LookupWallet(wallets, id)
    }

    /** `getPrivateKey`. */
    function GetPrivateKey(id: UserAccountId): (r: Result<PrivateKey, ClientError>)
      reads this
      requires Valid()
      ensures r.Ok? <==> GetWallet(id).Ok? && GetWallet(id).value.Unlocked?
      ensures r.Ok? ==> r.value == GetWallet(id).value.privateKey
      ensures GetWallet(id).Ok? && GetWallet(id).value.Locked? ==> r == Err(LockedAccount(id.address))
      ensures GetWallet(id).Err? ==> r == Err(UnknownAccount(id.address))
    {
      PrivateKeyOf(wallets, id)
    }

    /** `sign`: signs with the account's private key. */
    function Sign(id: UserAccountId, message: string, sign: (PrivateKey, string) -> string): (r: Result<string, ClientError>)
      reads this
      requires Valid()
      ensures r.Ok? <==> GetPrivateKey(id).Ok?
      ensures r.Ok? ==> r.value == sign(GetPrivateKey(id).value, message)
      ensures r.Err? ==> r.error == GetPrivateKey(id).error
    {
      match GetPrivateKey(id)
      case Err(e) => Err(e)
      case Ok(privateKey) => Ok(sign(privateKey, message))
    }

    /** `getUserAccounts`: the accounts of all wallets, in order. */
    function UserAccounts(): (accounts: seq<UserAccount>)
      reads this
      requires Valid()
      ensures |accounts| == |Flatten(wallets)|
      ensures forall i :: 0 <= i < |accounts| ==> LookupWallet(wallets, accounts[i].id) == Ok(Flatten(wallets)[i])
      ensures forall i :: 0 <= i < |accounts| ==>
        LookupWallet(wallets, accounts[i].id).Ok? && LookupWallet(wallets, accounts[i].id).value.account == accounts[i]
    {
      var all := Flatten(wallets);
      ListedAreStored(wallets);
      seq(|all|, i requires 0 <= i < |all| => all[i].account)
    }

    method UpdateWallet(wallet: Wallet)
      requires Valid()
      modifies this`wallets
      ensures Valid()
      ensures wallets == WithWallet(old(wallets), wallet)
    {
      WithWalletWellFormed(wallets, wallet);
      wallets := WithWallet(wallets, wallet);
    }

    method NewCurrentAccount()
      requires Valid()
      modifies this`currentAccount
      ensures Valid()
      ensures currentAccount == FirstAccount(wallets)
    {
      var all := Flatten(wallets);
      currentAccount := if all == [] then None else Some(all[0].account);
    }

    method InitWithWallets(list: seq<Wallet>)
      modifies this`wallets, this`currentAccount
      ensures Valid()
      ensures wallets == FromList(list)
      ensures currentAccount == FirstAccount(wallets)
    {
      FromListLookup(list, UserAccountId("", ""));
      wallets := FromList(list);
      NewCurrentAccount();
    }

    /** `selectUserAccount`: no id re-selects the first account. */
    method SelectUserAccount(id: Option<UserAccountId>) returns (r: Outcome<ClientError>)
      requires Valid()
      modifies this`currentAccount
      ensures Valid()
      ensures id.None? ==> r == Pass && currentAccount == FirstAccount(wallets)
      ensures id.Some? && GetWallet(id.value).Err? ==>
        r == Fail(UnknownAccount(id.value.address)) && currentAccount == old(currentAccount)
      ensures id.Some? && GetWallet(id.value).Ok? ==>
        r == Pass && currentAccount == Some(GetWallet(id.value).value.account)
    {
      if id.None? {
        currentAccount := None;
        NewCurrentAccount();
        return Pass;
      }
      match GetWallet(id.value)
      case Err(e) => return Fail(e);
      case Ok(wallet) =>
        currentAccount := Some(wallet.account);
        return Pass;
    }

    /** `updateUserAccountName`. */
    method UpdateUserAccountName(id: UserAccountId, name: string) returns (r: Outcome<ClientError>)
      requires Valid()
      modifies this, store
      ensures Valid()
      ensures currentAccount == old(currentAccount)
      ensures old(GetWallet(id)).Err? ==>
        r == Fail(UnknownAccount(id.address)) && wallets == old(wallets) && store.storage == old(store.storage)
      ensures old(GetWallet(id)).Ok? ==>
        var renamed := Renamed(old(GetWallet(id)).value, name);
        match SafeWallet(renamed)
        case Err(e) => r == Fail(e) && wallets == old(wallets) && store.storage == old(store.storage)
        case Ok(saved) =>
          && r == Pass
          && wallets == WithWallet(old(wallets), renamed)
          && store.storage == Put(old(store.storage), KeyOf(renamed), saved)
    {
      var found := GetWallet(id);
      if found.Err? {
        return Fail(found.error);
      }
      var wallet := found.value;
      var account := UserAccount(wallet.account.id, name, wallet.account.publicKey);
      var newWallet: Wallet;
      if wallet.Locked? {
        newWallet := Locked(account, wallet.nep2);
      } else {
        newWallet := Unlocked(account, wallet.privateKey, wallet.encryptedKey);
      }
      var saved := store.SaveWallet(newWallet);
      if saved.Fail? {
        return Fail(saved.error);
      }
      UpdateWallet(newWallet);
      r := Pass;
    }

    /** `addAccount`. */
    method AddAccount(
      network: NetworkType, privateKeyIn: Option<PrivateKey>, name: Option<string>,
      password: Option<string>, nep2In: Option<string>, crypto: Crypto) returns (r: Result<Wallet, ClientError>)
      requires Valid()
      modifies this, store
      ensures Valid()
      ensures match NewAccount(network, privateKeyIn, name, password, nep2In, crypto)
        case Err(e) =>
          r == Err(e) && wallets == old(wallets) && currentAccount == old(currentAccount)
          && store.storage == old(store.storage)
        case Ok(nw) =>
          match SafeWallet(nw.toSave)
          case Err(e) =>
            r == Err(e) && wallets == old(wallets) && currentAccount == old(currentAccount)
            && store.storage == old(store.storage)
          case Ok(saved) =>
            && r == Ok(nw.unlocked)
            && wallets == WithWallet(old(wallets), nw.unlocked)
            && store.storage == Put(old(store.storage), KeyOf(nw.toSave), saved)
            && currentAccount == if old(currentAccount).None? then Some(nw.unlocked.account) else old(currentAccount)
    {
      var pk := privateKeyIn;
      var nep2 := nep2In;
      if pk.None? {
        if nep2.None? || password.None? {
          return Err(MissingKeyMaterial);
        }
        pk := crypto.decryptNEP2(nep2.value, password.value);
        if pk.None? {
          return Err(DecryptionFailed);
        }
      }
      if !crypto.isPrivateKey(pk.value) {
        return Err(InvalidPrivateKey);
      }
      var privateKey := pk.value;
      var publicKey := crypto.privateKeyToPublicKey(privateKey);
      var address := crypto.publicKeyToAddress(publicKey);
      if nep2.None? && password.Some? {
        nep2 := Some(crypto.encryptNEP2(privateKey, password.value));
      }
      var account := UserAccount(UserAccountId(network, address), name.GetOr(address), publicKey);
      var unlockedWallet := Unlocked(account, privateKey, nep2);
      var wallet := unlockedWallet;
      if nep2.Some? {
        wallet := Locked(account, nep2.value);
      }
      var saved := store.SaveWallet(wallet);
      if saved.Fail? {
        return Err(saved.error);
      }
      UpdateWallet(unlockedWallet);
      if currentAccount.None? {
        currentAccount := Some(wallet.account);
      }
      return Ok(unlockedWallet);
    }

    /** `deleteUserAccount`: a missing network or address changes nothing. */
    method DeleteUserAccount(id: UserAccountId)
      requires Valid()
      modifies this, store
      ensures Valid()
      ensures wallets == WithoutWallet(old(wallets), id)
      ensures old(GetWallet(id)).Err? ==>
        store.storage == old(store.storage) && currentAccount == old(currentAccount)
      ensures old(GetWallet(id)).Ok? ==>
        && store.storage == Remove(old(store.storage), StorageKey(id))
        && currentAccount == if old(currentAccount).Some? && old(currentAccount).value.id == id
                             then FirstAccount(wallets) else old(currentAccount)
    {
      var networkWalletsIn := Get(wallets, id.network);
      if networkWalletsIn.None? {
        return;
      }
      var wallet := Get(networkWalletsIn.value, id.address);
      if wallet.None? {
        return;
      }
      LookupFindsOwnAccount(wallets, id);
      store.DeleteWallet(wallet.value);
      WithoutWalletWellFormed(wallets, id);
      wallets := Put(wallets, id.network, Remove(networkWalletsIn.value, id.address));
      if currentAccount.Some? && currentAccount.value.id.network == id.network
        && currentAccount.value.id.address == id.address
      {
        NewCurrentAccount();
      }
    }

    /** `unlockWallet`: an unlocked wallet is left as it is. */
    method UnlockWallet(id: UserAccountId, password: string, crypto: Crypto) returns (r: Outcome<ClientError>)
      requires Valid()
      modifies this`wallets
      ensures Valid()
      ensures old(GetWallet(id)).Err? ==> r == Fail(UnknownAccount(id.address)) && wallets == old(wallets)
      ensures old(GetWallet(id)).Ok? && old(GetWallet(id)).value.Unlocked? ==> r == Pass && wallets == old(wallets)
      ensures old(GetWallet(id)).Ok? && old(GetWallet(id)).value.Locked? ==>
        var w := old(GetWallet(id)).value;
        match crypto.decryptNEP2(w.nep2, password)
        case None => r == Fail(DecryptionFailed) && wallets == old(wallets)
        case Some(privateKey) =>
          r == Pass && wallets == WithWallet(old(wallets), Unlocked(w.account, privateKey, Some(w.nep2)))
    {
      var found := GetWallet(id);
      if found.Err? {
        return Fail(found.error);
      }
      var wallet := found.value;
      if wallet.Unlocked? {
        return Pass;
      }
      var privateKey := crypto.decryptNEP2(wallet.nep2, password);
      if privateKey.None? {
        return Fail(DecryptionFailed);
      }
      UpdateWallet(Unlocked(wallet.account, privateKey.value, Some(wallet.nep2)));
      r := Pass;
    }

    /** `lockWallet`: a locked wallet, or one without a NEP-2 key, is left as it is. */
    method LockWallet(id: UserAccountId) returns (r: Outcome<ClientError>)
      requires Valid()
      modifies this`wallets
      ensures Valid()
      ensures old(GetWallet(id)).Err? ==> r == Fail(UnknownAccount(id.address)) && wallets == old(wallets)
      ensures old(GetWallet(id)).Ok? ==>
        var w := old(GetWallet(id)).value;
        && r == Pass
        && (w.Locked? || w.Nep2().None? ==> wallets == old(wallets))
        && (w.Unlocked? && w.Nep2().Some? ==> wallets == WithWallet(old(wallets), Locked(w.account, w.Nep2().value)))
    {
      var found := GetWallet(id);
      if found.Err? {
        return Fail(found.error);
      }
      var wallet := found.value;
      if wallet.Locked? || wallet.Nep2().None? {
        return Pass;
      }
      UpdateWallet(Locked(wallet.account, wallet.Nep2().value));
      r := Pass;
    }
  }
}
