/** The wallet records shared by the local key store and its string-backed
    persistence, and the errors they throw. */
module WalletTypes {
  import opened Wrappers

  /** A network name such as "main", "test" or the name of a private network. */
  type NetworkType = string
  type Address = string
  /** A private key as a hex string (`BufferString`). */
  type PrivateKey = string
  type PublicKey = string

  /** The one network whose wallets are never persisted unlocked. */
  const MainNetwork: NetworkType := "main"

  datatype UserAccountId = UserAccountId(network: NetworkType, address: Address)

  datatype UserAccount = UserAccount(id: UserAccountId, name: string, publicKey: PublicKey)

  /** A locked wallet keeps only its NEP-2 encrypted key; an unlocked one
      holds the private key and, when known, the NEP-2 key as well. */
  datatype Wallet =
    | Locked(account: UserAccount, nep2: string)
    | Unlocked(account: UserAccount, privateKey: PrivateKey, encryptedKey: Option<string>)
  {
    /** `wallet.nep2`, which is `undefined` only on an unlocked wallet. */
    function Nep2(): Option<string> {
      match this
      case Locked(_, key) => Some(key)
      case Unlocked(_, _, key) => key
    }
  }

  datatype ClientError =
    | UnknownAccount(address: Address)      // UnknownAccountError
    | LockedAccount(address: Address)       // LockedAccountError
    | PasswordRequired                      // PasswordRequiredError
    | MissingKeyMaterial                    // 'Expected private key or password and NEP-2 key'
    | DecryptionFailed                      // decryptNEP2 rejected the password
    | InvalidPrivateKey                     // args.assertPrivateKey rejected the key

  /** The cryptography the key store calls into. NEP-2 decryption fails
      (`None`) on a wrong password; `isPrivateKey` is the check of
      `args.assertPrivateKey`. */
  datatype Crypto = Crypto(
    decryptNEP2: (string, string) -> Option<PrivateKey>,
    encryptNEP2: (PrivateKey, string) -> string,
    isPrivateKey: string -> bool,
    privateKeyToPublicKey: PrivateKey -> PublicKey,
    publicKeyToAddress: PublicKey -> Address)
}
