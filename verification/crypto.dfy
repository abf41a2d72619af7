/** The cryptographic library calls the wallet components make, as opaque total
    functions supplied by the caller. Nothing about them is assumed beyond being
    functions: the same inputs always give the same outputs. A call that can
    throw returns an Option, None standing for the exception. */
module Crypto {
  import opened Wrappers

  type Byte = bv8
  type Bytes = seq<Byte>

  datatype Crypto = Crypto(
    /** bip39 `validateMnemonic`: word count, word list and checksum. */
    validateMnemonic: string -> bool,
    /** bip39 `mnemonicToSeedSync` / `mnemonicToSeed`: PBKDF2 stretching to a 64-byte seed. */
    mnemonicToSeed: string -> Option<Bytes>,
    /** ed25519-hd-key `derivePath(path, seedHex).key`: SLIP-0010 hardened derivation. */
    slip10Derive: (string, Bytes) -> Option<Bytes>,
    /** tweetnacl `sign.keyPair.fromSeed(seed).secretKey`: the 64-byte Ed25519 secret key. */
    ed25519SecretKey: Bytes -> Bytes,
    /** @solana/web3.js `Keypair.fromSecretKey(secret).publicKey`. */
    solanaPublicKey: Bytes -> Option<Bytes>,
    /** bs58 `encode` (also behind `PublicKey.toBase58`). */
    base58: Bytes -> string,
    /** Node `Buffer.toString("hex")`. */
    hex: Bytes -> string,
    /** ethers `new Wallet(privateKey).address`: the EIP-55 checksummed address. */
    ethAddress: string -> Option<string>,
    /** ethers `HDNodeWallet.fromSeed(seed).derivePath(path).privateKey`: BIP-32 secp256k1 derivation. */
    bip32PrivateKey: (Bytes, string) -> Option<string>
  )

  /** The key material ed25519-hd-key derives for a phrase at a path: the
      phrase stretched to a seed, then SLIP-0010 derivation along the path.
      None when either call throws. */
  function Slip10Key(c: Crypto, mnemonic: string, path: string): (k: Option<Bytes>)
    ensures k.Some? <==> c.mnemonicToSeed(mnemonic).Some? && c.slip10Derive(path, c.mnemonicToSeed(mnemonic).value).Some?
    ensures k.Some? ==> k == c.slip10Derive(path, c.mnemonicToSeed(mnemonic).value)
  {
    match c.mnemonicToSeed(mnemonic)
    case None => None
    case Some(seed) => c.slip10Derive(path, seed)
  }
}
