/** The component `components/GenerateWallets.tsx` (the one the home page
    mounts): one account counter shared by a Solana button and an Ethereum
    button, the Solana public keys and Ethereum addresses derived so far, and
    the phrase they are derived from. Each button derives at the counter,
    appends one result and advances the counter. */
module GenerateWallets {
  import opened Wrappers
  import opened Text
  import opened HdPath
  import opened Crypto
  import WalletsGenerator

  datatype State = State(
    currentIndex: nat,
    publicKeys: seq<Bytes>,
    mnemonic: string,
    addresses: seq<string>
  )

  /** The state on mount: counter 0, no keys, empty phrase. */
  function Initial(): (s: State)
    ensures s.currentIndex == 0 && s.mnemonic == ""
    ensures s.publicKeys == [] && s.addresses == []
  {
    State(0, [], "", [])
  }

  datatype Network = Solana | Ethereum

  // ---------------------------------------------------------------------------
  // Paths
  // ---------------------------------------------------------------------------

  /** The Solana path: account index at the third level, change 0 after it. */
  function SolanaPath(index: nat): (p: string)
    ensures p == Format([44, 501, index, 0])
  {
    assert Decimal(44) == "44";
    assert Decimal(0) == "0";
    assert Decimal(50) == "50";
    assert Decimal(501) == "501";
    FormatFourLevels(44, 501, index, 0);
    SpelledOut("501", Decimal(index));
    "m/44'/501'/" + Decimal(index) + "'/0'"
  }

  /** The Ethereum path: the same shape with coin type 60. */
  function EthPath(index: nat): (p: string)
    ensures p == Format([44, 60, index, 0])
  {
    assert Decimal(44) == "44";
    assert Decimal(0) == "0";
    assert Decimal(60) == "60";
    FormatFourLevels(44, 60, index, 0);
    SpelledOut("60", Decimal(index));
    "m/44'/60'/" + Decimal(index) + "'/0'"
  }

  function CoinType(n: Network): nat {
    match n
    case Solana => 501
    case Ethereum => 60
  }

  function PathFor(n: Network, index: nat): string {
    match n
    case Solana => SolanaPath(index)
    case Ethereum => EthPath(index)
  }

  /** Both buttons derive at hardened levels 44, the coin type, the account
      index, 0. */
  lemma PathLevels(n: Network, index: nat)
    ensures Parse(PathFor(n, index)) == Some([44, CoinType(n), index, 0])
  {
    ParseFormat([44, CoinType(n), index, 0]);
  }

  lemma SpelledOut(coin: string, d: string)
    requires coin == "501" || coin == "60"
    ensures "m/44'/" + coin + "'/" + d + "'/0'" == "m/" + "44" + "'/" + coin + "'/" + d + "'/" + "0" + "'"
    ensures coin == "501" ==> "m/44'/501'/" + d + "'/0'" == "m/44'/" + coin + "'/" + d + "'/0'"
    ensures coin == "60" ==> "m/44'/60'/" + d + "'/0'" == "m/44'/" + coin + "'/" + d + "'/0'"
  {
  }

  /** Distinct (network, index) pairs derive at distinct paths. */
  lemma PathsDistinct(n1: Network, i1: nat, n2: Network, i2: nat)
    ensures PathFor(n1, i1) == PathFor(n2, i2) <==> n1 == n2 && i1 == i2
  {
    PathLevels(n1, i1);
    PathLevels(n2, i2);
  }

  /** This component and `WalletsGenerator` put the account index at different
      levels, so they agree on a path only for account 0. */
  lemma PathDiffersFromGenerator(n: Network, index: nat)
    ensures var tag := if n == Solana then WalletsGenerator.SolanaTag else WalletsGenerator.EthereumTag;
            PathFor(n, index) == WalletsGenerator.WalletPath(Some(tag), index) <==> index == 0
  {
    var tag := if n == Solana then WalletsGenerator.SolanaTag else WalletsGenerator.EthereumTag;
    PathLevels(n, index);
    WalletsGenerator.WalletPathLevels(tag, index);
  }

  // ---------------------------------------------------------------------------
  // Derivations
  // ---------------------------------------------------------------------------

  /** `solanaWallet`'s key pipeline: seed, SLIP-0010 derivation, Ed25519 key
      pair, public key. None when a library call throws. */
  function SolanaPublicKey(c: Crypto, mnemonic: string, path: string): (r: Option<Bytes>)
    ensures Slip10Key(c, mnemonic, path).None? ==> r.None?
    ensures Slip10Key(c, mnemonic, path).Some?
            ==> r == c.solanaPublicKey(c.ed25519SecretKey(Slip10Key(c, mnemonic, path).value))
  {
    match Slip10Key(c, mnemonic, path)
    case None => None
    case Some(derivedSeed) => c.solanaPublicKey(c.ed25519SecretKey(derivedSeed))
  }

  /** This button's Solana key pipeline is the one `WalletsGenerator` uses:
      at the same path and phrase, one succeeds exactly when the other does,
      and the generator's public key is the base58 text of this key. */
  lemma SolanaKeyAgreesWithGenerator(c: Crypto, mnemonic: string, accountIndex: nat)
    ensures var path := WalletsGenerator.WalletPath(Some(WalletsGenerator.SolanaTag), accountIndex);
            var w := WalletsGenerator.GenerateWalletFromMnemonic(c, Some(WalletsGenerator.SolanaTag), mnemonic, accountIndex);
            && (w.Some? <==> SolanaPublicKey(c, mnemonic, path).Some?)
            && (w.Some? ==> w.value.publicKey == c.base58(SolanaPublicKey(c, mnemonic, path).value))
  {
  }

  /** `ethWallet`'s key pipeline: seed, BIP-32 node, child private key,
      address. None when a library call throws. */
  function EthAddress(c: Crypto, mnemonic: string, path: string): (r: Option<string>)
    ensures r.Some? <==> && c.mnemonicToSeed(mnemonic).Some?
                         && c.bip32PrivateKey(c.mnemonicToSeed(mnemonic).value, path).Some?
                         && c.ethAddress(c.bip32PrivateKey(c.mnemonicToSeed(mnemonic).value, path).value).Some?
    ensures r.Some? ==> r == c.ethAddress(c.bip32PrivateKey(c.mnemonicToSeed(mnemonic).value, path).value)
  {
    match c.mnemonicToSeed(mnemonic)
    case None => None
    case Some(seed) =>
      match c.bip32PrivateKey(seed, path)
      case None => None
      case Some(privateKey) => c.ethAddress(privateKey)
  }

  /** `solanaWallet`: on success one public key is appended and the counter
      advances by one; a thrown exception leaves the state as it was. */
  function SolanaWallet(c: Crypto, s: State): (r: State)
    ensures r.mnemonic == s.mnemonic && r.addresses == s.addresses
    ensures r.currentIndex == s.currentIndex + 1
            <==> SolanaPublicKey(c, s.mnemonic, SolanaPath(s.currentIndex)).Some?
    ensures r.currentIndex == s.currentIndex + 1 ==>
              && |r.publicKeys| == |s.publicKeys| + 1
              && r.publicKeys[..|s.publicKeys|] == s.publicKeys
              && Some(r.publicKeys[|s.publicKeys|]) == SolanaPublicKey(c, s.mnemonic, SolanaPath(s.currentIndex))
    ensures r.currentIndex != s.currentIndex + 1 ==> r == s
  {
    match SolanaPublicKey(c, s.mnemonic, SolanaPath(s.currentIndex))
    case None => s
    case Some(publicKey) =>
      s.(currentIndex := s.currentIndex + 1, publicKeys := s.publicKeys + [publicKey])
  }

  /** `ethWallet`: on success one address is appended and the counter
      advances by one; a thrown exception leaves the state as it was. */
  function EthWallet(c: Crypto, s: State): (r: State)
    ensures r.mnemonic == s.mnemonic && r.publicKeys == s.publicKeys
    ensures r.currentIndex == s.currentIndex + 1
            <==> EthAddress(c, s.mnemonic, EthPath(s.currentIndex)).Some?
    ensures r.currentIndex == s.currentIndex + 1 ==>
              && |r.addresses| == |s.addresses| + 1
              && r.addresses[..|s.addresses|] == s.addresses
              && Some(r.addresses[|s.addresses|]) == EthAddress(c, s.mnemonic, EthPath(s.currentIndex))
    ensures r.currentIndex != s.currentIndex + 1 ==> r == s
  {
    match EthAddress(c, s.mnemonic, EthPath(s.currentIndex))
    case None => s
    case Some(address) =>
      s.(currentIndex := s.currentIndex + 1, addresses := s.addresses + [address])
  }

  /** `generateNewMnmonic`; `generated` is what bip39 `generateMnemonic`
      returns on this call. Only the phrase changes. */
  function GenerateNewMnemonic(s: State, generated: string): (r: State)
    ensures r.mnemonic == generated
    ensures r.currentIndex == s.currentIndex
    ensures r.publicKeys == s.publicKeys && r.addresses == s.addresses
  {
    s.(mnemonic := generated)
  }

  // ---------------------------------------------------------------------------
  // Button presses over time
  // ---------------------------------------------------------------------------

  datatype Press = Derive(network: Network) | GenerateButton(generated: string)

  /** How the Generate button reaches its handler: as the component wires it,
      or with the handler actually called. */
  datatype Wiring = AsWritten | Corrected

  /** One successful derivation: which button, which account, which path,
      from which phrase. */
  datatype Derivation = Derivation(network: Network, index: nat, path: string, mnemonic: string)

  /** The Generate button's effect. As written, `() => generateNewMnmonic`
      evaluates to the handler without calling it, so nothing changes. */
  function PressGenerate(w: Wiring, s: State, generated: string): (r: State)
    ensures w == Corrected ==> r == GenerateNewMnemonic(s, generated)
    ensures w == AsWritten ==> r == s
  {
    match w
    case AsWritten => s
    case Corrected => GenerateNewMnemonic(s, generated)
  }

  function Step(c: Crypto, w: Wiring, s: State, p: Press): State {
    match p
    case Derive(Solana) => SolanaWallet(c, s)
    case Derive(Ethereum) => EthWallet(c, s)
    case GenerateButton(generated) => PressGenerate(w, s, generated)
  }

  /** The derivation a press performed, if any. */
  function Performed(c: Crypto, w: Wiring, s: State, p: Press): (d: seq<Derivation>)
    ensures |d| <= 1
    ensures |d| == 1 <==> Step(c, w, s, p).currentIndex == s.currentIndex + 1
  {
    var r := Step(c, w, s, p);
    if p.Derive? && r.currentIndex == s.currentIndex + 1 then
      [Derivation(p.network, s.currentIndex, PathFor(p.network, s.currentIndex), s.mnemonic)]
    else []
  }

  function Run(c: Crypto, w: Wiring, s: State, presses: seq<Press>): State
    decreases |presses|
  {
    if |presses| == 0 then s else Run(c, w, Step(c, w, s, presses[0]), presses[1..])
  }

  /** The successful derivations of a run, in order. */
  function Trace(c: Crypto, w: Wiring, s: State, presses: seq<Press>): seq<Derivation>
    decreases |presses|
  {
    if |presses| == 0 then []
    else Performed(c, w, s, presses[0]) + Trace(c, w, Step(c, w, s, presses[0]), presses[1..])
  }

  /** The counter is shared: whichever buttons are pressed, the successful
      derivations use consecutive account indices starting at the counter,
      the counter ends advanced by their number,
      and each adds exactly one key or address. */
  lemma {:induction false} ConsecutiveIndices(c: Crypto, w: Wiring, s: State, presses: seq<Press>)
    ensures var t := Trace(c, w, s, presses);
            var r := Run(c, w, s, presses);
            && r.currentIndex == s.currentIndex + |t|
            && |r.publicKeys| + |r.addresses| == |s.publicKeys| + |s.addresses| + |t|
            && (forall k :: 0 <= k < |t| ==> t[k].index == s.currentIndex + k)
    decreases |presses|
  {
    if |presses| > 0 {
      var s1 := Step(c, w, s, presses[0]);
      var d := Performed(c, w, s, presses[0]);
      ConsecutiveIndices(c, w, s1, presses[1..]);
      var rest := Trace(c, w, s1, presses[1..]);
      var t := Trace(c, w, s, presses);
      assert t == d + rest;
      assert s1.currentIndex == s.currentIndex + |d|;
      assert |s1.publicKeys| + |s1.addresses| == |s.publicKeys| + |s.addresses| + |d|;
      assert forall k :: 0 <= k < |rest| ==> rest[k].index == s1.currentIndex + k;
      forall k | 0 <= k < |t|
        ensures t[k].index == s.currentIndex + k
      {
        if k < |d| {
          assert t[k] == d[k];
        } else {
          assert t[k] == rest[k - |d|];
        }
      }
    }
  }

  /** From the mounted state, the k-th successful derivation uses account k. */
  lemma AccountsFromZero(c: Crypto, w: Wiring, presses: seq<Press>)
    ensures var t := Trace(c, w, Initial(), presses);
            forall k :: 0 <= k < |t| ==> t[k].index == k
  {
    ConsecutiveIndices(c, w, Initial(), presses);
  }

  /** Every derivation of a run uses the phrase held when the run started,
      unless the Generate button replaced it. */
  lemma {:induction false} PhraseOfDerivations(c: Crypto, w: Wiring, s: State, presses: seq<Press>)
    requires w == AsWritten || forall k :: 0 <= k < |presses| ==> !presses[k].GenerateButton?
    ensures Run(c, w, s, presses).mnemonic == s.mnemonic
    ensures var t := Trace(c, w, s, presses);
            forall k :: 0 <= k < |t| ==> t[k].mnemonic == s.mnemonic
    decreases |presses|
  {
    if |presses| > 0 {
      var s1 := Step(c, w, s, presses[0]);
      assert w == Corrected ==> !presses[0].GenerateButton?;
      assert s1.mnemonic == s.mnemonic;
      assert forall k :: 0 <= k < |presses[1..]| ==> presses[1..][k] == presses[k + 1];
      PhraseOfDerivations(c, w, s1, presses[1..]);
      assert Run(c, w, s1, presses[1..]).mnemonic == s1.mnemonic;
      assert forall k :: 0 <= k < |Trace(c, w, s1, presses[1..])| ==> Trace(c, w, s1, presses[1..])[k].mnemonic == s1.mnemonic;
      var d := Performed(c, w, s, presses[0]);
      var rest := Trace(c, w, s1, presses[1..]);
      assert forall k :: 0 <= k < |d| ==> d[k].mnemonic == s.mnemonic;
      assert forall k :: 0 <= k < |rest| ==> rest[k].mnemonic == s1.mnemonic;
      var t := Trace(c, w, s, presses);
      assert t == d + rest;
      forall k | 0 <= k < |t|
        ensures t[k].mnemonic == s.mnemonic
      {
        if k < |d| {
          assert t[k] == d[k];
        } else {
          assert t[k] == rest[k - |d|];
        }
      }
    }
  }

  /** As wired, no press ever sets the phrase, so every key the mounted
      component shows is derived from the empty phrase. */
  lemma AsWrittenPhraseStaysEmpty(c: Crypto, presses: seq<Press>)
    ensures Run(c, AsWritten, Initial(), presses).mnemonic == ""
    ensures var t := Trace(c, AsWritten, Initial(), presses);
            forall k :: 0 <= k < |t| ==> t[k].mnemonic == ""
  {
    PhraseOfDerivations(c, AsWritten, Initial(), presses);
  }

  /** With the handler called, pressing Generate and then a network button
      derives from the generated phrase at account 0. */
  lemma CorrectedGenerateThenDerive(c: Crypto, generated: string, n: Network)
    ensures var t := Trace(c, Corrected, Initial(), [GenerateButton(generated), Derive(n)]);
            |t| <= 1 && forall k :: 0 <= k < |t| ==> t[k].mnemonic == generated && t[k].index == 0
  {
    var ps := [GenerateButton(generated), Derive(n)];
    var s1 := Step(c, Corrected, Initial(), ps[0]);
    assert s1.mnemonic == generated && s1.currentIndex == 0;
    assert ps[1..] == [Derive(n)];
    assert Trace(c, Corrected, s1, [Derive(n)]) == Performed(c, Corrected, s1, Derive(n));
  }
}
