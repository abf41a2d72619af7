/** The wallet session of `components/WalletsGenerator.tsx`: a network choice
    (`pathTypes`), a list of derived wallets with one private-key visibility flag
    and one phrase visibility flag per wallet, and the words of the last
    accepted phrase. Each handler is one pure transition of that state. */
module WalletsGenerator {
  import opened Wrappers
  import opened Text
  import opened HdPath
  import opened Crypto
  import opened ArrayOps

  /** The record handed back for one derived account. */
  datatype Wallet = Wallet(mnemonic: string, publicKey: string, privateKey: string, path: string)

  datatype Session = Session(
    mnemonic: seq<string>,
    pathTypes: seq<string>,
    wallets: seq<Wallet>,
    visiblePrivateKeys: seq<bool>,
    visiblePhrases: seq<bool>
  )

  /** SLIP-0044 coin types, written as the tags the network selector stores. */
  const SolanaTag: string := "501"
  const EthereumTag: string := "60"

  /** The only network selections the handlers ever store. */
  predicate ValidPathTypes(pathTypes: seq<string>) {
    pathTypes == [] || pathTypes == [SolanaTag] || pathTypes == [EthereumTag]
  }

  /** One visibility flag of each kind per wallet, and a network selection
      that is either absent or one supported tag. */
  predicate WellFormed(s: Session) {
    && |s.visiblePrivateKeys| == |s.wallets|
    && |s.visiblePhrases| == |s.wallets|
    && ValidPathTypes(s.pathTypes)
  }

  /** The state on mount: twelve one-space placeholder words, nothing else. */
  function Initial(): (s: Session)
    ensures WellFormed(s)
    ensures s.wallets == [] && s.pathTypes == []
    ensures |s.mnemonic| == 12 && forall i :: 0 <= i < 12 ==> s.mnemonic[i] == " "
  {
    Session(seq(12, _ => " "), [], [], [], [])
  }

  // ---------------------------------------------------------------------------
  // Network selection and its display name
  // ---------------------------------------------------------------------------

  /** `pathTypes[0]`: JavaScript `undefined` (None) when nothing is selected. */
  function SelectedTag(pathTypes: seq<string>): (t: Option<string>)
    ensures t.Some? <==> |pathTypes| > 0
    ensures t.Some? ==> t.value == pathTypes[0]
  {
    if |pathTypes| == 0 then None else Some(pathTypes[0])
  }

  /** `pathTypeNames[tag] || ""`. */
  function PathTypeName(tag: Option<string>): (name: string)
    ensures name == "Solana" <==> tag == Some(SolanaTag)
    ensures name == "Ethereum" <==> tag == Some(EthereumTag)
    ensures name == "" <==> tag != Some(SolanaTag) && tag != Some(EthereumTag)
  {
    if tag == Some(SolanaTag) then "Solana"
    else if tag == Some(EthereumTag) then "Ethereum"
    else ""
  }

  /** The tags `handleNetworkSelect` stores for a selector value. */
  function NetworkTags(value: string): (tags: seq<string>)
    ensures ValidPathTypes(tags)
    ensures tags == [SolanaTag] <==> value == "solana"
    ensures tags == [EthereumTag] <==> value == "eth"
  {
    if value == "solana" then [SolanaTag]
    else if value == "eth" then [EthereumTag]
    else []
  }

  /** `handleNetworkSelect`: replaces the selection and touches nothing else. */
  function HandleNetworkSelect(s: Session, value: string): (r: Session)
    ensures r.pathTypes == NetworkTags(value)
    ensures r == s.(pathTypes := r.pathTypes)
    ensures WellFormed(s) ==> WellFormed(r)
  {
    s.(pathTypes := NetworkTags(value))
  }

  /** What the wallet list shows as the network name after a selection. */
  lemma SelectedNetworkName(s: Session, value: string)
    ensures PathTypeName(SelectedTag(HandleNetworkSelect(s, value).pathTypes))
         == (if value == "solana" then "Solana" else if value == "eth" then "Ethereum" else "")
  {
  }

  // ---------------------------------------------------------------------------
  // Derivation of one wallet
  // ---------------------------------------------------------------------------

  /** How the template literal renders the tag: `undefined` when absent. */
  function TagText(tag: Option<string>): (t: string)
    ensures tag.Some? ==> t == tag.value
    ensures tag.None? ==> |t| > 0 && !IsDigit(t[0])
  {
    match tag
    case Some(t) => t
    case None => "undefined"
  }

  /** The path `generateWalletFromMnemonic` derives at: account index at the
      fourth level, after a fixed hardened 0. */
  function WalletPath(tag: Option<string>, accountIndex: nat): (p: string)
    ensures tag == Some(SolanaTag) ==> p == Format([44, 501, 0, accountIndex])
    ensures tag == Some(EthereumTag) ==> p == Format([44, 60, 0, accountIndex])
  {
    TagDigits();
    TemplateLevels(SolanaTag, 501, accountIndex);
    TemplateLevels(EthereumTag, 60, accountIndex);
    "m/44'/" + TagText(tag) + "'/0'/" + Decimal(accountIndex) + "'"
  }

  /** The two supported tags are the decimal text of their coin types. */
  lemma TagDigits()
    ensures Decimal(501) == SolanaTag && Decimal(60) == EthereumTag
  {
    assert Decimal(50) == "50";
  }

  lemma TemplateLevels(tag: string, coin: nat, accountIndex: nat)
    requires Decimal(coin) == tag
    ensures "m/44'/" + tag + "'/0'/" + Decimal(accountIndex) + "'" == Format([44, coin, 0, accountIndex])
  {
    assert Decimal(44) == "44";
    assert Decimal(0) == "0";
    FormatFourLevels(44, coin, 0, accountIndex);
    TemplateConcat(tag, Decimal(accountIndex));
  }

  lemma TemplateConcat(tag: string, d: string)
    ensures "m/44'/" + tag + "'/0'/" + d + "'" == "m/" + "44" + "'/" + tag + "'/" + "0" + "'/" + d + "'"
  {
  }

  /** `generateWalletFromMnemonic`: seed, path derivation, then per-tag key
      construction; any library exception, and any tag other than "501" or
      "60", gives null (None). */
  function GenerateWalletFromMnemonic(c: Crypto, pathType: Option<string>, mnemonic: string, accountIndex: nat): (r: Option<Wallet>)
    ensures r.Some? ==> r.value.path == WalletPath(pathType, accountIndex)
    ensures r.Some? ==> r.value.mnemonic == mnemonic
    ensures r.Some? ==> pathType == Some(SolanaTag) || pathType == Some(EthereumTag)
    ensures Slip10Key(c, mnemonic, WalletPath(pathType, accountIndex)).None? ==> r.None?
    ensures pathType == Some(SolanaTag) && Slip10Key(c, mnemonic, WalletPath(pathType, accountIndex)).Some? ==>
              var secretKey := c.ed25519SecretKey(Slip10Key(c, mnemonic, WalletPath(pathType, accountIndex)).value);
              && (r.Some? <==> c.solanaPublicKey(secretKey).Some?)
              && (r.Some? ==> r.value.publicKey == c.base58(c.solanaPublicKey(secretKey).value)
                              && r.value.privateKey == c.base58(secretKey))
    ensures pathType == Some(EthereumTag) && Slip10Key(c, mnemonic, WalletPath(pathType, accountIndex)).Some? ==>
              var privateKey := c.hex(Slip10Key(c, mnemonic, WalletPath(pathType, accountIndex)).value);
              && (r.Some? <==> c.ethAddress(privateKey).Some?)
              && (r.Some? ==> r.value.publicKey == c.ethAddress(privateKey).value && r.value.privateKey == privateKey)
  {
    var path := WalletPath(pathType, accountIndex);
    match Slip10Key(c, mnemonic, path)
    case None => None
    case Some(derivedSeed) =>
      if pathType == Some(SolanaTag) then
        var secretKey := c.ed25519SecretKey(derivedSeed);
        match c.solanaPublicKey(secretKey)
        case None => None
        case Some(publicKey) => Some(Wallet(mnemonic, c.base58(publicKey), c.base58(secretKey), path))
      else if pathType == Some(EthereumTag) then
        var privateKey := c.hex(derivedSeed);
        match c.ethAddress(privateKey)
        case None => None
        case Some(address) => Some(Wallet(mnemonic, address, privateKey, path))
      else None
  }

  /** The path of a supported network has the hardened levels 44, the coin
      type, 0 and the account index, in that order. */
  lemma WalletPathLevels(tag: string, accountIndex: nat)
    requires tag == SolanaTag || tag == EthereumTag
    ensures var coin := if tag == SolanaTag then 501 else 60;
            Parse(WalletPath(Some(tag), accountIndex)) == Some([44, coin, 0, accountIndex])
  {
    var coin: nat := if tag == SolanaTag then 501 else 60;
    ParseFormat([44, coin, 0, accountIndex]);
  }

  /** Distinct (network, account index) pairs derive at distinct paths. */
  lemma WalletPathsDistinct(t1: string, i1: nat, t2: string, i2: nat)
    requires t1 == SolanaTag || t1 == EthereumTag
    requires t2 == SolanaTag || t2 == EthereumTag
    ensures WalletPath(Some(t1), i1) == WalletPath(Some(t2), i2) <==> t1 == t2 && i1 == i2
  {
    WalletPathLevels(t1, i1);
    WalletPathLevels(t2, i2);
  }

  /** With no network selected the path text is not a derivation path at all. */
  lemma UnselectedPathUnreadable(accountIndex: nat)
    ensures Parse(WalletPath(None, accountIndex)) == None
  {
    var tail := "/undefined'/0'/" + Decimal(accountIndex) + "'";
    assert WalletPath(None, accountIndex)[1..] == "/" + "44" + "'" + tail;
    ParseOneLevel("44", tail);
    assert tail[1..][0] == 'u';
    assert DigitRun(tail[1..]) == 0;
  }

  // ---------------------------------------------------------------------------
  // Session handlers
  // ---------------------------------------------------------------------------

  /** The phrase a generate request uses: the trimmed input, or a freshly
      generated phrase when the trimmed input is empty. */
  function ChosenPhrase(input: string, generated: string): (phrase: string)
    ensures AllWhitespace(input) ==> phrase == generated
    ensures !AllWhitespace(input) ==> phrase == Trim(input)
    ensures !AllWhitespace(input) ==> phrase != [] && !IsJsWhitespace(phrase[0]) && !IsJsWhitespace(phrase[|phrase| - 1])
  {
    var trimmed := Trim(input);
    if trimmed != "" then trimmed else generated
  }

  /** `handleGenerateWallet`. `generated` is what bip39 `generateMnemonic` would
      return on this call. A non-empty phrase that fails validation changes
      nothing; otherwise the words of the phrase are stored, and one wallet is
      derived with the current wallet count as account index and appended
      together with two hidden-visibility flags. */
  function HandleGenerateWallet(s: Session, c: Crypto, input: string, generated: string): (r: Session)
    ensures Trim(input) != "" && !c.validateMnemonic(Trim(input)) ==> r == s
    ensures r.pathTypes == s.pathTypes
    ensures Trim(input) == "" || c.validateMnemonic(Trim(input)) ==>
              && r.mnemonic == Split(ChosenPhrase(input, generated), ' ')
              && Join(r.mnemonic, ' ') == ChosenPhrase(input, generated)
              && (r.wallets != s.wallets
                  <==> GenerateWalletFromMnemonic(c, SelectedTag(s.pathTypes), ChosenPhrase(input, generated), |s.wallets|).Some?)
    ensures AllWhitespace(input) ==> Join(r.mnemonic, ' ') == generated
    ensures r.wallets == s.wallets
            ==> r.visiblePrivateKeys == s.visiblePrivateKeys && r.visiblePhrases == s.visiblePhrases
    ensures r.wallets != s.wallets ==>
              && |r.wallets| == |s.wallets| + 1
              && r.wallets[..|s.wallets|] == s.wallets
              && Some(r.wallets[|s.wallets|])
                 == GenerateWalletFromMnemonic(c, SelectedTag(s.pathTypes), ChosenPhrase(input, generated), |s.wallets|)
              && r.wallets[|s.wallets|].path == WalletPath(SelectedTag(s.pathTypes), |s.wallets|)
              && r.wallets[|s.wallets|].mnemonic == ChosenPhrase(input, generated)
              && (SelectedTag(s.pathTypes) == Some(SolanaTag) || SelectedTag(s.pathTypes) == Some(EthereumTag))
              && r.visiblePrivateKeys == s.visiblePrivateKeys + [false]
              && r.visiblePhrases == s.visiblePhrases + [false]
    ensures WellFormed(s) ==> WellFormed(r)
  {
    var trimmed := Trim(input);
    if trimmed != "" && !c.validateMnemonic(trimmed) then s
    else
      var phrase := ChosenPhrase(input, generated);
      var words := Split(phrase, ' ');
      match GenerateWalletFromMnemonic(c, SelectedTag(s.pathTypes), phrase, |s.wallets|)
      case None => s.(mnemonic := words)
      case Some(wallet) =>
        s.(mnemonic := words,
           wallets := s.wallets + [wallet],
           visiblePrivateKeys := s.visiblePrivateKeys + [false],
           visiblePhrases := s.visiblePhrases + [false])
  }

  /** `handleDeleteWallet`: every parallel sequence, including `pathTypes`, is
      filtered by the wallet's position. */
  function HandleDeleteWallet(s: Session, index: int): (r: Session)
    ensures 0 <= index < |s.wallets| ==> r.wallets == s.wallets[..index] + s.wallets[index + 1..]
    ensures !(0 <= index < |s.wallets|) ==> r.wallets == s.wallets
    ensures 0 <= index < |s.visiblePrivateKeys|
            ==> r.visiblePrivateKeys == s.visiblePrivateKeys[..index] + s.visiblePrivateKeys[index + 1..]
    ensures 0 <= index < |s.visiblePhrases|
            ==> r.visiblePhrases == s.visiblePhrases[..index] + s.visiblePhrases[index + 1..]
    ensures 0 <= index < |s.pathTypes| ==> r.pathTypes == s.pathTypes[..index] + s.pathTypes[index + 1..]
    ensures !(0 <= index < |s.pathTypes|) ==> r.pathTypes == s.pathTypes
    ensures r.mnemonic == s.mnemonic
    ensures WellFormed(s) && !(0 <= index < |s.wallets|) ==> r == s.(pathTypes := r.pathTypes)
    ensures WellFormed(s) ==> WellFormed(r)
  {
    s.(wallets := FilterOutIndex(s.wallets, index),
       pathTypes := FilterOutIndex(s.pathTypes, index),
       visiblePrivateKeys := FilterOutIndex(s.visiblePrivateKeys, index),
       visiblePhrases := FilterOutIndex(s.visiblePhrases, index))
  }

  /** Because `pathTypes` holds only the selected tag, deleting the first
      wallet also forgets the network selection, and the list then shows no
      network name. */
  lemma DeleteFirstClearsNetwork(s: Session)
    requires WellFormed(s)
    requires |s.wallets| > 0
    ensures HandleDeleteWallet(s, 0).pathTypes == []
    ensures PathTypeName(SelectedTag(HandleDeleteWallet(s, 0).pathTypes)) == ""
  {
  }

  /** Deleting any other wallet keeps the selection. */
  lemma DeleteLaterKeepsNetwork(s: Session, index: int)
    requires WellFormed(s)
    requires index != 0
    ensures HandleDeleteWallet(s, index).pathTypes == s.pathTypes
  {
  }

  /** `handleClearWallets`. */
  function HandleClearWallets(s: Session): (r: Session)
    ensures r.wallets == [] && r.mnemonic == [] && r.pathTypes == []
    ensures r.visiblePrivateKeys == [] && r.visiblePhrases == []
    ensures WellFormed(r)
  {
    Session([], [], [], [], [])
  }

  /** `togglePrivateKeyVisibility`: flips one flag, nothing else. */
  function TogglePrivateKeyVisibility(s: Session, index: int): (r: Session)
    ensures r == s.(visiblePrivateKeys := r.visiblePrivateKeys)
    ensures |r.visiblePrivateKeys| == |s.visiblePrivateKeys|
    ensures 0 <= index < |s.visiblePrivateKeys| ==> r.visiblePrivateKeys[index] == !s.visiblePrivateKeys[index]
    ensures forall i :: 0 <= i < |s.visiblePrivateKeys| && i != index
              ==> r.visiblePrivateKeys[i] == s.visiblePrivateKeys[i]
    ensures WellFormed(s) ==> WellFormed(r)
  {
    s.(visiblePrivateKeys := ToggleAt(s.visiblePrivateKeys, index))
  }

  /** Toggling the same wallet twice restores the session. */
  lemma ToggleTwiceRestores(s: Session, index: int)
    ensures TogglePrivateKeyVisibility(TogglePrivateKeyVisibility(s, index), index) == s
  {
    ToggleTwice(s.visiblePrivateKeys, index);
  }

  // ---------------------------------------------------------------------------
  // Sessions over time
  // ---------------------------------------------------------------------------

  datatype Action =
    | Generate(input: string, generated: string)
    | Delete(index: int)
    | Toggle(index: int)
    | Clear
    | SelectNetwork(value: string)

  function Step(s: Session, c: Crypto, a: Action): Session {
    match a
    case Generate(input, generated) => HandleGenerateWallet(s, c, input, generated)
    case Delete(i) => HandleDeleteWallet(s, i)
    case Toggle(i) => TogglePrivateKeyVisibility(s, i)
    case Clear => HandleClearWallets(s)
    case SelectNetwork(v) => HandleNetworkSelect(s, v)
  }

  function Run(s: Session, c: Crypto, actions: seq<Action>): Session
    decreases |actions|
  {
    if |actions| == 0 then s else Run(Step(s, c, actions[0]), c, actions[1..])
  }

  /** Every session reachable from the mounted state keeps its visibility
      flags aligned with its wallets and holds at most one supported tag. */
  lemma {:induction false} RunKeepsWellFormed(s: Session, c: Crypto, actions: seq<Action>)
    requires WellFormed(s)
    ensures WellFormed(Run(s, c, actions))
    decreases |actions|
  {
    if |actions| > 0 {
      RunKeepsWellFormed(Step(s, c, actions[0]), c, actions[1..]);
    }
  }

  lemma ReachableWellFormed(c: Crypto, actions: seq<Action>)
    ensures WellFormed(Run(Initial(), c, actions))
  {
    RunKeepsWellFormed(Initial(), c, actions);
  }

  // ---------------------------------------------------------------------------
  // Account indices
  // ---------------------------------------------------------------------------

  /** The account level (the fourth) of a path of the generator's shape. */
  function AccountLevel(path: string): Option<nat> {
    match Parse(path)
    case Some(levels) => if |levels| == 4 then Some(levels[3]) else None
    case None => None
  }

  /** Each wallet's account index equals its position in the list. */
  predicate IndexedByPosition(wallets: seq<Wallet>) {
    forall k :: 0 <= k < |wallets| ==> AccountLevel(wallets[k].path) == Some(k)
  }

  /** A generate request keeps wallets indexed by position: the new wallet's
      account index is the old wallet count. */
  lemma GenerateKeepsIndexed(s: Session, c: Crypto, input: string, generated: string)
    requires IndexedByPosition(s.wallets)
    ensures IndexedByPosition(HandleGenerateWallet(s, c, input, generated).wallets)
  {
    var r := HandleGenerateWallet(s, c, input, generated);
    if r.wallets != s.wallets {
      GenerateAppendsAtCount(s, c, input, generated);
      AppendKeepsIndexed(s.wallets, r.wallets[|s.wallets|]);
    }
  }

  /** A wallet that generate adds sits at the end and carries the old wallet
      count as its account index. */
  lemma GenerateAppendsAtCount(s: Session, c: Crypto, input: string, generated: string)
    ensures var r := HandleGenerateWallet(s, c, input, generated);
            r.wallets != s.wallets ==>
              && |r.wallets| == |s.wallets| + 1
              && r.wallets == s.wallets + [r.wallets[|s.wallets|]]
              && AccountLevel(r.wallets[|s.wallets|].path) == Some(|s.wallets|)
  {
    var r := HandleGenerateWallet(s, c, input, generated);
    if r.wallets != s.wallets {
      AppendedAt(s.wallets, r.wallets, SelectedTag(s.pathTypes));
    }
  }

  lemma AppendedAt(before: seq<Wallet>, after: seq<Wallet>, tag: Option<string>)
    requires |after| == |before| + 1 && after[..|before|] == before
    requires after[|before|].path == WalletPath(tag, |before|)
    requires tag == Some(SolanaTag) || tag == Some(EthereumTag)
    ensures after == before + [after[|before|]]
    ensures AccountLevel(after[|before|].path) == Some(|before|)
  {
    assert after == after[..|before|] + [after[|before|]];
    WalletPathLevels(tag.value, |before|);
  }

  lemma AppendKeepsIndexed(wallets: seq<Wallet>, w: Wallet)
    requires IndexedByPosition(wallets)
    requires AccountLevel(w.path) == Some(|wallets|)
    ensures IndexedByPosition(wallets + [w])
  {
  }

  /** Deleting the last wallet keeps wallets indexed by position. */
  lemma DeleteLastKeepsIndexed(s: Session)
    requires IndexedByPosition(s.wallets)
    requires |s.wallets| > 0
    ensures IndexedByPosition(HandleDeleteWallet(s, |s.wallets| - 1).wallets)
  {
  }

  /** The account index is the wallet count, not a fresh number: after a wallet
      in the middle is deleted, the next wallet reuses the account index of
      the wallet that is now last. */
  lemma InnerDeleteReusesIndex(s: Session, c: Crypto, index: int, input: string, generated: string)
    requires WellFormed(s)
    requires IndexedByPosition(s.wallets)
    requires 1 <= index < |s.wallets| - 1
    ensures var d := HandleDeleteWallet(s, index);
            var r := HandleGenerateWallet(d, c, input, generated);
            r.wallets != d.wallets ==>
              && |r.wallets| == |s.wallets|
              && AccountLevel(r.wallets[|r.wallets| - 1].path) == AccountLevel(r.wallets[|r.wallets| - 2].path)
  {
    var d := HandleDeleteWallet(s, index);
    var r := HandleGenerateWallet(d, c, input, generated);
    var n := |s.wallets|;
    assert |d.wallets| == n - 1;
    assert d.wallets[n - 2] == s.wallets[n - 1];
    assert AccountLevel(s.wallets[n - 1].path) == Some(n - 1);
    GenerateAppendsAtCount(d, c, input, generated);
  }

  /** Paths of wallets indexed by position are pairwise distinct. */
  lemma IndexedPathsDistinct(wallets: seq<Wallet>, i: int, j: int)
    requires IndexedByPosition(wallets)
    requires 0 <= i < j < |wallets|
    ensures wallets[i].path != wallets[j].path
  {
    assert AccountLevel(wallets[i].path) == Some(i);
    assert AccountLevel(wallets[j].path) == Some(j);
  }
}
