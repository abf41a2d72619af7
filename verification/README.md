# Wallet-session bookkeeping of web3-wallets, in Dafny

This project models the wallet bookkeeping of the web3-wallets application. The application derives Solana and Ethereum accounts from one BIP-39 phrase. Two React components are modelled as pure state transitions:

- `components/WalletsGenerator.tsx`, module `WalletsGenerator`. A session holds five pieces of state:
  - `pathTypes`: the selected network as a SLIP-0044 coin-type tag, "501" or "60";
  - `wallets`: the derived wallets, each a record {mnemonic, publicKey, privateKey, path};
  - `visiblePrivateKeys` and `visiblePhrases`: one visibility flag per wallet;
  - `mnemonic`: the words of the last accepted phrase.

  The handlers are network selection, generate, delete, clear and toggle. Generate derives at `m/44'/<tag>'/0'/<accountIndex>'`, and the account index is the current wallet count.
- `components/GenerateWallets.tsx`, module `GenerateWallets`. This is the component the home page mounts. A Solana button and an Ethereum button share one `currentIndex` counter. Each button derives at `m/44'/<coin>'/<currentIndex>'/0'`, so the account index sits at the third level rather than the fourth. Each button appends one public key or one address and advances the counter.

Supporting modules:

- `Text` models the JavaScript string behaviour the handlers use: `${n}` for integers, `trim()`, `split(" ")` and `join(" ")`.
- `HdPath` gives the shape `m(/<n>')+` of a path whose levels are all hardened. It has a reader that recovers the levels, so statements about paths (coin type, where the account index sits, distinctness) are made on numbers.
- `ArrayOps` models the two index-driven array idioms: `filter((_, i) => i !== index)` and `map((v, i) => i === index ? !v : v)`.
- `Crypto` is a record of opaque total functions standing for the library calls: bip39, ed25519-hd-key, tweetnacl, @solana/web3.js, bs58, Buffer hex and ethers. A call that can throw returns `None`. In `WalletsGenerator`, `None` is the `catch` branch that returns `null`. In `GenerateWallets`, `None` is the rejected async handler, which leaves the state untouched.
- `generateMnemonic()` is random. Each handler that calls it takes its result as a parameter (`generated`).

Properties of the code worth knowing:

- There is no check that the account index is below 2^31. The index is the wallet count or the counter, unchecked.
- `GenerateWallets.tsx` places the account at the third level. `GenerateWallets.PathDiffersFromGenerator` proves that the two components agree on a path only for account 0.
- Account indices can be reused. Deleting a wallet in the middle of the list lowers the wallet count, so the next wallet gets the account index of the wallet that is now last (`WalletsGenerator.InnerDeleteReusesIndex`).
- `pathTypes` holds only the selected tag, but delete filters it by wallet position. Deleting wallet 0 therefore forgets the network selection (`WalletsGenerator.DeleteFirstClearsNetwork`).

## Model

| member | source | states |
|---|---|---|
| Text.Decimal | components/WalletsGenerator.tsx:106 | the account index is rendered as decimal digits only, "0" exactly for 0 and without a leading zero otherwise |
| Text.DecimalRoundTrip | components/WalletsGenerator.tsx:106 | reading the rendered digits back gives the account index that was rendered |
| Text.DecimalInjective | components/GenerateWallets.tsx:28 | two indices render to the same text exactly when they are equal |
| Text.Trim | components/WalletsGenerator.tsx:142 | the trimmed input is the input with a whitespace-only prefix and a whitespace-only suffix removed, and nothing else; it neither starts nor ends with whitespace, and it is empty exactly when the input is all whitespace |
| Text.TrimIdempotent | components/WalletsGenerator.tsx:142 | trimming an already trimmed phrase changes nothing |
| Text.Split | components/WalletsGenerator.tsx:152 | the words of the phrase contain no space, there is at least one, and joining them with single spaces gives back the phrase |
| Text.SplitJoin | components/WalletsGenerator.tsx:152 | splitting the join of space-free words gives back exactly those words |
| HdPath.ParseFormat | components/WalletsGenerator.tsx:106 | reading the text of a hardened path gives back its sequence of levels |
| HdPath.FormatInjective | components/WalletsGenerator.tsx:106 | two level sequences have the same path text exactly when they are equal |
| ArrayOps.FilterOutIndex | components/WalletsGenerator.tsx:63-72 | filtering by position removes exactly the element at an in-range index and keeps the others in order; an out-of-range index keeps everything |
| ArrayOps.ToggleAt | components/WalletsGenerator.tsx:88-92 | mapping with the index negates the flag at that index only; the length is kept |
| WalletsGenerator.Initial | components/WalletsGenerator.tsx:34-40 | on mount the session has no wallets and no network, and the phrase is twelve one-space placeholders |
| WalletsGenerator.SelectedTag | components/WalletsGenerator.tsx:155 | `pathTypes[0]` is undefined exactly when nothing is selected, and otherwise it is the first tag |
| WalletsGenerator.PathTypeName | components/WalletsGenerator.tsx:42-47 | the display name is "Solana" exactly for tag "501", "Ethereum" exactly for "60", and "" for any other or absent tag |
| WalletsGenerator.NetworkTags | components/WalletsGenerator.tsx:178-190 | "solana" selects exactly ["501"], "eth" selects exactly ["60"], and every other value selects nothing |
| WalletsGenerator.HandleNetworkSelect | components/WalletsGenerator.tsx:178-190 | selection replaces `pathTypes` and nothing else, and it keeps the session well formed |
| WalletsGenerator.SelectedNetworkName | components/WalletsGenerator.tsx:47 | after a selection, the list shows "Solana" for "solana", "Ethereum" for "eth", and "" otherwise |
| WalletsGenerator.TagText | components/WalletsGenerator.tsx:106 | a selected tag is written into the path as it is; an absent one renders as text that does not start with a digit (`undefined`) |
| WalletsGenerator.WalletPath | components/WalletsGenerator.tsx:106 | for tag "501" or "60" the template gives the hardened path with levels 44, the coin type, 0 and the account index |
| WalletsGenerator.GenerateWalletFromMnemonic | components/WalletsGenerator.tsx:99-139 | if seed stretching or SLIP-0010 derivation throws, the result is null. For "501", a wallet exists exactly when the Solana key pair can be built; its public key is the base58 public key and its private key the base58 Ed25519 secret key. For "60", a wallet exists exactly when ethers accepts the hex of the derived key; the public key is that wallet's address and the private key the hex text. Any other or absent tag yields null. A returned wallet carries the input phrase unchanged and the path built from the tag and account index |
| WalletsGenerator.WalletPathLevels | components/WalletsGenerator.tsx:106 | a supported tag's path has the hardened levels 44, the coin type (501 or 60), 0 and the account index |
| WalletsGenerator.WalletPathsDistinct | components/WalletsGenerator.tsx:106 | two (network, account) pairs give the same path exactly when they are the same pair |
| WalletsGenerator.UnselectedPathUnreadable | components/WalletsGenerator.tsx:106 | with no network selected the path reads `m/44'/undefined'/...`, which is not a derivation path |
| WalletsGenerator.ChosenPhrase | components/WalletsGenerator.tsx:142-151 | an all-whitespace input gives the freshly generated phrase; any other input gives its trimmed text, which is non-empty and neither starts nor ends with whitespace |
| WalletsGenerator.HandleGenerateWallet | components/WalletsGenerator.tsx:141-167 | a non-empty trimmed phrase that fails validation changes nothing. Otherwise the stored words are the space-split pieces of the chosen phrase (so they join back to it), and a wallet is added exactly when derivation does not return null. The network selection is unchanged. A new wallet is appended once at the end with an unchanged prefix; it is exactly the wallet derivation returned, with the selected tag, the wallet count as account index and the chosen phrase. Each visibility sequence then gains one `false`; with no new wallet they are unchanged |
| WalletsGenerator.HandleDeleteWallet | components/WalletsGenerator.tsx:63-74 | delete removes exactly the element at the index from `wallets`, `pathTypes` and both visibility sequences, keeping the order of the rest. An index outside the wallets changes no wallet or flag, the phrase is kept, and well-formedness is preserved |
| WalletsGenerator.DeleteFirstClearsNetwork | components/WalletsGenerator.tsx:65 | deleting wallet 0 empties `pathTypes`, so the network name shown becomes "" |
| WalletsGenerator.DeleteLaterKeepsNetwork | components/WalletsGenerator.tsx:65 | deleting at any other index keeps the network selection |
| WalletsGenerator.HandleClearWallets | components/WalletsGenerator.tsx:76-86 | clear leaves wallets, phrase, selection and both visibility sequences empty |
| WalletsGenerator.TogglePrivateKeyVisibility | components/WalletsGenerator.tsx:88-92 | toggle negates the flag at the index only, keeps its length and every other part of the session |
| WalletsGenerator.ToggleTwiceRestores | components/WalletsGenerator.tsx:88-92 | toggling the same wallet twice restores the session |
| WalletsGenerator.RunKeepsWellFormed | components/WalletsGenerator.tsx:63-190 | any sequence of handler calls keeps one flag of each kind per wallet and at most one supported tag |
| WalletsGenerator.ReachableWellFormed | components/WalletsGenerator.tsx:34-40 | every session reachable from the mounted state is well formed |
| WalletsGenerator.GenerateAppendsAtCount | components/WalletsGenerator.tsx:155-158 | the wallet generate adds is last and has the old wallet count as its account level |
| WalletsGenerator.GenerateKeepsIndexed | components/WalletsGenerator.tsx:155 | if every wallet's account index equals its position, that stays true after generate |
| WalletsGenerator.DeleteLastKeepsIndexed | components/WalletsGenerator.tsx:64 | deleting the last wallet keeps account indices equal to positions |
| WalletsGenerator.InnerDeleteReusesIndex | components/WalletsGenerator.tsx:155 | after a middle wallet is deleted, the next generated wallet has the same account index as the wallet before it |
| WalletsGenerator.IndexedPathsDistinct | components/WalletsGenerator.tsx:158 | wallets whose account indices equal their positions have pairwise distinct paths |
| GenerateWallets.Initial | components/GenerateWallets.tsx:16-19 | on mount the counter is 0, there are no keys or addresses, and the phrase is empty |
| GenerateWallets.PathLevels | components/GenerateWallets.tsx:28-37 | both buttons derive at the hardened levels 44, the coin type (501 or 60), the counter and 0 |
| GenerateWallets.PathsDistinct | components/GenerateWallets.tsx:28-37 | two (network, counter) pairs give the same path exactly when they are the same pair |
| GenerateWallets.PathDiffersFromGenerator | components/GenerateWallets.tsx:28-37 | this component's path equals the `WalletsGenerator` path for the same network and index exactly when the index is 0 |
| GenerateWallets.SolanaPath | components/GenerateWallets.tsx:28 | the Solana button's template is the hardened path with levels 44, 501, the counter and 0 |
| GenerateWallets.EthPath | components/GenerateWallets.tsx:37 | the Ethereum button's template is the hardened path with levels 44, 60, the counter and 0 |
| GenerateWallets.SolanaPublicKey | components/GenerateWallets.tsx:27-31 | if seed stretching or SLIP-0010 derivation throws there is no key; otherwise the key is the Solana public key of the Ed25519 secret key built from the derived seed |
| GenerateWallets.SolanaKeyAgreesWithGenerator | components/GenerateWallets.tsx:27-31 | at the same phrase and path, this pipeline succeeds exactly when `generateWalletFromMnemonic` for "501" does, and the generator's public key is the base58 text of this key |
| GenerateWallets.EthAddress | components/GenerateWallets.tsx:36-41 | an address exists exactly when seed stretching, BIP-32 derivation along the path and address construction all succeed, and it is the address of the derived child key |
| GenerateWallets.SolanaWallet | components/GenerateWallets.tsx:26-34 | the counter advances by one exactly when the key pipeline succeeds, and then exactly one key (the derived one) is appended. Addresses and phrase are unchanged; a failure changes nothing |
| GenerateWallets.EthWallet | components/GenerateWallets.tsx:35-44 | the counter advances by one exactly when the address pipeline succeeds, and then exactly one address is appended. Public keys and phrase are unchanged; a failure changes nothing |
| GenerateWallets.GenerateNewMnemonic | components/GenerateWallets.tsx:21-25 | only the phrase is replaced; counter, keys and addresses are unchanged |
| GenerateWallets.PressGenerate | components/GenerateWallets.tsx:53 | as wired, pressing Generate changes nothing; with the handler called, it is `generateNewMnmonic` |
| GenerateWallets.Performed | components/GenerateWallets.tsx:32-42 | a press performs at most one derivation, and performs one exactly when it advances the counter |
| GenerateWallets.ConsecutiveIndices | components/GenerateWallets.tsx:16-44 | over any sequence of presses, the successful derivations use consecutive indices from the starting counter. The counter ends advanced by their number, and keys plus addresses grow by the same number |
| GenerateWallets.AccountsFromZero | components/GenerateWallets.tsx:16 | from the mounted state the k-th successful derivation, on either network, uses account k |
| GenerateWallets.PhraseOfDerivations | components/GenerateWallets.tsx:27-36 | without an effective Generate press, every derivation uses the phrase held at the start |
| GenerateWallets.AsWrittenPhraseStaysEmpty | components/GenerateWallets.tsx:52-53 | as wired, the phrase of the mounted component stays "" and every derivation uses the empty phrase |
| GenerateWallets.CorrectedGenerateThenDerive | components/GenerateWallets.tsx:21-28 | with the handler called, pressing Generate then a network button derives account 0 from the generated phrase |

## Findings

| source | as written | input that shows it | evidently intended | confidence | as-written member | corrected member |
|---|---|---|---|---|---|---|
| components/GenerateWallets.tsx:53 | `onClick={() => generateNewMnmonic}` returns the handler without calling it. The input's `onChange` at line 52 also discards what is typed. So the phrase never leaves "" | press Generate, then Solana: the public key is derived from the empty phrase | pressing Generate calls `generateNewMnmonic`, so later derivations use a fresh phrase | high; not executed | GenerateWallets.AsWrittenPhraseStaysEmpty | GenerateWallets.CorrectedGenerateThenDerive |

## Left out

- Cryptography is not modelled. That covers BIP-39 validation and PBKDF2 seed stretching, SLIP-0010 and BIP-32 hardened derivation, Ed25519 and secp256k1 keys, Keccak-256, EIP-55 checksums, and base58 and hex encoding. These are foreign library calls, so they appear only as opaque fields of `Crypto.Crypto`.
- Random phrase generation is not modelled because it is nondeterministic. Its result is a parameter of the handlers.
- `localStorage` loading and saving are left out as I/O. Loading at mount can install arbitrary `pathTypes`, which `WellFormed` does not cover.
- Toast messages, clipboard writes and `console.log` are left out as side effects with no effect on state.
- React state batching and stale closures are left out. Each handler is treated as one atomic step on the current state.
- `handleOnChange` is left out. It stores the typed text and then at once stores "" (lines 196-197), so as written `mnemonicInput` is always "". Every generate therefore takes the `generateMnemonic()` branch, each wallet gets its own fresh phrase, and the validation branch is never reached. The model makes the input a free parameter of `HandleGenerateWallet`, which over-approximates this: the code as written is the case where the input is "".
- `handleAddWallet` is left out because it has no effect.
- The `showMnemonic` and `gridView` toggles are left out as display only.
- `components/WalletListUI.tsx`, `components/Navbar.tsx` and `app/page.tsx` are left out as markup.
- Text.Decimal: does not model JavaScript Number limits. Integers above 2^53 lose precision, and values from 10^21 up render in exponent form. The model's indices are unbounded, and a wallet count or counter never gets near either limit.
- WalletsGenerator.PathTypeName: does not model lookups of keys inherited from `Object.prototype`, such as "toString". They return a function, not "". Such tags are unreachable without storage.
- The async `mnemonicToSeed` in `GenerateWallets.tsx` is treated as one atomic step. A rejection is the `None` case, which leaves the state untouched.
