# Socket Browser client core, modelled in Dafny

Socket Browser is a desktop browser for "socket-agent" APIs. A server publishes a JSON
descriptor at `/.well-known/socket-agent`: its name, base URL and endpoints. The browser
fetches that descriptor, checks it, and invokes endpoints by operationId, path or `method:path`.
It also keeps a small JSON key-value store on disk and a Solana wallet whose keypair is
encrypted under a password. A Python bridge does the same discovery and calls from the
command line.

This project models that core:

- `discovery.dfy` (module `Discovery`):
  - the probe URL;
  - status classification of the probe reply;
  - descriptor validation;
  - the `baseUrl` default;
  - `get_endpoint`.
- `client.dfy` (module `Client`):
  - method and path selection;
  - the parameter loop that sorts every parameter into a path substitution, a query
    parameter or a body field;
  - URL and body assembly;
  - status-to-error mapping.
- `storage.dfy` (module `Store`): the key-value store as a class. It holds the map and the
  last snapshot written to disk, and covers the load fallback.
- `wallet.dfy` (module `Wallet`):
  - the wallet as a class with its lock state;
  - the accessors;
  - unlock, save and the imports;
  - the `salt ‖ nonce ‖ ciphertext` framing of the encryption.
- `bridge.dfy` (module `Bridge`):
  - the bridge's URL building;
  - `infer_service_type`;
  - `clean_html`;
  - the endpoint lines of the website prompt;
  - the argument checks of `main`.
- `text.dfy` (module `Text`): the string operations the sources call, with their laws. These
  are `trim_end_matches`/`rstrip`, `contains`/`in`, `replace`, `strip`, `lower` and `join`.
- `wrappers.dfy` (module `Wrappers`): `Option`, `Result`, the JSON stand-in and HTTP status
  codes.

## How the environment is represented

- **Network:** it is a function parameter. Discovery takes `probe` (URL to reply). The client
  takes `transport` (request to response). The bridge takes `get` (query to reply).
- **JSON:** a value is either a JSON string or some other value given by its compact text.
  serde's parse step is the `payload`/`json` option of a reply.
- **Parameter maps:** a `HashMap` of parameters is a sequence of (key, value) pairs with
  distinct keys, in the order the map happens to yield them.
- **Libraries:** AES-256-GCM, PBKDF2, base64, base58, ed25519, BIP-39 and the Solana RPC
  client are the function fields of `Wallet.Primitives`. Two predicates state the laws the
  proofs rely on:
  - `Coherent`: seeds are 64 bytes, and derived public keys are 32 valid bytes;
  - `RoundTrips`: decoding undoes encoding, and opening undoes sealing.
- **Randomness:** the salt, the nonce and the generated mnemonic are parameters.
- **File system:** whether it accepts writes is the store's `writable` constant. What the
  storage file holds at start-up is an `AppDir` value.

## Behaviour of the code worth noting

- **URL normalisation:** `trim_end_matches('/')` and `rstrip('/')` strip every trailing
  slash, not just one (`TrimEnd`).
- **Endpoint resolution:** there is no precedence of operationId over path over
  `method:path` across the list. `get_endpoint` returns the first endpoint in list order that
  passes any of the three tests. `Discovery.ListOrderBeatsMatchKind` shows an earlier path
  match winning over a later operationId match.
- **Missing fields:** a descriptor without a `name` or `endpoints` field does not produce
  "missing required fields". It fails to deserialise ("Failed to parse Socket Agent
  descriptor"). Only empty values reach the validation message.
- **Desktop calls:** the desktop command (`src-tauri/src/main.rs:173`) never passes a
  descriptor. Every call from the UI is therefore a GET of the literal reference
  (`Client.CallFromDesktopCommand`).

## Model

| member | source | states |
|---|---|---|
| Text.TrimEnd | src-tauri/src/api/discovery.rs:46 | `trim_end_matches`: the result is a prefix of the input, only the removed suffix consists of the character, and the result does not end with it |
| Text.TrimEndIdempotent | src-tauri/src/api/discovery.rs:46 | normalising an already normalised URL changes nothing |
| Text.TrimEndAppend | src-tauri/src/api/discovery.rs:46 | one more trailing slash on the input gives the same normalised URL |
| Text.TrimMatches | src-tauri/src/api/client.rs:57 | `trim_matches`: never longer than the input, and the result neither starts nor ends with the character |
| Text.TrimMatchesSlice | src-tauri/src/api/client.rs:57 | the result is the slice of the input between a leading and a trailing run made only of the character |
| Text.Contains | src-tauri/src/api/client.rs:55 | `contains` / `in`: the pattern starts at the front or somewhere later (its meaning is stated by `ContainsIff`) |
| Text.ContainsIff | src/python/bridge.py:120-127 | a string contains a pattern exactly when the pattern starts at some position of it |
| Text.ContainsAroundSeparator | src/python/bridge.py:118-120 | a keyword without a space is found in `name + " " + description` exactly when it is found in one of the two parts |
| Text.ReplaceAll | src/python/bridge.py:205 | `replace`: the input itself when shorter than the pattern |
| Text.ReplaceAllNoLonger | src/python/bridge.py:205 | a replacement no longer than the pattern never lengthens the text |
| Text.ReplaceAllRemovesEvery | src-tauri/src/api/client.rs:58 | when every occurrence of the pattern's first character starts an occurrence and the replacement lacks that character, no occurrence is left |
| Text.RemoveRunLeavesNone | src/python/bridge.py:205 | after `replace('```', '')` no "```" remains, even where the removal glues backticks together |
| Text.StripAfterRemoveRun | src/python/bridge.py:205-206 | stripping after that removal cannot reintroduce the run |
| Text.Strip | src/python/bridge.py:206 | `strip()` returns a slice of its input with no `isspace` character at either end, and everything it removed before and after that slice is whitespace |
| Text.StripStripped | src/python/bridge.py:206 | a string without whitespace at its ends is its own `strip()` |
| Text.StripKeepsAbsent | src/python/bridge.py:206 | stripping cannot create an occurrence of a pattern |
| Text.Lower | src/python/bridge.py:116-117 | `lower()`: same length, every upper-case ASCII letter becomes its lower-case letter, every other character is kept, so no upper-case ASCII letter is left |
| Text.JoinCount | src/python/bridge.py:165 | joining newline-free lines with "\n" puts exactly one newline between consecutive lines |
| Text.Join | src/python/bridge.py:165 | `"\n".join`: no lines give the empty text, otherwise the text starts with the first line |
| Text.SplitOnJoin | src/python/bridge.py:165 | splitting a join of separator-free lines at the separator gives the lines back |
| Text.NatToString | src-tauri/src/api/client.rs:118-122 | `{}` of a number: non-empty, digits only, a leading zero only for zero, one digit exactly below ten |
| Text.NatToStringValue | src-tauri/src/api/client.rs:118-122 | the decimal text reads back as the number |
| Discovery.ProbeUrlIgnoresTrailingSlash | src-tauri/src/api/discovery.rs:46-49 | the probe URL is the same for the input with any number of trailing slashes |
| Discovery.ProbeUrl | src-tauri/src/api/discovery.rs:46-49 | the URL ends with `/.well-known/socket-agent` after a base that is the input with only trailing slashes removed and that itself does not end with a slash |
| Discovery.DiscoverSocketAgent | src-tauri/src/api/discovery.rs:46-99 | connection failure, 404 (message carries the URL as given), any other non-2xx, unparsable body and empty name/endpoints each give their own error; success exactly when the reply is 2xx, parsed and has both fields; an accepted descriptor has a base URL, which is the trimmed input when the payload had none and the payload's otherwise; nothing else is changed |
| Discovery.DiscoveryError.Message | src-tauri/src/api/discovery.rs:65-93 | the anyhow texts of the discovery errors: connection, no Socket Agent at the URL, HTTP code, parse and missing fields |
| Discovery.FindFirst | src-tauri/src/api/discovery.rs:112-128 | the index found is the first matching endpoint; `None` exactly when no endpoint matches |
| Discovery.Matches | src-tauri/src/api/discovery.rs:112-127 | the three tests of `get_endpoint`: same operationId, same path, or `method:path` for a declared method (a predicate; its uses are stated by `FindFirst` and `GetEndpoint`) |
| Discovery.GetEndpoint | src-tauri/src/api/discovery.rs:111-129 | `None` exactly when no endpoint passes any of the three tests; otherwise the first endpoint in list order that passes one, taken from the descriptor's list |
| Discovery.MethodPathTestNeedsMethod | src-tauri/src/api/discovery.rs:121-126 | without a declared method only the operationId and path tests can match |
| Discovery.ListOrderBeatsMatchKind | src-tauri/src/api/discovery.rs:112-128 | an endpoint matched by path wins over a later one matched by operationId |
| Discovery.MethodPathReference | src-tauri/src/api/discovery.rs:121-126 | `POST:/products` selects the POST endpoint while the bare path selects the first one |
| Client.SplitRoles | src-tauri/src/api/client.rs:53-67 | with distinct keys, every key lands in exactly one of path substitutions, query and body, and no other key appears |
| Client.ValueText | src-tauri/src/api/client.rs:57-61 | a JSON string gives its contents; any other value gives exactly its JSON text under `trim_matches('"')`, which neither starts nor ends with a quote |
| Client.Step | src-tauri/src/api/client.rs:53-67 | one turn of the parameter loop; what it does is stated by `StepReplacesEveryOccurrence`, `StepRoles` and `StepValues` |
| Client.StepRoles | src-tauri/src/api/client.rs:53-67 | a new key is added in exactly one role, keeping the roles disjoint and the path keys distinct |
| Client.StepValues | src-tauri/src/api/client.rs:59-65 | one turn keeps the other keys' values and records its own key's text or value |
| Client.StepReplacesEveryOccurrence | src-tauri/src/api/client.rs:54-58 | for a key of any characters: when every `{` of the path opens that key's placeholder and the value's text has no `{`, no occurrence is left after the key's turn |
| Client.ReplacePlaceholderEverywhere | src-tauri/src/api/client.rs:58 | `replace` leaves no `{key}` in a template whose every `{` is closed by a `}` before the next `{`, for a key without braces and a value text without `{`, whatever other placeholders the template holds |
| Client.StepReplacesPlaceholder | src-tauri/src/api/client.rs:54-58 | under those conditions a key's turn substitutes it and leaves no occurrence of its placeholder |
| Client.TwoPlaceholdersClosed | src-tauri/src/api/client.rs:54-58 | a template with two different placeholders, such as `/users/{id}/posts/{postId}`, meets those conditions and contains the first placeholder |
| Client.SplitParams | src-tauri/src/api/client.rs:49-67 | the whole loop, run in order from the template; what it does is stated by `SplitRoles`, `SplitMethodRule`, `SplitValues` and `RoleOfKey` |
| Client.SortParams | src-tauri/src/api/client.rs:49-67 | the loop, run in place over the three accumulators, ends with exactly the path, query map and body map of `SplitParams` |
| Client.SplitMethodRule | src-tauri/src/api/client.rs:59-66 | for GET/DELETE the body map stays empty; for any other method the query map stays empty |
| Client.SplitValues | src-tauri/src/api/client.rs:57-65 | a query parameter carries the value's text (JSON strings unquoted), a body field the value itself |
| Client.RoleOfKey | src-tauri/src/api/client.rs:53-67 | a key is a path substitution exactly when `{key}` occurs in the path built before its turn; otherwise query for GET/DELETE (case-sensitive) and body otherwise |
| Client.SplitWithoutPlaceholders | src-tauri/src/api/client.rs:54-58 | parameters whose placeholders the template lacks leave the path untouched |
| Client.ResolveTarget | src-tauri/src/api/client.rs:31-46 | no descriptor or no match gives GET and the literal reference; otherwise the endpoint is exactly the one `get_endpoint` returns, it is in the descriptor and matches the reference, and the target is its path and its method, GET when absent |
| Client.QueryOrBody | src-tauri/src/api/client.rs:96-105 | a request carries query parameters or a body, never both, and GET/DELETE never carry a body |
| Client.BuildRequest | src-tauri/src/api/client.rs:31-105 | the request has the resolved method, the URL trimmed base plus the path the loop built, exactly the loop's query map, and a JSON body exactly when the method is neither GET nor DELETE and the loop's body map is non-empty |
| Client.IsValidMethod | src-tauri/src/api/client.rs:86-87 | `Method::from_bytes` accepts exactly a non-empty token (a predicate; its use is stated by `CallApi`) |
| Client.CallFromDesktopCommand | src-tauri/src/main.rs:173 | the desktop command's calls are GETs to the trimmed base plus the substituted reference, with no body, every non-path key in the query |
| Client.StatusError | src-tauri/src/api/client.rs:117-123 | 400-499 is a client error, 500 and above a server error, any other non-2xx an "HTTP" error, each carrying code and text |
| Client.ApiError.Message | src-tauri/src/api/client.rs:87-130 | the anyhow texts of the call errors, with code and response text for the three status errors |
| Client.Outcome | src-tauri/src/api/client.rs:108-130 | send failure, status error with the body text or "Unknown error", unparsable JSON, or the parsed data exactly for 2xx with JSON |
| Client.CallApi | src-tauri/src/api/client.rs:31-124 | the request it builds is exactly `BuildRequest`'s; an invalid method token sends nothing and fails; otherwise the sent request's outcome is returned |
| Client.PathThenOther | src-tauri/src/api/client.rs:53-67 | on `prefix{key}` the placeholder parameter is substituted and the other goes to the query for GET/DELETE and the body otherwise |
| Client.ResolvedGetWithoutPlaceholders | src-tauri/src/api/client.rs:41-70 | a resolved GET endpoint without placeholders sends its parameter in the query to the trimmed base plus the endpoint's path |
| Client.LowerCaseGetSendsBody | src-tauri/src/api/client.rs:59 | a declared method "get" is not treated as GET: its parameter goes to a JSON body |
| Store.LoadedData | src-tauri/src/storage/mod.rs:19-36 | a missing or unparsable file loads as the empty map, a parsed file as exactly its map; only a missing or uncreatable directory or an unreadable file is an error |
| Store.StorageError.Message | src-tauri/src/storage/mod.rs:22-67 | the anyhow texts of the four storage failures |
| Store.Storage.constructor | src-tauri/src/storage/mod.rs:38-41 | a new store holds the loaded map and has written nothing |
| Store.Storage.Open | src-tauri/src/storage/mod.rs:18-42 | opening fails exactly when loading fails, else yields a fresh store on the loaded map |
| Store.Storage.Get | src-tauri/src/storage/mod.rs:44-47 | the stored value exactly when the key is present |
| Store.Storage.Save | src-tauri/src/storage/mod.rs:63-69 | the whole given map becomes the file's content when writes succeed; otherwise a write error and no change |
| Store.Storage.Set | src-tauri/src/storage/mod.rs:49-54 | the key now maps to the value, other keys are unchanged, and the whole map is persisted when writes succeed; memory changes even when the write fails |
| Store.Storage.Remove | src-tauri/src/storage/mod.rs:56-61 | the key is gone, other keys are unchanged, removing an absent key succeeds, and the whole map is persisted |
| Wallet.FromStorage | src-tauri/src/wallet/mod.rs:254-261 | a storage failure propagates as the wallet's error, success as success |
| Wallet.DecryptError.Message | src-tauri/src/wallet/mod.rs:298-320 | the texts of the three decryption failures |
| Wallet.WalletError.Message | src-tauri/src/wallet/mod.rs:115-282 | the outermost anyhow text of each wallet error, a storage failure showing the storage text and an RPC failure the client's text |
| Wallet.Address | src-tauri/src/wallet/mod.rs:214 | `pubkey().to_string()`: the base58 text of the public key |
| Wallet.KeypairFromBytes | src-tauri/src/wallet/mod.rs:151 | succeeds exactly for 64 bytes whose public half is valid, and then its bytes are the input |
| Wallet.CopyKeypair | src-tauri/src/wallet/mod.rs:92 | `from_bytes(to_bytes())` of an accepted keypair gives it back, so the copy into the wallet cannot fail |
| Wallet.Frame | src-tauri/src/wallet/mod.rs:284-288 | the combined buffer is salt at 0..16, nonce at 16..28 and the sealed data from 28 |
| Wallet.Encryption | src-tauri/src/wallet/mod.rs:266-292 | fails, with "Encryption failed", exactly when sealing fails; with the codec laws a success decodes to a buffer starting with the salt and then the nonce |
| Wallet.Unframe | src-tauri/src/wallet/mod.rs:300-307 | fewer than 28 bytes are rejected; otherwise the three pieces frame back to the input |
| Wallet.UnframeFrame | src-tauri/src/wallet/mod.rs:284-307 | splitting at 16 and 28 recovers the salt, nonce and sealed data that were concatenated |
| Wallet.Encrypt | src-tauri/src/wallet/mod.rs:266-292 | the buffer built piece by piece is the frame, and the result is its base64, or "Encryption failed" |
| Wallet.Decrypt | src-tauri/src/wallet/mod.rs:295-323 | bad base64 and short data each give their error; otherwise the result is exactly the opening of the framed data under the key derived from the stored salt, and "Decryption failed" exactly when that opening fails |
| Wallet.DecryptEncryption | src-tauri/src/wallet/mod.rs:266-323 | decrypting with the same password recovers what was encrypted |
| Wallet.SavedKeypairUnlocks | src-tauri/src/wallet/mod.rs:184-190 | the stored ciphertext of a keypair decrypts and parses back into that keypair |
| Wallet.ParsePrivateKey | src-tauri/src/wallet/mod.rs:147-151 | bad base58 is "Invalid private key"; success exactly when the text decodes to 64 bytes whose public half is valid; a parsed keypair is accepted and its bytes are the decoded text |
| Wallet.ExportedKeyImports | src-tauri/src/wallet/mod.rs:235 | an exported private key imports back as the same keypair |
| Wallet.SeedKeypairAsWritten | src-tauri/src/wallet/mod.rs:85 | `Keypair::from_bytes(&seed[..32])` always fails with a length error |
| Wallet.SolanaWallet.GenerateNewAsWritten | src-tauri/src/wallet/mod.rs:74-85 | as written, `generate_new` always fails with the length error ("signature error") and changes nothing |
| Wallet.SolanaWallet.ImportFromMnemonicAsWritten | src-tauri/src/wallet/mod.rs:107-119 | as written, an invalid phrase is "Invalid recovery phrase" and a valid one always fails with the length error; nothing is changed |
| Wallet.KeypairFromSeed | src-tauri/src/wallet/mod.rs:84-85 | the corrected keypair has the first 32 seed bytes as secret and is an accepted keypair |
| Wallet.SeedKeypairCopies | src-tauri/src/wallet/mod.rs:92 | the corrected seed keypair survives the copy into the wallet |
| Wallet.SolanaWallet.constructor | src-tauri/src/wallet/mod.rs:55-66 | a new wallet is locked |
| Wallet.SolanaWallet.HasWallet | src-tauri/src/wallet/mod.rs:69-71 | true exactly when the store has an entry under `solana_wallet_encrypted` |
| Wallet.SolanaWallet.IsUnlocked | src-tauri/src/wallet/mod.rs:241-244 | true exactly when a keypair is held |
| Wallet.SolanaWallet.Lock | src-tauri/src/wallet/mod.rs:205-208 | afterwards the wallet is locked |
| Wallet.SolanaWallet.GetAddress | src-tauri/src/wallet/mod.rs:211-217 | fails exactly while locked; while unlocked it succeeds with exactly the base58 public key |
| Wallet.SolanaWallet.GetBalance | src-tauri/src/wallet/mod.rs:220-229 | fails while locked, and with the RPC client's error text when RPC fails; succeeds exactly when unlocked and RPC succeeds, and then balance times 10^9 equals the lamports |
| Wallet.SolanaWallet.ExportPrivateKey | src-tauri/src/wallet/mod.rs:232-238 | fails exactly while locked; while unlocked it succeeds with exactly base58 of the 64 keypair bytes |
| Wallet.SolanaWallet.SaveWallet | src-tauri/src/wallet/mod.rs:247-263 | ciphertext under the wallet key then address under the address key, each persisted; an encryption failure touches nothing; a failed write stops after the first key |
| Wallet.SolanaWallet.SaveAndUnlock | src-tauri/src/wallet/mod.rs:88-92 | success exactly when encryption and writes succeed; then the wallet holds the keypair; on failure the lock state is unchanged |
| Wallet.SolanaWallet.GenerateNew | src-tauri/src/wallet/mod.rs:74-104 | with the corrected seed keypair: success exactly when encryption and writes succeed, then unlocked with it and returning address and phrase |
| Wallet.SolanaWallet.ImportFromMnemonic | src-tauri/src/wallet/mod.rs:107-138 | an invalid phrase is "Invalid recovery phrase" and touches nothing; otherwise as `GenerateNew` |
| Wallet.SolanaWallet.ImportFromPrivateKey | src-tauri/src/wallet/mod.rs:141-168 | a key that does not parse fails and touches nothing; otherwise saves, unlocks and returns the address |
| Wallet.SolanaWallet.Unlock | src-tauri/src/wallet/mod.rs:171-202 | no entry is "No wallet found", a non-string entry "Invalid wallet data", a decryption error "Wrong password"; success exactly when the entry decrypts to a keypair, which is then held; every failure leaves the lock state unchanged |
| Wallet.LockedAccessorsFail | src-tauri/src/wallet/mod.rs:211-238 | while locked, address, balance and export all fail with "Wallet not unlocked" |
| Wallet.ExportImportRoundTrip | src-tauri/src/wallet/mod.rs:232-238 | while unlocked, the exported key parses back into the held keypair |
| Wallet.SaveThenUnlock | src-tauri/src/wallet/mod.rs:171-190 | saving, locking and unlocking with the same password leaves the wallet holding the saved keypair |
| Bridge.DiscoveryUrl | src/python/bridge.py:43 | the bridge probes the same URL as the desktop client |
| Bridge.DiscoveryUrlNormalises | src/python/bridge.py:43 | a trailing slash does not change the discovery URL, which starts with the trimmed input |
| Bridge.CallApiUrl | src/python/bridge.py:213-216 | the trimmed base, one "/", and the endpoint without its leading "/" if it had one |
| Bridge.CallApiUrlSeparator | src/python/bridge.py:213-216 | for an endpoint not starting with "//", exactly one "/" separates base and endpoint |
| Bridge.CleanHtml | src/python/bridge.py:202-206 | cleaning never lengthens the page |
| Bridge.CleanHtmlClean | src/python/bridge.py:202-206 | the cleaned page contains no "```" and has no whitespace at either end |
| Bridge.CleanHtmlIdempotent | src/python/bridge.py:202-206 | cleaning a cleaned page changes nothing |
| Bridge.Interpret | src/python/bridge.py:44-47 | no reply or a 4xx/5xx code fails; success exactly for other codes with a JSON body |
| Bridge.DiscoverApi | src/python/bridge.py:40-56 | a descriptor exactly when the GET of the discovery URL is not raised and parses; failures carry their cause |
| Bridge.CallApi | src/python/bridge.py:209-230 | a GET of the joined URL with the params as query; data and status exactly when not raised and JSON |
| Bridge.RedirectIsNotAnError | src/python/bridge.py:219 | a 3xx reply with JSON counts as a successful call |
| Bridge.ServiceType.Label | src/python/bridge.py:114-129 | the label is one of the five service-type strings |
| Bridge.MentionsListed | src/python/bridge.py:120-127 | mentioning a keyword group means containing one of its words |
| Bridge.Combined | src/python/bridge.py:116-118 | the lowered name, one space, then the lowered description, with no upper-case ASCII letter |
| Bridge.InferServiceType | src/python/bridge.py:114-129 | each label holds exactly when its keyword group is mentioned and no earlier group is; generic when none is |
| Bridge.MentionedInNameOrDescription | src/python/bridge.py:116-118 | a group is mentioned by the combined text exactly when the lowered name or the lowered description mentions it |
| Bridge.NameDecidesGrocery | src/python/bridge.py:120-121 | a name mentioning grocery/store/shop makes a grocery store whatever the description |
| Bridge.GenericWhenNoKeyword | src/python/bridge.py:120-129 | generic exactly when neither name nor description mentions any keyword |
| Bridge.EcommerceNeedsOnlyCommerce | src/python/bridge.py:126 | the "ecommerce" test is subsumed by the "commerce" test |
| Bridge.Tag | src/python/bridge.py:166 | the line label falls back from operationId to path to "" |
| Bridge.EndpointLine | src/python/bridge.py:166 | a line is "- label: ", the method (GET when absent), " ", the path, " - " and then exactly the summary, with nothing after it |
| Bridge.EndpointList | src/python/bridge.py:165-168 | no endpoints give the empty text; otherwise it starts with the first endpoint's line |
| Bridge.EndpointListSplits | src/python/bridge.py:165-168 | with newline-free fields, splitting the list at its newlines gives one piece per endpoint, piece `i` being the line of endpoint `i` |
| Bridge.LineHasNoNewline | src/python/bridge.py:166 | a line built from newline-free fields holds no newline |
| Bridge.EndpointListLines | src/python/bridge.py:165-168 | the endpoint list has exactly one line per endpoint |
| Bridge.RunBridge | src/python/bridge.py:233-281 | exit code 1 exactly when an error is printed; missing command, short argv for each command, bad JSON and unknown command each give their exact message; otherwise the command's result with exit code 0 |

## Left out

- HTTP sending, timeouts, headers and query URL-encoding (reqwest, requests): replies are parameters of the operations.
- JSON (de)serialisation (serde, `json.loads`, `json.dumps`): a parse is an `Option` or `Result` input, and values are reduced to "string or its JSON text".
- Discovery.DiscoveryError.Message: the "HTTP code" message omits the `": " + canonical_reason` suffix, because the reason-phrase table is part of reqwest.
- Client.CallApi: the `println!` logging is left out, and the client-builder failure at `client.rs:83` is not modelled; both are I/O.
- Text.Lower: only ASCII letters are lowered; Python's full Unicode case mapping is left out.
- Wallet.WalletError.Message: `KeypairLength` and `InvalidPublicKey` show only "signature error"; the ed25519 library's detail text after it is left out.
- Discovery.DiscoverSocketAgent: the `println!` logging and the failure of `Client::builder().build()` at `discovery.rs:51-56` are left out; both are I/O.
- Wallet.SolanaWallet.GetBalance: the division is exact; the `u64`-to-`f64` conversion and rounding are left out.
- Wallet.KeypairFromBytes: the ed25519 public-key check is an uninterpreted `validPublic`; the curve arithmetic is left out.
- Cryptography, base64, base58, BIP-39 and RPC are uninterpreted functions; their laws are the `Coherent` and `RoundTrips` preconditions.
- "Failed to create cipher" is not modelled: PBKDF2 always fills a 32-byte key, so `new_from_slice` cannot fail.
- The `Mutex` around the store's map and the wallet's keypair is left out; concurrency is out of scope.
- The actual file write in `Storage::save` and the file path are left out; write success is the store's `writable` flag.
- The `WalletResponse` and `ApiCallResponse` structs are left out: results are returned as values, not as serialised structs.
- Bridge: `get_openai_client`, `generate_complete_website` and the rest of `build_website_prompt` are left out. They are LLM wrappers, `.env` reading and a constant template; the generator is a parameter of `RunBridge`.
- Bridge: descriptor fields that are present but null, or not strings, are left out; they make `lower()` or the f-string behave differently.
- `src-tauri/src/auth/mod.rs`, `src-tauri/src/llm/mod.rs` and `src/python/llm_provider.py` are left out: they are network clients around remote calls.
- `src-tauri/src/main.rs` is not part of this model, beyond the descriptor-less call it makes.
- The navigation state machine and history stack are left out.

## Findings

| source | as written | input that shows it | evidently intended | confidence | as-written member | corrected member |
|---|---|---|---|---|---|---|
| src-tauri/src/wallet/mod.rs:85 | `Keypair::from_bytes(&seed[..32])` (also line 119) hands 32 bytes to a constructor that requires the 64-byte secret-and-public encoding, so `generate_new` and `import_from_mnemonic` always return an error before saving | any phrase: its 64-byte BIP-39 seed gives a 32-byte slice, and `from_bytes` rejects length 32 | derive the keypair from the 32-byte seed prefix (secret key plus its derived public key, as `keypair_from_seed` does), which then saves and unlocks | high (from the library's documented length check); not executed | Wallet.SeedKeypairAsWritten | Wallet.KeypairFromSeed |
