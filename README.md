# Sonic passkey wallet — a Dafny model

The wallet is a small demo for the Sonic testnet. It lets a user hold an
"account abstraction" style wallet that is unlocked with a passkey (WebAuthn)
and not with a seed phrase. It has two halves, and this project models both:

- **The server** (`server.js`) derives a signing key and an address from a
  passkey's credential id. It hashes `credentialId + "sonic-wallet-seed"`
  with SHA-256 and gives the digest, written as `0x` + hex, to
  `ethers.Wallet`. It keeps an in-memory `accounts` map keyed by credential
  id, which four HTTP handlers read and write:
  - create: validates its two fields and overwrites the entry;
  - retrieve: an upsert that synthesises a "recovered" record for an unknown
    id;
  - a debug listing, in insertion order;
  - a private-key export that answers 404 for an unknown id.

  The send-transaction handler checks the recipient and the credential id
  before it derives the signer.
- **The browser** (`public/wallet.js`) has a `PasskeyManager` and a
  `SmartWalletManager`:
  - `PasskeyManager` runs the WebAuthn ceremonies. It caches the credential
    in use in the `sonic_wallet_credential` storage slot, with its raw id in
    Base64. Authentication first asks for the cached credential. When that
    fails it falls back to discovery, and a discovery overwrites the cache.
  - `SmartWalletManager` calls the server's create and retrieve handlers. It
    stores the returned record in the `sonic_wallet_account` slot, and it
    drives the page globals `currentAccount` and `transactions` (newest
    first).
  - The page's start-up code restores a session only when both slots are
    filled.
  - The send form refuses missing fields and recipients that do not match
    `^0x[a-fA-F0-9]{40}$`.

Modules:

| file | module | contents |
|---|---|---|
| `wrappers.dfy` | `Wrappers` | `Option` (JavaScript `null`/`undefined`, empty slots, failing decoders) |
| `encoding.dfy` | `Encoding` | bytes, lowercase hex (`toString(16).padStart(2,'0')`), hex decoding, the recipient pattern, `btoa` and `atob` |
| `server.dfy` | `Server` | derivation, the `accounts` map as a class with pure step functions, the send guards, key export |
| `wallet.dfy` | `Wallet` | storage slots, the authenticator, `PasskeyManager`, `SmartWalletManager` and the page handlers |

How the model is put together:

- **Library code is passed in.** SHA-256 and `ethers.Wallet(key).address`
  are function-valued fields of `Server.Crypto`. The digest is a 32-byte
  `Encoding.Digest`. `ethers.isAddress` is a parameter of
  `Server.CheckSend`.
- **The authenticator is an oracle.** `navigator.credentials` is the class
  `Wallet.Authenticator`. Each call may settle either way, and the call is
  appended to a `log`. The client's contracts are stated over that log.
- **The outside world becomes parameters.** Clock readings (`Date.now()`)
  are parameters, one per call in the source. So are the random bytes of
  the transaction hash.
- **Calls to the server are direct.** A `fetch` to the server is a call of
  the corresponding `Server.AccountRegistry` method. `response.ok` is the
  reply being `Ok`.

## Model

| member | source | states |
|---|---|---|
| Server.SeedInputInjective | server.js:34 | distinct credential ids give distinct hash inputs, because the salt is a fixed suffix |
| Server.PrivateKeySpellsDigest | server.js:34-35 | the private key is `0x` followed by 64 hex digits that decode back to the SHA-256 digest of `id + "sonic-wallet-seed"` |
| Server.ChainIdIgnored | server.js:31-40 | the derived address is the same for every chain id; the parameter is never read |
| Server.GenerateWalletAddress | server.js:31-40 | definition, without a contract of its own: the key-to-address function applied to the private key of the id alone; what it guarantees is stated by `ChainIdIgnored`, `PrivateKeySpellsDigest` and `SignerIsStoredAccount` |
| Server.Create | server.js:208-236 | an error reply leaves the map as it was; a success echoes the two given fields, stores the reply under its id (replacing any earlier entry) and carries the address derived from the id |
| Server.Retrieve | server.js:239-286 | an error reply leaves the map as it was; a success needs a given id, stores the returned record under that id and reports `isNewRecovery` exactly when the id was not stored before |
| Server.CreateValidates | server.js:212-214 | create answers 400 exactly when `credentialId` or `username` is missing or empty, and then leaves the map unchanged |
| Server.CreateSetsOnlyItsEntry | server.js:216-231 | a successful create replies with the record it stored under the id: the derived address, the username and both clock readings; no other entry changes and the key set grows by the id only |
| Server.CreateOverwrites | server.js:226 | a second create for the same id replaces the username and keeps the address and the key set |
| Server.RetrieveUpserts | server.js:243-282 | retrieve answers 400 exactly for a missing id and then changes nothing; otherwise the id is in the map afterwards, holding the record that was returned |
| Server.RetrieveRecovers | server.js:250-270 | an unknown id gets a record with the derived address, username `Usuário Recuperado`, `recovered` set and `isNewRecovery: true`; other entries are kept |
| Server.RetrieveTouches | server.js:273-282 | a known id only has `lastAccess` updated and `isNewRecovery` is false; nothing else changes |
| Server.RetrieveTwice | server.js:239-286 | two retrieves of one id give the same address, and the second never reports a new recovery |
| Server.CreateKeepsDerived | server.js:216-226 | after create, every stored record still sits under its own id with the address derived from it |
| Server.RetrieveKeepsDerived | server.js:248-275 | after retrieve, every stored record still sits under its own id with the address derived from it |
| Server.CheckSend | server.js:101-122 | the send handler's guards answer an error exactly when the recipient is not an address or the credential id is missing; past them, the signer is derived from the id |
| Server.SendRejectsBeforeDerivation | server.js:101-107 | a rejected send is the same whatever the hash and key functions are: the guards run before anything is derived |
| Server.SignerIsStoredAccount | server.js:118-122 | the signer of a send for a stored id has the private key of that id and the address stored for it; the registry does not gate the send |
| Server.SignerAfterRetrieve | server.js:119-122 | a send after a retrieve for the same id signs with the address that retrieve returned, whether the id was known or new |
| Server.DistinctKeysCount | server.js:291 | a key order without repetitions has as many entries as the map has keys |
| Server.Placed | server.js:226 | definition of where `Map.set` leaves the key order: a new key goes last, a known key keeps its place |
| Server.AccountRegistry.Set | server.js:226 | `Map.set`: the entry is replaced; a new key goes to the end of the insertion order, an existing key keeps its place |
| Server.AccountRegistry.HandleCreate | server.js:208-236 | the reply and the new map are those of `Create`; on success the key order is `Placed` (a new id goes last), on error it is unchanged; the invariant (each key listed once, each address derived from its key) is kept |
| Server.AccountRegistry.HandleRetrieve | server.js:239-286 | the reply and the new map are those of `Retrieve`; on success the key order is `Placed` (a recovered id goes last), on error it is unchanged; the invariant is kept |
| Server.AccountRegistry.ListAccounts | server.js:289-300 | every stored record is listed once, in the registry's key order (which every write keeps in first-insertion order, see `Placed`), and `total` equals the number of records |
| Server.AccountRegistry.ExportPrivateKey | server.js:345-376 | 400 without an id and 404 for an unknown id, in which case nothing is created; otherwise the id, the re-derived address and the key; that address equals the stored one |
| Encoding.HexValueOfDigit | public/wallet.js:224 | decoding a hex digit produced for a nibble gives the nibble back |
| Encoding.ByteToHexDigits | public/wallet.js:224 | `b.toString(16).padStart(2, '0')` is the two lowercase digits of the byte's high and low nibbles |
| Encoding.HexEncode | public/wallet.js:223-225 | two characters per byte; that they are lowercase and decode back is stated by `HexEncodeLower` and `HexRoundTrip` |
| Encoding.HexEncodeLower | public/wallet.js:223-225 | a hex encoding uses lowercase digits only |
| Encoding.HexRoundTrip | server.js:35 | decoding the hex encoding of bytes gives the bytes back |
| Encoding.HexDecodeShape | public/wallet.js:610 | a string decodes as hex exactly when it has even length and only hex digits (either case), into half as many bytes |
| Encoding.AddressPatternIsTwentyBytes | public/wallet.js:610 | a string matches `^0x[a-fA-F0-9]{40}$` exactly when it is `0x` followed by hex that decodes to 20 bytes |
| Encoding.PrefixedHexMatchesPattern | public/wallet.js:222-225 | `0x` plus the hex of 20 bytes always matches the recipient pattern |
| Encoding.MatchesAddressPattern | public/wallet.js:610 | definition of the test `^0x[a-fA-F0-9]{40}$`; characterised by `AddressPatternIsTwentyBytes` |
| Encoding.Base64ValueOfChar | public/wallet.js:64 | decoding a Base64 character produced for a sextet gives the sextet back |
| Encoding.Base64Encode | public/wallet.js:64 | definition of `btoa` on bytes: groups of three bytes as four characters, the tail padded with `=`; its length and round trip are `Base64EncodeLength` and `Base64RoundTrip` |
| Encoding.Base64Decode | public/wallet.js:100 | definition of `atob`: up to two trailing `=` removed, the rest decoded four characters at a time with spare bits ignored, and `None` exactly where `atob` would throw; its round trip is `Base64RoundTrip` |
| Encoding.Base64EncodeLength | public/wallet.js:64 | `btoa` output has a length that is a multiple of 4 |
| Encoding.GroupValues | public/wallet.js:64 | the four characters of a full group carry the three bytes' sextets |
| Encoding.DecodeGroup | public/wallet.js:100 | decoding a full encoded group followed by decodable text gives the three bytes followed by that text's bytes |
| Encoding.DecodeFinalOne | public/wallet.js:100 | the two-character tail of one leftover byte decodes to that byte |
| Encoding.DecodeFinalTwo | public/wallet.js:100 | the three-character tail of two leftover bytes decodes to those bytes |
| Encoding.DecodeEncodeUnpadded | public/wallet.js:64 | decoding the unpadded encoding of any bytes gives the bytes back |
| Encoding.UnpaddedLength | public/wallet.js:64 | the unpadded encoding is 0, 2 or 3 characters past a multiple of four for 0, 1 or 2 leftover bytes |
| Encoding.StripPaddingOfEncoding | public/wallet.js:100 | removing the `=` padding from `btoa` output gives the unpadded encoding |
| Encoding.Base64RoundTrip | public/wallet.js:64 | `atob(btoa(bytes))` gives the bytes back |
| Wallet.GenerateWalletAddress | public/wallet.js:212-232 | the client address is 42 characters, `0x` and lowercase hex decoding to the last 20 bytes of SHA-256 of `(id or rawId) + "14601"`, and it matches the recipient pattern |
| Wallet.AddressInput | public/wallet.js:215-217 | definition of the hashed text: the id, or `[object ArrayBuffer]` when the id is empty, followed by `14601` |
| Wallet.CachedRecordScopes | public/wallet.js:64-74 | a record cached by registration or discovery decodes, through `atob`, to the raw id of its credential |
| Wallet.CachedAfter | public/wallet.js:148-162 | definition of the credential slot after `authenticate`: a final discovery that resolved to a credential caches it under `descoberta`, anything else leaves the slot alone |
| Wallet.DiscoveryRetriedWhenNothingCached | public/wallet.js:88-91 | with nothing cached, a rejected discovery is followed by a second discovery |
| Wallet.AuthenticateScopesToCachedCredential | public/wallet.js:99-127 | after a registration or a discovery, authentication first asks for exactly that credential, and a second, discovery request happens exactly when the first is rejected |
| Wallet.PasskeyManager.CreateCredential | public/wallet.js:23-82 | one creation ceremony for the username; a resolved credential is returned and cached with its Base64 raw id and username; a rejection or `null` throws and leaves the slot unchanged |
| Wallet.PasskeyManager.AuthenticateWithDiscovery | public/wallet.js:131-169 | one unscoped request; its result is returned; a non-null assertion overwrites the cache under username `descoberta`; a rejection throws and changes nothing |
| Wallet.PasskeyManager.Authenticate | public/wallet.js:85-128 | the requests satisfy `AuthenticateCalls`: the first is scoped to the decoded cached raw id (a discovery if nothing is cached or `atob` throws), and a discovery follows exactly when that first one is rejected; the result is the last request's; the credential slot becomes `CachedAfter` and the account slot is untouched |
| Wallet.PasskeyManager.ClearCredential | public/wallet.js:177-182 | both slots are empty afterwards and `hasStoredCredential` is false; repeating it changes nothing |
| Wallet.PasskeyManager.HasStoredCredential | public/wallet.js:172-174 | the credential slot is filled; it is false after `ClearCredential`, and `RestoreSession` reads it |
| Wallet.PrependKeepsHistory | public/wallet.js:468-478 | putting a successful record with its own explorer link in front keeps every history record well formed |
| Wallet.SmartWalletManager.CreateAccount | public/wallet.js:235-273 | one creation ceremony, whose credential is cached as `Registered` whatever the server answers; success exactly when the ceremony gave a credential with a non-empty id and the username is non-empty; then the map, the reply and the key order are those of `Server.Create` for that id and the account slot holds the reply; on a throw the map, the order and the account slot are unchanged |
| Wallet.SmartWalletManager.ConnectAccount | public/wallet.js:276-321 | the requests are those of `authenticate` (`AuthenticateCalls`) and the credential slot is `CachedAfter`; success exactly when the last request gave a credential with a non-empty id; then the map and the key order are those of `Server.Retrieve` for that id, whose reply record is returned and stored in the account slot, with the address derived from the id; on a throw the map, the order and the account slot are unchanged |
| Wallet.SmartWalletManager.Disconnect | public/wallet.js:324-327 | both slots are cleared and the current account is forgotten |
| Wallet.SmartWalletManager.CreateAccountClicked | public/wallet.js:560-571 | a cancelled or empty username makes no ceremony and changes nothing; otherwise exactly one creation ceremony for the username, whose credential is cached as `Registered`; connected exactly when it gave a credential with a non-empty id; then the current account has that id and the given username, is the record `Server.Create` replied with and stored, and the key order is `Placed`; otherwise the current account, the map, the order and the account slot are unchanged |
| Wallet.SmartWalletManager.LoginClicked | public/wallet.js:574-583 | the requests are those of `authenticate` and the credential slot is `CachedAfter`; connected exactly when the last request gave a credential with a non-empty id; then the current account is the record `Server.Retrieve` returned for that id and the map and key order are the ones it left; otherwise the current account, the map, the order and the account slot are unchanged |
| Wallet.SmartWalletManager.RestoreSession | public/wallet.js:545-557 | with WebAuthn supported, the cached account becomes current exactly when both storage slots are filled; without it, nothing changes |
| Wallet.SmartWalletManager.SendTransaction | public/wallet.js:446-498 | the requests are those of `authenticate` and the credential slot is `CachedAfter`; success exactly when the last request resolved and there is a current account; then the new record is in front of the old history, with status `success`, a 66-character hash from the 32 random bytes, its explorer link and the current account as sender, and the user operation's nonce is the old history length; on a throw the history is unchanged |
| Wallet.SmartWalletManager.SubmitSendForm | public/wallet.js:599-624 | refused for missing fields exactly when the recipient is empty or the amount is 0 or NaN, and as invalid exactly when the recipient does not match the pattern; a refusal makes no request and changes neither slot nor history; otherwise the requests and the credential slot are those of `authenticate`, and a sent record to the recipient is in front of the history; the account slot and the current account never change |

## Left out

- The RPC provider, balances, gas estimation, the real transfer in the send handler and `ethers` itself. Network access is outside the model; the key-to-address function is a parameter.
- SHA-256 is an uninterpreted function onto 32-byte digests. The client hashes UTF-8 bytes from `TextEncoder`; the model hashes the string directly.
- WebAuthn challenges, options (relying party, algorithms, timeouts) and `crypto.getRandomValues`. Randomness is a parameter, and the authenticator is an oracle.
- `JSON.stringify`/`JSON.parse` of the storage slots. A slot holds the record itself, so a slot corrupted outside this code is not modelled.
- `atob` is modelled as forgiving-base64 decoding (padding optional, spare bits ignored) without its stripping of ASCII whitespace: this code never writes whitespace into the slot.
- Request fields are modelled as strings. A non-string JSON value (a number, an array) is truthy too and is turned into a string when the salt is appended, so `123` and `"123"` would be distinct map keys with one address; such requests are not modelled, and `Server.SeedInputInjective` is about string ids only.
- Server.Create: the record `create` stores has no `recovered` field at all; the model stores `false`, which is what reading the missing field gives in a condition.
- `fetch` transport failures, HTTP 500 replies from the handlers' `catch` blocks, and concurrent requests. Calls are direct and sequential.
- The DOM, loading overlays, messages, timers and `debugCredentials`. They are presentation only.
- Transaction amounts are modelled as `real`, with `parseFloat` reduced to "a number or NaN". IEEE-754 rounding is not modelled.
- Wallet.SmartWalletManager.Valid: does not carry the passkey manager's invariant. Each `PasskeyManager` method preserves that invariant on its own (`old(Valid()) ==> Valid()`).
- Wallet.GenerateWalletAddress: the client's address derivation is never called by the rest of `wallet.js`. It is modelled on its own, and nothing relates it to the server's derivation.
