/** The browser side of the wallet: the passkey credential cache kept in two
    `localStorage` slots, the WebAuthn ceremonies that fill it, the account
    manager that talks to the server's registry, the page's `currentAccount`
    and its newest-first list of sent transactions. */
module Wallet {
  import opened Wrappers
  import opened Encoding
  import Server

  /** A `PublicKeyCredential` as the code reads it: its `id` and its `rawId` bytes. */
  datatype PublicKeyCredential = PublicKeyCredential(id: string, rawId: seq<byte>)

  // ------------------------------------------------ client address derivation

  /** `SONIC_CONFIG.chainId` as it reads when a string is added to it. */
  const ChainIdText: string := "14601"

  /** `SONIC_CONFIG.explorer`. */
  const Explorer: string := "https://testnet.sonicscan.org"

  /** What an `ArrayBuffer` turns into when a string is added to it. */
  const ArrayBufferText: string := "[object ArrayBuffer]"

  /** `(credential.id || credential.rawId) + SONIC_CONFIG.chainId`: an empty id
      falls back to the raw id, which then reads as `[object ArrayBuffer]`. */
  function AddressInput(c: PublicKeyCredential): string {
    (if c.id != "" then c.id else ArrayBufferText) + ChainIdText
  }

  /** `array.slice(-n)`: the last `n` elements, or all of a shorter array. */
  function TakeLast<T>(s: seq<T>, n: nat): seq<T>
  {
    if |s| < n then s else s[|s| - n..]
  }

  /** `SmartWalletManager.generateWalletAddress`: SHA-256 of the id and the
      chain id (no salt), then `0x` and the last 20 digest bytes in hexadecimal.
      This is not the server's formula, and nothing here claims the two agree. */
  function GenerateWalletAddress(sha256: string -> Digest, credential: PublicKeyCredential): (a: string)
    ensures |a| == 42 && a[..2] == "0x"
    ensures forall i :: 2 <= i < |a| ==> IsLowerHexDigit(a[i])
    ensures HexDecode(a[2..]) == Some(sha256(AddressInput(credential))[12..])
    ensures MatchesAddressPattern(a)
  {
    var hashArray := sha256(AddressInput(credential));
    var addressBytes := TakeLast(hashArray, 20);
    HexRoundTrip(addressBytes);
    PrefixedHexMatchesPattern(addressBytes);
    HexEncodeLower(addressBytes);
    PrefixedHex(addressBytes)
  }

  // ------------------------------------------------------- WebAuthn ceremonies

  /** How a ceremony's promise settled: rejected, or resolved with a credential or `null`. */
  datatype Outcome = Rejected | Resolved(credential: Option<PublicKeyCredential>)

  /** `navigator.credentials.create` for a username, or `navigator.credentials.get`
      either scoped to one raw id (`allowCredentials`) or unscoped (discovery). */
  datatype Request = CreateRequest(username: string) | GetRequest(allowCredential: Option<seq<byte>>)

  datatype Ceremony = Ceremony(request: Request, outcome: Outcome)

  /** The platform authenticator behind `navigator.credentials`. How a ceremony
      settles is the platform's choice (the user may cancel, no credential may
      match, the 60-second timeout may pass), so each call may settle either
      way; `log` records every request with its outcome. */
  class Authenticator {
    var log: seq<Ceremony>

    constructor ()
      ensures log == []
    {
      log := [];
    }

    method Create(username: string) returns (outcome: Outcome)
      modifies this
      ensures log == old(log) + [Ceremony(CreateRequest(username), outcome)]
    {
      outcome :| true;
      log := log + [Ceremony(CreateRequest(username), outcome)];
    }

    method Get(allowCredential: Option<seq<byte>>) returns (outcome: Outcome)
      modifies this
      ensures log == old(log) + [Ceremony(GetRequest(allowCredential), outcome)]
    {
      outcome :| true;
      log := log + [Ceremony(GetRequest(allowCredential), outcome)];
    }
  }

  /** A JavaScript call that either returns a value or throws. */
  datatype Settled<+T> = Returned(value: T) | Threw

  /** What an assertion request gives back to its caller: the resolved value,
      which may be `null`, or a throw. */
  function SettleGet(o: Outcome): Settled<Option<PublicKeyCredential>> {
    if o.Rejected? then Threw else Returned(o.credential)
  }

  // --------------------------------------------------------------- the cache

  /** The JSON object kept in the `sonic_wallet_credential` slot. */
  datatype StoredCredential = StoredCredential(id: string, rawId: string, username: string, createdAt: int)

  /** The username a discovered credential is cached under. */
  const DiscoveredUsername: string := "descoberta"

  /** The record `createCredential` caches for a new credential. */
  function Registered(c: PublicKeyCredential, username: string, now: int): StoredCredential {
    StoredCredential(c.id, Base64Encode(c.rawId), username, now)
  }

  /** The record `authenticateWithDiscovery` caches for the credential the platform picked. */
  function Discovered(c: PublicKeyCredential, now: int): StoredCredential {
    StoredCredential(c.id, Base64Encode(c.rawId), DiscoveredUsername, now)
  }

  /** With nothing cached, a rejected discovery is followed by a second discovery. */
  lemma DiscoveryRetriedWhenNothingCached(calls: seq<Ceremony>)
    requires AuthenticateCalls(None, calls) && calls[0].outcome.Rejected?
    ensures |calls| == 2
    ensures calls[0].request == GetRequest(None) && calls[1].request == GetRequest(None)
  {
  }

  /** After a registration or a discovery, the next authentication asks for
      exactly the credential that was cached, and falls back to discovery
      only when that scoped request is rejected. */
  lemma AuthenticateScopesToCachedCredential(c: PublicKeyCredential, stored: StoredCredential,
                                             username: string, now: int, calls: seq<Ceremony>)
    requires stored == Registered(c, username, now) || stored == Discovered(c, now)
    requires AuthenticateCalls(Some(stored), calls)
    ensures calls[0].request == GetRequest(Some(c.rawId))
    ensures |calls| == 2 <==> calls[0].outcome.Rejected?
  {
    CachedRecordScopes(c, username, now);
  }

  /** `window.localStorage`, of which the wallet uses two slots:
      `sonic_wallet_credential` and `sonic_wallet_account`. */
  class Storage {
    var credential: Option<StoredCredential>
    var account: Option<Server.Account>

    constructor ()
      ensures credential == None && account == None
    {
      credential := None;
      account := None;
    }
  }

  /** The raw id `authenticate` scopes its first request to: the cached one,
      decoded; none when nothing is cached or `atob` throws on it. */
  function ScopedRawId(stored: Option<StoredCredential>): Option<seq<byte>> {
    if stored.None? then None else Base64Decode(stored.value.rawId)
  }

  /** A record is cached but its raw id is not Base64 that `atob` accepts. */
  predicate AtobThrows(stored: Option<StoredCredential>) {
    stored.Some? && Base64Decode(stored.value.rawId).None?
  }

  /** The requests `authenticate` makes for a cached record: one or two
      assertion requests, the first scoped by `ScopedRawId`, the second a
      discovery made exactly when the first was rejected and `atob` did not
      throw. */
  ghost predicate AuthenticateCalls(stored: Option<StoredCredential>, calls: seq<Ceremony>) {
    && 1 <= |calls| <= 2
    && calls[0].request == GetRequest(ScopedRawId(stored))
    && (|calls| == 2 <==> calls[0].outcome.Rejected? && !AtobThrows(stored))
    && (|calls| == 2 ==> calls[1].request == GetRequest(None))
  }

  /** The credential slot after `authenticate` made `calls`: a final
      discovery that resolved to a credential caches it under `descoberta`;
      anything else leaves the slot as it was. */
  function CachedAfter(stored: Option<StoredCredential>, calls: seq<Ceremony>, now: int): Option<StoredCredential>
    requires |calls| > 0
  {
    var last := calls[|calls| - 1];
    if last.request == GetRequest(None) && last.outcome.Resolved? && last.outcome.credential.Some?
    then Some(Discovered(last.outcome.credential.value, now))
    else stored
  }

  /** A record this code cached scopes the next authentication to the
      credential it came from, and `atob` does not throw on it. */
  lemma CachedRecordScopes(c: PublicKeyCredential, username: string, now: int)
    ensures ScopedRawId(Some(Registered(c, username, now))) == Some(c.rawId)
    ensures ScopedRawId(Some(Discovered(c, now))) == Some(c.rawId)
    ensures !AtobThrows(Some(Registered(c, username, now))) && !AtobThrows(Some(Discovered(c, now)))
  {
    Base64RoundTrip(c.rawId);
  }

  // -------------------------------------------------------- PasskeyManager

  /** The passkey side: creates and asserts credentials and caches the one in use. */
  class PasskeyManager {
    const storage: Storage
    const platform: Authenticator

    /** Whatever sits in the credential slot was written by this class, so its
        raw id is Base64 text that `atob` accepts. */
    ghost predicate Valid()
      reads this, storage
    {
      storage.credential.Some? ==> Base64Decode(storage.credential.value.rawId).Some?
    }

    constructor (storage: Storage, platform: Authenticator)
      ensures this.storage == storage && this.platform == platform
    {
      this.storage := storage;
      this.platform := platform;
    }

    /** `createCredential(username)`: one creation ceremony; only a resolved
        credential is cached, under the given username. A rejection, or a
        `null` that makes reading `rawId` throw, leaves the slot as it was. */
    method CreateCredential(username: string, now: int) returns (r: Settled<PublicKeyCredential>, ghost call: Ceremony)
      modifies storage, platform
      ensures old(Valid()) ==> Valid()
      ensures platform.log == old(platform.log) + [call] && call.request == CreateRequest(username)
      ensures r.Returned? <==> call.outcome.Resolved? && call.outcome.credential.Some?
      ensures r.Returned? ==> r.value == call.outcome.credential.value
      ensures storage.credential == if r.Returned? then Some(Registered(r.value, username, now)) else old(storage.credential)
      ensures storage.account == old(storage.account)
    {
      var credential := platform.Create(username);
      call := Ceremony(CreateRequest(username), credential);
      if credential.Rejected? || credential.credential.None? {
        return Threw, call;
      }
      var c := credential.credential.value;
      CachedRecordScopes(c, username, now);
      storage.credential := Some(Registered(c, username, now));
      r := Returned(c);
    }

    /** `authenticateWithDiscovery()`: one unscoped assertion request; a resolved,
        non-null assertion replaces the cached credential, under the username
        `descoberta`. A rejection throws and leaves the slot as it was. */
    method AuthenticateWithDiscovery(now: int) returns (r: Settled<Option<PublicKeyCredential>>, ghost call: Ceremony)
      modifies storage, platform
      ensures old(Valid()) ==> Valid()
      ensures platform.log == old(platform.log) + [call]
      ensures call.request == GetRequest(None) && r == SettleGet(call.outcome)
      ensures storage.credential ==
        if r.Returned? && r.value.Some? then Some(Discovered(r.value.value, now)) else old(storage.credential)
      ensures storage.account == old(storage.account)
    {
      var assertion := platform.Get(None);
      call := Ceremony(GetRequest(None), assertion);
      if assertion.Rejected? {
        return Threw, call;
      }
      if assertion.credential.Some? {
        var c := assertion.credential.value;
        CachedRecordScopes(c, DiscoveredUsername, now);
        storage.credential := Some(Discovered(c, now));
      }
      r := Returned(assertion.credential);
    }

    /** `authenticate()`: the first request is scoped to the cached raw id, or
        is a discovery when nothing is cached or `atob` throws on it; a
        rejected first request is followed by one discovery, except after
        `atob` threw, when the discovery already was the fallback. The result
        is that of the last request, and only a discovery that resolved to a
        credential writes the slot. */
    method Authenticate(now: int) returns (r: Settled<Option<PublicKeyCredential>>, ghost calls: seq<Ceremony>)
      modifies storage, platform
      ensures old(Valid()) ==> Valid()
      ensures platform.log == old(platform.log) + calls
      ensures AuthenticateCalls(old(storage.credential), calls)
      ensures r == SettleGet(calls[|calls| - 1].outcome)
      ensures r.Threw? ==> calls[|calls| - 1].request == GetRequest(None)
      ensures storage.credential == CachedAfter(old(storage.credential), calls, now)
      ensures storage.account == old(storage.account)
    {
      var storedCredential := storage.credential;
      if storedCredential.None? {
        ghost var first;
        r, first := AuthenticateWithDiscovery(now);
        calls := [first];
        if r.Returned? {
          return;
        }
      } else {
        var rawIdBuffer := Base64Decode(storedCredential.value.rawId);
        if rawIdBuffer.None? {
          // `atob` threw inside the try block: the catch block runs discovery
          ghost var fallback;
          r, fallback := AuthenticateWithDiscovery(now);
          calls := [fallback];
          return;
        }
        var assertion := platform.Get(Some(rawIdBuffer.value));
        calls := [Ceremony(GetRequest(Some(rawIdBuffer.value)), assertion)];
        if assertion.Resolved? {
          return Returned(assertion.credential), calls;
        }
      }
      // the catch block: discovery as a fallback
      ghost var second;
      r, second := AuthenticateWithDiscovery(now);
      calls := calls + [second];
    }

    /** `hasStoredCredential()`. */
    predicate HasStoredCredential()
      reads this, storage
    {
      storage.credential.Some?
    }

    /** `clearCredential()`: empties both slots, whatever they held, so a
        second call changes nothing more. */
    method ClearCredential()
      modifies storage
      ensures storage.credential == None && storage.account == None
      ensures !HasStoredCredential() && Valid()
    {
      storage.credential := None;
      storage.account := None;
    }
  }

  // ---------------------------------------------------- SmartWalletManager

  /** The record `sendTransaction` puts in the history. */
  datatype Transaction = Transaction(
    hash: string,
    from: string,
    to: string,
    value: real,
    status: string,
    timestamp: int,
    explorerUrl: string)

  /** The user operation `sendTransaction` builds before the record; its nonce
      is the length of the history at that moment. The source builds it and
      does not use it further. */
  datatype UserOperation = UserOperation(sender: string, to: string, value: real, timestamp: int, nonce: int)

  /** `${SONIC_CONFIG.explorer}/tx/${hash}`. */
  function ExplorerUrl(hash: string): string {
    Explorer + "/tx/" + hash
  }

  /** Every history record is a successful send whose link points at its own hash. */
  ghost predicate WellFormedHistory(transactions: seq<Transaction>) {
    forall i :: 0 <= i < |transactions| ==>
      transactions[i].status == "success" && transactions[i].explorerUrl == ExplorerUrl(transactions[i].hash)
  }

  /** Putting a well-formed record in front keeps the history well formed. */
  lemma PrependKeepsHistory(t: Transaction, transactions: seq<Transaction>)
    requires WellFormedHistory(transactions)
    requires t.status == "success" && t.explorerUrl == ExplorerUrl(t.hash)
    ensures WellFormedHistory([t] + transactions)
  {
    forall i | 0 <= i < |[t] + transactions|
      ensures ([t] + transactions)[i].status == "success"
      ensures ([t] + transactions)[i].explorerUrl == ExplorerUrl(([t] + transactions)[i].hash)
    {
      if i > 0 {
        assert ([t] + transactions)[i] == transactions[i - 1];
      }
    }
  }

  /** The outcome of submitting the send form. */
  datatype FormOutcome = FieldsMissing | InvalidAddress | SendFailed | Sent(transaction: Transaction)

  /** The account manager, together with the page-level state of `wallet.js`
      that it drives: the global `currentAccount` and the global
      `transactions` history, newest first. */
  class SmartWalletManager {
    const passkeyManager: PasskeyManager
    const server: Server.AccountRegistry
    var currentAccount: Option<Server.Account>
    var transactions: seq<Transaction>

    ghost predicate Valid()
      reads this, passkeyManager, passkeyManager.storage, server
    {
      server.Valid() && WellFormedHistory(transactions)
    }

    constructor (passkeyManager: PasskeyManager, server: Server.AccountRegistry)
      requires passkeyManager.Valid() && server.Valid()
      ensures Valid()
      ensures this.passkeyManager == passkeyManager && this.server == server
      ensures currentAccount == None && transactions == []
    {
      this.passkeyManager := passkeyManager;
      this.server := server;
      currentAccount := None;
      transactions := [];
    }

    /** `createAccount(username)`: a new passkey, then `/api/account/create`
        with its id. The server refuses an empty id or username and then
        stores nothing; the account slot is written only when it answers OK,
        with the record it stored. The credential slot is written by the
        passkey step alone, whatever the server answers. */
    method CreateAccount(username: string, now: int, nowCreated: int, nowAccess: int)
      returns (r: Settled<Server.Account>, ghost call: Ceremony)
      requires Valid()
      modifies passkeyManager.storage, passkeyManager.platform, server
      ensures Valid()
      ensures passkeyManager.platform.log == old(passkeyManager.platform.log) + [call]
      ensures call.request == CreateRequest(username)
      ensures passkeyManager.storage.credential ==
        if call.outcome.Resolved? && call.outcome.credential.Some?
        then Some(Registered(call.outcome.credential.value, username, now))
        else old(passkeyManager.storage.credential)
      ensures r.Returned? <==>
        call.outcome.Resolved? && call.outcome.credential.Some? && call.outcome.credential.value.id != "" && username != ""
      ensures r.Threw? ==>
        && server.accounts == old(server.accounts) && server.order == old(server.order)
        && passkeyManager.storage.account == old(passkeyManager.storage.account)
      ensures r.Returned? ==>
        var id := call.outcome.credential.value.id;
        var step := Server.Create(server.crypto, old(server.accounts), Some(id), Some(username), nowCreated, nowAccess);
        && step.reply == Server.Ok(r.value)
        && server.accounts == step.accounts
        && server.order == Server.Placed(old(server.order), old(server.accounts), id)
        && passkeyManager.storage.account == Some(r.value)
    {
      var credential;
      credential, call := passkeyManager.CreateCredential(username, now);
      if credential.Threw? {
        return Threw, call;
      }
      var id := credential.value.id;
      var response := server.HandleCreate(Some(id), Some(username), nowCreated, nowAccess);
      if response.Error? {
        return Threw, call;
      }
      var accountData := response.body;
      passkeyManager.storage.account := Some(accountData);
      r := Returned(accountData);
    }

    /** `connectAccount()`: authenticate, then `/api/account/retrieve` with
        the id of the assertion `authenticate` returned. A `null` assertion
        throws when its id is read, and the server refuses an empty id; in
        both cases nothing is stored. Otherwise the account slot holds the
        record retrieve returned, which is the server's record for that id. */
    method ConnectAccount(now: int, nowCreated: int, nowAccess: int)
      returns (r: Settled<Server.Account>, ghost calls: seq<Ceremony>)
      requires Valid()
      modifies passkeyManager.storage, passkeyManager.platform, server
      ensures Valid()
      ensures passkeyManager.platform.log == old(passkeyManager.platform.log) + calls
      ensures AuthenticateCalls(old(passkeyManager.storage.credential), calls)
      ensures passkeyManager.storage.credential == CachedAfter(old(passkeyManager.storage.credential), calls, now)
      ensures var last := calls[|calls| - 1].outcome;
        r.Returned? <==> last.Resolved? && last.credential.Some? && last.credential.value.id != ""
      ensures r.Threw? ==>
        && server.accounts == old(server.accounts) && server.order == old(server.order)
        && passkeyManager.storage.account == old(passkeyManager.storage.account)
      ensures r.Returned? ==>
        var id := calls[|calls| - 1].outcome.credential.value.id;
        var step := Server.Retrieve(server.crypto, old(server.accounts), Some(id), nowCreated, nowAccess);
        && step.reply.Ok? && step.reply.body.account == r.value
        && server.accounts == step.accounts
        && server.order == Server.Placed(old(server.order), old(server.accounts), id)
        && passkeyManager.storage.account == Some(r.value)
        && r.value.credentialId == id
        && r.value.address == Server.GenerateWalletAddress(server.crypto, id, Server.ChainId)
    {
      var assertion;
      assertion, calls := passkeyManager.Authenticate(now);
      if assertion.Threw? || assertion.value.None? {
        return Threw, calls;
      }
      var response := server.HandleRetrieve(Some(assertion.value.value.id), nowCreated, nowAccess);
      if response.Error? {
        return Threw, calls;
      }
      var accountData := response.body.account;
      passkeyManager.storage.account := Some(accountData);
      r := Returned(accountData);
    }

    /** `disconnect()`: clears both slots and forgets the current account. */
    method Disconnect()
      requires Valid()
      modifies passkeyManager.storage, this
      ensures Valid()
      ensures passkeyManager.storage.credential == None && passkeyManager.storage.account == None
      ensures currentAccount == None && transactions == old(transactions)
    {
      passkeyManager.ClearCredential();
      currentAccount := None;
    }

    /** The create button: a username from the prompt (`None` when it was
        cancelled), nothing at all without one, and otherwise the account
        `createAccount` returns becomes the current one. */
    method CreateAccountClicked(username: Option<string>, now: int, nowCreated: int, nowAccess: int)
      returns (connected: bool, ghost calls: seq<Ceremony>)
      requires Valid()
      modifies passkeyManager.storage, passkeyManager.platform, server, this
      ensures Valid()
      ensures passkeyManager.platform.log == old(passkeyManager.platform.log) + calls
      ensures (username.None? || username.value == "") ==>
        && !connected && calls == []
        && passkeyManager.storage.credential == old(passkeyManager.storage.credential)
      ensures username.Some? && username.value != "" ==>
        && |calls| == 1 && calls[0].request == CreateRequest(username.value)
        && passkeyManager.storage.credential ==
             (if calls[0].outcome.Resolved? && calls[0].outcome.credential.Some?
              then Some(Registered(calls[0].outcome.credential.value, username.value, now))
              else old(passkeyManager.storage.credential))
        && (connected <==> calls[0].outcome.Resolved? && calls[0].outcome.credential.Some?
                           && calls[0].outcome.credential.value.id != "")
      ensures !connected ==>
        && currentAccount == old(currentAccount)
        && server.accounts == old(server.accounts) && server.order == old(server.order)
        && passkeyManager.storage.account == old(passkeyManager.storage.account)
      ensures connected ==>
        && currentAccount.Some? && passkeyManager.storage.account == currentAccount
        && username.Some? && currentAccount.value.username == username.value
        && var id := currentAccount.value.credentialId;
        && Server.Create(server.crypto, old(server.accounts), Some(id), username, nowCreated, nowAccess).reply
           == Server.Ok(currentAccount.value)
        && id in server.accounts && server.accounts[id] == currentAccount.value
        && id == calls[0].outcome.credential.value.id
        && server.order == Server.Placed(old(server.order), old(server.accounts), id)
      ensures transactions == old(transactions)
    {
      if username.None? || username.value == "" {
        return false, [];
      }
      var account;
      ghost var call;
      account, call := CreateAccount(username.value, now, nowCreated, nowAccess);
      calls := [call];
      if account.Threw? {
        return false, calls;
      }
      currentAccount := Some(account.value);
      connected := true;
    }

    /** The login button: the account `connectAccount` returns becomes the
        current one; a throw leaves it as it was. */
    method LoginClicked(now: int, nowCreated: int, nowAccess: int)
      returns (connected: bool, ghost calls: seq<Ceremony>)
      requires Valid()
      modifies passkeyManager.storage, passkeyManager.platform, server, this
      ensures Valid()
      ensures passkeyManager.platform.log == old(passkeyManager.platform.log) + calls
      ensures AuthenticateCalls(old(passkeyManager.storage.credential), calls)
      ensures passkeyManager.storage.credential == CachedAfter(old(passkeyManager.storage.credential), calls, now)
      ensures var last := calls[|calls| - 1].outcome;
        connected <==> last.Resolved? && last.credential.Some? && last.credential.value.id != ""
      ensures !connected ==>
        && currentAccount == old(currentAccount)
        && server.accounts == old(server.accounts) && server.order == old(server.order)
        && passkeyManager.storage.account == old(passkeyManager.storage.account)
      ensures connected ==>
        var id := calls[|calls| - 1].outcome.credential.value.id;
        var step := Server.Retrieve(server.crypto, old(server.accounts), Some(id), nowCreated, nowAccess);
        && currentAccount.Some? && passkeyManager.storage.account == currentAccount
        && step.reply.Ok? && step.reply.body.account == currentAccount.value
        && server.accounts == step.accounts
        && server.order == Server.Placed(old(server.order), old(server.accounts), id)
        && currentAccount.value.credentialId == id
      ensures transactions == old(transactions)
    {
      var account;
      account, calls := ConnectAccount(now, nowCreated, nowAccess);
      if account.Threw? {
        return false, calls;
      }
      currentAccount := Some(account.value);
      connected := true;
    }

    /** The check on page load: with WebAuthn available, the cached account
        becomes the current one only when both slots are filled. */
    method RestoreSession(webAuthnSupported: bool)
      modifies this
      ensures currentAccount ==
        if webAuthnSupported && passkeyManager.storage.account.Some? && passkeyManager.HasStoredCredential()
        then passkeyManager.storage.account else old(currentAccount)
      ensures transactions == old(transactions)
    {
      if !webAuthnSupported {
        return;
      }
      var storedAccount := passkeyManager.storage.account;
      if storedAccount.Some? && passkeyManager.HasStoredCredential() {
        currentAccount := storedAccount;
      }
    }

    /** `sendTransaction(to, amount)`: re-authenticate, build the user
        operation and a record with a hash drawn from 32 random bytes, and
        put the record in front of the history. If authentication throws, or
        there is no current account to read, the history is unchanged. */
    method SendTransaction(to: string, amount: real, now: int, nowOp: int, nowTx: int, randomBytes: seq<byte>)
      returns (r: Settled<Transaction>, userOp: Option<UserOperation>, ghost calls: seq<Ceremony>)
      requires Valid()
      requires |randomBytes| == 32
      modifies passkeyManager.storage, passkeyManager.platform, this
      ensures Valid()
      ensures passkeyManager.platform.log == old(passkeyManager.platform.log) + calls
      ensures AuthenticateCalls(old(passkeyManager.storage.credential), calls)
      ensures passkeyManager.storage.credential == CachedAfter(old(passkeyManager.storage.credential), calls, now)
      ensures r.Returned? <==> calls[|calls| - 1].outcome.Resolved? && old(currentAccount).Some?
      ensures r.Threw? ==> transactions == old(transactions) && userOp.None?
      ensures r.Returned? ==>
        && transactions == [r.value] + old(transactions)
        && r.value == Transaction(PrefixedHex(randomBytes), old(currentAccount).value.address, to, amount,
                                  "success", nowTx, ExplorerUrl(PrefixedHex(randomBytes)))
        && |r.value.hash| == 66
        && userOp == Some(UserOperation(old(currentAccount).value.address, to, amount, nowOp, |old(transactions)|))
      ensures currentAccount == old(currentAccount)
      ensures passkeyManager.storage.account == old(passkeyManager.storage.account)
    {
      var assertion;
      assertion, calls := passkeyManager.Authenticate(now);
      if assertion.Threw? || currentAccount.None? {
        return Threw, None, calls;
      }
      var op := UserOperation(currentAccount.value.address, to, amount, nowOp, |transactions|);
      var txHash := PrefixedHex(randomBytes);
      var transaction := Transaction(txHash, currentAccount.value.address, to, amount, "success", nowTx, ExplorerUrl(txHash));
      PrependKeepsHistory(transaction, transactions);
      transactions := [transaction] + transactions;
      r, userOp := Returned(transaction), Some(op);
    }

    /** The send form's submit handler: an empty recipient or an amount that
        parses to zero or NaN (None) is refused, then the recipient must match
        `/^0x[a-fA-F0-9]{40}$/`; only then is anything sent. */
    method SubmitSendForm(recipient: string, amount: Option<real>, now: int, nowOp: int, nowTx: int,
                          randomBytes: seq<byte>)
      returns (r: FormOutcome, ghost calls: seq<Ceremony>)
      requires Valid()
      requires |randomBytes| == 32
      modifies passkeyManager.storage, passkeyManager.platform, this
      ensures Valid()
      ensures r == FieldsMissing <==> recipient == "" || amount.None? || amount.value == 0.0
      ensures r == InvalidAddress <==> r != FieldsMissing && !MatchesAddressPattern(recipient)
      ensures passkeyManager.platform.log == old(passkeyManager.platform.log) + calls
      ensures (r == FieldsMissing || r == InvalidAddress) ==>
        calls == [] && passkeyManager.storage.credential == old(passkeyManager.storage.credential)
      ensures (r == SendFailed || r.Sent?) ==>
        && AuthenticateCalls(old(passkeyManager.storage.credential), calls)
        && passkeyManager.storage.credential == CachedAfter(old(passkeyManager.storage.credential), calls, now)
        && (r.Sent? <==> calls[|calls| - 1].outcome.Resolved? && old(currentAccount).Some?)
      ensures r.Sent? ==>
        && transactions == [r.transaction] + old(transactions)
        && r.transaction == Transaction(PrefixedHex(randomBytes), old(currentAccount).value.address, recipient,
                                        amount.value, "success", nowTx, ExplorerUrl(PrefixedHex(randomBytes)))
      ensures !r.Sent? ==> transactions == old(transactions)
      ensures currentAccount == old(currentAccount)
      ensures passkeyManager.storage.account == old(passkeyManager.storage.account)
    {
      if recipient == "" || amount.None? || amount.value == 0.0 {
        return FieldsMissing, [];
      }
      if !MatchesAddressPattern(recipient) {
        return InvalidAddress, [];
      }
      var sent, userOp;
      sent, userOp, calls := SendTransaction(recipient, amount.value, now, nowOp, nowTx, randomBytes);
      r := if sent.Returned? then Sent(sent.value) else SendFailed;
    }
  }
}
