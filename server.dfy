/** The server side of the wallet: the deterministic derivation of a signing
    key and an address from a credential id, the in-memory account registry
    keyed by credential id with its create, retrieve (an upsert), debug
    listing and private-key export handlers, and the input guards of the
    send-transaction handler. */
module Server {
  import opened Wrappers
  import opened Encoding

  // ------------------------------------------------------------ derivation

  /** The library code the server calls but that is not part of this model:
      `crypto.createHash('sha256')` over the UTF-8 bytes of a string, and
      `new ethers.Wallet(privateKey).address`. Both are deterministic, which
      is all the model relies on. */
  datatype Crypto = Crypto(sha256: string -> Digest, walletAddress: string -> string)

  /** The Sonic testnet chain id the handlers pass to `generateWalletAddress`. */
  const ChainId: int := 14601

  /** The fixed suffix appended to every credential id before hashing. */
  const Salt: string := "sonic-wallet-seed"

  /** `credentialId + 'sonic-wallet-seed'`, the hash input built at account
      creation, at signing and at key export alike. */
  function SeedInput(credentialId: string): string {
    credentialId + Salt
  }

  /** The salt is a fixed suffix, so distinct credential ids give distinct hash inputs. */
  lemma SeedInputInjective(a: string, b: string)
    ensures SeedInput(a) == SeedInput(b) ==> a == b
  {
    if SeedInput(a) == SeedInput(b) {
      assert |a| == |b|;
      assert a == SeedInput(a)[..|a|];
      assert b == SeedInput(b)[..|b|];
    }
  }

  /** `'0x' + seed.toString('hex')` with `seed` the digest of the seed input:
      66 characters that spell out the digest. */
  function PrivateKey(c: Crypto, credentialId: string): string {
    PrefixedHex(c.sha256(SeedInput(credentialId)))
  }

  /** The private key is `0x` and 64 hexadecimal digits that decode back to the digest. */
  lemma PrivateKeySpellsDigest(c: Crypto, credentialId: string)
    ensures var k := PrivateKey(c, credentialId);
      && |k| == 66 && k[..2] == "0x"
      && HexDecode(k[2..]) == Some(c.sha256(SeedInput(credentialId)))
  {
    HexRoundTrip(c.sha256(SeedInput(credentialId)));
  }

  /** `generateWalletAddress(credentialId, chainId)`. The chain id is accepted and never read. */
  function GenerateWalletAddress(c: Crypto, credentialId: string, chainId: int): string {
    c.walletAddress(PrivateKey(c, credentialId))
  }

  /** The derived address depends on the credential id only. */
  lemma ChainIdIgnored(c: Crypto, credentialId: string, chainA: int, chainB: int)
    ensures GenerateWalletAddress(c, credentialId, chainA) == GenerateWalletAddress(c, credentialId, chainB)
  {
  }

  // --------------------------------------------------------- records, replies

  /** An account record. `recovered` is false for records made by create,
      which leave the field undefined. */
  datatype Account = Account(
    credentialId: string,
    address: string,
    username: string,
    createdAt: int,
    lastAccess: int,
    recovered: bool)

  /** The username given to a record synthesised by retrieve. */
  const RecoveredUsername: string := "Usuário Recuperado"

  /** Why a handler answered with an error status. */
  datatype Fault = MissingFields | InvalidRecipient | MissingCredential | AccountNotFound

  /** A handler's JSON reply: a body on success, or an error status. */
  datatype Reply<+T> = Ok(body: T) | Error(status: int, fault: Fault)

  datatype Retrieval = Retrieval(account: Account, isNewRecovery: bool)
  datatype Listing = Listing(accounts: seq<Account>, total: int)
  datatype KeyExport = KeyExport(credentialId: string, address: string, privateKey: string)
  datatype Signer = Signer(privateKey: string, address: string)

  /** JavaScript truthiness of a request field: present and not the empty string. */
  predicate Given(field: Option<string>) {
    field.Some? && field.value != ""
  }

  // ------------------------------------------------------ the registry as values

  type Accounts = map<string, Account>

  /** Every record sits under its own credential id and carries the address
      derived from that id: the stored address is a cache of the derivation. */
  ghost predicate Derived(c: Crypto, m: Accounts) {
    forall id :: id in m ==>
      m[id].credentialId == id && m[id].address == GenerateWalletAddress(c, id, ChainId)
  }

  /** The reply of a handler and the registry it leaves behind. */
  datatype Step<+T> = Step(reply: Reply<T>, accounts: Accounts)

  /** `/api/account/create`: two clock readings, one per `Date.now()` call. */
  function Create(c: Crypto, m: Accounts, credentialId: Option<string>, username: Option<string>,
                  nowCreated: int, nowAccess: int): (s: Step<Account>)
    ensures s.reply.Error? ==> s.accounts == m
    ensures s.reply.Ok? ==>
      && credentialId == Some(s.reply.body.credentialId) && username == Some(s.reply.body.username)
      && s.accounts == m[s.reply.body.credentialId := s.reply.body]
      && s.reply.body.address == GenerateWalletAddress(c, s.reply.body.credentialId, ChainId)
  {
    if !Given(credentialId) || !Given(username) then Step(Error(400, MissingFields), m)
    else
      var id := credentialId.value;
      var account := Account(id, GenerateWalletAddress(c, id, ChainId), username.value,
                             nowCreated, nowAccess, false);
      Step(Ok(account), m[id := account])
  }

  /** `/api/account/retrieve`: an unknown id gets a synthesised record; a known
      one only has its last access bumped. */
  function Retrieve(c: Crypto, m: Accounts, credentialId: Option<string>,
                    nowCreated: int, nowAccess: int): (s: Step<Retrieval>)
    ensures s.reply.Error? ==> s.accounts == m
    ensures s.reply.Ok? ==>
      && Given(credentialId)
      && s.accounts == m[credentialId.value := s.reply.body.account]
      && (s.reply.body.isNewRecovery <==> credentialId.value !in m)
  {
    if !Given(credentialId) then Step(Error(400, MissingCredential), m)
    else
      var id := credentialId.value;
      if id !in m then
        var account := Account(id, GenerateWalletAddress(c, id, ChainId), RecoveredUsername,
                               nowCreated, nowAccess, true);
        Step(Ok(Retrieval(account, true)), m[id := account])
      else
        var account := m[id].(lastAccess := nowAccess);
        Step(Ok(Retrieval(account, false)), m[id := account])
  }

  /** Create answers 400 exactly when a field is missing or empty, and then
      leaves the registry as it was. */
  lemma CreateValidates(c: Crypto, m: Accounts, credentialId: Option<string>, username: Option<string>,
                        nowCreated: int, nowAccess: int)
    ensures var s := Create(c, m, credentialId, username, nowCreated, nowAccess);
      && (s.reply.Error? <==> !Given(credentialId) || !Given(username))
      && (s.reply.Error? ==> s.reply.status == 400 && s.accounts == m)
  {
  }

  /** A successful create sets exactly the entry for its id, with the derived
      address and the given username, and no other entry changes. */
  lemma CreateSetsOnlyItsEntry(c: Crypto, m: Accounts, id: string, username: string,
                               nowCreated: int, nowAccess: int)
    requires id != "" && username != ""
    ensures var s := Create(c, m, Some(id), Some(username), nowCreated, nowAccess);
      && s.reply == Ok(s.accounts[id])
      && s.accounts[id] == Account(id, GenerateWalletAddress(c, id, ChainId), username, nowCreated, nowAccess, false)
      && s.accounts.Keys == m.Keys + {id}
      && forall other :: other in m && other != id ==> s.accounts[other] == m[other]
  {
  }

  /** Creating again with another username replaces the username and keeps the address. */
  lemma CreateOverwrites(c: Crypto, m: Accounts, id: string, first: string, second: string,
                         t1: int, t2: int, t3: int, t4: int)
    requires id != "" && first != "" && second != ""
    ensures var s1 := Create(c, m, Some(id), Some(first), t1, t2);
      var s2 := Create(c, s1.accounts, Some(id), Some(second), t3, t4);
      && s2.accounts[id].username == second
      && s2.accounts[id].address == s1.accounts[id].address
      && s2.accounts.Keys == s1.accounts.Keys
  {
  }

  /** Retrieve answers 400 exactly for a missing or empty id, leaving the
      registry alone; otherwise the id is in the registry afterwards. */
  lemma RetrieveUpserts(c: Crypto, m: Accounts, credentialId: Option<string>, nowCreated: int, nowAccess: int)
    ensures var s := Retrieve(c, m, credentialId, nowCreated, nowAccess);
      && (s.reply.Error? <==> !Given(credentialId))
      && (s.reply.Error? ==> s.reply.status == 400 && s.accounts == m)
      && (s.reply.Ok? ==> credentialId.value in s.accounts
                          && s.accounts[credentialId.value] == s.reply.body.account
                          && s.accounts.Keys == m.Keys + {credentialId.value})
  {
  }

  /** First sight of an id: a recovered record with the derived address, and
      `isNewRecovery` set. */
  lemma RetrieveRecovers(c: Crypto, m: Accounts, id: string, nowCreated: int, nowAccess: int)
    requires id != "" && id !in m
    ensures var s := Retrieve(c, m, Some(id), nowCreated, nowAccess);
      && s.reply == Ok(Retrieval(s.accounts[id], true))
      && s.accounts[id] == Account(id, GenerateWalletAddress(c, id, ChainId), RecoveredUsername,
                                   nowCreated, nowAccess, true)
      && forall other :: other in m ==> other in s.accounts && s.accounts[other] == m[other]
  {
  }

  /** A known id: only `lastAccess` changes, and `isNewRecovery` is false. */
  lemma RetrieveTouches(c: Crypto, m: Accounts, id: string, nowCreated: int, nowAccess: int)
    requires id != "" && id in m
    ensures var s := Retrieve(c, m, Some(id), nowCreated, nowAccess);
      && s.reply == Ok(Retrieval(s.accounts[id], false))
      && s.accounts[id] == m[id].(lastAccess := nowAccess)
      && s.accounts.Keys == m.Keys
      && forall other :: other in m && other != id ==> s.accounts[other] == m[other]
  {
  }

  /** Two retrieves in a row give the same address, and the second never
      reports a new recovery. */
  lemma RetrieveTwice(c: Crypto, m: Accounts, id: string, t1: int, t2: int, t3: int, t4: int)
    requires id != ""
    ensures var s1 := Retrieve(c, m, Some(id), t1, t2);
      var s2 := Retrieve(c, s1.accounts, Some(id), t3, t4);
      && s1.reply.Ok? && s2.reply.Ok?
      && !s2.reply.body.isNewRecovery
      && s2.reply.body.account.address == s1.reply.body.account.address
      && s2.accounts.Keys == s1.accounts.Keys
  {
  }

  /** Create keeps every stored address equal to the derivation of its id. */
  lemma CreateKeepsDerived(c: Crypto, m: Accounts, credentialId: Option<string>, username: Option<string>,
                           nowCreated: int, nowAccess: int)
    requires Derived(c, m)
    ensures Derived(c, Create(c, m, credentialId, username, nowCreated, nowAccess).accounts)
  {
    var m' := Create(c, m, credentialId, username, nowCreated, nowAccess).accounts;
    forall id | id in m'
      ensures m'[id].credentialId == id && m'[id].address == GenerateWalletAddress(c, id, ChainId)
    {
      if Given(credentialId) && Given(username) && id == credentialId.value {
      } else {
        assert m'[id] == m[id];
      }
    }
  }

  /** Retrieve keeps every stored address equal to the derivation of its id. */
  lemma RetrieveKeepsDerived(c: Crypto, m: Accounts, credentialId: Option<string>,
                             nowCreated: int, nowAccess: int)
    requires Derived(c, m)
    ensures Derived(c, Retrieve(c, m, credentialId, nowCreated, nowAccess).accounts)
  {
    var m' := Retrieve(c, m, credentialId, nowCreated, nowAccess).accounts;
    forall id | id in m'
      ensures m'[id].credentialId == id && m'[id].address == GenerateWalletAddress(c, id, ChainId)
    {
      if Given(credentialId) && id == credentialId.value {
      } else {
        assert m'[id] == m[id];
      }
    }
  }

  // ------------------------------------------------------------ send guards

  /** The guards that open `/api/send-transaction` and the signer they lead to:
      an invalid recipient (`ethers.isAddress`, not modelled, passed in) or a
      missing credential id is a 400 before anything is derived; otherwise the
      signer comes from the same seed input as account creation. The registry
      is not an argument: a stored account does not gate the send. */
  function CheckSend(c: Crypto, isAddress: string -> bool, to: Option<string>,
                     credentialId: Option<string>): (r: Reply<Signer>)
    ensures r.Error? <==> to.None? || !isAddress(to.value) || !Given(credentialId)
  {
    if to.None? || !isAddress(to.value) then Error(400, InvalidRecipient)
    else if !Given(credentialId) then Error(400, MissingCredential)
    else
      var key := PrivateKey(c, credentialId.value);
      Ok(Signer(key, c.walletAddress(key)))
  }

  /** A rejected send does not depend on the derivation at all: the guards run first. */
  lemma SendRejectsBeforeDerivation(c: Crypto, d: Crypto, isAddress: string -> bool,
                                    to: Option<string>, credentialId: Option<string>)
    ensures CheckSend(c, isAddress, to, credentialId).Error? ==>
      CheckSend(c, isAddress, to, credentialId) == CheckSend(d, isAddress, to, credentialId)
  {
  }

  /** The signer of a send is the account that create or retrieve stored for
      the same id, whichever of them stored it. */
  lemma SignerIsStoredAccount(c: Crypto, m: Accounts, isAddress: string -> bool, to: string, id: string)
    requires Derived(c, m) && id in m && isAddress(to) && id != ""
    ensures CheckSend(c, isAddress, Some(to), Some(id)) == Ok(Signer(PrivateKey(c, id), m[id].address))
  {
  }

  /** Retrieving an id, known or not, and then sending from it signs with the
      address that retrieve returned. */
  lemma SignerAfterRetrieve(c: Crypto, m: Accounts, isAddress: string -> bool, to: string, id: string,
                            nowCreated: int, nowAccess: int)
    requires Derived(c, m) && isAddress(to) && id != ""
    ensures var s := Retrieve(c, m, Some(id), nowCreated, nowAccess);
      s.reply.Ok? &&
      CheckSend(c, isAddress, Some(to), Some(id)).body.address == s.reply.body.account.address
  {
    RetrieveKeepsDerived(c, m, Some(id), nowCreated, nowAccess);
    SignerIsStoredAccount(c, Retrieve(c, m, Some(id), nowCreated, nowAccess).accounts, isAddress, to, id);
  }

  // ------------------------------------------------------ insertion order

  /** `order` lists the keys of `m`, each once. That it lists them in the
      order they were first set, the iteration order of a JavaScript `Map`,
      is what `Placed` adds at every write. */
  ghost predicate InsertionOrder(order: seq<string>, m: Accounts) {
    && (forall i, j :: 0 <= i < j < |order| ==> order[i] != order[j])
    && (forall id :: id in m <==> id in order)
  }

  /** The key order after `accounts.set(id, …)`: a new key goes to the end,
      a key already present keeps its place. */
  function Placed(order: seq<string>, m: Accounts, id: string): seq<string> {
    if id in m then order else order + [id]
  }

  /** A key list without repetitions has as many entries as the set of its keys. */
  lemma {:induction false} DistinctKeysCount(order: seq<string>, keys: set<string>)
    requires forall i, j :: 0 <= i < j < |order| ==> order[i] != order[j]
    requires forall id :: id in keys <==> id in order
    ensures |order| == |keys|
  {
    if order != [] {
      var rest := order[1..];
      forall id ensures id in keys - {order[0]} <==> id in rest {
        if id in rest {
          var k :| 0 <= k < |rest| && rest[k] == id;
          assert order[k + 1] == id;
        }
        if id in order && id != order[0] {
          var k :| 0 <= k < |order| && order[k] == id;
          assert rest[k - 1] == id;
        }
      }
      DistinctKeysCount(rest, keys - {order[0]});
    }
  }

  // ------------------------------------------------------ the registry object

  /** The server's `accounts` Map: records keyed by credential id, with the
      order of first insertion that `Array.from(accounts.values())` follows. */
  class AccountRegistry {
    const crypto: Crypto
    var accounts: Accounts
    var order: seq<string>

    ghost predicate Valid()
      reads this
    {
      InsertionOrder(order, accounts) && Derived(crypto, accounts)
    }

    constructor (crypto: Crypto)
      ensures Valid() && this.crypto == crypto && accounts == map[] && order == []
    {
      this.crypto := crypto;
      accounts := map[];
      order := [];
    }

    /** `accounts.set(id, record)`: a new key goes to the end of the order, an
        existing key keeps its place. */
    method Set(id: string, account: Account)
      requires InsertionOrder(order, accounts)
      modifies this
      ensures InsertionOrder(order, accounts)
      ensures accounts == old(accounts)[id := account]
      ensures order == Placed(old(order), old(accounts), id)
    {
      if id !in accounts {
        order := order + [id];
      }
      accounts := accounts[id := account];
    }

    /** `POST /api/account/create`. */
    method HandleCreate(credentialId: Option<string>, username: Option<string>, nowCreated: int, nowAccess: int)
      returns (reply: Reply<Account>)
      requires Valid()
      modifies this
      ensures Valid()
      ensures var s := Create(crypto, old(accounts), credentialId, username, nowCreated, nowAccess);
        reply == s.reply && accounts == s.accounts
      ensures order == if reply.Ok? then Placed(old(order), old(accounts), credentialId.value) else old(order)
    {
      if !Given(credentialId) || !Given(username) {
        return Error(400, MissingFields);
      }
      var id := credentialId.value;
      CreateKeepsDerived(crypto, accounts, credentialId, username, nowCreated, nowAccess);
      var walletAddress := GenerateWalletAddress(crypto, id, ChainId);
      var accountData := Account(id, walletAddress, username.value, nowCreated, nowAccess, false);
      Set(id, accountData);
      reply := Ok(accountData);
    }

    /** `POST /api/account/retrieve`. */
    method HandleRetrieve(credentialId: Option<string>, nowCreated: int, nowAccess: int)
      returns (reply: Reply<Retrieval>)
      requires Valid()
      modifies this
      ensures Valid()
      ensures var s := Retrieve(crypto, old(accounts), credentialId, nowCreated, nowAccess);
        reply == s.reply && accounts == s.accounts
      ensures order == if reply.Ok? then Placed(old(order), old(accounts), credentialId.value) else old(order)
    {
      if !Given(credentialId) {
        return Error(400, MissingCredential);
      }
      var id := credentialId.value;
      RetrieveKeepsDerived(crypto, accounts, credentialId, nowCreated, nowAccess);
      if id !in accounts {
        var walletAddress := GenerateWalletAddress(crypto, id, ChainId);
        var accountData := Account(id, walletAddress, RecoveredUsername, nowCreated, nowAccess, true);
        Set(id, accountData);
        return Ok(Retrieval(accountData, true));
      }
      var accountData := accounts[id];
      accountData := accountData.(lastAccess := nowAccess);
      Set(id, accountData);
      reply := Ok(Retrieval(accountData, false));
    }

    /** `GET /api/accounts/debug`: every stored record once, in insertion
        order, and `total` the number of records. Reads only. */
    method ListAccounts() returns (listing: Listing)
      requires InsertionOrder(order, accounts)
      ensures listing.total == |listing.accounts| == |accounts| == |order|
      ensures forall i :: 0 <= i < |order| ==> listing.accounts[i] == accounts[order[i]]
      ensures forall id :: id in accounts ==> accounts[id] in listing.accounts
    {
      var m, keys := accounts, order;
      var allAccounts := seq(|keys|, i requires 0 <= i < |keys| && keys[i] in m => m[keys[i]]);
      DistinctKeysCount(order, accounts.Keys);
      forall id | id in accounts ensures accounts[id] in allAccounts {
        var k :| 0 <= k < |order| && order[k] == id;
        assert allAccounts[k] == accounts[id];
      }
      listing := Listing(allAccounts, |allAccounts|);
    }

    /** `POST /api/account/private-key`: 400 without an id, 404 for an id the
        registry does not hold (unlike retrieve, nothing is created), otherwise
        the key derived from the id and the address stored for it. Reads only. */
    method ExportPrivateKey(credentialId: Option<string>) returns (reply: Reply<KeyExport>)
      ensures !Given(credentialId) ==> reply == Error(400, MissingCredential)
      ensures Given(credentialId) && credentialId.value !in accounts ==> reply == Error(404, AccountNotFound)
      ensures Given(credentialId) && credentialId.value in accounts ==>
        var id := credentialId.value;
        reply == Ok(KeyExport(id, GenerateWalletAddress(crypto, id, ChainId), PrivateKey(crypto, id)))
      ensures Valid() && reply.Ok? ==> reply.body.address == accounts[reply.body.credentialId].address
    {
      if !Given(credentialId) {
        return Error(400, MissingCredential);
      }
      var id := credentialId.value;
      if id !in accounts {
        return Error(404, AccountNotFound);
      }
      var privateKey := PrivateKey(crypto, id);
      var wallet := crypto.walletAddress(privateKey);
      reply := Ok(KeyExport(id, wallet, privateKey));
    }
  }
}
