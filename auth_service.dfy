/**
 * The authentication service: an account is looked up by its sid, its active
 * API keys are loaded, and the presented key must match at least one stored
 * hash. bcrypt is a pair of functions supplied by the caller.
 */
module AuthService {
  import opened Wrappers
  import opened Entities
  import opened Errors

  /** bcrypt as used here: `hash(plain)` and `compare(plain, hash)`. */
  datatype Bcrypt = Bcrypt(hash: string -> string, compare: (string, string) -> bool)

  /** A key always matches its own hash. */
  ghost predicate Sound(b: Bcrypt) {
    forall k: string {:trigger b.hash(k)} :: b.compare(k, b.hash(k))
  }

  /** `findOne({ where: { sid } })` on `accounts` in id order. */
  function FindAccountBySid(accounts: seq<Account>, sid: string): (r: Option<Account>)
    ensures r.Some? ==> r.value in accounts && r.value.sid == sid
    ensures r.None? <==> forall a :: a in accounts ==> a.sid != sid
  {
    if accounts == [] then None
    else if accounts[0].sid == sid then Some(accounts[0])
    else FindAccountBySid(accounts[1..], sid)
  }

  /** `find({ where: { accountId, isActive: true } })` on `api_keys`. */
  function ActiveKeysOf(keys: seq<ApiKey>, accountId: int): (r: seq<ApiKey>)
    ensures forall k :: k in r <==> k in keys && k.accountId == accountId && k.isActive
  {
    if keys == [] then []
    else
      var rest := ActiveKeysOf(keys[1..], accountId);
      assert keys == [keys[0]] + keys[1..];
      if keys[0].accountId == accountId && keys[0].isActive then [keys[0]] + rest else rest
  }

  /** `apiKeys.map(storedKey => bcrypt.compare(apiKey, storedKey.keyHash))`. */
  function CompareAll(b: Bcrypt, apiKey: string, keys: seq<ApiKey>): (r: seq<bool>)
    ensures |r| == |keys|
    ensures forall i :: 0 <= i < |keys| ==> r[i] == b.compare(apiKey, keys[i].keyHash)
  {
    if keys == [] then [] else [b.compare(apiKey, keys[0].keyHash)] + CompareAll(b, apiKey, keys[1..])
  }

  /** `results.some(valid => valid)`. */
  function SomeTrue(results: seq<bool>): (r: bool)
    ensures r <==> true in results
  {
    if results == [] then false else results[0] || SomeTrue(results[1..])
  }

  const InvalidSid: string := "Invalid account SID"
  const NoActiveKey: string := "No active API key found for this account"
  const InvalidApiKey: string := "Invalid API key"

  /** The account has at least one active key. */
  predicate HasActiveKey(keys: seq<ApiKey>, accountId: int) {
    exists k :: k in keys && k.accountId == accountId && k.isActive
  }

  /** Some active key of the account has a hash the presented key matches. */
  predicate KeyAccepted(keys: seq<ApiKey>, b: Bcrypt, accountId: int, apiKey: string) {
    exists k :: k in keys && k.accountId == accountId && k.isActive && b.compare(apiKey, k.keyHash)
  }

  /** Comparing against the account's active keys finds a match exactly when an active key matches. */
  lemma ActiveComparison(keys: seq<ApiKey>, b: Bcrypt, accountId: int, apiKey: string)
    ensures |ActiveKeysOf(keys, accountId)| == 0 <==> !HasActiveKey(keys, accountId)
    ensures SomeTrue(CompareAll(b, apiKey, ActiveKeysOf(keys, accountId))) <==> KeyAccepted(keys, b, accountId, apiKey)
  {
    var active := ActiveKeysOf(keys, accountId);
    var results := CompareAll(b, apiKey, active);
    if HasActiveKey(keys, accountId) {
      var k :| k in keys && k.accountId == accountId && k.isActive;
      assert k in active;
    }
    if KeyAccepted(keys, b, accountId, apiKey) {
      var k :| k in keys && k.accountId == accountId && k.isActive && b.compare(apiKey, k.keyHash);
      var i :| 0 <= i < |active| && active[i] == k;
      assert results[i];
    }
  }

  /** `validateAccountAndApiKey(sid, apiKey)`: each refusal has its own message. */
  function ValidateAccountAndApiKey(accounts: seq<Account>, keys: seq<ApiKey>, b: Bcrypt, sid: string, apiKey: string)
    : (r: Result<Account, HttpError>)
    ensures FindAccountBySid(accounts, sid).None? ==> r == Err(Unauthorized(InvalidSid))
    ensures FindAccountBySid(accounts, sid).Some? && !HasActiveKey(keys, FindAccountBySid(accounts, sid).value.id) ==>
      r == Err(Unauthorized(NoActiveKey))
    ensures var account := FindAccountBySid(accounts, sid);
      account.Some? && HasActiveKey(keys, account.value.id) && !KeyAccepted(keys, b, account.value.id, apiKey) ==>
        r == Err(Unauthorized(InvalidApiKey))
    ensures r.Ok? ==> Some(r.value) == FindAccountBySid(accounts, sid)
    ensures r.Err? ==> r.error.Unauthorized?
  {
    match FindAccountBySid(accounts, sid)
    case None => Err(Unauthorized(InvalidSid))
    case Some(account) =>
      var active := ActiveKeysOf(keys, account.id);
      ActiveComparison(keys, b, account.id, apiKey);
      if |active| == 0 then Err(Unauthorized(NoActiveKey))
      else if !SomeTrue(CompareAll(b, apiKey, active)) then Err(Unauthorized(InvalidApiKey))
      else Ok(account)
  }

  /** Validation succeeds exactly when the sid is known and an active key of that account matches. */
  lemma ValidateIffActiveKeyMatches(accounts: seq<Account>, keys: seq<ApiKey>, b: Bcrypt, sid: string, apiKey: string)
    ensures var account := FindAccountBySid(accounts, sid);
      ValidateAccountAndApiKey(accounts, keys, b, sid, apiKey).Ok? <==>
        account.Some? && KeyAccepted(keys, b, account.value.id, apiKey)
  {
    var account := FindAccountBySid(accounts, sid);
    if account.Some? {
      ActiveComparison(keys, b, account.value.id, apiKey);
    }
  }

  /** With no active key the account is refused, even when an inactive key would match. */
  lemma InactiveKeysAreIgnored(accounts: seq<Account>, keys: seq<ApiKey>, b: Bcrypt, sid: string, apiKey: string)
    requires FindAccountBySid(accounts, sid).Some?
    requires forall k :: k in keys && k.accountId == FindAccountBySid(accounts, sid).value.id ==> !k.isActive
    ensures ValidateAccountAndApiKey(accounts, keys, b, sid, apiKey)
      == Err(Unauthorized(NoActiveKey))
  {
  }

  /** The first part of `createAccountWithApiKey`: the account with that sid, created when absent. */
  function AccountFor(accounts: seq<Account>, sid: string, name: string, newId: int): (r: (seq<Account>, Account))
    ensures FindAccountBySid(accounts, sid).Some? ==> r == (accounts, FindAccountBySid(accounts, sid).value)
    ensures FindAccountBySid(accounts, sid).None? ==> r.1 == Account(newId, sid, name) && r.0 == accounts + [r.1]
  {
    match FindAccountBySid(accounts, sid)
    case Some(account) => (accounts, account)
    case None => (accounts + [Account(newId, sid, name)], Account(newId, sid, name))
  }

  /** The key row `createAccountWithApiKey` appends: active, holding only the hash. */
  function NewKey(b: Bcrypt, account: Account, plainApiKey: string, newId: int): (k: ApiKey)
    ensures k.accountId == account.id && k.isActive && k.keyHash == b.hash(plainApiKey)
  {
    ApiKey(newId, account.id, b.hash(plainApiKey), DefaultApiKeyIsActive)
  }

  /** Lookup by sid after appending rows finds the same account the old rows held, or the first appended match. */
  lemma {:induction false} FindAfterAppend(accounts: seq<Account>, extra: Account, sid: string)
    ensures FindAccountBySid(accounts + [extra], sid)
      == if FindAccountBySid(accounts, sid).Some? then FindAccountBySid(accounts, sid)
         else if extra.sid == sid then Some(extra) else None
  {
    if accounts != [] {
      assert (accounts + [extra])[1..] == accounts[1..] + [extra];
      FindAfterAppend(accounts[1..], extra, sid);
    }
  }

  /** The account reused or created carries the sid, and looking the sid up afterwards finds it. */
  lemma AccountForIsFound(accounts: seq<Account>, sid: string, name: string, newId: int)
    ensures var (after, account) := AccountFor(accounts, sid, name, newId);
      account.sid == sid && FindAccountBySid(after, sid) == Some(account)
  {
    FindAfterAppend(accounts, Account(newId, sid, name), sid);
  }

  /**
   * Round trip: after the account and key are created, validating the same sid
   * and plain key succeeds with that account, given that bcrypt accepts a key
   * against its own hash.
   */
  lemma CreatedKeyValidates(accounts: seq<Account>, keys: seq<ApiKey>, b: Bcrypt,
                            sid: string, name: string, plainApiKey: string, accountId: int, keyId: int)
    requires Sound(b)
    ensures var (after, account) := AccountFor(accounts, sid, name, accountId);
      ValidateAccountAndApiKey(after, keys + [NewKey(b, account, plainApiKey, keyId)], b, sid, plainApiKey) == Ok(account)
  {
    var (after, account) := AccountFor(accounts, sid, name, accountId);
    var keys' := keys + [NewKey(b, account, plainApiKey, keyId)];
    AccountForIsFound(accounts, sid, name, accountId);
    assert b.compare(plainApiKey, b.hash(plainApiKey));
    assert NewKey(b, account, plainApiKey, keyId) in keys';
    ValidateIffActiveKeyMatches(after, keys', b, sid, plainApiKey);
  }

  /** No two accounts share a sid. */
  ghost predicate UniqueSids(accounts: seq<Account>) {
    forall i, j :: 0 <= i < j < |accounts| ==> accounts[i].sid != accounts[j].sid
  }

  /** Every key row belongs to an existing account. */
  ghost predicate KeysOwned(keys: seq<ApiKey>, accounts: seq<Account>) {
    forall i :: 0 <= i < |keys| ==> exists a :: a in accounts && a.id == keys[i].accountId
  }

  /** Reusing or inserting the account and appending its key keeps sids unique and every key owned. */
  lemma CreateKeepsTables(accounts: seq<Account>, keys: seq<ApiKey>, b: Bcrypt,
                          sid: string, name: string, plainApiKey: string, accountId: int, keyId: int)
    requires UniqueSids(accounts) && KeysOwned(keys, accounts)
    ensures var (after, account) := AccountFor(accounts, sid, name, accountId);
      UniqueSids(after) && KeysOwned(keys + [NewKey(b, account, plainApiKey, keyId)], after)
  {
    var (after, account) := AccountFor(accounts, sid, name, accountId);
    var keys' := keys + [NewKey(b, account, plainApiKey, keyId)];
    assert account in after;
    assert forall a :: a in accounts ==> a in after;
    forall i | 0 <= i < |keys'|
      ensures exists a :: a in after && a.id == keys'[i].accountId
    {
      if i < |keys| {
        var a :| a in accounts && a.id == keys[i].accountId;
        assert a in after;
      } else {
        assert keys'[i].accountId == account.id;
      }
    }
  }

  /**
   * The credential tables. `createAccountWithApiKey` reuses or inserts the
   * account and appends one key row.
   */
  class CredentialStore {
    var accounts: seq<Account>
    var apiKeys: seq<ApiKey>
    var nextAccountId: int
    var nextKeyId: int

    ghost predicate Valid()
      reads this
    {
      && UniqueSids(accounts)
      && (forall i :: 0 <= i < |accounts| ==> accounts[i].id < nextAccountId)
      && (forall i :: 0 <= i < |apiKeys| ==> apiKeys[i].id < nextKeyId)
      && KeysOwned(apiKeys, accounts)
    }

    constructor()
      ensures Valid() && accounts == [] && apiKeys == []
    {
      accounts := [];
      apiKeys := [];
      nextAccountId := 1;
      nextKeyId := 1;
    }

    /** `createAccountWithApiKey(sid, name, plainApiKey)`: returns the account and the plain key it was given. */
    method CreateAccountWithApiKey(b: Bcrypt, sid: string, name: string, plainApiKey: string)
      returns (account: Account, apiKey: string)
      requires Valid()
      modifies this
      ensures Valid()
      ensures apiKey == plainApiKey
      ensures (accounts, account) == AccountFor(old(accounts), sid, name, old(nextAccountId))
      ensures apiKeys == old(apiKeys) + [NewKey(b, account, plainApiKey, old(nextKeyId))]
    {
      CreateKeepsTables(accounts, apiKeys, b, sid, name, plainApiKey, nextAccountId, nextKeyId);
      var found := FindAccountBySid(accounts, sid);
      if found.None? {
        account := Account(nextAccountId, sid, name);
        accounts := accounts + [account];
        nextAccountId := nextAccountId + 1;
      } else {
        account := found.value;
      }
      var keyHash := b.hash(plainApiKey);
      var key := ApiKey(nextKeyId, account.id, keyHash, true);
      apiKeys := apiKeys + [key];
      nextKeyId := nextKeyId + 1;
      apiKey := plainApiKey;
    }
  }
}
