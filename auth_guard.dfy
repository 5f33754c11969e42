/**
 * The global guard: public routes pass untouched; otherwise the
 * `x-account-sid` and `x-api-key` headers must be present and non-empty, are
 * trimmed, and are checked by the authentication service, whose account is
 * then attached to the request.
 */
module AuthGuard {
  import opened Wrappers
  import opened Text
  import opened Entities
  import opened Errors
  import AuthService

  const AccountSidHeader: string := "x-account-sid"
  const ApiKeyHeader: string := "x-api-key"

  /** Request headers by name; a header's value is a string. */
  type Headers = map<string, string>

  /** `name.charAt(0).toUpperCase() + name.slice(1).toLowerCase()`. */
  function Capitalized(name: string): (r: string)
    ensures |r| == |name|
    ensures name != [] ==> r[0] == UpperChar(name[0]) && r[1..] == ToLower(name[1..])
  {
    if name == [] then [] else [UpperChar(name[0])] + ToLower(name[1..])
  }

  /** The names tried, in order: lower case, as given, upper case, capitalised. */
  function Candidates(name: string): (r: seq<string>)
    ensures |r| == 4 && r[0] == ToLower(name) && r[1] == name
    ensures r[2] == ToUpper(name) && r[3] == Capitalized(name)
  {
    [ToLower(name), name, ToUpper(name), Capitalized(name)]
  }

  /** `headers[c]` is truthy: present and not the empty string. */
  predicate Truthy(headers: Headers, c: string) {
    c in headers && headers[c] != ""
  }

  /** The value of the first candidate whose header is truthy. */
  function FirstTruthy(headers: Headers, names: seq<string>): (r: Option<string>)
    ensures r.None? <==> forall i :: 0 <= i < |names| ==> !Truthy(headers, names[i])
  {
    if names == [] then None
    else if Truthy(headers, names[0]) then Some(headers[names[0]])
    else FirstTruthy(headers, names[1..])
  }

  /** A found value is the non-empty value of the first truthy candidate. */
  lemma {:induction false} FirstTruthyIsFirst(headers: Headers, names: seq<string>)
    requires FirstTruthy(headers, names).Some?
    ensures var v := FirstTruthy(headers, names).value;
      && v != ""
      && exists i :: 0 <= i < |names| && Truthy(headers, names[i]) && v == headers[names[i]]
           && forall j :: 0 <= j < i ==> !Truthy(headers, names[j])
  {
    if !Truthy(headers, names[0]) {
      FirstTruthyIsFirst(headers, names[1..]);
      var r := FirstTruthy(headers, names[1..]);
      var i :| 0 <= i < |names[1..]| && Truthy(headers, names[1..][i]) && r.value == headers[names[1..][i]]
        && forall j :: 0 <= j < i ==> !Truthy(headers, names[1..][j]);
      assert names[i + 1] == names[1..][i];
      forall j | 0 <= j < i + 1 ensures !Truthy(headers, names[j]) {
        if j > 0 { assert names[j] == names[1..][j - 1]; }
      }
    }
  }

  /** `getHeader(name)`: the two direct lookups, then the loop over the case variations. */
  method GetHeader(headers: Headers, name: string) returns (r: Option<string>)
    ensures r == FirstTruthy(headers, Candidates(name))
  {
    var lowerName := ToLower(name);
    if Truthy(headers, lowerName) {
      return Some(headers[lowerName]);
    }
    if Truthy(headers, name) {
      return Some(headers[name]);
    }
    var variations := [ToUpper(name), Capitalized(name)];
    assert Candidates(name)[2..] == variations;
    var i := 0;
    while i < |variations|
      invariant 0 <= i <= |variations|
      invariant FirstTruthy(headers, Candidates(name)) == FirstTruthy(headers, variations[i..])
    {
      if Truthy(headers, variations[i]) {
        return Some(headers[variations[i]]);
      }
      i := i + 1;
    }
    r := None;
  }

  /** The names of the headers that are missing, `x-account-sid` first. */
  function MissingHeaders(sid: Option<string>, key: Option<string>): (r: seq<string>)
    ensures sid.None? <==> AccountSidHeader in r
    ensures key.None? <==> ApiKeyHeader in r
    ensures |r| <= 2 && (sid.None? ==> r[0] == AccountSidHeader)
  {
    (if sid.None? then [AccountSidHeader] else []) + (if key.None? then [ApiKeyHeader] else [])
  }

  /** `names.join(sep)`. */
  function Join(names: seq<string>, sep: string): string {
    if names == [] then "" else if |names| == 1 then names[0] else names[0] + sep + Join(names[1..], sep)
  }

  /** The error message naming the missing headers. */
  function MissingMessage(sid: Option<string>, key: Option<string>): string {
    "Missing required headers: " + Join(MissingHeaders(sid, key), ", ")
  }

  /** What the guard decides: access granted (with the account attached, unless public) or an error. */
  datatype Decision = Granted(user: Option<Account>) | Denied(error: HttpError)

  /** `canActivate` as a decision over the route's public flag, the headers and the credential tables. */
  function Decide(isPublic: bool, headers: Headers, accounts: seq<Account>, keys: seq<ApiKey>, b: AuthService.Bcrypt)
    : (d: Decision)
    ensures isPublic ==> d == Granted(None)
    ensures d.Denied? ==> d.error.Unauthorized?
  {
    if isPublic then Granted(None)
    else
      CheckCredentials(FirstTruthy(headers, Candidates(AccountSidHeader)), FirstTruthy(headers, Candidates(ApiKeyHeader)),
                       accounts, keys, b)
  }

  /** The decision once the two header values have been looked up. */
  function CheckCredentials(accountSid: Option<string>, apiKey: Option<string>,
                            accounts: seq<Account>, keys: seq<ApiKey>, b: AuthService.Bcrypt): (d: Decision)
    ensures d.Denied? ==> d.error.Unauthorized?
  {
    if accountSid.None? || apiKey.None? then
      Denied(Unauthorized(MissingMessage(accountSid, apiKey)))
    else
      match AuthService.ValidateAccountAndApiKey(accounts, keys, b, Trim(accountSid.value), Trim(apiKey.value))
      case Err(e) => Denied(e)
      case Ok(account) => Granted(Some(account))
  }

  /** A public route is granted whatever the headers and the tables hold. */
  lemma PublicIgnoresHeaders(h1: Headers, h2: Headers, a1: seq<Account>, a2: seq<Account>,
                             k1: seq<ApiKey>, k2: seq<ApiKey>, b: AuthService.Bcrypt)
    ensures Decide(true, h1, a1, k1, b) == Decide(true, h2, a2, k2, b)
  {
  }

  /**
   * A non-public request is granted exactly when both headers are present and
   * the trimmed pair validates; the attached user is the validated account.
   */
  lemma GrantedIffValidated(headers: Headers, accounts: seq<Account>, keys: seq<ApiKey>, b: AuthService.Bcrypt)
    ensures var sid := FirstTruthy(headers, Candidates(AccountSidHeader));
      var key := FirstTruthy(headers, Candidates(ApiKeyHeader));
      var d := Decide(false, headers, accounts, keys, b);
      && (d.Granted? <==> (sid.Some? && key.Some?
            && AuthService.ValidateAccountAndApiKey(accounts, keys, b, Trim(sid.value), Trim(key.value)).Ok?))
      && (d.Granted? ==> d.user == Some(AuthService.ValidateAccountAndApiKey(accounts, keys, b, Trim(sid.value), Trim(key.value)).value))
      && (sid.None? || key.None? ==>
            d == Denied(Unauthorized(MissingMessage(sid, key))))
  {
  }

  /** The missing-header list names both headers in a fixed order. */
  lemma MissingHeaderLists()
    ensures MissingHeaders(None, None) == [AccountSidHeader, ApiKeyHeader]
    ensures Join(MissingHeaders(None, None), ", ") == "x-account-sid, x-api-key"
    ensures MissingHeaders(None, Some("k")) == [AccountSidHeader]
    ensures MissingHeaders(Some("s"), None) == [ApiKeyHeader]
  {
  }

  /** An empty value counts as missing, and a lower-case header is found first. */
  lemma EmptyValueIsMissing(headers: Headers, name: string)
    requires forall c :: c in Candidates(name) ==> c !in headers || headers[c] == ""
    ensures FirstTruthy(headers, Candidates(name)).None?
  {
  }

  /** A whitespace-only header passes the presence check and reaches validation as the empty string. */
  lemma BlankValueReachesValidation(headers: Headers, accounts: seq<Account>, keys: seq<ApiKey>, b: AuthService.Bcrypt)
    requires FirstTruthy(headers, Candidates(AccountSidHeader)).Some?
    requires IsBlank(FirstTruthy(headers, Candidates(AccountSidHeader)).value)
    requires FirstTruthy(headers, Candidates(ApiKeyHeader)).Some?
    ensures var key := FirstTruthy(headers, Candidates(ApiKeyHeader)).value;
      Decide(false, headers, accounts, keys, b) ==
        match AuthService.ValidateAccountAndApiKey(accounts, keys, b, "", Trim(key))
        case Err(e) => Denied(e)
        case Ok(a) => Granted(Some(a))
  {
    TrimEmptyIffBlank(FirstTruthy(headers, Candidates(AccountSidHeader)).value);
  }

  /** The request the guard sees; `user` is set on success. */
  class Request {
    const headers: Headers
    var user: Option<Account>

    constructor(headers: Headers)
      ensures this.headers == headers && user.None?
    {
      this.headers := headers;
      user := None;
    }
  }

  /** `canActivate(context)`: returns true or raises; on success a protected request gets its account attached. */
  method CanActivate(isPublic: bool, request: Request, accounts: seq<Account>, keys: seq<ApiKey>, b: AuthService.Bcrypt)
    returns (r: Result<bool, HttpError>)
    modifies request
    ensures var d := Decide(isPublic, request.headers, accounts, keys, b);
      && r == (if d.Granted? then Ok(true) else Err(d.error))
      && request.user == (if d.Granted? && d.user.Some? then d.user else old(request.user))
  {
    if isPublic {
      return Ok(true);
    }
    var accountSid := GetHeader(request.headers, AccountSidHeader);
    var apiKey := GetHeader(request.headers, ApiKeyHeader);
    assert Decide(false, request.headers, accounts, keys, b) == CheckCredentials(accountSid, apiKey, accounts, keys, b);
    if accountSid.None? || apiKey.None? {
      return Err(Unauthorized(MissingMessage(accountSid, apiKey)));
    }
    var trimmedSid := Trim(accountSid.value);
    var trimmedKey := Trim(apiKey.value);
    var validated := AuthService.ValidateAccountAndApiKey(accounts, keys, b, trimmedSid, trimmedKey);
    if validated.Err? {
      return Err(validated.error);
    }
    request.user := Some(validated.value);
    r := Ok(true);
  }
}
