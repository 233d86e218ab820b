/**
 * The two Authorization header values the relay sends: HTTP Basic
 * credentials for the token endpoint (section 2 of RFC 7617) and the bearer
 * token for the push endpoint (section 2.1 of RFC 6750); and the token
 * extraction of `getAccessToken`.
 */
module Auth {

  import opened Wrappers
  import opened JsValue
  import opened Http
  import Utf8
  import Base64

  /** `${process.env.X}`: a variable that is not set prints as `undefined`. */
  function EnvText(v: Option<string>): string {
    match v
    case Some(s) => s
    case None => "undefined"
  }

  /** `Buffer.from(`${key}:${secret}`).toString('base64')`. */
  function BasicCredentials(key: Option<string>, secret: Option<string>): string {
    Base64.Encode(Utf8.Encode(EnvText(key) + ":" + EnvText(secret)))
  }

  function BasicAuthorization(key: Option<string>, secret: Option<string>): string {
    "Basic " + BasicCredentials(key, secret)
  }

  function BearerAuthorization(token: Value): string {
    "Bearer " + TemplateString(token)
  }

  /** The user-id and password of RFC 7617: the text before and after the first colon. */
  function SplitAtFirstColon(s: string): (r: Option<(string, string)>)
    ensures r.Some? ==> r.value.0 + ":" + r.value.1 == s && ':' !in r.value.0
    ensures r.None? <==> ':' !in s
  {
    if s == [] then None
    else if s[0] == ':' then Some(([], s[1..]))
    else match SplitAtFirstColon(s[1..])
      case None => None
      case Some((user, password)) => Some(([s[0]] + user, password))
  }

  /** How a server reads Basic credentials: strip the scheme, base64-decode, UTF-8-decode, split. */
  function ParseBasic(header: string): Option<(string, string)> {
    if |header| < 6 || header[..6] != "Basic " then None
    else match Base64.Decode(header[6..])
      case None => None
      case Some(bytes) =>
        match Utf8.Decode(bytes)
        case None => None
        case Some(text) => SplitAtFirstColon(text)
  }

  function ParseBearer(header: string): Option<string> {
    if |header| < 7 || header[..7] != "Bearer " then None else Some(header[7..])
  }

  lemma {:induction false} SplitAtColon(user: string, password: string)
    requires ':' !in user
    ensures SplitAtFirstColon(user + ":" + password) == Some((user, password))
  {
    if user != [] {
      assert (user + ":" + password)[1..] == user[1..] + ":" + password;
      SplitAtColon(user[1..], password);
      assert [user[0]] + user[1..] == user;
    }
  }

  /**
   * The Basic header carries the consumer key and secret: a server that
   * decodes it gets both back, provided the key has no colon (RFC 7617
   * forbids one in a user-id).
   */
  lemma BasicRoundTrip(key: string, secret: string)
    requires ':' !in key
    ensures ParseBasic(BasicAuthorization(Some(key), Some(secret))) == Some((key, secret))
  {
    var header := BasicAuthorization(Some(key), Some(secret));
    assert header[..6] == "Basic " && header[6..] == BasicCredentials(Some(key), Some(secret));
    Base64.DecodeEncode(Utf8.Encode(key + ":" + secret));
    Utf8.DecodeEncode(key + ":" + secret);
    SplitAtColon(key, secret);
  }

  /** A key with a colon is split at that colon instead, so the server reads other credentials. */
  lemma BasicColonInKey(key: string, secret: string)
    requires ':' in key
    ensures ParseBasic(BasicAuthorization(Some(key), Some(secret))) != Some((key, secret))
  {
    var header := BasicAuthorization(Some(key), Some(secret));
    assert header[..6] == "Basic " && header[6..] == BasicCredentials(Some(key), Some(secret));
    Base64.DecodeEncode(Utf8.Encode(key + ":" + secret));
    Utf8.DecodeEncode(key + ":" + secret);
  }

  /** The bearer header carries the token verbatim. */
  lemma BearerRoundTrip(token: string)
    ensures ParseBearer(BearerAuthorization(Str(token))) == Some(token)
  {
    var header := BearerAuthorization(Str(token));
    assert header[..7] == "Bearer " && header[7..] == token;
  }

  /**
   * `getAccessToken` once its GET has settled: `res.data.access_token`, or
   * the error, rethrown unchanged. Reading a property of a null or missing
   * body throws a TypeError, which carries no response.
   */
  function AccessToken(call: CallResult): Result<Value, Fault> {
    match call
    case Err(fault) => Err(fault)
    case Ok(data) => if Nullish(data) then Err(NoResponse) else Ok(Property(data, "access_token"))
  }
}
