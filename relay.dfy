/**
 * The two endpoints of the relay as functions from a request and the outcomes
 * of the upstream calls to the calls made and the response sent:
 * `POST /api/stk-push` and `POST /callback`.
 */
module Relay {

  import opened Wrappers
  import opened JsValue
  import opened Http
  import opened IsoTime
  import opened Decimal
  import opened Auth
  import opened Password

  /** The environment variables the relay reads; each may be unset. */
  datatype Config = Config(
    consumerKey: Option<string>,
    consumerSecret: Option<string>,
    shortcode: Option<string>,
    passkey: Option<string>,
    callbackUrl: Option<string>)

  /** The JSON body of the push request, field for field; an unset variable is `undefined` and drops out of the JSON. */
  datatype Payload = Payload(
    BusinessShortCode: Value,
    Password: string,
    Timestamp: string,
    TransactionType: string,
    Amount: Value,
    PartyA: Value,
    PartyB: Value,
    PhoneNumber: Value,
    CallBackURL: Value,
    AccountReference: string,
    TransactionDesc: string)

  /** An upstream call the relay makes, with its Authorization header. */
  datatype Call =
    | TokenCall(authorization: string)
    | PushCall(authorization: string, payload: Payload)

  /** What handling one request does: the upstream calls in the order made, and the response. */
  datatype Exchange = Exchange(calls: seq<Call>, response: Response)

  const ValidationMessage := "Phone and amount required"
  const FallbackMessage := "Failed to initiate payment"
  const PayBillOnline := "CustomerPayBillOnline"
  const PaymentDescription := "Payment for goods/services"
  const ReferencePrefix := "TestPayment-"

  function EnvValue(v: Option<string>): Value {
    match v
    case Some(s) => Str(s)
    case None => Undefined
  }

  /** `{ BusinessShortCode: …, …, TransactionDesc: … }` from the config, the request and the derived values. */
  function BuildPayload(config: Config, phone: Value, amount: Value, timestamp: string, password: string, nowMillis: int): Payload {
    Payload(
      BusinessShortCode := EnvValue(config.shortcode),
      Password := password,
      Timestamp := timestamp,
      TransactionType := PayBillOnline,
      Amount := amount,
      PartyA := phone,
      PartyB := EnvValue(config.shortcode),
      PhoneNumber := phone,
      CallBackURL := EnvValue(config.callbackUrl),
      AccountReference := ReferencePrefix + IntString(nowMillis),
      TransactionDesc := PaymentDescription)
  }

  /** `error.response?.data?.errorMessage || 'Failed to initiate payment'`. */
  function ErrorMessage(f: Fault): Value {
    Or(OptionalProperty(ResponseData(f), "errorMessage"), Str(FallbackMessage))
  }

  /**
   * The `/api/stk-push` handler. The clock is read three times, in this
   * order, and only once the token has arrived: `stampClock` for the
   * `Timestamp` field, `signClock` inside `generatePassword`, and
   * `nowMillis` (`Date.now()`) for the account reference.
   */
  function HandlePush(
    body: Value, config: Config, tokenResult: CallResult,
    stampClock: string, signClock: string, nowMillis: int, pushResult: CallResult): Exchange
  {
    var phone := Property(body, "phone");
    var amount := Property(body, "amount");
    if Falsy(phone) || Falsy(amount) then
      Exchange([], Rejected(ValidationMessage))
    else
      var tokenCall := TokenCall(BasicAuthorization(config.consumerKey, config.consumerSecret));
      match AccessToken(tokenResult)
      case Err(fault) => Exchange([tokenCall], Failure(ErrorMessage(fault)))
      case Ok(token) =>
        var timestamp := StkTimestamp(stampClock);
        var password := GeneratePassword(config.shortcode, config.passkey, signClock);
        var payload := BuildPayload(config, phone, amount, timestamp, password, nowMillis);
        var pushCall := PushCall(BearerAuthorization(token), payload);
        match pushResult
        case Err(fault) => Exchange([tokenCall, pushCall], Failure(ErrorMessage(fault)))
        case Ok(data) => Exchange([tokenCall, pushCall], Sent(data))
  }

  /** The `/callback` handler: the body is only logged. */
  function HandleCallback(body: Value): Response {
    Acknowledged
  }

  predicate Invalid(body: Value) {
    Falsy(Property(body, "phone")) || Falsy(Property(body, "amount"))
  }

  /**
   * The validation gate: a request whose phone or amount is falsy is answered
   * 400 with the fixed message and makes no upstream call; any other request
   * never gets that answer.
   */
  lemma ValidationGate(
    body: Value, config: Config, tokenResult: CallResult,
    stampClock: string, signClock: string, nowMillis: int, pushResult: CallResult)
    ensures var x := HandlePush(body, config, tokenResult, stampClock, signClock, nowMillis, pushResult);
      && (Invalid(body) <==> x.response.Rejected?)
      && (Invalid(body) ==> x.calls == [] && x.response.Status() == 400
                            && x.response.Body() == Obj(map["error" := Str(ValidationMessage)]))
      && (!Invalid(body) ==> |x.calls| >= 1)
  {
  }

  /**
   * Call ordering: a valid request first asks for a token with the Basic
   * credentials, and asks for a push, second and last, exactly when the
   * token arrived.
   */
  lemma TokenBeforePush(
    body: Value, config: Config, tokenResult: CallResult,
    stampClock: string, signClock: string, nowMillis: int, pushResult: CallResult)
    requires !Invalid(body)
    ensures var x := HandlePush(body, config, tokenResult, stampClock, signClock, nowMillis, pushResult);
      && 1 <= |x.calls| <= 2
      && x.calls[0] == TokenCall(BasicAuthorization(config.consumerKey, config.consumerSecret))
      && (|x.calls| == 2 <==> AccessToken(tokenResult).Ok?)
      && (|x.calls| == 2 ==>
            x.calls[1].PushCall? && x.calls[1].authorization == BearerAuthorization(AccessToken(tokenResult).value))
  {
  }

  /** The push call's bearer header carries `res.data.access_token` of the token response, verbatim. */
  lemma BearerCarriesToken(
    body: Value, config: Config, fields: map<string, Value>, token: string,
    stampClock: string, signClock: string, nowMillis: int, pushResult: CallResult)
    requires !Invalid(body) && "access_token" in fields && fields["access_token"] == Str(token)
    ensures var x := HandlePush(body, config, Ok(Obj(fields)), stampClock, signClock, nowMillis, pushResult);
      && |x.calls| == 2 && x.calls[1].PushCall?
      && x.calls[1].authorization == "Bearer " + token
      && ParseBearer(x.calls[1].authorization) == Some(token)
  {
    BearerRoundTrip(token);
  }

  /**
   * A failed token fetch is rethrown: no push call, a 500, and the error
   * message is read from the token endpoint's own error body.
   */
  lemma TokenFailureStopsPush(
    body: Value, config: Config, tokenResult: CallResult,
    stampClock: string, signClock: string, nowMillis: int, pushResult: CallResult)
    requires !Invalid(body) && tokenResult.Err?
    ensures var x := HandlePush(body, config, tokenResult, stampClock, signClock, nowMillis, pushResult);
      && x.calls == [TokenCall(BasicAuthorization(config.consumerKey, config.consumerSecret))]
      && x.response == Failure(ErrorMessage(tokenResult.error))
      && x.response.Status() == 500
  {
  }

  /** A token response without a body object is a TypeError inside `getAccessToken`: no push, the generic message. */
  lemma EmptyTokenBodyStopsPush(
    body: Value, config: Config, data: Value,
    stampClock: string, signClock: string, nowMillis: int, pushResult: CallResult)
    requires !Invalid(body) && Nullish(data)
    ensures var x := HandlePush(body, config, Ok(data), stampClock, signClock, nowMillis, pushResult);
      && |x.calls| == 1
      && x.response == Failure(Str(FallbackMessage))
  {
  }

  /**
   * The payload of the push call: phone in PartyA and PhoneNumber, shortcode
   * in BusinessShortCode and PartyB, the amount untouched, the fixed
   * transaction type and description, the account reference built from the
   * epoch milliseconds (and readable back from it), and the two derived
   * values from their clock readings.
   */
  lemma PayloadFields(
    body: Value, config: Config, tokenResult: CallResult,
    stampClock: string, signClock: string, nowMillis: int, pushResult: CallResult)
    requires !Invalid(body) && AccessToken(tokenResult).Ok?
    ensures var x := HandlePush(body, config, tokenResult, stampClock, signClock, nowMillis, pushResult);
      && |x.calls| == 2 && x.calls[1].PushCall?
      && var p := x.calls[1].payload;
      && p.PartyA == p.PhoneNumber == Property(body, "phone")
      && p.BusinessShortCode == p.PartyB == EnvValue(config.shortcode)
      && p.Amount == Property(body, "amount")
      && p.TransactionType == "CustomerPayBillOnline"
      && p.TransactionDesc == "Payment for goods/services"
      && p.CallBackURL == EnvValue(config.callbackUrl)
      && |p.AccountReference| > 12 && p.AccountReference[..12] == "TestPayment-"
      && ParseInt(p.AccountReference[12..]) == Some(nowMillis)
      && p.Timestamp == StkTimestamp(stampClock)
      && p.Password == GeneratePassword(config.shortcode, config.passkey, signClock)
  {
    var p := HandlePush(body, config, tokenResult, stampClock, signClock, nowMillis, pushResult).calls[1].payload;
    assert p.AccountReference == ReferencePrefix + IntString(nowMillis);
    assert p.AccountReference[12..] == IntString(nowMillis);
    ParseIntString(nowMillis);
  }

  /**
   * The two clock readings: the gateway checks the password against the
   * `Timestamp` field, and the two agree exactly when the reading for the
   * field and the reading inside `generatePassword` fall in the same second.
   */
  lemma TimestampAgreesWithPassword(
    body: Value, shortcode: string, passkey: string, key: Option<string>, secret: Option<string>,
    callbackUrl: Option<string>, tokenResult: CallResult,
    stamped: Instant, signed: Instant, nowMillis: int, pushResult: CallResult)
    requires !Invalid(body) && AccessToken(tokenResult).Ok?
    requires WellFormed(stamped) && WellFormed(signed)
    ensures var config := Config(key, secret, Some(shortcode), Some(passkey), callbackUrl);
      var x := HandlePush(body, config, tokenResult, IsoString(stamped), IsoString(signed), nowMillis, pushResult);
      && |x.calls| == 2 && x.calls[1].PushCall?
      && var p := x.calls[1].payload;
      && (DecodePassword(p.Password) == Some(shortcode + passkey + p.Timestamp) <==> SameSecond(signed, stamped))
  {
    PasswordMatchesTimestamp(shortcode, passkey, signed, stamped);
  }

  /**
   * Response shape: success exactly when both calls succeed, carrying the
   * vendor's body verbatim; every other valid request gets a 500 whose error
   * is the failing call's `errorMessage` when truthy and the fallback
   * otherwise, so it is never empty.
   */
  lemma ResponseShape(
    body: Value, config: Config, tokenResult: CallResult,
    stampClock: string, signClock: string, nowMillis: int, pushResult: CallResult)
    requires !Invalid(body)
    ensures var x := HandlePush(body, config, tokenResult, stampClock, signClock, nowMillis, pushResult);
      && (x.response.Sent? <==> AccessToken(tokenResult).Ok? && pushResult.Ok?)
      && (x.response.Sent? ==>
            && x.response.data == pushResult.value && x.response.Status() == 200
            && x.response.Body() == Obj(map["success" := Bool(true), "data" := pushResult.value,
                                             "message" := Str("STK Push sent! Check your phone.")]))
      && (!x.response.Sent? ==>
            && x.response.Failure? && x.response.Status() == 500 && !Falsy(x.response.error)
            && x.response.Body() == Obj(map["success" := Bool(false), "error" := x.response.error]))
      && (AccessToken(tokenResult).Ok? && pushResult.Err? ==> x.response.error == ErrorMessage(pushResult.error))
  {
  }

  /**
   * Error-message selection: a truthy `errorMessage` in the error body is
   * passed through unchanged; a missing, falsy or unreadable one gives the fallback.
   */
  lemma ErrorMessageSelection(f: Fault)
    ensures var m := OptionalProperty(ResponseData(f), "errorMessage");
      && (!Falsy(m) ==> ErrorMessage(f) == m)
      && (Falsy(m) ==> ErrorMessage(f) == Str("Failed to initiate payment"))
      && (f == NoResponse ==> ErrorMessage(f) == Str("Failed to initiate payment"))
  {
  }

  /** A push rejected with `{ errorMessage: 'Invalid Amount' }` is reported with exactly that error. */
  lemma InvalidAmountReported(
    body: Value, config: Config, tokenResult: CallResult,
    stampClock: string, signClock: string, nowMillis: int)
    requires !Invalid(body) && AccessToken(tokenResult).Ok?
    ensures var rejection := Err(HttpError(Obj(map["errorMessage" := Str("Invalid Amount")])));
      var x := HandlePush(body, config, tokenResult, stampClock, signClock, nowMillis, rejection);
      x.response == Failure(Str("Invalid Amount")) && x.response.Status() == 500
  {
  }

  /** The callback is acknowledged with 200 `{ success: true }` whatever its body holds. */
  lemma CallbackAlwaysAcknowledged(body: Value)
    ensures HandleCallback(body).Status() == 200
    ensures HandleCallback(body).Body() == Obj(map["success" := Bool(true)])
  {
  }

  /**
   * The handler as written reads the clock twice, so a reading for the field
   * at 03:04:05.999 and one inside `generatePassword` at 03:04:06.000 give a
   * password that does not match the `Timestamp` sent with it.
   */
  lemma SplitSecondMismatch(body: Value, shortcode: string, passkey: string, tokenResult: CallResult, nowMillis: int, pushResult: CallResult)
    requires !Invalid(body) && AccessToken(tokenResult).Ok?
    ensures var config := Config(None, None, Some(shortcode), Some(passkey), None);
      var stamped, signed := Instant(2024, 1, 2, 3, 4, 5, 999), Instant(2024, 1, 2, 3, 4, 6, 0);
      var x := HandlePush(body, config, tokenResult, IsoString(stamped), IsoString(signed), nowMillis, pushResult);
      && |x.calls| == 2 && x.calls[1].PushCall?
      && DecodePassword(x.calls[1].payload.Password) != Some(shortcode + passkey + x.calls[1].payload.Timestamp)
  {
    var stamped, signed := Instant(2024, 1, 2, 3, 4, 5, 999), Instant(2024, 1, 2, 3, 4, 6, 0);
    TimestampAgreesWithPassword(body, shortcode, passkey, None, None, None, tokenResult, stamped, signed, nowMillis, pushResult);
  }

  /**
   * The evidently intended handler: one clock reading gives the timestamp,
   * and the same timestamp goes into the password and the `Timestamp` field.
   */
  function HandlePushOneReading(
    body: Value, config: Config, tokenResult: CallResult,
    clock: string, nowMillis: int, pushResult: CallResult): Exchange
  {
    var phone := Property(body, "phone");
    var amount := Property(body, "amount");
    if Falsy(phone) || Falsy(amount) then
      Exchange([], Rejected(ValidationMessage))
    else
      var tokenCall := TokenCall(BasicAuthorization(config.consumerKey, config.consumerSecret));
      match AccessToken(tokenResult)
      case Err(fault) => Exchange([tokenCall], Failure(ErrorMessage(fault)))
      case Ok(token) =>
        var timestamp := StkTimestamp(clock);
        var password := PasswordFor(config.shortcode, config.passkey, timestamp);
        var payload := BuildPayload(config, phone, amount, timestamp, password, nowMillis);
        var pushCall := PushCall(BearerAuthorization(token), payload);
        match pushResult
        case Err(fault) => Exchange([tokenCall, pushCall], Failure(ErrorMessage(fault)))
        case Ok(data) => Exchange([tokenCall, pushCall], Sent(data))
  }

  /** With one reading the password always decodes to shortcode, passkey and the `Timestamp` sent, whatever the clock says. */
  lemma OneReadingPasswordMatches(
    body: Value, shortcode: string, passkey: string, key: Option<string>, secret: Option<string>,
    callbackUrl: Option<string>, tokenResult: CallResult, clock: string, nowMillis: int, pushResult: CallResult)
    requires !Invalid(body) && AccessToken(tokenResult).Ok?
    ensures var config := Config(key, secret, Some(shortcode), Some(passkey), callbackUrl);
      var x := HandlePushOneReading(body, config, tokenResult, clock, nowMillis, pushResult);
      && |x.calls| == 2 && x.calls[1].PushCall?
      && DecodePassword(x.calls[1].payload.Password) == Some(shortcode + passkey + x.calls[1].payload.Timestamp)
  {
    PasswordForDecodes(shortcode, passkey, StkTimestamp(clock));
  }

  /** Where the two readings of the handler as written coincide, it behaves exactly as the corrected one. */
  lemma OneReadingAgrees(
    body: Value, config: Config, tokenResult: CallResult, clock: string, nowMillis: int, pushResult: CallResult)
    ensures HandlePushOneReading(body, config, tokenResult, clock, nowMillis, pushResult)
         == HandlePush(body, config, tokenResult, clock, clock, nowMillis, pushResult)
  {
  }
}
