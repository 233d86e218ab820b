# M-Pesa STK Push relay — a Dafny model

The relay is a small Express service that starts M-Pesa "STK Push" payments.
For each `POST /api/stk-push` it validates the request. It then fetches an
OAuth token with HTTP Basic credentials and signs the payment with a
time-based password: base64 of shortcode ‖ passkey ‖ `YYYYMMDDHHmmss`. Last,
it posts the payment payload with the bearer token and reports the outcome.
`POST /callback` acknowledges whatever the gateway sends.

The model is pure Dafny. The handlers are functions from a request body, the
configuration, the clock readings and the outcomes of the two upstream calls
to an `Exchange`: the upstream calls made, in order, and the response sent.

Modules:

- `JsValue`: the JavaScript values the relay sees (`undefined`, JSON values
  with integral numbers). It defines falsiness, property access, optional
  chaining, `||` and template-literal string conversion.
- `Decimal`: decimal numerals (`String(Date.now())`, zero-padded fields) and
  their parsers.
- `Utf8`: the UTF-8 encoding `Buffer.from(string)` applies, with a strict
  decoder.
- `Base64`: the base64 of section 4 of RFC 4648, with a strict decoder.
- `IsoTime`: instants, the `toISOString` format (ISO 8601), and the
  `replace(/[-:T.Z]/g, '').slice(0, 14)` timestamp.
- `Http`: upstream call outcomes (`Ok(body)` or `Err(fault)`) and the
  relay's responses with their status and JSON body.
- `Auth`: the Basic header (section 2 of RFC 7617), the Bearer header
  (section 2.1 of RFC 6750) and `getAccessToken`'s token extraction, each
  with a parser as its partner.
- `Password`: `generatePassword`.
- `Relay`: the configuration, the payload, and both endpoint handlers.

Where the code goes further than a plain description of it, the model follows
the code:

- A failed token fetch is rethrown unchanged, so the 500's `error` can come
  from the token endpoint's error body.
- A token response with a null or missing body makes `getAccessToken` throw a
  TypeError. That error has no response, so the message is the generic
  fallback.
- An unset environment variable prints as `undefined` in the template
  literals and in `shortcode + passkey`. Two unset ones add up to `NaN`.
- The handler reads the clock for the `Timestamp` field (index.js:52-55)
  before `generatePassword` reads it again (index.js:32-35). Both reads happen
  only after the token has arrived.

## Model

| member | source | states |
|---|---|---|
| `Decimal.NatString` | index.js:72 | the numeral of `Date.now()` is at least one digit, all digits, with no leading zero |
| `Decimal.ParseIntString` | index.js:72 | the numeral printed for an integer parses back to that integer, minus sign included |
| `Decimal.ParsePadded` | index.js:32-35 | a zero-padded field of width w reads back as the number, for numbers below 10^w |
| `Decimal.PaddedInjective` | index.js:32-35 | two zero-padded fields of one width are equal exactly when the numbers are |
| `Utf8.EncodeChar` | index.js:38 | each character takes one to four bytes; one byte exactly for ASCII, equal to its code; the bytes of a non-ASCII character are all at least 0x80 |
| `Utf8.Encode` | index.js:38 | the byte count is at least the string length, and equal to it for ASCII |
| `Utf8.EncodeConcat` | index.js:37-38 | encoding a concatenation concatenates the encodings |
| `Utf8.EncodeAscii` | index.js:38 | an ASCII string encodes to its own character codes |
| `Utf8.DecodeEncode` | index.js:38 | decoding the encoding gives back the string |
| `Utf8.EncodeInjective` | index.js:38 | two strings have the same encoding exactly when they are equal |
| `Base64.Encode` | index.js:38 | the encoding has 4·⌈n/3⌉ characters for n bytes |
| `Base64.DecodeEncode` | index.js:38 | decoding an encoding gives back the bytes |
| `Base64.EncodeDecode` | index.js:38 | every text the strict decoder accepts is the encoding of what it decodes to |
| `Base64.EncodeInjective` | index.js:38 | two byte strings have the same encoding exactly when they are equal |
| `IsoTime.StripSeparators` | index.js:34 | the result is no longer than the input, contains no `-`, `:`, `T`, `.` or `Z`, and keeps every other character of the input |
| `IsoTime.StripConcat` | index.js:34 | removing separators from a concatenation concatenates the results |
| `IsoTime.Slice` | index.js:35 | `slice(0, n)` is a prefix of length n, or the whole string when it is shorter |
| `IsoTime.StkTimestamp` | index.js:32-35 | the timestamp is at most 14 characters and contains no separator, for any input string |
| `IsoTime.StripIso` | index.js:32-34 | stripping a well-formed `toISOString` string leaves its 17 digits: date, time and milliseconds |
| `IsoTime.TimestampOfIso` | index.js:32-35 | for a well-formed ISO string the timestamp is exactly year‖month‖day‖hour‖minute‖second, 14 characters, all digits |
| `IsoTime.CompactFields` | index.js:32-35 | every calendar field can be read back from its fixed position in the 14-digit timestamp |
| `IsoTime.TimestampSameSecond` | index.js:32-35 | two readings give the same timestamp exactly when they fall in the same second |
| `Auth.SplitAtFirstColon` | index.js:14-16 | splitting at the first colon yields a colon-free user-id that rejoins to the input, and fails exactly when there is no colon |
| `Auth.BasicRoundTrip` | index.js:14-16 | a server decoding the Basic header gets back the consumer key and the secret, provided the key has no colon |
| `Auth.BasicColonInKey` | index.js:14-16 | a key containing a colon is not read back as the same key and secret |
| `Auth.BearerRoundTrip` | index.js:79 | the Bearer header carries the token string verbatim after `Bearer ` |
| `Password.PasswordDecodesToText` | index.js:37-38 | the password decodes to the text that `shortcode + passkey + timestamp` builds, whatever is configured |
| `Password.PasswordForDecodes` | index.js:37-38 | with both variables set, the password decodes to shortcode ‖ passkey ‖ timestamp, in that order |
| `Password.PasswordDecodes` | index.js:31-39 | `generatePassword` decodes to shortcode ‖ passkey ‖ the timestamp of its own clock reading |
| `Password.PasswordLength` | index.js:37-38 | the password has 4·⌈n/3⌉ characters, where n is the UTF-8 byte length of the raw text |
| `Password.AsciiPasswordLength` | index.js:32-38 | for an ASCII shortcode and passkey and a well-formed clock, n is their length plus 14 |
| `Password.PasswordMatchesTimestamp` | index.js:31-39 | the password built from one reading decodes to shortcode ‖ passkey ‖ another reading's timestamp exactly when the two readings fall in the same second |
| `Password.PasswordAtFrozenClock` | index.js:31-39 | for a clock reading `toISOString` prints as 2024-01-02T03:04:05.sssZ, the password is base64 of `174379` ‖ passkey ‖ `20240102030405` |
| `Relay.ValidationGate` | index.js:43-47 | a falsy phone or amount gives exactly the 400 `{error: 'Phone and amount required'}`, with no upstream call; any other request makes at least one call and never gets the 400 |
| `Relay.TokenBeforePush` | index.js:49-80 | a valid request first calls the token endpoint with the Basic header; it calls the push endpoint second and last exactly when the token arrived, with the Bearer header of that token |
| `Relay.BearerCarriesToken` | index.js:76-79 | the push call's header is `Bearer ` followed by `access_token` from the token response, and it parses back to that token |
| `Relay.TokenFailureStopsPush` | index.js:49-92 | a failed token call is the only call made, and the response is the 500 with the error message taken from the token call's own error |
| `Relay.EmptyTokenBodyStopsPush` | index.js:18-27 | a null or missing token body means no push call and the generic fallback message |
| `Relay.PayloadFields` | index.js:52-74 | PartyA = PhoneNumber = phone; BusinessShortCode = PartyB = shortcode; Amount unchanged; fixed type and description; the callback URL; AccountReference = `TestPayment-` ‖ numeral of the epoch milliseconds, which parses back to them; Timestamp and Password from their clock readings |
| `Relay.TimestampAgreesWithPassword` | index.js:52-65 | in the push payload, the password decodes to shortcode ‖ passkey ‖ `Timestamp` exactly when the two clock readings fall in the same second |
| `Relay.ResponseShape` | index.js:82-92 | success exactly when both calls succeed, giving 200 `{success: true, data: <vendor body>, message}`; otherwise 500 `{success: false, error}` with a truthy error, which for a failed push is that push's error message |
| `Relay.ErrorMessageSelection` | index.js:91 | a truthy `errorMessage` in the error body passes through unchanged; a missing, falsy or unreachable one gives `'Failed to initiate payment'` |
| `Relay.InvalidAmountReported` | index.js:87-92 | a push rejected with `{errorMessage: 'Invalid Amount'}` gives a 500 whose error is exactly `'Invalid Amount'` |
| `Relay.CallbackAlwaysAcknowledged` | index.js:97-105 | the callback answers 200 `{success: true}` for every body |
| `Relay.SplitSecondMismatch` | index.js:52-60 | as written: field reading 03:04:05.999 and password reading 03:04:06.000 give a password that does not decode to shortcode ‖ passkey ‖ `Timestamp` |
| `Relay.OneReadingPasswordMatches` | index.js:52-65 | corrected: with one reading, the password always decodes to shortcode ‖ passkey ‖ the `Timestamp` sent |
| `Relay.OneReadingAgrees` | index.js:42-94 | where the two readings of the handler as written coincide, it gives the same calls and response as the corrected handler |

## Findings

| source | as written | input that shows it | evidently intended | confidence | as-written member | corrected member |
|---|---|---|---|---|---|---|
| index.js:52-60 | The `Timestamp` field and the password each read the clock, one after the other | field read at 2024-01-02T03:04:05.999Z, password read at 2024-01-02T03:04:06.000Z: the field says `20240102030405`, the password encodes `…20240102030406` | the timestamp inside the password is the `Timestamp` sent with it, which is what the gateway checks | medium, not executed | `Relay.SplitSecondMismatch` (on `Relay.HandlePush`) | `Relay.OneReadingPasswordMatches` (on `Relay.HandlePushOneReading`) |

The other `Relay` lemmas are stated over `Relay.HandlePush`, the handler as
written. `Relay.OneReadingAgrees` shows that the corrected handler
`Relay.HandlePushOneReading` gives the same result whenever both readings are
the same clock string. Every property proved for the handler as written,
applied to that case, therefore holds for the corrected one.

## Left out

- Express setup, JSON body parsing, CORS, dotenv, `app.listen` and
  `PORT`: framework plumbing with no logic of the relay's own.
- The axios HTTP calls: their outcomes are the inputs `tokenResult` and
  `pushResult`, and the calls the model records carry their Authorization
  header and payload. The endpoint URLs and `grant_type` are constants of
  those calls and are not modelled.
- `console.log` and `console.error` output: logging has no observable
  effect on a response.
- The real clock: `new Date().toISOString()` comes in as a string and
  `Date.now()` as an integer. Only the 24-character `toISOString` form is
  characterised (`IsoTime.WellFormed`: years 0 to 9999). The `±YYYYYY` form
  of other years is not. The mapping from epoch milliseconds to calendar
  fields is not modelled, so the model does not relate `nowMillis` to the
  other two readings.
- Floating point: JSON numbers are integers here. Fractional amounts, `-0`,
  `NaN` and the exponent notation JavaScript uses for magnitudes of 10^21
  and above are not modelled. No number the relay formats (`Date.now()`)
  reaches that range.
- JavaScript strings are UTF-16. The model's strings are sequences of
  Unicode scalar values, so lone surrogates, which `Buffer` replaces with
  U+FFFD, are not covered.
- A request body that is not an object, or is null: `express.json()` only
  delivers objects and arrays. For other values the model reads `phone` and
  `amount` as `undefined` rather than throwing from the destructuring.
- Properties inherited from `Object.prototype`: property access reads own
  properties only. None of the keys the relay reads is inherited.
- Concurrency: the handlers share no state, so each request is modelled on
  its own.
- JSON serialisation of the response and the payload: a field whose value
  is `undefined` (an unset variable, or a vendor body that is absent) is
  dropped by `JSON.stringify`. The model keeps it as `Undefined`.
