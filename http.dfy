/**
 * The two sides of HTTP the relay touches: what an upstream axios call gives
 * back, and the responses its own endpoints send.
 */
module Http {

  import opened Wrappers
  import opened JsValue

  /** What a rejected axios call carries, as far as the relay inspects it. */
  datatype Fault =
    | HttpError(data: Value)  // the server answered with a non-2xx status; `error.response.data`
    | NoResponse              // a transport failure, or a TypeError thrown before any response

  /** The outcome of one upstream call: the response body, or the error thrown. */
  type CallResult = Result<Value, Fault>

  /** `error.response?.data`. */
  function ResponseData(f: Fault): Value {
    match f
    case HttpError(data) => data
    case NoResponse => Undefined
  }

  /** The responses the relay's own endpoints send, before JSON serialisation. */
  datatype Response =
    | Rejected(message: string)  // `res.status(400).json({ error })`
    | Sent(data: Value)          // `res.json({ success: true, data, message })`
    | Failure(error: Value)      // `res.status(500).json({ success: false, error })`
    | Acknowledged               // `res.send({ success: true })`
  {
    function Status(): int {
      match this
      case Rejected(_) => 400
      case Sent(_) => 200
      case Failure(_) => 500
      case Acknowledged => 200
    }

    function Body(): Value {
      match this
      case Rejected(message) => Obj(map["error" := Str(message)])
      case Sent(data) => Obj(map["success" := Bool(true), "data" := data, "message" := Str(SentMessage)])
      case Failure(error) => Obj(map["success" := Bool(false), "error" := error])
      case Acknowledged => Obj(map["success" := Bool(true)])
    }
  }

  const SentMessage := "STK Push sent! Check your phone."
}
