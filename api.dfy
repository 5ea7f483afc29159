/**
 * The client's one HTTP helper, `getJson` (frontend/src/api.ts), and the
 * `ApiError` it throws.
 *
 * `fetch` and `JSON.parse` are inputs: an `Exchange` is either a failed
 * fetch or a completed response together with what `JSON.parse` makes of
 * its body text. What `getJson` does with them is modelled as written
 * (`GetJson`) and, because the error translator expects more of it than it
 * delivers, as evidently intended (`GetJsonIntended`; see README, Findings).
 */
module Api {
  import opened Wrappers
  import opened Text
  import opened Js

  /**
   * An error response. `requestKey` names what was being loaded; the error
   * translator reads it, but api.ts neither declares nor sets it.
   */
  datatype ApiError = ApiError(status: int, message: string, detail: JsValue, requestKey: Option<string>)

  /** What a failed request rejects with. */
  datatype Thrown =
    | ApiErr(err: ApiError)
      /** Any other `Error`: the `TypeError` of a failed fetch, the `SyntaxError` of `JSON.parse`. */
    | PlainError(message: string)
      /** A thrown value that is not an `Error` at all. */
    | NonError

  /** The awaited I/O of one request. */
  datatype Exchange =
    | NetworkFailure(reason: string)
    | Completed(ok: bool, status: int, statusText: string, text: string, parsed: Result<JsValue, string>)

  /**
   * A completed `fetch` in the browser's default CORS mode has an HTTP
   * status, and `ok` means a 2xx status.
   */
  predicate WellFormed(x: Exchange)
  {
    x.Completed? ==> 100 <= x.status <= 599 && (x.ok <==> 200 <= x.status <= 299)
  }

  /** How the promise returned by a request settles. */
  datatype Settled = Resolved(value: JsValue) | Rejected(reason: Thrown)

  const InvalidJsonMessage := "Invalid JSON response from server"

  /** `parsed?.detail ?? parsed`. */
  function ErrorDetail(parsed: JsValue): (d: JsValue)
    ensures parsed.JObj? && "detail" in parsed.props && !IsNullish(parsed.props["detail"])
      ==> d == parsed.props["detail"]
    ensures !(parsed.JObj? && "detail" in parsed.props && !IsNullish(parsed.props["detail"]))
      ==> d == parsed
  {
    Coalesce(Get(parsed, "detail"), parsed)
  }

  /** `${resp.status} ${resp.statusText}`. */
  function StatusLine(status: int, statusText: string): string
  {
    IntToString(status) + " " + statusText
  }

  /** `getJson` as written (frontend/src/api.ts:14-22). */
  function GetJson(x: Exchange): (r: Settled)
    // a failed fetch escapes unchanged
    ensures x.NetworkFailure? ==> r == Rejected(PlainError(x.reason))
    // an empty body is read as null, without calling the parser
    ensures x.Completed? && x.text == "" && x.ok ==> r == Resolved(JNull)
    // a parse failure escapes before `ok` is looked at
    ensures x.Completed? && x.text != "" && x.parsed.Err? ==> r == Rejected(PlainError(x.parsed.error))
    // an ok response resolves to the parsed body
    ensures x.Completed? && x.ok && x.text != "" && x.parsed.Ok? ==> r == Resolved(x.parsed.value)
    // an ok response never throws an ApiError
    ensures x.Completed? && x.ok ==> !(r.Rejected? && r.reason.ApiErr?)
    // any other response throws an ApiError with its status and status line, and no request key
    ensures r.Rejected? && r.reason.ApiErr? <==>
      x.Completed? && !x.ok && (x.text == "" || x.parsed.Ok?)
    ensures r.Rejected? && r.reason.ApiErr? ==>
      var e := r.reason.err;
      && e.status == x.status
      && e.message == StatusLine(x.status, x.statusText)
      && e.detail == ErrorDetail(if x.text == "" then JNull else x.parsed.value)
      && e.requestKey == None
  {
    match x
    case NetworkFailure(reason) => Rejected(PlainError(reason))
    case Completed(ok, status, statusText, text, parsed) =>
      if text != "" && parsed.Err? then Rejected(PlainError(parsed.error))
      else
        var body := if text == "" then JNull else parsed.value;
        if !ok then Rejected(ApiErr(ApiError(status, StatusLine(status, statusText), ErrorDetail(body), None)))
        else Resolved(body)
  }

  /**
   * As written, a message starts with the status digits, so no `ApiError`
   * from `GetJson` carries the message of the translator's invalid-JSON
   * rule, and none of a well-formed exchange has status 0.
   */
  lemma GetJsonErrorsAsWritten(x: Exchange)
    requires WellFormed(x)
    ensures GetJson(x).Rejected? && GetJson(x).reason.ApiErr? ==>
      var e := GetJson(x).reason.err;
      e.status != 0 && e.message != InvalidJsonMessage && e.requestKey == None
  {
    var r := GetJson(x);
    if r.Rejected? && r.reason.ApiErr? {
      var m := r.reason.err.message;
      var n := IntToString(x.status);
      assert IsDigit(n[0]);
      assert m[0] == n[0];
    }
  }

  /**
   * `getJson(url, { requestKey })` as the call sites use it: the key is
   * attached to every error, a failed fetch becomes an `ApiError` of
   * status 0, and a body that does not parse becomes an `ApiError` with
   * the invalid-JSON message and the raw text as detail.
   */
  function GetJsonIntended(x: Exchange, key: string): (r: Settled)
    ensures x.NetworkFailure? ==> r == Rejected(ApiErr(ApiError(0, x.reason, JUndefined, Some(key))))
    ensures x.Completed? && x.text != "" && x.parsed.Err? ==>
      r == Rejected(ApiErr(ApiError(x.status, InvalidJsonMessage, JStr(x.text), Some(key))))
    // every rejection is an ApiError carrying the key
    ensures r.Rejected? ==> r.reason.ApiErr? && r.reason.err.requestKey == Some(key)
    // on a response that parses it agrees with `GetJson` up to the key
    ensures x.Completed? && (x.text == "" || x.parsed.Ok?) ==>
      match GetJson(x)
      case Resolved(v) => r == Resolved(v)
      case Rejected(t) => t.ApiErr? && r == Rejected(ApiErr(t.err.(requestKey := Some(key))))
  {
    match x
    case NetworkFailure(reason) => Rejected(ApiErr(ApiError(0, reason, JUndefined, Some(key))))
    case Completed(ok, status, statusText, text, parsed) =>
      if text != "" && parsed.Err? then
        Rejected(ApiErr(ApiError(status, InvalidJsonMessage, JStr(text), Some(key))))
      else
        var body := if text == "" then JNull else parsed.value;
        if !ok then Rejected(ApiErr(ApiError(status, StatusLine(status, statusText), ErrorDetail(body), Some(key))))
        else Resolved(body)
  }
}
