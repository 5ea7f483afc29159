/**
 * How the client and the service meet: the error responses the service's
 * checks produce, read by `getJson` and turned into banner text by the
 * error translator.
 *
 * The service answers a failed check with the JSON body `{"detail": …}`.
 * Read by `getJson` as written, the error carries no request key, a failed
 * fetch escapes as a plain `TypeError` and a body that does not parse as a
 * plain `SyntaxError`; three rules of the translator then never fire. Read
 * by `getJson` as its callers use it (`Api.GetJsonIntended`), each of them
 * does (see README, Findings).
 */
module Interop {
  import opened Wrappers
  import opened Text
  import opened Sorting
  import opened Js
  import opened Api
  import opened ErrorMessages
  import RV = RequestValidation

  /** The JSON form of an error's `detail`. */
  function DetailJson(d: RV.ErrorDetail): JsValue
  {
    match d
    case DetailText(t) => JStr(t)
    case MissingStations(m) =>
      JObj(map["missing_stations" := JArr(seq(|m|, i requires 0 <= i < |m| => JStr(m[i])))])
  }

  /** The service's error body, `{"detail": …}`; `getJson` reads the detail back out of it. */
  function ErrorBody(e: RV.HttpError): (v: JsValue)
    ensures ErrorDetail(v) == DetailJson(e.detail)
  {
    JObj(map["detail" := DetailJson(e.detail)])
  }

  /** The exchange of a request the service refused with `e`; `text` is the body as sent. */
  function Refused(e: RV.HttpError, statusText: string, text: string): Exchange
  {
    Completed(false, e.status, statusText, text, Ok(ErrorBody(e)))
  }

  lemma {:induction false} NonEmptyStringsOfNonEmpty(xs: seq<string>)
    requires forall i :: 0 <= i < |xs| ==> xs[i] != ""
    ensures NonEmptyStrings(xs) == xs
    decreases |xs|
  {
    if xs != [] {
      NonEmptyStringsOfNonEmpty(xs[1..]);
      assert [xs[0]] + xs[1..] == xs;
    }
  }

  /** The translator reads back the station names the service listed. */
  lemma MissingStationsRoundTrip(m: seq<string>)
    requires m != [] && forall i :: 0 <= i < |m| ==> m[i] != ""
    ensures MissingStationsFromDetail(DetailJson(RV.MissingStations(m))) == Some(m)
  {
    var items := seq(|m|, i requires 0 <= i < |m| => JStr(m[i]));
    var strs := seq(|items|, i requires 0 <= i < |items| => ToJsString(items[i]));
    assert strs == m;
    NonEmptyStringsOfNonEmpty(m);
  }

  /** The error `getJson` rejects with when the service refused a request with `e`. */
  lemma RefusedAsWritten(e: RV.HttpError, statusText: string, text: string)
    requires text != ""
    ensures var r := GetJson(Refused(e, statusText, text));
      && r.Rejected? && r.reason.ApiErr?
      && r.reason.err.status == e.status && r.reason.err.detail == DetailJson(e.detail)
      && r.reason.err.requestKey == None
  {
  }

  /** The same error, read with the request key attached. */
  lemma RefusedIntended(e: RV.HttpError, key: string, statusText: string, text: string)
    requires text != ""
    ensures var r := GetJsonIntended(Refused(e, statusText, text), key);
      && r.Rejected? && r.reason.ApiErr?
      && r.reason.err.status == e.status && r.reason.err.detail == DetailJson(e.detail)
      && r.reason.err.requestKey == Some(key)
  {
    RefusedAsWritten(e, statusText, text);
  }

  /**
   * As written, a 404 that lists missing stations reaches the translator
   * without a request key, so the banner says "Not found while loading
   * data." instead of naming the stations.
   */
  lemma MissingStationsAsWritten(m: seq<string>, statusText: string, text: string)
    requires m != [] && forall i :: 0 <= i < |m| ==> m[i] != ""
    requires text != ""
    ensures var r := GetJson(Refused(RV.HttpError(404, RV.MissingStations(m)), statusText, text));
      && r.Rejected? && r.reason.ApiErr? && r.reason.err.requestKey == None
      && UserFriendlyError(r.reason) == NotFoundMessage("data")
      && UserFriendlyError(r.reason) != MissingStationsMessage(m)
  {
    var e := RV.HttpError(404, RV.MissingStations(m));
    RefusedAsWritten(e, statusText, text);
    var err := GetJson(Refused(e, statusText, text)).reason.err;
    NotFoundRule(err);
    assert RequestLabel(None) == "data";
    assert |NotFoundMessage("data")| < |MissingStationsMessage(m)|;
  }

  /**
   * With the request key attached, every 404 that `ensure_stations_exist`
   * raises on a data request is shown as the missing-stations message, and
   * with six missing stations or fewer the message names each of them.
   */
  lemma MissingStationsIntended(stations: seq<string>, available: set<string>, key: string, statusText: string, text: string)
    requires forall i :: 0 <= i < |stations| ==> stations[i] != ""
    requires key in DataRequestKeys && text != ""
    requires RV.EnsureStationsExist(stations, available).Some?
    ensures var e := RV.EnsureStationsExist(stations, available).value;
      var m := e.detail.missing;
      var r := GetJsonIntended(Refused(e, statusText, text), key);
      && r.Rejected?
      && UserFriendlyError(r.reason) == MissingStationsMessage(m)
      && (|m| <= MaxListed ==> forall s :: s in stations && s !in available ==> Contains(UserFriendlyError(r.reason), s))
  {
    var e := RV.EnsureStationsExist(stations, available).value;
    var m := e.detail.missing;
    assert m != [] by {
      var i :| 0 <= i < |stations| && stations[i] !in available;
      assert stations[i] in m;
    }
    assert forall i :: 0 <= i < |m| ==> m[i] != "" by {
      forall i | 0 <= i < |m| ensures m[i] != "" {
        assert m[i] in stations;
      }
    }
    MissingStationsRoundTrip(m);
    RefusedIntended(e, key, statusText, text);
    var err := GetJsonIntended(Refused(e, statusText, text), key).reason.err;
    NotFoundRule(err);
    if |m| <= MaxListed {
      forall s | s in stations && s !in available
        ensures Contains(MissingStationsMessage(m), s)
      {
        MissingStationsMessageNames(m, s);
      }
    }
  }

  /** A list of six distinct names or fewer is shown whole in the message. */
  lemma MissingStationsMessageNames(m: seq<string>, s: string)
    requires Distinct(m) && |m| <= MaxListed
    requires s in m && s != ""
    ensures Contains(MissingStationsMessage(m), s)
  {
    UniqueNamesOfFew(m);
    FormatStationListShowsAll(m, s);
    MessageContainsList(FormatStationList(m), s);
  }

  /** Distinct names are never more after de-duplication. */
  lemma UniqueNamesOfFew(m: seq<string>)
    requires Distinct(m)
    ensures |UniqueNames(m)| <= |m|
  {
    UniqueNamesCount(m);
    DistinctCardinality(m);
    assert (set t | t in m && t != "") <= (set t | t in m);
  }

  /** Whatever the station list contains, the missing-stations message contains. */
  lemma MessageContainsList(list: string, s: string)
    requires Contains(list, s)
    ensures Contains("Some selected stations aren\U{2019}t available in the dataset (" + list + "). Remove them and try again.", s)
  {
    var prefix := "Some selected stations aren\U{2019}t available in the dataset (";
    var suffix := "). Remove them and try again.";
    ContainsInPrefix(list, suffix, s);
    ContainsInSuffix(prefix, list + suffix, s);
    assert prefix + list + suffix == prefix + (list + suffix);
  }

  /** The text `fetch` rejects with when the browser cannot reach the server. */
  const FailedToFetch := "Failed to fetch"

  /** As written, an unreachable server shows the browser's own "Failed to fetch", not the connectivity guidance. */
  lemma NetworkFailureAsWritten()
    ensures UserFriendlyError(GetJson(NetworkFailure(FailedToFetch)).reason) == FailedToFetch
    ensures UserFriendlyError(GetJson(NetworkFailure(FailedToFetch)).reason) != ConnectivityMessage
  {
    OtherErrorRule(PlainError(FailedToFetch));
    assert |FailedToFetch| < |ConnectivityMessage|;
  }

  /** With failed fetches turned into status 0, an unreachable server always shows the connectivity guidance. */
  lemma NetworkFailureIntended(reason: string, key: string)
    ensures UserFriendlyError(GetJsonIntended(NetworkFailure(reason), key).reason) == ConnectivityMessage
  {
  }

  /** A success status with an HTML body, as a proxy in front of the service may send. */
  const HtmlPage := Completed(true, 200, "OK", "<html>", Err("Unexpected token '<'"))

  /** As written, a body that is not JSON shows the parser's own message. */
  lemma InvalidJsonAsWritten()
    ensures UserFriendlyError(GetJson(HtmlPage).reason) == "Unexpected token '<'"
  {
  }

  /**
   * With parse failures wrapped, a response of status below 500 other than
   * 404 and 422 whose body is not JSON shows the unexpected-response text.
   */
  lemma InvalidJsonIntended(x: Exchange, key: string)
    requires WellFormed(x) && x.Completed? && x.text != "" && x.parsed.Err?
    requires x.status != 404 && x.status != 422 && x.status < 500
    ensures UserFriendlyError(GetJsonIntended(x, key).reason) == UnexpectedResponseMessage(RequestLabel(Some(key)))
  {
  }

  /** The service's refusal of a request without stations reaches the banner as "select a station", with or without the request key. */
  lemma StationsRequiredMessage(stations: string, statusText: string, text: string)
    requires text != "" && RV.ParseStationsParam(stations).Err?
    ensures UserFriendlyError(GetJson(Refused(RV.ParseStationsParam(stations).error, statusText, text)).reason) == SelectStationMessage
  {
    var e := RV.ParseStationsParam(stations).error;
    RefusedAsWritten(e, statusText, text);
    ContainsItself("stations is required");
    UnprocessableRule(GetJson(Refused(e, statusText, text)).reason.err);
  }

  /** The service's refusal of a reversed year range reaches the banner as the year-order guidance. */
  lemma YearOrderMessage(startYear: Option<int>, endYear: Option<int>, statusText: string, text: string)
    requires text != "" && RV.ValidateYearRange(startYear, endYear).Some?
    ensures UserFriendlyError(GetJson(Refused(RV.ValidateYearRange(startYear, endYear).value, statusText, text)).reason) == YearRangeMessage
  {
    var e := RV.ValidateYearRange(startYear, endYear).value;
    RefusedAsWritten(e, statusText, text);
    var y := "start_year must be <= end_year";
    ContainsOwnPrefix(y, |"start_year must be <="|);
    assert y[..|"start_year must be <="|] == "start_year must be <=";
    NotContainsStations(y);
    UnprocessableRule(GetJson(Refused(e, statusText, text)).reason.err);
  }

  lemma ContainsItself(q: string)
    ensures Contains(q, q)
  {
    assert q[..|q|] == q;
  }

  lemma ContainsOwnPrefix(s: string, n: nat)
    requires n <= |s|
    ensures Contains(s, s[..n])
  {
  }

  /** Every character of a string that occurs is a character of the text it occurs in. */
  lemma {:induction false} ContainsChars(s: string, q: string, k: int)
    requires Contains(s, q) && 0 <= k < |q|
    ensures q[k] in s
    decreases |s|
  {
    if StartsWith(s, q) {
      assert s[k] == q[k];
    } else {
      ContainsChars(s[1..], q, k);
    }
  }

  /** "stations is required" does not occur in the year-order text: it has no 'q'. */
  lemma NotContainsStations(y: string)
    requires y == "start_year must be <= end_year"
    ensures !Contains(y, "stations is required")
  {
    var q := "stations is required";
    if Contains(y, q) {
      ContainsChars(y, q, 14);
    }
  }
}
