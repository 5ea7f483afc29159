/**
 * The translator from a failed request to the banner text the user sees
 * (frontend/src/errorMessages.ts): an ordered table of rules on the
 * error's status, its detail and the request it came from.
 */
module ErrorMessages {
  import opened Wrappers
  import opened Text
  import opened Sorting
  import opened Js
  import opened Api

  const KnownRequestKeys: set<string> := {"dataRange", "stations", "analyticsSummary", "monthlyData", "annualData"}

  /** The requests that send a station selection, whose 404 can name missing stations. */
  const DataRequestKeys: set<string> := {"analyticsSummary", "monthlyData", "annualData"}

  /** What the request was loading, for the messages below; "data" when the key is unknown or absent. */
  function RequestLabel(key: Option<string>): (name: string)
    ensures name != ""
    ensures name == "data" <==> !(key.Some? && key.value in KnownRequestKeys)
  {
    if key == Some("dataRange") then "dataset year range"
    else if key == Some("stations") then "station list"
    else if key == Some("analyticsSummary") then "analytics summary"
    else if key == Some("monthlyData") then "monthly data"
    else if key == Some("annualData") then "annual data"
    else "data"
  }

  /** Different known requests are told apart in the messages. */
  lemma RequestLabelInjective(a: string, b: string)
    requires a in KnownRequestKeys && b in KnownRequestKeys
    requires RequestLabel(Some(a)) == RequestLabel(Some(b))
    ensures a == b
  {
  }

  /** `xs.filter(Boolean)` on strings: the non-empty ones, in order. */
  function NonEmptyStrings(xs: seq<string>): (r: seq<string>)
    ensures forall i :: 0 <= i < |r| ==> r[i] != "" && r[i] in xs
    ensures forall i :: 0 <= i < |xs| && xs[i] != "" ==> xs[i] in r
    ensures Distinct(xs) ==> Distinct(r)
    ensures |r| <= |xs|
    decreases |xs|
  {
    if xs == [] then []
    else
      var rest := NonEmptyStrings(xs[1..]);
      assert Distinct(xs) ==> xs[0] !in rest;
      if xs[0] != "" then [xs[0]] + rest else rest
  }

  /** The station names `formatStationList` works with: non-empty, each once, sorted. */
  function UniqueNames(stations: seq<string>): (u: seq<string>)
    ensures Distinct(u) && SortedBy(u, LexLe)
    ensures forall i :: 0 <= i < |u| ==> u[i] != "" && u[i] in stations
    ensures forall i :: 0 <= i < |stations| && stations[i] != "" ==> stations[i] in u
  {
    var names := NonEmptyStrings(Dedup(stations));
    LexLeTotalOrder();
    SortSorted(names, LexLe);
    SortDistinct(names, LexLe);
    SortMembersAll(names, LexLe);
    Sort(names, LexLe)
  }

  lemma SortMembersAll(names: seq<string>, le: (string, string) -> bool)
    ensures forall i :: 0 <= i < |Sort(names, le)| ==> Sort(names, le)[i] in names
    ensures forall i :: 0 <= i < |names| ==> names[i] in Sort(names, le)
  {
    forall i | 0 <= i < |Sort(names, le)| ensures Sort(names, le)[i] in names {
      SortMembers(names, le, Sort(names, le)[i]);
    }
    forall i | 0 <= i < |names| ensures names[i] in Sort(names, le) {
      SortMembers(names, le, names[i]);
    }
  }

  /** At most this many names are listed; the rest are counted. */
  const MaxListed := 6

  /** The names a list shows: the first six in order. */
  function ShownNames(stations: seq<string>): (shown: seq<string>)
    ensures |shown| == if |UniqueNames(stations)| <= MaxListed then |UniqueNames(stations)| else MaxListed
  {
    var u := UniqueNames(stations);
    if |u| <= MaxListed then u else u[..MaxListed]
  }

  /** The names shown are sorted and distinct, and every non-empty name left out sorts after every name shown. */
  lemma ShownNamesOrder(stations: seq<string>)
    ensures var shown := ShownNames(stations);
      && Distinct(shown) && SortedBy(shown, LexLe)
      && (forall i :: 0 <= i < |shown| ==> shown[i] != "" && shown[i] in stations)
      && (forall i, t :: 0 <= i < |shown| && t in stations && t != "" && t !in shown ==> LexLe(shown[i], t))
  {
    var u := UniqueNames(stations);
    var shown := ShownNames(stations);
    assert forall i :: 0 <= i < |shown| ==> shown[i] == u[i];
    forall i, t | 0 <= i < |shown| && t in stations && t != "" && t !in shown
      ensures LexLe(shown[i], t)
    {
      var k :| 0 <= k < |stations| && stations[k] == t;
      var j :| 0 <= j < |u| && u[j] == t;
      assert j >= MaxListed;
    }
  }

  /** How many names the list leaves out. */
  function HiddenCount(stations: seq<string>): (n: nat)
    ensures n == if |UniqueNames(stations)| <= MaxListed then 0 else |UniqueNames(stations)| - MaxListed
    ensures |ShownNames(stations)| + n == |UniqueNames(stations)|
  {
    |UniqueNames(stations)| - |ShownNames(stations)|
  }

  /** The station list of the missing-stations message. */
  function FormatStationList(stations: seq<string>): (r: string)
    ensures forall i :: 0 <= i < |ShownNames(stations)| ==> Contains(r, ShownNames(stations)[i])
    ensures HiddenCount(stations) > 0 ==> Contains(r, " (+" + IntToString(HiddenCount(stations)) + " more)")
    ensures HiddenCount(stations) == 0 ==> r == Join(ShownNames(stations), ", ")
  {
    var shown := Join(ShownNames(stations), ", ");
    var remaining := HiddenCount(stations);
    var more := " (+" + IntToString(remaining) + " more)";
    assert forall i :: 0 <= i < |ShownNames(stations)| ==> Contains(shown, ShownNames(stations)[i]) by {
      forall i | 0 <= i < |ShownNames(stations)| {
        JoinContains(ShownNames(stations), ", ", i);
      }
    }
    if remaining == 0 then shown
    else
      assert Contains(shown + more, more) by {
        assert more[..|more|] == more;
        ContainsInSuffix(shown, more, more);
      }
      assert forall i :: 0 <= i < |ShownNames(stations)| ==> Contains(shown + more, ShownNames(stations)[i]) by {
        forall i | 0 <= i < |ShownNames(stations)| {
          ContainsInPrefix(shown, more, ShownNames(stations)[i]);
        }
      }
      shown + more
  }

  /** The names counted are the distinct non-empty names given. */
  lemma UniqueNamesCount(stations: seq<string>)
    ensures |UniqueNames(stations)| == |set s | s in stations && s != ""|
  {
    var u := UniqueNames(stations);
    assert (set s | s in u) == (set s | s in stations && s != "");
    DistinctCardinality(u);
  }

  /** With six names or fewer, every non-empty name appears in the list. */
  lemma FormatStationListShowsAll(stations: seq<string>, t: string)
    requires |UniqueNames(stations)| <= MaxListed
    requires t in stations && t != ""
    ensures Contains(FormatStationList(stations), t)
  {
    var shown := ShownNames(stations);
    var j :| 0 <= j < |shown| && shown[j] == t;
  }

  /**
   * `missingStationsFromDetail`: the non-empty `String` forms of the
   * entries of an object detail's `missing_stations` array; None when
   * there is no such array or no such entry.
   */
  function MissingStationsFromDetail(detail: JsValue): (r: Option<seq<string>>)
    ensures !detail.JObj? ==> r == None
    ensures r.Some? <==>
      var ms := Get(detail, "missing_stations");
      ms.JArr? && exists i :: 0 <= i < |ms.items| && ToJsString(ms.items[i]) != ""
    ensures r.Some? ==>
      var ms := Get(detail, "missing_stations");
      && r.value != []
      && (forall i :: 0 <= i < |r.value| ==> r.value[i] != "")
      && (forall i :: 0 <= i < |ms.items| && ToJsString(ms.items[i]) != "" ==> ToJsString(ms.items[i]) in r.value)
      && (forall i :: 0 <= i < |r.value| ==> exists k :: 0 <= k < |ms.items| && ToJsString(ms.items[k]) == r.value[i])
  {
    if !Truthy(detail) || !IsObjectType(detail) then None
    else
      var ms := Get(detail, "missing_stations");
      if !ms.JArr? then None
      else
        var strs := seq(|ms.items|, i requires 0 <= i < |ms.items| => ToJsString(ms.items[i]));
        assert forall i :: 0 <= i < |ms.items| ==> strs[i] == ToJsString(ms.items[i]);
        var out := NonEmptyStrings(strs);
        if out == [] then None
        else
          assert out[0] in strs;
          Some(out)
  }

  const ConnectivityMessage := "Can\U{2019}t reach the server. Check that the API is running (and not blocked by CORS), then try again."
  const SelectStationMessage := "Select at least one station to load data."
  const YearRangeMessage := "Invalid year range. Start year must be \U{2264} end year."
  const DatasetMissingMessage := "The server can\U{2019}t find the CSV dataset. Set `CSV_PATH` (or mount the data file) and reload."
  const UnexpectedMessage := "Unexpected error."

  function MissingStationsMessage(missing: seq<string>): string
  {
    "Some selected stations aren\U{2019}t available in the dataset (" + FormatStationList(missing) + "). Remove them and try again."
  }

  function NotFoundMessage(what: string): string { "Not found while loading " + what + "." }

  function InvalidRequestMessage(what: string): string { "Invalid request while loading " + what + "." }

  function ServerErrorMessage(what: string): string { "Server error while loading " + what + ". Please try again." }

  function UnexpectedResponseMessage(what: string): string
  {
    "Unexpected server response while loading " + what + ". Please try again."
  }

  function RequestFailedMessage(what: string, status: int): string
  {
    "Request failed while loading " + what + " (" + IntToString(status) + ")."
  }

  /** `typeof detail === "string" && detail.includes(q)`. */
  predicate DetailIncludes(detail: JsValue, q: string)
  {
    detail.JStr? && Contains(detail.s, q)
  }

  /** `userFriendlyError`: the rules, tried in order. */
  function UserFriendlyError(e: Thrown): (msg: string)
    ensures msg != ""
  {
    match e
    case ApiErr(err) =>
      var what := RequestLabel(err.requestKey);
      if err.status == 0 then ConnectivityMessage
      else if err.status == 404 then
        var missing := MissingStationsFromDetail(err.detail);
        if missing.Some? && err.requestKey.Some? && err.requestKey.value in DataRequestKeys then
          MissingStationsMessage(missing.value)
        else NotFoundMessage(what)
      else if err.status == 422 then
        if DetailIncludes(err.detail, "stations is required") then SelectStationMessage
        else if DetailIncludes(err.detail, "start_year must be <=") then YearRangeMessage
        else InvalidRequestMessage(what)
      else if err.status >= 500 then
        if DetailIncludes(err.detail, "CSV_PATH not found") then DatasetMissingMessage
        else ServerErrorMessage(what)
      else if err.message == InvalidJsonMessage then UnexpectedResponseMessage(what)
      else RequestFailedMessage(what, err.status)
    case PlainError(message) => if message != "" then message else UnexpectedMessage
    case NonError => UnexpectedMessage
  }

  /** Status 0 means the server was not reached, whatever the request or the detail. */
  lemma StatusZeroIsConnectivity(err: ApiError)
    requires err.status == 0
    ensures UserFriendlyError(ApiErr(err)) == ConnectivityMessage
  {
  }

  /** A 404 names the missing stations exactly when the detail lists some and a data request failed. */
  lemma NotFoundRule(err: ApiError)
    requires err.status == 404
    ensures var missing := MissingStationsFromDetail(err.detail);
      if missing.Some? && err.requestKey.Some? && err.requestKey.value in DataRequestKeys then
        UserFriendlyError(ApiErr(err)) == MissingStationsMessage(missing.value)
      else
        UserFriendlyError(ApiErr(err)) == NotFoundMessage(RequestLabel(err.requestKey))
  {
  }

  /** On a 422 the missing-selection rule wins over the year-range rule; any other detail gets the generic text. */
  lemma UnprocessableRule(err: ApiError)
    requires err.status == 422
    ensures DetailIncludes(err.detail, "stations is required") ==> UserFriendlyError(ApiErr(err)) == SelectStationMessage
    ensures !DetailIncludes(err.detail, "stations is required") && DetailIncludes(err.detail, "start_year must be <=")
      ==> UserFriendlyError(ApiErr(err)) == YearRangeMessage
    ensures !DetailIncludes(err.detail, "stations is required") && !DetailIncludes(err.detail, "start_year must be <=")
      ==> UserFriendlyError(ApiErr(err)) == InvalidRequestMessage(RequestLabel(err.requestKey))
  {
  }

  lemma ServerErrorRule(err: ApiError)
    requires err.status >= 500
    ensures DetailIncludes(err.detail, "CSV_PATH not found") ==> UserFriendlyError(ApiErr(err)) == DatasetMissingMessage
    ensures !DetailIncludes(err.detail, "CSV_PATH not found")
      ==> UserFriendlyError(ApiErr(err)) == ServerErrorMessage(RequestLabel(err.requestKey))
  {
  }

  /** Any other status: the invalid-JSON message first, then a text that carries the status. */
  lemma FallthroughRule(err: ApiError)
    requires err.status != 0 && err.status != 404 && err.status != 422 && err.status < 500
    ensures err.message == InvalidJsonMessage ==>
      UserFriendlyError(ApiErr(err)) == UnexpectedResponseMessage(RequestLabel(err.requestKey))
    ensures err.message != InvalidJsonMessage ==>
      UserFriendlyError(ApiErr(err)) == RequestFailedMessage(RequestLabel(err.requestKey), err.status)
      && Contains(UserFriendlyError(ApiErr(err)), IntToString(err.status))
  {
    if err.message != InvalidJsonMessage {
      var what := RequestLabel(err.requestKey);
      var n := IntToString(err.status);
      ContainsInSuffix("Request failed while loading " + what + " (", n + ").", n);
      assert Contains(n + ").", n) by {
        assert (n + ").")[..|n|] == n;
      }
      assert RequestFailedMessage(what, err.status) == "Request failed while loading " + what + " (" + (n + ").");
    }
  }

  /** Any other error shows its own message, or a generic text when it has none. */
  lemma OtherErrorRule(e: Thrown)
    requires !e.ApiErr?
    ensures e.PlainError? && e.message != "" ==> UserFriendlyError(e) == e.message
    ensures !(e.PlainError? && e.message != "") ==> UserFriendlyError(e) == UnexpectedMessage
  {
  }
}
