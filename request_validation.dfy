/**
 * The service's checks on query parameters
 * (src/csv_temperature_data/api/utils.py): the comma-separated station
 * list, the year range, and the stations' presence in the dataset. A
 * failed check is the HTTP error the service answers with.
 */
module RequestValidation {
  import opened Wrappers
  import opened Text
  import opened Sorting

  /** The `detail` of an error response: a text, or the list of missing stations. */
  datatype ErrorDetail = DetailText(text: string) | MissingStations(missing: seq<string>)

  datatype HttpError = HttpError(status: int, detail: ErrorDetail)

  const StationsRequired := HttpError(422, DetailText("stations is required"))
  const YearsOutOfOrder := HttpError(422, DetailText("start_year must be <= end_year"))

  /** Every piece is empty or whitespace, so that stripping leaves nothing. */
  predicate AllBlank(pieces: seq<string>)
    decreases |pieces|
  {
    pieces == [] || (Trim(pieces[0]) == "" && AllBlank(pieces[1..]))
  }

  /** Every name is non-empty and has no surrounding whitespace. */
  predicate AllClean(names: seq<string>)
    decreases |names|
  {
    names == [] || (names[0] != "" && Unpadded(names[0]) && AllClean(names[1..]))
  }

  lemma {:induction false} AllCleanIndex(names: seq<string>)
    requires AllClean(names)
    ensures forall i :: 0 <= i < |names| ==> names[i] != "" && Unpadded(names[i])
    decreases |names|
  {
    if names != [] {
      AllCleanIndex(names[1..]);
      assert forall i :: 1 <= i < |names| ==> names[i] == names[1..][i - 1];
    }
  }

  /** `[s.strip() for s in pieces if s and s.strip()]`. */
  function StrippedNonBlank(pieces: seq<string>): (r: seq<string>)
    ensures |r| <= |pieces|
    ensures AllClean(r)
    decreases |pieces|
  {
    if pieces == [] then []
    else
      var rest := StrippedNonBlank(pieces[1..]);
      var t := Trim(pieces[0]);
      if t != "" then [t] + rest else rest
  }

  /** Nothing is kept exactly when every piece is blank. */
  lemma {:induction false} StrippedNonBlankEmpty(pieces: seq<string>)
    ensures StrippedNonBlank(pieces) == [] <==> AllBlank(pieces)
    decreases |pieces|
  {
    if pieces != [] {
      StrippedNonBlankEmpty(pieces[1..]);
    }
  }

  /** Every name kept is the stripped form of one of the pieces. */
  lemma {:induction false} StrippedNonBlankSound(pieces: seq<string>, j: int)
    requires 0 <= j < |StrippedNonBlank(pieces)|
    ensures exists i :: 0 <= i < |pieces| && Trim(pieces[i]) == StrippedNonBlank(pieces)[j]
    decreases |pieces|
  {
    var rest := StrippedNonBlank(pieces[1..]);
    var t := Trim(pieces[0]);
    assert StrippedNonBlank(pieces) == if t != "" then [t] + rest else rest;
    if t == "" || j > 0 {
      var k := if t != "" then j - 1 else j;
      StrippedNonBlankSound(pieces[1..], k);
      var i :| 0 <= i < |pieces| - 1 && Trim(pieces[1..][i]) == rest[k];
      assert pieces[1..][i] == pieces[i + 1];
    }
  }

  /** Every piece that is not blank is kept, stripped. */
  lemma {:induction false} StrippedNonBlankComplete(pieces: seq<string>, i: int)
    requires 0 <= i < |pieces| && Trim(pieces[i]) != ""
    ensures Trim(pieces[i]) in StrippedNonBlank(pieces)
    decreases |pieces|
  {
    var rest := StrippedNonBlank(pieces[1..]);
    var t := Trim(pieces[0]);
    if i == 0 {
      assert StrippedNonBlank(pieces) == [t] + rest;
    } else {
      StrippedNonBlankComplete(pieces[1..], i - 1);
      assert pieces[1..][i - 1] == pieces[i];
      assert StrippedNonBlank(pieces) == if t != "" then [t] + rest else rest;
    }
  }

  /** Every piece between commas is empty or whitespace. */
  predicate OnlyBlankNames(stations: string)
  {
    AllBlank(Split(stations, ','))
  }

  /** `parse_stations_param`: the names between commas, stripped, blanks dropped, order and repeats kept. */
  function ParseStationsParam(stations: string): (r: Result<seq<string>, HttpError>)
    ensures r.Err? <==> OnlyBlankNames(stations)
    ensures r.Err? ==> r.error == StationsRequired
    ensures r.Ok? ==> r.value != [] && forall i :: 0 <= i < |r.value| ==>
      r.value[i] != "" && Unpadded(r.value[i]) && ',' !in r.value[i]
  {
    var pieces := Split(stations, ',');
    var names := StrippedNonBlank(pieces);
    StrippedNonBlankEmpty(pieces);
    if names == [] then Err(StationsRequired)
    else
      AllCleanIndex(names);
      NoCommaInNames(pieces);
      Ok(names)
  }

  lemma NoCommaInNames(pieces: seq<string>)
    requires forall i :: 0 <= i < |pieces| ==> ',' !in pieces[i]
    ensures forall j :: 0 <= j < |StrippedNonBlank(pieces)| ==> ',' !in StrippedNonBlank(pieces)[j]
  {
    var names := StrippedNonBlank(pieces);
    forall j | 0 <= j < |names| ensures ',' !in names[j] {
      StrippedNonBlankSound(pieces, j);
      var k :| 0 <= k < |pieces| && Trim(pieces[k]) == names[j];
      TrimInfix(pieces[k]);
    }
  }

  /** Already-clean names pass through the comprehension unchanged. */
  lemma {:induction false} StrippedNonBlankOfClean(names: seq<string>)
    requires forall i :: 0 <= i < |names| ==> names[i] != "" && Unpadded(names[i])
    ensures StrippedNonBlank(names) == names
    decreases |names|
  {
    if names != [] {
      StrippedNonBlankOfClean(names[1..]);
      assert [names[0]] + names[1..] == names;
    }
  }

  /** A list of clean names joined with "," (as the client sends it) parses back to the same list. */
  lemma ParseJoinedStations(names: seq<string>)
    requires names != []
    requires forall i :: 0 <= i < |names| ==> names[i] != "" && Unpadded(names[i]) && ',' !in names[i]
    ensures ParseStationsParam(Join(names, ",")) == Ok(names)
  {
    SplitJoin(names, ',');
    StrippedNonBlankOfClean(names);
  }

  /** `validate_year_range`: None when the range is acceptable. */
  function ValidateYearRange(startYear: Option<int>, endYear: Option<int>): (r: Option<HttpError>)
    ensures r.Some? <==> startYear.Some? && endYear.Some? && startYear.value > endYear.value
    ensures r.Some? ==> r.value == YearsOutOfOrder
  {
    if startYear.Some? && endYear.Some? && startYear.value > endYear.value then Some(YearsOutOfOrder) else None
  }

  /** `[s for s in xs if s not in available]`, in order. */
  function NotIn(xs: seq<string>, available: set<string>): (r: seq<string>)
    ensures forall i :: 0 <= i < |r| ==> r[i] in xs && r[i] !in available
    ensures forall i :: 0 <= i < |xs| && xs[i] !in available ==> xs[i] in r
    ensures Distinct(xs) ==> Distinct(r)
    decreases |xs|
  {
    if xs == [] then []
    else
      var rest := NotIn(xs[1..], available);
      assert Distinct(xs) ==> xs[0] !in rest;
      if xs[0] !in available then [xs[0]] + rest else rest
  }

  /**
   * `ensure_stations_exist`, with the dataset's station set as a
   * parameter: None when every requested station is available, otherwise
   * a 404 listing the missing ones, each once, in code-point order.
   */
  function EnsureStationsExist(stations: seq<string>, available: set<string>): (r: Option<HttpError>)
    ensures r.None? <==> forall i :: 0 <= i < |stations| ==> stations[i] in available
    ensures r.Some? ==> r.value.status == 404 && r.value.detail.MissingStations?
    ensures r.Some? ==>
      var m := r.value.detail.missing;
      && Distinct(m) && SortedBy(m, LexLe)
      && (forall s :: s in m <==> s in stations && s !in available)
  {
    var missing := NotIn(Dedup(stations), available);
    LexLeTotalOrder();
    SortSorted(missing, LexLe);
    SortDistinct(missing, LexLe);
    var m := Sort(missing, LexLe);
    assert forall s :: s in m <==> s in missing by {
      forall s ensures s in m <==> s in missing {
        SortMembers(missing, LexLe, s);
      }
    }
    if m == [] then
      assert forall i :: 0 <= i < |stations| ==> stations[i] in available by {
        forall i | 0 <= i < |stations| ensures stations[i] in available {
          assert stations[i] in Dedup(stations);
        }
      }
      None
    else Some(HttpError(404, MissingStations(m)))
  }
}
