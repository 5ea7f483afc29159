/**
 * The page (frontend/src/App.tsx): the zoom over the years, the key that
 * identifies what the chart shows, and the page state that the three
 * loads, the automatic reload, the zoom controls, the chart and the
 * station list change.
 *
 * Each load is one atomic step given the outcome of its requests: both
 * responses of a `Promise.all`, or the first failure. Interleavings of
 * loads, React's scheduling of effects and the `cancelled` flag of the
 * first effect are not part of this model.
 */
module App {
  import opened Wrappers
  import opened Text
  import opened Sorting
  import opened FormUrl
  import opened Types
  import opened Api
  import opened ErrorMessages
  import opened StationPicker
  import opened Visualization
  import opened ZoomControls

  // ---------------------------------------------------------------------
  // Zoom arithmetic

  /** The dataset's first and last year. */
  datatype YearBounds = YearBounds(minYear: int, maxYear: int)

  /** The zoom: a centre year and a window of years. */
  datatype Zoom = Zoom(centerYear: int, windowYears: int)

  /** The bounds the page starts with, before the dataset's are known. */
  const InitialBounds := YearBounds(1859, 2019)

  /** `Math.round(k / 2)` for an integer `k`: halves round up. */
  function HalfRoundedUp(k: int): (r: int)
    ensures 2 * r - 1 <= k <= 2 * r
  {
    (k + 1) / 2
  }

  /** `Math.max(1, maxYear - minYear + 1)`. */
  function Span(b: YearBounds): (s: int)
    ensures s >= 1
    ensures b.minYear <= b.maxYear ==> s == b.maxYear - b.minYear + 1
  {
    if b.maxYear - b.minYear + 1 >= 1 then b.maxYear - b.minYear + 1 else 1
  }

  /** `Math.max(1, Math.min(span, v))`. */
  function ClampWindow(b: YearBounds, v: int): (w: int)
    ensures 1 <= w <= Span(b)
    ensures 1 <= v <= Span(b) ==> w == v
    ensures v < 1 ==> w == 1
    ensures v > Span(b) ==> w == Span(b)
  {
    var m := if Span(b) <= v then Span(b) else v;
    if m >= 1 then m else 1
  }

  /**
   * `zoomRange`: the years the page asks for, `centerYear - floor(w/2)` to
   * `centerYear + ceil(w/2) - 1` for the clamped window `w`.
   */
  function ZoomRange(b: YearBounds, z: Zoom): (r: (int, int))
    ensures r.1 - r.0 + 1 == ClampWindow(b, z.windowYears)
    ensures r.0 <= z.centerYear <= r.1
  {
    var w := ClampWindow(b, z.windowYears);
    (z.centerYear - w / 2, z.centerYear + (w + 1) / 2 - 1)
  }

  /** With a window that fits, the page fetches exactly the range the zoom card shows. */
  lemma ZoomRangeIsDisplayed(b: YearBounds, z: Zoom)
    requires 1 <= z.windowYears <= Span(b)
    ensures ZoomRange(b, z) == DisplayedRange(z.centerYear, z.windowYears)
  {
  }

  /** The whole dataset, centred: the initial zoom, the Reset button, a chart reset and a bounds load. */
  function FullZoom(b: YearBounds): (z: Zoom)
    ensures b.minYear <= b.maxYear ==> z.windowYears == Span(b)
    ensures b.minYear <= b.maxYear ==> ZoomRange(b, z) == (b.minYear, b.maxYear)
  {
    Zoom(HalfRoundedUp(b.minYear + b.maxYear), b.maxYear - b.minYear + 1)
  }

  /** The initial zoom: centre 1939, a window of 161 years. */
  lemma InitialZoom()
    ensures FullZoom(InitialBounds) == Zoom(1939, 161)
  {
  }

  /** The zoom an enabled chart event asks for: the window its years span, clamped, centred between them. */
  function ZoomFromEvent(b: YearBounds, startYear: int, endYear: int): (z: Zoom)
    ensures 1 <= z.windowYears <= Span(b)
    ensures var lo := if startYear <= endYear then startYear else endYear;
      var hi := if startYear <= endYear then endYear else startYear;
      && z.windowYears == ClampWindow(b, hi - lo + 1)
      && lo <= z.centerYear <= hi
      && 2 * z.centerYear - 1 <= lo + hi <= 2 * z.centerYear
  {
    var start := if startYear <= endYear then startYear else endYear;
    var end := if startYear <= endYear then endYear else startYear;
    Zoom(HalfRoundedUp(start + end), ClampWindow(b, end - start + 1))
  }

  /** The order of the event's years does not matter. */
  lemma ZoomFromEventSymmetric(b: YearBounds, startYear: int, endYear: int)
    ensures ZoomFromEvent(b, startYear, endYear) == ZoomFromEvent(b, endYear, startYear)
  {
  }

  /** A zoom to 1950..1980 over the initial bounds: a window of 31 years centred on 1965. */
  lemma ZoomFromEventExample()
    ensures ZoomFromEvent(InitialBounds, 1950, 1980) == Zoom(1965, 31)
    ensures ZoomFromEvent(InitialBounds, 1980, 1950) == Zoom(1965, 31)
  {
  }

  /** A range that fits the dataset's span, zoomed to from the chart, is the range the page then fetches. */
  lemma ZoomRangeOfEvent(b: YearBounds, startYear: int, endYear: int)
    requires startYear <= endYear && endYear - startYear + 1 <= Span(b)
    ensures ZoomRange(b, ZoomFromEvent(b, startYear, endYear)) == (startYear, endYear)
  {
    var w := endYear - startYear + 1;
    var c := HalfRoundedUp(startYear + endYear);
    assert startYear + endYear == 2 * startYear + w - 1;
    assert c == startYear + w / 2;
  }

  /** The range a fitting zoom fetches, reported back by the chart, gives the same zoom. */
  lemma EventOfZoomRange(b: YearBounds, z: Zoom)
    requires 1 <= z.windowYears <= Span(b)
    ensures var r := ZoomRange(b, z); ZoomFromEvent(b, r.0, r.1) == z
  {
  }

  // ---------------------------------------------------------------------
  // What the chart shows, as a key

  /** `selected.join(",")`, the `stations` parameter. */
  function StationsParam(selected: seq<string>): string
  {
    Join(selected, ",")
  }

  /**
   * One `name=value` pair of `URLSearchParams.toString()`. The names the
   * page uses are made of unreserved characters, which the encoding keeps
   * as they are, so only the value is encoded here.
   */
  function FormPair(name: string, value: string): string
  {
    name + "=" + Encode(value)
  }

  /** `baseParams.toString()`: the stations parameter, then the start and end years. */
  function BaseKey(stationsParam: string, startYear: int, endYear: int): string
  {
    FormPair("stations", stationsParam)
      + "&" + FormPair("start_year", IntToString(startYear))
      + "&" + FormPair("end_year", IntToString(endYear))
  }

  function ModeName(mode: Mode): string
  {
    if mode == Monthly then "monthly" else "annual"
  }

  function StdFlag(includeStd: bool): string
  {
    if includeStd then "std1" else "std0"
  }

  /** What a key is written from: the stations parameter, the years, the mode and the band setting. */
  datatype KeyParts = KeyParts(stationsParam: string, startYear: int, endYear: int, mode: Mode, includeStd: bool)

  /** `targetKey`: `${baseKey}|${mode}|std0` or `…|std1`. */
  function KeyText(k: KeyParts): string
  {
    BaseKey(k.stationsParam, k.startYear, k.endYear) + "|" + ModeName(k.mode) + "|" + StdFlag(k.includeStd)
  }

  /** The parts of the key of a selection, a zoom over the bounds, a mode and a band setting. */
  function KeyPartsOf(b: YearBounds, z: Zoom, selected: seq<string>, mode: Mode, includeStd: bool): KeyParts
  {
    var r := ZoomRange(b, z);
    KeyParts(StationsParam(selected), r.0, r.1, mode, includeStd)
  }

  lemma JoinThree(a: string, b: string, c: string, sep: string)
    ensures Join([a, b, c], sep) == a + sep + b + sep + c
  {
    assert [a, b, c][1..] == [b, c];
    assert [b, c][1..] == [c];
    assert Join([b, c], sep) == b + sep + c;
  }

  /** Everything URLSearchParams writes is made of encoded characters, "=" and "&". */
  predicate IsFormText(s: string)
  {
    forall i :: 0 <= i < |s| ==> EncodedChar(s[i]) || s[i] == '=' || s[i] == '&'
  }

  lemma FormTextConcat(a: string, b: string)
    requires IsFormText(a) && IsFormText(b)
    ensures IsFormText(a + b)
  {
  }

  lemma FormPairIsFormText(name: string, value: string)
    requires IsFormText(name)
    ensures IsFormText(FormPair(name, value))
  {
    var e := Encode(value);
    assert forall i :: 0 <= i < |e| ==> EncodedChar(e[i]);
    FormTextConcat(name, "=");
    FormTextConcat(name + "=", e);
  }

  lemma StationsNameIsFormText()
    ensures IsFormText("stations")
  {
  }

  lemma StartYearNameIsFormText()
    ensures IsFormText("start_year")
  {
  }

  lemma EndYearNameIsFormText()
    ensures IsFormText("end_year")
  {
  }

  lemma BaseKeyIsFormText(stationsParam: string, startYear: int, endYear: int)
    ensures IsFormText(BaseKey(stationsParam, startYear, endYear))
  {
    var p1 := FormPair("stations", stationsParam);
    var p2 := FormPair("start_year", IntToString(startYear));
    var p3 := FormPair("end_year", IntToString(endYear));
    StationsNameIsFormText();
    StartYearNameIsFormText();
    EndYearNameIsFormText();
    FormPairIsFormText("stations", stationsParam);
    FormPairIsFormText("start_year", IntToString(startYear));
    FormPairIsFormText("end_year", IntToString(endYear));
    FormTextConcat(p1, "&");
    FormTextConcat(p1 + "&", p2);
    FormTextConcat(p1 + "&" + p2, "&");
    FormTextConcat(p1 + "&" + p2 + "&", p3);
  }

  /** Two texts with the same start are equal when the rests are. */
  lemma CancelPrefix(a: string, x: string, y: string)
    requires a + x == a + y
    ensures x == y
  {
    assert x == (a + x)[|a|..];
    assert y == (a + y)[|a|..];
  }

  lemma FormPairInjective(name: string, x: string, y: string)
    requires FormPair(name, x) == FormPair(name, y)
    ensures x == y
  {
    CancelPrefix(name + "=", Encode(x), Encode(y));
    EncodeInjective(x, y);
  }

  lemma NoAmpersandInPair(name: string, value: string)
    requires '&' !in name
    ensures '&' !in FormPair(name, value)
  {
    var e := Encode(value);
    assert forall i :: 0 <= i < |e| ==> EncodedChar(e[i]);
  }

  /** The three pairs of a base key, which it joins with "&". */
  function BasePairs(stationsParam: string, startYear: int, endYear: int): (ps: seq<string>)
    ensures |ps| == 3 && forall i :: 0 <= i < 3 ==> '&' !in ps[i]
    ensures Join(ps, "&") == BaseKey(stationsParam, startYear, endYear)
  {
    var ps := [FormPair("stations", stationsParam), FormPair("start_year", IntToString(startYear)),
               FormPair("end_year", IntToString(endYear))];
    NoAmpersandInPair("stations", stationsParam);
    NoAmpersandInPair("start_year", IntToString(startYear));
    NoAmpersandInPair("end_year", IntToString(endYear));
    JoinThree(ps[0], ps[1], ps[2], "&");
    ps
  }

  /** Equal base keys mean equal stations parameters and equal years, and the converse. */
  lemma BaseKeyInjective(sa: string, a0: int, a1: int, sb: string, b0: int, b1: int)
    ensures BaseKey(sa, a0, a1) == BaseKey(sb, b0, b1) <==> sa == sb && a0 == b0 && a1 == b1
  {
    if BaseKey(sa, a0, a1) == BaseKey(sb, b0, b1) {
      var pa := BasePairs(sa, a0, a1);
      var pb := BasePairs(sb, b0, b1);
      JoinInjective(pa, pb, '&');
      FormPairInjective("stations", sa, sb);
      FormPairInjective("start_year", IntToString(a0), IntToString(b0));
      FormPairInjective("end_year", IntToString(a1), IntToString(b1));
      IntToStringInjective(a0, b0);
      IntToStringInjective(a1, b1);
    }
  }

  /** The three parts of a key, which it joins with "|". */
  function KeySegments(k: KeyParts): (ks: seq<string>)
    ensures |ks| == 3 && forall i :: 0 <= i < 3 ==> '|' !in ks[i]
    ensures Join(ks, "|") == KeyText(k)
  {
    var ks := [BaseKey(k.stationsParam, k.startYear, k.endYear), ModeName(k.mode), StdFlag(k.includeStd)];
    BaseKeyIsFormText(k.stationsParam, k.startYear, k.endYear);
    JoinThree(ks[0], ks[1], ks[2], "|");
    ks
  }

  /**
   * Two keys are equal exactly when they name the same stations parameter,
   * the same years, the same mode and the same band setting.
   */
  lemma KeyTextInjective(a: KeyParts, b: KeyParts)
    ensures KeyText(a) == KeyText(b) <==> a == b
  {
    if KeyText(a) == KeyText(b) {
      var ka := KeySegments(a);
      var kb := KeySegments(b);
      JoinInjective(ka, kb, '|');
      BaseKeyInjective(a.stationsParam, a.startYear, a.endYear, b.stationsParam, b.startYear, b.endYear);
    }
  }

  /** For selections of names without commas, the key tells the selection itself, order included. */
  lemma KeyNamesSelection(sa: seq<string>, sb: seq<string>, a: KeyParts, b: KeyParts)
    requires sa != [] && sb != []
    requires forall i :: 0 <= i < |sa| ==> ',' !in sa[i]
    requires forall i :: 0 <= i < |sb| ==> ',' !in sb[i]
    requires a.stationsParam == StationsParam(sa) && b.stationsParam == StationsParam(sb)
    ensures KeyText(a) == KeyText(b) <==>
      sa == sb && a.startYear == b.startYear && a.endYear == b.endYear && a.mode == b.mode && a.includeStd == b.includeStd
  {
    KeyTextInjective(a, b);
    JoinInjective(sa, sb, ',');
  }

  // ---------------------------------------------------------------------
  // Station colours

  /** `stationColorMap`: station i gets palette colour i mod the palette's size; a later repeat wins. */
  function StationColorMap(stations: seq<string>, palette: seq<string>): (m: map<string, string>)
    requires |palette| > 0
    ensures m.Keys == set s | s in stations
    decreases |stations|
  {
    if stations == [] then map[]
    else
      var k := |stations| - 1;
      StationColorMap(stations[..k], palette)[stations[k] := palette[k % |palette|]]
  }

  /** Stations listed once each get the palette colours in turn. */
  lemma {:induction false} StationColorMapDistinct(stations: seq<string>, palette: seq<string>)
    requires |palette| > 0 && Distinct(stations)
    ensures forall i :: 0 <= i < |stations| ==> StationColorMap(stations, palette)[stations[i]] == palette[i % |palette|]
    decreases |stations|
  {
    if stations != [] {
      var k := |stations| - 1;
      var init := stations[..k];
      assert Distinct(init) by {
        assert forall i, j :: 0 <= i < j < |init| ==> init[i] == stations[i] && init[j] == stations[j];
      }
      StationColorMapDistinct(init, palette);
      forall i | 0 <= i < k
        ensures StationColorMap(stations, palette)[stations[i]] == palette[i % |palette|]
      {
        assert stations[i] == init[i] && stations[i] != stations[k];
      }
    }
  }

  // ---------------------------------------------------------------------
  // The page state

  /** The data series a load brings, of the mode it was asked for. */
  datatype SeriesData = MonthlyData(monthlyData: MonthlyResponse) | AnnualData(annualData: AnnualResponse)

  /** How the two requests of a load end: both answered, or the first failure. */
  datatype LoadOutcome = Loaded(summary: AnalyticsSummary, data: SeriesData) | Failed(reason: Thrown)

  /**
   * A snapshot of the page's state, one component per `useState`,
   * `lastLoadedKey` among them. The page only ever sets `error` to null or to the
   * message of a failure, so the snapshot keeps the failure itself and
   * `ErrorText` gives the text the banner shows.
   */
  datatype Page = Page(
    yearBounds: YearBounds,
    stations: seq<string>,
    selected: seq<string>,
    mode: Mode,
    includeStd: bool,
    zoom: Zoom,
    summary: Option<AnalyticsSummary>,
    monthly: Option<MonthlyResponse>,
    annual: Option<AnnualResponse>,
    error: Option<Thrown>,
    loading: bool,
    lastLoadedKey: Option<KeyParts>)

  /**
   * The key of what the chart of a page should show. The page records the
   * key of its last load as its parts rather than as its text: by
   * `KeyTextInjective` two texts are equal exactly when their parts are,
   * so every comparison of keys comes out the same (`NeedsLoadByText`).
   */
  function PageKey(p: Page): KeyParts
  {
    KeyPartsOf(p.yearBounds, p.zoom, p.selected, p.mode, p.includeStd)
  }

  /** The error banner: the message of the failure the page keeps, never empty, so the banner shows whenever there is one. */
  function ErrorText(p: Page): (t: Option<string>)
    ensures t.Some? <==> p.error.Some?
    ensures t.Some? ==> t.value != ""
  {
    if p.error.Some? then Some(UserFriendlyError(p.error.value)) else None
  }

  /** The automatic reload starts a load: stations are selected, none is running, and the loaded key is not the current one. */
  predicate NeedsLoad(p: Page)
  {
    p.selected != [] && !p.loading && p.lastLoadedKey != Some(PageKey(p))
  }

  /** `targetKey !== lastLoadedKey`, compared as texts, is the comparison of the parts. */
  lemma NeedsLoadByText(p: Page)
    ensures NeedsLoad(p) <==>
      p.selected != [] && !p.loading && (p.lastLoadedKey.None? || KeyText(p.lastLoadedKey.value) != KeyText(PageKey(p)))
  {
    if p.lastLoadedKey.Some? {
      KeyTextInjective(p.lastLoadedKey.value, PageKey(p));
    }
  }

  /** The page after the automatic reload looked at it: with no station selected, the data and the loaded key are cleared. */
  function AutoLoadStep(p: Page): Page
  {
    if p.selected == [] then p.(summary := None, monthly := None, annual := None, lastLoadedKey := None) else p
  }

  /** The page after `loadCurrent`. */
  function LoadCurrentStep(p: Page, outcome: LoadOutcome): Page
    requires outcome.Loaded? ==> (outcome.data.MonthlyData? <==> p.mode == Monthly)
  {
    if p.selected == [] then p
    else
      match outcome
      case Loaded(s, data) =>
        p.(summary := Some(s),
           monthly := if p.mode == Monthly then Some(data.monthlyData) else None,
           annual := if p.mode == Monthly then None else Some(data.annualData),
           lastLoadedKey := Some(PageKey(p)),
           error := None,
           loading := false)
      case Failed(reason) =>
        p.(error := Some(reason), loading := false)
  }

  /** The page after `switchMode(nextMode)`. */
  function SwitchModeStep(p: Page, nextMode: Mode, outcome: LoadOutcome): Page
    requires outcome.Loaded? ==> (outcome.data.MonthlyData? <==> nextMode == Monthly)
  {
    if nextMode == p.mode then p
    else if p.selected == [] then p.(mode := nextMode)
    else
      match outcome
      case Loaded(s, data) =>
        p.(summary := Some(s),
           monthly := if nextMode == Monthly then Some(data.monthlyData) else p.monthly,
           annual := if nextMode == Monthly then p.annual else Some(data.annualData),
           lastLoadedKey := Some(KeyPartsOf(p.yearBounds, p.zoom, p.selected, nextMode, p.includeStd)),
           mode := nextMode,
           error := None,
           loading := false)
      case Failed(reason) =>
        p.(error := Some(reason), loading := false)
  }

  /** The page after `toggleStd(next)`. */
  function ToggleStdStep(p: Page, next: bool, outcome: LoadOutcome): Page
    requires outcome.Loaded? ==> outcome.data.AnnualData?
  {
    if next == p.includeStd then p
    else if p.mode != Annual || p.selected == [] then p.(includeStd := next)
    else
      match outcome
      case Loaded(s, data) =>
        p.(summary := Some(s),
           annual := Some(data.annualData),
           includeStd := next,
           lastLoadedKey := Some(KeyPartsOf(p.yearBounds, p.zoom, p.selected, Annual, next)),
           error := None,
           loading := false)
      case Failed(reason) =>
        p.(error := Some(reason), loading := false)
  }

  /** The view of a page: what it shows and what it would fetch. */
  predicate SameView(p: Page, q: Page)
  {
    q.yearBounds == p.yearBounds && q.stations == p.stations && q.selected == p.selected && q.zoom == p.zoom
  }

  /** The data a page holds. */
  predicate SameData(p: Page, q: Page)
  {
    q.summary == p.summary && q.monthly == p.monthly && q.annual == p.annual && q.lastLoadedKey == p.lastLoadedKey
  }

  /** The automatic reload clears the data of a page without stations, and never starts a load there. */
  lemma AutoLoadClears(p: Page)
    ensures var q := AutoLoadStep(p);
      && SameView(p, q) && q.mode == p.mode && q.includeStd == p.includeStd
      && q.error == p.error && q.loading == p.loading
      && (p.selected == [] ==> q.summary.None? && q.monthly.None? && q.annual.None? && q.lastLoadedKey.None? && !NeedsLoad(p))
      && (p.selected != [] ==> q == p)
  {
  }

  /**
   * A successful `loadCurrent` brings the summary and the current mode's
   * series together, drops the other series, and records the key, so the
   * automatic reload does not start it again.
   */
  lemma LoadCurrentLoaded(p: Page, s: AnalyticsSummary, data: SeriesData)
    requires p.selected != [] && (data.MonthlyData? <==> p.mode == Monthly)
    ensures var q := LoadCurrentStep(p, Loaded(s, data));
      && SameView(p, q) && q.mode == p.mode && q.includeStd == p.includeStd
      && q.summary == Some(s)
      && (p.mode == Monthly ==> q.monthly == Some(data.monthlyData) && q.annual.None?)
      && (p.mode == Annual ==> q.annual == Some(data.annualData) && q.monthly.None?)
      && q.lastLoadedKey == Some(PageKey(q))
      && q.error.None? && !q.loading && !NeedsLoad(q)
  {
  }

  /**
   * A failed `loadCurrent` keeps the data and the loaded key, and shows
   * the failure's message. The key stays unrecorded, so when the
   * automatic reload started the load it starts it again.
   */
  lemma LoadCurrentFailed(p: Page, reason: Thrown)
    requires p.selected != []
    ensures var q := LoadCurrentStep(p, Failed(reason));
      && SameView(p, q) && q.mode == p.mode && q.includeStd == p.includeStd && SameData(p, q)
      && q.error == Some(reason) && ErrorText(q) == Some(UserFriendlyError(reason)) && !q.loading
      && (NeedsLoad(p) ==> NeedsLoad(q))
  {
  }

  /** With no station selected, `loadCurrent` changes nothing. */
  lemma LoadCurrentNoStations(p: Page, outcome: LoadOutcome)
    requires p.selected == []
    requires outcome.Loaded? ==> (outcome.data.MonthlyData? <==> p.mode == Monthly)
    ensures LoadCurrentStep(p, outcome) == p
  {
  }

  /**
   * `switchMode`: the current mode changes nothing; without stations the
   * mode just changes; otherwise the mode changes only with a successful
   * load, together with the summary, the new mode's series and the key,
   * which is then the page's own; a failure keeps the mode and the data.
   */
  lemma SwitchModeRules(p: Page, nextMode: Mode, outcome: LoadOutcome)
    requires outcome.Loaded? ==> (outcome.data.MonthlyData? <==> nextMode == Monthly)
    ensures var q := SwitchModeStep(p, nextMode, outcome);
      && SameView(p, q) && q.includeStd == p.includeStd
      && (nextMode == p.mode ==> q == p)
      && (nextMode != p.mode && p.selected == [] ==> q == p.(mode := nextMode))
      && (nextMode != p.mode && p.selected != [] && outcome.Loaded? ==>
            && q.mode == nextMode && q.summary == Some(outcome.summary)
            && (nextMode == Monthly ==> q.monthly == Some(outcome.data.monthlyData) && q.annual == p.annual)
            && (nextMode == Annual ==> q.annual == Some(outcome.data.annualData) && q.monthly == p.monthly)
            && q.lastLoadedKey == Some(PageKey(q)) && q.error.None? && !q.loading && !NeedsLoad(q))
      && (nextMode != p.mode && p.selected != [] && outcome.Failed? ==>
            && q.mode == p.mode && SameData(p, q)
            && q.error == Some(outcome.reason) && ErrorText(q) == Some(UserFriendlyError(outcome.reason)) && !q.loading)
  {
  }

  /**
   * `toggleStd`: the current setting changes nothing; outside annual mode
   * or without stations the setting just changes; otherwise it changes
   * only with a successful load, together with the summary, the annual
   * series and the key, which is then the page's own; a failure keeps the
   * setting and the data.
   */
  lemma ToggleStdRules(p: Page, next: bool, outcome: LoadOutcome)
    requires outcome.Loaded? ==> outcome.data.AnnualData?
    ensures var q := ToggleStdStep(p, next, outcome);
      && SameView(p, q) && q.mode == p.mode && q.monthly == p.monthly
      && (next == p.includeStd ==> q == p)
      && (next != p.includeStd && (p.mode != Annual || p.selected == []) ==> q == p.(includeStd := next))
      && (next != p.includeStd && p.mode == Annual && p.selected != [] && outcome.Loaded? ==>
            && q.includeStd == next && q.summary == Some(outcome.summary)
            && q.annual == Some(outcome.data.annualData)
            && q.lastLoadedKey == Some(PageKey(q)) && q.error.None? && !q.loading && !NeedsLoad(q))
      && (next != p.includeStd && p.mode == Annual && p.selected != [] && outcome.Failed? ==>
            && q.includeStd == p.includeStd && SameData(p, q)
            && q.error == Some(outcome.reason) && ErrorText(q) == Some(UserFriendlyError(outcome.reason)) && !q.loading)
  {
  }

  class AppState {
    var yearBounds: YearBounds
    var stations: seq<string>
    var selected: seq<string>
    var mode: Mode
    var includeStd: bool
    var zoom: Zoom
    var summary: Option<AnalyticsSummary>
    var monthly: Option<MonthlyResponse>
    var annual: Option<AnnualResponse>
    var error: Option<Thrown>
    var loading: bool
    var lastLoadedKey: Option<KeyParts>

    /** The state the page starts in. */
    constructor ()
      ensures State() == Page(InitialBounds, [], [], Monthly, false, Zoom(1939, 161), None, None, None, None, false, None)
    {
      yearBounds := InitialBounds;
      stations := [];
      selected := [];
      mode := Monthly;
      includeStd := false;
      zoom := FullZoom(InitialBounds);
      summary := None;
      monthly := None;
      annual := None;
      error := None;
      loading := false;
      lastLoadedKey := None;
      InitialZoom();
    }

    /** The fields, as one value. */
    function State(): Page
      reads this
    {
      Page(yearBounds, stations, selected, mode, includeStd, zoom, summary, monthly, annual, error, loading, lastLoadedKey)
    }

    /** The window fits the dataset, so the card shows the range the page fetches. */
    predicate WindowFits()
      reads this
    {
      1 <= zoom.windowYears <= Span(yearBounds)
    }

    /** The effect that keeps the chart in step; it reports whether a load is to start. */
    method AutoLoad() returns (start: bool)
      modifies this
      ensures start == NeedsLoad(old(State()))
      ensures State() == AutoLoadStep(old(State()))
    {
      if selected == [] {
        summary := None;
        monthly := None;
        annual := None;
        lastLoadedKey := None;
        return false;
      }
      if loading {
        return false;
      }
      if lastLoadedKey == Some(KeyPartsOf(yearBounds, zoom, selected, mode, includeStd)) {
        return false;
      }
      return true;
    }

    /** The `catch` and `finally` of a load: the failure's message is shown and loading ends. */
    method Fail(reason: Thrown)
      modifies this
      ensures State() == old(State()).(error := Some(reason), loading := false)
    {
      error := Some(reason);
      loading := false;
    }

    /** `loadCurrent`, given how its two requests end. */
    method LoadCurrent(outcome: LoadOutcome)
      modifies this
      requires outcome.Loaded? ==> (outcome.data.MonthlyData? <==> mode == Monthly)
      ensures State() == LoadCurrentStep(old(State()), outcome)
    {
      if selected == [] {
        return;
      }
      error := None;
      loading := true;
      match outcome {
        case Loaded(s, data) =>
          summary := Some(s);
          if mode == Monthly {
            monthly := Some(data.monthlyData);
            annual := None;
          } else {
            annual := Some(data.annualData);
            monthly := None;
          }
          lastLoadedKey := Some(KeyPartsOf(yearBounds, zoom, selected, mode, includeStd));
          loading := false;
        case Failed(reason) =>
          Fail(reason);
      }
    }

    /** `switchMode(nextMode)`, given how its two requests end. */
    method SwitchMode(nextMode: Mode, outcome: LoadOutcome)
      modifies this
      requires outcome.Loaded? ==> (outcome.data.MonthlyData? <==> nextMode == Monthly)
      ensures State() == SwitchModeStep(old(State()), nextMode, outcome)
    {
      if nextMode == mode {
        return;
      }
      if selected == [] {
        mode := nextMode;
        return;
      }
      LoadMode(nextMode, outcome);
    }

    /** The requests `switchMode` makes once the mode changes and stations are selected. */
    method LoadMode(nextMode: Mode, outcome: LoadOutcome)
      modifies this
      requires nextMode != mode && selected != []
      requires outcome.Loaded? ==> (outcome.data.MonthlyData? <==> nextMode == Monthly)
      ensures State() == SwitchModeStep(old(State()), nextMode, outcome)
    {
      error := None;
      loading := true;
      match outcome {
        case Loaded(s, data) =>
          summary := Some(s);
          if nextMode == Monthly {
            monthly := Some(data.monthlyData);
          } else {
            annual := Some(data.annualData);
          }
          lastLoadedKey := Some(KeyPartsOf(yearBounds, zoom, selected, nextMode, includeStd));
          mode := nextMode;
          loading := false;
        case Failed(reason) =>
          Fail(reason);
      }
    }

    /** `toggleStd(next)`, given how its two requests end. */
    method ToggleStd(next: bool, outcome: LoadOutcome)
      modifies this
      requires outcome.Loaded? ==> outcome.data.AnnualData?
      ensures State() == ToggleStdStep(old(State()), next, outcome)
    {
      if next == includeStd {
        return;
      }
      if mode != Annual {
        includeStd := next;
        return;
      }
      if selected == [] {
        includeStd := next;
        return;
      }
      LoadBand(next, outcome);
    }

    /** The requests `toggleStd` makes once the setting changes in annual mode with stations selected. */
    method LoadBand(next: bool, outcome: LoadOutcome)
      modifies this
      requires next != includeStd && mode == Annual && selected != []
      requires outcome.Loaded? ==> outcome.data.AnnualData?
      ensures State() == ToggleStdStep(old(State()), next, outcome)
    {
      error := None;
      loading := true;
      match outcome {
        case Loaded(s, data) =>
          summary := Some(s);
          annual := Some(data.annualData);
          includeStd := next;
          lastLoadedKey := Some(KeyPartsOf(yearBounds, zoom, selected, Annual, next));
          loading := false;
        case Failed(reason) =>
          Fail(reason);
      }
    }

    /**
     * The first load's bounds step: a range with both years numbers
     * becomes the bounds, and the zoom is set to the whole of it; a range
     * without them changes nothing; a failure shows its message.
     */
    method LoadBounds(outcome: Result<DataRangeResponse, Thrown>)
      modifies this
      ensures outcome.Ok? && outcome.value.minYear.Some? && outcome.value.maxYear.Some? ==>
        var b := YearBounds(outcome.value.minYear.value, outcome.value.maxYear.value);
        State() == old(State()).(yearBounds := b, zoom := FullZoom(b))
      ensures outcome.Ok? && (outcome.value.minYear.None? || outcome.value.maxYear.None?) ==> State() == old(State())
      ensures outcome.Err? ==> State() == old(State()).(error := Some(outcome.error))
    {
      match outcome {
        case Ok(range) =>
          if range.minYear.Some? && range.maxYear.Some? {
            yearBounds := YearBounds(range.minYear.value, range.maxYear.value);
            zoom := FullZoom(yearBounds);
          }
        case Err(reason) =>
          error := Some(reason);
      }
    }

    /** The first load's stations step, which runs after the bounds step however that ended. */
    method LoadStations(outcome: Result<StationsResponse, Thrown>)
      modifies this
      ensures outcome.Ok? ==> State() == old(State()).(stations := outcome.value.stations)
      ensures outcome.Err? ==> State() == old(State()).(error := Some(outcome.error))
    {
      match outcome {
        case Ok(data) =>
          stations := data.stations;
        case Err(reason) =>
          error := Some(reason);
      }
    }

    /** `setWindowYearsClamped`: the window is clamped to the span; the centre stays. */
    method SetWindowYears(v: int)
      modifies this
      ensures State() == old(State()).(zoom := Zoom(old(zoom.centerYear), ClampWindow(yearBounds, v)))
      ensures WindowFits()
    {
      zoom := zoom.(windowYears := ClampWindow(yearBounds, v));
    }

    /** The zoom card's committed centre year; the window stays. */
    method SetCenterYear(v: int)
      modifies this
      ensures State() == old(State()).(zoom := Zoom(v, old(zoom.windowYears)))
      ensures old(WindowFits()) ==> WindowFits()
    {
      zoom := zoom.(centerYear := v);
    }

    /** The Reset button: the whole dataset. */
    method Reset()
      modifies this
      ensures State() == old(State()).(zoom := FullZoom(yearBounds))
      ensures yearBounds.minYear <= yearBounds.maxYear ==>
        WindowFits() && ZoomRange(yearBounds, zoom) == (yearBounds.minYear, yearBounds.maxYear)
    {
      zoom := FullZoom(yearBounds);
    }

    /** `onZoomYearsChange`: a reset of the chart shows the whole dataset; a zoom becomes the window and centre of its years. */
    method OnZoomYearsChange(e: ZoomEvent)
      modifies this
      ensures !e.enabled ==> State() == old(State()).(zoom := FullZoom(yearBounds))
      ensures e.enabled ==> State() == old(State()).(zoom := ZoomFromEvent(yearBounds, e.startYear, e.endYear))
      ensures e.enabled ==> WindowFits()
      ensures e.enabled && e.startYear <= e.endYear && e.endYear - e.startYear + 1 <= Span(yearBounds) ==>
        ZoomRange(yearBounds, zoom) == (e.startYear, e.endYear)
    {
      if !e.enabled {
        zoom := FullZoom(yearBounds);
        return;
      }
      zoom := ZoomFromEvent(yearBounds, e.startYear, e.endYear);
      if e.startYear <= e.endYear && e.endYear - e.startYear + 1 <= Span(yearBounds) {
        ZoomRangeOfEvent(yearBounds, e.startYear, e.endYear);
      }
    }

    /** A click on a station in the list. */
    method ToggleStation(s: string)
      modifies this
      ensures State() == old(State()).(selected := Toggle(old(selected), s))
    {
      selected := Toggle(selected, s);
    }

    /** "Select all": the selection becomes the dataset's stations, in their order. */
    method SelectAll()
      modifies this
      ensures State() == old(State()).(selected := stations)
    {
      selected := stations;
    }

    /** "Clear": nothing selected. */
    method ClearSelection()
      modifies this
      ensures State() == old(State()).(selected := [])
    {
      selected := [];
    }
  }
}
