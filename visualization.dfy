/**
 * The chart (frontend/src/components/Visualization.tsx): the traces it
 * draws from the loaded series, the x range it is given, and how it reads
 * the zoom the user makes on it back into years.
 *
 * Plotly itself is not part of this model: a relayout event is the plain
 * JavaScript object Plotly hands to the handler, and a trace is the data
 * the component passes to Plotly.
 */
module Visualization {
  import opened Wrappers
  import opened Text
  import opened Js
  import opened Types

  // ---------------------------------------------------------------------
  // Labels and colours

  /** `pad2`: a leading "0" below ten, the decimal text otherwise. */
  function Pad2(n: int): (r: string)
  {
    if n < 10 then "0" + IntToString(n) else IntToString(n)
  }

  /** Months and other numbers in 0..99 come out as exactly two digits that read back as the number. */
  lemma Pad2TwoDigits(n: int)
    requires 0 <= n < 100
    ensures |Pad2(n)| == 2 && AllDigits(Pad2(n)) && DigitsValue(Pad2(n)) == n
  {
    var r := Pad2(n);
    if n < 10 {
      assert r == ['0', DigitChar(n)];
      assert r[..1] == "0" && "0"[..0] == [];
      assert DigitsValue(r[..1]) == 0;
    } else {
      DigitsValueOfNatToString(n);
    }
  }

  /** The x value of a monthly point: `${year}-${pad2(month)}-01`. */
  function MonthLabel(year: int, month: int): string
  {
    IntToString(year) + ("-" + Pad2(month) + "-01")
  }

  predicate IsHexDigit(c: char) { '0' <= c <= '9' || 'a' <= c <= 'f' || 'A' <= c <= 'F' }

  function HexDigitValue(c: char): (v: int)
    requires IsHexDigit(c)
    ensures 0 <= v < 16
  {
    if c <= '9' then c as int - '0' as int
    else if c <= 'F' then c as int - 'A' as int + 10
    else c as int - 'a' as int + 10
  }

  datatype Rgb = Rgb(red: int, green: int, blue: int)

  predicate IsByte(v: int) { 0 <= v < 256 }

  predicate IsRgb(c: Rgb) { IsByte(c.red) && IsByte(c.green) && IsByte(c.blue) }

  const White := Rgb(255, 255, 255)

  /** `parseInt(pair, 16)` on two hex digits. */
  function PairValue(hi: char, lo: char): (v: int)
    requires IsHexDigit(hi) && IsHexDigit(lo)
    ensures IsByte(v)
  {
    HexDigitValue(hi) * 16 + HexDigitValue(lo)
  }

  /** Six hex digits, in either case. */
  predicate IsHexColorBody(h: string)
  {
    |h| == 6 && forall i :: 0 <= i < 6 ==> IsHexDigit(h[i])
  }

  /**
   * The match of `/^#?([a-f\d]{2})([a-f\d]{2})([a-f\d]{2})$/i` and the
   * three components it yields; None when the text does not match.
   */
  function ParseHexColor(hex: string): (r: Option<Rgb>)
    ensures r.Some? <==> IsHexColorBody(hex) || (|hex| == 7 && hex[0] == '#' && IsHexColorBody(hex[1..]))
    ensures r.Some? ==> IsRgb(r.value)
  {
    var h := if |hex| == 7 && hex[0] == '#' then hex[1..] else hex;
    if IsHexColorBody(h) then
      Some(Rgb(PairValue(h[0], h[1]), PairValue(h[2], h[3]), PairValue(h[4], h[5])))
    else None
  }

  /** The colour `hexToRgba` uses: the parsed one, or white for anything else. */
  function ColorOf(hex: string): (c: Rgb)
    ensures IsRgb(c)
    ensures ParseHexColor(hex).None? ==> c == White
  {
    match ParseHexColor(hex)
    case Some(c) => c
    case None => White
  }

  /**
   * `hexToRgba(hex, alpha)`, with the alpha already written out as text
   * (how JavaScript prints a fraction is not part of this model).
   */
  function HexToRgba(hex: string, alphaText: string): string
  {
    var c := ColorOf(hex);
    "rgba(" + IntToString(c.red) + "," + IntToString(c.green) + "," + IntToString(c.blue) + "," + alphaText + ")"
  }

  function LowerHexChar(d: int): (c: char)
    requires 0 <= d < 16
    ensures IsHexDigit(c) && HexDigitValue(c) == d
  {
    if d < 10 then ('0' as int + d) as char else ('a' as int + d - 10) as char
  }

  /** `#rrggbb`, the form of the palette colours. */
  function RgbToHex(c: Rgb): (hex: string)
    requires IsRgb(c)
    ensures |hex| == 7
  {
    ['#', LowerHexChar(c.red / 16), LowerHexChar(c.red % 16),
     LowerHexChar(c.green / 16), LowerHexChar(c.green % 16),
     LowerHexChar(c.blue / 16), LowerHexChar(c.blue % 16)]
  }

  /** A colour written as `#rrggbb` is read back as itself. */
  lemma ParseRgbToHex(c: Rgb)
    requires IsRgb(c)
    ensures ParseHexColor(RgbToHex(c)) == Some(c)
    ensures ColorOf(RgbToHex(c)) == c
  {
    var hex := RgbToHex(c);
    assert IsHexColorBody(hex[1..]);
  }

  /** The match ignores case: lower-casing the text changes nothing. */
  lemma ParseHexColorIgnoresCase(hex: string)
    ensures ParseHexColor(Lower(hex)) == ParseHexColor(hex)
  {
    var l := Lower(hex);
    assert forall i :: 0 <= i < |hex| ==> l[i] == LowerChar(hex[i]);
    assert forall i :: 0 <= i < |hex| ==> (IsHexDigit(l[i]) <==> IsHexDigit(hex[i]));
    assert forall i :: 0 <= i < |hex| && IsHexDigit(hex[i]) ==> HexDigitValue(l[i]) == HexDigitValue(hex[i]);
    assert forall i :: 0 <= i < |hex| ==> (l[i] == '#' <==> hex[i] == '#');
    if |hex| == 7 && hex[0] == '#' {
      assert forall i :: 0 <= i < 6 ==> l[1..][i] == l[i + 1] && hex[1..][i] == hex[i + 1];
    }
  }

  // ---------------------------------------------------------------------
  // Traces

  /** `colorForStation`: the station's colour, or the palette's first colour when it has none. */
  function ColorFor(colorMap: map<string, string>, fallback: string, station: string): string
  {
    if station in colorMap then colorMap[station] else fallback
  }

  datatype XValue = XDate(date: string) | XYear(year: int)

  /** A line of one station's values, the lower edge of its band (invisible), or the upper edge filled down to the lower. */
  datatype TraceStyle = SeriesLine(color: string) | LowerEdge | UpperEdge(fillColor: string)

  /** A scatter trace: its name, legend group, style, and the x and y values (null as None). */
  datatype Trace = Trace(name: string, legendGroup: string, style: TraceStyle, x: seq<XValue>, y: seq<Option<real>>)

  /** The fill alpha of the deviation band, as JavaScript prints 0.18. */
  const BandAlpha := "0.18"

  function MonthlyTrace(series: MonthlySeries, color: string): Trace
  {
    var pts := series.points;
    Trace(series.station, series.station, SeriesLine(color),
      seq(|pts|, i requires 0 <= i < |pts| => XDate(MonthLabel(pts[i].year, pts[i].month))),
      seq(|pts|, i requires 0 <= i < |pts| => Some(pts[i].value)))
  }

  /** Monthly mode: one line per station. */
  function MonthlyTraces(data: seq<MonthlySeries>, colorMap: map<string, string>, fallback: string): (out: seq<Trace>)
    ensures |out| == |data|
    ensures forall i :: 0 <= i < |out| ==>
      out[i].name == data[i].station && out[i].legendGroup == data[i].station
      && |out[i].x| == |out[i].y| == |data[i].points|
    ensures forall i, j :: 0 <= i < |out| && 0 <= j < |data[i].points| ==>
      var p := data[i].points[j];
      out[i].x[j] == XDate(MonthLabel(p.year, p.month)) && out[i].y[j] == Some(p.value)
  {
    seq(|data|, i requires 0 <= i < |data| => MonthlyTrace(data[i], ColorFor(colorMap, fallback, data[i].station)))
  }

  /** One station's traces in annual mode: its mean line, then, with the band, the lower and upper edges. */
  function AnnualSeriesTraces(series: AnnualSeries, includeStd: bool, color: string): seq<Trace>
  {
    var pts := series.points;
    var x := seq(|pts|, i requires 0 <= i < |pts| => XYear(pts[i].year));
    var mean := Trace(series.station, series.station, SeriesLine(color), x,
      seq(|pts|, i requires 0 <= i < |pts| => Some(pts[i].mean)));
    if !includeStd then [mean]
    else
      var lower := seq(|pts|, i requires 0 <= i < |pts| => pts[i].lower);
      var upper := seq(|pts|, i requires 0 <= i < |pts| => pts[i].upper);
      [mean,
       Trace(series.station + " -1\U{03C3}", series.station, LowerEdge, x, lower),
       Trace(series.station + " +1\U{03C3}", series.station, UpperEdge(HexToRgba(color, BandAlpha)), x, upper)]
  }

  /** The traces the annual loop pushes for the first stations of `data`. */
  function AnnualTracesOf(data: seq<AnnualSeries>, includeStd: bool, colorMap: map<string, string>, fallback: string): seq<Trace>
    decreases |data|
  {
    if data == [] then []
    else
      var last := data[|data| - 1];
      AnnualTracesOf(data[..|data| - 1], includeStd, colorMap, fallback)
        + AnnualSeriesTraces(last, includeStd, ColorFor(colorMap, fallback, last.station))
  }

  function TracesPerStation(includeStd: bool): nat { if includeStd then 3 else 1 }

  /** Each station of the annual loop gets its mean line, and with the band its two edges, all in its legend group. */
  lemma AnnualSeriesTracesShape(series: AnnualSeries, includeStd: bool, color: string)
    ensures var ts := AnnualSeriesTraces(series, includeStd, color);
      && |ts| == TracesPerStation(includeStd)
      && ts[0].name == series.station && ts[0].style == SeriesLine(color)
      && (forall t :: t in ts ==> t.legendGroup == series.station)
      && (forall t :: t in ts ==> |t.x| == |t.y| == |series.points|)
      && (forall t, j :: t in ts && 0 <= j < |series.points| ==> t.x[j] == XYear(series.points[j].year))
      && (forall j :: 0 <= j < |series.points| ==> ts[0].y[j] == Some(series.points[j].mean))
      && (includeStd ==>
          && ts[1].name == series.station + " -1\U{03C3}" && ts[1].style == LowerEdge
          && ts[2].name == series.station + " +1\U{03C3}" && ts[2].style == UpperEdge(HexToRgba(color, BandAlpha))
          && (forall j :: 0 <= j < |series.points| ==> ts[1].y[j] == series.points[j].lower && ts[2].y[j] == series.points[j].upper))
  {
  }

  lemma AnnualTracesOfSnoc(data: seq<AnnualSeries>, k: int, includeStd: bool, colorMap: map<string, string>, fallback: string)
    requires 0 <= k < |data|
    ensures AnnualTracesOf(data[..k + 1], includeStd, colorMap, fallback)
      == AnnualTracesOf(data[..k], includeStd, colorMap, fallback)
         + AnnualSeriesTraces(data[k], includeStd, ColorFor(colorMap, fallback, data[k].station))
  {
    assert data[..k + 1][..k] == data[..k];
  }

  lemma AnnualSeriesTracesCount(series: AnnualSeries, includeStd: bool, color: string)
    ensures |AnnualSeriesTraces(series, includeStd, color)| == TracesPerStation(includeStd)
  {
  }

  /** The annual loop pushes one or three traces per station. */
  lemma {:induction false} AnnualTracesLength(data: seq<AnnualSeries>, includeStd: bool, colorMap: map<string, string>, fallback: string)
    ensures |AnnualTracesOf(data, includeStd, colorMap, fallback)| == TracesPerStation(includeStd) * |data|
    decreases |data|
  {
    if data != [] {
      var last := data[|data| - 1];
      AnnualTracesLength(data[..|data| - 1], includeStd, colorMap, fallback);
      AnnualSeriesTracesCount(last, includeStd, ColorFor(colorMap, fallback, last.station));
    }
  }

  /** With the band, the k-th three traces are the k-th station's. */
  lemma {:induction false} AnnualTracesBlock(data: seq<AnnualSeries>, k: int, colorMap: map<string, string>, fallback: string)
    requires 0 <= k < |data|
    ensures var out := AnnualTracesOf(data, true, colorMap, fallback);
      && 3 * k + 3 <= |out|
      && out[3 * k..3 * k + 3] == AnnualSeriesTraces(data[k], true, ColorFor(colorMap, fallback, data[k].station))
    decreases |data|
  {
    var n := |data| - 1;
    var init, last := data[..n], data[n];
    var prev := AnnualTracesOf(init, true, colorMap, fallback);
    var block := AnnualSeriesTraces(last, true, ColorFor(colorMap, fallback, last.station));
    var want := AnnualSeriesTraces(data[k], true, ColorFor(colorMap, fallback, data[k].station));
    AnnualTracesLength(init, true, colorMap, fallback);
    AnnualSeriesTracesCount(last, true, ColorFor(colorMap, fallback, last.station));
    var out := AnnualTracesOf(data, true, colorMap, fallback);
    assert out == prev + block;
    if k < n {
      AnnualTracesBlock(init, k, colorMap, fallback);
      assert init[k] == data[k];
    } else {
      assert last == data[k];
    }
    AppendBlock(prev, block, n, k, want);
    assert out[3 * k..3 * k + 3] == want;
  }

  /** Annual mode with the band: three traces per station, the k-th three being the k-th station's. */
  lemma AnnualTracesWithBand(data: seq<AnnualSeries>, colorMap: map<string, string>, fallback: string)
    ensures var out := AnnualTracesOf(data, true, colorMap, fallback);
      && |out| == 3 * |data|
      && forall k :: 0 <= k < |data| ==>
           out[3 * k..3 * k + 3] == AnnualSeriesTraces(data[k], true, ColorFor(colorMap, fallback, data[k].station))
  {
    AnnualTracesLength(data, true, colorMap, fallback);
    forall k | 0 <= k < |data|
      ensures AnnualTracesOf(data, true, colorMap, fallback)[3 * k..3 * k + 3]
        == AnnualSeriesTraces(data[k], true, ColorFor(colorMap, fallback, data[k].station))
    {
      AnnualTracesBlock(data, k, colorMap, fallback);
    }
  }

  /** Annual mode without the band: one trace per station, the k-th being the k-th station's mean line. */
  lemma {:induction false} AnnualTracesWithoutBand(data: seq<AnnualSeries>, colorMap: map<string, string>, fallback: string)
    ensures var out := AnnualTracesOf(data, false, colorMap, fallback);
      && |out| == |data|
      && forall k :: 0 <= k < |data| ==>
           [out[k]] == AnnualSeriesTraces(data[k], false, ColorFor(colorMap, fallback, data[k].station))
    decreases |data|
  {
    if data != [] {
      var init := data[..|data| - 1];
      AnnualTracesWithoutBand(init, colorMap, fallback);
      var last := data[|data| - 1];
      var block := AnnualSeriesTraces(last, false, ColorFor(colorMap, fallback, last.station));
      var prev := AnnualTracesOf(init, false, colorMap, fallback);
      var out := AnnualTracesOf(data, false, colorMap, fallback);
      assert out == prev + block;
      assert |block| == 1;
      forall k | 0 <= k < |data|
        ensures [out[k]] == AnnualSeriesTraces(data[k], false, ColorFor(colorMap, fallback, data[k].station))
      {
        if k < |init| {
          assert data[k] == init[k] && out[k] == prev[k];
        } else {
          assert k == |init| && data[k] == last && out[k] == block[0];
        }
      }
    }
  }

  /** The k-th block of three after a block of three is appended. */
  lemma AppendBlock<T>(a: seq<T>, b: seq<T>, n: int, k: int, want: seq<T>)
    requires |a| == 3 * n && |b| == 3 && 0 <= k <= n
    requires k < n ==> a[3 * k..3 * k + 3] == want
    requires k == n ==> b == want
    ensures (a + b)[3 * k..3 * k + 3] == want
  {
  }

  /** The `traces` memo: the monthly map, or the annual loop. */
  method BuildTraces(
    mode: Mode, monthly: Option<MonthlyResponse>, annual: Option<AnnualResponse>,
    includeStd: bool, colorMap: map<string, string>, fallback: string)
    returns (out: seq<Trace>)
    ensures mode == Monthly ==>
      out == MonthlyTraces(if monthly.Some? then monthly.value.stations else [], colorMap, fallback)
    ensures mode == Annual ==>
      out == AnnualTracesOf(if annual.Some? then annual.value.stations else [], includeStd, colorMap, fallback)
  {
    if mode == Monthly {
      var data := if monthly.Some? then monthly.value.stations else [];
      return MonthlyTraces(data, colorMap, fallback);
    }
    var data := if annual.Some? then annual.value.stations else [];
    out := [];
    for k := 0 to |data|
      invariant out == AnnualTracesOf(data[..k], includeStd, colorMap, fallback)
    {
      var series := data[k];
      var baseColor := ColorFor(colorMap, fallback, series.station);
      var pts := series.points;
      var x := seq(|pts|, i requires 0 <= i < |pts| => XYear(pts[i].year));
      var mean := seq(|pts|, i requires 0 <= i < |pts| => Some(pts[i].mean));
      var pushed := [Trace(series.station, series.station, SeriesLine(baseColor), x, mean)];
      if includeStd {
        var fill := HexToRgba(baseColor, BandAlpha);
        var lower := seq(|pts|, i requires 0 <= i < |pts| => pts[i].lower);
        var upper := seq(|pts|, i requires 0 <= i < |pts| => pts[i].upper);
        pushed := pushed + [Trace(series.station + " -1\U{03C3}", series.station, LowerEdge, x, lower)];
        pushed := pushed + [Trace(series.station + " +1\U{03C3}", series.station, UpperEdge(fill), x, upper)];
      }
      assert pushed == AnnualSeriesTraces(series, includeStd, baseColor);
      AnnualTracesOfSnoc(data, k, includeStd, colorMap, fallback);
      out := out + pushed;
    }
    assert data[..|data|] == data;
  }

  /** The x range the chart is given: dates in monthly mode, years in annual mode. */
  function XRange(mode: Mode, startYear: int, endYear: int): seq<JsValue>
  {
    if mode == Monthly then [JStr(IntToString(startYear) + "-01-01"), JStr(IntToString(endYear) + "-12-31")]
    else [JNum(startYear), JNum(endYear)]
  }

  // ---------------------------------------------------------------------
  // Reading a relayout event

  /** What the chart reports: a zoom to a range of years, or (not enabled) a reset to the full extent. */
  datatype ZoomEvent = ZoomEvent(enabled: bool, startYear: int, endYear: int)

  /**
   * `toYear`: a number is rounded (numbers here are integers already), a
   * string of four characters or more is read as an integer from its first
   * four, anything else gives None.
   */
  function ToYear(v: JsValue): (r: Option<int>)
    ensures v.JStr? && |v.s| < 4 ==> r == None
    ensures !v.JStr? && !v.JNum? ==> r == None
    ensures v.JNum? ==> r == Some(v.n)
  {
    match v
    case JNum(n) => Some(n)
    case JStr(s) => if |s| >= 4 then ParseIntPrefix(s[..4]) else None
    case _ => None
  }

  /** A date label of a four-digit year reads back as that year: "1950-01-01" gives 1950. */
  lemma ToYearOfDate(year: int, rest: string)
    requires 1000 <= year <= 9999
    ensures ToYear(JStr(IntToString(year) + rest)) == Some(year)
  {
    FourDigitYear(year);
    var s := IntToString(year) + rest;
    assert s[..4] == IntToString(year) + "";
    ParseIntPrefixOfIntToString(year, "");
  }

  /** The year of every monthly x label is the point's year. */
  lemma ToYearOfMonthLabel(year: int, month: int)
    requires 1000 <= year <= 9999
    ensures ToYear(JStr(MonthLabel(year, month))) == Some(year)
  {
    ToYearOfDate(year, "-" + Pad2(month) + "-01");
  }

  /** `e["xaxis.autorange"] ?? e["xaxis.autorange[0]"] ?? e["xaxis.autorange[1]"]`. */
  function Autorange(e: JsValue): JsValue
  {
    Coalesce(Coalesce(Get(e, "xaxis.autorange"), Get(e, "xaxis.autorange[0]")), Get(e, "xaxis.autorange[1]"))
  }

  /** `e["xaxis.range[i]"] ?? (Array.isArray(e["xaxis.range"]) ? e["xaxis.range"][i] : undefined)`. */
  function Endpoint(e: JsValue, i: nat): JsValue
    requires i < 2
  {
    var key := if i == 0 then "xaxis.range[0]" else "xaxis.range[1]";
    Coalesce(Get(e, key), if Get(e, "xaxis.range").JArr? then Index(Get(e, "xaxis.range"), i) else JUndefined)
  }

  /** `parseRelayoutYears`; None means the event changes nothing. */
  function ParseRelayoutYears(e: JsValue, zoomStartYear: int, zoomEndYear: int): (r: Option<ZoomEvent>)
    // not an object: nothing
    ensures !Truthy(e) || !IsObjectType(e) ==> r == None
    // autorange is looked at first, under any of its three keys
    ensures Truthy(e) && IsObjectType(e) && Autorange(e) == JBool(true) ==>
      r == Some(ZoomEvent(false, zoomStartYear, zoomEndYear))
    // a missing endpoint: nothing
    ensures Autorange(e) != JBool(true) && (IsNullish(Endpoint(e, 0)) || IsNullish(Endpoint(e, 1))) ==> r == None
    // an endpoint `toYear` cannot read: nothing
    ensures Autorange(e) != JBool(true) && (ToYear(Endpoint(e, 0)).None? || ToYear(Endpoint(e, 1)).None?) ==> r == None
    // only autorange resets
    ensures r.Some? && !r.value.enabled ==> Truthy(e) && IsObjectType(e) && Autorange(e) == JBool(true)
    // a zoom is reported in order
    ensures r.Some? && r.value.enabled ==> r.value.startYear <= r.value.endYear
    ensures r.Some? && !r.value.enabled ==> r.value.startYear == zoomStartYear && r.value.endYear == zoomEndYear
    ensures r.Some? && r.value.enabled ==>
      && ToYear(Endpoint(e, 0)).Some? && ToYear(Endpoint(e, 1)).Some?
      && {r.value.startYear, r.value.endYear} == {ToYear(Endpoint(e, 0)).value, ToYear(Endpoint(e, 1)).value}
  {
    if !Truthy(e) || !IsObjectType(e) then None
    else if Autorange(e) == JBool(true) then Some(ZoomEvent(false, zoomStartYear, zoomEndYear))
    else
      var r0 := Endpoint(e, 0);
      var r1 := Endpoint(e, 1);
      if IsNullish(r0) || IsNullish(r1) then None
      else
        var y0 := ToYear(r0);
        var y1 := ToYear(r1);
        if y0.None? || y1.None? then None
        else
          var startYear := if y0.value <= y1.value then y0.value else y1.value;
          var endYear := if y0.value <= y1.value then y1.value else y0.value;
          Some(ZoomEvent(true, startYear, endYear))
  }

  /** Exchanging the two endpoints of an event gives the same result. */
  lemma ParseRelayoutYearsSymmetric(props: map<string, JsValue>, a: JsValue, b: JsValue, zoomStartYear: int, zoomEndYear: int)
    requires !IsNullish(a) && !IsNullish(b)
    ensures
      var ab := JObj(props["xaxis.range[0]" := a]["xaxis.range[1]" := b]);
      var ba := JObj(props["xaxis.range[0]" := b]["xaxis.range[1]" := a]);
      ParseRelayoutYears(ab, zoomStartYear, zoomEndYear) == ParseRelayoutYears(ba, zoomStartYear, zoomEndYear)
  {
    var ab := JObj(props["xaxis.range[0]" := a]["xaxis.range[1]" := b]);
    var ba := JObj(props["xaxis.range[0]" := b]["xaxis.range[1]" := a]);
    assert Autorange(ab) == Autorange(ba);
    assert Endpoint(ab, 0) == a && Endpoint(ab, 1) == b;
    assert Endpoint(ba, 0) == b && Endpoint(ba, 1) == a;
  }

  /** An event that names both endpoints, as years in order, reports that range. */
  lemma RelayoutOfEndpoints(e: JsValue, y0: int, y1: int, zoomStartYear: int, zoomEndYear: int)
    requires e.JObj? && Autorange(e) != JBool(true)
    requires !IsNullish(Endpoint(e, 0)) && !IsNullish(Endpoint(e, 1))
    requires ToYear(Endpoint(e, 0)) == Some(y0) && ToYear(Endpoint(e, 1)) == Some(y1) && y0 <= y1
    ensures ParseRelayoutYears(e, zoomStartYear, zoomEndYear) == Some(ZoomEvent(true, y0, y1))
  {
  }

  /** Each end of the x range reads back as its year. */
  lemma ToYearOfXRange(mode: Mode, startYear: int, endYear: int)
    requires mode == Monthly ==> 1000 <= startYear <= 9999 && 1000 <= endYear <= 9999
    ensures ToYear(XRange(mode, startYear, endYear)[0]) == Some(startYear)
    ensures ToYear(XRange(mode, startYear, endYear)[1]) == Some(endYear)
  {
    if mode == Monthly {
      ToYearOfDate(startYear, "-01-01");
      ToYearOfDate(endYear, "-12-31");
    }
  }

  /** The range the chart is given, reported back as a zoom, is the same range of years. */
  lemma RelayoutOfXRange(mode: Mode, startYear: int, endYear: int, zoomStartYear: int, zoomEndYear: int)
    requires startYear <= endYear
    requires mode == Monthly ==> 1000 <= startYear && endYear <= 9999
    ensures
      var e := JObj(map["xaxis.range" := JArr(XRange(mode, startYear, endYear))]);
      ParseRelayoutYears(e, zoomStartYear, zoomEndYear) == Some(ZoomEvent(true, startYear, endYear))
  {
    var range := XRange(mode, startYear, endYear);
    var e := JObj(map["xaxis.range" := JArr(range)]);
    assert Autorange(e) == JUndefined;
    assert Endpoint(e, 0) == range[0] && Endpoint(e, 1) == range[1];
    ToYearOfXRange(mode, startYear, endYear);
    RelayoutOfEndpoints(e, startYear, endYear, zoomStartYear, zoomEndYear);
  }
}
