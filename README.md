# Temperature Trends: view state, loads and error messages

This project is a Dafny model of the core of a small web application for
exploring a per-station temperature dataset. The model covers:

- **The browser page.** `App` holds the selected stations, the mode (monthly
  or annual), the deviation-band switch and the zoom (a centre year and a
  window of years). It derives the range of years to fetch, and it keeps a
  key of what is loaded so it can decide when to reload. It also runs the
  three loads (`loadCurrent`, `switchMode`, `toggleStd`) and folds the
  chart's zoom events back into the zoom.
- **The chart.** `Visualization` builds the traces. It also reads Plotly's
  relayout events as years.
- **The zoom card.** `ZoomControls` shows the displayed range and checks the
  centre-year field.
- **The station list.** `StationPicker` filters the stations and computes
  the new selection after a click.
- **The HTTP helper and the banner text.** `Api` models `getJson` and
  `ApiError`. `ErrorMessages` is the error-to-message rule table.
- **The service's checks on parameters.** `RequestValidation` models the
  station list, the year order and the missing-station check.
- **The service's station listing.** `CsvStations` models de-duplication
  and ordering of the stations.
- **Cross-layer results.** `Interop` follows an error response from the
  service's checks through `getJson` into the banner text.

Helper modules: `Wrappers` (Option, Result), `Text` (trim, ASCII
lower-casing, substring search, split and join, decimal integers), `Sorting`
(a stable insertion sort and code-point string order), `FormUrl` (the
`URLSearchParams` form encoding) and `Js` (the JavaScript values the client
inspects). `Types` holds the response shapes.

Each state-changing operation of the page is a method of the class
`App.AppState`. Its `ensures` ties the new state to a pure step function:
`LoadCurrentStep`, `SwitchModeStep`, `ToggleStdStep` or `AutoLoadStep`.
Lemmas next to those functions state what each load promises. A load is one
atomic step that takes how its two requests end as a parameter: both
responses, or the failure that rejected the `Promise.all`.

The model follows the code as written:

- The page has no generation or cancellation token for its loads. Loads are
  modelled as atomic and sequential.
- `getJson` does not turn a failed fetch into status 0. It does not detect
  JSON by content type. It does not wrap a parse failure, and it does not
  attach the request key. All of these are modelled as they are (see
  Findings).
- The selection is an ordered list with insertion order. It is not a set.
  The key and the `stations` parameter follow that order.

## Model

| member | source | states |
|---|---|---|
| App.Span | frontend/src/App.tsx:84 | The span is at least 1, and it equals `max - min + 1` when the bounds are ordered |
| App.ClampWindow | frontend/src/App.tsx:74-81 | The window lies in `[1, span]`. It equals `v` when `v` is in range, 1 below, and the span above |
| App.HalfRoundedUp | frontend/src/App.tsx:326 | `Math.round(k/2)` on an integer rounds halves up: `2r-1 <= k <= 2r` |
| App.ZoomRange | frontend/src/App.tsx:83-91 | The derived range holds exactly the clamped window of years (`end - start + 1 == w`) and contains the centre |
| App.ZoomRangeIsDisplayed | frontend/src/App.tsx:83-91 | With a window that fits, the fetched range is the one the zoom card displays |
| App.FullZoom | frontend/src/App.tsx:39-44 | The whole-dataset zoom has window = span, and its derived range is exactly `[minYear, maxYear]` |
| App.InitialZoom | frontend/src/App.tsx:20-23 | The page starts at centre 1939 with a window of 161 years |
| App.ZoomFromEvent | frontend/src/App.tsx:321-327 | An enabled chart zoom sets the window to the clamped year count of its range. The centre is `Math.round` of the midpoint of the two years, so it lies inside the range even when the window is clamped |
| App.ZoomFromEventSymmetric | frontend/src/App.tsx:322-323 | The order of the event's two years does not matter |
| App.ZoomFromEventExample | frontend/src/App.tsx:322-327 | A zoom to 1950..1980, in either order, gives window 31 and centre 1965 |
| App.ZoomRangeOfEvent | frontend/src/App.tsx:321-327 | A chart zoom to a range that fits the span makes the page fetch exactly that range |
| App.EventOfZoomRange | frontend/src/App.tsx:83-91 | The fetched range of a fitting zoom, reported back by the chart, gives the same zoom (no feedback drift) |
| App.BaseKeyInjective | frontend/src/App.tsx:93-101 | Two base parameter strings are equal iff their stations parameters and years are equal |
| App.KeyTextInjective | frontend/src/App.tsx:102 | Two `targetKey`s are equal iff they come from the same stations parameter, years, mode and band setting |
| App.KeyNamesSelection | frontend/src/App.tsx:72 | For names without commas, equal keys mean the same selection in the same order, and the converse |
| App.StationColorMap | frontend/src/App.tsx:67-70 | The colour map has exactly the listed stations as keys |
| App.StationColorMapDistinct | frontend/src/App.tsx:67-70 | Station i gets palette colour `i mod |palette|` |
| App.ErrorText | frontend/src/App.tsx:239-243 | The banner shows iff a failure is kept, and its text is never empty |
| App.NeedsLoadByText | frontend/src/App.tsx:222-224 | The passive trigger fires iff stations are selected, nothing is loading, and the last loaded key text differs from the current one |
| App.AutoLoadClears | frontend/src/App.tsx:214-221 | An empty selection clears summary, series and loaded key and starts no load. Otherwise the passive effect changes nothing |
| App.LoadCurrentLoaded | frontend/src/App.tsx:123-140 | Success sets the summary and the current mode's series together, nulls the other series, records the current key and ends loading, so no reload follows |
| App.LoadCurrentFailed | frontend/src/App.tsx:141-145 | Failure keeps summary, series and loaded key, shows the failure's message and ends loading. A passive load that failed is retried |
| App.LoadCurrentNoStations | frontend/src/App.tsx:124 | With no station selected, `loadCurrent` changes nothing |
| App.SwitchModeRules | frontend/src/App.tsx:148-183 | The current mode is a no-op. With no stations the mode flips without a fetch. Success changes mode, data and key together. Failure keeps mode and data |
| App.ToggleStdRules | frontend/src/App.tsx:185-212 | The current setting is a no-op. In monthly mode or with no stations the flag flips without a fetch. Success changes flag, data and key together. Failure keeps flag and data |
| App.AppState.constructor | frontend/src/App.tsx:12-31 | The initial page state |
| App.AppState.AutoLoad | frontend/src/App.tsx:214-225 | Starts a load iff the passive rule holds. The new state is `AutoLoadStep` of the old |
| App.AppState.LoadCurrent | frontend/src/App.tsx:123-146 | The new state is `LoadCurrentStep` of the old state and the outcome |
| App.AppState.SwitchMode | frontend/src/App.tsx:148-155 | The new state is `SwitchModeStep` of the old state, the mode and the outcome |
| App.AppState.LoadMode | frontend/src/App.tsx:156-172 | The fetching branch of `switchMode` follows `SwitchModeStep` |
| App.AppState.ToggleStd | frontend/src/App.tsx:185-196 | The new state is `ToggleStdStep` of the old state, the flag and the outcome |
| App.AppState.LoadBand | frontend/src/App.tsx:197-210 | The fetching branch of `toggleStd` follows `ToggleStdStep` |
| App.AppState.LoadBounds | frontend/src/App.tsx:36-50 | Numeric bounds become the bounds and reset the zoom to the whole dataset. Null bounds change nothing. A failure is shown |
| App.AppState.LoadStations | frontend/src/App.tsx:52-60 | The station list is replaced, or a failure is shown |
| App.AppState.SetWindowYears | frontend/src/App.tsx:74-81 | Only the window changes. It becomes the clamped value, the centre is untouched, and the window fits the span |
| App.AppState.SetCenterYear | frontend/src/App.tsx:286 | Only the centre changes, and a fitting window stays fitting |
| App.AppState.Reset | frontend/src/App.tsx:291-298 | The zoom becomes the whole dataset, whose range is exactly the bounds |
| App.AppState.OnZoomYearsChange | frontend/src/App.tsx:311-328 | A disabled event resets to the whole dataset. An enabled one sets the clamped window and rounded centre, and a fitting range is fetched exactly |
| StationPicker.Filtered | frontend/src/components/StationPicker.tsx:13-17 | A blank search (after trimming) lists every station. Otherwise exactly the stations whose lower-case name contains the trimmed, lower-cased search, in their original order |
| StationPicker.Without | frontend/src/components/StationPicker.tsx:48 | The station is gone, every other station stays, in order, and an absent station changes nothing |
| StationPicker.Toggle | frontend/src/components/StationPicker.tsx:47-50 | The clicked station is selected afterwards iff it was not before. A newly selected station is appended at the end. No other station's membership changes |
| StationPicker.ToggleKeepsOthers | frontend/src/components/StationPicker.tsx:47-50 | The other stations keep their order through a click |
| StationPicker.ToggleTwice | frontend/src/components/StationPicker.tsx:47-50 | Two clicks on an unselected station give back the selection it started from |
| App.AppState.ToggleStation | frontend/src/components/StationPicker.tsx:47-50 | Only the selection changes, to the toggled list |
| App.AppState.SelectAll | frontend/src/components/StationPicker.tsx:32 | The selection becomes exactly the station list |
| App.AppState.ClearSelection | frontend/src/components/StationPicker.tsx:35 | The selection becomes empty |
| Visualization.Pad2TwoDigits | frontend/src/components/Visualization.tsx:23-25 | For 0..99 the label is two digits that read back as the number |
| Visualization.ParseHexColor | frontend/src/components/Visualization.tsx:27-33 | Matches exactly six hex digits with an optional leading '#', and the components are in 0..255 |
| Visualization.ColorOf | frontend/src/components/Visualization.tsx:27-29 | Any other text gives the white fallback, and the colour is always valid |
| Visualization.ParseRgbToHex | frontend/src/components/Visualization.tsx:27-33 | A colour written as `#rrggbb` parses back to itself |
| Visualization.ParseHexColorIgnoresCase | frontend/src/components/Visualization.tsx:28 | The match is case-insensitive |
| Visualization.MonthlyTraces | frontend/src/components/Visualization.tsx:53-63 | One trace per station, named and grouped by the station. Point j's x label is `YYYY-MM-01` of its year and month, and its y is the point's value |
| Visualization.AnnualSeriesTracesShape | frontend/src/components/Visualization.tsx:68-111 | A station gives its mean line first, then with the band the "-1σ" lower edge and the "+1σ" upper edge filled in the band colour. All are in its legend group with the points' years as x, and their y values are the means, lowers and uppers |
| Visualization.AnnualTracesWithBand | frontend/src/components/Visualization.tsx:66-113 | With the band there are 3 traces per station, and the k-th three are station k's |
| Visualization.AnnualTracesWithoutBand | frontend/src/components/Visualization.tsx:66-113 | Without the band there is 1 trace per station, and the k-th is station k's mean line |
| Visualization.BuildTraces | frontend/src/components/Visualization.tsx:52-114 | The loop builds the monthly map or the annual per-station traces, in station order |
| Visualization.ToYear | frontend/src/components/Visualization.tsx:130-137 | A number is its own year. A string shorter than 4, or a non-string non-number, gives null |
| Visualization.ToYearOfDate | frontend/src/components/Visualization.tsx:132-135 | A four-digit year followed by anything (e.g. "1950-01-01") reads as that year |
| Visualization.ToYearOfMonthLabel | frontend/src/components/Visualization.tsx:61 | Each monthly x label reads back as its point's year |
| Visualization.ParseRelayoutYears | frontend/src/components/Visualization.tsx:121-146 | A non-object, a missing endpoint or an endpoint `toYear` cannot read gives null. Autorange under any of its keys is checked first, and only autorange resets. An enabled result is ordered and is the two parsed years |
| Visualization.ParseRelayoutYearsSymmetric | frontend/src/components/Visualization.tsx:139-145 | Exchanging `range[0]` and `range[1]` gives the same result |
| Visualization.RelayoutOfEndpoints | frontend/src/components/Visualization.tsx:126-145 | An event with two parseable ordered endpoints reports exactly those years |
| Visualization.ToYearOfXRange | frontend/src/components/Visualization.tsx:118-119 | Each end of the x range given to the chart reads back as its year |
| Visualization.RelayoutOfXRange | frontend/src/components/Visualization.tsx:118-119 | The x range, reported back as a zoom, is the same range of years |
| ZoomControls.DisplayedRange | frontend/src/components/ZoomControls.tsx:34-37 | For a window of 1 or more, the displayed range spans exactly that many years around the centre |
| ZoomControls.Trunc | frontend/src/components/ZoomControls.tsx:55 | `Math.trunc` rounds towards zero |
| ZoomControls.CenterYearField.constructor | frontend/src/components/ZoomControls.tsx:26 | The field starts as `String(centerYear)` |
| ZoomControls.CenterYearField.Edit | frontend/src/components/ZoomControls.tsx:75 | Typing replaces the text |
| ZoomControls.CenterYearField.CenterChanged | frontend/src/components/ZoomControls.tsx:28-32 | A centre change rewrites the text, and the "unapplied" hint goes away |
| ZoomControls.CenterYearField.Commit | frontend/src/components/ZoomControls.tsx:44-56 | A new centre is produced iff the value is finite and in 1000..3000. It is the truncated value. Otherwise the text resets and the hint clears |
| ErrorMessages.RequestLabel | frontend/src/errorMessages.ts:3-18 | Total. "data" exactly for an absent or unknown key |
| ErrorMessages.RequestLabelInjective | frontend/src/errorMessages.ts:3-18 | The five known keys get distinct labels |
| ErrorMessages.NonEmptyStrings | frontend/src/errorMessages.ts:31 | `filter(Boolean)` keeps exactly the non-empty strings and keeps distinctness |
| ErrorMessages.UniqueNames | frontend/src/errorMessages.ts:21-22 | Names are de-duplicated, non-empty and sorted, and every non-empty input name is kept |
| ErrorMessages.ShownNames | frontend/src/errorMessages.ts:23-24 | At most 6 names are shown: all of them when there are 6 or fewer, else exactly 6 |
| ErrorMessages.ShownNamesOrder | frontend/src/errorMessages.ts:21-24 | The shown names are distinct, sorted, non-empty and taken from the input, and every non-empty name left out sorts after every shown one |
| ErrorMessages.HiddenCount | frontend/src/errorMessages.ts:24 | N = unique count - 6 when positive, else 0, and shown + hidden = unique |
| ErrorMessages.UniqueNamesCount | frontend/src/errorMessages.ts:21 | The unique count is the number of distinct non-empty names |
| ErrorMessages.FormatStationList | frontend/src/errorMessages.ts:20-25 | The text names every shown station. When some are hidden it carries " (+N more)" with their count. Otherwise it is just the names joined with ", " |
| ErrorMessages.FormatStationListShowsAll | frontend/src/errorMessages.ts:23 | With six unique names or fewer, every non-empty name appears in the text |
| ErrorMessages.MissingStationsFromDetail | frontend/src/errorMessages.ts:27-33 | Null for a non-object, a non-array `missing_stations` or all-empty entries. Otherwise exactly the non-empty `String` forms |
| ErrorMessages.UserFriendlyError | frontend/src/errorMessages.ts:35-75 | The banner text is never empty |
| ErrorMessages.StatusZeroIsConnectivity | frontend/src/errorMessages.ts:39-41 | Status 0 gives the connectivity text whatever the key or the detail |
| ErrorMessages.NotFoundRule | frontend/src/errorMessages.ts:43-49 | A 404 lists the stations iff the detail names some and the key is a data request. Otherwise it is "Not found while loading {label}" |
| ErrorMessages.UnprocessableRule | frontend/src/errorMessages.ts:51-57 | On 422, "stations is required" wins over "start_year must be <=". A detail with neither phrase, string or not, gives the generic invalid-request text |
| ErrorMessages.ServerErrorRule | frontend/src/errorMessages.ts:59-64 | At 500 or above, "CSV_PATH not found" gives the configuration text. Otherwise it is the server-error text |
| ErrorMessages.FallthroughRule | frontend/src/errorMessages.ts:66-70 | The invalid-JSON message comes first. Otherwise the text contains the status |
| ErrorMessages.OtherErrorRule | frontend/src/errorMessages.ts:73-74 | A plain Error shows its message, or "Unexpected error." when that is empty. A non-Error shows the generic text |
| Api.ErrorDetail | frontend/src/api.ts:19 | `detail` is `parsed.detail` when that is present and non-null, else `parsed` |
| Api.GetJson | frontend/src/api.ts:14-22 | An empty body is null. An ok response resolves to the parsed body and never throws `ApiError`. A parse failure escapes first. Only a non-ok response throws `ApiError`, carrying status, "status statusText" and the detail |
| Api.GetJsonErrorsAsWritten | frontend/src/api.ts:19 | No `ApiError` that `getJson` throws has status 0, the invalid-JSON message or a request key |
| Api.GetJsonIntended | frontend/src/App.tsx:36 | Every rejection is an `ApiError` carrying the key. A failed fetch has status 0, and a parse failure has the invalid-JSON message. It agrees with `GetJson` otherwise |
| FormUrl.EncodeInjective | frontend/src/App.tsx:101 | The form encoding of `URLSearchParams` is injective |
| RequestValidation.StrippedNonBlank | src/csv_temperature_data/api/utils.py:10 | The output names are stripped and non-empty, and there are no more of them than pieces |
| RequestValidation.StrippedNonBlankEmpty | src/csv_temperature_data/api/utils.py:10-12 | The output is empty iff every piece is empty or whitespace |
| RequestValidation.StrippedNonBlankSound | src/csv_temperature_data/api/utils.py:10 | Every output name is the stripped form of some piece |
| RequestValidation.StrippedNonBlankComplete | src/csv_temperature_data/api/utils.py:10 | Every non-blank piece is kept, stripped |
| RequestValidation.ParseStationsParam | src/csv_temperature_data/api/utils.py:9-13 | 422 "stations is required" iff every comma piece is blank. Otherwise a non-empty list of stripped, comma-free names |
| RequestValidation.ParseJoinedStations | src/csv_temperature_data/api/utils.py:10 | The client's comma-joined list of clean names parses back to itself, order and repeats kept |
| RequestValidation.ValidateYearRange | src/csv_temperature_data/api/utils.py:16-18 | 422 iff both years are given and start > end |
| RequestValidation.NotIn | src/csv_temperature_data/api/utils.py:23 | Keeps exactly the elements not available, and keeps distinctness |
| RequestValidation.EnsureStationsExist | src/csv_temperature_data/api/utils.py:21-25 | 404 iff some requested station is unavailable. `missing_stations` is exactly requested \ available, distinct and sorted |
| CsvStations.SortKey | src/csv_temperature_data/core/csv_data.py:26-30 | An integer key iff `int` accepts the name, carrying its value. Otherwise a text key |
| CsvStations.StationLeTotalPreorder | src/csv_temperature_data/core/csv_data.py:26-32 | Ordering by `sort_key` is a total preorder |
| CsvStations.FileStationsMembers | src/csv_temperature_data/core/csv_data.py:20-24 | The stations are the stripped first fields of the non-empty rows after the header |
| CsvStations.UniqueStations | src/csv_temperature_data/core/csv_data.py:13-32 | The output has no duplicates, its elements are exactly the file's stations, and it is in `sort_key` order |
| CsvStations.StationOrder | src/csv_temperature_data/core/csv_data.py:26-32 | Integer names come first, in numeric order. The rest follow in code-point order |
| CsvStations.ExampleFileStations | tests/test_health.py:13-21 | The test file's rows name stations "123" and "456" |
| CsvStations.ListStationsExample | tests/test_health.py:13-29 | The test file lists ["123", "456"], count 2 |
| Interop.ErrorBody | src/csv_temperature_data/api/routes/data.py:11-18 | `getJson` reads the service's detail back out of its `{"detail": ...}` body |
| Interop.MissingStationsRoundTrip | frontend/src/errorMessages.ts:27-33 | The translator reads back exactly the station names the service listed |
| Interop.RefusedAsWritten | frontend/src/api.ts:17-19 | A refused request rejects with an `ApiError` with the service's status and detail and no key |
| Interop.MissingStationsAsWritten | frontend/src/errorMessages.ts:43-48 | As written, a missing-stations 404 shows "Not found while loading data." and never the station list |
| Interop.MissingStationsIntended | frontend/src/errorMessages.ts:43-47 | With the key, every `ensure_stations_exist` 404 on a data request gives the station-list message, which names each missing station when at most six are missing |
| Interop.NetworkFailureAsWritten | frontend/src/api.ts:15 | As written, an unreachable server shows "Failed to fetch" and not the connectivity text |
| Interop.NetworkFailureIntended | frontend/src/errorMessages.ts:39-41 | With failed fetches as status 0, an unreachable server shows the connectivity text |
| Interop.InvalidJsonAsWritten | frontend/src/api.ts:17 | As written, a non-JSON body shows the parser's own message |
| Interop.InvalidJsonIntended | frontend/src/errorMessages.ts:66-68 | With parse failures wrapped, a non-JSON body below 500 (other than 404 and 422) shows the unexpected-response text |
| Interop.StationsRequiredMessage | src/csv_temperature_data/api/utils.py:11-12 | The service's missing-selection refusal reaches the banner as "Select at least one station" |
| Interop.YearOrderMessage | src/csv_temperature_data/api/utils.py:16-18 | The service's reversed-range refusal reaches the banner as the year-order text |

## Left out

- Asynchrony is not modelled: `Promise.all` interleavings, React's effect scheduling, overlapping loads from the explicit triggers, and the `cancelled` flag of the startup effect (frontend/src/App.tsx:33-65). Each load is one atomic step.
- `fetch`, `resp.text()` and `JSON.parse` are not modelled. They are inputs: an `Api.Exchange` holds the response and what the parser made of its text.
- Typed decoding of a response is not modelled. A load's outcome gives the summary and series directly.
- A startup range response with a null body is not modelled separately. It makes `range.min_year` throw at frontend/src/App.tsx:39; the model treats it as a failed outcome.
- File I/O is not modelled: `os.stat`, `open`, `csv.reader` and the `lru_cache` keying (src/csv_temperature_data/core/csv_data.py:9-19). The file is given as its rows.
- The route handlers, the router, `main.py` and the settings are not part of this model. The available-station set of `ensure_stations_exist` is a parameter.
- CsvStations.PyInt: accepts surrounding ASCII whitespace, an optional sign and ASCII digits only. Python's `int` also accepts underscores between digits and non-ASCII digits.
- Numbers are integers. `Math.round` on fractional chart endpoints, `toFixed`, the slider percentage and the printed alpha of `hexToRgba` are not modelled. `Visualization.HexToRgba` takes the alpha as text.
- `Number(text)` in the zoom card is not modelled. A commit is given a finite number or "not finite".
- Case folding is ASCII only. `Text.Trim` removes space and the control characters tab through carriage return (`\t`..`\r`) only. JavaScript's `trim` also removes Unicode spaces. Python's `strip` and `int` (src/csv_temperature_data/api/utils.py:10, src/csv_temperature_data/core/csv_data.py:24,28) also remove the ASCII separators `\x1c`..`\x1f` and Unicode spaces. So the service refuses `stations=" \x1f"` with 422, while `RequestValidation.ParseStationsParam` accepts it as the name `"\x1f"`.
- `localeCompare` in `formatStationList` is modelled as code-point order.
- Rendering is not modelled: JSX markup, Plotly drawing, `uirevision`, `window.alert`, the constant trace fields (`type`, `mode`, line width, `hoverinfo`, `showlegend`) and the "N selected" pill. The pill shows the selection's length.
- Python's `sorted` over a set is not fully pinned down. Two names with the same key, such as "7" and "07", come out in the set's iteration order. `CsvStations.UniqueStations` leaves their relative order open in the same way.

## Findings

| source | as written | input that shows it | evidently intended | confidence | as-written member | corrected member |
|---|---|---|---|---|---|---|
| frontend/src/api.ts:14-22 | `getJson` takes one argument, and `ApiError` has no `requestKey`. The `{ requestKey }` passed at frontend/src/App.tsx:36,105 is dropped, so the translator never sees a key | a 404 with detail `{"missing_stations": ["999"]}` from the summary request | The banner lists the missing stations ("Some selected stations aren't available ... (999)") and labels each error with its request | high, not executed | Interop.MissingStationsAsWritten | Interop.MissingStationsIntended |
| frontend/src/api.ts:15 | a failed `fetch` escapes as a plain `TypeError`, so the status-0 rule at frontend/src/errorMessages.ts:39-41 never fires | server unreachable: `fetch` rejects with "Failed to fetch" | The connectivity guidance is shown | medium, not executed | Interop.NetworkFailureAsWritten | Interop.NetworkFailureIntended |
| frontend/src/api.ts:17 | a body that does not parse escapes as a plain `SyntaxError`, so the invalid-JSON rule at frontend/src/errorMessages.ts:66-68 never fires | status 200 with body `<html>` | The unexpected-response text is shown | medium, not executed | Interop.InvalidJsonAsWritten | Interop.InvalidJsonIntended |

The corrected reader is `Api.GetJsonIntended`. It attaches the request key and gives a failed fetch status 0. It also turns a parse failure into an `ApiError` with the invalid-JSON message. `Api.GetJsonErrorsAsWritten` shows that no `ApiError` from `Api.GetJson` can meet any of the three rules above.
