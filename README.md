# Fleet dashboard core, modelled in Dafny

This project models the data handling of a browser dashboard for a fleet of
GPS-tracked vehicles. The model covers:

- how readings from the tracking backend are normalised: timestamps in
  several formats, GeoJSON or `la`/`lo` coordinates, and event codes derived
  from speed;
- how a date-range history is fetched, with a paged fallback, then filtered
  to the window and sorted;
- how a route is summarised: stops, the kilometre total and the
  direction arrows;
- how the fleet is classified into the transit, stopped and no-report groups;
- the small formatting helpers: vehicle type, device list, event caption,
  colour and icon, date and time, and the CSV export;
- the route CSV import;
- the operating bases that an administrator adds to and deletes from the
  user metadata;
- the vehicle editor, which saves a device's name, plate, brand, model and
  colour into the user metadata and loads them back.

JavaScript values are modelled by `Js.Json`. Numbers are `Js.Num`: a finite
real, NaN or an infinity. The module also models the coercions the code
relies on: `Number()`, `String()`, `parseFloat`, `parseInt`, truthiness,
`??`, `||`, optional chaining and object spread. Times are `Timestamps.Time`,
milliseconds since the epoch or an Invalid Date. Things the model cannot see
are parameters:

- the clock (`now`);
- ISO date parsing (`parseIso`, `toDate`);
- the server's answers (`fetch`, `page`, `first`, `reply`);
- the distance and bearing trigonometry (`dist`, `km`, `bearing`).

Modules, one file each: `Text` (text.dfy), `Js` (js_values.dfy), `Timestamps`,
`Readings`, `RangeFetch`, `Stops`, `RouteKm`, `FleetStatus`, `Arrows`,
`AppValues`, `Utils`, `CsvExport`, `LoadCsv`, `Permissions`, `Bases`, `Editor`.
`Wrappers` holds `Option` and `Result`.

Only the `la`/`lo` branch of `coordsToLatLon` checks that both coordinates
are finite. The GeoJSON branch (api.js:99-101) does not, so `Number("x")`
gives NaN there and the result is still a position
(`Readings.CoordsToLatLon`).

## Model

| member | source | states |
|---|---|---|
| Timestamps.ParseValleTimestamp | api.js:66-94 | The ISO form is handed to the date parser. Otherwise the result is a valid time, and when no format matches it is the current time. |
| Timestamps.SourceOf | api.js:66-93 | Which of the four formats applies, in the code's order of precedence. An ISO prefix wins over the compact form. Falling back to "now" means that no format matched. |
| Timestamps.CompactDecodes | api.js:71-75 | A compact `YYMMDDTHHMMSSZ` stamp decodes to `Date.UTC(2000+yy, mm-1, dd, HH, MM, SS)`. |
| Timestamps.SplitDecodes | api.js:78-82 | Separate six-digit `date`/`time` fields decode to the same UTC instant, provided `dateTime` matched no format. |
| Timestamps.DataFieldsDecode | api.js:85-90 | `data.f` (`YYYY-MM-DD`) with `data.h` (`HHMMSS`) decodes to `Date.UTC(Y, M-1, D, HH, MM, SS)` when the earlier formats do not match. |
| Timestamps.CompactExample | api.js:70-74 | The code's own example `251017T210852Z` is 2025-10-17 21:08:52 UTC, which is 1760735332000 ms. |
| Timestamps.NextDay | api.js:74 | `Date.UTC`: one more day is 86400000 ms later, whatever the other fields are. |
| Timestamps.MonthCarry | api.js:74 | `Date.UTC`: a month index past 11 carries into the next year. |
| Timestamps.TwoDigitYear | api.js:89 | `Date.UTC` maps a year 0..99 to 1900+year. |
| Timestamps.MonthLength | api.js:74 | The day count between the firsts of two consecutive months is that month's length, with February's length following the leap-year rule. |
| Timestamps.YearEnd | api.js:74 | 1 January of the next year follows 1 December by the length of December. |
| Timestamps.EpochIsZero | api.js:74 | `Date.UTC(1970, 0, 1, 0, 0, 0)` is 0. |
| Readings.CoordsToLatLon | api.js:96-107 | A GeoJSON array of two or more entries always gives a position, `(Number(lat), Number(lon))` from `[lon, lat]`, with no finiteness check. Without it, the result is null/null exactly when `la` or `lo` is not a finite number, and otherwise both coordinates are finite and are `la`/`lo`. |
| Readings.GeoJsonWins | api.js:99-101 | With a `coordinates` array of two or more entries, `la`/`lo` are never consulted. |
| Readings.FallbackEventFromSpeed | api.js:109-112 | The result is 10 exactly when `Number(v)` is finite and positive. It is 11 otherwise. |
| Readings.NormalizeLastReading | api.js:115-147 | Fails exactly when the timestamp is an Invalid Date (`toISOString` throws). Otherwise it keeps every field of `data` except the six resolved ones and sets those by the fallback chains: `v ?? 0`, `sg ?? q ?? signal ?? null`, `Bt ?? b ?? bt ?? null`. |
| Readings.LastReadingFields | api.js:126-129 | `la`/`lo` are both numbers or both null. `ev` is `ev`, else `e`, else the speed-derived code. |
| Readings.LastReadingData | api.js:133-145 | The exact `data` object: the spread of `data` with the six keys overridden in order. |
| Readings.OnlyIsoFails | api.js:119-135 | Only an ISO `dateTime` can make normalisation fail. Every other format produces a valid instant. |
| Readings.NormalizeHistoryItem | api.js:149-173 | The device id is `deviceId ?? id`. The item's time, position, `sg` (default `''`), `Bt` and raw value follow the fallback chains. `v` and `ev` are never NaN (`Number(..) \|\| 0`). |
| Readings.HistoryEvent | api.js:162-163 | Without `ev`/`e`, the event is 10 exactly when the coerced speed is positive, and 11 otherwise. With `ev` present, the event is `Number(ev) \|\| 0`. |
| Readings.HistorySpeed | api.js:162 | The history speed is `Number(v)` when that is truthy (non-zero and not NaN), and 0 otherwise. A missing speed is 0. |
| Readings.HistoryEventCode | api.js:163 | The history event is the first present of `ev` and `e`, as a number, or 0 when that number is 0 or NaN. With neither present it is the 10/11 derived from the already-coerced speed. |
| Readings.ExampleReading | api.js:115-173 | A compact-stamp record with string coordinates `-26.8`/`-65.2` and speed `"40"` normalises to those numbers and event 10. The last-reading `v` stays the string `"40"`. |
| Readings.RecordNormalizes | api.js:115-147 | A device record with string `la`/`lo`/`v` keeps the id, the parsed coordinates and the raw speed. Its event follows the speed, and `sg`/`Bt` are null. |
| Readings.RecordHistory | api.js:149-173 | The same record as a history item has the parsed position, the numeric speed, the speed-derived event and `sg` `''`. |
| Readings.LastReadingsBulk | api.js:189-194 | No ids means no request and `[]`, and a falsy reply gives `[]`. The call fails exactly when the request fails, the reply is truthy but not an array, or some element's time is an Invalid Date (`toISOString` throws inside `map`). Otherwise each element is normalised, in order. |
| RangeFetch.ItemsOf | api.js:222 | `res.data` if it is an array, else `res` if it is an array, else `[]`. |
| RangeFetch.ReadingsRange | api.js:197-262 | The result equals `RangeSpec`. When the first request returns items, no fallback page is requested. Otherwise the pages requested are exactly those of the fallback walk. |
| RangeFetch.WalkPages | api.js:237-258 | The fallback loop computes `Walk` and requests the pages `WalkRequests`. |
| RangeFetch.RangeInWindowSorted | api.js:223-261 | Every returned point is in `[start, end)` and the points are sorted by time. |
| RangeFetch.FirstAnswerDecides | api.js:214-234 | A non-empty first answer is the whole result: normalised, windowed and sorted. A failed first request behaves like an empty one. |
| RangeFetch.WalkRequestBound | api.js:241-258 | At most `maxPages` pages are requested, numbered consecutively from 1. |
| RangeFetch.WalkStopsAtEmptyPage | api.js:248 | No page after an empty one is requested. |
| RangeFetch.WalkStopsAtLastPage | api.js:257 | No page is requested after a page whose `meta.hasNext` is `false`. |
| RangeFetch.WalkInWindow | api.js:251-254 | Every point the walk collects lies in the window. |
| RangeFetch.SortByTs | api.js:229 | The sorted result is ordered by time and is a permutation of its input. |
| RangeFetch.SortSorted | api.js:229 | Sorting an already ordered list changes nothing. |
| RangeFetch.WindowMembers | api.js:225-228 | The window keeps exactly the points whose time is in `[start, end)`. |
| Stops.AnnotateStops | app.js:955-1000 | The loop yields the stops of the clusters that the join rule builds, in order. |
| Stops.ClustersPartition | app.js:960-999 | The clusters cover the route: they are contiguous, non-empty and start at 0. |
| Stops.ClustersJoinRule | app.js:981-997 | Inside a cluster every point was within `StopRadiusM` of the running centre. Each new cluster starts at a point that was farther away. |
| Stops.CentroidIsMean | app.js:962-989 | Each cluster's centre is the mean of its points. |
| Stops.StopsGate | app.js:966-979 | Every stop spans at least `STOP_MIN_POINTS` (3) points and at least 5 minutes, lies within the route, and stops come out in route order. |
| Stops.EmittedMembers | app.js:966-979 | A stop is emitted exactly when some cluster's flush yields it. |
| Stops.EmittedTimes | app.js:972-976 | A stop's start and end times are the times read at its first and last index. |
| Stops.RouteStops | app.js:662-730 | Corrected: each stop's times are those of the drawn points it spans. |
| Stops.StopsAsWritten | app.js:662-730 | As written: the stops are found among the drawn points, but each stop's times are read from the unfiltered list at the same indices. |
| Stops.EmptyRouteNoStops | app.js:956 | An empty route has no stops. |
| Stops.AlignedWhenAllDrawn | app.js:662-730 | When every point has coordinates, the as-written stops equal the intended ones. |
| Stops.MisalignedStopIsLost | app.js:662-730 | See Findings. One point without coordinates shifts the times, and a real 6-minute stop is dropped. |
| RouteKm.TotalKm | app.js:560-568 | The loop computes `KmSum`. |
| RouteKm.Leg | app.js:564-566 | A leg counts only when both ends have truthy coordinates, and only when it is under 5 km. |
| RouteKm.KmAppend | app.js:561-567 | The total of a concatenation is the two totals plus the joining leg. |
| RouteKm.KmBelowBound | app.js:566 | The total is below 5 km times the number of legs, and 0 for fewer than two points. |
| RouteKm.KmNonNegative | app.js:560-568 | With non-negative distances the total is non-negative. |
| RouteKm.GapSplitsRoute | app.js:564 | A point without coordinates contributes no leg on either side. |
| RouteKm.JumpSplitsRoute | app.js:566 | A jump of 5 km or more contributes nothing. |
| FleetStatus.InfoOf | app.js:452-461 | The summary of one answer. It is stale exactly when its time is valid and at least 5 hours old. |
| FleetStatus.Classify | app.js:468-474 | Stale means no-report. Otherwise events 10/31 mean transit and 11/30 mean stopped, as an if-and-only-if for each group. |
| FleetStatus.Fleet.LoadLastPoints | app.js:437-482 | Empty ids change nothing. Otherwise `lastInfo` holds the last answer per trimmed id, and each group lists its ids once, in first-seen order. Each request gets its own answer, so two requests for one id may be answered differently. |
| FleetStatus.Fleet.GroupsAgree | app.js:466-481 | Each group is duplicate-free and holds exactly the ids some answer classified into it. For an id whose answers agree, for example an id given once, the groups are disjoint and agree with the summary stored in `lastInfo`. |
| FleetStatus.LoadedEntries | app.js:453-466 | `lastInfo` has an entry exactly for the trimmed ids some request answered, and holds the last answer for the id. |
| FleetStatus.MembersExact | app.js:468-481 | A group holds, without repeats, exactly the ids some answer classified into it. |
| FleetStatus.StoredClassifies | app.js:466-474 | For an id whose answers agree, the stored summary classifies into a group exactly when some answer does. |
| FleetStatus.DuplicateIdInTwoGroups | app.js:452-474 | An id given twice, answered first as stale and then as moving, ends up in both the no-report and the transit group, and `lastInfo` keeps the second answer. |
| Arrows.NormDeg | app.js:34 | The result is always in `[0, 360)`. |
| Arrows.JsRem360 | app.js:34 | `%` truncates: the remainder has the sign of the dividend. |
| Arrows.NormDegIsFloorMod | app.js:34 | `normDeg` equals the floored modulo 360. |
| Arrows.NormDegKeepsNormal | app.js:34 | Angles already in `[0, 360)` are unchanged. |
| Arrows.NormDegIdempotent | app.js:34 | Normalising twice is normalising once. |
| Arrows.NormDegPeriodic | app.js:34 | Adding whole turns does not change the result. |
| Arrows.Step | app.js:257-258 | The step is `max(1, ceil(n/50))`: at least 1, 50 steps cover `n`, and it is the least such step. |
| Arrows.SlotsShape | app.js:259 | The loop indices start at `i`, advance by `step` and stay below the last index. |
| Arrows.SlotsAtMostMax | app.js:257-259 | At most 50 loop indices for any route. |
| Arrows.ShortRouteEveryLeg | app.js:258-259 | For routes of at most 50 points every leg is visited. |
| Arrows.ArrowOf | app.js:263-264 | The arrow sits at the midpoint of the leg, and its rotation is in `[0, 360)`. |
| Arrows.AddRouteArrows | app.js:255-273 | Fewer than two points give no arrows. Otherwise the result is the arrows of the visited legs with both ends present. |
| Arrows.ArrowsOnSlots | app.js:259-271 | When every point is present there is one arrow per visited leg, built from that leg. |
| Arrows.ArrowsBounded | app.js:257-271 | At most 50 arrows, all with normal rotations. |
| AppValues.ParseBattery | app.js:304-313 | Null and non-number, non-string values give null. A number is kept exactly when it is finite. |
| AppValues.BatteryOfDigits | app.js:307-310 | A digit string reads as its decimal value. |
| AppValues.BatteryIgnoresUnit | app.js:308 | A trailing unit such as `" V"` is stripped and does not change the value. |
| AppValues.BatteryDecimalComma | app.js:308-310 | A decimal comma reads like a decimal point, and `a.b` reads as `a + b/10^len(b)`. |
| AppValues.DecimalPoint | app.js:308 | Only the first comma is replaced. Without a comma the text is unchanged. |
| AppValues.KeepBatteryChars | app.js:308 | Only digits, `.`, `-`, `+`, `e`, `E` remain. |
| AppValues.DeviceMeta | app.js:196-200 | Either null, or the truthy entry stored under `String(id)`, and only for a truthy id. |
| AppValues.NamedDeviceShowsName | app.js:202-205 | `getDisplayName`: a device stored with a truthy name shows that name. |
| AppValues.UnnamedDeviceShowsId | app.js:202-205 | `getDisplayName`: a device without metadata shows its id. |
| Utils.NormalizeType | utils.js:17-23 | One of `moto`, `trafic`, `camion`, `auto`. |
| Utils.NormalizeTypeCases | utils.js:17-23 | Each result holds exactly when its prefix test is the first to succeed on the lower-cased text. |
| Utils.NormalizeTypeIgnoresCase | utils.js:18 | Upper or lower case does not matter. |
| Utils.NormalizeTypeIdempotent | utils.js:17-23 | A normalised type normalises to itself. |
| Utils.ParseDevicesInput | utils.js:25-28 | Blank input gives `[]`. Every id is non-empty, trimmed and comma-free. |
| Utils.ParseDevicesJoin | utils.js:25-28 | Parsing a comma-joined list of clean ids gives the list back. |
| Utils.ParseDevicesIdempotent | utils.js:25-28 | Re-parsing the joined result of a parse gives the same ids. |
| Utils.EventColor | utils.js:49-60 | The grey default exactly for codes outside the seven known ones. |
| Utils.EventLabel | utils.js:62-73 | An `Evento ...` caption exactly for unknown codes, and then it shows `ev ?? '-'`. |
| Utils.LabelsDistinct | utils.js:62-73 | Different known codes have different captions. |
| Utils.LabelAndColorAgree | utils.js:49-73 | The fallback caption and the fallback colour occur together. |
| Utils.DigitEventsAgree | utils.js:49-73 | A code given as digit text captions and colours like the number. |
| Utils.IconByTypeAndEvent | utils.js:87-102 | The icon of the normalised type. It is the `sindatos` picture exactly for `stale`. Otherwise it is `transito` exactly for codes 10/31, `apagado` exactly for 30, `panico` exactly for 20/21, and `detenido` for every other value. |
| Utils.EventCode | utils.js:94 | Text is read with `parseInt(ev, 10)`. A whole number is its own code, a fractional number matches no code, and other values match none. |
| Utils.IconKind | utils.js:96-101 | One of the four event pictures: `transito` exactly for 10/31, `apagado` exactly for 30, `panico` exactly for 20/21, and `detenido` otherwise. |
| Utils.IconOfDigitText | utils.js:94 | A code given as decimal text picks the same icon as the number, via `parseInt`. |
| Utils.FmtDate | utils.js:108-111 | `YYYY-MM-DD` with the month index plus one, the parts zero-padded. |
| Utils.FmtTime | utils.js:112-115 | `HH:MM:SS`, each part zero-padded to two digits. |
| CsvExport.Header | utils.js:118-121 | Cut at its commas, the header gives the seven column names, plus `Dirección` as an eighth exactly when some row has an `address` key. It holds no line break. |
| CsvExport.HeaderColumns | utils.js:119-121 | The header has as many columns as each row has values. |
| CsvExport.RowValues | utils.js:126-131 | 7 values, or 8 with the address. |
| CsvExport.Cells | utils.js:132 | Each value becomes `String(v)`, quoted with inner quotes doubled. |
| CsvExport.Csv | utils.js:123-134 | When no value holds a line break, the lines of the text are exactly the header and then one line per row, in order. |
| CsvExport.RowRoundTrip | utils.js:132 | A quoted, comma-joined row reads back to its texts under CSV quoting rules. |
| CsvExport.ExportedRowReadsBack | utils.js:125-133 | Every exported row reads back to the `String` of its values, and has as many cells as the header has columns. |
| LoadCsv.RouteOf | load-csv.js:64-73 | A kept line gives a trimmed, comma-free id and route. |
| LoadCsv.ParseCsvData | load-csv.js:55-78 | The loop computes `ParseCsv`. |
| LoadCsv.BlankLineIgnored | load-csv.js:64-65 | Blank lines contribute nothing. |
| LoadCsv.RoutesConcat | load-csv.js:63-75 | Lines are read independently and in order. |
| LoadCsv.CsvRoundTrip | load-csv.js:55-78 | A file written as `id,ruta` plus one `id,route` line per route reads back to those routes. |
| LoadCsv.NoHeaderReadsAll | load-csv.js:61 | Without `ruta` in the first line, that line is data too. |
| Permissions.AdminMayEdit | bases.js:14-24 | `user.role` equal to `admin` in any case grants editing. |
| Permissions.LevelOneMayEdit | editor.js:23-24 | `user.data.nivel` equal to 1, as a number or as text, grants editing. |
| Permissions.NobodyByDefault | bases.js:14-24 | An empty state may not edit. |
| Permissions.RoleMatchIsExact | editor.js:20-22 | Any other non-empty role, `administrator` for example, does not grant editing. |
| Permissions.CanEditUser | bases.js:14-24 | Editing is allowed exactly when one of the four stored roles reads `admin` after lower-casing, or `Number(user.data.nivel \|\| 0)` is 1. Without a truthy level, only the role decides. |
| Permissions.BaseMeta | bases.js:82-88 | The metadata comes from `state.metadata`, else `user.metadata`, else `user.data`, whichever is first a non-null object, else `{}`. The result is always a non-null object. |
| Permissions.WithKey | bases.js:192 | `{...meta, key: value}` sets the key and keeps every other own entry. |
| Permissions.KeepsBases | editor.js:110-113 | Writing any key other than `bases` into the metadata leaves the bases as they were, even when the metadata is an array. |
| Permissions.BasesReadBack | bases.js:183-192 | Bases written into the metadata are read back unchanged by `Array.isArray(meta.bases) ? meta.bases : []` (bases.js:89). |
| Bases.AddBase | bases.js:165-192 | Saved exactly with permission, a non-blank name, all eight coordinates given, and fewer than 4 bases. Then the new base is appended and stored under `bases`. |
| Bases.AddBaseAsWritten | bases.js:165-192 | As written: saved exactly with permission, a non-blank name, no coordinate that is NaN, and fewer than 4 bases. Then the new base is appended and stored under `bases`. |
| Bases.DeleteBase | bases.js:225-233 | Saved exactly with permission and an index in range. |
| Bases.DeleteRemovesOne | bases.js:232 | Deleting removes exactly the base at the index and keeps the order of the others. |
| Bases.AtMostFourBases | bases.js:184 | After a save there are never more than 4 bases. |
| Bases.SavedBasesReadBack | bases.js:183-192 | The saved metadata reads back the new bases and keeps every other key. |
| Bases.DrawnBases | bases.js:53-79 | Exactly the bases with a 4-point `points` array are drawn. |
| Bases.LabelNamesBase | bases.js:67 | The tooltip is `Base` exactly for a base without a truthy name. Otherwise it ends with the name. |
| Bases.NewBaseDrawn | bases.js:186-190 | A newly added base is drawable and labelled with its name. |
| Bases.DrawnAfterAdd | bases.js:191-206 | Adding a base adds it to the drawn ones. |
| Bases.BlankCornersAccepted | bases.js:170-181 | See Findings. Blank coordinate inputs pass the NaN check as written, and are refused by the corrected `AddBase`. |
| Bases.SavedCornersFilled | bases.js:175-181 | A saved base had all eight inputs non-blank and numeric. |
| Editor.SaveMetaForm | editor.js:67-113 | Saved exactly with permission and a selected device. Then only the device's entry is replaced by its merge with the form, and the metadata is rebuilt with the new `devices_meta`. |
| Editor.OthersUnchanged | editor.js:106-107 | Other devices' entries are untouched. |
| Editor.EntryMerged | editor.js:107 | In the edited entry the form's fields win and the stored fields it does not name are kept. |
| Editor.SaveKeepsBases | editor.js:110-113 | Saving a device keeps the bases and every other metadata key. |
| Editor.LoadDeviceMetaIntoForm | editor.js:33-42 | A device with nothing stored loads empty texts and colour `#000000`. |
| Editor.FormOf | editor.js:36-41 | A stored text field loads as itself, and a missing or falsy one loads as `''`, for each of name, plate, brand, model and colour. A missing colour code loads as `#000000`. |
| Editor.SaveThenLoad | editor.js:33-107 | Loading the device just saved, whose `updated` object (editor.js:79-87) holds the trimmed texts and the colour code, shows the trimmed texts and the saved colour code, `#000000` when it was blank. |

## Left out

- Network requests (`doJson`, the metadata PATCH, login), the DOM and Leaflet (markers, polylines, tooltips, panels, toasts), PDF export, reading files (`FileReader`) and `reverseGeocode` are not modelled. Their inputs and results are parameters or are not represented.
- The haversine distance and the bearing are parameters (`dist`, `km`, `bearing`), because they use trigonometry.
- Clocks: `Date.now()` and `new Date()` are the parameter `now`. `new Date(isoText)` is the parameter `parseIso`/`toDate`, because ISO date parsing is not modelled.
- Times are kept as milliseconds. `toISOString()` is modelled only by its failure on an Invalid Date, and not by the text it produces.
- `apiReadingsRange` computes `dateFrom`/`dateTo` with local-calendar getters and puts them in the URL. The URL is not modelled, because the local time zone is not.
- `fmtDate`/`fmtTime` take the calendar fields as numbers, because the local-calendar getters are not modelled.
- Utils.FmtDate: the shape is stated only for four-digit years. Other years are rendered but not described.
- Utils.NormalizeType: lower-casing covers ASCII letters only. JavaScript's full Unicode case mapping is not modelled.
- Permissions.AdminMayEdit: the role is lower-cased on ASCII letters only, as above.
- Numbers are exact reals. Floating-point rounding of the sums, the mean, the angle arithmetic and `parseFloat` is not modelled.
- `Number.prototype.toString` is exact only for integers and short decimals. Shortest round-trip printing of arbitrary doubles is not modelled.
- Readings: time fields that are not strings are treated as matching no format. The code applies the regular expressions to `String(x)`, so a six-digit number in `date`/`time` or in `data.h` matches, and then `.slice` throws a TypeError (api.js:79-80, 88). That throw rejects `normalizeLastReading`, the bulk request and the range fallback; the model returns a time instead.
- Stops.Drawable: a coordinate of ±Infinity (GeoJSON text such as `"1e999"`) is truthy, and the code draws that point (app.js:664). The model keeps positions as real numbers, so it does not draw such a point.
- Bases.DrawnBases: Leaflet's `L.latLng` throws on a corner that is not a number (bases.js:61). That stops the `forEach` and leaves the later bases undrawn (bases.js:78). Leaflet is not part of this model, so every base with four points counts as drawn.
- Timestamps.ParseValleTimestamp: `dateTime` is tested by the code's regular expressions. ISO texts themselves are not parsed (see above).
- AppValues.ParseBattery: the `Some`/`None` result is proved for numbers and for the listed string shapes: digits, digits with a unit, and decimal comma or point. Other strings go through the modelled `parseFloat` but have no lemma.
- `getDeviceMeta` reads the global `deviceMeta`. Object-prototype keys (`toString` and the like) are not modelled: only own entries are found.
- CsvExport: the literal header text is a constant built by joining the column names. The exported file is not re-parsed as a whole; each row is shown to read back.
- The report's `generateKmReport` date validation, `populateSelect`, `renderBasesList`, `onZoomBase` and `setStateMetadata` are DOM or in-memory display code and are not modelled.
- `ensureMarker`'s icon choice, the stop badges and the start/end flags are not modelled. Only the stop list, the arrow list and the classification are.
- Concurrency: requests are awaited one at a time in the code, and the model treats each answer as a value.

## Findings

| source | as written | input that shows it | evidently intended | confidence | as-written member | corrected member |
|---|---|---|---|---|---|---|
| app.js:662-730 | `drawRoute` skips points without coordinates when building `latlngs`, but `annotateStops` reads times as `points[i]` with indices into `latlngs` | A route whose first point has no coordinates, followed by three fixes at one place at 1, 2 and 7 minutes: the times read are those of points 0 and 2, 2 minutes apart, so the 6-minute stop is dropped | Take the time of the drawn point, that is, index both lists the same way | not executed | Stops.StopsAsWritten, Stops.MisalignedStopIsLost | Stops.RouteStops |
| bases.js:170-181 | Coordinates are `Number(input.value)`, and only NaN is refused | Eight blank coordinate inputs: `Number('')` is 0, so a base at (0,0) is saved | Refuse blank coordinates, as the message "Completá todas las coordenadas" asks | not executed | Bases.AddBaseAsWritten, Bases.BlankCornersAccepted | Bases.AddBase, Bases.SavedCornersFilled |
