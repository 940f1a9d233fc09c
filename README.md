# BerdeAir dashboard: report, sensor and login logic in Dafny

BerdeAir is a dashboard for a campus air-quality network at De La Salle Lipa. Its pages read
rows from hosted tables (`reports`, `Arduino devices`, `air_quality_readings`) and show them.
This project models the three pages that compute anything:

- **Reports** (`reports.dfy`). Reports are joined to their devices by `device_id`, with defaults
  for missing fields. The location drop-down is built from the joined rows. The Apply Filters
  button keeps the rows that pass a date range, a location and a pollutant filter, all of them.
- **Sensor Settings** (`sensor_settings.dfy`). Device rows become sensors. A sensor is Active
  exactly when its device has a reading from the last ten minutes. The visible list is searched
  case-insensitively and then ordered by one of four options. The ordering is an insertion sort,
  done in place on a copied array.
- **Login** (`login.dfy`). An (email, password) submission is sorted into admin, student or
  rejected, with a fixed precedence.

Shared pieces:

- `tables.dfy` holds the table rows, query responses, JavaScript truthiness and `.in(...)` selection.
- `seqs.dfy` holds `filter`, `new Set`, `includes` and `endsWith`.
- `collation.dfy` holds the string order behind `localeCompare` and a sort over it.
- `wrappers.dfy` holds `Option`, which stands for NULL or undefined.

The Dashboard, Alerts and Historical Data pages are fixed markup, and the `THRESHOLDS` table in
Sensor Settings is display text only, so no reading classification or time bucketing is
modelled.

Modelling conventions:

- A hosted-table query is a `Response`: `Failed(message)` or `Fetched(rows)`. The query's
  filters (`.in`, `.gte`) are applied to the given rows. Values that React keeps with `useState`
  are returned as a `View`.
- Instants are integer milliseconds. The browser's zone is a fixed offset from UTC; Asia/Manila
  is UTC+8 and has no daylight saving. A date input `YYYY-MM-DD` stands for a day count through
  the parameter `dayOf`.
- `localeCompare` is a parameter `le`, assumed to be a total order in which only equal strings
  compare as equal. `toLowerCase` is a parameter `lower`.

## Model

| member | source | states |
|---|---|---|
| `Seqs.Filter` | src/pages/Reports.jsx:112-136 | `Array.prototype.filter`: the result is an order-preserving subsequence; each element occurs as often as in the input if it passes, and not at all otherwise |
| `Seqs.Distinct` | src/pages/Reports.jsx:39-41 | `Array.from(new Set(...))`: no element twice, and exactly the input's elements |
| `Tables.TruthyKeys` | src/pages/Reports.jsx:39-41 | `.map(key).filter(Boolean)`: exactly the non-empty keys present in the rows |
| `Tables.SelectIn` | src/pages/Reports.jsx:46-49 | `.in(column, ids)`: exactly the rows whose key is one of the ids, in table order, each as often as in the table |
| `Collation.Sort` | src/pages/Reports.jsx:83 | sorting by `localeCompare` yields a permutation of its input in ascending order |
| `Reports.JoinIds` | src/pages/Reports.jsx:39-41 | the ids used for the join are distinct, non-empty, and exactly the ids some report names; the list is empty iff no report has a truthy device id |
| `Reports.JoinDevices` | src/pages/Reports.jsx:44-52 | with no id to ask for, no device row is used; otherwise exactly the table rows whose id was asked for |
| `Reports.DevicesById` | src/pages/Reports.jsx:54 | `new Map(entries)`: the map's keys are exactly the ids of the device rows; each key maps to the last row with that id, so the final row always wins its key |
| `Reports.FetchData` | src/pages/Reports.jsx:24-93 | both lists get the same joined rows; the locations are the location list of those rows, starting with 'All Locations'; a failed query leaves empty lists and only 'All Locations'; otherwise there is one row per report |
| `Reports.JoinedRowMeaning` | src/pages/Reports.jsx:57-75 | row i has id = `report_id`, date '—' iff `report_time` is missing, pollutant '—' iff missing; `_deviceFound` iff the report's id is truthy and a device row has it; the location is that device's location or 'Unknown Location' |
| `Reports.NoDeviceIdsNoDevices` | src/pages/Reports.jsx:44-75 | when no report names a device, the device query's outcome does not matter and every row is 'Unknown Location' and not found |
| `Reports.LocationList` | src/pages/Reports.jsx:81-84 | 'All Locations' first, then each non-empty location of the rows once, in ascending order, and nothing else |
| `Reports.HandleFilterChange` | src/pages/Reports.jsx:107-109 | the chosen field takes the new value and every other field is unchanged |
| `Reports.EndOfLocalDay` | src/pages/Reports.jsx:117-118 | `setHours(23, 59, 59, 999)` gives the last millisecond of the local day: same day, the next millisecond is the next day, not before the input |
| `Reports.InRangeIsWholeLocalDays` | src/pages/Reports.jsx:114-119 | the corrected date test holds iff the instant's local day lies between the start and end dates, both included |
| `Reports.InRangeAsWritten` | src/pages/Reports.jsx:114-119 | the date test as written holds iff the instant is at or after midnight UTC of the start date and its local day is not after the local day of the end date's UTC midnight; for offsets in [0, 24h) that day is the end date itself, and for offsets in [-24h, 0) it is the day before |
| `Reports.AsWrittenStartSkipsLocalMorning` | src/pages/Reports.jsx:115-119 | as written, east of UTC, local midnight of the start day lies on the start day and fails the date test, while the corrected test keeps it whenever the range is not empty |
| `Reports.AsWrittenEndDropsEndDayWestOfUtc` | src/pages/Reports.jsx:117-119 | as written, west of UTC, no instant of the end date's local day passes the date test, while the corrected test keeps each one whenever the range is not empty |
| `Reports.ApplyFilters` | src/pages/Reports.jsx:111-136 | an order-preserving subsequence of the rows; a row is kept iff it passes every active filter: the date's local day within the chosen dates when both are set ('—' dates always pass); the location equal unless 'All Locations'; a non-empty pollutant text containing the choice unless 'All' |
| `Reports.OpenFiltersKeepEverything` | src/pages/Reports.jsx:114-133 | with 'All Locations', 'All' and a date bound empty, filtering returns the rows unchanged |
| `SensorSettings.DeviceIds` | src/pages/SensorSettings.jsx:35-37 | exactly the non-empty device ids of the device rows; empty iff no row has a truthy id |
| `SensorSettings.ActiveSet` | src/pages/SensorSettings.jsx:39-52 | an id is active iff it is non-empty, belongs to a device row, and has a reading at or after the cut-off |
| `SensorSettings.FetchDevices` | src/pages/SensorSettings.jsx:24-76 | a failed query leaves no sensors and its message; no error exactly when the device query succeeds and either no id is truthy or the readings query succeeds, and then there is one sensor per device row; 'Active' status iff `isActive` |
| `SensorSettings.NoDeviceIdsReadingsIgnored` | src/pages/SensorSettings.jsx:35-64 | when no device row has a truthy id, the readings response does not matter: one sensor per row, no error, every sensor inactive |
| `SensorSettings.SensorMeaning` | src/pages/SensorSettings.jsx:51-64 | sensor i has the row's id, its name or 'Unnamed Device', its location or '—', and is active iff its id is truthy and has a reading in the last ten minutes |
| `SensorSettings.Search` | src/pages/SensorSettings.jsx:91-98 | a blank query keeps every sensor; otherwise an order-preserving subsequence holding each sensor whose lower-cased name, id or location contains the lower-cased query as often as the input does, and no other |
| `SensorSettings.BeforeTotal` | src/pages/SensorSettings.jsx:101-117 | any two sensors are ordered one way or the other by each comparator |
| `SensorSettings.BeforeTransitive` | src/pages/SensorSettings.jsx:101-117 | each comparator is transitive, including status-then-name |
| `SensorSettings.AdjacentSortedIsSorted` | src/pages/SensorSettings.jsx:101-117 | neighbours in comparator order put the whole list in comparator order |
| `SensorSettings.SortInPlace` | src/pages/SensorSettings.jsx:101-120 | `list.sort(comparator)` leaves a permutation of the array, ordered by the chosen comparator |
| `SensorSettings.VisibleSensors` | src/pages/SensorSettings.jsx:87-123 | a new array holding a permutation of the searched list, exactly the matching sensors; 'Name (A-Z)' ascending by name, 'Name (Z-A)' descending, 'Status' every active sensor before every inactive one and by name within each group, 'Location' ascending by location; any other option keeps the searched order |
| `Login.HandleLogin` | src/pages/Login.jsx:14-37 | exactly one outcome: an empty field is rejected as missing; admin iff the exact pair is an admin account; student iff not admin and the email ends in '@dlsl.edu.ph'; invalid otherwise; a granted role carries the email entered |
| `Login.AdminEmailsAreCampus` | src/pages/Login.jsx:8-12 | every admin address ends in '@dlsl.edu.ph' |
| `Login.GrantedOnlyOnCampus` | src/pages/Login.jsx:17-33 | any granted role implies a campus address and a non-empty password |
| `Login.AdminWrongPasswordIsStudent` | src/pages/Login.jsx:22-33 | an admin address with any other non-empty password is granted 'student' |
| `Login.AdminOnlyForAdminEmail` | src/pages/Login.jsx:22-28 | 'admin' is granted only to an address of the admin list |

## Left out

- Hosted-table access, `async`/`await`, `useEffect`/`useCallback`/`useMemo` and the `loading`/`refreshing` flags are left out: they are I/O and framework plumbing. Query results are input `Response`s.
- The order of a query's rows is not modelled. `.in(...)` keeps table order here, but the database promises no order; that order only decides which row wins in `DevicesById` when two device rows share an id.
- A `null` `data` is modelled as `Fetched([])`, which is what `data || []` and `?? []` turn it into. At src/pages/Reports.jsx:36 any non-array reports `data` becomes `[]` as well. A non-null `data` that is not an array is not modelled elsewhere: there `.map` throws and the page ends in its error state.
- The round trip of the date cell through `toLocaleString` and `new Date(...)` is not modelled: it depends on the locale. A joined row keeps the instant itself. The loss of milliseconds in that round trip is not modelled, and neither is the 'Invalid Date' cell of an unparsable `report_time`.
- Date arithmetic assumes a fixed UTC offset and no daylight saving.
- `localeCompare` and `toLowerCase` are parameters, since both depend on the locale. `String.prototype.trim` is modelled with its full set of white-space characters.
- The `aqiSummary` (always `null`) and `status` (always `''`) fields of a joined row are left out: they are constant.
- `handleDownload`, `handleEdit`, `handleAddSensor` and `handleManualRefresh` are left out: they only call `alert`/`console` or re-run the fetch. The `alert` texts of Login are the two `Rejection` values. `onLoginSuccess` is the `Granted` outcome.
- `handleFilterChange` with a key outside the four filter fields is left out; the page never passes one.
- ApplyFilters: uses local-midnight bounds at both ends, as in the findings below. As written, the start is midnight UTC, and west of UTC the end bound is the end of the day before the end date.
- SortInPlace: does not state that sensors the comparator ranks equal keep their relative order, although `Array.prototype.sort` is stable (the adjacent-swap loop only swaps strictly out-of-order pairs).
- VisibleSensors: does not state that sensors the comparator ranks equal keep their searched order, for the same reason as SortInPlace.
- The `THRESHOLDS` display strings, the placeholder Dashboard, Alerts, Historical Data and Settings pages, routing, the sidebar, the alerts hook, `predict.js` and the FastAPI prediction server are not part of this model. They hold no logic of these pages, or do floating-point model inference.

## Findings

| source | as written | input that shows it | evidently intended | confidence | as-written member | corrected member |
|---|---|---|---|---|---|---|
| src/pages/Reports.jsx:115-119 | `new Date(filters.startDate)` on a `YYYY-MM-DD` value is midnight UTC. The end bound is extended to 23:59:59.999 in local time. In a zone east of UTC the range therefore starts `offset` after local midnight. | In Asia/Manila (UTC+8), start = end = 2025-01-10. A report at 2025-01-10 03:00 local time lies on the chosen day, but it is earlier than the start bound (08:00 local), so it is dropped. | Every report whose local date lies between the chosen dates is kept, both days whole, as the end-of-day extension shows. | not executed; high | `Reports.AsWrittenStartSkipsLocalMorning` | `Reports.InRangeIsWholeLocalDays` |
| src/pages/Reports.jsx:117-119 | The end bound is `setHours(23, 59, 59, 999)` applied to midnight UTC of the end date. West of UTC that instant lies on the local day before the end date, so the range ends a whole day early. | In New York in winter (UTC-5), start = end = 2025-01-10. Every report on 2025-01-10 local time is later than the end bound (2025-01-09 23:59:59.999 local), so the chosen day shows nothing. | Every report whose local date lies between the chosen dates is kept, both days whole. | not executed; high | `Reports.AsWrittenEndDropsEndDayWestOfUtc` | `Reports.InRangeIsWholeLocalDays` |
