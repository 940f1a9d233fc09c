/**
 * The Reports page (src/pages/Reports.jsx): report rows joined to the device
 * table, the location choices built from the joined rows, and the filters the
 * user applies to them. The page state that the React setters hold is returned
 * as a value.
 */
module Reports {

  import opened Wrappers
  import opened Tables
  import Seqs
  import Collation

  /** A row of the 'reports' table; `reportTime` is an instant in milliseconds, None when the column is empty. */
  datatype Report = Report(reportId: string, deviceId: Option<string>, reportTime: Option<int>, pollutant: Option<string>)

  /** The date cell of a joined row: the '—' placeholder, or the instant it formats. */
  datatype DateCell = Dash | At(instant: int)

  /** One line of the reports table as the page keeps it. */
  datatype Row = Row(id: string, dateGenerated: DateCell, sensorLocation: string, pollutants: string, deviceFound: bool)

  /** What one fetch leaves in the page state. */
  datatype View = View(rawReports: seq<Row>, filteredReports: seq<Row>, locations: seq<string>)

  const UnknownLocation := "Unknown Location"
  const NoValue := "—"
  const AllLocations := "All Locations"
  const AllPollutants := "All"

  /** The state after a failed fetch. */
  const ErrorView := View([], [], [AllLocations])

  // ---------------------------------------------------------------- the join

  /** The device ids looked up for the join: the truthy ids of the reports, each once. */
  function JoinIds(reports: seq<Report>): (ids: seq<string>)
    ensures Seqs.NoDuplicates(ids)
    ensures forall id :: id in ids <==> id != "" && exists r :: r in reports && r.deviceId == Some(id)
    ensures ids == [] <==> forall r :: r in reports ==> !Truthy(r.deviceId)
  {
    var ids := Seqs.Distinct(TruthyKeys(reports, (r: Report) => r.deviceId));
    assert ids != [] ==> ids[0] in ids;
    ids
  }

  /** The device rows the join may use: the table rows whose id was asked for, none when no id was. */
  function JoinDevices(table: seq<DeviceRow>, ids: seq<string>): (devices: seq<DeviceRow>)
    ensures |ids| == 0 ==> devices == []
    ensures forall d :: d in devices <==> d in table && d.deviceId.Some? && d.deviceId.value in ids
  {
    if |ids| > 0 then SelectIn(table, (d: DeviceRow) => d.deviceId, ids) else []
  }

  /** `d` is the last row of `devices` whose id is `k`. */
  ghost predicate IsLastOfKey(devices: seq<DeviceRow>, k: Option<string>, d: DeviceRow)
  {
    exists i :: 0 <= i < |devices| && devices[i] == d && d.deviceId == k &&
      forall j :: i < j < |devices| ==> devices[j].deviceId != k
  }

  /** `new Map(devices.map(d => [d.device_id, d]))`: a later row replaces an earlier one with the same id. */
  function DevicesById(devices: seq<DeviceRow>): (byId: map<Option<string>, DeviceRow>)
    ensures forall k :: k in byId <==> exists d :: d in devices && d.deviceId == k
    ensures forall k :: k in byId ==> byId[k] in devices && byId[k].deviceId == k
    ensures devices != [] ==> byId[devices[|devices| - 1].deviceId] == devices[|devices| - 1]
    ensures forall k :: k in byId ==> IsLastOfKey(devices, k, byId[k])
  {
    if devices == [] then map[]
    else
      var init := devices[..|devices| - 1];
      var last := devices[|devices| - 1];
      assert devices == init + [last];
      var earlier := DevicesById(init);
      var byId := earlier[last.deviceId := last];
      assert forall k :: k in byId ==> IsLastOfKey(devices, k, byId[k]) by {
        forall k | k in byId ensures IsLastOfKey(devices, k, byId[k]) {
          if k == last.deviceId {
            LastRowIsLastOfKey(init, last);
          } else {
            IsLastOfKeyExtend(init, last, k, earlier[k]);
          }
        }
      }
      byId
  }

  lemma LastRowIsLastOfKey(init: seq<DeviceRow>, last: DeviceRow)
    ensures IsLastOfKey(init + [last], last.deviceId, last)
  {
    assert (init + [last])[|init|] == last;
  }

  lemma IsLastOfKeyExtend(init: seq<DeviceRow>, last: DeviceRow, k: Option<string>, d: DeviceRow)
    requires IsLastOfKey(init, k, d) && last.deviceId != k
    ensures IsLastOfKey(init + [last], k, d)
  {
    var i :| 0 <= i < |init| && init[i] == d && d.deviceId == k &&
             forall j :: i < j < |init| ==> init[j].deviceId != k;
    assert (init + [last])[i] == d;
  }

  /** The device a report joins to; a report whose device id is falsy joins to none. */
  function DeviceOf(rep: Report, byId: map<Option<string>, DeviceRow>): Option<DeviceRow>
  {
    if Truthy(rep.deviceId) && rep.deviceId in byId then Some(byId[rep.deviceId]) else None
  }

  /** The row the page shows for one report. */
  function JoinRow(rep: Report, byId: map<Option<string>, DeviceRow>): Row
  {
    var device := DeviceOf(rep, byId);
    Row(rep.reportId,
        if rep.reportTime.Some? then At(rep.reportTime.value) else Dash,
        if device.Some? && device.value.location.Some? then device.value.location.value else UnknownLocation,
        if rep.pollutant.Some? then rep.pollutant.value else NoValue,
        device.Some?)
  }

  function Join(reports: seq<Report>, byId: map<Option<string>, DeviceRow>): seq<Row>
  {
    seq(|reports|, i requires 0 <= i < |reports| => JoinRow(reports[i], byId))
  }

  // ------------------------------------------------------- the location list

  /**
   * The location choices: 'All Locations', then every non-empty location of the
   * rows once, in ascending collation order.
   */
  function LocationList(rows: seq<Row>, le: (string, string) -> bool): (locations: seq<string>)
    requires Collation.IsTotalOrder(le)
    ensures |locations| >= 1 && locations[0] == AllLocations
    ensures Collation.Sorted(locations[1..], le)
    ensures Seqs.NoDuplicates(locations[1..])
    ensures forall l :: l in locations[1..] <==> l != "" && exists r :: r in rows && r.sensorLocation == l
  {
    var unique := Seqs.Distinct(TruthyKeys(rows, (r: Row) => Some(r.sensorLocation)));
    var sorted := Collation.Sort(unique, le);
    Seqs.PermutationKeepsNoDuplicates(unique, sorted);
    SameElements(unique, sorted);
    var locations := [AllLocations] + sorted;
    assert locations[1..] == sorted;
    locations
  }

  lemma SameElements(s: seq<string>, t: seq<string>)
    requires multiset(s) == multiset(t)
    ensures forall x :: x in s <==> x in t
  {
    forall x ensures x in s <==> x in t {
      assert x in s <==> x in multiset(s);
      assert x in t <==> x in multiset(t);
    }
  }

  /**
   * `fetchData`: on success the joined rows become both the raw and the
   * filtered list, and the location list is rebuilt; any failed query leaves
   * the error state. The device query runs only when some report names a device.
   */
  function FetchData(reportsResp: Response<Report>, devicesResp: Response<DeviceRow>, le: (string, string) -> bool): (v: View)
    requires Collation.IsTotalOrder(le)
    ensures v.filteredReports == v.rawReports
    ensures |v.locations| >= 1 && v.locations[0] == AllLocations
    ensures v.locations == LocationList(v.rawReports, le)
    ensures reportsResp.Failed? ==> v == ErrorView
    ensures reportsResp.Fetched? && |JoinIds(reportsResp.rows)| > 0 && devicesResp.Failed? ==> v == ErrorView
    ensures reportsResp.Fetched? && (|JoinIds(reportsResp.rows)| == 0 || devicesResp.Fetched?) ==>
              |v.rawReports| == |reportsResp.rows|
  {
    match reportsResp
    case Failed(_) => ErrorView
    case Fetched(reports) =>
      var ids := JoinIds(reports);
      if |ids| > 0 && devicesResp.Failed? then ErrorView
      else
        var devices := JoinDevices(if devicesResp.Fetched? then devicesResp.rows else [], ids);
        var joined := Join(reports, DevicesById(devices));
        View(joined, joined, LocationList(joined, le))
  }

  /**
   * Each joined row describes the report at the same position: its id, its
   * date or '—', its pollutant or '—', and a location taken from a device row
   * with the report's id when such a row exists, 'Unknown Location' otherwise.
   */
  lemma JoinedRowMeaning(reports: seq<Report>, table: seq<DeviceRow>, le: (string, string) -> bool, i: int)
    requires Collation.IsTotalOrder(le)
    requires 0 <= i < |reports|
    ensures var v := FetchData(Fetched(reports), Fetched(table), le);
            var row := v.rawReports[i];
            var rep := reports[i];
            && |v.rawReports| == |reports|
            && row.id == rep.reportId
            && (row.dateGenerated == Dash <==> rep.reportTime.None?)
            && (rep.reportTime.Some? ==> row.dateGenerated == At(rep.reportTime.value))
            && (rep.pollutant.None? ==> row.pollutants == NoValue)
            && (rep.pollutant.Some? ==> row.pollutants == rep.pollutant.value)
            && (row.deviceFound <==> Truthy(rep.deviceId) && exists d :: d in table && d.deviceId == rep.deviceId)
            && (!row.deviceFound ==> row.sensorLocation == UnknownLocation)
            && (row.deviceFound ==>
                  exists d :: d in table && d.deviceId == rep.deviceId &&
                    row.sensorLocation == (if d.location.Some? then d.location.value else UnknownLocation))
  {
    var rep := reports[i];
    var ids := JoinIds(reports);
    var devices := JoinDevices(table, ids);
    var byId := DevicesById(devices);
    assert FetchData(Fetched(reports), Fetched(table), le).rawReports[i] == JoinRow(rep, byId);
    if Truthy(rep.deviceId) {
      assert rep in reports;
      assert rep.deviceId.value in ids;
      if rep.deviceId in byId {
        var d := byId[rep.deviceId];
        assert d in table && d.deviceId == rep.deviceId;
      }
    }
  }

  /** When no report names a device, the device table is never consulted and every row is 'Unknown Location'. */
  lemma NoDeviceIdsNoDevices(reports: seq<Report>, devicesResp: Response<DeviceRow>, le: (string, string) -> bool)
    requires Collation.IsTotalOrder(le)
    requires forall r :: r in reports ==> !Truthy(r.deviceId)
    ensures var v := FetchData(Fetched(reports), devicesResp, le);
            && v == FetchData(Fetched(reports), Fetched([]), le)
            && |v.rawReports| == |reports|
            && forall row :: row in v.rawReports ==> row.sensorLocation == UnknownLocation && !row.deviceFound
  {
    var ids := JoinIds(reports);
    assert JoinDevices(if devicesResp.Fetched? then devicesResp.rows else [], ids) == [];
    var joined := Join(reports, DevicesById([]));
    forall row | row in joined ensures row.sensorLocation == UnknownLocation && !row.deviceFound {
      var k :| 0 <= k < |joined| && joined[k] == row;
      assert reports[k] in reports;
    }
  }

  // ---------------------------------------------------------------- filters

  datatype Filters = Filters(startDate: string, endDate: string, sensorLocation: string, pollutant: string)

  datatype FilterField = StartDate | EndDate | SensorLocation | Pollutant

  function FieldValue(f: Filters, field: FilterField): string
  {
    match field
    case StartDate => f.startDate
    case EndDate => f.endDate
    case SensorLocation => f.sensorLocation
    case Pollutant => f.pollutant
  }

  /** `handleFilterChange`: a copy of the filters with one field replaced. */
  function HandleFilterChange(f: Filters, field: FilterField, value: string): (g: Filters)
    ensures FieldValue(g, field) == value
    ensures forall other :: other != field ==> FieldValue(g, other) == FieldValue(f, other)
  {
    match field
    case StartDate => f.(startDate := value)
    case EndDate => f.(endDate := value)
    case SensorLocation => f.(sensorLocation := value)
    case Pollutant => f.(pollutant := value)
  }

  /*
   * Time. Instants are milliseconds since 1970-01-01T00:00Z. The browser's zone
   * is a fixed `offset` in milliseconds ahead of UTC (the deployment's zone,
   * Asia/Manila, is UTC+8 and has no daylight saving). A date input's value
   * 'YYYY-MM-DD' names a calendar day; `dayOf` gives its day count since
   * 1970-01-01.
   */

  const DayMs: int := 86_400_000

  /** The local calendar day holding instant `t`. */
  function LocalDay(t: int, offset: int): int
  {
    (t + offset) / DayMs
  }

  /** The first instant of local calendar day `day`. */
  function LocalMidnight(day: int, offset: int): int
  {
    day * DayMs - offset
  }

  /** `new Date('YYYY-MM-DD')`: a date-only string denotes midnight UTC of that day. */
  function UtcMidnight(day: int): int
  {
    day * DayMs
  }

  /** `d.setHours(23, 59, 59, 999)`: the last millisecond of the local day holding `t`. */
  function EndOfLocalDay(t: int, offset: int): (e: int)
    ensures LocalDay(e, offset) == LocalDay(t, offset)
    ensures LocalDay(e + 1, offset) == LocalDay(t, offset) + 1
    ensures t <= e
  {
    LocalMidnight(LocalDay(t, offset), offset) + DayMs - 1
  }

  /** The date range applies only when both ends are filled in. */
  predicate DateFilterActive(f: Filters)
  {
    f.startDate != "" && f.endDate != ""
  }

  /**
   * The date test as written: the start is midnight UTC of the start date, the
   * end the last millisecond of the local day that holds midnight UTC of the end
   * date. That day is the end date itself at or east of UTC, and the day before
   * it west of UTC.
   */
  predicate InRangeAsWritten(t: int, f: Filters, dayOf: string -> int, offset: int): (r: bool)
    ensures r <==> UtcMidnight(dayOf(f.startDate)) <= t &&
                   LocalDay(t, offset) <= LocalDay(UtcMidnight(dayOf(f.endDate)), offset)
    ensures 0 <= offset < DayMs ==>
              (r <==> UtcMidnight(dayOf(f.startDate)) <= t && LocalDay(t, offset) <= dayOf(f.endDate))
    ensures -DayMs <= offset < 0 ==>
              (r <==> UtcMidnight(dayOf(f.startDate)) <= t && LocalDay(t, offset) < dayOf(f.endDate))
  {
    var start := UtcMidnight(dayOf(f.startDate));
    var end := EndOfLocalDay(UtcMidnight(dayOf(f.endDate)), offset);
    !(t < start || t > end)
  }

  /** The date test with both bounds on the local calendar: from local midnight of the start day to the end of the end day. */
  predicate InRange(t: int, f: Filters, dayOf: string -> int, offset: int)
  {
    var start := LocalMidnight(dayOf(f.startDate), offset);
    var end := EndOfLocalDay(LocalMidnight(dayOf(f.endDate), offset), offset);
    !(t < start || t > end)
  }

  /** The corrected range holds exactly the instants whose local day lies between the two chosen dates, both included. */
  lemma InRangeIsWholeLocalDays(t: int, f: Filters, dayOf: string -> int, offset: int)
    ensures InRange(t, f, dayOf, offset) <==> dayOf(f.startDate) <= LocalDay(t, offset) <= dayOf(f.endDate)
  {
  }

  /**
   * As written, in any zone east of UTC the start bound falls `offset` after
   * local midnight: local midnight of the start day is excluded although it
   * lies on the start day.
   */
  lemma AsWrittenStartSkipsLocalMorning(f: Filters, dayOf: string -> int, offset: int)
    requires 0 < offset < DayMs
    ensures var t := LocalMidnight(dayOf(f.startDate), offset);
            && LocalDay(t, offset) == dayOf(f.startDate)
            && !InRangeAsWritten(t, f, dayOf, offset)
            && (dayOf(f.startDate) <= dayOf(f.endDate) ==> InRange(t, f, dayOf, offset))
  {
  }

  /**
   * As written, in any zone west of UTC the end bound is the last millisecond
   * of the day before the end date: no instant of the end day passes, so with
   * the same start and end date the chosen day is dropped entirely.
   */
  lemma AsWrittenEndDropsEndDayWestOfUtc(t: int, f: Filters, dayOf: string -> int, offset: int)
    requires -DayMs < offset < 0
    requires LocalDay(t, offset) == dayOf(f.endDate)
    ensures !InRangeAsWritten(t, f, dayOf, offset)
    ensures dayOf(f.startDate) <= dayOf(f.endDate) ==> InRange(t, f, dayOf, offset)
  {
    InRangeIsWholeLocalDays(t, f, dayOf, offset);
  }

  /** The location test: 'All Locations' or an exact match. */
  predicate LocationMatches(row: Row, f: Filters)
  {
    f.sensorLocation == AllLocations || row.sensorLocation == f.sensorLocation
  }

  /** The pollutant test: 'All', or a non-empty pollutant text containing the chosen pollutant. */
  predicate PollutantMatches(row: Row, f: Filters)
  {
    f.pollutant == AllPollutants || (row.pollutants != "" && Seqs.Contains(row.pollutants, f.pollutant))
  }

  /** The predicate `applyFilters` keeps a row by: every active filter must pass; a '—' date never fails the date test. */
  predicate Keep(row: Row, f: Filters, dayOf: string -> int, offset: int)
  {
    && (DateFilterActive(f) && row.dateGenerated.At? ==> InRange(row.dateGenerated.instant, f, dayOf, offset))
    && LocationMatches(row, f)
    && PollutantMatches(row, f)
  }

  /** `applyFilters`: the rows that pass every active filter, in their original order. */
  function ApplyFilters(rawReports: seq<Row>, f: Filters, dayOf: string -> int, offset: int): (filtered: seq<Row>)
    ensures Seqs.IsSubsequence(filtered, rawReports)
    ensures forall row :: multiset(filtered)[row] == if Keep(row, f, dayOf, offset) then multiset(rawReports)[row] else 0
    ensures forall row :: row in filtered <==>
              && row in rawReports
              && (DateFilterActive(f) && row.dateGenerated.At? ==>
                    dayOf(f.startDate) <= LocalDay(row.dateGenerated.instant, offset) <= dayOf(f.endDate))
              && LocationMatches(row, f)
              && PollutantMatches(row, f)
  {
    forall t | true
      ensures InRange(t, f, dayOf, offset) <==> dayOf(f.startDate) <= LocalDay(t, offset) <= dayOf(f.endDate)
    {
      InRangeIsWholeLocalDays(t, f, dayOf, offset);
    }
    Seqs.Filter(rawReports, (row: Row) => Keep(row, f, dayOf, offset))
  }

  /** With 'All Locations', 'All' pollutants and a date bound left empty, filtering changes nothing. */
  lemma OpenFiltersKeepEverything(rawReports: seq<Row>, f: Filters, dayOf: string -> int, offset: int)
    requires f.sensorLocation == AllLocations && f.pollutant == AllPollutants
    requires f.startDate == "" || f.endDate == ""
    ensures ApplyFilters(rawReports, f, dayOf, offset) == rawReports
  {
    Seqs.FilterKeepsAll(rawReports, (row: Row) => Keep(row, f, dayOf, offset));
  }

}
