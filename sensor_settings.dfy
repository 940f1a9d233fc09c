/**
 * The Sensor Settings page (src/pages/SensorSettings.jsx): device rows turned
 * into sensors marked active or inactive from recent readings, and the visible
 * list built from them by a search and one of four orderings.
 */
module SensorSettings {

  import opened Wrappers
  import opened Tables
  import Seqs
  import Collation

  /** A row of 'air_quality_readings', reduced to the columns the page selects; `timestamp` in milliseconds. */
  datatype Reading = Reading(deviceId: Option<string>, timestamp: int)

  /** A sensor as the page lists it. */
  datatype Sensor = Sensor(id: Option<string>, name: string, location: string, status: string, isActive: bool)

  /** What one fetch leaves in the page state: the sensors and the error message, if any. */
  datatype View = View(sensors: seq<Sensor>, error: Option<string>)

  const UnnamedDevice := "Unnamed Device"
  const NoLocation := "—"
  const Active := "Active"
  const Inactive := "Inactive"

  /** A device is active when it has a reading in the ten minutes before now. */
  const RecentWindowMs: int := 10 * 60 * 1000

  const ByNameAsc := "Name (A-Z)"
  const ByNameDesc := "Name (Z-A)"
  const ByStatus := "Status"
  const ByLocation := "Location"

  // ------------------------------------------------------ device-to-sensor

  /** The truthy device ids, in table order. */
  function DeviceIds(deviceRows: seq<DeviceRow>): (ids: seq<string>)
    ensures forall id :: id in ids <==> id != "" && exists d :: d in deviceRows && d.deviceId == Some(id)
    ensures ids == [] <==> forall d :: d in deviceRows ==> !Truthy(d.deviceId)
  {
    var ids := TruthyKeys(deviceRows, (d: DeviceRow) => d.deviceId);
    assert ids != [] ==> ids[0] in ids;
    ids
  }

  /**
   * The ids of the devices heard from at or after `since`: the readings query
   * selects by the truthy device ids and by time, and runs only when there is
   * some such id.
   */
  function ActiveSet(deviceRows: seq<DeviceRow>, readings: seq<Reading>, since: int): (active: set<Option<string>>)
    ensures forall id :: id in active <==>
              && Truthy(id)
              && (exists d :: d in deviceRows && d.deviceId == id)
              && (exists r :: r in readings && r.deviceId == id && r.timestamp >= since)
  {
    var ids := DeviceIds(deviceRows);
    if |ids| == 0 then {}
    else
      var recent := Seqs.Filter(SelectIn(readings, (r: Reading) => r.deviceId, ids), (r: Reading) => r.timestamp >= since);
      set r | r in recent :: r.deviceId
  }

  /** The sensor shown for one device row. */
  function ToSensor(row: DeviceRow, active: set<Option<string>>): Sensor
  {
    var isActive := row.deviceId in active;
    Sensor(row.deviceId,
           OrElse(row.deviceName, UnnamedDevice),
           OrElse(row.location, NoLocation),
           if isActive then Active else Inactive,
           isActive)
  }

  /**
   * `fetchDevices` at time `now`: one sensor per device row, or the error state
   * with the failing query's message.
   */
  function FetchDevices(devicesResp: Response<DeviceRow>, readingsResp: Response<Reading>, now: int): (v: View)
    ensures devicesResp.Failed? ==> v == View([], Some(devicesResp.message))
    ensures devicesResp.Fetched? && |DeviceIds(devicesResp.rows)| > 0 && readingsResp.Failed? ==>
              v == View([], Some(readingsResp.message))
    ensures v.error.None? ==> devicesResp.Fetched? && |v.sensors| == |devicesResp.rows|
    ensures devicesResp.Fetched? && (|DeviceIds(devicesResp.rows)| == 0 || readingsResp.Fetched?) ==>
              v.error.None? && |v.sensors| == |devicesResp.rows|
    ensures forall s :: s in v.sensors ==> (s.status == Active <==> s.isActive) && (s.status == Inactive <==> !s.isActive)
  {
    match devicesResp
    case Failed(message) => View([], Some(message))
    case Fetched(rows) =>
      if |DeviceIds(rows)| > 0 && readingsResp.Failed? then View([], Some(readingsResp.message))
      else
        var readings := if readingsResp.Fetched? then readingsResp.rows else [];
        var active := ActiveSet(rows, readings, now - RecentWindowMs);
        View(seq(|rows|, i requires 0 <= i < |rows| => ToSensor(rows[i], active)), None)
  }

  /**
   * Sensor `i` stands for device row `i`: the same id, the name and location or
   * their defaults, and active exactly when that device has a reading in the
   * last ten minutes.
   */
  lemma SensorMeaning(rows: seq<DeviceRow>, readings: seq<Reading>, now: int, i: int)
    requires 0 <= i < |rows|
    ensures var v := FetchDevices(Fetched(rows), Fetched(readings), now);
            var s := v.sensors[i];
            var row := rows[i];
            && v.error.None? && |v.sensors| == |rows|
            && s.id == row.deviceId
            && s.name == (if Truthy(row.deviceName) then row.deviceName.value else UnnamedDevice)
            && s.location == (if Truthy(row.location) then row.location.value else NoLocation)
            && (s.isActive <==>
                  Truthy(row.deviceId) &&
                  exists r :: r in readings && r.deviceId == row.deviceId && now - RecentWindowMs <= r.timestamp)
            && (s.status == Active <==> s.isActive)
  {
  }

  /**
   * When no device row has a truthy id, the readings query is never sent: its
   * response does not matter, and every sensor is shown as inactive.
   */
  lemma NoDeviceIdsReadingsIgnored(rows: seq<DeviceRow>, readingsResp: Response<Reading>, now: int)
    requires forall d :: d in rows ==> !Truthy(d.deviceId)
    ensures var v := FetchDevices(Fetched(rows), readingsResp, now);
            && v == FetchDevices(Fetched(rows), Fetched([]), now)
            && v.error.None? && |v.sensors| == |rows|
            && forall s :: s in v.sensors ==> !s.isActive && s.status == Inactive
  {
  }

  // ---------------------------------------------------------------- search

  /** The characters `String.prototype.trim` removes: white space and line terminators. */
  const Whitespace: set<char> := {
    '\t', '\n', '\U{B}', '\U{C}', '\r', ' ', '\U{A0}', '\U{1680}',
    '\U{2000}', '\U{2001}', '\U{2002}', '\U{2003}', '\U{2004}', '\U{2005}', '\U{2006}',
    '\U{2007}', '\U{2008}', '\U{2009}', '\U{200A}', '\U{2028}', '\U{2029}', '\U{202F}',
    '\U{205F}', '\U{3000}', '\U{FEFF}'
  }

  /** `query.trim()` is empty. */
  predicate Blank(query: string)
  {
    forall i :: 0 <= i < |query| ==> query[i] in Whitespace
  }

  /** The lower-cased query `q` occurs in the lower-cased name, id or location; a missing id reads as ''. */
  predicate Matches(s: Sensor, q: string, lower: string -> string)
  {
    || Seqs.Contains(lower(s.name), q)
    || Seqs.Contains(lower(OrElse(s.id, "")), q)
    || Seqs.Contains(lower(s.location), q)
  }

  /**
   * The search step of `visibleSensors`: a blank query keeps every sensor;
   * otherwise the sensors that match the lower-cased (untrimmed) query, in order.
   */
  function Search(sensors: seq<Sensor>, searchQuery: string, lower: string -> string): (list: seq<Sensor>)
    ensures Blank(searchQuery) ==> list == sensors
    ensures Seqs.IsSubsequence(list, sensors)
    ensures forall x :: multiset(list)[x] ==
              if Blank(searchQuery) || Matches(x, lower(searchQuery), lower) then multiset(sensors)[x] else 0
    ensures forall s :: s in list <==> s in sensors && (Blank(searchQuery) || Matches(s, lower(searchQuery), lower))
  {
    if Blank(searchQuery) then
      Seqs.SubsequenceOfItself(sensors);
      sensors
    else
      var q := lower(searchQuery);
      Seqs.Filter(sensors, (s: Sensor) => Matches(s, q, lower))
  }

  // ------------------------------------------------------------------ sort

  predicate IsSortOption(sortBy: string)
  {
    sortBy == ByNameAsc || sortBy == ByNameDesc || sortBy == ByStatus || sortBy == ByLocation
  }

  /** The comparator of option `sortBy` puts `a` at or before `b` (it returns a value <= 0). */
  predicate Before(sortBy: string, a: Sensor, b: Sensor, le: (string, string) -> bool)
  {
    if sortBy == ByNameAsc then le(a.name, b.name)
    else if sortBy == ByNameDesc then le(b.name, a.name)
    else if sortBy == ByStatus then (a.isActive && !b.isActive) || (a.isActive == b.isActive && le(a.name, b.name))
    else if sortBy == ByLocation then le(a.location, b.location)
    else true
  }

  lemma BeforeTotal(sortBy: string, a: Sensor, b: Sensor, le: (string, string) -> bool)
    requires Collation.IsTotalOrder(le)
    ensures Before(sortBy, a, b, le) || Before(sortBy, b, a, le)
  {
  }

  lemma BeforeTransitive(sortBy: string, a: Sensor, b: Sensor, c: Sensor, le: (string, string) -> bool)
    requires Collation.IsTotalOrder(le)
    requires Before(sortBy, a, b, le) && Before(sortBy, b, c, le)
    ensures Before(sortBy, a, c, le)
  {
  }

  predicate AdjacentSorted(s: seq<Sensor>, sortBy: string, le: (string, string) -> bool)
  {
    forall k :: 0 < k < |s| ==> Before(sortBy, s[k - 1], s[k], le)
  }

  predicate SortedBy(s: seq<Sensor>, sortBy: string, le: (string, string) -> bool)
  {
    forall i, j :: 0 <= i < j < |s| ==> Before(sortBy, s[i], s[j], le)
  }

  /** Neighbours in order make the whole sequence in order, the comparator being transitive. */
  lemma {:induction false} AdjacentSortedIsSorted(s: seq<Sensor>, sortBy: string, le: (string, string) -> bool)
    requires Collation.IsTotalOrder(le)
    requires AdjacentSorted(s, sortBy, le)
    ensures SortedBy(s, sortBy, le)
  {
    if |s| > 1 {
      var t := s[1..];
      assert AdjacentSorted(t, sortBy, le) by {
        forall k | 0 < k < |t| ensures Before(sortBy, t[k - 1], t[k], le) {
          assert t[k - 1] == s[k] && t[k] == s[k + 1];
        }
      }
      AdjacentSortedIsSorted(t, sortBy, le);
      forall i, j | 0 <= i < j < |s| ensures Before(sortBy, s[i], s[j], le) {
        if i == 0 && j > 1 {
          assert s[j] == t[j - 1] && s[1] == t[0];
          BeforeTransitive(sortBy, s[0], s[1], s[j], le);
        } else if i > 0 {
          assert s[i] == t[i - 1] && s[j] == t[j - 1];
        }
      }
    }
  }

  /** The first `n` elements are in order, neighbour by neighbour. */
  predicate PrefixSorted(s: seq<Sensor>, n: int, sortBy: string, le: (string, string) -> bool)
    requires n <= |s|
  {
    forall k :: 0 < k < n ==> Before(sortBy, s[k - 1], s[k], le)
  }

  /**
   * Midway through inserting `s[..i+1]`: the element being moved sits at `j`,
   * everything else up to `i` is in order, and its neighbours are in order
   * with each other.
   */
  predicate Inserting(s: seq<Sensor>, i: int, j: int, sortBy: string, le: (string, string) -> bool)
  {
    && 0 <= j <= i < |s|
    && PrefixSorted(s, j, sortBy, le)
    && (forall k :: j < k <= i ==> Before(sortBy, s[k - 1], s[k], le))
    && (0 < j < i ==> Before(sortBy, s[j - 1], s[j + 1], le))
  }

  lemma StartInserting(s: seq<Sensor>, i: int, sortBy: string, le: (string, string) -> bool)
    requires 0 <= i < |s| && PrefixSorted(s, i, sortBy, le)
    ensures Inserting(s, i, i, sortBy, le)
  {
  }

  /** Swapping the moved element with a predecessor that belongs after it keeps the insertion state. */
  lemma SwapKeepsInserting(s: seq<Sensor>, i: int, j: int, sortBy: string, le: (string, string) -> bool)
    requires Collation.IsTotalOrder(le)
    requires Inserting(s, i, j, sortBy, le) && j > 0
    requires !Before(sortBy, s[j - 1], s[j], le)
    ensures Inserting(s[j - 1 := s[j]][j := s[j - 1]], i, j - 1, sortBy, le)
  {
  }

  /** Once the moved element is after its predecessor, the first `i + 1` elements are in order. */
  lemma InsertingDone(s: seq<Sensor>, i: int, j: int, sortBy: string, le: (string, string) -> bool)
    requires Inserting(s, i, j, sortBy, le)
    requires j == 0 || Before(sortBy, s[j - 1], s[j], le)
    ensures PrefixSorted(s, i + 1, sortBy, le)
  {
  }

  /** `list.sort(comparator)` for option `sortBy`: an insertion sort by adjacent swaps. */
  method SortInPlace(a: array<Sensor>, sortBy: string, le: (string, string) -> bool)
    requires Collation.IsTotalOrder(le)
    modifies a
    ensures multiset(a[..]) == old(multiset(a[..]))
    ensures SortedBy(a[..], sortBy, le)
  {
    var i := 0;
    while i < a.Length
      invariant 0 <= i <= a.Length
      invariant PrefixSorted(a[..], i, sortBy, le)
      invariant multiset(a[..]) == old(multiset(a[..]))
    {
      StartInserting(a[..], i, sortBy, le);
      var j := i;
      while j > 0 && !Before(sortBy, a[j - 1], a[j], le)
        invariant Inserting(a[..], i, j, sortBy, le)
        invariant multiset(a[..]) == old(multiset(a[..]))
      {
        SwapKeepsInserting(a[..], i, j, sortBy, le);
        a[j - 1], a[j] := a[j], a[j - 1];
        j := j - 1;
      }
      InsertingDone(a[..], i, j, sortBy, le);
      i := i + 1;
    }
    AdjacentSortedIsSorted(a[..], sortBy, le);
  }

  /**
   * What each option promises of the visible list: 'Name (A-Z)' ascending by
   * name, 'Name (Z-A)' descending by name, 'Status' every active sensor before
   * every inactive one and ascending by name within each group, 'Location'
   * ascending by location.
   */
  predicate ShownInOrder(s: seq<Sensor>, sortBy: string, le: (string, string) -> bool)
  {
    && (sortBy == ByNameAsc ==> forall i, j :: 0 <= i < j < |s| ==> le(s[i].name, s[j].name))
    && (sortBy == ByNameDesc ==> forall i, j :: 0 <= i < j < |s| ==> le(s[j].name, s[i].name))
    && (sortBy == ByStatus ==>
          forall i, j :: 0 <= i < j < |s| ==>
            && (s[i].isActive || !s[j].isActive)
            && (s[i].isActive == s[j].isActive ==> le(s[i].name, s[j].name)))
    && (sortBy == ByLocation ==> forall i, j :: 0 <= i < j < |s| ==> le(s[i].location, s[j].location))
  }

  /**
   * `visibleSensors`: the searched list, copied and then ordered by the chosen
   * option; an unrecognised option keeps the searched order. The stored sensors
   * are a value and are left as they were.
   */
  method VisibleSensors(sensors: seq<Sensor>, searchQuery: string, sortBy: string,
                        lower: string -> string, le: (string, string) -> bool)
    returns (list: array<Sensor>)
    requires Collation.IsTotalOrder(le)
    ensures fresh(list)
    ensures multiset(list[..]) == multiset(Search(sensors, searchQuery, lower))
    ensures forall s :: s in list[..] <==> s in sensors && (Blank(searchQuery) || Matches(s, lower(searchQuery), lower))
    ensures ShownInOrder(list[..], sortBy, le)
    ensures !IsSortOption(sortBy) ==> list[..] == Search(sensors, searchQuery, lower)
  {
    var filtered := Search(sensors, searchQuery, lower);
    list := new Sensor[|filtered|](i requires 0 <= i < |filtered| => filtered[i]);
    assert list[..] == filtered;
    if IsSortOption(sortBy) {
      SortInPlace(list, sortBy, le);
    }
    forall s ensures s in list[..] <==> s in filtered {
      assert s in list[..] <==> s in multiset(list[..]);
      assert s in filtered <==> s in multiset(filtered);
    }
  }

}
