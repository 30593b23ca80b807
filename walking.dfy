/**
 * Walking between a point and the stations (meetup/services/walking.py): a
 * linear walking-time estimate and the selection of the n nearest stations.
 *
 * The great-circle (haversine) distance is not computed here: it is the
 * parameter `dist`, about which only the facts of a distance are assumed
 * (non-negative, symmetric, zero from a point to itself).
 */
module Walking {
  import opened Sets
  import opened Sorting
  import opened TransitGraph

  /** Walking speed in km/h. */
  const WALKING_SPEED_KMH: real := 5.0

  /** Streets are not straight: walked distance over straight-line distance. */
  const STREET_ROUTING_MULTIPLIER: real := 1.3

  /** How many stations a person is linked to. */
  const NUM_NEAREST_STATIONS: nat := 3

  /** What routing needs of `haversine_distance`. */
  ghost predicate IsDistance(dist: (Coord, Coord) -> real)
  {
    && (forall a, b :: dist(a, b) >= 0.0 && dist(a, b) == dist(b, a))
    && (forall a :: dist(a, a) == 0.0)
  }

  /** `estimate_walking_time`: minutes to walk the street distance of a
      straight-line distance of `km` at the walking speed. */
  function EstimateWalkingTime(km: real): (minutes: real)
    ensures minutes * WALKING_SPEED_KMH == km * STREET_ROUTING_MULTIPLIER * 60.0
    ensures km >= 0.0 ==> minutes >= 0.0
  {
    km * STREET_ROUTING_MULTIPLIER / WALKING_SPEED_KMH * 60.0
  }

  /** Farther never walks quicker; standing still takes no time. */
  lemma {:induction false} WalkingTimeMonotone(d1: real, d2: real)
    ensures d1 <= d2 ==> EstimateWalkingTime(d1) <= EstimateWalkingTime(d2)
    ensures EstimateWalkingTime(0.0) == 0.0
  {
  }

  /** One entry of the list `find_nearest_stations` returns. */
  datatype Nearby = Nearby(id: StationId, station: Station, distKm: real, walkMinutes: real)

  /** The entry for station `sid` seen from `here`. */
  function EntryOf(stations: map<StationId, Station>, here: Coord, dist: (Coord, Coord) -> real, sid: StationId): Nearby
    requires sid in stations
  {
    var d := dist(here, stations[sid].coord);
    Nearby(sid, stations[sid], d, EstimateWalkingTime(d))
  }

  /** The sort key of `find_nearest_stations`: distance. */
  predicate NoFarther(a: Nearby, b: Nearby)
  {
    a.distKm <= b.distKm
  }

  lemma {:induction false} NoFartherIsTotalPreorder()
    ensures TotalPreorder(NoFarther)
  {
  }

  function Ids(r: seq<Nearby>): set<StationId>
  {
    set e | e in r :: e.id
  }

  function Min(a: nat, b: nat): nat
  {
    if a <= b then a else b
  }

  /** Every element of `q` is the entry of its own station. */
  ghost predicate Entries(stations: map<StationId, Station>, here: Coord, dist: (Coord, Coord) -> real, q: seq<Nearby>)
  {
    forall e | e in q :: e.id in stations && e == EntryOf(stations, here, dist, e.id)
  }

  /** Every station has its entry in `q`. */
  ghost predicate Complete(stations: map<StationId, Station>, here: Coord, dist: (Coord, Coord) -> real, q: seq<Nearby>)
  {
    forall sid | sid in stations :: EntryOf(stations, here, dist, sid) in q
  }

  /** The loop of `find_nearest_stations` over the stations table. */
  method AllEntries(stations: map<StationId, Station>, here: Coord, dist: (Coord, Coord) -> real)
    returns (distances: seq<Nearby>)
    ensures Entries(stations, here, dist, distances) && Complete(stations, here, dist, distances)
    ensures Distinct(distances) && |distances| == |stations|
  {
    var ids := Enumerate(stations.Keys);
    distances := [];
    for k := 0 to |ids|
      invariant |distances| == k
      invariant forall m | 0 <= m < k :: distances[m] == EntryOf(stations, here, dist, ids[m])
    {
      distances := distances + [EntryOf(stations, here, dist, ids[k])];
    }
    forall i, j | 0 <= i < j < |distances| ensures distances[i] != distances[j] {
      assert distances[i].id == ids[i] && distances[j].id == ids[j];
    }
    forall sid | sid in stations ensures EntryOf(stations, here, dist, sid) in distances {
      var m :| 0 <= m < |ids| && ids[m] == sid;
      assert distances[m] == EntryOf(stations, here, dist, sid);
    }
  }

  /** Sorting keeps the entries: same elements, no repeats. */
  lemma {:induction false} SortedEntries(stations: map<StationId, Station>, here: Coord, dist: (Coord, Coord) -> real,
                      all: seq<Nearby>, sorted: seq<Nearby>)
    requires multiset(sorted) == multiset(all) && Distinct(all)
    requires Entries(stations, here, dist, all) && Complete(stations, here, dist, all)
    ensures Entries(stations, here, dist, sorted) && Complete(stations, here, dist, sorted)
    ensures forall i, j | 0 <= i < j < |sorted| :: sorted[i].id != sorted[j].id
  {
    DistinctByMultiset(all, sorted);
    forall e ensures e in sorted <==> e in all {
      assert e in sorted <==> e in multiset(sorted);
      assert e in all <==> e in multiset(all);
    }
  }

  /** A prefix of a distance-sorted complete list leaves out no station closer
      than one it keeps. */
  lemma {:induction false} PrefixIsNearest(stations: map<StationId, Station>, here: Coord, dist: (Coord, Coord) -> real,
                        sorted: seq<Nearby>, k: nat)
    requires k <= |sorted| && SortedBy(sorted, NoFarther) && Complete(stations, here, dist, sorted)
    ensures forall sid, i | sid in stations && sid !in Ids(sorted[..k]) && 0 <= i < k ::
              sorted[i].distKm <= dist(here, stations[sid].coord)
  {
    var r := sorted[..k];
    forall sid, i | sid in stations && sid !in Ids(r) && 0 <= i < k
      ensures sorted[i].distKm <= dist(here, stations[sid].coord)
    {
      var e := EntryOf(stations, here, dist, sid);
      var j :| 0 <= j < |sorted| && sorted[j] == e;
      assert j >= k;
    }
  }

  /** `r` is the first `n` entries of all stations sorted by distance from
      `here`: as many as asked for (or all stations), nearest first, each the
      entry of its own station, no station twice, and no station left out that
      is closer than one kept. */
  ghost predicate IsNearest(stations: map<StationId, Station>, here: Coord, dist: (Coord, Coord) -> real,
                            n: nat, r: seq<Nearby>)
  {
    && |r| == Min(n, |stations|)
    && SortedBy(r, NoFarther)
    && (forall i | 0 <= i < |r| :: r[i].id in stations && r[i] == EntryOf(stations, here, dist, r[i].id))
    && (forall i, j | 0 <= i < j < |r| :: r[i].id != r[j].id)
    && (forall sid, i | sid in stations && sid !in Ids(r) && 0 <= i < |r| ::
          r[i].distKm <= dist(here, stations[sid].coord))
  }

  /** `find_nearest_stations`. */
  method FindNearestStations(stations: map<StationId, Station>, here: Coord, n: nat, dist: (Coord, Coord) -> real)
    returns (r: seq<Nearby>)
    requires IsDistance(dist)
    ensures IsNearest(stations, here, dist, n, r)
    ensures forall i | 0 <= i < |r| :: r[i].walkMinutes >= 0.0
  {
    var distances := AllEntries(stations, here, dist);
    NoFartherIsTotalPreorder();
    var sorted := SortBy(distances, NoFarther);
    SortedEntries(stations, here, dist, distances, sorted);
    PrefixIsNearest(stations, here, dist, sorted, Min(n, |sorted|));
    r := sorted[..Min(n, |sorted|)];
    assert forall i | 0 <= i < |r| :: r[i] == sorted[i];
    assert forall i | 0 <= i < |r| :: r[i] in sorted;
  }

  /** Someone standing at a station has it first in the list, zero minutes away. */
  lemma {:induction false} AtStationFirst(stations: map<StationId, Station>, here: Coord, dist: (Coord, Coord) -> real,
                       n: nat, r: seq<Nearby>, sid: StationId)
    requires IsDistance(dist) && IsNearest(stations, here, dist, n, r)
    requires sid in stations && stations[sid].coord == here && n > 0
    ensures |r| > 0 && r[0].distKm == 0.0 && r[0].walkMinutes == 0.0
  {
    assert |stations| > 0;
    if sid !in Ids(r) {
      assert r[0].distKm <= dist(here, stations[sid].coord);
    } else {
      var e :| e in r && e.id == sid;
      var i :| 0 <= i < |r| && r[i] == e;
      if i > 0 {
        assert NoFarther(r[0], r[i]);
      }
    }
  }
}
