/**
 * The meetup optimizer of meetup/services/optimizer.py: candidate stations
 * around the group, per-person virtual nodes on a copy of the network, journey
 * details, the four scores and the ranked lists.
 */
module Optimizer {
  import opened Wrappers
  import opened Sets
  import opened Text
  import opened Sorting
  import opened TransitGraph
  import opened Routing
  import opened NetworkCache
  import opened Walking
  import opened Scores

  /** How far from the group's centroid candidates are looked for (km). */
  const CANDIDATE_RADIUS_KM: real := 8.0

  /** How far from each origin candidates are also looked for (km). */
  const ORIGIN_RADIUS_KM: real := 3.0

  /** Length of each ranked list. */
  const MAX_RESULTS: nat := 5

  const NEED_TWO: string := "Need at least 2 people"
  const NO_CANDIDATES: string := "No candidate stations found near the group"
  const NO_REACHABLE: string := "Could not find reachable stations for all people"

  /** One member of the group: where they start and where they go home to. */
  datatype Person = Person(name: string, origin: Coord, home: Coord)

  // ---------------------------------------------------------------------------
  // _compute_centroid
  // ---------------------------------------------------------------------------

  function Lats(locations: seq<Coord>): (r: seq<real>)
    ensures |r| == |locations| && forall k | 0 <= k < |r| :: r[k] == locations[k].lat
  {
    seq(|locations|, k requires 0 <= k < |locations| => locations[k].lat)
  }

  function Lons(locations: seq<Coord>): (r: seq<real>)
    ensures |r| == |locations| && forall k | 0 <= k < |r| :: r[k] == locations[k].lon
  {
    seq(|locations|, k requires 0 <= k < |locations| => locations[k].lon)
  }

  function Mean(xs: seq<real>): real
    requires |xs| > 0
  {
    SumOf(xs) / |xs| as real
  }

  /** `_compute_centroid`: the average latitude and longitude, or (0, 0) for no
      locations. */
  function Centroid(locations: seq<Coord>): (c: Coord)
    ensures locations == [] ==> c == Coord(0.0, 0.0)
    ensures locations != [] ==> c.lat * |locations| as real == SumOf(Lats(locations))
    ensures locations != [] ==> c.lon * |locations| as real == SumOf(Lons(locations))
  {
    if locations == [] then Coord(0.0, 0.0)
    else Coord(Mean(Lats(locations)), Mean(Lons(locations)))
  }

  lemma {:induction false} SumBetween(xs: seq<real>, lo: real, hi: real)
    requires forall k | 0 <= k < |xs| :: lo <= xs[k] <= hi
    ensures lo * |xs| as real <= SumOf(xs) <= hi * |xs| as real
  {
    if xs != [] {
      var init := xs[..|xs| - 1];
      assert forall k | 0 <= k < |init| :: init[k] == xs[k];
      SumBetween(init, lo, hi);
      assert lo * |xs| as real == lo * |init| as real + lo;
      assert hi * |xs| as real == hi * |init| as real + hi;
    }
  }

  lemma {:induction false} MeanBetween(xs: seq<real>, lo: real, hi: real)
    requires |xs| > 0
    requires forall k | 0 <= k < |xs| :: lo <= xs[k] <= hi
    ensures lo <= Mean(xs) <= hi
  {
    SumBetween(xs, lo, hi);
    var n := |xs| as real;
    assert Mean(xs) * n == SumOf(xs);
  }

  /** The centroid lies within the bounding box of the locations. */
  lemma {:induction false} CentroidInBox(locations: seq<Coord>, lo: Coord, hi: Coord)
    requires locations != []
    requires forall k | 0 <= k < |locations| :: lo.lat <= locations[k].lat <= hi.lat && lo.lon <= locations[k].lon <= hi.lon
    ensures lo.lat <= Centroid(locations).lat <= hi.lat
    ensures lo.lon <= Centroid(locations).lon <= hi.lon
  {
    MeanBetween(Lats(locations), lo.lat, hi.lat);
    MeanBetween(Lons(locations), lo.lon, hi.lon);
  }

  // ---------------------------------------------------------------------------
  // _get_candidate_stations
  // ---------------------------------------------------------------------------

  ghost predicate NearCentroid(stations: map<StationId, Station>, origins: seq<Coord>, radius: real,
                               dist: (Coord, Coord) -> real, sid: StationId)
  {
    sid in stations && dist(Centroid(origins), stations[sid].coord) <= radius
  }

  ghost predicate NearOrigin(stations: map<StationId, Station>, origins: seq<Coord>,
                             dist: (Coord, Coord) -> real, sid: StationId)
  {
    sid in stations && exists k | 0 <= k < |origins| :: dist(origins[k], stations[sid].coord) <= ORIGIN_RADIUS_KM
  }

  /** The stations within `radius` of the centroid of the origins or within
      3 km of one of them. */
  ghost function CandidateSet(stations: map<StationId, Station>, origins: seq<Coord>, radius: real,
                              dist: (Coord, Coord) -> real): set<StationId>
  {
    set sid | sid in stations && (NearCentroid(stations, origins, radius, dist, sid) || NearOrigin(stations, origins, dist, sid))
  }

  /** Taking one more origin into account adds the stations near it. */
  lemma {:induction false} NearOriginStep(stations: map<StationId, Station>, origins: seq<Coord>, o: nat,
                                          dist: (Coord, Coord) -> real)
    requires o < |origins|
    ensures forall sid :: NearOrigin(stations, origins[..o + 1], dist, sid) <==>
                          NearOrigin(stations, origins[..o], dist, sid) ||
                          (sid in stations && dist(origins[o], stations[sid].coord) <= ORIGIN_RADIUS_KM)
  {
    var next := origins[..o + 1];
    assert forall k | 0 <= k < o :: next[k] == origins[..o][k];
    assert next[o] == origins[o];
  }

  /** The inner loop over all stations for one origin: adds those within 3 km of it. */
  method AddNearOrigin(stations: map<StationId, Station>, ids: seq<StationId>, origin: Coord,
                       dist: (Coord, Coord) -> real, found: set<StationId>)
    returns (found': set<StationId>)
    requires forall sid :: sid in ids <==> sid in stations
    ensures forall sid :: sid in found' <==>
              sid in found || (sid in stations && dist(origin, stations[sid].coord) <= ORIGIN_RADIUS_KM)
  {
    found' := found;
    for k := 0 to |ids|
      invariant forall sid :: sid in found' <==>
                  sid in found || (sid in ids[..k] && sid in stations && dist(origin, stations[sid].coord) <= ORIGIN_RADIUS_KM)
    {
      var sid := ids[k];
      assert sid in ids;
      assert sid in stations;
      if dist(origin, stations[sid].coord) <= ORIGIN_RADIUS_KM {
        found' := found' + {sid};
      }
      assert forall sid :: sid in ids[..k + 1] <==> sid in ids[..k] || sid == ids[k];
    }
    assert ids[..|ids|] == ids;
  }

  /** `_get_candidate_stations`: the candidate set, as a list without repeats. */
  method CandidateStations(stations: map<StationId, Station>, origins: seq<Coord>, radius: real,
                           dist: (Coord, Coord) -> real)
    returns (candidates: seq<StationId>)
    ensures Distinct(candidates)
    ensures forall sid :: sid in candidates <==> sid in CandidateSet(stations, origins, radius, dist)
  {
    var centroid := Centroid(origins);
    var found: set<StationId> := {};
    var ids := Enumerate(stations.Keys);
    for k := 0 to |ids|
      invariant forall sid :: sid in found <==> sid in ids[..k] && NearCentroid(stations, origins, radius, dist, sid)
    {
      if dist(centroid, stations[ids[k]].coord) <= radius {
        found := found + {ids[k]};
      }
      assert forall sid :: sid in ids[..k + 1] <==> sid in ids[..k] || sid == ids[k];
    }
    assert ids[..|ids|] == ids;
    for o := 0 to |origins|
      invariant forall sid :: sid in found <==>
                  NearCentroid(stations, origins, radius, dist, sid) || NearOrigin(stations, origins[..o], dist, sid)
    {
      found := AddNearOrigin(stations, ids, origins[o], dist, found);
      NearOriginStep(stations, origins, o, dist);
    }
    assert origins[..|origins|] == origins;
    candidates := Enumerate(found);
  }

  /** A station some member of the group starts at is always a candidate. */
  lemma {:induction false} OriginStationIsCandidate(stations: map<StationId, Station>, origins: seq<Coord>, radius: real,
                                 dist: (Coord, Coord) -> real, sid: StationId, k: nat)
    requires IsDistance(dist)
    requires sid in stations && k < |origins| && origins[k] == stations[sid].coord
    ensures sid in CandidateSet(stations, origins, radius, dist)
  {
    assert dist(origins[k], stations[sid].coord) == 0.0;
    assert NearOrigin(stations, origins, dist, sid);
  }

  // ---------------------------------------------------------------------------
  // _connect_person_to_graph
  // ---------------------------------------------------------------------------

  /** The graph after `_connect_person_to_graph` adds node `v` and links it by a
      walking edge to the hub of each station of `near` whose hub is already
      in the graph. */
  function Linked(g: Graph, v: Node, near: seq<Nearby>): (h: Graph)
    ensures h.nodes == g.nodes + {v}
    decreases |near|
  {
    if near == [] then g.AddNode(v)
    else
      var h := Linked(g, v, near[..|near| - 1]);
      var e := near[|near| - 1];
      if Hub(e.id) in h.nodes then h.AddEdge(v, Hub(e.id), EdgeInfo(e.walkMinutes, WALKING)) else h
  }

  /** Linking keeps the graph undirected, and keeps weights non-negative when
      walking times are. */
  lemma {:induction false} LinkedPreserves(g: Graph, v: Node, near: seq<Nearby>)
    requires g.Valid()
    ensures Linked(g, v, near).Valid()
    ensures g.NonNegative() && (forall k | 0 <= k < |near| :: near[k].walkMinutes >= 0.0) ==> Linked(g, v, near).NonNegative()
    decreases |near|
  {
    if near != [] {
      LinkedPreserves(g, v, near[..|near| - 1]);
    }
  }

  /** The walking edge `e` with attributes `info` joins `v` to the hub of a
      station listed in `near` that was already in `g`. */
  ghost predicate WalkEdge(g: Graph, v: Node, near: seq<Nearby>, e: (Node, Node), info: EdgeInfo)
  {
    var u := if e.0 == v then e.1 else e.0;
    && (e.0 == v || e.1 == v)
    && u.Hub? && u in g.nodes
    && info.line == WALKING
    && exists k | 0 <= k < |near| :: near[k].id == u.station && info.weight == near[k].walkMinutes
  }

  /** Linking a new node keeps every old edge as it was. */
  lemma {:induction false} LinkedKeepsEdges(g: Graph, v: Node, near: seq<Nearby>)
    requires g.Valid() && v !in g.nodes
    ensures var h := Linked(g, v, near);
            forall e | e in g.edges :: e in h.edges && h.edges[e] == g.edges[e]
    decreases |near|
  {
    if near != [] {
      LinkedKeepsEdges(g, v, near[..|near| - 1]);
    }
  }

  /** Every edge linking adds is a walking edge from `v` to an existing hub of
      one of `near`'s stations. */
  lemma {:induction false} LinkedNewEdges(g: Graph, v: Node, near: seq<Nearby>)
    requires v.Virtual?
    ensures var h := Linked(g, v, near);
            forall e | e in h.edges && e !in g.edges :: WalkEdge(g, v, near, e, h.edges[e])
    decreases |near|
  {
    if near != [] {
      var init := near[..|near| - 1];
      var last := near[|near| - 1];
      LinkedNewEdges(g, v, init);
      var h0 := Linked(g, v, init);
      var h := Linked(g, v, near);
      forall e | e in h.edges && e !in g.edges ensures WalkEdge(g, v, near, e, h.edges[e]) {
        if e in h0.edges && h.edges[e] == h0.edges[e] {
          assert WalkEdge(g, v, init, e, h0.edges[e]);
          var k :| 0 <= k < |init| && init[k].id == (if e.0 == v then e.1 else e.0).station
                   && h0.edges[e].weight == init[k].walkMinutes;
          assert near[k] == init[k];
        } else {
          assert Hub(last.id) in h0.nodes;
          assert e == (v, Hub(last.id)) || e == (Hub(last.id), v);
          assert Hub(last.id) in g.nodes;
        }
      }
    }
  }

  /** Each listed station whose hub exists gets a walking edge from `v`,
      weighted by that station's walking time. */
  lemma {:induction false} LinkedHasEdges(g: Graph, v: Node, near: seq<Nearby>)
    requires v.Virtual?
    requires forall i, j | 0 <= i < j < |near| :: near[i].id != near[j].id
    ensures var h := Linked(g, v, near);
            forall k | 0 <= k < |near| && Hub(near[k].id) in g.nodes ::
              (v, Hub(near[k].id)) in h.edges && h.edges[(v, Hub(near[k].id))] == EdgeInfo(near[k].walkMinutes, WALKING)
    decreases |near|
  {
    if near != [] {
      var init := near[..|near| - 1];
      var last := near[|near| - 1];
      LinkedHasEdges(g, v, init);
      var h := Linked(g, v, near);
      forall k | 0 <= k < |near| && Hub(near[k].id) in g.nodes
        ensures (v, Hub(near[k].id)) in h.edges && h.edges[(v, Hub(near[k].id))] == EdgeInfo(near[k].walkMinutes, WALKING)
      {
        if k < |init| {
          assert near[k] == init[k];
          assert near[k].id != last.id;
        }
      }
    }
  }

  /** For a new node `v`: the old edges stay as they were, and every new edge is
      a walking edge from `v` to the hub of one of `near`'s stations; each such
      hub that exists gets one, weighted by that station's walking time. */
  lemma {:induction false} LinkedEdges(g: Graph, v: Node, near: seq<Nearby>)
    requires g.Valid() && v !in g.nodes && v.Virtual?
    requires forall i, j | 0 <= i < j < |near| :: near[i].id != near[j].id
    ensures var h := Linked(g, v, near);
            forall e | e in g.edges :: e in h.edges && h.edges[e] == g.edges[e]
    ensures var h := Linked(g, v, near);
            forall e | e in h.edges && e !in g.edges :: WalkEdge(g, v, near, e, h.edges[e])
    ensures var h := Linked(g, v, near);
            forall k | 0 <= k < |near| && Hub(near[k].id) in g.nodes ::
              (v, Hub(near[k].id)) in h.edges && h.edges[(v, Hub(near[k].id))] == EdgeInfo(near[k].walkMinutes, WALKING)
  {
    LinkedKeepsEdges(g, v, near);
    LinkedNewEdges(g, v, near);
    LinkedHasEdges(g, v, near);
  }

  /** `_connect_person_to_graph`: links the person node `v` to the hubs of the
      three stations nearest to `here`. */
  method ConnectPerson(g: NetGraph, v: Node, here: Coord, stations: map<StationId, Station>,
                       dist: (Coord, Coord) -> real)
    returns (ghost near: seq<Nearby>)
    requires IsDistance(dist)
    modifies g
    ensures IsNearest(stations, here, dist, NUM_NEAREST_STATIONS, near)
    ensures forall k | 0 <= k < |near| :: near[k].walkMinutes >= 0.0
    ensures g.View() == Linked(old(g.View()), v, near)
  {
    var nearest := FindNearestStations(stations, here, NUM_NEAREST_STATIONS, dist);
    near := nearest;
    g.AddNode(v);
    for k := 0 to |nearest|
      invariant g.View() == Linked(old(g.View()), v, nearest[..k])
    {
      var e := nearest[k];
      var hub := Hub(e.id);
      assert nearest[..k + 1][..k] == nearest[..k];
      if hub in g.nodes {
        g.AddEdge(v, hub, EdgeInfo(e.walkMinutes, WALKING));
      }
    }
    assert nearest[..|nearest|] == nearest;
  }

  /** The nearest stations chosen for each person's origin and home. */
  ghost predicate Picked(stations: map<StationId, Station>, people: seq<Person>, dist: (Coord, Coord) -> real,
                         picks: seq<(seq<Nearby>, seq<Nearby>)>)
  {
    && |picks| == |people|
    && forall i | 0 <= i < |people| ::
         && IsNearest(stations, people[i].origin, dist, NUM_NEAREST_STATIONS, picks[i].0)
         && IsNearest(stations, people[i].home, dist, NUM_NEAREST_STATIONS, picks[i].1)
         && (forall k | 0 <= k < |picks[i].0| :: picks[i].0[k].walkMinutes >= 0.0)
         && (forall k | 0 <= k < |picks[i].1| :: picks[i].1[k].walkMinutes >= 0.0)
  }

  /** `base` with the origin node and the home node of every person linked in,
      person by person. */
  function AttachAll(base: Graph, people: seq<Person>, picks: seq<(seq<Nearby>, seq<Nearby>)>): (h: Graph)
    requires |picks| == |people|
    ensures h.nodes == base.nodes + (set i | 0 <= i < |people| :: Virtual(Origin, i))
                                  + (set i | 0 <= i < |people| :: Virtual(Home, i))
    decreases |people|
  {
    if people == [] then base
    else
      var i := |people| - 1;
      var g := AttachAll(base, people[..i], picks[..i]);
      Linked(Linked(g, Virtual(Origin, i), picks[i].0), Virtual(Home, i), picks[i].1)
  }

  /** Attaching the group keeps the graph undirected and its weights
      non-negative, so shortest paths on it are well defined. */
  lemma {:induction false} AttachAllPreserves(base: Graph, people: seq<Person>, picks: seq<(seq<Nearby>, seq<Nearby>)>,
                                              stations: map<StationId, Station>, dist: (Coord, Coord) -> real)
    requires base.Valid() && base.NonNegative()
    requires Picked(stations, people, dist, picks)
    ensures AttachAll(base, people, picks).Valid() && AttachAll(base, people, picks).NonNegative()
    decreases |people|
  {
    if people != [] {
      var i := |people| - 1;
      assert Picked(stations, people[..i], dist, picks[..i]) by {
        forall j | 0 <= j < i ensures people[..i][j] == people[j] && picks[..i][j] == picks[j] {
        }
      }
      AttachAllPreserves(base, people[..i], picks[..i], stations, dist);
      var g := AttachAll(base, people[..i], picks[..i]);
      LinkedPreserves(g, Virtual(Origin, i), picks[i].0);
      LinkedPreserves(Linked(g, Virtual(Origin, i), picks[i].0), Virtual(Home, i), picks[i].1);
    }
  }

  /** The group's nodes hang off the network without changing it: every edge of
      `base` is still there with its weight and line. */
  lemma {:induction false} AttachAllKeepsNetwork(base: Graph, people: seq<Person>, picks: seq<(seq<Nearby>, seq<Nearby>)>)
    requires base.Valid() && |picks| == |people|
    requires forall n | n in base.nodes :: !n.Virtual?
    requires forall i, j, k | 0 <= i < |picks| && 0 <= j < k < |picks[i].0| :: picks[i].0[j].id != picks[i].0[k].id
    requires forall i, j, k | 0 <= i < |picks| && 0 <= j < k < |picks[i].1| :: picks[i].1[j].id != picks[i].1[k].id
    ensures var h := AttachAll(base, people, picks);
            forall e | e in base.edges :: e in h.edges && h.edges[e] == base.edges[e]
    decreases |people|
  {
    if people != [] {
      var i := |people| - 1;
      var g := AttachAll(base, people[..i], picks[..i]);
      AttachAllKeepsNetwork(base, people[..i], picks[..i]);
      AttachAllValid(base, people[..i], picks[..i]);
      var o, hm := Virtual(Origin, i), Virtual(Home, i);
      assert o !in g.nodes && hm !in g.nodes;
      LinkedEdges(g, o, picks[i].0);
      var g1 := Linked(g, o, picks[i].0);
      LinkedPreserves(g, o, picks[i].0);
      assert g1.nodes == g.nodes + {o};
      LinkedEdges(g1, hm, picks[i].1);
    }
  }

  lemma {:induction false} AttachAllValid(base: Graph, people: seq<Person>, picks: seq<(seq<Nearby>, seq<Nearby>)>)
    requires base.Valid() && |picks| == |people|
    ensures AttachAll(base, people, picks).Valid()
    decreases |people|
  {
    if people != [] {
      var i := |people| - 1;
      AttachAllValid(base, people[..i], picks[..i]);
      var g := AttachAll(base, people[..i], picks[..i]);
      LinkedPreserves(g, Virtual(Origin, i), picks[i].0);
      LinkedPreserves(Linked(g, Virtual(Origin, i), picks[i].0), Virtual(Home, i), picks[i].1);
    }
  }

  // ---------------------------------------------------------------------------
  // _get_journey_details
  // ---------------------------------------------------------------------------

  /** A journey's time, rounded to one decimal, and its lines in sorted order. */
  datatype Journey = Journey(time: real, lines: seq<Line>)

  /** `j` is what `_get_journey_details` reports from `from` to `to`: nothing
      when `to` cannot be reached, otherwise the rounded weight of a shortest
      path and the lines ridden along one. */
  ghost predicate JourneyOk(g: Graph, from: Node, to: Node, j: Option<Journey>)
  {
    && (j.None? <==> !Reachable(g, from, to))
    && (j.Some? ==>
          && (forall p | IsShortest(g, p, from, to) :: j.value.time == Round1(PathWeight(g, p)))
          && (exists p :: IsShortest(g, p, from, to) && Elements(j.value.lines) == LinesOf(g, p))
          && SortedBy(j.value.lines, LexLe)
          && Distinct(j.value.lines))
  }

  /** `_get_journey_details`. The destination is a node: a station's hub on the
      way out, a person's home node on the way back. */
  method JourneyDetails(g: Graph, from: Node, to: Node) returns (j: Option<Journey>)
    requires g.Valid() && g.NonNegative()
    ensures JourneyOk(g, from, to, j)
  {
    var time := JourneyTime(g, from, to);
    if time.None? {
      return None;
    }
    var path := JourneyPath(g, from, to);
    var lines: set<Line> := {};
    if path.Some? && |path.value| > 0 {
      lines := LinesUsed(g, path.value);
    }
    var sorted := SortedStrings(lines);
    j := Some(Journey(Round1(time.value), sorted));
    forall p | IsShortest(g, p, from, to) ensures j.value.time == Round1(PathWeight(g, p)) {
      var q :| IsShortest(g, q, from, to) && time.value == PathWeight(g, q);
      ShortestWeightUnique(g, p, q, from, to);
    }
    assert Elements(sorted) == LinesOf(g, path.value);
  }

  // ---------------------------------------------------------------------------
  // Scoring one candidate station (the body of the loop over candidates in
  // calculate_meetup_spots)
  // ---------------------------------------------------------------------------

  datatype Direction = Outbound | Return

  /** One person's journey in a result: time None marks an unknown trip home. */
  datatype Detail = Detail(person: string, direction: Direction, time: Option<real>, lines: seq<Line>)

  /** An entry of the `scored` list. */
  datatype Scored = Scored(id: StationId, station: Station,
                           outboundTimes: seq<real>, homeTimes: seq<Option<real>>,
                           outbound: seq<Detail>, homeward: seq<Detail>, linesUsed: seq<Line>,
                           fairness: Score, efficiency: Score, quickArrival: Score, easyHome: Score)

  function JourneyOf(d: Detail): Option<Journey>
  {
    if d.time.None? then None else Some(Journey(d.time.value, d.lines))
  }

  /** The union of the lines of the details. */
  function AllLines(ds: seq<Detail>): set<Line>
  {
    if ds == [] then {} else AllLines(ds[..|ds| - 1]) + Elements(ds[|ds| - 1].lines)
  }

  lemma {:induction false} AllLinesSpec(ds: seq<Detail>, l: Line)
    ensures l in AllLines(ds) <==> exists k | 0 <= k < |ds| :: l in ds[k].lines
  {
    if ds != [] {
      var init := ds[..|ds| - 1];
      AllLinesSpec(init, l);
      if l in AllLines(init) {
        var k :| 0 <= k < |init| && l in init[k].lines;
        assert ds[k] == init[k];
      }
      if exists k | 0 <= k < |ds| :: l in ds[k].lines {
        var k :| 0 <= k < |ds| && l in ds[k].lines;
        if k < |init| {
          assert ds[k] == init[k];
        }
      }
    }
  }

  /** Every one of the first `n` people can reach the hub of station `sid`. */
  ghost predicate Survives(g: Graph, n: nat, sid: StationId)
  {
    Hub(sid) in g.nodes && forall i | 0 <= i < n :: Reachable(g, Virtual(Origin, i), Hub(sid))
  }

  ghost predicate OutboundOk(g: Graph, people: seq<Person>, sid: StationId, i: nat, t: real, d: Detail)
    requires i < |people|
  {
    && d.person == people[i].name && d.direction == Outbound && d.time == Some(t)
    && JourneyOk(g, Virtual(Origin, i), Hub(sid), Some(Journey(t, d.lines)))
  }

  ghost predicate HomewardOk(g: Graph, people: seq<Person>, sid: StationId, i: nat, t: Option<real>, d: Detail)
    requires i < |people|
  {
    && d.person == people[i].name && d.direction == Return && d.time == t
    && (t.None? ==> d.lines == [])
    && JourneyOk(g, Hub(sid), Virtual(Home, i), JourneyOf(d))
  }

  /** `c` is the entry the optimizer builds for its station on graph `g`: one
      outbound and one return detail per person in input order, the sorted
      union of their lines, and the four scores of the rounded times. */
  ghost predicate Evaluated(g: Graph, people: seq<Person>, stations: map<StationId, Station>, c: Scored)
  {
    && |people| > 0
    && c.id in stations && c.station == stations[c.id] && Hub(c.id) in g.nodes
    && |c.outboundTimes| == |people| && |c.outbound| == |people|
    && |c.homeTimes| == |people| && |c.homeward| == |people|
    && (forall i | 0 <= i < |people| :: OutboundOk(g, people, c.id, i, c.outboundTimes[i], c.outbound[i]))
    && (forall i | 0 <= i < |people| :: HomewardOk(g, people, c.id, i, c.homeTimes[i], c.homeward[i]))
    && SortedBy(c.linesUsed, LexLe) && Elements(c.linesUsed) == AllLines(c.outbound + c.homeward)
    && c.quickArrival == QuickArrival(c.outboundTimes)
    && c.efficiency == Efficiency(c.outboundTimes)
    && c.easyHome == EasyHome(c.homeTimes)
    && c.fairness == Fairness(c.outboundTimes, c.homeTimes)
  }

  /** The outbound journeys of every person to the hub of `sid`; None as soon
      as one of them cannot get there. */
  method OutboundJourneys(g: Graph, people: seq<Person>, sid: StationId)
    returns (r: Option<(seq<real>, seq<Detail>)>)
    requires g.Valid() && g.NonNegative()
    ensures r.None? <==> exists i | 0 <= i < |people| :: !Reachable(g, Virtual(Origin, i), Hub(sid))
    ensures r.Some? ==> |r.value.0| == |people| && |r.value.1| == |people|
    ensures r.Some? ==> forall i | 0 <= i < |people| :: OutboundOk(g, people, sid, i, r.value.0[i], r.value.1[i])
  {
    var times: seq<real> := [];
    var details: seq<Detail> := [];
    for i := 0 to |people|
      invariant |times| == i && |details| == i
      invariant forall k | 0 <= k < i :: OutboundOk(g, people, sid, k, times[k], details[k])
    {
      var d := JourneyDetails(g, Virtual(Origin, i), Hub(sid));
      if d.None? {
        return None;
      }
      times := times + [d.value.time];
      details := details + [Detail(people[i].name, Outbound, Some(d.value.time), d.value.lines)];
    }
    forall i | 0 <= i < |people| ensures Reachable(g, Virtual(Origin, i), Hub(sid)) {
      assert OutboundOk(g, people, sid, i, times[i], details[i]);
    }
    return Some((times, details));
  }

  /** The return journeys from the hub of `sid` to every person's home; an
      unreachable home is kept as an unknown time. */
  method HomewardJourneys(g: Graph, people: seq<Person>, sid: StationId)
    returns (times: seq<Option<real>>, details: seq<Detail>)
    requires g.Valid() && g.NonNegative()
    ensures |times| == |people| && |details| == |people|
    ensures forall i | 0 <= i < |people| :: HomewardOk(g, people, sid, i, times[i], details[i])
  {
    times := [];
    details := [];
    for i := 0 to |people|
      invariant |times| == i && |details| == i
      invariant forall k | 0 <= k < i :: HomewardOk(g, people, sid, k, times[k], details[k])
    {
      var d := JourneyDetails(g, Hub(sid), Virtual(Home, i));
      if d.None? {
        times := times + [None];
        details := details + [Detail(people[i].name, Return, None, [])];
      } else {
        times := times + [Some(d.value.time)];
        details := details + [Detail(people[i].name, Return, Some(d.value.time), d.value.lines)];
      }
    }
  }

  /** The loop gathering `all_lines` from every journey detail. */
  method CollectLines(details: seq<Detail>) returns (allLines: set<Line>)
    ensures forall l :: l in allLines <==> exists k | 0 <= k < |details| :: l in details[k].lines
    ensures allLines == AllLines(details)
  {
    allLines := {};
    for k := 0 to |details|
      invariant allLines == AllLines(details[..k])
    {
      assert details[..k + 1][..k] == details[..k];
      allLines := allLines + Elements(details[k].lines);
    }
    assert details[..|details|] == details;
    forall l ensures l in allLines <==> exists k | 0 <= k < |details| :: l in details[k].lines {
      AllLinesSpec(details, l);
    }
  }

  /** The entry for candidate `sid`, or None when its hub is not in the graph
      or some person cannot reach it. */
  method ScoreCandidate(g: Graph, people: seq<Person>, stations: map<StationId, Station>, sid: StationId)
    returns (c: Option<Scored>)
    requires g.Valid() && g.NonNegative() && sid in stations && |people| > 0
    ensures c.Some? <==> Survives(g, |people|, sid)
    ensures c.Some? ==> c.value.id == sid && Evaluated(g, people, stations, c.value)
  {
    if Hub(sid) !in g.nodes {
      return None;
    }
    var out := OutboundJourneys(g, people, sid);
    if out.None? {
      return None;
    }
    var (outTimes, outDetails) := out.value;
    var homeTimes, homeDetails := HomewardJourneys(g, people, sid);
    var details := outDetails + homeDetails;
    var allLines := CollectLines(details);
    var linesUsed := SortedStrings(allLines);
    assert Elements(linesUsed) == allLines;
    c := Some(Scored(sid, stations[sid], outTimes, homeTimes, outDetails, homeDetails, linesUsed,
                     Fairness(outTimes, homeTimes), Efficiency(outTimes), QuickArrival(outTimes), EasyHome(homeTimes)));
  }

  // ---------------------------------------------------------------------------
  // Ranking by each mode
  // ---------------------------------------------------------------------------

  datatype Mode = FairnessMode | EfficiencyMode | QuickArrivalMode | EasyHomeMode

  /** The score a mode sorts by. */
  function Key(c: Scored, m: Mode): Score
  {
    match m
    case FairnessMode => c.fairness
    case EfficiencyMode => c.efficiency
    case QuickArrivalMode => c.quickArrival
    case EasyHomeMode => c.easyHome
  }

  function ByKey(m: Mode): (Scored, Scored) -> bool
  {
    (a: Scored, b: Scored) => ScoreLe(Key(a, m), Key(b, m))
  }

  lemma {:induction false} ByKeyIsTotalPreorder(m: Mode)
    ensures TotalPreorder(ByKey(m))
  {
    forall a, b, c | ByKey(m)(a, b) && ByKey(m)(b, c) ensures ByKey(m)(a, c) {
      ScoreLeTransitive(Key(a, m), Key(b, m), Key(c, m));
    }
  }

  /** One entry of a ranked list. */
  datatype Spot = Spot(id: StationId, name: string, coord: Coord, score: Score,
                       outbound: seq<Detail>, homeward: seq<Detail>, linesUsed: seq<Line>)

  /** The entry for `c` in the list of mode `m`: its score rounded. */
  function SpotOf(c: Scored, m: Mode): Spot
  {
    Spot(c.id, c.station.name, c.station.coord, RoundScore(Key(c, m)), c.outbound, c.homeward, c.linesUsed)
  }

  function Spots(chosen: seq<Scored>, m: Mode): (r: seq<Spot>)
    ensures |r| == |chosen| && forall i | 0 <= i < |r| :: r[i] == SpotOf(chosen[i], m)
  {
    seq(|chosen|, i requires 0 <= i < |chosen| => SpotOf(chosen[i], m))
  }

  ghost predicate DistinctIds(scored: seq<Scored>)
  {
    forall i, j | 0 <= i < j < |scored| :: scored[i].id != scored[j].id
  }

  function ScoredIds(scored: seq<Scored>): set<StationId>
  {
    set c | c in scored :: c.id
  }

  lemma {:induction false} ScoredIdsAppend(scored: seq<Scored>, c: Scored)
    ensures ScoredIds(scored + [c]) == ScoredIds(scored) + {c.id}
  {
    assert forall x | x in scored + [c] :: x in scored || x == c;
  }

  /** `chosen` is the first five of `scored` sorted by the key of `m`: as many
      as there are (at most five), in order, no station twice, and none left
      out with a smaller key than one kept. */
  ghost predicate TopK(chosen: seq<Scored>, scored: seq<Scored>, m: Mode)
  {
    && |chosen| == Min(MAX_RESULTS, |scored|)
    && SortedBy(chosen, ByKey(m))
    && (forall c | c in chosen :: c in scored)
    && DistinctIds(chosen)
    && (forall c, i | c in scored && c !in chosen && 0 <= i < |chosen| :: ScoreLe(Key(chosen[i], m), Key(c, m)))
  }

  ghost predicate RankedBy(spots: seq<Spot>, scored: seq<Scored>, m: Mode)
  {
    exists chosen :: TopK(chosen, scored, m) && spots == Spots(chosen, m)
  }

  lemma {:induction false} TopOfSorted(scored: seq<Scored>, sorted: seq<Scored>, m: Mode, k: nat)
    requires DistinctIds(scored) && multiset(sorted) == multiset(scored)
    requires SortedBy(sorted, ByKey(m)) && k == Min(MAX_RESULTS, |sorted|)
    ensures TopK(sorted[..k], scored, m)
  {
    var top := sorted[..k];
    assert forall c :: c in sorted <==> c in scored by {
      forall c ensures c in sorted <==> c in scored {
        assert c in sorted <==> c in multiset(sorted);
        assert c in scored <==> c in multiset(scored);
      }
    }
    assert Distinct(scored) by {
      forall i, j | 0 <= i < j < |scored| ensures scored[i] != scored[j] {
      }
    }
    DistinctByMultiset(scored, sorted);
    forall i, j | 0 <= i < j < |top| ensures top[i].id != top[j].id {
      assert top[i] == sorted[i] && top[j] == sorted[j] && sorted[i] != sorted[j];
      assert sorted[i] in scored && sorted[j] in scored;
      var a :| 0 <= a < |scored| && scored[a] == top[i];
      var b :| 0 <= b < |scored| && scored[b] == top[j];
    }
    forall c, i | c in scored && c !in top && 0 <= i < |top| ensures ScoreLe(Key(top[i], m), Key(c, m)) {
      var j :| 0 <= j < |sorted| && sorted[j] == c;
      assert j >= k;
      assert ByKey(m)(sorted[i], sorted[j]);
    }
  }

  /** `sorted(scored, key=...)[:MAX_RESULTS]`, each turned into a list entry. */
  method Rank(scored: seq<Scored>, m: Mode) returns (spots: seq<Spot>)
    requires DistinctIds(scored)
    ensures RankedBy(spots, scored, m)
  {
    ByKeyIsTotalPreorder(m);
    var sorted := SortBy(scored, ByKey(m));
    var top := sorted[..Min(MAX_RESULTS, |sorted|)];
    TopOfSorted(scored, sorted, m, Min(MAX_RESULTS, |sorted|));
    spots := [];
    for k := 0 to |top|
      invariant |spots| == k && forall i | 0 <= i < k :: spots[i] == SpotOf(top[i], m)
    {
      spots := spots + [SpotOf(top[k], m)];
    }
    assert spots == Spots(top, m);
  }

  ghost predicate SpotLe(a: Spot, b: Spot)
  {
    ScoreLe(a.score, b.score)
  }

  /** A ranked list shows non-decreasing rounded scores, and no candidate left
      out has a smaller rounded score than one shown. */
  lemma {:induction false} RankedSpotsOrdered(spots: seq<Spot>, scored: seq<Scored>, m: Mode)
    requires RankedBy(spots, scored, m)
    ensures SortedBy(spots, SpotLe)
    ensures forall c, i | c in scored && c.id !in (set s | s in spots :: s.id) && 0 <= i < |spots| ::
              ScoreLe(spots[i].score, RoundScore(Key(c, m)))
  {
    var chosen :| TopK(chosen, scored, m) && spots == Spots(chosen, m);
    forall i, j | 0 <= i < j < |spots| ensures SpotLe(spots[i], spots[j]) {
      assert ByKey(m)(chosen[i], chosen[j]);
      RoundScoreMonotone(Key(chosen[i], m), Key(chosen[j], m));
    }
    forall c, i | c in scored && c.id !in (set s | s in spots :: s.id) && 0 <= i < |spots|
      ensures ScoreLe(spots[i].score, RoundScore(Key(c, m)))
    {
      assert c !in chosen;
      RoundScoreMonotone(Key(chosen[i], m), Key(c, m));
    }
  }

  // ---------------------------------------------------------------------------
  // calculate_meetup_spots
  // ---------------------------------------------------------------------------

  /** Every entry of `scored` is `Evaluated` on `g`. */
  ghost predicate AllEvaluated(g: Graph, people: seq<Person>, stations: map<StationId, Station>, scored: seq<Scored>)
    decreases |scored|
  {
    scored == [] ||
    (AllEvaluated(g, people, stations, scored[..|scored| - 1]) && Evaluated(g, people, stations, scored[|scored| - 1]))
  }

  lemma {:induction false} AllEvaluatedMember(g: Graph, people: seq<Person>, stations: map<StationId, Station>,
                                              scored: seq<Scored>, i: nat)
    requires AllEvaluated(g, people, stations, scored) && i < |scored|
    ensures Evaluated(g, people, stations, scored[i])
    decreases |scored|
  {
    if i < |scored| - 1 {
      AllEvaluatedMember(g, people, stations, scored[..|scored| - 1], i);
    }
  }

  lemma {:induction false} AllEvaluatedAppend(g: Graph, people: seq<Person>, stations: map<StationId, Station>,
                           scored: seq<Scored>, c: Scored)
    requires AllEvaluated(g, people, stations, scored) && Evaluated(g, people, stations, c)
    ensures AllEvaluated(g, people, stations, scored + [c])
  {
    assert (scored + [c])[..|scored|] == scored;
  }

  /** The candidates everybody can reach on `g`. */
  ghost function Survivors(g: Graph, n: nat, candidates: set<StationId>): set<StationId>
  {
    set sid | sid in candidates && Survives(g, n, sid)
  }

  lemma {:induction false} SurvivorsAdd(g: Graph, n: nat, candidates: set<StationId>, sid: StationId)
    ensures Survivors(g, n, candidates + {sid}) ==
            Survivors(g, n, candidates) + (if Survives(g, n, sid) then {sid} else {})
  {
  }

  /** The station ids bookkeeping of one pass of the loop over the candidates. */
  lemma {:induction false} IdsStep(g: Graph, n: nat, candidates: seq<StationId>, k: nat, scored: seq<Scored>, c: Option<Scored>)
    requires k < |candidates| && Distinct(candidates)
    requires DistinctIds(scored) && ScoredIds(scored) == Survivors(g, n, Elements(candidates[..k]))
    requires c.Some? <==> Survives(g, n, candidates[k])
    requires c.Some? ==> c.value.id == candidates[k]
    ensures var scored' := if c.Some? then scored + [c.value] else scored;
            DistinctIds(scored') && ScoredIds(scored') == Survivors(g, n, Elements(candidates[..k + 1]))
  {
    var sid := candidates[k];
    assert Elements(candidates[..k + 1]) == Elements(candidates[..k]) + {sid} by {
      assert candidates[..k + 1] == candidates[..k] + [sid];
    }
    SurvivorsAdd(g, n, Elements(candidates[..k]), sid);
    if c.Some? {
      assert sid !in Elements(candidates[..k]);
      ScoredIdsAppend(scored, c.value);
      assert forall i | 0 <= i < |scored| :: scored[i].id in ScoredIds(scored);
    }
  }

  /** One pass of the loop over the candidates. */
  method ScoreNext(g: Graph, people: seq<Person>, stations: map<StationId, Station>,
                   candidates: seq<StationId>, k: nat, scored: seq<Scored>)
    returns (scored': seq<Scored>)
    requires g.Valid() && g.NonNegative() && |people| > 0
    requires k < |candidates| && Distinct(candidates) && candidates[k] in stations
    requires DistinctIds(scored) && AllEvaluated(g, people, stations, scored)
    requires ScoredIds(scored) == Survivors(g, |people|, Elements(candidates[..k]))
    ensures DistinctIds(scored') && AllEvaluated(g, people, stations, scored')
    ensures ScoredIds(scored') == Survivors(g, |people|, Elements(candidates[..k + 1]))
  {
    var c := ScoreCandidate(g, people, stations, candidates[k]);
    IdsStep(g, |people|, candidates, k, scored, c);
    scored' := scored;
    if c.Some? {
      AllEvaluatedAppend(g, people, stations, scored, c.value);
      scored' := scored + [c.value];
    }
  }

  /** The loop over the candidates: one entry per candidate everybody can
      reach, in candidate order. */
  method ScoreAll(g: Graph, people: seq<Person>, stations: map<StationId, Station>, candidates: seq<StationId>)
    returns (scored: seq<Scored>)
    requires g.Valid() && g.NonNegative() && |people| > 0
    requires Distinct(candidates) && forall k | 0 <= k < |candidates| :: candidates[k] in stations
    ensures DistinctIds(scored) && AllEvaluated(g, people, stations, scored)
    ensures ScoredIds(scored) == Survivors(g, |people|, Elements(candidates))
  {
    scored := [];
    assert Elements(candidates[..0]) == {};
    for k := 0 to |candidates|
      invariant DistinctIds(scored) && AllEvaluated(g, people, stations, scored)
      invariant ScoredIds(scored) == Survivors(g, |people|, Elements(candidates[..k]))
    {
      scored := ScoreNext(g, people, stations, candidates, k, scored);
    }
    assert candidates[..|candidates|] == candidates;
  }

  /** What the optimizer answers. */
  datatype Outcome =
    | Failure(error: string)
    | Ranked(fairness: seq<Spot>, efficiency: seq<Spot>, quickArrival: seq<Spot>, easyHome: seq<Spot>)
  {
    function List(m: Mode): seq<Spot>
      requires Ranked?
    {
      match m
      case FairnessMode => fairness
      case EfficiencyMode => efficiency
      case QuickArrivalMode => quickArrival
      case EasyHomeMode => easyHome
    }
  }

  function Origins(people: seq<Person>): (r: seq<Coord>)
    ensures |r| == |people| && forall i | 0 <= i < |r| :: r[i] == people[i].origin
  {
    seq(|people|, i requires 0 <= i < |people| => people[i].origin)
  }

  lemma {:induction false} PickedAppend(stations: map<StationId, Station>, people: seq<Person>, dist: (Coord, Coord) -> real,
                     picks: seq<(seq<Nearby>, seq<Nearby>)>, i: nat, o: seq<Nearby>, h: seq<Nearby>)
    requires i < |people| && Picked(stations, people[..i], dist, picks)
    requires IsNearest(stations, people[i].origin, dist, NUM_NEAREST_STATIONS, o)
    requires IsNearest(stations, people[i].home, dist, NUM_NEAREST_STATIONS, h)
    requires (forall k | 0 <= k < |o| :: o[k].walkMinutes >= 0.0) && (forall k | 0 <= k < |h| :: h[k].walkMinutes >= 0.0)
    ensures Picked(stations, people[..i + 1], dist, picks + [(o, h)])
  {
    var next := picks + [(o, h)];
    forall j | 0 <= j < i + 1
      ensures && IsNearest(stations, people[..i + 1][j].origin, dist, NUM_NEAREST_STATIONS, next[j].0)
              && IsNearest(stations, people[..i + 1][j].home, dist, NUM_NEAREST_STATIONS, next[j].1)
    {
      if j < i {
        assert people[..i + 1][j] == people[..i][j] && next[j] == picks[j];
      }
    }
  }

  /** The loop of `calculate_meetup_spots` that links every person's origin
      and home into the graph copy. */
  method LinkGroup(g: NetGraph, people: seq<Person>, stations: map<StationId, Station>, dist: (Coord, Coord) -> real)
    returns (ghost picks: seq<(seq<Nearby>, seq<Nearby>)>)
    requires IsDistance(dist)
    modifies g
    ensures Picked(stations, people, dist, picks)
    ensures g.View() == AttachAll(old(g.View()), people, picks)
  {
    picks := [];
    for i := 0 to |people|
      invariant Picked(stations, people[..i], dist, picks)
      invariant g.View() == AttachAll(old(g.View()), people[..i], picks)
    {
      ghost var o := ConnectPerson(g, Virtual(Origin, i), people[i].origin, stations, dist);
      ghost var h := ConnectPerson(g, Virtual(Home, i), people[i].home, stations, dist);
      PickedAppend(stations, people, dist, picks, i, o, h);
      picks := picks + [(o, h)];
      assert people[..i + 1][..i] == people[..i];
    }
    assert people[..|people|] == people;
  }

  /** What `calculate_meetup_spots` answers for a group of at least two on the
      graph `net`, given the scored candidates:
      - no candidate station: the "no candidates" error;
      - candidates, but none everybody can reach: the "no reachable" error;
      - otherwise four lists, each the top five of `scored` by its own score,
        where `scored` holds one correct entry per reachable candidate. */
  ghost predicate MeetupOutcome(net: Graph, people: seq<Person>, stations: map<StationId, Station>,
                                dist: (Coord, Coord) -> real, r: Outcome, scored: seq<Scored>)
  {
    var candidates := CandidateSet(stations, Origins(people), CANDIDATE_RADIUS_KM, dist);
    && (candidates == {} <==> r == Failure(NO_CANDIDATES))
    && (candidates != {} && Survivors(net, |people|, candidates) == {} <==> r == Failure(NO_REACHABLE))
    && (Survivors(net, |people|, candidates) != {} <==> r.Ranked?)
    && (r.Ranked? ==>
          && DistinctIds(scored)
          && AllEvaluated(net, people, stations, scored)
          && ScoredIds(scored) == Survivors(net, |people|, candidates)
          && forall m :: RankedBy(r.List(m), scored, m))
  }

  /** The four lists, each sorted by its own score and cut to five. */
  method RankAll(scored: seq<Scored>) returns (r: Outcome)
    requires DistinctIds(scored)
    ensures r.Ranked? && forall m :: RankedBy(r.List(m), scored, m)
  {
    var fairness := Rank(scored, FairnessMode);
    var efficiency := Rank(scored, EfficiencyMode);
    var quickArrival := Rank(scored, QuickArrivalMode);
    var easyHome := Rank(scored, EasyHomeMode);
    r := Ranked(fairness, efficiency, quickArrival, easyHome);
    forall m ensures RankedBy(r.List(m), scored, m) {
    }
  }

  /** `calculate_meetup_spots` from the candidate selection on, on the graph
      with the group linked in. */
  method RankCandidates(net: Graph, people: seq<Person>, stations: map<StationId, Station>, dist: (Coord, Coord) -> real)
    returns (r: Outcome, ghost scored: seq<Scored>)
    requires net.Valid() && net.NonNegative() && |people| >= 2
    ensures r.Failure? ==> r.error == NO_CANDIDATES || r.error == NO_REACHABLE
    ensures r == Failure(NO_CANDIDATES) <==> CandidateSet(stations, Origins(people), CANDIDATE_RADIUS_KM, dist) == {}
    ensures MeetupOutcome(net, people, stations, dist, r, scored)
  {
    var origins := Origins(people);
    var candidates := CandidateStations(stations, origins, CANDIDATE_RADIUS_KM, dist);
    ghost var candidateSet := CandidateSet(stations, origins, CANDIDATE_RADIUS_KM, dist);
    ElementsOf(candidates, candidateSet);
    if |candidates| == 0 {
      return Failure(NO_CANDIDATES), [];
    }
    assert forall k | 0 <= k < |candidates| :: candidates[k] in candidateSet;
    var entries := ScoreAll(net, people, stations, candidates);
    scored := entries;
    if |entries| == 0 {
      assert candidates[0] in candidateSet && ScoredIds(scored) == {};
      return Failure(NO_REACHABLE), scored;
    }
    assert scored[0].id in ScoredIds(scored);
    r := RankAll(entries);
  }

  /** The network with the group linked in can be searched: undirected, and
      no negative weight when the tables have none. */
  lemma {:induction false} GroupNetworkReady(table: map<StationId, Station>, cs: seq<Connection>, ics: seq<Interchange>,
                          people: seq<Person>, picks: seq<(seq<Nearby>, seq<Nearby>)>, dist: (Coord, Coord) -> real)
    requires forall i | 0 <= i < |cs| :: cs[i].minutes >= 0.0
    requires forall i | 0 <= i < |ics| :: ics[i].minutes >= 0.0
    requires Picked(table, people, dist, picks)
    ensures AttachAll(BuiltGraph(table, cs, ics), people, picks).Valid()
    ensures AttachAll(BuiltGraph(table, cs, ics), people, picks).NonNegative()
  {
    BuiltGraphValid(table, cs, ics);
    BuiltGraphNonNegative(table, cs, ics);
    AttachAllPreserves(BuiltGraph(table, cs, ics), people, picks, table, dist);
  }

  /** `calculate_meetup_spots`. The ghost results name the graph the journeys
      were computed on (a copy of the cached network with the group linked in)
      and the scored candidates the lists were ranked from. */
  method CalculateMeetupSpots(cache: Cache, people: seq<Person>, dist: (Coord, Coord) -> real)
    returns (r: Outcome, ghost net: Graph, ghost scored: seq<Scored>)
    requires cache.Valid() && IsDistance(dist)
    requires forall i | 0 <= i < |cache.connections| :: cache.connections[i].minutes >= 0.0
    requires forall i | 0 <= i < |cache.interchanges| :: cache.interchanges[i].minutes >= 0.0
    modifies cache
    ensures cache.Valid()
    ensures |people| < 2 <==> r == Failure(NEED_TWO)
    ensures |people| >= 2 ==>
              exists picks :: Picked(cache.table, people, dist, picks) &&
                net == AttachAll(BuiltGraph(cache.table, cache.connections, cache.interchanges), people, picks)
    ensures |people| >= 2 ==> MeetupOutcome(net, people, cache.table, dist, r, scored)
  {
    if |people| < 2 {
      return Failure(NEED_TWO), Graph({}, map[]), [];
    }
    var graph := cache.GetGraph();
    var stations := cache.GetStations();
    var g := graph.Copy();
    assert g != cache.graph && cache.Valid();
    ghost var picks := LinkGroup(g, people, stations, dist);
    assert cache.Valid();
    var view := g.View();
    net := view;
    assert view == AttachAll(BuiltGraph(cache.table, cache.connections, cache.interchanges), people, picks);
    GroupNetworkReady(cache.table, cache.connections, cache.interchanges, people, picks, dist);
    r, scored := RankCandidates(view, people, stations, dist);
  }
}
