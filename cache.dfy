/**
 * The module-level cache of meetup/services/graph.py: the graph, the stations
 * table and the name lookup are built on first use and kept until
 * `reset_cache`. Reading the three CSV tables is not modelled: their contents
 * are the constant fields `table`, `connections` and `interchanges`.
 */
module NetworkCache {
  import opened Wrappers
  import opened Sets
  import opened Text
  import opened TransitGraph

  /** `m` maps every lower-cased station name of `table` to a station of that name. */
  ghost predicate IsLookup(m: map<string, StationId>, table: map<StationId, Station>)
  {
    && (forall sid | sid in table :: Lower(table[sid].name) in m)
    && (forall name | name in m :: m[name] in table && Lower(table[m[name]].name) == name)
  }

  class Cache {
    const table: map<StationId, Station>
    const connections: seq<Connection>
    const interchanges: seq<Interchange>

    /** `_graph`, `_stations` and `_station_lookup`. */
    var graph: NetGraph?
    var stations: Option<map<StationId, Station>>
    var lookup: Option<map<string, StationId>>

    /** How many times the graph has been built since the last reset. */
    ghost var builds: nat

    ghost predicate Valid()
      reads this, graph
    {
      && (graph != null ==> graph.View() == BuiltGraph(table, connections, interchanges) && stations == Some(table))
      && (stations.Some? ==> stations.value == table)
      && (lookup.Some? ==> IsLookup(lookup.value, table))
      && (graph == null <==> builds == 0)
      && builds <= 1
    }

    constructor (table: map<StationId, Station>, connections: seq<Connection>, interchanges: seq<Interchange>)
      ensures Valid() && fresh(this)
      ensures this.table == table && this.connections == connections && this.interchanges == interchanges
      ensures graph == null && stations == None && lookup == None
    {
      this.table := table;
      this.connections := connections;
      this.interchanges := interchanges;
      graph := null;
      stations := None;
      lookup := None;
      builds := 0;
    }

    /** `get_graph`: builds the graph on the first call only; later calls return
        the same object. */
    method GetGraph() returns (g: NetGraph)
      requires Valid()
      modifies this
      ensures Valid()
      ensures g == graph && g.View() == BuiltGraph(table, connections, interchanges)
      ensures old(graph) != null ==> g == old(graph) && builds == old(builds)
      ensures old(graph) == null ==> fresh(g) && builds == old(builds) + 1
      ensures builds == 1 && lookup == old(lookup)
    {
      if graph == null {
        stations := Some(table);
        graph := BuildGraph(table, connections, interchanges);
        builds := builds + 1;
      }
      g := graph;
    }

    /** `get_stations`: the stations table, building the graph first if needed. */
    method GetStations() returns (s: map<StationId, Station>)
      requires Valid()
      modifies this
      ensures Valid()
      ensures s == table && stations == Some(table)
      ensures old(stations).Some? ==> graph == old(graph) && builds == old(builds)
      ensures old(stations).None? ==> graph != null && graph.View() == BuiltGraph(table, connections, interchanges)
      ensures old(stations).None? && old(graph) == null ==> fresh(graph) && builds == old(builds) + 1
      ensures old(graph) != null ==> graph == old(graph)
      ensures lookup == old(lookup)
    {
      if stations.None? {
        var g := GetGraph();
      }
      s := stations.value;
    }

    /** `get_station_lookup`: lower-cased station name to station id. When two
        stations share a name the later one in the table's order wins; that
        order is not modelled, so which of them is left open. */
    method GetStationLookup() returns (m: map<string, StationId>)
      requires Valid()
      modifies this
      ensures Valid()
      ensures IsLookup(m, table)
      ensures lookup == Some(m)
      ensures old(lookup).Some? ==> m == old(lookup).value && graph == old(graph)
    {
      if lookup.Some? {
        return lookup.value;
      }
      var s := GetStations();
      m := map[];
      var todo := s.Keys;
      while todo != {}
        invariant Valid()
        invariant todo <= s.Keys
        invariant forall sid | sid in s.Keys - todo :: Lower(s[sid].name) in m
        invariant forall name | name in m :: m[name] in s && Lower(s[m[name]].name) == name
        decreases todo
      {
        ghost var someSid := Elem(todo);
        var sid :| sid in todo;
        m := m[Lower(s[sid].name) := sid];
        todo := todo - {sid};
      }
      lookup := Some(m);
    }

    /** `reset_cache`: forgets the graph, the stations and the lookup. */
    method ResetCache()
      requires Valid()
      modifies this
      ensures Valid()
      ensures graph == null && stations == None && lookup == None && builds == 0
    {
      graph := null;
      stations := None;
      lookup := None;
      builds := 0;
    }
  }
}
