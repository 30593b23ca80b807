/**
 * The transit network graph of meetup/services/graph.py.
 *
 * Nodes are "being at station s on line l" (LineNode), "being at station s,
 * line-agnostic" (Hub) and the per-request person nodes the optimizer adds
 * (Virtual). The graph is undirected: an edge is stored under both orderings of
 * its end points, with the same weight and line tag.
 */
module TransitGraph {
  import opened Text
  import opened Sets

  type StationId = int
  type Line = string

  datatype Coord = Coord(lat: real, lon: real)

  /** A row of the stations table; the fare zone is never read by routing. */
  datatype Station = Station(name: string, coord: Coord)

  /** A row of the connections table. */
  datatype Connection = Connection(station1: StationId, station2: StationId, line: Line, minutes: real)

  /** A row of the interchanges table. */
  datatype Interchange = Interchange(stationName: string, fromLine: Line, toLine: Line, minutes: real)

  datatype Role = Origin | Home

  datatype Node =
    | LineNode(station: StationId, line: Line)
    | Hub(station: StationId)
    | Virtual(role: Role, person: nat)

  /** Line tags of the synthetic edges that are not rides on a line. */
  const TRANSFER: Line := "transfer"
  const WALKING: Line := "walking"

  /** Transfer time assumed when the interchanges table has no entry. */
  const DEFAULT_TRANSFER: real := 4.0

  datatype EdgeInfo = EdgeInfo(weight: real, line: Line)

  type TransferKey = (string, Line, Line)

  datatype Graph = Graph(nodes: set<Node>, edges: map<(Node, Node), EdgeInfo>) {

    /** Undirected: both orderings of an edge are present and agree. */
    ghost predicate Valid()
    {
      forall e | e in edges :: e.0 in nodes && e.1 in nodes && (e.1, e.0) in edges && edges[(e.1, e.0)] == edges[e]
    }

    ghost predicate NonNegative()
    {
      forall e | e in edges :: edges[e].weight >= 0.0
    }

    /** `G.add_node(n)`: display attributes are not modelled. */
    function AddNode(n: Node): Graph
    {
      Graph(nodes + {n}, edges)
    }

    /** `G.add_edge(u, v, ...)`: adds missing end points; an existing edge gets the new attributes. */
    function AddEdge(u: Node, v: Node, info: EdgeInfo): (g: Graph)
      ensures Valid() ==> g.Valid()
      ensures NonNegative() && info.weight >= 0.0 ==> g.NonNegative()
      ensures (u, v) in g.edges && (v, u) in g.edges && g.edges[(u, v)] == info && g.edges[(v, u)] == info
    {
      Graph(nodes + {u, v}, edges[(u, v) := info][(v, u) := info])
    }
  }

  /** A networkx graph object: the state that `_build_graph` and the optimizer update in place. */
  class NetGraph {
    var nodes: set<Node>
    var edges: map<(Node, Node), EdgeInfo>

    function View(): Graph
      reads this
    {
      Graph(nodes, edges)
    }

    constructor ()
      ensures View() == Graph({}, map[])
    {
      nodes := {};
      edges := map[];
    }

    method AddNode(n: Node)
      modifies this
      ensures View() == old(View()).AddNode(n)
    {
      nodes := nodes + {n};
    }

    method AddEdge(u: Node, v: Node, info: EdgeInfo)
      modifies this
      ensures View() == old(View()).AddEdge(u, v, info)
    {
      nodes := nodes + {u, v};
      edges := edges[(u, v) := info][(v, u) := info];
    }

    /** `G.copy()`: a new object with the same nodes and edges. */
    method Copy() returns (c: NetGraph)
      ensures fresh(c) && c.View() == View()
    {
      c := new NetGraph();
      c.nodes := nodes;
      c.edges := edges;
    }
  }

  // ---------------------------------------------------------------------------
  // The graph `_build_graph` produces, stated declaratively
  // ---------------------------------------------------------------------------

  function End1(c: Connection): Node
  {
    LineNode(c.station1, c.line)
  }

  function End2(c: Connection): Node
  {
    LineNode(c.station2, c.line)
  }

  /** Connection row `c` joins the two end points of `e`, in either order. */
  predicate Joins(c: Connection, e: (Node, Node))
  {
    e == (End1(c), End2(c)) || e == (End2(c), End1(c))
  }

  /** The graph after the loop over the connections table. */
  function ConnectionGraph(cs: seq<Connection>): Graph
  {
    if cs == [] then Graph({}, map[])
    else
      var c := cs[|cs| - 1];
      ConnectionGraph(cs[..|cs| - 1]).AddEdge(End1(c), End2(c), EdgeInfo(c.minutes, c.line))
  }

  function AddLine(m: map<StationId, set<Line>>, s: StationId, l: Line): map<StationId, set<Line>>
  {
    m[s := (if s in m then m[s] else {}) + {l}]
  }

  /** `station_lines`: the lines each station is served by, according to the connections. */
  function StationLines(cs: seq<Connection>): map<StationId, set<Line>>
  {
    if cs == [] then map[]
    else
      var c := cs[|cs| - 1];
      AddLine(AddLine(StationLines(cs[..|cs| - 1]), c.station1, c.line), c.station2, c.line)
  }

  /** `interchange_times`: each row answers for its line pair and the reversed pair;
      a later row replaces an earlier one with the same key. */
  function InterchangeTimes(ics: seq<Interchange>): map<TransferKey, real>
  {
    if ics == [] then map[]
    else
      var ic := ics[|ics| - 1];
      var name := Lower(ic.stationName);
      InterchangeTimes(ics[..|ics| - 1])[(name, ic.fromLine, ic.toLine) := ic.minutes][(name, ic.toLine, ic.fromLine) := ic.minutes]
  }

  /** The default transfer time and half of every interchange time from `line`
      to another line at the station. */
  ghost function TransferOptions(name: string, line: Line, lines: set<Line>, times: map<TransferKey, real>): set<real>
  {
    {DEFAULT_TRANSFER} + (set o | o in lines && o != line && (name, line, o) in times :: times[(name, line, o)] / 2.0)
  }

  /** Weight of the hub edge of `line` at a station served by several lines. */
  ghost function HubWeight(name: string, line: Line, lines: set<Line>, times: map<TransferKey, real>): real
  {
    SetMin(TransferOptions(name, line, lines, times))
  }

  /** Weight of the hub edge of line `l` at station `s`. */
  ghost function HubLinkWeight(stations: map<StationId, Station>, sl: map<StationId, set<Line>>,
                               times: map<TransferKey, real>, s: StationId, l: Line): real
    requires s in stations && s in sl
  {
    if |sl[s]| == 1 then 0.0 else HubWeight(Lower(stations[s].name), l, sl[s], times)
  }

  ghost predicate LinksOk(stations: map<StationId, Station>, sl: map<StationId, set<Line>>, links: set<(StationId, Line)>)
  {
    forall p | p in links :: p.0 in stations && p.0 in sl
  }

  /** The (station, line) pairs that get a hub edge, for the stations in `done`. */
  ghost function HubLinks(stations: map<StationId, Station>, sl: map<StationId, set<Line>>, done: set<StationId>): (r: set<(StationId, Line)>)
    ensures LinksOk(stations, sl, r)
  {
    set s, l | s in done && s in stations && s in sl && l in sl[s] :: (s, l)
  }

  ghost function HubNodes(stations: map<StationId, Station>, sl: map<StationId, set<Line>>, done: set<StationId>): set<Node>
  {
    set s | s in done && s in stations && s in sl :: Hub(s)
  }

  ghost function HubEdgeKeys(links: set<(StationId, Line)>): set<(Node, Node)>
  {
    (set p | p in links :: (Hub(p.0), LineNode(p.0, p.1))) + (set p | p in links :: (LineNode(p.0, p.1), Hub(p.0)))
  }

  /** The (station, line) pair of a hub edge key. */
  function LinkOf(e: (Node, Node)): (StationId, Line)
  {
    if e.0.LineNode? then (e.0.station, e.0.line)
    else if e.1.LineNode? then (e.1.station, e.1.line)
    else (0, "")
  }

  ghost function HubEdges(stations: map<StationId, Station>, sl: map<StationId, set<Line>>,
                          times: map<TransferKey, real>, links: set<(StationId, Line)>): map<(Node, Node), EdgeInfo>
    requires LinksOk(stations, sl, links)
  {
    map e | e in HubEdgeKeys(links) :: EdgeInfo(HubLinkWeight(stations, sl, times, LinkOf(e).0, LinkOf(e).1), TRANSFER)
  }

  /** The graph `_build_graph(stations, connections, interchanges)` returns. */
  ghost function BuiltGraph(stations: map<StationId, Station>, cs: seq<Connection>, ics: seq<Interchange>): Graph
  {
    var base := ConnectionGraph(cs);
    var sl := StationLines(cs);
    var times := InterchangeTimes(ics);
    Graph(base.nodes + HubNodes(stations, sl, sl.Keys),
          base.edges + HubEdges(stations, sl, times, HubLinks(stations, sl, sl.Keys)))
  }

  // ---------------------------------------------------------------------------
  // _build_graph
  // ---------------------------------------------------------------------------

  /** The inner loop of `_build_graph` over the other lines at a station:
      min(4.0, half of each matching interchange time). */
  method MinTransferTime(name: string, line: Line, lines: set<Line>, times: map<TransferKey, real>) returns (m: real)
    ensures m == HubWeight(name, line, lines, times)
  {
    m := DEFAULT_TRANSFER;
    var others := lines;
    while others != {}
      invariant others <= lines
      invariant m in TransferOptions(name, line, lines - others, times)
      invariant forall y | y in TransferOptions(name, line, lines - others, times) :: m <= y
      decreases others
    {
      ghost var someOther := Elem(others);
      var other :| other in others;
      ghost var before := TransferOptions(name, line, lines - others, times);
      others := others - {other};
      ghost var after := TransferOptions(name, line, lines - others, times);
      if other != line && (name, line, other) in times {
        assert after == before + {times[(name, line, other)] / 2.0};
        var half := times[(name, line, other)] / 2.0;
        if half < m {
          m := half;
        }
      } else {
        assert after == before;
      }
    }
    assert lines - others == lines;
  }

  lemma {:induction false} UnionUpdate<K, V>(a: map<K, V>, b: map<K, V>, k: K, v: V)
    ensures a + b[k := v] == (a + b)[k := v]
  {
  }

  lemma {:induction false} HubEdgesAdd(stations: map<StationId, Station>, sl: map<StationId, set<Line>>,
                    times: map<TransferKey, real>, links: set<(StationId, Line)>, s: StationId, l: Line)
    requires LinksOk(stations, sl, links) && s in stations && s in sl
    ensures LinksOk(stations, sl, links + {(s, l)})
    ensures HubEdges(stations, sl, times, links + {(s, l)})
         == HubEdges(stations, sl, times, links)[(Hub(s), LineNode(s, l)) := EdgeInfo(HubLinkWeight(stations, sl, times, s, l), TRANSFER)]
                                                [(LineNode(s, l), Hub(s)) := EdgeInfo(HubLinkWeight(stations, sl, times, s, l), TRANSFER)]
  {
    var big := links + {(s, l)};
    assert HubEdgeKeys(big) == HubEdgeKeys(links) + {(Hub(s), LineNode(s, l)), (LineNode(s, l), Hub(s))};
  }

  lemma {:induction false} StationLinesHaveNodes(cs: seq<Connection>)
    ensures forall s, l | s in StationLines(cs) && l in StationLines(cs)[s] :: LineNode(s, l) in ConnectionGraph(cs).nodes
  {
    if cs != [] {
      StationLinesHaveNodes(cs[..|cs| - 1]);
    }
  }

  /** The loop over the connections table (graph.py lines 90-114): line nodes,
      ride edges and `station_lines`. */
  method AddConnections(g: NetGraph, stations: map<StationId, Station>, connections: seq<Connection>)
    returns (stationLines: map<StationId, set<Line>>)
    modifies g
    requires g.View() == Graph({}, map[])
    ensures g.View() == ConnectionGraph(connections)
    ensures stationLines == StationLines(connections)
  {
    stationLines := map[];
    for i := 0 to |connections|
      invariant g.View() == ConnectionGraph(connections[..i])
      invariant stationLines == StationLines(connections[..i])
    {
      var c := connections[i];
      assert connections[..i + 1][..i] == connections[..i];
      stationLines := AddLine(AddLine(stationLines, c.station1, c.line), c.station2, c.line);
      var node1 := LineNode(c.station1, c.line);
      var node2 := LineNode(c.station2, c.line);
      ghost var before := g.View();
      if c.station1 in stations {
        g.AddNode(node1);
      }
      if c.station2 in stations {
        g.AddNode(node2);
      }
      assert g.View().edges == before.edges && before.nodes <= g.View().nodes <= before.nodes + {node1, node2};
      g.AddEdge(node1, node2, EdgeInfo(c.minutes, c.line));
      assert g.View() == before.AddEdge(node1, node2, EdgeInfo(c.minutes, c.line));
    }
    assert connections[..|connections|] == connections;
  }

  /** The loop over the interchanges table (graph.py lines 124-130). */
  method ReadInterchanges(interchanges: seq<Interchange>) returns (times: map<TransferKey, real>)
    ensures times == InterchangeTimes(interchanges)
  {
    times := map[];
    for i := 0 to |interchanges|
      invariant times == InterchangeTimes(interchanges[..i])
    {
      var ic := interchanges[i];
      var name := Lower(ic.stationName);
      times := times[(name, ic.fromLine, ic.toLine) := ic.minutes];
      times := times[(name, ic.toLine, ic.fromLine) := ic.minutes];
      assert interchanges[..i + 1][..i] == interchanges[..i];
    }
    assert interchanges[..|interchanges|] == interchanges;
  }

  /** One transfer edge between the hub of station `sid` and its `line` node
      (graph.py lines 146-174). */
  method AddHubLink(g: NetGraph, stations: map<StationId, Station>, sl: map<StationId, set<Line>>,
                    times: map<TransferKey, real>, ghost baseEdges: map<(Node, Node), EdgeInfo>,
                    sid: StationId, line: Line, ghost links: set<(StationId, Line)>)
    modifies g
    requires sid in stations && sid in sl
    requires LinksOk(stations, sl, links)
    requires Hub(sid) in g.nodes && LineNode(sid, line) in g.nodes
    requires g.edges == baseEdges + HubEdges(stations, sl, times, links)
    ensures LinksOk(stations, sl, links + {(sid, line)})
    ensures g.nodes == old(g.nodes)
    ensures g.edges == baseEdges + HubEdges(stations, sl, times, links + {(sid, line)})
  {
    var lines := sl[sid];
    var weight: real;
    if |lines| == 1 {
      weight := 0.0;
    } else {
      weight := MinTransferTime(Lower(stations[sid].name), line, lines, times);
    }
    assert weight == HubLinkWeight(stations, sl, times, sid, line);
    var info := EdgeInfo(weight, TRANSFER);
    ghost var hubEdges := HubEdges(stations, sl, times, links);
    HubEdgesAdd(stations, sl, times, links, sid, line);
    g.AddEdge(Hub(sid), LineNode(sid, line), info);
    UnionUpdate(baseEdges, hubEdges, (Hub(sid), LineNode(sid, line)), info);
    UnionUpdate(baseEdges, hubEdges[(Hub(sid), LineNode(sid, line)) := info], (LineNode(sid, line), Hub(sid)), info);
  }

  /** One pass of the hub loop (graph.py lines 133-174): the hub node of station
      `sid` and one transfer edge per line serving it. */
  method AddStationHub(g: NetGraph, stations: map<StationId, Station>, sl: map<StationId, set<Line>>,
                       times: map<TransferKey, real>, ghost base: Graph, ghost done: set<StationId>,
                       sid: StationId, ghost links: set<(StationId, Line)>)
    returns (ghost links': set<(StationId, Line)>)
    modifies g
    requires sid in stations && sid in sl
    requires links == HubLinks(stations, sl, done)
    requires forall l | l in sl[sid] :: LineNode(sid, l) in base.nodes
    requires g.View() == Graph(base.nodes + HubNodes(stations, sl, done), base.edges + HubEdges(stations, sl, times, links))
    ensures links' == HubLinks(stations, sl, done + {sid})
    ensures g.View() == Graph(base.nodes + HubNodes(stations, sl, done + {sid}), base.edges + HubEdges(stations, sl, times, links'))
  {
    var hub := Hub(sid);
    g.AddNode(hub);
    assert HubNodes(stations, sl, done + {sid}) == HubNodes(stations, sl, done) + {hub};
    ghost var nodes := base.nodes + HubNodes(stations, sl, done + {sid});
    var lines := sl[sid];
    var pending := lines;
    links' := links;
    while pending != {}
      invariant pending <= lines
      invariant links' == links + (set l | l in lines - pending :: (sid, l))
      invariant LinksOk(stations, sl, links')
      invariant g.nodes == nodes
      invariant g.edges == base.edges + HubEdges(stations, sl, times, links')
      decreases pending
    {
      ghost var someLine := Elem(pending);
      var line :| line in pending;
      ghost var linesBefore := lines - pending;
      pending := pending - {line};
      AddHubLink(g, stations, sl, times, base.edges, sid, line, links');
      assert lines - pending == linesBefore + {line};
      assert (set l | l in lines - pending :: (sid, l)) == (set l | l in linesBefore :: (sid, l)) + {(sid, line)};
      links' := links' + {(sid, line)};
    }
    assert lines - pending == lines;
    assert HubLinks(stations, sl, done + {sid}) == links + (set l | l in lines :: (sid, l));
  }

  /** The hub loop over `station_lines` (graph.py lines 132-174); a station missing
      from the stations table gets no hub. */
  method AddHubs(g: NetGraph, stations: map<StationId, Station>, sl: map<StationId, set<Line>>,
                 times: map<TransferKey, real>, ghost base: Graph)
    modifies g
    requires forall s, l | s in sl && l in sl[s] :: LineNode(s, l) in base.nodes
    requires g.View() == base
    ensures g.View() == Graph(base.nodes + HubNodes(stations, sl, sl.Keys),
                              base.edges + HubEdges(stations, sl, times, HubLinks(stations, sl, sl.Keys)))
  {
    var todo := sl.Keys;
    ghost var links: set<(StationId, Line)> := {};
    assert HubNodes(stations, sl, {}) == {};
    assert HubEdges(stations, sl, times, {}) == map[];
    while todo != {}
      invariant todo <= sl.Keys
      invariant links == HubLinks(stations, sl, sl.Keys - todo)
      invariant g.View() == Graph(base.nodes + HubNodes(stations, sl, sl.Keys - todo),
                                  base.edges + HubEdges(stations, sl, times, links))
      decreases todo
    {
      ghost var someSid := Elem(todo);
      var sid :| sid in todo;
      ghost var done := sl.Keys - todo;
      todo := todo - {sid};
      assert sl.Keys - todo == done + {sid};
      if sid in stations {
        links := AddStationHub(g, stations, sl, times, base, done, sid, links);
      } else {
        assert HubLinks(stations, sl, done + {sid}) == HubLinks(stations, sl, done);
        assert HubNodes(stations, sl, done + {sid}) == HubNodes(stations, sl, done);
      }
    }
    assert sl.Keys - todo == sl.Keys;
  }

  /** `_build_graph` (graph.py lines 74-176), with the stations table as a map
      from station id to its row. */
  method BuildGraph(stations: map<StationId, Station>, connections: seq<Connection>, interchanges: seq<Interchange>)
    returns (g: NetGraph)
    ensures fresh(g)
    ensures g.View() == BuiltGraph(stations, connections, interchanges)
  {
    g := new NetGraph();
    var stationLines := AddConnections(g, stations, connections);
    var times := ReadInterchanges(interchanges);
    StationLinesHaveNodes(connections);
    AddHubs(g, stations, stationLines, times, ConnectionGraph(connections));
  }

  // ---------------------------------------------------------------------------
  // Properties of the built graph
  // ---------------------------------------------------------------------------

  /** Connection row `c` has station `s` as one of its two ends. */
  predicate Touches(c: Connection, s: StationId)
  {
    c.station1 == s || c.station2 == s
  }

  /** Interchange row `ic` gives the transfer time for `key`, in either line order. */
  predicate Answers(ic: Interchange, key: TransferKey)
  {
    && Lower(ic.stationName) == key.0
    && ((ic.fromLine == key.1 && ic.toLine == key.2) || (ic.toLine == key.1 && ic.fromLine == key.2))
  }

  lemma {:induction false} ConnectionGraphValid(cs: seq<Connection>)
    ensures ConnectionGraph(cs).Valid()
  {
    if cs != [] {
      ConnectionGraphValid(cs[..|cs| - 1]);
    }
  }

  lemma {:induction false} ConnectionGraphNodes(cs: seq<Connection>)
    ensures forall n | n in ConnectionGraph(cs).nodes :: n.LineNode?
  {
    if cs != [] {
      ConnectionGraphNodes(cs[..|cs| - 1]);
    }
  }

  lemma {:induction false} ConnectionGraphEdges(cs: seq<Connection>)
    ensures forall e | e in ConnectionGraph(cs).edges :: exists i | 0 <= i < |cs| :: Joins(cs[i], e)
  {
    if cs != [] {
      var init := cs[..|cs| - 1];
      ConnectionGraphEdges(init);
      forall e | e in ConnectionGraph(cs).edges
        ensures exists i | 0 <= i < |cs| :: Joins(cs[i], e)
      {
        if !Joins(cs[|cs| - 1], e) {
          assert e in ConnectionGraph(init).edges;
          var i :| 0 <= i < |init| && Joins(init[i], e);
          assert cs[i] == init[i];
        }
      }
    }
  }

  /** The ride graph is undirected, holds only line nodes, and each of its edges
      joins the end points of some row. */
  lemma {:induction false} ConnectionGraphShape(cs: seq<Connection>)
    ensures ConnectionGraph(cs).Valid()
    ensures forall n | n in ConnectionGraph(cs).nodes :: n.LineNode?
    ensures forall e | e in ConnectionGraph(cs).edges :: exists i | 0 <= i < |cs| :: Joins(cs[i], e)
  {
    ConnectionGraphValid(cs);
    ConnectionGraphNodes(cs);
    ConnectionGraphEdges(cs);
  }

  /** The ride edge of connection `i` carries that row's time and line unless a
      later row joins the same two line nodes: the last such row wins. */
  lemma {:induction false} ConnectionLastWins(cs: seq<Connection>, i: nat)
    requires i < |cs|
    requires forall j | i < j < |cs| :: !Joins(cs[j], (End1(cs[i]), End2(cs[i])))
    ensures (End1(cs[i]), End2(cs[i])) in ConnectionGraph(cs).edges
    ensures (End2(cs[i]), End1(cs[i])) in ConnectionGraph(cs).edges
    ensures ConnectionGraph(cs).edges[(End1(cs[i]), End2(cs[i]))] == EdgeInfo(cs[i].minutes, cs[i].line)
    ensures ConnectionGraph(cs).edges[(End2(cs[i]), End1(cs[i]))] == EdgeInfo(cs[i].minutes, cs[i].line)
  {
    if i < |cs| - 1 {
      var init := cs[..|cs| - 1];
      assert init[i] == cs[i];
      forall j | i < j < |init| ensures !Joins(init[j], (End1(init[i]), End2(init[i]))) {
        assert init[j] == cs[j];
      }
      ConnectionLastWins(init, i);
      assert !Joins(cs[|cs| - 1], (End1(cs[i]), End2(cs[i])));
    }
  }

  /** A station has an entry in `station_lines` exactly when a row touches it. */
  lemma {:induction false} StationLinesHas(cs: seq<Connection>, s: StationId)
    ensures s in StationLines(cs) <==> exists i | 0 <= i < |cs| :: Touches(cs[i], s)
  {
    if cs != [] {
      var init := cs[..|cs| - 1];
      StationLinesHas(init, s);
      if s in StationLines(init) {
        var i :| 0 <= i < |init| && Touches(init[i], s);
        assert cs[i] == init[i];
      }
      if exists i | 0 <= i < |cs| :: Touches(cs[i], s) {
        var i :| 0 <= i < |cs| && Touches(cs[i], s);
        if i < |init| {
          assert init[i] == cs[i];
        }
      }
    }
  }

  /** A line is in a station's entry exactly when a row on that line touches it. */
  lemma {:induction false} StationLinesLine(cs: seq<Connection>, s: StationId, l: Line)
    ensures s in StationLines(cs) ==>
              (l in StationLines(cs)[s] <==> exists i | 0 <= i < |cs| :: Touches(cs[i], s) && cs[i].line == l)
  {
    if cs != [] {
      var init := cs[..|cs| - 1];
      var c := cs[|cs| - 1];
      StationLinesLine(init, s, l);
      StationLinesHas(init, s);
      if exists i | 0 <= i < |cs| :: Touches(cs[i], s) && cs[i].line == l {
        var i :| 0 <= i < |cs| && Touches(cs[i], s) && cs[i].line == l;
        if i < |init| {
          assert init[i] == cs[i];
          assert Touches(init[i], s);
        }
      }
      if s in StationLines(cs) && l in StationLines(cs)[s] && !(Touches(c, s) && c.line == l) {
        assert s in StationLines(init) && l in StationLines(init)[s];
        var i :| 0 <= i < |init| && Touches(init[i], s) && init[i].line == l;
        assert cs[i] == init[i];
      }
    }
  }

  lemma {:induction false} StationLinesSpec(cs: seq<Connection>)
    ensures forall s :: s in StationLines(cs) <==> exists i | 0 <= i < |cs| :: Touches(cs[i], s)
    ensures forall s, l | s in StationLines(cs) ::
              l in StationLines(cs)[s] <==> exists i | 0 <= i < |cs| :: Touches(cs[i], s) && cs[i].line == l
  {
    forall s ensures s in StationLines(cs) <==> exists i | 0 <= i < |cs| :: Touches(cs[i], s) {
      StationLinesHas(cs, s);
    }
    forall s, l | s in StationLines(cs)
      ensures l in StationLines(cs)[s] <==> exists i | 0 <= i < |cs| :: Touches(cs[i], s) && cs[i].line == l
    {
      StationLinesLine(cs, s, l);
    }
  }

  /** The interchange table answers for a line pair exactly when some row names
      that pair, in either order. */
  lemma {:induction false} InterchangeTimesSpec(ics: seq<Interchange>)
    ensures forall k :: k in InterchangeTimes(ics) <==> exists i | 0 <= i < |ics| :: Answers(ics[i], k)
  {
    if ics != [] {
      var init := ics[..|ics| - 1];
      InterchangeTimesSpec(init);
      forall k ensures k in InterchangeTimes(ics) <==> exists i | 0 <= i < |ics| :: Answers(ics[i], k) {
        if k in InterchangeTimes(init) {
          var i :| 0 <= i < |init| && Answers(init[i], k);
          assert ics[i] == init[i];
        }
        if exists i | 0 <= i < |ics| :: Answers(ics[i], k) {
          var i :| 0 <= i < |ics| && Answers(ics[i], k);
          if i < |init| {
            assert init[i] == ics[i];
          }
        }
      }
    }
  }

  /** A transfer from line a to line b costs what a transfer from b to a costs. */
  lemma {:induction false} InterchangeTimesSymmetric(ics: seq<Interchange>)
    ensures forall k | k in InterchangeTimes(ics) ::
              (k.0, k.2, k.1) in InterchangeTimes(ics) && InterchangeTimes(ics)[(k.0, k.2, k.1)] == InterchangeTimes(ics)[k]
  {
    if ics != [] {
      InterchangeTimesSymmetric(ics[..|ics| - 1]);
    }
  }

  lemma {:induction false} InterchangeTimesNonNegative(ics: seq<Interchange>)
    requires forall i | 0 <= i < |ics| :: ics[i].minutes >= 0.0
    ensures forall k | k in InterchangeTimes(ics) :: InterchangeTimes(ics)[k] >= 0.0
  {
    if ics != [] {
      InterchangeTimesNonNegative(ics[..|ics| - 1]);
    }
  }

  lemma {:induction false} ConnectionGraphNonNegative(cs: seq<Connection>)
    requires forall i | 0 <= i < |cs| :: cs[i].minutes >= 0.0
    ensures ConnectionGraph(cs).NonNegative()
  {
    if cs != [] {
      ConnectionGraphNonNegative(cs[..|cs| - 1]);
    }
  }

  lemma {:induction false} HubEdgeKeysShape(links: set<(StationId, Line)>)
    ensures forall e | e in HubEdgeKeys(links) ::
              && LinkOf(e) in links
              && (e == (Hub(LinkOf(e).0), LineNode(LinkOf(e).0, LinkOf(e).1)) || e == (LineNode(LinkOf(e).0, LinkOf(e).1), Hub(LinkOf(e).0)))
  {
  }

  /** A hub edge runs between a station's hub and one of its line nodes, and
      its reverse is a hub edge of the same weight. */
  lemma {:induction false} HubEdgeReverse(stations: map<StationId, Station>, sl: map<StationId, set<Line>>,
                       times: map<TransferKey, real>, links: set<(StationId, Line)>, e: (Node, Node))
    requires LinksOk(stations, sl, links) && e in HubEdges(stations, sl, times, links)
    ensures LinkOf(e) in links
    ensures e.0 in {Hub(LinkOf(e).0), LineNode(LinkOf(e).0, LinkOf(e).1)}
    ensures e.1 in {Hub(LinkOf(e).0), LineNode(LinkOf(e).0, LinkOf(e).1)}
    ensures (e.1, e.0) in HubEdges(stations, sl, times, links)
    ensures HubEdges(stations, sl, times, links)[(e.1, e.0)] == HubEdges(stations, sl, times, links)[e]
  {
    HubEdgeKeysShape(links);
    assert LinkOf((e.1, e.0)) == LinkOf(e);
  }

  /** No hub edge joins two line nodes. */
  lemma {:induction false} HubEdgeHasHub(stations: map<StationId, Station>, sl: map<StationId, set<Line>>,
                      times: map<TransferKey, real>, links: set<(StationId, Line)>, e: (Node, Node))
    requires LinksOk(stations, sl, links) && e.0.LineNode? && e.1.LineNode?
    ensures e !in HubEdges(stations, sl, times, links)
  {
    HubEdgeKeysShape(links);
  }

  /** The graph `_build_graph` returns is undirected and every edge joins two of its nodes. */
  lemma {:induction false} BuiltGraphValid(stations: map<StationId, Station>, cs: seq<Connection>, ics: seq<Interchange>)
    ensures BuiltGraph(stations, cs, ics).Valid()
  {
    var g := BuiltGraph(stations, cs, ics);
    var base := ConnectionGraph(cs);
    var sl := StationLines(cs);
    var times := InterchangeTimes(ics);
    var links := HubLinks(stations, sl, sl.Keys);
    var hubEdges := HubEdges(stations, sl, times, links);
    assert g.nodes == base.nodes + HubNodes(stations, sl, sl.Keys);
    assert g.edges == base.edges + hubEdges;
    ConnectionGraphShape(cs);
    StationLinesHaveNodes(cs);
    forall e | e in g.edges
      ensures e.0 in g.nodes && e.1 in g.nodes && (e.1, e.0) in g.edges && g.edges[(e.1, e.0)] == g.edges[e]
    {
      if e in hubEdges {
        HubEdgeReverse(stations, sl, times, links, e);
        var p := LinkOf(e);
        assert Hub(p.0) in HubNodes(stations, sl, sl.Keys);
        assert LineNode(p.0, p.1) in base.nodes;
      } else {
        assert e in base.edges;
        HubEdgeHasHub(stations, sl, times, links, (e.1, e.0));
      }
    }
  }

  /** A hub edge weighs nothing or the least of 4 minutes and half of some
      interchange time, so it is never negative when those times are not. */
  lemma {:induction false} HubLinkWeightNonNegative(stations: map<StationId, Station>, sl: map<StationId, set<Line>>,
                                                    times: map<TransferKey, real>, s: StationId, l: Line)
    requires s in stations && s in sl
    requires forall k | k in times :: times[k] >= 0.0
    ensures HubLinkWeight(stations, sl, times, s, l) >= 0.0
  {
    if |sl[s]| != 1 {
      var opts := TransferOptions(Lower(stations[s].name), l, sl[s], times);
      assert forall y | y in opts :: y >= 0.0;
    }
  }

  /** With non-negative ride and interchange times, every edge weight is non-negative. */
  lemma {:induction false} BuiltGraphNonNegative(stations: map<StationId, Station>, cs: seq<Connection>, ics: seq<Interchange>)
    requires forall i | 0 <= i < |cs| :: cs[i].minutes >= 0.0
    requires forall i | 0 <= i < |ics| :: ics[i].minutes >= 0.0
    ensures BuiltGraph(stations, cs, ics).NonNegative()
  {
    var base := ConnectionGraph(cs);
    var sl := StationLines(cs);
    var times := InterchangeTimes(ics);
    var links := HubLinks(stations, sl, sl.Keys);
    var hubEdges := HubEdges(stations, sl, times, links);
    var g := BuiltGraph(stations, cs, ics);
    assert g.edges == base.edges + hubEdges;
    ConnectionGraphNonNegative(cs);
    InterchangeTimesNonNegative(ics);
    forall e | e in g.edges ensures g.edges[e].weight >= 0.0 {
      if e in hubEdges {
        var p := LinkOf(e);
        HubEdgeKeysShape(links);
        HubLinkWeightNonNegative(stations, sl, times, p.0, p.1);
        assert g.edges[e] == hubEdges[e];
      } else {
        assert g.edges[e] == base.edges[e];
      }
    }
  }

  /** A ride edge of the built graph is the one of the last connection row
      joining its two line nodes. */
  lemma {:induction false} RideEdge(stations: map<StationId, Station>, cs: seq<Connection>, ics: seq<Interchange>, i: nat)
    requires i < |cs|
    requires forall j | i < j < |cs| :: !Joins(cs[j], (End1(cs[i]), End2(cs[i])))
    ensures (End1(cs[i]), End2(cs[i])) in BuiltGraph(stations, cs, ics).edges
    ensures BuiltGraph(stations, cs, ics).edges[(End1(cs[i]), End2(cs[i]))] == EdgeInfo(cs[i].minutes, cs[i].line)
  {
    ConnectionLastWins(cs, i);
    var sl := StationLines(cs);
    HubEdgeKeysShape(HubLinks(stations, sl, sl.Keys));
  }

  /** A hub node exists exactly for the stations of the table that some
      connection row touches. */
  lemma {:induction false} HubNodeIff(stations: map<StationId, Station>, cs: seq<Connection>, ics: seq<Interchange>, s: StationId)
    ensures Hub(s) in BuiltGraph(stations, cs, ics).nodes <==> s in stations && exists i | 0 <= i < |cs| :: Touches(cs[i], s)
  {
    ConnectionGraphShape(cs);
    StationLinesSpec(cs);
  }

  /** Every line serving a station of the table is linked to the station's hub
      by a transfer edge. */
  lemma {:induction false} HubEdgeOf(stations: map<StationId, Station>, cs: seq<Connection>, ics: seq<Interchange>, s: StationId, l: Line)
    requires s in stations && s in StationLines(cs) && l in StationLines(cs)[s]
    ensures (Hub(s), LineNode(s, l)) in BuiltGraph(stations, cs, ics).edges
    ensures BuiltGraph(stations, cs, ics).edges[(Hub(s), LineNode(s, l))]
         == EdgeInfo(HubLinkWeight(stations, StationLines(cs), InterchangeTimes(ics), s, l), TRANSFER)
  {
    var sl := StationLines(cs);
    var links := HubLinks(stations, sl, sl.Keys);
    assert (s, l) in links;
    assert (Hub(s), LineNode(s, l)) in HubEdgeKeys(links);
  }

  /** At a station served by one line, moving between the line and the hub is free. */
  lemma {:induction false} SingleLineHubFree(stations: map<StationId, Station>, cs: seq<Connection>, ics: seq<Interchange>, s: StationId, l: Line)
    requires s in stations && s in StationLines(cs) && StationLines(cs)[s] == {l}
    ensures (Hub(s), LineNode(s, l)) in BuiltGraph(stations, cs, ics).edges
    ensures BuiltGraph(stations, cs, ics).edges[(Hub(s), LineNode(s, l))] == EdgeInfo(0.0, TRANSFER)
  {
    HubEdgeOf(stations, cs, ics, s, l);
  }

  /** At a station served by several lines, the hub edge of line `l` weighs at
      most 4 minutes and at most half of every recorded transfer time from `l`,
      and it is one of those values. */
  lemma {:induction false} MultiLineHubWeight(stations: map<StationId, Station>, cs: seq<Connection>, ics: seq<Interchange>, s: StationId, l: Line)
    requires s in stations && s in StationLines(cs) && l in StationLines(cs)[s] && |StationLines(cs)[s]| >= 2
    ensures (Hub(s), LineNode(s, l)) in BuiltGraph(stations, cs, ics).edges
    ensures var w := BuiltGraph(stations, cs, ics).edges[(Hub(s), LineNode(s, l))].weight;
            HubWeightBounded(w, Lower(stations[s].name), l, StationLines(cs)[s], InterchangeTimes(ics))
  {
    HubEdgeOf(stations, cs, ics, s, l);
    HubWeightBounds(Lower(stations[s].name), l, StationLines(cs)[s], InterchangeTimes(ics));
  }

  /** `w` is at most 4 minutes and at most half of every recorded transfer time
      from `line` to another line at the station, and it is one of those values. */
  ghost predicate HubWeightBounded(w: real, name: string, line: Line, lines: set<Line>, times: map<TransferKey, real>)
  {
    && w <= DEFAULT_TRANSFER
    && (forall o | o in lines && o != line && (name, line, o) in times :: w <= times[(name, line, o)] / 2.0)
    && (w == DEFAULT_TRANSFER || exists o | o in lines && o != line && (name, line, o) in times :: w == times[(name, line, o)] / 2.0)
  }

  lemma {:induction false} HubWeightBounds(name: string, line: Line, lines: set<Line>, times: map<TransferKey, real>)
    ensures HubWeightBounded(HubWeight(name, line, lines, times), name, line, lines, times)
  {
    var opts := TransferOptions(name, line, lines, times);
    var w := HubWeight(name, line, lines, times);
    forall o | o in lines && o != line && (name, line, o) in times
      ensures w <= times[(name, line, o)] / 2.0
    {
      assert times[(name, line, o)] / 2.0 in opts;
    }
  }
}
