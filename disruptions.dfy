/**
 * Disruption warnings (meetup/services/disruptions.py): which entries of the
 * TfL line-status reply are reported, and how.
 *
 * The HTTP request is a parameter: the reply arrives as a value, and a request
 * that raised is its own alternative of the reply type. The API key taken
 * from the environment only changes the request, not what is done with the
 * reply, and is not modelled.
 */
module Disruptions {
  import opened Wrappers
  import opened Text

  /** TfL's severity of a good service; lower is worse. */
  const GOOD_SERVICE: int := 10

  /** One entry of a line's `lineStatuses`; an absent key is `None`. */
  datatype LineStatus = LineStatus(severity: Option<int>, description: Option<string>, reason: Option<string>)

  /** One line of the reply: its `name` (`None` when absent) and its statuses. */
  datatype LineData = LineData(name: Option<string>, statuses: seq<LineStatus>)

  /** The reply to the status request. */
  datatype TflReply =
    | TflUnreachable
    | TflAnswer(httpStatus: int, lines: seq<LineData>)

  /** One reported disruption. */
  datatype Disruption = Disruption(line: string, status: string, reason: string)

  /** The line's name, `''` when absent. */
  function NameOf(l: LineData): string
  {
    l.name.GetOr("")
  }

  /** A status is reported when its severity, 10 when absent, is below 10. */
  predicate Degraded(st: LineStatus)
  {
    st.severity.GetOr(GOOD_SERVICE) < GOOD_SERVICE
  }

  /** The entry reported for a degraded status of line `name`. */
  function Report(name: string, st: LineStatus): Disruption
  {
    Disruption(name, st.description.GetOr("Unknown"), st.reason.GetOr(""))
  }

  /** The filter is in force only when it is given and non-empty. */
  predicate Filtering(filter: Option<seq<string>>)
  {
    filter.Some? && filter.value != []
  }

  /** The requested names, lower-cased. */
  function Requested(names: seq<string>): set<string>
  {
    set n | n in names :: Lower(n)
  }

  /** A line passes the filter when no filter is in force or its lower-cased
      name is among the lower-cased requested names. */
  predicate Wanted(filter: Option<seq<string>>, l: LineData)
  {
    !Filtering(filter) || Lower(NameOf(l)) in Requested(filter.value)
  }

  /** What one status of line `name` adds: its report when it is degraded. */
  function StatusReport(name: string, st: LineStatus): seq<Disruption>
  {
    if Degraded(st) then [Report(name, st)] else []
  }

  /** The reports of one line's statuses, in order. */
  function LineReports(name: string, statuses: seq<LineStatus>): seq<Disruption>
  {
    if statuses == [] then []
    else LineReports(name, statuses[..|statuses| - 1]) + StatusReport(name, statuses[|statuses| - 1])
  }

  /** What one line adds: its reports when it passes the filter. */
  function LineOut(filter: Option<seq<string>>, l: LineData): seq<Disruption>
  {
    if Wanted(filter, l) then LineReports(NameOf(l), l.statuses) else []
  }

  /** The reports of all wanted lines, in reply order. */
  function Reports(filter: Option<seq<string>>, lines: seq<LineData>): seq<Disruption>
  {
    if lines == [] then []
    else Reports(filter, lines[..|lines| - 1]) + LineOut(filter, lines[|lines| - 1])
  }

  /** What `get_line_disruptions` returns for a reply. */
  function DisruptionsOf(filter: Option<seq<string>>, reply: TflReply): seq<Disruption>
  {
    if reply.TflAnswer? && reply.httpStatus == 200 then Reports(filter, reply.lines) else []
  }

  // ---------------------------------------------------------------------------
  // The loops of get_line_disruptions
  // ---------------------------------------------------------------------------

  /** `line_name_map`: each requested name under its lower-cased form. */
  method NameMap(names: seq<string>) returns (m: map<string, string>)
    ensures m.Keys == Requested(names)
    ensures forall k | k in m :: m[k] in names && Lower(m[k]) == k
  {
    m := map[];
    for i := 0 to |names|
      invariant m.Keys == Requested(names[..i])
      invariant forall k | k in m :: m[k] in names && Lower(m[k]) == k
    {
      assert names[..i + 1] == names[..i] + [names[i]];
      m := m[Lower(names[i]) := names[i]];
    }
    assert names[..|names|] == names;
  }

  /** The reports of one line, appended to what was reported before it. */
  method AppendLineReports(before: seq<Disruption>, name: string, statuses: seq<LineStatus>)
    returns (disruptions: seq<Disruption>)
    ensures disruptions == before + LineReports(name, statuses)
  {
    disruptions := before;
    for k := 0 to |statuses|
      invariant disruptions == before + LineReports(name, statuses[..k])
    {
      var status := statuses[k];
      assert statuses[..k + 1][..k] == statuses[..k];
      assert LineReports(name, statuses[..k + 1]) == LineReports(name, statuses[..k]) + StatusReport(name, status);
      if status.severity.GetOr(GOOD_SERVICE) < GOOD_SERVICE {
        disruptions := disruptions + [Disruption(name, status.description.GetOr("Unknown"), status.reason.GetOr(""))];
      }
    }
    assert statuses[..|statuses|] == statuses;
  }

  /** `get_line_disruptions`. */
  method GetLineDisruptions(filter: Option<seq<string>>, reply: TflReply) returns (disruptions: seq<Disruption>)
    ensures disruptions == DisruptionsOf(filter, reply)
  {
    if !reply.TflAnswer? || reply.httpStatus != 200 {
      return [];
    }
    var lines := reply.lines;
    var lineNameMap: map<string, string> := map[];
    if filter.Some? && filter.value != [] {
      lineNameMap := NameMap(filter.value);
    }
    disruptions := [];
    for i := 0 to |lines|
      invariant disruptions == Reports(filter, lines[..i])
    {
      var lineData := lines[i];
      var lineName := lineData.name.GetOr("");
      assert lines[..i + 1][..i] == lines[..i];
      assert Reports(filter, lines[..i + 1]) == Reports(filter, lines[..i]) + LineOut(filter, lineData);
      if filter.Some? && filter.value != [] && Lower(lineName) !in lineNameMap {
        continue;
      }
      disruptions := AppendLineReports(disruptions, lineName, lineData.statuses);
    }
    assert lines[..|lines|] == lines;
  }

  // ---------------------------------------------------------------------------
  // What is reported
  // ---------------------------------------------------------------------------

  /** Everything a line reports is the report of one of its degraded statuses. */
  lemma {:induction false} LineReportsSound(name: string, statuses: seq<LineStatus>)
    ensures |LineReports(name, statuses)| <= |statuses|
    ensures forall d | d in LineReports(name, statuses) ::
              exists k | 0 <= k < |statuses| :: Degraded(statuses[k]) && d == Report(name, statuses[k])
  {
    if statuses != [] {
      var init := statuses[..|statuses| - 1];
      var last := statuses[|statuses| - 1];
      LineReportsSound(name, init);
      assert LineReports(name, statuses) == LineReports(name, init) + StatusReport(name, last);
      forall d | d in LineReports(name, statuses)
        ensures exists k | 0 <= k < |statuses| :: Degraded(statuses[k]) && d == Report(name, statuses[k])
      {
        if d in LineReports(name, init) {
          var k :| 0 <= k < |init| && Degraded(init[k]) && d == Report(name, init[k]);
          assert statuses[k] == init[k];
        } else {
          assert Degraded(statuses[|statuses| - 1]) && d == Report(name, statuses[|statuses| - 1]);
        }
      }
    }
  }

  /** Every degraded status of a line is reported. */
  lemma {:induction false} LineReportsComplete(name: string, statuses: seq<LineStatus>)
    ensures forall k | 0 <= k < |statuses| && Degraded(statuses[k]) :: Report(name, statuses[k]) in LineReports(name, statuses)
  {
    if statuses != [] {
      var init := statuses[..|statuses| - 1];
      LineReportsComplete(name, init);
      assert LineReports(name, statuses) == LineReports(name, init) + StatusReport(name, statuses[|statuses| - 1]);
      forall k | 0 <= k < |statuses| && Degraded(statuses[k]) ensures Report(name, statuses[k]) in LineReports(name, statuses) {
        if k < |init| {
          assert statuses[k] == init[k];
        }
      }
    }
  }

  /** A line reports exactly its degraded statuses, in order. */
  lemma {:induction false} LineReportsSpec(name: string, statuses: seq<LineStatus>)
    ensures |LineReports(name, statuses)| <= |statuses|
    ensures forall d :: d in LineReports(name, statuses) <==>
              exists k | 0 <= k < |statuses| :: Degraded(statuses[k]) && d == Report(name, statuses[k])
  {
    LineReportsSound(name, statuses);
    LineReportsComplete(name, statuses);
  }

  /** Reports keep the reply's line order: what the first `i` lines report
      comes first, and the reports of the later lines only follow it. */
  lemma {:induction false} ReportsPrefix(filter: Option<seq<string>>, lines: seq<LineData>, i: nat, j: nat)
    requires i <= j <= |lines|
    ensures Reports(filter, lines[..i]) <= Reports(filter, lines[..j])
    decreases j - i
  {
    if i < j {
      ReportsPrefix(filter, lines, i, j - 1);
      assert lines[..j][..j - 1] == lines[..j - 1];
    }
  }

  /** Everything reported is a degraded status of a wanted line, under the
      line's own name. */
  lemma {:induction false} ReportsSound(filter: Option<seq<string>>, lines: seq<LineData>)
    ensures forall d | d in Reports(filter, lines) ::
              exists i, k | 0 <= i < |lines| && 0 <= k < |lines[i].statuses| ::
                Wanted(filter, lines[i]) && Degraded(lines[i].statuses[k]) &&
                d == Report(NameOf(lines[i]), lines[i].statuses[k])
  {
    if lines != [] {
      var init := lines[..|lines| - 1];
      var l := lines[|lines| - 1];
      ReportsSound(filter, init);
      LineReportsSpec(NameOf(l), l.statuses);
      forall d | d in Reports(filter, lines)
        ensures exists i, k | 0 <= i < |lines| && 0 <= k < |lines[i].statuses| ::
                  Wanted(filter, lines[i]) && Degraded(lines[i].statuses[k]) &&
                  d == Report(NameOf(lines[i]), lines[i].statuses[k])
      {
        if d in Reports(filter, init) {
          var i, k :| 0 <= i < |init| && 0 <= k < |init[i].statuses| &&
                      Wanted(filter, init[i]) && Degraded(init[i].statuses[k]) &&
                      d == Report(NameOf(init[i]), init[i].statuses[k]);
          assert lines[i] == init[i];
        } else {
          assert Wanted(filter, l) && d in LineReports(NameOf(l), l.statuses);
          var k :| 0 <= k < |l.statuses| && Degraded(l.statuses[k]) && d == Report(NameOf(l), l.statuses[k]);
          assert lines[|lines| - 1] == l;
        }
      }
    }
  }

  /** Every degraded status of a wanted line is reported. */
  lemma {:induction false} ReportsComplete(filter: Option<seq<string>>, lines: seq<LineData>)
    ensures forall i, k | 0 <= i < |lines| && 0 <= k < |lines[i].statuses| &&
                          Wanted(filter, lines[i]) && Degraded(lines[i].statuses[k]) ::
              Report(NameOf(lines[i]), lines[i].statuses[k]) in Reports(filter, lines)
  {
    if lines != [] {
      var init := lines[..|lines| - 1];
      var l := lines[|lines| - 1];
      ReportsComplete(filter, init);
      LineReportsSpec(NameOf(l), l.statuses);
      forall i, k | 0 <= i < |lines| && 0 <= k < |lines[i].statuses| &&
                    Wanted(filter, lines[i]) && Degraded(lines[i].statuses[k])
        ensures Report(NameOf(lines[i]), lines[i].statuses[k]) in Reports(filter, lines)
      {
        if i < |init| {
          assert lines[i] == init[i];
        } else {
          assert lines[i] == l;
        }
      }
    }
  }

  /** A report appears exactly for each degraded status of a wanted line, under
      the line's own name. */
  lemma {:induction false} ReportsSpec(filter: Option<seq<string>>, lines: seq<LineData>)
    ensures forall d :: d in Reports(filter, lines) <==>
              exists i, k | 0 <= i < |lines| && 0 <= k < |lines[i].statuses| ::
                Wanted(filter, lines[i]) && Degraded(lines[i].statuses[k]) &&
                d == Report(NameOf(lines[i]), lines[i].statuses[k])
  {
    ReportsSound(filter, lines);
    ReportsComplete(filter, lines);
  }

  /** With a filter in force, only requested lines are reported, whatever the
      letter case of their names. */
  lemma {:induction false} OnlyRequestedLines(names: seq<string>, lines: seq<LineData>)
    requires names != []
    ensures forall d | d in Reports(Some(names), lines) :: Lower(d.line) in Requested(names)
  {
    ReportsSpec(Some(names), lines);
  }

  /** A missing or empty filter filters nothing: the same reports, one for each
      degraded status of every line. */
  lemma {:induction false} NoFilterReportsAll(lines: seq<LineData>)
    ensures Reports(None, lines) == Reports(Some([]), lines)
    ensures forall i, k | 0 <= i < |lines| && 0 <= k < |lines[i].statuses| && Degraded(lines[i].statuses[k]) ::
              Report(NameOf(lines[i]), lines[i].statuses[k]) in Reports(None, lines)
  {
    if lines != [] {
      NoFilterReportsAll(lines[..|lines| - 1]);
    }
    ReportsSpec(None, lines);
    forall i, k | 0 <= i < |lines| && 0 <= k < |lines[i].statuses| && Degraded(lines[i].statuses[k])
      ensures Report(NameOf(lines[i]), lines[i].statuses[k]) in Reports(None, lines)
    {
      assert Wanted(None, lines[i]);
    }
  }

  /** A failed request, or a reply that is not a 200, reports nothing. */
  lemma {:induction false} FailureReportsNothing(filter: Option<seq<string>>, reply: TflReply)
    requires reply.TflUnreachable? || reply.httpStatus != 200
    ensures DisruptionsOf(filter, reply) == []
  {
  }
}
