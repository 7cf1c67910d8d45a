/** A boundary with a stop time is decided by the rows up to that time. */
module BoundarySlicing {
  import opened Options
  import opened TraceRow
  import opened StableSort
  import opened EventScan
  import opened FastBoundary

  /** The evaluator's slice: every row, of any topic, up to and including `stop`. */
  function Slice(rows: seq<Row>, stop: real): seq<Row> {
    Filter(AtMost(Time, stop), rows)
  }

  function EventsOf(p: Row -> bool, rows: seq<Row>): seq<Row> {
    Sort(Time, Filter(p, rows))
  }

  lemma EventsSplitAtStop(p: Row -> bool, rows: seq<Row>, stop: real)
    ensures EventsOf(p, rows)
         == EventsOf(p, Slice(rows, stop)) + Filter(Beyond(Time, stop), EventsOf(p, rows))
  {
    var upTo := AtMost(Time, stop);
    SortSorted(Time, Filter(p, rows));
    SortedSplits(Time, stop, EventsOf(p, rows));
    FilterCommutesWithSort(Time, upTo, Filter(p, rows));
    FiltersCommute(p, upTo, rows);
  }

  /** Every return from inside the loop is stamped with the row's time; running out of rows is not. */
  ghost predicate StampsStops<S(!new)>(step: (S, Row) -> Step<S, Boundary>, finish: S -> Boundary) {
    && (forall s: S, r: Row :: step(s, r).Halt? ==> step(s, r).result.stop == Some(r.t))
    && (forall s: S :: finish(s).stop == None)
  }

  lemma StopLiesInPrefix<S(!new)>(step: (S, Row) -> Step<S, Boundary>, finish: S -> Boundary,
                                  s: S, a: seq<Row>, b: seq<Row>, stop: real)
    requires StampsStops(step, finish)
    requires Run(step, finish, s, a + b).stop == Some(stop)
    requires forall r :: r in b ==> r.t > stop
    ensures Run(step, finish, s, a) == Run(step, finish, s, a + b)
    ensures HaltIndex(step, s, a) < |a|
  {
    var n := HaltIndex(step, s, a + b);
    RunAtHalt(step, finish, s, a + b);
    assert (a + b)[n].t == stop;
    HaltsBefore(step, s, a, b);
    RunIgnoresTail(step, finish, s, a, b);
  }

  lemma ScanDependsOnSlice<S(!new)>(step: (S, Row) -> Step<S, Boundary>, finish: S -> Boundary, s: S,
                                    p: Row -> bool, rows: seq<Row>, other: seq<Row>, stop: real)
    requires StampsStops(step, finish)
    requires Run(step, finish, s, EventsOf(p, rows)).stop == Some(stop)
    requires Slice(other, stop) == Slice(rows, stop)
    ensures Run(step, finish, s, EventsOf(p, other)) == Run(step, finish, s, EventsOf(p, rows))
  {
    var kept := EventsOf(p, Slice(rows, stop));
    var late := Filter(Beyond(Time, stop), EventsOf(p, rows));
    EventsSplitAtStop(p, rows, stop);
    StopLiesInPrefix(step, finish, s, kept, late, stop);
    EventsSplitAtStop(p, other, stop);
    RunIgnoresTail(step, finish, s, kept, Filter(Beyond(Time, stop), EventsOf(p, other)));
  }

  /** Rows later than the stop may be added, removed or altered without moving the boundary. */
  lemma BoundaryDependsOnSlice(rows: seq<Row>, other: seq<Row>,
                               minTransit: real, terminal: string, dwell: real)
    requires Detect(rows, minTransit, terminal, dwell).Ok?
    requires var stop := Detect(rows, minTransit, terminal, dwell).value.stop;
             stop.Some? && Slice(other, stop.value) == Slice(rows, stop.value)
    ensures Detect(other, minTransit, terminal, dwell) == Detect(rows, minTransit, terminal, dwell)
  {
    var stop := Detect(rows, minTransit, terminal, dwell).value.stop.value;
    if terminal == ENCOUNTER_CLEAR_WITH_OWN_HOLD {
      ScanDependsOnSlice(TargetStep(minTransit, dwell), TargetHorizon(minTransit), TARGET_INIT,
                         IsLifecycleRow, rows, other, stop);
    } else {
      ScanDependsOnSlice(OwnStep(minTransit), OwnHorizon, OWN_INIT, IsBehaviorPlan, rows, other, stop);
    }
  }

  lemma SliceIsIdempotent(rows: seq<Row>, stop: real)
    ensures Slice(Slice(rows, stop), stop) == Slice(rows, stop)
  {
    FilterKeepsAll(AtMost(Time, stop), Slice(rows, stop));
  }

  /** Recomputing the boundary on the slice, as the evaluator does, finds the same boundary. */
  lemma RescanningTheSliceAgrees(rows: seq<Row>, minTransit: real, terminal: string, dwell: real)
    requires Detect(rows, minTransit, terminal, dwell).Ok?
    requires Detect(rows, minTransit, terminal, dwell).value.stop.Some?
    ensures var stop := Detect(rows, minTransit, terminal, dwell).value.stop.value;
            Detect(Slice(rows, stop), minTransit, terminal, dwell) == Detect(rows, minTransit, terminal, dwell)
  {
    var stop := Detect(rows, minTransit, terminal, dwell).value.stop.value;
    SliceIsIdempotent(rows, stop);
    BoundaryDependsOnSlice(rows, Slice(rows, stop), minTransit, terminal, dwell);
  }
}
