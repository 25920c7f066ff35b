/** The running streaming query: the state it keeps between micro-batches
    (watermark, window store, emitted windows) and its two append-only sinks,
    the full results and the alerts only. One call of `ProcessBatch` is one
    trigger over one input file; it is proved to do exactly what the
    functional engine's `Cycle` does, so every theorem about `Run` holds of
    the sinks of every query built with the constructor. */
module Query {
  import opened EventTime
  import opened Aggregate
  import opened Alert
  import opened Engine
  import opened Properties

  /** The smallest element of a non-empty set of window starts. */
  method MinOf(s: set<int>) returns (least: int)
    requires s != {}
    ensures least in s && forall x :: x in s ==> least <= x
  {
    NonEmptyHasElement(s);
    least :| least in s;
    var rest := s - {least};
    while rest != {}
      invariant rest <= s && least in s
      invariant forall x :: x in s && x !in rest ==> least <= x
      decreases |rest|
    {
      NonEmptyHasElement(rest);
      var x :| x in rest;
      if x < least {
        least := x;
      }
      rest := rest - {x};
    }
  }

  /** One step of the flush loop: flushing the least window `k` still to
      flush keeps the flushed keys a prefix of `Ascending(due)`, appends the
      row of `k`, evicts `k` and records its end. */
  lemma FlushStep(m: map<int, Agg>, due: set<int>, remaining: set<int>, done: seq<int>, emitted: seq<Row>, k: int)
    requires forall x :: x in due ==> x in m && m[x].count > 0
    requires remaining <= due && done + Ascending(remaining) == Ascending(due)
    requires forall i :: 0 <= i < |done| ==> done[i] in due
    requires emitted == FlushRows(m, done)
    requires k in remaining && forall x :: x in remaining ==> k <= x
    ensures (done + [k]) + Ascending(remaining - {k}) == Ascending(due)
    ensures forall i :: 0 <= i < |done + [k]| ==> (done + [k])[i] in due
    ensures emitted + [Finalise(k, m[k])] == FlushRows(m, done + [k])
    ensures (m - (due - remaining)) - {k} == m - (due - (remaining - {k}))
    ensures EndsOf(due - remaining) + {WindowEnd(k)} == EndsOf(due - (remaining - {k}))
    ensures k in m - (due - remaining) && (m - (due - remaining))[k] == m[k]
    ensures remaining - {k} <= due && |remaining - {k}| < |remaining|
  {
    assert SetMin(remaining) == k;
    assert Ascending(remaining) == [k] + Ascending(remaining - {k});
    assert done + ([k] + Ascending(remaining - {k})) == (done + [k]) + Ascending(remaining - {k});
    assert (done + [k])[..|done|] == done;
    assert due - (remaining - {k}) == (due - remaining) + {k};
  }

  /** Appending one trigger's rows to a sink that held `written` followed by
      the rows of the earlier triggers. */
  lemma RowsStep(written: seq<Row>, sofar: seq<Row>, now: seq<Row>, earlier: seq<Row>, emitted: seq<Row>, all: seq<Row>)
    requires sofar == written + earlier && now == sofar + emitted && all == earlier + emitted
    ensures now == written + all
  {
  }

  class StreamingQuery {
    /** The watermark, in seconds since the epoch. */
    var watermark: int
    /** The state store: the running aggregate of every open window, by window start. */
    var windows: map<int, Agg>
    /** The ends of the windows already written to the sinks. */
    var emittedEnds: set<int>
    /** The results sink: every finalised window, in the order written. */
    var results: seq<Row>
    /** The alerts sink: the finalised windows whose alert is not "Nominal". */
    var alerts: seq<Row>

    /** The engine state the fields hold. */
    function State(): EngineState
      reads this
    {
      EngineState(watermark, windows, emittedEnds)
    }

    /** The fields hold a reachable engine state, and the alerts sink is
        the results sink without the "Nominal" rows. */
    ghost predicate Valid()
      reads this
    {
      Inv(State()) && alerts == AlertsOnly(results)
    }

    /** A new query: watermark at the epoch, no open window, empty sinks. */
    constructor ()
      ensures Valid()
      ensures State() == Initial && results == [] && alerts == []
    {
      watermark := 0;
      windows := map[];
      emittedEnds := {};
      results := [];
      alerts := [];
    }

    /** Merges each record of `batch` that is not late at the current
        watermark into its window, in file order, and returns the largest
        event time of the batch (0 for an empty batch). */
    method Merge(batch: seq<Record>) returns (maxTime: int)
      modifies this`windows
      ensures windows == Ingest(watermark, old(windows), batch)
      ensures batch != [] ==> maxTime == MaxEventTime(batch)
    {
      var i := 0;
      maxTime := 0;
      while i < |batch|
        invariant 0 <= i <= |batch|
        invariant windows == Ingest(watermark, old(windows), batch[..i])
        invariant i > 0 ==> maxTime == MaxEventTime(batch[..i])
      {
        var rec := batch[i];
        assert batch[..i + 1][..i] == batch[..i] && batch[..i + 1][i] == rec;
        if !Late(watermark, rec) {
          var k := WindowOf(rec);
          windows := windows[k := Add(Lookup(windows, k), rec)];
        }
        maxTime := if i == 0 then EventTimeOf(rec) else IntMax(maxTime, EventTimeOf(rec));
        i := i + 1;
      }
      assert batch[..|batch|] == batch;
    }

    /** Finalises every open window the watermark has closed, in ascending
        window order, records it as emitted and evicts it from the store. */
    method Flush() returns (emitted: seq<Row>)
      requires forall k :: k in windows ==> windows[k].count > 0
      modifies this`windows, this`emittedEnds
      ensures windows == old(windows) - Due(old(windows), watermark)
      ensures emittedEnds == old(emittedEnds) + EndsOf(Due(old(windows), watermark))
      ensures emitted == Flushed(old(windows), watermark)
    {
      ghost var m := windows;
      var due := Due(windows, watermark);
      var remaining := due;
      ghost var done: seq<int> := [];
      emitted := [];
      while remaining != {}
        invariant forall x :: x in due ==> x in m && m[x].count > 0
        invariant remaining <= due && done + Ascending(remaining) == Ascending(due)
        invariant forall i :: 0 <= i < |done| ==> done[i] in due
        invariant emitted == FlushRows(m, done)
        invariant windows == m - (due - remaining)
        invariant emittedEnds == old(emittedEnds) + EndsOf(due - remaining)
        decreases |remaining|
      {
        var k := MinOf(remaining);
        FlushStep(m, due, remaining, done, emitted, k);
        emitted := emitted + [Finalise(k, windows[k])];
        windows := windows - {k};
        emittedEnds := emittedEnds + {WindowEnd(k)};
        done := done + [k];
        remaining := remaining - {k};
      }
      assert done == Ascending(due) && due - remaining == due;
    }

    /** One trigger over one input file: merge the records that are not late
        and track the largest event time; move the watermark; then finalise,
        write to both sinks and evict every window the new watermark closed. */
    method ProcessBatch(batch: seq<Record>) returns (emitted: seq<Row>)
      requires Valid()
      modifies this
      ensures Valid()
      ensures State() == Cycle(old(State()), batch).next && emitted == Cycle(old(State()), batch).rows
      ensures results == old(results) + emitted && alerts == old(alerts) + AlertsOnly(emitted)
      ensures watermark == Advance(old(watermark), batch) >= old(watermark)
      ensures forall row :: row in emitted ==> old(watermark) < row.end <= watermark && row.end !in old(emittedEnds)
      ensures ByStart(emitted)
    {
      ghost var before := State();
      var maxTime := Merge(batch);
      if batch != [] {
        watermark := IntMax(watermark, maxTime - Lateness);
      }
      CycleSteps(before, batch, windows, watermark);
      emitted := Flush();
      CycleFacts(before, batch);
      results := results + emitted;
      alerts := alerts + AlertsOnly(emitted);
      AlertsOnlyAppend(old(results), emitted);
    }

    /** Runs one trigger per file, in order: the state becomes that of `Run`
        over the files, and the sinks receive its rows. */
    method RunFiles(files: seq<seq<Record>>)
      requires Valid()
      modifies this
      ensures Valid()
      ensures State() == Run(old(State()), files).next
      ensures results == old(results) + Run(old(State()), files).rows
    {
      ghost var start, written := State(), results;
      var i := 0;
      while i < |files|
        invariant 0 <= i <= |files|
        invariant Valid()
        invariant State() == Run(start, files[..i]).next
        invariant results == written + Run(start, files[..i]).rows
      {
        ghost var sofar := results;
        RunStep(start, files, i);
        var emitted := ProcessBatch(files[i]);
        RowsStep(written, sofar, results, Run(start, files[..i]).rows, emitted, Run(start, files[..i + 1]).rows);
        i := i + 1;
      }
      assert files[..|files|] == files;
    }
  }
}
