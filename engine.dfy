/** The streaming aggregation engine as a function of its inputs: the
    watermark, the live window store and the finalisation of windows in
    append mode, one micro-batch (trigger) at a time.

    One trigger does what the streaming query does with one input file:
      1. every record whose window already ended at the current watermark is
         dropped as late; every other record is merged into its window;
      2. the watermark becomes max(watermark, max event time of the batch - 300);
      3. every live window whose end is at or before the new watermark is
         finalised, emitted once, and evicted from the store.
    Step 3 stands for the batch that the query runs right after a watermark
    change, which emits the windows that change closed. */
module Engine {
  import opened EventTime
  import opened Aggregate
  import opened Alert

  /** What the query keeps between triggers. `emittedEnds` is the set of
      ends of the windows already written to the sinks. */
  datatype EngineState = EngineState(watermark: int, windows: map<int, Agg>, emittedEnds: set<int>)

  /** A new query: the watermark starts at the epoch (0), nothing is open or emitted. */
  const Initial: EngineState := EngineState(0, map[], {})

  /** The state after one or more triggers, and the rows they emitted, in order. */
  datatype Outcome = Outcome(next: EngineState, rows: seq<Row>)

  function IntMax(x: int, y: int): int { if x <= y then y else x }

  /** The aggregate stored for window `k`, or `Empty` when there is none. */
  function Lookup(m: map<int, Agg>, k: int): Agg
  {
    if k in m then m[k] else Empty
  }

  /** A record is late when its window has already ended at the watermark. */
  function Late(watermark: int, rec: Record): (late: bool)
    ensures late ==> EventTimeOf(rec) < watermark
    ensures EventTimeOf(rec) + WindowLength <= watermark ==> late
  {
    WindowEnd(WindowOf(rec)) <= watermark
  }

  /** The invariant of every state the query reaches: the watermark is not
      before the epoch, each live window is aligned, non-empty and still open,
      and every emitted window ended at or before the watermark. */
  ghost predicate Inv(st: EngineState)
  {
    && st.watermark >= 0
    && (forall k :: k in st.windows ==> k % WindowLength == 0 && st.windows[k].count > 0 && WindowEnd(k) > st.watermark)
    && (forall e :: e in st.emittedEnds ==> e <= st.watermark)
  }

  /** Merges the records of a batch into the store, in order, dropping late ones. */
  function Ingest(watermark: int, m: map<int, Agg>, batch: seq<Record>): (r: map<int, Agg>)
    ensures forall k :: k in m ==> k in r
    ensures forall k :: k in r ==> k in m || exists i :: 0 <= i < |batch| && !Late(watermark, batch[i]) && WindowOf(batch[i]) == k
    ensures forall k :: k in r ==> r[k].count > 0 || (k in m && r[k] == m[k])
    ensures forall k :: k in r && WindowEnd(k) <= watermark ==> k in m && r[k] == m[k]
    decreases |batch|
  {
    if batch == [] then m
    else
      var n := |batch| - 1;
      var acc, rec := Ingest(watermark, m, batch[..n]), batch[n];
      assert forall i :: 0 <= i < n ==> batch[..n][i] == batch[i];
      if Late(watermark, rec) then acc
      else acc[WindowOf(rec) := Add(Lookup(acc, WindowOf(rec)), rec)]
  }

  /** The records of a batch that are merged into window `k`: not late, and in `k`. */
  function InWindow(watermark: int, batch: seq<Record>, k: int): seq<Record>
    decreases |batch|
  {
    if batch == [] then []
    else
      var n := |batch| - 1;
      InWindow(watermark, batch[..n], k) + (if !Late(watermark, batch[n]) && WindowOf(batch[n]) == k then [batch[n]] else [])
  }

  /** The largest event time of a non-empty batch. */
  function MaxEventTime(batch: seq<Record>): (t: int)
    requires batch != []
    ensures forall i :: 0 <= i < |batch| ==> EventTimeOf(batch[i]) <= t
    ensures exists i :: 0 <= i < |batch| && EventTimeOf(batch[i]) == t
    decreases |batch|
  {
    if |batch| == 1 then EventTimeOf(batch[0])
    else
      var n := |batch| - 1;
      var t0 := MaxEventTime(batch[..n]);
      assert forall i :: 0 <= i < n ==> batch[..n][i] == batch[i];
      IntMax(t0, EventTimeOf(batch[n]))
  }

  /** The watermark after a batch: 300 seconds behind the largest event time
      seen, and never moving backwards. An empty batch leaves it alone. */
  function Advance(watermark: int, batch: seq<Record>): (w: int)
    ensures w >= watermark
    ensures batch != [] ==> w >= MaxEventTime(batch) - Lateness
    ensures w == watermark || (batch != [] && w == MaxEventTime(batch) - Lateness)
  {
    if batch == [] then watermark else IntMax(watermark, MaxEventTime(batch) - Lateness)
  }

  /** The live windows that the watermark has closed. */
  function Due(m: map<int, Agg>, watermark: int): set<int>
  {
    set k | k in m && WindowEnd(k) <= watermark
  }

  /** The ends of a set of windows. */
  function EndsOf(keys: set<int>): set<int>
  {
    set k | k in keys :: WindowEnd(k)
  }

  /** A non-empty set has an element. */
  lemma NonEmptyHasElement(s: set<int>)
    requires s != {}
    ensures exists x :: x in s
  {
    if forall x :: x !in s {
      assert false;
    }
  }

  /** The least element of a non-empty finite set. */
  ghost function SetMin(s: set<int>): (m: int)
    requires s != {}
    ensures m in s && forall x :: x in s ==> m <= x
    decreases |s|
  {
    NonEmptyHasElement(s);
    var x :| x in s;
    if s == {x} then
      assert forall z :: z in s ==> z == x;
      x
    else
      var y := SetMin(s - {x});
      assert forall z :: z in s ==> z == x || z in s - {x};
      if x <= y then x else y
  }

  /** The elements of a finite set in ascending order: the order in which
      several windows closed by one trigger are emitted. */
  ghost function Ascending(s: set<int>): seq<int>
    decreases |s|
  {
    if s == {} then [] else [SetMin(s)] + Ascending(s - {SetMin(s)})
  }

  /** The output rows of the windows `keys` of the store, in that order. */
  function FlushRows(m: map<int, Agg>, keys: seq<int>): (rows: seq<Row>)
    requires forall i :: 0 <= i < |keys| ==> keys[i] in m && m[keys[i]].count > 0
    ensures |rows| == |keys|
    ensures forall i :: 0 <= i < |keys| ==> rows[i] == Finalise(keys[i], m[keys[i]])
    decreases |keys|
  {
    if keys == [] then []
    else FlushRows(m, keys[..|keys| - 1]) + [Finalise(keys[|keys| - 1], m[keys[|keys| - 1]])]
  }

  /** The rows of the windows of `m` that watermark `w` closed, in ascending window order. */
  ghost function Flushed(m: map<int, Agg>, w: int): seq<Row>
    requires forall k :: k in m ==> m[k].count > 0
  {
    AscendingElements(Due(m, w));
    assert forall i :: 0 <= i < |Ascending(Due(m, w))| ==> Ascending(Due(m, w))[i] in Ascending(Due(m, w));
    FlushRows(m, Ascending(Due(m, w)))
  }

  /** One trigger over one input file. */
  ghost function Cycle(st: EngineState, batch: seq<Record>): (r: Outcome)
    requires Inv(st)
    ensures Inv(r.next)
  {
    var m := Ingest(st.watermark, st.windows, batch);
    var w := Advance(st.watermark, batch);
    var due := Due(m, w);
    AscendingElements(due);
    NextStateInv(st, batch, m, w, due);
    DueReady(st, batch, m, w, due);
    Outcome(EngineState(w, m - due, st.emittedEnds + EndsOf(due)), FlushRows(m, Ascending(due)))
  }

  /** Every window of the store after a trigger's merge holds at least one record. */
  lemma IngestNonEmpty(st: EngineState, batch: seq<Record>)
    requires Inv(st)
    ensures forall k :: k in Ingest(st.watermark, st.windows, batch) ==> Ingest(st.watermark, st.windows, batch)[k].count > 0
  {
  }

  /** A trigger is its three steps: merge, move the watermark, flush. */
  lemma CycleSteps(st: EngineState, batch: seq<Record>, m: map<int, Agg>, w: int)
    requires Inv(st) && m == Ingest(st.watermark, st.windows, batch) && w == Advance(st.watermark, batch)
    ensures forall k :: k in m ==> m[k].count > 0
    ensures Cycle(st, batch) == Outcome(EngineState(w, m - Due(m, w), st.emittedEnds + EndsOf(Due(m, w))), Flushed(m, w))
  {
    IngestNonEmpty(st, batch);
    DueReady(st, batch, m, w, Due(m, w));
  }

  /** The state a trigger leaves behind keeps the invariant. */
  lemma NextStateInv(st: EngineState, batch: seq<Record>, m: map<int, Agg>, w: int, due: set<int>)
    requires Inv(st)
    requires m == Ingest(st.watermark, st.windows, batch) && w == Advance(st.watermark, batch) && due == Due(m, w)
    ensures Inv(EngineState(w, m - due, st.emittedEnds + EndsOf(due)))
  {
    var next := EngineState(w, m - due, st.emittedEnds + EndsOf(due));
    assert w >= st.watermark;
    forall k | k in next.windows
      ensures k % WindowLength == 0 && next.windows[k].count > 0 && WindowEnd(k) > w
    {
      assert k in m && k !in due;
      if k !in st.windows {
        var i :| 0 <= i < |batch| && !Late(st.watermark, batch[i]) && WindowOf(batch[i]) == k;
      }
    }
    forall e | e in next.emittedEnds
      ensures e <= w
    {
      if e !in st.emittedEnds {
        var k :| k in due && e == WindowEnd(k);
      }
    }
  }

  /** Every window a trigger closes is live and non-empty, so it can be finalised. */
  lemma DueReady(st: EngineState, batch: seq<Record>, m: map<int, Agg>, w: int, due: set<int>)
    requires Inv(st)
    requires m == Ingest(st.watermark, st.windows, batch) && due == Due(m, w)
    ensures forall i :: 0 <= i < |Ascending(due)| ==> Ascending(due)[i] in m && m[Ascending(due)[i]].count > 0
  {
    AscendingElements(due);
    forall i | 0 <= i < |Ascending(due)|
      ensures Ascending(due)[i] in m && m[Ascending(due)[i]].count > 0
    {
      var k := Ascending(due)[i];
      assert k in due;
    }
  }

  /** A sequence of triggers, one per input file, in file order. */
  ghost function Run(st: EngineState, files: seq<seq<Record>>): (r: Outcome)
    requires Inv(st)
    ensures Inv(r.next)
    decreases |files|
  {
    if files == [] then Outcome(st, [])
    else
      var n := |files| - 1;
      var before := Run(st, files[..n]);
      var step := Cycle(before.next, files[n]);
      Outcome(step.next, before.rows + step.rows)
  }

  /** `Ascending(s)` lists exactly the elements of `s`, each once, in strictly increasing order. */
  lemma {:induction false} AscendingElements(s: set<int>)
    ensures |Ascending(s)| == |s|
    ensures forall x :: x in Ascending(s) <==> x in s
    ensures forall i, j :: 0 <= i < j < |Ascending(s)| ==> Ascending(s)[i] < Ascending(s)[j]
    decreases |s|
  {
    if s != {} {
      var m := SetMin(s);
      AscendingElements(s - {m});
      var rest := Ascending(s - {m});
      assert Ascending(s) == [m] + rest;
      forall i, j | 0 <= i < j < |Ascending(s)|
        ensures Ascending(s)[i] < Ascending(s)[j]
      {
        if i > 0 {
          assert Ascending(s)[i] == rest[i - 1] && Ascending(s)[j] == rest[j - 1];
        } else {
          assert Ascending(s)[j] == rest[j - 1];
          assert rest[j - 1] in s - {m};
        }
      }
    }
  }
}
