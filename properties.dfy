/** What the streaming query promises, proved about the engine of `Engine`:
    each record lands in its one window or is dropped as late, a late record
    changes nothing, the watermark is the largest event time seen minus five
    minutes and never moves back, each window is emitted once, in order,
    after the watermark passed its end, and its row holds exactly the
    statistics of the records that were merged into it. */
module Properties {
  import opened EventTime
  import opened Aggregate
  import opened Alert
  import opened Engine

  /** The ends of the windows of a list of rows. */
  function Ends(rows: seq<Row>): set<int>
  {
    set row | row in rows :: row.end
  }

  /** The rows come in strictly ascending window order, so no window appears twice. */
  predicate ByStart(rows: seq<Row>)
  {
    forall i, j :: 0 <= i < j < |rows| ==> rows[i].start < rows[j].start
  }

  /** The ends of the rows of a concatenation are the ends of both parts. */
  lemma EndsConcat(xs: seq<Row>, ys: seq<Row>)
    ensures Ends(xs + ys) == Ends(xs) + Ends(ys)
  {
    assert forall row :: row in xs + ys <==> row in xs || row in ys;
  }

  /** Rows that all end at or before `w`, followed by rows that all end after
      it, each part in window order, are in window order. */
  lemma ByStartConcat(xs: seq<Row>, ys: seq<Row>, w: int)
    requires ByStart(xs) && ByStart(ys)
    requires forall row :: row in xs ==> row.end == WindowEnd(row.start) && row.end <= w
    requires forall row :: row in ys ==> row.end == WindowEnd(row.start) && w < row.end
    ensures ByStart(xs + ys)
  {
    var zs := xs + ys;
    forall i, j | 0 <= i < j < |zs|
      ensures zs[i].start < zs[j].start
    {
      if j < |xs| {
        assert zs[i] == xs[i] && zs[j] == xs[j];
      } else if i >= |xs| {
        assert zs[i] == ys[i - |xs|] && zs[j] == ys[j - |xs|];
      } else {
        assert zs[i] == xs[i] && zs[j] == ys[j - |xs|];
        assert xs[i] in xs && ys[j - |xs|] in ys;
      }
    }
  }

  /** The concatenation of the input files, in order. */
  function Flatten(files: seq<seq<Record>>): seq<Record>
    decreases |files|
  {
    if files == [] then [] else Flatten(files[..|files| - 1]) + files[|files| - 1]
  }

  /** The records of `files` that a new query merges into window `k`: for each
      file, those of its records in `k` that were not late at that file's trigger. */
  ghost function Accepted(files: seq<seq<Record>>, k: int): seq<Record>
    decreases |files|
  {
    if files == [] then []
    else
      var n := |files| - 1;
      Accepted(files[..n], k) + InWindow(Run(Initial, files[..n]).next.watermark, files[n], k)
  }

  /** The row of window `k` computed directly from the records `rs` it holds. */
  function WindowRow(k: int, rs: seq<Record>): Row
    requires rs != []
  {
    AddAllMeaning(rs);
    Finalise(k, AddAll(Empty, rs))
  }

  // ---------------------------------------------------------------------
  // One batch: windows, late records, the store

  /** The records merged into window `k` are records of the batch, not late,
      and in `k`; every such record is merged; a window that already ended at
      the watermark receives nothing. */
  lemma {:induction false} InWindowFacts(w: int, batch: seq<Record>, k: int)
    ensures forall rec :: rec in InWindow(w, batch, k) ==> rec in batch && !Late(w, rec) && WindowOf(rec) == k
    ensures forall i :: 0 <= i < |batch| && !Late(w, batch[i]) && WindowOf(batch[i]) == k ==> batch[i] in InWindow(w, batch, k)
    ensures WindowEnd(k) <= w ==> InWindow(w, batch, k) == []
    decreases |batch|
  {
    if batch != [] {
      var n := |batch| - 1;
      InWindowFacts(w, batch[..n], k);
      assert batch == batch[..n] + [batch[n]];
      forall i | 0 <= i < |batch| && !Late(w, batch[i]) && WindowOf(batch[i]) == k
        ensures batch[i] in InWindow(w, batch, k)
      {
        if i < n {
          assert batch[..n][i] == batch[i];
        }
      }
    }
  }

  /** A record that is not late is merged into its own window and into no other. */
  lemma RecordMergedOnce(w: int, batch: seq<Record>, i: int, k: int)
    requires 0 <= i < |batch| && !Late(w, batch[i])
    ensures batch[i] in InWindow(w, batch, WindowOf(batch[i]))
    ensures k % WindowLength == 0 && batch[i] in InWindow(w, batch, k) ==> k == WindowOf(batch[i])
  {
    InWindowFacts(w, batch, WindowOf(batch[i]));
    InWindowFacts(w, batch, k);
  }

  /** The store after a batch holds, for each window, the aggregate it held
      merged with exactly the batch's records for that window, in order. */
  lemma {:induction false} IngestExact(w: int, m: map<int, Agg>, batch: seq<Record>, k: int)
    ensures Lookup(Ingest(w, m, batch), k) == AddAll(Lookup(m, k), InWindow(w, batch, k))
    decreases |batch|
  {
    if batch != [] {
      var n := |batch| - 1;
      IngestExact(w, m, batch[..n], k);
      var rec, iw := batch[n], InWindow(w, batch[..n], k);
      if !Late(w, rec) && WindowOf(rec) == k {
        assert (iw + [rec])[..|iw + [rec]| - 1] == iw;
      } else {
        assert iw + [] == iw;
      }
    }
  }

  /** Ingesting two batches one after the other is ingesting their concatenation. */
  lemma {:induction false} IngestConcat(w: int, m: map<int, Agg>, xs: seq<Record>, ys: seq<Record>)
    ensures Ingest(w, m, xs + ys) == Ingest(w, Ingest(w, m, xs), ys)
    decreases |ys|
  {
    if ys == [] {
      assert xs + ys == xs;
    } else {
      var n := |ys| - 1;
      IngestConcat(w, m, xs, ys[..n]);
      assert (xs + ys)[..|xs + ys| - 1] == xs + ys[..n];
      assert (xs + ys)[|xs + ys| - 1] == ys[n];
    }
  }

  /** A late record does not move the watermark: its event time lies before
      the watermark, so max(watermark, largest event time - 300) is the same
      with it and without it. */
  lemma AdvanceIgnoresLate(w: int, xs: seq<Record>, rec: Record, ys: seq<Record>)
    requires Late(w, rec)
    ensures Advance(w, xs + [rec] + ys) == Advance(w, xs + ys)
  {
    var big, small := xs + [rec] + ys, xs + ys;
    if small == [] {
      assert big == [rec];
    } else {
      var m1, m2 := MaxEventTime(big), MaxEventTime(small);
      assert m2 <= m1 by {
        var j :| 0 <= j < |small| && EventTimeOf(small[j]) == m2;
        if j < |xs| {
          assert big[j] == small[j];
        } else {
          assert big[j + 1] == small[j];
        }
      }
      assert m1 <= m2 || m1 == EventTimeOf(rec) by {
        var i :| 0 <= i < |big| && EventTimeOf(big[i]) == m1;
        if i < |xs| {
          assert big[i] == small[i];
        } else if i > |xs| {
          assert big[i] == small[i - 1];
        }
      }
    }
  }

  /** A late record changes nothing: a trigger over a file with it gives the
      same state and the same rows as over the file without it. In particular
      a record for a window that was already emitted does not reopen or
      re-emit that window, and does not move the watermark. */
  lemma LateRecordIgnored(st: EngineState, xs: seq<Record>, rec: Record, ys: seq<Record>)
    requires Inv(st) && Late(st.watermark, rec)
    ensures Cycle(st, xs + [rec] + ys) == Cycle(st, xs + ys)
  {
    var w, m := st.watermark, st.windows;
    IngestConcat(w, m, xs + [rec], ys);
    IngestConcat(w, m, xs, [rec]);
    IngestConcat(w, m, xs, ys);
    assert Ingest(w, Ingest(w, m, xs), [rec]) == Ingest(w, m, xs) by {
      assert [rec][..0] == [];
    }
    AdvanceIgnoresLate(w, xs, rec, ys);
  }

  /** A record whose window was already emitted is late. */
  lemma EmittedWindowIsLate(st: EngineState, rec: Record)
    requires Inv(st) && WindowEnd(WindowOf(rec)) in st.emittedEnds
    ensures Late(st.watermark, rec)
  {
  }

  // ---------------------------------------------------------------------
  // One trigger

  /** The rows a trigger flushes, window by window in ascending order, are
      windows the old watermark had not closed and `w` has, not emitted
      before, and their ends are the ends of the closed windows. */
  lemma FlushFacts(st: EngineState, batch: seq<Record>, m: map<int, Agg>, w: int, due: set<int>, rows: seq<Row>)
    requires Inv(st) && m == Ingest(st.watermark, st.windows, batch) && due == Due(m, w)
    requires |rows| == |Ascending(due)|
    requires forall i :: 0 <= i < |rows| ==>
               Ascending(due)[i] in m && m[Ascending(due)[i]].count > 0 && rows[i] == Finalise(Ascending(due)[i], m[Ascending(due)[i]])
    ensures forall row :: row in rows ==> row.end == WindowEnd(row.start) && st.watermark < row.end <= w && row.end !in st.emittedEnds
    ensures ByStart(rows)
    ensures Ends(rows) == EndsOf(due)
  {
    var keys := Ascending(due);
    AscendingElements(due);
    forall i | 0 <= i < |rows|
      ensures rows[i].start == keys[i] && rows[i].end == WindowEnd(keys[i])
      ensures st.watermark < rows[i].end <= w && rows[i].end !in st.emittedEnds
    {
      var k := keys[i];
      assert k in due && k in m;
      if k !in st.windows {
        var j :| 0 <= j < |batch| && !Late(st.watermark, batch[j]) && WindowOf(batch[j]) == k;
      }
    }
    forall e | e in EndsOf(due) ensures e in Ends(rows) {
      var k :| k in due && e == WindowEnd(k);
      var i :| 0 <= i < |keys| && keys[i] == k;
      assert rows[i] in rows;
    }
  }

  /** What one trigger emits: the watermark moves to `Advance` and never back;
      each emitted row is a window the old watermark had not closed and the
      new one has, not emitted before; the rows come in ascending window
      order; and the emitted set grows by exactly the rows' ends. */
  lemma CycleFacts(st: EngineState, batch: seq<Record>)
    requires Inv(st)
    ensures Cycle(st, batch).next.watermark == Advance(st.watermark, batch) >= st.watermark
    ensures forall row :: row in Cycle(st, batch).rows ==>
              row.end == WindowEnd(row.start) && st.watermark < row.end <= Cycle(st, batch).next.watermark && row.end !in st.emittedEnds
    ensures ByStart(Cycle(st, batch).rows)
    ensures Cycle(st, batch).next.emittedEnds == st.emittedEnds + Ends(Cycle(st, batch).rows)
  {
    var m := Ingest(st.watermark, st.windows, batch);
    var w := Advance(st.watermark, batch);
    var due := Due(m, w);
    DueReady(st, batch, m, w, due);
    var rows := FlushRows(m, Ascending(due));
    assert Cycle(st, batch) == Outcome(EngineState(w, m - due, st.emittedEnds + EndsOf(due)), rows);
    FlushFacts(st, batch, m, w, due, rows);
  }

  // ---------------------------------------------------------------------
  // A whole run of a new query

  /** The invariant of a run: each open window holds exactly the aggregate of
      the records accepted into it; each emitted row is the row of exactly the
      records accepted into its window; rows come in strictly ascending window
      order; and the emitted set is the set of the rows' ends. */
  ghost predicate RunInv(files: seq<seq<Record>>)
  {
    var r := Run(Initial, files);
    && (forall k :: WindowEnd(k) !in r.next.emittedEnds ==> Lookup(r.next.windows, k) == AddAll(Empty, Accepted(files, k)))
    && (forall row :: row in r.rows ==> row.end == WindowEnd(row.start) && Accepted(files, row.start) != []
                                        && row == WindowRow(row.start, Accepted(files, row.start)))
    && ByStart(r.rows)
    && Ends(r.rows) == r.next.emittedEnds
  }

  /** The first part of `RunInv` carried over one more file, for one window. */
  lemma StoreStep(files: seq<seq<Record>>, batch: seq<Record>, k: int)
    requires RunInv(files)
    requires WindowEnd(k) !in Run(Initial, files).next.emittedEnds
    ensures Lookup(Ingest(Run(Initial, files).next.watermark, Run(Initial, files).next.windows, batch), k)
            == AddAll(Empty, Accepted(files + [batch], k))
  {
    var st := Run(Initial, files).next;
    assert (files + [batch])[..|files|] == files;
    assert Accepted(files + [batch], k) == Accepted(files, k) + InWindow(st.watermark, batch, k);
    IngestExact(st.watermark, st.windows, batch, k);
    AddAllConcat(Empty, Accepted(files, k), InWindow(st.watermark, batch, k));
  }

  /** Records that arrive after a window was emitted are never accepted into it. */
  lemma AcceptedFrozen(files: seq<seq<Record>>, batch: seq<Record>, k: int)
    requires WindowEnd(k) in Run(Initial, files).next.emittedEnds
    ensures Accepted(files + [batch], k) == Accepted(files, k)
  {
    var st := Run(Initial, files).next;
    assert (files + [batch])[..|files|] == files;
    assert Accepted(files + [batch], k) == Accepted(files, k) + InWindow(st.watermark, batch, k);
    assert WindowEnd(k) <= st.watermark;
    InWindowFacts(st.watermark, batch, k);
    assert Accepted(files, k) + [] == Accepted(files, k);
  }

  /** A run over the first i + 1 files is the run over the first i files
      followed by one trigger over file i. */
  lemma RunStep(start: EngineState, files: seq<seq<Record>>, i: int)
    requires Inv(start) && 0 <= i < |files|
    ensures Run(start, files[..i + 1]).next == Cycle(Run(start, files[..i]).next, files[i]).next
    ensures Run(start, files[..i + 1]).rows == Run(start, files[..i]).rows + Cycle(Run(start, files[..i]).next, files[i]).rows
  {
    assert files[..i + 1][..i] == files[..i];
  }

  /** Every run of a new query keeps `RunInv`. */
  lemma {:induction false} RunInvariant(files: seq<seq<Record>>)
    ensures RunInv(files)
    decreases |files|
  {
    if files != [] {
      var n := |files| - 1;
      var prev, batch := files[..n], files[n];
      assert files == prev + [batch];
      RunInvariant(prev);
      var before := Run(Initial, prev);
      var st := before.next;
      var c := Cycle(st, batch);
      var r := Run(Initial, files);
      assert r == Outcome(c.next, before.rows + c.rows);
      CycleFacts(st, batch);
      var m := Ingest(st.watermark, st.windows, batch);
      var w := Advance(st.watermark, batch);
      var due := Due(m, w);
      AscendingElements(due);
      DueReady(st, batch, m, w, due);
      assert c == Outcome(EngineState(w, m - due, st.emittedEnds + EndsOf(due)), FlushRows(m, Ascending(due)));

      // open windows
      forall k | WindowEnd(k) !in r.next.emittedEnds
        ensures Lookup(r.next.windows, k) == AddAll(Empty, Accepted(files, k))
      {
        StoreStep(prev, batch, k);
      }

      // rows emitted before this trigger
      forall row | row in before.rows
        ensures row.end == WindowEnd(row.start) && row.end <= st.watermark && Accepted(files, row.start) != []
        ensures row == WindowRow(row.start, Accepted(files, row.start))
      {
        assert row.end in Ends(before.rows);
        AcceptedFrozen(prev, batch, row.start);
      }

      // rows emitted by this trigger
      forall j | 0 <= j < |c.rows|
        ensures c.rows[j].end == WindowEnd(c.rows[j].start) && Accepted(files, c.rows[j].start) != []
        ensures c.rows[j] == WindowRow(c.rows[j].start, Accepted(files, c.rows[j].start))
      {
        var k := Ascending(due)[j];
        assert c.rows[j] in c.rows;
        assert k in due && c.rows[j] == Finalise(k, m[k]);
        StoreStep(prev, batch, k);
        AddAllMeaning(Accepted(files, k));
      }
      assert forall row :: row in r.rows <==> row in before.rows || row in c.rows;

      ByStartConcat(before.rows, c.rows, st.watermark);
      EndsConcat(before.rows, c.rows);
    }
  }

  /** Each emitted window is emitted once: the rows of a run come in strictly
      ascending window order, each after the watermark passed its end, and the
      emitted set is exactly the set of their ends. */
  lemma EmittedOnceInOrder(files: seq<seq<Record>>)
    ensures ByStart(Run(Initial, files).rows)
    ensures forall row :: row in Run(Initial, files).rows ==> row.end <= Run(Initial, files).next.watermark
    ensures forall k :: k in Run(Initial, files).next.windows ==> WindowEnd(k) > Run(Initial, files).next.watermark
    ensures Ends(Run(Initial, files).rows) == Run(Initial, files).next.emittedEnds
  {
    RunInvariant(files);
    var r := Run(Initial, files);
    forall row | row in r.rows
      ensures row.end <= r.next.watermark
    {
      assert row.end in Ends(r.rows);
    }
  }

  /** The other half of exactly-once emission: every window that accepted a
      record and that the watermark has closed has been emitted, as the row
      of exactly its accepted records. */
  lemma ClosedNonEmptyEmitted(files: seq<seq<Record>>, k: int)
    requires Accepted(files, k) != [] && WindowEnd(k) <= Run(Initial, files).next.watermark
    ensures exists row :: row in Run(Initial, files).rows && row.start == k && row == WindowRow(k, Accepted(files, k))
  {
    RunInvariant(files);
    var r := Run(Initial, files);
    var acc := Accepted(files, k);
    AddAllMeaning(acc);
    assert k !in r.next.windows;
    assert Lookup(r.next.windows, k) == Empty != AddAll(Empty, acc);
    assert WindowEnd(k) in Ends(r.rows);
    var row :| row in r.rows && row.end == WindowEnd(k);
    assert row.start == k;
  }

  /** The alerts sink inherits the window order of the results sink, so it
      too receives each window at most once. */
  lemma {:induction false} AlertsByStart(rows: seq<Row>)
    requires ByStart(rows)
    ensures ByStart(AlertsOnly(rows))
    decreases |rows|
  {
    if rows != [] {
      var n := |rows| - 1;
      var init, last := rows[..n], rows[n];
      assert ByStart(init) by {
        assert forall i :: 0 <= i < n ==> init[i] == rows[i];
      }
      AlertsByStart(init);
      AlertsOnlyMembers(init);
      if last.alert != NominalLabel {
        var a := AlertsOnly(init);
        assert AlertsOnly(rows) == a + [last];
        forall x | x in a ensures x.start < last.start {
          var i :| 0 <= i < n && init[i] == x;
          assert rows[i] == x;
        }
        ByStartSnoc(a, last);
      }
    }
  }

  /** Rows in window order followed by a row of a later window are in window order. */
  lemma ByStartSnoc(rows: seq<Row>, last: Row)
    requires ByStart(rows) && forall x :: x in rows ==> x.start < last.start
    ensures ByStart(rows + [last])
  {
    var zs := rows + [last];
    forall i, j | 0 <= i < j < |zs| ensures zs[i].start < zs[j].start {
      assert zs[i] == rows[i];
      if j < |rows| {
        assert zs[j] == rows[j];
      } else {
        assert rows[i] in rows;
      }
    }
  }

  /** The statistics of every emitted row are those of exactly the records
      accepted into its window: all of them lie in [start, end), there is at
      least one, the average is their sum of `Close` over their number and
      lies between their least and greatest `Close`, the total volume is their
      sum of `Volume`, the volatility is not negative and is 0 for a single
      record, and the alert follows the 1.02 rule. */
  lemma WindowStatistics(files: seq<seq<Record>>, row: Row)
    requires row in Run(Initial, files).rows
    ensures Accepted(files, row.start) != []
    ensures row.end == row.start + WindowLength
    ensures forall rec :: rec in Accepted(files, row.start) ==> row.start <= EventTimeOf(rec) < row.end
    ensures row.avgPrice == SumClose(Accepted(files, row.start)) / |Accepted(files, row.start)| as real
    ensures row.totalVolume == SumVolume(Accepted(files, row.start))
    ensures IsMinClose(Accepted(files, row.start), row.minPrice)
    ensures IsMaxClose(Accepted(files, row.start), row.maxPrice)
    ensures row.minPrice <= row.avgPrice <= row.maxPrice
    ensures row.variance >= 0.0 && (|Accepted(files, row.start)| == 1 ==> row.variance == 0.0)
    ensures row.alert != NominalLabel <==> row.maxPrice > row.avgPrice * SpikeRatio
  {
    RunInvariant(files);
    var acc := Accepted(files, row.start);
    AddAllMeaning(acc);
    AddAllConsistent(Empty, acc);
    FinaliseFacts(row.start, AddAll(Empty, acc));
    AcceptedInWindow(files, row.start);
    forall rec | rec in acc
      ensures row.start <= EventTimeOf(rec) < row.end
    {
      RecordInOneWindow(rec, row.start);
    }
  }

  /** Every record accepted into window `k` lies in window `k`. */
  lemma {:induction false} AcceptedInWindow(files: seq<seq<Record>>, k: int)
    ensures forall rec :: rec in Accepted(files, k) ==> WindowOf(rec) == k
    decreases |files|
  {
    if files != [] {
      var n := |files| - 1;
      AcceptedInWindow(files[..n], k);
      InWindowFacts(Run(Initial, files[..n]).next.watermark, files[n], k);
    }
  }

  /** The largest event time of a concatenation is the larger of the two maxima. */
  lemma MaxEventTimeConcat(xs: seq<Record>, ys: seq<Record>)
    requires xs != [] && ys != []
    ensures MaxEventTime(xs + ys) == IntMax(MaxEventTime(xs), MaxEventTime(ys))
  {
    var t, a, b := MaxEventTime(xs + ys), MaxEventTime(xs), MaxEventTime(ys);
    var i :| 0 <= i < |xs| && EventTimeOf(xs[i]) == a;
    var j :| 0 <= j < |ys| && EventTimeOf(ys[j]) == b;
    assert (xs + ys)[i] == xs[i] && (xs + ys)[|xs| + j] == ys[j];
    var k :| 0 <= k < |xs + ys| && EventTimeOf((xs + ys)[k]) == t;
    if k < |xs| {
      assert (xs + ys)[k] == xs[k];
    } else {
      assert (xs + ys)[k] == ys[k - |xs|];
    }
  }

  /** The watermark a query has after reading the records `rs`: the largest
      event time minus five minutes, or the epoch while that is earlier and
      before any record was read. */
  function WatermarkAfter(rs: seq<Record>): int
  {
    if rs == [] then 0 else IntMax(0, MaxEventTime(rs) - Lateness)
  }

  /** Reading one more batch moves the expected watermark as `Advance` does. */
  lemma WatermarkAfterStep(rs: seq<Record>, batch: seq<Record>)
    ensures WatermarkAfter(rs + batch) == Advance(WatermarkAfter(rs), batch)
  {
    if rs != [] && batch != [] {
      MaxEventTimeConcat(rs, batch);
    } else if rs == [] {
      assert rs + batch == batch;
    } else {
      assert rs + batch == rs;
    }
  }

  /** The watermark of a new query after any run is `WatermarkAfter` of all
      records read so far. */
  lemma {:induction false} WatermarkTracksMax(files: seq<seq<Record>>)
    ensures Run(Initial, files).next.watermark == WatermarkAfter(Flatten(files))
    decreases |files|
  {
    if files != [] {
      var n := |files| - 1;
      var prev, batch := files[..n], files[n];
      WatermarkTracksMax(prev);
      assert Flatten(files) == Flatten(prev) + batch;
      var st := Run(Initial, prev).next;
      CycleFacts(st, batch);
      assert Run(Initial, files).next == Cycle(st, batch).next;
      WatermarkAfterStep(Flatten(prev), batch);
    }
  }

  /** The watermark never moves back: a longer run never has an earlier watermark. */
  lemma {:induction false} WatermarkMonotone(files: seq<seq<Record>>, more: seq<seq<Record>>)
    ensures Run(Initial, files).next.watermark <= Run(Initial, files + more).next.watermark
    decreases |more|
  {
    if more == [] {
      assert files + more == files;
    } else {
      var n := |more| - 1;
      WatermarkMonotone(files, more[..n]);
      assert (files + more)[..|files + more| - 1] == files + more[..n];
      CycleFacts(Run(Initial, files + more[..n]).next, more[n]);
    }
  }

  /** Every record accepted into a window is a record of the input. */
  lemma {:induction false} AcceptedFromInput(files: seq<seq<Record>>, k: int)
    ensures forall rec :: rec in Accepted(files, k) ==> rec in Flatten(files)
    decreases |files|
  {
    if files != [] {
      var n := |files| - 1;
      AcceptedFromInput(files[..n], k);
      InWindowFacts(Run(Initial, files[..n]).next.watermark, files[n], k);
      assert Flatten(files) == Flatten(files[..n]) + files[n];
    }
  }

  /** An aligned window start at most `t` and above t - 900 is the window of
      `t` or the one before it. */
  lemma TwoWindowsBack(t: int, k: int)
    requires k % WindowLength == 0 && k <= t && t - WindowLength - Lateness < k
    ensures k == WindowStart(t) || k == WindowStart(t) - WindowLength
  {
    var s := WindowStart(t);
    var a, b := k / WindowLength, s / WindowLength;
    assert k == WindowLength * a && s == WindowLength * b;
  }

  /** The state store stays small: after any run, the only windows still
      open are the window of the largest event time read and the window
      before it, and none is open before any record was read. */
  lemma LiveWindowsBounded(files: seq<seq<Record>>, k: int)
    requires k in Run(Initial, files).next.windows
    ensures Flatten(files) != []
    ensures k == WindowStart(MaxEventTime(Flatten(files))) || k == WindowStart(MaxEventTime(Flatten(files))) - WindowLength
  {
    var st := Run(Initial, files).next;
    RunInvariant(files);
    var acc := Accepted(files, k);
    if WindowEnd(k) in st.emittedEnds {
      assert false;
    }
    assert st.windows[k] == AddAll(Empty, acc);
    AddAllMeaning(acc);
    assert acc[0] in acc;
    var rec := acc[0];
    AcceptedInWindow(files, k);
    AcceptedFromInput(files, k);
    var all := Flatten(files);
    var i :| 0 <= i < |all| && all[i] == rec;
    RecordInOneWindow(rec, k);
    WatermarkTracksMax(files);
    TwoWindowsBack(MaxEventTime(all), k);
  }
}
