/** Finalising a window: the output row with its statistics, the `na.fill`
    of the volatility, the price-spike alert rule, and the filter that feeds
    the alerts-only sink. */
module Alert {
  import opened EventTime
  import opened Aggregate

  /** The label of a window whose maximum is more than 2% above its average. */
  const SpikeLabel: string := "Spike di Prezzo > 2%"

  /** The label of every other window. */
  const NominalLabel: string := "Nominal"

  /** The spike threshold: `max_price > avg_price * 1.02`. */
  const SpikeRatio: real := 1.02

  /** One finalised window as written to the sinks. `variance` is the square
      of the `volatility` column (the sample standard deviation of `Close`,
      0 for a single-record window). */
  datatype Row = Row(start: int, end: int, avgPrice: real, minPrice: real, maxPrice: real,
                     variance: real, totalVolume: real, alert: string)

  /** The `when(max_price > avg_price * 1.02, spike).otherwise("Nominal")` column. */
  function AlertLabel(maxPrice: real, avgPrice: real): (verdict: string)
    ensures verdict == SpikeLabel || verdict == NominalLabel
  {
    if maxPrice > avgPrice * SpikeRatio then SpikeLabel else NominalLabel
  }

  /** Sample variance of `Close`; `stddev` is null for one record and `na.fill` makes it 0. */
  function FilledVariance(a: Agg): (v: real)
    requires a.count > 0
    ensures a.count == 1 ==> v == 0.0
    ensures Consistent(a) ==> v >= 0.0
  {
    if a.count == 1 then 0.0
    else
      var n, m := a.count as real, (a.count - 1) as real;
      var sample := (a.sumSquares - a.sumClose * a.sumClose / n) / m;
      VarianceNonNegative(n, a.sumClose, a.sumSquares, a.minClose, a.maxClose, m, sample);
      sample
  }

  /** The output row of the window starting at `start` whose aggregate is `a`.
      A window exists only once a record was merged into it, so `a` is never empty. */
  function Finalise(start: int, a: Agg): (row: Row)
    requires a.count > 0
    ensures row.start == start && row.end == start + WindowLength
    ensures row.avgPrice * a.count as real == a.sumClose
    ensures row.minPrice == a.minClose && row.maxPrice == a.maxClose && row.totalVolume == a.sumVolume
    ensures row.alert != NominalLabel <==> row.maxPrice > row.avgPrice * SpikeRatio
  {
    var avg := a.sumClose / a.count as real;
    AlertRule(a.maxClose, avg);
    Row(start, WindowEnd(start), avg, a.minClose, a.maxClose, FilledVariance(a), a.sumVolume,
        AlertLabel(a.maxClose, avg))
  }

  /** The rows the alerts sink receives: those whose alert is not "Nominal", in order. */
  function AlertsOnly(rows: seq<Row>): (alerts: seq<Row>)
    ensures |alerts| <= |rows|
    ensures forall i :: 0 <= i < |alerts| ==> alerts[i].alert != NominalLabel && alerts[i] in rows
    decreases |rows|
  {
    if rows == [] then []
    else AlertsOnly(rows[..|rows| - 1]) + (if rows[|rows| - 1].alert != NominalLabel then [rows[|rows| - 1]] else [])
  }

  /** The alert is the spike label exactly when the maximum exceeds 1.02 times the average. */
  lemma AlertRule(maxPrice: real, avgPrice: real)
    ensures AlertLabel(maxPrice, avgPrice) == SpikeLabel <==> maxPrice > avgPrice * SpikeRatio
    ensures AlertLabel(maxPrice, avgPrice) == NominalLabel <==> maxPrice <= avgPrice * SpikeRatio
  {
    assert SpikeLabel != NominalLabel by {
      assert SpikeLabel[0] != NominalLabel[0];
    }
  }

  /** The average s / n of n values lies between their least and greatest. */
  lemma AverageBetween(n: real, s: real, q: real, lo: real, hi: real)
    requires n > 0.0 && Moments(n, s, q, lo, hi)
    ensures (s / n) * n == s
    ensures lo <= s / n <= hi
  {
    var avg := s / n;
    assert n * avg == s;
    assert n * (avg - lo) >= 0.0;
    assert n * (hi - avg) >= 0.0;
  }

  /** The sample variance v = (q - s^2 / n) / m, with m = n - 1, of more than one value is not negative
      when n, s and q are the count, sum and sum of squares of actual values. */
  lemma VarianceNonNegative(n: real, s: real, q: real, lo: real, hi: real, m: real, v: real)
    requires n > 1.0 && m == n - 1.0
    requires v == (q - s * s / n) / m
    ensures Moments(n, s, q, lo, hi) ==> v >= 0.0
  {
    if Moments(n, s, q, lo, hi) {
      var p := n * q - s * s;
      assert p >= 0.0;
      assert q - s * s / n == p / n;
      assert p / n >= 0.0;
    }
  }

  /** What the source promises of a finalised row: it covers [start, start + 600),
      its average is the sum of `Close` over the count and lies between the
      minimum and the maximum, the volatility is never negative and is 0 for a
      single-record window, the total volume is the sum of `Volume`, and the
      alert is the spike label exactly when max > avg * 1.02. */
  lemma FinaliseFacts(start: int, a: Agg)
    requires a.count > 0 && Consistent(a)
    ensures Finalise(start, a).start == start && Finalise(start, a).end == start + WindowLength
    ensures Finalise(start, a).avgPrice * a.count as real == a.sumClose
    ensures Finalise(start, a).minPrice <= Finalise(start, a).avgPrice <= Finalise(start, a).maxPrice
    ensures Finalise(start, a).totalVolume == a.sumVolume
    ensures Finalise(start, a).variance >= 0.0
    ensures a.count == 1 ==> Finalise(start, a).variance == 0.0
    ensures Finalise(start, a).alert != NominalLabel <==> Finalise(start, a).maxPrice > Finalise(start, a).avgPrice * SpikeRatio
  {
    var row := Finalise(start, a);
    AverageBetween(a.count as real, a.sumClose, a.sumSquares, a.minClose, a.maxClose);
    assert row.variance == FilledVariance(a);
    AlertRule(row.maxPrice, row.avgPrice);
  }

  /** The alerts sink is a filter of the results sink over appends: filtering
      a concatenation is concatenating the filtered parts. */
  lemma {:induction false} AlertsOnlyAppend(xs: seq<Row>, ys: seq<Row>)
    ensures AlertsOnly(xs + ys) == AlertsOnly(xs) + AlertsOnly(ys)
    decreases |ys|
  {
    if ys == [] {
      assert xs + ys == xs;
    } else {
      var n := |ys| - 1;
      AlertsOnlyAppend(xs, ys[..n]);
      assert (xs + ys)[..|xs + ys| - 1] == xs + ys[..n];
      assert (xs + ys)[|xs + ys| - 1] == ys[n];
    }
  }

  /** The alerts sink holds exactly the non-"Nominal" rows of the results:
      every row it keeps is a non-"Nominal" row of the input, and every
      non-"Nominal" row of the input is kept. */
  lemma {:induction false} AlertsOnlyMembers(rows: seq<Row>)
    ensures forall r :: r in AlertsOnly(rows) <==> r in rows && r.alert != NominalLabel
    decreases |rows|
  {
    if rows != [] {
      var n := |rows| - 1;
      var init, last := rows[..n], rows[n];
      AlertsOnlyMembers(init);
      assert rows == init + [last];
      forall r
        ensures r in AlertsOnly(rows) <==> r in rows && r.alert != NominalLabel
      {
        assert r in rows <==> r in init || r == last;
      }
    }
  }

  /** The alerts filter drops no non-"Nominal" row and reorders nothing:
      when no row is "Nominal", it returns its input unchanged; and it never
      returns more rows than it was given. */
  lemma {:induction false} AlertsOnlyKeepsAlerts(rows: seq<Row>)
    ensures |AlertsOnly(rows)| <= |rows|
    ensures (forall i :: 0 <= i < |rows| ==> rows[i].alert != NominalLabel) ==> AlertsOnly(rows) == rows
    decreases |rows|
  {
    if rows != [] {
      var n := |rows| - 1;
      var init := rows[..n];
      AlertsOnlyKeepsAlerts(init);
      if forall i :: 0 <= i < |rows| ==> rows[i].alert != NominalLabel {
        assert forall i :: 0 <= i < n ==> init[i].alert != NominalLabel by {
          forall i | 0 <= i < n ensures init[i].alert != NominalLabel {
            assert init[i] == rows[i];
          }
        }
        assert rows[n].alert != NominalLabel;
        assert AlertsOnly(rows) == init + [rows[n]];
        assert rows == init + [rows[n]];
      }
    }
  }

  /** The records of a scenario, all inside the window [0, 600). */
  function ScenarioRecords(closes: seq<real>): (rs: seq<Record>)
    ensures |rs| == |closes|
    ensures forall i :: 0 <= i < |rs| ==> rs[i].close == closes[i] && WindowOf(rs[i]) == 0
  {
    seq(|closes|, i requires 0 <= i < |closes| => Record(60.0 * (i % 10) as real, closes[i], closes[i], closes[i], closes[i], 1.0))
  }

  /** Closes 100, 101, 99, 102, 150 in one window: average 110.4, maximum 150,
      and 150 > 110.4 * 1.02, so the window is a spike. */
  lemma ScenarioSpike()
    ensures Finalise(0, AddAll(Empty, ScenarioRecords([100.0, 101.0, 99.0, 102.0, 150.0]))).avgPrice == 110.4
    ensures Finalise(0, AddAll(Empty, ScenarioRecords([100.0, 101.0, 99.0, 102.0, 150.0]))).maxPrice == 150.0
    ensures Finalise(0, AddAll(Empty, ScenarioRecords([100.0, 101.0, 99.0, 102.0, 150.0]))).alert == SpikeLabel
  {
    var rs := ScenarioRecords([100.0, 101.0, 99.0, 102.0, 150.0]);
    AddAllMeaning(rs);
    var a := AddAll(Empty, rs);
    assert SumClose(rs[..1]) == 100.0 by { assert rs[..1][..0] == [] && rs[..1][0] == rs[0] && rs[0].close == 100.0; }
    assert SumClose(rs[..2]) == 201.0 by { assert rs[..2][..1] == rs[..1]; }
    assert SumClose(rs[..3]) == 300.0 by { assert rs[..3][..2] == rs[..2]; }
    assert SumClose(rs[..4]) == 402.0 by { assert rs[..4][..3] == rs[..3]; }
    assert SumClose(rs) == 552.0 by { assert rs[..4] == rs[..|rs| - 1]; }
    assert a.maxClose == 150.0 by { assert rs[4].close == 150.0; }
  }

  /** Closes 100, 101, 99, 102 in one window: average 100.5, maximum 102,
      and 102 <= 100.5 * 1.02 = 102.51, so the window is "Nominal". */
  lemma ScenarioNominal()
    ensures Finalise(0, AddAll(Empty, ScenarioRecords([100.0, 101.0, 99.0, 102.0]))).avgPrice == 100.5
    ensures Finalise(0, AddAll(Empty, ScenarioRecords([100.0, 101.0, 99.0, 102.0]))).maxPrice == 102.0
    ensures Finalise(0, AddAll(Empty, ScenarioRecords([100.0, 101.0, 99.0, 102.0]))).alert == NominalLabel
  {
    var rs := ScenarioRecords([100.0, 101.0, 99.0, 102.0]);
    AddAllMeaning(rs);
    var a := AddAll(Empty, rs);
    assert SumClose(rs[..1]) == 100.0 by { assert rs[..1][..0] == [] && rs[..1][0] == rs[0] && rs[0].close == 100.0; }
    assert SumClose(rs[..2]) == 201.0 by { assert rs[..2][..1] == rs[..1]; }
    assert SumClose(rs[..3]) == 300.0 by { assert rs[..3][..2] == rs[..2]; }
    assert SumClose(rs) == 402.0 by { assert rs[..3] == rs[..|rs| - 1]; }
    assert a.maxClose == 102.0 by { assert rs[3].close == 102.0; }
  }
}
