/** The running per-window aggregate: what the streaming state store keeps
    for one open window so that `avg`, `min`, `max`, `stddev` of `Close` and
    `sum` of `Volume` can be produced when the window closes. */
module Aggregate {
  import opened EventTime

  /** Running aggregate of the records merged into one window. `minClose`
      and `maxClose` mean nothing while `count` is 0. */
  datatype Agg = Agg(count: nat, sumClose: real, sumSquares: real, minClose: real, maxClose: real, sumVolume: real)

  /** The aggregate of no records. */
  const Empty: Agg := Agg(0, 0.0, 0.0, 0.0, 0.0, 0.0)

  function Min(x: real, y: real): real { if x <= y then x else y }

  function Max(x: real, y: real): real { if x <= y then y else x }

  /** Merges one record into a running aggregate: the sums start at 0 and
      `min`/`max` start undefined (null), so the first record sets both. */
  function Add(a: Agg, rec: Record): (r: Agg)
    ensures r.count == a.count + 1
    ensures r.sumClose == a.sumClose + rec.close && r.sumVolume == a.sumVolume + rec.volume
    ensures r.minClose <= rec.close <= r.maxClose
    ensures a.count > 0 ==> r.minClose <= a.minClose && a.maxClose <= r.maxClose
  {
    var c := rec.close;
    Agg(a.count + 1, a.sumClose + c, a.sumSquares + c * c,
        if a.count == 0 then c else Min(a.minClose, c),
        if a.count == 0 then c else Max(a.maxClose, c),
        a.sumVolume + rec.volume)
  }

  /** Merges the records of `rs`, in order, into `a`. */
  function AddAll(a: Agg, rs: seq<Record>): (r: Agg)
    ensures r.count == a.count + |rs|
    ensures r.sumClose == a.sumClose + SumClose(rs) && r.sumVolume == a.sumVolume + SumVolume(rs)
    decreases |rs|
  {
    if rs == [] then a else Add(AddAll(a, rs[..|rs| - 1]), rs[|rs| - 1])
  }

  /** Reference definitions of the window statistics over a list of records. */
  function SumClose(rs: seq<Record>): real
    decreases |rs|
  {
    if rs == [] then 0.0 else SumClose(rs[..|rs| - 1]) + rs[|rs| - 1].close
  }

  function SumSquares(rs: seq<Record>): real
    decreases |rs|
  {
    if rs == [] then 0.0 else SumSquares(rs[..|rs| - 1]) + rs[|rs| - 1].close * rs[|rs| - 1].close
  }

  function SumVolume(rs: seq<Record>): real
    decreases |rs|
  {
    if rs == [] then 0.0 else SumVolume(rs[..|rs| - 1]) + rs[|rs| - 1].volume
  }

  /** `m` is the smallest `Close` of `rs` (a value some record has, and no record is below). */
  ghost predicate IsMinClose(rs: seq<Record>, m: real)
  {
    (exists i :: 0 <= i < |rs| && rs[i].close == m) && forall i :: 0 <= i < |rs| ==> m <= rs[i].close
  }

  /** `m` is the largest `Close` of `rs`. */
  ghost predicate IsMaxClose(rs: seq<Record>, m: real)
  {
    (exists i :: 0 <= i < |rs| && rs[i].close == m) && forall i :: 0 <= i < |rs| ==> rs[i].close <= m
  }

  /** The invariant every reachable aggregate keeps: an empty one is `Empty`,
      a non-empty one has min <= max, its sum lies between count * min and
      count * max, and count * sum of squares >= (sum)^2 (so the sample
      variance is never negative). */
  ghost predicate Consistent(a: Agg)
  {
    && (a.count == 0 ==> a == Empty)
    && (a.count > 0 ==> Moments(a.count as real, a.sumClose, a.sumSquares, a.minClose, a.maxClose))
  }

  /** The relations between n values' sum `s`, sum of squares `q`, least `lo` and greatest `hi`. */
  ghost predicate Moments(n: real, s: real, q: real, lo: real, hi: real)
  {
    lo <= hi && n * lo <= s <= n * hi && n * q >= s * s
  }

  /** The variance part of `Moments` survives one more value `c`:
      (n + 1)(q + c^2) - (s + c)^2 = (n q - s^2) + (s - n c)^2 / n. */
  lemma VarianceStep(n: real, s: real, q: real, c: real, n1: real, s1: real, q1: real)
    requires n > 0.0 && n * q >= s * s
    requires n1 == n + 1.0 && s1 == s + c && q1 == q + c * c
    ensures n1 * q1 >= s1 * s1
  {
    var d := q + n * c * c - 2.0 * s * c;
    var e := s - n * c;
    assert e * e >= 0.0;
    assert n * d == (n * q - s * s) + e * e;
    assert (n + 1.0) * (q + c * c) - (s + c) * (s + c) == (n * q - s * s) + d;
    assert n1 * q1 == (n + 1.0) * (q + c * c);
    assert s1 * s1 == (s + c) * (s + c);
  }

  /** The bound part of `Moments` survives one more value `c`. */
  lemma BoundStep(n: real, s: real, lo: real, hi: real, c: real, n1: real, s1: real, lo1: real, hi1: real)
    requires n > 0.0 && lo <= hi && n * lo <= s <= n * hi
    requires n1 == n + 1.0 && s1 == s + c && lo1 == Min(lo, c) && hi1 == Max(hi, c)
    ensures lo1 <= hi1 && n1 * lo1 <= s1 <= n1 * hi1
  {
    assert lo1 <= lo && lo1 <= c && hi <= hi1 && c <= hi1;
    assert n * (lo - lo1) >= 0.0 && n * (hi1 - hi) >= 0.0;
    assert n1 * lo1 == n * lo1 + lo1 && n1 * hi1 == n * hi1 + hi1;
  }

  /** `Moments` survives one more value `c`. */
  lemma MomentStep(n: real, s: real, q: real, lo: real, hi: real, c: real, n1: real, s1: real, q1: real, lo1: real, hi1: real)
    requires n > 0.0 && Moments(n, s, q, lo, hi)
    requires n1 == n + 1.0 && s1 == s + c && q1 == q + c * c && lo1 == Min(lo, c) && hi1 == Max(hi, c)
    ensures Moments(n1, s1, q1, lo1, hi1)
  {
    assert n1 * q1 >= s1 * s1 by {
      VarianceStep(n, s, q, c, n1, s1, q1);
    }
    assert lo1 <= hi1 && n1 * lo1 <= s1 <= n1 * hi1 by {
      BoundStep(n, s, lo, hi, c, n1, s1, lo1, hi1);
    }
  }

  /** Merging one record keeps an aggregate consistent. */
  lemma AddConsistent(a: Agg, rec: Record)
    requires Consistent(a)
    ensures Consistent(Add(a, rec))
  {
    if a.count > 0 {
      var r := Add(a, rec);
      MomentStep(a.count as real, a.sumClose, a.sumSquares, a.minClose, a.maxClose, rec.close,
                 r.count as real, r.sumClose, r.sumSquares, r.minClose, r.maxClose);
    }
  }

  /** `AddAll` keeps an aggregate consistent. */
  lemma {:induction false} AddAllConsistent(a: Agg, rs: seq<Record>)
    requires Consistent(a)
    ensures Consistent(AddAll(a, rs))
    decreases |rs|
  {
    if rs != [] {
      AddAllConsistent(a, rs[..|rs| - 1]);
      AddConsistent(AddAll(a, rs[..|rs| - 1]), rs[|rs| - 1]);
    }
  }

  /** Merging `xs` and then `ys` is merging `xs + ys`: the aggregate of a
      window does not depend on how its records were split into batches. */
  lemma {:induction false} AddAllConcat(a: Agg, xs: seq<Record>, ys: seq<Record>)
    ensures AddAll(AddAll(a, xs), ys) == AddAll(a, xs + ys)
    decreases |ys|
  {
    if ys == [] {
      assert xs + ys == xs;
    } else {
      var n := |ys| - 1;
      AddAllConcat(a, xs, ys[..n]);
      assert (xs + ys)[..|xs + ys| - 1] == xs + ys[..n];
      assert (xs + ys)[|xs + ys| - 1] == ys[n];
    }
  }

  /** The aggregate of a list of records, built from `Empty`, holds exactly
      their count, the sums of `Close`, `Close`^2 and `Volume`, and the least
      and greatest `Close`. */
  lemma {:induction false} AddAllMeaning(rs: seq<Record>)
    ensures AddAll(Empty, rs).count == |rs|
    ensures AddAll(Empty, rs).sumClose == SumClose(rs)
    ensures AddAll(Empty, rs).sumSquares == SumSquares(rs)
    ensures AddAll(Empty, rs).sumVolume == SumVolume(rs)
    ensures rs == [] <==> AddAll(Empty, rs) == Empty
    ensures rs != [] ==> IsMinClose(rs, AddAll(Empty, rs).minClose) && IsMaxClose(rs, AddAll(Empty, rs).maxClose)
    decreases |rs|
  {
    if rs != [] {
      var n := |rs| - 1;
      var init, last := rs[..n], rs[n];
      AddAllMeaning(init);
      var a, r := AddAll(Empty, init), AddAll(Empty, rs);
      assert r == Add(a, last);
      if init == [] {
        assert r.minClose == last.close == r.maxClose;
        assert rs[0] == last;
      } else {
        assert IsMinClose(init, a.minClose) && IsMaxClose(init, a.maxClose);
        var i :| 0 <= i < n && init[i].close == a.minClose;
        var j :| 0 <= j < n && init[j].close == a.maxClose;
        assert rs[i] == init[i] && rs[j] == init[j];
        assert forall k :: 0 <= k < n ==> rs[k] == init[k];
        if r.minClose == a.minClose {
          assert rs[i].close == r.minClose;
        } else {
          assert rs[n].close == r.minClose;
        }
        if r.maxClose == a.maxClose {
          assert rs[j].close == r.maxClose;
        } else {
          assert rs[n].close == r.maxClose;
        }
      }
      assert r.count > 0;
    }
  }
}
