/** Statistics over a user's solves (src/util.rs): the truncating mean time
    and percentile selection. */
module Stats {
  import opened Wrappers
  import opened Ints
  import opened Models

  function SumTimes(s: seq<ResultEntry>): int {
    if s == [] then 0 else s[0].time + SumTimes(s[1..])
  }

  /** The Rust sum of the times is exact: every time and the total are `i32`
      values and the count converts to `i32` without change. The model leaves
      inputs whose total overflows out. */
  predicate Summable(s: seq<ResultEntry>) {
    && |s| <= MAX_I32
    && (forall i :: 0 <= i < |s| ==> IsI32(s[i].time))
    && IsI32(SumTimes(s))
  }

  /** `get_average_time`: the total time divided by the count, rounded toward
      zero. Rust divides by `len`, so the sequence must not be empty. */
  function AverageTime(s: seq<ResultEntry>): (r: int)
    requires |s| > 0 && Summable(s)
    ensures SumTimes(s) >= 0 ==> 0 <= SumTimes(s) - r * |s| < |s|
    ensures SumTimes(s) < 0 ==> -|s| < SumTimes(s) - r * |s| <= 0
    ensures IsI32(r)
  {
    var q := TruncDiv(SumTimes(s), |s|);
    assert IsI32(q) by { TruncDivShrinks(SumTimes(s), |s|); }
    q
  }

  lemma TruncDivShrinks(a: int, b: int)
    requires b > 0
    ensures a >= 0 ==> 0 <= TruncDiv(a, b) <= a
    ensures a < 0 ==> a <= TruncDiv(a, b) <= 0
  {
    var m := if a >= 0 then a else -a;
    var q := m / b;
    assert q * b <= m;
    MulMonotone(1, b, q);
  }

  lemma {:induction false} SumBounds(s: seq<ResultEntry>, lo: int, hi: int)
    requires forall i :: 0 <= i < |s| ==> lo <= s[i].time <= hi
    ensures lo * |s| <= SumTimes(s) <= hi * |s|
    decreases |s|
  {
    if s != [] {
      SumBounds(s[1..], lo, hi);
    }
  }

  /** The mean lies between the fastest and the slowest time. */
  lemma AverageWithinTimes(s: seq<ResultEntry>, lo: int, hi: int)
    requires |s| > 0 && Summable(s)
    requires forall i :: 0 <= i < |s| ==> lo <= s[i].time <= hi
    ensures lo <= AverageTime(s) <= hi
  {
    SumBounds(s, lo, hi);
    var n := |s|;
    var r := AverageTime(s);
    var t := SumTimes(s);
    if t >= 0 {
      MulCancelStrict(lo, r + 1, n);
      MulCancel(r, hi, n);
    } else {
      MulCancel(lo, r, n);
      MulCancelStrict(r, hi + 1, n);
    }
  }

  lemma MulMonotone(a: int, b: int, n: nat)
    requires a <= b
    ensures a * n <= b * n
  {
  }

  lemma MulCancel(a: int, b: int, n: int)
    requires n > 0 && a * n <= b * n
    ensures a <= b
  {
    assert (b - a) * n >= 0;
  }

  lemma MulCancelStrict(a: int, b: int, n: int)
    requires n > 0 && a * n < b * n
    ensures a < b
  {
    assert (b - a) * n > 0;
  }

  /** The index of percentile `p` among `len` sorted times: `p / 100 * len`
      converted to an unsigned index, so a non-positive product becomes 0
      and any other is rounded down. */
  function PercentileIndex(p: int, len: nat): nat {
    if p <= 0 then 0 else p * len / 100
  }

  /** The times at the requested percentiles, in request order, or the error
      for the first index past the end of `data`. */
  function SelectPercentiles(data: seq<ResultEntry>, ps: seq<int>): (r: Result<seq<int>, string>)
    ensures r.Err? <==> exists i :: 0 <= i < |ps| && PercentileIndex(ps[i], |data|) >= |data|
    ensures r.Ok? ==> |r.value| == |ps|
    ensures r.Ok? ==> forall i :: 0 <= i < |ps| ==> r.value[i] == data[PercentileIndex(ps[i], |data|)].time
  {
    if ps == [] then Ok([])
    else
      var index := PercentileIndex(ps[0], |data|);
      if index >= |data| then Err("Index out of bounds")
      else
        match SelectPercentiles(data, ps[1..])
        case Err(e) =>
          ghost var i :| 0 <= i < |ps[1..]| && PercentileIndex(ps[1..][i], |data|) >= |data|;
          assert PercentileIndex(ps[i + 1], |data|) >= |data|;
          Err(e)
        case Ok(rest) =>
          assert forall i :: 1 <= i < |ps| ==> ps[i] == ps[1..][i - 1];
          Ok([data[index].time] + rest)
  }

  function Reverse<T>(s: seq<T>): (r: seq<T>)
    ensures |r| == |s|
    ensures forall i :: 0 <= i < |s| ==> r[i] == s[|s| - 1 - i]
  {
    if s == [] then [] else Reverse(s[1..]) + [s[0]]
  }

  /** `compute_percentiles`: one time per requested percentile, listed in the
      reverse of the request order; "Index out of bounds" as soon as one
      index reaches the length of `data`. */
  function ComputePercentiles(data: seq<ResultEntry>, ps: seq<int>): (r: Result<seq<int>, string>)
    ensures r.Err? <==> exists i :: 0 <= i < |ps| && PercentileIndex(ps[i], |data|) >= |data|
    ensures r.Err? ==> r.error == "Index out of bounds"
    ensures r.Ok? ==> |r.value| == |ps|
    ensures r.Ok? ==> forall i :: 0 <= i < |ps| ==>
      r.value[i] == data[PercentileIndex(ps[|ps| - 1 - i], |data|)].time
  {
    match SelectPercentiles(data, ps)
    case Err(_) => Err("Index out of bounds")
    case Ok(times) => Ok(Reverse(times))
  }

  /** The 100th percentile indexes one past the last element, so any request
      containing 100 fails, whatever the data. */
  lemma HundredthPercentileFails(data: seq<ResultEntry>, ps: seq<int>)
    requires 100 in ps
    ensures ComputePercentiles(data, ps).Err?
  {
    var i :| 0 <= i < |ps| && ps[i] == 100;
    assert PercentileIndex(ps[i], |data|) == |data|;
  }

  /** With no data every request fails; an empty request always succeeds. */
  lemma PercentilesOfEmpty(data: seq<ResultEntry>, ps: seq<int>)
    ensures data == [] ==> (ComputePercentiles(data, ps).Err? <==> ps != [])
    ensures ps == [] ==> ComputePercentiles(data, ps) == Ok([])
  {
    if data == [] && ps != [] {
      assert PercentileIndex(ps[0], 0) >= 0;
    }
  }

  /** Below 100 the index stays inside non-empty data. */
  lemma PercentileIndexInRange(p: int, len: nat)
    requires p < 100 && len > 0
    ensures PercentileIndex(p, len) < len
  {
    if p > 0 {
      assert p * len < 100 * len by { MulMonotone(p + 1, 100, len); }
    }
  }

  lemma PercentileIndexMonotone(p: int, q: int, len: nat)
    requires p <= q
    ensures PercentileIndex(p, len) <= PercentileIndex(q, len)
  {
    if p > 0 {
      MulMonotone(p, q, len);
    }
  }

  /** Data sorted fastest first and percentiles requested in ascending order
      give times slowest first. */
  lemma PercentilesDescend(data: seq<ResultEntry>, ps: seq<int>)
    requires forall i, j :: 0 <= i < j < |data| ==> data[i].time <= data[j].time
    requires forall i, j :: 0 <= i < j < |ps| ==> ps[i] <= ps[j]
    requires ComputePercentiles(data, ps).Ok?
    ensures forall i, j :: 0 <= i < j < |ps| ==>
      ComputePercentiles(data, ps).value[i] >= ComputePercentiles(data, ps).value[j]
  {
    forall i, j | 0 <= i < j < |ps|
      ensures ComputePercentiles(data, ps).value[i] >= ComputePercentiles(data, ps).value[j]
    {
      PercentilePairDescends(data, ps, i, j);
    }
  }

  lemma PercentilePairDescends(data: seq<ResultEntry>, ps: seq<int>, i: nat, j: nat)
    requires forall i, j :: 0 <= i < j < |data| ==> data[i].time <= data[j].time
    requires forall i, j :: 0 <= i < j < |ps| ==> ps[i] <= ps[j]
    requires ComputePercentiles(data, ps).Ok?
    requires i < j < |ps|
    ensures ComputePercentiles(data, ps).value[i] >= ComputePercentiles(data, ps).value[j]
  {
    var ia := PercentileValueAt(data, ps, j);
    var ib := PercentileValueAt(data, ps, i);
    assert ps[|ps| - 1 - j] <= ps[|ps| - 1 - i];
    PercentileIndexMonotone(ps[|ps| - 1 - j], ps[|ps| - 1 - i], |data|);
    assert ia <= ib;
    SortedTimes(data, ia, ib);
  }

  lemma SortedTimes(data: seq<ResultEntry>, a: nat, b: nat)
    requires forall i, j :: 0 <= i < j < |data| ==> data[i].time <= data[j].time
    requires a <= b < |data|
    ensures data[a].time <= data[b].time
  {
    if a < b {
      assert data[a].time <= data[b].time;
    }
  }

  /** Entry `i` of a successful result and the data index it was read from. */
  lemma PercentileValueAt(data: seq<ResultEntry>, ps: seq<int>, i: nat) returns (index: nat)
    requires ComputePercentiles(data, ps).Ok? && i < |ps|
    ensures index == PercentileIndex(ps[|ps| - 1 - i], |data|)
    ensures index < |data| && ComputePercentiles(data, ps).value[i] == data[index].time
  {
    index := PercentileIndex(ps[|ps| - 1 - i], |data|);
  }
}
