/**
 * Per-index query statistics (QueryStatContainer_c, QueryStatContainerExact_c,
 * ServedStats_c). Samples are folded into 100 ms buckets kept for 15
 * minutes; reports give min, max, average and bucket-average percentiles
 * over the buckets inside a window. All uint64_t arithmetic wraps.
 */
module QueryStats {
  import opened Wire

  /** BUCKET_TIME_DELTA: samples this close to the newest bucket join it. */
  const BUCKET_TIME_DELTA: Qword := 100000
  /** MAX_TIME_DELTA: buckets older than this are dropped (15 minutes, in microseconds). */
  const MAX_TIME_DELTA: Qword := 15 * 60 * 1000000
  /** g_dStatsIntervals: 1, 5 and 15 minutes, in microseconds. */
  const STATS_INTERVALS: seq<Qword> := [1 * 60 * 1000000, 5 * 60 * 1000000, 15 * 60 * 1000000]

  /** Min, max and sum of one measured quantity inside a bucket. */
  datatype Agg = Agg(min: Qword, max: Qword, sum: Qword)

  /** QueryStatRecord_t: the query-time and found-rows aggregates of a bucket,
      its first timestamp and its sample count. */
  datatype QueryStatRecord = QueryStatRecord(queryTime: Agg, foundRows: Agg, timestamp: Qword, count: nat)

  /** QueryStatElement_t: AVG, MIN, MAX, 95th and 99th percentile, and the
      number of queries they cover. */
  datatype StatElement = StatElement(avg: Qword, min: Qword, max: Qword, p95: Qword, p99: Qword, totalQueries: Qword)

  /** The element's initial value: MIN starts at UINT64_MAX, the rest at 0. */
  const DefaultElement: StatElement := StatElement(0, QWORD_MAX, 0, 0, 0, 0)

  function Min(a: Qword, b: Qword): Qword { if a < b then a else b }
  function Max(a: Qword, b: Qword): Qword { if a > b then a else b }

  /** A bucket is well formed: at least one sample, min not above max. */
  predicate GoodRecord(r: QueryStatRecord)
  {
    r.count >= 1 && r.queryTime.min <= r.queryTime.max && r.foundRows.min <= r.foundRows.max
  }

  predicate AllGood(w: seq<QueryStatRecord>)
  {
    forall i :: 0 <= i < |w| ==> GoodRecord(w[i])
  }

  /** A bucket holding exactly one sample. */
  function Singleton(foundRows: Qword, queryTime: Qword, timestamp: Qword): (r: QueryStatRecord)
    ensures GoodRecord(r) && r.count == 1 && r.timestamp == timestamp
  {
    QueryStatRecord(Agg(queryTime, queryTime, queryTime), Agg(foundRows, foundRows, foundRows), timestamp, 1)
  }

  /** One more sample folded into an aggregate. */
  function Fold(a: Agg, x: Qword): (r: Agg)
    ensures r.min <= x <= r.max
    ensures r.min <= a.min && a.max <= r.max
    ensures r.min == a.min || r.min == x
    ensures r.max == a.max || r.max == x
    ensures r.sum == Add64(a.sum, x)
  {
    Agg(Min(x, a.min), Max(x, a.max), Add64(a.sum, x))
  }

  /** One more sample folded into a bucket. */
  function Merge(r: QueryStatRecord, foundRows: Qword, queryTime: Qword): (m: QueryStatRecord)
    requires GoodRecord(r)
    ensures GoodRecord(m) && m.count == r.count + 1 && m.timestamp == r.timestamp
  {
    QueryStatRecord(Fold(r.queryTime, queryTime), Fold(r.foundRows, foundRows), r.timestamp, r.count + 1)
  }

  /** How many leading buckets are older than MAX_TIME_DELTA at `now`. */
  function EvictCount(stamps: seq<Qword>, now: Qword): (k: nat)
    ensures k <= |stamps|
    ensures forall i :: 0 <= i < k ==> Sub64(now, stamps[i]) > MAX_TIME_DELTA
    ensures k < |stamps| ==> Sub64(now, stamps[k]) <= MAX_TIME_DELTA
  {
    if stamps != [] && Sub64(now, stamps[0]) > MAX_TIME_DELTA then 1 + EvictCount(stamps[1..], now) else 0
  }

  function Stamps(records: seq<QueryStatRecord>): (s: seq<Qword>)
    ensures |s| == |records|
    ensures forall i :: 0 <= i < |records| ==> s[i] == records[i].timestamp
  {
    seq(|records|, i requires 0 <= i < |records| => records[i].timestamp)
  }

  /** QueryStatContainer_c: the bucketed ring buffer. */
  class QueryStatContainer {
    var records: seq<QueryStatRecord>

    ghost predicate Valid()
      reads this
    {
      AllGood(records)
    }

    constructor ()
      ensures Valid() && records == []
    {
      records := [];
    }

    function GetNumRecords(): (n: nat)
      reads this
      ensures n == |records|
    {
      |records|
    }

    function GetRecord(i: nat): (r: QueryStatRecord)
      reads this
      requires Valid() && i < |records|
      ensures GoodRecord(r)
      ensures r == records[i]
    {
      records[i]
    }

    /** A sample within BUCKET_TIME_DELTA of the newest bucket is merged into
        it; otherwise expired buckets are dropped from the front and a new
        bucket is pushed. */
    method Add(foundRows: Qword, queryTime: Qword, timestamp: Qword)
      requires Valid()
      modifies this
      ensures Valid() && records != []
      ensures var n := |old(records)|;
              n > 0 && Sub64(timestamp, old(records)[n - 1].timestamp) <= BUCKET_TIME_DELTA ==>
                records == old(records)[..n - 1] + [Merge(old(records)[n - 1], foundRows, queryTime)]
      ensures var n := |old(records)|;
              !(n > 0 && Sub64(timestamp, old(records)[n - 1].timestamp) <= BUCKET_TIME_DELTA) ==>
                records == old(records)[EvictCount(Stamps(old(records)), timestamp)..]
                           + [Singleton(foundRows, queryTime, timestamp)]
    {
      if records != [] {
        var last := records[|records| - 1];
        if Sub64(timestamp, last.timestamp) <= BUCKET_TIME_DELTA {
          records := records[..|records| - 1] + [Merge(last, foundRows, queryTime)];
          return;
        }
      }
      Evict(timestamp);
      records := records + [Singleton(foundRows, queryTime, timestamp)];
    }

    /** The eviction loop of Add: pop buckets from the front while they are
        older than MAX_TIME_DELTA. */
    method Evict(timestamp: Qword)
      requires Valid()
      modifies this
      ensures Valid()
      ensures records == old(records)[EvictCount(Stamps(old(records)), timestamp)..]
    {
      ghost var k := 0;
      ghost var stamps := Stamps(records);
      while records != [] && Sub64(timestamp, records[0].timestamp) > MAX_TIME_DELTA
        invariant k <= |old(records)| && records == old(records)[k..]
        invariant AllGood(records)
        invariant |stamps| == |old(records)| && Stamps(records) == stamps[k..]
        invariant EvictCount(stamps, timestamp) == k + EvictCount(stamps[k..], timestamp)
        decreases |records|
      {
        assert stamps[k..][1..] == stamps[k + 1..];
        records := records[1..];
        k := k + 1;
      }
    }
  }

  /** The plain sum of a run of samples. */
  function Total(xs: seq<Qword>): nat
  {
    if xs == [] then 0 else xs[0] + Total(xs[1..])
  }

  /** A run of samples merged one by one into a bucket, as consecutive Add
      calls within BUCKET_TIME_DELTA do: the bucket counts them all, brackets
      every one of them and sums them modulo 2^64. */
  function MergeAll(r: QueryStatRecord, rows: seq<Qword>, times: seq<Qword>): (m: QueryStatRecord)
    requires GoodRecord(r) && |rows| == |times|
    ensures GoodRecord(m) && m.count == r.count + |rows| && m.timestamp == r.timestamp
    ensures m.queryTime.min <= r.queryTime.min && r.queryTime.max <= m.queryTime.max
    ensures m.foundRows.min <= r.foundRows.min && r.foundRows.max <= m.foundRows.max
    ensures forall i :: 0 <= i < |times| ==> m.queryTime.min <= times[i] <= m.queryTime.max
    ensures forall i :: 0 <= i < |rows| ==> m.foundRows.min <= rows[i] <= m.foundRows.max
    ensures m.queryTime.sum == (r.queryTime.sum + Total(times)) % TWO64
    ensures m.foundRows.sum == (r.foundRows.sum + Total(rows)) % TWO64
    decreases |rows|
  {
    if rows == [] then r
    else
      var m := MergeAll(Merge(r, rows[0], times[0]), rows[1..], times[1..]);
      TailIndex(times);
      TailIndex(rows);
      SumStep(r.queryTime.sum, times);
      SumStep(r.foundRows.sum, rows);
      m
  }

  lemma TailIndex(xs: seq<Qword>)
    requires xs != []
    ensures forall i :: 1 <= i < |xs| ==> xs[i] == xs[1..][i - 1]
  {
  }

  lemma SumStep(a: Qword, xs: seq<Qword>)
    requires xs != []
    ensures (Add64(a, xs[0]) + Total(xs[1..])) % TWO64 == (a + Total(xs)) % TWO64
  {
    var t := Total(xs[1..]);
    if a + xs[0] >= TWO64 {
      assert Add64(a, xs[0]) + t == (a + Total(xs)) - TWO64;
    }
  }

  /** Samples that all fall within BUCKET_TIME_DELTA of the newest bucket
      are merged into it one after the other: the container keeps its other
      buckets and its newest one becomes MergeAll of the run. */
  method AddBurst(c: QueryStatContainer, rows: seq<Qword>, times: seq<Qword>, stamps: seq<Qword>)
    requires c.Valid() && c.records != []
    requires |rows| == |times| == |stamps|
    requires forall i :: 0 <= i < |stamps| ==>
               Sub64(stamps[i], c.records[|c.records| - 1].timestamp) <= BUCKET_TIME_DELTA
    modifies c
    ensures c.Valid()
    ensures var n := |old(c.records)|;
            c.records == old(c.records)[..n - 1] + [MergeAll(old(c.records)[n - 1], rows, times)]
  {
    var n := |c.records|;
    ghost var prefix := c.records[..n - 1];
    ghost var target := MergeAll(c.records[n - 1], rows, times);
    var i := 0;
    while i < |rows|
      invariant 0 <= i <= |rows| && c.Valid()
      invariant |c.records| == n && c.records[..n - 1] == prefix
      invariant c.records[n - 1].timestamp == old(c.records)[n - 1].timestamp
      invariant MergeAll(c.records[n - 1], rows[i..], times[i..]) == target
    {
      assert rows[i..][1..] == rows[i + 1..] && times[i..][1..] == times[i + 1..];
      c.Add(rows[i], times[i], stamps[i]);
      i := i + 1;
    }
    assert rows[i..] == [];
    assert c.records == c.records[..n - 1] + [c.records[n - 1]];
  }

  /** A raw sample of QueryStatContainerExact_c. */
  datatype ExactRecord = ExactRecord(queryTime: Qword, foundRows: Qword, timestamp: Qword)

  /** QueryStatContainerExact_c: every sample kept, same eviction rule. */
  class QueryStatContainerExact {
    var records: seq<ExactRecord>

    constructor ()
      ensures records == []
    {
      records := [];
    }

    function ExactStamps(): (s: seq<Qword>)
      reads this
      ensures |s| == |records|
      ensures forall i :: 0 <= i < |records| ==> s[i] == records[i].timestamp
    {
      seq(|records|, i requires 0 <= i < |records| reads this => records[i].timestamp)
    }

    method Add(foundRows: Qword, queryTime: Qword, timestamp: Qword)
      modifies this
      ensures records == old(records)[EvictCount(old(ExactStamps()), timestamp)..]
                         + [ExactRecord(queryTime, foundRows, timestamp)]
    {
      ghost var k := 0;
      ghost var stamps0 := ExactStamps();
      while records != [] && Sub64(timestamp, records[0].timestamp) > MAX_TIME_DELTA
        invariant k <= |old(records)| && records == old(records)[k..]
        invariant EvictCount(stamps0, timestamp) == k + EvictCount(ExactStamps(), timestamp)
        decreases |records|
      {
        ghost var before := ExactStamps();
        records := records[1..];
        assert before[1..] == ExactStamps();
        k := k + 1;
      }
      records := records + [ExactRecord(queryTime, foundRows, timestamp)];
    }

    function GetNumRecords(): (n: nat)
      reads this
      ensures n == |records|
    {
      |records|
    }

    /** A raw sample seen as a one-sample bucket. */
    function GetRecord(i: nat): (r: QueryStatRecord)
      reads this
      requires i < |records|
      ensures GoodRecord(r) && r.count == 1 && r.timestamp == records[i].timestamp
      ensures r == Singleton(records[i].foundRows, records[i].queryTime, records[i].timestamp)
    {
      var e := records[i];
      Singleton(e.foundRows, e.queryTime, e.timestamp)
    }
  }

  // -----------------------------------------------------------------------
  // Reports over a window.
  // -----------------------------------------------------------------------

  predicate InWindow(r: QueryStatRecord, now: Qword, interval: Qword)
  {
    Sub64(now, r.timestamp) <= interval
  }

  /** The buckets inside the window, in order. */
  function Window(records: seq<QueryStatRecord>, now: Qword, interval: Qword): (w: seq<QueryStatRecord>)
    ensures |w| <= |records|
    ensures forall r :: r in w ==> r in records && InWindow(r, now, interval)
    ensures forall i :: 0 <= i < |records| && InWindow(records[i], now, interval) ==> records[i] in w
    ensures AllGood(records) ==> AllGood(w)
  {
    if records == [] then []
    else
      var last := records[|records| - 1];
      Window(records[..|records| - 1], now, interval) + (if InWindow(last, now, interval) then [last] else [])
  }

  /** The aggregate a report looks at: found rows or query time. */
  function Side(r: QueryStatRecord, rows: bool): Agg
  {
    if rows then r.foundRows else r.queryTime
  }

  function MinAll(w: seq<QueryStatRecord>, rows: bool): Qword
  {
    if w == [] then QWORD_MAX else Min(Side(w[|w| - 1], rows).min, MinAll(w[..|w| - 1], rows))
  }

  function MaxAll(w: seq<QueryStatRecord>, rows: bool): Qword
  {
    if w == [] then 0 else Max(Side(w[|w| - 1], rows).max, MaxAll(w[..|w| - 1], rows))
  }

  function SumAll(w: seq<QueryStatRecord>, rows: bool): Qword
  {
    if w == [] then 0 else Add64(SumAll(w[..|w| - 1], rows), Side(w[|w| - 1], rows).sum)
  }

  function CountAll(w: seq<QueryStatRecord>): nat
  {
    if w == [] then 0 else CountAll(w[..|w| - 1]) + w[|w| - 1].count
  }

  /** Per-bucket averages: sum divided by the bucket's sample count. */
  function Averages(w: seq<QueryStatRecord>, rows: bool): (a: seq<Qword>)
    requires AllGood(w)
    ensures |a| == |w|
  {
    if w == [] then []
    else Averages(w[..|w| - 1], rows) + [Div64(Side(w[|w| - 1], rows).sum, w[|w| - 1].count)]
  }

  predicate SortedAsc(s: seq<Qword>)
  {
    forall i, j :: 0 <= i < j < |s| ==> s[i] <= s[j]
  }

  function Insert(x: Qword, s: seq<Qword>): (r: seq<Qword>)
    requires SortedAsc(s)
    ensures SortedAsc(r) && multiset(r) == multiset(s) + multiset{x}
  {
    if s == [] then [x]
    else if x <= s[0] then
      InsertHead(x, s);
      [x] + s
    else
      SortedTail(s);
      var t := Insert(x, s[1..]);
      InsertCons(x, s, t);
      [s[0]] + t
  }

  lemma SortedTail(s: seq<Qword>)
    requires SortedAsc(s) && s != []
    ensures SortedAsc(s[1..])
  {
  }

  lemma InsertHead(x: Qword, s: seq<Qword>)
    requires SortedAsc(s) && s != [] && x <= s[0]
    ensures SortedAsc([x] + s) && multiset([x] + s) == multiset(s) + multiset{x}
  {
  }

  lemma InsertCons(x: Qword, s: seq<Qword>, t: seq<Qword>)
    requires SortedAsc(s) && s != [] && s[0] < x
    requires SortedAsc(t) && multiset(t) == multiset(s[1..]) + multiset{x}
    ensures SortedAsc([s[0]] + t) && multiset([s[0]] + t) == multiset(s) + multiset{x}
  {
    assert s == [s[0]] + s[1..];
    forall k | 0 <= k < |s[1..]| ensures s[0] <= s[1..][k] {
      assert s[1..][k] == s[k + 1];
    }
    LowerBound(t, s[1..], x, s[0]);
  }

  /** Whatever bounds a sequence and one more value from below bounds any
      arrangement of them. */
  lemma LowerBound(t: seq<Qword>, u: seq<Qword>, x: Qword, b: Qword)
    requires multiset(t) == multiset(u) + multiset{x}
    requires b <= x && forall k :: 0 <= k < |u| ==> b <= u[k]
    ensures forall k :: 0 <= k < |t| ==> b <= t[k]
  {
    forall k | 0 <= k < |t| ensures b <= t[k] {
      assert t[k] in multiset(t);
      if t[k] != x {
        assert t[k] in multiset(u);
        var j :| 0 <= j < |u| && u[j] == t[k];
      }
    }
  }

  /** The ascending order the report sorts the bucket averages into. */
  function Sort(s: seq<Qword>): (r: seq<Qword>)
    ensures SortedAsc(r) && multiset(r) == multiset(s) && |r| == |s|
  {
    if s == [] then []
    else
      assert s == [s[0]] + s[1..];
      Insert(s[0], Sort(s[1..]))
  }

  /** Max(0, Min(ceil(n * pct / 100) - 1, n - 1)), with the ceiling taken in
      integers. */
  function PercentileIndex(n: nat, pct: nat): (i: nat)
    requires n >= 1
    ensures i < n
  {
    var c := (n * pct + 99) / 100 - 1;
    if c < 0 then 0 else if c > n - 1 then n - 1 else c
  }

  /** A higher percentile never picks an earlier element. */
  lemma PercentileIndexMonotone(n: nat, p: nat, q: nat)
    requires n >= 1 && p <= q
    ensures PercentileIndex(n, p) <= PercentileIndex(n, q)
  {
    assert n * p <= n * q by {
      MulMono(n, p, q);
    }
  }

  lemma MulMono(n: nat, p: nat, q: nat)
    requires p <= q
    ensures n * p <= n * q
  {
    assert n * q == n * p + n * (q - p);
  }

  /** The 95th and 99th percentile of 100 buckets are the 95th and 99th. */
  lemma PercentileIndexExamples()
    ensures PercentileIndex(100, 95) == 94 && PercentileIndex(100, 99) == 98
    ensures PercentileIndex(1, 95) == 0 && PercentileIndex(1, 99) == 0
    ensures PercentileIndex(20, 95) == 18 && PercentileIndex(20, 99) == 19
  {
  }

  /** What CalcStatsForInterval reports for one quantity. With no bucket in
      the window the percentiles keep the caller's values; otherwise the
      minimum is at most the maximum. */
  function IntervalStat(records: seq<QueryStatRecord>, now: Qword, interval: Qword, rows: bool, prev: StatElement): (e: StatElement)
    requires AllGood(records)
    ensures Window(records, now, interval) != [] ==> e.min <= e.max
  {
    var w := Window(records, now, interval);
    var total := CountAll(w);
    if w == [] then StatElement(0, QWORD_MAX, 0, prev.p95, prev.p99, 0)
    else
      var sorted := Sort(Averages(w, rows));
      CountAllPositive(w);
      MinBracket(w, rows);
      MaxBracket(w, rows);
      assert GoodRecord(w[0]) && w[0] in w;
      StatElement(Div64(SumAll(w, rows), total), MinAll(w, rows), MaxAll(w, rows),
                  sorted[PercentileIndex(|w|, 95)], sorted[PercentileIndex(|w|, 99)], total % TWO64)
  }

  lemma {:induction false} CountAllPositive(w: seq<QueryStatRecord>)
    requires AllGood(w)
    ensures CountAll(w) >= |w|
  {
    if w != [] {
      assert GoodRecord(w[|w| - 1]);
      CountAllPositive(w[..|w| - 1]);
    }
  }

  /** The per-quantity report functions extended by one bucket. */
  lemma StepFacts(w: seq<QueryStatRecord>, r: QueryStatRecord, rows: bool)
    requires AllGood(w) && GoodRecord(r)
    ensures AllGood(w + [r])
    ensures MinAll(w + [r], rows) == Min(Side(r, rows).min, MinAll(w, rows))
    ensures MaxAll(w + [r], rows) == Max(Side(r, rows).max, MaxAll(w, rows))
    ensures SumAll(w + [r], rows) == Add64(SumAll(w, rows), Side(r, rows).sum)
    ensures CountAll(w + [r]) == CountAll(w) + r.count
    ensures Averages(w + [r], rows) == Averages(w, rows) + [Div64(Side(r, rows).sum, r.count)]
  {
    assert (w + [r])[..|w|] == w;
  }

  /** The window of a concatenation is the concatenation of the windows.
      Since a one-bucket window keeps the bucket exactly when it is inside
      the interval, the window is the in-window buckets in their order. */
  lemma {:induction false} WindowConcat(a: seq<QueryStatRecord>, b: seq<QueryStatRecord>, now: Qword, interval: Qword)
    ensures Window(a + b, now, interval) == Window(a, now, interval) + Window(b, now, interval)
  {
    if b == [] {
      assert a + b == a;
    } else {
      var b' := b[..|b| - 1];
      assert (a + b)[..|a + b| - 1] == a + b';
      assert (a + b)[|a + b| - 1] == b[|b| - 1];
      WindowConcat(a, b', now, interval);
    }
  }

  /** Nothing is reported when no bucket is inside the window. */
  lemma {:induction false} WindowEmpty(records: seq<QueryStatRecord>, now: Qword, interval: Qword)
    requires forall i :: 0 <= i < |records| ==> !InWindow(records[i], now, interval)
    ensures Window(records, now, interval) == []
  {
    if records != [] {
      WindowEmpty(records[..|records| - 1], now, interval);
    }
  }

  /** The report's min and max bracket every bucket in the window, and are
      reached by one of them. */
  lemma {:induction false} MinBracket(w: seq<QueryStatRecord>, rows: bool)
    requires w != []
    ensures forall r :: r in w ==> MinAll(w, rows) <= Side(r, rows).min
    ensures exists r :: r in w && MinAll(w, rows) == Side(r, rows).min
  {
    var init, last := w[..|w| - 1], w[|w| - 1];
    assert w == init + [last];
    if init != [] {
      MinBracket(init, rows);
      var a :| a in init && MinAll(init, rows) == Side(a, rows).min;
      assert a in w;
    }
  }

  lemma {:induction false} MaxBracket(w: seq<QueryStatRecord>, rows: bool)
    requires w != []
    ensures forall r :: r in w ==> Side(r, rows).max <= MaxAll(w, rows)
    ensures exists r :: r in w && MaxAll(w, rows) == Side(r, rows).max
  {
    var init, last := w[..|w| - 1], w[|w| - 1];
    assert w == init + [last];
    if init != [] {
      MaxBracket(init, rows);
      var b :| b in init && MaxAll(init, rows) == Side(b, rows).max;
      assert b in w;
    }
  }

  /** Percentiles come in order: the 95th is at most the 99th. */
  lemma PercentilesOrdered(records: seq<QueryStatRecord>, now: Qword, interval: Qword, rows: bool, prev: StatElement)
    requires AllGood(records)
    requires Window(records, now, interval) != []
    ensures IntervalStat(records, now, interval, rows, prev).p95 <= IntervalStat(records, now, interval, rows, prev).p99
  {
    var w := Window(records, now, interval);
    PercentileIndexMonotone(|w|, 95, 99);
  }

  /** Each reported percentile is the average of one bucket in the window. */
  lemma PercentilesAreAverages(records: seq<QueryStatRecord>, now: Qword, interval: Qword, rows: bool, prev: StatElement)
    requires AllGood(records)
    requires Window(records, now, interval) != []
    ensures IntervalStat(records, now, interval, rows, prev).p95 in Averages(Window(records, now, interval), rows)
    ensures IntervalStat(records, now, interval, rows, prev).p99 in Averages(Window(records, now, interval), rows)
  {
    var w := Window(records, now, interval);
    var sorted := Sort(Averages(w, rows));
    assert sorted[PercentileIndex(|w|, 95)] in multiset(sorted);
    assert sorted[PercentileIndex(|w|, 99)] in multiset(sorted);
  }

  /** An empty window leaves total 0, MIN at UINT64_MAX and MAX at 0. */
  lemma EmptyWindowDefaults(records: seq<QueryStatRecord>, now: Qword, interval: Qword, rows: bool, prev: StatElement)
    requires AllGood(records)
    requires forall i :: 0 <= i < |records| ==> !InWindow(records[i], now, interval)
    ensures IntervalStat(records, now, interval, rows, prev) == StatElement(0, QWORD_MAX, 0, prev.p95, prev.p99, 0)
  {
    WindowEmpty(records, now, interval);
  }

  /** CalcStatsForInterval: one pass over the container's buckets, then the
      per-bucket averages sorted and indexed at the 95th and 99th percentile. */
  method CalcStatsForInterval(records: seq<QueryStatRecord>, rowPrev: StatElement, timePrev: StatElement,
                              now: Qword, interval: Qword)
    returns (rowResult: StatElement, timeResult: StatElement)
    requires AllGood(records)
    ensures rowResult == IntervalStat(records, now, interval, true, rowPrev)
    ensures timeResult == IntervalStat(records, now, interval, false, timePrev)
  {
    var rowAvg, rowMin, rowMax: Qword := 0, QWORD_MAX, 0;
    var timeAvg, timeMin, timeMax: Qword := 0, QWORD_MAX, 0;
    var found: seq<Qword> := [];
    var time: seq<Qword> := [];
    var total: nat := 0;
    ghost var w: seq<QueryStatRecord> := [];
    var i := 0;
    while i < |records|
      invariant 0 <= i <= |records|
      invariant w == Window(records[..i], now, interval) && AllGood(w)
      invariant Scanned(w, Acc(rowAvg, rowMin, rowMax, found), Acc(timeAvg, timeMin, timeMax, time), total)
    {
      var r := records[i];
      assert records[..i + 1][..i] == records[..i];
      assert records[..i + 1][i] == r;
      assert GoodRecord(r);
      if Sub64(now, r.timestamp) <= interval {
        ScanStep(w, r, Acc(rowAvg, rowMin, rowMax, found), Acc(timeAvg, timeMin, timeMax, time), total);
        rowMin := Min(r.foundRows.min, rowMin);
        rowMax := Max(r.foundRows.max, rowMax);
        timeMin := Min(r.queryTime.min, timeMin);
        timeMax := Max(r.queryTime.max, timeMax);
        found := found + [Div64(r.foundRows.sum, r.count)];
        time := time + [Div64(r.queryTime.sum, r.count)];
        rowAvg := Add64(rowAvg, r.foundRows.sum);
        timeAvg := Add64(timeAvg, r.queryTime.sum);
        total := total + r.count;
        w := w + [r];
      }
      i := i + 1;
    }
    assert records[..i] == records;
    ReportFromScan(records, now, interval, true, rowPrev, Acc(rowAvg, rowMin, rowMax, found), Acc(timeAvg, timeMin, timeMax, time), total);
    ReportFromScan(records, now, interval, false, timePrev, Acc(rowAvg, rowMin, rowMax, found), Acc(timeAvg, timeMin, timeMax, time), total);
    found := Sort(found);
    time := Sort(time);
    if |found| == 0 {
      rowResult := StatElement(0, QWORD_MAX, 0, rowPrev.p95, rowPrev.p99, 0);
      timeResult := StatElement(0, QWORD_MAX, 0, timePrev.p95, timePrev.p99, 0);
      return;
    }
    var u95 := PercentileIndex(|found|, 95);
    var u99 := PercentileIndex(|found|, 99);
    rowResult := StatElement(Div64(rowAvg, total), rowMin, rowMax, found[u95], found[u99], total % TWO64);
    timeResult := StatElement(Div64(timeAvg, total), timeMin, timeMax, time[u95], time[u99], total % TWO64);
  }

  /** The report read off the accumulators of the whole window. */
  lemma ReportFromScan(records: seq<QueryStatRecord>, now: Qword, interval: Qword, rows: bool, prev: StatElement,
                       rowAcc: Acc, timeAcc: Acc, total: nat)
    requires AllGood(records)
    requires Scanned(Window(records, now, interval), rowAcc, timeAcc, total)
    ensures var a := if rows then rowAcc else timeAcc;
            var sorted := Sort(a.avgs);
            && |sorted| == |Window(records, now, interval)|
            && (|sorted| != 0 ==> total >= 1)
            && IntervalStat(records, now, interval, rows, prev)
               == if |sorted| == 0 then StatElement(0, QWORD_MAX, 0, prev.p95, prev.p99, 0)
                  else StatElement(Div64(a.sum, total), a.min, a.max, sorted[PercentileIndex(|sorted|, 95)],
                                   sorted[PercentileIndex(|sorted|, 99)], total % TWO64)
  {
    var w := Window(records, now, interval);
    if w != [] {
      CountAllPositive(w);
    }
  }

  /** The running sum, min, max and per-bucket averages of one quantity. */
  datatype Acc = Acc(sum: Qword, min: Qword, max: Qword, avgs: seq<Qword>)

  /** The accumulators hold the aggregates of the buckets `w`. */
  ghost predicate Scanned(w: seq<QueryStatRecord>, rows: Acc, time: Acc, total: nat)
    requires AllGood(w)
  {
    && rows == Acc(SumAll(w, true), MinAll(w, true), MaxAll(w, true), Averages(w, true))
    && time == Acc(SumAll(w, false), MinAll(w, false), MaxAll(w, false), Averages(w, false))
    && total == CountAll(w)
  }

  /** One bucket inside the window updates each accumulator. */
  lemma ScanStep(w: seq<QueryStatRecord>, r: QueryStatRecord, rows: Acc, time: Acc, total: nat)
    requires AllGood(w) && GoodRecord(r) && Scanned(w, rows, time, total)
    ensures AllGood(w + [r])
    ensures Scanned(w + [r],
                    Acc(Add64(rows.sum, r.foundRows.sum), Min(r.foundRows.min, rows.min), Max(r.foundRows.max, rows.max),
                        rows.avgs + [Div64(r.foundRows.sum, r.count)]),
                    Acc(Add64(time.sum, r.queryTime.sum), Min(r.queryTime.min, time.min), Max(r.queryTime.max, time.max),
                        time.avgs + [Div64(r.queryTime.sum, r.count)]),
                    total + r.count)
  {
    StepFacts(w, r, true);
    StepFacts(w, r, false);
  }

  /** ServedStats_c: the bucketed container, the exact one, and all-time totals. */
  class ServedStats {
    const buckets: QueryStatContainer
    const exact: QueryStatContainerExact
    var totalFoundRowsMin: Qword
    var totalFoundRowsMax: Qword
    var totalFoundRowsSum: Qword
    var totalQueryTimeMin: Qword
    var totalQueryTimeMax: Qword
    var totalQueryTimeSum: Qword
    var totalQueries: Qword

    ghost predicate Valid()
      reads this, buckets
    {
      buckets.Valid() && buckets != exact as object
    }

    constructor ()
      ensures Valid() && fresh(buckets) && fresh(exact)
      ensures buckets.records == [] && exact.records == []
      ensures totalFoundRowsMin == QWORD_MAX && totalFoundRowsMax == 0 && totalFoundRowsSum == 0
      ensures totalQueryTimeMin == QWORD_MAX && totalQueryTimeMax == 0 && totalQueryTimeSum == 0
      ensures totalQueries == 0
    {
      buckets := new QueryStatContainer();
      exact := new QueryStatContainerExact();
      totalFoundRowsMin, totalFoundRowsMax, totalFoundRowsSum := QWORD_MAX, 0, 0;
      totalQueryTimeMin, totalQueryTimeMax, totalQueryTimeSum := QWORD_MAX, 0, 0;
      totalQueries := 0;
    }

    /** AddQueryStat, with the clock reading passed in: the sample goes to
        both containers and into the all-time totals. */
    method AddQueryStat(foundRows: Qword, queryTime: Qword, timestamp: Qword)
      requires Valid()
      modifies this, buckets, exact
      ensures Valid()
      ensures var n := |old(buckets.records)|;
              n > 0 && Sub64(timestamp, old(buckets.records)[n - 1].timestamp) <= BUCKET_TIME_DELTA ==>
                buckets.records == old(buckets.records)[..n - 1] + [Merge(old(buckets.records)[n - 1], foundRows, queryTime)]
      ensures var n := |old(buckets.records)|;
              !(n > 0 && Sub64(timestamp, old(buckets.records)[n - 1].timestamp) <= BUCKET_TIME_DELTA) ==>
                buckets.records == old(buckets.records)[EvictCount(Stamps(old(buckets.records)), timestamp)..]
                                   + [Singleton(foundRows, queryTime, timestamp)]
      ensures exact.records == old(exact.records)[EvictCount(old(exact.ExactStamps()), timestamp)..]
                               + [ExactRecord(queryTime, foundRows, timestamp)]
      ensures totalFoundRowsMin == Min(foundRows, old(totalFoundRowsMin))
      ensures totalFoundRowsMax == Max(foundRows, old(totalFoundRowsMax))
      ensures totalFoundRowsSum == Add64(old(totalFoundRowsSum), foundRows)
      ensures totalQueryTimeMin == Min(queryTime, old(totalQueryTimeMin))
      ensures totalQueryTimeMax == Max(queryTime, old(totalQueryTimeMax))
      ensures totalQueryTimeSum == Add64(old(totalQueryTimeSum), queryTime)
      ensures totalQueries == Add64(old(totalQueries), 1)
    {
      buckets.Add(foundRows, queryTime, timestamp);
      exact.Add(foundRows, queryTime, timestamp);
      totalFoundRowsMin := Min(foundRows, totalFoundRowsMin);
      totalFoundRowsMax := Max(foundRows, totalFoundRowsMax);
      totalFoundRowsSum := Add64(totalFoundRowsSum, foundRows);
      totalQueryTimeMin := Min(queryTime, totalQueryTimeMin);
      totalQueryTimeMax := Max(queryTime, totalQueryTimeMax);
      totalQueryTimeSum := Add64(totalQueryTimeSum, queryTime);
      totalQueries := Add64(totalQueries, 1);
    }

    /** The all-time element: totals as kept, the average 0 before the first
        query, percentiles from the caller (the t-digests). */
    function AllTime(rows: bool, p95: Qword, p99: Qword): (e: StatElement)
      reads this
      ensures totalQueries == 0 ==> e.avg == 0
      ensures totalQueries > 0 ==> e.avg == Div64(if rows then totalFoundRowsSum else totalQueryTimeSum, totalQueries)
      ensures e.min == (if rows then totalFoundRowsMin else totalQueryTimeMin)
      ensures e.max == (if rows then totalFoundRowsMax else totalQueryTimeMax)
      ensures e.totalQueries == totalQueries
    {
      var sum := if rows then totalFoundRowsSum else totalQueryTimeSum;
      StatElement(if totalQueries > 0 then Div64(sum, totalQueries) else 0,
                  if rows then totalFoundRowsMin else totalQueryTimeMin,
                  if rows then totalFoundRowsMax else totalQueryTimeMax,
                  p95, p99, totalQueries)
    }

    /** DoStatCalcStats over the bucketed container: the three windows, then
        the all-time element. `rowsIn`/`timesIn` are the caller's elements,
        whose percentiles survive an empty window. */
    method DoStatCalcStats(rowsIn: seq<StatElement>, timesIn: seq<StatElement>, now: Qword,
                           rowsDigest: (Qword, Qword), timesDigest: (Qword, Qword))
      returns (rows: seq<StatElement>, times: seq<StatElement>)
      requires Valid() && |rowsIn| == 4 && |timesIn| == 4
      ensures |rows| == 4 && |times| == 4
      ensures forall k :: 0 <= k < 3 ==>
                && rows[k] == IntervalStat(buckets.records, now, STATS_INTERVALS[k], true, rowsIn[k])
                && times[k] == IntervalStat(buckets.records, now, STATS_INTERVALS[k], false, timesIn[k])
      ensures rows[3] == AllTime(true, rowsDigest.0, rowsDigest.1)
      ensures times[3] == AllTime(false, timesDigest.0, timesDigest.1)
    {
      rows, times := [], [];
      var k := 0;
      while k < 3
        invariant 0 <= k <= 3 && |rows| == k && |times| == k
        invariant forall j :: 0 <= j < k ==>
                    && rows[j] == IntervalStat(buckets.records, now, STATS_INTERVALS[j], true, rowsIn[j])
                    && times[j] == IntervalStat(buckets.records, now, STATS_INTERVALS[j], false, timesIn[j])
      {
        var r, t := CalcStatsForInterval(buckets.records, rowsIn[k], timesIn[k], now, STATS_INTERVALS[k]);
        rows, times := rows + [r], times + [t];
        k := k + 1;
      }
      rows := rows + [AllTime(true, rowsDigest.0, rowsDigest.1)];
      times := times + [AllTime(false, timesDigest.0, timesDigest.1)];
    }
  }
}
