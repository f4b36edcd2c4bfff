/**
 * Per-host agent metrics (MetricsAndCounters_t), the send-vector
 * accessors of IOVec_c, and the small predicates on mirrors and
 * distributed indexes.
 */
module Agents {
  import opened Wire
  import opened Options

  /** eMaxAgentStat: the event counters eTimeoutsQuery .. eNetworkNonCritical. */
  const MAX_AGENT_STAT: nat := 8
  /** ehMaxStat and the metric slots of HostStats_e. */
  const MAX_HOST_STAT: nat := 4
  const TOTAL_MSECS: nat := 0
  const CONN_TRIES: nat := 1
  const AVERAGE_MSECS: nat := 2
  const MAX_MSECS: nat := 3

  /** Signed 64-bit addition, wrapping (the atomic counters). */
  function AddI64(a: Int64, b: Int64): (r: Int64)
    ensures -0x8000_0000_0000_0000 <= a + b < 0x8000_0000_0000_0000 ==> r == a + b
    ensures (r - (a + b)) % TWO64 == 0
  {
    var s := (a + b + 0x8000_0000_0000_0000) % TWO64 - 0x8000_0000_0000_0000;
    assert (s - (a + b)) % TWO64 == 0;
    s
  }

  /** uint64_t multiplication, wrapping at 2^64. */
  function Mul64(a: Qword, b: Qword): (r: Qword)
    ensures a * b < TWO64 ==> r == a * b
  {
    MulNonNeg(a, b);
    var p := a * b;
    p % TWO64
  }

  function MaxQ(a: Qword, b: Qword): Qword { if a >= b then a else b }
  function MinQ(a: Qword, b: Qword): Qword { if a <= b then a else b }

  lemma MulLe(x: int, y: int, d: int)
    requires d >= 0
    ensures x <= y ==> x * d <= y * d
  {
    assert y * d == x * d + (y - x) * d;
    if x <= y {
      MulNonNeg(y - x, d);
    }
  }

  /** A quotient lies between any two bounds its dividend respects. */
  lemma DivBetween(num: nat, den: int, lo: nat, hi: nat)
    requires den >= 1 && lo * den <= num <= hi * den
    ensures lo <= num / den <= hi
  {
    var q, r := num / den, num % den;
    assert num == q * den + r && 0 <= r < den;
    assert (q + 1) * den == q * den + den;
    assert (hi + 1) * den == hi * den + den;
    MulLe(q + 1, lo, den);
    MulLe(hi + 1, q, den);
  }

  /** The ConnTries-weighted mean of two averages, in uint64_t arithmetic.
      When nothing wraps it lies between the two averages, and two equal
      averages stay as they are. */
  function WeightedMean(avg: Qword, tries: Qword, rhsAvg: Qword, rhsTries: Qword): (r: Qword)
    requires Add64(tries, rhsTries) != 0
    ensures avg * tries + rhsAvg * rhsTries < TWO64 && tries + rhsTries < TWO64 ==>
              MinQ(avg, rhsAvg) <= r <= MaxQ(avg, rhsAvg)
    ensures avg == rhsAvg && avg * tries + rhsAvg * rhsTries < TWO64 && tries + rhsTries < TWO64 ==> r == avg
  {
    var num := Add64(Mul64(avg, tries), Mul64(rhsAvg, rhsTries));
    var den := Add64(tries, rhsTries);
    MeanBounds(avg, tries, rhsAvg, rhsTries);
    Div64(num, den)
  }

  lemma MeanBounds(a: Qword, t: Qword, b: Qword, u: Qword)
    requires 0 < t + u
    ensures a * t + b * u < TWO64 && t + u < TWO64 ==> MinQ(a, b) <= (a * t + b * u) / (t + u) <= MaxQ(a, b)
  {
    MulNonNeg(a, t);
    MulNonNeg(b, u);
    assert 0 <= a * t && 0 <= b * u;
    var lo, hi := MinQ(a, b), MaxQ(a, b);
    MulLe(lo, a, t);
    MulLe(lo, b, u);
    MulLe(a, hi, t);
    MulLe(b, hi, u);
    assert lo * (t + u) == lo * t + lo * u;
    assert hi * (t + u) == hi * t + hi * u;
    DivBetween(a * t + b * u, t + u, lo, hi);
  }

  lemma MulNonNeg(x: nat, y: nat)
    ensures x * y >= 0
  {
  }

  class MetricsAndCounters {
    /** m_dCounters: event counters, indexed by AgentStats_e. */
    const counters: array<Int64>
    /** m_dMetrics: calculated metrics, indexed by HostStats_e. */
    const metrics: array<Qword>

    ghost predicate Valid()
      reads this
    {
      counters.Length == MAX_AGENT_STAT && metrics.Length == MAX_HOST_STAT
    }

    /** The constructor zeroes the metrics. */
    constructor ()
      ensures Valid() && fresh(counters) && fresh(metrics)
      ensures forall i :: 0 <= i < MAX_HOST_STAT ==> metrics[i] == 0
    {
      counters := new Int64[MAX_AGENT_STAT];
      metrics := new Qword[MAX_HOST_STAT];
      new;
      var i := 0;
      while i < MAX_HOST_STAT
        invariant 0 <= i <= MAX_HOST_STAT
        invariant forall j :: 0 <= j < i ==> metrics[j] == 0
      {
        metrics[i] := 0;
        i := i + 1;
      }
    }

    /** Reset: every counter and every metric back to zero. */
    method Reset()
      requires Valid()
      modifies counters, metrics
      ensures forall i :: 0 <= i < MAX_AGENT_STAT ==> counters[i] == 0
      ensures forall i :: 0 <= i < MAX_HOST_STAT ==> metrics[i] == 0
    {
      for i := 0 to MAX_AGENT_STAT
        invariant forall j :: 0 <= j < i ==> counters[j] == 0
      {
        counters[i] := 0;
      }
      for i := 0 to MAX_HOST_STAT
        invariant forall j :: 0 <= j < i ==> metrics[j] == 0
        invariant forall j :: 0 <= j < MAX_AGENT_STAT ==> counters[j] == 0
      {
        metrics[i] := 0;
      }
    }

    /** Add: sum the counters elementwise; the average connect time becomes
        the ConnTries-weighted mean of both (rhs's own when this host has
        no tries yet), the maximum the larger maximum, the tries the sum;
        the total time is untouched. The division requires the summed
        tries not to wrap to zero. */
    method Add(rhs: MetricsAndCounters)
      requires Valid() && rhs.Valid()
      requires metrics[CONN_TRIES] != 0 ==> Add64(metrics[CONN_TRIES], rhs.metrics[CONN_TRIES]) != 0
      modifies counters, metrics
      ensures forall i :: 0 <= i < MAX_AGENT_STAT ==> counters[i] == AddI64(old(counters[i]), old(rhs.counters[i]))
      ensures old(metrics[CONN_TRIES]) == 0 ==> metrics[AVERAGE_MSECS] == old(rhs.metrics[AVERAGE_MSECS])
      ensures old(metrics[CONN_TRIES]) != 0 ==>
                metrics[AVERAGE_MSECS] == WeightedMean(old(metrics[AVERAGE_MSECS]), old(metrics[CONN_TRIES]),
                                                       old(rhs.metrics[AVERAGE_MSECS]), old(rhs.metrics[CONN_TRIES]))
      ensures metrics[MAX_MSECS] == MaxQ(old(metrics[MAX_MSECS]), old(rhs.metrics[MAX_MSECS]))
      ensures metrics[CONN_TRIES] == Add64(old(metrics[CONN_TRIES]), old(rhs.metrics[CONN_TRIES]))
      ensures metrics[TOTAL_MSECS] == old(metrics[TOTAL_MSECS])
    {
      for i := 0 to MAX_AGENT_STAT
        invariant forall j :: 0 <= j < i ==> counters[j] == AddI64(old(counters[j]), old(rhs.counters[j]))
        invariant forall j :: i <= j < MAX_AGENT_STAT ==> counters[j] == old(counters[j])
        invariant forall j :: i <= j < MAX_AGENT_STAT ==> rhs.counters[j] == old(rhs.counters[j])
        invariant metrics[..] == old(metrics[..]) && rhs.metrics[..] == old(rhs.metrics[..])
      {
        counters[i] := AddI64(counters[i], rhs.counters[i]);
      }
      var tries, rhsTries := metrics[CONN_TRIES], rhs.metrics[CONN_TRIES];
      var rhsAvg, rhsMax := rhs.metrics[AVERAGE_MSECS], rhs.metrics[MAX_MSECS];
      if tries != 0 {
        metrics[AVERAGE_MSECS] := WeightedMean(metrics[AVERAGE_MSECS], tries, rhsAvg, rhsTries);
      } else {
        metrics[AVERAGE_MSECS] := rhsAvg;
      }
      metrics[MAX_MSECS] := MaxQ(metrics[MAX_MSECS], rhsMax);
      metrics[CONN_TRIES] := Add64(tries, rhsTries);
    }
  }

  /** Merging into a fresh host copies the other host's connect metrics,
      and merging two hosts with the same average keeps it. */
  method MergeMetrics(avg: Qword, tries: Qword, maxMsecs: Qword, otherTries: Qword)
    returns (copied: Qword, kept: Qword, merged: Qword, maxOut: Qword)
    requires 0 < tries && tries + otherTries < TWO64
    requires avg * tries + avg * otherTries < TWO64
    ensures copied == avg && kept == avg && merged == tries + otherTries && maxOut == maxMsecs
  {
    var fresh1 := new MetricsAndCounters();
    var host := new MetricsAndCounters();
    host.metrics[AVERAGE_MSECS] := avg;
    host.metrics[CONN_TRIES] := tries;
    host.metrics[MAX_MSECS] := maxMsecs;
    fresh1.Add(host);
    copied := fresh1.metrics[AVERAGE_MSECS];
    var other := new MetricsAndCounters();
    other.metrics[AVERAGE_MSECS] := avg;
    other.metrics[CONN_TRIES] := otherTries;
    host.Add(other);
    kept := host.metrics[AVERAGE_MSECS];
    merged := host.metrics[CONN_TRIES];
    maxOut := host.metrics[MAX_MSECS];
  }

  // -----------------------------------------------------------------------
  // IOVec_c: the send vector and the count of chunks not yet sent.
  // -----------------------------------------------------------------------

  /** sphIovec: a chunk's start and length. */
  datatype IoChunk = IoChunk(base: nat, len: nat)

  class IOVec {
    /** m_dIOVec. */
    var chunks: seq<IoChunk>
    /** m_iIOChunks: the unsent chunks are the last ones. */
    var unsent: nat

    ghost predicate Valid()
      reads this
    {
      unsent <= |chunks|
    }

    function HasUnsent(): (r: bool)
      reads this
      ensures r <==> unsent != 0
    {
      unsent != 0
    }

    /** Data present, sent or not. */
    function IsEmpty(): (r: bool)
      reads this
      ensures r <==> |chunks| == 0
    {
      |chunks| == 0
    }

    /** IOPtr: the index of the first unsent chunk, null when none is left. */
    function IOPtr(): (r: Option<nat>)
      requires Valid()
      reads this
      ensures r.None? <==> !HasUnsent()
      ensures r.Some? ==> r.value < |chunks| && r.value + IOSize() == |chunks|
    {
      if unsent == 0 then None else Some(|chunks| - unsent)
    }

    function IOSize(): (n: nat)
      reads this
      ensures n == unsent
    {
      unsent
    }
  }

  /** What the accessors say about each other: a vector with something to
      send is not empty, and the chunks from IOPtr on are exactly the
      unsent ones. */
  lemma IOVecConsistent(v: IOVec)
    requires v.Valid()
    ensures v.HasUnsent() ==> !v.IsEmpty()
    ensures v.IOPtr().Some? ==> v.chunks[v.IOPtr().value..] == v.chunks[|v.chunks| - v.IOSize()..]
  {
  }

  // -----------------------------------------------------------------------
  // Mirrors and distributed indexes.
  // -----------------------------------------------------------------------

  /** MultiAgentDesc_c: the mirrors of one agent, by host name. */
  datatype MultiAgentDesc = MultiAgentDesc(mirrors: seq<string>)

  /** IsHA: more than one mirror to choose from. */
  function IsHA(a: MultiAgentDesc): (r: bool)
    ensures r <==> |a.mirrors| > 1
  {
    |a.mirrors| > 1
  }

  /** The fields of DistributedIndex_t IsEmpty looks at. */
  datatype DistributedIndex = DistributedIndex(agents: seq<MultiAgentDesc>, local: seq<string>)

  /** IsEmpty: no remote agent and no local index. */
  function IsEmptyIndex(d: DistributedIndex): (r: bool)
    ensures r <==> |d.agents| + |d.local| == 0
  {
    d.agents == [] && d.local == []
  }
}
