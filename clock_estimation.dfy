/**
 * Clock-cycle estimation for the first chunk of a waveform dump: locating
 * the clock's symbol by reference suffix, keeping its 0/1 transitions,
 * picking the rising edges, and counting cycles against the file-size tier.
 * Times are integers as in the dump; the mean period and the time limit are
 * exact reals rather than floating point.
 */
module ClockEstimation {

  import opened Base
  import opened Text

  /** What `determine_chunk_limits` returns: no limit below 100 MB. */
  datatype ChunkLimits =
    | Unlimited(sizeMb: real)
    | Limited(cyclesLimit: nat, timeLimit: real, sizeMb: real)

  /** `determine_chunk_limits`, with the file size (in MB) as a parameter. */
  function DetermineChunkLimits(sizeMb: real, avgPeriod: real): (r: ChunkLimits)
    ensures r.sizeMb == sizeMb
    ensures r.Unlimited? <==> sizeMb < 100.0
    ensures r.Limited? ==> r.timeLimit == r.cyclesLimit as real * avgPeriod
    ensures r.Limited? ==> r.cyclesLimit in {500_000, 1_000_000, 2_000_000}
  {
    if sizeMb < 100.0 then Unlimited(sizeMb)
    else
      var cycles := if sizeMb < 1000.0 then 500_000 else if sizeMb < 5000.0 then 1_000_000 else 2_000_000;
      Limited(cycles, cycles as real * avgPeriod, sizeMb)
  }

  /** A larger file never gets a smaller cycle budget. */
  lemma ChunkLimitsMonotone(s1: real, s2: real, p: real)
    requires 100.0 <= s1 <= s2
    ensures DetermineChunkLimits(s1, p).cyclesLimit <= DetermineChunkLimits(s2, p).cyclesLimit
  {
  }

  /** The tier boundaries as the source states them. */
  lemma ChunkLimitTiers(p: real)
    ensures DetermineChunkLimits(99.5, p).Unlimited?
    ensures DetermineChunkLimits(100.0, p).cyclesLimit == 500_000
    ensures DetermineChunkLimits(999.0, p).cyclesLimit == 500_000
    ensures DetermineChunkLimits(1000.0, p).cyclesLimit == 1_000_000
    ensures DetermineChunkLimits(4999.0, p).cyclesLimit == 1_000_000
    ensures DetermineChunkLimits(5000.0, p).cyclesLimit == 2_000_000
  {
  }

  // ---------------------------------------------------------------------
  // find_matching_symbol
  // ---------------------------------------------------------------------

  /** One entry of the parsed dump: its symbol, its references if it has any, its transitions. */
  datatype SignalObj = SignalObj(symbol: string, references: Option<seq<string>>, tv: seq<(int, string)>)

  /** `s.lower().replace('/', '.')` */
  function NormalizeRef(s: string): (r: string)
    ensures |r| == |s|
    ensures forall k :: 0 <= k < |s| ==> r[k] == (if s[k] == '/' then '.' else LowerChar(s[k]))
  {
    seq(|s|, k requires 0 <= k < |s| => if s[k] == '/' then '.' else LowerChar(s[k]))
  }

  predicate RefMatches(ref: string, mainClock: string) {
    EndsWith(NormalizeRef(ref), NormalizeRef(mainClock))
  }

  /** The object has no reference that matches the clock name. */
  predicate NoMatchIn(o: SignalObj, mainClock: string) {
    o.references.None? || forall ref :: ref in o.references.value ==> !RefMatches(ref, mainClock)
  }

  /** The first reference of `refs` matching the clock name. */
  function FirstMatchingRef(refs: seq<string>, mainClock: string): (r: Option<string>)
    ensures r.Some? ==> exists j :: (0 <= j < |refs| && refs[j] == r.value && RefMatches(refs[j], mainClock) &&
      forall j' :: 0 <= j' < j ==> !RefMatches(refs[j'], mainClock))
    ensures r.None? ==> forall ref :: ref in refs ==> !RefMatches(ref, mainClock)
  {
    if |refs| == 0 then None
    else if RefMatches(refs[0], mainClock) then Some(refs[0])
    else
      var r := FirstMatchingRef(refs[1..], mainClock);
      if r.Some? then
        var j :| 0 <= j < |refs[1..]| && refs[1..][j] == r.value && RefMatches(refs[1..][j], mainClock) &&
          forall j' :: 0 <= j' < j ==> !RefMatches(refs[1..][j'], mainClock);
        assert refs[j + 1] == r.value;
        assert forall j' :: 1 <= j' < j + 1 ==> refs[j'] == refs[1..][j' - 1];
        r
      else
        assert forall ref :: ref in refs ==> ref == refs[0] || ref in refs[1..];
        r
  }

  /** A match of the clock name: the object's position in the dump, its symbol and the reference. */
  datatype Match = Match(index: nat, symbol: string, ref: string)

  /**
   * `find_matching_symbol`: the first object, in dump order, with a reference
   * whose normalised form ends with the normalised clock name, and that
   * reference.  Objects without references are skipped.  The position is
   * kept as well, standing for the later lookup `vcd.data[symbol]`.
   */
  function FindMatchingSymbol(objs: seq<SignalObj>, mainClock: string): (r: Option<Match>)
    ensures r.Some? ==> var i := r.value.index;
      i < |objs| && objs[i].symbol == r.value.symbol &&
      objs[i].references.Some? && r.value.ref in objs[i].references.value &&
      RefMatches(r.value.ref, mainClock) &&
      (forall i' :: 0 <= i' < i ==> NoMatchIn(objs[i'], mainClock))
    ensures r.None? <==> forall i :: 0 <= i < |objs| ==> NoMatchIn(objs[i], mainClock)
    decreases |objs|
  {
    if |objs| == 0 then None
    else
      var first := if objs[0].references.Some? then FirstMatchingRef(objs[0].references.value, mainClock) else None;
      if first.Some? then Some(Match(0, objs[0].symbol, first.value))
      else
        var r := FindMatchingSymbol(objs[1..], mainClock);
        assert NoMatchIn(objs[0], mainClock);
        assert forall i :: 1 <= i < |objs| ==> objs[i] == objs[1..][i - 1];
        if r.Some? then Some(r.value.(index := r.value.index + 1)) else None
  }

  // ---------------------------------------------------------------------
  // Edges
  // ---------------------------------------------------------------------

  predicate IsBinary(v: string) { v == "0" || v == "1" }

  /** `[(t, v) for t, v in tv if v in ("0", "1")]` */
  function BinaryTransitions(tv: seq<(int, string)>): (r: seq<(int, string)>)
    ensures |r| <= |tv|
    ensures forall x :: x in r <==> x in tv && IsBinary(x.1)
  {
    if |tv| == 0 then []
    else
      var rest := BinaryTransitions(tv[..|tv| - 1]);
      assert forall x :: x in tv <==> x in tv[..|tv| - 1] || x == tv[|tv| - 1] by {
        assert tv == tv[..|tv| - 1] + [tv[|tv| - 1]];
      }
      if IsBinary(tv[|tv| - 1].1) then rest + [tv[|tv| - 1]] else rest
  }

  /**
   * The filter keeps order and multiplicity: filtering a concatenation is
   * filtering each part.  With the one-element case below this makes the
   * result exactly the 0/1 transitions of `tv`, in order.
   */
  lemma {:induction false} BinaryTransitionsAppend(a: seq<(int, string)>, b: seq<(int, string)>)
    ensures BinaryTransitions(a + b) == BinaryTransitions(a) + BinaryTransitions(b)
    decreases |b|
  {
    if |b| > 0 {
      var n := |b| - 1;
      assert (a + b)[..|a + b| - 1] == a + b[..n];
      assert (a + b)[|a + b| - 1] == b[n];
      BinaryTransitionsAppend(a, b[..n]);
    } else {
      assert a + b == a;
    }
  }

  /** One transition is kept exactly when its value is `0` or `1`. */
  lemma BinaryTransitionsOne(x: (int, string))
    ensures BinaryTransitions([x]) == if IsBinary(x.1) then [x] else []
  {
    assert [x][..0] == [];
  }

  /** A `0` at position `k - 1` followed by a `1` at position `k`. */
  predicate RisesAt(tv: seq<(int, string)>, k: int) {
    1 <= k < |tv| && tv[k - 1].1 == "0" && tv[k].1 == "1"
  }

  /** `times[1:][(vals[:-1] == '0') & (vals[1:] == '1')]`, in transition order. */
  function RisingEdges(tv: seq<(int, string)>): (r: seq<int>)
    ensures |r| <= |tv|
    decreases |tv|
  {
    if |tv| < 2 then []
    else
      var n := |tv| - 1;
      RisingEdges(tv[..n]) + (if tv[n - 1].1 == "0" && tv[n].1 == "1" then [tv[n].0] else [])
  }

  /**
   * Extending the transitions by the one at position `n` adds its time to
   * the rising edges exactly when a rise happens there: the edges are the
   * times `tv[k].0` of the positions `k` with `RisesAt(tv, k)`, in
   * increasing `k`, one per position.
   */
  lemma RisingEdgesSnoc(tv: seq<(int, string)>, n: nat)
    requires n < |tv|
    ensures RisingEdges(tv[..n + 1]) == RisingEdges(tv[..n]) + (if RisesAt(tv, n) then [tv[n].0] else [])
  {
    if n >= 1 {
      assert tv[..n + 1][..n] == tv[..n];
    }
  }

  /** The rising edges are exactly the times where a `0` is followed by a `1`. */
  lemma {:induction false} RisingEdgesExact(tv: seq<(int, string)>)
    ensures forall t :: t in RisingEdges(tv) <==> exists k :: RisesAt(tv, k) && tv[k].0 == t
    decreases |tv|
  {
    if |tv| >= 2 {
      var n := |tv| - 1;
      RisingEdgesExact(tv[..n]);
      forall t ensures t in RisingEdges(tv) <==> exists k :: RisesAt(tv, k) && tv[k].0 == t {
        if t in RisingEdges(tv[..n]) {
          var k :| RisesAt(tv[..n], k) && tv[..n][k].0 == t;
          assert RisesAt(tv, k);
        }
        if k :| RisesAt(tv, k) && tv[k].0 == t {
          if k < n {
            assert RisesAt(tv[..n], k) && tv[..n][k].0 == t;
          }
        }
      }
    }
  }

  function Diffs(xs: seq<int>): (d: seq<int>)
    ensures |d| == if |xs| == 0 then 0 else |xs| - 1
    ensures forall k :: 0 <= k < |d| ==> d[k] == xs[k + 1] - xs[k]
  {
    if |xs| < 2 then [] else seq(|xs| - 1, k requires 0 <= k < |xs| - 1 => xs[k + 1] - xs[k])
  }

  function Sum(xs: seq<int>): int
    decreases |xs|
  {
    if |xs| == 0 then 0 else Sum(xs[..|xs| - 1]) + xs[|xs| - 1]
  }

  /** The differences of consecutive edges add up to the span from first to last edge. */
  lemma {:induction false} SumOfDiffs(xs: seq<int>)
    requires |xs| > 0
    ensures Sum(Diffs(xs)) == xs[|xs| - 1] - xs[0]
    decreases |xs|
  {
    if |xs| >= 2 {
      var n := |xs| - 1;
      SumOfDiffs(xs[..n]);
      var d, e := Diffs(xs), Diffs(xs[..n]);
      forall k | 0 <= k < |e|
        ensures d[..n - 1][k] == e[k]
      {
        assert xs[..n][k + 1] == xs[k + 1] && xs[..n][k] == xs[k];
      }
      assert d[..n - 1] == e;
    }
  }

  /** `np.mean(np.diff(rising_edges))` */
  function MeanPeriod(edges: seq<int>): real
    requires |edges| >= 2
  {
    Sum(Diffs(edges)) as real / (|edges| - 1) as real
  }

  /** The mean period is the span of the edges divided by the number of gaps. */
  lemma MeanPeriodIsSpan(edges: seq<int>)
    requires |edges| >= 2
    ensures MeanPeriod(edges) == (edges[|edges| - 1] - edges[0]) as real / (|edges| - 1) as real
  {
    SumOfDiffs(edges);
  }

  /** `rising_edges[rising_edges <= time_limit]` */
  function EdgesUpTo(edges: seq<int>, timeLimit: real): (r: seq<int>)
    ensures |r| <= |edges|
    ensures forall t :: t in r <==> t in edges && t as real <= timeLimit
    ensures (forall k :: 0 <= k < |edges| ==> edges[k] as real <= timeLimit) ==> r == edges
  {
    if |edges| == 0 then []
    else
      var rest := EdgesUpTo(edges[..|edges| - 1], timeLimit);
      var last := edges[|edges| - 1];
      assert forall x :: x in edges <==> x in edges[..|edges| - 1] || x == last by {
        assert edges == edges[..|edges| - 1] + [last];
      }
      if last as real <= timeLimit then rest + [last] else rest
  }

  /**
   * The boolean-mask selection keeps order and multiplicity: selecting from
   * a concatenation is selecting from each part.
   */
  lemma {:induction false} EdgesUpToAppend(a: seq<int>, b: seq<int>, timeLimit: real)
    ensures EdgesUpTo(a + b, timeLimit) == EdgesUpTo(a, timeLimit) + EdgesUpTo(b, timeLimit)
    decreases |b|
  {
    if |b| > 0 {
      var n := |b| - 1;
      assert (a + b)[..|a + b| - 1] == a + b[..n];
      assert (a + b)[|a + b| - 1] == b[n];
      EdgesUpToAppend(a, b[..n], timeLimit);
    } else {
      assert a + b == a;
    }
  }

  /** One edge is kept exactly when it is within the limit. */
  lemma EdgesUpToOne(t: int, timeLimit: real)
    ensures EdgesUpTo([t], timeLimit) == if t as real <= timeLimit then [t] else []
  {
    assert [t][..0] == [];
  }

  /** The dictionary `estimate_first_chunk_cycles` returns. */
  datatype Estimate = Estimate(
    fileSizeMb: real,
    avgPeriod: real,
    cyclesAnalyzed: nat,
    lastTimeAnalyzed: real,
    chunkMode: string)

  /** The rising edges of the matched clock's 0/1 transitions. */
  function ClockEdges(objs: seq<SignalObj>, m: Match): seq<int>
    requires m.index < |objs|
  {
    RisingEdges(BinaryTransitions(objs[m.index].tv))
  }

  /** The cycle count, the last time analysed and the chunk mode. */
  datatype Count = Count(cycles: nat, lastTime: real, mode: string)

  /**
   * Full mode counts every rising edge and ends at the last one; limited
   * mode counts the edges within the time limit (all of them when every edge
   * is within it) and ends at the last such edge, or at 0 when there is none.
   */
  function CountCycles(edges: seq<int>, limits: ChunkLimits): (c: Count)
    requires |edges| > 0
    ensures limits.Unlimited? ==>
      c.mode == "full" && c.cycles == |edges| && c.lastTime == edges[|edges| - 1] as real
    ensures limits.Limited? ==> c.mode == "limited" && c.cycles <= |edges|
    ensures limits.Limited? ==> c.cycles == |EdgesUpTo(edges, limits.timeLimit)|
    ensures limits.Limited? && c.cycles > 0 ==>
      c.lastTime == EdgesUpTo(edges, limits.timeLimit)[c.cycles - 1] as real
    ensures limits.Limited? && c.cycles == 0 ==> c.lastTime == 0.0
    ensures limits.Limited? && c.cycles > 0 ==>
      c.lastTime <= limits.timeLimit && exists k :: 0 <= k < |edges| && c.lastTime == edges[k] as real
    ensures limits.Limited? && (forall k :: 0 <= k < |edges| ==> edges[k] as real <= limits.timeLimit) ==>
      c.cycles == |edges|
  {
    match limits
    case Unlimited(_) => Count(|edges|, edges[|edges| - 1] as real, "full")
    case Limited(_, timeLimit, _) =>
      var chunk := EdgesUpTo(edges, timeLimit);
      if |chunk| > 0 then
        var last := chunk[|chunk| - 1];
        assert last in chunk;
        Count(|chunk|, last as real, "limited")
      else Count(0, 0.0, "limited")
  }

  /**
   * `estimate_first_chunk_cycles` on an already parsed dump.  `None` when the
   * clock is not found, has no 0/1 transitions, or has fewer than three
   * rising edges; otherwise the mean period of the clock's rising edges
   * (see `MeanPeriodIsSpan`) and the count that the file-size tier allows.
   */
  function EstimateFirstChunkCycles(objs: seq<SignalObj>, mainClock: string, sizeMb: real): (r: Option<Estimate>)
    ensures r.Some? <==>
      FindMatchingSymbol(objs, mainClock).Some? && FindMatchingSymbol(objs, mainClock).value.symbol != "" &&
      |ClockEdges(objs, FindMatchingSymbol(objs, mainClock).value)| >= 3
    ensures r.Some? ==>
      var m := FindMatchingSymbol(objs, mainClock).value;
      var edges := ClockEdges(objs, m);
      |edges| >= 3 && r.value.fileSizeMb == sizeMb &&
      r.value.avgPeriod == MeanPeriod(edges) &&
      (r.value.chunkMode == "full" <==> sizeMb < 100.0) &&
      Count(r.value.cyclesAnalyzed, r.value.lastTimeAnalyzed, r.value.chunkMode) ==
        CountCycles(edges, DetermineChunkLimits(sizeMb, r.value.avgPeriod))
  {
    var found := FindMatchingSymbol(objs, mainClock);
    // `if not symbol`: a missing and an empty symbol are both "not found"
    if found.None? || found.value.symbol == "" then None
    else
      var filtered := BinaryTransitions(objs[found.value.index].tv);
      if |filtered| == 0 then None
      else
        var edges := RisingEdges(filtered);
        if |edges| < 3 then None
        else
          var avg := MeanPeriod(edges);
          var c := CountCycles(edges, DetermineChunkLimits(sizeMb, avg));
          Some(Estimate(sizeMb, avg, c.cycles, c.lastTime, c.mode))
  }
}
