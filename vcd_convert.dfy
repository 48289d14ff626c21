/**
 * Waveform-dump to table conversion: the timescale and resolution
 * fallbacks, the time bounds, the integer time grid and the sample-and-hold
 * loop that pops each signal's transition list while walking the grid.
 */
module VcdConvert {

  import opened Base
  import opened Text

  /**
   * `get_auto_resolution`: about ten samples per clock period, never finer
   * than one time unit.  A missing or non-numeric period is `None`.
   */
  function GetAutoResolution(period: Option<real>): (r: real)
    ensures r >= 1.0
    ensures period.Some? && period.value > 10.0 ==> r * 10.0 == period.value
    ensures !(period.Some? && period.value > 10.0) ==> r == 1.0
  {
    if period.Some? && period.value != 0.0 && period.value > 0.0 then
      if period.value > 10.0 then
        var q := period.value / 10.0;
        if 1.0 < q then q else 1.0
      else 1.0
    else 1.0
  }

  const ValidUnits: set<string> := {"s", "ms", "us", "ns", "ps", "fs", "as"}

  /**
   * `parse_timescale`.  `float()` is a parameter: `parseFloat(s)` is `None`
   * where `float(s)` raises.
   */
  function ParseTimescale(timescale: string, parseFloat: string -> Option<real>): (r: (real, string))
    ensures r.1 in ValidUnits
    ensures |SplitWhitespace(timescale)| != 2 ==> r == (1.0, "ps")
    ensures |SplitWhitespace(timescale)| == 2 ==>
      var parts := SplitWhitespace(timescale);
      if parseFloat(parts[0]).None? || parts[1] !in ValidUnits then r == (1.0, "ps")
      else r == (parseFloat(parts[0]).value, parts[1])
  {
    // `str.split()` already ignores the whitespace `strip()` removes
    var parts := SplitWhitespace(timescale);
    if |parts| != 2 then (1.0, "ps")
    else
      var value := parseFloat(parts[0]);
      if value.None? then (1.0, "ps")
      else if parts[1] !in ValidUnits then (1.0, "ps")
      else (value.value, parts[1])
  }

  lemma SplitOneNs()
    ensures SplitWhitespace("1 ns") == ["1", "ns"]
  {
    assert SkipSpaces("1 ns", 0) == 0 && RunEnd("1 ns", 0) == 1;
    assert "1 ns"[1..] == " ns" && "1 ns"[0..1] == "1";
    assert SkipSpaces(" ns", 0) == 1 && RunEnd(" ns", 1) == 3;
    assert " ns"[3..] == "" && " ns"[1..3] == "ns";
    assert SplitWhitespace(" ns") == ["ns"];
  }

  lemma SplitTenPs()
    ensures SplitWhitespace("10 ps") == ["10", "ps"]
  {
    assert SkipSpaces("10 ps", 0) == 0 && RunEnd("10 ps", 1) == 2 && RunEnd("10 ps", 0) == 2;
    assert "10 ps"[2..] == " ps" && "10 ps"[0..2] == "10";
    assert SkipSpaces(" ps", 0) == 1 && RunEnd(" ps", 1) == 3;
    assert " ps"[3..] == "" && " ps"[1..3] == "ps";
    assert SplitWhitespace(" ps") == ["ps"];
  }

  lemma SplitOneParsec()
    ensures SplitWhitespace("1 parsec") == ["1", "parsec"]
  {
    assert SkipSpaces("1 parsec", 0) == 0 && RunEnd("1 parsec", 0) == 1;
    assert "1 parsec"[1..] == " parsec" && "1 parsec"[0..1] == "1";
    assert SkipSpaces(" parsec", 0) == 1 && RunEnd(" parsec", 1) == 7;
    assert " parsec"[7..] == "" && " parsec"[1..7] == "parsec";
    assert SplitWhitespace(" parsec") == ["parsec"];
  }

  lemma SplitOneToken()
    ensures SplitWhitespace("1ns") == ["1ns"]
  {
    assert SkipSpaces("1ns", 0) == 0 && RunEnd("1ns", 0) == 3;
    assert "1ns"[3..] == "" && "1ns"[0..3] == "1ns";
  }

  /** `"1 ns"` and `"10 ps"` are read as they are written. */
  lemma TimescaleExamples(parseFloat: string -> Option<real>)
    requires parseFloat("1") == Some(1.0) && parseFloat("10") == Some(10.0)
    ensures ParseTimescale("1 ns", parseFloat) == (1.0, "ns")
    ensures ParseTimescale("10 ps", parseFloat) == (10.0, "ps")
  {
    SplitOneNs();
    SplitTenPs();
  }

  /** `split()` also splits at the unit separator `\x1f`, which `str.isspace()` accepts. */
  lemma SplitOneUnitSeparatorNs()
    ensures SplitWhitespace("1\U{1F}ns") == ["1", "ns"]
  {
    assert SkipSpaces("1\U{1F}ns", 0) == 0 && RunEnd("1\U{1F}ns", 0) == 1;
    assert "1\U{1F}ns"[1..] == "\U{1F}ns" && "1\U{1F}ns"[0..1] == "1";
    assert SkipSpaces("\U{1F}ns", 0) == 1 && RunEnd("\U{1F}ns", 1) == 3;
    assert "\U{1F}ns"[3..] == "" && "\U{1F}ns"[1..3] == "ns";
    assert SplitWhitespace("\U{1F}ns") == ["ns"];
  }

  /** A value and a unit separated by `\x1f` are read like `"1 ns"`. */
  lemma TimescaleUnitSeparator(parseFloat: string -> Option<real>)
    requires parseFloat("1") == Some(1.0)
    ensures ParseTimescale("1\U{1F}ns", parseFloat) == (1.0, "ns")
  {
    SplitOneUnitSeparatorNs();
  }

  /** An unknown unit, or a value and unit not separated by whitespace, fall back to 1 ps. */
  lemma TimescaleFallbacks(parseFloat: string -> Option<real>)
    requires parseFloat("1") == Some(1.0)
    ensures ParseTimescale("1 parsec", parseFloat) == (1.0, "ps")
    ensures ParseTimescale("1ns", parseFloat) == (1.0, "ps")
  {
    SplitOneParsec();
    UnitsAreShort();
    SplitOneToken();
  }

  /** Every valid unit has at most two letters. */
  lemma UnitsAreShort()
    ensures forall u :: u in ValidUnits ==> |u| <= 2
  {
  }

  // ---------------------------------------------------------------------
  // Signals and time bounds
  // ---------------------------------------------------------------------

  /** One entry of the parsed dump: its identifier code, its references and its transitions. */
  datatype VcdSignal = VcdSignal(code: string, references: seq<string>, tv: seq<(int, string)>)

  /** The first reference, or `sig_<code>` for a signal without references. */
  function SignalName(sig: VcdSignal): string {
    if |sig.references| > 0 then sig.references[0] else "sig_" + sig.code
  }

  function SignalNames(sigs: seq<VcdSignal>): (names: seq<string>)
    ensures |names| == |sigs| && forall i :: 0 <= i < |sigs| ==> names[i] == SignalName(sigs[i])
  {
    seq(|sigs|, i requires 0 <= i < |sigs| => SignalName(sigs[i]))
  }

  /** `lo` is the earliest first-transition time over the signals that have transitions. */
  predicate IsMinFirst(sigs: seq<VcdSignal>, lo: int) {
    MinFirstUpTo(sigs, |sigs|, lo)
  }

  /** `hi` is the latest last-transition time over the signals that have transitions. */
  predicate IsMaxLast(sigs: seq<VcdSignal>, hi: int) {
    MaxLastUpTo(sigs, |sigs|, hi)
  }

  /** `IsMinFirst` over the first `n` signals. */
  predicate MinFirstUpTo(sigs: seq<VcdSignal>, n: nat, lo: int)
    requires n <= |sigs|
  {
    (exists i :: 0 <= i < n && |sigs[i].tv| > 0 && sigs[i].tv[0].0 == lo) &&
    forall i :: 0 <= i < n && |sigs[i].tv| > 0 ==> lo <= sigs[i].tv[0].0
  }

  /** `IsMaxLast` over the first `n` signals. */
  predicate MaxLastUpTo(sigs: seq<VcdSignal>, n: nat, hi: int)
    requires n <= |sigs|
  {
    (exists i :: 0 <= i < n && |sigs[i].tv| > 0 && sigs[i].tv[|sigs[i].tv| - 1].0 == hi) &&
    forall i :: 0 <= i < n && |sigs[i].tv| > 0 ==> sigs[i].tv[|sigs[i].tv| - 1].0 <= hi
  }

  /**
   * The scan for `min_time`/`max_time`: the least first-transition time and
   * the greatest last-transition time over the signals with transitions, or
   * `None` when no signal has any.
   */
  method TimeBounds(sigs: seq<VcdSignal>) returns (bounds: Option<(int, int)>)
    ensures bounds.None? <==> forall i :: 0 <= i < |sigs| ==> |sigs[i].tv| == 0
    ensures bounds.Some? ==> IsMinFirst(sigs, bounds.value.0) && IsMaxLast(sigs, bounds.value.1)
  {
    var minTime: Option<int> := None;
    var maxTime: Option<int> := None;
    for i := 0 to |sigs|
      invariant minTime.None? <==> forall k :: 0 <= k < i ==> |sigs[k].tv| == 0
      invariant maxTime.None? <==> forall k :: 0 <= k < i ==> |sigs[k].tv| == 0
      invariant minTime.Some? ==> MinFirstUpTo(sigs, i, minTime.value)
      invariant maxTime.Some? ==> MaxLastUpTo(sigs, i, maxTime.value)
    {
      var tv := sigs[i].tv;
      if |tv| > 0 {
        var t0 := tv[0].0;
        var t1 := tv[|tv| - 1].0;
        if minTime.None? || t0 < minTime.value {
          minTime := Some(t0);
        }
        if maxTime.None? || t1 > maxTime.value {
          maxTime := Some(t1);
        }
      }
    }
    if minTime.None? || maxTime.None? {
      return None;
    }
    bounds := Some((minTime.value, maxTime.value));
  }

  // ---------------------------------------------------------------------
  // The time grid
  // ---------------------------------------------------------------------

  /** `int(x)` on a real: truncation toward zero. */
  function Trunc(x: real): int {
    if x >= 0.0 then x.Floor else -((-x).Floor)
  }

  /** `max(1, int(resolution_units))` */
  function SampleStep(resolution: real): (step: nat)
    ensures step >= 1
    ensures resolution >= 1.0 ==> step as real <= resolution < step as real + 1.0
  {
    var t := Trunc(resolution);
    if t < 1 then 1 else t
  }

  /** Strictly increasing. */
  predicate Increasing(ts: seq<int>) {
    forall a, b :: 0 <= a < b < |ts| ==> ts[a] < ts[b]
  }

  /** `range(lo, hi + 1, step)` */
  function Timestamps(lo: int, hi: int, step: nat): (ts: seq<int>)
    requires step >= 1
    ensures lo <= hi <==> |ts| > 0
    ensures |ts| > 0 ==> ts[0] == lo && hi < ts[|ts| - 1] + step
    ensures forall k :: 0 <= k < |ts| ==> lo <= ts[k] <= hi
    ensures forall k :: 0 <= k < |ts| ==> ts[k] == lo + k * step
    ensures Increasing(ts)
    decreases hi - lo
  {
    if hi < lo then []
    else
      var rest := Timestamps(lo + step, hi, step);
      var ts := [lo] + rest;
      forall k | 1 <= k < |ts| ensures ts[k] == lo + k * step {
        assert ts[k] == rest[k - 1] == lo + step + (k - 1) * step;
      }
      ts
  }

  // ---------------------------------------------------------------------
  // Sample and hold
  // ---------------------------------------------------------------------

  /** How many leading transitions have a time at or before `t`. */
  function PrefixUpTo(tv: seq<(int, string)>, t: int): (p: nat)
    ensures p <= |tv|
    ensures forall k :: 0 <= k < p ==> tv[k].0 <= t
    ensures p == |tv| || tv[p].0 > t
    decreases |tv|
  {
    if |tv| > 0 && tv[0].0 <= t then 1 + PrefixUpTo(tv[1..], t) else 0
  }

  /** The value held after the first `p` transitions have been applied, `'x'` before any. */
  function Held(tv: seq<(int, string)>, p: nat): string
    requires p <= |tv|
  {
    if p == 0 then "x" else tv[p - 1].1
  }

  /** The value the source writes for time `t`. */
  function SampleAt(tv: seq<(int, string)>, t: int): string {
    Held(tv, PrefixUpTo(tv, t))
  }

  /** The sampled list of one signal: one value per timestamp. */
  function Sampled(tv: seq<(int, string)>, ts: seq<int>): (vals: seq<string>)
    ensures |vals| == |ts|
    ensures forall k :: 0 <= k < |ts| ==> vals[k] == SampleAt(tv, ts[k])
  {
    seq(|ts|, k requires 0 <= k < |ts| => SampleAt(tv, ts[k]))
  }

  predicate TimeOrdered(tv: seq<(int, string)>) {
    forall a, b :: 0 <= a < b < |tv| ==> tv[a].0 <= tv[b].0
  }

  /**
   * On time-ordered transitions the sample at `t` is the value of the last
   * transition at or before `t`, and `'x'` when every transition is later.
   */
  lemma SampleIsLastTransition(tv: seq<(int, string)>, t: int)
    requires TimeOrdered(tv)
    ensures (forall k :: 0 <= k < |tv| ==> tv[k].0 > t) ==> SampleAt(tv, t) == "x"
    ensures forall k :: 0 <= k < |tv| && tv[k].0 <= t && (forall k' :: k < k' < |tv| ==> tv[k'].0 > t) ==>
      SampleAt(tv, t) == tv[k].1
  {
    forall k | 0 <= k < |tv| && tv[k].0 <= t && (forall k' :: k < k' < |tv| ==> tv[k'].0 > t)
      ensures SampleAt(tv, t) == tv[k].1
    {
      PrefixUnique(tv, t, k + 1);
    }
    if forall k :: 0 <= k < |tv| ==> tv[k].0 > t {
      PrefixUnique(tv, t, 0);
    }
  }

  /** The prefix count is the only count with its two defining properties. */
  lemma PrefixUnique(tv: seq<(int, string)>, t: int, p: nat)
    requires p <= |tv| && forall k :: 0 <= k < p ==> tv[k].0 <= t
    requires p == |tv| || tv[p].0 > t
    ensures p == PrefixUpTo(tv, t)
  {
  }

  /** Consuming up to `t` after having consumed up to an earlier time continues from there. */
  lemma PrefixResumes(tv: seq<(int, string)>, p0: nat, t: int)
    requires p0 <= |tv| && forall k :: 0 <= k < p0 ==> tv[k].0 <= t
    ensures PrefixUpTo(tv, t) == p0 + PrefixUpTo(tv[p0..], t)
  {
    var q := PrefixUpTo(tv[p0..], t);
    forall k | p0 <= k < p0 + q ensures tv[k].0 <= t {
      assert tv[k] == tv[p0..][k - p0];
    }
    if p0 + q < |tv| {
      assert tv[p0 + q] == tv[p0..][q];
    }
    PrefixUnique(tv, t, p0 + q);
  }

  /**
   * The inner `while tv_list and tv_list[0][0] <= t: pop(0)` loop: the
   * remaining list, the last popped value (or `cur` when nothing was popped)
   * and how many transitions were popped.
   */
  method PopUpTo(tvList: seq<(int, string)>, cur: string, t: int)
    returns (rest: seq<(int, string)>, last: string, popped: nat)
    ensures popped == PrefixUpTo(tvList, t) && rest == tvList[popped..]
    ensures last == if popped == 0 then cur else tvList[popped - 1].1
  {
    rest, last, popped := tvList, cur, 0;
    while |rest| > 0 && rest[0].0 <= t
      invariant popped <= |tvList| && rest == tvList[popped..]
      invariant forall k :: 0 <= k < popped ==> tvList[k].0 <= t
      invariant last == if popped == 0 then cur else tvList[popped - 1].1
      decreases |rest|
    {
      last := rest[0].1;
      rest := rest[1..];
      popped := popped + 1;
    }
    PrefixResumes(tvList, popped, t);
  }

  /** How many transitions have been consumed once the first `i` timestamps are sampled. */
  function Consumed(tv: seq<(int, string)>, ts: seq<int>, i: nat): (p: nat)
    requires i <= |ts|
    ensures p <= |tv|
  {
    if i == 0 then 0 else PrefixUpTo(tv, ts[i - 1])
  }

  /** The loop state of one signal after `i` timestamps: what is left to pop, what is held, what was written. */
  predicate InState(tv: seq<(int, string)>, ts: seq<int>, i: nat,
                    rest: seq<(int, string)>, cur: string, vals: seq<string>)
    requires i <= |ts|
  {
    var p := Consumed(tv, ts, i);
    rest == tv[p..] && cur == Held(tv, p) && vals == Sampled(tv, ts[..i])
  }

  /** One signal's step from timestamp `i` to `i + 1`. */
  lemma StepState(tv: seq<(int, string)>, ts: seq<int>, i: nat,
                  rest: seq<(int, string)>, cur: string, vals: seq<string>,
                  rest': seq<(int, string)>, cur': string, popped: nat)
    requires i < |ts| && (i == 0 || ts[i - 1] < ts[i]) && InState(tv, ts, i, rest, cur, vals)
    requires popped == PrefixUpTo(rest, ts[i]) && rest' == rest[popped..]
    requires cur' == if popped == 0 then cur else rest[popped - 1].1
    ensures InState(tv, ts, i + 1, rest', cur', vals + [cur'])
  {
    var p1 := StepCore(tv, ts, i, Consumed(tv, ts, i), rest, cur, vals, cur', popped);
    InStateIntro(tv, ts, i + 1, rest', cur', vals + [cur'], p1);
  }

  /** `StepState` on the loop state taken apart: `p0` transitions consumed so far. */
  lemma StepCore(tv: seq<(int, string)>, ts: seq<int>, i: nat, p0: nat,
                 rest: seq<(int, string)>, cur: string, vals: seq<string>, cur': string, popped: nat)
    returns (p1: nat)
    requires i < |ts| && (i == 0 || ts[i - 1] < ts[i]) && p0 == Consumed(tv, ts, i)
    requires rest == tv[p0..] && cur == Held(tv, p0) && vals == Sampled(tv, ts[..i])
    requires popped == PrefixUpTo(rest, ts[i])
    requires cur' == if popped == 0 then cur else rest[popped - 1].1
    ensures p1 == Consumed(tv, ts, i + 1) && p1 <= |tv| && rest[popped..] == tv[p1..]
    ensures cur' == Held(tv, p1) && vals + [cur'] == Sampled(tv, ts[..i + 1])
  {
    ConsumedStep(tv, ts, i, popped);
    p1 := p0 + popped;
    assert p1 == Consumed(tv, ts, i + 1) == PrefixUpTo(tv, ts[i]);
    HeldStep(tv, p0, rest, cur, popped, cur');
    DropDrop(tv, p0, popped);
    SampledStep(tv, ts, i, vals, cur');
  }

  lemma InStateIntro(tv: seq<(int, string)>, ts: seq<int>, i: nat,
                     rest: seq<(int, string)>, cur: string, vals: seq<string>, p: nat)
    requires i <= |ts| && p == Consumed(tv, ts, i)
    requires rest == tv[p..] && cur == Held(tv, p) && vals == Sampled(tv, ts[..i])
    ensures InState(tv, ts, i, rest, cur, vals)
  {
  }

  /** The value held once timestamp `i` is sampled is appended to the values sampled before it. */
  lemma SampledStep(tv: seq<(int, string)>, ts: seq<int>, i: nat, vals: seq<string>, v: string)
    requires i < |ts| && vals == Sampled(tv, ts[..i])
    requires v == Held(tv, PrefixUpTo(tv, ts[i]))
    ensures vals + [v] == Sampled(tv, ts[..i + 1])
  {
    SampledSnoc(tv, ts, i);
  }

  /** Sampling timestamp `i` consumes the transitions popped then. */
  lemma ConsumedStep(tv: seq<(int, string)>, ts: seq<int>, i: nat, popped: nat)
    requires i < |ts| && (i == 0 || ts[i - 1] < ts[i])
    requires popped == PrefixUpTo(tv[Consumed(tv, ts, i)..], ts[i])
    ensures Consumed(tv, ts, i + 1) == Consumed(tv, ts, i) + popped
    ensures Consumed(tv, ts, i + 1) == PrefixUpTo(tv, ts[i])
  {
    PrefixResumes(tv, Consumed(tv, ts, i), ts[i]);
  }

  /** The value held after popping is the last popped one, or the one held before. */
  lemma HeldStep(tv: seq<(int, string)>, p0: nat, rest: seq<(int, string)>, cur: string, popped: nat, cur': string)
    requires p0 <= |tv| && rest == tv[p0..] && cur == Held(tv, p0) && popped <= |rest|
    requires cur' == if popped == 0 then cur else rest[popped - 1].1
    ensures cur' == Held(tv, p0 + popped)
  {
    if popped > 0 {
      assert rest[popped - 1] == tv[p0 + popped - 1];
    }
  }

  /** Sampling one more timestamp appends its sample. */
  lemma SampledSnoc(tv: seq<(int, string)>, ts: seq<int>, i: nat)
    requires i < |ts|
    ensures Sampled(tv, ts[..i + 1]) == Sampled(tv, ts[..i]) + [SampleAt(tv, ts[i])]
  {
    var a, b := Sampled(tv, ts[..i + 1]), Sampled(tv, ts[..i]) + [SampleAt(tv, ts[i])];
    forall k | 0 <= k < |a| ensures a[k] == b[k] {
      assert ts[..i + 1][k] == ts[k];
      if k < i {
        assert ts[..i][k] == ts[k];
      }
    }
  }

  /** `{name: sig.tv.copy() for ...}`: a repeated name keeps the later signal's transitions. */
  function TvByName(sigs: seq<VcdSignal>): (m: map<string, seq<(int, string)>>)
    ensures forall n :: n in m <==> exists i :: 0 <= i < |sigs| && SignalName(sigs[i]) == n
    decreases |sigs|
  {
    if |sigs| == 0 then map[]
    else
      var n := |sigs| - 1;
      var prev := TvByName(sigs[..n]);
      assert forall i :: 0 <= i < n ==> sigs[..n][i] == sigs[i];
      prev[SignalName(sigs[n]) := sigs[n].tv]
  }

  /** The entry of a name is the transition list of the last signal carrying it. */
  lemma {:induction false} TvByNameLast(sigs: seq<VcdSignal>, i: nat)
    requires i < |sigs|
    requires forall k :: i < k < |sigs| ==> SignalName(sigs[k]) != SignalName(sigs[i])
    ensures TvByName(sigs)[SignalName(sigs[i])] == sigs[i].tv
    decreases |sigs|
  {
    var n := |sigs| - 1;
    var name := SignalName(sigs[i]);
    if i < n {
      var front := sigs[..n];
      assert front[i] == sigs[i];
      forall k | i < k < n ensures SignalName(front[k]) != name {
        assert front[k] == sigs[k];
      }
      TvByNameLast(front, i);
      var prev := TvByName(front);
      assert SignalName(sigs[n]) != name;
      assert TvByName(sigs)[name] == prev[name];
    }
  }

  /**
   * The state of the sampling loop after timestamp `i` has been handled for
   * the first `j` names (and the rest still stand at `i`).
   */
  predicate Row(names: seq<string>, tvOf: map<string, seq<(int, string)>>, ts: seq<int>, i: nat, j: nat,
                tvs: map<string, seq<(int, string)>>, current: map<string, string>,
                values: map<string, seq<string>>)
  {
    j <= |names| && i <= |ts| && (j > 0 ==> i < |ts|) &&
    (forall n :: n in names ==> n in tvOf && n in tvs && n in current && n in values) &&
    forall k :: 0 <= k < |names| ==>
      InState(tvOf[names[k]], ts, if k < j then i + 1 else i, tvs[names[k]], current[names[k]], values[names[k]])
  }

  /** Handling one more name keeps every other name's state, since names are distinct. */
  lemma RowStep(names: seq<string>, tvOf: map<string, seq<(int, string)>>, ts: seq<int>, i: nat, j: nat,
                tvs: map<string, seq<(int, string)>>, current: map<string, string>,
                values: map<string, seq<string>>,
                tvList: seq<(int, string)>, cur: string, popped: nat)
    requires NoDup(names) && i < |ts| && (i == 0 || ts[i - 1] < ts[i]) && j < |names|
    requires Row(names, tvOf, ts, i, j, tvs, current, values)
    requires popped == PrefixUpTo(tvs[names[j]], ts[i]) && tvList == tvs[names[j]][popped..]
    requires cur == if popped == 0 then current[names[j]] else tvs[names[j]][popped - 1].1
    ensures Row(names, tvOf, ts, i, j + 1, tvs[names[j] := tvList], current[names[j] := cur],
                values[names[j] := values[names[j]] + [cur]])
  {
    var name := names[j];
    StepState(tvOf[name], ts, i, tvs[name], current[name], values[name], tvList, cur, popped);
    RowOthers(names, tvOf, ts, i, j, tvs, current, values, tvList, cur, values[name] + [cur]);
  }

  /** With `names[j]` handled, the row moves on one name: the other names keep their state. */
  lemma RowOthers(names: seq<string>, tvOf: map<string, seq<(int, string)>>, ts: seq<int>, i: nat, j: nat,
                  tvs: map<string, seq<(int, string)>>, current: map<string, string>,
                  values: map<string, seq<string>>,
                  tvList: seq<(int, string)>, cur: string, vals: seq<string>)
    requires NoDup(names) && i < |ts| && j < |names| && Row(names, tvOf, ts, i, j, tvs, current, values)
    requires InState(tvOf[names[j]], ts, i + 1, tvList, cur, vals)
    ensures Row(names, tvOf, ts, i, j + 1, tvs[names[j] := tvList], current[names[j] := cur], values[names[j] := vals])
  {
    forall k | 0 <= k < |names| && k != j
      ensures InState(tvOf[names[k]], ts, if k < j + 1 then i + 1 else i,
                      tvs[names[j] := tvList][names[k]], current[names[j] := cur][names[k]], values[names[j] := vals][names[k]])
    {
      assert names[k] != names[j];
      InStateOther(tvOf, ts, if k < j then i + 1 else i, names[k], tvs, current, values, names[j], tvList, cur, vals);
    }
  }

  /** Handling name `name` leaves the state of another name `n` as it was. */
  lemma InStateOther(tvOf: map<string, seq<(int, string)>>, ts: seq<int>, i: nat, n: string,
                     tvs: map<string, seq<(int, string)>>, current: map<string, string>,
                     values: map<string, seq<string>>,
                     name: string, tvList: seq<(int, string)>, cur: string, vals: seq<string>)
    requires i <= |ts| && n != name && n in tvOf && n in tvs && n in current && n in values
    requires InState(tvOf[n], ts, i, tvs[n], current[n], values[n])
    ensures InState(tvOf[n], ts, i, tvs[name := tvList][n], current[name := cur][n], values[name := vals][n])
  {
  }

  lemma RowInit(names: seq<string>, tvOf: map<string, seq<(int, string)>>, ts: seq<int>)
    requires forall n :: n in names ==> n in tvOf
    ensures Row(names, tvOf, ts, 0, 0, tvOf, map n | n in names :: "x", map n | n in names :: [])
  {
    forall k | 0 <= k < |names|
      ensures InState(tvOf[names[k]], ts, 0, tvOf[names[k]], "x", [])
    {
      assert tvOf[names[k]][0..] == tvOf[names[k]];
    }
  }

  lemma RowNext(names: seq<string>, tvOf: map<string, seq<(int, string)>>, ts: seq<int>, i: nat,
                tvs: map<string, seq<(int, string)>>, current: map<string, string>,
                values: map<string, seq<string>>)
    requires Row(names, tvOf, ts, i, |names|, tvs, current, values) && i < |ts|
    ensures Row(names, tvOf, ts, i + 1, 0, tvs, current, values)
  {
  }

  lemma RowDone(names: seq<string>, tvOf: map<string, seq<(int, string)>>, ts: seq<int>,
                tvs: map<string, seq<(int, string)>>, current: map<string, string>,
                values: map<string, seq<string>>)
    requires Row(names, tvOf, ts, |ts|, 0, tvs, current, values)
    ensures forall n :: n in names ==> values[n] == Sampled(tvOf[n], ts)
  {
    forall n | n in names ensures values[n] == Sampled(tvOf[n], ts) {
      var k :| 0 <= k < |names| && names[k] == n;
      TakeAll(ts);
    }
  }

  /**
   * The body of the loop over the names: pop the transitions of `names[j]`
   * due by timestamp `i` and append the value then held.
   */
  method SampleName(names: seq<string>, tvOf: map<string, seq<(int, string)>>, ts: seq<int>, i: nat, j: nat,
                    tvs: map<string, seq<(int, string)>>, current: map<string, string>, values: map<string, seq<string>>)
    returns (tvs': map<string, seq<(int, string)>>, current': map<string, string>, values': map<string, seq<string>>)
    requires i < |ts| && j < |names| && Increasing(ts)
    requires forall n :: n in names ==> n in tvs && n in current && n in values
    requires NoDup(names) ==> Row(names, tvOf, ts, i, j, tvs, current, values)
    ensures forall n :: n in names ==> n in tvs' && n in current' && n in values'
    ensures NoDup(names) ==> Row(names, tvOf, ts, i, j + 1, tvs', current', values')
  {
    var name := names[j];
    var tvList, cur, popped := PopUpTo(tvs[name], current[name], ts[i]);
    if NoDup(names) {
      RowStep(names, tvOf, ts, i, j, tvs, current, values, tvList, cur, popped);
    }
    tvs' := tvs[name := tvList];
    current' := current[name := cur];
    values' := values[name := values[name] + [cur]];
  }

  /** The loop over the names for timestamp `i`. */
  method SampleRow(names: seq<string>, tvOf: map<string, seq<(int, string)>>, ts: seq<int>, i: nat,
                   tvs: map<string, seq<(int, string)>>, current: map<string, string>, values: map<string, seq<string>>)
    returns (tvs': map<string, seq<(int, string)>>, current': map<string, string>, values': map<string, seq<string>>)
    requires i < |ts| && Increasing(ts)
    requires forall n :: n in names ==> n in tvs && n in current && n in values
    requires NoDup(names) ==> Row(names, tvOf, ts, i, 0, tvs, current, values)
    ensures forall n :: n in names ==> n in tvs' && n in current' && n in values'
    ensures NoDup(names) ==> Row(names, tvOf, ts, i + 1, 0, tvs', current', values')
  {
    tvs', current', values' := tvs, current, values;
    for j := 0 to |names|
      invariant forall n :: n in names ==> n in tvs' && n in current' && n in values'
      invariant NoDup(names) ==> Row(names, tvOf, ts, i, j, tvs', current', values')
    {
      tvs', current', values' := SampleName(names, tvOf, ts, i, j, tvs', current', values');
    }
    if NoDup(names) {
      RowNext(names, tvOf, ts, i, tvs', current', values');
    }
  }

  /**
   * The sampling loop: for every timestamp, in order, and every signal name,
   * in order, pop the transitions due by then and append the held value.
   * The contract speaks of distinct names, where every list gets one value
   * per timestamp.
   */
  method SampleAndHold(names: seq<string>, tvOf: map<string, seq<(int, string)>>, timestamps: seq<int>)
    returns (values: map<string, seq<string>>)
    requires forall n :: n in names ==> n in tvOf
    requires Increasing(timestamps)
    ensures forall n :: n in names ==> n in values
    ensures NoDup(names) ==> forall n :: n in names ==> values[n] == Sampled(tvOf[n], timestamps)
  {
    var tvs := tvOf;
    var current: map<string, string> := map n | n in names :: "x";
    values := map n | n in names :: [];
    RowInit(names, tvOf, timestamps);
    var i := 0;
    while i < |timestamps|
      invariant 0 <= i <= |timestamps|
      invariant forall n :: n in names ==> n in tvs && n in current && n in values
      invariant NoDup(names) ==> Row(names, tvOf, timestamps, i, 0, tvs, current, values)
    {
      tvs, current, values := SampleRow(names, tvOf, timestamps, i, tvs, current, values);
      i := i + 1;
    }
    if NoDup(names) {
      RowDone(names, tvOf, timestamps, tvs, current, values);
    }
  }

  /** The table `convert_vcd_to_json_csv` writes, before times are scaled to reals. */
  datatype Conversion = Conversion(
    timeColumn: string,
    header: seq<string>,
    timestamps: seq<int>,
    values: map<string, seq<string>>)

  /** `time_<unit>`, with picoseconds shown as nanoseconds once samples are 1000 units apart or more. */
  function TimeColumn(unit: string, resolution: real): (col: string)
    ensures StartsWith(col, "time_")
    ensures unit != "ps" ==> col == "time_" + unit
    ensures unit == "ps" ==> (col == "time_ns" <==> resolution >= 1000.0)
    ensures unit == "ps" ==> (col == "time_ps" <==> resolution < 1000.0)
  {
    if unit == "ps" && resolution >= 1000.0 then "time_ns" else "time_" + unit
  }

  /**
   * `convert_vcd_to_json_csv` on a parsed dump.  `None` where the source
   * warns that there are no transitions.  The header is the time column
   * followed by the signal names; the grid runs from the earliest first
   * transition to the latest last transition; with distinct names every
   * signal gets one held value per grid point.
   */
  method ConvertVcd(sigs: seq<VcdSignal>, timescale: string, parseFloat: string -> Option<real>,
                    clockPeriod: Option<real>)
    returns (r: Option<Conversion>)
    ensures r.None? <==> forall i :: 0 <= i < |sigs| ==> |sigs[i].tv| == 0
    ensures r.Some? ==>
      var resolution := GetAutoResolution(clockPeriod);
      r.value.timeColumn == TimeColumn(ParseTimescale(timescale, parseFloat).1, resolution) &&
      r.value.header == [r.value.timeColumn] + SignalNames(sigs) &&
      exists lo, hi :: IsMinFirst(sigs, lo) && IsMaxLast(sigs, hi) &&
        r.value.timestamps == Timestamps(lo, hi, SampleStep(resolution))
    ensures r.Some? && NoDup(SignalNames(sigs)) ==> forall i :: 0 <= i < |sigs| ==>
      SignalName(sigs[i]) in r.value.values &&
      r.value.values[SignalName(sigs[i])] == Sampled(sigs[i].tv, r.value.timestamps)
  {
    var (scaleValue, unit) := ParseTimescale(timescale, parseFloat);
    var resolution := GetAutoResolution(clockPeriod);
    var names := SignalNames(sigs);
    var bounds := TimeBounds(sigs);
    if bounds.None? {
      return None;
    }
    var (lo, hi) := bounds.value;
    var timestamps := Timestamps(lo, hi, SampleStep(resolution));
    var tvOf := TvByName(sigs);
    var values := SampleAndHold(names, tvOf, timestamps);
    if NoDup(names) {
      forall i | 0 <= i < |sigs|
        ensures tvOf[SignalName(sigs[i])] == sigs[i].tv
      {
        assert forall k :: i < k < |sigs| ==> names[k] != names[i];
        TvByNameLast(sigs, i);
      }
      forall i | 0 <= i < |sigs| ensures SignalName(sigs[i]) in names {
        assert names[i] == SignalName(sigs[i]);
      }
    }
    var timeColumn := TimeColumn(unit, resolution);
    r := Some(Conversion(timeColumn, [timeColumn] + names, timestamps, values));
  }
}
