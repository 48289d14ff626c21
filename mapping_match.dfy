/**
 * Matching the waveform's column names to the metadata's signal names:
 * the lookup table of normalised metadata names, and the three strategies
 * a column name goes through.
 */
module MappingMatch {

  import opened Base
  import opened Text
  import opened MappingNames

  // ---------------------------------------------------------------------
  // meta_norm
  // ---------------------------------------------------------------------

  /** The two keys a metadata name is filed under. */
  predicate FiledUnder(f: string -> string, g: string -> string, meta: string, k: string) {
    k == f(meta) || k == g(meta)
  }

  /** Each name filed under `f(name)` and then `g(name)`, in order: a later name wins a shared key. */
  function Filed(metas: seq<string>, f: string -> string, g: string -> string): map<string, string>
    decreases |metas|
  {
    if |metas| == 0 then map[]
    else
      var m := metas[|metas| - 1];
      Filed(metas[..|metas| - 1], f, g)[f(m) := m][g(m) := m]
  }

  /** A key is filed exactly when some name is filed under it, and it holds the last such name. */
  lemma {:induction false} FiledLast(metas: seq<string>, f: string -> string, g: string -> string, k: string)
    ensures k in Filed(metas, f, g) <==> exists i :: 0 <= i < |metas| && FiledUnder(f, g, metas[i], k)
    ensures k in Filed(metas, f, g) ==>
      exists i :: 0 <= i < |metas| && Filed(metas, f, g)[k] == metas[i] && FiledUnder(f, g, metas[i], k) &&
        forall j :: i < j < |metas| ==> !FiledUnder(f, g, metas[j], k)
    decreases |metas|
  {
    if |metas| > 0 {
      var n := |metas| - 1;
      FiledLast(metas[..n], f, g, k);
      assert forall i :: 0 <= i < n ==> metas[..n][i] == metas[i];
      if !FiledUnder(f, g, metas[n], k) && k in Filed(metas[..n], f, g) {
        var i :| 0 <= i < n && Filed(metas[..n], f, g)[k] == metas[..n][i] && FiledUnder(f, g, metas[..n][i], k) &&
          forall j :: i < j < n ==> !FiledUnder(f, g, metas[..n][j], k);
        assert Filed(metas, f, g)[k] == metas[i];
      }
    }
  }

  /** `meta_norm`: each metadata name under its normalised name and under its last component. */
  function MetaNorm(metas: seq<string>): map<string, string> {
    Filed(metas, Normalize, LastPart)
  }

  /** Every value of `meta_norm` is a metadata name. */
  lemma MetaNormValues(metas: seq<string>, k: string)
    requires k in MetaNorm(metas)
    ensures MetaNorm(metas)[k] in metas
  {
    FiledLast(metas, Normalize, LastPart, k);
  }

  // ---------------------------------------------------------------------
  // One column
  // ---------------------------------------------------------------------

  /** `'.'.join(cleaned.split('.')[-2:])` when `cleaned` has a dot. */
  function TwoLevel(cleaned: string): Option<string> {
    if '.' in cleaned then
      var parts := SplitOn(cleaned, '.');
      if |parts| >= 2 then Some(Join(".", parts[|parts| - 2..])) else None
    else None
  }

  /** The last two dotted components of a dotted name, joined back, are a suffix of it. */
  lemma {:induction false} TwoLevelSuffix(s: string)
    requires '.' in s
    ensures |SplitOn(s, '.')| >= 2
    ensures var parts := SplitOn(s, '.');
      Join(".", parts[|parts| - 2..]) == parts[|parts| - 2] + "." + parts[|parts| - 1] &&
      EndsWith(s, parts[|parts| - 2] + "." + parts[|parts| - 1])
    decreases |s|
  {
    var i := IndexOf(s, '.');
    var rest := s[i + 1..];
    SplitOnFirst(s);
    if '.' in rest {
      TwoLevelSuffix(rest);
      TwoLevelStep(s, i);
    } else {
      TwoLevelLastDot(s, i);
    }
  }

  lemma SplitOnFirst(s: string)
    requires '.' in s
    ensures var i := IndexOf(s, '.');
      i < |s| && SplitOn(s, '.') == [s[..i]] + SplitOn(s[i + 1..], '.')
  {
  }

  /** The last dot of the name is at `i`: the two components are the text around it. */
  lemma TwoLevelLastDot(s: string, i: nat)
    requires i < |s| && s[i] == '.' && '.' !in s[..i] && '.' !in s[i + 1..]
    requires SplitOn(s, '.') == [s[..i]] + SplitOn(s[i + 1..], '.')
    ensures var parts := SplitOn(s, '.');
      |parts| == 2 && parts[0] == s[..i] && parts[1] == s[i + 1..] &&
      Join(".", parts) == s[..i] + "." + s[i + 1..] && s == s[..i] + "." + s[i + 1..]
  {
    assert SplitOn(s[i + 1..], '.') == [s[i + 1..]];
    assert s == s[..i] + [s[i]] + s[i + 1..];
  }

  /** A dot after the first one: the last two components are those of the text after the first dot. */
  lemma TwoLevelStep(s: string, i: nat)
    requires i < |s| && '.' in s[i + 1..]
    requires SplitOn(s, '.') == [s[..i]] + SplitOn(s[i + 1..], '.')
    requires |SplitOn(s[i + 1..], '.')| >= 2
    requires var rp := SplitOn(s[i + 1..], '.');
      Join(".", rp[|rp| - 2..]) == rp[|rp| - 2] + "." + rp[|rp| - 1] &&
      EndsWith(s[i + 1..], rp[|rp| - 2] + "." + rp[|rp| - 1])
    ensures var parts := SplitOn(s, '.');
      |parts| >= 2 &&
      Join(".", parts[|parts| - 2..]) == parts[|parts| - 2] + "." + parts[|parts| - 1] &&
      EndsWith(s, parts[|parts| - 2] + "." + parts[|parts| - 1])
  {
    var rest := s[i + 1..];
    var rp := SplitOn(rest, '.');
    var parts := SplitOn(s, '.');
    assert parts[|parts| - 2..] == rp[|rp| - 2..];
    assert s[|s| - |rest|..] == rest;
  }

  /** The key under which a column finds its metadata name: normalised name, then last component, then last two components. */
  function MatchKey(metaNorm: map<string, string>, wf: string): (r: Option<string>)
    ensures r.Some? ==> r.value in metaNorm
  {
    var cleaned := Normalize(wf);
    FirstKey(metaNorm, cleaned, LastPartClean(wf), TwoLevel(cleaned))
  }

  /** The first of three candidate keys that the table has, tried in order. */
  function FirstKey(metaNorm: map<string, string>, k1: string, k2: string, k3: Option<string>): (r: Option<string>)
    ensures r.Some? ==> r.value in metaNorm
    ensures r == None <==> (k1 !in metaNorm && k2 !in metaNorm && (k3.None? || k3.value !in metaNorm))
    ensures k1 in metaNorm ==> r == Some(k1)
  {
    if k1 in metaNorm then Some(k1)
    else if k2 in metaNorm then Some(k2)
    else
      match k3
      case Some(t) => if t in metaNorm then Some(t) else None
      case None => None
  }

  /** The metadata name a waveform column maps to, if any. */
  function MatchColumn(metaNorm: map<string, string>): string -> Option<string> {
    wf => match MatchKey(metaNorm, wf) case Some(k) => Some(metaNorm[k]) case None => None
  }

  /**
   * A column whose normalised name is the normalised name of a metadata
   * signal is always mapped, by the first strategy.
   */
  lemma SameNormalIsMapped(metas: seq<string>, wf: string, i: nat)
    requires i < |metas| && Normalize(wf) == Normalize(metas[i])
    ensures MatchKey(MetaNorm(metas), wf) == Some(Normalize(wf))
  {
    FiledLast(metas, Normalize, LastPart, Normalize(wf));
  }

  // ---------------------------------------------------------------------
  // match_waveform_signals
  // ---------------------------------------------------------------------

  /** The mapping after the columns in order. */
  function Matched(pick: string -> Option<string>, cols: seq<string>): map<string, string>
    decreases |cols|
  {
    if |cols| == 0 then map[]
    else
      var wf := cols[|cols| - 1];
      var m := Matched(pick, cols[..|cols| - 1]);
      match pick(wf)
      case Some(meta) => m[wf := meta]
      case None => m
  }

  /** A column is in the mapping exactly when it is picked, and it maps to what it is picked for. */
  lemma {:induction false} MatchedMembers(pick: string -> Option<string>, cols: seq<string>, wf: string)
    ensures wf in Matched(pick, cols) <==> wf in cols && pick(wf).Some?
    ensures wf in Matched(pick, cols) ==> Matched(pick, cols)[wf] == pick(wf).value
    decreases |cols|
  {
    if |cols| > 0 {
      var n := |cols| - 1;
      MatchedMembers(pick, cols[..n], wf);
      InFrontOrLast(cols, wf);
    }
  }

  /** The mapping of `match_waveform_signals`. */
  function WaveformMapping(metas: seq<string>, cols: seq<string>): map<string, string> {
    Matched(MatchColumn(MetaNorm(metas)), cols)
  }

  /**
   * Each waveform column maps to at most one metadata name, only columns of
   * the row are mapped, and every value is a metadata name.
   */
  lemma MatchedAreMetadata(metas: seq<string>, cols: seq<string>, wf: string)
    requires wf in WaveformMapping(metas, cols)
    ensures wf in cols
    ensures WaveformMapping(metas, cols)[wf] in metas
  {
    var mn := MetaNorm(metas);
    MatchedMembers(MatchColumn(mn), cols, wf);
    var k := MatchKey(mn, wf).value;
    assert WaveformMapping(metas, cols)[wf] == mn[k];
    MetaNormValues(metas, k);
  }

  /** A column of the row with the normalised name of a metadata signal is mapped. */
  lemma SameNormalColumnMapped(metas: seq<string>, cols: seq<string>, wf: string, i: nat)
    requires wf in cols && i < |metas| && Normalize(wf) == Normalize(metas[i])
    ensures wf in WaveformMapping(metas, cols)
  {
    SameNormalIsMapped(metas, wf, i);
    MatchedMembers(MatchColumn(MetaNorm(metas)), cols, wf);
  }

  /** Filing one more name on top of a prefix. */
  lemma FiledSnoc(metas: seq<string>, i: nat, f: string -> string, g: string -> string)
    requires i < |metas|
    ensures Filed(metas[..i + 1], f, g) == Filed(metas[..i], f, g)[f(metas[i]) := metas[i]][g(metas[i]) := metas[i]]
  {
    TakeTake(metas, i);
  }

  /** The first loop of `match_waveform_signals`: `meta_norm` filled name by name. */
  method BuildMetaNorm(metas: seq<string>) returns (metaNorm: map<string, string>)
    ensures metaNorm == MetaNorm(metas)
  {
    metaNorm := map[];
    for i := 0 to |metas|
      invariant metaNorm == Filed(metas[..i], Normalize, LastPart)
    {
      FiledSnoc(metas, i, Normalize, LastPart);
      var meta := metas[i];
      metaNorm := metaNorm[Normalize(meta) := meta];
      metaNorm := metaNorm[LastPart(meta) := meta];
    }
    TakeAll(metas);
  }

  lemma MatchColumnApply(metaNorm: map<string, string>, wf: string)
    ensures MatchKey(metaNorm, wf).None? ==> MatchColumn(metaNorm)(wf) == None
    ensures MatchKey(metaNorm, wf).Some? ==> MatchColumn(metaNorm)(wf) == Some(metaNorm[MatchKey(metaNorm, wf).value])
  {
  }

  /** One pass of the second loop; each `continue` is a `return`. */
  method MatchOne(metaNorm: map<string, string>, wf: string) returns (found: Option<string>)
    ensures found == MatchColumn(metaNorm)(wf)
  {
    MatchColumnApply(metaNorm, wf);
    var cleaned := Normalize(wf);
    var base := LastPartClean(wf);
    var twoLevel := TwoLevel(cleaned);
    assert MatchKey(metaNorm, wf) == FirstKey(metaNorm, cleaned, base, twoLevel);
    if cleaned in metaNorm {
      return Some(metaNorm[cleaned]);
    }
    if base in metaNorm {
      return Some(metaNorm[base]);
    }
    if twoLevel.Some? && twoLevel.value in metaNorm {
      return Some(metaNorm[twoLevel.value]);
    }
    return None;
  }

  /** One more column. */
  lemma MatchedSnoc(pick: string -> Option<string>, cols: seq<string>, j: nat)
    requires j < |cols|
    ensures pick(cols[j]).None? ==> Matched(pick, cols[..j + 1]) == Matched(pick, cols[..j])
    ensures pick(cols[j]).Some? ==> Matched(pick, cols[..j + 1]) == Matched(pick, cols[..j])[cols[j] := pick(cols[j]).value]
  {
    TakeTake(cols, j);
  }

  /** `match_waveform_signals(waveform_row, metadata_map)`, given the row's column names and the metadata names. */
  method MatchWaveformSignals(cols: seq<string>, metas: seq<string>) returns (mapping: map<string, string>)
    ensures mapping == WaveformMapping(metas, cols)
  {
    var metaNorm := BuildMetaNorm(metas);
    mapping := map[];
    ghost var pick := MatchColumn(metaNorm);
    for j := 0 to |cols|
      invariant mapping == Matched(pick, cols[..j])
    {
      MatchedSnoc(pick, cols, j);
      var wf := cols[j];
      var found := MatchOne(metaNorm, wf);
      if found.Some? {
        mapping := mapping[wf := found.value];
      }
    }
    TakeAll(cols);
  }
}
