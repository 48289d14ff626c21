/**
 * Loading the signal metadata that the waveform columns are mapped onto:
 * a dict from RTL signal name to class, plus the names classified as
 * clocks.  The metadata comes either from the CSV written by the classifier
 * or from a JSON document with a "signals" object.
 */
module MappingMetadata {

  import opened Base
  import opened Text

  /** `(mapping, clock_signals)` as returned by the loaders. */
  datatype Metadata = Metadata(signals: Assoc, clocks: seq<string>)

  /** `cls.lower() == "clock"` */
  predicate IsClockClass(cls: string) {
    Lower(cls) == "clock"
  }

  // ---------------------------------------------------------------------
  // Dict assignment
  // ---------------------------------------------------------------------

  /** `d[k] = v`: an existing key keeps its place, a new key goes last. */
  function Put(a: Assoc, k: string, v: string): Assoc
    decreases |a|
  {
    if |a| == 0 then [(k, v)]
    else if a[0].0 == k then [(k, v)] + a[1..]
    else [a[0]] + Put(a[1..], k, v)
  }

  /** After `d[k] = v`, `k` holds `v` and every other key holds what it held. */
  lemma {:induction false} PutLookup(a: Assoc, k: string, v: string, key: string)
    ensures Lookup(Put(a, k, v), key) == if key == k then Some(v) else Lookup(a, key)
    decreases |a|
  {
    if |a| > 0 && a[0].0 != k {
      PutLookup(a[1..], k, v, key);
      assert Put(a, k, v)[1..] == Put(a[1..], k, v);
    }
  }

  /** `d[k] = v` keeps the keys in their order, adding `k` at the end when it is new. */
  lemma {:induction false} PutKeys(a: Assoc, k: string, v: string)
    ensures k in KeysOf(a) ==> KeysOf(Put(a, k, v)) == KeysOf(a)
    ensures k !in KeysOf(a) ==> KeysOf(Put(a, k, v)) == KeysOf(a) + [k]
    decreases |a|
  {
    if |a| > 0 {
      KeysCons(a[0], a[1..]);
      assert [a[0]] + a[1..] == a;
      if a[0].0 != k {
        PutKeys(a[1..], k, v);
        KeysCons(a[0], Put(a[1..], k, v));
      } else {
        KeysCons((k, v), a[1..]);
      }
    }
  }

  lemma KeysCons(x: (string, string), rest: Assoc)
    ensures KeysOf([x] + rest) == [x.0] + KeysOf(rest)
  {
  }

  /** A dict's keys stay distinct under `d[k] = v`. */
  lemma PutUnique(a: Assoc, k: string, v: string)
    requires UniqueKeys(a)
    ensures UniqueKeys(Put(a, k, v))
  {
    PutKeys(a, k, v);
    var r := Put(a, k, v);
    forall i, j | 0 <= i < j < |r|
      ensures r[i].0 != r[j].0
    {
      assert KeysOf(r)[i] == r[i].0 && KeysOf(r)[j] == r[j].0;
      assert KeysOf(a) == seq(|a|, n requires 0 <= n < |a| => a[n].0);
    }
  }

  // ---------------------------------------------------------------------
  // load_metadata_csv
  // ---------------------------------------------------------------------

  /** Header `i` is the first whose lower-cased text contains `word`. */
  predicate FirstAt(headers: seq<string>, word: string, i: int) {
    0 <= i < |headers| && Contains(Lower(headers[i]), word) &&
    forall k :: 0 <= k < i ==> !Contains(Lower(headers[k]), word)
  }

  /** `next(h for h in headers if word in h.lower())`; `None` stands for `StopIteration`. */
  function FirstHeader(headers: seq<string>, word: string): (r: Option<string>)
    ensures r.None? <==> forall i :: 0 <= i < |headers| ==> !Contains(Lower(headers[i]), word)
    ensures r.Some? ==> exists i :: FirstAt(headers, word, i) && headers[i] == r.value
    decreases |headers|
  {
    if |headers| == 0 then None
    else if Contains(Lower(headers[0]), word) then Some(headers[0])
    else
      var r := FirstHeader(headers[1..], word);
      assert forall i :: 0 <= i < |headers| - 1 ==> headers[1..][i] == headers[i + 1];
      assert r.Some? ==> exists i :: FirstAt(headers, word, i) && headers[i] == r.value by {
        if r.Some? {
          var i :| FirstAt(headers[1..], word, i) && headers[1..][i] == r.value;
          assert FirstAt(headers, word, i + 1);
        }
      }
      r
  }

  /** One CSV row read through: the stripped signal name and class, or the missing cell. */
  function RowEntry(sc: string, cc: string): map<string, string> -> Option<(string, string)> {
    row => if sc in row && cc in row then Some((Strip(row[sc]), Strip(row[cc]))) else None
  }

  /** Every row read through, or `None` at the first row that cannot be. */
  function Entries<R, P>(rows: seq<R>, entry: R -> Option<P>): (r: Option<seq<P>>)
    ensures r.Some? <==> forall i :: 0 <= i < |rows| ==> entry(rows[i]).Some?
    ensures r.Some? ==> |r.value| == |rows| && forall i :: 0 <= i < |rows| ==> r.value[i] == entry(rows[i]).value
    decreases |rows|
  {
    if |rows| == 0 then Some([])
    else
      var n := |rows| - 1;
      var r := Entries(rows[..n], entry);
      assert forall i :: 0 <= i < n ==> rows[..n][i] == rows[i];
      match r
      case None => None
      case Some(ps) =>
        match entry(rows[n])
        case None => None
        case Some(p) => Some(ps + [p])
  }

  /** The loop body over one row with signal `sig` and class `cls`. */
  function Record(md: Metadata, sig: string, cls: string, isClock: string -> bool): Metadata {
    Metadata(Put(md.signals, sig, cls), if isClock(cls) then md.clocks + [sig] else md.clocks)
  }

  /** The metadata after the (signal, class) pairs in order. */
  function RecordAll(pairs: seq<(string, string)>, isClock: string -> bool): Metadata
    decreases |pairs|
  {
    if |pairs| == 0 then Metadata([], [])
    else
      var n := |pairs| - 1;
      Record(RecordAll(pairs[..n], isClock), pairs[n].0, pairs[n].1, isClock)
  }

  /**
   * `load_metadata_csv` on the lines after the skipped first line: the
   * header row and the rows as dicts keyed by it.  A row without a cell in
   * the signal or class column holds `None` in the source, whose `.strip()`
   * raises.
   */
  function MetadataFromCsv(header: seq<string>, rows: seq<map<string, string>>): Result<Metadata, string> {
    match FirstHeader(header, "signal")
    case None => Err("StopIteration")
    case Some(sc) =>
      match FirstHeader(header, "class")
      case None => Err("StopIteration")
      case Some(cc) =>
        match Entries(rows, RowEntry(sc, cc))
        case None => Err("AttributeError")
        case Some(pairs) => Ok(RecordAll(pairs, IsClockClass))
  }

  /** One more row read through. */
  lemma EntriesSnoc<R, P>(rows: seq<R>, i: nat, entry: R -> Option<P>, ps: seq<P>)
    requires i < |rows| && Entries(rows[..i], entry) == Some(ps)
    ensures entry(rows[i]).None? ==> Entries(rows, entry).None?
    ensures entry(rows[i]).Some? ==> Entries(rows[..i + 1], entry) == Some(ps + [entry(rows[i]).value])
  {
    TakeTake(rows, i);
  }

  /** One more pair recorded. */
  lemma RecordSnoc(pairs: seq<(string, string)>, p: (string, string), isClock: string -> bool)
    ensures RecordAll(pairs + [p], isClock) == Record(RecordAll(pairs, isClock), p.0, p.1, isClock)
  {
    assert (pairs + [p])[..|pairs|] == pairs;
  }

  /** The loop over the rows. */
  method LoadMetadataCsv(header: seq<string>, rows: seq<map<string, string>>) returns (r: Result<Metadata, string>)
    ensures r == MetadataFromCsv(header, rows)
  {
    var signalCol := FirstHeader(header, "signal");
    if signalCol.None? {
      return Err("StopIteration");
    }
    var classCol := FirstHeader(header, "class");
    if classCol.None? {
      return Err("StopIteration");
    }
    var sc, cc := signalCol.value, classCol.value;
    ghost var entry := RowEntry(sc, cc);
    ghost var pairs: seq<(string, string)> := [];
    var mapping: Assoc := [];
    var clockSignals: seq<string> := [];
    for i := 0 to |rows|
      invariant Entries(rows[..i], entry) == Some(pairs)
      invariant RecordAll(pairs, IsClockClass) == Metadata(mapping, clockSignals)
    {
      EntriesSnoc(rows, i, entry, pairs);
      var row := rows[i];
      if sc !in row || cc !in row {
        return Err("AttributeError");
      }
      var sig := Strip(row[sc]);
      var cls := Strip(row[cc]);
      RecordSnoc(pairs, (sig, cls), IsClockClass);
      pairs := pairs + [(sig, cls)];
      mapping := Put(mapping, sig, cls);
      if IsClockClass(cls) {
        clockSignals := clockSignals + [sig];
      }
    }
    TakeAll(rows);
    return Ok(Metadata(mapping, clockSignals));
  }

  /** Some pair names `s`. */
  predicate Named(pairs: seq<(string, string)>, s: string) {
    exists i :: 0 <= i < |pairs| && pairs[i].0 == s
  }

  /** The last pair naming `s` gives it class `c`. */
  predicate LastClass(pairs: seq<(string, string)>, s: string, c: string) {
    exists i :: 0 <= i < |pairs| && pairs[i] == (s, c) && NotNamedAfter(pairs, s, i)
  }

  predicate NotNamedAfter(pairs: seq<(string, string)>, s: string, i: nat) {
    forall j :: i < j < |pairs| ==> pairs[j].0 != s
  }

  /** Some pair gives `s` a clock class. */
  predicate ClockedSomewhere(pairs: seq<(string, string)>, s: string, isClock: string -> bool) {
    exists i :: 0 <= i < |pairs| && pairs[i].0 == s && isClock(pairs[i].1)
  }

  /** The recorded names are distinct. */
  lemma {:induction false} RecordAllUnique(pairs: seq<(string, string)>, isClock: string -> bool)
    ensures UniqueKeys(RecordAll(pairs, isClock).signals)
    decreases |pairs|
  {
    if |pairs| > 0 {
      var n := |pairs| - 1;
      RecordAllUnique(pairs[..n], isClock);
      PutUnique(RecordAll(pairs[..n], isClock).signals, pairs[n].0, pairs[n].1);
    }
  }

  lemma NamedSnoc(pairs: seq<(string, string)>, s: string)
    requires |pairs| > 0
    ensures Named(pairs, s) <==> Named(pairs[..|pairs| - 1], s) || pairs[|pairs| - 1].0 == s
  {
    var n := |pairs| - 1;
    if Named(pairs, s) && pairs[n].0 != s {
      var i :| 0 <= i < |pairs| && pairs[i].0 == s;
      assert pairs[..n][i].0 == s;
    }
  }

  /** A name is recorded exactly when some pair names it. */
  lemma {:induction false} RecordAllNamed(pairs: seq<(string, string)>, isClock: string -> bool, s: string)
    ensures Lookup(RecordAll(pairs, isClock).signals, s).None? <==> !Named(pairs, s)
    decreases |pairs|
  {
    if |pairs| > 0 {
      var n := |pairs| - 1;
      var pre := pairs[..n];
      RecordAllNamed(pre, isClock, s);
      PutLookup(RecordAll(pre, isClock).signals, pairs[n].0, pairs[n].1, s);
      NamedSnoc(pairs, s);
    }
  }

  lemma LastClassSnoc(pairs: seq<(string, string)>, s: string, c: string)
    requires |pairs| > 0 && pairs[|pairs| - 1].0 != s && LastClass(pairs[..|pairs| - 1], s, c)
    ensures LastClass(pairs, s, c)
  {
    var n := |pairs| - 1;
    var pre := pairs[..n];
    var i :| 0 <= i < n && pre[i] == (s, c) && NotNamedAfter(pre, s, i);
    forall j | i < j < |pairs|
      ensures pairs[j].0 != s
    {
      if j < n {
        assert pre[j] == pairs[j];
      }
    }
    assert pairs[i] == (s, c) && NotNamedAfter(pairs, s, i);
  }

  /** A name's class is the class of the last pair naming it. */
  lemma {:induction false} RecordAllLast(pairs: seq<(string, string)>, isClock: string -> bool, s: string)
    ensures Lookup(RecordAll(pairs, isClock).signals, s).Some? ==>
      LastClass(pairs, s, Lookup(RecordAll(pairs, isClock).signals, s).value)
    decreases |pairs|
  {
    if |pairs| > 0 {
      var n := |pairs| - 1;
      var pre := pairs[..n];
      var before := Lookup(RecordAll(pre, isClock).signals, s);
      var after := Lookup(RecordAll(pairs, isClock).signals, s);
      PutLookup(RecordAll(pre, isClock).signals, pairs[n].0, pairs[n].1, s);
      if pairs[n].0 == s {
        assert after == Some(pairs[n].1);
        assert NotNamedAfter(pairs, s, n);
      } else if after.Some? {
        assert before == after;
        RecordAllLast(pre, isClock, s);
        LastClassSnoc(pairs, s, after.value);
      }
    }
  }

  /** A name is a clock when any pair classifies it so, even if a later pair reclassifies it. */
  lemma {:induction false} RecordAllClocks(pairs: seq<(string, string)>, isClock: string -> bool, s: string)
    ensures s in RecordAll(pairs, isClock).clocks <==> ClockedSomewhere(pairs, s, isClock)
    decreases |pairs|
  {
    if |pairs| > 0 {
      var n := |pairs| - 1;
      var pre := pairs[..n];
      RecordAllClocks(pre, isClock, s);
      if ClockedSomewhere(pairs, s, isClock) && !(pairs[n].0 == s && isClock(pairs[n].1)) {
        var i :| 0 <= i < |pairs| && pairs[i].0 == s && isClock(pairs[i].1);
        assert pre[i] == pairs[i];
      }
    }
  }

  /** The pairs a successful CSV read records, one per row. */
  lemma CsvPairs(header: seq<string>, rows: seq<map<string, string>>)
    ensures MetadataFromCsv(header, rows).Ok? <==>
      (FirstHeader(header, "signal").Some? && FirstHeader(header, "class").Some? &&
       forall i :: 0 <= i < |rows| ==> FirstHeader(header, "signal").value in rows[i] && FirstHeader(header, "class").value in rows[i])
    ensures MetadataFromCsv(header, rows).Ok? ==>
      var sc, cc := FirstHeader(header, "signal").value, FirstHeader(header, "class").value;
      var pairs := Entries(rows, RowEntry(sc, cc)).value;
      MetadataFromCsv(header, rows).value == RecordAll(pairs, IsClockClass) &&
      |pairs| == |rows| &&
      forall i :: 0 <= i < |rows| ==> pairs[i] == (Strip(rows[i][sc]), Strip(rows[i][cc]))
  {
  }

  // ---------------------------------------------------------------------
  // load_metadata_json
  // ---------------------------------------------------------------------

  /** `[s for s, c in mapping.items() if c.lower() == "clock"]` */
  function ClockNames(signals: Assoc): (r: seq<string>)
    ensures forall s :: s in r <==> exists i :: 0 <= i < |signals| && signals[i].0 == s && IsClockClass(signals[i].1)
    decreases |signals|
  {
    if |signals| == 0 then []
    else
      var n := |signals| - 1;
      var r := ClockNames(signals[..n]);
      assert forall i :: 0 <= i < n ==> signals[..n][i] == signals[i];
      if IsClockClass(signals[n].1) then r + [signals[n].0] else r
  }

  /** `load_metadata_json` on the parsed document's "signals" entry, if any. */
  function MetadataFromJson(signals: Option<Assoc>): (md: Metadata)
    ensures signals.None? ==> md == Metadata([], [])
    ensures signals.Some? ==> md.signals == signals.value
    ensures forall s :: s in md.clocks ==> Lookup(md.signals, s).Some?
    ensures UniqueKeys(md.signals) ==> forall s :: s in md.clocks ==> IsClockClass(Lookup(md.signals, s).value)
  {
    var m := match signals case Some(a) => a case None => [];
    ClockNamesFirst(m);
    Metadata(m, ClockNames(m))
  }

  /** A listed clock's (first) entry is a clock class, when the keys are distinct as in a dict. */
  lemma ClockNamesFirst(signals: Assoc)
    ensures forall s :: s in ClockNames(signals) ==> Lookup(signals, s).Some?
    ensures UniqueKeys(signals) ==> forall s :: s in ClockNames(signals) ==> IsClockClass(Lookup(signals, s).value)
  {
    forall s | s in ClockNames(signals)
      ensures Lookup(signals, s).Some?
      ensures UniqueKeys(signals) ==> IsClockClass(Lookup(signals, s).value)
    {
      var i :| 0 <= i < |signals| && signals[i].0 == s && IsClockClass(signals[i].1);
      if UniqueKeys(signals) {
        var j :| 0 <= j < |signals| && signals[j] == (s, Lookup(signals, s).value);
        assert i == j;
      }
    }
  }

  // ---------------------------------------------------------------------
  // load_metadata
  // ---------------------------------------------------------------------

  /**
   * `load_metadata`: the extension, compared case-insensitively, picks the
   * reader; any other extension is a `ValueError`.  The file contents are
   * given already read: the CSV's header and rows and the JSON's "signals"
   * entry.
   */
  method LoadMetadata(path: string, header: seq<string>, rows: seq<map<string, string>>, json: Option<Assoc>)
    returns (r: Result<Metadata, string>)
    ensures EndsWith(Lower(path), ".csv") ==> r == MetadataFromCsv(header, rows)
    ensures !EndsWith(Lower(path), ".csv") && EndsWith(Lower(path), ".json") ==> r == Ok(MetadataFromJson(json))
    ensures !EndsWith(Lower(path), ".csv") && !EndsWith(Lower(path), ".json") ==> r == Err("Expected metadata as CSV or JSON")
  {
    if EndsWith(Lower(path), ".csv") {
      r := LoadMetadataCsv(header, rows);
    } else if EndsWith(Lower(path), ".json") {
      r := Ok(MetadataFromJson(json));
    } else {
      r := Err("Expected metadata as CSV or JSON");
    }
  }
}
