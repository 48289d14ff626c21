/**
 * `build_table`: the mapped table written for one waveform.  Every
 * metadata signal becomes a column holding, row by row, the value of the
 * waveform column matched to it; a value missing from the waveform is
 * filled from a connected signal's column when connectivity is known.  The
 * table starts with a class row and a header row.
 */
module MappingTable {

  import opened Base
  import opened Text
  import opened MappingNames
  import opened MappingConnect
  import opened MappingMatch
  import opened MappingMetadata
  import opened MergeTables
  import opened RtlSystem

  // ---------------------------------------------------------------------
  // Searches over the signal map
  // ---------------------------------------------------------------------

  /**
   * The first column from `j` on that is mapped to a metadata name
   * satisfying `p`.  The signal map was filled column by column, so its
   * insertion order is the order of the row's columns.
   */
  function FirstMappedFrom(sm: map<string, string>, cols: seq<string>, p: string -> bool, j: nat): (r: Option<string>)
    ensures r.Some? ==> r.value in cols && r.value in sm && p(sm[r.value])
    ensures r.None? <==> forall k :: j <= k < |cols| && cols[k] in sm ==> !p(sm[cols[k]])
    decreases |cols| - j
  {
    if j >= |cols| then None
    else if cols[j] in sm && p(sm[cols[j]]) then Some(cols[j])
    else FirstMappedFrom(sm, cols, p, j + 1)
  }

  /** The first of the earliest columns is found when it qualifies. */
  lemma {:induction false} FirstMappedFirst(sm: map<string, string>, cols: seq<string>, p: string -> bool, j: nat, k: nat)
    requires j <= k < |cols| && cols[k] in sm && p(sm[cols[k]])
    requires forall i :: j <= i < k ==> !(cols[i] in sm && p(sm[cols[i]]))
    ensures FirstMappedFrom(sm, cols, p, j) == Some(cols[k])
    decreases k - j
  {
    if j < k {
      FirstMappedFirst(sm, cols, p, j + 1, k);
    }
  }

  function IsIn(names: seq<string>): string -> bool {
    m => m in names
  }

  function IsName(name: string): string -> bool {
    m => m == name
  }

  /** `clock_column`: the metadata name of the first mapped column that is a clock. */
  function ClockColumn(sm: map<string, string>, cols: seq<string>, clocks: seq<string>): (r: Option<string>)
    ensures r.Some? ==> r.value in clocks && exists w :: w in cols && w in sm && sm[w] == r.value
    ensures r.None? <==> forall k :: 0 <= k < |cols| && cols[k] in sm ==> sm[cols[k]] !in clocks
  {
    match FirstMappedFrom(sm, cols, IsIn(clocks), 0)
    case Some(w) => Some(sm[w])
    case None => None
  }

  /** The loop over the signal map that stops at the first clock. */
  method FindClockColumn(sm: map<string, string>, cols: seq<string>, clocks: seq<string>) returns (clock: Option<string>)
    ensures clock == ClockColumn(sm, cols, clocks)
  {
    for j := 0 to |cols|
      invariant FirstMappedFrom(sm, cols, IsIn(clocks), j) == FirstMappedFrom(sm, cols, IsIn(clocks), 0)
    {
      var wf := cols[j];
      if wf in sm && sm[wf] in clocks {
        return Some(sm[wf]);
      }
    }
    return None;
  }

  /** `next((k for k, v in signal_map.items() if v == meta), None)` */
  function ColumnFor(sm: map<string, string>, cols: seq<string>, meta: string): (r: Option<string>)
    ensures r.Some? ==> r.value in cols && r.value in sm && sm[r.value] == meta
    ensures r.None? <==> forall k :: 0 <= k < |cols| && cols[k] in sm ==> sm[cols[k]] != meta
  {
    FirstMappedFrom(sm, cols, IsName(meta), 0)
  }

  // ---------------------------------------------------------------------
  // One output row
  // ---------------------------------------------------------------------

  /** `row.get(k, "")` */
  function Get(row: Assoc, k: string): string {
    match Lookup(row, k)
    case Some(v) => v
    case None => ""
  }

  /** `next(c for c in row.keys() if c.startswith("time_"))`; `None` stands for `StopIteration`. */
  function TimeColumn(row: Assoc): (r: Option<string>)
    ensures r.Some? ==> StartsWith(r.value, "time_") && r.value in KeysOf(row)
    ensures r.None? <==> forall i :: 0 <= i < |row| ==> !StartsWith(row[i].0, "time_")
    decreases |row|
  {
    if |row| == 0 then None
    else if StartsWith(row[0].0, "time_") then Some(row[0].0)
    else
      var r := TimeColumn(row[1..]);
      assert forall i :: 0 <= i < |row| - 1 ==> row[1..][i] == row[i + 1];
      assert r.Some? ==> KeysOf(row) == [row[0].0] + KeysOf(row[1..]);
      r
  }

  /** A metadata signal's own value: `row.get(wf_sig, "") if wf_sig else ""`. */
  function OwnValue(row: Assoc, wf: Option<string>): string {
    match wf
    case Some(w) => if w != "" then Get(row, w) else ""
    case None => ""
  }

  /**
   * The value after the connectivity fill: an empty value, when there is
   * connectivity, is replaced by the value of the first connected column
   * found, unless that one is empty too.
   */
  function Filled(meta: string, value: string, row: Assoc, cm: ConnMap): string {
    if IsEmptyValue(value) && |cm| > 0 then
      match FindConnectedSignal(meta, KeysOf(row), cm)
      case Some(found) =>
        if found.0 != "" && !IsEmptyValue(Get(row, found.0)) then Get(row, found.0) else value
      case None => value
    else value
  }

  /**
   * A value of its own is never replaced; without connectivity nothing is
   * filled; a replaced value is the non-empty value of the connected column
   * found first, and such a value always replaces an empty one.
   */
  lemma FillMeaning(meta: string, value: string, row: Assoc, cm: ConnMap)
    ensures !IsEmptyValue(value) ==> Filled(meta, value, row, cm) == value
    ensures |cm| == 0 ==> Filled(meta, value, row, cm) == value
    ensures Filled(meta, value, row, cm) != value ==>
      IsEmptyValue(value) && FindConnectedSignal(meta, KeysOf(row), cm).Some? &&
      var name := FindConnectedSignal(meta, KeysOf(row), cm).value.0;
      name in KeysOf(row) && Filled(meta, value, row, cm) == Get(row, name) && !IsEmptyValue(Get(row, name))
    ensures (IsEmptyValue(value) && |cm| > 0 && FindConnectedSignal(meta, KeysOf(row), cm).Some? &&
               FindConnectedSignal(meta, KeysOf(row), cm).value.0 != "" &&
               !IsEmptyValue(Get(row, FindConnectedSignal(meta, KeysOf(row), cm).value.0))) ==>
      Filled(meta, value, row, cm) == Get(row, FindConnectedSignal(meta, KeysOf(row), cm).value.0)
  {
  }

  /** What `build_table` has settled before it reads the rows. */
  datatype Plan = Plan(sm: map<string, string>, cols: seq<string>, cm: ConnMap, clock: Option<string>)

  /** `if clock_column:` */
  predicate Truthy(clock: Option<string>) {
    clock.Some? && clock.value != ""
  }

  /** The value of metadata signal `meta` in the output row for `row`. */
  function CellsOf(plan: Plan): Assoc -> string -> string {
    row => meta => Filled(meta, OwnValue(row, ColumnFor(plan.sm, plan.cols, meta)), row, plan.cm)
  }

  /** The clock's value: `row.get(wf_sig, "")` with the first column mapped to the clock. */
  function ClockValue(plan: Plan, row: Assoc): string {
    if !Truthy(plan.clock) then ""
    else
      match ColumnFor(plan.sm, plan.cols, plan.clock.value)
      case Some(w) => Get(row, w)
      case None => ""
  }

  function ClockCell(plan: Plan): Assoc -> string {
    row => ClockValue(plan, row)
  }

  /** `e[k] = f(k)` for each `k` of `keys` in order, except `skip`. */
  function Assign(base: map<string, string>, keys: seq<string>, skip: Option<string>, f: string -> string): map<string, string>
    decreases |keys|
  {
    if |keys| == 0 then base
    else
      var n := |keys| - 1;
      var m := Assign(base, keys[..n], skip, f);
      if skip == Some(keys[n]) then m else m[keys[n] := f(keys[n])]
  }

  /** Every assigned key holds its value; everything else is as it was. */
  lemma {:induction false} AssignMembers(base: map<string, string>, keys: seq<string>, skip: Option<string>, f: string -> string, k: string)
    ensures k in Assign(base, keys, skip, f) <==> k in base || (k in keys && skip != Some(k))
    ensures k in keys && skip != Some(k) ==> Assign(base, keys, skip, f)[k] == f(k)
    ensures !(k in keys && skip != Some(k)) && k in base ==> Assign(base, keys, skip, f)[k] == base[k]
    decreases |keys|
  {
    if |keys| > 0 {
      var n := |keys| - 1;
      AssignMembers(base, keys[..n], skip, f, k);
      assert k in keys <==> k in keys[..n] || k == keys[n];
    }
  }

  lemma AssignSnoc(base: map<string, string>, keys: seq<string>, j: nat, skip: Option<string>, f: string -> string)
    requires j < |keys|
    ensures Assign(base, keys[..j + 1], skip, f) ==
      if skip == Some(keys[j]) then Assign(base, keys[..j], skip, f) else Assign(base, keys[..j], skip, f)[keys[j] := f(keys[j])]
  {
    TakeTake(keys, j);
  }

  /** The entries before the metadata loop: the time column and the clock. */
  function Start(clock: Option<string>, clockValue: string, row: Assoc, tc: string): map<string, string> {
    var e := map[tc := Get(row, tc)];
    if Truthy(clock) then e[clock.value := clockValue] else e
  }

  /**
   * The output row for one waveform row: its time column and the dict `e`,
   * or `None` when the row has no time column.  `cells` gives each
   * metadata signal's value in a row and `clockCell` the clock's.
   */
  function RowOut(clock: Option<string>, metas: seq<string>, cells: Assoc -> string -> string, clockCell: Assoc -> string, row: Assoc)
    : Option<(string, map<string, string>)>
  {
    match TimeColumn(row)
    case None => None
    case Some(tc) => Some((tc, Assign(Start(clock, clockCell(row), row, tc), metas, clock, cells(row))))
  }

  function OutRow(clock: Option<string>, metas: seq<string>, cells: Assoc -> string -> string, clockCell: Assoc -> string)
    : Assoc -> Option<(string, map<string, string>)>
  {
    row => RowOut(clock, metas, cells, clockCell, row)
  }

  /** One metadata signal's value, as the loop body computes it. */
  method FillCell(plan: Plan, row: Assoc, meta: string) returns (value: string)
    ensures value == Filled(meta, OwnValue(row, ColumnFor(plan.sm, plan.cols, meta)), row, plan.cm)
  {
    var wf := ColumnFor(plan.sm, plan.cols, meta);
    value := if wf.Some? && wf.value != "" then Get(row, wf.value) else "";
    assert value == OwnValue(row, wf);
    value := ConnectFill(meta, value, row, plan.cm);
  }

  /** An empty value, when there is connectivity, taken from the first connected column found. */
  method ConnectFill(meta: string, own: string, row: Assoc, cm: ConnMap) returns (value: string)
    ensures value == Filled(meta, own, row, cm)
  {
    value := own;
    if IsEmptyValue(value) && |cm| > 0 {
      var found := FindConnectedSignal(meta, KeysOf(row), cm);
      if found.Some? && found.value.0 != "" {
        var connectedValue := Get(row, found.value.0);
        if !IsEmptyValue(connectedValue) {
          value := connectedValue;
        }
      }
    }
  }

  /** The body of the loop over the metadata signals: the value of `metas[k]`, unless it is the clock. */
  method AssignCell(plan: Plan, row: Assoc, metas: seq<string>, k: nat, ghost start: map<string, string>, e: map<string, string>)
    returns (e': map<string, string>)
    requires k < |metas| && e == Assign(start, metas[..k], plan.clock, CellsOf(plan)(row))
    ensures e' == Assign(start, metas[..k + 1], plan.clock, CellsOf(plan)(row))
  {
    AssignSnoc(start, metas, k, plan.clock, CellsOf(plan)(row));
    var meta := metas[k];
    if plan.clock == Some(meta) {
      return e;
    }
    var value := FillCell(plan, row, meta);
    CellsOfMeaning(plan, row, meta);
    e' := e[meta := value];
  }

  /** The time column's value, then the clock's. */
  method StartRow(plan: Plan, row: Assoc, tc: string) returns (e: map<string, string>)
    ensures e == Start(plan.clock, ClockCell(plan)(row), row, tc)
  {
    e := map[tc := Get(row, tc)];
    if plan.clock.Some? && plan.clock.value != "" {
      var wf := ColumnFor(plan.sm, plan.cols, plan.clock.value);
      e := e[plan.clock.value := if wf.Some? then Get(row, wf.value) else ""];
    }
  }

  /** The loop over the metadata signals. */
  method AssignCells(plan: Plan, row: Assoc, metas: seq<string>, start: map<string, string>) returns (e: map<string, string>)
    ensures e == Assign(start, metas, plan.clock, CellsOf(plan)(row))
  {
    TakeAll(metas);
    e := start;
    for k := 0 to |metas|
      invariant e == Assign(start, metas[..k], plan.clock, CellsOf(plan)(row))
    {
      e := AssignCell(plan, row, metas, k, start, e);
    }
  }

  /** The body of the loop over the waveform rows. */
  method BuildRow(plan: Plan, metas: seq<string>, row: Assoc) returns (out: Option<(string, map<string, string>)>)
    ensures out == RowOut(plan.clock, metas, CellsOf(plan), ClockCell(plan), row)
  {
    var timeCol := TimeColumn(row);
    if timeCol.None? {
      return None;
    }
    var tc := timeCol.value;
    var e := StartRow(plan, row, tc);
    e := AssignCells(plan, row, metas, e);
    return Some((tc, e));
  }

  /** The loop over the waveform rows; `None` when a row has no time column. */
  method BuildRows(plan: Plan, metas: seq<string>, waveform: seq<Assoc>) returns (rows: Option<seq<(string, map<string, string>)>>)
    ensures rows == Entries(waveform, OutRow(plan.clock, metas, CellsOf(plan), ClockCell(plan)))
  {
    ghost var out := OutRow(plan.clock, metas, CellsOf(plan), ClockCell(plan));
    var acc: seq<(string, map<string, string>)> := [];
    for i := 0 to |waveform|
      invariant Entries(waveform[..i], out) == Some(acc)
    {
      EntriesSnoc(waveform, i, out, acc);
      var e := BuildRow(plan, metas, waveform[i]);
      if e.None? {
        return None;
      }
      acc := acc + [e.value];
    }
    TakeAll(waveform);
    return Some(acc);
  }

  // ---------------------------------------------------------------------
  // The table
  // ---------------------------------------------------------------------

  /** `[s for s in xs if s not in ex]` */
  function Keep(xs: seq<string>, ex: seq<string>): (r: seq<string>)
    ensures forall x :: x in r <==> x in xs && x !in ex
    ensures NoDup(xs) ==> NoDup(r)
    decreases |xs|
  {
    if |xs| == 0 then []
    else
      var n := |xs| - 1;
      var r := Keep(xs[..n], ex);
      assert forall x :: x in xs <==> x in xs[..n] || x == xs[n];
      if xs[n] in ex then r else r + [xs[n]]
  }

  /**
   * `Keep` is the filter that keeps the entries of `xs` not in `ex`, in the
   * order of `xs`: it selects `xs` at the increasing positions `KeepIndices`
   * finds.
   */
  lemma {:induction false} KeepSelects(xs: seq<string>, ex: seq<string>)
    ensures Keep(xs, ex) == Select(xs, KeepIndices(ex, xs))
    decreases |xs|
  {
    if |xs| > 0 {
      var n := |xs| - 1;
      KeepSelects(xs[..n], ex);
      var prev := KeepIndices(ex, xs[..n]);
      assert Select(xs[..n], prev) == Select(xs, prev);
    }
  }

  /** The number of leading columns `ordered` starts with: the time column and a truthy clock. */
  function HeadWidth(clock: Option<string>): nat {
    if Truthy(clock) then 2 else 1
  }

  /** `ordered`: the time column, the clock when it is truthy, then the other metadata signals. */
  function Ordered(tc: string, clock: Option<string>, metas: seq<string>): (r: seq<string>)
    ensures |r| > 0 && r[0] == tc
    ensures forall m :: m in metas ==> m in r
  {
    var head := [tc] + if Truthy(clock) then [clock.value] else [];
    head + Keep(metas, head)
  }

  /** The columns `ordered` starts with: the time column, and the clock when it is truthy. */
  function OrderedHead(tc: string, clock: Option<string>): (head: seq<string>)
    ensures |head| == HeadWidth(clock) && head[0] == tc
    ensures Truthy(clock) ==> head[1] == clock.value
  {
    [tc] + if Truthy(clock) then [clock.value] else []
  }

  /**
   * `ordered` is its leading columns followed by the metadata signals kept
   * after them; a truthy clock is the second column.
   */
  lemma OrderedSplit(tc: string, clock: Option<string>, metas: seq<string>)
    ensures var r, h := Ordered(tc, clock, metas), HeadWidth(clock);
      |r| >= h && r[..h] == OrderedHead(tc, clock) && r[h..] == Keep(metas, OrderedHead(tc, clock)) &&
      (Truthy(clock) ==> r[1] == clock.value)
  {
    var r, head := Ordered(tc, clock, metas), OrderedHead(tc, clock);
    assert r == head + Keep(metas, head);
  }

  /**
   * After the time column and a truthy clock, `ordered` lists the metadata
   * signals that are neither of those, in metadata order.
   */
  lemma OrderedRest(tc: string, clock: Option<string>, metas: seq<string>)
    ensures var r, h := Ordered(tc, clock, metas), HeadWidth(clock);
      |r| >= h && r[h..] == Select(metas, KeepIndices(r[..h], metas)) &&
      forall c :: c in r[h..] <==> c in metas && c != tc && !(Truthy(clock) && c == clock.value)
  {
    OrderedSplit(tc, clock, metas);
    KeepSelects(metas, OrderedHead(tc, clock));
  }

  /** `ordered` holds the time column, a truthy clock and the metadata signals, and nothing else. */
  lemma OrderedMembers(tc: string, clock: Option<string>, metas: seq<string>)
    ensures forall c :: c in Ordered(tc, clock, metas) <==> c == tc || (Truthy(clock) && c == clock.value) || c in metas
  {
    var r, head := Ordered(tc, clock, metas), OrderedHead(tc, clock);
    assert r == head + Keep(metas, head);
  }

  /** The columns repeat nothing when the metadata signals do not repeat and the clock is not the time column. */
  lemma OrderedNoDup(tc: string, clock: Option<string>, metas: seq<string>)
    requires NoDup(metas) && (Truthy(clock) ==> clock.value != tc)
    ensures NoDup(Ordered(tc, clock, metas))
  {
    var r, h, head := Ordered(tc, clock, metas), HeadWidth(clock), OrderedHead(tc, clock);
    var rest := Keep(metas, head);
    OrderedSplit(tc, clock, metas);
    assert r == head + rest;
    forall i, j | 0 <= i < j < |r| ensures r[i] != r[j] {
      if j >= h {
        assert r[j] == rest[j - h] && r[j] in rest;
        if i < h {
          assert r[i] in head;
        } else {
          assert r[i] == rest[i - h];
        }
      }
    }
  }

  /** `metadata_map.get(col, "other")` */
  function ClassOfSignal(signals: Assoc, col: string): string {
    match Lookup(signals, col)
    case Some(c) => c
    case None => "other"
  }

  /** The class row's entry for one column. */
  function ClassFor(tc: string, clock: Option<string>, signals: Assoc, col: string): string {
    if col == tc then "" else if clock == Some(col) then "clock" else ClassOfSignal(signals, col)
  }

  /** The loop that builds `class_row`. */
  method BuildClassRow(tc: string, clock: Option<string>, signals: Assoc, header: seq<string>) returns (classRow: seq<string>)
    ensures |classRow| == |header|
    ensures forall j :: 0 <= j < |header| ==> classRow[j] == ClassFor(tc, clock, signals, header[j])
  {
    classRow := [];
    for j := 0 to |header|
      invariant |classRow| == j
      invariant forall k :: 0 <= k < j ==> classRow[k] == ClassFor(tc, clock, signals, header[k])
    {
      var col := header[j];
      if col == tc {
        classRow := classRow + [""];
      } else if clock == Some(col) {
        classRow := classRow + ["clock"];
      } else {
        classRow := classRow + [ClassOfSignal(signals, col)];
      }
    }
  }

  /** `df[ordered]` fails when a column is in none of the output rows. */
  predicate Missing(rows: seq<(string, map<string, string>)>, col: string) {
    forall i :: 0 <= i < |rows| ==> col !in rows[i].1
  }

  /** A cell absent from an output row is pandas' NaN, written as "nan". */
  function Cell(e: map<string, string>, col: string): string {
    GetOr(e, col, "nan")
  }

  /** The written table, from the output rows of a non-empty waveform. */
  function TableFrom(rows: seq<(string, map<string, string>)>, clock: Option<string>, metas: seq<string>, signals: Assoc): Result<Table, string>
    requires |rows| > 0
  {
    var tc := rows[|rows| - 1].0;
    var header := Ordered(tc, clock, metas);
    if exists j :: 0 <= j < |header| && Missing(rows, header[j]) then Err("KeyError")
    else
      Ok(Table(
        seq(|header|, j requires 0 <= j < |header| => ClassFor(tc, clock, signals, header[j])),
        header,
        seq(|rows|, i requires 0 <= i < |rows| => seq(|header|, j requires 0 <= j < |header| => Cell(rows[i].1, header[j])))))
  }

  /** The plan for a metadata set, the first waveform row's columns and the connections. */
  function PlanFor(md: Metadata, cols: seq<string>, conns: seq<Connection>): Plan {
    var sm := WaveformMapping(KeysOf(md.signals), cols);
    Plan(sm, cols, ConnectionMap(conns), ClockColumn(sm, cols, md.clocks))
  }

  /** The table for a non-empty waveform, from its output rows. */
  function TableOf(clock: Option<string>, metas: seq<string>, cells: Assoc -> string -> string, clockCell: Assoc -> string,
                   signals: Assoc, waveform: seq<Assoc>): Result<Table, string>
    requires |waveform| > 0
  {
    match Entries(waveform, OutRow(clock, metas, cells, clockCell))
    case None => Err("StopIteration")
    case Some(rows) => TableFrom(rows, clock, metas, signals)
  }

  /**
   * `build_table` up to writing the file.  An empty waveform fails at
   * `waveform[0]`; a row without a time column fails in `next`; a column
   * that no output row has fails at `df[ordered]`.  No connectivity is the
   * empty connection list.
   */
  function BuildTableSpec(md: Metadata, waveform: seq<Assoc>, conns: seq<Connection>): Result<Table, string> {
    if |waveform| == 0 then Err("IndexError")
    else PlanTable(PlanFor(md, KeysOf(waveform[0]), conns), md, waveform)
  }

  /** The table `build_table` writes for a non-empty waveform once its plan is made. */
  function PlanTable(plan: Plan, md: Metadata, waveform: seq<Assoc>): Result<Table, string>
    requires |waveform| > 0
  {
    TableOf(plan.clock, KeysOf(md.signals), CellsOf(plan), ClockCell(plan), md.signals, waveform)
  }

  /** Checks `df[ordered]` and writes the class row, the header and the data. */
  method MakeTable(rows: seq<(string, map<string, string>)>, clock: Option<string>, metas: seq<string>, signals: Assoc)
    returns (r: Result<Table, string>)
    requires |rows| > 0
    ensures r == TableFrom(rows, clock, metas, signals)
  {
    var tc := rows[|rows| - 1].0;
    var header := Ordered(tc, clock, metas);
    if exists j :: 0 <= j < |header| && Missing(rows, header[j]) {
      return Err("KeyError");
    }
    var classRow := BuildClassRow(tc, clock, signals, header);
    assert classRow == seq(|header|, j requires 0 <= j < |header| => ClassFor(tc, clock, signals, header[j]));
    var data := seq(|rows|, i requires 0 <= i < |rows| => seq(|header|, j requires 0 <= j < |header| => Cell(rows[i].1, header[j])));
    return Ok(Table(classRow, header, data));
  }

  /** `build_table(metadata_map, clock_signals, waveform, output_path, connectivity)` */
  method BuildTable(md: Metadata, waveform: seq<Assoc>, conns: seq<Connection>) returns (r: Result<Table, string>)
    ensures r == BuildTableSpec(md, waveform, conns)
  {
    if |waveform| == 0 {
      return Err("IndexError");
    }
    var metas := KeysOf(md.signals);
    var cols := KeysOf(waveform[0]);
    var sm := MatchWaveformSignals(cols, metas);
    var cm := BuildConnectionMap(conns);
    var clock := FindClockColumn(sm, cols, md.clocks);
    var plan := Plan(sm, cols, cm, clock);
    assert plan == PlanFor(md, cols, conns);
    var rows := BuildRows(plan, metas, waveform);
    if rows.None? {
      return Err("StopIteration");
    }
    r := MakeTable(rows.value, plan.clock, metas, md.signals);
  }

  // ---------------------------------------------------------------------
  // Properties of the table
  // ---------------------------------------------------------------------

  /** The clock's column name when there is a clock column. */
  function ClockKey(clock: Option<string>): (r: Option<string>)
    ensures r.Some? <==> Truthy(clock)
    ensures r.Some? ==> r == clock
  {
    if Truthy(clock) then clock else None
  }

  /** The keys of an output row: its time column, the clock if any, and every metadata signal but the clock. */
  ghost predicate KeysAre(e: map<string, string>, tc: string, clock: Option<string>, metas: seq<string>) {
    forall k :: k in e <==> k == tc || ClockKey(clock) == Some(k) || (k in metas && clock != Some(k))
  }

  /** The keys after assigning `keys`, from a start holding `tc` and possibly one more key. */
  lemma AssignKeys(base: map<string, string>, keys: seq<string>, skip: Option<string>, f: string -> string,
                   tc: string, extra: Option<string>)
    requires forall k :: k in base <==> k == tc || extra == Some(k)
    ensures forall k :: k in Assign(base, keys, skip, f) <==> k == tc || extra == Some(k) || (k in keys && skip != Some(k))
  {
    forall k {
      AssignMembers(base, keys, skip, f, k);
    }
  }

  /**
   * What an output row holds: the row's own time column, the keys of
   * `KeysAre`, each metadata signal other than the clock with its cell
   * value, and the clock with the clock's value.
   */
  ghost predicate RowFacts(clock: Option<string>, metas: seq<string>, cells: Assoc -> string -> string, clockCell: Assoc -> string,
                           row: Assoc, r: (string, map<string, string>)) {
    TimeColumn(row) == Some(r.0) && StartsWith(r.0, "time_") && r.0 != "" &&
    KeysAre(r.1, r.0, clock, metas) &&
    (forall k :: k in metas && clock != Some(k) ==> r.1[k] == cells(row)(k)) &&
    (Truthy(clock) ==> r.1[clock.value] == clockCell(row))
  }

  /** An assigned row's entry for a metadata signal other than the clock, and for the clock. */
  lemma AssignedCells(clock: Option<string>, clockValue: string, metas: seq<string>, row: Assoc, tc: string, f: string -> string, k: string)
    ensures k in metas && clock != Some(k) ==>
      k in Assign(Start(clock, clockValue, row, tc), metas, clock, f) &&
      Assign(Start(clock, clockValue, row, tc), metas, clock, f)[k] == f(k)
    ensures Truthy(clock) && k == clock.value ==>
      k in Assign(Start(clock, clockValue, row, tc), metas, clock, f) &&
      Assign(Start(clock, clockValue, row, tc), metas, clock, f)[k] == clockValue
  {
    AssignMembers(Start(clock, clockValue, row, tc), metas, clock, f, k);
  }

  /** The keys and values of an assigned row. */
  lemma AssignedFacts(clock: Option<string>, clockValue: string, metas: seq<string>, row: Assoc, tc: string, f: string -> string)
    ensures var e := Assign(Start(clock, clockValue, row, tc), metas, clock, f);
      KeysAre(e, tc, clock, metas) &&
      (forall k :: k in metas && clock != Some(k) ==> e[k] == f(k)) &&
      (Truthy(clock) ==> e[clock.value] == clockValue)
  {
    var start := Start(clock, clockValue, row, tc);
    assert forall k :: k in start <==> k == tc || ClockKey(clock) == Some(k);
    AssignKeys(start, metas, clock, f, tc, ClockKey(clock));
    forall k | k in metas && clock != Some(k)
      ensures Assign(start, metas, clock, f)[k] == f(k)
    {
      AssignedCells(clock, clockValue, metas, row, tc, f, k);
    }
    if Truthy(clock) {
      AssignedCells(clock, clockValue, metas, row, tc, f, clock.value);
    }
  }

  /** A row has an output row exactly when it has a time column, and the output row holds what `RowFacts` says. */
  lemma RowOutFacts(clock: Option<string>, metas: seq<string>, cells: Assoc -> string -> string, clockCell: Assoc -> string, row: Assoc)
    ensures RowOut(clock, metas, cells, clockCell, row).Some? <==> TimeColumn(row).Some?
    ensures RowOut(clock, metas, cells, clockCell, row).Some? ==>
      RowFacts(clock, metas, cells, clockCell, row, RowOut(clock, metas, cells, clockCell, row).value)
  {
    if TimeColumn(row).Some? {
      var tc := TimeColumn(row).value;
      AssignedFacts(clock, clockCell(row), metas, row, tc, cells(row));
    }
  }

  /**
   * There is one output row per waveform row, holding what `RowFacts`
   * says, exactly when every waveform row has a time column.
   */
  lemma RowsMeaning(clock: Option<string>, metas: seq<string>, cells: Assoc -> string -> string, clockCell: Assoc -> string, waveform: seq<Assoc>)
    ensures Entries(waveform, OutRow(clock, metas, cells, clockCell)).None? <==>
      exists i :: 0 <= i < |waveform| && TimeColumn(waveform[i]).None?
    ensures Entries(waveform, OutRow(clock, metas, cells, clockCell)).Some? ==>
      var rows := Entries(waveform, OutRow(clock, metas, cells, clockCell)).value;
      |rows| == |waveform| && forall i :: 0 <= i < |rows| ==> RowFacts(clock, metas, cells, clockCell, waveform[i], rows[i])
  {
    var out := OutRow(clock, metas, cells, clockCell);
    forall i | 0 <= i < |waveform|
      ensures out(waveform[i]).Some? <==> TimeColumn(waveform[i]).Some?
      ensures out(waveform[i]).Some? ==> RowFacts(clock, metas, cells, clockCell, waveform[i], out(waveform[i]).value)
    {
      RowOutFacts(clock, metas, cells, clockCell, waveform[i]);
    }
  }

  /**
   * Selecting the columns fails exactly when the clock's metadata name is
   * the empty string: that name is then neither written as the clock nor
   * as an ordinary signal.
   */
  lemma {:induction false} TableFromErrors(rows: seq<(string, map<string, string>)>, clock: Option<string>, metas: seq<string>, signals: Assoc)
    requires |rows| > 0
    requires forall i :: 0 <= i < |rows| ==> rows[i].0 != "" && KeysAre(rows[i].1, rows[i].0, clock, metas)
    ensures TableFrom(rows, clock, metas, signals).Err? <==> clock == Some("") && "" in metas
  {
    var tc := rows[|rows| - 1].0;
    var header := Ordered(tc, clock, metas);
    var head := OrderedHead(tc, clock);
    assert header == head + Keep(metas, head);
    if clock == Some("") && "" in metas {
      assert "" in header;
      var j :| 0 <= j < |header| && header[j] == "";
      assert Missing(rows, header[j]);
    } else {
      forall j | 0 <= j < |header|
        ensures header[j] in rows[|rows| - 1].1
      {
        if j >= |head| {
          assert header[j] in Keep(metas, head);
        }
      }
    }
  }

  /** The clock chosen is a metadata signal listed as a clock. */
  lemma PlanClock(md: Metadata, cols: seq<string>, conns: seq<Connection>)
    ensures PlanFor(md, cols, conns).clock.Some? ==>
      PlanFor(md, cols, conns).clock.value in KeysOf(md.signals) && PlanFor(md, cols, conns).clock.value in md.clocks
  {
    var plan := PlanFor(md, cols, conns);
    if plan.clock.Some? {
      var w :| w in cols && w in plan.sm && plan.sm[w] == plan.clock.value;
      MatchedAreMetadata(KeysOf(md.signals), cols, w);
    }
  }

  /**
   * A table's shape: one data row per waveform row, every row as wide as
   * the header; the header starts with a time column whose class is empty,
   * holds every metadata signal, and is `ordered` for that time column; the
   * class row gives every column its class.
   */
  ghost predicate Shaped(t: Table, waveform: seq<Assoc>, clock: Option<string>, metas: seq<string>, signals: Assoc) {
    |t.data| == |waveform| && |t.classRow| == |t.header| &&
    (forall i :: 0 <= i < |t.data| ==> |t.data[i]| == |t.header|) &&
    |t.header| > 0 && StartsWith(t.header[0], "time_") && t.classRow[0] == "" &&
    (forall m :: m in metas ==> m in t.header) &&
    t.header == Ordered(t.header[0], clock, metas) &&
    forall j :: 0 <= j < |t.header| ==> t.classRow[j] == ClassFor(t.header[0], clock, signals, t.header[j])
  }

  /**
   * Cell `(i, j)` of a table holds `value` when its column is a metadata
   * signal other than the clock, and `clockValue` when it is the clock.
   */
  predicate CellIs(t: Table, i: nat, j: nat, clock: Option<string>, metas: seq<string>, value: string, clockValue: string) {
    j < |t.header| && i < |t.data| && j < |t.data[i]| &&
    (t.header[j] in metas && clock != Some(t.header[j]) ==> t.data[i][j] == value) &&
    (Truthy(clock) && t.header[j] == clock.value ==> t.data[i][j] == clockValue)
  }

  /** Some waveform row has no time column. */
  predicate Untimed(waveform: seq<Assoc>) {
    exists i :: 0 <= i < |waveform| && TimeColumn(waveform[i]).None?
  }

  /**
   * The table fails exactly when a row has no time column, or when the
   * clock is the empty signal name and a metadata signal.
   */
  lemma TableErrors(clock: Option<string>, metas: seq<string>, cells: Assoc -> string -> string, clockCell: Assoc -> string,
                    signals: Assoc, waveform: seq<Assoc>)
    requires |waveform| > 0
    ensures TableOf(clock, metas, cells, clockCell, signals, waveform).Err? <==> Untimed(waveform) || (clock == Some("") && "" in metas)
  {
    RowsMeaning(clock, metas, cells, clockCell, waveform);
    var e := Entries(waveform, OutRow(clock, metas, cells, clockCell));
    if e.Some? {
      TableFromErrors(e.value, clock, metas, signals);
    }
  }

  /**
   * A table has one data row per waveform row, every row as wide as the
   * header; the header is `ordered` for a time column whose class is empty,
   * and the class row gives every column its class.
   */
  lemma TableShape(clock: Option<string>, metas: seq<string>, cells: Assoc -> string -> string, clockCell: Assoc -> string,
                   signals: Assoc, waveform: seq<Assoc>)
    requires |waveform| > 0 && TableOf(clock, metas, cells, clockCell, signals, waveform).Ok?
    ensures Shaped(TableOf(clock, metas, cells, clockCell, signals, waveform).value, waveform, clock, metas, signals)
  {
    RowsMeaning(clock, metas, cells, clockCell, waveform);
  }

  /**
   * Each cell of a metadata signal's column other than the clock holds that
   * signal's cell value in the row; the clock's column holds the row's
   * clock value.
   */
  lemma TableCells(clock: Option<string>, metas: seq<string>, cells: Assoc -> string -> string, clockCell: Assoc -> string,
                   signals: Assoc, waveform: seq<Assoc>, i: nat, j: nat)
    requires |waveform| > 0 && TableOf(clock, metas, cells, clockCell, signals, waveform).Ok?
    requires i < |waveform| && j < |TableOf(clock, metas, cells, clockCell, signals, waveform).value.header|
    ensures CellIs(TableOf(clock, metas, cells, clockCell, signals, waveform).value, i, j, clock, metas,
                   cells(waveform[i])(TableOf(clock, metas, cells, clockCell, signals, waveform).value.header[j]), clockCell(waveform[i]))
  {
    RowsMeaning(clock, metas, cells, clockCell, waveform);
    var rows := Entries(waveform, OutRow(clock, metas, cells, clockCell)).value;
    var t := TableOf(clock, metas, cells, clockCell, signals, waveform).value;
    assert t == TableFrom(rows, clock, metas, signals).value;
    assert t.data[i][j] == Cell(rows[i].1, t.header[j]);
    assert RowFacts(clock, metas, cells, clockCell, waveform[i], rows[i]);
  }

  /** A cell value is the row's value of the first column matched to the signal, filled from a connected column. */
  lemma CellsOfMeaning(plan: Plan, row: Assoc, meta: string)
    ensures CellsOf(plan)(row)(meta) == Filled(meta, OwnValue(row, ColumnFor(plan.sm, plan.cols, meta)), row, plan.cm)
  {
  }

  /**
   * `build_table` fails exactly when the waveform is empty, when a row has
   * no time column, or when the clock found is the empty signal name.
   */
  lemma BuildTableErrors(md: Metadata, waveform: seq<Assoc>, conns: seq<Connection>)
    ensures BuildTableSpec(md, waveform, conns).Err? <==>
      |waveform| == 0 || Untimed(waveform) || PlanFor(md, KeysOf(waveform[0]), conns).clock == Some("")
  {
    if |waveform| > 0 {
      var plan := PlanFor(md, KeysOf(waveform[0]), conns);
      assert BuildTableSpec(md, waveform, conns) == PlanTable(plan, md, waveform);
      PlanClockEmpty(md, waveform, conns);
      PlanTableErrors(plan, md, waveform);
    }
  }

  lemma PlanTableErrors(plan: Plan, md: Metadata, waveform: seq<Assoc>)
    requires |waveform| > 0
    ensures PlanTable(plan, md, waveform).Err? <==>
      Untimed(waveform) || (plan.clock == Some("") && "" in KeysOf(md.signals))
  {
    TableErrors(plan.clock, KeysOf(md.signals), CellsOf(plan), ClockCell(plan), md.signals, waveform);
  }

  /** An empty clock name is a metadata signal. */
  lemma PlanClockEmpty(md: Metadata, waveform: seq<Assoc>, conns: seq<Connection>)
    requires |waveform| > 0
    ensures PlanFor(md, KeysOf(waveform[0]), conns).clock == Some("") ==> "" in KeysOf(md.signals)
  {
    PlanClock(md, KeysOf(waveform[0]), conns);
  }

  /**
   * The written table has one data row per waveform row, every row as wide
   * as the header; the header is `ordered` for a time column whose class is
   * empty and for the clock the plan chose, and the class row gives every
   * column its class.
   */
  lemma BuildTableShape(md: Metadata, waveform: seq<Assoc>, conns: seq<Connection>)
    requires BuildTableSpec(md, waveform, conns).Ok?
    ensures Shaped(BuildTableSpec(md, waveform, conns).value, waveform, PlanFor(md, KeysOf(waveform[0]), conns).clock, KeysOf(md.signals), md.signals)
  {
    var plan := PlanFor(md, KeysOf(waveform[0]), conns);
    TableShape(plan.clock, KeysOf(md.signals), CellsOf(plan), ClockCell(plan), md.signals, waveform);
  }

  /**
   * Each cell of a metadata signal's column other than the clock holds the
   * row's value of the first waveform column matched to it, filled from a
   * connected column when empty; the clock's column holds the row's value
   * of the first column matched to the clock.
   */
  lemma BuildTableCells(md: Metadata, waveform: seq<Assoc>, conns: seq<Connection>, i: nat, j: nat)
    requires BuildTableSpec(md, waveform, conns).Ok?
    requires i < |waveform| && j < |BuildTableSpec(md, waveform, conns).value.header|
    ensures var t, plan := BuildTableSpec(md, waveform, conns).value, PlanFor(md, KeysOf(waveform[0]), conns);
      CellIs(t, i, j, plan.clock, KeysOf(md.signals),
             Filled(t.header[j], OwnValue(waveform[i], ColumnFor(plan.sm, plan.cols, t.header[j])), waveform[i], plan.cm),
             ClockValue(plan, waveform[i]))
  {
    var plan := PlanFor(md, KeysOf(waveform[0]), conns);
    var t := BuildTableSpec(md, waveform, conns).value;
    TableCells(plan.clock, KeysOf(md.signals), CellsOf(plan), ClockCell(plan), md.signals, waveform, i, j);
    CellsOfMeaning(plan, waveform[i], t.header[j]);
  }
}
