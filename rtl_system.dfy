/**
 * The RTL connectivity extractor: per file, the module's name, ports,
 * signals and submodule instantiations; across files, the system view
 * (modules and parent-to-child connections), its flattening through one
 * level of hierarchy, and the unbound ports of each instance.
 */
module RtlSystem {

  import opened Base
  import opened Text
  import opened RtlExtract

  /** One submodule instantiation: its bindings map child port to parent expression. */
  datatype Instance = Instance(submodule: string, name: string, connections: Assoc)

  datatype ModuleInfo = ModuleInfo(ports: seq<string>, signals: seq<string>)

  /** A binding of a child port inside a parent module. */
  datatype Connection = Connection(parentModule: string, childModule: string, instance: string,
                                   childPort: string, parentSignal: string)

  datatype System = System(modules: map<string, ModuleInfo>, connections: seq<Connection>)

  // ---------------------------------------------------------------------
  // Lines
  // ---------------------------------------------------------------------

  /** The characters `str.splitlines()` breaks at. */
  predicate IsLineBreak(c: char) {
    c == '\n' || c == '\r' || c == '\U{B}' || c == '\U{C}' || c == '\U{1C}' || c == '\U{1D}' ||
    c == '\U{1E}' || c == '\U{85}' || c == '\U{2028}' || c == '\U{2029}'
  }

  /**
   * The pieces between line breaks.  A two-character break `\r\n` yields an
   * extra empty piece, and a final break a trailing one; neither survives
   * the blank-line filter below, so the kept lines are those of
   * `str.splitlines()`.
   */
  function Pieces(s: string): (r: seq<string>)
    ensures |r| > 0
    ensures forall k :: 0 <= k < |r| ==> forall j :: 0 <= j < |r[k]| ==> !IsLineBreak(r[k][j])
    decreases |s|
  {
    var i := BreakIndex(s, 0);
    if i == |s| then [s] else [s[..i]] + Pieces(s[i + 1..])
  }

  function BreakIndex(s: string, i: nat): (j: nat)
    requires i <= |s|
    ensures i <= j <= |s|
    ensures forall k :: i <= k < j ==> !IsLineBreak(s[k])
    ensures j < |s| ==> IsLineBreak(s[j])
    decreases |s| - i
  {
    if i == |s| || IsLineBreak(s[i]) then i else BreakIndex(s, i + 1)
  }

  /** Every line is non-empty and ends in a non-blank character. */
  predicate RightStripped(lines: seq<string>) {
    forall k :: 0 <= k < |lines| ==> |lines[k]| > 0 && !IsSpace(lines[k][|lines[k]| - 1])
  }

  /** The lines kept from a file: non-blank, right-stripped. */
  function KeptLines(pieces: seq<string>): (lines: seq<string>)
    ensures |lines| <= |pieces|
    ensures RightStripped(lines)
    decreases |pieces|
  {
    if |pieces| == 0 then []
    else
      var rest := KeptLines(pieces[1..]);
      if |Strip(pieces[0])| > 0 then
        RStripNonBlank(pieces[0]);
        RightStrippedCons(RStrip(pieces[0]), rest);
        [RStrip(pieces[0])] + rest
      else rest
  }

  lemma RightStrippedCons(line: string, lines: seq<string>)
    requires |line| > 0 && !IsSpace(line[|line| - 1]) && RightStripped(lines)
    ensures RightStripped([line] + lines)
  {
    forall k | 0 <= k < |lines| + 1
      ensures |([line] + lines)[k]| > 0 && !IsSpace(([line] + lines)[k][|([line] + lines)[k]| - 1])
    {
      if k > 0 {
        assert ([line] + lines)[k] == lines[k - 1];
      }
    }
  }

  /** `[line.rstrip() for line in content.splitlines() if line.strip()]` */
  function RtlLines(content: string): (lines: seq<string>)
    ensures RightStripped(lines)
  {
    KeptLines(Pieces(content))
  }

  /** Each line with its comments removed. */
  function Stripped(lines: seq<string>): (r: seq<string>)
    ensures |r| == |lines|
    ensures forall k :: 0 <= k < |lines| ==> r[k] == StripComments(lines[k])
  {
    seq(|lines|, k requires 0 <= k < |lines| => StripComments(lines[k]))
  }

  lemma JoinSnoc(sep: string, xs: seq<string>, x: string)
    requires |xs| > 0
    ensures Join(sep, xs + [x]) == Join(sep, xs) + sep + x
  {
    assert (xs + [x])[..|xs|] == xs;
  }

  /** Joining one more line onto a block of lines. */
  lemma AppendLine(clean: seq<string>, start: nat, i: nat, block: string)
    requires start < i < |clean| && block == Join(" ", clean[start..i])
    ensures block + " " + clean[i] == Join(" ", clean[start..i + 1])
  {
    SliceSnoc(clean, start, i);
    JoinSnoc(" ", clean[start..i], clean[i]);
  }

  // ---------------------------------------------------------------------
  // accumulate_until_close
  // ---------------------------------------------------------------------

  /** Which lines hold `);` as written. */
  function CloseMarks(lines: seq<string>): (marks: seq<bool>)
    ensures |marks| == |lines|
    ensures forall k :: 0 <= k < |lines| ==> marks[k] == Contains(lines[k], ");")
  {
    seq(|lines|, k requires 0 <= k < |lines| => Contains(lines[k], ");"))
  }

  /** The first line at or after `k` holding `);`, or `|lines|`. */
  function CloseIndex(lines: seq<string>, k: nat): (c: nat)
    requires k <= |lines|
    ensures k <= c <= |lines|
    ensures c < |lines| ==> Contains(lines[c], ");")
    ensures forall j :: k <= j < c ==> !Contains(lines[j], ");")
  {
    FirstMarked(CloseMarks(lines), k)
  }

  /** The end (exclusive) of a block whose closing line is `c`. */
  function BlockEnd(lines: seq<string>, c: nat): nat {
    if c < |lines| then c + 1 else |lines|
  }

  /** The lines `start` to `c` (the closing line, when there is one), comment-free, joined by blanks. */
  function BlockText(lines: seq<string>, start: nat, c: nat): string
    requires start < c <= |lines|
  {
    Join(" ", Stripped(lines)[start..BlockEnd(lines, c)])
  }

  /** A line without `);` at or before the closing line lies before it. */
  lemma BeforeClose(lines: seq<string>, k: nat, i: nat)
    requires k <= i < |lines| && i <= CloseIndex(lines, k)
    requires !Contains(lines[i], ");")
    ensures i < CloseIndex(lines, k)
  {
  }

  /**
   * `accumulate_until_close`: the block runs from `start` through the first
   * later line holding `);` (or to the end), and `i` is that line's index.
   */
  method AccumulateUntilClose(lines: seq<string>, start: nat) returns (block: string, i: nat)
    requires start < |lines|
    ensures i == CloseIndex(lines, start + 1)
    ensures block == BlockText(lines, start, i)
  {
    ghost var c := CloseIndex(lines, start + 1);
    block := StripComments(lines[start]);
    i := start + 1;
    GatheredFirst(lines, start);
    while i < |lines| && !Contains(lines[i], ");")
      invariant start < i <= c
      invariant Gathered(lines, start, i, block)
      decreases |lines| - i
    {
      BeforeClose(lines, start + 1, i);
      block := AppendStripped(lines, start, i, block);
      i := i + 1;
    }
    AtClose(lines, start + 1, i);
    block := CloseBlock(lines, start, i, block);
  }

  /** `block` holds the comment-free lines `start` to `i - 1`, joined by blanks. */
  ghost predicate Gathered(lines: seq<string>, start: nat, i: nat, block: string)
    requires start < i <= |lines|
  {
    block == Join(" ", Stripped(lines)[start..i])
  }

  lemma GatheredFirst(lines: seq<string>, start: nat)
    requires start < |lines|
    ensures Gathered(lines, start, start + 1, StripComments(lines[start]))
  {
    assert Stripped(lines)[start..start + 1] == [StripComments(lines[start])];
  }

  /** A line at or before the closing line that holds `);`, or the end, is the closing line. */
  lemma AtClose(lines: seq<string>, k: nat, i: nat)
    requires k <= i <= |lines| && i <= CloseIndex(lines, k)
    requires i == |lines| || Contains(lines[i], ");")
    ensures i == CloseIndex(lines, k)
  {
  }

  /** One more comment-free line joined onto the block of lines `start` to `i - 1`. */
  method AppendStripped(lines: seq<string>, start: nat, i: nat, block: string) returns (b: string)
    requires start < i < |lines| && Gathered(lines, start, i, block)
    ensures Gathered(lines, start, i + 1, b)
  {
    AppendLine(Stripped(lines), start, i, block);
    b := block + " " + StripComments(lines[i]);
  }

  /** The block with its closing line `i` joined on, when there is one. */
  method CloseBlock(lines: seq<string>, start: nat, i: nat, block: string) returns (b: string)
    requires start < i <= |lines| && Gathered(lines, start, i, block)
    ensures b == BlockText(lines, start, i)
  {
    if i < |lines| {
      b := AppendStripped(lines, start, i, block);
    } else {
      b := block;
    }
  }

  // ---------------------------------------------------------------------
  // detect_ports_and_signals
  // ---------------------------------------------------------------------

  /** Which lines, comment-free, hold `);`. */
  function HeaderCloseMarks(lines: seq<string>): (marks: seq<bool>)
    ensures |marks| == |lines|
    ensures forall k :: 0 <= k < |lines| ==> marks[k] == Contains(StripComments(lines[k]), ");")
  {
    seq(|lines|, k requires 0 <= k < |lines| => Contains(StripComments(lines[k]), ");"))
  }

  /**
   * The module header: from the first line opening a module through the
   * first line from there on holding `);`, comment-free; empty without a
   * module line.
   */
  function HeaderLines(lines: seq<string>): seq<string> {
    var m := FirstModuleLine(lines, false);
    if m == |lines| then []
    else
      var c := FirstMarked(HeaderCloseMarks(lines), m);
      Stripped(lines)[m..BlockEnd(lines, c)]
  }

  /** Every signal declaration on every line, in order. */
  function AllSignals(lines: seq<string>): (names: seq<string>)
    ensures forall k :: 0 <= k < |names| ==> IsWord(names[k])
    decreases |lines|
  {
    if |lines| == 0 then []
    else AllSignals(lines[..|lines| - 1]) + SignalNames(StripComments(lines[|lines| - 1]))
  }

  lemma AllSignalsSnoc(lines: seq<string>, k: nat)
    requires k < |lines|
    ensures AllSignals(lines[..k + 1]) == AllSignals(lines[..k]) + SignalNames(StripComments(lines[k]))
  {
    TakeTake(lines, k);
  }

  /** Up to the first module line, a line opens the header exactly when it is that line. */
  lemma HeaderOpens(lines: seq<string>, i: nat)
    requires i < |lines| && i <= FirstModuleLine(lines, false)
    ensures ModuleDeclName(StripComments(lines[i])).Some? <==> i == FirstModuleLine(lines, false)
  {
    assert OpensModule(lines[i], false) == ModuleDeclName(StripComments(lines[i])).Some?;
  }

  lemma HeaderOpen(lines: seq<string>, m: nat, i: nat)
    requires m <= i < |lines|
    requires forall k :: m <= k < i ==> !HeaderCloseMarks(lines)[k]
    requires !Contains(StripComments(lines[i]), ");")
    ensures forall k :: m <= k < i + 1 ==> !HeaderCloseMarks(lines)[k]
  {
  }

  lemma HeaderLinesClosed(lines: seq<string>, m: nat, c: nat)
    requires m == FirstModuleLine(lines, false) <= c < |lines|
    requires FirstMarked(HeaderCloseMarks(lines), m) == c
    ensures HeaderLines(lines) == Stripped(lines)[m..c + 1]
  {
  }

  lemma HeaderLinesUnclosed(lines: seq<string>, m: nat)
    requires m == FirstModuleLine(lines, false)
    requires forall k :: m <= k < |lines| ==> !HeaderCloseMarks(lines)[k]
    ensures HeaderLines(lines) == if m < |lines| then Stripped(lines)[m..] else []
  {
  }

  /** The header's first comment-free line holding `);`. */
  lemma HeaderCloses(lines: seq<string>, m: nat, i: nat)
    requires m <= i < |lines|
    requires forall k :: m <= k < i ==> !HeaderCloseMarks(lines)[k]
    requires Contains(StripComments(lines[i]), ");")
    ensures FirstMarked(HeaderCloseMarks(lines), m) == i
  {
  }

  /** The header-collecting loop of `detect_ports_and_signals`. */
  method CollectHeader(lines: seq<string>) returns (header: seq<string>)
    ensures header == HeaderLines(lines)
  {
    ghost var m := FirstModuleLine(lines, false);
    ghost var marks := HeaderCloseMarks(lines);
    ghost var clean := Stripped(lines);
    header := [];
    var inHeader := false;
    var i := 0;
    while i < |lines|
      invariant 0 <= i <= |lines|
      invariant inHeader <==> m < i
      invariant !inHeader ==> header == []
      invariant inHeader ==> header == clean[m..i]
      invariant inHeader ==> forall k :: m <= k < i ==> !marks[k]
      decreases |lines| - i
    {
      var line := StripComments(lines[i]);
      assert line == clean[i];
      if !inHeader {
        HeaderOpens(lines, i);
      }
      if ModuleDeclName(line).Some? {
        inHeader := true;
      }
      if inHeader {
        SliceSnoc(clean, m, i);
        header := header + [line];
        if Contains(line, ");") {
          HeaderCloses(lines, m, i);
          HeaderLinesClosed(lines, m, i);
          return;
        }
        HeaderOpen(lines, m, i);
      }
      i := i + 1;
    }
    HeaderLinesUnclosed(lines, m);
  }

  /** The signal-collecting loop of `detect_ports_and_signals`. */
  method CollectSignals(lines: seq<string>) returns (all: seq<string>)
    ensures all == AllSignals(lines)
  {
    all := [];
    var k := 0;
    while k < |lines|
      invariant 0 <= k <= |lines|
      invariant all == AllSignals(lines[..k])
    {
      AllSignalsSnoc(lines, k);
      all := all + SignalNames(StripComments(lines[k]));
      k := k + 1;
    }
    TakeAll(lines);
  }

  /**
   * `detect_ports_and_signals`: the distinct port names declared in the
   * module header and the distinct names declared with a net type anywhere,
   * each sorted.
   */
  method DetectPortsAndSignals(lines: seq<string>) returns (ports: seq<string>, signals: seq<string>)
    ensures StrictlySorted(ports) && forall p :: p in ports <==> p in PortNames(Join(" ", HeaderLines(lines)))
    ensures StrictlySorted(signals) && forall s :: s in signals <==> s in AllSignals(lines)
  {
    var header := CollectHeader(lines);
    ports := SortedUnique(PortNames(Join(" ", header)));
    var all := CollectSignals(lines);
    signals := SortedUnique(all);
  }

  // ---------------------------------------------------------------------
  // detect_instantiations
  // ---------------------------------------------------------------------

  /** The bindings of instance `name` in its block: after `name (`, one per port, last wins. */
  function BindingsIn(block: string, name: string): (d: Assoc)
    ensures UniqueKeys(d)
  {
    ToDict(ExtractPortPairs(PortBlock(block, name)))
  }

  /** Which lines, comment-free, name an instance after a parameter list. */
  function InstLineMarks(lines: seq<string>): (marks: seq<bool>)
    ensures |marks| == |lines|
    ensures forall k :: 0 <= k < |lines| ==> marks[k] == InstNameSearch(StripComments(lines[k]), 0).Some?
  {
    seq(|lines|, k requires 0 <= k < |lines| => InstNameSearch(StripComments(lines[k]), 0).Some?)
  }

  /**
   * The instance whose name sits on line `j`, with the bindings of the block
   * from `j` to its closing line, and the line the scan resumes at.
   */
  function Instantiate(lines: seq<string>, sub: string, j: nat, name: string): (r: (Instance, nat))
    requires j < |lines|
    ensures j < r.1 <= |lines| + 1
    ensures r.0.submodule == sub && r.0.name == name && UniqueKeys(r.0.connections)
  {
    var c := CloseIndex(lines, j + 1);
    (Instance(sub, name, BindingsIn(BlockText(lines, j, c), name)), c + 1)
  }

  /** The instantiation, if any, that starts on line `i`. */
  function InstanceAt(lines: seq<string>, i: nat): (r: Option<(Instance, nat)>)
    requires i < |lines|
    ensures r.Some? ==> i < r.value.1 <= |lines| + 1
    ensures r.Some? ==>
      IsWord(r.value.0.submodule) && IsIdentifier(r.value.0.name) && UniqueKeys(r.value.0.connections)
  {
    var line := StripComments(lines[i]);
    match InlineInstAt(line)
    case Some((sub, name)) => Some(Instantiate(lines, sub, i, name))
    case None =>
      match ParamStartAt(line)
      case None => None
      case Some(sub) =>
        var j := FirstMarked(InstLineMarks(lines), i);
        if j == |lines| then None
        else Some(Instantiate(lines, sub, j, InstNameSearch(StripComments(lines[j]), 0).value))
  }

  /** What `Instantiate` yields, given the block read up to its closing line. */
  lemma InstantiateBlock(lines: seq<string>, sub: string, j: nat, name: string, block: string, c: nat)
    requires j < |lines| && c == CloseIndex(lines, j + 1) && block == BlockText(lines, j, c)
    ensures Instantiate(lines, sub, j, name).0 == Instance(sub, name, BindingsIn(block, name))
    ensures Instantiate(lines, sub, j, name).1 == c + 1
  {
  }

  /** The instantiations found scanning from line `i`. */
  function InstancesFrom(lines: seq<string>, i: nat): (insts: seq<Instance>)
    ensures |insts| <= |lines| - i || (i >= |lines| && insts == [])
    ensures forall k :: 0 <= k < |insts| ==>
      IsWord(insts[k].submodule) && IsIdentifier(insts[k].name) && UniqueKeys(insts[k].connections)
    decreases |lines| - i
  {
    if i >= |lines| then []
    else
      var r := InstanceAt(lines, i);
      if r.None? then InstancesFrom(lines, i + 1)
      else [r.value.0] + InstancesFrom(lines, r.value.1)
  }

  /** One step of the scan, once the instance at line `i` is known. */
  lemma InstancesFromStep(lines: seq<string>, i: nat, inst: Instance, next: nat)
    requires i < |lines| && InstanceAt(lines, i).Some?
    requires InstanceAt(lines, i).value.0 == inst && InstanceAt(lines, i).value.1 == next
    ensures InstancesFrom(lines, i) == [inst] + InstancesFrom(lines, next)
  {
  }

  /** A line with no instantiation adds nothing to the scan. */
  lemma InstancesFromSkip(lines: seq<string>, i: nat)
    requires i < |lines| && InstanceAt(lines, i).None?
    ensures InstancesFrom(lines, i) == InstancesFrom(lines, i + 1)
  {
  }

  /**
   * The search in `detect_instantiations` for the line naming the instance
   * after a parameter list: the first line from `i` on that does, with the
   * name it gives.
   */
  method FindInstanceLine(lines: seq<string>, i: nat) returns (found: Option<(nat, string)>)
    requires i <= |lines|
    ensures found.None? <==> FirstMarked(InstLineMarks(lines), i) == |lines|
    ensures found.Some? ==> found.value.0 == FirstMarked(InstLineMarks(lines), i) < |lines|
    ensures found.Some? ==> InstNameSearch(StripComments(lines[found.value.0]), 0) == Some(found.value.1)
  {
    ghost var marks := InstLineMarks(lines);
    var j := i;
    while j < |lines|
      invariant i <= j <= |lines|
      invariant forall k :: i <= k < j ==> !marks[k]
      decreases |lines| - j
    {
      var candidate := InstNameSearch(StripComments(lines[j]), 0);
      if candidate.Some? {
        assert marks[j];
        return Some((j, candidate.value));
      }
      j := j + 1;
    }
    return None;
  }

  /** A one-line instantiation yields the instance named on it. */
  lemma InlineStep(lines: seq<string>, i: nat, sub: string, name: string)
    requires i < |lines| && InlineInstAt(StripComments(lines[i])) == Some((sub, name))
    ensures InstanceAt(lines, i).Some?
    ensures InstanceAt(lines, i).value.0 == Instantiate(lines, sub, i, name).0
    ensures InstanceAt(lines, i).value.1 == Instantiate(lines, sub, i, name).1
  {
  }

  /**
   * A parameterised instantiation yields the instance named on the first
   * line that names one.
   */
  lemma ParamStep(lines: seq<string>, i: nat, sub: string, j: nat, name: string)
    requires i < |lines| && InlineInstAt(StripComments(lines[i])).None?
    requires ParamStartAt(StripComments(lines[i])) == Some(sub)
    requires j == FirstMarked(InstLineMarks(lines), i) < |lines|
    requires InstNameSearch(StripComments(lines[j]), 0) == Some(name)
    ensures InstanceAt(lines, i).Some?
    ensures InstanceAt(lines, i).value.0 == Instantiate(lines, sub, j, name).0
    ensures InstanceAt(lines, i).value.1 == Instantiate(lines, sub, j, name).1
  {
  }

  /** A line that starts no instantiation yields none. */
  lemma SkipStep(lines: seq<string>, i: nat)
    requires i < |lines| && InlineInstAt(StripComments(lines[i])).None?
    requires ParamStartAt(StripComments(lines[i])).None? ||
      FirstMarked(InstLineMarks(lines), i) == |lines|
    ensures InstanceAt(lines, i).None?
  {
  }

  /**
   * One pass of the loop of `detect_instantiations` at line `i`: the
   * instance found there, if any, and the line the scan goes on from.
   */
  method InstanceStep(lines: seq<string>, i: nat) returns (found: Option<Instance>, next: nat)
    requires i < |lines|
    ensures found.None? <==> InstanceAt(lines, i).None?
    ensures found.None? ==> next == i + 1
    ensures found.Some? ==> InstanceAt(lines, i).value.0 == found.value
    ensures found.Some? ==> InstanceAt(lines, i).value.1 == next
  {
    var line := StripComments(lines[i]);
    var inline := InlineInstAt(line);
    if inline.Some? {
      var (submodule, instName) := inline.value;
      var block, c := AccumulateUntilClose(lines, i);
      InlineStep(lines, i, submodule, instName);
      InstantiateBlock(lines, submodule, i, instName, block, c);
      return Some(Instance(submodule, instName, BindingsIn(block, instName))), c + 1;
    }
    var params := ParamStartAt(line);
    if params.Some? {
      var search := FindInstanceLine(lines, i);
      if search.Some? {
        var (j, instName) := search.value;
        var block, c := AccumulateUntilClose(lines, j);
        ParamStep(lines, i, params.value, j, instName);
        InstantiateBlock(lines, params.value, j, instName, block, c);
        return Some(Instance(params.value, instName, BindingsIn(block, instName))), c + 1;
      }
    }
    SkipStep(lines, i);
    return None, i + 1;
  }

  /**
   * `detect_instantiations`: one instance per instantiation, at most one per
   * line, each with the bindings of its block.
   */
  method DetectInstantiations(lines: seq<string>) returns (insts: seq<Instance>)
    ensures insts == InstancesFrom(lines, 0)
  {
    insts := [];
    var i := 0;
    while i < |lines|
      invariant 0 <= i <= |lines| + 1
      invariant insts + InstancesFrom(lines, i) == InstancesFrom(lines, 0)
      decreases |lines| + 1 - i
    {
      var found, next := InstanceStep(lines, i);
      ScanStep(lines, i, insts, found, next);
      if found.Some? {
        insts := insts + [found.value];
      }
      i := next;
    }
  }

  /** The loop invariant of `DetectInstantiations` survives one pass. */
  lemma ScanStep(lines: seq<string>, i: nat, insts: seq<Instance>, found: Option<Instance>, next: nat)
    requires i < |lines| && insts + InstancesFrom(lines, i) == InstancesFrom(lines, 0)
    requires found.None? <==> InstanceAt(lines, i).None?
    requires found.None? ==> next == i + 1
    requires found.Some? ==> InstanceAt(lines, i).value.0 == found.value && InstanceAt(lines, i).value.1 == next
    ensures i < next <= |lines| + 1
    ensures (if found.Some? then insts + [found.value] else insts) + InstancesFrom(lines, next) ==
      InstancesFrom(lines, 0)
  {
    if found.Some? {
      InstancesFromStep(lines, i, found.value, next);
      SnocAssoc(insts, found.value, InstancesFrom(lines, next));
    } else {
      InstancesFromSkip(lines, i);
    }
  }

  // ---------------------------------------------------------------------
  // analyze_system
  // ---------------------------------------------------------------------

  /** The lines of a file: its comments removed, then its non-blank lines. */
  function FileLines(text: string): seq<string> {
    RtlLines(StripComments(text))
  }

  /** The name a file's module is recorded under. */
  function ModuleNameOf(text: string): string {
    DetectModuleName(FileLines(text))
  }

  /**
   * What is recorded for a module: its header ports and declared signals,
   * each distinct and sorted.
   */
  function ModuleInfoOf(lines: seq<string>): (info: ModuleInfo)
    ensures StrictlySorted(info.ports)
    ensures forall p :: p in info.ports <==> p in PortNames(Join(" ", HeaderLines(lines)))
    ensures StrictlySorted(info.signals)
    ensures forall x :: x in info.signals <==> x in AllSignals(lines)
  {
    ModuleInfo(SortedUnique(PortNames(Join(" ", HeaderLines(lines)))), SortedUnique(AllSignals(lines)))
  }

  /** One connection per binding of an instance, in binding order. */
  function InstanceConnections(parent: string, inst: Instance): seq<Connection> {
    seq(|inst.connections|, k requires 0 <= k < |inst.connections| =>
      Connection(parent, inst.submodule, inst.name, inst.connections[k].0, inst.connections[k].1))
  }

  /** The connections of the instances of module `parent`, instance by instance. */
  function ConnectionsOf(parent: string, insts: seq<Instance>): seq<Connection>
    decreases |insts|
  {
    if |insts| == 0 then []
    else ConnectionsOf(parent, insts[..|insts| - 1]) + InstanceConnections(parent, insts[|insts| - 1])
  }

  /** The module names of the files, in order. */
  function Names(files: seq<string>): (names: seq<string>)
    ensures |names| == |files|
  {
    seq(|files|, k requires 0 <= k < |files| => ModuleNameOf(files[k]))
  }

  /** The module records of the files, in order. */
  function Infos(files: seq<string>): (infos: seq<ModuleInfo>)
    ensures |infos| == |files|
  {
    seq(|files|, k requires 0 <= k < |files| => ModuleInfoOf(FileLines(files[k])))
  }

  /** The connections each file contributes, in order. */
  function FileConnections(files: seq<string>): (conns: seq<seq<Connection>>)
    ensures |conns| == |files|
  {
    seq(|files|, k requires 0 <= k < |files| =>
      ConnectionsOf(ModuleNameOf(files[k]), InstancesFrom(FileLines(files[k]), 0)))
  }

  /** Records stored one after the other under their names: a later one replaces an earlier one. */
  function ModuleTable(names: seq<string>, infos: seq<ModuleInfo>): map<string, ModuleInfo>
    requires |names| == |infos|
    decreases |names|
  {
    if |names| == 0 then map[]
    else
      var n := |names| - 1;
      ModuleTable(names[..n], infos[..n])[names[n] := infos[n]]
  }

  function Concat(xss: seq<seq<Connection>>): seq<Connection>
    decreases |xss|
  {
    if |xss| == 0 then [] else Concat(xss[..|xss| - 1]) + xss[|xss| - 1]
  }

  /** The system built from the files in order. */
  function SystemOf(files: seq<string>): System {
    System(ModuleTable(Names(files), Infos(files)), Concat(FileConnections(files)))
  }

  /** A name is in the table exactly when it was stored. */
  lemma {:induction false} ModuleTableDomain(names: seq<string>, infos: seq<ModuleInfo>, name: string)
    requires |names| == |infos|
    ensures name in ModuleTable(names, infos) <==> name in names
    decreases |names|
  {
    if |names| > 0 {
      var n := |names| - 1;
      ModuleTableDomain(names[..n], infos[..n], name);
      assert names == names[..n] + [names[n]];
    }
  }

  /** The table holds, under each name, the record stored last under it. */
  lemma {:induction false} ModuleTableLast(names: seq<string>, infos: seq<ModuleInfo>, k: nat)
    requires |names| == |infos| && k < |names|
    requires forall j :: k < j < |names| ==> names[j] != names[k]
    ensures names[k] in ModuleTable(names, infos)
    ensures ModuleTable(names, infos)[names[k]] == infos[k]
    decreases |names|
  {
    var n := |names| - 1;
    if k < n {
      ModuleTableLast(names[..n], infos[..n], k);
    }
  }

  lemma {:induction false} ConcatMembers(xss: seq<seq<Connection>>, c: Connection)
    ensures c in Concat(xss) <==> exists k :: 0 <= k < |xss| && c in xss[k]
    decreases |xss|
  {
    if |xss| > 0 {
      var n := |xss| - 1;
      ConcatMembers(xss[..n], c);
      if exists k :: 0 <= k < |xss| && c in xss[k] {
        var k :| 0 <= k < |xss| && c in xss[k];
        if k < n {
          assert xss[..n][k] == xss[k];
        }
      }
    }
  }

  /** A module is recorded exactly when some file declares it (or declares none: "unknown_module"). */
  lemma ModulesOfSystem(files: seq<string>, name: string)
    ensures name in SystemOf(files).modules <==>
      exists k :: 0 <= k < |files| && ModuleNameOf(files[k]) == name
  {
    ModuleTableDomain(Names(files), Infos(files), name);
    if name in Names(files) {
      var k :| 0 <= k < |files| && Names(files)[k] == name;
      assert ModuleNameOf(files[k]) == name;
    }
    if exists k :: 0 <= k < |files| && ModuleNameOf(files[k]) == name {
      var k :| 0 <= k < |files| && ModuleNameOf(files[k]) == name;
      assert Names(files)[k] == name;
    }
  }

  /** A module's record is that of the last file declaring it. */
  lemma LastFileWins(files: seq<string>, k: nat)
    requires k < |files|
    requires forall j :: k < j < |files| ==> ModuleNameOf(files[j]) != ModuleNameOf(files[k])
    ensures ModuleNameOf(files[k]) in SystemOf(files).modules
    ensures SystemOf(files).modules[ModuleNameOf(files[k])] == ModuleInfoOf(FileLines(files[k]))
  {
    var names := Names(files);
    forall j | k < j < |names| ensures names[j] != names[k] {
      assert names[j] == ModuleNameOf(files[j]);
    }
    ModuleTableLast(names, Infos(files), k);
  }

  /** `c` is the connection made by one of the bindings of instance `inst` inside module `parent`. */
  ghost predicate BindingOf(parent: string, inst: Instance, c: Connection) {
    exists j :: 0 <= j < |inst.connections| &&
      c == Connection(parent, inst.submodule, inst.name, inst.connections[j].0, inst.connections[j].1)
  }

  lemma InstanceConnectionsMembers(parent: string, inst: Instance, c: Connection)
    ensures c in InstanceConnections(parent, inst) <==> BindingOf(parent, inst, c)
  {
    if BindingOf(parent, inst, c) {
      var j :| 0 <= j < |inst.connections| &&
        c == Connection(parent, inst.submodule, inst.name, inst.connections[j].0, inst.connections[j].1);
      assert InstanceConnections(parent, inst)[j] == c;
    }
  }

  /** Every binding of every instance, and nothing else, becomes a connection. */
  lemma ConnectionsOfMembers(parent: string, insts: seq<Instance>, c: Connection)
    ensures c in ConnectionsOf(parent, insts) <==> exists n :: 0 <= n < |insts| && BindingOf(parent, insts[n], c)
  {
    if c in ConnectionsOf(parent, insts) {
      ConnectionsOfSound(parent, insts, c);
    }
    if exists n :: 0 <= n < |insts| && BindingOf(parent, insts[n], c) {
      var n :| 0 <= n < |insts| && BindingOf(parent, insts[n], c);
      ConnectionsOfComplete(parent, insts, n, c);
    }
  }

  lemma {:induction false} ConnectionsOfSound(parent: string, insts: seq<Instance>, c: Connection)
    requires c in ConnectionsOf(parent, insts)
    ensures exists n :: 0 <= n < |insts| && BindingOf(parent, insts[n], c)
    decreases |insts|
  {
    var m := |insts| - 1;
    var front := insts[..m];
    if c in ConnectionsOf(parent, front) {
      ConnectionsOfSound(parent, front, c);
      var n :| 0 <= n < |front| && BindingOf(parent, front[n], c);
      assert front[n] == insts[n];
    } else {
      InstanceConnectionsMembers(parent, insts[m], c);
    }
  }

  lemma {:induction false} ConnectionsOfComplete(parent: string, insts: seq<Instance>, n: nat, c: Connection)
    requires n < |insts| && BindingOf(parent, insts[n], c)
    ensures c in ConnectionsOf(parent, insts)
    decreases |insts|
  {
    var m := |insts| - 1;
    var front := insts[..m];
    if n < m {
      assert front[n] == insts[n];
      ConnectionsOfComplete(parent, front, n, c);
    } else {
      InstanceConnectionsMembers(parent, insts[m], c);
    }
  }

  /** The system's connections are those of the files' instances, file by file. */
  lemma ConnectionsOfSystem(files: seq<string>, c: Connection)
    ensures c in SystemOf(files).connections <==>
      exists k :: 0 <= k < |files| &&
        c in ConnectionsOf(ModuleNameOf(files[k]), InstancesFrom(FileLines(files[k]), 0))
  {
    ConcatMembers(FileConnections(files), c);
    if c in SystemOf(files).connections {
      var k :| 0 <= k < |files| && c in FileConnections(files)[k];
      assert c in ConnectionsOf(ModuleNameOf(files[k]), InstancesFrom(FileLines(files[k]), 0));
    }
    if exists k :: 0 <= k < |files| &&
        c in ConnectionsOf(ModuleNameOf(files[k]), InstancesFrom(FileLines(files[k]), 0)) {
      var k :| 0 <= k < |files| &&
        c in ConnectionsOf(ModuleNameOf(files[k]), InstancesFrom(FileLines(files[k]), 0));
      assert c in FileConnections(files)[k];
    }
  }

  /** The inner loops of `analyze_system`: one connection per binding of each instance. */
  method AppendConnections(conns: seq<Connection>, parent: string, insts: seq<Instance>)
    returns (result: seq<Connection>)
    ensures result == conns + ConnectionsOf(parent, insts)
  {
    result := conns;
    for k := 0 to |insts|
      invariant result == conns + ConnectionsOf(parent, insts[..k])
    {
      var inst := insts[k];
      var start := result;
      for j := 0 to |inst.connections|
        invariant result == start + InstanceConnections(parent, inst)[..j]
      {
        var (port, sig) := inst.connections[j];
        result := result + [Connection(parent, inst.submodule, inst.name, port, sig)];
      }
      TakeTake(insts, k);
      assert InstanceConnections(parent, inst)[..|inst.connections|] == InstanceConnections(parent, inst);
    }
    TakeAll(insts);
  }

  /** The steps of `detect_ports_and_signals`, gathered into what is recorded for the module. */
  method DetectModuleInfo(lines: seq<string>) returns (info: ModuleInfo)
    ensures info == ModuleInfoOf(lines)
  {
    var ports, signals := DetectPortsAndSignals(lines);
    SortedUniqueness(ports, ModuleInfoOf(lines).ports);
    SortedUniqueness(signals, ModuleInfoOf(lines).signals);
    info := ModuleInfo(ports, signals);
  }

  /** The modules recorded from the first `i` files. */
  predicate ModulesSoFar(files: seq<string>, i: nat, modules: map<string, ModuleInfo>)
    requires i <= |files|
  {
    modules == ModuleTable(Names(files)[..i], Infos(files)[..i])
  }

  /** The connections gathered from the first `i` files. */
  predicate ConnectionsSoFar(files: seq<string>, i: nat, conns: seq<Connection>)
    requires i <= |files|
  {
    conns == Concat(FileConnections(files)[..i])
  }

  /** Storing one more record under its name. */
  lemma ModuleTableSnoc(names: seq<string>, infos: seq<ModuleInfo>, i: nat)
    requires i < |names| == |infos|
    ensures ModuleTable(names[..i + 1], infos[..i + 1]) == ModuleTable(names[..i], infos[..i])[names[i] := infos[i]]
  {
    TakeTake(names, i);
    TakeTake(infos, i);
  }

  /** Recording the module of file `i`. */
  lemma ModulesStep(files: seq<string>, i: nat, modules: map<string, ModuleInfo>, name: string, info: ModuleInfo)
    requires i < |files| && ModulesSoFar(files, i, modules)
    requires name == ModuleNameOf(files[i]) && info == ModuleInfoOf(FileLines(files[i]))
    ensures ModulesSoFar(files, i + 1, modules[name := info])
  {
    ModuleTableSnoc(Names(files), Infos(files), i);
  }

  /** Appending the connections of file `i`. */
  lemma ConnectionsStep(files: seq<string>, i: nat, conns: seq<Connection>, more: seq<Connection>)
    requires i < |files| && ConnectionsSoFar(files, i, conns)
    requires more == ConnectionsOf(ModuleNameOf(files[i]), InstancesFrom(FileLines(files[i]), 0))
    ensures ConnectionsSoFar(files, i + 1, conns + more)
  {
    TakeTake(FileConnections(files), i);
    assert FileConnections(files)[..i + 1][i] == more;
  }

  /** The per-file work of `analyze_system`: the module's name, record and instances. */
  method ReadFile(text: string) returns (name: string, info: ModuleInfo, insts: seq<Instance>)
    ensures name == ModuleNameOf(text)
    ensures info == ModuleInfoOf(FileLines(text))
    ensures insts == InstancesFrom(FileLines(text), 0)
  {
    var lines := RtlLines(StripComments(text));
    name := DetectModuleName(lines);
    info := DetectModuleInfo(lines);
    insts := DetectInstantiations(lines);
  }

  /**
   * `analyze_system`: every file read in turn (its text is given here),
   * its module recorded under its name and its instances' bindings appended
   * as connections.
   */
  method AnalyzeSystem(files: seq<string>) returns (system: System)
    ensures system == SystemOf(files)
  {
    var modules := map[];
    var conns := [];
    for i := 0 to |files|
      invariant ModulesSoFar(files, i, modules)
      invariant ConnectionsSoFar(files, i, conns)
    {
      var name, info, insts := ReadFile(files[i]);
      ModulesStep(files, i, modules, name, info);
      modules := modules[name := info];
      ghost var before := conns;
      conns := AppendConnections(conns, name, insts);
      ConnectionsStep(files, i, before, ConnectionsOf(name, insts));
    }
    TakeAll(Names(files));
    TakeAll(Infos(files));
    TakeAll(FileConnections(files));
    system := System(modules, conns);
  }
}
