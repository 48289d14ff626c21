/**
 * What the rule-based signal classifier of `classify_signals.py` reads
 * from the RTL before it classifies anything: the module's parameters, its
 * name, and the declared bit widths of its signals.
 */
module SignalParams {

  import opened Base
  import opened Text
  import opened RtlExtract
  import opened Tables
  import opened WidthCheck

  // ---------------------------------------------------------------------
  // Comments inside a parameter block: `re.sub(r"//.*?$|/\*.*?\*/", "", block)`
  // ---------------------------------------------------------------------

  /**
   * Where `.*?$` starting at `i` stops: `.` does not cross a newline, and
   * `$` holds at the end of the text or just before a final newline.
   */
  function DollarEnd(s: string, i: nat): (r: Option<nat>)
    requires i <= |s|
    ensures r.Some? ==> i <= r.value <= |s| && forall k :: i <= k < r.value ==> s[k] != '\n'
    ensures r.Some? ==> r.value == |s| || (r.value == |s| - 1 && s[r.value] == '\n')
    ensures r.None? ==> exists k :: i <= k < |s| - 1 && s[k] == '\n'
  {
    var n := IndexOfFrom(s, '\n', i);
    if n + 1 >= |s| then Some(n) else None
  }

  // `.*?\*/` from `i`: the first star-slash reached without crossing a newline
  function StarSlashFrom(s: string, i: nat): (r: Option<nat>)
    requires i <= |s|
    ensures r.Some? ==> i <= r.value && r.value + 2 <= |s| && s[r.value] == '*' && s[r.value + 1] == '/'
    ensures r.Some? ==> forall k :: i <= k < r.value ==> s[k] != '\n'
    decreases |s| - i
  {
    if i + 1 < |s| && s[i] == '*' && s[i + 1] == '/' then Some(i)
    else if i == |s| || s[i] == '\n' then None
    else StarSlashFrom(s, i + 1)
  }

  /** The comment-free rest of `s` from `i`, scanning left to right as `re.sub` does. */
  function CleanFrom(s: string, i: nat): (r: string)
    requires i <= |s|
    ensures |r| <= |s| - i
    decreases |s| - i
  {
    if i == |s| then ""
    else if KeywordAt(s, i, "//") && DollarEnd(s, i + 2).Some? then CleanFrom(s, DollarEnd(s, i + 2).value)
    else if KeywordAt(s, i, "/*") && StarSlashFrom(s, i + 2).Some? then CleanFrom(s, StarSlashFrom(s, i + 2).value + 2)
    else [s[i]] + CleanFrom(s, i + 1)
  }

  function CleanComments(s: string): (r: string)
    ensures |r| <= |s|
  {
    CleanFrom(s, 0)
  }

  /** Text without a slash has no comment to remove. */
  lemma {:induction false} CleanNoSlash(s: string, i: nat)
    requires i <= |s| && '/' !in s
    ensures CleanFrom(s, i) == s[i..]
    decreases |s| - i
  {
    if i < |s| {
      assert s[i] != '/';
      CleanNoSlash(s, i + 1);
      assert s[i..] == [s[i]] + s[i + 1..];
    }
  }

  // ---------------------------------------------------------------------
  // detect_module_parameters
  // ---------------------------------------------------------------------

  /**
   * One comma-separated piece of a parameter block: `parameter NAME`, or
   * otherwise `NAME` followed by `=` or by nothing.
   */
  function PartParam(part: string): (r: Option<string>)
    ensures r.Some? ==> IsWord(r.value)
  {
    var p := Strip(part);
    var a := SkipSpaces(p, 0);
    var named := if KeywordAt(p, a, "parameter") then WordAfterBlanks(p, a + 9) else None;
    if named.Some? then named
    else
      var e := WordEnd(p, a);
      var q := SkipSpaces(p, e);
      if e > a && (q == |p| || p[q] == '=') then Some(p[a..e]) else None
  }

  /** `parameter W = 8`: the name after `parameter` and its blanks. */
  lemma PartParamNamed(g: string, w: string, rest: string)
    requires g != "" && AllSpaces(g) && IsWord(w) && EndsName(rest)
    requires rest == "" || !IsSpace(rest[|rest| - 1])
    ensures PartParam("parameter" + g + w + rest) == Some(w)
  {
    var t := "parameter" + g + w + rest;
    var s := 9 + |g|;
    var f := s + |w|;
    Layout4("parameter", g, w, rest);
    assert t[|t| - 1] == if rest == "" then w[|w| - 1] else rest[|rest| - 1];
    SliceChar(t, f, |t|, f);
    NamedScan(t, s, f);
  }

  lemma NamedScan(t: string, s: nat, f: nat)
    requires 9 < s < f <= |t| && t[..9] == "parameter" && !IsSpace(t[|t| - 1])
    requires forall i :: 9 <= i < s ==> IsSpace(t[i])
    requires forall i :: s <= i < f ==> IsWordChar(t[i])
    requires f == |t| || !IsWordChar(t[f])
    ensures PartParam(t) == Some(t[s..f])
  {
    assert t[0] == t[..9][0];
    StripUnpadded(t);
    assert SkipSpaces(t, 0) == 0;
    assert t[0..9] == t[..9];
    SkipSpacesIs(t, 9, s);
    WordEndIs(t, s, f);
  }

  /** A word standing alone, the `$` alternative of the fallback pattern, is the name. */
  lemma PartParamBare(w: string)
    requires IsWord(w)
    ensures PartParam(w) == Some(w)
  {
    StripUnpadded(w);
    assert SkipSpaces(w, 0) == 0;
    WordEndIs(w, 0, |w|);
    assert w[0..|w|] == w;
    if KeywordAt(w, 0, "parameter") {
      if 9 < |w| {
        assert SkipSpaces(w, 9) == 9;
      } else {
        assert SkipSpaces(w, 9) == 9;
      }
    }
  }

  /** `W = 8`: a word, blanks and `=` give the word, whatever the value. */
  lemma PartParamAssigned(w: string, g: string, v: string)
    requires IsWord(w) && AllSpaces(g) && (v == "" || !IsSpace(v[|v| - 1]))
    ensures PartParam(w + g + "=" + v) == Some(w)
  {
    var t := w + g + "=" + v;
    var q := |w| + |g|;
    AssignedLaid(w, g, v);
    StripUnpadded(t);
    assert SkipSpaces(t, 0) == 0;
    WordEndIs(t, 0, |w|);
    SkipSpacesIs(t, |w|, q);
    NotNamed(t, |w|, q);
  }

  /** Where the pieces of `w + g + "=" + v` stand. */
  lemma AssignedLaid(w: string, g: string, v: string)
    requires IsWord(w) && AllSpaces(g) && (v == "" || !IsSpace(v[|v| - 1]))
    ensures var t := w + g + "=" + v;
      var q := |w| + |g|;
      q < |t| && t[..|w|] == w && t[q] == '=' && !IsSpace(t[0]) && !IsSpace(t[|t| - 1]) &&
      (forall i :: 0 <= i < |w| ==> IsWordChar(t[i])) &&
      (forall i :: |w| <= i < q ==> IsSpace(t[i]))
  {
    var t := w + g + "=" + v;
    assert t == w + (g + ("=" + v));
    Peel(t, w, g + ("=" + v));
    Peel(g + ("=" + v), g, "=" + v);
    assert t[|t| - 1] == if v == "" then '=' else v[|v| - 1];
  }

  /** With blanks and `=` after the word ending at `k`, no `parameter NAME` is read. */
  lemma NotNamed(t: string, k: nat, q: nat)
    requires 0 < k <= q < |t| && t[q] == '='
    requires forall i :: 0 <= i < k ==> IsWordChar(t[i])
    requires forall i :: k <= i < q ==> IsSpace(t[i])
    ensures !KeywordAt(t, 0, "parameter") || WordAfterBlanks(t, 9).None?
  {
    if KeywordAt(t, 0, "parameter") {
      SliceChar(t, 0, 9, k);
      assert k >= 9;
      if k > 9 {
        assert SkipSpaces(t, 9) == 9;
      } else {
        SkipSpacesIs(t, 9, q);
      }
    }
  }

  /** `\s+(\w+)` at position `i`: at least one blank, then a word. */
  function WordAfterBlanks(t: string, i: nat): (r: Option<string>)
    requires i <= |t|
    ensures r.Some? ==> IsWord(r.value)
  {
    var b := SkipSpaces(t, i);
    var e := WordEnd(t, b);
    if b > i && e > b then Some(t[b..e]) else None
  }

  /** The lazy `.*?\)` of a parameter block: the first `)` that a `)` follows after blanks. */
  function BlockCloseFrom(t: string, i: nat): (r: Option<nat>)
    requires i <= |t|
    ensures r.Some? ==> i <= r.value < |t| && t[r.value] == ')'
    ensures r.Some? ==> SkipSpaces(t, r.value + 1) < |t| && t[SkipSpaces(t, r.value + 1)] == ')'
    decreases |t| - i
  {
    if i == |t| then None
    else if t[i] == ')' && SkipSpaces(t, i + 1) < |t| && t[SkipSpaces(t, i + 1)] == ')' then Some(i)
    else BlockCloseFrom(t, i + 1)
  }

  /** `#\s*\(\s*(parameter\s+.*?\))\s*\)` (dot matching newlines) at position `p`. */
  function ParamBlockAt(t: string, p: nat): (r: Option<Found>)
    requires p <= |t|
    ensures r.Some? ==> p < r.value.end <= |t|
  {
    if p < |t| && t[p] == '#' then
      var a := SkipSpaces(t, p + 1);
      if a < |t| && t[a] == '(' then
        var b := SkipSpaces(t, a + 1);
        if KeywordAt(t, b, "parameter") && b + 9 < |t| && IsSpace(t[b + 9]) then
          match BlockCloseFrom(t, SkipSpaces(t, b + 9))
          case Some(k) => Some(Found(SkipSpaces(t, k + 1) + 1, t[b..k + 1]))
          case None => None
        else None
      else None
    else None
  }

  /** `re.findall` of the parameter-block pattern from position `p`. */
  function ParamBlocksFrom(t: string, p: nat): seq<string>
    requires p <= |t|
    decreases |t| - p
  {
    if p == |t| then []
    else match ParamBlockAt(t, p)
      case Some(f) => [f.group] + ParamBlocksFrom(t, f.end)
      case None => ParamBlocksFrom(t, p + 1)
  }

  /** The pieces of one parameter block, comments removed. */
  function BlockParts(block: string): seq<string> {
    SplitOn(CleanComments(block), ',')
  }

  /** The names one parameter block declares. */
  function BlockParams(block: string): set<string> {
    Elems(Collect(PartParam, BlockParts(block)))
  }

  /** The names all parameter blocks declare. */
  function BlocksParams(blocks: seq<string>): set<string>
    decreases |blocks|
  {
    if |blocks| == 0 then {}
    else BlocksParams(blocks[..|blocks| - 1]) + BlockParams(blocks[|blocks| - 1])
  }

  /** `#\(\s*parameter\s+(\w+)` at position `p`. */
  function InlineParamAt(t: string, p: nat): (r: Option<Found>)
    requires p <= |t|
    ensures r.Some? ==> p < r.value.end <= |t| && IsWord(r.value.group)
  {
    if KeywordAt(t, p, "#(") then
      var a := SkipSpaces(t, p + 2);
      if KeywordAt(t, a, "parameter") then
        var b := SkipSpaces(t, a + 9);
        var e := WordEnd(t, b);
        if b > a + 9 && e > b then Some(Found(e, t[b..e])) else None
      else None
    else None
  }

  /** `re.findall` of the inline-parameter pattern, one match or one character at a time. */
  function InlineParams(t: string): (r: seq<string>)
    ensures forall k :: 0 <= k < |r| ==> IsWord(r[k])
    decreases |t|
  {
    if t == "" then []
    else match InlineParamAt(t, 0)
      case Some(f) => [f.group] + InlineParams(t[f.end..])
      case None => InlineParams(t[1..])
  }

  /** `#(parameter W` found at the front, and the search goes on after the name. */
  lemma InlineParamFront(g1: string, g2: string, w: string, rest: string)
    requires AllSpaces(g1) && g2 != "" && AllSpaces(g2) && IsWord(w) && EndsName(rest)
    ensures InlineParams("#(" + g1 + "parameter" + g2 + w + rest) == [w] + InlineParams(rest)
  {
    var t := "#(" + g1 + "parameter" + g2 + w + rest;
    var q := 2 + |g1|;
    var s := q + 9 + |g2|;
    var f := s + |w|;
    Layout6("#(", g1, "parameter", g2, w, rest);
    SliceChar(t, f, |t|, f);
    InlineParamScan(t, q, s, f);
  }

  lemma InlineParamScan(t: string, q: nat, s: nat, f: nat)
    requires 2 <= q && q + 9 < s < f <= |t| && t[..2] == "#(" && t[q..q + 9] == "parameter"
    requires forall i :: 2 <= i < q ==> IsSpace(t[i])
    requires forall i :: q + 9 <= i < s ==> IsSpace(t[i])
    requires forall i :: s <= i < f ==> IsWordChar(t[i])
    requires f == |t| || !IsWordChar(t[f])
    ensures InlineParams(t) == [t[s..f]] + InlineParams(t[f..])
  {
    assert t[0..2] == t[..2];
    SliceChar(t, q, q + 9, q);
    SkipSpacesIs(t, 2, q);
    SkipSpacesIs(t, q + 9, s);
    WordEndIs(t, s, f);
  }

  /** Text without `#` adds no inline parameter. */
  lemma {:induction false} InlineParamsSkipped(x: string, rest: string)
    requires forall k :: 0 <= k < |x| ==> x[k] != '#'
    ensures InlineParams(x + rest) == InlineParams(rest)
    decreases |x|
  {
    if x != "" {
      var t := x + rest;
      assert t[0] == x[0];
      KeywordAtHead(t, 0, "#(");
      assert InlineParamAt(t, 0).None?;
      assert t[1..] == x[1..] + rest;
      InlineParamsSkipped(x[1..], rest);
    } else {
      assert x + rest == rest;
    }
  }

  /** `re.sub(r"//.*$", "", line)`: the first `//` whose rest reaches the end is cut off. */
  function CutFrom(s: string, i: nat): (r: string)
    requires i <= |s|
    decreases |s| - i
  {
    if i == |s| then s
    else if KeywordAt(s, i, "//") && DollarEnd(s, i + 2).Some? then s[..i] + s[DollarEnd(s, i + 2).value..]
    else CutFrom(s, i + 1)
  }

  /** `re.match(r"parameter\s+(\w+)", ...)` on the line without its comment, stripped. */
  function LineParam(line: string): (r: Option<string>)
    ensures r.Some? ==> IsWord(r.value)
  {
    var s := Strip(CutFrom(line, 0));
    if KeywordAt(s, 0, "parameter") then WordAfterBlanks(s, 9) else None
  }

  /** `detect_module_parameters` */
  function ModuleParameters(lines: seq<string>): set<string> {
    var text := Join(" ", lines);
    BlocksParams(ParamBlocksFrom(text, 0)) + Elems(InlineParams(text)) + Elems(Collect(LineParam, lines))
  }

  lemma {:induction false} BlocksParamsAreWords(blocks: seq<string>)
    ensures forall p :: p in BlocksParams(blocks) ==> IsWord(p)
    decreases |blocks|
  {
    if |blocks| > 0 {
      BlocksParamsAreWords(blocks[..|blocks| - 1]);
      var b := blocks[|blocks| - 1];
      forall p | p in BlockParams(b) ensures IsWord(p) {
        CollectMembers(PartParam, BlockParts(b), p);
      }
    }
  }

  /** Every detected parameter is a single word. */
  lemma ParametersAreWords(lines: seq<string>)
    ensures forall p :: p in ModuleParameters(lines) ==> IsWord(p)
  {
    var text := Join(" ", lines);
    BlocksParamsAreWords(ParamBlocksFrom(text, 0));
    forall p | p in Elems(Collect(LineParam, lines)) ensures IsWord(p) {
      CollectMembers(LineParam, lines, p);
    }
  }

  /** A line that opens with `parameter NAME` (once its comment is cut) makes NAME a parameter. */
  lemma LineParameterDetected(lines: seq<string>, k: nat)
    requires k < |lines| && LineParam(lines[k]).Some?
    ensures LineParam(lines[k]).value in ModuleParameters(lines)
  {
    CollectMembers(LineParam, lines, LineParam(lines[k]).value);
  }

  /** `for block in param_blocks: ... parameters.add(...)` */
  method AddBlockParams(params: set<string>, blocks: seq<string>) returns (params': set<string>)
    ensures params' == params + BlocksParams(blocks)
  {
    params' := params;
    for i := 0 to |blocks|
      invariant params' == params + BlocksParams(blocks[..i])
    {
      TakeTake(blocks, i);
      var cleaned := CleanComments(blocks[i]);
      var parts := SplitOn(cleaned, ',');
      params' := AddAll(params', parts, PartParam);
    }
    TakeAll(blocks);
  }

  /** `detect_module_parameters` */
  method DetectModuleParameters(lines: seq<string>) returns (params: set<string>)
    ensures params == ModuleParameters(lines)
  {
    var text := Join(" ", lines);
    params := AddBlockParams({}, ParamBlocksFrom(text, 0));
    // every inline `#(parameter NAME` adds NAME
    params := params + Elems(InlineParams(text));
    params := AddAll(params, lines, LineParam);
  }

  // ---------------------------------------------------------------------
  // detect_module_name
  // ---------------------------------------------------------------------

  /** Which lines, stripped, read `module NAME`. */
  function ClassifierMarks(lines: seq<string>): (marks: seq<bool>)
    ensures |marks| == |lines|
    ensures forall k :: 0 <= k < |lines| ==> marks[k] == ModuleDeclName(Strip(lines[k])).Some?
  {
    seq(|lines|, k requires 0 <= k < |lines| => ModuleDeclName(Strip(lines[k])).Some?)
  }

  /**
   * `detect_module_name` of the classifier: the name on the first line that
   * opens a module, without removing comments first; `unknown_module` when
   * there is none.  On a stripped line the leading `\s*` of the shared
   * matcher matches nothing, so it reads `module\s+(\w+)` as here.
   */
  function ClassifierModuleName(lines: seq<string>): (name: string)
    ensures FirstMarked(ClassifierMarks(lines), 0) == |lines| ==> name == "unknown_module"
    ensures FirstMarked(ClassifierMarks(lines), 0) < |lines| ==>
      Some(name) == ModuleDeclName(Strip(lines[FirstMarked(ClassifierMarks(lines), 0)])) &&
      forall k :: 0 <= k < FirstMarked(ClassifierMarks(lines), 0) ==> ModuleDeclName(Strip(lines[k])).None?
  {
    var i := FirstMarked(ClassifierMarks(lines), 0);
    if i == |lines| then "unknown_module" else ModuleDeclName(Strip(lines[i])).value
  }

  /**
   * On comment-free text the classifier and the connectivity extractor
   * agree on the module name.
   */
  lemma ModuleNamesAgree(lines: seq<string>)
    requires forall k :: 0 <= k < |lines| ==> '/' !in lines[k]
    ensures ClassifierModuleName(lines) == DetectModuleName(lines)
  {
    forall k | 0 <= k < |lines| ensures StripComments(lines[k]) == lines[k] {
      NoSlashUnchanged(lines[k]);
    }
    assert ClassifierMarks(lines) == ModuleMarks(lines, true);
  }

  // ---------------------------------------------------------------------
  // extract_signal_declarations of the classifier: bit widths only
  // ---------------------------------------------------------------------

  const WidthKeywords: set<string> := {"input", "output", "inout", "reg", "wire", "parameter"}

  /** `^(input|output|inout|reg|wire|parameter)\b`: `localparam` is not among them. */
  predicate OpensWidthDeclaration(s: string) {
    OpensWith(s, "input") || OpensWith(s, "output") || OpensWith(s, "inout") ||
    OpensWith(s, "reg") || OpensWith(s, "wire") || OpensWith(s, "parameter")
  }

  /** `\[(\d+):(\d+)\]` at position `p`: no blanks allowed around the colon. */
  function ColonRangeAt(t: string, p: nat): (r: Option<Range>)
    requires p <= |t|
  {
    if p < |t| && t[p] == '[' then
      var a := DigitsEnd(t, p + 1);
      if a > p + 1 && a < |t| && t[a] == ':' then
        var d := DigitsEnd(t, a + 1);
        if d > a + 1 && d < |t| && t[d] == ']' then
          Some(Range(DigitsValue(t[p + 1..a]), DigitsValue(t[a + 1..d])))
        else None
      else None
    else None
  }

  function FindColonRange(t: string, p: nat): (r: Option<Range>)
    requires p <= |t|
    ensures r.Some? ==> exists k :: p <= k <= |t| && ColonRangeAt(t, k) == r
    ensures r.None? ==> forall k :: p <= k <= |t| ==> ColonRangeAt(t, k).None?
    decreases |t| - p
  {
    if ColonRangeAt(t, p).Some? then ColonRangeAt(t, p)
    else if p == |t| then None
    else FindColonRange(t, p + 1)
  }

  /** The width a declaration line gives: its first range, or one bit. */
  function DeclaredBits(s: string): (n: nat)
    ensures n >= 1
  {
    match FindColonRange(s, 0)
    case Some(r) => Span(r)
    case None => 1
  }

  /** A name gets `bits` unless it is a declaration keyword. */
  function BitsOf(bits: nat): string -> Option<nat> {
    name => if name in WidthKeywords then None else Some(bits)
  }

  function LineBits(line: string): map<string, nat> {
    var s := Strip(line);
    if OpensWidthDeclaration(s) then Labelled(Words(s), BitsOf(DeclaredBits(s))) else map[]
  }

  function LineBitTables(lines: seq<string>): (ms: seq<map<string, nat>>)
    ensures |ms| == |lines|
  {
    seq(|lines|, i requires 0 <= i < |lines| => LineBits(lines[i]))
  }

  /** `extract_signal_declarations` of the classifier: later lines override earlier ones. */
  function SignalBits(lines: seq<string>): map<string, nat> {
    Overlay(LineBitTables(lines))
  }

  /**
   * A name has a width exactly when some declaration line names it; the
   * width is at least one bit and is that of the last such line.
   */
  lemma SignalBitsLast(lines: seq<string>, name: string)
    ensures name in SignalBits(lines) <==>
      exists k :: 0 <= k < |lines| && name in LineBits(lines[k])
    ensures name in SignalBits(lines) ==>
      SignalBits(lines)[name] >= 1 &&
      exists k :: 0 <= k < |lines| && name in LineBits(lines[k]) &&
        SignalBits(lines)[name] == DeclaredBits(Strip(lines[k])) &&
        forall j :: k < j < |lines| ==> name !in LineBits(lines[j])
  {
    var ms := LineBitTables(lines);
    OverlayLast(ms, name);
    forall k | 0 <= k < |lines| && name in ms[k]
      ensures ms[k][name] == DeclaredBits(Strip(lines[k]))
    {
    }
  }

  /** `extract_signal_declarations` of the classifier */
  method ExtractSignalBits(lines: seq<string>) returns (decls: map<string, nat>)
    ensures decls == SignalBits(lines)
  {
    ghost var ms := LineBitTables(lines);
    decls := map[];
    for i := 0 to |lines|
      invariant decls == Overlay(ms[..i])
    {
      TakeTake(ms, i);
      var s := Strip(lines[i]);
      if OpensWidthDeclaration(s) {
        var width := DeclaredBits(s);
        decls := LabelAll(decls, Words(s), BitsOf(width));
      }
      assert decls == Overlay(ms[..i]) + LineBits(lines[i]);
    }
    TakeAll(ms);
  }
}
