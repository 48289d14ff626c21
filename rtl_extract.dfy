/**
 * The pure scanners of the RTL connectivity extractor.  Every regular
 * expression of the extractor is replaced by a matcher that returns what
 * the expression matches at one position (its end and its group), and a
 * `findall` that scans left to right from the end of each match.  Greedy
 * runs in these expressions are always maximal in the successful match, so
 * each matcher follows one path, with the fallbacks backtracking would take.
 */
module RtlExtract {

  import opened Base
  import opened Text

  // ---------------------------------------------------------------------
  // Comments
  // ---------------------------------------------------------------------

  /** `re.sub(r"//.*", "", s)`: every `//` up to (not including) the next line break. */
  function StripLineComments(s: string): string
    decreases |s|
  {
    if |s| == 0 then ""
    else if |s| >= 2 && s[0] == '/' && s[1] == '/' then StripLineComments(s[LineBreakAt(s, 2)..])
    else [s[0]] + StripLineComments(s[1..])
  }

  /**
   * The block-comment substitution (lazy, across lines): every slash-star
   * opener up to the first star-slash closer after it.  An unterminated
   * opener and all that follows it are kept.
   */
  function StripBlockComments(s: string): string
    decreases |s|
  {
    if |s| == 0 then ""
    else if |s| >= 2 && s[0] == '/' && s[1] == '*' then
      match CloserAt(s, 2)
      case Some(c) => StripBlockComments(s[c + 2..])
      case None => s
    else [s[0]] + StripBlockComments(s[1..])
  }

  /** The first line feed at or after `i`, or `|s|`. */
  function LineBreakAt(s: string, i: nat): (j: nat)
    requires i <= |s|
    ensures i <= j <= |s|
    decreases |s| - i
  {
    if i == |s| || s[i] == '\n' then i else LineBreakAt(s, i + 1)
  }

  /** The first block-comment closer at or after `i`. */
  function CloserAt(s: string, i: nat): (r: Option<nat>)
    requires i <= |s|
    ensures r.Some? ==> i <= r.value && r.value + 2 <= |s|
    decreases |s| - i
  {
    if i + 2 > |s| then None
    else if s[i] == '*' && s[i + 1] == '/' then Some(i)
    else CloserAt(s, i + 1)
  }

  /** `strip_comments` */
  function StripComments(s: string): string {
    StripBlockComments(StripLineComments(s))
  }

  /** Text without a slash has no comment and is left as it is. */
  lemma NoSlashUnchanged(s: string)
    requires forall k :: 0 <= k < |s| ==> s[k] != '/'
    ensures StripComments(s) == s
  {
    NoSlashLine(s);
    NoSlashBlock(s);
  }

  lemma {:induction false} NoSlashLine(s: string)
    requires forall k :: 0 <= k < |s| ==> s[k] != '/'
    ensures StripLineComments(s) == s
    decreases |s|
  {
    if |s| > 0 {
      NoSlashLine(s[1..]);
      assert s == [s[0]] + s[1..];
    }
  }

  lemma {:induction false} NoSlashBlock(s: string)
    requires forall k :: 0 <= k < |s| ==> s[k] != '/'
    ensures StripBlockComments(s) == s
    decreases |s|
  {
    if |s| > 0 {
      NoSlashBlock(s[1..]);
      assert s == [s[0]] + s[1..];
    }
  }

  /** A line comment is removed up to its line break, which stays. */
  lemma LineCommentRemoved(c: string, rest: string)
    requires forall k :: 0 <= k < |c| ==> c[k] != '\n'
    ensures StripLineComments("//" + c + "\n" + rest) == "\n" + StripLineComments(rest)
  {
    var t := "//" + c + "\n" + rest;
    assert forall k :: 2 <= k < 2 + |c| ==> t[k] == c[k - 2];
    assert t[0] == '/' && t[1] == '/' && t[2 + |c|] == '\n';
    assert LineBreakAt(t, 2) == 2 + |c| by {
      LineBreakAtSkips(t, 2, 2 + |c|);
    }
    var u := t[2 + |c|..];
    assert u == "\n" + rest;
    assert u[1..] == rest;
  }

  lemma {:induction false} LineBreakAtSkips(s: string, i: nat, j: nat)
    requires i <= j < |s| && s[j] == '\n'
    requires forall k :: i <= k < j ==> s[k] != '\n'
    ensures LineBreakAt(s, i) == j
    decreases j - i
  {
    if i < j {
      LineBreakAtSkips(s, i + 1, j);
    }
  }

  lemma {:induction false} CloserAtSkips(s: string, i: nat, j: nat)
    requires i <= j && j + 2 <= |s| && s[j] == '*' && s[j + 1] == '/'
    requires forall k :: i <= k < j ==> !(s[k] == '*' && s[k + 1] == '/')
    ensures CloserAt(s, i) == Some(j)
    decreases j - i
  {
    if i < j {
      CloserAtSkips(s, i + 1, j);
    }
  }

  /**
   * A block comment is removed up to the first closer after its opener
   * (here the closer that follows `c`, which holds none).
   */
  lemma BlockCommentRemoved(c: string, rest: string)
    requires forall k :: 0 <= k < |c| - 1 ==> !(c[k] == '*' && c[k + 1] == '/')
    ensures StripBlockComments("/*" + c + "*/" + rest) == StripBlockComments(rest)
  {
    var t := "/*" + c + "*/" + rest;
    var e := 2 + |c|;
    assert forall k :: 2 <= k < e ==> t[k] == c[k - 2];
    assert t[0] == '/' && t[1] == '*' && t[e] == '*' && t[e + 1] == '/';
    assert CloserAt(t, 2) == Some(e) by {
      CloserAtSkips(t, 2, e);
    }
    assert t[e + 2..] == rest;
  }

  // ---------------------------------------------------------------------
  // Fixed words
  // ---------------------------------------------------------------------

  /** `kw` occurs at position `p` of `t`. */
  predicate KeywordAt(t: string, p: nat, kw: string) {
    p + |kw| <= |t| && t[p..p + |kw|] == kw
  }

  /** A word boundary at `p` before a word character: nothing word-like precedes it. */
  predicate BoundaryBefore(t: string, p: nat)
    requires p <= |t|
  {
    p == 0 || !IsWordChar(t[p - 1])
  }

  /** A word boundary at `p` after a word character: nothing word-like follows it. */
  predicate BoundaryAfter(t: string, p: nat)
    requires p <= |t|
  {
    p == |t| || !IsWordChar(t[p])
  }

  /** `(?:wire|reg|logic|bit)` at `p`: where the keyword ends. */
  function NetTypeEnd(t: string, p: nat): (e: Option<nat>)
    ensures e.Some? ==> p < e.value <= |t|
  {
    if KeywordAt(t, p, "wire") then Some(p + 4)
    else if KeywordAt(t, p, "reg") then Some(p + 3)
    else if KeywordAt(t, p, "logic") then Some(p + 5)
    else if KeywordAt(t, p, "bit") then Some(p + 3)
    else None
  }

  /** `(?:input|output|inout)` at `p`: where the keyword ends. */
  function DirectionEnd(t: string, p: nat): (e: Option<nat>)
    ensures e.Some? ==> p < e.value <= |t|
  {
    if KeywordAt(t, p, "input") then Some(p + 5)
    else if KeywordAt(t, p, "output") then Some(p + 6)
    else if KeywordAt(t, p, "inout") then Some(p + 5)
    else None
  }

  // ---------------------------------------------------------------------
  // Ports and signals
  // ---------------------------------------------------------------------

  /** A match: where it ends and what its group captured. */
  datatype Found = Found(end: nat, group: string)

  /**
   * `(?:\[[^\]]+\]\s*)?(\w+)` at `q`: a bracketed range with something
   * inside, then whitespace, then the name; or the name right at `q`.
   */
  function NameAfterRange(t: string, q: nat): (r: Option<Found>)
    requires q <= |t|
    ensures r.Some? ==> (q < r.value.end <= |t| && IsWord(r.value.group) && BoundaryAfter(t, r.value.end))
  {
    if q < |t| && t[q] == '[' then
      var c := IndexOfFrom(t, ']', q + 1);
      if c < |t| && c >= q + 2 then
        var w := SkipSpaces(t, c + 1);
        var e := WordEnd(t, w);
        if e > w then Some(Found(e, t[w..e])) else None
      else None
    else
      var e := WordEnd(t, q);
      if e > q then Some(Found(e, t[q..e])) else None
  }

  /**
   * The port pattern at `p`:
   * `(?:input|output|inout)\s+(?:wire|reg|logic|bit)?\s*(?:\[[^\]]+\]\s*)?(\w+)`.
   * The net type is tried first; if the rest fails after it, the match is
   * retried without it.
   */
  function PortMatchAt(t: string, p: nat): (r: Option<Found>)
    requires p <= |t|
    ensures r.Some? ==> p < r.value.end <= |t| && IsWord(r.value.group)
  {
    match DirectionEnd(t, p)
    case None => None
    case Some(k) =>
      var q := SkipSpaces(t, k);
      if q == k then None
      else
        var typed := match NetTypeEnd(t, q)
          case Some(e) => NameAfterRange(t, SkipSpaces(t, e))
          case None => None;
        if typed.Some? then typed else NameAfterRange(t, q)
  }

  /**
   * `re.findall` of the port pattern: a match at the front is taken and the
   * scan goes on after it; otherwise it goes on one character later.  The
   * pattern looks at nothing before its start, so scanning what is left of
   * the text is scanning the text from that position.
   */
  function PortNames(t: string): (names: seq<string>)
    ensures forall k :: 0 <= k < |names| ==> IsWord(names[k])
    decreases |t|
  {
    if t == "" then []
    else match PortMatchAt(t, 0)
      case Some(f) => [f.group] + PortNames(t[f.end..])
      case None => PortNames(t[1..])
  }

  /**
   * The signal pattern `\b(?:wire|reg|logic|bit)\b\s*(?:\[[^\]]+\]\s*)?(\w+)`
   * at the front of `t`, the leading word boundary aside.
   */
  function SignalMatchAt(t: string): (r: Option<Found>)
    ensures r.Some? ==> 0 < r.value.end <= |t| && IsWord(r.value.group)
  {
    match NetTypeEnd(t, 0)
    case None => None
    case Some(k) =>
      if !BoundaryAfter(t, k) then None
      else NameAfterRange(t, SkipSpaces(t, k))
  }

  /**
   * `re.findall` of the signal pattern over what is left of the text;
   * `afterWord` says whether a word character stands just before it, where
   * the leading `\b` does not hold.
   */
  function SignalNamesOf(t: string, afterWord: bool): (names: seq<string>)
    ensures forall k :: 0 <= k < |names| ==> IsWord(names[k])
    decreases |t|
  {
    if t == "" then []
    else match (if afterWord then None else SignalMatchAt(t))
      case Some(f) => [f.group] + SignalNamesOf(t[f.end..], true)
      case None => SignalNamesOf(t[1..], IsWordChar(t[0]))
  }

  function SignalNames(t: string): (names: seq<string>)
    ensures forall k :: 0 <= k < |names| ==> IsWord(names[k])
  {
    SignalNamesOf(t, false)
  }

  /** `re.match(r"\s*module\s+(\w+)", line)`: the declared module's name. */
  function ModuleDeclName(line: string): (r: Option<string>)
    ensures r.Some? ==> IsWord(r.value)
  {
    var a := SkipSpaces(line, 0);
    if !KeywordAt(line, a, "module") then None
    else
      var b := SkipSpaces(line, a + 6);
      if b == a + 6 then None
      else
        var e := WordEnd(line, b);
        if e > b then Some(line[b..e]) else None
  }

  /** `  module fifo (`: the name after `module` and at least one blank. */
  lemma ModuleDeclared(g0: string, g: string, w: string, rest: string)
    requires AllSpaces(g0) && g != "" && AllSpaces(g) && IsWord(w) && EndsName(rest)
    ensures ModuleDeclName(g0 + "module" + g + w + rest) == Some(w)
  {
    var t := g0 + "module" + g + w + rest;
    var a := |g0|;
    var s := a + 6 + |g|;
    Layout6("", g0, "module", g, w, rest);
    assert "" + g0 + "module" + g + w + rest == t;
    ModuleScan(t, a, s, s + |w|);
  }

  /** The scan of `ModuleDeclName` on a line laid out as blanks, `module`, blanks and a name. */
  lemma ModuleScan(t: string, a: nat, s: nat, f: nat)
    requires a + 6 < s < f <= |t| && t[a..a + 6] == "module" && EndsName(t[f..])
    requires forall i :: 0 <= i < a ==> IsSpace(t[i])
    requires forall i :: a + 6 <= i < s ==> IsSpace(t[i])
    requires forall i :: s <= i < f ==> IsWordChar(t[i])
    ensures ModuleDeclName(t) == Some(t[s..f])
  {
    SliceChar(t, a, a + 6, a);
    SkipSpacesIs(t, 0, a);
    SliceChar(t, f, |t|, f);
    SkipSpacesIs(t, a + 6, s);
    WordEndIs(t, s, f);
  }

  /**
   * Whether a line opens a module declaration: `\s*module\s+\w+` on the
   * line with its comments removed, and also stripped when `stripped` holds.
   */
  predicate OpensModule(line: string, stripped: bool) {
    var t := StripComments(line);
    ModuleDeclName(if stripped then Strip(t) else t).Some?
  }

  /** Which lines open a module. */
  function ModuleMarks(lines: seq<string>, stripped: bool): (marks: seq<bool>)
    ensures |marks| == |lines|
    ensures forall k :: 0 <= k < |lines| ==> marks[k] == OpensModule(lines[k], stripped)
  {
    seq(|lines|, k requires 0 <= k < |lines| => OpensModule(lines[k], stripped))
  }

  /** The index of the first `true` at or after `i`, or `|marks|`. */
  function FirstMarked(marks: seq<bool>, i: nat): (r: nat)
    requires i <= |marks|
    ensures i <= r <= |marks|
    ensures r < |marks| ==> marks[r]
    ensures forall k :: i <= k < r ==> !marks[k]
    decreases |marks| - i
  {
    if i == |marks| || marks[i] then i
    else FirstMarked(marks, i + 1)
  }

  /** The index of the first line that opens a module, or `|lines|`. */
  function FirstModuleLine(lines: seq<string>, stripped: bool): (r: nat)
    ensures r <= |lines|
    ensures r < |lines| ==> OpensModule(lines[r], stripped)
    ensures forall k :: 0 <= k < r ==> !OpensModule(lines[k], stripped)
  {
    FirstMarked(ModuleMarks(lines, stripped), 0)
  }

  /** `detect_module_name`: the name in the first line declaring a module. */
  function DetectModuleName(lines: seq<string>): (name: string)
    ensures FirstModuleLine(lines, true) == |lines| ==> name == "unknown_module"
    ensures FirstModuleLine(lines, true) < |lines| ==>
      Some(name) == ModuleDeclName(Strip(StripComments(lines[FirstModuleLine(lines, true)])))
  {
    var i := FirstModuleLine(lines, true);
    if i == |lines| then "unknown_module"
    else ModuleDeclName(Strip(StripComments(lines[i]))).value
  }

  // ---------------------------------------------------------------------
  // Port bindings
  // ---------------------------------------------------------------------

  /** Neither starts nor ends with whitespace: what `.strip()` returns. */
  predicate Trimmed(v: string) {
    |v| == 0 || (!IsSpace(v[0]) && !IsSpace(v[|v| - 1]))
  }

  /**
   * `\.(\w+)\s*\(\s*([^)]+?)\s*\)` at `p`: a dot, the port name, an opening
   * parenthesis and at least one character before the first closing one.
   * The lazy group between the two whitespace runs is the stripped text, or
   * a single blank when the text is all whitespace, which `.strip()` then
   * empties.
   */
  function PortPairAt(t: string, p: nat): (r: Option<(nat, (string, string))>)
    requires p <= |t|
    ensures r.Some? ==> p < r.value.0 <= |t| && IsWord(r.value.1.0)
    ensures r.Some? ==> Trimmed(r.value.1.1)
  {
    if p < |t| && t[p] == '.' then
      var w := WordEnd(t, p + 1);
      var q := SkipSpaces(t, w);
      if w > p + 1 && q < |t| && t[q] == '(' then
        var c := IndexOfFrom(t, ')', q + 1);
        if c < |t| && c > q + 1 then
          WordFrom(t, p + 1);
          Some((c + 1, (t[p + 1..w], Strip(t[q + 1..c]))))
        else None
      else None
    else None
  }

  /** `extract_port_pairs`: `re.findall` of the binding pattern. */
  function ExtractPortPairs(block: string): (pairs: seq<(string, string)>)
    ensures forall k :: 0 <= k < |pairs| ==> IsWord(pairs[k].0) && Trimmed(pairs[k].1)
    decreases |block|
  {
    if block == "" then []
    else match PortPairAt(block, 0)
      case Some((e, pair)) => [pair] + ExtractPortPairs(block[e..])
      case None => ExtractPortPairs(block[1..])
  }

  /**
   * A binding `.port(e)` gives the pair (port, e stripped) and the scan
   * resumes after its `)`, whenever `e` is not empty; the expression stops
   * at the first `)`.
   */
  lemma BindingPair(port: string, e: string, rest: string)
    requires IsWord(port) && |e| > 0
    requires forall k :: 0 <= k < |e| ==> e[k] != ')'
    ensures var r := PortPairAt("." + port + "(" + e + ")" + rest, 0);
      r.Some? && r.value.0 == |port| + |e| + 3 && r.value.1.0 == port && r.value.1.1 == Strip(e)
  {
    var t := "." + port + "(" + e + ")" + rest;
    var w := 1 + |port|;
    var c := w + 1 + |e|;
    assert t[0] == '.' && t[w] == '(' && t[c] == ')';
    assert forall k :: 1 <= k < w ==> t[k] == port[k - 1];
    assert forall k :: w < k < c ==> t[k] == e[k - w - 1];
    assert t[1..w] == port;
    assert t[w + 1..c] == e;
    BindingScan(t, w, c);
  }

  /** The scan at a dot followed by a word, `(`, text without `)` and a `)`. */
  lemma BindingScan(t: string, w: nat, c: nat)
    requires 1 < w && w + 1 < c < |t|
    requires t[0] == '.' && t[w] == '(' && t[c] == ')'
    requires forall k :: 1 <= k < w ==> IsWordChar(t[k])
    requires forall k :: w < k < c ==> t[k] != ')'
    ensures PortPairAt(t, 0) == Some((c + 1, (t[1..w], Strip(t[w + 1..c]))))
  {
    WordEndIs(t, 1, w);
    IndexOfFromIs(t, ')', w + 1, c);
    assert SkipSpaces(t, w) == w;
  }

  /** An empty binding `.port()` gives no pair at its dot. */
  lemma EmptyBindingSkipped(port: string, rest: string)
    requires IsWord(port)
    ensures PortPairAt("." + port + "()" + rest, 0) == None
  {
    var t := "." + port + "()" + rest;
    var w := 1 + |port|;
    assert t[0] == '.' && t[w] == '(' && t[w + 1] == ')';
    assert forall k :: 1 <= k < w ==> t[k] == port[k - 1];
    assert WordEnd(t, 1) == w;
    assert SkipSpaces(t, w) == w;
    assert IndexOfFrom(t, ')', w + 1) == w + 1;
  }

  /** The value of the last pair with key `k`: what a dict built from `pairs` holds. */
  function LastValue(pairs: Assoc, k: string): (r: Option<string>)
    ensures r.None? <==> forall i :: 0 <= i < |pairs| ==> pairs[i].0 != k
    ensures r.Some? ==> exists i :: (0 <= i < |pairs| && pairs[i] == (k, r.value) &&
      (forall j :: i < j < |pairs| ==> pairs[j].0 != k))
    decreases |pairs|
  {
    if |pairs| == 0 then None
    else if pairs[|pairs| - 1].0 == k then Some(pairs[|pairs| - 1].1)
    else LastValue(pairs[..|pairs| - 1], k)
  }

  /** With unique keys, looking up an entry's key finds that entry. */
  lemma {:induction false} LookupUnique(d: Assoc, j: nat)
    requires UniqueKeys(d) && j < |d|
    ensures Lookup(d, d[j].0) == Some(d[j].1)
  {
    if j > 0 {
      assert d[0].0 != d[j].0;
      assert d[1..][j - 1] == d[j];
      LookupUnique(d[1..], j - 1);
    }
  }

  /** `d[k] = v`: the value is replaced in place, or a new key is appended. */
  function Put(d: Assoc, k: string, v: string): (r: Assoc)
    requires UniqueKeys(d)
    ensures UniqueKeys(r)
    ensures KeysOf(r) == if k in KeysOf(d) then KeysOf(d) else KeysOf(d) + [k]
    ensures forall key :: Lookup(r, key) == if key == k then Some(v) else Lookup(d, key)
  {
    var i := KeyIndex(d, k);
    var r := if i < |d| then d[i := (k, v)] else d + [(k, v)];
    assert k in KeysOf(d) <==> i < |d| by {
      if i < |d| {
        assert KeysOf(d)[i] == k;
      }
    }
    assert KeysOf(r) == if k in KeysOf(d) then KeysOf(d) else KeysOf(d) + [k];
    forall key ensures Lookup(r, key) == if key == k then Some(v) else Lookup(d, key) {
      if key == k {
        var j := if i < |d| then i else |d|;
        assert r[j] == (k, v);
        LookupUnique(r, j);
      } else if Lookup(d, key).Some? {
        var j :| 0 <= j < |d| && d[j] == (key, Lookup(d, key).value);
        assert r[j] == d[j];
        LookupUnique(r, j);
      } else {
        assert forall j :: 0 <= j < |r| ==> r[j].0 != key;
      }
    }
    r
  }

  /**
   * `{p: s for p, s in pairs}`: one entry per port name, in order of first
   * appearance, holding the value of the last pair with that name.
   */
  function ToDict(pairs: Assoc): (d: Assoc)
    ensures UniqueKeys(d)
    ensures KeysOf(d) == Dedup(KeysOf(pairs))
    ensures forall k :: Lookup(d, k) == LastValue(pairs, k)
    decreases |pairs|
  {
    if |pairs| == 0 then []
    else
      var n := |pairs| - 1;
      assert KeysOf(pairs)[..n] == KeysOf(pairs[..n]);
      Put(ToDict(pairs[..n]), pairs[n].0, pairs[n].1)
  }

  /** The position of key `k`, or `|d|`. */
  function KeyIndex(d: Assoc, k: string): (i: nat)
    ensures i <= |d|
    ensures i < |d| ==> d[i].0 == k
    ensures forall j :: 0 <= j < i ==> d[j].0 != k
  {
    if |d| == 0 then 0
    else if d[0].0 == k then 0
    else 1 + KeyIndex(d[1..], k)
  }

  // ---------------------------------------------------------------------
  // Identifiers and instantiations
  // ---------------------------------------------------------------------

  /** `tokenize_signal_expr`: `re.findall(r"[A-Za-z_]\w*", expr)` */
  function TokenizeSignalExpr(expr: string): (ts: seq<string>)
    ensures forall k :: 0 <= k < |ts| ==> IsIdentifier(ts[k])
    decreases |expr|
  {
    if expr == "" then []
    else if IsIdentStart(expr[0]) then
      var e := WordEnd(expr, 0);
      [expr[..e]] + TokenizeSignalExpr(expr[e..])
    else TokenizeSignalExpr(expr[1..])
  }

  /** An identifier written on its own is its only token. */
  lemma TokenizeIdentifier(x: string)
    requires IsIdentifier(x)
    ensures TokenizeSignalExpr(x) == [x]
  {
    assert WordEnd(x, 0) == |x| by {
      WordEndAll(x, 0);
    }
    assert x[..|x|] == x;
    assert x[|x|..] == "";
  }

  /**
   * A character that is not a word character splits the expression: the
   * tokens are those of the text before it followed by those after it.
   */
  lemma {:induction false} TokenizeSplit(a: string, c: char, b: string)
    requires !IsWordChar(c)
    ensures TokenizeSignalExpr(a + [c] + b) == TokenizeSignalExpr(a) + TokenizeSignalExpr(b)
    decreases |a|
  {
    var t := a + [c] + b;
    if a == "" {
      assert t[1..] == b;
    } else if IsIdentStart(a[0]) {
      var e := WordEnd(a, 0);
      WordEndBefore(a, [c] + b, 0);
      assert a + [c] + b == a + ([c] + b);
      assert t[..e] == a[..e];
      assert t[e..] == a[e..] + [c] + b;
      TokenizeSplit(a[e..], c, b);
    } else {
      assert t[0] == a[0];
      assert t[1..] == a[1..] + [c] + b;
      TokenizeSplit(a[1..], c, b);
    }
  }

  lemma WordEndAll(x: string, i: nat)
    requires i <= |x| && forall k :: 0 <= k < |x| ==> IsWordChar(x[k])
    ensures WordEnd(x, i) == |x|
    decreases |x| - i
  {
    if i < |x| {
      WordEndAll(x, i + 1);
    }
  }

  /**
   * `re.match(r"\s*(\w+)\s*(?:#\([^)]*\))?\s+([A-Za-z_]\w*)\s*\(", line)`:
   * a one-line instantiation `submodule [#(...)] instance (`, as the pair
   * (submodule, instance).  Without a parameter list at least one blank must
   * separate the two names; with one, at least one blank must follow it.
   */
  function InlineInstAt(line: string): (r: Option<(string, string)>)
    ensures r.Some? ==> IsWord(r.value.0) && IsIdentifier(r.value.1)
  {
    var a := SkipSpaces(line, 0);
    var b := WordEnd(line, a);
    if b == a then None
    else match InstanceNameStart(line, b)
      case None => None
      case Some(e) =>
        if e == |line| || !IsIdentStart(line[e]) then None
        else
          var f := WordEnd(line, e);
          var g := SkipSpaces(line, f);
          WordFrom(line, a);
          WordFrom(line, e);
          if g < |line| && line[g] == '(' then Some((line[a..b], line[e..f])) else None
  }

  /**
   * `\s*(?:#\([^)]*\))?\s+` after the submodule name ending at `b`: where the
   * instance name may start.
   */
  function InstanceNameStart(line: string, b: nat): (e: Option<nat>)
    requires b <= |line|
    ensures e.Some? ==> b < e.value <= |line|
  {
    var c := SkipSpaces(line, b);
    if KeywordAt(line, c, "#(") then
      var d := IndexOfFrom(line, ')', c + 2);
      if d < |line| then
        var e := SkipSpaces(line, d + 1);
        if e > d + 1 then Some(e) else None
      else None
    else if c > b then Some(c)
    else None
  }

  /** `re.match(r"\s*(\w+)\s*#\s*\(", line)`: the submodule of a parameterised instantiation. */
  function ParamStartAt(line: string): (r: Option<string>)
    ensures r.Some? ==> IsWord(r.value)
  {
    var a := SkipSpaces(line, 0);
    var b := WordEnd(line, a);
    var c := SkipSpaces(line, b);
    if b > a && c < |line| && line[c] == '#' then
      var d := SkipSpaces(line, c + 1);
      if d < |line| && line[d] == '(' then Some(line[a..b]) else None
    else None
  }

  /** `\)\s+([A-Za-z_]\w*)\s*\(` at `p`. */
  function InstNameAt(t: string, p: nat): (r: Option<string>)
    requires p <= |t|
    ensures r.Some? ==> IsIdentifier(r.value)
  {
    if p < |t| && t[p] == ')' then
      var q := SkipSpaces(t, p + 1);
      if q > p + 1 && q < |t| && IsIdentStart(t[q]) then
        var e := WordEnd(t, q);
        var g := SkipSpaces(t, e);
        if g < |t| && t[g] == '(' then Some(t[q..e]) else None
      else None
    else None
  }

  /**
   * `re.search(r"\)\s+([A-Za-z_]\w*)\s*\(", t)`: the instance name after a
   * parameter list, from the leftmost place where the pattern matches.
   */
  function InstNameSearch(t: string, p: nat): (r: Option<string>)
    requires p <= |t|
    ensures r.Some? ==> IsIdentifier(r.value)
    ensures r.None? ==> forall k :: p <= k <= |t| ==> InstNameAt(t, k).None?
    decreases |t| - p
  {
    if InstNameAt(t, p).Some? then InstNameAt(t, p)
    else if p == |t| then None
    else InstNameSearch(t, p + 1)
  }

  /** A name found by the search is the one at the leftmost match from `p`. */
  lemma {:induction false} InstNameSearchLeftmost(t: string, p: nat)
    requires p <= |t|
    ensures InstNameSearch(t, p).Some? ==>
      exists k :: p <= k <= |t| && InstNameAt(t, k) == InstNameSearch(t, p) &&
        (forall j :: p <= j < k ==> InstNameAt(t, j).None?)
    decreases |t| - p
  {
    if InstNameAt(t, p).None? && p < |t| {
      InstNameSearchLeftmost(t, p + 1);
    }
  }

  /** `inst`, blanks and `(` stand at `q`: where `re.escape(inst) + r"\s*\("` matches. */
  predicate InstOpenAt(block: string, inst: string, q: nat) {
    KeywordAt(block, q, inst) && SkipSpaces(block, q + |inst|) < |block| &&
    block[SkipSpaces(block, q + |inst|)] == '('
  }

  /** Just after the `(` of an opener at `q`. */
  function AfterOpen(block: string, inst: string, q: nat): (e: nat)
    requires InstOpenAt(block, inst, q)
    ensures q < e <= |block| && block[e - 1] == '('
  {
    SkipSpaces(block, q + |inst|) + 1
  }

  /**
   * `re.search(re.escape(inst) + r"\s*\(", block)`: the position just after
   * the `(` of the leftmost opener from `p` on.
   */
  function PortBlockStart(block: string, inst: string, p: nat): (r: Option<nat>)
    requires p <= |block|
    ensures r.None? <==> forall q :: p <= q <= |block| ==> !InstOpenAt(block, inst, q)
    ensures r.Some? ==>
      exists q :: p <= q <= |block| && InstOpenAt(block, inst, q) &&
        r.value == AfterOpen(block, inst, q) && (forall j :: p <= j < q ==> !InstOpenAt(block, inst, j))
    decreases |block| - p
  {
    if InstOpenAt(block, inst, p) then Some(AfterOpen(block, inst, p))
    else if p == |block| then None
    else PortBlockStart(block, inst, p + 1)
  }

  /** The text whose bindings belong to instance `inst`: after `inst (`, or the whole block. */
  function PortBlock(block: string, inst: string): (r: string)
    ensures |r| <= |block| && r == block[|block| - |r|..]
  {
    match PortBlockStart(block, inst, 0)
    case Some(e) => block[e..]
    case None => block
  }

  /**
   * Without an opener the bindings are read from the whole block; with one,
   * from just after the `(` of the leftmost opener.
   */
  lemma PortBlockOpener(block: string, inst: string)
    ensures (forall q :: 0 <= q <= |block| ==> !InstOpenAt(block, inst, q)) ==> PortBlock(block, inst) == block
    ensures forall q :: (0 <= q <= |block| && InstOpenAt(block, inst, q) &&
                         (forall j :: 0 <= j < q ==> !InstOpenAt(block, inst, j)))
                        ==> PortBlock(block, inst) == block[AfterOpen(block, inst, q)..]
  {
    match PortBlockStart(block, inst, 0)
    case None =>
    case Some(e) =>
      var q0 :| 0 <= q0 <= |block| && InstOpenAt(block, inst, q0) &&
        e == AfterOpen(block, inst, q0) && (forall j :: 0 <= j < q0 ==> !InstOpenAt(block, inst, j));
      assert PortBlock(block, inst) == block[e..];
      forall q | 0 <= q <= |block| && InstOpenAt(block, inst, q) &&
        (forall j :: 0 <= j < q ==> !InstOpenAt(block, inst, j))
        ensures PortBlock(block, inst) == block[AfterOpen(block, inst, q)..]
      {
        LeftmostOpenerUnique(block, inst, q, q0);
      }
  }

  /** Two leftmost openers are the same one. */
  lemma LeftmostOpenerUnique(block: string, inst: string, q: nat, q0: nat)
    requires InstOpenAt(block, inst, q) && forall j :: 0 <= j < q ==> !InstOpenAt(block, inst, j)
    requires InstOpenAt(block, inst, q0) && forall j :: 0 <= j < q0 ==> !InstOpenAt(block, inst, j)
    ensures q == q0
  {
  }

  /**
   * `submodule instance (` on one line gives the pair (submodule, instance);
   * a module header `module name (` has the same shape and is taken for an
   * instantiation of `module`.
   */
  lemma InlineInstance(sub: string, inst: string, rest: string)
    requires IsWord(sub) && IsIdentifier(inst)
    ensures var r := InlineInstAt(sub + " " + inst + " (" + rest);
      r.Some? && r.value.0 == sub && r.value.1 == inst
  {
    var t := sub + " " + inst + " (" + rest;
    var b := |sub|;
    var f := b + 1 + |inst|;
    assert t[b] == ' ' && t[f] == ' ' && t[f + 1] == '(';
    assert forall k :: 0 <= k < b ==> t[k] == sub[k];
    assert forall k :: b < k < f ==> t[k] == inst[k - b - 1];
    assert t[0..b] == sub && t[b + 1..f] == inst;
    InlineScan(t, b, f);
  }

  /**
   * `submodule #(params) instance (` on one line gives the pair (submodule,
   * instance) when the parameter list holds no `)`.
   */
  lemma InlineInstanceParams(sub: string, ps: string, inst: string, rest: string)
    requires IsWord(sub) && IsIdentifier(inst) && forall k :: 0 <= k < |ps| ==> ps[k] != ')'
    ensures InlineInstAt(sub + " #(" + ps + ") " + inst + " (" + rest) == Some((sub, inst))
  {
    var t := sub + " #(" + ps + ") " + inst + " (" + rest;
    var b := |sub|;
    var d := b + 3 + |ps|;
    var f := d + 2 + |inst|;
    assert t[b] == ' ' && t[b + 1] == '#' && t[b + 2] == '(' && t[d] == ')' && t[d + 1] == ' ';
    assert t[f] == ' ' && t[f + 1] == '(';
    assert forall k :: 0 <= k < b ==> t[k] == sub[k];
    assert forall k :: b + 3 <= k < d ==> t[k] == ps[k - b - 3];
    assert forall k :: d + 2 <= k < f ==> t[k] == inst[k - d - 2];
    assert t[0..b] == sub && t[d + 2..f] == inst;
    InlineParamsScan(t, b, d, f);
  }

  /** The scan of a line holding a word, ` #(`, text without `)`, `) `, an identifier, ` (`. */
  lemma InlineParamsScan(t: string, b: nat, d: nat, f: nat)
    requires 0 < b && b + 3 <= d && d + 2 < f && f + 1 < |t|
    requires forall k :: 0 <= k < b ==> IsWordChar(t[k])
    requires t[b] == ' ' && t[b + 1] == '#' && t[b + 2] == '('
    requires forall k :: b + 3 <= k < d ==> t[k] != ')'
    requires t[d] == ')' && t[d + 1] == ' ' && IsIdentStart(t[d + 2])
    requires forall k :: d + 2 <= k < f ==> IsWordChar(t[k])
    requires t[f] == ' ' && t[f + 1] == '('
    ensures InlineInstAt(t) == Some((t[0..b], t[d + 2..f]))
  {
    assert SkipSpaces(t, 0) == 0;
    WordEndIs(t, 0, b);
    ParamListSkipped(t, b, d);
    WordEndIs(t, d + 2, f);
    assert SkipSpaces(t, f) == f + 1;
    InlineInstFrom(t, b, d + 2, f);
  }

  /** The matcher's steps, read from the positions where they end. */
  lemma InlineInstFrom(t: string, b: nat, e: nat, f: nat)
    requires SkipSpaces(t, 0) == 0 && 0 < b <= |t| && WordEnd(t, 0) == b
    requires InstanceNameStart(t, b) == Some(e) && e < |t| && IsIdentStart(t[e])
    requires WordEnd(t, e) == f && SkipSpaces(t, f) < |t| && t[SkipSpaces(t, f)] == '('
    ensures InlineInstAt(t) == Some((t[0..b], t[e..f]))
  {
  }

  /** After the name ending at `b`, ` #(...) ` leads to the instance name at `d + 2`. */
  lemma ParamListSkipped(t: string, b: nat, d: nat)
    requires b + 3 <= d && d + 2 < |t|
    requires t[b] == ' ' && t[b + 1] == '#' && t[b + 2] == '('
    requires forall k :: b + 3 <= k < d ==> t[k] != ')'
    requires t[d] == ')' && t[d + 1] == ' ' && !IsSpace(t[d + 2])
    ensures InstanceNameStart(t, b) == Some(d + 2)
  {
    assert SkipSpaces(t, b) == b + 1;
    assert t[b + 1..b + 3] == "#(";
    IndexOfFromIs(t, ')', b + 3, d);
    assert SkipSpaces(t, d + 1) == d + 2;
  }

  /** `submodule #(` opens a parameterised instantiation of `submodule`. */
  lemma ParamStartFound(sub: string, rest: string)
    requires IsWord(sub)
    ensures ParamStartAt(sub + " #(" + rest) == Some(sub)
  {
    var t := sub + " #(" + rest;
    var b := |sub|;
    assert t[b] == ' ' && t[b + 1] == '#' && t[b + 2] == '(';
    assert forall k :: 0 <= k < b ==> t[k] == sub[k];
    assert t[0..b] == sub;
    assert SkipSpaces(t, 0) == 0;
    WordEndIs(t, 0, b);
    assert SkipSpaces(t, b) == b + 1;
    assert SkipSpaces(t, b + 2) == b + 2;
  }

  /** The scan of a line holding a word, one blank, an identifier, one blank and `(`. */
  lemma InlineScan(t: string, b: nat, f: nat)
    requires 0 < b && b + 1 < f && f + 1 < |t|
    requires forall k :: 0 <= k < b ==> IsWordChar(t[k])
    requires t[b] == ' ' && IsIdentStart(t[b + 1]) && forall k :: b < k < f ==> IsWordChar(t[k])
    requires t[f] == ' ' && t[f + 1] == '('
    ensures InlineInstAt(t) == Some((t[0..b], t[b + 1..f]))
  {
    assert SkipSpaces(t, 0) == 0;
    WordEndIs(t, 0, b);
    WordEndIs(t, b + 1, f);
    assert SkipSpaces(t, b) == b + 1;
    assert !KeywordAt(t, b + 1, "#(") by {
      assert t[b + 1..b + 3][0] == t[b + 1] != '#';
    }
    assert InstanceNameStart(t, b) == Some(b + 1);
    assert SkipSpaces(t, f) == f + 1;
  }

  // ---------------------------------------------------------------------
  // What the scanners find in declarations and bindings
  // ---------------------------------------------------------------------

  predicate IsDirection(d: string) { d == "input" || d == "output" || d == "inout" }

  predicate IsNetType(n: string) { n == "wire" || n == "reg" || n == "logic" || n == "bit" }

  /** `[...]` with something inside and no `]` before its end. */
  predicate IsRange(r: string) {
    |r| >= 3 && r[0] == '[' && r[|r| - 1] == ']' && ']' !in r[1..|r| - 1]
  }

  /** What may follow a name: nothing, or a character that cannot extend it. */
  predicate EndsName(rest: string) {
    rest == "" || !IsWordChar(rest[0])
  }

  /** A keyword found at `p` starts with the character there. */
  lemma KeywordAtHead(t: string, p: nat, kw: string)
    ensures KeywordAt(t, p, kw) && |kw| > 0 ==> t[p] == kw[0]
  {
    assert KeywordAt(t, p, kw) && |kw| > 0 ==> t[p..p + |kw|][0] == kw[0];
  }

  /** A keyword of word characters found where the word `w` stands lies inside `w`. */
  lemma KeywordInWord(t: string, q: nat, w: string, kw: string)
    requires IsWord(kw) && q + |w| <= |t| && t[q..q + |w|] == w
    requires q + |w| == |t| || !IsWordChar(t[q + |w|])
    ensures KeywordAt(t, q, kw) ==> KeywordAt(w, 0, kw)
  {
    SliceChar(t, q, q + |kw|, q + |w|);
    assert KeywordAt(t, q, kw) && |kw| <= |w| ==> w[0..|kw|] == t[q..q + |kw|];
  }

  lemma DirectionAtFront(t: string, d: string)
    requires IsDirection(d) && |d| <= |t| && t[..|d|] == d
    ensures DirectionEnd(t, 0) == Some(|d|)
  {
    assert KeywordAt(t, 0, d);
    KeywordAtHead(t, 0, "input");
    KeywordAtHead(t, 0, "output");
  }

  lemma NetTypeAt(t: string, q: nat, n: string)
    requires IsNetType(n) && q + |n| <= |t| && t[q..q + |n|] == n
    ensures NetTypeEnd(t, q) == Some(q + |n|)
  {
    assert KeywordAt(t, q, n);
    KeywordAtHead(t, q, "wire");
    KeywordAtHead(t, q, "reg");
    KeywordAtHead(t, q, "logic");
  }

  /** No net-type keyword is read at a character none of them starts with. */
  lemma NoNetTypeAt(t: string, q: nat)
    requires q < |t| && t[q] != 'w' && t[q] != 'r' && t[q] != 'l' && t[q] != 'b'
    ensures NetTypeEnd(t, q).None?
  {
    KeywordAtHead(t, q, "wire");
    KeywordAtHead(t, q, "reg");
    KeywordAtHead(t, q, "logic");
    KeywordAtHead(t, q, "bit");
  }

  /** No net-type keyword is read at the start of a word that does not begin with one. */
  lemma NoNetTypeInWord(t: string, q: nat, w: string)
    requires IsWord(w) && NetTypeEnd(w, 0).None?
    requires q + |w| <= |t| && t[q..q + |w|] == w
    requires q + |w| == |t| || !IsWordChar(t[q + |w|])
    ensures NetTypeEnd(t, q).None?
  {
    KeywordInWord(t, q, w, "wire");
    KeywordInWord(t, q, w, "reg");
    KeywordInWord(t, q, w, "logic");
    KeywordInWord(t, q, w, "bit");
  }

  /** The name alone at `s`. */
  lemma NameAtWord(t: string, s: nat, f: nat)
    requires s < f <= |t| && forall i :: s <= i < f ==> IsWordChar(t[i])
    requires f == |t| || !IsWordChar(t[f])
    ensures NameAfterRange(t, s) == Some(Found(f, t[s..f]))
  {
    WordEndIs(t, s, f);
  }

  /** The range `t[q..c + 1]`, blanks, then the name from `s` to `f`. */
  lemma NameAtRange(t: string, q: nat, c: nat, s: nat, f: nat)
    requires q < c < s < f <= |t| && IsRange(t[q..c + 1])
    requires forall i :: c < i < s ==> IsSpace(t[i])
    requires forall i :: s <= i < f ==> IsWordChar(t[i])
    requires f == |t| || !IsWordChar(t[f])
    ensures NameAfterRange(t, q) == Some(Found(f, t[s..f]))
  {
    var r := t[q..c + 1];
    assert forall i :: q <= i <= c ==> t[i] == r[i - q];
    assert forall i :: q < i < c ==> t[i] == r[1..|r| - 1][i - q - 1];
    IndexOfFromIs(t, ']', q + 1, c);
    SkipSpacesIs(t, c + 1, s);
    WordEndIs(t, s, f);
  }

  /** `findall` takes a match at the front and goes on after it. */
  lemma PortNamesFront(t: string, m: Found)
    requires t != "" && PortMatchAt(t, 0) == Some(m)
    ensures m.end <= |t| && PortNames(t) == [m.group] + PortNames(t[m.end..])
  {
  }

  /** The port pattern at the front of `t` when no net type follows the direction. */
  lemma PortMatchUntyped(t: string, k: nat, q: nat, m: Found)
    requires DirectionEnd(t, 0) == Some(k)
    requires k < q < |t| && forall i :: k <= i < q ==> IsSpace(t[i])
    requires !IsSpace(t[q]) && NetTypeEnd(t, q).None?
    requires NameAfterRange(t, q) == Some(m)
    ensures PortMatchAt(t, 0) == Some(m)
  {
    SkipSpacesIs(t, k, q);
  }

  /** The port pattern at the front of `t` when the net type from `q` to `e` follows the direction. */
  lemma PortMatchTyped(t: string, k: nat, q: nat, e: nat, s: nat, m: Found)
    requires DirectionEnd(t, 0) == Some(k)
    requires k < q < |t| && forall i :: k <= i < q ==> IsSpace(t[i])
    requires !IsSpace(t[q]) && NetTypeEnd(t, q) == Some(e)
    requires e <= s < |t| && (forall i :: e <= i < s ==> IsSpace(t[i])) && !IsSpace(t[s])
    requires NameAfterRange(t, s) == Some(m)
    ensures PortMatchAt(t, 0) == Some(m)
  {
    SkipSpacesIs(t, k, q);
    SkipSpacesIs(t, e, s);
  }

  /** Where the pieces of `a + g + w + rest` stand, `g` blank and `w` a word. */
  lemma Layout4(a: string, g: string, w: string, rest: string)
    requires AllSpaces(g) && IsWord(w)
    ensures var t := a + g + w + rest;
      var k, s := |a|, |a| + |g|;
      var f := s + |w|;
      t[..k] == a && t[s..f] == w && t[f..] == rest &&
      (forall i :: k <= i < s ==> IsSpace(t[i])) &&
      (forall i :: s <= i < f ==> IsWordChar(t[i]))
  {
    var r2 := w + rest;
    var r1 := g + r2;
    var t := a + r1;
    Assoc4(a, g, w, rest);
    Peel(t, a, r1);
    Peel(r1, g, r2);
    Peel(r2, w, rest);
    assert t[|a| + |g|..|a| + |g| + |w|] == r2[..|w|];
  }

  /** Where the pieces of `a + g1 + b + g2 + w + rest` stand, `g1` and `g2` blank and `w` a word. */
  lemma Layout6(a: string, g1: string, b: string, g2: string, w: string, rest: string)
    requires AllSpaces(g1) && AllSpaces(g2) && IsWord(w)
    ensures var t := a + g1 + b + g2 + w + rest;
      var k, q := |a|, |a| + |g1|;
      var e, s := q + |b|, q + |b| + |g2|;
      var f := s + |w|;
      t[..k] == a && t[q..e] == b && t[s..f] == w && t[f..] == rest &&
      (forall i :: k <= i < q ==> IsSpace(t[i])) &&
      (forall i :: e <= i < s ==> IsSpace(t[i])) &&
      (forall i :: s <= i < f ==> IsWordChar(t[i]))
  {
    var r4 := w + rest;
    var r3 := g2 + r4;
    var r2 := b + r3;
    var r1 := g1 + r2;
    var t := a + r1;
    Assoc6(a, g1, b, g2, w, rest);
    Peel(t, a, r1);
    Peel(r1, g1, r2);
    Peel(r2, b, r3);
    Peel(r3, g2, r4);
    Peel(r4, w, rest);
    assert t[|a| + |g1|..|a| + |g1| + |b|] == r2[..|b|];
    assert t[|a| + |g1| + |b| + |g2|..|a| + |g1| + |b| + |g2| + |w|] == r4[..|w|];
  }

  /** A direction up to `k`, blanks and a name from `q` to `f` with no net type at `q`. */
  lemma PortScanPlain(t: string, k: nat, q: nat, f: nat)
    requires DirectionEnd(t, 0) == Some(k) && k < q < f <= |t|
    requires forall i :: k <= i < q ==> IsSpace(t[i])
    requires forall i :: q <= i < f ==> IsWordChar(t[i])
    requires EndsName(t[f..]) && NetTypeEnd(t, q).None?
    ensures PortMatchAt(t, 0) == Some(Found(f, t[q..f]))
  {
    SliceChar(t, f, |t|, f);
    NameAtWord(t, q, f);
    PortMatchUntyped(t, k, q, Found(f, t[q..f]));
  }

  /** The direction up to `k` and the net type from `q` to `e`, as the matcher reads them. */
  predicate TypedHead(t: string, k: nat, q: nat, e: nat) {
    DirectionEnd(t, 0) == Some(k) && NetTypeEnd(t, q) == Some(e) && q < |t| && !IsSpace(t[q])
  }

  lemma TypedHeadAt(t: string, d: string, q: nat, n: string)
    requires IsDirection(d) && |d| <= |t| && t[..|d|] == d
    requires IsNetType(n) && q + |n| <= |t| && t[q..q + |n|] == n
    ensures TypedHead(t, |d|, q, q + |n|)
  {
    DirectionAtFront(t, d);
    NetTypeAt(t, q, n);
    SliceChar(t, q, q + |n|, q);
  }

  /** A direction, blanks, the net type from `q` to `e`, blanks and a name from `s` to `f`. */
  lemma PortScanNet(t: string, k: nat, q: nat, e: nat, s: nat, f: nat)
    requires k < q < e <= s < f <= |t| && TypedHead(t, k, q, e)
    requires forall i :: k <= i < q ==> IsSpace(t[i])
    requires forall i :: e <= i < s ==> IsSpace(t[i])
    requires forall i :: s <= i < f ==> IsWordChar(t[i])
    requires EndsName(t[f..])
    ensures PortMatchAt(t, 0) == Some(Found(f, t[s..f]))
  {
    SliceChar(t, f, |t|, f);
    NameAtWord(t, s, f);
    PortMatchTyped(t, k, q, e, s, Found(f, t[s..f]));
  }

  /** A direction up to `k`, blanks, the range `t[q..c + 1]`, blanks and a name from `s` to `f`. */
  lemma PortScanRange(t: string, k: nat, q: nat, c: nat, s: nat, f: nat)
    requires DirectionEnd(t, 0) == Some(k) && k < q < c < s < f <= |t|
    requires forall i :: k <= i < q ==> IsSpace(t[i])
    requires IsRange(t[q..c + 1])
    requires forall i :: c < i < s ==> IsSpace(t[i])
    requires forall i :: s <= i < f ==> IsWordChar(t[i])
    requires EndsName(t[f..])
    ensures PortMatchAt(t, 0) == Some(Found(f, t[s..f]))
  {
    SliceChar(t, f, |t|, f);
    SliceChar(t, q, c + 1, q);
    NoNetTypeAt(t, q);
    NameAtRange(t, q, c, s, f);
    PortMatchUntyped(t, k, q, Found(f, t[s..f]));
  }

  /** A direction, blanks, the net type from `q` to `e`, blanks, the range `t[b..c + 1]`, blanks and a name. */
  lemma PortScanNetRange(t: string, k: nat, q: nat, e: nat, b: nat, c: nat, s: nat, f: nat)
    requires k < q < e <= b < c < s < f <= |t| && TypedHead(t, k, q, e)
    requires forall i :: k <= i < q ==> IsSpace(t[i])
    requires forall i :: e <= i < b ==> IsSpace(t[i])
    requires IsRange(t[b..c + 1])
    requires forall i :: c < i < s ==> IsSpace(t[i])
    requires forall i :: s <= i < f ==> IsWordChar(t[i])
    requires EndsName(t[f..])
    ensures PortMatchAt(t, 0) == Some(Found(f, t[s..f]))
  {
    SliceChar(t, f, |t|, f);
    SliceChar(t, b, c + 1, b);
    NameAtRange(t, b, c, s, f);
    PortMatchTyped(t, k, q, e, b, Found(f, t[s..f]));
  }

  /**
   * `input data;`: a direction, blanks and a name that does not begin with
   * a net-type keyword declare that name, and the scan goes on after it.
   */
  lemma PortDeclared(d: string, g: string, w: string, rest: string)
    requires IsDirection(d) && g != "" && AllSpaces(g)
    requires IsWord(w) && NetTypeEnd(w, 0).None? && EndsName(rest)
    ensures PortNames(d + g + w + rest) == [w] + PortNames(rest)
  {
    var t := d + g + w + rest;
    var q := |d| + |g|;
    var f := q + |w|;
    Layout4(d, g, w, rest);
    DirectionAtFront(t, d);
    SliceChar(t, f, |t|, f);
    NoNetTypeInWord(t, q, w);
    PortScanPlain(t, |d|, q, f);
    PortNamesFront(t, Found(f, w));
  }

  /**
   * `output reg valid;`: after a net type the name that follows is declared.
   * The blanks after the net type may be missing, so `input regular;`
   * declares `ular`, as the pattern does.
   */
  lemma PortDeclaredNet(d: string, g1: string, n: string, g2: string, w: string, rest: string)
    requires IsDirection(d) && g1 != "" && AllSpaces(g1) && IsNetType(n) && AllSpaces(g2)
    requires IsWord(w) && EndsName(rest)
    ensures PortNames(d + g1 + n + g2 + w + rest) == [w] + PortNames(rest)
  {
    var t := d + g1 + n + g2 + w + rest;
    var q := |d| + |g1|;
    var s := q + |n| + |g2|;
    var f := s + |w|;
    Layout6(d, g1, n, g2, w, rest);
    TypedHeadAt(t, d, q, n);
    PortScanNet(t, |d|, q, q + |n|, s, f);
    PortNamesFront(t, Found(f, w));
  }

  /** `input [7:0] data;`: a range between the direction and the name. */
  lemma PortDeclaredRange(d: string, g1: string, r: string, g2: string, w: string, rest: string)
    requires IsDirection(d) && g1 != "" && AllSpaces(g1) && IsRange(r) && AllSpaces(g2)
    requires IsWord(w) && EndsName(rest)
    ensures PortNames(d + g1 + r + g2 + w + rest) == [w] + PortNames(rest)
  {
    var t := d + g1 + r + g2 + w + rest;
    var q := |d| + |g1|;
    var s := q + |r| + |g2|;
    var f := s + |w|;
    Layout6(d, g1, r, g2, w, rest);
    PortRangeLaid(t, d, q, r, s, f);
    PortNamesFront(t, Found(f, w));
  }

  lemma PortRangeLaid(t: string, d: string, q: nat, r: string, s: nat, f: nat)
    requires IsDirection(d) && |d| < q && q + |r| <= s < f <= |t| && IsRange(r)
    requires t[..|d|] == d && t[q..q + |r|] == r
    requires forall i :: |d| <= i < q ==> IsSpace(t[i])
    requires forall i :: q + |r| <= i < s ==> IsSpace(t[i])
    requires forall i :: s <= i < f ==> IsWordChar(t[i])
    requires EndsName(t[f..])
    ensures PortMatchAt(t, 0) == Some(Found(f, t[s..f]))
  {
    DirectionAtFront(t, d);
    PortScanRange(t, |d|, q, q + |r| - 1, s, f);
  }

  /** `input wire [7:0] data;`: a net type and a range before the name. */
  lemma PortDeclaredBus(w: string, rest: string)
    requires IsWord(w) && EndsName(rest)
    ensures PortNames("input wire [7:0] " + w + rest) == [w] + PortNames(rest)
  {
    var h := "input wire [7:0] ";
    var t := h + w + rest;
    var f := |h| + |w|;
    Layout4(h, "", w, rest);
    assert h + "" + w + rest == t;
    PortBusScan(t, f);
    PortNamesFront(t, Found(f, w));
  }

  /** The scan of a line that starts with `input wire [7:0] ` and then has a name up to `f`. */
  lemma PortBusScan(t: string, f: nat)
    requires 17 < f <= |t| && t[..17] == "input wire [7:0] "
    requires forall i :: 17 <= i < f ==> IsWordChar(t[i])
    requires EndsName(t[f..])
    ensures PortMatchAt(t, 0) == Some(Found(f, t[17..f]))
  {
    BusHead(t);
    TypedHeadAt(t, "input", 6, "wire");
    PortScanNetRange(t, 5, 6, 10, 11, 15, 17, f);
  }

  /** The pieces of the head `input wire [7:0] `. */
  lemma BusHead(t: string)
    requires 17 <= |t| && t[..17] == "input wire [7:0] "
    ensures t[..5] == "input" && t[6..10] == "wire" && IsRange(t[11..16])
    ensures IsSpace(t[5]) && IsSpace(t[10]) && IsSpace(t[16])
  {
    var h := t[..17];
    assert t[..5] == h[..5];
    assert t[6..10] == h[6..10];
    assert t[11..16] == h[11..16];
    assert t[5] == h[5] && t[10] == h[10] && t[16] == h[16];
  }

  /** Text without an `i` or an `o` declares no port. */
  lemma {:induction false} PortNamesSkipped(x: string, rest: string)
    requires forall k :: 0 <= k < |x| ==> x[k] != 'i' && x[k] != 'o'
    ensures PortNames(x + rest) == PortNames(rest)
    decreases |x|
  {
    if x != "" {
      var t := x + rest;
      assert t[0] == x[0];
      KeywordAtHead(t, 0, "input");
      KeywordAtHead(t, 0, "output");
      KeywordAtHead(t, 0, "inout");
      assert DirectionEnd(t, 0).None?;
      assert PortMatchAt(t, 0).None?;
      assert t[1..] == x[1..] + rest;
      PortNamesSkipped(x[1..], rest);
    } else {
      assert x + rest == rest;
    }
  }

  /** After a whole name the `\b` of the signal pattern holds again at the next non-word character. */
  lemma SignalNamesAfterName(rest: string)
    requires EndsName(rest)
    ensures SignalNamesOf(rest, true) == SignalNames(rest)
  {
    if rest != "" {
      KeywordAtHead(rest, 0, "wire");
      KeywordAtHead(rest, 0, "reg");
      KeywordAtHead(rest, 0, "logic");
      KeywordAtHead(rest, 0, "bit");
    }
  }

  /** `findall` of the signal pattern takes a match at the front and goes on after it. */
  lemma SignalNamesFront(t: string, m: Found)
    requires t != "" && SignalMatchAt(t) == Some(m)
    requires m.end == |t| || !IsWordChar(t[m.end])
    ensures m.end <= |t| && SignalNames(t) == [m.group] + SignalNames(t[m.end..])
  {
    SignalNamesAfterName(t[m.end..]);
  }

  /** The net type up to `e`, blanks and a name from `s` to `f`. */
  lemma SignalScan(t: string, e: nat, s: nat, f: nat)
    requires NetTypeEnd(t, 0) == Some(e) && e < s < f <= |t|
    requires forall i :: e <= i < s ==> IsSpace(t[i])
    requires forall i :: s <= i < f ==> IsWordChar(t[i])
    requires EndsName(t[f..])
    ensures SignalMatchAt(t) == Some(Found(f, t[s..f]))
  {
    SliceChar(t, f, |t|, f);
    SkipSpacesIs(t, e, s);
    NameAtWord(t, s, f);
  }

  /** The net type up to `e`, blanks, the range `t[q..c + 1]`, blanks and a name from `s` to `f`. */
  lemma SignalScanRange(t: string, e: nat, q: nat, c: nat, s: nat, f: nat)
    requires NetTypeEnd(t, 0) == Some(e) && e <= q < c < s < f <= |t|
    requires forall i :: e <= i < q ==> IsSpace(t[i])
    requires IsRange(t[q..c + 1])
    requires forall i :: c < i < s ==> IsSpace(t[i])
    requires forall i :: s <= i < f ==> IsWordChar(t[i])
    requires EndsName(t[f..])
    ensures SignalMatchAt(t) == Some(Found(f, t[s..f]))
  {
    SliceChar(t, f, |t|, f);
    SliceChar(t, q, c + 1, q);
    SkipSpacesIs(t, e, q);
    NameAtRange(t, q, c, s, f);
  }

  /** `wire valid;`: a net type, blanks and a name declare that name. */
  lemma SignalDeclared(n: string, g: string, w: string, rest: string)
    requires IsNetType(n) && g != "" && AllSpaces(g) && IsWord(w) && EndsName(rest)
    ensures SignalNames(n + g + w + rest) == [w] + SignalNames(rest)
  {
    var t := n + g + w + rest;
    var f := |n| + |g| + |w|;
    Layout4(n, g, w, rest);
    NetTypeAt(t, 0, n);
    SignalScan(t, |n|, |n| + |g|, f);
    SliceChar(t, f, |t|, f);
    SignalNamesFront(t, Found(f, w));
  }

  /** `reg [3:0] count;`: a range between the net type and the name. */
  lemma SignalDeclaredRange(n: string, g1: string, r: string, g2: string, w: string, rest: string)
    requires IsNetType(n) && AllSpaces(g1) && IsRange(r) && AllSpaces(g2) && IsWord(w) && EndsName(rest)
    ensures SignalNames(n + g1 + r + g2 + w + rest) == [w] + SignalNames(rest)
  {
    var t := n + g1 + r + g2 + w + rest;
    var q := |n| + |g1|;
    var s := q + |r| + |g2|;
    var f := s + |w|;
    Layout6(n, g1, r, g2, w, rest);
    NetTypeAt(t, 0, n);
    SignalScanRange(t, |n|, q, q + |r| - 1, s, f);
    SliceChar(t, f, |t|, f);
    SignalNamesFront(t, Found(f, w));
  }

  /** Text without word characters declares no signal. */
  lemma {:induction false} SignalNamesSkipped(x: string, rest: string)
    requires forall k :: 0 <= k < |x| ==> !IsWordChar(x[k])
    ensures SignalNames(x + rest) == SignalNames(rest)
    decreases |x|
  {
    if x != "" {
      var t := x + rest;
      SignalNamesAfterName(t);
      assert t[1..] == x[1..] + rest;
      SignalNamesSkipped(x[1..], rest);
    } else {
      assert x + rest == rest;
    }
  }

  /** `.port(e)` contributes its pair, and the scan goes on after the `)`. */
  lemma BindingsExtracted(port: string, e: string, rest: string)
    requires IsWord(port) && |e| > 0
    requires forall k :: 0 <= k < |e| ==> e[k] != ')'
    ensures ExtractPortPairs("." + port + "(" + e + ")" + rest) == [(port, Strip(e))] + ExtractPortPairs(rest)
  {
    var t := "." + port + "(" + e + ")" + rest;
    BindingPair(port, e, rest);
    assert t[|port| + |e| + 3..] == rest;
  }

  /** Text without a dot binds no port. */
  lemma {:induction false} BindingsSkipped(x: string, rest: string)
    requires forall k :: 0 <= k < |x| ==> x[k] != '.'
    ensures ExtractPortPairs(x + rest) == ExtractPortPairs(rest)
    decreases |x|
  {
    if x != "" {
      var t := x + rest;
      assert t[0] == x[0];
      assert t[1..] == x[1..] + rest;
      BindingsSkipped(x[1..], rest);
    } else {
      assert x + rest == rest;
    }
  }
}
