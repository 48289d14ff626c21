/**
 * The width-mismatch checker of `check_system.py`: a table from declared
 * names to widths (a bit count or a symbolic parameter name), and the
 * assignments whose two sides both have bit-count widths that differ.
 */
module WidthCheck {

  import opened Base
  import opened Text
  import opened RtlExtract
  import opened Tables

  /** A declared width: a number of bits, or the parameter it is written with. */
  datatype Width = Bits(n: nat) | Symbolic(name: string)

  /** `[msb:lsb]` with both bounds numeric. */
  datatype Range = Range(msb: nat, lsb: nat)

  /** One `lhs = rhs` or `lhs <= rhs` found in the text. */
  datatype Assign = Assign(lhs: string, rhs: string)

  /** An assignment found at some position, and where its match ends. */
  datatype AssignMatch = AssignMatch(end: nat, assign: Assign)

  /** A reported mismatch: both widths are bit counts and they differ. */
  datatype WidthIssue = WidthIssue(lhs: string, lhsWidth: nat, rhs: string, rhsWidth: nat)

  /** A bit count is at least one; a symbolic width names a parameter. */
  predicate WellFormed(w: Width) {
    match w
    case Bits(n) => n >= 1
    case Symbolic(name) => IsWord(name)
  }

  // ---------------------------------------------------------------------
  // Declarations
  // ---------------------------------------------------------------------

  const DeclKeywords: set<string> := {"input", "output", "inout", "reg", "wire", "parameter", "localparam"}

  /** The line starts with the keyword `kw` followed by a word boundary. */
  predicate OpensWith(s: string, kw: string) {
    KeywordAt(s, 0, kw) && BoundaryAfter(s, |kw|)
  }

  /** `^(input|output|inout|reg|wire|parameter|localparam)\b` */
  predicate IsDeclarationLine(s: string) {
    OpensWith(s, "input") || OpensWith(s, "output") || OpensWith(s, "inout") ||
    OpensWith(s, "reg") || OpensWith(s, "wire") || OpensWith(s, "parameter") ||
    OpensWith(s, "localparam")
  }

  /** A declaration line opens with one of the declaration keywords. */
  lemma DeclarationLineKeyword(s: string)
    ensures IsDeclarationLine(s) <==> exists kw :: kw in DeclKeywords && OpensWith(s, kw)
  {
    if IsDeclarationLine(s) {
      if OpensWith(s, "input") { assert "input" in DeclKeywords; }
      else if OpensWith(s, "output") { assert "output" in DeclKeywords; }
      else if OpensWith(s, "inout") { assert "inout" in DeclKeywords; }
      else if OpensWith(s, "reg") { assert "reg" in DeclKeywords; }
      else if OpensWith(s, "wire") { assert "wire" in DeclKeywords; }
      else if OpensWith(s, "parameter") { assert "parameter" in DeclKeywords; }
      else { assert "localparam" in DeclKeywords; }
    }
  }

  /** `\[(\d+)\s*:\s*(\d+)\]` at position `p`. */
  function NumericRangeAt(t: string, p: nat): (r: Option<Range>)
    requires p <= |t|
  {
    if p < |t| && t[p] == '[' then
      var a := DigitsEnd(t, p + 1);
      var b := SkipSpaces(t, a);
      if a > p + 1 && b < |t| && t[b] == ':' then
        var c := SkipSpaces(t, b + 1);
        var d := DigitsEnd(t, c);
        if d > c && d < |t| && t[d] == ']' then
          Some(Range(DigitsValue(t[p + 1..a]), DigitsValue(t[c..d])))
        else None
      else None
    else None
  }

  /** `re.search` of the numeric range from position `p`: the leftmost match. */
  function FindNumericRange(t: string, p: nat): (r: Option<Range>)
    requires p <= |t|
    ensures r.None? <==> forall k :: p <= k <= |t| ==> NumericRangeAt(t, k).None?
    ensures r.Some? ==> exists k :: p <= k <= |t| && NumericRangeAt(t, k) == r
    decreases |t| - p
  {
    if NumericRangeAt(t, p).Some? then NumericRangeAt(t, p)
    else if p == |t| then None
    else FindNumericRange(t, p + 1)
  }

  /** `\[(\w+)(?:\s*-\s*1)?\s*:\s*0\]` at position `p`: the parameter name. */
  function SymbolicRangeAt(t: string, p: nat): (r: Option<string>)
    requires p <= |t|
    ensures r.Some? ==> IsWord(r.value)
  {
    if p < |t| && t[p] == '[' then
      var e := WordEnd(t, p + 1);
      var q := SkipSpaces(t, e);
      // with the optional `- 1`, the colon comes after it; a `-` that does
      // not complete the group leaves `q` on the `-`, where no colon is
      var colon :=
        if q < |t| && t[q] == '-' then
          var q1 := SkipSpaces(t, q + 1);
          if q1 < |t| && t[q1] == '1' then SkipSpaces(t, q1 + 1) else q
        else q;
      if e > p + 1 && colon < |t| && t[colon] == ':' then
        var z := SkipSpaces(t, colon + 1);
        if z + 1 < |t| && t[z] == '0' && t[z + 1] == ']' then Some(t[p + 1..e]) else None
      else None
    else None
  }

  /** `re.search` of the symbolic range from position `p`: the leftmost match. */
  function FindSymbolicRange(t: string, p: nat): (r: Option<string>)
    requires p <= |t|
    ensures r.None? <==> forall k :: p <= k <= |t| ==> SymbolicRangeAt(t, k).None?
    ensures r.Some? ==> IsWord(r.value) && exists k :: p <= k <= |t| && SymbolicRangeAt(t, k) == r
    decreases |t| - p
  {
    if SymbolicRangeAt(t, p).Some? then SymbolicRangeAt(t, p)
    else if p == |t| then None
    else FindSymbolicRange(t, p + 1)
  }

  /** `abs(msb - lsb) + 1` */
  function Span(r: Range): (w: nat)
    ensures w >= 1
  {
    if r.msb >= r.lsb then r.msb - r.lsb + 1 else r.lsb - r.msb + 1
  }

  /**
   * The width written in `t`: the first numeric range, else the first
   * symbolic range, else none.
   */
  function RangeWidth(t: string): (w: Option<Width>)
    ensures w.Some? ==> WellFormed(w.value)
  {
    match FindNumericRange(t, 0)
    case Some(r) => Some(Bits(Span(r)))
    case None =>
      match FindSymbolicRange(t, 0)
      case Some(name) => Some(Symbolic(name))
      case None => None
  }

  /** The width a declaration line gives its names; one bit when no range is written. */
  function LineWidth(s: string): (w: Width)
    ensures WellFormed(w)
    ensures FindNumericRange(s, 0).Some? ==> w == Bits(Span(FindNumericRange(s, 0).value))
    ensures FindNumericRange(s, 0).None? && FindSymbolicRange(s, 0).Some? ==> w == Symbolic(FindSymbolicRange(s, 0).value)
    ensures FindNumericRange(s, 0).None? && FindSymbolicRange(s, 0).None? ==> w == Bits(1)
  {
    match RangeWidth(s)
    case Some(w) => w
    case None => Bits(1)
  }

  /**
   * `re.findall(r"\b\w+\b", t)`: a word character at the front starts a
   * word that runs as far as it can; anything else is passed over.  The scan
   * only ever stands after a non-word character or a whole word, where the
   * leading `\b` holds.
   */
  function Words(t: string): (ws: seq<string>)
    ensures forall k :: 0 <= k < |ws| ==> IsWord(ws[k])
    decreases |t|
  {
    if t == "" then []
    else if IsWordChar(t[0]) then
      var e := WordEnd(t, 0);
      [t[..e]] + Words(t[e..])
    else Words(t[1..])
  }

  /** A word standing alone is the only name found in it. */
  lemma WordsOfWord(w: string)
    requires IsWord(w)
    ensures Words(w) == [w]
  {
    WordEndIs(w, 0, |w|);
    assert w[..|w|] == w;
  }

  /** Text without word characters holds no name. */
  lemma {:induction false} WordsNone(x: string)
    requires forall k :: 0 <= k < |x| ==> !IsWordChar(x[k])
    ensures Words(x) == []
    decreases |x|
  {
    if x != "" {
      WordsNone(x[1..]);
    }
  }

  /**
   * A character that is not a word character splits a line: its names are
   * those before it followed by those after it.  With `WordsOfWord` and
   * `WordsNone` this pins down `Words` as the maximal runs, in order.
   */
  lemma {:induction false} WordsSplit(a: string, c: char, b: string)
    requires !IsWordChar(c)
    ensures Words(a + [c] + b) == Words(a) + Words(b)
    decreases |a|
  {
    var t := a + [c] + b;
    if a == "" {
      assert t[1..] == b;
    } else if IsWordChar(a[0]) {
      var e := WordEnd(a, 0);
      WordEndBefore(a, [c] + b, 0);
      assert a + [c] + b == a + ([c] + b);
      assert t[..e] == a[..e];
      assert t[e..] == a[e..] + [c] + b;
      WordsSplit(a[e..], c, b);
    } else {
      assert t[0] == a[0];
      assert t[1..] == a[1..] + [c] + b;
      WordsSplit(a[1..], c, b);
    }
  }

  /** A name gets `width` unless it is a declaration keyword. */
  function DeclaredAs(width: Width): string -> Option<Width> {
    name => if name in DeclKeywords then None else Some(width)
  }

  /** What one raw line declares: every non-keyword word, at the line's width. */
  function LineDecls(line: string): map<string, Width> {
    var s := Strip(line);
    if IsDeclarationLine(s) then Labelled(Words(s), DeclaredAs(LineWidth(s))) else map[]
  }

  /** The per-line tables, one for each line. */
  function LineTables(lines: seq<string>): (ms: seq<map<string, Width>>)
    ensures |ms| == |lines|
  {
    seq(|lines|, i requires 0 <= i < |lines| => LineDecls(lines[i]))
  }

  /** `extract_signal_declarations`: later lines override earlier ones. */
  function Declarations(lines: seq<string>): map<string, Width> {
    Overlay(LineTables(lines))
  }

  /** The name is declared on `line`. */
  predicate DeclaredOn(line: string, name: string) {
    var s := Strip(line);
    IsDeclarationLine(s) && name in Words(s) && name !in DeclKeywords
  }

  lemma LineDeclsMembers(line: string, name: string)
    ensures name in LineDecls(line) <==> DeclaredOn(line, name)
    ensures name in LineDecls(line) ==> LineDecls(line)[name] == LineWidth(Strip(line))
  {
  }

  /**
   * A name is in the table exactly when some declaration line names it, and
   * its width is the width of the last such line.
   */
  lemma DeclaredWidth(lines: seq<string>, name: string)
    ensures name in Declarations(lines) <==> exists k :: 0 <= k < |lines| && DeclaredOn(lines[k], name)
    ensures name in Declarations(lines) ==>
      exists k :: 0 <= k < |lines| && DeclaredOn(lines[k], name) &&
        Declarations(lines)[name] == LineWidth(Strip(lines[k])) &&
        forall j :: k < j < |lines| ==> !DeclaredOn(lines[j], name)
  {
    var ms := LineTables(lines);
    OverlayLast(ms, name);
    forall k | 0 <= k < |lines|
      ensures name in ms[k] <==> DeclaredOn(lines[k], name)
      ensures name in ms[k] ==> ms[k][name] == LineWidth(Strip(lines[k]))
    {
      LineDeclsMembers(lines[k], name);
    }
  }

  /** Every width in the table is well formed: numeric widths are at least one bit. */
  lemma DeclaredWidthsWellFormed(lines: seq<string>)
    ensures forall name :: name in Declarations(lines) ==> WellFormed(Declarations(lines)[name])
  {
    forall name | name in Declarations(lines)
      ensures WellFormed(Declarations(lines)[name])
    {
      DeclaredWidth(lines, name);
    }
  }

  /** Declaration keywords never enter the table. */
  lemma KeywordsNotDeclared(lines: seq<string>)
    ensures forall kw :: kw in DeclKeywords ==> kw !in Declarations(lines)
  {
    forall kw | kw in DeclKeywords
      ensures kw !in Declarations(lines)
    {
      DeclaredWidth(lines, kw);
    }
  }

  /** `extract_signal_declarations` */
  method ExtractSignalDeclarations(lines: seq<string>) returns (decls: map<string, Width>)
    ensures decls == Declarations(lines)
  {
    ghost var ms := LineTables(lines);
    decls := map[];
    for i := 0 to |lines|
      invariant decls == Overlay(ms[..i])
    {
      TakeTake(ms, i);
      var s := Strip(lines[i]);
      if IsDeclarationLine(s) {
        var width := LineWidth(s);
        decls := LabelAll(decls, Words(s), DeclaredAs(width));
      }
      assert decls == Overlay(ms[..i]) + LineDecls(lines[i]);
    }
    TakeAll(ms);
  }

  // ---------------------------------------------------------------------
  // Tokens the checker skips
  // ---------------------------------------------------------------------

  predicate AllDigits(s: string) {
    |s| > 0 && forall i :: 0 <= i < |s| ==> IsDigit(s[i])
  }

  predicate IsHexDigit(c: char) {
    IsDigit(c) || 'a' <= c <= 'f' || 'A' <= c <= 'F'
  }

  /** `\d+'[bhdo][0-9a-fA-F]+`, the whole string. */
  predicate IsSizedLiteral(s: string) {
    var a := DigitsEnd(s, 0);
    a > 0 && a + 2 < |s| && s[a] == '\'' && s[a + 1] in "bhdo" &&
    forall i :: a + 2 <= i < |s| ==> IsHexDigit(s[i])
  }

  /** The pattern holds of `s`, or of `s` without one final newline (Python's `$`). */
  predicate LiteralBody(s: string) {
    AllDigits(s) || IsSizedLiteral(s)
  }

  /** `is_literal` */
  predicate IsLiteral(token: string) {
    LiteralBody(token) ||
    (|token| > 0 && token[|token| - 1] == '\n' && LiteralBody(token[..|token| - 1]))
  }

  const SvKeywords: set<string> := {"if", "else", "begin", "end", "case", "endcase", "default", "posedge", "negedge"}

  const FsmStates: set<string> := {"IDLE", "RESP", "GO", "ONE", "BUSY", "START", "STOP"}

  /** `is_keyword` */
  predicate IsKeyword(token: string) { token in SvKeywords }

  /** `is_fsm_state` */
  predicate IsFsmState(token: string) { token in FsmStates }

  /** A right-hand side the checker never reports on. */
  predicate Skipped(rhs: string) {
    IsLiteral(rhs) || IsKeyword(rhs) || IsFsmState(rhs)
  }

  // ---------------------------------------------------------------------
  // Assignments
  // ---------------------------------------------------------------------

  /** `[\w\[\]:]` */
  predicate IsRhsChar(c: char) {
    IsWordChar(c) || c == '[' || c == ']' || c == ':'
  }

  predicate IsRhs(s: string) {
    |s| > 0 && forall i :: 0 <= i < |s| ==> IsRhsChar(s[i])
  }

  function RhsEnd(s: string, i: nat): (j: nat)
    requires i <= |s|
    ensures i <= j <= |s|
    ensures forall k :: i <= k < j ==> IsRhsChar(s[k])
    ensures j == |s| || !IsRhsChar(s[j])
    decreases |s| - i
  {
    if i < |s| && IsRhsChar(s[i]) then RhsEnd(s, i + 1) else i
  }

  /**
   * `(\w+)\s*(?:<=|=)\s*([\w\[\]:]+)` at `p`.  Every run is greedy and
   * what follows it cannot extend it, so the match, when there is one, is
   * the one built from the maximal runs.
   */
  function AssignAt(t: string, p: nat): (r: Option<AssignMatch>)
    requires p <= |t|
    ensures r.Some? ==> p < r.value.end <= |t| && IsWord(r.value.assign.lhs) && IsRhs(r.value.assign.rhs)
  {
    var e := WordEnd(t, p);
    if e == p then None
    else
      var q := SkipSpaces(t, e);
      var o := if KeywordAt(t, q, "<=") then q + 2 else if q < |t| && t[q] == '=' then q + 1 else q;
      if o == q then None
      else
        var s := SkipSpaces(t, o);
        var f := RhsEnd(t, s);
        if f == s then None else Some(AssignMatch(f, Assign(t[p..e], t[s..f])))
  }

  /** `re.findall` of the assignment pattern, one match or one character at a time. */
  function Assignments(t: string): (r: seq<Assign>)
    ensures forall k :: 0 <= k < |r| ==> IsWord(r[k].lhs) && IsRhs(r[k].rhs)
    decreases |t|
  {
    if t == "" then []
    else match AssignAt(t, 0)
      case Some(m) => [m.assign] + Assignments(t[m.end..])
      case None => Assignments(t[1..])
  }

  /** Where the pieces of `l + g1 + op + g2 + r + rest` stand. */
  lemma AssignLaid(l: string, g1: string, op: string, g2: string, r: string, rest: string)
    requires IsWord(l) && AllSpaces(g1) && AllSpaces(g2) && IsRhs(r)
    ensures var t := l + g1 + op + g2 + r + rest;
      var k, q := |l|, |l| + |g1|;
      var e, s := q + |op|, q + |op| + |g2|;
      var f := s + |r|;
      t[..k] == l && t[q..e] == op && t[s..f] == r && t[f..] == rest &&
      (forall i :: 0 <= i < k ==> IsWordChar(t[i])) &&
      (forall i :: k <= i < q ==> IsSpace(t[i])) &&
      (forall i :: e <= i < s ==> IsSpace(t[i])) &&
      (forall i :: s <= i < f ==> IsRhsChar(t[i]))
  {
    var r4 := r + rest;
    var r3 := g2 + r4;
    var r2 := op + r3;
    var r1 := g1 + r2;
    var t := l + r1;
    Assoc6(l, g1, op, g2, r, rest);
    Peel(t, l, r1);
    Peel(r1, g1, r2);
    Peel(r2, op, r3);
    Peel(r3, g2, r4);
    Peel(r4, r, rest);
    assert t[|l| + |g1|..|l| + |g1| + |op|] == r2[..|op|];
    assert t[|l| + |g1| + |op| + |g2|..|l| + |g1| + |op| + |g2| + |r|] == r4[..|r|];
  }

  /** The assignment pattern read at the front, from the positions where its pieces end. */
  lemma AssignScan(t: string, k: nat, q: nat, e: nat, s: nat, f: nat)
    requires 0 < k <= q < e <= s < f <= |t|
    requires forall i :: 0 <= i < k ==> IsWordChar(t[i])
    requires forall i :: k <= i < q ==> IsSpace(t[i])
    requires t[q..e] == "<=" || t[q..e] == "="
    requires forall i :: e <= i < s ==> IsSpace(t[i])
    requires forall i :: s <= i < f ==> IsRhsChar(t[i])
    requires f == |t| || !IsRhsChar(t[f])
    ensures AssignAt(t, 0) == Some(AssignMatch(f, Assign(t[..k], t[s..f])))
  {
    OperatorAt(t, q, e);
    assert !IsWordChar(t[k]);
    WordEndIs(t, 0, k);
    SkipSpacesIs(t, k, q);
    SkipSpacesIs(t, e, s);
    RhsEndIs(t, s, f);
    AssignAtIs(t, k, q, e, s, f);
  }

  /** `AssignAt` at the front, once each of its scans is known to stop where given. */
  lemma AssignAtIs(t: string, k: nat, q: nat, e: nat, s: nat, f: nat)
    requires 0 < k <= q < e <= s < f <= |t|
    requires WordEnd(t, 0) == k && SkipSpaces(t, k) == q && SkipSpaces(t, e) == s && RhsEnd(t, s) == f
    requires (if KeywordAt(t, q, "<=") then q + 2 else if q < |t| && t[q] == '=' then q + 1 else q) == e
    ensures AssignAt(t, 0) == Some(AssignMatch(f, Assign(t[..k], t[s..f])))
  {
    assert t[0..k] == t[..k];
  }

  /** `<=` is tried before `=`, and either one ends at `e`. */
  lemma OperatorAt(t: string, q: nat, e: nat)
    requires q < e <= |t| && (t[q..e] == "<=" || t[q..e] == "=")
    ensures !IsWordChar(t[q])
    ensures (if KeywordAt(t, q, "<=") then q + 2 else if q < |t| && t[q] == '=' then q + 1 else q) == e
  {
    SliceChar(t, q, e, q);
    SliceChar(t, q, e, q + 1);
  }

  lemma RhsEndIs(s: string, i: nat, j: nat)
    requires i <= j <= |s|
    requires forall k :: i <= k < j ==> IsRhsChar(s[k])
    requires j == |s| || !IsRhsChar(s[j])
    ensures RhsEnd(s, i) == j
    decreases j - i
  {
    if i < j {
      RhsEndIs(s, i + 1, j);
    }
  }

  /**
   * `lhs <= rhs` or `lhs = rhs` at the front of the text, blanks allowed
   * around the operator, is the first assignment found, and the search
   * goes on right after the right-hand side.
   */
  lemma AssignmentFront(l: string, g1: string, op: string, g2: string, r: string, rest: string)
    requires IsWord(l) && AllSpaces(g1) && (op == "<=" || op == "=") && AllSpaces(g2) && IsRhs(r)
    requires rest == "" || !IsRhsChar(rest[0])
    ensures Assignments(l + g1 + op + g2 + r + rest) == [Assign(l, r)] + Assignments(rest)
  {
    var t := l + g1 + op + g2 + r + rest;
    var q := |l| + |g1|;
    var s := q + |op| + |g2|;
    var f := s + |r|;
    AssignLaid(l, g1, op, g2, r, rest);
    SliceChar(t, f, |t|, f);
    AssignScan(t, |l|, q, q + |op|, s, f);
  }

  /** Text without `=` holds no assignment. */
  lemma {:induction false} AssignmentsNone(x: string)
    requires forall k :: 0 <= k < |x| ==> x[k] != '='
    ensures Assignments(x) == []
    decreases |x|
  {
    if x != "" {
      NoOpNoAssign(x);
      AssignmentsNone(x[1..]);
    }
  }

  lemma NoOpNoAssign(t: string)
    requires forall k :: 0 <= k < |t| ==> t[k] != '='
    ensures AssignAt(t, 0).None?
  {
    var e := WordEnd(t, 0);
    if e > 0 {
      var q := SkipSpaces(t, e);
      SliceChar(t, q, q + 2, q + 1);
    }
  }

  /**
   * A right-hand side never contains a quote, so the sized-literal form of
   * `is_literal` never applies to one: it is a literal exactly when it is
   * all digits.
   */
  lemma RhsLiteralIsNumber(rhs: string)
    requires IsRhs(rhs)
    ensures IsLiteral(rhs) <==> AllDigits(rhs)
  {
  }

  // ---------------------------------------------------------------------
  // Mismatches
  // ---------------------------------------------------------------------

  /** `decls.get(lhs, 1)` */
  function LhsWidth(decls: map<string, Width>, lhs: string): Width {
    GetOr(decls, lhs, Bits(1))
  }

  /** An inline numeric range, else an inline symbolic range, else `decls.get(rhs, 1)`. */
  function RhsWidth(decls: map<string, Width>, rhs: string): Width {
    match RangeWidth(rhs)
    case Some(w) => w
    case None => GetOr(decls, rhs, Bits(1))
  }

  /**
   * The right-hand side's width: an inline numeric range first, then an
   * inline symbolic range, then the declared width, then one bit; the
   * left-hand side has its declared width or one bit.
   */
  lemma WidthPrecedence(decls: map<string, Width>, lhs: string, rhs: string)
    ensures FindNumericRange(rhs, 0).Some? ==> RhsWidth(decls, rhs) == Bits(Span(FindNumericRange(rhs, 0).value))
    ensures FindNumericRange(rhs, 0).None? && FindSymbolicRange(rhs, 0).Some? ==>
      RhsWidth(decls, rhs) == Symbolic(FindSymbolicRange(rhs, 0).value)
    ensures FindNumericRange(rhs, 0).None? && FindSymbolicRange(rhs, 0).None? ==>
      RhsWidth(decls, rhs) == if rhs in decls then decls[rhs] else Bits(1)
    ensures LhsWidth(decls, lhs) == if lhs in decls then decls[lhs] else Bits(1)
  {
  }

  /** The issue one assignment raises, if any. */
  function IssueFor(decls: map<string, Width>, a: Assign): Option<WidthIssue> {
    if Skipped(a.rhs) then None
    else
      var lw := LhsWidth(decls, a.lhs);
      var rw := RhsWidth(decls, a.rhs);
      if lw.Bits? && rw.Bits? && lw.n != rw.n then Some(WidthIssue(a.lhs, lw.n, a.rhs, rw.n))
      else None
  }

  /**
   * An assignment raises an issue exactly when its right-hand side is not
   * skipped and both sides have bit-count widths that differ; the issue
   * records the two sides and the two widths.
   */
  lemma IssueForCases(decls: map<string, Width>, a: Assign)
    ensures IssueFor(decls, a).Some? <==>
      !Skipped(a.rhs) && LhsWidth(decls, a.lhs).Bits? && RhsWidth(decls, a.rhs).Bits? &&
      LhsWidth(decls, a.lhs).n != RhsWidth(decls, a.rhs).n
    ensures IssueFor(decls, a).Some? ==>
      IssueFor(decls, a).value.lhs == a.lhs && IssueFor(decls, a).value.rhs == a.rhs &&
      LhsWidth(decls, a.lhs) == Bits(IssueFor(decls, a).value.lhsWidth) &&
      RhsWidth(decls, a.rhs) == Bits(IssueFor(decls, a).value.rhsWidth)
  {
  }

  function IssueStep(decls: map<string, Width>): Assign -> Option<WidthIssue> {
    a => IssueFor(decls, a)
  }

  /** The issues of a list of assignments, in their order. */
  function IssuesFor(decls: map<string, Width>, assigns: seq<Assign>): seq<WidthIssue> {
    Collect(IssueStep(decls), assigns)
  }

  /** `detect_width_mismatches` */
  function WidthIssues(lines: seq<string>): seq<WidthIssue> {
    IssuesFor(Declarations(lines), Assignments(Join(" ", lines)))
  }

  /** Issues keep the order of the assignments that raise them. */
  lemma IssuesForAppend(decls: map<string, Width>, xs: seq<Assign>, ys: seq<Assign>)
    ensures IssuesFor(decls, xs + ys) == IssuesFor(decls, xs) + IssuesFor(decls, ys)
  {
    CollectAppend(IssueStep(decls), xs, ys);
  }

  /** An issue is reported exactly for an assignment in the text that raises it. */
  lemma WidthIssueMembers(lines: seq<string>, w: WidthIssue)
    ensures w in WidthIssues(lines) <==>
      exists a :: a in Assignments(Join(" ", lines)) && IssueFor(Declarations(lines), a) == Some(w)
  {
    var assigns := Assignments(Join(" ", lines));
    CollectMembers(IssueStep(Declarations(lines)), assigns, w);
  }

  /**
   * Every reported issue has a right-hand side that is not skipped and two
   * bit-count widths of at least one bit that differ.
   */
  lemma WidthIssueValid(lines: seq<string>, w: WidthIssue)
    requires w in WidthIssues(lines)
    ensures w.lhsWidth != w.rhsWidth && w.lhsWidth >= 1 && w.rhsWidth >= 1 && !Skipped(w.rhs)
  {
    var decls := Declarations(lines);
    WidthIssueMembers(lines, w);
    var a :| a in Assignments(Join(" ", lines)) && IssueFor(decls, a) == Some(w);
    IssueForCases(decls, a);
    DeclaredWidthsWellFormed(lines);
    assert WellFormed(LhsWidth(decls, a.lhs));
    assert WellFormed(RhsWidth(decls, a.rhs));
  }

  /** No issue is raised when either side's width is symbolic. */
  lemma SymbolicNeverReported(decls: map<string, Width>, a: Assign)
    requires LhsWidth(decls, a.lhs).Symbolic? || RhsWidth(decls, a.rhs).Symbolic?
    ensures IssueFor(decls, a).None?
  {
  }

  /** Literals, keywords and FSM state names on the right never raise an issue. */
  lemma SkippedNeverReported(decls: map<string, Width>, a: Assign)
    requires Skipped(a.rhs)
    ensures IssueFor(decls, a).None?
  {
  }

  /** The body of the assignment loop: the issue one assignment raises. */
  method CheckAssignment(decls: map<string, Width>, a: Assign) returns (issue: Option<WidthIssue>)
    ensures issue == IssueFor(decls, a)
  {
    var lhs := a.lhs;
    var rhs := a.rhs;
    if IsLiteral(rhs) || IsKeyword(rhs) || IsFsmState(rhs) {
      return None;
    }
    var lhsW := GetOr(decls, lhs, Bits(1));
    var rhsW := Bits(1);
    var num := FindNumericRange(rhs, 0);
    if num.Some? {
      rhsW := Bits(Span(num.value));
    } else {
      var sym := FindSymbolicRange(rhs, 0);
      if sym.Some? {
        rhsW := Symbolic(sym.value);
      } else {
        rhsW := GetOr(decls, rhs, Bits(1));
      }
    }
    assert lhsW == LhsWidth(decls, lhs) && rhsW == RhsWidth(decls, rhs);
    issue := None;
    if lhsW.Bits? && rhsW.Bits? {
      if lhsW.n != rhsW.n {
        issue := Some(WidthIssue(lhs, lhsW.n, rhs, rhsW.n));
      }
    }
  }

  /** `detect_width_mismatches` */
  method DetectWidthMismatches(lines: seq<string>) returns (issues: seq<WidthIssue>)
    ensures issues == WidthIssues(lines)
  {
    var decls := ExtractSignalDeclarations(lines);
    var assigns := Assignments(Join(" ", lines));
    issues := [];
    for i := 0 to |assigns|
      invariant issues == IssuesFor(decls, assigns[..i])
    {
      TakeTake(assigns, i);
      var issue := CheckAssignment(decls, assigns[i]);
      if issue.Some? {
        issues := issues + [issue.value];
      }
    }
    TakeAll(assigns);
  }
}
