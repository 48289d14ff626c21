/**
 * The rule-based signal classifier: a line-by-line rule engine that fills
 * a signal-to-label dictionary from fixed keyword sets, with the set of
 * signals seen as multiplexer inputs carried from line to line.
 */
module SignalClassify {

  import opened Base
  import opened Text
  import opened Tables
  import opened RtlExtract
  import opened WidthCheck
  import opened SignalParams

  // ---------------------------------------------------------------------
  // Labels and keyword sets
  // ---------------------------------------------------------------------

  datatype Label =
    | Parameter | Clock | ResetActiveLow | ResetActiveHigh | StatusFlag
    | AddrOutput | AddrInput | FsmControl | MuxOutput | ControlOutput
    | FsmState | AddressRegister | MuxInput | ControlInput
  {
    /** The label as the classifier writes it. */
    function Name(): string {
      match this
      case Parameter => "parameter"
      case Clock => "clock"
      case ResetActiveLow => "reset_active_low"
      case ResetActiveHigh => "reset_active_high"
      case StatusFlag => "status_flag"
      case AddrOutput => "ADDR_output"
      case AddrInput => "ADDR_input"
      case FsmControl => "fsm_control"
      case MuxOutput => "mux_output"
      case ControlOutput => "control_output"
      case FsmState => "fsm_state"
      case AddressRegister => "Address_register"
      case MuxInput => "mux_input"
      case ControlInput => "control_input"
    }
  }

  /** The three labels the rules give only to a signal that has none yet. */
  predicate IsDefault(l: Label) {
    l == ControlOutput || l == MuxInput || l == ControlInput
  }

  const ControlSignals: set<string> := {
    "we", "write_enable", "read_enable", "chip_select", "cs", "stb", "enable",
    "wr_en", "rd_en", "clk_en", "ready", "ack", "grant_out", "stall", "wait",
    "valid", "valid_out", "req", "cmd_valid", "cmd_ready", "done", "busy", "idle",
    "grant", "ack_in", "ready_in", "int", "irq", "irq_out", "intr", "int_req",
    "interrupt", "interrupt_in", "alert", "gpio_in", "gpio_out", "sensor_in", "led", "pwm_out",
    "data_valid", "data_ready"}

  const StatusFlags: set<string> := {
    "status", "error", "flag", "overflow", "underflow", "zero", "carry", "full", "empty"}

  const ClockNames: set<string> := {
    "clk", "clock", "aclk", "mclk", "sys_clk", "core_clk", "sclk", "bclk", "pclk"}

  const ResetLowNames: set<string> := {"resetn", "rst_n", "aresetn", "reset_l", "nreset", "sys_resetn"}

  const ResetHighNames: set<string> := {"reset", "rst", "areset", "sys_reset", "por"}

  predicate IsFsmSignal(sig: string) { Contains(Lower(sig), "state") }
  predicate IsClockSignal(sig: string) { Lower(sig) in ClockNames }
  predicate IsResetLow(sig: string) { Lower(sig) in ResetLowNames }
  predicate IsResetHigh(sig: string) { Lower(sig) in ResetHighNames }
  predicate IsControlSignal(sig: string) { Lower(sig) in ControlSignals }
  predicate IsDataSignal(sig: string) { Contains(Lower(sig), "data") }
  predicate IsAddrSignal(sig: string) { Contains(Lower(sig), "addr") }
  predicate IsStatusFlag(sig: string) { Lower(sig) in StatusFlags }

  /** Every name predicate reads the signal through `lower()`: case does not matter. */
  lemma {:induction false} PredicatesIgnoreCase(sig: string)
    ensures IsFsmSignal(sig) == IsFsmSignal(Lower(sig))
    ensures IsClockSignal(sig) == IsClockSignal(Lower(sig))
    ensures IsResetLow(sig) == IsResetLow(Lower(sig))
    ensures IsResetHigh(sig) == IsResetHigh(Lower(sig))
    ensures IsControlSignal(sig) == IsControlSignal(Lower(sig))
    ensures IsDataSignal(sig) == IsDataSignal(Lower(sig))
    ensures IsAddrSignal(sig) == IsAddrSignal(Lower(sig))
    ensures IsStatusFlag(sig) == IsStatusFlag(Lower(sig))
  {
    LowerHasNoUpper(sig);
  }

  // ---------------------------------------------------------------------
  // Letters that tell names apart
  // ---------------------------------------------------------------------

  /** A substring's characters all occur in the string. */
  lemma {:induction false} ContainsChar(s: string, p: string, i: nat)
    requires Contains(s, p) && i < |p|
    ensures p[i] in s
    decreases |s|
  {
    if StartsWith(s, p) {
      assert s[i] == p[i];
    } else {
      ContainsChar(s[1..], p, i);
      assert p[i] in s[1..];
    }
  }

  /** Lower-casing never produces a lower-case letter whose two cases are both absent. */
  lemma LowerAvoids(s: string, c: char)
    requires 'a' <= c <= 'z'
    requires c !in s && (c as int - 32) as char !in s
    ensures c !in Lower(s)
  {
  }

  /** The characters a literal token is made of. */
  predicate LiteralChar(c: char) {
    IsHexDigit(c) || c == '\'' || c in "bhdo" || c == '\n'
  }

  lemma LiteralChars(token: string)
    requires IsLiteral(token)
    ensures forall i :: 0 <= i < |token| ==> LiteralChar(token[i])
  {
    var body := if LiteralBody(token) then token else token[..|token| - 1];
    if IsSizedLiteral(body) {
      var a := DigitsEnd(body, 0);
      assert forall i :: 0 <= i < a ==> IsDigit(body[i]);
    }
    assert forall i :: 0 <= i < |body| ==> LiteralChar(body[i]);
  }

  /**
   * Clock names all hold a `k`, reset names and `addr` an `r`; literals and
   * Verilog keywords hold neither, in either case.
   */
  lemma NoRK(token: string)
    requires IsLiteral(token) || IsKeyword(token)
    ensures 'r' !in token && 'R' !in token && 'k' !in token && 'K' !in token
  {
    if IsLiteral(token) {
      LiteralChars(token);
      forall i | 0 <= i < |token| ensures token[i] !in "rRkK" {
        assert LiteralChar(token[i]);
      }
    } else {
      KeywordNoRK(token);
    }
  }

  lemma KeywordNoRK(token: string)
    requires IsKeyword(token)
    ensures 'r' !in token && 'R' !in token && 'k' !in token && 'K' !in token
  {
  }

  lemma NotNamed(token: string)
    requires IsLiteral(token) || IsKeyword(token)
    ensures !IsAddrSignal(token) && !IsClockSignal(token)
    ensures !IsResetLow(token) && !IsResetHigh(token)
  {
    NoRK(token);
    var low := Lower(token);
    LowerAvoids(token, 'r');
    LowerAvoids(token, 'k');
    if IsAddrSignal(token) {
      ContainsChar(low, "addr", 3);
    }
    assert forall w :: w in ClockNames ==> 'k' in w;
    assert forall w :: w in ResetLowNames ==> 'r' in w;
    assert forall w :: w in ResetHighNames ==> 'r' in w;
  }

  // ---------------------------------------------------------------------
  // classify_addr_signal
  // ---------------------------------------------------------------------

  /**
   * `classify_addr_signal`: nothing when either side is a parameter;
   * otherwise an address-like left side becomes an address output and an
   * address-like right side an address input, the right side written last.
   */
  function AddrLabels(params: set<string>, labels: map<string, Label>, lhs: string, rhs: string): (m: map<string, Label>)
    ensures lhs in params || rhs in params ==> m == labels
    ensures lhs !in params && rhs !in params ==>
      (forall s :: s in m <==> s in labels || (s == lhs && IsAddrSignal(lhs)) || (s == rhs && IsAddrSignal(rhs))) &&
      (IsAddrSignal(rhs) ==> m[rhs] == AddrInput) &&
      (IsAddrSignal(lhs) && lhs != rhs ==> m[lhs] == AddrOutput) &&
      (forall s :: s in labels && !(IsAddrSignal(s) && (s == lhs || s == rhs)) ==> m[s] == labels[s])
  {
    if lhs in params || rhs in params then labels
    else
      var m := if IsAddrSignal(lhs) then labels[lhs := AddrOutput] else labels;
      if IsAddrSignal(rhs) then m[rhs := AddrInput] else m
  }

  /** `classify_addr_signal`, writing into the dictionary it is given. */
  method ClassifyAddrSignal(lhs: string, rhs: string, labels: map<string, Label>, params: set<string>)
    returns (labels': map<string, Label>)
    ensures labels' == AddrLabels(params, labels, lhs, rhs)
  {
    labels' := labels;
    if lhs in params || rhs in params {
      return;
    }
    if IsAddrSignal(lhs) {
      labels' := labels'[lhs := AddrOutput];
    }
    if IsAddrSignal(rhs) {
      labels' := labels'[rhs := AddrInput];
    }
  }

  // ---------------------------------------------------------------------
  // Sensitivity lists
  // ---------------------------------------------------------------------

  /**
   * `always\s*@\((.*?)\)` at `p`: the text up to the first `)`, which the
   * lazy `.` may reach only if no newline comes first.
   */
  function SensitivityAt(t: string, p: nat): (r: Option<string>)
    requires p <= |t|
    ensures r.Some? ==> ')' !in r.value && '\n' !in r.value
  {
    if !KeywordAt(t, p, "always") then None
    else
      var q := SkipSpaces(t, p + 6);
      if !KeywordAt(t, q, "@(") then None
      else
        var c := IndexOfFrom(t, ')', q + 2);
        var n := IndexOfFrom(t, '\n', q + 2);
        if c < |t| && c < n then Some(t[q + 2..c]) else None
  }

  /** `re.search` of the sensitivity pattern from `p`: the leftmost match. */
  function SensitivityFrom(t: string, p: nat): (r: Option<string>)
    requires p <= |t|
    ensures r.Some? ==> exists k :: p <= k <= |t| && SensitivityAt(t, k) == r
    ensures r.None? ==> forall k :: p <= k <= |t| ==> SensitivityAt(t, k).None?
    decreases |t| - p
  {
    if SensitivityAt(t, p).Some? then SensitivityAt(t, p)
    else if p == |t| then None
    else SensitivityFrom(t, p + 1)
  }

  /** The label a sensitivity-list token gets, if any. */
  function SensLabel(params: set<string>): string -> Option<Label> {
    sig => SensLabelOf(params, sig)
  }

  function SensLabelOf(params: set<string>, sig: string): (r: Option<Label>)
    ensures r.Some? ==> !IsDefault(r.value)
  {
    if sig in params then Some(Parameter)
    else if IsClockSignal(sig) then Some(Clock)
    else if IsResetLow(sig) then Some(ResetActiveLow)
    else if IsResetHigh(sig) then Some(ResetActiveHigh)
    else None
  }

  /** The labels after a line's sensitivity list, if it has one. */
  function SensitivityLabels(params: set<string>, labels: map<string, Label>, line: string): map<string, Label> {
    match SensitivityFrom(line, 0)
    case Some(list) => labels + Labelled(Words(list), SensLabel(params))
    case None => labels
  }

  // ---------------------------------------------------------------------
  // Assignments
  // ---------------------------------------------------------------------

  /** The rules for one `lhs = rhs` match, in the order the classifier tries them. */
  function AssignLabels(params: set<string>, mux: set<string>, labels: map<string, Label>, a: Assign): map<string, Label> {
    if a.lhs in params then labels[a.lhs := Parameter]
    else if a.rhs in params then labels[a.rhs := Parameter]
    else if IsStatusFlag(a.lhs) then labels[a.lhs := StatusFlag]
    else
      var m := AddrLabels(params, labels, a.lhs, a.rhs);
      if IsClockSignal(a.lhs) then m[a.lhs := Clock]
      else if IsResetLow(a.lhs) then m[a.lhs := ResetActiveLow]
      else if IsResetHigh(a.lhs) then m[a.lhs := ResetActiveHigh]
      else if IsLiteral(a.lhs) || IsKeyword(a.lhs) then m
      else
        var m' :=
          if IsFsmSignal(a.lhs) then m[a.lhs := FsmControl]
          else if a.lhs in mux then m[a.lhs := MuxOutput]
          else if a.lhs !in m then m[a.lhs := ControlOutput]
          else m;
        if IsFsmState(a.rhs) then m'[a.rhs := FsmState] else m'
  }

  /** The assignments of a line applied in order. */
  function AssignsLabels(params: set<string>, mux: set<string>, labels: map<string, Label>, assigns: seq<Assign>): map<string, Label>
    decreases |assigns|
  {
    if |assigns| == 0 then labels
    else
      var n := |assigns| - 1;
      AssignLabels(params, mux, AssignsLabels(params, mux, labels, assigns[..n]), assigns[n])
  }

  /** One pass of the assignment loop; each `continue` is a `return`. */
  method ClassifyAssignment(params: set<string>, mux: set<string>, labels: map<string, Label>, a: Assign)
    returns (labels': map<string, Label>)
    ensures labels' == AssignLabels(params, mux, labels, a)
  {
    var lhs, rhs := a.lhs, a.rhs;
    labels' := labels;
    if lhs in params {
      labels' := labels'[lhs := Parameter];
      return;
    }
    if rhs in params {
      labels' := labels'[rhs := Parameter];
      return;
    }
    if IsStatusFlag(lhs) {
      labels' := labels'[lhs := StatusFlag];
      return;
    }
    labels' := ClassifyAddrSignal(lhs, rhs, labels', params);
    if IsClockSignal(lhs) {
      labels' := labels'[lhs := Clock];
      return;
    }
    if IsResetLow(lhs) {
      labels' := labels'[lhs := ResetActiveLow];
      return;
    }
    if IsResetHigh(lhs) {
      labels' := labels'[lhs := ResetActiveHigh];
      return;
    }
    if IsLiteral(lhs) || IsKeyword(lhs) {
      return;
    }
    if IsFsmSignal(lhs) {
      labels' := labels'[lhs := FsmControl];
    } else if lhs in mux {
      labels' := labels'[lhs := MuxOutput];
    } else if lhs !in labels' {
      labels' := labels'[lhs := ControlOutput];
    }
    if IsFsmState(rhs) {
      labels' := labels'[rhs := FsmState];
    }
  }

  /** `for lhs, rhs in assigns: ...` */
  method ClassifyAssignments(params: set<string>, mux: set<string>, labels: map<string, Label>, assigns: seq<Assign>)
    returns (labels': map<string, Label>)
    ensures labels' == AssignsLabels(params, mux, labels, assigns)
  {
    labels' := labels;
    for j := 0 to |assigns|
      invariant labels' == AssignsLabels(params, mux, labels, assigns[..j])
    {
      TakeTake(assigns, j);
      labels' := ClassifyAssignment(params, mux, labels', assigns[j]);
    }
    TakeAll(assigns);
  }

  // ---------------------------------------------------------------------
  // if / case lines
  // ---------------------------------------------------------------------

  /** `\bKW\s*\(` at `p`. */
  predicate OpenerAt(t: string, p: nat, kw: string)
    requires p <= |t|
  {
    BoundaryBefore(t, p) && KeywordAt(t, p, kw) &&
    var q := SkipSpaces(t, p + |kw|);
    q < |t| && t[q] == '('
  }

  function OpenerFrom(t: string, kw: string, p: nat): (b: bool)
    requires p <= |t|
    ensures b <==> exists k :: p <= k <= |t| && OpenerAt(t, k, kw)
    decreases |t| - p
  {
    OpenerAt(t, p, kw) || (p < |t| && OpenerFrom(t, kw, p + 1))
  }

  /** The line holds `if (` or `case (` after a word boundary. */
  predicate OpensCondition(line: string) {
    OpenerFrom(line, "if", 0) || OpenerFrom(line, "case", 0)
  }

  /** The end of the run of hexadecimal digits starting at `i`. */
  function HexEnd(s: string, i: nat): (j: nat)
    requires i <= |s|
    ensures i <= j <= |s|
    ensures forall k :: i <= k < j ==> IsHexDigit(s[k])
    ensures j == |s| || !IsHexDigit(s[j])
    decreases |s| - i
  {
    if i < |s| && IsHexDigit(s[i]) then HexEnd(s, i + 1) else i
  }

  /**
   * `\d+'[bhdo][0-9a-fA-F]+\b` at `p`.  A shorter run of hex digits would
   * end between two word characters, so only the longest can be followed
   * by the boundary.
   */
  function SizedLiteralAt(t: string, p: nat): (e: Option<nat>)
    requires p <= |t|
    ensures e.Some? ==> p < e.value <= |t| && IsSizedLiteral(t[p..e.value]) && BoundaryAfter(t, e.value)
  {
    var a := DigitsEnd(t, p);
    if a > p && a + 1 < |t| && t[a] == '\'' && t[a + 1] in "bhdo" then
      var h := HexEnd(t, a + 2);
      if h > a + 2 && BoundaryAfter(t, h) then
        assert DigitsEnd(t[p..h], 0) == a - p by {
          DigitsEndShifted(t, p, h, a);
        }
        Some(h)
      else None
    else None
  }

  lemma DigitsEndShifted(t: string, p: nat, h: nat, a: nat)
    requires p <= a < h <= |t|
    requires forall i :: p <= i < a ==> IsDigit(t[i])
    requires !IsDigit(t[a])
    ensures DigitsEnd(t[p..h], 0) == a - p
  {
  }

  /**
   * `re.findall(r"\b\d+'[bhdo][0-9a-fA-F]+\b|\b\w+\b", t)` over what is
   * left of the line: at each word start the sized literal is tried first,
   * then the whole word.  `afterWord` says whether a word character stands
   * just before `t`, where `\b` does not hold.
   */
  function ConditionTokensOf(t: string, afterWord: bool): (ts: seq<string>)
    ensures forall k :: 0 <= k < |ts| ==> IsWord(ts[k]) || IsSizedLiteral(ts[k])
    decreases |t|
  {
    if t == "" then []
    else if IsWordChar(t[0]) && !afterWord then
      match SizedLiteralAt(t, 0)
      case Some(e) => [t[..e]] + ConditionTokensOf(t[e..], true)
      case None =>
        var e := WordEnd(t, 0);
        [t[..e]] + ConditionTokensOf(t[e..], true)
    else ConditionTokensOf(t[1..], IsWordChar(t[0]))
  }

  function ConditionTokens(line: string): (ts: seq<string>)
    ensures forall k :: 0 <= k < |ts| ==> IsWord(ts[k]) || IsSizedLiteral(ts[k])
  {
    ConditionTokensOf(line, false)
  }

  /**
   * On a line without a quote no sized literal can match, and the tokens
   * are exactly the maximal runs of word characters, in order: the names
   * `Words` finds.
   */
  lemma {:induction false} ConditionTokensAreWords(t: string, afterWord: bool)
    requires forall k :: 0 <= k < |t| ==> t[k] != '\''
    requires afterWord ==> t == "" || !IsWordChar(t[0])
    ensures ConditionTokensOf(t, afterWord) == Words(t)
    decreases |t|
  {
    if t == "" {
    } else if IsWordChar(t[0]) {
      var a := DigitsEnd(t, 0);
      assert a < |t| ==> t[a] != '\'';
      assert SizedLiteralAt(t, 0).None?;
      var e := WordEnd(t, 0);
      ConditionTokensAreWords(t[e..], true);
    } else {
      ConditionTokensAreWords(t[1..], false);
    }
  }

  /** A sized literal such as `8'hFF` is one token, quote and all, not the words around the quote. */
  lemma SizedLiteralToken(rest: string)
    requires EndsName(rest)
    ensures ConditionTokensOf("8'hFF" + rest, false) == ["8'hFF"] + ConditionTokensOf(rest, true)
  {
    var t := "8'hFF" + rest;
    assert t[..5] == "8'hFF";
    assert t[0] == '8' && t[1] == '\'' && t[2] == 'h' && t[3] == 'F' && t[4] == 'F';
    assert HexEnd(t, 5) == 5 by {
      assert 5 < |t| ==> t[5] == rest[0];
    }
    assert HexEnd(t, 3) == HexEnd(t, 4) == HexEnd(t, 5);
    assert DigitsEnd(t, 0) == 1;
    assert BoundaryAfter(t, 5) by {
      assert 5 < |t| ==> t[5] == rest[0];
    }
    assert SizedLiteralAt(t, 0) == Some(5);
    assert t[5..] == rest;
  }

  /** What the condition rules do to one token, before looking at the labels. */
  datatype Outcome = Assigned(given: Label) | Skip | Default(wide: bool)

  /**
   * The rule chain of the `if`/`case` loop, each `continue` ending it:
   * parameter, address, clock, resets, then literals and keywords are
   * skipped, then FSM signal, FSM state, and last the width rule.
   */
  function ConditionOutcome(params: set<string>, decls: map<string, nat>, sig: string): Outcome {
    if sig in params then Assigned(Parameter)
    else if IsAddrSignal(sig) then Assigned(AddressRegister)
    else if IsClockSignal(sig) then Assigned(Clock)
    else if IsResetLow(sig) then Assigned(ResetActiveLow)
    else if IsResetHigh(sig) then Assigned(ResetActiveHigh)
    else if IsLiteral(sig) || IsKeyword(sig) then Skip
    else if IsFsmSignal(sig) then Assigned(FsmControl)
    else if IsFsmState(sig) then Assigned(FsmState)
    else Default(GetOr(decls, sig, 1) > 1)
  }

  function ConditionRule(params: set<string>, decls: map<string, nat>): string -> Outcome {
    sig => ConditionOutcome(params, decls, sig)
  }

  /** The label a token gets under `rule`, given the labels the line started with. */
  function LabelOf(rule: string -> Outcome, labels: map<string, Label>): string -> Option<Label> {
    sig =>
      match rule(sig)
      case Assigned(l) => Some(l)
      case Skip => None
      case Default(wide) => if sig in labels then None else Some(if wide then MuxInput else ControlInput)
  }

  lemma LabelOfCases(rule: string -> Outcome, labels: map<string, Label>, sig: string)
    ensures rule(sig).Assigned? ==> LabelOf(rule, labels)(sig) == Some(rule(sig).given)
    ensures rule(sig).Skip? ==> LabelOf(rule, labels)(sig) == None
    ensures rule(sig).Default? && sig in labels ==> LabelOf(rule, labels)(sig) == None
    ensures rule(sig) == Default(true) && sig !in labels ==> LabelOf(rule, labels)(sig) == Some(MuxInput)
    ensures rule(sig) == Default(false) && sig !in labels ==> LabelOf(rule, labels)(sig) == Some(ControlInput)
  {
  }

  /** The tokens the width rule marks as wider than one bit. */
  function WideOf(rule: string -> Outcome): string -> bool {
    sig => rule(sig) == Default(true)
  }

  /**
   * The labels after the tokens of an `if`/`case` line.  Each token is
   * looked at once and its rules read and write only its own entry, so the
   * order in which the set is visited does not matter.
   */
  function ConditionLabels(params: set<string>, decls: map<string, nat>, labels: map<string, Label>, toks: set<string>): map<string, Label> {
    labels + LabelledSet(toks, LabelOf(ConditionRule(params, decls), labels))
  }

  /** The tokens declared wider than one bit join the multiplexer inputs. */
  function ConditionMux(params: set<string>, decls: map<string, nat>, mux: set<string>, toks: set<string>): set<string> {
    mux + Filter(toks, WideOf(ConditionRule(params, decls)))
  }

  /**
   * `for sig in set(tokens): ...` in whatever order the set is visited,
   * with the rule chain given as `rule`.
   */
  method ClassifyConditionTokens(rule: string -> Outcome, labels: map<string, Label>, mux: set<string>, toks: set<string>)
    returns (labels': map<string, Label>, mux': set<string>)
    ensures labels' == labels + LabelledSet(toks, LabelOf(rule, labels))
    ensures mux' == mux + Filter(toks, WideOf(rule))
  {
    labels', mux' := labels, mux;
    var todo := toks;
    while todo != {}
      invariant todo <= toks
      invariant labels' == labels + LabelledSet(toks - todo, LabelOf(rule, labels))
      invariant mux' == mux + Filter(toks - todo, WideOf(rule))
      decreases |todo|
    {
      var sig :| sig in todo;
      VisitOne(toks, todo, sig);
      LabelledSetAdd(labels, toks - todo, sig, LabelOf(rule, labels));
      FilterAdd(toks - todo, sig, WideOf(rule));
      LabelOfCases(rule, labels, sig);
      ghost var tag := LabelOf(rule, labels)(sig);
      ghost var before := labels';
      assert sig in before <==> sig in labels;
      todo := todo - {sig};
      match rule(sig) {
        case Assigned(l) =>
          labels' := labels'[sig := l];
          assert tag == Some(l);
        case Skip =>
          assert tag == None;
        case Default(wide) =>
          if wide {
            mux' := mux' + {sig};
            if sig !in labels' {
              labels' := labels'[sig := MuxInput];
              assert tag == Some(MuxInput);
            } else {
              assert tag == None;
            }
          } else if sig !in labels' {
            labels' := labels'[sig := ControlInput];
            assert tag == Some(ControlInput);
          } else {
            assert tag == None;
          }
      }
    }
    VisitedAll(toks);
  }

  // ---------------------------------------------------------------------
  // analyze_rtl
  // ---------------------------------------------------------------------

  /** The labels so far and the signals seen as multiplexer inputs. */
  datatype State = State(labels: map<string, Label>, mux: set<string>)

  /** Every parameter starts as `parameter`; nothing is a multiplexer input yet. */
  function Initial(params: set<string>): State {
    State(map p | p in params :: Parameter, {})
  }

  /** One line: its sensitivity list, then its assignments, then its `if`/`case` tokens. */
  function LineStep(params: set<string>, decls: map<string, nat>, st: State, line: string): State {
    var sensed := SensitivityLabels(params, st.labels, line);
    var written := AssignsLabels(params, st.mux, sensed, Assignments(line));
    if OpensCondition(line) then
      var toks := Elems(ConditionTokens(line));
      State(ConditionLabels(params, decls, written, toks), ConditionMux(params, decls, st.mux, toks))
    else State(written, st.mux)
  }

  function Run(params: set<string>, decls: map<string, nat>, st: State, lines: seq<string>): State
    decreases |lines|
  {
    if |lines| == 0 then st
    else
      var n := |lines| - 1;
      LineStep(params, decls, Run(params, decls, st, lines[..n]), lines[n])
  }

  /** Where `analyze_rtl` ends, from the parameters and declarations the lines give. */
  function Analysis(lines: seq<string>): State {
    var params := ModuleParameters(lines);
    Run(params, SignalBits(lines), Initial(params), lines)
  }

  /** `analyze_rtl`'s result. */
  function RtlClassification(lines: seq<string>): map<string, Label> {
    Analysis(lines).labels
  }

  /** The body of the line loop. */
  method ClassifyLine(params: set<string>, decls: map<string, nat>, labels: map<string, Label>, mux: set<string>, line: string)
    returns (labels': map<string, Label>, mux': set<string>)
    ensures State(labels', mux') == LineStep(params, decls, State(labels, mux), line)
  {
    labels', mux' := labels, mux;
    var sens := SensitivityFrom(line, 0);
    if sens.Some? {
      labels' := LabelAll(labels', Words(sens.value), SensLabel(params));
    }
    labels' := ClassifyAssignments(params, mux, labels', Assignments(line));
    if OpensCondition(line) {
      labels', mux' := ClassifyConditionTokens(ConditionRule(params, decls), labels', mux, Elems(ConditionTokens(line)));
    }
  }

  /** `analyze_rtl` */
  method AnalyzeRtl(lines: seq<string>) returns (labels: map<string, Label>)
    ensures labels == RtlClassification(lines)
  {
    var params := DetectModuleParameters(lines);
    var decls := ExtractSignalBits(lines);
    var mux: set<string> := {};
    labels := map p | p in params :: Parameter;
    for i := 0 to |lines|
      invariant State(labels, mux) == Run(params, decls, Initial(params), lines[..i])
    {
      TakeTake(lines, i);
      labels, mux := ClassifyLine(params, decls, labels, mux, lines[i]);
    }
    TakeAll(lines);
  }

  // ---------------------------------------------------------------------
  // What a label says about its signal
  // ---------------------------------------------------------------------

  /** The evidence each label stands for, as the rules that write it demand. */
  predicate Justified(params: set<string>, decls: map<string, nat>, mux: set<string>, s: string, l: Label) {
    match l
    case Parameter => s in params
    case Clock => s !in params && IsClockSignal(s)
    case ResetActiveLow => s !in params && IsResetLow(s)
    case ResetActiveHigh => s !in params && IsResetHigh(s)
    case StatusFlag => s !in params && IsStatusFlag(s)
    case AddrOutput => s !in params && IsAddrSignal(s)
    case AddrInput => s !in params && IsAddrSignal(s)
    case AddressRegister => s !in params && IsAddrSignal(s)
    case FsmControl => s !in params && IsFsmSignal(s)
    case FsmState => s !in params && IsFsmState(s)
    case MuxOutput => s in mux
    case MuxInput => ConditionOutcome(params, decls, s) == Default(true)
    case ControlInput => ConditionOutcome(params, decls, s) == Default(false)
    case ControlOutput =>
      s !in params && !IsStatusFlag(s) && !IsClockSignal(s) && !IsResetLow(s) && !IsResetHigh(s) &&
      !IsLiteral(s) && !IsKeyword(s) && !IsFsmSignal(s)
  }

  /**
   * Every parameter is labelled `parameter`, every label is justified, and
   * every multiplexer input reached the width rule with more than one bit.
   */
  predicate Sound(params: set<string>, decls: map<string, nat>, st: State) {
    (forall p :: p in params ==> p in st.labels && st.labels[p] == Parameter) &&
    (forall s :: s in st.labels ==> Justified(params, decls, st.mux, s, st.labels[s])) &&
    (forall s :: s in st.mux ==> ConditionOutcome(params, decls, s) == Default(true))
  }

  lemma InitialSound(params: set<string>, decls: map<string, nat>)
    ensures Sound(params, decls, Initial(params))
  {
  }

  /** Writing one justified label keeps a sound state sound. */
  lemma SoundUpdate(params: set<string>, decls: map<string, nat>, st: State, k: string, l: Label)
    requires Sound(params, decls, st)
    requires Justified(params, decls, st.mux, k, l)
    requires k in params ==> l == Parameter
    ensures Sound(params, decls, State(st.labels[k := l], st.mux))
  {
  }

  /** Laying justified labels over a sound state keeps it sound. */
  lemma SoundOverlay(params: set<string>, decls: map<string, nat>, st: State, extra: map<string, Label>)
    requires Sound(params, decls, st)
    requires forall k :: k in extra ==> Justified(params, decls, st.mux, k, extra[k])
    requires forall k :: k in extra && k in params ==> extra[k] == Parameter
    ensures Sound(params, decls, State(st.labels + extra, st.mux))
  {
  }

  /** More multiplexer inputs that reached the width rule with more than one bit. */
  lemma SoundMoreMux(params: set<string>, decls: map<string, nat>, st: State, mux: set<string>)
    requires Sound(params, decls, st)
    requires st.mux <= mux
    requires forall s :: s in mux ==> ConditionOutcome(params, decls, s) == Default(true)
    ensures Sound(params, decls, State(st.labels, mux))
  {
    forall s | s in st.labels
      ensures Justified(params, decls, mux, s, st.labels[s])
    {
      assert Justified(params, decls, st.mux, s, st.labels[s]);
    }
  }

  lemma SensitivitySound(params: set<string>, decls: map<string, nat>, st: State, line: string)
    requires Sound(params, decls, st)
    ensures Sound(params, decls, State(SensitivityLabels(params, st.labels, line), st.mux))
  {
    match SensitivityFrom(line, 0)
    case Some(list) =>
      var extra := Labelled(Words(list), SensLabel(params));
      forall k | k in extra
        ensures Justified(params, decls, st.mux, k, extra[k])
        ensures k in params ==> extra[k] == Parameter
      {
        assert extra[k] == SensLabel(params)(k).value;
      }
      SoundOverlay(params, decls, st, extra);
    case None =>
  }

  lemma AddrSound(params: set<string>, decls: map<string, nat>, st: State, lhs: string, rhs: string)
    requires Sound(params, decls, st)
    ensures Sound(params, decls, State(AddrLabels(params, st.labels, lhs, rhs), st.mux))
  {
    if lhs !in params && rhs !in params {
      var m := if IsAddrSignal(lhs) then st.labels[lhs := AddrOutput] else st.labels;
      if IsAddrSignal(lhs) {
        SoundUpdate(params, decls, st, lhs, AddrOutput);
      }
      if IsAddrSignal(rhs) {
        SoundUpdate(params, decls, State(m, st.mux), rhs, AddrInput);
      }
    }
  }

  /** The part of an assignment's rules after the address rule. */
  lemma AssignTailSound(params: set<string>, decls: map<string, nat>, st: State, a: Assign)
    requires Sound(params, decls, st)
    requires a.lhs !in params && a.rhs !in params && !IsStatusFlag(a.lhs)
    requires !IsClockSignal(a.lhs) && !IsResetLow(a.lhs) && !IsResetHigh(a.lhs)
    requires !IsLiteral(a.lhs) && !IsKeyword(a.lhs)
    ensures
      var m' :=
        if IsFsmSignal(a.lhs) then st.labels[a.lhs := FsmControl]
        else if a.lhs in st.mux then st.labels[a.lhs := MuxOutput]
        else if a.lhs !in st.labels then st.labels[a.lhs := ControlOutput]
        else st.labels;
      Sound(params, decls, State(if IsFsmState(a.rhs) then m'[a.rhs := FsmState] else m', st.mux))
  {
    var m' :=
      if IsFsmSignal(a.lhs) then st.labels[a.lhs := FsmControl]
      else if a.lhs in st.mux then st.labels[a.lhs := MuxOutput]
      else if a.lhs !in st.labels then st.labels[a.lhs := ControlOutput]
      else st.labels;
    if IsFsmSignal(a.lhs) {
      SoundUpdate(params, decls, st, a.lhs, FsmControl);
    } else if a.lhs in st.mux {
      SoundUpdate(params, decls, st, a.lhs, MuxOutput);
    } else if a.lhs !in st.labels {
      SoundUpdate(params, decls, st, a.lhs, ControlOutput);
    }
    if IsFsmState(a.rhs) {
      SoundUpdate(params, decls, State(m', st.mux), a.rhs, FsmState);
    }
  }

  lemma AssignSound(params: set<string>, decls: map<string, nat>, st: State, a: Assign)
    requires Sound(params, decls, st)
    ensures Sound(params, decls, State(AssignLabels(params, st.mux, st.labels, a), st.mux))
  {
    if a.lhs in params {
      SoundUpdate(params, decls, st, a.lhs, Parameter);
    } else if a.rhs in params {
      SoundUpdate(params, decls, st, a.rhs, Parameter);
    } else if IsStatusFlag(a.lhs) {
      SoundUpdate(params, decls, st, a.lhs, StatusFlag);
    } else {
      var m := AddrLabels(params, st.labels, a.lhs, a.rhs);
      AddrSound(params, decls, st, a.lhs, a.rhs);
      var st' := State(m, st.mux);
      if IsClockSignal(a.lhs) {
        SoundUpdate(params, decls, st', a.lhs, Clock);
      } else if IsResetLow(a.lhs) {
        SoundUpdate(params, decls, st', a.lhs, ResetActiveLow);
      } else if IsResetHigh(a.lhs) {
        SoundUpdate(params, decls, st', a.lhs, ResetActiveHigh);
      } else if !(IsLiteral(a.lhs) || IsKeyword(a.lhs)) {
        AssignTailSound(params, decls, st', a);
      }
    }
  }

  lemma {:induction false} AssignsSound(params: set<string>, decls: map<string, nat>, st: State, assigns: seq<Assign>)
    requires Sound(params, decls, st)
    ensures Sound(params, decls, State(AssignsLabels(params, st.mux, st.labels, assigns), st.mux))
    decreases |assigns|
  {
    if |assigns| > 0 {
      var n := |assigns| - 1;
      AssignsSound(params, decls, st, assigns[..n]);
      AssignSound(params, decls, State(AssignsLabels(params, st.mux, st.labels, assigns[..n]), st.mux), assigns[n]);
    }
  }

  /** The multiplexer inputs an `if`/`case` line adds all reached the width rule with more than one bit. */
  lemma ConditionMuxWide(params: set<string>, decls: map<string, nat>, mux: set<string>, toks: set<string>)
    requires forall s :: s in mux ==> ConditionOutcome(params, decls, s) == Default(true)
    ensures forall s :: s in ConditionMux(params, decls, mux, toks) ==> ConditionOutcome(params, decls, s) == Default(true)
  {
    var rule := ConditionRule(params, decls);
    FilterMembers(toks, WideOf(rule));
    forall s | s in ConditionMux(params, decls, mux, toks)
      ensures ConditionOutcome(params, decls, s) == Default(true)
    {
      if s !in mux {
        assert WideOf(rule)(s);
      }
    }
  }

  /** The label the condition rules give one token is justified. */
  lemma ConditionLabelJustified(params: set<string>, decls: map<string, nat>, labels: map<string, Label>, mux: set<string>, k: string)
    requires ConditionOutcome(params, decls, k) == Default(true) ==> k in mux
    requires LabelOf(ConditionRule(params, decls), labels)(k).Some?
    ensures Justified(params, decls, mux, k, LabelOf(ConditionRule(params, decls), labels)(k).value)
    ensures k in params ==> LabelOf(ConditionRule(params, decls), labels)(k).value == Parameter
  {
    LabelOfCases(ConditionRule(params, decls), labels, k);
  }

  /** The labels an `if`/`case` line writes are justified. */
  lemma ConditionLabelsJustified(params: set<string>, decls: map<string, nat>, labels: map<string, Label>, mux: set<string>, toks: set<string>)
    requires Filter(toks, WideOf(ConditionRule(params, decls))) <= mux
    ensures forall k :: k in LabelledSet(toks, LabelOf(ConditionRule(params, decls), labels)) ==>
      Justified(params, decls, mux, k, LabelledSet(toks, LabelOf(ConditionRule(params, decls), labels))[k]) &&
      (k in params ==> LabelledSet(toks, LabelOf(ConditionRule(params, decls), labels))[k] == Parameter)
  {
    var rule := ConditionRule(params, decls);
    var extra := LabelledSet(toks, LabelOf(rule, labels));
    LabelledSetMembers(toks, LabelOf(rule, labels));
    FilterMembers(toks, WideOf(rule));
    forall k | k in extra
      ensures Justified(params, decls, mux, k, extra[k])
      ensures k in params ==> extra[k] == Parameter
    {
      if ConditionOutcome(params, decls, k) == Default(true) {
        assert WideOf(rule)(k);
      }
      ConditionLabelJustified(params, decls, labels, mux, k);
    }
  }

  lemma ConditionSound(params: set<string>, decls: map<string, nat>, st: State, toks: set<string>)
    requires Sound(params, decls, st)
    ensures Sound(params, decls, State(ConditionLabels(params, decls, st.labels, toks), ConditionMux(params, decls, st.mux, toks)))
  {
    var mux := ConditionMux(params, decls, st.mux, toks);
    ConditionMuxWide(params, decls, st.mux, toks);
    SoundMoreMux(params, decls, st, mux);
    ConditionLabelsJustified(params, decls, st.labels, mux, toks);
    SoundOverlay(params, decls, State(st.labels, mux), LabelledSet(toks, LabelOf(ConditionRule(params, decls), st.labels)));
  }

  lemma LineStepSound(params: set<string>, decls: map<string, nat>, st: State, line: string)
    requires Sound(params, decls, st)
    ensures Sound(params, decls, LineStep(params, decls, st, line))
  {
    var sensed := State(SensitivityLabels(params, st.labels, line), st.mux);
    SensitivitySound(params, decls, st, line);
    var written := State(AssignsLabels(params, st.mux, sensed.labels, Assignments(line)), st.mux);
    AssignsSound(params, decls, sensed, Assignments(line));
    if OpensCondition(line) {
      ConditionSound(params, decls, written, Elems(ConditionTokens(line)));
    }
  }

  lemma {:induction false} RunSound(params: set<string>, decls: map<string, nat>, st: State, lines: seq<string>)
    requires Sound(params, decls, st)
    ensures Sound(params, decls, Run(params, decls, st, lines))
    decreases |lines|
  {
    if |lines| > 0 {
      var n := |lines| - 1;
      RunSound(params, decls, st, lines[..n]);
      LineStepSound(params, decls, Run(params, decls, st, lines[..n]), lines[n]);
    }
  }

  /**
   * Every detected parameter ends up labelled `parameter`, and nothing
   * else does.
   */
  lemma ParametersStayParameters(lines: seq<string>)
    ensures forall p :: p in ModuleParameters(lines) ==>
      p in RtlClassification(lines) && RtlClassification(lines)[p] == Parameter
    ensures forall s :: s in RtlClassification(lines) && RtlClassification(lines)[s] == Parameter ==>
      s in ModuleParameters(lines)
  {
    ClassificationJustified(lines);
    var params := ModuleParameters(lines);
    var st := Analysis(lines);
    forall s | s in st.labels && st.labels[s] == Parameter
      ensures s in params
    {
      assert Justified(params, SignalBits(lines), st.mux, s, st.labels[s]);
    }
  }

  /** Every label in the result is justified by the signal's name, declaration or role. */
  lemma ClassificationJustified(lines: seq<string>)
    ensures Sound(ModuleParameters(lines), SignalBits(lines), Analysis(lines))
  {
    var params := ModuleParameters(lines);
    InitialSound(params, SignalBits(lines));
    RunSound(params, SignalBits(lines), Initial(params), lines);
  }

  // ---------------------------------------------------------------------
  // Labels persist; defaults never overwrite
  // ---------------------------------------------------------------------

  /** Nothing labelled loses its label, and a default label never replaces another one. */
  predicate Keeps(before: map<string, Label>, after: map<string, Label>) {
    forall s :: s in before ==> s in after && (IsDefault(after[s]) ==> after[s] == before[s])
  }

  lemma KeepsTransitive(a: map<string, Label>, b: map<string, Label>, c: map<string, Label>)
    requires Keeps(a, b) && Keeps(b, c)
    ensures Keeps(a, c)
  {
  }

  lemma KeepsSame(m: map<string, Label>)
    ensures Keeps(m, m)
  {
  }

  /** Writing a label that is not a default, or writing any label for a new signal, keeps what was there. */
  lemma KeepsUpdate(m: map<string, Label>, k: string, l: Label)
    requires !IsDefault(l) || k !in m
    ensures Keeps(m, m[k := l])
  {
  }

  /** Laying labels that are not defaults over a map keeps what was there. */
  lemma KeepsOverlay(m: map<string, Label>, extra: map<string, Label>)
    requires forall k :: k in extra ==> !IsDefault(extra[k])
    ensures Keeps(m, m + extra)
  {
  }

  lemma SensLabelNotDefault(params: set<string>, sig: string)
    ensures SensLabel(params)(sig).Some? ==> !IsDefault(SensLabel(params)(sig).value)
  {
    assert SensLabel(params)(sig) == SensLabelOf(params, sig);
  }

  lemma SensitivityKeeps(params: set<string>, labels: map<string, Label>, line: string)
    ensures Keeps(labels, SensitivityLabels(params, labels, line))
  {
    match SensitivityFrom(line, 0)
    case Some(list) =>
      var extra := Labelled(Words(list), SensLabel(params));
      forall k | k in extra
        ensures !IsDefault(extra[k])
      {
        SensLabelNotDefault(params, k);
      }
      KeepsOverlay(labels, extra);
    case None =>
      KeepsSame(labels);
  }

  lemma AddrKeeps(params: set<string>, labels: map<string, Label>, lhs: string, rhs: string)
    ensures Keeps(labels, AddrLabels(params, labels, lhs, rhs))
  {
    if lhs !in params && rhs !in params {
      var m := if IsAddrSignal(lhs) then labels[lhs := AddrOutput] else labels;
      if IsAddrSignal(lhs) {
        KeepsUpdate(labels, lhs, AddrOutput);
      } else {
        KeepsSame(labels);
      }
      if IsAddrSignal(rhs) {
        KeepsUpdate(m, rhs, AddrInput);
        KeepsTransitive(labels, m, m[rhs := AddrInput]);
      }
    } else {
      KeepsSame(labels);
    }
  }

  lemma AssignTailKeeps(mux: set<string>, m: map<string, Label>, a: Assign)
    ensures
      var m' :=
        if IsFsmSignal(a.lhs) then m[a.lhs := FsmControl]
        else if a.lhs in mux then m[a.lhs := MuxOutput]
        else if a.lhs !in m then m[a.lhs := ControlOutput]
        else m;
      Keeps(m, if IsFsmState(a.rhs) then m'[a.rhs := FsmState] else m')
  {
    var m' :=
      if IsFsmSignal(a.lhs) then m[a.lhs := FsmControl]
      else if a.lhs in mux then m[a.lhs := MuxOutput]
      else if a.lhs !in m then m[a.lhs := ControlOutput]
      else m;
    if IsFsmSignal(a.lhs) {
      KeepsUpdate(m, a.lhs, FsmControl);
    } else if a.lhs in mux {
      KeepsUpdate(m, a.lhs, MuxOutput);
    } else if a.lhs !in m {
      KeepsUpdate(m, a.lhs, ControlOutput);
    } else {
      KeepsSame(m);
    }
    if IsFsmState(a.rhs) {
      KeepsUpdate(m', a.rhs, FsmState);
      KeepsTransitive(m, m', m'[a.rhs := FsmState]);
    }
  }

  lemma AssignKeeps(params: set<string>, mux: set<string>, labels: map<string, Label>, a: Assign)
    ensures Keeps(labels, AssignLabels(params, mux, labels, a))
  {
    if a.lhs in params {
      KeepsUpdate(labels, a.lhs, Parameter);
    } else if a.rhs in params {
      KeepsUpdate(labels, a.rhs, Parameter);
    } else if IsStatusFlag(a.lhs) {
      KeepsUpdate(labels, a.lhs, StatusFlag);
    } else {
      var m := AddrLabels(params, labels, a.lhs, a.rhs);
      AddrKeeps(params, labels, a.lhs, a.rhs);
      if IsClockSignal(a.lhs) {
        KeepsUpdate(m, a.lhs, Clock);
        KeepsTransitive(labels, m, m[a.lhs := Clock]);
      } else if IsResetLow(a.lhs) {
        KeepsUpdate(m, a.lhs, ResetActiveLow);
        KeepsTransitive(labels, m, m[a.lhs := ResetActiveLow]);
      } else if IsResetHigh(a.lhs) {
        KeepsUpdate(m, a.lhs, ResetActiveHigh);
        KeepsTransitive(labels, m, m[a.lhs := ResetActiveHigh]);
      } else if !(IsLiteral(a.lhs) || IsKeyword(a.lhs)) {
        AssignTailKeeps(mux, m, a);
        KeepsTransitive(labels, m, AssignLabels(params, mux, labels, a));
      }
    }
  }

  lemma {:induction false} AssignsKeeps(params: set<string>, mux: set<string>, labels: map<string, Label>, assigns: seq<Assign>)
    ensures Keeps(labels, AssignsLabels(params, mux, labels, assigns))
    decreases |assigns|
  {
    if |assigns| > 0 {
      var n := |assigns| - 1;
      var mid := AssignsLabels(params, mux, labels, assigns[..n]);
      AssignsKeeps(params, mux, labels, assigns[..n]);
      AssignKeeps(params, mux, mid, assigns[n]);
      KeepsTransitive(labels, mid, AssignsLabels(params, mux, labels, assigns));
    }
  }

  lemma ConditionKeeps(params: set<string>, decls: map<string, nat>, labels: map<string, Label>, toks: set<string>)
    ensures Keeps(labels, ConditionLabels(params, decls, labels, toks))
  {
    var rule := ConditionRule(params, decls);
    var extra := LabelledSet(toks, LabelOf(rule, labels));
    LabelledSetMembers(toks, LabelOf(rule, labels));
    forall s | s in labels && s in extra && IsDefault(extra[s])
      ensures false
    {
      LabelOfCases(rule, labels, s);
    }
  }

  /**
   * One line never removes a label, never lets a default label replace
   * another, and never forgets a multiplexer input.
   */
  lemma LineStepKeeps(params: set<string>, decls: map<string, nat>, st: State, line: string)
    ensures Keeps(st.labels, LineStep(params, decls, st, line).labels)
    ensures st.mux <= LineStep(params, decls, st, line).mux
  {
    var sensed := SensitivityLabels(params, st.labels, line);
    var written := AssignsLabels(params, st.mux, sensed, Assignments(line));
    SensitivityKeeps(params, st.labels, line);
    AssignsKeeps(params, st.mux, sensed, Assignments(line));
    KeepsTransitive(st.labels, sensed, written);
    if OpensCondition(line) {
      ConditionKeeps(params, decls, written, Elems(ConditionTokens(line)));
      KeepsTransitive(st.labels, written, LineStep(params, decls, st, line).labels);
    }
  }

  /** A signal labelled after the first `i` lines keeps a label to the end, and a default one never takes its place. */
  lemma {:induction false} LabelsPersist(params: set<string>, decls: map<string, nat>, st: State, lines: seq<string>, i: nat)
    requires i <= |lines|
    ensures Keeps(Run(params, decls, st, lines[..i]).labels, Run(params, decls, st, lines).labels)
    decreases |lines|
  {
    if i == |lines| {
      assert lines[..i] == lines;
    } else {
      var n := |lines| - 1;
      LabelsPersist(params, decls, st, lines[..n], i);
      assert lines[..n][..i] == lines[..i];
      LineStepKeeps(params, decls, Run(params, decls, st, lines[..n]), lines[n]);
      KeepsTransitive(Run(params, decls, st, lines[..i]).labels, Run(params, decls, st, lines[..n]).labels,
        Run(params, decls, st, lines).labels);
    }
  }

  // ---------------------------------------------------------------------
  // Precedence of single rules
  // ---------------------------------------------------------------------

  /** A status-flag target gets `status_flag` and no other rule of that assignment runs. */
  lemma StatusFlagStops(params: set<string>, mux: set<string>, labels: map<string, Label>, a: Assign)
    requires a.lhs !in params && a.rhs !in params && IsStatusFlag(a.lhs)
    ensures AssignLabels(params, mux, labels, a) == labels[a.lhs := StatusFlag]
  {
  }

  /** In an `if`/`case` line a literal or keyword that is not a parameter gets no label. */
  lemma ConditionSkipsLiterals(params: set<string>, decls: map<string, nat>, labels: map<string, Label>, mux: set<string>,
                               toks: set<string>, sig: string)
    requires sig !in params && (IsLiteral(sig) || IsKeyword(sig))
    ensures sig in ConditionLabels(params, decls, labels, toks) <==> sig in labels
    ensures sig in labels ==> ConditionLabels(params, decls, labels, toks)[sig] == labels[sig]
    ensures sig in ConditionMux(params, decls, mux, toks) <==> sig in mux
  {
    NotNamed(sig);
    var rule := ConditionRule(params, decls);
    assert rule(sig) == Skip;
    LabelOfCases(rule, labels, sig);
    LabelledSetMembers(toks, LabelOf(rule, labels));
    FilterMembers(toks, WideOf(rule));
  }

  /**
   * A signal already seen as a multiplexer input, assigned to outside the
   * status-flag and parameter rules, becomes `mux_output`.
   */
  lemma MuxMemberBecomesMuxOutput(params: set<string>, decls: map<string, nat>, st: State, a: Assign)
    requires Sound(params, decls, st)
    requires a.lhs in st.mux && a.rhs !in params && !IsStatusFlag(a.lhs)
    ensures a.lhs in AssignLabels(params, st.mux, st.labels, a)
    ensures AssignLabels(params, st.mux, st.labels, a)[a.lhs] == MuxOutput
  {
    assert ConditionOutcome(params, decls, a.lhs) == Default(true);
  }
}
