/**
 * Signal-name normalisation and value emptiness of the waveform-to-RTL
 * mapper: the testbench prefixes it strips, the array indices it deletes,
 * and which cell values count as missing.
 */
module MappingNames {

  import opened Base
  import opened Text

  // ---------------------------------------------------------------------
  // normalize
  // ---------------------------------------------------------------------

  /**
   * `re.sub(r'^[^.]*\.<mid>\.', '', name)`: a first dot-free segment
   * followed by `.mid.` is dropped; anything else is left alone.
   */
  function StripSegment(name: string, mid: string): (r: string)
    ensures |r| <= |name| && r == name[|name| - |r|..]
    ensures r != name ==>
      var cut := |name| - |r|;
      cut >= |mid| + 2 && '.' !in name[..cut - |mid| - 2] && name[cut - |mid| - 2..cut] == "." + mid + "."
  {
    var i := IndexOf(name, '.');
    if StartsWith(name[i..], "." + mid + ".") then name[i + |mid| + 2..] else name
  }

  /** A name of the form `seg.mid.rest`, with `seg` free of dots, loses exactly `seg.mid.`. */
  lemma StripSegmentOf(seg: string, mid: string, rest: string)
    requires '.' !in seg
    ensures StripSegment(seg + "." + mid + "." + rest, mid) == rest
  {
    var name := seg + "." + mid + "." + rest;
    var i := IndexOf(name, '.');
    assert name[|seg|] == '.';
    assert forall k :: 0 <= k < |seg| ==> name[k] == seg[k];
    assert i == |seg|;
    assert name[i..][..|mid| + 2] == "." + mid + ".";
    assert name[i + |mid| + 2..] == rest;
  }

  /** A name without a dot is never stripped. */
  lemma StripSegmentNoDot(name: string, mid: string)
    requires '.' !in name
    ensures StripSegment(name, mid) == name
  {
  }

  /** `re.sub(r'^top\.', '', name)` */
  function StripTop(name: string): (r: string)
    ensures StartsWith(name, "top.") ==> name == "top." + r
    ensures !StartsWith(name, "top.") ==> r == name
  {
    if StartsWith(name, "top.") then name[4..] else name
  }

  /** The first index at or after `i` holding `]` or a line break, or `|s|`. */
  function CloseFrom(s: string, i: nat): (j: nat)
    requires i <= |s|
    ensures i <= j <= |s|
    ensures forall k :: i <= k < j ==> s[k] != ']' && s[k] != '\n'
    ensures j < |s| ==> s[j] == ']' || s[j] == '\n'
    decreases |s| - i
  {
    if i == |s| || s[i] == ']' || s[i] == '\n' then i else CloseFrom(s, i + 1)
  }

  /**
   * `re.sub(r"\[.*?\]", "", s)`: scanning from the left, every `[` that
   * reaches a `]` before any line break is deleted together with that
   * shortest bracketed span.
   */
  function RemoveBrackets(s: string): (r: string)
    ensures |r| <= |s|
    ensures '[' !in s ==> r == s
    decreases |s|
  {
    if |s| == 0 then ""
    else
      var j := CloseFrom(s, 1);
      if s[0] == '[' && j < |s| && s[j] == ']' then RemoveBrackets(s[j + 1..])
      else [s[0]] + RemoveBrackets(s[1..])
  }

  /** A character other than `[` is copied. */
  lemma RemoveBracketsHead(s: string)
    requires |s| > 0 && s[0] != '['
    ensures RemoveBrackets(s) == [s[0]] + RemoveBrackets(s[1..])
  {
  }

  /** A bracketed span at the front, without a line break or an inner `]`, vanishes. */
  lemma RemoveBracketsOpen(b: string, c: string)
    requires ']' !in b && '\n' !in b
    ensures RemoveBrackets("[" + b + "]" + c) == RemoveBrackets(c)
  {
    var s := "[" + b + "]" + c;
    assert forall k :: 1 <= k < 1 + |b| ==> s[k] == b[k - 1];
    assert s[0] == '[' && s[1 + |b|] == ']';
    assert CloseFrom(s, 1) == 1 + |b|;
    assert s[|b| + 2..] == c;
  }

  /** A bracketed span without a line break or an inner `]` vanishes, and the text before it stays. */
  lemma {:induction false} RemoveBracketsGroup(a: string, b: string, c: string)
    requires '[' !in a && ']' !in b && '\n' !in b
    ensures RemoveBrackets(a + "[" + b + "]" + c) == a + RemoveBrackets(c)
    decreases |a|
  {
    if |a| == 0 {
      assert a + "[" + b + "]" + c == "[" + b + "]" + c;
      RemoveBracketsOpen(b, c);
    } else {
      var s := a + "[" + b + "]" + c;
      assert s[0] == a[0] && s[1..] == a[1..] + "[" + b + "]" + c;
      RemoveBracketsHead(s);
      RemoveBracketsGroup(a[1..], b, c);
      ConsSplit(a, RemoveBrackets(c));
    }
  }

  /** `normalize(name)`: testbench prefixes off, array indices out, lower case. */
  function Normalize(name: string): (r: string)
    ensures HasNoUpper(r)
    ensures |r| <= |name|
  {
    LowerHasNoUpper(RemoveBrackets(StripTop(StripSegment(StripSegment(name, "dut"), "tb"))));
    Lower(RemoveBrackets(StripTop(StripSegment(StripSegment(name, "dut"), "tb"))))
  }

  /** A plain name (no dot, no bracket) is only lower-cased. */
  lemma NormalizePlain(name: string)
    requires '.' !in name && '[' !in name
    ensures Normalize(name) == Lower(name)
  {
    StripSegmentNoDot(name, "dut");
    StripSegmentNoDot(name, "tb");
  }

  lemma LowerKeepsLower(s: string)
    requires HasNoUpper(s)
    ensures Lower(s) == s
  {
  }

  /** A lower-case name with no dot and no bracket. */
  predicate Plain(s: string) {
    '.' !in s && '[' !in s && HasNoUpper(s)
  }

  /** `soc_tb.dut.uart_busy` becomes `uart_busy`: the first segment and `.dut.` go. */
  lemma NormalizeStripsDut(seg: string, sig: string)
    requires '.' !in seg && Plain(sig)
    ensures Normalize(seg + ".dut." + sig) == sig
  {
    assert seg + ".dut." + sig == seg + "." + "dut" + "." + sig;
    StripSegmentOf(seg, "dut", sig);
    StripSegmentNoDot(sig, "tb");
    LowerKeepsLower(sig);
  }

  /** `soc_tb.dut.u_uart.tx_busy` becomes `u_uart.tx_busy`: the instance name stays. */
  lemma NormalizeKeepsInstance(seg: string, inst: string, port: string)
    requires '.' !in seg && Plain(inst) && Plain(port) && inst != "top"
    ensures Normalize(seg + ".dut." + inst + "." + port) == inst + "." + port
  {
    assert seg + ".dut." + inst + "." + port == seg + "." + "dut" + "." + (inst + "." + port);
    StripSegmentOf(seg, "dut", inst + "." + port);
    PlainPair(inst, port);
  }

  /** `reg0[31:0]` becomes `reg0`. */
  lemma NormalizeDropsIndex(sig: string, index: string)
    requires Plain(sig) && '.' !in index && ']' !in index && '\n' !in index
    ensures Normalize(sig + "[" + index + "]") == sig
  {
    var name := sig + "[" + index + "]";
    assert name == sig + "[" + index + "]" + "";
    RemoveBracketsGroup(sig, index, "");
    assert '.' !in name;
    StripSegmentNoDot(name, "dut");
    StripSegmentNoDot(name, "tb");
    LowerKeepsLower(sig);
  }

  /**
   * `normalize` is not idempotent: `a.dut.b.dut.c` becomes `b.dut.c`, and a
   * second pass turns that into `c`.
   */
  lemma NormalizeNotIdempotent(a: string, b: string, c: string)
    requires '.' !in a && Plain(b) && Plain(c) && b != "top"
    ensures Normalize(a + ".dut." + b + ".dut." + c) == b + ".dut." + c
    ensures Normalize(b + ".dut." + c) == c
    ensures Normalize(Normalize(a + ".dut." + b + ".dut." + c)) != Normalize(a + ".dut." + b + ".dut." + c)
  {
    NormalizeFirstPass(a, b, c);
    NormalizeStripsDut(b, c);
  }

  lemma NormalizeFirstPass(a: string, b: string, c: string)
    requires '.' !in a && Plain(b) && Plain(c) && b != "top"
    ensures Normalize(a + ".dut." + b + ".dut." + c) == b + ".dut." + c
  {
    assert a + ".dut." + b + ".dut." + c == a + "." + "dut" + "." + (b + ".dut." + c);
    StripSegmentOf(a, "dut", b + ".dut." + c);
    var rest := "dut." + c;
    assert ".dut." == "." + "dut.";
    ConcatRegroup(b, ".", "dut.", c);
    assert rest[0] == 'd';
    PlainRest(b, rest);
  }

  /** `seg.rest` whose `rest` does not start with `tb.` keeps its first segment. */
  lemma StripTbKeeps(seg: string, rest: string)
    requires '.' !in seg && !StartsWith(rest, "tb.")
    ensures StripSegment(seg + "." + rest, "tb") == seg + "." + rest
  {
    IndexOfAfter(seg, '.', rest);
    DotPrefix(rest, "tb.");
  }

  lemma DotPrefix(rest: string, p: string)
    ensures StartsWith("." + rest, "." + p) ==> StartsWith(rest, p)
  {
    if StartsWith("." + rest, "." + p) {
      assert rest[..|p|] == ("." + rest)[1..|p| + 1];
    }
  }

  /** Only the first segment `top` lets `seg.rest` start with `top.`. */
  lemma TopPrefix(seg: string, rest: string)
    requires '.' !in seg
    ensures StartsWith(seg + "." + rest, "top.") ==> seg == "top"
  {
    var name := seg + "." + rest;
    if StartsWith(name, "top.") {
      assert name[|seg|] == '.' && name[3] == '.';
      assert forall k :: 0 <= k < |seg| ==> name[k] == seg[k];
      assert |seg| == 3;
      assert seg == name[..3];
    }
  }

  /** `inst.port` with plain parts is left as it is by the last steps of `normalize`. */
  lemma PlainPair(inst: string, port: string)
    requires Plain(inst) && Plain(port) && inst != "top"
    ensures Lower(RemoveBrackets(StripTop(StripSegment(inst + "." + port, "tb")))) == inst + "." + port
  {
    assert |port| < 3 || port[2] in port;
    PlainRest(inst, port);
  }

  /**
   * `seg.rest`, lower case and bracket-free, with `seg` plain and not `top`
   * and `rest` not starting with `tb.`, is left as it is by the last steps.
   */
  lemma PlainRest(seg: string, rest: string)
    requires Plain(seg) && '[' !in rest && HasNoUpper(rest) && seg != "top" && !StartsWith(rest, "tb.")
    ensures Lower(RemoveBrackets(StripTop(StripSegment(seg + "." + rest, "tb")))) == seg + "." + rest
  {
    var name := seg + "." + rest;
    StripTbKeeps(seg, rest);
    TopPrefix(seg, rest);
    assert StripTop(name) == name;
    assert '[' !in name;
    assert HasNoUpper(name);
    LowerKeepsLower(name);
  }

  /** `h.split('.')[-1].lower()`: the last dotted component, lower-cased. */
  function LastPart(s: string): (r: string)
    ensures '.' !in r && HasNoUpper(r)
    ensures |r| <= |s| && r == Lower(s[|s| - |r|..]) && '.' !in s[|s| - |r|..]
    ensures |r| < |s| ==> s[|s| - |r| - 1] == '.'
  {
    LowerHasNoUpper(AfterLast(s, '.'));
    Lower(AfterLast(s, '.'))
  }

  /** The text after the last dot, whatever comes before it. */
  lemma LastPartAfterDot(x: string, y: string)
    requires '.' !in y
    ensures LastPart(x + "." + y) == Lower(y)
  {
    var s := x + "." + y;
    assert s[|s| - |y| - 1] == '.';
    assert s[|s| - |y|..] == y;
  }

  /** `"a.B.c_D".split('.')[-1].lower()` */
  lemma LastPartExample()
    ensures LastPart("a.B.c_D") == "c_d"
  {
    LastPartAfterDot("a.B", "c_D");
    assert "a.B" + "." + "c_D" == "a.B.c_D";
    var l := Lower("c_D");
    assert LowerChar('c') == 'c' && LowerChar('_') == '_' && LowerChar('D') == 'd';
    assert l == [l[0], l[1], l[2]] == "c_d";
  }

  /** The last dotted component with its array indices deleted, lower-cased. */
  function LastPartClean(s: string): (r: string)
    ensures HasNoUpper(r)
    ensures '[' !in s ==> r == LastPart(s)
  {
    LowerHasNoUpper(RemoveBrackets(AfterLast(s, '.')));
    assert '[' !in s ==> '[' !in AfterLast(s, '.');
    Lower(RemoveBrackets(AfterLast(s, '.')))
  }

  /** The brackets are removed from the last component only, after the last dot. */
  lemma LastPartCleanAfterDot(x: string, y: string)
    requires '.' !in y
    ensures LastPartClean(x + "." + y) == Lower(RemoveBrackets(y))
  {
    var s := x + "." + y;
    LastPartAfterDot(x, y);
    assert |AfterLast(s, '.')| == |y|;
    assert AfterLast(s, '.') == s[|s| - |y|..] == y;
  }


  // ---------------------------------------------------------------------
  // is_empty_value
  // ---------------------------------------------------------------------

  /** `is_empty_value(val)`: blank after stripping, or a lone `-` or `?`. */
  predicate IsEmptyValue(val: string) {
    var v := Strip(val);
    v == "" || v == "-" || v == "?"
  }

  /** Every character that is not whitespace survives `strip()`. */
  lemma StripKeeps(s: string, k: nat)
    requires k < |s| && !IsSpace(s[k])
    ensures s[k] in Strip(s)
  {
    var l := LStrip(s);
    assert k >= |s| - |l|;
    assert l[k - (|s| - |l|)] == s[k];
    var r := RStrip(l);
    assert k - (|s| - |l|) < |r|;
    assert r[k - (|s| - |l|)] == s[k];
  }

  /**
   * A value counts as missing exactly when it is all whitespace or, once
   * stripped, a lone `-` or `?`; any other character makes it a real value,
   * so `x` and `z` are propagated.
   */
  lemma EmptyValueMeaning(val: string)
    ensures IsEmptyValue(val) <==>
      (forall k :: 0 <= k < |val| ==> IsSpace(val[k])) || Strip(val) == "-" || Strip(val) == "?"
    ensures (exists k :: 0 <= k < |val| && !IsSpace(val[k]) && val[k] != '-' && val[k] != '?') ==> !IsEmptyValue(val)
  {
    if k :| 0 <= k < |val| && !IsSpace(val[k]) && val[k] != '-' && val[k] != '?' {
      StripKeeps(val, k);
    }
  }

  /** A value with one letter among blanks is a value, so `x` and `z` are propagated. */
  lemma LetterIsAValue(pre: string, c: char, post: string)
    requires IsLetter(c)
    ensures !IsEmptyValue(pre + [c] + post)
  {
    var v := pre + [c] + post;
    assert v[|pre|] == c;
    EmptyValueMeaning(v);
  }

  lemma UnknownIsAValue()
    ensures !IsEmptyValue("x") && !IsEmptyValue("z") && !IsEmptyValue(" x ")
  {
    LetterIsAValue("", 'x', "");
    LetterIsAValue("", 'z', "");
    LetterIsAValue(" ", 'x', " ");
  }

  /** Blanks, the separator control `\x1f`, `-` and `?` are missing. */
  lemma MarksAreMissing()
    ensures IsEmptyValue("") && IsEmptyValue("  ") && IsEmptyValue("-") && IsEmptyValue("?")
    ensures IsEmptyValue("\U{1F}")
  {
    assert IsSpace("  "[0]) && IsSpace("  "[1]);
    assert IsSpace("\U{1F}"[0]);
    StripUnpadded("-");
    StripUnpadded("?");
  }
}
