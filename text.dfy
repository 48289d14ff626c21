/**
 * String primitives used by the hand-written scanners that stand in for the
 * source's regular expressions.  Character classes are the ASCII readings of
 * Python's `\s`, `\d` and `\w`.
 */
module Text {

  import opened Base

  // ---------------------------------------------------------------------
  // Character classes
  // ---------------------------------------------------------------------

  /**
   * Python's `\s` on ASCII text, which is also what `str.strip()` removes and
   * `str.split()` splits at: the blank, `\t` to `\r`, and the four separator
   * controls `\x1c` to `\x1f` (`str.isspace()` holds for each of them).
   */
  predicate IsSpace(c: char) {
    c == ' ' || c == '\t' || c == '\n' || c == '\r' || c == '\U{000B}' || c == '\U{000C}' ||
    ('\U{001C}' <= c <= '\U{001F}')
  }

  predicate IsDigit(c: char) { '0' <= c <= '9' }

  predicate IsLetter(c: char) { 'a' <= c <= 'z' || 'A' <= c <= 'Z' }

  /** Python's `\w` on ASCII text. */
  predicate IsWordChar(c: char) { IsLetter(c) || IsDigit(c) || c == '_' }

  /** `[A-Za-z_]`, the first character of an identifier. */
  predicate IsIdentStart(c: char) { IsLetter(c) || c == '_' }

  /** A non-empty run of `\w` characters. */
  predicate IsWord(s: string) {
    |s| > 0 && forall i :: 0 <= i < |s| ==> IsWordChar(s[i])
  }

  /** `[A-Za-z_]\w*` */
  predicate IsIdentifier(s: string) {
    IsWord(s) && IsIdentStart(s[0])
  }

  // ---------------------------------------------------------------------
  // Case
  // ---------------------------------------------------------------------

  function LowerChar(c: char): (r: char)
    ensures 'A' <= c <= 'Z' ==> 'a' <= r <= 'z'
    ensures !('A' <= c <= 'Z') ==> r == c
  {
    if 'A' <= c <= 'Z' then (c as int + 32) as char else c
  }

  /** `str.lower()` restricted to ASCII letters. */
  function Lower(s: string): (r: string)
    ensures |r| == |s|
    ensures forall i :: 0 <= i < |s| ==> r[i] == LowerChar(s[i])
  {
    seq(|s|, i requires 0 <= i < |s| => LowerChar(s[i]))
  }

  predicate HasNoUpper(s: string) {
    forall i :: 0 <= i < |s| ==> !('A' <= s[i] <= 'Z')
  }

  lemma LowerHasNoUpper(s: string)
    ensures HasNoUpper(Lower(s))
    ensures Lower(Lower(s)) == Lower(s)
  {
  }

  // ---------------------------------------------------------------------
  // Scanning helpers: positions are indices into the scanned string
  // ---------------------------------------------------------------------

  /** The end of the run of whitespace starting at `i` (greedy `\s*`). */
  function SkipSpaces(s: string, i: nat): (j: nat)
    requires i <= |s|
    ensures i <= j <= |s|
    ensures forall k :: i <= k < j ==> IsSpace(s[k])
    ensures j == |s| || !IsSpace(s[j])
    decreases |s| - i
  {
    if i < |s| && IsSpace(s[i]) then SkipSpaces(s, i + 1) else i
  }

  /** A run of whitespace from `i` that stops at `j` ends at `j`. */
  lemma SkipSpacesIs(s: string, i: nat, j: nat)
    requires i <= j <= |s|
    requires forall k :: i <= k < j ==> IsSpace(s[k])
    requires j == |s| || !IsSpace(s[j])
    ensures SkipSpaces(s, i) == j
  {
  }

  /** The end of the run of word characters starting at `i` (greedy `\w*`). */
  function WordEnd(s: string, i: nat): (j: nat)
    requires i <= |s|
    ensures i <= j <= |s|
    ensures forall k :: i <= k < j ==> IsWordChar(s[k])
    ensures j == |s| || !IsWordChar(s[j])
    decreases |s| - i
  {
    if i < |s| && IsWordChar(s[i]) then WordEnd(s, i + 1) else i
  }

  /** A run of word characters from `i` that stops at `j` ends at `j`. */
  lemma WordEndIs(s: string, i: nat, j: nat)
    requires i <= j <= |s|
    requires forall k :: i <= k < j ==> IsWordChar(s[k])
    requires j == |s| || !IsWordChar(s[j])
    ensures WordEnd(s, i) == j
  {
  }

  /** The run of word characters from `i`, when there is one, is a word. */
  lemma WordFrom(s: string, i: nat)
    requires i <= |s|
    ensures WordEnd(s, i) > i ==> IsWord(s[i..WordEnd(s, i)])
  {
  }

  /** A run of word characters inside `a` ends where it does in `a + y` when `y` cannot extend it. */
  lemma {:induction false} WordEndBefore(a: string, y: string, i: nat)
    requires i <= |a| && (y == "" || !IsWordChar(y[0]))
    ensures WordEnd(a + y, i) == WordEnd(a, i)
    decreases |a| - i
  {
    if i < |a| {
      assert (a + y)[i] == a[i];
      WordEndBefore(a, y, i + 1);
    } else {
      assert y != "" ==> (a + y)[i] == y[0];
    }
  }

  /** The end of the run of decimal digits starting at `i` (greedy `\d*`). */
  function DigitsEnd(s: string, i: nat): (j: nat)
    requires i <= |s|
    ensures i <= j <= |s|
    ensures forall k :: i <= k < j ==> IsDigit(s[k])
    ensures j == |s| || !IsDigit(s[j])
    decreases |s| - i
  {
    if i < |s| && IsDigit(s[i]) then DigitsEnd(s, i + 1) else i
  }

  /** The first index at or after `i` holding `c`, or `|s|`. */
  function IndexOfFrom(s: string, c: char, i: nat): (j: nat)
    requires i <= |s|
    ensures i <= j <= |s|
    ensures forall k :: i <= k < j ==> s[k] != c
    ensures j < |s| ==> s[j] == c
    decreases |s| - i
  {
    if i == |s| || s[i] == c then i else IndexOfFrom(s, c, i + 1)
  }

  /** The first `c` from `i` on is at `j`. */
  lemma IndexOfFromIs(s: string, c: char, i: nat, j: nat)
    requires i <= j < |s| && s[j] == c
    requires forall k :: i <= k < j ==> s[k] != c
    ensures IndexOfFrom(s, c, i) == j
  {
  }

  function IndexOf(s: string, c: char): (j: nat)
    ensures j <= |s|
    ensures forall k :: 0 <= k < j ==> s[k] != c
    ensures j < |s| ==> s[j] == c
  {
    IndexOfFrom(s, c, 0)
  }

  /** The first `c` of `seg`, `c`, `rest` is the one after `seg` when `seg` has none. */
  lemma IndexOfAfter(seg: string, c: char, rest: string)
    requires c !in seg
    ensures IndexOf(seg + [c] + rest, c) == |seg|
    ensures (seg + [c] + rest)[|seg|..] == [c] + rest
  {
    var s := seg + [c] + rest;
    assert forall k :: 0 <= k < |seg| ==> s[k] == seg[k];
    IndexOfFromIs(s, c, 0, |seg|);
  }

  /** `s.split(c)[0]`: everything before the first `c`. */
  function BeforeFirst(s: string, c: char): (r: string)
    ensures c !in r
    ensures c !in s ==> r == s
    ensures r <= s
  {
    s[..IndexOf(s, c)]
  }

  /** `s.split(c)[-1]`: everything after the last `c`. */
  function AfterLast(s: string, c: char): (r: string)
    ensures c !in r
    ensures c !in s ==> r == s
    ensures |r| <= |s| && r == s[|s| - |r|..]
    ensures |r| < |s| ==> s[|s| - |r| - 1] == c
    decreases |s|
  {
    if |s| == 0 then ""
    else if s[|s| - 1] == c then ""
    else
      var r := AfterLast(s[..|s| - 1], c);
      SuffixSnoc(s, |r|);
      SnocLast(s);
      r + [s[|s| - 1]]
  }

  /** The index of the last `c`, when there is one. */
  function LastIndexOf(s: string, c: char): (j: int)
    ensures -1 <= j < |s|
    ensures j >= 0 ==> s[j] == c
    ensures forall k :: j < k < |s| ==> s[k] != c
  {
    if |s| == 0 then -1
    else if s[|s| - 1] == c then |s| - 1
    else LastIndexOf(s[..|s| - 1], c)
  }

  predicate StartsWith(s: string, p: string) {
    |p| <= |s| && s[..|p|] == p
  }

  predicate EndsWith(s: string, p: string) {
    |p| <= |s| && s[|s| - |p|..] == p
  }

  /** `p in s` for strings: some occurrence of `p` starts at or after `i`. */
  function FindFrom(s: string, p: string, i: nat): (r: Option<nat>)
    requires i <= |s|
    ensures r.Some? ==> i <= r.value <= |s| && StartsWith(s[r.value..], p)
    ensures r.Some? ==> forall k :: i <= k < r.value ==> !StartsWith(s[k..], p)
    ensures r.None? ==> forall k :: i <= k <= |s| ==> !StartsWith(s[k..], p)
    decreases |s| - i
  {
    if StartsWith(s[i..], p) then Some(i)
    else if i == |s| then None
    else FindFrom(s, p, i + 1)
  }

  /** `p in s` for strings. */
  predicate Contains(s: string, p: string)
    decreases |s|
  {
    StartsWith(s, p) || (|s| > 0 && Contains(s[1..], p))
  }

  // ---------------------------------------------------------------------
  // str.strip(), str.rstrip()
  // ---------------------------------------------------------------------

  function RStrip(s: string): (r: string)
    ensures r <= s
    ensures |r| == 0 || !IsSpace(r[|r| - 1])
    ensures forall k :: |r| <= k < |s| ==> IsSpace(s[k])
  {
    if |s| > 0 && IsSpace(s[|s| - 1]) then RStrip(s[..|s| - 1]) else s
  }

  function LStrip(s: string): (r: string)
    ensures |r| <= |s| && r == s[|s| - |r|..]
    ensures |r| == 0 || !IsSpace(r[0])
    ensures forall k :: 0 <= k < |s| - |r| ==> IsSpace(s[k])
  {
    s[SkipSpaces(s, 0)..]
  }

  /** `str.strip()`: no leading and no trailing whitespace. */
  function Strip(s: string): (r: string)
    ensures |r| <= |s|
    ensures |r| == 0 || (!IsSpace(r[0]) && !IsSpace(r[|r| - 1]))
    ensures |r| == 0 <==> forall k :: 0 <= k < |s| ==> IsSpace(s[k])
  {
    RStrip(LStrip(s))
  }

  /** Text with a non-blank character keeps one when right-stripped. */
  lemma RStripNonBlank(s: string)
    requires |Strip(s)| > 0
    ensures |RStrip(s)| > 0
  {
    var k :| 0 <= k < |s| && !IsSpace(s[k]);
  }

  lemma StripUnpadded(s: string)
    requires |s| == 0 || (!IsSpace(s[0]) && !IsSpace(s[|s| - 1]))
    ensures Strip(s) == s
  {
  }

  /** `" ".join`-style concatenation with a separator. */
  function Join(sep: string, xs: seq<string>): string
    decreases |xs|
  {
    if |xs| == 0 then ""
    else if |xs| == 1 then xs[0]
    else Join(sep, xs[..|xs| - 1]) + sep + xs[|xs| - 1]
  }

  // ---------------------------------------------------------------------
  // str.split(c)
  // ---------------------------------------------------------------------

  /** `s.split(c)`: the pieces between the occurrences of `c`. */
  function SplitOn(s: string, c: char): (parts: seq<string>)
    ensures |parts| >= 1
    ensures forall k :: 0 <= k < |parts| ==> c !in parts[k]
    decreases |s|
  {
    var i := IndexOf(s, c);
    if i == |s| then [s] else [s[..i]] + SplitOn(s[i + 1..], c)
  }

  /** Gluing the pieces back with the separator gives the text back. */
  lemma {:induction false} SplitOnJoin(s: string, c: char)
    ensures Join([c], SplitOn(s, c)) == s
    decreases |s|
  {
    var i := IndexOf(s, c);
    if i < |s| {
      var rest := SplitOn(s[i + 1..], c);
      calc {
        Join([c], SplitOn(s, c));
        Join([c], [s[..i]] + rest);
        { JoinCons([c], s[..i], rest); }
        s[..i] + [c] + Join([c], rest);
        { SplitOnJoin(s[i + 1..], c); }
        s[..i] + [c] + s[i + 1..];
        { assert s == s[..i] + [s[i]] + s[i + 1..]; }
        s;
      }
    }
  }

  /** Joining a list with a head in front. */
  lemma {:induction false} JoinCons(sep: string, x: string, xs: seq<string>)
    requires |xs| > 0
    ensures Join(sep, [x] + xs) == x + sep + Join(sep, xs)
    decreases |xs|
  {
    var n := |xs| - 1;
    assert ([x] + xs)[..|[x] + xs| - 1] == [x] + xs[..n];
    if n == 0 {
      assert [x] + xs[..n] == [x];
    } else {
      JoinCons(sep, x, xs[..n]);
    }
  }

  /** `str.split()` with no argument: the maximal runs of non-whitespace. */
  function SplitWhitespace(s: string): (r: seq<string>)
    ensures forall k :: 0 <= k < |r| ==> |r[k]| > 0 && forall c :: c in r[k] ==> !IsSpace(c)
    decreases |s|
  {
    var i := SkipSpaces(s, 0);
    if i == |s| then []
    else
      var j := RunEnd(s, i);
      [s[i..j]] + SplitWhitespace(s[j..])
  }

  function RunEnd(s: string, i: nat): (j: nat)
    requires i <= |s|
    ensures i <= j <= |s|
    ensures forall k :: i <= k < j ==> !IsSpace(s[k])
    ensures j == |s| || IsSpace(s[j])
    decreases |s| - i
  {
    if i < |s| && !IsSpace(s[i]) then RunEnd(s, i + 1) else i
  }

  // ---------------------------------------------------------------------
  // Pieces of a concatenation
  // ---------------------------------------------------------------------

  /** `t` is `x` followed by `y`. */
  lemma Peel(t: string, x: string, y: string)
    requires t == x + y
    ensures t[..|x|] == x && t[|x|..] == y
    ensures forall i :: |x| <= i < |t| ==> t[i] == y[i - |x|]
  {
  }

  /** A character of a slice is the character at the same place in the whole. */
  lemma SliceChar(t: string, a: nat, b: nat, i: nat)
    ensures a <= i < b <= |t| ==> t[a..b][i - a] == t[i]
  {
  }

  lemma Assoc4(a: string, b: string, c: string, d: string)
    ensures a + b + c + d == a + (b + (c + d))
  {
  }

  lemma Assoc6(a: string, b: string, c: string, d: string, e: string, f: string)
    ensures a + b + c + d + e + f == a + (b + (c + (d + (e + f))))
  {
  }

  /** A run of whitespace, possibly empty. */
  predicate AllSpaces(g: string) {
    forall k :: 0 <= k < |g| ==> IsSpace(g[k])
  }

  // ---------------------------------------------------------------------
  // Python's string ordering and sorted(set(xs))
  // ---------------------------------------------------------------------

  /** Python's `<` on `str`: lexicographic by code point, a proper prefix first. */
  predicate Less(a: string, b: string)
    decreases |a|
  {
    if |a| == 0 then |b| > 0
    else if |b| == 0 then false
    else a[0] < b[0] || (a[0] == b[0] && Less(a[1..], b[1..]))
  }

  lemma {:induction false} LessIrreflexive(a: string)
    ensures !Less(a, a)
    decreases |a|
  {
    if |a| > 0 { LessIrreflexive(a[1..]); }
  }

  lemma {:induction false} LessTransitive(a: string, b: string, c: string)
    requires Less(a, b) && Less(b, c)
    ensures Less(a, c)
    decreases |a|
  {
    if |a| > 0 && a[0] == b[0] && b[0] == c[0] {
      LessTransitive(a[1..], b[1..], c[1..]);
    }
  }

  lemma {:induction false} LessTotal(a: string, b: string)
    ensures a == b || Less(a, b) || Less(b, a)
    decreases |a|
  {
    if |a| > 0 && |b| > 0 && a[0] == b[0] {
      LessTotal(a[1..], b[1..]);
      if a[1..] == b[1..] {
        assert a == [a[0]] + a[1..] && b == [b[0]] + b[1..];
      }
    }
  }

  lemma LessAsymmetric(a: string, b: string)
    requires Less(a, b)
    ensures !Less(b, a)
  {
    if Less(b, a) {
      LessTransitive(a, b, a);
      LessIrreflexive(a);
    }
  }

  /** The elements of a list, as a set (Python's `set(xs)`). */
  function Elems<T>(xs: seq<T>): set<T> {
    set x | x in xs
  }

  predicate StrictlySorted(xs: seq<string>) {
    forall i, j :: 0 <= i < j < |xs| ==> Less(xs[i], xs[j])
  }

  predicate NoDup<T(==)>(xs: seq<T>) {
    forall i, j :: 0 <= i < j < |xs| ==> xs[i] != xs[j]
  }

  lemma StrictlySortedNoDup(xs: seq<string>)
    requires StrictlySorted(xs)
    ensures NoDup(xs)
  {
    forall i, j | 0 <= i < j < |xs| ensures xs[i] != xs[j] {
      LessIrreflexive(xs[i]);
    }
  }

  /** Inserts `x` into a strictly sorted list, keeping it strictly sorted. */
  function Insert(x: string, xs: seq<string>): (r: seq<string>)
    requires StrictlySorted(xs)
    ensures StrictlySorted(r)
    ensures forall y :: y in r <==> y == x || y in xs
    decreases |xs|
  {
    if |xs| == 0 then [x]
    else if x == xs[0] then xs
    else if Less(x, xs[0]) then
      var r := [x] + xs;
      assert StrictlySorted(r) by {
        forall i, j | 0 <= i < j < |r| ensures Less(r[i], r[j]) {
          if i == 0 {
            if j > 1 { LessTransitive(x, xs[0], xs[j - 1]); }
          } else {
            assert r[i] == xs[i - 1] && r[j] == xs[j - 1];
          }
        }
      }
      r
    else
      var rest := Insert(x, xs[1..]);
      var r := [xs[0]] + rest;
      LessTotal(x, xs[0]);
      assert StrictlySorted(r) by {
        forall i, j | 0 <= i < j < |r| ensures Less(r[i], r[j]) {
          if i == 0 {
            assert r[j] in rest;
            if r[j] != x {
              var k :| 0 <= k < |xs[1..]| && xs[1..][k] == r[j];
              assert xs[k + 1] == r[j];
            }
          } else {
            assert r[i] == rest[i - 1] && r[j] == rest[j - 1];
          }
        }
      }
      assert forall y :: y in xs <==> y == xs[0] || y in xs[1..] by {
        assert xs == [xs[0]] + xs[1..];
      }
      r
  }

  /** `sorted(set(xs))` */
  function SortedUnique(xs: seq<string>): (r: seq<string>)
    ensures StrictlySorted(r)
    ensures forall y :: y in r <==> y in xs
    decreases |xs|
  {
    if |xs| == 0 then []
    else
      var r := Insert(xs[|xs| - 1], SortedUnique(xs[..|xs| - 1]));
      assert forall y :: y in xs <==> y == xs[|xs| - 1] || y in xs[..|xs| - 1] by {
        assert xs == xs[..|xs| - 1] + [xs[|xs| - 1]];
      }
      r
  }

  /** A strictly sorted list is determined by its elements. */
  lemma {:induction false} SortedUniqueness(a: seq<string>, b: seq<string>)
    requires StrictlySorted(a) && StrictlySorted(b)
    requires forall y :: y in a <==> y in b
    ensures a == b
    decreases |a|
  {
    assert |a| > 0 ==> a[0] in a;
    assert |b| > 0 ==> b[0] in b;
    if |a| > 0 && |b| > 0 {
      // the head of each list is the least element of the common set
      assert a[0] == b[0] by {
        assert b[0] in a && a[0] in b;
        var i :| 0 <= i < |a| && a[i] == b[0];
        var j :| 0 <= j < |b| && b[j] == a[0];
        if a[0] != b[0] {
          assert i > 0 && j > 0;
          LessAsymmetric(a[0], b[0]);
        }
      }
      assert a == [a[0]] + a[1..] && b == [b[0]] + b[1..];
      forall y ensures y in a[1..] <==> y in b[1..] {
        if y in a[1..] {
          var i :| 0 <= i < |a[1..]| && a[1..][i] == y;
          assert Less(a[0], a[i + 1]);
          LessIrreflexive(a[0]);
          assert y in b && y != b[0];
          var k :| 0 <= k < |b| && b[k] == y;
          assert b[1..][k - 1] == y;
        }
        if y in b[1..] {
          var i :| 0 <= i < |b[1..]| && b[1..][i] == y;
          assert Less(b[0], b[i + 1]);
          LessIrreflexive(b[0]);
          assert y in a && y != a[0];
          var k :| 0 <= k < |a| && a[k] == y;
          assert a[1..][k - 1] == y;
        }
      }
      SortedUniqueness(a[1..], b[1..]);
    }
  }

  /** `list(set(xs))`, keeping each element at its first occurrence. */
  function Dedup<T(==,!new)>(xs: seq<T>): (r: seq<T>)
    ensures NoDup(r)
    ensures forall y :: y in r <==> y in xs
    decreases |xs|
  {
    if |xs| == 0 then []
    else
      var d := Dedup(xs[..|xs| - 1]);
      assert forall y :: y in xs <==> y == xs[|xs| - 1] || y in xs[..|xs| - 1] by {
        assert xs == xs[..|xs| - 1] + [xs[|xs| - 1]];
      }
      if xs[|xs| - 1] in d then d else d + [xs[|xs| - 1]]
  }

  // ---------------------------------------------------------------------
  // Decimal numerals
  // ---------------------------------------------------------------------

  /** `int(s)` for a run of ASCII digits. */
  function DigitsValue(s: string): (n: nat)
    requires forall i :: 0 <= i < |s| ==> IsDigit(s[i])
    decreases |s|
  {
    if |s| == 0 then 0
    else
      var d := s[|s| - 1];
      assert IsDigit(d);
      DigitsValue(s[..|s| - 1]) * 10 + (d as int - '0' as int)
  }

  function DigitChar(d: nat): (c: char)
    requires d < 10
    ensures IsDigit(c)
  {
    ('0' as int + d) as char
  }

  /** `str(n)` for a natural number. */
  function NatToString(n: nat): (s: string)
    ensures |s| > 0 && forall i :: 0 <= i < |s| ==> IsDigit(s[i])
    ensures DigitsValue(s) == n
    decreases n
  {
    if n < 10 then [DigitChar(n)]
    else
      var s := NatToString(n / 10) + [DigitChar(n % 10)];
      assert s[..|s| - 1] == NatToString(n / 10);
      s
  }

  /** `str(i)` for an integer (a leading `-` for negatives). */
  function IntToString(i: int): (s: string)
    ensures |s| > 0
    ensures i >= 0 ==> IsDigit(s[0])
    ensures i < 0 ==> s[0] == '-'
  {
    if i >= 0 then NatToString(i) else "-" + NatToString(-i)
  }

  // ---------------------------------------------------------------------
  // Sequence identities, stated once for every element type so that the
  // solver never compares elements of a costly type to prove them
  // ---------------------------------------------------------------------

  lemma TakeSnoc<T>(xs: seq<T>, j: nat)
    requires j < |xs|
    ensures xs[..j + 1] == xs[..j] + [xs[j]]
  {
  }

  lemma SliceSnoc<T>(xs: seq<T>, a: nat, b: nat)
    requires a <= b < |xs|
    ensures xs[a..b + 1] == xs[a..b] + [xs[b]]
  {
  }

  lemma DropDrop<T>(xs: seq<T>, a: nat, b: nat)
    requires a + b <= |xs|
    ensures xs[a..][b..] == xs[a + b..]
  {
  }

  lemma TakeTake<T>(xs: seq<T>, i: nat)
    requires i < |xs|
    ensures xs[..i + 1][..i] == xs[..i]
  {
  }

  lemma SnocLast<T>(xs: seq<T>)
    requires |xs| > 0
    ensures xs[..|xs| - 1] + [xs[|xs| - 1]] == xs
  {
  }

  lemma SuffixSnoc<T>(xs: seq<T>, n: nat)
    requires n < |xs|
    ensures xs[|xs| - (n + 1)..] == xs[..|xs| - 1][|xs| - 1 - n..] + [xs[|xs| - 1]]
  {
  }

  lemma ConsSplit<T>(xs: seq<T>, ys: seq<T>)
    requires |xs| > 0
    ensures [xs[0]] + (xs[1..] + ys) == xs + ys
  {
  }

  lemma ConcatRegroup<T>(a: seq<T>, x: seq<T>, y: seq<T>, c: seq<T>)
    ensures a + (x + y) + c == (a + x) + (y + c)
  {
  }

  lemma TakeAll<T>(xs: seq<T>)
    ensures xs[..|xs|] == xs
  {
  }

  lemma SnocAssoc<T>(xs: seq<T>, x: T, ys: seq<T>)
    ensures (xs + [x]) + ys == xs + ([x] + ys)
  {
  }

  lemma InFrontOrLast<T>(xs: seq<T>, m: T)
    requires |xs| > 0
    ensures m in xs <==> m in xs[..|xs| - 1] || m == xs[|xs| - 1]
  {
    assert xs == xs[..|xs| - 1] + [xs[|xs| - 1]];
  }
}
