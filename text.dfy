/**
 * Character-level helpers shared by the search and report code: Python's `str.strip()`,
 * `str.lower()` and `in` on strings, restricted to ASCII, plus the digit and line primitives
 * the report format needs.
 */
module Text {

  /** Python's `str.isspace()` restricted to ASCII: tab..carriage return, the four separators, space. */
  predicate IsSpace(c: char) {
    ('\t' <= c <= '\r') || ('\U{1C}' <= c <= '\U{1F}') || c == ' '
  }

  predicate IsUpper(c: char) { 'A' <= c <= 'Z' }

  predicate IsDigit(c: char) { '0' <= c <= '9' }

  function LowerChar(c: char): char {
    if IsUpper(c) then (c as int + 32) as char else c
  }

  /** `s.lower()` on ASCII letters. */
  function Lower(s: string): (r: string)
    ensures |r| == |s|
    ensures forall i :: 0 <= i < |s| ==> r[i] == LowerChar(s[i])
  {
    if s == [] then [] else [LowerChar(s[0])] + Lower(s[1..])
  }

  /** `s.lstrip()`: drops the longest whitespace prefix. */
  function LStrip(s: string): (r: string)
    ensures |r| <= |s| && r == s[|s| - |r|..]
    ensures r == [] || !IsSpace(r[0])
    ensures forall i :: 0 <= i < |s| - |r| ==> IsSpace(s[i])
  {
    if s != [] && IsSpace(s[0]) then LStrip(s[1..]) else s
  }

  /** `s.rstrip()`: drops the longest whitespace suffix. */
  function RStrip(s: string): (r: string)
    ensures |r| <= |s| && r == s[..|r|]
    ensures r == [] || !IsSpace(r[|r| - 1])
    ensures forall i :: |r| <= i < |s| ==> IsSpace(s[i])
  {
    if s != [] && IsSpace(s[|s| - 1]) then RStrip(s[..|s| - 1]) else s
  }

  /** `s.strip()`. */
  function Strip(s: string): string {
    RStrip(LStrip(s))
  }

  /** Python's `needle in hay` on strings. */
  predicate Contains(hay: string, needle: string)
    decreases |hay|
  {
    needle <= hay || (hay != [] && Contains(hay[1..], needle))
  }

  /** No whitespace at either end: the values a report writer can hand back unchanged. */
  predicate Trimmed(s: string) {
    s == [] || (!IsSpace(s[0]) && !IsSpace(s[|s| - 1]))
  }

  predicate AllSpace(s: string) {
    forall i :: 0 <= i < |s| ==> IsSpace(s[i])
  }

  predicate AllDigits(s: string) {
    forall i :: 0 <= i < |s| ==> IsDigit(s[i])
  }

  predicate NoLineBreak(s: string) {
    forall i :: 0 <= i < |s| ==> s[i] != '\n' && s[i] != '\r'
  }

  // ----- substring search -----

  /** `Contains` is exactly "occurs at some offset". */
  lemma {:induction false} ContainsAt(hay: string, needle: string)
    ensures Contains(hay, needle) <==> exists i :: 0 <= i <= |hay| && needle <= hay[i..]
    decreases |hay|
  {
    assert hay[0..] == hay;
    if hay != [] {
      ContainsAt(hay[1..], needle);
      if exists i :: 0 <= i <= |hay| && needle <= hay[i..] {
        var i :| 0 <= i <= |hay| && needle <= hay[i..];
        if i > 0 {
          assert hay[1..][i - 1..] == hay[i..];
          assert Contains(hay[1..], needle);
        }
      }
      if Contains(hay[1..], needle) {
        var j :| 0 <= j <= |hay| - 1 && needle <= hay[1..][j..];
        assert hay[1..][j..] == hay[j + 1..];
        assert needle <= hay[j + 1..];
      }
    }
  }

  lemma ContainsSelf(s: string)
    ensures Contains(s, s)
  {
  }

  /** Substring containment is transitive. */
  lemma ContainsTransitive(a: string, b: string, c: string)
    requires Contains(c, b) && Contains(b, a)
    ensures Contains(c, a)
  {
    ContainsAt(c, b);
    ContainsAt(b, a);
    var i :| 0 <= i <= |c| && b <= c[i..];
    var j :| 0 <= j <= |b| && a <= b[j..];
    assert a <= c[i + j..] by {
      assert forall k :: 0 <= k < |a| ==> a[k] == b[j + k] == c[i + j + k];
    }
    ContainsAt(c, a);
  }

  /** The empty string occurs in every string, and only the empty string occurs in "". */
  lemma ContainsEmpty(s: string)
    ensures Contains(s, "")
    ensures Contains("", s) <==> s == ""
  {
  }

  // ----- strip and lower -----

  /** A whitespace-only string strips to "". */
  lemma StripAllSpace(s: string)
    requires AllSpace(s)
    ensures Strip(s) == ""
  {
  }

  /** Stripping a string that has no edge whitespace changes nothing. */
  lemma StripTrimmed(s: string)
    requires Trimmed(s)
    ensures Strip(s) == s
  {
  }

  /** Leading whitespace is all `LStrip` removes: what follows is kept whole. */
  lemma {:induction false} LStripPrefix(w: string, s: string)
    requires AllSpace(w)
    requires s == [] || !IsSpace(s[0])
    ensures LStrip(w + s) == s
    decreases |w|
  {
    if w == [] {
      assert w + s == s;
    } else {
      assert (w + s)[1..] == w[1..] + s;
      LStripPrefix(w[1..], s);
    }
  }

  /** Trailing whitespace is all `RStrip` removes. */
  lemma {:induction false} RStripSuffix(s: string, w: string)
    requires AllSpace(w)
    requires s == [] || !IsSpace(s[|s| - 1])
    ensures RStrip(s + w) == s
    decreases |w|
  {
    if w == [] {
      assert s + w == s;
    } else {
      assert (s + w)[..|s + w| - 1] == s + w[..|w| - 1];
      RStripSuffix(s, w[..|w| - 1]);
    }
  }

  /** Lower-casing keeps whitespace and non-whitespace apart. */
  lemma LowerCharSpace(c: char)
    ensures IsSpace(LowerChar(c)) <==> IsSpace(c)
  {
  }

  /** Stripping and lower-casing commute. */
  lemma {:induction false} StripLower(s: string)
    ensures Strip(Lower(s)) == Lower(Strip(s))
  {
    LStripLower(s);
    RStripLower(LStrip(s));
  }

  lemma {:induction false} LStripLower(s: string)
    ensures LStrip(Lower(s)) == Lower(LStrip(s))
    decreases |s|
  {
    if s != [] {
      assert Lower(s)[1..] == Lower(s[1..]);
      LowerCharSpace(s[0]);
      if IsSpace(s[0]) {
        LStripLower(s[1..]);
      }
    }
  }

  lemma {:induction false} RStripLower(s: string)
    ensures RStrip(Lower(s)) == Lower(RStrip(s))
    decreases |s|
  {
    if s != [] {
      assert Lower(s)[..|s| - 1] == Lower(s[..|s| - 1]);
      LowerCharSpace(s[|s| - 1]);
      if IsSpace(s[|s| - 1]) {
        RStripLower(s[..|s| - 1]);
      }
    }
  }

  /** Lower-casing twice is lower-casing once. */
  lemma LowerIdempotent(s: string)
    ensures Lower(Lower(s)) == Lower(s)
  {
  }

  /** Stripping twice is stripping once. */
  lemma StripIdempotent(s: string)
    ensures Strip(Strip(s)) == Strip(s)
  {
    var l := LStrip(s);
    var r := RStrip(l);
    assert r == [] || !IsSpace(r[0]);
    assert LStrip(r) == r;
    assert RStrip(r) == r;
  }

  // ----- digits -----

  function DigitChar(d: nat): (c: char)
    requires d < 10
    ensures IsDigit(c)
  {
    ('0' as int + d) as char
  }

  function DigitValue(c: char): nat
    requires IsDigit(c)
  {
    c as int - '0' as int
  }

  /** Python's `str(n)` for a natural number: decimal digits, no sign, no leading zero. */
  function NatToString(n: nat): (r: string)
    ensures |r| > 0 && AllDigits(r)
    ensures DecimalValue(r) == n
  {
    if n < 10 then [DigitChar(n)] else NatToString(n / 10) + [DigitChar(n % 10)]
  }

  /** Python's `int(s)` on a non-empty run of ASCII digits. */
  function DecimalValue(s: string): nat
    requires AllDigits(s)
  {
    if s == [] then 0 else 10 * DecimalValue(s[..|s| - 1]) + DigitValue(s[|s| - 1])
  }

  // ----- lines -----

  /** Index of the first '\n' in `s`, or |s| when there is none. */
  function NewlineIndex(s: string): (i: nat)
    ensures i <= |s|
    ensures i < |s| ==> s[i] == '\n'
    ensures forall k :: 0 <= k < i ==> s[k] != '\n'
  {
    if s == [] || s[0] == '\n' then 0 else 1 + NewlineIndex(s[1..])
  }

  /** Python's `f.readlines()` on text: each line keeps its terminating '\n'. */
  function SplitLines(text: string): seq<string>
    decreases |text|
  {
    if text == [] then []
    else
      var i := NewlineIndex(text);
      if i == |text| then [text] else [text[..i + 1]] + SplitLines(text[i + 1..])
  }

  /** The text `f.write(line + "\n")` produces, line after line. */
  function JoinLines(lines: seq<string>): string {
    if lines == [] then "" else lines[0] + "\n" + JoinLines(lines[1..])
  }

  /** Each line with its terminator, as `readlines` hands it back. */
  function Terminated(lines: seq<string>): (r: seq<string>)
    ensures |r| == |lines|
    ensures forall i :: 0 <= i < |lines| ==> r[i] == lines[i] + "\n"
  {
    if lines == [] then [] else [lines[0] + "\n"] + Terminated(lines[1..])
  }

  /** Reading back written lines: `readlines` splits exactly at the written terminators. */
  lemma {:induction false} SplitJoin(lines: seq<string>)
    requires forall i :: 0 <= i < |lines| ==> NoLineBreak(lines[i])
    ensures SplitLines(JoinLines(lines)) == Terminated(lines)
  {
    if lines != [] {
      var l := lines[0];
      var text := JoinLines(lines);
      assert text == l + "\n" + JoinLines(lines[1..]);
      assert NewlineIndex(text) == |l| by {
        assert text[|l|] == '\n';
        assert forall k :: 0 <= k < |l| ==> text[k] == l[k];
        NewlineIndexAt(text, |l|);
      }
      assert text[..|l| + 1] == l + "\n";
      assert text[|l| + 1..] == JoinLines(lines[1..]);
      SplitJoin(lines[1..]);
    }
  }

  lemma {:induction false} NewlineIndexAt(s: string, i: nat)
    requires i < |s| && s[i] == '\n'
    requires forall k :: 0 <= k < i ==> s[k] != '\n'
    ensures NewlineIndex(s) == i
  {
  }
}
