/** The handful of java.lang.String and java.util.StringTokenizer operations
    the compiler relies on, stated over Dafny strings. */
module Text {

  predicate StartsWith(s: string, p: string) {
    |p| <= |s| && s[..|p|] == p
  }

  predicate EndsWith(s: string, p: string) {
    |p| <= |s| && s[|s| - |p|..] == p
  }

  /** `s.indexOf(c)`: the first position of `c`, or -1. */
  function IndexOfChar(s: string, c: char): (r: int)
    ensures -1 <= r < |s|
    ensures r == -1 <==> c !in s
    ensures r >= 0 ==> s[r] == c && c !in s[..r]
  {
    if |s| == 0 then -1
    else if s[0] == c then 0
    else
      var k := IndexOfChar(s[1..], c);
      assert s[1..][..if k < 0 then 0 else k] == s[1..1 + (if k < 0 then 0 else k)];
      if k < 0 then -1 else k + 1
  }

  predicate OccursAt(s: string, t: string, i: int) {
    0 <= i && i + |t| <= |s| && s[i..i + |t|] == t
  }

  /** `s.indexOf(t)`: the first position where `t` occurs, or -1
      (0 for the empty `t`, as in Java). */
  function IndexOf(s: string, t: string): (r: int)
    ensures -1 <= r <= |s|
    ensures r >= 0 ==> OccursAt(s, t, r)
    ensures r >= 0 ==> forall j :: 0 <= j < r ==> !OccursAt(s, t, j)
    ensures r == -1 ==> forall j :: 0 <= j <= |s| ==> !OccursAt(s, t, j)
  {
    IndexOfFrom(s, t, 0)
  }

  function IndexOfFrom(s: string, t: string, from: nat): (r: int)
    requires from <= |s| + 1
    ensures -1 <= r <= |s|
    ensures r >= 0 ==> from <= r && OccursAt(s, t, r)
    ensures r >= 0 ==> forall j :: from <= j < r ==> !OccursAt(s, t, j)
    ensures r == -1 ==> forall j :: from <= j <= |s| ==> !OccursAt(s, t, j)
    decreases |s| + 1 - from
  {
    if from + |t| > |s| then -1
    else if s[from..from + |t|] == t then from
    else IndexOfFrom(s, t, from + 1)
  }

  /** Java's `trim` drops every leading and trailing char up to U+0020. */
  predicate IsTrimmed(c: char) { c as int <= 32 }

  function TrimLeft(s: string): (r: string)
    ensures |r| <= |s|
    ensures r == [] || !IsTrimmed(r[0])
  {
    if |s| > 0 && IsTrimmed(s[0]) then TrimLeft(s[1..]) else s
  }

  function TrimRight(s: string): (r: string)
    ensures |r| <= |s|
    ensures r == [] || !IsTrimmed(r[|r| - 1])
  {
    if |s| > 0 && IsTrimmed(s[|s| - 1]) then TrimRight(s[..|s| - 1]) else s
  }

  /** Trimming removes only chars up to U+0020. */
  lemma {:induction false} TrimLeftRemovesBlanks(s: string)
    ensures TrimLeft(s) == s[|s| - |TrimLeft(s)|..]
    ensures forall i :: 0 <= i < |s| - |TrimLeft(s)| ==> IsTrimmed(s[i])
    decreases |s|
  {
    if |s| > 0 && IsTrimmed(s[0]) {
      TrimLeftRemovesBlanks(s[1..]);
      assert forall i :: 1 <= i < |s| ==> s[i] == s[1..][i - 1];
    }
  }

  lemma {:induction false} TrimRightRemovesBlanks(s: string)
    ensures TrimRight(s) == s[..|TrimRight(s)|]
    ensures forall i :: |TrimRight(s)| <= i < |s| ==> IsTrimmed(s[i])
    decreases |s|
  {
    if |s| > 0 && IsTrimmed(s[|s| - 1]) {
      TrimRightRemovesBlanks(s[..|s| - 1]);
    }
  }

  /** Text whose ends are not blank is its own trim. */
  lemma TrimOfTrimmed(s: string)
    requires s == [] || (!IsTrimmed(s[0]) && !IsTrimmed(s[|s| - 1]))
    ensures Trim(s) == s
  {
  }

  function Trim(s: string): (r: string)
    ensures |r| <= |s|
    ensures r == [] || (!IsTrimmed(r[0]) && !IsTrimmed(r[|r| - 1]))
  {
    TrimRightRemovesBlanks(TrimLeft(s));
    TrimRight(TrimLeft(s))
  }

  predicate IsTab(c: char) { c == ' ' || c == '\t' }

  /** The UTF-16 code units a Java string holds for `c`: two above U+FFFF. */
  function CharUnits(c: char): nat {
    if c as int < 0x1_0000 then 1 else 2
  }

  /** `String.length()`: UTF-16 code units. */
  function Utf16Length(s: string): (n: nat)
    ensures |s| <= n <= 2 * |s|
  {
    if |s| == 0 then 0 else CharUnits(s[0]) + Utf16Length(s[1..])
  }

  lemma {:induction false} Utf16LengthAppend(a: string, b: string)
    ensures Utf16Length(a + b) == Utf16Length(a) + Utf16Length(b)
  {
    if |a| == 0 {
      assert a + b == b;
    } else {
      assert (a + b)[0] == a[0];
      assert (a + b)[1..] == a[1..] + b;
      Utf16LengthAppend(a[1..], b);
    }
  }

  /** The units of `s[..j]` are those of `s[..i]` and of `s[i..j]`. */
  lemma Utf16LengthSplit(s: string, i: nat, j: nat)
    requires i <= j <= |s|
    ensures Utf16Length(s[..j]) == Utf16Length(s[..i]) + Utf16Length(s[i..j])
    ensures Utf16Length(s) == Utf16Length(s[..i]) + Utf16Length(s[i..])
  {
    assert s[..j] == s[..i] + s[i..j];
    Utf16LengthAppend(s[..i], s[i..j]);
    assert s == s[..i] + s[i..];
    Utf16LengthAppend(s[..i], s[i..]);
  }

  /** `s.indexOf(c)` as Java reports it, in UTF-16 units: -1 when `c` does
      not occur, otherwise the units before its first occurrence. */
  function Utf16IndexOfChar(s: string, c: char): (r: int)
    ensures r == -1 <==> c !in s
    ensures r >= 0 ==> IndexOfChar(s, c) <= r <= 2 * IndexOfChar(s, c)
  {
    var k := IndexOfChar(s, c);
    if k < 0 then -1 else Utf16Length(s[..k])
  }

  /** The tokens of `java.util.StringTokenizer(s, delims)`: the maximal runs
      of characters that are not delimiters, in order. */
  function Tokens(s: string, delims: set<char>): (r: seq<string>)
    ensures forall k :: 0 <= k < |r| ==> |r[k]| > 0
    ensures forall k, j :: 0 <= k < |r| && 0 <= j < |r[k]| ==> r[k][j] !in delims
    ensures |r| <= |s|
    decreases |s|
  {
    if |s| == 0 then []
    else if s[0] in delims then Tokens(s[1..], delims)
    else
      var n := RunLength(s, delims);
      [s[..n]] + Tokens(s[n..], delims)
  }

  /** Length of the delimiter-free prefix of `s`. */
  function RunLength(s: string, delims: set<char>): (n: nat)
    ensures n <= |s|
    ensures forall j :: 0 <= j < n ==> s[j] !in delims
    ensures n == |s| || s[n] in delims
  {
    if |s| == 0 || s[0] in delims then 0 else 1 + RunLength(s[1..], delims)
  }

  /** The run length is the position of the first delimiter, or the length. */
  lemma RunLengthIsFirstDelimiter(s: string, delims: set<char>, n: nat)
    requires n <= |s| && forall j :: 0 <= j < n ==> s[j] !in delims
    requires n == |s| || s[n] in delims
    ensures RunLength(s, delims) == n
  {
  }

  /** A delimiter separates tokens: those of the text on either side of it
      follow one another, so the tokens are the maximal delimiter-free runs. */
  lemma {:induction false} TokensAtDelimiter(a: string, c: char, b: string, delims: set<char>)
    requires c in delims
    ensures Tokens(a + [c] + b, delims) == Tokens(a, delims) + Tokens(b, delims)
    decreases |a|
  {
    var s := a + [c] + b;
    if |a| == 0 {
      assert s[0] == c && s[1..] == b;
    } else if a[0] in delims {
      assert s[0] == a[0] && s[1..] == a[1..] + [c] + b;
      TokensAtDelimiter(a[1..], c, b, delims);
    } else {
      var n := RunLength(a, delims);
      assert s[0] == a[0];
      RunLengthIsFirstDelimiter(s, delims, n);
      assert s[..n] == a[..n];
      assert s[n..] == a[n..] + [c] + b;
      TokensAtDelimiter(a[n..], c, b, delims);
    }
  }

  /** Tokens never contain delimiters, so a delimiter-free string is one token. */
  lemma {:induction false} TokensOfPlainWord(s: string, delims: set<char>)
    requires |s| > 0 && forall j :: 0 <= j < |s| ==> s[j] !in delims
    ensures Tokens(s, delims) == [s]
  {
    var n := RunLength(s, delims);
    assert s[0] !in delims;
    assert n == |s|;
    assert s[..n] == s && s[n..] == [];
    assert Tokens(s[n..], delims) == [];
  }

  /** Decimal text of a natural number, most significant digit first. */
  function NatToString(n: nat): (r: string)
    ensures |r| > 0
    ensures forall i :: 0 <= i < |r| ==> '0' <= r[i] <= '9'
    decreases n
  {
    if n < 10 then [Digit(n)] else NatToString(n / 10) + [Digit(n % 10)]
  }

  function Digit(d: nat): (c: char)
    requires d < 10
    ensures '0' <= c <= '9' && c as int - '0' as int == d
  {
    ('0' as int + d) as char
  }

  /** `Long.toString` / string concatenation of an int: an optional minus sign, then digits. */
  function IntToString(n: int): (r: string)
    ensures |r| > 0
    ensures n < 0 <==> r[0] == '-'
  {
    if n < 0 then "-" + NatToString(-n) else NatToString(n)
  }
}
