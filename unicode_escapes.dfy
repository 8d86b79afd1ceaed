/** Expansion of `\uXXXX` escapes in string values (UnicodeEscapes.java):
    a backslash, one or more `u`, and four hexadecimal digits of either
    case become the single character with that code; the leftmost escape
    is replaced first and the scan starts over from the beginning. */
module UnicodeEscapes {
  import opened Base

  predicate IsHex(c: char) {
    '0' <= c <= '9' || 'a' <= c <= 'f' || 'A' <= c <= 'F'
  }

  function HexValue(c: char): (v: nat)
    requires IsHex(c)
    ensures v < 16
  {
    if '0' <= c <= '9' then c as int - '0' as int
    else if 'a' <= c <= 'f' then c as int - 'a' as int + 10
    else c as int - 'A' as int + 10
  }

  /** Number of consecutive `u` starting at `i`. */
  function UCount(s: string, i: nat): (k: nat)
    requires i <= |s|
    ensures i + k <= |s|
    ensures forall j :: i <= j < i + k ==> s[j] == 'u'
    ensures i + k == |s| || s[i + k] != 'u'
    decreases |s| - i
  {
    if i < |s| && s[i] == 'u' then 1 + UCount(s, i + 1) else 0
  }

  /** The end of the escape that starts at `p`, if one does. */
  function MatchAt(s: string, p: nat): (r: Option<nat>)
    ensures r.Some? ==> p + 6 <= r.value <= |s| && s[p] == '\\'
    ensures r.Some? ==> IsHex(s[r.value - 4]) && IsHex(s[r.value - 3]) && IsHex(s[r.value - 2]) && IsHex(s[r.value - 1])
  {
    if p < |s| && s[p] == '\\' then
      var k := UCount(s, p + 1);
      var e := p + 1 + k + 4;
      if k >= 1 && e <= |s| && IsHex(s[e - 4]) && IsHex(s[e - 3]) && IsHex(s[e - 2]) && IsHex(s[e - 1])
      then Some(e) else None
    else None
  }

  /** The four hex digits before `e` as a number. */
  function HexCode(s: string, e: nat): (v: nat)
    requires 4 <= e <= |s|
    requires IsHex(s[e - 4]) && IsHex(s[e - 3]) && IsHex(s[e - 2]) && IsHex(s[e - 1])
    ensures v < 0x1_0000
  {
    ((HexValue(s[e - 4]) * 16 + HexValue(s[e - 3])) * 16 + HexValue(s[e - 2])) * 16 + HexValue(s[e - 1])
  }

  /** The character `(char) code`. A UTF-16 surrogate code has no Dafny char and
      becomes U+FFFD. */
  function CodeChar(code: nat): (c: char)
    requires code < 0x1_0000
    ensures !(0xD800 <= code < 0xE000) ==> c as int == code
  {
    if 0xD800 <= code < 0xE000 then 0xFFFD as char else code as char
  }

  /** The leftmost escape at or after `from`: its start and end. */
  function FindEscape(s: string, from: nat): (r: Option<(nat, nat)>)
    ensures r.Some? ==> from <= r.value.0 && MatchAt(s, r.value.0) == Some(r.value.1)
    ensures r.Some? ==> forall q :: from <= q < r.value.0 ==> MatchAt(s, q).None?
    ensures r.None? ==> forall q :: from <= q ==> MatchAt(s, q).None?
    decreases |s| - from
  {
    if from >= |s| then None
    else
      match MatchAt(s, from)
      case Some(e) => Some((from, e))
      case None => FindEscape(s, from + 1)
  }

  ghost predicate NoEscape(s: string) {
    forall q :: MatchAt(s, q).None?
  }

  /** One replacement: the leftmost escape becomes its character. */
  function Step(s: string): (r: Option<string>)
    ensures r.None? <==> NoEscape(s)
    ensures r.Some? ==> |r.value| <= |s| - 5
  {
    match FindEscape(s, 0)
    case None => None
    case Some((p, e)) => Some(s[..p] + [CodeChar(HexCode(s, e))] + s[e..])
  }

  /** The result of `unescape`: replacements until no escape is left. */
  function Unescaped(s: string): (r: string)
    ensures NoEscape(r)
    decreases |s|
  {
    match Step(s)
    case None => s
    case Some(t) => Unescaped(t)
  }

  /** The rewrite loop of `unescape`, over an in-place buffer. */
  method Unescape(stringWithEscapes: string) returns (result: string)
    ensures result == Unescaped(stringWithEscapes)
    ensures NoEscape(result)
  {
    result := stringWithEscapes;
    while true
      invariant Unescaped(result) == Unescaped(stringWithEscapes)
      decreases |result|
    {
      var found := FindEscape(result, 0);
      if found.None? {
        assert Step(result).None?;
        break;
      }
      var start, end := found.value.0, found.value.1;
      var c := CodeChar(HexCode(result, end));
      var next := result[..start] + [c] + result[end..];
      assert Step(result) == Some(next);
      result := next;
    }
  }

  /** Text without a backslash is returned as it is. */
  lemma NoBackslashUnchanged(s: string)
    requires '\\' !in s
    ensures Unescaped(s) == s
  {
    assert NoEscape(s) by {
      forall q: nat ensures MatchAt(s, q).None? {
        if q < |s| { assert s[q] != '\\'; }
      }
    }
  }

  /** A repeated `u` is accepted and hex digits may be of either case;
      a non-`u` after the backslash is not an escape. */
  lemma {:induction false} EscapeForms()
    ensures MatchAt("\\uu0e17", 0) == Some(7)
    ensures HexCode("\\uu0e17", 7) == 0x0E17
    ensures HexCode("\\u0E17", 6) == HexCode("\\u0e17", 6)
    ensures MatchAt("\\ut0e35", 0) == None
  {
    var s := "\\uu0e17";
    assert UCount(s, 3) == 0;
    assert UCount(s, 2) == 1;
    assert UCount(s, 1) == 2;
    var t := "\\ut0e35";
    assert UCount(t, 2) == 0;
    assert UCount(t, 1) == 1;
    assert !IsHex(t[2]);
  }

  /** The scan starts over from the beginning, so a decoded backslash
      (`\`) can begin a new escape that is decoded in turn. */
  lemma {:induction false} DecodedBackslashRestarts(s: string)
    requires s == "\\u005Cu0041"
    ensures Unescaped(s) == "A"
  {
    FirstStep(s);
    SecondStep("\\u0041");
  }

  lemma FirstStep(s: string)
    requires s == "\\u005Cu0041"
    ensures Step(s) == Some("\\u0041")
    ensures Unescaped(s) == Unescaped("\\u0041")
  {
    assert UCount(s, 2) == 0;
    assert UCount(s, 1) == 1;
    assert MatchAt(s, 0) == Some(6);
    assert HexCode(s, 6) == 0x5C;
    assert s[..0] + [CodeChar(0x5C)] + s[6..] == "\\u0041";
  }

  lemma SecondStep(t: string)
    requires t == "\\u0041"
    ensures Step(t) == Some("A")
    ensures Unescaped(t) == "A"
  {
    assert UCount(t, 2) == 0;
    assert UCount(t, 1) == 1;
    assert MatchAt(t, 0) == Some(6);
    assert HexCode(t, 6) == 0x41;
    assert t[..0] + [CodeChar(0x41)] + t[6..] == "A";
    NoBackslashUnchanged("A");
  }
}
