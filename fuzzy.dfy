/** The "did you mean" matcher of DataElement.java: a name is compared with
    every candidate key by length and by how often each printable ASCII
    char occurs, and the best-scoring key is suggested. */
module Fuzzy {
  import opened Base
  import Encoding
  import opened Numbers
  import Text

  /** The Java `byte` a counter holds after wrapping. */
  function ByteWrap(n: int): (r: int)
    ensures -128 <= r <= 127
    ensures 0 <= n <= 127 ==> r == n
  {
    (n + 128) % 256 - 128
  }

  lemma ByteWrapStep(n: int)
    ensures ByteWrap(ByteWrap(n) + 1) == ByteWrap(n + 1)
  {
    var q := (n + 128) / 256;
    assert n + 128 == 256 * q + (n + 128) % 256;
    ModShift(n + 1 + 128, q);
  }

  lemma ModShift(x: int, q: int)
    ensures (x - 256 * q) % 256 == x % 256
  {
  }

  /** Occurrences of the byte `c` in `b`. */
  function Occurrences(b: seq<int>, c: int): (n: nat)
    ensures n <= |b|
  {
    if |b| == 0 then 0 else Occurrences(b[..|b| - 1], c) + (if b[|b| - 1] == c then 1 else 0)
  }

  /** A byte as Java's signed `byte`. */
  function Signed(x: int): int {
    if x >= 128 then x - 256 else x
  }

  /** One step of `getDensityMap`: a byte above 32 (as a signed byte)
      increments its counter, which wraps as a Java `byte`. */
  function Bump(m: seq<int>, x: int): (m': seq<int>)
    requires |m| == 128
    ensures |m'| == 128
  {
    var index := Signed(x);
    if 32 < index < 128 then m[index := ByteWrap(m[index] + 1)] else m
  }

  /** The counters after the bytes `b`. */
  function DensityOf(b: seq<int>): (m: seq<int>)
    ensures |m| == 128
  {
    if |b| == 0 then seq(128, _ => 0) else Bump(DensityOf(b[..|b| - 1]), b[|b| - 1])
  }

  /** `getDensityMap`, on the text's bytes; the platform encoding is taken
      to be UTF-8. */
  function Density(s: string): (m: seq<int>)
    ensures |m| == 128
  {
    DensityOf(Encoding.Utf8(s))
  }

  /** The density map counts: per code 33..127 the wrapped number of that
      byte; codes up to 32 and bytes above 127 (negative as a Java byte)
      are not counted. */
  lemma {:induction false} DensityCounts(b: seq<int>, c: int)
    requires ValidBytes(b) && 0 <= c < 128
    ensures DensityOf(b)[c] == if c > 32 then ByteWrap(Occurrences(b, c)) else 0
  {
    if |b| > 0 {
      var k := |b| - 1;
      DensityCounts(b[..k], c);
      if c > 32 {
        ByteWrapStep(Occurrences(b[..k], c));
      }
    }
  }

  /** The loop of `getDensityMap`, on a 128-byte array. */
  method DensityMap(s: string) returns (m: seq<int>)
    ensures m == Density(s)
  {
    var result := new int[128](_ => 0);
    var b := Encoding.Utf8(s);
    assert result[..] == DensityOf(b[..0]);
    for i := 0 to |b|
      invariant result[..] == DensityOf(b[..i])
    {
      assert DensityOf(b[..i + 1]) == Bump(DensityOf(b[..i]), b[i]) by {
        assert b[..i + 1][..i] == b[..i] && b[..i + 1][i] == b[i];
      }
      Count(result, b[i]);
    }
    assert b[..|b|] == b;
    m := result[..];
  }

  /** One iteration of that loop: the counter of one byte. */
  method Count(result: array<int>, x: int)
    requires result.Length == 128 && 0 <= x < 256
    modifies result
    ensures result[..] == Bump(old(result[..]), x)
  {
    var index := if x >= 128 then x - 256 else x;
    assert index == Signed(x);
    if index > 32 {
      var count := ByteWrap(result[index] + 1);
      result[index] := count;
    }
  }

  /** Σ |m1[c] − m2[c]| over all positions. */
  function DiffSum(m1: seq<int>, m2: seq<int>): (r: nat)
    requires |m1| == |m2|
  {
    if |m1| == 0 then 0
    else
      var k := |m1| - 1;
      DiffSum(m1[..k], m2[..k]) + (if m1[k] >= m2[k] then m1[k] - m2[k] else m2[k] - m1[k])
  }

  /** `getMatchingScore`: 100, less the length difference as a percentage
      of the name's length (rounded down), less the density differences. */
  function Score(name: string, key: string): (r: int)
    requires Text.Utf16Length(name) > 0
  {
    ScoreOf(Text.Utf16Length(name), Text.Utf16Length(key), Density(name), Density(key))
  }

  /** The score from the two lengths and the two density maps. */
  function ScoreOf(n1: nat, n2: nat, m1: seq<int>, m2: seq<int>): (r: int)
    requires n1 > 0 && |m1| == |m2| == 128
  {
    var delta := if n1 >= n2 then n1 - n2 else n2 - n1;
    100 - Percent(delta, n1) - DiffSum(m1[33..], m2[33..])
  }

  /** `delta * 100 / length` in Java int arithmetic: on non-negative
      operands truncation is rounding down. */
  function Percent(delta: nat, length: nat): (p: nat)
    requires length > 0
    ensures delta == 0 ==> p == 0
  {
    Quotient(delta * 100, length)
  }

  /** Division by repeated subtraction. */
  function Quotient(a: nat, b: nat): (q: nat)
    requires b > 0
    ensures a < b ==> q == 0
    decreases a
  {
    if a < b then 0 else 1 + Quotient(a - b, b)
  }

  /** ... which is integer division. */
  lemma {:induction false} QuotientIsDivision(a: nat, b: nat)
    requires b > 0
    ensures Quotient(a, b) == a / b
    decreases a
  {
    if a >= b {
      QuotientIsDivision(a - b, b);
      ModUnique(a, b, (a - b) / b + 1, (a - b) % b);
    } else {
      ModUnique(a, b, 0, a);
    }
  }

  lemma ScoreOfParts(n1: nat, n2: nat, m1: seq<int>, m2: seq<int>, delta: nat)
    requires n1 > 0 && |m1| == |m2| == 128
    requires delta == if n1 >= n2 then n1 - n2 else n2 - n1
    ensures ScoreOf(n1, n2, m1, m2) == 100 - Percent(delta, n1) - DiffSum(m1[33..128], m2[33..128])
  {
    assert m1[33..] == m1[33..128] && m2[33..] == m2[33..128];
  }

  /** A map differs from itself nowhere. */
  lemma {:induction false} DiffSumSelf(m: seq<int>)
    ensures DiffSum(m, m) == 0
  {
    if |m| > 0 {
      DiffSumSelf(m[..|m| - 1]);
    }
  }

  lemma ScoreOfBounds(n1: nat, n2: nat, m1: seq<int>, m2: seq<int>)
    requires n1 > 0 && |m1| == |m2| == 128
    ensures ScoreOf(n1, n2, m1, m2) <= 100
    ensures n1 == n2 && m1 == m2 ==> ScoreOf(n1, n2, m1, m2) == 100
  {
    if m1 == m2 {
      DiffSumSelf(m1[33..]);
    }
  }

  /** No key scores above 100, and a name scores 100 against itself. */
  lemma ScoreBounds(name: string, key: string)
    requires Text.Utf16Length(name) > 0
    ensures Score(name, key) <= 100
    ensures Score(name, name) == 100
  {
    ScoreOfBounds(Text.Utf16Length(name), Text.Utf16Length(key), Density(name), Density(key));
    ScoreOfBounds(Text.Utf16Length(name), Text.Utf16Length(name), Density(name), Density(name));
  }

  /** The loop of `getMatchingScore`, given the name's density map. */
  method MatchingScore(name: string, key: string, nameMap: seq<int>) returns (score: int)
    requires Text.Utf16Length(name) > 0 && nameMap == Density(name)
    ensures score == Score(name, key)
  {
    var n1, n2 := Text.Utf16Length(name), Text.Utf16Length(key);
    var delta := n1 as int - n2 as int;
    if delta < 0 {
      delta := -delta;
    }
    assert delta == if n1 >= n2 then n1 - n2 else n2 - n1;
    score := 100 - Percent(delta, n1);
    var keyMap := DensityMap(key);
    ghost var base := score;
    for i := 33 to 128
      invariant score == base - DiffSum(nameMap[33..i], keyMap[33..i])
    {
      assert nameMap[33..i + 1][..i - 33] == nameMap[33..i];
      assert keyMap[33..i + 1][..i - 33] == keyMap[33..i];
      var d := nameMap[i] - keyMap[i];
      if d < 0 {
        d := -d;
      }
      score := score - d;
    }
    ScoreOfParts(n1, n2, nameMap, keyMap, delta);
  }

  /** `findBestMatch` over the keys in iteration order: nothing for a name
      shorter than 1 or longer than 60; otherwise the first key whose score
      is above 0 and above every earlier key's. */
  method FindBestMatch(keys: seq<string>, name: string) returns (r: Option<string>)
    ensures !(1 <= Text.Utf16Length(name) <= 60) ==> r.None?
    ensures 1 <= Text.Utf16Length(name) <= 60 && r.None? ==> forall j :: 0 <= j < |keys| ==> Score(name, keys[j]) <= 0
    ensures r.Some? ==> 1 <= Text.Utf16Length(name) <= 60
    ensures r.Some? ==> Score(name, r.value) > 0
                        && forall j :: 0 <= j < |keys| ==> Score(name, keys[j]) <= Score(name, r.value)
    ensures r.Some? ==> exists i :: 0 <= i < |keys| && keys[i] == r.value
                                    && forall j :: 0 <= j < i ==> Score(name, keys[j]) < Score(name, r.value)
  {
    if Text.Utf16Length(name) < 1 || Text.Utf16Length(name) > 60 {
      return None;
    }
    var maxScore := 0;
    r := None;
    ghost var best := 0;
    var nameMap := DensityMap(name);
    for i := 0 to |keys|
      invariant r.None? ==> maxScore == 0
      invariant r.Some? ==> 0 <= best < i && keys[best] == r.value && maxScore == Score(name, r.value) > 0
      invariant r.Some? ==> forall j :: 0 <= j < best ==> Score(name, keys[j]) < maxScore
      invariant forall j :: 0 <= j < i ==> Score(name, keys[j]) <= maxScore
    {
      var score := MatchingScore(name, keys[i], nameMap);
      ghost var previous := maxScore;
      if score > maxScore {
        maxScore := score;
        r := Some(keys[i]);
        best := i;
      }
      Dominates(keys, name, i, previous, maxScore);
    }
  }

  /** A maximum that only grew still bounds the scores it bounded. */
  lemma Dominates(keys: seq<string>, name: string, i: nat, previous: int, maxScore: int)
    requires 1 <= Text.Utf16Length(name) && i < |keys|
    requires forall j :: 0 <= j < i ==> Score(name, keys[j]) <= previous
    requires previous <= maxScore && Score(name, keys[i]) <= maxScore
    ensures forall j :: 0 <= j < i + 1 ==> Score(name, keys[j]) <= maxScore
  {
  }

  /** A name among the keys is matched by a key that scores 100: itself or
      a key of the same length made of the same chars. */
  lemma NameAmongKeys(keys: seq<string>, name: string, r: Option<string>)
    requires 1 <= Text.Utf16Length(name) <= 60 && name in keys
    requires r.Some? ==> Score(name, r.value) > 0
                         && forall j :: 0 <= j < |keys| ==> Score(name, keys[j]) <= Score(name, r.value)
    requires r.None? ==> forall j :: 0 <= j < |keys| ==> Score(name, keys[j]) <= 0
    ensures r.Some? && Score(name, r.value) == 100
  {
    var i :| 0 <= i < |keys| && keys[i] == name;
    ScoreBounds(name, name);
    if r.Some? {
      ScoreBounds(name, r.value);
    }
  }
}
