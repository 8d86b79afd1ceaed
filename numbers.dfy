/** Java integer semantics the compiler depends on: `Long.decode` and
    `Integer.decode` as partial functions, two's-complement truncation,
    the 64-bit bitwise or, and the big/little-endian byte encodings of
    `DataOutputStream` and of the compiler's own little-endian writers. */
module Numbers {
  import opened Base
  import opened Text

  const BYTE_MIN: int := -0x80
  const BYTE_MAX: int := 0x7f
  const SHORT_MIN: int := -0x8000
  const SHORT_MAX: int := 0x7fff
  const INT_MIN: int := -0x8000_0000
  const INT_MAX: int := 0x7fff_ffff
  const LONG_MIN: int := -0x8000_0000_0000_0000
  const LONG_MAX: int := 0x7fff_ffff_ffff_ffff

  predicate InLong(v: int) { LONG_MIN <= v <= LONG_MAX }

  // ---------------------------------------------------------------------------
  // Long.decode / Integer.decode

  /** Value of an ASCII digit or letter as `Character.digit` gives it, if below `radix`. */
  function DigitValue(c: char, radix: nat): (r: Option<nat>)
    ensures r.Some? ==> r.value < radix
  {
    var d :=
      if '0' <= c <= '9' then c as int - '0' as int
      else if 'a' <= c <= 'z' then c as int - 'a' as int + 10
      else if 'A' <= c <= 'Z' then c as int - 'A' as int + 10
      else 36;
    if d < radix then Some(d) else None
  }

  /** The unsigned value of a non-empty digit string in `radix`, or None. */
  function ParseDigits(s: string, radix: nat): (r: Option<nat>)
    decreases |s|
  {
    if |s| == 0 then None
    else
      var last := DigitValue(s[|s| - 1], radix);
      if last.None? then None
      else if |s| == 1 then Some(last.value)
      else
        var init := ParseDigits(s[..|s| - 1], radix);
        if init.None? then None else Some(init.value * radix + last.value)
  }

  /** Where the digits start and in which radix: the prefix rules of `Long.decode`
      (optional sign, then `0x`, `0X` or `#` for hexadecimal, a leading `0`
      followed by more characters for octal, decimal otherwise). */
  function DecodePrefix(s: string): (r: (nat, nat))
    requires |s| > 0
    ensures r.0 <= |s| && r.1 in {8, 10, 16}
  {
    var i := if s[0] == '-' || s[0] == '+' then 1 else 0;
    var rest := s[i..];
    if StartsWith(rest, "0x") || StartsWith(rest, "0X") then (i + 2, 16)
    else if StartsWith(rest, "#") then (i + 1, 16)
    else if StartsWith(rest, "0") && |s| > 1 + i then (i + 1, 8)
    else (i, 10)
  }

  /** `Long.decode` (bits == 64) and `Integer.decode` (bits == 32): None where Java
      throws NumberFormatException. */
  function Decode(s: string, bits: nat): (r: Option<int>)
    requires bits == 32 || bits == 64
    ensures r.Some? ==> -Pow2(bits - 1) <= r.value < Pow2(bits - 1)
    ensures r.Some? ==> |s| > 0
  {
    if |s| == 0 then None
    else
      var neg := s[0] == '-';
      var (start, radix) := DecodePrefix(s);
      var digits := s[start..];
      if StartsWith(digits, "-") || StartsWith(digits, "+") then None
      else
        var m := ParseDigits(digits, radix);
        if m.None? then None
        else if neg && m.value <= Pow2(bits - 1) then Some(0 - m.value)
        else if !neg && m.value < Pow2(bits - 1) then Some(m.value)
        else None
  }

  function DecodeLong(s: string): (r: Option<int>)
    ensures r.Some? ==> InLong(r.value)
  {
    Pow2Facts();
    Decode(s, 64)
  }

  function DecodeInt(s: string): (r: Option<int>)
    ensures r.Some? ==> INT_MIN <= r.value <= INT_MAX
  {
    Pow2Facts();
    Decode(s, 32)
  }

  function Pow2(n: nat): (r: int)
    ensures r >= 1
  {
    if n == 0 then 1 else 2 * Pow2(n - 1)
  }

  lemma Pow2Facts()
    ensures Pow2(7) == 0x80 && Pow2(8) == 0x100
    ensures Pow2(15) == 0x8000 && Pow2(16) == 0x1_0000
    ensures Pow2(31) == 0x8000_0000 && Pow2(32) == 0x1_0000_0000
    ensures Pow2(63) == 0x8000_0000_0000_0000 && Pow2(64) == 0x1_0000_0000_0000_0000
  {
    assert Pow2(7) == 0x80 && Pow2(8) == 0x100;
    Pow2Add(8, 7);
    Pow2Add(8, 8);
    Pow2Add(16, 15);
    Pow2Add(16, 16);
    Pow2Add(32, 31);
    Pow2Add(32, 32);
  }

  lemma {:induction false} Pow2Add(a: nat, b: nat)
    ensures Pow2(a + b) == Pow2(a) * Pow2(b)
  {
    if a > 0 { Pow2Add(a - 1, b); }
  }

  /** Decimal digit strings are read back by ParseDigits as the number they print. */
  lemma {:induction false} ParseNatToString(n: nat)
    ensures ParseDigits(NatToString(n), 10) == Some(n)
  {
    var s := NatToString(n);
    if n >= 10 {
      ParseNatToString(n / 10);
      assert s[..|s| - 1] == NatToString(n / 10);
      assert s[|s| - 1] == Digit(n % 10);
    }
  }

  lemma {:induction false} NatToStringLeading(n: nat)
    ensures NatToString(n)[0] == '0' <==> n == 0
    ensures n < 10 <==> |NatToString(n)| == 1
  {
    if n >= 10 {
      NatToStringLeading(n / 10);
      assert NatToString(n)[0] == NatToString(n / 10)[0];
    }
  }

  /** Decimal text, with or without a minus sign, takes the decimal branch of
      the prefix rules. */
  lemma PrefixOfDecimal(m: nat)
    ensures DecodePrefix(NatToString(m)) == (0, 10)
    ensures DecodePrefix("-" + NatToString(m)) == (1, 10)
    ensures ("-" + NatToString(m))[1..] == NatToString(m)
  {
    NatToStringLeading(m);
    var d := NatToString(m);
    assert ("-" + d)[1..] == d;
    assert d[0..] == d;
  }

  /** Decoding unsigned decimal digits, alone or after a minus sign. */
  lemma DecodeDigits(d: string, m: nat, bits: nat)
    requires bits == 32 || bits == 64
    requires |d| > 0 && '0' <= d[0] <= '9'
    requires DecodePrefix(d) == (0, 10) && DecodePrefix("-" + d) == (1, 10)
    requires ("-" + d)[1..] == d
    requires ParseDigits(d, 10) == Some(m)
    ensures m < Pow2(bits - 1) ==> Decode(d, bits) == Some(m)
    ensures m <= Pow2(bits - 1) ==> Decode("-" + d, bits) == Some(0 - m)
  {
    assert d[0..] == d;
  }

  /** Decoding the text `IntToString` prints gives back the number, for every
      number in the range of the width. */
  lemma DecodeIntToString(v: int, bits: nat)
    requires bits == 32 || bits == 64
    requires -Pow2(bits - 1) <= v < Pow2(bits - 1)
    ensures Decode(IntToString(v), bits) == Some(v)
  {
    var m := if v < 0 then -v else v;
    var d := NatToString(m);
    PrefixOfDecimal(m);
    ParseNatToString(m);
    DecodeDigits(d, m, bits);
    assert IntToString(v) == if v < 0 then "-" + d else d;
  }

  /** The text `Long.toString` produces is decoded by `Long.decode` to the same value:
      the bitwise-or fold of the resolver stores its result this way. */
  lemma LongToStringRoundTrip(v: int)
    requires InLong(v)
    ensures DecodeLong(IntToString(v)) == Some(v)
  {
    Pow2Facts();
    DecodeIntToString(v, 64);
  }

  /** `Integer.decode(String.valueOf(n)) == n` for every Java int. */
  lemma IntToStringRoundTrip(v: int)
    requires INT_MIN <= v <= INT_MAX
    ensures DecodeInt(IntToString(v)) == Some(v)
  {
    Pow2Facts();
    DecodeIntToString(v, 32);
  }

  // ---------------------------------------------------------------------------
  // Two's complement

  /** The signed value of the low `bits` bits of `v` (a Java narrowing cast). */
  function Narrow(v: int, bits: nat): (r: int)
    requires bits > 0
    ensures -Pow2(bits - 1) <= r < Pow2(bits - 1)
    ensures (r - v) % Pow2(bits) == 0
  {
    assert Pow2(bits) == 2 * Pow2(bits - 1);
    var u := v % Pow2(bits);
    ModSub(v, Pow2(bits));
    if u >= Pow2(bits - 1) then
      assert (u - Pow2(bits) - v) == (u - v) - Pow2(bits);
      ModShift(u - v, Pow2(bits));
      u - Pow2(bits)
    else u
  }

  lemma ModSub(v: int, m: nat)
    requires m > 0
    ensures (v % m - v) % m == 0
  {
    var q := v / m;
    assert v % m - v == -q * m;
    ModMultiple(-q, m);
  }

  lemma ModMultiple(q: int, m: nat)
    requires m > 0
    ensures (q * m) % m == 0
  {
    ModUnique(q * m, m, q, 0);
  }

  lemma ModShift(x: int, m: nat)
    requires m > 0 && x % m == 0
    ensures (x - m) % m == 0
  {
    var q := x / m;
    assert x == q * m;
    assert x - m == (q - 1) * m;
    ModMultiple(q - 1, m);
  }

  /** Euclidean division is unique. */
  lemma ModUnique(x: int, d: nat, q: int, r: int)
    requires d > 0 && x == d * q + r && 0 <= r < d
    ensures x % d == r && x / d == q
  {
    var q' := x / d;
    var r' := x % d;
    var k := q - q';
    assert d * q == d * q' + d * k;
    assert d * k == r' - r;
  }

  /** A value already inside the signed range is unchanged by narrowing. */
  lemma {:induction false} NarrowInRange(v: int, bits: nat)
    requires bits > 0 && -Pow2(bits - 1) <= v < Pow2(bits - 1)
    ensures Narrow(v, bits) == v
  {
    assert Pow2(bits) == 2 * Pow2(bits - 1);
    if v >= 0 {
      ModUnique(v, Pow2(bits), 0, v);
    } else {
      ModUnique(v, Pow2(bits), -1, v + Pow2(bits));
    }
  }

  // ---------------------------------------------------------------------------
  // 64-bit bitwise or (`long |= long`)

  function ToBits(v: int): bv64
    requires InLong(v)
  {
    Pow2Facts();
    (if v < 0 then v + 0x1_0000_0000_0000_0000 else v) as bv64
  }

  function FromBits(b: bv64): (r: int)
    ensures InLong(r)
  {
    var u := b as int;
    if u > LONG_MAX then u - 0x1_0000_0000_0000_0000 else u
  }

  function LongOr(a: int, b: int): (r: int)
    requires InLong(a) && InLong(b)
    ensures InLong(r)
  {
    FromBits(ToBits(a) | ToBits(b))
  }

  // ---------------------------------------------------------------------------
  // Byte encodings

  function Pow256(n: nat): (r: nat)
    ensures r >= 1
  {
    if n == 0 then 1 else 256 * Pow256(n - 1)
  }

  /** The low `n` bytes of `v`, most significant first (DataOutputStream). */
  function EncodeBE(v: int, n: nat): (r: seq<int>)
    ensures |r| == n && ValidBytes(r)
    decreases n
  {
    if n == 0 then [] else EncodeBE(v / 256, n - 1) + [v % 256]
  }

  /** The low `n` bytes of `v`, least significant first (the `-le` writers). */
  function EncodeLE(v: int, n: nat): (r: seq<int>)
    ensures |r| == n && ValidBytes(r)
    decreases n
  {
    if n == 0 then [] else [v % 256] + EncodeLE(v / 256, n - 1)
  }

  /** Read bytes back, most significant first. */
  function DecodeBE(b: seq<int>): int
  {
    if b == [] then 0 else DecodeBE(b[..|b| - 1]) * 256 + b[|b| - 1]
  }

  /** Read bytes back, least significant first. */
  function DecodeLE(b: seq<int>): int
  {
    if b == [] then 0 else b[0] + 256 * DecodeLE(b[1..])
  }

  function Reverse(s: seq<int>): (r: seq<int>)
    ensures |r| == |s|
  {
    if s == [] then [] else Reverse(s[1..]) + [s[0]]
  }

  lemma {:induction false} ModStep(v: int, n: nat)
    requires n > 0
    ensures (v / 256) % Pow256(n - 1) * 256 + v % 256 == v % Pow256(n)
  {
    var q := v / 256;
    var r := v % 256;
    var m := Pow256(n - 1);
    var a := q / m;
    var b := q % m;
    assert q == m * a + b;
    assert v == 256 * q + r;
    assert v == (256 * m) * a + (256 * b + r);
    assert 0 <= 256 * b + r < 256 * m;
    ModUnique(v, 256 * m, a, 256 * b + r);
  }

  /** Big-endian encoding read back big-endian gives the value modulo 256^n. */
  lemma {:induction false} DecodeEncodeBE(v: int, n: nat)
    ensures DecodeBE(EncodeBE(v, n)) == v % Pow256(n)
    decreases n
  {
    if n == 0 {
      ModUnique(v, 1, v, 0);
    } else {
      var e := EncodeBE(v, n);
      assert e[..|e| - 1] == EncodeBE(v / 256, n - 1);
      DecodeEncodeBE(v / 256, n - 1);
      ModStep(v, n);
    }
  }

  /** Little-endian encoding read back little-endian gives the value modulo 256^n. */
  lemma {:induction false} DecodeEncodeLE(v: int, n: nat)
    ensures DecodeLE(EncodeLE(v, n)) == v % Pow256(n)
    decreases n
  {
    if n == 0 {
      ModUnique(v, 1, v, 0);
    } else {
      var e := EncodeLE(v, n);
      assert e[1..] == EncodeLE(v / 256, n - 1);
      DecodeEncodeLE(v / 256, n - 1);
      ModStep(v, n);
    }
  }

  /** The little-endian bytes are the big-endian bytes in reverse order. */
  lemma {:induction false} LittleIsReversedBig(v: int, n: nat)
    ensures EncodeLE(v, n) == Reverse(EncodeBE(v, n))
    decreases n
  {
    if n > 0 {
      LittleIsReversedBig(v / 256, n - 1);
      ReverseAppend(EncodeBE(v / 256, n - 1), [v % 256]);
    }
  }

  lemma {:induction false} ReverseAppend(a: seq<int>, b: seq<int>)
    ensures Reverse(a + b) == Reverse(b) + Reverse(a)
  {
    if a == [] {
      assert a + b == b;
    } else {
      assert (a + b)[1..] == a[1..] + b;
      ReverseAppend(a[1..], b);
    }
  }
}
