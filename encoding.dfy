/** The byte writers of DataElement.java: integers in the configured byte
    order, strings as UTF-8 (`getBytes("UTF8")`), as `writeUTF` writes them,
    and as fixed-length fields padded with zeros. */
module Encoding {
  import opened Base
  import opened Numbers
  import Text

  // ---------------------------------------------------------------------------
  // Integers

  /** `writeByte`, `writeShort`, `writeInt`, `writeLong`: the low `n` bytes of
      `v`, least significant first under little-endian output. */
  function WriteWord(cfg: Config, v: int, n: nat): (r: seq<int>)
    ensures |r| == n && ValidBytes(r)
    ensures cfg.littleEndian ==> DecodeLE(r) == v % Pow256(n)
    ensures !cfg.littleEndian ==> DecodeBE(r) == v % Pow256(n)
  {
    DecodeEncodeLE(v, n);
    DecodeEncodeBE(v, n);
    if cfg.littleEndian then EncodeLE(v, n) else EncodeBE(v, n)
  }

  lemma Pow256Facts()
    ensures Pow256(1) == 0x100 && Pow256(2) == 0x1_0000
    ensures Pow256(4) == 0x1_0000_0000 && Pow256(8) == 0x1_0000_0000_0000_0000
  {
    assert Pow256(2) == 0x1_0000;
    assert Pow256(4) == 0x1_0000_0000;
    assert Pow256(8) == 0x1_0000_0000_0000_0000;
  }

  /** A value in the signed range of `n` bytes is written as its two's
      complement: itself when non-negative, `256^n` more when negative. */
  lemma TwosComplement(v: int, n: nat)
    requires n > 0 && 0 <= Pow256(n) + 2 * v && 2 * v < Pow256(n)
    ensures v % Pow256(n) == if v >= 0 then v else v + Pow256(n)
  {
    if v >= 0 {
      ModUnique(v, Pow256(n), 0, v);
    } else {
      ModUnique(v, Pow256(n), -1, v + Pow256(n));
    }
  }

  /** One byte reads the same in either order. */
  lemma SingleByte(v: int)
    ensures EncodeLE(v, 1) == EncodeBE(v, 1) == [v % 256]
  {
  }

  // ---------------------------------------------------------------------------
  // UTF-8 and modified UTF-8

  /** The standard UTF-8 bytes of one Unicode scalar value. */
  function Utf8Char(c: char): (r: seq<int>)
    ensures 1 <= |r| <= 4 && ValidBytes(r)
    ensures |r| == 1 <==> c as int < 0x80
    ensures |r| == 1 ==> r[0] == c as int
  {
    var x := c as int;
    if x < 0x80 then [x]
    else if x < 0x800 then [0xC0 + x / 0x40, 0x80 + x % 0x40]
    else if x < 0x1_0000 then [0xE0 + x / 0x1000, 0x80 + x / 0x40 % 0x40, 0x80 + x % 0x40]
    else [0xF0 + x / 0x4_0000, 0x80 + x / 0x1000 % 0x40, 0x80 + x / 0x40 % 0x40, 0x80 + x % 0x40]
  }

  /** The scalar value a UTF-8 sequence of one char encodes. */
  function Utf8CharValue(b: seq<int>): int
    requires 1 <= |b| <= 4
  {
    if |b| == 1 then b[0]
    else if |b| == 2 then (b[0] - 0xC0) * 0x40 + (b[1] - 0x80)
    else if |b| == 3 then ((b[0] - 0xE0) * 0x40 + (b[1] - 0x80)) * 0x40 + (b[2] - 0x80)
    else (((b[0] - 0xF0) * 0x40 + (b[1] - 0x80)) * 0x40 + (b[2] - 0x80)) * 0x40 + (b[3] - 0x80)
  }

  /** The leading byte of a char's UTF-8 form tells how many bytes follow,
      the others are continuation bytes, and the char is read back. */
  lemma Utf8CharRoundTrip(c: char)
    ensures var b := Utf8Char(c);
            && (|b| == 1 <==> b[0] < 0x80)
            && (|b| == 2 <==> 0xC0 <= b[0] < 0xE0)
            && (|b| == 3 <==> 0xE0 <= b[0] < 0xF0)
            && (|b| == 4 <==> 0xF0 <= b[0] < 0xF8)
            && (forall i :: 1 <= i < |b| ==> 0x80 <= b[i] < 0xC0)
            && Utf8CharValue(b) == c as int
  {
    var x := c as int;
    if 0x80 <= x < 0x800 {
      SixBits(x);
    } else if 0x800 <= x < 0x1_0000 {
      SixBits(x);
      SixBits(x / 0x40);
      assert x / 0x40 / 0x40 == x / 0x1000;
    } else if x >= 0x1_0000 {
      SixBits(x);
      SixBits(x / 0x40);
      SixBits(x / 0x1000);
      assert x / 0x40 / 0x40 == x / 0x1000;
      assert x / 0x1000 / 0x40 == x / 0x4_0000;
    }
  }

  /** Splitting off the low six bits. */
  lemma SixBits(x: nat)
    ensures x == x / 0x40 * 0x40 + x % 0x40 && 0 <= x % 0x40 < 0x40
  {
  }

  /** `s.getBytes("UTF8")`. */
  function Utf8(s: string): (r: seq<int>)
    ensures |s| <= |r| <= 4 * |s| && ValidBytes(r)
  {
    if s == [] then [] else Utf8Char(s[0]) + Utf8(s[1..])
  }

  lemma {:induction false} Utf8Append(a: string, b: string)
    ensures Utf8(a + b) == Utf8(a) + Utf8(b)
  {
    if a == [] {
      assert a + b == b;
    } else {
      assert (a + b)[0] == a[0];
      assert (a + b)[1..] == a[1..] + b;
      Utf8Append(a[1..], b);
    }
  }

  /** ASCII text is written as its char codes, one byte each. */
  lemma {:induction false} Utf8OfAscii(s: string)
    requires forall i :: 0 <= i < |s| ==> s[i] as int < 0x80
    ensures |Utf8(s)| == |s|
    ensures forall i :: 0 <= i < |s| ==> Utf8(s)[i] == s[i] as int
  {
    if s != [] {
      Utf8OfAscii(s[1..]);
    }
  }

  /** The UTF-16 code units of a char as a Java string holds them. */
  function Utf16(c: char): (r: seq<int>)
    ensures |r| == 1 || |r| == 2
    ensures forall i :: 0 <= i < |r| ==> 0 <= r[i] < 0x1_0000
  {
    var x := c as int;
    if x < 0x1_0000 then [x]
    else [0xD800 + (x - 0x1_0000) / 0x400, 0xDC00 + (x - 0x1_0000) % 0x400]
  }

  /** The units of a char are as many as `String.length()` counts for it. */
  lemma Utf16Units(c: char)
    ensures |Utf16(c)| == Text.CharUnits(c)
  {
  }

  /** The modified UTF-8 form of one UTF-16 unit: 1..0x7F in one byte,
      U+0000 and up to 0x7FF in two, the rest in three. */
  function ModifiedUnit(u: int): (r: seq<int>)
    requires 0 <= u < 0x1_0000
    ensures 1 <= |r| <= 3 && ValidBytes(r)
    ensures |r| == 1 <==> 1 <= u <= 0x7F
  {
    if 1 <= u <= 0x7F then [u]
    else if u > 0x7FF then [0xE0 + u / 0x1000, 0x80 + u / 0x40 % 0x40, 0x80 + u % 0x40]
    else [0xC0 + u / 0x40, 0x80 + u % 0x40]
  }

  function ModifiedChar(c: char): (r: seq<int>)
    ensures 1 <= |r| <= 6 && ValidBytes(r)
  {
    var units := Utf16(c);
    if |units| == 1 then ModifiedUnit(units[0])
    else ModifiedUnit(units[0]) + ModifiedUnit(units[1])
  }

  function ModifiedUtf8(s: string): (r: seq<int>)
    ensures |s| <= |r| <= 6 * |s| && ValidBytes(r)
  {
    if s == [] then [] else ModifiedChar(s[0]) + ModifiedUtf8(s[1..])
  }

  /** `writeUTF`: a two-byte big-endian length, whatever the configured
      order, then the modified UTF-8 bytes; more than 65535 bytes fail. */
  function WriteUtf(s: string): (r: Result<seq<int>>)
    ensures r.Err? <==> |ModifiedUtf8(s)| > 0xFFFF
    ensures r.Err? ==> r.error == UtfTooLong(|ModifiedUtf8(s)|)
    ensures r.Ok? ==> |r.value| == 2 + |ModifiedUtf8(s)| && ValidBytes(r.value)
    ensures r.Ok? ==> DecodeBE(r.value[..2]) == |ModifiedUtf8(s)| && r.value[2..] == ModifiedUtf8(s)
  {
    var bytes := ModifiedUtf8(s);
    if |bytes| > 0xFFFF then Err(UtfTooLong(|bytes|))
    else
      var prefix := EncodeBE(|bytes|, 2);
      DecodeEncodeBE(|bytes|, 2);
      ModUnique(|bytes|, Pow256(2), 0, |bytes|);
      assert (prefix + bytes)[..2] == prefix;
      Ok(prefix + bytes)
  }

  // ---------------------------------------------------------------------------
  // Fixed-length strings

  function Zeros(n: nat): (r: seq<int>)
    ensures |r| == n && forall i :: 0 <= i < n ==> r[i] == 0
  {
    seq(n, _ => 0)
  }

  /** `writeString`: exactly `maxLen` bytes, the UTF-8 text cut to `maxLen`
      or padded with zeros. Text of `maxLen` bytes or more (an exact fit
      included) raises the size warning; a negative `maxLen` then fails. */
  function FixedString(cfg: Config, log: seq<Warning>, s: string, maxLen: int): (r: Result<(seq<int>, seq<Warning>)>)
    ensures r.Ok? ==> |r.value.0| == maxLen && ValidBytes(r.value.0)
    ensures r.Ok? ==> forall i :: 0 <= i < maxLen ==>
              r.value.0[i] == if i < |Utf8(s)| then Utf8(s)[i] else 0
    ensures |Utf8(s)| < maxLen ==> r.Ok? && r.value.1 == log
    ensures |Utf8(s)| >= maxLen ==> r == (var l :- Warn(cfg, log, StringTooBig(|Utf8(s)|, maxLen));
                                          if maxLen < 0 then Err(IndexOutOfBounds) else r)
    ensures |Utf8(s)| >= maxLen && r.Ok? ==> r.value.1 == log + [StringTooBig(|Utf8(s)|, maxLen)]
  {
    var data := Utf8(s);
    if |data| >= maxLen then
      var log' :- Warn(cfg, log, StringTooBig(|data|, maxLen));
      if maxLen < 0 then Err(IndexOutOfBounds) else Ok((data[..maxLen], log'))
    else Ok((data + Zeros(maxLen - |data|), log))
  }

  /** The size of the zero blocks `writeString` pads with. */
  const ZERO_BLOCK: nat := 1024

  /** `writeString` with its padding loop, which writes zeros in blocks of
      at most 1024 bytes. */
  method WriteString(cfg: Config, log: seq<Warning>, s: string, maxLen: int)
    returns (r: Result<(seq<int>, seq<Warning>)>)
    ensures r == FixedString(cfg, log, s, maxLen)
  {
    var data := Utf8(s);
    if |data| >= maxLen {
      var w := StringTooBig(|data|, maxLen);
      if cfg.useWarningsAsErrors {
        return Err(WarningAsError(w));
      }
      if maxLen < 0 {
        return Err(IndexOutOfBounds);
      }
      return Ok((data[..maxLen], log + [w]));
    }
    var out := data;
    var max := maxLen - |data|;
    while max > 0
      invariant 0 <= max <= maxLen - |data|
      invariant out == data + Zeros(maxLen - |data| - max)
      decreases max
    {
      var block := if max > ZERO_BLOCK then ZERO_BLOCK else max;
      out := out + Zeros(block);
      max := max - block;
    }
    return Ok((out, log));
  }
}
