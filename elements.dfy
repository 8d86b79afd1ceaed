/** The element model of DataElement.java: element types, elements, the
    symbol table they live in, and the pure classifications of value text. */
module Elements {
  import opened Base
  import opened Numbers
  import Text

  /** The TYPE_* codes of an element. `Aux` is a declaration without a value
      whose type is not given (a bare `=`); `File`, `Float`, `Double` and
      their arrays are declared but not stored by this model. */
  datatype ElemType =
    | Aux | Byte | Short | Int | Long | File | Float | Double
    | ByteArray | ShortArray | IntArray | LongArray | FloatArray | DoubleArray
    | Struct | Str

  predicate IsIntegral(t: ElemType) {
    t == Byte || t == Short || t == Int || t == Long
  }

  /** Bytes an integral value of type `t` occupies in the output. */
  function Width(t: ElemType): (w: nat)
    requires IsIntegral(t)
    ensures w == 1 || w == 2 || w == 4 || w == 8
  {
    match t
    case Byte => 1
    case Short => 2
    case Int => 4
    case Long => 8
  }

  /** A declared element or constant. `value` is None for an element whose
      value comes from the data section; `checked` is `checkedForExpression`;
      `arrayLen` is the fixed length of a `string[N]`, 0 otherwise. */
  datatype Element = Element(
    name: string,
    etype: ElemType,
    arrayLen: int,
    value: Option<string>,
    checked: bool)

  /** The `constants` map: every top-level element by name. */
  type Table = map<string, Element>

  /** The keys still waiting for expression resolution. */
  function Unchecked(t: Table): (u: set<string>)
    ensures forall k :: k in u <==> k in t && !t[k].checked
  {
    set k | k in t && !t[k].checked
  }

  /** `t'` comes from `t` by resolving entries: the same keys, and every
      entry keeps its name, type and length. An entry checked in `t` stays as
      it was, except the one being resolved (`self`), and an entry still
      unchecked in `t'` was not touched. */
  ghost predicate Evolves(t: Table, t': Table, self: Option<string>) {
    t'.Keys == t.Keys
    && (forall k :: k in t ==> t'[k].name == t[k].name && t'[k].etype == t[k].etype
                               && t'[k].arrayLen == t[k].arrayLen)
    && (forall k :: k in t && t[k].checked && Some(k) != self ==> t'[k] == t[k])
    && (forall k :: k in t' && !t'[k].checked ==> t'[k] == t[k])
  }

  /** Resolution that touches only entries that were unchecked. */
  ghost predicate Preserves(t: Table, t': Table) {
    Evolves(t, t', None)
  }

  /** Evolution composes, and never adds work: what is unchecked afterwards
      was unchecked before. */
  lemma {:induction false} EvolvesTrans(t1: Table, t2: Table, t3: Table, self: Option<string>)
    requires Evolves(t1, t2, self) && Evolves(t2, t3, self)
    ensures Evolves(t1, t3, self)
    ensures Unchecked(t3) <= Unchecked(t1)
  {
  }

  /** `isIntegerNumber`: every char is a decimal digit, a-f, A-F, x or X
      (so the empty text qualifies). */
  predicate IsIntegerNumber(s: string) {
    forall i :: 0 <= i < |s| ==> IsIntegerChar(s[i])
  }

  predicate IsIntegerChar(c: char) {
    '0' <= c <= '9' || 'a' <= c <= 'f' || 'A' <= c <= 'F' || c == 'x' || c == 'X'
  }

  /** Number of `c` in `s`. */
  function Count(s: string, c: char): (n: nat)
    ensures n <= |s|
    ensures n == 0 <==> c !in s
  {
    if |s| == 0 then 0 else (if s[0] == c then 1 else 0) + Count(s[1..], c)
  }

  /** `isDecimalNumber`: only digits and points, with exactly one point. */
  predicate IsDecimalNumber(s: string) {
    (forall i :: 0 <= i < |s| ==> '0' <= s[i] <= '9' || s[i] == '.')
    && Count(s, '.') == 1
  }

  /** The loop of `isDecimalNumber`, which stops at the first char that is
      neither digit nor point and at a second point. */
  method CheckDecimalNumber(val: string) returns (r: bool)
    ensures r == IsDecimalNumber(val)
  {
    var foundDecimalPoint := false;
    var i := 0;
    while i < |val|
      invariant 0 <= i <= |val|
      invariant forall j :: 0 <= j < i ==> '0' <= val[j] <= '9' || val[j] == '.'
      invariant Count(val[..i], '.') == if foundDecimalPoint then 1 else 0
    {
      var c := val[i];
      assert val[..i + 1] == val[..i] + [c];
      CountAppend(val[..i], c, '.');
      if (c < '0' || c > '9') && c != '.' {
        return false;
      }
      if c == '.' {
        if foundDecimalPoint {
          CountPrefix(val, i + 1, '.');
          return false;
        }
        foundDecimalPoint := true;
      }
      i := i + 1;
    }
    assert val[..i] == val;
    return foundDecimalPoint;
  }

  lemma {:induction false} CountAppend(s: string, c: char, d: char)
    ensures Count(s + [c], d) == Count(s, d) + (if c == d then 1 else 0)
    decreases |s|
  {
    if |s| == 0 {
      assert s + [c] == [c];
    } else {
      assert (s + [c])[1..] == s[1..] + [c];
      CountAppend(s[1..], c, d);
    }
  }

  /** A prefix never holds more of `c` than the whole. */
  lemma {:induction false} CountPrefix(s: string, n: nat, c: char)
    requires n <= |s|
    ensures Count(s[..n], c) <= Count(s, c)
    decreases |s| - n
  {
    if n < |s| {
      assert s[..n + 1] == s[..n] + [s[n]];
      CountAppend(s[..n], s[n], c);
      CountPrefix(s, n + 1, c);
    } else {
      assert s[..n] == s;
    }
  }

  /** A decimal number holds a point, which no integer number does, so the
      two classifications exclude each other. */
  lemma DecimalIsNotInteger(s: string)
    ensures IsDecimalNumber(s) ==> !IsIntegerNumber(s)
  {
    if IsDecimalNumber(s) {
      var i := IndexOfPoint(s);
      assert !IsIntegerChar(s[i]);
    }
  }

  function IndexOfPoint(s: string): (i: nat)
    requires '.' in s
    ensures i < |s| && s[i] == '.'
  {
    if s[0] == '.' then 0 else 1 + IndexOfPoint(s[1..])
  }

  /** The smallest integral type whose range holds `v`, as `guessType` picks. */
  function NumberType(v: int): (t: ElemType)
    requires InLong(v)
    ensures IsIntegral(t)
    ensures t == Byte <==> BYTE_MIN <= v <= BYTE_MAX
    ensures t == Short <==> !(BYTE_MIN <= v <= BYTE_MAX) && SHORT_MIN <= v <= SHORT_MAX
    ensures t == Int <==> !(SHORT_MIN <= v <= SHORT_MAX) && INT_MIN <= v <= INT_MAX
    ensures t == Long <==> !(INT_MIN <= v <= INT_MAX)
  {
    if BYTE_MIN <= v <= BYTE_MAX then Byte
    else if SHORT_MIN <= v <= SHORT_MAX then Short
    else if INT_MIN <= v <= INT_MAX then Int
    else Long
  }

  /** The declaration keywords of the element constructor; `file` is matched
      ignoring case. `=` is handled by the caller. */
  function KeywordType(data: string): (r: Option<ElemType>)
    ensures r.Some? ==> r.value != Aux
  {
    if data == "byte" then Some(Byte)
    else if data == "short" then Some(Short)
    else if data == "int" then Some(Int)
    else if data == "long" then Some(Long)
    else if data == "string" then Some(Str)
    else if data == "float" then Some(Float)
    else if data == "double" then Some(Double)
    else if data == "byteArray" || data == "byte[]" then Some(ByteArray)
    else if data == "shortArray" || data == "short[]" then Some(ShortArray)
    else if data == "intArray" || data == "int[]" then Some(IntArray)
    else if data == "longArray" || data == "long[]" then Some(LongArray)
    else if data == "floatArray" || data == "float[]" then Some(FloatArray)
    else if data == "doubleArray" || data == "double[]" then Some(DoubleArray)
    else if data == "struct" then Some(Struct)
    else if IsFileKeyword(data) then Some(File)
    else None
  }

  /** `data.equalsIgnoreCase("file")`, for ASCII letters. */
  predicate IsFileKeyword(data: string) {
    |data| == 4 && (data[0] == 'f' || data[0] == 'F') && (data[1] == 'i' || data[1] == 'I')
    && (data[2] == 'l' || data[2] == 'L') && (data[3] == 'e' || data[3] == 'E')
  }

  /** `getElementCount`: how many slots of the array's element type `dataType`
      the token `data` fills. A token naming an integral constant wider than
      the slot fills several; anything else fills one. */
  function ElementCount(data: string, dataType: ElemType, t: Table): (n: nat)
    ensures n >= 1
    ensures !(dataType == Byte || dataType == Short || dataType == Int) ==> n == 1
    ensures (dataType == Byte || dataType == Short || dataType == Int) && IsIntegral(SlotType(data, dataType, t))
            && Width(SlotType(data, dataType, t)) >= Width(dataType)
            ==> n * Width(dataType) == Width(SlotType(data, dataType, t))
  {
    if dataType == Byte || dataType == Short || dataType == Int then
      var et := SlotType(data, dataType, t);
      if IsIntegral(et) && Width(et) > Width(dataType) then Width(et) / Width(dataType) else 1
    else 1
  }

  /** The type a token of an array of `dataType` is stored with: the named
      constant's type, or `dataType` itself for a literal. */
  function SlotType(data: string, dataType: ElemType, t: Table): ElemType {
    if Text.Trim(data) in t then t[Text.Trim(data)].etype else dataType
  }
}
