/** `DataElement.store`: the bytes an element appends to the output for its
    data text, together with the table after any resolution the lookup
    caused and the warnings raised. Integers, strings, count-prefixed arrays
    and struct constants are written; float, double and file data are not
    part of this model. */
module Store {
  import opened Base
  import opened Text
  import opened Numbers
  import opened Elements
  import opened Encoding
  import Structs
  import Resolver
  import UnicodeEscapes

  /** What a store produced. */
  datatype Written = Written(t: Table, bytes: seq<int>, log: seq<Warning>)

  /** Warnings are only ever appended. */
  predicate Extends(log': seq<Warning>, log: seq<Warning>) {
    |log| <= |log'| && log'[..|log|] == log
  }

  /** The name of the element `store` makes for a literal. */
  const ANONYMOUS: string := "<anonymous>"

  /** The element `store` takes its value and type from: the constant named
      by the data text, resolved first if still unchecked, or an anonymous
      element of the stored type that holds the text and is resolved in
      turn. */
  function Operand(t: Table, data: string, dataType: ElemType): (r: Result<(Table, Element)>)
    ensures r.Ok? ==> Preserves(t, r.value.0)
    ensures r.Ok? && data in t ==> r.value.1 == r.value.0[data] && r.value.1.checked
    ensures r.Ok? && data !in t ==> r.value.1.etype == dataType && r.value.1.name == ANONYMOUS
    ensures data in t && t[data].checked ==> r == Ok((t, t[data]))
  {
    if data in t then
      var f :- Resolver.Fetch(t, data);
      Ok((f.t, f.de.value))
    else
      var o :- Resolver.ResolveAnonymous(t, dataType, Some(data));
      Ok((o.t, Element(ANONYMOUS, dataType, 0, o.value, true)))
  }

  // ---------------------------------------------------------------------------
  // Integers

  /** Whether `store` warns about `l` as a value of `dataType`: outside the
      signed range, except that without `warnInConversion` a byte may take
      any value in [-128, 255]. */
  predicate OutOfRange(cfg: Config, dataType: ElemType, l: int) {
    match dataType
    case Byte => if cfg.warnInConversion then !(BYTE_MIN <= l <= BYTE_MAX) else !(BYTE_MIN <= l <= 0xFF)
    case Short => !(SHORT_MIN <= l <= SHORT_MAX)
    case Int => !(INT_MIN <= l <= INT_MAX)
    case _ => false
  }

  /** The type name the incompatible-type warning reports. */
  function TypeName(dataType: ElemType): string {
    match dataType
    case Byte => "byte"
    case Short => "short"
    case Int => "int"
    case _ => "long"
  }

  /** How many bytes `store` writes for a value of type `elementType` stored
      as `dataType`, as the code is written: strict stores and values no
      wider than `dataType` take its width, a wider integral value keeps its
      own, and a value of any other type writes nothing. */
  function SlotWidthAsWritten(dataType: ElemType, elementType: ElemType, strict: bool): (w: nat)
    requires IsIntegral(dataType)
    ensures w == 0 <==> !strict && dataType != Long && !IsIntegral(elementType)
  {
    if dataType == Long || strict || (IsIntegral(elementType) && Width(elementType) <= Width(dataType))
    then Width(dataType)
    else if IsIntegral(elementType) then Width(elementType)
    else 0
  }

  /** How many bytes a value takes: its own width when it is a wider
      integral value in a non-strict store, the width of `dataType`
      otherwise (a value of a non-integral type included). */
  function SlotWidth(dataType: ElemType, elementType: ElemType, strict: bool): (w: nat)
    requires IsIntegral(dataType)
    ensures w == 1 || w == 2 || w == 4 || w == 8
    ensures w >= Width(dataType)
    ensures IsIntegral(elementType) && !strict ==> w == SlotWidthAsWritten(dataType, elementType, strict)
    ensures strict ==> w == Width(dataType)
  {
    if !strict && IsIntegral(elementType) && Width(elementType) > Width(dataType) then Width(elementType)
    else Width(dataType)
  }

  /** The bytes of `l` at width `width`, with the range check of `dataType`
      when the value is written at that type's own width. */
  function IntegralBytes(cfg: Config, log: seq<Warning>, l: int, text: string, dataType: ElemType, width: nat)
    : (r: Result<(seq<int>, seq<Warning>)>)
    requires IsIntegral(dataType)
    ensures var warns := width == Width(dataType) && OutOfRange(cfg, dataType, l);
            && (r.Err? <==> warns && cfg.useWarningsAsErrors)
            && (r.Err? ==> r.error == WarningAsError(IncompatibleType(TypeName(dataType), text)))
            && (r.Ok? ==> r.value.1 == if warns then log + [IncompatibleType(TypeName(dataType), text)] else log)
    ensures r.Ok? ==> r.value.0 == WriteWord(cfg, l, width)
  {
    var log' :- if width == Width(dataType) && OutOfRange(cfg, dataType, l)
                then Warn(cfg, log, IncompatibleType(TypeName(dataType), text))
                else Ok(log);
    Ok((WriteWord(cfg, l, width), log'))
  }

  /** The integral branches of `store`: the operand's value must decode as a
      long; it is written at the slot width of the operand's type. */
  function StoreNumber(cfg: Config, t: Table, log: seq<Warning>, data: string, dataType: ElemType, strict: bool)
    : (r: Result<Written>)
    requires IsIntegral(dataType) && Trim(data) == data
    ensures r.Ok? ==> Preserves(t, r.value.t) && ValidBytes(r.value.bytes)
    ensures r.Ok? ==> |r.value.bytes| == SlotWidth(dataType, SlotType(data, dataType, t), strict)
    ensures r.Ok? ==> Extends(r.value.log, log)
    ensures Operand(t, data, dataType).Err? ==> r == Err(Operand(t, data, dataType).error)
    ensures Operand(t, data, dataType).Ok? ==>
              var (t1, de) := Operand(t, data, dataType).value;
              match de.value
              case None => r == Err(NullValue)
              case Some(text) =>
                match DecodeLong(text)
                case None => r == Err(NumberFormat(text))
                case Some(l) =>
                  var width := SlotWidth(dataType, SlotType(data, dataType, t), strict);
                  var warns := width == Width(dataType) && OutOfRange(cfg, dataType, l);
                  && (r.Err? <==> warns && cfg.useWarningsAsErrors)
                  && (r.Ok? ==> r.value.t == t1 && r.value.bytes == WriteWord(cfg, l, width))
                  && (r.Ok? ==> r.value.log == if warns then log + [IncompatibleType(TypeName(dataType), text)] else log)
  {
    var (t1, de) :- Operand(t, data, dataType);
    if de.value.None? then Err(NullValue)
    else
      var text := de.value.value;
      match DecodeLong(text)
      case None => Err(NumberFormat(text))
      case Some(l) =>
        assert de.etype == SlotType(data, dataType, t);
        var (bytes, log') :- IntegralBytes(cfg, log, l, text, dataType, SlotWidth(dataType, de.etype, strict));
        assert Extends(log', log);
        Ok(Written(t1, bytes, log'))
  }

  // ---------------------------------------------------------------------------
  // Strings

  /** The string branch of `store`: the operand's text, unquoted and
      unescaped, is written by `writeUTF` when the element has no fixed
      length and as a fixed-length field otherwise. */
  function StoreString(cfg: Config, t: Table, log: seq<Warning>, self: Element, data: string)
    : (r: Result<Written>)
    ensures r.Ok? ==> Preserves(t, r.value.t) && ValidBytes(r.value.bytes)
    ensures r.Ok? && self.arrayLen != 0 ==> |r.value.bytes| == self.arrayLen
    ensures r.Ok? && self.arrayLen == 0 ==> |r.value.bytes| >= 2 && r.value.log == log
    ensures r.Ok? ==> Extends(r.value.log, log)
    ensures r.Ok? ==>
              && Operand(t, data, Str).Ok?
              && r.value.t == Operand(t, data, Str).value.0
              && StringText(Operand(t, data, Str).value.1).Ok?
              && var s := StringText(Operand(t, data, Str).value.1).value;
                 && (self.arrayLen == 0 ==> WriteUtf(s) == Ok(r.value.bytes))
                 && (self.arrayLen != 0 ==> FixedString(cfg, log, s, self.arrayLen) == Ok((r.value.bytes, r.value.log)))
  {
    var (t1, de) :- Operand(t, data, Str);
    var s :- StringText(de);
    if self.arrayLen == 0 then
      var bytes :- WriteUtf(s);
      Ok(Written(t1, bytes, log))
    else
      var (bytes, log') :- FixedString(cfg, log, s, self.arrayLen);
      assert Extends(log', log);
      Ok(Written(t1, bytes, log'))
  }

  /** The text a string element stands for: its value, without its quotes
      when it is a string, with its `\uXXXX` escapes expanded. */
  function StringText(de: Element): (r: Result<string>)
    ensures de.value.None? ==> r == Err(NullValue)
    ensures de.value.Some? && !(de.etype == Str && Resolver.IsQuoted(de.value.value)) ==>
              r == Ok(UnicodeEscapes.Unescaped(de.value.value))
    ensures de.value.Some? && de.etype == Str && Resolver.IsQuoted(de.value.value) ==>
              var v := de.value.value;
              r == if |v| < 2 then Err(IndexOutOfBounds) else Ok(UnicodeEscapes.Unescaped(v[1..|v| - 1]))
  {
    if de.value.None? then Err(NullValue)
    else
      var text := de.value.value;
      var inner :- if de.etype == Str && Resolver.IsQuoted(text) then Resolver.StripQuotes(text) else Ok(text);
      Ok(UnicodeEscapes.Unescaped(inner))
  }

  // ---------------------------------------------------------------------------
  // Arrays

  /** The element type `store` uses for the tokens of an integral array; a
      long array keeps its own type, so each token is stored as an array
      again. */
  function SlotElemType(dataType: ElemType): ElemType
    requires dataType in {ByteArray, ShortArray, IntArray, LongArray}
  {
    match dataType
    case ByteArray => Byte
    case ShortArray => Short
    case IntArray => Int
    case LongArray => LongArray
  }

  /** The slots the tokens from `i` on fill. */
  function SlotCount(tokens: seq<string>, i: nat, elem: ElemType, t: Table): (n: nat)
    requires i <= |tokens|
    ensures n >= |tokens| - i
    decreases |tokens| - i
  {
    if i == |tokens| then 0 else ElementCount(tokens[i], elem, t) + SlotCount(tokens, i + 1, elem, t)
  }

  /** The count prefix of an integral array as the code computes it: the
      token count plus the extra slots of wide constants, which it adds up
      for byte and short arrays only. */
  function ArrayCountAsWritten(tokens: seq<string>, elem: ElemType, t: Table): nat {
    if elem == Byte || elem == Short then SlotCount(tokens, 0, elem, t) else |tokens|
  }

  /** The count prefix of an integral array: the slots its tokens fill. */
  function ArrayCount(tokens: seq<string>, elem: ElemType, t: Table): nat {
    SlotCount(tokens, 0, elem, t)
  }

  /** The array size, in four bytes with `useIntegerArraySize` and as a
      (wrapped) short otherwise. */
  function ArrayPrefix(cfg: Config, count: int): (r: seq<int>)
    ensures |r| == (if cfg.useIntegerArraySize then 4 else 2) && ValidBytes(r)
    ensures cfg.littleEndian ==> DecodeLE(r) == count % Pow256(|r|)
    ensures !cfg.littleEndian ==> DecodeBE(r) == count % Pow256(|r|)
  {
    WriteWord(cfg, count, if cfg.useIntegerArraySize then 4 else 2)
  }

  /** Element counts read only the types of constants, which resolution
      never changes. */
  lemma {:induction false} SlotCountPreserved(tokens: seq<string>, i: nat, elem: ElemType, t: Table, t': Table)
    requires i <= |tokens| && Preserves(t, t')
    ensures SlotCount(tokens, i, elem, t') == SlotCount(tokens, i, elem, t)
    decreases |tokens| - i
  {
    if i < |tokens| {
      SlotTypePreserved(tokens[i], elem, t, t');
      SlotCountPreserved(tokens, i + 1, elem, t, t');
    }
  }

  lemma SlotTypePreserved(data: string, elem: ElemType, t: Table, t': Table)
    requires Preserves(t, t')
    ensures SlotType(data, elem, t') == SlotType(data, elem, t)
    ensures ElementCount(data, elem, t') == ElementCount(data, elem, t)
  {
    var k := Trim(data);
    if k in t {
      assert k in t' && t'[k].etype == t[k].etype;
    }
  }

  /** The bytes of one token and of the tokens after it add up. */
  lemma SlotStep(tokens: seq<string>, i: nat, elem: ElemType, t: Table, t': Table, head: nat, tail: nat)
    requires i < |tokens| && (elem == Byte || elem == Short || elem == Int) && Preserves(t, t')
    requires head == SlotWidth(elem, SlotType(Trim(tokens[i]), elem, t), false)
    requires tail == SlotCount(tokens, i + 1, elem, t') * Width(elem)
    ensures head + tail == SlotCount(tokens, i, elem, t) * Width(elem)
  {
    var count := ElementCount(tokens[i], elem, t);
    var rest := SlotCount(tokens, i + 1, elem, t);
    HeadSlots(tokens[i], elem, t, head);
    SlotCountPreserved(tokens, i + 1, elem, t, t');
    assert SlotCount(tokens, i, elem, t) == count + rest;
    SumSlots(head, tail, count, rest, Width(elem));
  }

  /** The bytes of one token are its slots times the slot width. */
  lemma HeadSlots(token: string, elem: ElemType, t: Table, head: nat)
    requires elem == Byte || elem == Short || elem == Int
    requires head == SlotWidth(elem, SlotType(Trim(token), elem, t), false)
    ensures head == ElementCount(token, elem, t) * Width(elem)
  {
    TrimOfTrimmed(Trim(token));
    assert SlotType(Trim(token), elem, t) == SlotType(token, elem, t);
    SlotBytes(token, elem, t);
  }

  lemma SumSlots(head: nat, tail: nat, count: nat, rest: nat, w: nat)
    requires head == count * w && tail == rest * w
    ensures head + tail == (count + rest) * w
  {
    Distribute(count, rest, w);
  }

  /** Two stores one after the other: the table still only resolves, the
      log only grows, and the bytes stay bytes. */
  lemma Chain(t: Table, log: seq<Warning>, w: Written, rest: Written)
    requires Preserves(t, w.t) && Preserves(w.t, rest.t)
    requires Extends(w.log, log) && Extends(rest.log, w.log)
    requires ValidBytes(w.bytes) && ValidBytes(rest.bytes)
    ensures Preserves(t, rest.t) && Extends(rest.log, log) && ValidBytes(w.bytes + rest.bytes)
  {
    EvolvesTrans(t, w.t, rest.t, None);
    assert rest.log[..|log|] == rest.log[..|w.log|][..|log|];
  }

  lemma Distribute(a: nat, b: nat, w: nat)
    ensures a * w + b * w == (a + b) * w
  {
  }

  /** A token takes as many bytes as its slots fill. */
  lemma SlotBytes(data: string, elem: ElemType, t: Table)
    requires elem == Byte || elem == Short || elem == Int
    ensures SlotWidth(elem, SlotType(data, elem, t), false) == ElementCount(data, elem, t) * Width(elem)
  {
  }

  // ---------------------------------------------------------------------------
  // The dispatcher

  /** `store(dout, data, dataType, constants, parentPath, strictTypes, li)`
      on element `self` (whose fixed length and struct name are used). A
      struct reached again while it is being written (`visited`) recurses
      without end in the original. */
  function Store(cfg: Config, reg: Structs.Registry, t: Table, log: seq<Warning>, self: Element,
                 data: string, dataType: ElemType, strict: bool, visited: set<string>): (r: Result<Written>)
    ensures r.Ok? ==> Preserves(t, r.value.t) && ValidBytes(r.value.bytes)
    ensures r.Ok? ==> Extends(r.value.log, log)
    ensures dataType in {Float, Double, File} ==> r.Err?
    ensures dataType == Aux ==> r == Ok(Written(t, [], log))
    decreases reg.Keys - visited, Rank(dataType), 1
  {
    TrimOfTrimmed(Trim(data));
    Dispatch(cfg, reg, t, log, self, Trim(data), dataType, strict, visited)
  }

  /** The branch of `store` for each type, on the trimmed data. */
  function Dispatch(cfg: Config, reg: Structs.Registry, t: Table, log: seq<Warning>, self: Element,
                    data: string, dataType: ElemType, strict: bool, visited: set<string>): (r: Result<Written>)
    requires Trim(data) == data
    ensures r.Ok? ==> Preserves(t, r.value.t) && ValidBytes(r.value.bytes)
    ensures r.Ok? ==> Extends(r.value.log, log)
    ensures dataType in {Float, Double, File} ==> r.Err?
    ensures dataType == Aux ==> r == Ok(Written(t, [], log))
    decreases reg.Keys - visited, Rank(dataType), 0
  {
    match dataType
    case Byte | Short | Int | Long => StoreNumber(cfg, t, log, data, dataType, strict)
    case Str => StoreString(cfg, t, log, self, data)
    case ByteArray | ShortArray | IntArray | LongArray =>
      StoreIntegralArray(cfg, t, log, data, dataType)
    case FloatArray | DoubleArray =>
      var tokens := Tokens(data, {' ', '\t'});
      if |tokens| == 0 then Ok(Written(t, ArrayPrefix(cfg, 0), log))
      else Err(Unsupported("floating point"))
    case Struct => StoreStruct(cfg, reg, t, log, self, visited)
    case Float | Double => Err(Unsupported("floating point"))
    case File => Err(Unsupported("file"))
    case Aux => Ok(Written(t, [], log))
  }

  /** Only the struct branch recurses. */
  function Rank(dataType: ElemType): nat {
    if dataType == Struct then 4 else 0
  }

  /** The integral array branch: the count prefix, then every token stored
      non-strictly as the slot type. A long array with tokens stores each
      token as a long array again, without end. */
  function StoreIntegralArray(cfg: Config, t: Table, log: seq<Warning>, data: string, dataType: ElemType)
    : (r: Result<Written>)
    requires dataType in {ByteArray, ShortArray, IntArray, LongArray}
    ensures r.Ok? ==> Preserves(t, r.value.t) && ValidBytes(r.value.bytes)
    ensures r.Ok? ==> Extends(r.value.log, log)
    ensures r.Ok? && dataType != LongArray ==>
              var tokens := Tokens(data, {' ', '\t'});
              var elem := SlotElemType(dataType);
              var prefix := ArrayPrefix(cfg, ArrayCount(tokens, elem, t));
              && |prefix| <= |r.value.bytes|
              && r.value.bytes[..|prefix|] == prefix
              && |r.value.bytes| - |prefix| == ArrayCount(tokens, elem, t) * Width(elem)
    ensures dataType != LongArray ==>
              var tokens := Tokens(data, {' ', '\t'});
              var slots := StoreSlots(cfg, t, log, tokens, 0, SlotElemType(dataType));
              (slots.Err? ==> r == Err(slots.error))
              && (slots.Ok? ==> r.Ok? && r.value == Written(slots.value.t, ArrayPrefix(cfg, ArrayCount(tokens, SlotElemType(dataType), t)) + slots.value.bytes, slots.value.log))
    ensures dataType == LongArray && |Tokens(data, {' ', '\t'})| > 0 ==> r == Err(Diverges)
  {
    var tokens := Tokens(data, {' ', '\t'});
    var elem := SlotElemType(dataType);
    if dataType == LongArray then
      if |tokens| == 0 then Ok(Written(t, ArrayPrefix(cfg, 0), log)) else Err(Diverges)
    else
      var prefix := ArrayPrefix(cfg, ArrayCount(tokens, elem, t));
      var w :- StoreSlots(cfg, t, log, tokens, 0, elem);
      Prefixed(prefix, w.bytes);
      Ok(Written(w.t, prefix + w.bytes, w.log))
  }

  lemma Prefixed(prefix: seq<int>, bytes: seq<int>)
    requires ValidBytes(prefix) && ValidBytes(bytes)
    ensures ValidBytes(prefix + bytes) && (prefix + bytes)[..|prefix|] == prefix
  {
  }

  /** The tokens from `i` on, each stored with strict types off; `store`
      on an integral type is the number branch on the trimmed token. */
  function StoreSlots(cfg: Config, t: Table, log: seq<Warning>, tokens: seq<string>, i: nat, elem: ElemType)
    : (r: Result<Written>)
    requires i <= |tokens| && (elem == Byte || elem == Short || elem == Int)
    ensures r.Ok? ==> Preserves(t, r.value.t) && ValidBytes(r.value.bytes)
    ensures r.Ok? ==> Extends(r.value.log, log)
    ensures r.Ok? ==> |r.value.bytes| == SlotCount(tokens, i, elem, t) * Width(elem)
    ensures i == |tokens| ==> r == Ok(Written(t, [], log))
    ensures i < |tokens| ==>
              var head := StoreNumber(cfg, t, log, Trim(tokens[i]), elem, false);
              (head.Err? ==> r == Err(head.error))
              && (head.Ok? ==>
                    var tail := StoreSlots(cfg, head.value.t, head.value.log, tokens, i + 1, elem);
                    (tail.Err? ==> r == Err(tail.error))
                    && (tail.Ok? ==> r.Ok? && r.value == Written(tail.value.t, head.value.bytes + tail.value.bytes, tail.value.log)))
    decreases |tokens| - i
  {
    if i == |tokens| then Ok(Written(t, [], log))
    else
      TrimOfTrimmed(Trim(tokens[i]));
      var w :- StoreNumber(cfg, t, log, Trim(tokens[i]), elem, false);
      var rest :- StoreSlots(cfg, w.t, w.log, tokens, i + 1, elem);
      SlotStep(tokens, i, elem, t, w.t, |w.bytes|, |rest.bytes|);
      Chain(t, log, w, rest);
      Ok(Written(rest.t, w.bytes + rest.bytes, rest.log))
  }

  // ---------------------------------------------------------------------------
  // Structs

  /** The struct branch: the struct named by the element's value must be
      registered, and each of its fields constant; the fields are written in
      order, each with its own value and type and strict types on. */
  function StoreStruct(cfg: Config, reg: Structs.Registry, t: Table, log: seq<Warning>, self: Element,
                       visited: set<string>): (r: Result<Written>)
    ensures r.Ok? ==> Preserves(t, r.value.t) && ValidBytes(r.value.bytes)
    ensures r.Ok? ==> Extends(r.value.log, log)
    ensures r.Ok? ==> self.value.Some? && self.value.value in reg
    ensures r.Ok? ==> forall i :: 0 <= i < |reg[self.value.value]| ==> Structs.IsConstant(reg, reg[self.value.value][i])
    ensures r.Ok? ==> self.value.value !in visited
                      && r == StoreFields(cfg, reg, t, log, self.value.value, reg[self.value.value], 0,
                                          visited + {self.value.value})
    decreases reg.Keys - visited, 3, 0
  {
    match self.value
    case None => Err(UnknownStruct("null"))
    case Some(name) =>
      if name !in reg then Err(UnknownStruct(name))
      else if name in visited then Err(Diverges)
      else StoreFields(cfg, reg, t, log, name, reg[name], 0, visited + {name})
  }

  /** The fields from `i` on, in order. */
  function StoreFields(cfg: Config, reg: Structs.Registry, t: Table, log: seq<Warning>, name: string,
                       fields: seq<Element>, i: nat, visited: set<string>): (r: Result<Written>)
    requires i <= |fields|
    ensures r.Ok? ==> Preserves(t, r.value.t) && ValidBytes(r.value.bytes)
    ensures r.Ok? ==> Extends(r.value.log, log)
    ensures r.Ok? ==> forall j :: i <= j < |fields| ==> Structs.IsConstant(reg, fields[j])
    ensures (exists j :: i <= j < |fields| && !Structs.IsConstant(reg, fields[j])) ==> r.Err?
    ensures r.Ok? && i == |fields| ==> r.value == Written(t, [], log)
    ensures r.Ok? && i < |fields| ==>
              var head := Store(cfg, reg, t, log, fields[i], fields[i].value.value, fields[i].etype, true, visited);
              head.Ok? && var tail := StoreFields(cfg, reg, head.value.t, head.value.log, name, fields, i + 1, visited);
              tail.Ok? && r.value == Written(tail.value.t, head.value.bytes + tail.value.bytes, tail.value.log)
    decreases reg.Keys - visited, 5, |fields| - i
  {
    if i == |fields| then Ok(Written(t, [], log))
    else
      var field := fields[i];
      if !Structs.IsConstant(reg, field) then Err(StructNotConstant(name))
      else
        var w :- Store(cfg, reg, t, log, field, field.value.value, field.etype, true, visited);
        var rest :- StoreFields(cfg, reg, w.t, w.log, name, fields, i + 1, visited);
        Chain(t, log, w, rest);
        Ok(Written(rest.t, w.bytes + rest.bytes, rest.log))
  }

  // ---------------------------------------------------------------------------
  // Literals

  /** A number literal resolves to itself: no strategy applies to text made
      of digits alone. */
  lemma PlainNumber(t: Table, ty: ElemType, v: string)
    requires IsIntegral(ty) && IsIntegerNumber(v)
    ensures Resolver.Strategies(t, None, ty, v) == Ok(Resolver.Done(t, Some(v)))
  {
    assert '?' !in v by {
      forall i | 0 <= i < |v| ensures v[i] != '?' { assert IsIntegerChar(v[i]); }
    }
    assert '|' !in v by {
      forall i | 0 <= i < |v| ensures v[i] != '|' { assert IsIntegerChar(v[i]); }
    }
    assert '+' !in v by {
      forall i | 0 <= i < |v| ensures v[i] != '+' { assert IsIntegerChar(v[i]); }
    }
    assert !Resolver.IsCondition(v);
  }

  /** The operand of a literal whose resolution leaves it as it is. */
  lemma LiteralOperand(t: Table, d: string, ty: ElemType)
    requires d !in t && Resolver.Strategies(t, None, ty, d) == Ok(Resolver.Done(t, Some(d)))
    ensures Operand(t, d, ty) == Ok((t, Element(ANONYMOUS, ty, 0, Some(d), true)))
  {
  }

  /** A non-negative int literal that names no constant is written as an
      int holding its value, without a warning. */
  lemma StoreIntLiteral(cfg: Config, t: Table, log: seq<Warning>, v: nat, strict: bool)
    requires v <= INT_MAX && NatToString(v) !in t
    ensures Trim(NatToString(v)) == NatToString(v)
    ensures StoreNumber(cfg, t, log, NatToString(v), Int, strict) == Ok(Written(t, WriteWord(cfg, v, 4), log))
  {
    var d := NatToString(v);
    DigitsTrimmed(d);
    PlainNumber(t, Int, d);
    LiteralOperand(t, d, Int);
    LongToStringRoundTrip(v);
    assert DecodeLong(d) == Some(v);
    assert !OutOfRange(cfg, Int, v);
    assert IntegralBytes(cfg, log, v, d, Int, 4) == Ok((WriteWord(cfg, v, 4), log));
  }

  /** Decimal digits are an integer number and are their own trim. */
  lemma DigitsTrimmed(d: string)
    requires |d| > 0 && forall i :: 0 <= i < |d| ==> '0' <= d[i] <= '9'
    ensures Trim(d) == d && IsIntegerNumber(d)
  {
    TrimOfTrimmed(d);
  }

  /** ... so reading the four bytes back gives the literal's value. */
  lemma IntLiteralRoundTrip(cfg: Config, t: Table, log: seq<Warning>, v: nat, strict: bool)
    requires v <= INT_MAX && NatToString(v) !in t
    ensures var r := StoreNumber(cfg, t, log, NatToString(v), Int, strict);
            && r.Ok? && |r.value.bytes| == 4
            && (if cfg.littleEndian then DecodeLE(r.value.bytes) else DecodeBE(r.value.bytes)) == v
  {
    StoreIntLiteral(cfg, t, log, v, strict);
    Pow256Facts();
    WordRoundTrip(cfg, v, 4);
  }

  /** A word that fits reads back as written. */
  lemma WordRoundTrip(cfg: Config, v: nat, n: nat)
    requires v < Pow256(n)
    ensures (if cfg.littleEndian then DecodeLE(WriteWord(cfg, v, n)) else DecodeBE(WriteWord(cfg, v, n))) == v
  {
    ModUnique(v, Pow256(n), 0, v);
  }

  /** A quoted literal without escapes, `+`, `?` or inner quotes that names
      no constant is written by `writeUTF` as the text between its quotes. */
  lemma StoreQuotedLiteral(cfg: Config, t: Table, log: seq<Warning>, self: Element, s: string)
    requires self.arrayLen == 0
    requires '"' !in s && '\\' !in s && '?' !in s && '+' !in s
    requires "\"" + s + "\"" !in t
    ensures var q := "\"" + s + "\"";
            && Trim(q) == q
            && StoreString(cfg, t, log, self, q) == (var b :- WriteUtf(s); Ok(Written(t, b, log)))
  {
    var q := "\"" + s + "\"";
    QuotedText(s, q);
    PlainQuoted(t, q);
    LiteralOperand(t, q, Str);
    assert Resolver.StripQuotes(q) == Ok(s);
    UnicodeEscapes.NoBackslashUnchanged(s);
  }

  lemma QuotedText(s: string, q: string)
    requires '?' !in s && '+' !in s && q == "\"" + s + "\""
    ensures Trim(q) == q && Resolver.IsQuoted(q) && q[1..|q| - 1] == s
    ensures '?' !in q && '+' !in q
  {
    TrimOfTrimmed(q);
    forall i | 0 <= i < |q| ensures q[i] != '?' && q[i] != '+' {
      if 0 < i < |q| - 1 { assert q[i] == s[i - 1]; }
    }
  }

  /** A quoted string with neither `?` nor `+` resolves to itself. */
  lemma PlainQuoted(t: Table, q: string)
    requires Resolver.IsQuoted(q) && '?' !in q && '+' !in q
    ensures Resolver.Strategies(t, None, Str, q) == Ok(Resolver.Done(t, Some(q)))
  {
    assert !Resolver.IsCondition(q);
  }

  // ---------------------------------------------------------------------------
  // Findings

  /** As written, a token naming a constant of a non-integral type (here a
      float holding `5`) counts as one slot of a byte array but writes no
      byte at all. */
  lemma NonIntegralSlotAsWritten(t: Table)
    requires t == map["F" := Element("F", Float, 0, Some("5"), true)]
    ensures ElementCount("F", Byte, t) == 1
    ensures SlotWidthAsWritten(Byte, SlotType("F", Byte, t), false) == 0
    ensures SlotWidth(Byte, SlotType("F", Byte, t), false) == 1
  {
    TrimOfTrimmed("F");
  }

  /** As written, an int array counts each token once, so a token naming a
      long constant counts one slot but writes eight bytes, two int slots. */
  lemma IntArrayCountAsWritten(t: Table)
    requires t == map["L" := Element("L", Long, 0, Some("5"), true)]
    ensures ArrayCountAsWritten(["L"], Int, t) == 1
    ensures SlotWidth(Int, SlotType("L", Int, t), false) == 8
    ensures ArrayCount(["L"], Int, t) == 2
  {
    TrimOfTrimmed("L");
    assert ElementCount(["L"][0], Int, t) == 2;
  }

  /** For byte and short arrays the count as written is the slot count. */
  lemma CountsAgree(tokens: seq<string>, elem: ElemType, t: Table)
    requires elem == Byte || elem == Short
    ensures ArrayCountAsWritten(tokens, elem, t) == ArrayCount(tokens, elem, t)
  {
  }
}
