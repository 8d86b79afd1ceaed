/** Lazy expression resolution of constant values (the `resolveExpression*`
    family of DataElement.java) and `guessType`.

    An element is resolved at most once: its checked flag is set before any
    strategy runs, and a nested lookup resolves a constant only while that
    constant is unchecked. The table is a value here: resolving a constant
    replaces its entry, which is how the original mutates the one object the
    `constants` map holds under that name. The element being resolved
    (`self`) writes its value through to its own entry whenever the
    original assigns `value`, so lookups of its own name see what the
    original would see. */
module Resolver {
  import opened Base
  import opened Text
  import opened Numbers
  import opened Elements
  import QuotedSplit

  /** A lookup: the table after any resolution it caused, and the element. */
  datatype Fetched = Fetched(t: Table, de: Option<Element>)

  /** What a strategy did: not applicable, or the new table and value. */
  datatype Outcome = NotApplicable | Done(t: Table, value: Option<string>)

  /** `self` (when it is a table entry) is checked, of type `ty`, holding `v`. */
  ghost predicate SelfHolds(t: Table, self: Option<string>, ty: ElemType, v: Option<string>) {
    self.Some? ==> self.value in t && t[self.value].checked && t[self.value].etype == ty
                   && t[self.value].value == v
  }

  /** A finished strategy left a table evolved from `t` in which `self` holds
      the value it reports. */
  ghost predicate Finished(t: Table, self: Option<string>, ty: ElemType, r: Outcome) {
    r.Done? ==> Evolves(t, r.t, self) && SelfHolds(r.t, self, ty, r.value)
  }

  /** The table as the strategies of `self` see it once they are over: the
      constants they fetched resolved, and `self` still holding its own
      expression. */
  ghost function Seen(t: Table, t': Table, self: Option<string>): Table
    requires self.Some? ==> self.value in t
  {
    if self.Some? && self.value in t' then t'[self.value := t[self.value]] else t'
  }

  /** Resolution that only assigns `self` afterwards is seen as it was. */
  lemma SeenAfterSetSelf(t: Table, t1: Table, self: Option<string>, ty: ElemType, v: Option<string>)
    requires Preserves(t, t1)
    requires self.Some? ==> self.value in t && t[self.value].checked && t[self.value].etype == ty
    ensures self.Some? ==> self.value in t1 && t1[self.value].checked && t1[self.value].etype == ty
    ensures Seen(t, SetSelf(t1, self, ty, v), self) == t1
  {
    if self.Some? {
      var k := self.value;
      assert t1[k] == t[k];
      var seen := Seen(t, SetSelf(t1, self, ty, v), self);
      assert seen.Keys == t1.Keys;
      assert forall j :: j in seen ==> seen[j] == t1[j];
    }
  }

  /** Assign the value of `self`. */
  function SetSelf(t: Table, self: Option<string>, ty: ElemType, v: Option<string>): (t': Table)
    requires self.Some? ==> self.value in t && t[self.value].checked && t[self.value].etype == ty
    ensures Evolves(t, t', self) && SelfHolds(t', self, ty, v)
    ensures self.None? ==> t' == t
    ensures t'.Keys == t.Keys && forall k :: k in t && Some(k) != self ==> t'[k] == t[k]
  {
    if self.Some? then t[self.value := t[self.value].(value := v)] else t
  }

  /** `constants.get(name)`, resolving the constant first when it is still
      unchecked. */
  function Fetch(t: Table, name: string): (r: Result<Fetched>)
    ensures r.Ok? ==> Preserves(t, r.value.t)
    ensures r.Ok? ==> (r.value.de.Some? <==> name in t)
    ensures r.Ok? && r.value.de.Some? ==> r.value.de.value == r.value.t[name] && r.value.de.value.checked
    ensures name !in t ==> r == Ok(Fetched(t, None))
    ensures name in t && t[name].checked ==> r == Ok(Fetched(t, Some(t[name])))
    decreases Unchecked(t), 1, 0
  {
    if name !in t then Ok(Fetched(t, None))
    else if t[name].checked then Ok(Fetched(t, Some(t[name])))
    else
      var t' :- ResolveEntry(t, name);
      Ok(Fetched(t', Some(t'[name])))
  }

  /** `resolveExpressions` on the constant stored under `k`: mark it checked,
      then try the strategies in order. */
  function ResolveEntry(t: Table, k: string): (r: Result<Table>)
    requires k in t && !t[k].checked
    ensures r.Ok? ==> Preserves(t, r.value) && r.value[k].checked
    decreases Unchecked(t), 0, 0
  {
    var t1 := t[k := t[k].(checked := true)];
    assert Unchecked(t1) < Unchecked(t) by {
      assert k in Unchecked(t) && k !in Unchecked(t1);
    }
    match t[k].value
    case None => Err(NullValue)
    case Some(v) =>
      var o :- Strategies(t1, Some(k), t[k].etype, v);
      EvolvesTrans(t, t1, o.t, Some(k));
      Ok(o.t)
  }

  /** `resolveExpressions` on an element outside the table (the anonymous
      element `store` makes for a literal). */
  function ResolveAnonymous(t: Table, ty: ElemType, value: Option<string>): (r: Result<Outcome>)
    ensures r.Ok? ==> r.value.Done? && Preserves(t, r.value.t)
  {
    match value
    case None => Err(NullValue)
    case Some(v) => Strategies(t, None, ty, v)
  }

  /** The strategies in their fixed order: condition, bitwise or,
      concatenation, variable; the first that applies decides. */
  function Strategies(t: Table, self: Option<string>, ty: ElemType, v: string): (r: Result<Outcome>)
    requires SelfHolds(t, self, ty, Some(v))
    ensures r.Ok? ==> r.value.Done? && Finished(t, self, ty, r.value)
    decreases Unchecked(t), 4, 0
  {
    var c :- Condition(t, self, ty, v);
    if c.Done? then Ok(c)
    else
      var o :- BinaryOr(t, self, ty, v);
      if o.Done? then Ok(o)
      else
        var a :- Addition(t, self, ty, v);
        if a.Done? then Ok(a)
        else
          var w :- Variable(t, self, ty, v);
          if w.Done? then Ok(w) else Ok(Done(t, Some(v)))
  }

  /** The truth of a condition constant: a non-zero number, a non-empty
      string; other types cannot be conditions. */
  function Truth(d: Element): (r: Result<bool>)
    ensures d.etype == Str ==> r == Ok(d.value.Some? && |d.value.value| > 0)
    ensures IsIntegral(d.etype) && d.value.None? ==> r == Err(NullValue)
    ensures IsIntegral(d.etype) && d.value.Some? ==>
              var decoded := if d.etype == Long then DecodeLong(d.value.value) else DecodeInt(d.value.value);
              (r.Ok? <==> decoded.Some?) && (r.Ok? ==> (r.value <==> decoded.value != 0))
    ensures !(IsIntegral(d.etype) || d.etype in {Str, Float, Double}) ==> r == Err(ExpressionType)
  {
    match d.etype
    case Byte | Short | Int =>
      if d.value.None? then Err(NullValue)
      else if DecodeInt(d.value.value).None? then Err(NumberFormat(d.value.value))
      else Ok(DecodeInt(d.value.value).value != 0)
    case Long =>
      if d.value.None? then Err(NullValue)
      else if DecodeLong(d.value.value).None? then Err(NumberFormat(d.value.value))
      else Ok(DecodeLong(d.value.value).value != 0)
    case Float | Double => Err(Unsupported("floating-point condition"))
    case Str => Ok(d.value.Some? && |d.value.value| > 0)
    case _ => Err(ExpressionType)
  }

  /** `cond ? a : b`: there is a `:` after a `?` that is not first. A name that
      is not a constant is false. The chosen branch is then looked up and, if
      it names a constant, replaced by that constant's value. */
  function Condition(t: Table, self: Option<string>, ty: ElemType, v: string): (r: Result<Outcome>)
    requires SelfHolds(t, self, ty, Some(v))
    ensures r.Ok? ==> Finished(t, self, ty, r.value)
    ensures (r.Ok? && r.value.NotApplicable?) <==> !IsCondition(v)
    ensures IsCondition(v) && r.Ok? ==>
              var (name, yes, no) := ConditionParts(v);
              var seen := Seen(t, r.value.t, self);
              (name in t ==> Truth(seen[name]).Ok?)
              && var chosen := if name in t && Truth(seen[name]) == Ok(true) then yes else no;
                 r.value.value == if chosen in t then r.value.t[chosen].value else Some(chosen)
    decreases Unchecked(t), 2, 0
  {
    if !IsCondition(v) then Ok(NotApplicable)
    else
      var (name, yes, no) := ConditionParts(v);
      var f :- Fetch(t, name);
      var cond :- if f.de.Some? then Truth(f.de.value) else Ok(false);
      var chosen := if cond then yes else no;
      var t2 := SetSelf(f.t, self, ty, Some(chosen));
      EvolvesTrans(t, f.t, t2, self);
      var o :- Lookup(t2, self, ty, chosen);
      EvolvesTrans(t, t2, o.t, self);
      ConditionSeen(t, f.t, t2, o.t, self, name);
      Ok(o)
  }

  /** The condition constant fetched before the branch is looked up is the
      one the strategy sees at the end. */
  lemma ConditionSeen(t: Table, t1: Table, t2: Table, t3: Table, self: Option<string>, name: string)
    requires self.Some? ==> self.value in t && t[self.value].checked
    requires Preserves(t, t1) && Evolves(t1, t2, self) && Evolves(t2, t3, self)
    requires t2.Keys == t1.Keys && forall k :: k in t1 && Some(k) != self ==> t2[k] == t1[k]
    requires name in t ==> name in t1 && t1[name].checked
    requires name in t && Some(name) == self ==> t1[name] == t[name]
    ensures name in t ==> Seen(t, t3, self)[name] == t1[name]
  {
  }

  /** The chosen branch of a condition: the value of the constant it names,
      or the branch text itself. */
  function Lookup(t: Table, self: Option<string>, ty: ElemType, name: string): (r: Result<Outcome>)
    requires self.Some? ==> self.value in t && t[self.value].checked && t[self.value].etype == ty
    ensures r.Ok? ==> r.value.Done? && Finished(t, self, ty, r.value)
    ensures name !in t ==> r == Ok(Done(SetSelf(t, self, ty, Some(name)), Some(name)))
    ensures name in t && t[name].checked ==> r.Ok? && r.value.Done? && r.value.value == t[name].value
    ensures r.Ok? ==> r.value.value == if name in t then r.value.t[name].value else Some(name)
    decreases Unchecked(t), 1, 1
  {
    var g :- Fetch(t, name);
    if g.de.Some? then Substitute(t, self, ty, g)
    else
      var t3 := SetSelf(g.t, self, ty, Some(name));
      EvolvesTrans(t, g.t, t3, self);
      Ok(Done(t3, Some(name)))
  }

  /** The trimmed condition name and the two branches of `cond ? yes : no`,
      cut at the first `?` and the first `:`. */
  function ConditionParts(v: string): (r: (string, string, string))
    requires IsCondition(v)
  {
    var quest := IndexOfChar(v, '?');
    var colon := IndexOfChar(v, ':');
    (Trim(v[..quest]), Trim(v[quest + 1..colon]), Trim(v[colon + 1..]))
  }

  predicate IsCondition(v: string) {
    var quest := IndexOfChar(v, '?');
    var colon := IndexOfChar(v, ':');
    colon >= 0 && quest > 0 && colon > quest
  }

  /** `A|B|C` for an integral element without spaces: the bitwise or of the
      operands that name constants, as decimal text. */
  function BinaryOr(t: Table, self: Option<string>, ty: ElemType, v: string): (r: Result<Outcome>)
    requires SelfHolds(t, self, ty, Some(v))
    ensures r.Ok? ==> Finished(t, self, ty, r.value)
    ensures !(IsIntegral(ty) && ' ' !in v && '|' in v) <==> r == Ok(NotApplicable)
    ensures r.Ok? && r.value.Done? ==>
              r.value.value.Some? && DecodeLong(r.value.value.value).Some?
    ensures r.Ok? && r.value.Done? ==>
              var n := OrOf(Seen(t, r.value.t, self), SplitAtChar(v, '|'), 0, 0);
              n.Some? && r.value.value == Some(IntToString(n.value))
    decreases Unchecked(t), 3, 0
  {
    if !(IsIntegral(ty) && ' ' !in v && '|' in v) then Ok(NotApplicable)
    else
      var bits := SplitAtChar(v, '|');
      var (t1, n) :- OrFold(t, bits, 0, 0);
      var text := IntToString(n);
      LongToStringRoundTrip(n);
      var t2 := SetSelf(t1, self, ty, Some(text));
      EvolvesTrans(t, t1, t2, self);
      SeenAfterSetSelf(t, t1, self, ty, Some(text));
      Ok(Done(t2, Some(text)))
  }

  /** The or of the operands from `i` on into `acc` over a table whose
      constants are resolved: names that are not constants are skipped; a
      constant without a value or that does not decode spoils the or. */
  function OrOf(t: Table, bits: seq<string>, i: nat, acc: int): Option<int>
    requires i <= |bits| && InLong(acc)
    decreases |bits| - i
  {
    if i == |bits| then Some(acc)
    else if bits[i] !in t then OrOf(t, bits, i + 1, acc)
    else match t[bits[i]].value
      case None => None
      case Some(x) =>
        match DecodeLong(x)
        case None => None
        case Some(n) => OrOf(t, bits, i + 1, LongOr(acc, n))
  }

  /** The or of the operands from `i` on into `acc`; an operand that is not a
      constant is skipped, a constant that does not decode is an error. */
  function OrFold(t: Table, bits: seq<string>, i: nat, acc: int): (r: Result<(Table, int)>)
    requires i <= |bits| && InLong(acc)
    ensures r.Ok? ==> Preserves(t, r.value.0) && InLong(r.value.1)
    ensures (forall j :: i <= j < |bits| ==> bits[j] !in t) ==> r == Ok((t, acc))
    ensures i < |bits| && bits[i] !in t ==> r == OrFold(t, bits, i + 1, acc)
    ensures r.Ok? ==> OrOf(r.value.0, bits, i, acc) == Some(r.value.1)
    decreases Unchecked(t), 2, |bits| - i
  {
    if i == |bits| then Ok((t, acc))
    else
      var f :- Fetch(t, bits[i]);
      if f.de.None? then OrFold(f.t, bits, i + 1, acc)
      else if f.de.value.value.None? then Err(NullValue)
      else
        match DecodeLong(f.de.value.value.value)
        case None => Err(NumberFormat(f.de.value.value.value))
        case Some(n) =>
          var r :- OrFold(f.t, bits, i + 1, LongOr(acc, n));
          EvolvesTrans(t, f.t, r.0, None);
          Ok(r)
  }

  /** `String.split` at a literal char: the pieces between the separators,
      without the trailing empty ones. */
  function SplitAtChar(s: string, c: char): (r: seq<string>)
    ensures forall k :: 0 <= k < |r| ==> c !in r[k]
    ensures |r| > 0 ==> |r[|r| - 1]| > 0
  {
    DropTrailingEmpty(Pieces(s, c))
  }

  /** The pieces of `s` between occurrences of `c` (one more than there are `c`). */
  function Pieces(s: string, c: char): (r: seq<string>)
    ensures |r| > 0
    ensures forall k :: 0 <= k < |r| ==> c !in r[k]
    decreases |s|
  {
    var i := IndexOfChar(s, c);
    if i < 0 then [s] else [s[..i]] + Pieces(s[i + 1..], c)
  }

  function DropTrailingEmpty(r: seq<string>): (d: seq<string>)
    ensures |d| <= |r| && d == r[..|d|]
    ensures |d| > 0 ==> |d[|d| - 1]| > 0
    ensures forall k :: |d| <= k < |r| ==> r[k] == ""
  {
    if |r| == 0 then r
    else if r[|r| - 1] == "" then DropTrailingEmpty(r[..|r| - 1])
    else r
  }

  /** `a + "text" + b`: the first `+` is at UTF-16 index 2 or later and the quote-
      aware split at spaced `+` gives two parts or more. Quoted parts lose
      their quotes, other parts must name constants. */
  function Addition(t: Table, self: Option<string>, ty: ElemType, v: string): (r: Result<Outcome>)
    requires SelfHolds(t, self, ty, Some(v))
    ensures r.Ok? ==> Finished(t, self, ty, r.value)
    ensures Utf16IndexOfChar(v, '+') < 2 ==> r == Ok(NotApplicable)
    ensures r.Ok? && r.value.Done? ==>
              forall p :: p in QuotedSplit.Split(v, '+', true) ==> IsQuoted(p) || p in t
    ensures r.Ok? ==> (r.value.Done? <==> Utf16IndexOfChar(v, '+') >= 2 && |QuotedSplit.Split(v, '+', true)| >= 2)
    ensures r.Ok? && r.value.Done? ==>
              var text := Concat(Seen(t, r.value.t, self), QuotedSplit.Split(v, '+', true), 0);
              text.Ok? && r.value.value == Some(text.value)
    decreases Unchecked(t), 3, 0
  {
    if Utf16IndexOfChar(v, '+') < 2 then Ok(NotApplicable)
    else
      var parts := QuotedSplit.Split(v, '+', true);
      if |parts| < 2 then Ok(NotApplicable)
      else
        var (t1, text) :- AddFold(t, parts, 0, "");
        var t2 := SetSelf(t1, self, ty, Some(text));
        EvolvesTrans(t, t1, t2, self);
        SeenAfterSetSelf(t, t1, self, ty, Some(text));
        assert "" + Concat(t1, parts, 0).value == Concat(t1, parts, 0).value;
        Ok(Done(t2, Some(text)))
  }

  predicate IsQuoted(p: string) {
    StartsWith(p, "\"") && EndsWith(p, "\"")
  }

  /** The text between the quotes of a quoted string; a lone `"` counts as
      quoted and has no inside. */
  function StripQuotes(p: string): (r: Result<string>)
    ensures !IsQuoted(p) ==> r == Ok(p)
    ensures IsQuoted(p) && |p| >= 2 ==> r == Ok(p[1..|p| - 1])
    ensures r.Err? <==> p == "\""
  {
    if !IsQuoted(p) then Ok(p)
    else if |p| < 2 then Err(IndexOutOfBounds)
    else Ok(p[1..|p| - 1])
  }

  /** The concatenation of the parts from `i` on, appended to `acc`. */
  function AddFold(t: Table, parts: seq<string>, i: nat, acc: string): (r: Result<(Table, string)>)
    requires i <= |parts|
    ensures r.Ok? ==> Preserves(t, r.value.0)
    ensures r.Ok? ==> forall j :: i <= j < |parts| ==> IsQuoted(parts[j]) || parts[j] in t
    ensures r.Ok? ==> var rest := Concat(r.value.0, parts, i);
                      rest.Ok? && r.value.1 == acc + rest.value
    decreases Unchecked(t), 2, |parts| - i + 1
  {
    if i == |parts| then
      assert acc + "" == acc;
      Ok((t, acc))
    else
      var (t1, text) :- PartText(t, parts[i]);
      var r :- AddFold(t1, parts, i + 1, acc + text);
      EvolvesTrans(t, t1, r.0, None);
      ConcatStep(t1, r.0, parts, i, acc, text);
      Ok(r)
  }

  /** The text a part stands for in a table whose constants are resolved: a
      quoted part without its quotes, a constant's value without quotes. */
  function PartValue(t: Table, part: string): Result<string> {
    if IsQuoted(part) then StripQuotes(part)
    else if part !in t then Err(ElementNotFound(part))
    else if t[part].value.None? then Err(NullValue)
    else StripQuotes(t[part].value.value)
  }

  /** The concatenation of the texts of the parts from `i` on. */
  function Concat(t: Table, parts: seq<string>, i: nat): Result<string>
    requires i <= |parts|
    decreases |parts| - i
  {
    if i == |parts| then Ok("")
    else
      var head :- PartValue(t, parts[i]);
      var tail :- Concat(t, parts, i + 1);
      Ok(head + tail)
  }

  /** A part resolved before the later ones keeps its text while they are
      resolved, so it heads the concatenation over the final table. */
  lemma ConcatStep(t: Table, t': Table, parts: seq<string>, i: nat, acc: string, text: string)
    requires i < |parts| && Preserves(t, t')
    requires PartValue(t, parts[i]) == Ok(text)
    requires !IsQuoted(parts[i]) ==> parts[i] in t && t[parts[i]].checked
    requires Concat(t', parts, i + 1).Ok?
    ensures Concat(t', parts, i).Ok?
    ensures acc + text + Concat(t', parts, i + 1).value == acc + Concat(t', parts, i).value
  {
    assert PartValue(t', parts[i]) == PartValue(t, parts[i]);
    var rest := Concat(t', parts, i + 1).value;
    assert acc + text + rest == acc + (text + rest);
  }

  /** The text one part contributes: a quoted part without its quotes, a
      name the value of that constant without quotes. */
  function PartText(t: Table, part: string): (r: Result<(Table, string)>)
    ensures r.Ok? ==> Preserves(t, r.value.0) && Unchecked(r.value.0) <= Unchecked(t)
    ensures r.Ok? ==> IsQuoted(part) || part in t
    ensures IsQuoted(part) ==> r == (var q :- StripQuotes(part); Ok((t, q)))
    ensures !IsQuoted(part) && part !in t ==> r == Err(ElementNotFound(part))
    ensures r.Ok? ==> PartValue(r.value.0, part) == Ok(r.value.1)
    ensures r.Ok? && !IsQuoted(part) ==> part in r.value.0 && r.value.0[part].checked
    decreases Unchecked(t), 2, 0
  {
    if IsQuoted(part) then
      var text :- StripQuotes(part);
      Ok((t, text))
    else
      var f :- Fetch(t, part);
      if f.de.None? then Err(ElementNotFound(part))
      else if f.de.value.value.None? then Err(NullValue)
      else
        var text :- StripQuotes(f.de.value.value.value);
        EvolvesTrans(t, f.t, f.t, None);
        Ok((f.t, text))
  }

  /** A plain value: a quoted string or a number stays; otherwise a constant
      of that name gives its value. A string must name one; a number that
      names none is left for the number parser to refuse. */
  function Variable(t: Table, self: Option<string>, ty: ElemType, v: string): (r: Result<Outcome>)
    requires SelfHolds(t, self, ty, Some(v))
    ensures r.Ok? ==> Finished(t, self, ty, r.value)
    ensures !(IsIntegral(ty) || ty in {Str, Float, Double}) ==> r == Ok(NotApplicable)
    ensures ty == Str && !IsQuoted(v) && v !in t ==> r == Err(ElementNotFound(v))
    ensures ty == Str && IsQuoted(v) ==> r == Ok(Done(t, Some(v)))
    ensures IsIntegral(ty) && IsIntegerNumber(v) ==> r == Ok(Done(t, Some(v)))
    ensures ty in {Float, Double} && IsDecimalNumber(v) ==> r == Ok(Done(t, Some(v)))
    // an integral or float non-number naming no constant stays as it is
    ensures (IsIntegral(ty) || ty in {Float, Double}) && NamesConstant(ty, v) && v !in t ==> r == Ok(Done(t, Some(v)))
    // otherwise a name in the table takes that constant's value
    ensures NamesConstant(ty, v) && v in t ==> r == Replace(t, self, ty, v)
    decreases Unchecked(t), 2, 1
  {
    if ty == Str then
      if IsQuoted(v) then Ok(Done(t, Some(v)))
      else if v !in t then Err(ElementNotFound(v))
      else Replace(t, self, ty, v)
    else if IsIntegral(ty) || ty == Float || ty == Double then
      if (IsIntegral(ty) && IsIntegerNumber(v)) || (!IsIntegral(ty) && IsDecimalNumber(v)) then
        Ok(Done(t, Some(v)))
      else if v !in t then Ok(Done(t, Some(v)))
      else Replace(t, self, ty, v)
    else Ok(NotApplicable)
  }

  /** Plain constant substitution: the constant named `v` is looked up,
      resolved first when it is unchecked, and its value replaces `v`. */
  function Replace(t: Table, self: Option<string>, ty: ElemType, v: string): (r: Result<Outcome>)
    requires SelfHolds(t, self, ty, Some(v)) && v in t
    ensures r.Ok? ==> Finished(t, self, ty, r.value)
    ensures r.Ok? <==> Fetch(t, v).Ok?
    ensures r.Ok? ==> r.value.Done? && r.value.value == Fetch(t, v).value.de.value.value
    ensures r.Ok? ==> r.value.Done? && r.value.value == Seen(t, r.value.t, self)[v].value
    ensures t[v].checked ==> r == Ok(Done(SetSelf(t, self, ty, t[v].value), t[v].value))
    decreases Unchecked(t), 2, 0
  {
    var f :- Fetch(t, v);
    var o := Substitute(t, self, ty, f);
    assert Some(v) != self ==> o.value.t[v] == f.t[v];
    o
  }

  /** The value is read as a constant's name by `resolveExpressionVariable`:
      a string that is not quoted, an integral value that is not integer
      text, a float value that is not decimal text. */
  predicate NamesConstant(ty: ElemType, v: string) {
    (ty == Str && !IsQuoted(v))
    || (IsIntegral(ty) && !IsIntegerNumber(v))
    || (ty in {Float, Double} && !IsDecimalNumber(v))
  }

  /** Take the value of a constant that was found. */
  function Substitute(t: Table, self: Option<string>, ty: ElemType, f: Fetched): (r: Result<Outcome>)
    requires Preserves(t, f.t) && f.de.Some?
    requires self.Some? ==> self.value in t && t[self.value].checked && t[self.value].etype == ty
    ensures r.Ok? && r.value.Done? && Finished(t, self, ty, r.value) && r.value.value == f.de.value.value
    ensures r.value.t.Keys == f.t.Keys && forall k :: k in f.t && Some(k) != self ==> r.value.t[k] == f.t[k]
  {
    var t2 := SetSelf(f.t, self, ty, f.de.value.value);
    EvolvesTrans(t, f.t, t2, self);
    Ok(Done(t2, f.de.value.value))
  }

  /** `guessType`: no value is Aux; digits with one point are a float; an
      integer-looking value gets the smallest integral type holding it (and
      must decode); a constant's name gives its type; anything else is a
      string. */
  function GuessType(t: Table, val: Option<string>): (r: Result<(Table, ElemType)>)
    ensures r.Ok? ==> Preserves(t, r.value.0)
    ensures val.None? ==> r == Ok((t, Aux))
    ensures val.Some? && IsDecimalNumber(val.value) && val.value != "." ==> r == Ok((t, Float))
    ensures val.Some? && IsIntegerNumber(val.value) ==>
              match DecodeLong(val.value)
              case None => r == Err(NumberFormat(val.value))
              case Some(n) => r == Ok((t, NumberType(n)))
    ensures val.Some? && !IsDecimalNumber(val.value) && !IsIntegerNumber(val.value) && val.value !in t
            ==> r == Ok((t, Str))
    ensures (val.Some? && !(IsDecimalNumber(val.value) && val.value != ".") && !IsIntegerNumber(val.value)
             && val.value in t) ==> (r.Ok? ==> r.value.1 == t[val.value].etype)
    ensures (val.Some? && !(IsDecimalNumber(val.value) && val.value != ".") && !IsIntegerNumber(val.value)
             && val.value in t && t[val.value].checked) ==> r == Ok((t, t[val.value].etype))
  {
    match val
    case None => Ok((t, Aux))
    case Some(v) =>
      DecimalIsNotInteger(v);
      if IsDecimalNumber(v) && v != "." then Ok((t, Float))
      else if IsIntegerNumber(v) then
        match DecodeLong(v)
        case None => Err(NumberFormat(v))
        case Some(n) => Ok((t, NumberType(n)))
      else
        var f :- Fetch(t, v);
        if f.de.Some? then Ok((f.t, f.de.value.etype)) else Ok((f.t, Str))
  }

  /** The conditional is tried first: whenever the value has the `?:` shape,
      it alone decides. */
  lemma ConditionFirst(t: Table, self: Option<string>, ty: ElemType, v: string)
    requires SelfHolds(t, self, ty, Some(v)) && IsCondition(v)
    ensures Strategies(t, self, ty, v) == Condition(t, self, ty, v)
  {
  }

  /** The or comes before concatenation: an integral value without spaces
      holding a `|` and no conditional is an or-expression even if it also
      holds a `+`. */
  lemma OrBeforeAddition(t: Table, self: Option<string>, ty: ElemType, v: string)
    requires SelfHolds(t, self, ty, Some(v)) && !IsCondition(v)
    requires IsIntegral(ty) && ' ' !in v && '|' in v
    ensures Strategies(t, self, ty, v) == BinaryOr(t, self, ty, v)
  {
  }

  /** Concatenation comes before variable substitution: a value that is no
      condition and no or-expression but has a `+` from UTF-16 index 2 on and splits
      into two parts or more is a concatenation. */
  lemma AdditionBeforeVariable(t: Table, self: Option<string>, ty: ElemType, v: string)
    requires SelfHolds(t, self, ty, Some(v)) && !IsCondition(v)
    requires !(IsIntegral(ty) && ' ' !in v && '|' in v)
    requires Utf16IndexOfChar(v, '+') >= 2 && |QuotedSplit.Split(v, '+', true)| >= 2
    ensures Strategies(t, self, ty, v) == Addition(t, self, ty, v)
  {
  }

  /** A condition that names no constant is false: `cond ? a : b` becomes `b`
      when neither `cond` nor `b` is a constant. */
  lemma {:induction false} MissingConditionIsFalse(t: Table, ty: ElemType, v: string)
    requires IsCondition(v)
    requires ConditionParts(v).0 !in t && ConditionParts(v).2 !in t
    ensures Condition(t, None, ty, v) == Ok(Done(t, Some(ConditionParts(v).2)))
  {
    var (name, yes, no) := ConditionParts(v);
    assert Fetch(t, name) == Ok(Fetched(t, None));
    assert SetSelf(t, None, ty, Some(no)) == t;
    assert Fetch(t, no) == Ok(Fetched(t, None));
  }

  /** Operands that are not constants are ignored: with none at all the or is 0. */
  lemma {:induction false} OrOfNoConstants(t: Table, ty: ElemType, v: string)
    requires IsIntegral(ty) && ' ' !in v && '|' in v
    requires forall p :: p in SplitAtChar(v, '|') ==> p !in t
    ensures BinaryOr(t, None, ty, v) == Ok(Done(t, Some("0")))
  {
    var bits := SplitAtChar(v, '|');
    assert forall j :: 0 <= j < |bits| ==> bits[j] !in t by {
      forall j | 0 <= j < |bits| ensures bits[j] !in t {
        assert bits[j] in bits;
      }
    }
    assert OrFold(t, bits, 0, 0) == Ok((t, 0));
    assert IntToString(0) == "0";
  }

  /** A word of hex letters looks like an integer, so `guessType` hands it to
      `Long.decode`, which refuses it. */
  lemma {:induction false} GuessTypeOfWord(t: Table)
    ensures GuessType(t, Some("face")) == Err(NumberFormat("face"))
  {
    var s := "face";
    assert !IsDecimalNumber(s) by {
      assert !('0' <= s[0] <= '9' || s[0] == '.');
    }
    assert IsIntegerNumber(s);
    assert DecodePrefix(s) == (0, 10);
    assert s[0..] == s;
    assert DigitValue('e', 10).None?;
    assert ParseDigits(s, 10).None?;
  }
}
