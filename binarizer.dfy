/** `binarize` of DataCompiler.java: the pass over the preprocessed lines
    that reads the declarations at the outermost level (constants, elements
    and struct definitions) and writes the data blocks to the output, field
    by field, filling the fields a block leaves out with their defaults. */
module Binarizer {
  import opened Base
  import opened Text
  import opened Elements
  import opened LineItems
  import Structs
  import Store
  import Declarations
  import Constants
  import ItemCount

  /** `MAX_STRUCT_LEVEL`: the size of the struct stack. */
  const MaxStructLevel: nat := 256

  /** A struct as the pass holds it: its name and its fields in order. No
      struct object is changed once something else refers to it, so the
      value is all there is to it. */
  datatype Def = Def(name: string, fields: seq<Element>)

  /** The compiler's tables (`constants`, `elements`, `structs`), the
      warnings raised so far and the bytes written to the output. */
  datatype Globals = Globals(constants: Table, elements: Table, structs: Structs.Registry,
                             log: seq<Warning>, out: seq<int>)

  /** The locals of the loop: the nesting level, the current struct
      (`struct`), the field cursor (`structElementIndex`) and the two
      stacks, as sequences of the arrays' length. */
  datatype State = State(level: int, struct: Option<Def>, index: int,
                         stack: seq<Option<Def>>, indices: seq<int>, g: Globals)

  predicate Wf(s: State) {
    && |s.stack| == MaxStructLevel && |s.indices| == MaxStructLevel
    && 0 <= s.level < MaxStructLevel && 0 <= s.index
    && forall j :: 0 <= j < MaxStructLevel ==> s.indices[j] >= 0
  }

  /** The state before the first line. */
  function Start(constants: Table): (s: State)
    ensures Wf(s)
  {
    State(0, None, 0, seq(MaxStructLevel, _ => None), seq(MaxStructLevel, _ => 0),
          Globals(constants, map[], map[], [], []))
  }

  /** `g'` is `g` with bytes appended and warnings appended. */
  predicate Appends(g: Globals, g': Globals) {
    && |g.out| <= |g'.out| && g'.out[..|g.out|] == g.out
    && Store.Extends(g'.log, g.log)
  }

  lemma AppendsTransitive(a: Globals, b: Globals, c: Globals)
    requires Appends(a, b) && Appends(b, c)
    ensures Appends(a, c)
  {
    assert c.out[..|a.out|] == c.out[..|b.out|][..|a.out|];
    assert c.log[..|a.log|] == c.log[..|b.log|][..|a.log|];
  }

  // ---------------------------------------------------------------------------
  // Writing

  /** `element.store(dos, data, constants, path, li)`: the data written as
      the element's own type, with strict types. */
  function Emit(cfg: Config, g: Globals, e: Element, data: string): (r: Result<Globals>)
    ensures r.Ok? ==> Appends(g, r.value) && r.value.elements == g.elements && r.value.structs == g.structs
    ensures r.Ok? && ValidBytes(g.out) ==> ValidBytes(r.value.out)
    ensures Store.Store(cfg, g.structs, g.constants, g.log, e, data, e.etype, true, {}).Err? ==>
              r == Err(Store.Store(cfg, g.structs, g.constants, g.log, e, data, e.etype, true, {}).error)
    ensures r.Ok? ==> var w := Store.Store(cfg, g.structs, g.constants, g.log, e, data, e.etype, true, {}).value;
                      r.value.out == g.out + w.bytes && r.value.constants == w.t && r.value.log == w.log
  {
    var w :- Store.Store(cfg, g.structs, g.constants, g.log, e, data, e.etype, true, {});
    assert (g.out + w.bytes)[..|g.out|] == g.out;
    Ok(g.(constants := w.t, log := w.log, out := g.out + w.bytes))
  }

  /** The loop that moves the cursor of struct `d` from field `k` to the
      field called `name`, writing the default value of every field passed
      over: a field without a default, or no such field further on, fails. */
  function SkipTo(cfg: Config, d: Def, k: int, name: string, g: Globals): (r: Result<(int, Globals)>)
    requires 0 <= k < |d.fields|
    ensures r.Ok? ==> k <= r.value.0 < |d.fields| && d.fields[r.value.0].name == name
    ensures r.Ok? ==> Appends(g, r.value.1) && r.value.1.elements == g.elements && r.value.1.structs == g.structs
    ensures r.Ok? && ValidBytes(g.out) ==> ValidBytes(r.value.1.out)
    ensures d.fields[k].name == name ==> r == Ok((k, g))
    decreases |d.fields| - k
  {
    var e := d.fields[k];
    if e.name == name then Ok((k, g))
    else if !Structs.IsConstant(g.structs, e) then Err(DataMismatch(name, e.name))
    else
      var g' :- Emit(cfg, g, e, e.value.value);
      if k + 1 < |d.fields| then
        var r := SkipTo(cfg, d, k + 1, name, g');
        if r.Ok? then
          AppendsTransitive(g, g', r.value.1);
          r
        else r
      else Err(UnknownStructElement(name))
  }

  /** The cursor stops at the first field called `name`, and every field
      passed over has a default. */
  lemma {:induction false} SkipToFirst(cfg: Config, d: Def, k: int, name: string, g: Globals)
    requires 0 <= k < |d.fields|
    ensures var r := SkipTo(cfg, d, k, name, g);
            r.Ok? ==> forall j :: k <= j < r.value.0 ==> d.fields[j].name != name && Structs.IsConstant(g.structs, d.fields[j])
    decreases |d.fields| - k
  {
    var r := SkipTo(cfg, d, k, name, g);
    var e := d.fields[k];
    if r.Ok? && e.name != name {
      assert Structs.IsConstant(g.structs, e);
      var w := Emit(cfg, g, e, e.value.value);
      assert w.Ok? && k + 1 < |d.fields|;
      var g' := w.value;
      assert g'.structs == g.structs;
      var r' := SkipTo(cfg, d, k + 1, name, g');
      assert r == r';
      SkipToFirst(cfg, d, k + 1, name, g');
      forall j | k <= j < r.value.0
        ensures d.fields[j].name != name && Structs.IsConstant(g.structs, d.fields[j])
      {
        if j > k {
          assert k + 1 <= j < r'.value.0;
        }
      }
    }
  }

  /** A name no field from `k` on has fails. */
  lemma {:induction false} SkipToMissing(cfg: Config, d: Def, k: int, name: string, g: Globals)
    requires 0 <= k < |d.fields|
    requires forall j :: k <= j < |d.fields| ==> d.fields[j].name != name
    ensures SkipTo(cfg, d, k, name, g).Err?
    decreases |d.fields| - k
  {
    var e := d.fields[k];
    assert e.name != name;
    if Structs.IsConstant(g.structs, e) {
      var w := Emit(cfg, g, e, e.value.value);
      if w.Ok? && k + 1 < |d.fields| {
        SkipToMissing(cfg, d, k + 1, name, w.value);
      }
    }
  }

  /** The loop of a block end that writes the default of every field of
      `d` from `k` on: a field without a default fails. */
  function Fill(cfg: Config, d: Def, k: int, g: Globals): (r: Result<Globals>)
    requires 0 <= k
    ensures r.Ok? ==> forall j :: k <= j < |d.fields| ==> Structs.IsConstant(g.structs, d.fields[j])
    ensures (exists j :: k <= j < |d.fields| && !Structs.IsConstant(g.structs, d.fields[j])) ==> r.Err?
    ensures r.Ok? ==> Appends(g, r.value) && r.value.elements == g.elements && r.value.structs == g.structs
    ensures r.Ok? && ValidBytes(g.out) ==> ValidBytes(r.value.out)
    ensures k >= |d.fields| ==> r == Ok(g)
    decreases |d.fields| - k
  {
    if k >= |d.fields| then
      assert g.out[..|g.out|] == g.out && g.log[..|g.log|] == g.log;
      Ok(g)
    else
      var e := d.fields[k];
      if !Structs.IsConstant(g.structs, e) then Err(NoDefaultValue(e.name))
      else
        var g' :- Emit(cfg, g, e, e.value.value);
        var r := Fill(cfg, d, k + 1, g');
        if r.Ok? then
          AppendsTransitive(g, g', r.value);
          r
        else r
  }

  /** The defaults go out in field order: the default of field `k` is
      stored with the field's own type first, and the fields after it
      follow from the tables and warnings it leaves. */
  lemma FillInOrder(cfg: Config, d: Def, k: nat, g: Globals)
    requires k < |d.fields|
    ensures var r := Fill(cfg, d, k, g);
            var e := d.fields[k];
            r.Ok? ==> var w := Store.Store(cfg, g.structs, g.constants, g.log, e, e.value.value, e.etype, true, {});
                      && w.Ok?
                      && r == Fill(cfg, d, k + 1, g.(constants := w.value.t, log := w.value.log, out := g.out + w.value.bytes))
  {
  }

  // ---------------------------------------------------------------------------
  // Declarations at the outermost level

  /** The name of `struct NAME {`: the text between the keyword's separator
      and the first `{`, trimmed, which must not be empty. */
  function StructName(line: string): (r: Result<string>)
    requires StartsWith(line, "struct") && |line| > 6 && IsTab(line[6])
    ensures r.Ok? ==> |r.value| > 0
    ensures '{' !in line ==> r == Err(StructSyntax)
  {
    var idx := IndexOfChar(line, '{');
    if idx < 0 then Err(StructSyntax)
    else
      assert idx >= 7 by {
        assert line[..6] == "struct";
      }
      var name := Trim(line[7..idx]);
      if |name| < 1 then Err(StructSyntax) else Ok(name)
  }

  /** A line at the outermost level that does not open a block: a struct
      header, the end of a struct definition, or a declaration, which goes
      into the struct being defined or else into the constants (when it has
      a value) or the elements. */
  function Declare(cfg: Config, line: string, struct: Option<Def>, g: Globals): (r: Result<(Option<Def>, Globals)>)
    ensures r.Ok? ==> r.value.1.out == g.out && Store.Extends(r.value.1.log, g.log)
  {
    if StartsWith(line, "struct") && |line| == 6 then Err(IndexOutOfBounds)
    else if StartsWith(line, "struct") && IsTab(line[6]) then
      if struct.Some? then Err(StructWithinStruct)
      else
        var name :- StructName(line);
        Ok((Some(Def(name, [])), g))
    else if line == "}" then
      match struct
      case None => Err(StrayBlockEnd)
      case Some(d) =>
        if |d.fields| < 1 then Err(EmptyStruct)
        else Ok((None, g.(structs := g.structs[d.name := d.fields])))
    else
      var (t, de) :- Declarations.ParseElement(line, g.constants);
      var g := g.(constants := t);
      match struct
      case Some(d) =>
        if de.etype == Struct && (de.value.None? || de.value.value !in g.structs) then
          Err(UnknownStruct(if de.value.Some? then de.value.value else "null"))
        else
          var at := Structs.FindField(d.fields, de.name);
          var log :- Constants.CheckElements(cfg, g.log, de.name, if at < 0 then None else Some(d.fields[at]));
          Ok((Some(Def(d.name, if at < 0 then d.fields + [de] else d.fields)), g.(log := log)))
      case None =>
        if de.etype == Struct then Err(StructVariable)
        else if Structs.IsConstant(g.structs, de) then
          var log :- Constants.CheckElements(cfg, g.log, de.name, Constants.Lookup(g.constants, de.name));
          Ok((None, g.(constants := g.constants[de.name := de], log := log)))
        else
          var log :- Constants.CheckElements(cfg, g.log, de.name, Constants.Lookup(g.elements, de.name));
          Ok((None, g.(elements := g.elements[de.name := de], log := log)))
  }

  /** A struct header: with a struct still open it fails; otherwise it
      opens an empty struct of the header's name and changes no table. */
  lemma DeclareHeader(cfg: Config, line: string, struct: Option<Def>, g: Globals)
    requires StartsWith(line, "struct") && |line| > 6 && IsTab(line[6])
    ensures struct.Some? ==> Declare(cfg, line, struct, g) == Err(StructWithinStruct)
    ensures struct.None? && StructName(line).Err? ==> Declare(cfg, line, struct, g) == Err(StructName(line).error)
    ensures struct.None? && StructName(line).Ok? ==> Declare(cfg, line, struct, g) == Ok((Some(Def(StructName(line).value, [])), g))
  {
  }

  /** The end of a struct definition: outside a definition, or after an
      empty one, it fails; otherwise the struct is registered under its
      name and no struct is open any more. */
  lemma DeclareEnd(cfg: Config, struct: Option<Def>, g: Globals)
    ensures struct.None? ==> Declare(cfg, "}", struct, g) == Err(StrayBlockEnd)
    ensures struct.Some? && |struct.value.fields| == 0 ==> Declare(cfg, "}", struct, g) == Err(EmptyStruct)
    ensures struct.Some? && |struct.value.fields| > 0 ==>
              Declare(cfg, "}", struct, g) == Ok((None, g.(structs := g.structs[struct.value.name := struct.value.fields])))
  {
    assert !StartsWith("}", "struct");
  }

  /** A declaration inside a struct definition: a struct-typed field must
      name a registered struct; a new name is appended as the last field,
      a redefined one keeps its first place and definition and raises a
      warning. */
  lemma DeclareField(cfg: Config, line: string, d: Def, g: Globals, t: Table, de: Element)
    requires !(StartsWith(line, "struct") && |line| >= 6 && (|line| == 6 || IsTab(line[6]))) && line != "}"
    requires Declarations.ParseElement(line, g.constants) == Ok((t, de))
    ensures de.etype == Struct && (de.value.None? || de.value.value !in g.structs) ==> Declare(cfg, line, Some(d), g).Err?
    ensures var r := Declare(cfg, line, Some(d), g);
            var at := Structs.FindField(d.fields, de.name);
            r.Ok? ==> && (de.etype == Struct ==> de.value.Some? && de.value.value in g.structs)
                      && r.value.0 == Some(Def(d.name, if at < 0 then d.fields + [de] else d.fields))
                      && r.value.1 == g.(constants := t, log := r.value.1.log)
                      && r.value.1.log == (if at < 0 then g.log else g.log + [Redefined(de.name)])
  {
  }

  /** A declaration outside any struct definition: a struct-typed
      variable fails; an element with a value becomes a constant, one
      without becomes a global element, and a redefinition raises a
      warning. */
  lemma DeclareGlobal(cfg: Config, line: string, g: Globals, t: Table, de: Element)
    requires !(StartsWith(line, "struct") && |line| >= 6 && (|line| == 6 || IsTab(line[6]))) && line != "}"
    requires Declarations.ParseElement(line, g.constants) == Ok((t, de))
    ensures de.etype == Struct ==> Declare(cfg, line, None, g) == Err(StructVariable)
    ensures var r := Declare(cfg, line, None, g);
            r.Ok? ==> && de.etype != Struct && r.value.0.None?
                      && r.value.1.structs == g.structs && r.value.1.out == g.out
                      && (de.value.Some? ==> r.value.1.constants == t[de.name := de] && r.value.1.elements == g.elements
                                             && r.value.1.log == (if de.name in t then g.log + [Redefined(de.name)] else g.log))
                      && (de.value.None? ==> r.value.1.constants == t && r.value.1.elements == g.elements[de.name := de]
                                             && r.value.1.log == (if de.name in g.elements then g.log + [Redefined(de.name)] else g.log))
  {
  }

  // ---------------------------------------------------------------------------
  // Data blocks

  /** The struct a `{NAME` block is written as, with the parent's cursor
      slot and the tables after the skipped fields were written. Without a
      parent the name is a struct; inside one it is a field whose value
      names the struct, and the parent's cursor moves to that field. */
  function Nested(cfg: Config, structName: string, parent: Option<Def>, parentIndex: int,
                  slot: nat, indices: seq<int>, g: Globals): (r: Result<(Option<Def>, seq<int>, Globals)>)
    requires slot < |indices| && 0 <= parentIndex
    ensures r.Ok? ==> r.value.0.Some? && r.value.0.value.name in g.structs
                      && r.value.0.value.fields == g.structs[r.value.0.value.name]
    ensures r.Ok? ==> |r.value.1| == |indices| && forall j :: 0 <= j < |indices| && j != slot ==> r.value.1[j] == indices[j]
    ensures r.Ok? && parent.None? ==> r.value.1 == indices && r.value.2 == g && r.value.0.value.name == structName
    ensures r.Ok? && parent.Some? ==>
              var k := r.value.1[slot] - 1;
              parentIndex <= k < |parent.value.fields| && parent.value.fields[k].name == structName
    ensures r.Ok? ==> Appends(g, r.value.2) && r.value.2.elements == g.elements && r.value.2.structs == g.structs
    ensures r.Ok? && ValidBytes(g.out) ==> ValidBytes(r.value.2.out)
  {
    match parent
    case None =>
      if structName in g.structs then
        assert g.out[..|g.out|] == g.out && g.log[..|g.log|] == g.log;
        Ok((Some(Def(structName, g.structs[structName])), indices, g))
      else Err(UnknownStruct(structName))
    case Some(p) =>
      var at := Structs.FindField(p.fields, structName);
      if at < 0 then Err(ElementNotFound(structName))
      else
        var de := p.fields[at];
        if de.value.None? || de.value.value !in g.structs then Err(UnknownStruct(structName))
        else
          var struct := Def(de.value.value, g.structs[de.value.value]);
          match Structs.ElementAt(p.fields, parentIndex)
          case NullField => Err(StructDataUndefined)
          case OutOfRange => Err(IndexOutOfBounds)
          case Field(_) =>
            var (k, g') :- SkipTo(cfg, p, parentIndex, structName, g);
            Ok((Some(struct), indices[slot := k + 1], g'))
  }

  /** A line opening a block: the cursor slot of this level points past the
      block, the level goes up, and the block's struct (none for a bare
      `{`) is pushed with a fresh cursor. */
  function Open(cfg: Config, line: string, s: State): (r: Result<State>)
    requires Wf(s)
    ensures r.Ok? ==> Wf(r.value) && r.value.level == s.level + 1 && r.value.index == 0
    ensures r.Ok? ==> r.value.stack == s.stack[s.level + 1 := r.value.struct]
    ensures r.Ok? ==> r.value.indices[s.level] > s.index
    ensures r.Ok? ==> forall j :: 0 <= j < s.level ==> r.value.indices[j] == s.indices[j]
    ensures r.Ok? ==> Appends(s.g, r.value.g) && r.value.g.elements == s.g.elements && r.value.g.structs == s.g.structs
    ensures r.Ok? && ValidBytes(s.g.out) ==> ValidBytes(r.value.g.out)
    ensures r.Ok? && r.value.struct.Some? ==>
              r.value.struct.value.name in s.g.structs && r.value.struct.value.fields == s.g.structs[r.value.struct.value.name]
    ensures |line| <= 1 && s.level + 1 < MaxStructLevel ==> r.Ok? && r.value.struct.None? && r.value.g == s.g
    ensures r.Ok? && (|line| <= 1 || s.struct.None?) ==> r.value.indices[s.level] == s.index + 1
  {
    var indices := s.indices[s.level := s.index + 1];
    var level := s.level + 1;
    var (struct, indices', g) :-
      if |line| > 1 then Nested(cfg, Trim(line[1..]), s.struct, s.index, s.level, indices, s.g)
      else
        assert s.g.out[..|s.g.out|] == s.g.out && s.g.log[..|s.g.log|] == s.g.log;
        Ok((None, indices, s.g));
    if level >= MaxStructLevel then Err(IndexOutOfBounds)
    else Ok(State(level, struct, 0, s.stack[level := struct], indices'[level := 0], g))
  }

  /** A line closing a block: the fields of the current struct not yet
      written get their defaults, and the enclosing level's struct and
      cursor come back from the stacks. */
  function Close(cfg: Config, s: State): (r: Result<State>)
    requires Wf(s) && s.level > 0
    ensures r.Ok? ==> Wf(r.value) && r.value.level == s.level - 1
    ensures r.Ok? ==> r.value.struct == s.stack[s.level - 1] && r.value.index == s.indices[s.level - 1]
    ensures r.Ok? ==> r.value.stack == s.stack && r.value.indices == s.indices
    ensures r.Ok? ==> Appends(s.g, r.value.g) && r.value.g.elements == s.g.elements && r.value.g.structs == s.g.structs
    ensures r.Ok? && ValidBytes(s.g.out) ==> ValidBytes(r.value.g.out)
    ensures s.struct.Some? && (exists j :: s.index <= j < |s.struct.value.fields| && !Structs.IsConstant(s.g.structs, s.struct.value.fields[j]))
            ==> r.Err?
  {
    var g :- if s.struct.Some? && s.index < |s.struct.value.fields| then Fill(cfg, s.struct.value, s.index, s.g)
             else
               assert s.g.out[..|s.g.out|] == s.g.out && s.g.log[..|s.g.log|] == s.g.log;
               Ok(s.g);
    var level := s.level - 1;
    Ok(s.(level := level, struct := s.stack[level], index := s.indices[level], g := g))
  }

  /** The value of a data line: the text after the first `=` or `:` token
      and, when there are more tokens, the rest of the line from where that
      text first occurs. */
  function RestOfLine(line: string, value: string): (r: Result<string>)
  {
    var idx := IndexOf(line, value);
    if idx < 0 then Err(IndexOutOfBounds) else Ok(line[idx..])
  }

  /** The name and value of a data line `NAME=VALUE` (or `NAME:VALUE`),
      and whether it was a bare constant name, which writes the constant's
      value at once and takes that value. */
  function DataText(cfg: Config, line: string, g: Globals): (r: Result<(string, string, bool, Globals)>)
    ensures |Tokens(line, {'=', ':'})| == 0 ==> r == Err(CannotConvert(line))
    ensures r.Ok? ==> |Tokens(line, {'=', ':'})| > 0 && r.value.0 == Trim(Tokens(line, {'=', ':'})[0])
    ensures r.Ok? ==> (r.value.2 <==> |Tokens(line, {'=', ':'})| == 1)
    ensures r.Ok? && !r.value.2 ==> r.value.3 == g
    ensures |Tokens(line, {'=', ':'})| == 1 ==>
              var name := Trim(Tokens(line, {'=', ':'})[0]);
              && (r.Ok? <==> name in g.constants && g.constants[name].value.Some?
                             && Emit(cfg, g, g.constants[name], g.constants[name].value.value).Ok?)
              && (r.Ok? ==> r == Ok((name, g.constants[name].value.value, true,
                                     Emit(cfg, g, g.constants[name], g.constants[name].value.value).value)))
    ensures |Tokens(line, {'=', ':'})| == 2 ==> r == Ok((Trim(Tokens(line, {'=', ':'})[0]), Tokens(line, {'=', ':'})[1], false, g))
    ensures |Tokens(line, {'=', ':'})| > 2 && r.Ok? ==>
              var idx := IndexOf(line, Tokens(line, {'=', ':'})[1]);
              0 <= idx && r.value.1 == line[idx..]
    ensures r.Ok? ==> Appends(g, r.value.3) && r.value.3.elements == g.elements && r.value.3.structs == g.structs
    ensures r.Ok? && ValidBytes(g.out) ==> ValidBytes(r.value.3.out)
  {
    var tokens := Tokens(line, {'=', ':'});
    if |tokens| < 1 then Err(CannotConvert(line))
    else
      var name := Trim(tokens[0]);
      if |tokens| < 2 then
        if name !in g.constants || g.constants[name].value.None? then Err(CannotConvert(line))
        else
          var de := g.constants[name];
          var g' :- Emit(cfg, g, de, de.value.value);
          Ok((name, de.value.value, true, g'))
      else
        assert g.out[..|g.out|] == g.out && g.log[..|g.log|] == g.log;
        var value :- if |tokens| > 2 then RestOfLine(line, tokens[1]) else Ok(tokens[1]);
        Ok((name, value, false, g))
  }

  /** A value written into the current struct: the field cursor moves to
      the next field called `name`, writing the defaults of the fields
      passed over, and the value is written as that field. */
  function StructValue(cfg: Config, d: Def, index: int, name: string, value: string, g: Globals): (r: Result<(int, Globals)>)
    requires 0 <= index
    ensures r.Ok? ==> index < r.value.0 <= |d.fields| && d.fields[r.value.0 - 1].name == name
    ensures r.Ok? ==> forall j :: index <= j < r.value.0 - 1 ==> Structs.IsConstant(g.structs, d.fields[j])
    ensures r.Ok? ==> Appends(g, r.value.1) && r.value.1.elements == g.elements && r.value.1.structs == g.structs
    ensures r.Ok? && ValidBytes(g.out) ==> ValidBytes(r.value.1.out)
    ensures index > |d.fields| ==> r == Err(StructDataUndefined)
    ensures index == |d.fields| ==> r == Err(IndexOutOfBounds)
    ensures index < |d.fields| ==> r == FieldValue(cfg, d, index, name, value, g)
  {
    match Structs.ElementAt(d.fields, index)
    case NullField => Err(StructDataUndefined)
    case OutOfRange => Err(IndexOutOfBounds)
    case Field(_) => FieldValue(cfg, d, index, name, value, g)
  }

  /** `StructValue` with the cursor on a field. */
  function FieldValue(cfg: Config, d: Def, index: int, name: string, value: string, g: Globals): (r: Result<(int, Globals)>)
    requires 0 <= index < |d.fields|
    ensures r.Ok? ==> index < r.value.0 <= |d.fields| && d.fields[r.value.0 - 1].name == name
    ensures r.Ok? ==> forall j :: index <= j < r.value.0 - 1 ==> Structs.IsConstant(g.structs, d.fields[j])
    ensures r.Ok? ==> Appends(g, r.value.1) && r.value.1.elements == g.elements && r.value.1.structs == g.structs
    ensures r.Ok? && ValidBytes(g.out) ==> ValidBytes(r.value.1.out)
    ensures r.Ok? ==> var skipped := SkipTo(cfg, d, index, name, g);
                      && skipped.Ok? && skipped.value.0 == r.value.0 - 1
                      && Emit(cfg, skipped.value.1, d.fields[r.value.0 - 1], value) == Ok(r.value.1)
  {
    SkipToFirst(cfg, d, index, name, g);
    var (k, g') :- SkipTo(cfg, d, index, name, g);
    var g'' :- Emit(cfg, g', d.fields[k], value);
    AppendsTransitive(g, g', g'');
    Ok((k + 1, g''))
  }

  /** A value written outside any struct: as the global element of that
      name, unless it was a bare constant, already written. */
  function GlobalValue(cfg: Config, name: string, value: string, isConstant: bool, g: Globals): (r: Result<Globals>)
    ensures r.Ok? ==> Appends(g, r.value) && r.value.elements == g.elements && r.value.structs == g.structs
    ensures r.Ok? && ValidBytes(g.out) ==> ValidBytes(r.value.out)
    ensures isConstant ==> r == Ok(g)
    ensures !isConstant && name !in g.elements ==> r == Err(UnknownDataElement(name))
    ensures !isConstant && name in g.elements ==> r == Emit(cfg, g, g.elements[name], value)
  {
    if isConstant then
      assert g.out[..|g.out|] == g.out && g.log[..|g.log|] == g.log;
      Ok(g)
    else if name !in g.elements then Err(UnknownDataElement(name))
    else Emit(cfg, g, g.elements[name], value)
  }

  /** A data line inside a block. */
  function Value(cfg: Config, line: string, s: State): (r: Result<State>)
    requires Wf(s)
    ensures r.Ok? ==> Wf(r.value) && r.value.level == s.level && r.value.struct == s.struct
                      && r.value.stack == s.stack && r.value.indices == s.indices
    ensures r.Ok? ==> Appends(s.g, r.value.g) && r.value.g.elements == s.g.elements && r.value.g.structs == s.g.structs
    ensures r.Ok? && ValidBytes(s.g.out) ==> ValidBytes(r.value.g.out)
    ensures r.Ok? && s.struct.None? ==> r.value.index == s.index
    ensures r.Ok? && s.struct.Some? ==> s.index < r.value.index <= |s.struct.value.fields|
  {
    var (name, value, isConstant, g) :- DataText(cfg, line, s.g);
    match s.struct
    case None =>
      var g' :- GlobalValue(cfg, name, value, isConstant, g);
      AppendsTransitive(s.g, g, g');
      Ok(s.(g := g'))
    case Some(d) =>
      var (k, g') :- StructValue(cfg, d, s.index, name, value, g);
      AppendsTransitive(s.g, g, g');
      Ok(s.(index := k, g := g'))
  }

  // ---------------------------------------------------------------------------
  // The pass

  /** What line `i` of `v` does: a line at the outermost level that opens
      no block is a declaration; any other line is data, and a `{#}` writes
      the number of items of the block it heads. */
  function Step(cfg: Config, v: seq<LineItem>, i: nat, s: State): (r: Result<State>)
    requires i < |v| && Wf(s)
    ensures r.Ok? ==> Wf(r.value) && Appends(s.g, r.value.g)
    ensures r.Ok? && ValidBytes(s.g.out) ==> ValidBytes(r.value.g.out)
  {
    var line := v[i].line;
    if s.level == 0 && !StartsWith(line, "{") then
      assert s.g.out[..|s.g.out|] == s.g.out;
      var (struct, g) :- Declare(cfg, line, s.struct, s.g);
      Ok(s.(struct := struct, g := g))
    else if StartsWith(line, "{#}") then
      var prefix := Store.ArrayPrefix(cfg, ItemCount.ItemCount(v, i + 1));
      assert (s.g.out + prefix)[..|s.g.out|] == s.g.out && s.g.log[..|s.g.log|] == s.g.log;
      Ok(s.(g := s.g.(out := s.g.out + prefix)))
    else if StartsWith(line, "{") then Open(cfg, line, s)
    else if StartsWith(line, "}") then Close(cfg, s)
    else Value(cfg, line, s)
  }

  /** Which branch a line takes: outside any block a line that opens none
      is a declaration and writes nothing; a `{#}` writes the number of
      items of the block it heads, in 4 or 2 bytes; any other `{` opens a
      block, a `}` closes one, and the rest is data. */
  lemma StepCases(cfg: Config, v: seq<LineItem>, i: nat, s: State)
    requires i < |v| && Wf(s)
    ensures var line := v[i].line;
            s.level == 0 && !StartsWith(line, "{") ==>
              && (Declare(cfg, line, s.struct, s.g).Err? ==> Step(cfg, v, i, s).Err?)
              && (Declare(cfg, line, s.struct, s.g).Ok? ==>
                    var (struct, g) := Declare(cfg, line, s.struct, s.g).value;
                    Step(cfg, v, i, s) == Ok(s.(struct := struct, g := g)) && g.out == s.g.out)
    ensures StartsWith(v[i].line, "{#}") ==>
              Step(cfg, v, i, s) == Ok(s.(g := s.g.(out := s.g.out + Store.ArrayPrefix(cfg, ItemCount.ItemCount(v, i + 1)))))
    ensures StartsWith(v[i].line, "{") && !StartsWith(v[i].line, "{#}") ==> Step(cfg, v, i, s) == Open(cfg, v[i].line, s)
    ensures (s.level > 0 || StartsWith(v[i].line, "{")) && !StartsWith(v[i].line, "{") && StartsWith(v[i].line, "}") ==>
              s.level > 0 && Step(cfg, v, i, s) == Close(cfg, s)
    ensures s.level > 0 && !StartsWith(v[i].line, "{") && !StartsWith(v[i].line, "}") ==> Step(cfg, v, i, s) == Value(cfg, v[i].line, s)
  {
    var line := v[i].line;
    if StartsWith(line, "{#}") {
      assert line[..1] == line[..3][..1];
    }
  }

  /** `step` applied in turn to the lines from `i` up to `n`; the first
      failure aborts. */
  function Iterate(step: (nat, State) -> Result<State>, n: nat, i: nat, s: State): (r: Result<State>)
    decreases n - i
  {
    if i >= n then Ok(s)
    else
      var s' :- step(i, s);
      Iterate(step, n, i + 1, s')
  }

  /** What an iteration keeps: a property `P` every step keeps, and a
      reflexive, transitive relation `R` every step makes between the state
      before and the state after it, hold between the first state and the
      last. */
  lemma {:induction false} IterateKeeps(step: (nat, State) -> Result<State>, P: State -> bool, R: (State, State) -> bool,
                                        n: nat, i: nat, s: State)
    requires P(s)
    requires forall t :: P(t) ==> R(t, t)
    requires forall a, b, c :: R(a, b) && R(b, c) ==> R(a, c)
    requires forall j, t :: P(t) && step(j, t).Ok? ==> P(step(j, t).value) && R(t, step(j, t).value)
    ensures var r := Iterate(step, n, i, s);
            r.Ok? ==> P(r.value) && R(s, r.value)
    decreases n - i
  {
    if i < n {
      var next := step(i, s);
      if next.Ok? {
        IterateKeeps(step, P, R, n, i + 1, next.value);
      }
    }
  }

  /** `Step` on line `j`; a state that is not well-formed, which the pass
      never reaches (`RunAppends`), fails. */
  function Next(cfg: Config, v: seq<LineItem>): (nat, State) -> Result<State>
  {
    (j: nat, t: State) => if j < |v| && Wf(t) then Step(cfg, v, j, t) else Err(IndexOutOfBounds)
  }

  /** The lines of `v` from `i` on; the first failure aborts the pass. */
  function Run(cfg: Config, v: seq<LineItem>, i: nat, s: State): (r: Result<State>)
  {
    Iterate(Next(cfg, v), |v|, i, s)
  }

  /** `binarize(os, v, path)` over the constants left by the preprocessor:
      the tables and the bytes written, or the error that aborted it. */
  function Binarized(cfg: Config, v: seq<LineItem>, constants: Table): (r: Result<Globals>)
  {
    var s :- Run(cfg, v, 0, Start(constants));
    Ok(s.g)
  }

  // ---------------------------------------------------------------------------
  // Properties of the pass

  /** What the pass keeps from one state to the next: well-formedness, and
      the output and the log only grow, with bytes. */
  ghost predicate Grows(a: State, b: State) {
    Wf(b) && Appends(a.g, b.g) && (ValidBytes(a.g.out) ==> ValidBytes(b.g.out))
  }

  lemma NextGrows(cfg: Config, v: seq<LineItem>)
    ensures forall j, t :: Wf(t) && Next(cfg, v)(j, t).Ok? ==> Wf(Next(cfg, v)(j, t).value) && Grows(t, Next(cfg, v)(j, t).value)
  {
    forall j: nat, t | Wf(t) && Next(cfg, v)(j, t).Ok?
      ensures Wf(Next(cfg, v)(j, t).value) && Grows(t, Next(cfg, v)(j, t).value)
    {
      assert j < |v|;
      var r := Step(cfg, v, j, t);
      assert Next(cfg, v)(j, t) == r;
    }
  }

  /** The pass only appends: bytes to the output and redefinition warnings
      to the log, and what it writes are bytes. */
  lemma RunAppends(cfg: Config, v: seq<LineItem>, i: nat, s: State)
    requires Wf(s)
    ensures var r := Run(cfg, v, i, s);
            r.Ok? ==> Wf(r.value) && Appends(s.g, r.value.g) && (ValidBytes(s.g.out) ==> ValidBytes(r.value.g.out))
  {
    forall t | Wf(t) ensures Grows(t, t) {
      assert t.g.out[..|t.g.out|] == t.g.out && t.g.log[..|t.g.log|] == t.g.log;
    }
    forall a, b, c | Grows(a, b) && Grows(b, c) ensures Grows(a, c) {
      AppendsTransitive(a.g, b.g, c.g);
    }
    NextGrows(cfg, v);
    IterateKeeps(Next(cfg, v), Wf, Grows, |v|, i, s);
  }

  lemma RunNext(cfg: Config, v: seq<LineItem>, i: nat, s: State)
    requires i < |v| && Wf(s)
    ensures Step(cfg, v, i, s).Err? ==> Run(cfg, v, i, s) == Err(Step(cfg, v, i, s).error)
    ensures Step(cfg, v, i, s).Ok? ==> Run(cfg, v, i, s) == Run(cfg, v, i + 1, Step(cfg, v, i, s).value)
  {
    assert Next(cfg, v)(i, s) == Step(cfg, v, i, s);
  }

  /** What `binarize` writes is bytes. */
  lemma BinarizedOutput(cfg: Config, v: seq<LineItem>, constants: Table)
    ensures Binarized(cfg, v, constants).Ok? ==> ValidBytes(Binarized(cfg, v, constants).value.out)
  {
    RunAppends(cfg, v, 0, Start(constants));
  }

  /** The struct stack holds the struct of every open block: the entry of
      the current level is the current struct, and the outermost entry is
      none. */
  predicate Consistent(s: State) {
    Wf(s) && s.stack[0].None? && (s.level > 0 ==> s.stack[s.level] == s.struct)
  }

  lemma StepConsistent(cfg: Config, v: seq<LineItem>, i: nat, s: State)
    requires i < |v| && Consistent(s)
    ensures Step(cfg, v, i, s).Ok? ==> Consistent(Step(cfg, v, i, s).value)
  {
    var line := v[i].line;
    var r := Step(cfg, v, i, s);
    if s.level == 0 && !StartsWith(line, "{") {
    } else if StartsWith(line, "{#}") {
    } else if StartsWith(line, "{") {
      assert r == Open(cfg, line, s);
    } else if StartsWith(line, "}") {
      assert r == Close(cfg, s);
    } else {
      assert r == Value(cfg, line, s);
    }
  }

  /** Every state the pass reaches keeps the stack consistent. */
  lemma RunConsistent(cfg: Config, v: seq<LineItem>, i: nat, s: State)
    requires Consistent(s)
    ensures Run(cfg, v, i, s).Ok? ==> Consistent(Run(cfg, v, i, s).value)
  {
    forall j: nat, t | Consistent(t) && Next(cfg, v)(j, t).Ok?
      ensures Consistent(Next(cfg, v)(j, t).value)
    {
      assert j < |v|;
      StepConsistent(cfg, v, j, t);
    }
    IterateKeeps(Next(cfg, v), Consistent, (a: State, b: State) => true, |v|, i, s);
  }

  /** A block returns to where it was opened: when the lines inside it kept
      its level and the stacks, its `}` brings back the enclosing struct,
      with that struct's cursor past the block. */
  lemma BlockRestores(cfg: Config, line: string, s: State, s1: State, s2: State)
    requires Consistent(s) && (s.level == 0 ==> s.struct.None?)
    requires Open(cfg, line, s) == Ok(s1)
    requires Wf(s2) && s2.level == s1.level && s2.stack == s1.stack && s2.indices == s1.indices
    ensures var r := Close(cfg, s2);
            r.Ok? ==> r.value.level == s.level && r.value.struct == s.struct && r.value.index > s.index
  {
    assert s1.level == s.level + 1 && s1.indices[s.level] > s.index && s1.stack[s.level] == s.stack[s.level];
  }

  // ---------------------------------------------------------------------------
  // The imperative pass

  /** The loop that skips to the field called `name`. */
  method SkipFields(cfg: Config, d: Def, start: int, name: string, g: Globals) returns (r: Result<(int, Globals)>)
    requires 0 <= start < |d.fields|
    ensures r == SkipTo(cfg, d, start, name, g)
  {
    var max := |d.fields|;
    var index := start;
    var structElement := d.fields[index];
    var out := g;
    while structElement.name != name
      invariant start <= index < max && structElement == d.fields[index]
      invariant SkipTo(cfg, d, start, name, g) == SkipTo(cfg, d, index, name, out)
      decreases max - index
    {
      if !Structs.IsConstant(out.structs, structElement) {
        return Err(DataMismatch(name, structElement.name));
      }
      var written := Emit(cfg, out, structElement, structElement.value.value);
      if written.Err? {
        return Err(written.error);
      }
      out := written.value;
      index := index + 1;
      if index < max {
        structElement := d.fields[index];
      } else {
        return Err(UnknownStructElement(name));
      }
    }
    return Ok((index, out));
  }

  /** The loop of a block end that writes the remaining defaults. */
  method FillDefaults(cfg: Config, d: Def, start: int, g: Globals) returns (r: Result<Globals>)
    requires 0 <= start
    ensures r == Fill(cfg, d, start, g)
  {
    var max := |d.fields|;
    var index := start;
    var out := g;
    while index < max
      invariant start <= index
      invariant Fill(cfg, d, start, g) == Fill(cfg, d, index, out)
      decreases max - index
    {
      var structElement := d.fields[index];
      if !Structs.IsConstant(out.structs, structElement) {
        return Err(NoDefaultValue(structElement.name));
      }
      var written := Emit(cfg, out, structElement, structElement.value.value);
      if written.Err? {
        return Err(written.error);
      }
      out := written.value;
      index := index + 1;
    }
    return Ok(out);
  }

  /** The struct a `{NAME` line names, with the parent's cursor moved in
      `structElementIndices[slot]`. */
  method NestedStruct(cfg: Config, structName: string, parent: Option<Def>, parentIndex: int, slot: nat,
                      structElementIndices: array<int>, g: Globals, ghost indices: seq<int>)
    returns (r: Result<(Option<Def>, Globals)>)
    requires slot < structElementIndices.Length && 0 <= parentIndex && indices == structElementIndices[..]
    modifies structElementIndices
    ensures Nested(cfg, structName, parent, parentIndex, slot, indices, g)
            == if r.Ok? then Ok((r.value.0, structElementIndices[..], r.value.1)) else Err(r.error)
  {
    if parent.None? {
      if structName !in g.structs {
        return Err(UnknownStruct(structName));
      }
      return Ok((Some(Def(structName, g.structs[structName])), g));
    }
    r := FieldStruct(cfg, structName, parent.value, parentIndex, slot, structElementIndices, g, indices);
  }

  /** `NestedStruct` inside a parent struct: the field of that name names
      the struct, and the parent's cursor moves past that field. */
  method FieldStruct(cfg: Config, structName: string, p: Def, parentIndex: int, slot: nat,
                     structElementIndices: array<int>, g: Globals, ghost indices: seq<int>)
    returns (r: Result<(Option<Def>, Globals)>)
    requires slot < structElementIndices.Length && 0 <= parentIndex && indices == structElementIndices[..]
    modifies structElementIndices
    ensures Nested(cfg, structName, Some(p), parentIndex, slot, indices, g)
            == if r.Ok? then Ok((r.value.0, structElementIndices[..], r.value.1)) else Err(r.error)
  {
    var at := Structs.FindField(p.fields, structName);
    if at < 0 {
      return Err(ElementNotFound(structName));
    }
    var de := p.fields[at];
    if de.value.None? || de.value.value !in g.structs {
      return Err(UnknownStruct(structName));
    }
    var struct := Def(de.value.value, g.structs[de.value.value]);
    var structElement := Structs.ElementAt(p.fields, parentIndex);
    if structElement.NullField? {
      return Err(StructDataUndefined);
    } else if structElement.OutOfRange? {
      return Err(IndexOutOfBounds);
    }
    NestedInField(cfg, structName, p, parentIndex, slot, indices, g, struct);
    var entered := EnterField(cfg, p, parentIndex, structName, slot, structElementIndices, g);
    if entered.Err? {
      return Err(entered.error);
    }
    return Ok((Some(struct), entered.value));
  }

  /** With the parent's field found, naming a registered struct, and the
      cursor on a field, the block is that struct and the parent's cursor
      moves as `SkipTo` says. */
  lemma NestedInField(cfg: Config, structName: string, p: Def, parentIndex: int, slot: nat, indices: seq<int>,
                      g: Globals, struct: Def)
    requires slot < |indices| && 0 <= parentIndex < |p.fields|
    requires Structs.FindField(p.fields, structName) >= 0
    requires var de := p.fields[Structs.FindField(p.fields, structName)];
             de.value.Some? && de.value.value in g.structs && struct == Def(de.value.value, g.structs[de.value.value])
    ensures Nested(cfg, structName, Some(p), parentIndex, slot, indices, g)
            == match SkipTo(cfg, p, parentIndex, structName, g)
               case Ok((k, out)) => Ok((Some(struct), indices[slot := k + 1], out))
               case Err(e) => Err(e)
  {
    var skipped := SkipTo(cfg, p, parentIndex, structName, g);
    if skipped.Ok? {
      NestedSkipped(cfg, structName, p, parentIndex, slot, indices, g, struct, skipped.value.0, skipped.value.1);
    } else {
      NestedSkipFails(cfg, structName, p, parentIndex, slot, indices, g, struct, skipped.error);
    }
  }

  lemma NestedSkipped(cfg: Config, structName: string, p: Def, parentIndex: int, slot: nat, indices: seq<int>,
                      g: Globals, struct: Def, k: int, out: Globals)
    requires slot < |indices| && 0 <= parentIndex < |p.fields|
    requires Structs.FindField(p.fields, structName) >= 0
    requires var de := p.fields[Structs.FindField(p.fields, structName)];
             de.value.Some? && de.value.value in g.structs && struct == Def(de.value.value, g.structs[de.value.value])
    requires SkipTo(cfg, p, parentIndex, structName, g) == Ok((k, out))
    ensures Nested(cfg, structName, Some(p), parentIndex, slot, indices, g) == Ok((Some(struct), indices[slot := k + 1], out))
  {
    assert Structs.ElementAt(p.fields, parentIndex) == Structs.Field(p.fields[parentIndex]);
  }

  lemma NestedSkipFails(cfg: Config, structName: string, p: Def, parentIndex: int, slot: nat, indices: seq<int>,
                        g: Globals, struct: Def, e: Error)
    requires slot < |indices| && 0 <= parentIndex < |p.fields|
    requires Structs.FindField(p.fields, structName) >= 0
    requires var de := p.fields[Structs.FindField(p.fields, structName)];
             de.value.Some? && de.value.value in g.structs && struct == Def(de.value.value, g.structs[de.value.value])
    requires SkipTo(cfg, p, parentIndex, structName, g) == Err(e)
    ensures Nested(cfg, structName, Some(p), parentIndex, slot, indices, g) == Err(e)
  {
    assert Structs.ElementAt(p.fields, parentIndex) == Structs.Field(p.fields[parentIndex]);
  }

  /** The cursor of the parent moves to the field the block fills, with
      the defaults of the fields passed over written; the slot of this
      level records the position after it. */
  method EnterField(cfg: Config, p: Def, parentIndex: int, structName: string, slot: nat,
                    structElementIndices: array<int>, g: Globals) returns (r: Result<Globals>)
    requires 0 <= parentIndex < |p.fields| && slot < structElementIndices.Length
    modifies structElementIndices
    ensures match SkipTo(cfg, p, parentIndex, structName, g)
            case Ok((k, out)) => r == Ok(out) && structElementIndices[..] == old(structElementIndices[..])[slot := k + 1]
            case Err(e) => r == Err(e)
  {
    var k := parentIndex;
    var out := g;
    if p.fields[parentIndex].name != structName {
      var skipped := SkipFields(cfg, p, parentIndex, structName, g);
      if skipped.Err? {
        return Err(skipped.error);
      }
      k, out := skipped.value.0, skipped.value.1;
    }
    assert SkipTo(cfg, p, parentIndex, structName, g) == Ok((k, out));
    structElementIndices[slot] := k + 1;
    return Ok(out);
  }

  /** The branch of a line that opens a block. */
  method OpenBlock(cfg: Config, line: string, structStack: array<Option<Def>>, structElementIndices: array<int>,
                   level: int, struct: Option<Def>, structElementIndex: int, g: Globals, ghost s: State)
    returns (r: Result<(int, Option<Def>, int, Globals)>)
    requires s == State(level, struct, structElementIndex, structStack[..], structElementIndices[..], g) && Wf(s)
    modifies structStack, structElementIndices
    ensures Open(cfg, line, s)
            == if r.Ok? then Ok(State(r.value.0, r.value.1, r.value.2, structStack[..], structElementIndices[..], r.value.3))
               else Err(r.error)
  {
    structElementIndices[level] := structElementIndex + 1;
    ghost var indices := structElementIndices[..];
    assert indices == s.indices[s.level := s.index + 1];
    var newLevel := level + 1;
    var newStruct: Option<Def> := None;
    var out := g;
    if |line| > 1 {
      var nested := NestedStruct(cfg, Trim(line[1..]), struct, structElementIndex, level, structElementIndices, g, indices);
      if nested.Err? {
        return Err(nested.error);
      }
      newStruct, out := nested.value.0, nested.value.1;
    }
    ghost var indices' := structElementIndices[..];
    if newLevel >= MaxStructLevel {
      return Err(IndexOutOfBounds);
    }
    structStack[newLevel] := newStruct;
    structElementIndices[newLevel] := 0;
    assert structElementIndices[..] == indices'[newLevel := 0];
    return Ok((newLevel, newStruct, 0, out));
  }

  /** The branch of a line that closes a block. */
  method CloseBlock(cfg: Config, structStack: array<Option<Def>>, structElementIndices: array<int>,
                    level: int, struct: Option<Def>, structElementIndex: int, g: Globals, ghost s: State)
    returns (r: Result<(int, Option<Def>, int, Globals)>)
    requires s == State(level, struct, structElementIndex, structStack[..], structElementIndices[..], g) && Wf(s)
    requires level > 0
    ensures Close(cfg, s)
            == if r.Ok? then Ok(State(r.value.0, r.value.1, r.value.2, structStack[..], structElementIndices[..], r.value.3))
               else Err(r.error)
  {
    var out := g;
    if struct.Some? && structElementIndex < |struct.value.fields| {
      var filled := FillDefaults(cfg, struct.value, structElementIndex, g);
      if filled.Err? {
        return Err(filled.error);
      }
      out := filled.value;
    }
    var newLevel := level - 1;
    return Ok((newLevel, structStack[newLevel], structElementIndices[newLevel], out));
  }

  /** The name and value of a data line. */
  method ReadData(cfg: Config, line: string, g: Globals) returns (r: Result<(string, string, bool, Globals)>)
    ensures r == DataText(cfg, line, g)
  {
    var tokens := Tokens(line, {'=', ':'});
    if |tokens| < 1 {
      return Err(CannotConvert(line));
    }
    var name := Trim(tokens[0]);
    var value;
    var isConstant := false;
    var out := g;
    if |tokens| < 2 {
      if name !in g.constants || g.constants[name].value.None? {
        return Err(CannotConvert(line));
      }
      var de := g.constants[name];
      isConstant := true;
      var written := Emit(cfg, out, de, de.value.value);
      if written.Err? {
        return Err(written.error);
      }
      out := written.value;
      value := de.value.value;
    } else {
      value := tokens[1];
    }
    if |tokens| > 2 {
      var idx := IndexOf(line, value);
      if idx < 0 {
        return Err(IndexOutOfBounds);
      }
      value := line[idx..];
    }
    return Ok((name, value, isConstant, out));
  }

  /** A value written into the current struct. */
  method StoreField(cfg: Config, d: Def, structElementIndex: int, name: string, value: string, g: Globals)
    returns (r: Result<(int, Globals)>)
    requires 0 <= structElementIndex
    ensures r == StructValue(cfg, d, structElementIndex, name, value, g)
  {
    var structElement := Structs.ElementAt(d.fields, structElementIndex);
    if structElement.NullField? {
      return Err(StructDataUndefined);
    } else if structElement.OutOfRange? {
      return Err(IndexOutOfBounds);
    }
    r := StoreAtField(cfg, d, structElementIndex, name, value, g);
  }

  /** `StoreField` with the cursor on a field. */
  method StoreAtField(cfg: Config, d: Def, structElementIndex: int, name: string, value: string, g: Globals)
    returns (r: Result<(int, Globals)>)
    requires 0 <= structElementIndex < |d.fields|
    ensures r == FieldValue(cfg, d, structElementIndex, name, value, g)
  {
    var index := structElementIndex;
    var out := g;
    if d.fields[index].name != name {
      var skipped := SkipFields(cfg, d, structElementIndex, name, g);
      if skipped.Err? {
        return Err(skipped.error);
      }
      index, out := skipped.value.0, skipped.value.1;
    }
    FieldValueAfterSkip(cfg, d, structElementIndex, name, value, g, index, out);
    var written := Emit(cfg, out, d.fields[index], value);
    if written.Err? {
      return Err(written.error);
    }
    return Ok((index + 1, written.value));
  }

  lemma FieldValueAfterSkip(cfg: Config, d: Def, index: int, name: string, value: string, g: Globals, k: int, out: Globals)
    requires 0 <= index < |d.fields|
    requires SkipTo(cfg, d, index, name, g) == Ok((k, out))
    ensures 0 <= k < |d.fields|
    ensures var w := Emit(cfg, out, d.fields[k], value);
            FieldValue(cfg, d, index, name, value, g) == if w.Ok? then Ok((k + 1, w.value)) else Err(w.error)
  {
  }

  /** The branch of a data line. */
  method StoreValue(cfg: Config, line: string, struct: Option<Def>, structElementIndex: int, g: Globals,
                    ghost s: State)
    returns (r: Result<(int, Globals)>)
    requires s.struct == struct && s.index == structElementIndex && s.g == g && Wf(s)
    ensures Value(cfg, line, s) == if r.Ok? then Ok(s.(index := r.value.0, g := r.value.1)) else Err(r.error)
  {
    var data := ReadData(cfg, line, g);
    if data.Err? {
      return Err(data.error);
    }
    var (name, value, isConstant, out) := data.value;
    if struct.None? {
      if !isConstant {
        if name !in out.elements {
          return Err(UnknownDataElement(name));
        }
        var written := Emit(cfg, out, out.elements[name], value);
        if written.Err? {
          return Err(written.error);
        }
        out := written.value;
      }
      return Ok((structElementIndex, out));
    }
    var stored := StoreField(cfg, struct.value, structElementIndex, name, value, out);
    if stored.Err? {
      return Err(stored.error);
    }
    return stored;
  }

  /** One line of the loop. */
  method ProcessLine(cfg: Config, v: seq<LineItem>, i: nat, structStack: array<Option<Def>>, structElementIndices: array<int>,
                     level: int, struct: Option<Def>, structElementIndex: int, g: Globals, ghost s: State)
    returns (r: Result<(int, Option<Def>, int, Globals)>)
    requires i < |v|
    requires s == State(level, struct, structElementIndex, structStack[..], structElementIndices[..], g) && Wf(s)
    modifies structStack, structElementIndices
    ensures Step(cfg, v, i, s)
            == if r.Ok? then Ok(State(r.value.0, r.value.1, r.value.2, structStack[..], structElementIndices[..], r.value.3))
               else Err(r.error)
  {
    var line := v[i].line;
    if level == 0 && !StartsWith(line, "{") {
      var declared := Declare(cfg, line, struct, g);
      if declared.Err? {
        return Err(declared.error);
      }
      return Ok((level, declared.value.0, structElementIndex, declared.value.1));
    } else if StartsWith(line, "{#}") {
      var count := ItemCount.GetItemCount(i + 1, v);
      return Ok((level, struct, structElementIndex, g.(out := g.out + Store.ArrayPrefix(cfg, count))));
    } else if StartsWith(line, "{") {
      r := OpenBlock(cfg, line, structStack, structElementIndices, level, struct, structElementIndex, g, s);
    } else if StartsWith(line, "}") {
      r := CloseBlock(cfg, structStack, structElementIndices, level, struct, structElementIndex, g, s);
    } else {
      var stored := StoreValue(cfg, line, struct, structElementIndex, g, s);
      if stored.Err? {
        return Err(stored.error);
      }
      return Ok((level, struct, stored.value.0, stored.value.1));
    }
  }

  /** `binarize`: the loop over the lines with the struct stack and the
      cursor stack in arrays of `MaxStructLevel` entries. */
  method Binarize(cfg: Config, v: seq<LineItem>, constants: Table) returns (r: Result<Globals>)
    ensures r == Binarized(cfg, v, constants)
  {
    var structStack := new Option<Def>[MaxStructLevel](_ => None);
    var structElementIndices := new int[MaxStructLevel](_ => 0);
    var struct: Option<Def> := None;
    var structElementIndex := 0;
    var level := 0;
    var g := Globals(constants, map[], map[], [], []);
    ghost var s := Start(constants);
    assert structStack[..] == s.stack && structElementIndices[..] == s.indices;
    ghost var whole := Run(cfg, v, 0, s);
    for i := 0 to |v|
      invariant s == State(level, struct, structElementIndex, structStack[..], structElementIndices[..], g) && Wf(s)
      invariant whole == Run(cfg, v, i, s)
    {
      RunNext(cfg, v, i, s);
      var step := ProcessLine(cfg, v, i, structStack, structElementIndices, level, struct, structElementIndex, g, s);
      if step.Err? {
        return Err(step.error);
      }
      level, struct, structElementIndex, g := step.value.0, step.value.1, step.value.2, step.value.3;
      s := State(level, struct, structElementIndex, structStack[..], structElementIndices[..], g);
    }
    return Ok(g);
  }
}
