/** The preprocessor pass of Utils.getLineList(Reader, …): physical lines in,
    line items out, with `#ifdef`/`#ifndef`/`#else`/`#endif` handled on a
    bounded stack of booleans and `#define`, `#undef`, `#error` and
    `#include` acting only in enabled regions.

    The file system is a map from include name to the lines of that file, and
    the depth of the include recursion is bounded by `fuel`: the original
    recurses into a file that includes itself until the Java stack
    overflows, which is not an exception it catches. */
module Preprocessor {
  import opened Base
  import opened Text
  import opened Elements
  import opened LineItems
  import Lines
  import Constants
  import Resolver

  /** The size of `lineEnabledStack`. */
  const MaxStack: nat := 64

  /** The files an `#include` can reach, by the name it gives. */
  type Files = map<string, seq<string>>

  /** What every file of one run adds to: the line items, the constant table
      and the warnings reported so far. */
  datatype Shared = Shared(items: seq<LineItem>, constants: Table, log: seq<Warning>)

  /** The conditional state of one file: the stack and the enabled flag. */
  datatype Cond = Cond(stack: seq<bool>, enabled: bool)

  /** Where a file (or a directive) leaves the shared state, and the error
      that stopped it, if any. */
  datatype Outcome = Outcome(shared: Shared, failure: Option<Error>)

  /** The enabled flag is the top of the stack, or true when the stack is
      empty: only the innermost conditional decides. */
  predicate Coherent(c: Cond) {
    |c.stack| <= MaxStack && c.enabled == (|c.stack| == 0 || c.stack[|c.stack| - 1])
  }

  /** `text` starts with directive `kw` and a space or tab follows it. */
  predicate Opens(text: string, kw: string) {
    |text| > |kw| && text[..|kw|] == kw && IsTab(text[|kw|])
  }

  /** `text` is directive `kw` with nothing after it: the test for the
      separator reads past the end of the line and throws. */
  predicate Bare(text: string, kw: string) {
    text == kw
  }

  /** The name a directive applies to: what follows the keyword and its
      separator, trimmed. */
  function Argument(text: string, kw: string): string
    requires Opens(text, kw)
  {
    Trim(text[|kw| + 1..])
  }

  /** Whether `text` is one of the conditional directives. */
  predicate IsConditional(text: string) {
    Bare(text, "#ifdef") || Bare(text, "#ifndef") || Opens(text, "#ifdef") || Opens(text, "#ifndef")
    || text == "#else" || text == "#endif"
  }

  /** The conditional directives; these are handled whether or not the
      current region is enabled. */
  function Condition(text: string, c: Cond, constants: Table): (r: Result<Cond>)
    ensures Coherent(c) && r.Ok? ==> Coherent(r.value)
    ensures !IsConditional(text) ==> r == Ok(c)
  {
    if Bare(text, "#ifdef") || Bare(text, "#ifndef") then Err(IndexOutOfBounds)
    else if Opens(text, "#ifdef") || Opens(text, "#ifndef") then
      var defined := if Opens(text, "#ifdef") then Argument(text, "#ifdef") in constants
                     else Argument(text, "#ifndef") !in constants;
      if |c.stack| >= MaxStack then Err(ConditionalTooDeep) else Ok(Cond(c.stack + [defined], defined))
    else if text == "#else" then
      if |c.stack| == 0 then Err(UnexpectedElse)
      else
        var top := !c.stack[|c.stack| - 1];
        Ok(Cond(c.stack[..|c.stack| - 1] + [top], top))
    else if text == "#endif" then
      if |c.stack| == 0 then Err(UnexpectedEndif)
      else
        var rest := c.stack[..|c.stack| - 1];
        Ok(Cond(rest, |rest| == 0 || rest[|rest| - 1]))
    else Ok(c)
  }

  /** How each conditional directive moves the stack: `#ifdef`/`#ifndef`
      push whether the name is (not) defined and make that alone the enabled
      state, without regard to the levels around it; `#else` flips the top;
      `#endif` pops; and each fails on a stack it cannot work with. */
  lemma ConditionCases(text: string, c: Cond, constants: Table)
    ensures var r := Condition(text, c, constants);
      && (Bare(text, "#ifdef") || Bare(text, "#ifndef") ==> r == Err(IndexOutOfBounds))
      && (Opens(text, "#ifdef") && |c.stack| < MaxStack ==>
            var defined := Argument(text, "#ifdef") in constants;
            r == Ok(Cond(c.stack + [defined], defined)))
      && (Opens(text, "#ifndef") && |c.stack| < MaxStack ==>
            var undefined := Argument(text, "#ifndef") !in constants;
            r == Ok(Cond(c.stack + [undefined], undefined)))
      && ((Opens(text, "#ifdef") || Opens(text, "#ifndef")) && |c.stack| >= MaxStack ==> r == Err(ConditionalTooDeep))
      && (text == "#else" && |c.stack| == 0 ==> r == Err(UnexpectedElse))
      && (text == "#else" && |c.stack| > 0 ==>
            && r.Ok? && |r.value.stack| == |c.stack| && r.value.stack[..|c.stack| - 1] == c.stack[..|c.stack| - 1]
            && r.value.enabled == r.value.stack[|c.stack| - 1] == !c.stack[|c.stack| - 1])
      && (text == "#endif" && |c.stack| == 0 ==> r == Err(UnexpectedEndif))
      && (text == "#endif" && |c.stack| > 0 ==> r.Ok? && r.value.stack == c.stack[..|c.stack| - 1])
  {
  }

  /** The directives acting in an enabled region, and the plain lines. */
  function Directive(cfg: Config, files: Files, fuel: nat, source: string, text: string, number: nat, sh: Shared): Outcome
    decreases fuel, 0, 1
  {
    if !StartsWith(text, "#") then
      Outcome(sh.(items := sh.items + [LineItem(text, number, source)]), None)
    else if Bare(text, "#define") || Bare(text, "#error") || Bare(text, "#include") || Bare(text, "#undef") then
      Outcome(sh, Some(IndexOutOfBounds))
    else if Opens(text, "#define") then Define(cfg, Argument(text, "#define"), sh)
    else if Opens(text, "#error") then
      Outcome(sh, Some(UserError(Argument(text, "#error"))))
    else if Opens(text, "#include") then
      match Lines.GetIncludeName(text[8..])
      case Err(e) => Outcome(sh, Some(e))
      case Ok(None) => Outcome(sh, None)
      case Ok(Some(name)) => Include(cfg, files, fuel, name, sh)
    else if Opens(text, "#undef") then
      Outcome(sh.(constants := sh.constants - {Argument(text, "#undef")}), None)
    else Outcome(sh, None)
  }

  /** A `#define`: the constant is added to the shared table. */
  function Define(cfg: Config, definition: string, sh: Shared): Outcome {
    match Constants.AddConstant(cfg, sh.constants, sh.log, definition)
    case Err(e) => Outcome(sh.(constants := Constants.TableAfter(cfg, sh.constants, sh.log, definition)), Some(e))
    case Ok((t, log)) => Outcome(sh.(constants := t, log := log), None)
  }

  /** An `#include`: a file that cannot be found, or that fails, is reported
      and passed over, keeping whatever it added before failing; only the
      unbounded recursion escapes. */
  function Include(cfg: Config, files: Files, fuel: nat, name: string, sh: Shared): Outcome
    decreases fuel, 0, 0
  {
    if name !in files then Outcome(sh, None)
    else if fuel == 0 then Outcome(sh, Some(Diverges))
    else
      var inner := FileFrom(cfg, files, fuel - 1, name, files[name], 0, Cond([], true), sh);
      if inner.failure == Some(Diverges) then inner else Outcome(inner.shared, None)
  }

  /** What one physical line leads to: the next conditional state and
      shared state, or the end of the file's pass. */
  datatype Step = Next(c: Cond, sh: Shared) | Stop(o: Outcome)

  /** One physical line, numbered `number`. An empty line is passed over
      before its comment is removed; the conditional directives act in any
      region, everything else only in an enabled one. */
  function LineStep(cfg: Config, files: Files, fuel: nat, source: string, line: string, number: nat,
                    c: Cond, sh: Shared): Step
    decreases fuel, 0, 2
  {
    if |line| == 0 then Next(c, sh)
    else
      var text := Lines.RemoveComment(line, cfg.commentDef);
      match Condition(text, c, sh.constants)
      case Err(e) => Stop(Outcome(sh, Some(e)))
      case Ok(c') =>
        if !c'.enabled then Next(c', sh)
        else
          var o := Directive(cfg, files, fuel, source, text, number, sh);
          if o.failure.Some? then Stop(o) else Next(c', o.shared)
  }

  /** The lines of one file from index `i` on; line `i` is numbered `i + 1`.
      Once the lines are used up an open conditional is an error. */
  function FileFrom(cfg: Config, files: Files, fuel: nat, source: string, lines: seq<string>,
                    i: nat, c: Cond, sh: Shared): Outcome
    requires i <= |lines|
    decreases fuel, 1, |lines| - i
  {
    if i == |lines| then
      if |c.stack| > 0 then Outcome(sh, Some(MissingEndif(|c.stack|))) else Outcome(sh, None)
    else
      match LineStep(cfg, files, fuel, source, lines[i], i + 1, c, sh)
      case Stop(o) => o
      case Next(c', sh') => FileFrom(cfg, files, fuel, source, lines, i + 1, c', sh')
  }

  /** The whole pass over one file: the items, or the error that made the
      original return null. */
  function Preprocess(cfg: Config, files: Files, fuel: nat, source: string, lines: seq<string>, constants: Table): (r: Result<Shared>)
  {
    var o := FileFrom(cfg, files, fuel, source, lines, 0, Cond([], true), Shared([], constants, []));
    if o.failure.Some? then Err(o.failure.value) else Ok(o.shared)
  }

  // ---------------------------------------------------------------------------
  // The imperative pass

  /** `getLineList`: the loop over the physical lines, with the conditional
      stack in a fixed array of `MaxStack` entries. */
  method GetLineList(cfg: Config, files: Files, fuel: nat, source: string, lines: seq<string>, sh0: Shared)
    returns (o: Outcome)
    ensures o == FileFrom(cfg, files, fuel, source, lines, 0, Cond([], true), sh0)
    decreases fuel, 1, 0
  {
    var lineEnabledStack := new bool[MaxStack];
    var index: int := -1;
    var enabled := true;
    var sh := sh0;
    var i: nat := 0;
    ghost var c := Cond([], true);
    ghost var whole := FileFrom(cfg, files, fuel, source, lines, 0, c, sh0);
    while i < |lines|
      invariant i <= |lines|
      invariant -1 <= index < MaxStack
      invariant c == Cond(lineEnabledStack[..index + 1], enabled)
      invariant whole == FileFrom(cfg, files, fuel, source, lines, i, c, sh)
    {
      ghost var sh1 := sh;
      ghost var c0 := c;
      var failure;
      index, enabled, sh, failure := ProcessLine(cfg, files, fuel, source, lines[i], i + 1, lineEnabledStack, index, enabled, sh, c);
      if failure.Some? {
        FileFromStop(cfg, files, fuel, source, lines, i, c0, sh1, Outcome(sh, failure));
        return Outcome(sh, failure);
      }
      c := Cond(lineEnabledStack[..index + 1], enabled);
      FileFromNext(cfg, files, fuel, source, lines, i, c0, sh1, c, sh);
      i := i + 1;
    }
    FileFromEnd(cfg, files, fuel, source, lines, c, sh);
    if index >= 0 {
      return Outcome(sh, Some(MissingEndif(index + 1)));
    }
    o := Outcome(sh, None);
  }

  /** One physical line: the conditional directives first, then, in an
      enabled region, the line itself. */
  method ProcessLine(cfg: Config, files: Files, fuel: nat, source: string, line: string, number: nat,
                     lineEnabledStack: array<bool>, index: int, enabled: bool, sh: Shared, ghost c: Cond)
    returns (index': int, enabled': bool, sh': Shared, failure: Option<Error>)
    requires lineEnabledStack.Length == MaxStack && -1 <= index < MaxStack
    requires c == Cond(lineEnabledStack[..index + 1], enabled)
    modifies lineEnabledStack
    ensures -1 <= index' < MaxStack
    ensures failure.Some? ==> LineStep(cfg, files, fuel, source, line, number, c, sh) == Stop(Outcome(sh', failure))
    ensures failure.None? ==> LineStep(cfg, files, fuel, source, line, number, c, sh)
                              == Next(Cond(lineEnabledStack[..index' + 1], enabled'), sh')
    decreases fuel, 0, 3
  {
    index', enabled', sh', failure := index, enabled, sh, None;
    if |line| == 0 {
      return;
    }
    var text := Lines.RemoveComment(line, cfg.commentDef);
    var next := Conditional(lineEnabledStack, index, enabled, text, sh.constants, c);
    if next.Err? {
      failure := Some(next.error);
      return;
    }
    index', enabled' := next.value.0, next.value.1;
    if enabled' {
      var d := RunDirective(cfg, files, fuel, source, text, number, sh);
      sh', failure := d.shared, d.failure;
    }
  }

  /** The conditional directives on the array stack: the new index and
      enabled flag, or the error. */
  method Conditional(lineEnabledStack: array<bool>, index: int, enabled: bool, text: string, constants: Table, ghost c: Cond)
    returns (r: Result<(int, bool)>)
    requires lineEnabledStack.Length == MaxStack && -1 <= index < MaxStack
    requires c == Cond(lineEnabledStack[..index + 1], enabled)
    modifies lineEnabledStack
    ensures r.Ok? ==> -1 <= r.value.0 < MaxStack
    ensures Condition(text, c, constants)
            == if r.Ok? then Ok(Cond(lineEnabledStack[..r.value.0 + 1], r.value.1)) else Err(r.error)
  {
    if Bare(text, "#ifdef") || Bare(text, "#ifndef") {
      return Err(IndexOutOfBounds);
    }
    if Opens(text, "#ifdef") || Opens(text, "#ifndef") {
      var defined := if Opens(text, "#ifdef") then Argument(text, "#ifdef") in constants
                     else Argument(text, "#ifndef") !in constants;
      if index + 1 >= MaxStack {
        return Err(ConditionalTooDeep);
      }
      lineEnabledStack[index + 1] := defined;
      assert lineEnabledStack[..index + 2] == c.stack + [defined];
      return Ok((index + 1, defined));
    }
    if text == "#else" {
      if index < 0 {
        return Err(UnexpectedElse);
      }
      var top := !lineEnabledStack[index];
      lineEnabledStack[index] := top;
      assert lineEnabledStack[..index + 1] == c.stack[..index] + [top];
      return Ok((index, top));
    }
    if text == "#endif" {
      if index < 0 {
        return Err(UnexpectedEndif);
      }
      var top := if index - 1 < 0 then true else lineEnabledStack[index - 1];
      assert c.stack[..index] == lineEnabledStack[..index];
      return Ok((index - 1, top));
    }
    return Ok((index, enabled));
  }

  /** The directives of an enabled line, including the recursive pass over an
      included file. */
  method RunDirective(cfg: Config, files: Files, fuel: nat, source: string, text: string, number: nat, sh: Shared)
    returns (o: Outcome)
    ensures o == Directive(cfg, files, fuel, source, text, number, sh)
    decreases fuel, 0, 1
  {
    if !StartsWith(text, "#") {
      return Outcome(sh.(items := sh.items + [LineItem(text, number, source)]), None);
    }
    if Bare(text, "#define") || Bare(text, "#error") || Bare(text, "#include") || Bare(text, "#undef") {
      return Outcome(sh, Some(IndexOutOfBounds));
    }
    if Opens(text, "#define") {
      return Define(cfg, Argument(text, "#define"), sh);
    }
    if Opens(text, "#error") {
      return Outcome(sh, Some(UserError(Argument(text, "#error"))));
    }
    if Opens(text, "#include") {
      var includeName := Lines.GetIncludeName(text[8..]);
      if includeName.Err? {
        return Outcome(sh, Some(includeName.error));
      }
      if includeName.value.None? || includeName.value.value !in files {
        return Outcome(sh, None);
      }
      var name := includeName.value.value;
      if fuel == 0 {
        return Outcome(sh, Some(Diverges));
      }
      var inner := GetLineList(cfg, files, fuel - 1, name, files[name], sh);
      if inner.failure == Some(Diverges) {
        return inner;
      }
      return Outcome(inner.shared, None);
    }
    if Opens(text, "#undef") {
      return Outcome(sh.(constants := sh.constants - {Argument(text, "#undef")}), None);
    }
    return Outcome(sh, None);
  }

  // ---------------------------------------------------------------------------
  // What the pass promises

  /** A line item made from physical line `number` of file `source`: its text
      is that line without its comment, and it is not a directive. */
  predicate FromFile(cd: string, source: string, lines: seq<string>, it: LineItem) {
    && it.source == source && 1 <= it.number <= |lines|
    && it.line == Lines.RemoveComment(lines[it.number - 1], cd)
    && !StartsWith(it.line, "#")
  }

  /** A line item made from a line of the file being read or of a file it
      can include. */
  predicate Traceable(cd: string, files: Files, source: string, lines: seq<string>, it: LineItem) {
    FromFile(cd, source, lines, it) || (it.source in files && FromFile(cd, it.source, files[it.source], it))
  }

  /** `b` is `a` with traceable items appended. */
  predicate Grows(cd: string, files: Files, source: string, lines: seq<string>, a: seq<LineItem>, b: seq<LineItem>) {
    && |a| <= |b| && b[..|a|] == a
    && forall k :: |a| <= k < |b| ==> Traceable(cd, files, source, lines, b[k])
  }

  lemma GrowsTransitive(cd: string, files: Files, source: string, lines: seq<string>, a: seq<LineItem>, b: seq<LineItem>, c: seq<LineItem>)
    requires Grows(cd, files, source, lines, a, b) && Grows(cd, files, source, lines, b, c)
    ensures Grows(cd, files, source, lines, a, c)
  {
    assert c[..|a|] == c[..|b|][..|a|];
  }

  /** What an included file adds is traceable from the including one. */
  lemma GrowsIncluded(cd: string, files: Files, name: string, source: string, lines: seq<string>, a: seq<LineItem>, b: seq<LineItem>)
    requires name in files && Grows(cd, files, name, files[name], a, b)
    ensures Grows(cd, files, source, lines, a, b)
  {
    forall k | |a| <= k < |b|
      ensures Traceable(cd, files, source, lines, b[k])
    {
      assert Traceable(cd, files, name, files[name], b[k]);
    }
  }

  lemma GrowsNothing(cd: string, files: Files, source: string, lines: seq<string>, a: seq<LineItem>)
    ensures Grows(cd, files, source, lines, a, a)
  {
    assert a[..|a|] == a;
  }

  /** The items only grow, and every item added is a line of the file (or
      of a file it includes) with its comment removed, under the file's name
      and its 1-based physical line number. */
  lemma {:induction false} FileFromItems(cfg: Config, files: Files, fuel: nat, source: string, lines: seq<string>,
                                         i: nat, c: Cond, sh: Shared)
    requires i <= |lines|
    ensures Grows(cfg.commentDef, files, source, lines, sh.items, FileFrom(cfg, files, fuel, source, lines, i, c, sh).shared.items)
    decreases fuel, 1, |lines| - i
  {
    if i == |lines| {
      GrowsNothing(cfg.commentDef, files, source, lines, sh.items);
    } else {
      var step := LineStep(cfg, files, fuel, source, lines[i], i + 1, c, sh);
      LineStepItems(cfg, files, fuel, source, lines, i + 1, c, sh);
      if step.Next? {
        assert FileFrom(cfg, files, fuel, source, lines, i, c, sh) == FileFrom(cfg, files, fuel, source, lines, i + 1, step.c, step.sh);
        FileFromItems(cfg, files, fuel, source, lines, i + 1, step.c, step.sh);
        GrowsTransitive(cfg.commentDef, files, source, lines, sh.items, step.sh.items,
                        FileFrom(cfg, files, fuel, source, lines, i + 1, step.c, step.sh).shared.items);
      } else {
        assert FileFrom(cfg, files, fuel, source, lines, i, c, sh) == step.o;
      }
    }
  }

  /** Every item of a successful pass is a line of the file, or of a file
      it includes, with its comment removed, its name and its line number. */
  lemma PreprocessItems(cfg: Config, files: Files, fuel: nat, source: string, lines: seq<string>, constants: Table)
    ensures var r := Preprocess(cfg, files, fuel, source, lines, constants);
            r.Ok? ==> forall k :: 0 <= k < |r.value.items| ==> Traceable(cfg.commentDef, files, source, lines, r.value.items[k])
  {
    FileFromItems(cfg, files, fuel, source, lines, 0, Cond([], true), Shared([], constants, []));
  }

  lemma {:induction false} LineStepItems(cfg: Config, files: Files, fuel: nat, source: string, lines: seq<string>,
                                         number: nat, c: Cond, sh: Shared)
    requires 1 <= number <= |lines|
    ensures var step := LineStep(cfg, files, fuel, source, lines[number - 1], number, c, sh);
            Grows(cfg.commentDef, files, source, lines, sh.items, if step.Next? then step.sh.items else step.o.shared.items)
    decreases fuel, 0, 3
  {
    var line := lines[number - 1];
    if |line| == 0 {
      GrowsNothing(cfg.commentDef, files, source, lines, sh.items);
    } else {
      var text := Lines.RemoveComment(line, cfg.commentDef);
      var cond := Condition(text, c, sh.constants);
      if cond.Err? || !cond.value.enabled {
        GrowsNothing(cfg.commentDef, files, source, lines, sh.items);
      } else {
        DirectiveItems(cfg, files, fuel, source, lines, text, number, sh);
      }
    }
  }

  lemma {:induction false} DirectiveItems(cfg: Config, files: Files, fuel: nat, source: string, lines: seq<string>,
                                          text: string, number: nat, sh: Shared)
    requires 1 <= number <= |lines| && text == Lines.RemoveComment(lines[number - 1], cfg.commentDef)
    ensures Grows(cfg.commentDef, files, source, lines, sh.items, Directive(cfg, files, fuel, source, text, number, sh).shared.items)
    decreases fuel, 0, 2
  {
    var o := Directive(cfg, files, fuel, source, text, number, sh);
    if !StartsWith(text, "#") {
      DirectiveLineItems(cfg, files, fuel, source, lines, text, number, sh);
    } else if Opens(text, "#include") && !Bare(text, "#define") && !Opens(text, "#define") && !Opens(text, "#error") {
      DirectiveIncludeItems(cfg, files, fuel, source, lines, text, number, sh);
    } else {
      DirectiveKeepsItems(cfg, files, fuel, source, text, number, sh);
      GrowsNothing(cfg.commentDef, files, source, lines, sh.items);
    }
  }

  lemma DirectiveLineItems(cfg: Config, files: Files, fuel: nat, source: string, lines: seq<string>,
                           text: string, number: nat, sh: Shared)
    requires 1 <= number <= |lines| && text == Lines.RemoveComment(lines[number - 1], cfg.commentDef)
    requires !StartsWith(text, "#")
    ensures Grows(cfg.commentDef, files, source, lines, sh.items, Directive(cfg, files, fuel, source, text, number, sh).shared.items)
  {
    var o := Directive(cfg, files, fuel, source, text, number, sh);
    assert o.shared.items == sh.items + [LineItem(text, number, source)];
    assert FromFile(cfg.commentDef, source, lines, o.shared.items[|sh.items|]);
    assert o.shared.items[..|sh.items|] == sh.items;
  }

  lemma {:induction false} DirectiveIncludeItems(cfg: Config, files: Files, fuel: nat, source: string, lines: seq<string>,
                                                 text: string, number: nat, sh: Shared)
    requires StartsWith(text, "#") && Opens(text, "#include")
    requires !Bare(text, "#define") && !Opens(text, "#define") && !Opens(text, "#error")
    ensures Grows(cfg.commentDef, files, source, lines, sh.items, Directive(cfg, files, fuel, source, text, number, sh).shared.items)
    decreases fuel, 0, 1
  {
    var o := Directive(cfg, files, fuel, source, text, number, sh);
    var name := Lines.GetIncludeName(text[8..]);
    assert o == match name
                case Err(e) => Outcome(sh, Some(e))
                case Ok(None) => Outcome(sh, None)
                case Ok(Some(n)) => Include(cfg, files, fuel, n, sh);
    if name.Ok? && name.value.Some? && name.value.value in files {
      IncludeItems(cfg, files, fuel, name.value.value, sh);
      GrowsIncluded(cfg.commentDef, files, name.value.value, source, lines, sh.items, o.shared.items);
    } else {
      GrowsNothing(cfg.commentDef, files, source, lines, sh.items);
    }
  }

  /** Every directive other than `#include` leaves the items as they are. */
  lemma DirectiveKeepsItems(cfg: Config, files: Files, fuel: nat, source: string, text: string, number: nat, sh: Shared)
    requires StartsWith(text, "#")
    requires !(Opens(text, "#include") && !Bare(text, "#define") && !Opens(text, "#define") && !Opens(text, "#error"))
    ensures Directive(cfg, files, fuel, source, text, number, sh).shared.items == sh.items
  {
  }

  lemma {:induction false} IncludeItems(cfg: Config, files: Files, fuel: nat, name: string, sh: Shared)
    ensures name in files ==>
              Grows(cfg.commentDef, files, name, files[name], sh.items, Include(cfg, files, fuel, name, sh).shared.items)
    decreases fuel, 0, 0
  {
    if name in files {
      if fuel == 0 {
        GrowsNothing(cfg.commentDef, files, name, files[name], sh.items);
      } else {
        FileFromItems(cfg, files, fuel - 1, name, files[name], 0, Cond([], true), sh);
      }
    }
  }

  /** Per line: an empty line changes nothing; a failing conditional stops
      the file; in a disabled region nothing but the conditional state
      changes; in an enabled one a line that is not a directive is emitted
      under its physical line number. */
  lemma LineStepCases(cfg: Config, files: Files, fuel: nat, source: string, line: string, number: nat, c: Cond, sh: Shared)
    ensures |line| == 0 ==> LineStep(cfg, files, fuel, source, line, number, c, sh) == Next(c, sh)
    ensures |line| > 0 ==>
              var text := Lines.RemoveComment(line, cfg.commentDef);
              var r := Condition(text, c, sh.constants);
              var step := LineStep(cfg, files, fuel, source, line, number, c, sh);
              && (r.Err? ==> step == Stop(Outcome(sh, Some(r.error))))
              && (r.Ok? && !r.value.enabled ==> step == Next(r.value, sh))
              && (r.Ok? && r.value.enabled && !StartsWith(text, "#") ==>
                    step == Next(r.value, sh.(items := sh.items + [LineItem(text, number, source)])))
  {
  }

  /** A directive keyword with nothing after it fails as `substring` does. */
  lemma DirectiveBare(cfg: Config, files: Files, fuel: nat, source: string, text: string, number: nat, sh: Shared)
    requires Bare(text, "#define") || Bare(text, "#error") || Bare(text, "#include") || Bare(text, "#undef")
    ensures Directive(cfg, files, fuel, source, text, number, sh) == Outcome(sh, Some(IndexOutOfBounds))
  {
  }

  /** `#error` stops with its message. */
  lemma DirectiveError(cfg: Config, files: Files, fuel: nat, source: string, text: string, number: nat, sh: Shared)
    requires Opens(text, "#error")
    ensures Directive(cfg, files, fuel, source, text, number, sh) == Outcome(sh, Some(UserError(Argument(text, "#error"))))
  {
    assert text[..6][1] == 'e';
    assert !Bare(text, "#define") && !Opens(text, "#define") by {
      if |text| >= 7 { assert text[..7][1] != "#define"[1]; }
    }
  }

  /** `#undef` removes its constant and goes on. */
  lemma DirectiveUndef(cfg: Config, files: Files, fuel: nat, source: string, text: string, number: nat, sh: Shared)
    requires Opens(text, "#undef")
    ensures Directive(cfg, files, fuel, source, text, number, sh)
            == Outcome(sh.(constants := sh.constants - {Argument(text, "#undef")}), None)
  {
    assert text[..6][1] == 'u' && text[..6][2] == 'n';
    assert !Opens(text, "#define") by {
      if |text| >= 7 { assert text[..7][1] != "#define"[1]; }
    }
    assert !Opens(text, "#error") by { assert text[..6] != "#error" by { assert text[..6][1] != "#error"[1]; } }
    assert !Opens(text, "#include") by {
      if |text| >= 8 { assert text[..8][1] != "#include"[1]; }
    }
  }

  /** `#define` defines its argument. */
  lemma DirectiveDefine(cfg: Config, files: Files, fuel: nat, source: string, text: string, number: nat, sh: Shared)
    requires Opens(text, "#define")
    ensures Directive(cfg, files, fuel, source, text, number, sh) == Define(cfg, Argument(text, "#define"), sh)
  {
    assert text[..7][1] == 'd';
    assert StartsWith(text, "#") by { assert text[..1] == text[..7][..1]; }
    assert !Bare(text, "#error") && !Bare(text, "#include") && !Bare(text, "#undef") by {
      assert text[1] == 'd';
    }
  }

  /** A `#define` adds its constant as `addConstant` does, or fails with it,
      the table keeping what `addConstant` stored before it threw. */
  lemma DefineCases(cfg: Config, definition: string, sh: Shared)
    ensures var r := Constants.AddConstant(cfg, sh.constants, sh.log, definition);
            Define(cfg, definition, sh)
            == if r.Err? then Outcome(sh.(constants := Constants.TableAfter(cfg, sh.constants, sh.log, definition)), Some(r.error))
               else Outcome(sh.(constants := r.value.0, log := r.value.1), None)
  {
  }

  /** A redefinition that fails under warnings-as-errors stops the pass with
      the new value already in the table, where an including file that
      swallows the failure goes on with it. */
  lemma FailedDefineKeepsValue(cfg: Config, definition: string, sh: Shared)
    requires cfg.useWarningsAsErrors
    requires |Tokens(definition, Constants.Separators)| >= 2
    requires Tokens(definition, Constants.Separators)[0] in sh.constants
    requires Resolver.GuessType(sh.constants, Some(Constants.ConstantValue(definition, Tokens(definition, Constants.Separators)))).Ok?
    ensures var o := Define(cfg, definition, sh);
            var name := Tokens(definition, Constants.Separators)[0];
            && o.failure == Some(WarningAsError(Redefined(name)))
            && name in o.shared.constants
            && o.shared.constants[name].value == Some(Constants.ConstantValue(definition, Tokens(definition, Constants.Separators)))
            && o.shared.items == sh.items && o.shared.log == sh.log
  {
    Constants.FailedRedefinitionKept(cfg, sh.constants, sh.log, definition);
  }

  /** An included file that fails for a reason other than the runaway
      recursion leaves what it added and lets the including file go on. */
  lemma IncludeSwallowsErrors(cfg: Config, files: Files, fuel: nat, name: string, sh: Shared)
    requires name in files && fuel > 0
    ensures var inner := FileFrom(cfg, files, fuel - 1, name, files[name], 0, Cond([], true), sh);
            inner.failure != Some(Diverges) ==> Include(cfg, files, fuel, name, sh) == Outcome(inner.shared, None)
    ensures Include(cfg, files, fuel, name, sh).failure.Some? ==> Include(cfg, files, fuel, name, sh).failure == Some(Diverges)
  {
  }

  /** The items of a file without directives: every non-empty line with its
      comment removed, under its 1-based line number. */
  function PlainItems(cd: string, source: string, lines: seq<string>, i: nat): seq<LineItem>
    requires i <= |lines|
    decreases |lines| - i
  {
    if i == |lines| then []
    else if |lines[i]| == 0 then PlainItems(cd, source, lines, i + 1)
    else [LineItem(Lines.RemoveComment(lines[i], cd), i + 1, source)] + PlainItems(cd, source, lines, i + 1)
  }

  /** A file none of whose lines is a directive passes through whole: the
      pass succeeds, emits exactly those lines and changes nothing else. */
  lemma {:induction false} PlainFile(cfg: Config, files: Files, fuel: nat, source: string, lines: seq<string>, i: nat, sh: Shared)
    requires i <= |lines|
    requires forall k :: i <= k < |lines| && |lines[k]| > 0 ==> !StartsWith(Lines.RemoveComment(lines[k], cfg.commentDef), "#")
    ensures FileFrom(cfg, files, fuel, source, lines, i, Cond([], true), sh)
            == Outcome(sh.(items := sh.items + PlainItems(cfg.commentDef, source, lines, i)), None)
    decreases |lines| - i
  {
    if i == |lines| {
      FileFromEnd(cfg, files, fuel, source, lines, Cond([], true), sh);
      assert sh.items + [] == sh.items;
    } else {
      var emitted := if |lines[i]| == 0 then [] else [LineItem(Lines.RemoveComment(lines[i], cfg.commentDef), i + 1, source)];
      PlainFile(cfg, files, fuel, source, lines, i + 1, sh.(items := sh.items + emitted));
      PlainFileStep(cfg, files, fuel, source, lines, i, sh);
    }
  }

  /** One plain line of `PlainFile`: given the rest of the file, the line's item goes first. */
  lemma PlainFileStep(cfg: Config, files: Files, fuel: nat, source: string, lines: seq<string>, i: nat, sh: Shared)
    requires i < |lines|
    requires |lines[i]| > 0 ==> !StartsWith(Lines.RemoveComment(lines[i], cfg.commentDef), "#")
    requires var emitted := if |lines[i]| == 0 then [] else [LineItem(Lines.RemoveComment(lines[i], cfg.commentDef), i + 1, source)];
             var sh' := sh.(items := sh.items + emitted);
             FileFrom(cfg, files, fuel, source, lines, i + 1, Cond([], true), sh')
             == Outcome(sh'.(items := sh'.items + PlainItems(cfg.commentDef, source, lines, i + 1)), None)
    ensures FileFrom(cfg, files, fuel, source, lines, i, Cond([], true), sh)
            == Outcome(sh.(items := sh.items + PlainItems(cfg.commentDef, source, lines, i)), None)
  {
    var emitted := if |lines[i]| == 0 then [] else [LineItem(Lines.RemoveComment(lines[i], cfg.commentDef), i + 1, source)];
    var sh' := sh.(items := sh.items + emitted);
    PlainLine(cfg, files, fuel, source, lines[i], i + 1, sh);
    FileFromNext(cfg, files, fuel, source, lines, i, Cond([], true), sh, Cond([], true), sh');
    var rest := PlainItems(cfg.commentDef, source, lines, i + 1);
    assert PlainItems(cfg.commentDef, source, lines, i) == emitted + rest;
    SeqAssoc(sh.items, emitted, rest);
  }

  lemma SeqAssoc(a: seq<LineItem>, b: seq<LineItem>, c: seq<LineItem>)
    ensures a + (b + c) == (a + b) + c
  {
  }

  lemma PlainLine(cfg: Config, files: Files, fuel: nat, source: string, line: string, number: nat, sh: Shared)
    requires |line| > 0 ==> !StartsWith(Lines.RemoveComment(line, cfg.commentDef), "#")
    ensures LineStep(cfg, files, fuel, source, line, number, Cond([], true), sh)
            == Next(Cond([], true), sh.(items := sh.items + if |line| == 0 then [] else [LineItem(Lines.RemoveComment(line, cfg.commentDef), number, source)]))
  {
    if |line| == 0 {
      assert sh.items + [] == sh.items;
    } else {
      var text := Lines.RemoveComment(line, cfg.commentDef);
      NoHashNoConditional(text);
      assert Condition(text, Cond([], true), sh.constants) == Ok(Cond([], true));
      LineStepCases(cfg, files, fuel, source, line, number, Cond([], true), sh);
    }
  }

  /** Every conditional directive starts with `#`. */
  lemma NoHashNoConditional(text: string)
    requires !StartsWith(text, "#")
    ensures !IsConditional(text)
  {
    if |text| > 0 {
      assert text[..1] == [text[0]];
    }
  }

  lemma FileFromEnd(cfg: Config, files: Files, fuel: nat, source: string, lines: seq<string>, c: Cond, sh: Shared)
    ensures FileFrom(cfg, files, fuel, source, lines, |lines|, c, sh)
            == if |c.stack| > 0 then Outcome(sh, Some(MissingEndif(|c.stack|))) else Outcome(sh, None)
  {
  }

  lemma FileFromStop(cfg: Config, files: Files, fuel: nat, source: string, lines: seq<string>, i: nat, c: Cond, sh: Shared, o: Outcome)
    requires i < |lines| && LineStep(cfg, files, fuel, source, lines[i], i + 1, c, sh) == Stop(o)
    ensures FileFrom(cfg, files, fuel, source, lines, i, c, sh) == o
  {
  }

  lemma FileFromNext(cfg: Config, files: Files, fuel: nat, source: string, lines: seq<string>, i: nat, c: Cond, sh: Shared, c': Cond, sh': Shared)
    requires i < |lines| && LineStep(cfg, files, fuel, source, lines[i], i + 1, c, sh) == Next(c', sh')
    ensures FileFrom(cfg, files, fuel, source, lines, i, c, sh) == FileFrom(cfg, files, fuel, source, lines, i + 1, c', sh')
  {
  }
}
