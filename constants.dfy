/** The constant table of DataCompiler.java: `#define` and `-D` symbols
    become constants (`addConstant`), a redefinition is reported
    (`checkElements`), and the command-line symbol list is split and defined
    one by one (`createElements`). */
module Constants {
  import opened Base
  import opened Text
  import opened Elements
  import Lines
  import Resolver
  import QuotedSplit

  /** The delimiters `addConstant` splits a definition at. */
  const Separators: set<char> := {'=', ' ', '\t'}

  function Lookup(t: Table, name: string): (r: Option<Element>)
    ensures r.Some? <==> name in t
  {
    if name in t then Some(t[name]) else None
  }

  /** `checkElements`: nothing to say about a first definition; a
      redefinition warns, or fails under warnings-as-errors. */
  function CheckElements(cfg: Config, log: seq<Warning>, name: string, previous: Option<Element>): (r: Result<seq<Warning>>)
    ensures previous.None? ==> r == Ok(log)
    ensures previous.Some? && !cfg.useWarningsAsErrors ==> r == Ok(log + [Redefined(name)])
    ensures previous.Some? && cfg.useWarningsAsErrors ==> r == Err(WarningAsError(Redefined(name)))
  {
    if previous.None? then Ok(log) else Warn(cfg, log, Redefined(name))
  }

  /** The constant a symbol without a value defines: the byte `1` (true),
      left for resolution. */
  function BareSymbol(name: string): Element {
    Element(name, Byte, 0, Some("1"), false)
  }

  /** The name a definition defines: the whole text when it is a single
      token (delimiters and padding included), otherwise the first token. */
  function DefinedName(line: string): (name: string)
    requires |Tokens(line, Separators)| > 0
  {
    Lines.SplitTokens(line, Separators)[0]
  }

  /** The value text of `NAME=VALUE`: the second token, except that a value
      starting with a quote is everything after the first `=` (trimmed),
      spaces included. */
  function ConstantValue(line: string, bits: seq<string>): (v: string)
    requires |bits| >= 2
    ensures !StartsWith(bits[1], "\"") ==> v == bits[1]
  {
    var index := IndexOfChar(line, '=');
    if StartsWith(bits[1], "\"") && index > 0 then Trim(line[index + 1..]) else bits[1]
  }

  /** `addConstant` with the redefinition reported as `checkElements`
      intends. A bare symbol is stored without any check; a valued one gets
      its type guessed (which may resolve other constants), is stored as
      already resolved, and a redefinition is reported. */
  function AddConstant(cfg: Config, t: Table, log: seq<Warning>, line: string): (r: Result<(Table, seq<Warning>)>)
    ensures |Tokens(line, Separators)| == 0 ==> r == Err(IndexOutOfBounds)
    ensures |Tokens(line, Separators)| == 1 ==> r == Ok((t[line := BareSymbol(line)], log))
    ensures r.Ok? && |Tokens(line, Separators)| >= 2 ==>
              var bits := Tokens(line, Separators);
              var (t', log') := r.value;
              && t'.Keys == t.Keys + {bits[0]}
              && t'[bits[0]].name == bits[0] && t'[bits[0]].checked
              && t'[bits[0]].value == Some(ConstantValue(line, bits))
              && Resolver.GuessType(t, Some(ConstantValue(line, bits))).Ok?
              && t'[bits[0]].etype == Resolver.GuessType(t, Some(ConstantValue(line, bits))).value.1
              && log' == (if bits[0] in t then log + [Redefined(bits[0])] else log)
    ensures |Tokens(line, Separators)| >= 2 && Tokens(line, Separators)[0] in t && cfg.useWarningsAsErrors ==> r.Err?
  {
    var bits := Lines.SplitTokens(line, Separators);
    if |bits| == 1 then Ok((t[line := BareSymbol(line)], log))
    else if |bits| == 0 then Err(IndexOutOfBounds)
    else
      var (t', previous) :- Put(t, line, bits);
      var log' :- CheckElements(cfg, log, bits[0], previous);
      Ok((t', log'))
  }

  /** The valued branch of `addConstant` up to `constants.put`: the type is
      guessed (which may resolve other constants), then the element is
      stored as resolved; the entry it replaces comes back, as `put`
      returns it. */
  function Put(t: Table, line: string, bits: seq<string>): (r: Result<(Table, Option<Element>)>)
    requires |bits| >= 2
    ensures Resolver.GuessType(t, Some(ConstantValue(line, bits))).Err? ==>
              r == Err(Resolver.GuessType(t, Some(ConstantValue(line, bits))).error)
    ensures r.Ok? ==> (r.value.1.Some? <==> bits[0] in t) && r.value.0.Keys == t.Keys + {bits[0]}
    ensures r.Ok? ==> var g := Resolver.GuessType(t, Some(ConstantValue(line, bits)));
                      g.Ok? && r.value.0[bits[0]] == Element(bits[0], g.value.1, 0, Some(ConstantValue(line, bits)), true)
  {
    var value := ConstantValue(line, bits);
    var (t', ty) :- Resolver.GuessType(t, Some(value));
    Ok((t'[bits[0] := Element(bits[0], ty, 0, Some(value), true)], Lookup(t', bits[0])))
  }

  /** The table `addConstant` leaves behind whether or not it throws. The
      put comes before `checkElements`, so a redefinition that fails under
      warnings-as-errors has already replaced the constant; a failing
      `guessType` comes before the put and leaves the table as it was. */
  function TableAfter(cfg: Config, t: Table, log: seq<Warning>, line: string): (t': Table)
    ensures AddConstant(cfg, t, log, line).Ok? ==> t' == AddConstant(cfg, t, log, line).value.0
    ensures |Tokens(line, Separators)| == 0 ==> t' == t
    ensures |Tokens(line, Separators)| >= 2 ==>
              var bits := Tokens(line, Separators);
              var value := ConstantValue(line, bits);
              var g := Resolver.GuessType(t, Some(value));
              && (g.Err? ==> t' == t)
              && (g.Ok? ==> t'.Keys == t.Keys + {bits[0]} && t'[bits[0]] == Element(bits[0], g.value.1, 0, Some(value), true))
  {
    var bits := Lines.SplitTokens(line, Separators);
    if |bits| == 1 then t[line := BareSymbol(line)]
    else if |bits| == 0 then t
    else
      match Put(t, line, bits)
      case Err(_) => t
      case Ok((t', _)) => t'
  }

  /** Under warnings-as-errors a valued redefinition fails, and yet the
      table already holds the new definition. */
  lemma FailedRedefinitionKept(cfg: Config, t: Table, log: seq<Warning>, line: string)
    requires cfg.useWarningsAsErrors && |Tokens(line, Separators)| >= 2 && Tokens(line, Separators)[0] in t
    requires Resolver.GuessType(t, Some(ConstantValue(line, Tokens(line, Separators)))).Ok?
    ensures AddConstant(cfg, t, log, line) == Err(WarningAsError(Redefined(Tokens(line, Separators)[0])))
    ensures TableAfter(cfg, t, log, line)[Tokens(line, Separators)[0]].value == Some(ConstantValue(line, Tokens(line, Separators)))
  {
  }

  /** `addConstant` as written: `checkElements` builds its message from
      `DataCompiler.li`, which only `binarize` sets, so during preprocessing
      and symbol definition any valued redefinition dereferences null. */
  function AddConstantAsWritten(cfg: Config, t: Table, log: seq<Warning>, line: string): (r: Result<(Table, seq<Warning>)>)
    ensures |Tokens(line, Separators)| >= 2 && Tokens(line, Separators)[0] in t ==> r.Err?
  {
    var bits := Lines.SplitTokens(line, Separators);
    if |bits| == 1 then Ok((t[line := BareSymbol(line)], log))
    else if |bits| == 0 then Err(IndexOutOfBounds)
    else
      var value := ConstantValue(line, bits);
      var (t', ty) :- Resolver.GuessType(t, Some(value));
      if bits[0] in t' then Err(NullValue)
      else Ok((t'[bits[0] := Element(bits[0], ty, 0, Some(value), true)], log))
  }

  /** The two agree on every first definition; on a redefinition the code
      as written fails where the intended code warns. */
  lemma RedefinitionFails(cfg: Config, t: Table, log: seq<Warning>, line: string)
    requires |Tokens(line, Separators)| >= 2
    ensures Tokens(line, Separators)[0] !in t ==> AddConstantAsWritten(cfg, t, log, line) == AddConstant(cfg, t, log, line)
    ensures Tokens(line, Separators)[0] in t ==> AddConstantAsWritten(cfg, t, log, line).Err?
    ensures Tokens(line, Separators)[0] in t && !cfg.useWarningsAsErrors
            && Resolver.GuessType(t, Some(ConstantValue(line, Tokens(line, Separators)))).Ok?
            ==> AddConstant(cfg, t, log, line).Ok? && AddConstant(cfg, t, log, line).value.1 == log + [Redefined(Tokens(line, Separators)[0])]
  {
  }

  /** A bare symbol is stored under its whole text: `A=` defines `A=`. */
  lemma BareSymbolKeepsDelimiter(cfg: Config, t: Table, log: seq<Warning>)
    ensures AddConstant(cfg, t, log, " A=") == Ok((t[" A=" := BareSymbol(" A=")], log))
  {
    Lines.SplitKeepsPadding();
  }

  /** The symbols from `parts[i..]` defined one after the other; the first
      failure stops the definition. */
  function DefineAll(cfg: Config, t: Table, log: seq<Warning>, parts: seq<string>): (r: Result<(Table, seq<Warning>)>)
    decreases |parts|
  {
    if |parts| == 0 then Ok((t, log))
    else
      var (t', log') :- AddConstant(cfg, t, log, parts[0]);
      DefineAll(cfg, t', log', parts[1..])
  }

  /** The name `addConstant` stores a part under. */
  function NameOf(part: string): string {
    var bits := Lines.SplitTokens(part, Separators);
    if |bits| == 0 then part else bits[0]
  }

  /** The names the parts define, in a set. */
  function Names(parts: seq<string>): (r: set<string>)
    ensures forall j :: 0 <= j < |parts| ==> NameOf(parts[j]) in r
  {
    if |parts| == 0 then {} else {NameOf(parts[0])} + Names(parts[1..])
  }

  /** Defining symbols adds exactly their names to the table. */
  lemma {:induction false} DefineAllKeys(cfg: Config, t: Table, log: seq<Warning>, parts: seq<string>)
    ensures DefineAll(cfg, t, log, parts).Ok? ==> DefineAll(cfg, t, log, parts).value.0.Keys == t.Keys + Names(parts)
    decreases |parts|
  {
    if |parts| > 0 {
      var step := AddConstant(cfg, t, log, parts[0]);
      if step.Ok? {
        DefineAllKeys(cfg, step.value.0, step.value.1, parts[1..]);
      }
    }
  }

  /** `log'` is `log` followed by redefinition warnings only. */
  predicate Extends(log: seq<Warning>, log': seq<Warning>) {
    && |log| <= |log'| && log'[..|log|] == log
    && forall k :: |log| <= k < |log'| ==> log'[k].Redefined?
  }

  lemma ExtendsTransitive(a: seq<Warning>, b: seq<Warning>, c: seq<Warning>)
    requires Extends(a, b) && Extends(b, c)
    ensures Extends(a, c)
  {
    assert c[..|a|] == c[..|b|][..|a|];
  }

  /** One definition appends at most a redefinition warning. */
  lemma AddConstantWarns(cfg: Config, t: Table, log: seq<Warning>, line: string)
    ensures AddConstant(cfg, t, log, line).Ok? ==> Extends(log, AddConstant(cfg, t, log, line).value.1)
  {
    var r := AddConstant(cfg, t, log, line);
    if r.Ok? && |Tokens(line, Separators)| >= 2 {
      var name := Tokens(line, Separators)[0];
      if name in t {
        assert r.value.1 == log + [Redefined(name)];
        assert r.value.1[..|log|] == log;
      }
    }
  }

  /** Defining symbols only appends to the log, and only redefinitions. */
  lemma {:induction false} DefineAllWarnings(cfg: Config, t: Table, log: seq<Warning>, parts: seq<string>)
    ensures DefineAll(cfg, t, log, parts).Ok? ==> Extends(log, DefineAll(cfg, t, log, parts).value.1)
    decreases |parts|
  {
    if |parts| == 0 {
      assert log[..|log|] == log;
    } else {
      var step := AddConstant(cfg, t, log, parts[0]);
      if step.Ok? {
        var log' := step.value.1;
        AddConstantWarns(cfg, t, log, parts[0]);
        DefineAllWarnings(cfg, step.value.0, log', parts[1..]);
        var r := DefineAll(cfg, step.value.0, log', parts[1..]);
        if r.Ok? {
          ExtendsTransitive(log, log', r.value.1);
        }
      }
    }
  }

  /** Symbols with distinct new names, each with a value, are defined
      without a warning. */
  lemma {:induction false} DistinctNamesNoWarning(cfg: Config, t: Table, log: seq<Warning>, parts: seq<string>)
    requires forall j :: 0 <= j < |parts| ==> NameOf(parts[j]) !in t
    requires forall j, k :: 0 <= j < k < |parts| ==> NameOf(parts[j]) != NameOf(parts[k])
    ensures DefineAll(cfg, t, log, parts).Ok? ==> DefineAll(cfg, t, log, parts).value.1 == log
    decreases |parts|
  {
    if |parts| > 0 {
      var step := AddConstant(cfg, t, log, parts[0]);
      if step.Ok? {
        var (t', log') := step.value;
        assert log' == log;
        assert t'.Keys == t.Keys + {NameOf(parts[0])};
        forall j | 0 <= j < |parts[1..]| ensures NameOf(parts[1..][j]) !in t' {
          assert parts[1..][j] == parts[j + 1];
        }
        forall j, k | 0 <= j < k < |parts[1..]| ensures NameOf(parts[1..][j]) != NameOf(parts[1..][k]) {
          assert parts[1..][j] == parts[j + 1] && parts[1..][k] == parts[k + 1];
        }
        DistinctNamesNoWarning(cfg, t', log', parts[1..]);
      }
    }
  }

  /** `createElements`: a fresh, empty table; with a symbol list, each part
      of it split at commas (outside quotes) is defined in order. */
  method CreateElements(cfg: Config, symbols: Option<string>) returns (r: Result<(Table, seq<Warning>)>)
    ensures symbols.None? ==> r == Ok((map[], []))
    ensures symbols.Some? ==> r == DefineAll(cfg, map[], [], QuotedSplit.Split(symbols.value, ',', false))
  {
    var constants: Table := map[];
    var log: seq<Warning> := [];
    if symbols.None? {
      return Ok((constants, log));
    }
    var symParts := QuotedSplit.Split(symbols.value, ',', false);
    for i := 0 to |symParts|
      invariant DefineAll(cfg, map[], [], symParts) == DefineAll(cfg, constants, log, symParts[i..])
    {
      assert symParts[i..][1..] == symParts[i + 1..];
      var step := AddConstant(cfg, constants, log, symParts[i]);
      if step.Err? {
        return Err(step.error);
      }
      constants, log := step.value.0, step.value.1;
    }
    r := Ok((constants, log));
  }
}
