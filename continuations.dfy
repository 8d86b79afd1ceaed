/** `Utils.removeComments`: the second pass over the preprocessed lines. Blank
    lines and comment lines are dropped, comments are cut off, and a line
    ending in a backslash is joined with the lines after it; a multi-line
    string `NAME = "text" \` loses its inner quotes and is quoted once
    around the whole joined text. */
module Continuations {
  import opened Base
  import opened Text
  import opened Lines
  import opened LineItems

  /** Lines dropped before joining: blank, or starting with the marker. */
  predicate Skipped(line: string, commentDef: string) {
    IsWhiteSpace(line) || StartsWith(line, commentDef)
  }

  /** `endsWith("\\")`. */
  predicate Continued(line: string) {
    |line| > 0 && line[|line| - 1] == '\\'
  }

  /** The first line of a group, comment removed. When it is continued and
      an `=` comes before the first `"`, a quoted text between the `=` and
      the backslash loses its quotes and the group is a multi-line string
      (the flag). */
  function Opening(line: string, commentDef: string): (r: Result<(string, bool)>)
    ensures r.Ok? ==> (Continued(r.value.0) <==> Continued(RemoveComment(line, commentDef)))
    ensures r.Ok? && !r.value.1 ==> r.value.0 == RemoveComment(line, commentDef)
    ensures !Continued(RemoveComment(line, commentDef)) ==> r == Ok((RemoveComment(line, commentDef), false))
  {
    var line := RemoveComment(line, commentDef);
    if !Continued(line) then Ok((line, false))
    else
      var e := IndexOfChar(line, '=');
      var q := IndexOfChar(line, '"');
      if e > 0 && q > 0 && e < q then Requoted(line, e)
      else Ok((line, false))
  }

  /** A continued line whose text between the `=` at `e` and the backslash
      is quoted: that text without its quotes, and the multi-line flag. */
  function Requoted(line: string, e: nat): (r: Result<(string, bool)>)
    requires Continued(line) && e + 1 < |line|
    ensures r.Ok? ==> Continued(r.value.0)
    ensures r.Ok? && !r.value.1 ==> r.value.0 == line
  {
    var line2 := Trim(line[e + 1..|line| - 1]);
    if HasQuotes(line2) then
      var inner :- RemoveQuotes(line2);
      var joined := line[..e + 1] + inner + "\\";
      Ok((joined, true))
    else Ok((line, false))
  }

  /** The multi-line string form of a first line: a group marked as a
      multi-line string starts with a continued line (comment removed) with
      an `=` before the first `"`; everything up to that `=` and the final
      backslash stay, and the text between them is the quoted text that
      followed the `=`, without its quotes. */
  lemma OpeningMultiLine(line: string, commentDef: string)
    ensures var r := Opening(line, commentDef);
            var l := RemoveComment(line, commentDef);
            var e := IndexOfChar(l, '=');
            r.Ok? && r.value.1 ==>
              && Continued(l) && 0 < e < IndexOfChar(l, '"')
              && e + 2 <= |r.value.0| && Continued(r.value.0) && r.value.0[..e + 1] == l[..e + 1]
              && "\"" + r.value.0[e + 1..|r.value.0| - 1] + "\"" == Trim(l[e + 1..|l| - 1])
  {
    var l := RemoveComment(line, commentDef);
    var e := IndexOfChar(l, '=');
    var q := IndexOfChar(l, '"');
    var r := Opening(line, commentDef);
    if r.Ok? && r.value.1 {
      assert Continued(l) && e > 0 && q > 0 && e < q;
      var text := Trim(l[e + 1..|l| - 1]);
      assert HasQuotes(text) && |text| >= 2;
      var inner := text[1..|text| - 1];
      assert RemoveQuotes(text) == Ok(inner);
      var joined := l[..e + 1] + inner + "\\";
      assert r.value.0 == joined;
      assert joined[..e + 1] == l[..e + 1] && joined[e + 1..|joined| - 1] == inner;
    }
  }

  /** The text a multi-line string's first line becomes. */
  lemma OpeningOf(line: string, commentDef: string, l: string, e: int, text: string)
    requires l == RemoveComment(line, commentDef) && Continued(l)
    requires e == IndexOfChar(l, '=') && 0 < e < IndexOfChar(l, '"')
    requires text == Trim(l[e + 1..|l| - 1]) && HasQuotes(text) && |text| >= 2
    ensures Opening(line, commentDef) == Ok((l[..e + 1] + text[1..|text| - 1] + "\\", true))
  {
    RequotedOf(l, e, text);
  }

  lemma RequotedOf(l: string, e: nat, text: string)
    requires Continued(l) && e + 1 < |l|
    requires text == Trim(l[e + 1..|l| - 1]) && HasQuotes(text) && |text| >= 2
    ensures Requoted(l, e) == Ok((l[..e + 1] + text[1..|text| - 1] + "\\", true))
  {
    assert RemoveQuotes(text) == Ok(text[1..|text| - 1]);
  }

  /** Conversely, a continued line (comment removed) whose text after an
      `=` standing before the first `"` is quoted starts a multi-line
      string. */
  lemma OpeningQuoted(line: string, commentDef: string)
    ensures var r := Opening(line, commentDef);
            var l := RemoveComment(line, commentDef);
            var e := IndexOfChar(l, '=');
            Continued(l) && 0 < e < IndexOfChar(l, '"') && |Trim(l[e + 1..|l| - 1])| >= 2 && HasQuotes(Trim(l[e + 1..|l| - 1]))
            ==> r.Ok? && r.value.1
  {
    var l := RemoveComment(line, commentDef);
    var e := IndexOfChar(l, '=');
    if Continued(l) && 0 < e < IndexOfChar(l, '"') && |Trim(l[e + 1..|l| - 1])| >= 2 && HasQuotes(Trim(l[e + 1..|l| - 1])) {
      var text := Trim(l[e + 1..|l| - 1]);
      OpeningOf(line, commentDef, l, e, text);
    }
  }

  /** One continuation line `line2` (comment cut, trimmed) joined to `line`
      (its backslash already removed). Quoted text is joined without its
      quotes and without a separating space. The branch for a `line` that
      still ends in a backslash cuts `line2` at `line`'s length. */
  function JoinPiece(line: string, line2: string): (r: Result<string>)
    ensures r.Ok? && Continued(line) ==> Continued(r.value)
    ensures !Continued(line) && !HasQuotes(line2) ==> r == Ok(line + " " + line2)
  {
    if Continued(line) then
      if |line| - 1 > |line2| then Err(IndexOutOfBounds)
      else
        var cut := Trim(line2[..|line| - 1]);
        var piece: Result<string> := if HasQuotes(cut) then RemoveQuotes(cut) else Ok(" " + cut);
        var p :- piece;
        var joined := line + p + "\\";
        Ok(joined)
    else if HasQuotes(line2) then
      var inner :- RemoveQuotes(line2);
      Ok(line + inner)
    else Ok(line + " " + line2)
  }

  /** A quoted continuation line ending the group is joined without its
      quotes and without a separating space. */
  lemma JoinPieceQuoted(line: string, line2: string)
    requires !Continued(line) && HasQuotes(line2)
    ensures var r := JoinPiece(line, line2);
            && (r.Ok? <==> |line2| >= 2)
            && (r.Ok? ==> |line| <= |r.value| && r.value[..|line|] == line && "\"" + r.value[|line|..] + "\"" == line2)
  {
    if |line2| >= 2 {
      var inner := line2[1..|line2| - 1];
      assert JoinPiece(line, line2) == Ok(line + inner);
      assert (line + inner)[..|line|] == line && (line + inner)[|line|..] == inner;
    }
  }

  /** The inner loop of `removeComments`: while the text ends in a
      backslash, drop it and join the next physical line. Gives the joined
      text and the index of the last line used. Running out of lines fails
      in `Vector.get`; a blank continuation line is a syntax error. */
  function Joined(v: seq<LineItem>, commentDef: string, i: nat, line: string): (r: Result<(string, nat)>)
    requires i < |v|
    ensures r.Ok? ==> i <= r.value.1 < |v| && !Continued(r.value.0)
    ensures !Continued(line) ==> r == Ok((line, i))
    ensures Continued(line) && i + 1 == |v| ==> r.Err?
    decreases |v| - i
  {
    if !Continued(line) then Ok((line, i))
    else
      var line := Trim(line[..|line| - 1]);
      if i + 1 >= |v| then Err(IndexOutOfBounds)
      else
        var line2 := v[i + 1].line;
        if IsWhiteSpace(line2) || StartsWith(line, commentDef) then Err(ContinuationSyntax)
        else
          var index2 := IndexOf(line2, commentDef);
          var line2 := Trim(if index2 > 0 then line2[..index2] else line2);
          var next :- JoinPiece(line, line2);
          Joined(v, commentDef, i + 1, next)
  }

  /** A multi-line string is quoted again after its `=`. */
  function Wrap(line: string, multilineString: bool): (r: string)
    ensures multilineString ==> |r| == |line| + 2 && r[|r| - 1] == '"'
    ensures !multilineString ==> r == line
  {
    if multilineString then
      var e := IndexOfChar(line, '=');
      var r := (line[..e + 1] + "\"") + (line[e + 1..] + "\"");
      r
    else line
  }

  /** The quote of a multi-line string goes right after its first `=`,
      and another one at the end. */
  lemma WrapQuotes(line: string)
    ensures var r := Wrap(line, true);
            var e := IndexOfChar(line, '=');
            r[..e + 1] == line[..e + 1] && r[e + 1] == '"' && r[e + 2..|r| - 1] == line[e + 1..]
  {
    var e := IndexOfChar(line, '=');
    QuoteAfter(line[..e + 1], line[e + 1..]);
  }

  lemma QuoteAfter(a: string, b: string)
    ensures var r := (a + "\"") + (b + "\"");
            r[..|a|] == a && r[|a|] == '"' && r[|a| + 1..|r| - 1] == b
  {
    var r := (a + "\"") + (b + "\"");
    assert r[|a| + 1..] == b + "\"";
  }

  /** The output item of the group that starts at line `i`: the joined
      text under the number and source of line `i`, and the last line used. */
  function Group(v: seq<LineItem>, commentDef: string, i: nat): (r: Result<(LineItem, nat)>)
    requires i < |v|
    ensures r.Ok? ==> i <= r.value.1 < |v|
    ensures r.Ok? ==> r.value.0.number == v[i].number && r.value.0.source == v[i].source
    ensures r.Ok? ==> !Continued(r.value.0.line)
    ensures !Continued(RemoveComment(v[i].line, commentDef)) ==>
              r == Ok((LineItem(RemoveComment(v[i].line, commentDef), v[i].number, v[i].source), i))
  {
    var (first, multilineString) :- Opening(v[i].line, commentDef);
    Finish(Joined(v, commentDef, i, first), multilineString, v[i])
  }

  /** The item made from the joined text of a group opened by `li`. */
  function Finish(joined: Result<(string, nat)>, multilineString: bool, li: LineItem): (r: Result<(LineItem, nat)>)
    requires joined.Ok? ==> !Continued(joined.value.0)
    ensures r.Ok? ==> joined.Ok? && r.value.1 == joined.value.1
    ensures r.Ok? ==> r.value.0.number == li.number && r.value.0.source == li.source
    ensures r.Ok? ==> !Continued(r.value.0.line)
    ensures !multilineString && joined.Ok? ==> r == Ok((LineItem(joined.value.0, li.number, li.source), joined.value.1))
  {
    var (line, last) :- joined;
    var text := Wrap(line, multilineString);
    Ok((LineItem(text, li.number, li.source), last))
  }

  /** A two-line string: `S = "ab"\` followed by `"cd"` is one item
      `S ="abcd"`, the text after the `=` quoted once as a whole. */
  lemma TwoLineString(v: seq<LineItem>)
    requires |v| == 2 && v[0].line == "S = \"ab\"\\" && v[1].line == "\"cd\""
    ensures Group(v, "//", 0) == Ok((LineItem("S =\"abcd\"", v[0].number, v[0].source), 1))
  {
    FirstLineShaped(v[0].line);
    OpenTwoLineString(v[0].line);
    JoinTwoLineString(v, "S =ab\\");
    WrapTwoLineString("S =abcd");
  }

  lemma WrapTwoLineString(line: string)
    requires line == "S =abcd"
    ensures Wrap(line, true) == "S =\"abcd\""
  {
    FirstAt(line, '=', 2);
    assert line[..3] == "S =" && line[3..] == "abcd";
  }

  lemma OpenTwoLineString(line: string)
    requires FirstLineShape(line)
    ensures Opening(line, "//") == Ok(("S =ab\\", true))
  {
    NoMarker(line, "//");
    TrimOfTrimmed(line);
    FirstAt(line, '=', 2);
    FirstAt(line, '"', 4);
    var text := line[3..|line| - 1];
    TrimBlankFirst(text);
    assert text[1..] == "\"ab\"";
    assert text[1..][1..|text[1..]| - 1] == "ab";
    assert line[..3] + "ab" + "\\" == "S =ab\\";
    OpeningOf(line, "//", line, 2, text[1..]);
  }

  /** `S = "ab"\` as the facts the opening of a group looks at. */
  predicate FirstLineShape(line: string) {
    && |line| == 9 && '/' !in line && line[..3] == "S =" && line[3..8] == " \"ab\"" && line[8] == '\\'
    && line[0] == 'S' && line[1] == ' ' && line[2] == '=' && line[3] == ' ' && line[4] == '"'
  }

  lemma FirstLineShaped(line: string)
    requires line == "S = \"ab\"\\"
    ensures FirstLineShape(line)
  {
  }

  lemma JoinTwoLineString(v: seq<LineItem>, first: string)
    requires |v| == 2 && v[1].line == "\"cd\"" && first == "S =ab\\"
    ensures Joined(v, "//", 0, first) == Ok(("S =abcd", 1))
  {
    var line := first[..|first| - 1];
    assert line == "S =ab";
    TrimOfTrimmed(line);
    var line2 := v[1].line;
    assert !IsWhiteSpace(line2) by {
      assert !IsTab(line2[0]);
    }
    assert !StartsWith(line, "//") by {
      assert line[0] != '/';
    }
    NoMarker(line2, "//");
    TrimOfTrimmed(line2);
    assert line2 == "\"" + "cd" + "\"";
    QuotesRoundTrip("cd");
    assert line + "cd" == "S =abcd";
    assert JoinPiece(line, line2) == Ok("S =abcd");
  }

  /** `IndexOfChar` finds the first occurrence. */
  lemma FirstAt(s: string, c: char, k: nat)
    requires k < |s| && s[k] == c && forall j :: 0 <= j < k ==> s[j] != c
    ensures IndexOfChar(s, c) == k
  {
    var r := IndexOfChar(s, c);
    assert s[..k + 1][k] == c;
  }

  /** One leading blank before a text with blank-free ends is trimmed away. */
  lemma TrimBlankFirst(s: string)
    requires |s| >= 2 && s[0] == ' ' && !IsTrimmed(s[1]) && !IsTrimmed(s[|s| - 1])
    ensures Trim(s) == s[1..]
  {
    assert TrimLeft(s) == TrimLeft(s[1..]) == s[1..];
    TrimOfTrimmed(s[1..]);
    TrimRightRemovesBlanks(s[1..]);
  }

  /** A text without a `/` holds no `//`. */
  lemma NoMarker(s: string, marker: string)
    requires marker == "//" && '/' !in s
    ensures IndexOf(s, marker) == -1
  {
    forall j | 0 <= j <= |s| ensures !OccursAt(s, marker, j) {
      if j + 2 <= |s| {
        assert s[j..j + 2][0] == s[j];
      }
    }
  }

  /** `items` in front of a result. */
  function Prepend(items: seq<LineItem>, r: Result<seq<LineItem>>): Result<seq<LineItem>> {
    if r.Ok? then Ok(items + r.value) else r
  }

  /** What the pass does at a line, were it to reach it: skip it, or start
      a group there. */
  datatype Entry = Skip | Start(group: Result<(LineItem, nat)>)

  /** Every group ends at or after its first line, within the input. */
  predicate Bounded(es: seq<Entry>) {
    forall j :: 0 <= j < |es| && es[j].Start? && es[j].group.Ok? ==> j <= es[j].group.value.1 < |es|
  }

  /** Entry `j` of a plan: a skip for a skipped line, else the group that starts there. */
  predicate EntryAt(es: seq<Entry>, v: seq<LineItem>, commentDef: string, j: nat)
    requires j < |es| == |v|
  {
    es[j] == if Skipped(v[j].line, commentDef) then Skip else Start(Group(v, commentDef, j))
  }

  function EntriesOf(v: seq<LineItem>, commentDef: string): (es: seq<Entry>)
    ensures |es| == |v| && Bounded(es)
    ensures forall j :: 0 <= j < |v| ==> EntryAt(es, v, commentDef, j)
  {
    seq(|v|, j requires 0 <= j < |v| => if Skipped(v[j].line, commentDef) then Skip else Start(Group(v, commentDef, j)))
  }

  /** `removeComments` from line `i` on: skipped lines add nothing, a
      failing group fails the pass, and a group's item comes before the
      items after its last line. */
  function AssembleWith(es: seq<Entry>, i: nat): (r: Result<seq<LineItem>>)
    requires Bounded(es) && i <= |es|
    decreases |es| - i
  {
    if i == |es| then Ok([])
    else match es[i]
      case Skip => AssembleWith(es, i + 1)
      case Start(group) =>
        if group.Err? then Err(group.error)
        else Prepend([group.value.0], AssembleWith(es, group.value.1 + 1))
  }

  /** `removeComments`. */
  function Assemble(v: seq<LineItem>, commentDef: string): (r: Result<seq<LineItem>>) {
    AssembleWith(EntriesOf(v, commentDef), 0)
  }

  lemma PrependNothing(r: Result<seq<LineItem>>)
    ensures Prepend([], r) == r
  {
    if r.Ok? {
      assert [] + r.value == r.value;
    }
  }

  lemma PrependTwice(a: seq<LineItem>, b: seq<LineItem>, r: Result<seq<LineItem>>)
    ensures Prepend(a, Prepend(b, r)) == Prepend(a + b, r)
  {
    if r.Ok? {
      assert a + (b + r.value) == (a + b) + r.value;
    }
  }

  /** The loop of `removeComments`. */
  method RemoveComments(v: seq<LineItem>, commentDef: string) returns (r: Result<seq<LineItem>>)
    ensures r == Assemble(v, commentDef)
  {
    ghost var es := EntriesOf(v, commentDef);
    var result: seq<LineItem> := [];
    var i: nat := 0;
    PrependNothing(Assemble(v, commentDef));
    while i < |v|
      invariant i <= |v|
      invariant Assemble(v, commentDef) == Prepend(result, AssembleWith(es, i))
      decreases |v| - i
    {
      assert EntryAt(es, v, commentDef, i);
      var next := AdvanceLine(v, commentDef, es, i, result);
      AssembleAt(es, i, result);
      if next.Err? {
        return Err(next.error);
      }
      result, i := next.value.0, next.value.1;
    }
    assert result + [] == result;
    r := Ok(result);
  }

  /** `es` is the plan of `v`: entry `j` is a skip for a skipped line, and
      otherwise the group that starts there. */
  predicate Plan(es: seq<Entry>, v: seq<LineItem>, commentDef: string) {
    |es| == |v| && forall j :: 0 <= j < |v| ==> EntryAt(es, v, commentDef, j)
  }

  /** One iteration of the loop of `removeComments` at line `i`, whose
      entry in the plan `es` of `v` is `es[i]`: a skipped line adds nothing
      and moves on, a failing group fails, and a group that succeeds adds
      its item and moves past its last line. */
  method AdvanceLine(v: seq<LineItem>, commentDef: string, ghost es: seq<Entry>, i: nat, result: seq<LineItem>)
    returns (r: Result<(seq<LineItem>, nat)>)
    requires i < |v| && Plan(es, v, commentDef) && Bounded(es)
    requires es[i].Skip? <==> Skipped(v[i].line, commentDef)
    ensures es[i].Skip? ==> r == Ok((result, i + 1))
    ensures es[i].Start? && es[i].group.Err? ==> r == Err(es[i].group.error)
    ensures es[i].Start? && es[i].group.Ok? ==> r == Ok((result + [es[i].group.value.0], es[i].group.value.1 + 1))
  {
    if Skipped(v[i].line, commentDef) {
      return Ok((result, i + 1));
    }
    var group := NextGroup(v, commentDef, es, i);
    if group.Err? {
      return Err(group.error);
    }
    return Ok((result + [group.value.0], group.value.1 + 1));
  }

  /** The pass at entry `i`, by the kind of entry: a skip moves on, a
      failing group fails the rest, and a group that succeeds puts its item
      in front of the items after its last line. */
  lemma AssembleAt(es: seq<Entry>, i: nat, result: seq<LineItem>)
    requires Bounded(es) && i < |es|
    ensures es[i].Skip? ==> Prepend(result, AssembleWith(es, i)) == Prepend(result, AssembleWith(es, i + 1))
    ensures es[i].Start? && es[i].group.Err? ==> Prepend(result, AssembleWith(es, i)) == Err(es[i].group.error)
    ensures es[i].Start? && es[i].group.Ok? ==>
              && i <= es[i].group.value.1 < |es|
              && Prepend(result, AssembleWith(es, i))
                 == Prepend(result + [es[i].group.value.0], AssembleWith(es, es[i].group.value.1 + 1))
  {
    match es[i]
    case Skip => AssembleSkip(es, i);
    case Start(group) =>
      if group.Err? {
        AssembleFailing(es, i);
      } else {
        AssembleAfterGroup(es, i, result, group.value.0, group.value.1);
      }
  }

  /** The pass after a group that succeeds. */
  lemma AssembleAfterGroup(es: seq<Entry>, i: nat, result: seq<LineItem>, item: LineItem, last: nat)
    requires Bounded(es) && i < |es| && es[i] == Start(Ok((item, last)))
    ensures last + 1 <= |es|
    ensures Prepend(result, AssembleWith(es, i)) == Prepend(result + [item], AssembleWith(es, last + 1))
  {
    AssembleStart(es, i);
    PrependTwice(result, [item], AssembleWith(es, last + 1));
  }

  lemma AssembleSkip(es: seq<Entry>, i: nat)
    requires Bounded(es) && i < |es| && es[i].Skip?
    ensures AssembleWith(es, i) == AssembleWith(es, i + 1)
  {
  }

  lemma AssembleFailing(es: seq<Entry>, i: nat)
    requires Bounded(es) && i < |es| && es[i].Start? && es[i].group.Err?
    ensures AssembleWith(es, i) == Err(es[i].group.error)
  {
  }

  lemma AssembleStart(es: seq<Entry>, i: nat)
    requires Bounded(es) && i < |es| && es[i].Start? && es[i].group.Ok?
    ensures AssembleWith(es, i) == Prepend([es[i].group.value.0], AssembleWith(es, es[i].group.value.1 + 1))
  {
  }

  /** One group of the loop of `removeComments`: the first line, the
      joined continuation lines and the closing quotes. */
  method NextGroup(v: seq<LineItem>, commentDef: string, ghost es: seq<Entry>, i: nat) returns (r: Result<(LineItem, nat)>)
    requires i < |v| && Plan(es, v, commentDef) && !Skipped(v[i].line, commentDef)
    ensures es[i] == Start(r)
  {
    assert EntryAt(es, v, commentDef, i);
    var li := v[i];
    var first := OpenLine(li.line, commentDef);
    if first.Err? {
      return Err(first.error);
    }
    var (line, multilineString) := first.value;
    var joined := JoinLines(v, commentDef, i, line);
    assert Group(v, commentDef, i) == Finish(joined, multilineString, li);
    if joined.Err? {
      return Err(joined.error);
    }
    var last := joined.value.1;
    line := Requote(joined.value.0, multilineString);
    FinishOk(joined.value.0, last, multilineString, li);
    r := Ok((LineItem(line, li.number, li.source), last));
  }

  lemma FinishOk(line: string, last: nat, multilineString: bool, li: LineItem)
    requires !Continued(line)
    ensures Finish(Ok((line, last)), multilineString, li)
            == Ok((LineItem(Wrap(line, multilineString), li.number, li.source), last))
  {
  }

  /** The closing quotes of a multi-line string in `removeComments`. */
  method Requote(text: string, multilineString: bool) returns (line: string)
    ensures line == Wrap(text, multilineString)
  {
    line := text;
    if multilineString {
      var indexEqualSign := IndexOfChar(line, '=');
      var line2 := line[..indexEqualSign + 1] + "\"";
      var line3 := line[indexEqualSign + 1..] + "\"";
      line := line2 + line3;
    }
  }

  /** The first line of a group: comment removal and the multi-line string
      check of `removeComments`. */
  method OpenLine(text: string, commentDef: string) returns (r: Result<(string, bool)>)
    ensures r == Opening(text, commentDef)
  {
    var line := RemoveComment(text, commentDef);
    var multilineString := false;
    if Continued(line) {
      var indexEqualSign := IndexOfChar(line, '=');
      var indexQuote := IndexOfChar(line, '"');
      if indexEqualSign > 0 && indexQuote > 0 && indexEqualSign < indexQuote {
        assert line[|line| - 1] == '\\';
        var line2 := Trim(line[indexEqualSign + 1..|line| - 1]);
        if HasQuotes(line2) {
          var unquoted := RemoveQuotes(line2);
          if unquoted.Err? {
            assert Opening(text, commentDef) == Err(unquoted.error);
            return Err(unquoted.error);
          }
          line := line[..indexEqualSign + 1] + unquoted.value + "\\";
          multilineString := true;
          assert Opening(text, commentDef) == Ok((line, true));
        } else {
          assert Opening(text, commentDef) == Ok((line, false));
        }
      } else {
        assert Opening(text, commentDef) == Ok((line, false));
      }
    } else {
      assert Opening(text, commentDef) == Ok((line, false));
    }
    r := Ok((line, multilineString));
  }

  /** The inner `while` of `removeComments`, from line `i` on. */
  method JoinLines(v: seq<LineItem>, commentDef: string, i: nat, text: string) returns (r: Result<(string, nat)>)
    requires i < |v|
    ensures r == Joined(v, commentDef, i, text)
  {
    var line, k := text, i;
    while Continued(line)
      invariant i <= k < |v|
      invariant Joined(v, commentDef, i, text) == Joined(v, commentDef, k, line)
      decreases |v| - k
    {
      line := line[..|line| - 1];
      line := Trim(line);
      k := k + 1;
      if k >= |v| {
        return Err(IndexOutOfBounds);
      }
      var line2 := v[k].line;
      if IsWhiteSpace(line2) || StartsWith(line, commentDef) {
        return Err(ContinuationSyntax);
      }
      var index2 := IndexOf(line2, commentDef);
      if index2 > 0 {
        line2 := line2[..index2];
      }
      line2 := Trim(line2);
      var next := JoinPiece(line, line2);
      if next.Err? {
        return Err(next.error);
      }
      line := next.value;
    }
    r := Ok((line, k));
  }

  // ---------------------------------------------------------------------------
  // Properties of the pass

  /** Every output line comes from a group of at least one input line: there
      are never more output lines than input lines. */
  lemma {:induction false} AssembleLength(es: seq<Entry>, i: nat)
    requires Bounded(es) && i <= |es|
    ensures AssembleWith(es, i).Ok? ==> |AssembleWith(es, i).value| <= |es| - i
    decreases |es| - i
  {
    if i < |es| {
      match es[i]
      case Skip => AssembleLength(es, i + 1);
      case Start(group) =>
        if group.Ok? {
          AssembleLength(es, group.value.1 + 1);
        }
    }
  }

  /** An item comes from line `j`: it carries that line's number and
      source, and line `j` was not skipped. */
  predicate From(v: seq<LineItem>, commentDef: string, item: LineItem, j: nat)
    requires j < |v|
  {
    !Skipped(v[j].line, commentDef) && item.number == v[j].number && item.source == v[j].source
  }

  /** What `Group` promises of the groups in a plan. */
  predicate GroupsFrom(v: seq<LineItem>, commentDef: string, es: seq<Entry>)
    requires |es| == |v|
  {
    forall j :: 0 <= j < |v| && es[j].Start? && es[j].group.Ok? ==>
      !Continued(es[j].group.value.0.line) && From(v, commentDef, es[j].group.value.0, j)
  }

  lemma EntriesOfGroupsFrom(v: seq<LineItem>, commentDef: string)
    ensures GroupsFrom(v, commentDef, EntriesOf(v, commentDef))
  {
    var es := EntriesOf(v, commentDef);
    forall j | 0 <= j < |v| && es[j].Start? && es[j].group.Ok?
      ensures !Continued(es[j].group.value.0.line) && From(v, commentDef, es[j].group.value.0, j)
    {
      assert EntryAt(es, v, commentDef, j);
    }
  }

  /** Items `k` of `items` comes from line `origin[k]`, and the lines
      increase from `i` on. */
  predicate Traced(v: seq<LineItem>, commentDef: string, items: seq<LineItem>, origin: seq<nat>, i: nat) {
    && |origin| == |items|
    && (forall k :: 0 <= k < |origin| ==> i <= origin[k] < |v| && From(v, commentDef, items[k], origin[k]))
    && (forall k :: 0 < k < |origin| ==> origin[k - 1] < origin[k])
  }

  /** No output line ends in a backslash, and output line `k` comes from an
      input line that was not skipped, later than the one output line
      `k - 1` comes from. */
  lemma {:induction false} AssembleOrigins(v: seq<LineItem>, commentDef: string, es: seq<Entry>, i: nat)
    requires |es| == |v| && Bounded(es) && i <= |v| && GroupsFrom(v, commentDef, es)
    ensures var r := AssembleWith(es, i);
            r.Ok? ==> (forall k :: 0 <= k < |r.value| ==> !Continued(r.value[k].line))
                      && exists origin :: Traced(v, commentDef, r.value, origin, i)
    decreases |v| - i
  {
    if i == |v| {
      assert Traced(v, commentDef, [], [], i);
    } else {
      match es[i]
      case Skip =>
        AssembleOrigins(v, commentDef, es, i + 1);
        var r := AssembleWith(es, i + 1);
        if r.Ok? {
          var origin :| Traced(v, commentDef, r.value, origin, i + 1);
          assert Traced(v, commentDef, r.value, origin, i);
        }
      case Start(group) =>
        if group.Ok? {
          var (item, last) := group.value;
          AssembleOrigins(v, commentDef, es, last + 1);
          var r := AssembleWith(es, last + 1);
          if r.Ok? {
            var origin :| Traced(v, commentDef, r.value, origin, last + 1);
            TracedCons(v, commentDef, item, r.value, origin, i, last);
          }
        }
    }
  }

  lemma TracedCons(v: seq<LineItem>, commentDef: string, item: LineItem, items: seq<LineItem>, origin: seq<nat>, i: nat, last: nat)
    requires i <= last < |v| && From(v, commentDef, item, i) && Traced(v, commentDef, items, origin, last + 1)
    ensures Traced(v, commentDef, [item] + items, [i] + origin, i)
  {
    var o := [i] + origin;
    var r := [item] + items;
    forall k | 0 <= k < |o| ensures i <= o[k] < |v| && From(v, commentDef, r[k], o[k]) {
      if k > 0 {
        assert o[k] == origin[k - 1] && r[k] == items[k - 1];
      }
    }
    forall k | 0 < k < |o| ensures o[k - 1] < o[k] {
      if k > 1 {
        assert o[k - 1] == origin[k - 2] && o[k] == origin[k - 1];
      }
    }
  }

  /** No line, with its comment cut off, ends in a backslash. */
  predicate NoContinuations(v: seq<LineItem>, commentDef: string) {
    forall j :: 0 <= j < |v| ==> !Continued(RemoveComment(v[j].line, commentDef))
  }

  /** The reference for input without continuations: every line that is
      not skipped, with its comment removed, in order. */
  function Plain(v: seq<LineItem>, commentDef: string, i: nat): (r: seq<LineItem>)
    requires i <= |v|
    decreases |v| - i
  {
    if i == |v| then []
    else if Skipped(v[i].line, commentDef) then Plain(v, commentDef, i + 1)
    else [LineItem(RemoveComment(v[i].line, commentDef), v[i].number, v[i].source)] + Plain(v, commentDef, i + 1)
  }

  /** Without continuations every group is its own line, comment removed. */
  predicate SingleLines(v: seq<LineItem>, commentDef: string, es: seq<Entry>)
    requires |es| == |v|
  {
    forall j :: 0 <= j < |v| ==>
      es[j] == if Skipped(v[j].line, commentDef) then Skip
               else Start(Ok((LineItem(RemoveComment(v[j].line, commentDef), v[j].number, v[j].source), j)))
  }

  lemma {:induction false} AssembleSingleLines(v: seq<LineItem>, commentDef: string, es: seq<Entry>, i: nat)
    requires |es| == |v| && Bounded(es) && i <= |v| && SingleLines(v, commentDef, es)
    ensures AssembleWith(es, i) == Ok(Plain(v, commentDef, i))
    decreases |v| - i
  {
    if i < |v| {
      AssembleSingleLines(v, commentDef, es, i + 1);
    }
  }

  /** Without continuations the pass never fails and is the reference. */
  lemma AssemblePlain(v: seq<LineItem>, commentDef: string)
    requires NoContinuations(v, commentDef)
    ensures Assemble(v, commentDef) == Ok(Plain(v, commentDef, 0))
  {
    var es := EntriesOf(v, commentDef);
    forall j | 0 <= j < |v| && !Skipped(v[j].line, commentDef)
      ensures es[j] == Start(Ok((LineItem(RemoveComment(v[j].line, commentDef), v[j].number, v[j].source), j)))
    {
      assert EntryAt(es, v, commentDef, j);
      assert !Continued(RemoveComment(v[j].line, commentDef));
    }
    AssembleSingleLines(v, commentDef, es, 0);
  }

  /** A group opened by the last line cannot end in a backslash: there is
      no line left to join. */
  lemma LastLineContinued(v: seq<LineItem>, commentDef: string)
    requires |v| > 0 && Continued(RemoveComment(v[|v| - 1].line, commentDef))
    ensures Group(v, commentDef, |v| - 1).Err?
  {
    var i := |v| - 1;
    if Group(v, commentDef, i).Ok? {
      assert false;
    }
  }
}
