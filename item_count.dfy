/** `getItemCount` of DataCompiler.java: the number of items of a `{#}`
    counted block, that is the blocks opened at the outermost level of the
    lines that follow it, up to the `}` that closes the enclosing block or a
    further `{#}` at that level. */
module ItemCount {
  import opened Base
  import opened Text
  import opened LineItems

  /** A line that opens a block (and so may be an item). */
  predicate IsOpener(line: string) {
    StartsWith(line, "{") && !StartsWith(line, "{#}")
  }

  /** The nesting level after `line` at `level`, or None where the count
      stops: a `{#}` or a `}` at the outermost level. */
  function StepLevel(line: string, level: nat): (r: Option<nat>)
    ensures r.None? <==> level == 0 && (StartsWith(line, "{#}") || StartsWith(line, "}"))
    ensures IsOpener(line) ==> r == Some(level + 1)
  {
    if StartsWith(line, "{#}") then (if level == 0 then None else Some(level))
    else if StartsWith(line, "{") then Some(level + 1)
    else if StartsWith(line, "}") then (if level == 0 then None else Some(level - 1))
    else Some(level)
  }

  /** The items of `s` scanned from nesting level `level`: the openers met
      at level 0 before the scan stops. */
  function Count(s: seq<LineItem>, level: nat): (r: nat)
    ensures r <= |s|
  {
    if |s| == 0 then 0
    else
      match StepLevel(s[0].line, level)
      case None => 0
      case Some(next) => (if level == 0 && IsOpener(s[0].line) then 1 else 0) + Count(s[1..], next)
  }

  /** The level after scanning all of `s`, or None when the scan stops
      inside it. */
  function Walk(s: seq<LineItem>, level: nat): (r: Option<nat>)
  {
    if |s| == 0 then Some(level)
    else
      match StepLevel(s[0].line, level)
      case None => None
      case Some(next) => Walk(s[1..], next)
  }

  /** `getItemCount(lineIndex, v)`. */
  function ItemCount(items: seq<LineItem>, lineIndex: nat): (r: nat)
  {
    if lineIndex >= |items| then 0 else Count(items[lineIndex..], 0)
  }

  /** The number of openers in `s`. */
  function Openers(s: seq<LineItem>): (n: nat)
  {
    if |s| == 0 then 0 else (if IsOpener(s[0].line) then 1 else 0) + Openers(s[1..])
  }

  /** `getItemCount` as the loop of the original. */
  method GetItemCount(lineIndex: nat, v: seq<LineItem>) returns (result: nat)
    ensures result == ItemCount(v, lineIndex)
  {
    var size := |v|;
    result := 0;
    var level: int := 0;
    var i := lineIndex;
    while i < size
      invariant lineIndex < size ==> lineIndex <= i <= size
      invariant lineIndex >= size ==> i == lineIndex && result == 0
      invariant level >= 0
      invariant i <= size ==> result + Count(v[i..], level) == ItemCount(v, lineIndex)
      decreases size - i
    {
      var line := v[i].line;
      assert v[i..][1..] == v[i + 1..];
      if StartsWith(line, "{#}") {
        if level == 0 {
          return;
        }
      } else if StartsWith(line, "{") {
        if level == 0 {
          result := result + 1;
        }
        level := level + 1;
      } else if StartsWith(line, "}") {
        level := level - 1;
        if level < 0 {
          return;
        }
      }
      i := i + 1;
    }
    assert i >= size;
  }

  // ---------------------------------------------------------------------------
  // Properties

  /** Only openers are counted. */
  lemma {:induction false} CountBound(s: seq<LineItem>, level: nat)
    ensures Count(s, level) <= Openers(s)
    decreases |s|
  {
    if |s| > 0 {
      var next := StepLevel(s[0].line, level);
      if next.Some? {
        CountBound(s[1..], next.value);
      }
    }
  }

  /** Scanning a concatenation: the count over the first part, then the
      count over the second from the level the first leaves; a scan that
      stops in the first part never reaches the second. */
  lemma {:induction false} CountAppend(a: seq<LineItem>, b: seq<LineItem>, level: nat)
    ensures Walk(a, level).Some? ==> Count(a + b, level) == Count(a, level) + Count(b, Walk(a, level).value)
    ensures Walk(a, level).None? ==> Count(a + b, level) == Count(a, level)
    decreases |a|
  {
    if |a| == 0 {
      assert a + b == b;
    } else {
      assert (a + b)[0] == a[0];
      assert (a + b)[1..] == a[1..] + b;
      var next := StepLevel(a[0].line, level);
      if next.Some? {
        CountAppend(a[1..], b, next.value);
      }
    }
  }

  /** `s` stays inside a block: scanned from `level`, the level never
      drops to the outermost one. */
  predicate Inside(s: seq<LineItem>, level: nat)
  {
    |s| == 0 || (var next := StepLevel(s[0].line, level); next.Some? && next.value > 0 && Inside(s[1..], next.value))
  }

  /** What stays inside a block counts nothing and leaves the scan inside. */
  lemma {:induction false} InsideCountsNothing(s: seq<LineItem>, level: nat)
    requires level > 0 && Inside(s, level)
    ensures Count(s, level) == 0
    ensures Walk(s, level).Some? && Walk(s, level).value > 0
    decreases |s|
  {
    if |s| > 0 {
      InsideCountsNothing(s[1..], StepLevel(s[0].line, level).value);
    }
  }

  /** A block, whatever it nests, is one item: an opener, a body that stays
      inside, and the `}` that brings the level back to the outermost. */
  lemma BlockCountsOnce(open: LineItem, body: seq<LineItem>, close: LineItem, rest: seq<LineItem>)
    requires IsOpener(open.line) && StartsWith(close.line, "}")
    requires Inside(body, 1) && Walk(body, 1) == Some(1)
    ensures Count([open] + body + [close] + rest, 0) == 1 + Count(rest, 0)
  {
    var block := [open] + body + [close];
    assert [open] + body + [close] + rest == [open] + (body + ([close] + rest));
    assert ([open] + (body + ([close] + rest)))[1..] == body + ([close] + rest);
    InsideCountsNothing(body, 1);
    CountAppend(body, [close] + rest, 1);
    assert ([close] + rest)[1..] == rest;
  }

  /** The count stops at once at a `{#}` or a `}` of the outermost level. */
  lemma StopsAtOnce(s: seq<LineItem>)
    requires |s| > 0 && (StartsWith(s[0].line, "{#}") || StartsWith(s[0].line, "}"))
    ensures Count(s, 0) == 0
  {
    assert StepLevel(s[0].line, 0).None?;
  }
}
