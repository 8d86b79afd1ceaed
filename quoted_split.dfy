/** `DataCompiler.split`: splitting a line at a delimiter char while ignoring
    delimiters between double quotes. With `checkSpace` a delimiter counts
    only with a space or tab on both sides and not among the last two chars. */
module QuotedSplit {
  import opened Text

  /** A part as the splitter returns it: non-empty and trimmed at both ends. */
  predicate IsPart(p: string) {
    |p| > 0 && !IsTrimmed(p[0]) && !IsTrimmed(p[|p| - 1])
  }

  /** Every one of `ps` is a part. */
  predicate AllParts(ps: seq<string>) {
    forall k :: 0 <= k < |ps| ==> IsPart(ps[k])
  }

  lemma AppendPart(ps: seq<string>, p: string)
    requires AllParts(ps) && IsPart(p)
    ensures AllParts(ps + [p])
  {
    assert forall k :: 0 <= k < |ps| ==> (ps + [p])[k] == ps[k];
  }

  /** Whether a delimiter outside quotes at `i` separates parts: with
      `checkSpace` it needs more than two UTF-16 units from it to the end
      (`i < chars.length - 2`) and a space or tab on both sides. */
  predicate ValidPosition(line: string, i: nat, checkSpace: bool)
    requires i < |line|
  {
    !checkSpace || (0 < i && Utf16Length(line[i..]) > 2 && IsTab(line[i - 1]) && IsTab(line[i + 1]))
  }

  /** The segment that ends at a delimiter at `i` is kept when it spans more
      than one UTF-16 unit (`i > startPosition + 1`) and is not blank. */
  function CutBefore(line: string, start: nat, i: nat, parts: seq<string>): (r: seq<string>)
    requires start <= i <= |line|
    ensures r == parts || (r == parts + [Trim(line[start..i])] && |Trim(line[start..i])| > 0)
    ensures Utf16Length(line[start..i]) <= 1 ==> r == parts
  {
    var part := Trim(line[start..i]);
    if Utf16Length(line[start..i]) > 1 && |part| > 0 then parts + [part] else parts
  }

  /** The splitter from position `i` on, with the quote state, the start of
      the current segment and the parts found so far. */
  function SplitFrom(line: string, delimiter: char, checkSpace: bool,
                     i: nat, inside: bool, start: nat, parts: seq<string>): (r: seq<string>)
    requires start <= i <= |line|
    decreases |line| - i
  {
    if i == |line| then
      var part := Trim(line[start..]);
      if start < |line| && |part| > 0 then parts + [part] else parts
    else if line[i] == '"' then
      SplitFrom(line, delimiter, checkSpace, i + 1, !inside, start, parts)
    else if line[i] == delimiter && !inside && ValidPosition(line, i, checkSpace) then
      SplitFrom(line, delimiter, checkSpace, i + 1, inside, i + 1, CutBefore(line, start, i, parts))
    else
      SplitFrom(line, delimiter, checkSpace, i + 1, inside, start, parts)
  }

  function Split(line: string, delimiter: char, checkSpace: bool): (r: seq<string>)
    ensures AllParts(r)
  {
    SplitFromParts(line, delimiter, checkSpace, 0, false, 0, []);
    SplitFrom(line, delimiter, checkSpace, 0, false, 0, [])
  }

  /** One char of the splitter: `inside'`, `start'` and `parts'` are the
      state after position `i`. */
  lemma SplitFromStep(line: string, delimiter: char, checkSpace: bool,
                      i: nat, inside: bool, start: nat, parts: seq<string>,
                      inside': bool, start': nat, parts': seq<string>)
    requires start <= i < |line|
    requires inside' == if line[i] == '"' then !inside else inside
    requires var cut := line[i] != '"' && line[i] == delimiter && !inside && ValidPosition(line, i, checkSpace);
             start' == (if cut then i + 1 else start)
             && parts' == (if cut then CutBefore(line, start, i, parts) else parts)
    ensures SplitFrom(line, delimiter, checkSpace, i, inside, start, parts)
            == SplitFrom(line, delimiter, checkSpace, i + 1, inside', start', parts')
  {
  }

  /** Every part the splitter adds is non-empty and trimmed. */
  lemma {:induction false} SplitFromParts(line: string, delimiter: char, checkSpace: bool,
                                          i: nat, inside: bool, start: nat, parts: seq<string>)
    requires start <= i <= |line|
    requires AllParts(parts)
    ensures AllParts(SplitFrom(line, delimiter, checkSpace, i, inside, start, parts))
    decreases |line| - i
  {
    if i == |line| {
      var part := Trim(line[start..]);
      if start < |line| && |part| > 0 {
        AppendPart(parts, part);
      }
    } else {
      var next := if line[i] == '"' then !inside else inside;
      var cut := line[i] != '"' && line[i] == delimiter && !inside && ValidPosition(line, i, checkSpace);
      var start' := if cut then i + 1 else start;
      var parts' := if cut then CutBefore(line, start, i, parts) else parts;
      if cut && Utf16Length(line[start..i]) > 1 && |Trim(line[start..i])| > 0 {
        AppendPart(parts, Trim(line[start..i]));
      }
      SplitFromStep(line, delimiter, checkSpace, i, inside, start, parts, next, start', parts');
      SplitFromParts(line, delimiter, checkSpace, i + 1, next, start', parts');
    }
  }

  /** A delimiter outside quotes at `i`, whose UTF-16 position is `unit`:
      at a valid position the segment before it is cut and the next one
      starts after it. */
  method AtDelimiter(line: string, checkSpace: bool, i: nat, unit: nat, length: nat,
                     startPosition: nat, startUnit: nat, parts: seq<string>)
    returns (start': nat, startUnit': nat, parts': seq<string>)
    requires startPosition <= i < |line| && length == Utf16Length(line)
    requires unit == Utf16Length(line[..i]) && startUnit == Utf16Length(line[..startPosition])
    ensures start' == (if ValidPosition(line, i, checkSpace) then i + 1 else startPosition)
    ensures parts' == (if ValidPosition(line, i, checkSpace) then CutBefore(line, startPosition, i, parts) else parts)
    ensures startUnit' == Utf16Length(line[..start'])
  {
    UnitPositions(line, startPosition, i);
    start', startUnit', parts' := startPosition, startUnit, parts;
    var validPosition := !checkSpace;
    if unit > 0 && unit < length - 2 && IsTab(line[i - 1]) && IsTab(line[i + 1]) {
      validPosition := true;
    }
    if validPosition {
      if unit > startUnit + 1 {
        var part := Trim(line[startPosition..i]);
        if |part| > 0 {
          parts' := parts + [part];
        }
      }
      start', startUnit' := i + 1, unit + CharUnits(line[i]);
    }
  }

  /** The character loop of `split`. Java walks the UTF-16 units of the
      line; the loop walks its chars and keeps `unit` and `startUnit`, the
      unit positions of `i` and of `startPosition`, for the two length
      tests. */
  method SplitLine(line: string, delimiter: char, checkSpace: bool) returns (result: seq<string>)
    ensures result == Split(line, delimiter, checkSpace)
  {
    var length := Utf16Length(line);
    var insideQuotedText := false;
    var startPosition := 0;
    var unit, startUnit := 0, 0;
    var parts: seq<string> := [];
    for i := 0 to |line|
      invariant startPosition <= i
      invariant unit == Utf16Length(line[..i]) && startUnit == Utf16Length(line[..startPosition])
      invariant SplitFrom(line, delimiter, checkSpace, i, insideQuotedText, startPosition, parts)
                == Split(line, delimiter, checkSpace)
    {
      ghost var inside0, start0, parts0 := insideQuotedText, startPosition, parts;
      UnitStep(line, i);
      var c := line[i];
      var width := CharUnits(c);
      if c == '"' {
        insideQuotedText := !insideQuotedText;
      } else if c == delimiter && !insideQuotedText {
        startPosition, startUnit, parts := AtDelimiter(line, checkSpace, i, unit, length, startPosition, startUnit, parts);
      }
      SplitFromStep(line, delimiter, checkSpace, i, inside0, start0, parts0,
                    insideQuotedText, startPosition, parts);
      unit := unit + width;
    }
    if startPosition < |line| {
      var part := Trim(line[startPosition..]);
      if |part| > 0 {
        parts := parts + [part];
      }
    }
    result := parts;
  }

  /** The unit positions the loop of `split` keeps answer its two length
      tests as the char positions do, and move by the units of each char. */
  lemma UnitPositions(line: string, start: nat, i: nat)
    requires start <= i < |line|
    ensures var unit, startUnit := Utf16Length(line[..i]), Utf16Length(line[..start]);
            && (unit > 0 && unit < Utf16Length(line) - 2 <==> 0 < i && Utf16Length(line[i..]) > 2)
            && (unit > startUnit + 1 <==> Utf16Length(line[start..i]) > 1)
            && Utf16Length(line[..i + 1]) == unit + CharUnits(line[i])
  {
    Utf16LengthSplit(line, i, i);
    Utf16LengthSplit(line, start, i);
    UnitStep(line, i);
  }

  /** The unit position after a char is the one before it plus its units. */
  lemma UnitStep(line: string, i: nat)
    requires i < |line|
    ensures Utf16Length(line[..i + 1]) == Utf16Length(line[..i]) + CharUnits(line[i])
  {
    Utf16LengthSplit(line, i, i + 1);
    assert line[i..i + 1] == [line[i]];
    assert line[i..i + 1][1..] == [];
  }

  /** A line without the delimiter is one part, the trimmed line (or none
      when it is blank). */
  lemma {:induction false} NoDelimiterOnePart(line: string, delimiter: char, checkSpace: bool)
    requires delimiter !in line && delimiter != '"'
    ensures Split(line, delimiter, checkSpace) == if |Trim(line)| > 0 then [Trim(line)] else []
  {
    NoDelimiterFrom(line, delimiter, checkSpace, 0, false);
    assert line[0..] == line;
  }

  lemma {:induction false} NoDelimiterFrom(line: string, delimiter: char, checkSpace: bool, i: nat, inside: bool)
    requires i <= |line| && delimiter !in line[i..]
    ensures SplitFrom(line, delimiter, checkSpace, i, inside, 0, [])
            == if |line| > 0 && |Trim(line)| > 0 then [Trim(line)] else []
    decreases |line| - i
  {
    if i < |line| {
      assert line[i] == line[i..][0];
      assert line[i + 1..] == line[i..][1..];
      NoDelimiterFrom(line, delimiter, checkSpace, i + 1, if line[i] == '"' then !inside else inside);
    } else {
      assert line[0..] == line;
    }
  }

  /** Delimiters between quotes do not split. */
  lemma QuotedDelimiterIgnored()
    ensures Split("\"a+b\"", '+', false) == ["\"a+b\""]
  {
    var line := "\"a+b\"";
    TrimOfTrimmed(line);
    assert line[0..] == line;
  }

  /** A segment of one char before a delimiter is dropped, however it reads:
      `A,B` splits to `B` alone. */
  lemma ShortSegmentDropped()
    ensures Split("A,B", ',', false) == ["B"]
  {
    var line := "A,B";
    assert line[2..] == "B";
    TrimOfTrimmed("B");
    assert SplitFrom(line, ',', false, 2, false, 2, []) == ["B"];
    assert SplitFrom(line, ',', false, 1, false, 0, []) == ["B"] by {
      assert line[1] == ',';
      assert CutBefore(line, 0, 1, []) == [];
    }
  }

  /** A char above U+FFFF is two UTF-16 units, so as a segment of its own it
      is kept: `😀,B` splits into both parts. */
  lemma WideSegmentKept()
    ensures Split("\U{1F600},B", ',', false) == ["\U{1F600}", "B"]
  {
    var line := "\U{1F600},B";
    var wide := "\U{1F600}";
    assert line[2..] == "B";
    TrimOfTrimmed("B");
    assert SplitFrom(line, ',', false, 2, false, 2, [wide]) == [wide, "B"];
    assert SplitFrom(line, ',', false, 1, false, 0, []) == [wide, "B"] by {
      assert line[1] == ',';
      assert line[0..1] == wide;
      assert Utf16Length(wide) == 2 by {
        assert wide[1..] == [];
      }
      TrimOfTrimmed(wide);
      assert CutBefore(line, 0, 1, []) == [wide];
    }
  }

  /** With `checkSpace`, `ab + c` splits at the spaced `+`. */
  lemma SpacedDelimiter()
    ensures Split("ab + c", '+', true) == ["ab", "c"]
  {
    var l := "ab + c";
    SpacedTail(l);
    assert SplitFrom(l, '+', true, 3, false, 0, []) == ["ab", "c"] by {
      assert l[3] == '+' && ValidPosition(l, 3, true);
      SpacedHead(l);
    }
    assert SplitFrom(l, '+', true, 2, false, 0, []) == ["ab", "c"] by {
      assert l[2] == ' ';
    }
    assert SplitFrom(l, '+', true, 1, false, 0, []) == ["ab", "c"] by {
      assert l[1] == 'b';
    }
    assert l[0] == 'a';
  }

  lemma SpacedHead(l: string)
    requires l == "ab + c"
    ensures CutBefore(l, 0, 3, []) == ["ab"]
  {
    assert l[0..3] == "ab ";
    assert TrimLeft("ab ") == "ab ";
    assert "ab "[..2] == "ab";
    assert TrimRight("ab ") == TrimRight("ab");
    TrimOfTrimmed("ab");
  }

  lemma SpacedTail(l: string)
    requires l == "ab + c"
    ensures SplitFrom(l, '+', true, 4, false, 4, ["ab"]) == ["ab", "c"]
  {
    assert SplitFrom(l, '+', true, 6, false, 4, ["ab"]) == ["ab", "c"] by {
      assert l[4..] == " c";
      assert " c"[1..] == "c";
      assert TrimLeft(" c") == TrimLeft("c");
      TrimOfTrimmed("c");
    }
    assert SplitFrom(l, '+', true, 5, false, 4, ["ab"]) == ["ab", "c"] by {
      assert l[5] == 'c';
    }
    assert l[4] == ' ';
  }
}
