/** The element constructor of DataElement.java: a declaration line
    `TYPE NAME [VALUE...]`, or `= NAME VALUE` with the type guessed from
    the value. */
module Declarations {
  import opened Base
  import opened Text
  import opened Numbers
  import opened Elements
  import Resolver

  /** `checkArrayName` on the type token: `string[N]` gives `string` and the
      fixed length N (read by `Integer.decode`); a token that does not end in
      `]`, holds `[]`, or starts with `[` is kept whole with length 0. */
  function CheckArrayName(token: string): (r: Result<(string, int)>)
    ensures !EndsWith(token, "]") || IndexOf(token, "[]") >= 0 ==> r == Ok((token, 0))
    ensures r.Ok? && r.value.0 != token ==>
              |r.value.0| < |token| && token[..|r.value.0|] == r.value.0 && token[|r.value.0|] == '['
              && '[' !in r.value.0
  {
    if !EndsWith(token, "]") || IndexOf(token, "[]") >= 0 then Ok((token, 0))
    else
      var index := IndexOfChar(token, '[');
      if index < 1 then Ok((token, 0))
      else
        var inner := token[index + 1..|token| - 1];
        match DecodeInt(inner)
        case None => Err(NumberFormat(inner))
        case Some(n) => Ok((token[..index], n))
  }

  /** The value of a declaration: the third token, or with more tokens the
      rest of the line from the first occurrence of the third token's text. */
  function DeclaredValue(line: string, tokens: seq<string>): (r: Result<Option<string>>)
    ensures |tokens| < 3 ==> r == Ok(None)
    ensures |tokens| == 3 ==> r == Ok(Some(Trim(tokens[2])))
  {
    if |tokens| < 3 then Ok(None)
    else if |tokens| == 3 then Ok(Some(Trim(tokens[2])))
    else
      var tokenIndex := IndexOf(line, Trim(tokens[2]));
      if tokenIndex < 0 then Err(IndexOutOfBounds)
      else Ok(Some(Trim(line[tokenIndex..])))
  }

  /** `new DataElement(li, constants)`: the element a declaration line makes,
      unchecked, with the table after any resolution `guessType` caused. */
  function ParseElement(line: string, t: Table): (r: Result<(Table, Element)>)
    ensures |Tokens(line, {' ', '\t'})| < 2 ==> r == Err(MalformedElement(line))
    ensures r.Ok? ==> Preserves(t, r.value.0)
    ensures r.Ok? ==> var tokens := Tokens(line, {' ', '\t'});
                      && r.value.1.name == tokens[1]
                      && !r.value.1.checked
                      && (r.value.1.value.Some? <==> |tokens| >= 3)
  {
    var tokens := Tokens(line, {' ', '\t'});
    if |tokens| < 2 then Err(MalformedElement(line))
    else
      var (data, arrayLen) :- CheckArrayName(tokens[0]);
      var value :- DeclaredValue(line, tokens);
      TypedElement(t, data, tokens[1], arrayLen, value)
  }

  /** The element of a declaration whose type token is `data`: a keyword
      fixes the type, `=` with a value has it guessed. */
  function TypedElement(t: Table, data: string, name: string, arrayLen: int, value: Option<string>)
    : (r: Result<(Table, Element)>)
    ensures r.Ok? ==> Preserves(t, r.value.0)
    ensures r.Ok? ==> r.value.1 == Element(name, r.value.1.etype, arrayLen, value, false)
    ensures KeywordType(data).Some? ==> r == Ok((t, Element(name, KeywordType(data).value, arrayLen, value, false)))
    ensures KeywordType(data).None? && (data != "=" || value.None?) ==> r == Err(UnknownElementType(data))
  {
    match KeywordType(data)
    case Some(ty) => Ok((t, Element(name, ty, arrayLen, value, false)))
    case None =>
      if data == "=" && value.Some? then
        var (t', ty) :- Resolver.GuessType(t, value);
        Ok((t', Element(name, ty, arrayLen, value, false)))
      else Err(UnknownElementType(data))
  }

  /** `string[8]` declares a string of fixed length 8. */
  lemma FixedLengthType()
    ensures CheckArrayName("string[8]") == Ok(("string", 8))
  {
    var s := "string[8]";
    BracketFacts(s);
    assert DecodeInt("8") == Some(8) by {
      assert IntToString(8) == "8";
      IntToStringRoundTrip(8);
    }
  }

  lemma BracketFacts(s: string)
    requires s == "string[8]"
    ensures EndsWith(s, "]") && IndexOf(s, "[]") == -1
    ensures IndexOfChar(s, '[') == 6 && s[7..8] == "8" && s[..6] == "string"
  {
    assert forall j :: 0 <= j < |s| - 1 ==> !(s[j] == '[' && s[j + 1] == ']');
    NoEmptyBrackets(s);
    assert IndexOfChar(s, '[') == 6;
  }

  lemma NoEmptyBrackets(s: string)
    requires forall j :: 0 <= j < |s| - 1 ==> !(s[j] == '[' && s[j + 1] == ']')
    ensures IndexOf(s, "[]") == -1
  {
    forall j | 0 <= j <= |s| ensures !OccursAt(s, "[]", j) {
      if j + 2 <= |s| {
        assert s[j..j + 2][0] == s[j] && s[j..j + 2][1] == s[j + 1];
      }
    }
  }
}
