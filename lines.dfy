/** The small text helpers of Utils.java the line assembler is built from:
    comment removal, quote handling, blank-line detection, the include name
    and the tokenizer-based split. */
module Lines {
  import opened Base
  import opened Text

  // ---------------------------------------------------------------------------
  // removeComment

  /** `removeComment`: the line up to the first occurrence of the comment
      marker (wherever it stands, quotes included), trimmed. */
  function RemoveComment(line: string, commentDef: string): (r: string)
    ensures |r| <= |line|
    ensures r == [] || (!IsTrimmed(r[0]) && !IsTrimmed(r[|r| - 1]))
    ensures IndexOf(line, commentDef) < 0 ==> r == Trim(line)
  {
    var index := IndexOf(line, commentDef);
    if index >= 0 then Trim(line[..index]) else Trim(line)
  }

  /** Trimming keeps a contiguous piece of the text. */
  lemma TrimIsSlice(s: string) returns (a: nat)
    ensures a + |Trim(s)| <= |s| && Trim(s) == s[a..a + |Trim(s)|]
  {
    var l := TrimLeft(s);
    TrimLeftRemovesBlanks(s);
    TrimRightRemovesBlanks(l);
    a := |s| - |l|;
    assert Trim(s) == l[..|Trim(s)|];
  }

  /** What is left of a line holds no comment marker. */
  lemma NoMarkerLeft(line: string, commentDef: string)
    requires |commentDef| > 0
    ensures IndexOf(RemoveComment(line, commentDef), commentDef) == -1
  {
    var index := IndexOf(line, commentDef);
    var p := if index >= 0 then line[..index] else line;
    if index >= 0 {
      NoMarkerBefore(line, commentDef, index);
    }
    var a := TrimIsSlice(p);
    NoMarkerInSlice(p, commentDef, a, RemoveComment(line, commentDef));
  }

  /** Text cut before the first marker holds none. */
  lemma NoMarkerBefore(line: string, t: string, index: nat)
    requires index <= |line| && |t| > 0
    requires forall j :: 0 <= j < index ==> !OccursAt(line, t, j)
    ensures forall k :: 0 <= k <= index ==> !OccursAt(line[..index], t, k)
  {
    forall k | 0 <= k <= index ensures !OccursAt(line[..index], t, k) {
      if k + |t| <= index {
        assert line[..index][k..k + |t|] == line[k..k + |t|];
        assert !OccursAt(line, t, k);
      }
    }
  }

  /** A piece of a text without markers holds none. */
  lemma NoMarkerInSlice(s: string, t: string, a: nat, r: string)
    requires a + |r| <= |s| && r == s[a..a + |r|]
    requires forall k :: 0 <= k <= |s| ==> !OccursAt(s, t, k)
    ensures forall j :: 0 <= j <= |r| ==> !OccursAt(r, t, j)
  {
    forall j | 0 <= j <= |r| ensures !OccursAt(r, t, j) {
      if OccursAt(r, t, j) {
        forall i {:trigger r[j..j + |t|][i]} | 0 <= i < |t| ensures r[j..j + |t|][i] == s[a + j..a + j + |t|][i] {
          assert r[j + i] == s[a..a + |r|][j + i];
        }
        assert r[j..j + |t|] == s[a + j..a + j + |t|];
        assert OccursAt(s, t, a + j);
        assert false;
      }
    }
  }

  /** Removing comments twice is removing them once. */
  lemma RemoveCommentIdempotent(line: string, commentDef: string)
    requires |commentDef| > 0
    ensures RemoveComment(RemoveComment(line, commentDef), commentDef) == RemoveComment(line, commentDef)
  {
    var r := RemoveComment(line, commentDef);
    NoMarkerLeft(line, commentDef);
    TrimOfTrimmed(r);
  }

  /** The marker is found inside quotes too: `s = "a//b"` keeps `s = "a`. */
  lemma MarkerInsideQuotes(line: string)
    requires line == "s = \"a//b\""
    ensures RemoveComment(line, "//") == "s = \"a"
  {
    assert IndexOf(line, "//") == 6 by {
      assert OccursAt(line, "//", 6);
      forall j | 0 <= j < 6 ensures !OccursAt(line, "//", j) {
        assert line[j] != '/';
      }
    }
    assert line[..6] == "s = \"a";
    TrimOfTrimmed("s = \"a");
  }

  // ---------------------------------------------------------------------------
  // hasQuotes / removeQuotes

  /** `hasQuotes`: starts and ends with a double quote (one quote alone counts). */
  predicate HasQuotes(s: string) {
    |s| > 0 && s[0] == '"' && s[|s| - 1] == '"'
  }

  /** `removeQuotes`: the text between the enclosing quotes; anything else is
      returned as it is. A lone `"` makes `substring(1, 0)` fail. */
  function RemoveQuotes(s: string): (r: Result<string>)
    ensures !HasQuotes(s) ==> r == Ok(s)
    ensures r.Err? <==> s == "\""
    ensures HasQuotes(s) && r.Ok? ==> "\"" + r.value + "\"" == s
  {
    if HasQuotes(s) then
      if |s| < 2 then Err(IndexOutOfBounds) else Ok(s[1..|s| - 1])
    else Ok(s)
  }

  /** Quoting then unquoting gives the text back. */
  lemma QuotesRoundTrip(x: string)
    ensures HasQuotes("\"" + x + "\"")
    ensures RemoveQuotes("\"" + x + "\"") == Ok(x)
  {
    var q := "\"" + x + "\"";
    assert q[1..|q| - 1] == x;
  }

  // ---------------------------------------------------------------------------
  // isWhiteSpace

  /** `isWhiteSpace`: no token between spaces and tabs. */
  predicate IsWhiteSpace(line: string)
    ensures IsWhiteSpace(line) <==> forall j :: 0 <= j < |line| ==> IsTab(line[j])
  {
    TokensEmpty(line, {' ', '\t'});
    |Tokens(line, {' ', '\t'})| < 1
  }

  /** A text has no tokens exactly when it is made of delimiters. */
  lemma {:induction false} TokensEmpty(s: string, delims: set<char>)
    ensures |Tokens(s, delims)| == 0 <==> forall j :: 0 <= j < |s| ==> s[j] in delims
    decreases |s|
  {
    if |s| > 0 && s[0] in delims {
      TokensEmpty(s[1..], delims);
      assert forall j :: 1 <= j < |s| ==> s[j] == s[1..][j - 1];
    }
  }

  // ---------------------------------------------------------------------------
  // getIncludeName

  /** `getIncludeName` on the text after `#include`: for `<name>` or
      `"name"` the text without its first and last char (whatever the last
      one is), otherwise null. An empty name text fails in `charAt(0)`, and a
      lone `<` or `"` in `substring(1, 0)`. */
  function GetIncludeName(rest: string): (r: Result<Option<string>>)
    ensures var line := Trim(rest);
            && (r.Err? <==> |line| == 0 || (|line| == 1 && line[0] in "<\""))
            && (r.Ok? && r.value.Some? ==> line[0] in "<\"" && line[1..|line| - 1] == r.value.value)
            && (r.Ok? && r.value.None? <==> |line| > 0 && line[0] !in "<\"")
  {
    var line := Trim(rest);
    if |line| == 0 then Err(IndexOutOfBounds)
    else if line[0] == '<' || line[0] == '"' then
      if |line| < 2 then Err(IndexOutOfBounds) else Ok(Some(line[1..|line| - 1]))
    else Ok(None)
  }

  /** `<name>` and `"name"` give the name back. */
  lemma IncludeNameRoundTrip(name: string)
    ensures GetIncludeName("<" + name + ">") == Ok(Some(name))
    ensures GetIncludeName("\"" + name + "\"") == Ok(Some(name))
  {
    var a := "<" + name + ">";
    var b := "\"" + name + "\"";
    TrimOfTrimmed(a);
    TrimOfTrimmed(b);
    assert a[1..|a| - 1] == name && b[1..|b| - 1] == name;
  }

  /** The closing char is not checked: `<a.h` names `a.`. */
  lemma IncludeNameUnclosed()
    ensures GetIncludeName("<a.h") == Ok(Some("a."))
  {
    TrimOfTrimmed("<a.h");
    assert "<a.h"[1..3] == "a.";
  }

  // ---------------------------------------------------------------------------
  // split

  /** `Utils.split`: the tokens between delimiter chars, except that a line
      with exactly one token is returned whole, delimiters and all. */
  function SplitTokens(line: string, delims: set<char>): (r: seq<string>)
    ensures |r| == |Tokens(line, delims)|
    ensures |r| == 1 ==> r[0] == line
    ensures |r| != 1 ==> r == Tokens(line, delims)
    ensures |r| != 1 ==> forall k, j :: 0 <= k < |r| && 0 <= j < |r[k]| ==> r[k][j] !in delims && |r[k]| > 0
  {
    var tokens := Tokens(line, delims);
    if |tokens| == 1 then [line] else tokens
  }

  /** One token with padding around it: the padding stays. */
  lemma SplitKeepsPadding()
    ensures SplitTokens(" A=", {'=', ' ', '\t'}) == [" A="]
  {
    var s := " A=";
    var d := {'=', ' ', '\t'};
    assert Tokens(s, d) == Tokens(s[1..], d);
    assert s[1..] == "A=";
    assert RunLength("A=", d) == 1 by {
      assert "A="[1..] == "=";
      assert RunLength("=", d) == 0;
    }
    assert "A="[..1] == "A" && "A="[1..] == "=";
    assert Tokens("=", d) == [] by {
      assert "="[1..] == [];
    }
  }
}
