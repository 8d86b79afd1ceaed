/** One assembled source line: its text, its 1-based physical line number and
    the name of the file it came from (LineItem.java). */
module LineItems {
  import opened Base
  import opened Text
  import opened Numbers

  datatype LineItem = LineItem(line: string, number: int, source: string) {

    /** `source:number`, the location printed with every diagnostic. */
    function GetSource(): (r: string)
      ensures |r| > |source| + 1
      ensures r[..|source|] == source && r[|source|] == ':'
      ensures r[|source| + 1..] == IntToString(number)
    {
      source + ":" + IntToString(number)
    }
  }

  /** The position of the last `c` in `s`, or -1. */
  function LastIndexOfChar(s: string, c: char): (r: int)
    ensures -1 <= r < |s|
    ensures r >= 0 ==> s[r] == c
    ensures forall j :: r < j < |s| ==> s[j] != c
  {
    if |s| == 0 then -1
    else if s[|s| - 1] == c then |s| - 1
    else LastIndexOfChar(s[..|s| - 1], c)
  }

  /** Splitting a location at its last colon gives back the source name and a
      number that `Integer.decode` reads as the line number; so two items agree
      on their location exactly when they agree on source and number. */
  lemma GetSourceRoundTrip(li: LineItem)
    requires INT_MIN <= li.number <= INT_MAX
    ensures var r := li.GetSource();
            var k := LastIndexOfChar(r, ':');
            k == |li.source| && r[..k] == li.source && DecodeInt(r[k + 1..]) == Some(li.number)
  {
    var r := li.GetSource();
    var digits := IntToString(li.number);
    NoColonInNumber(li.number);
    assert forall j :: |li.source| < j < |r| ==> r[j] == digits[j - |li.source| - 1];
    IntToStringRoundTrip(li.number);
  }

  /** The printed number holds no colon. */
  lemma NoColonInNumber(n: int)
    ensures forall j :: 0 <= j < |IntToString(n)| ==> IntToString(n)[j] != ':'
  {
    if n < 0 {
      var digits := NatToString(-n);
      assert forall j :: 1 <= j < |IntToString(n)| ==> IntToString(n)[j] == digits[j - 1];
    }
  }
}
