/** DataStruct.java: a struct is an ordered list of fields in which the
    first field of a name wins; the registry of defined structs decides
    whether a struct-typed element has a known (constant) value. */
module Structs {
  import opened Base
  import opened Elements

  /** The position of the first field called `name`, or -1. */
  function FindField(fields: seq<Element>, name: string): (i: int)
    ensures -1 <= i < |fields|
    ensures i >= 0 ==> fields[i].name == name
    ensures forall j :: 0 <= j < |fields| && (i < 0 || j < i) ==> fields[j].name != name
  {
    if |fields| == 0 then -1
    else if fields[0].name == name then 0
    else
      var k := FindField(fields[1..], name);
      if k < 0 then -1 else k + 1
  }

  /** No two fields share a name. */
  ghost predicate UniqueNames(fields: seq<Element>) {
    forall i, j :: 0 <= i < j < |fields| ==> fields[i].name != fields[j].name
  }

  /** The outcome of `getElement(int)`: the field, `null` (index < 0 or
      index > size), or the exception `elementAt` raises for index == size. */
  datatype FieldAt = Field(e: Element) | NullField | OutOfRange

  /** `getElement(int)` on a field list. */
  function ElementAt(fields: seq<Element>, index: int): (r: FieldAt)
    ensures 0 <= index < |fields| <==> r.Field?
    ensures r.Field? ==> r.e == fields[index]
    ensures r.OutOfRange? <==> index == |fields|
  {
    if index < 0 || index > |fields| then NullField
    else if index == |fields| then OutOfRange
    else Field(fields[index])
  }

  class DataStruct {
    const name: string
    var elements: seq<Element>

    constructor (name: string)
      ensures this.name == name && elements == []
    {
      this.name := name;
      elements := [];
    }

    /** `getElement(String)`: the first field with that name, or null. */
    function GetElement(fieldName: string): (r: Option<Element>)
      reads this
      ensures r.None? <==> forall j :: 0 <= j < |elements| ==> elements[j].name != fieldName
      ensures r.Some? ==> r.value.name == fieldName
      ensures r.Some? ==> r.value == elements[FindField(elements, fieldName)]
    {
      var i := FindField(elements, fieldName);
      if i < 0 then None else Some(elements[i])
    }

    /** `getElement(int)`. */
    function GetElementAt(index: int): (r: FieldAt)
      reads this
      ensures r == ElementAt(elements, index)
    {
      ElementAt(elements, index)
    }

    function Size(): nat
      reads this
    {
      |elements|
    }

    /** `addElement`: a field whose name is taken is refused and the field
        already there is returned; otherwise the field is appended. */
    method AddElement(e: Element) returns (existing: Option<Element>)
      modifies this
      ensures existing == old(GetElement(e.name))
      ensures existing.Some? ==> elements == old(elements)
      ensures existing.None? ==> elements == old(elements) + [e]
      ensures Size() == old(Size()) + (if existing.None? then 1 else 0)
      ensures UniqueNames(old(elements)) ==> UniqueNames(elements)
    {
      existing := GetElement(e.name);
      if existing.None? {
        elements := elements + [e];
      }
    }
  }

  /** The registry of defined structs (`DataStruct.structs`), by name, as the
      field lists they were defined with. */
  type Registry = map<string, seq<Element>>

  /** `DataElement.isConstant`: a struct-typed element is constant when it
      names a registered struct all of whose fields are constant; any other
      element when it has a value. `visited` holds the structs being
      examined: meeting one again is a cycle, which the original follows
      without end and the model answers with false. */
  function ElementIsConstant(reg: Registry, e: Element, visited: set<string>): (r: bool)
    ensures e.etype != Struct ==> (r <==> e.value.Some?)
    ensures e.etype == Struct && r ==> e.value.Some? && e.value.value in reg
    decreases reg.Keys - visited, 0
  {
    if e.etype == Struct then
      match e.value
      case None => false
      case Some(s) =>
        if s !in reg || s in visited then false
        else FieldsConstant(reg, reg[s], visited + {s})
    else e.value.Some?
  }

  /** `DataStruct.isConstant`: every field is constant (so an empty struct is). */
  function FieldsConstant(reg: Registry, fields: seq<Element>, visited: set<string>): (r: bool)
    ensures r <==> forall i :: 0 <= i < |fields| ==> ElementIsConstant(reg, fields[i], visited)
    decreases reg.Keys - visited, 1, |fields|
  {
    if |fields| == 0 then true
    else if !ElementIsConstant(reg, fields[0], visited) then false
    else
      var rest := FieldsConstant(reg, fields[1..], visited);
      assert forall i :: 1 <= i < |fields| ==> fields[i] == fields[1..][i - 1];
      rest
  }

  function IsConstant(reg: Registry, e: Element): bool {
    ElementIsConstant(reg, e, {})
  }
}
