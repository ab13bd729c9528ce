/** Walks over an element's attribute list, in declaration order. */
module Attributes {
  import opened Wrappers
  import opened Config
  import opened XmlTree

  predicate HasAttribute(attrs: seq<Attribute>, name: string)
  {
    exists k :: 0 <= k < |attrs| && attrs[k].name == name
  }

  /** Attribute k is the first one called `name`. */
  predicate FirstNamed(attrs: seq<Attribute>, name: string, k: int)
  {
    0 <= k < |attrs| && attrs[k].name == name && forall j :: 0 <= j < k ==> attrs[j].name != name
  }

  /** Both lists have the same attribute names in the same order. */
  predicate SameNames(a: seq<Attribute>, b: seq<Attribute>)
  {
    |a| == |b| && forall k :: 0 <= k < |a| ==> a[k].name == b[k].name
  }

  /** The list with the value of every attribute called `name` replaced by `value`. */
  function Assigned(attrs: seq<Attribute>, name: string, value: string): (r: seq<Attribute>)
    ensures SameNames(attrs, r)
    ensures forall k :: 0 <= k < |r| ==> r[k].value == if attrs[k].name == name then value else attrs[k].value
  {
    if attrs == [] then []
    else [if attrs[0].name == name then attrs[0].(value := value) else attrs[0]] + Assigned(attrs[1..], name, value)
  }

  /** The value of the first attribute called `name`, if there is one. */
  function FirstValue(attrs: seq<Attribute>, name: string): (r: Option<string>)
    ensures r.None? <==> !HasAttribute(attrs, name)
    ensures r.Some? ==> exists k :: FirstNamed(attrs, name, k) && attrs[k].value == r.value
  {
    if attrs == [] then None
    else if attrs[0].name == name then Some(attrs[0].value)
    else
      var r := FirstValue(attrs[1..], name);
      assert r.Some? ==> forall k :: FirstNamed(attrs[1..], name, k) ==> FirstNamed(attrs, name, k + 1);
      assert HasAttribute(attrs[1..], name) ==> HasAttribute(attrs, name);
      r
  }

  /**
   * Overwrites, from the first attribute to the last, the value of every attribute called
   * `name`. An unset value faults at the first such attribute, before anything is written.
   */
  method AssignAll(attrs: seq<Attribute>, name: string, value: Option<string>) returns (r: seq<Attribute>, outcome: Outcome)
    ensures value.Some? ==> outcome == Done && r == Assigned(attrs, name, value.value)
    ensures value.None? ==> r == attrs
    ensures value.None? ==> outcome == if HasAttribute(attrs, name) then Failed(NullValue) else Done
  {
    r, outcome := attrs, Done;
    var k := 0;
    while k < |r|
      invariant 0 <= k <= |r| == |attrs|
      invariant value.Some? ==> forall j :: 0 <= j < k ==> r[j] == if attrs[j].name == name then attrs[j].(value := value.value) else attrs[j]
      invariant forall j :: k <= j < |r| ==> r[j] == attrs[j]
      invariant value.None? ==> r == attrs && forall j :: 0 <= j < k ==> attrs[j].name != name
    {
      if r[k].name == name {
        match value
        case None =>
          return attrs, Failed(NullValue);
        case Some(v) =>
          r := r[k := r[k].(value := v)];
      }
      k := k + 1;
    }
  }

  /**
   * Looks for the first attribute called `name` and reports whether its value equals
   * `expected`; the search stops at that attribute whether or not it matches. An unset
   * `expected` equals no value.
   */
  method FirstMatches(attrs: seq<Attribute>, name: string, expected: Option<string>) returns (found: bool)
    ensures found <==> expected.Some? && FirstValue(attrs, name) == expected
  {
    found := false;
    var k := 0;
    while k < |attrs|
      invariant 0 <= k <= |attrs|
      invariant forall j :: 0 <= j < k ==> attrs[j].name != name
    {
      if attrs[k].name == name {
        if expected == Some(attrs[k].value) {
          found := true;
        }
        assert FirstNamed(attrs, name, k);
        break;
      }
      k := k + 1;
    }
  }

  /**
   * Reading the first value of `other` is not affected by overwriting the attributes
   * called `name`.
   */
  lemma AssignedKeepsFirstValue(attrs: seq<Attribute>, name: string, value: string, other: string)
    requires name != other
    ensures FirstValue(Assigned(attrs, name, value), other) == FirstValue(attrs, other)
  {
  }

  /** Overwriting the same attributes with the same value a second time changes nothing. */
  lemma AssignedIdempotent(attrs: seq<Attribute>, name: string, value: string)
    ensures Assigned(Assigned(attrs, name, value), name, value) == Assigned(attrs, name, value)
  {
  }
}
