/** Tag mode: overwrite the text, or the named attributes, of every leaf element with a given name. */
module TagMode {
  import opened Wrappers
  import opened Config
  import opened XmlTree
  import opened Attributes

  /** Node i is picked by the selection: a leaf whose name is the tag. An unset tag picks nothing. */
  predicate Selected(s: seq<Node>, i: nat, tag: Option<string>)
    requires i < |s|
  {
    IsLeaf(s, i) && tag == Some(s[i].name)
  }

  /** Updating node i writes something: its text, or at least one attribute named as the sub-tag. */
  predicate Writes(s: seq<Node>, i: nat, opts: Options)
    requires i < |s|
  {
    Selected(s, i, opts.tag) && (WritesText(opts) || HasAttribute(s[i].attrs, opts.subtag.value))
  }

  /** A selected node after its update with `value`. */
  function Rewritten(n: Node, opts: Options, value: string): Node
  {
    if WritesText(opts) then n.(value := value)
    else n.(attrs := Assigned(n.attrs, opts.subtag.value, value))
  }

  /** The document with every selected node rewritten. */
  function TagUpdated(s: seq<Node>, opts: Options, value: string): seq<Node>
  {
    seq(|s|, i requires 0 <= i < |s| => if Selected(s, i, opts.tag) then Rewritten(s[i], opts, value) else s[i])
  }

  /** What tag mode does to a document: the update, or the fault of writing an unset value. */
  function TagUpdate(s: seq<Node>, opts: Options): Result<seq<Node>>
  {
    match opts.value
    case Some(v) => Ok(TagUpdated(s, opts, v))
    case None => if exists i: nat :: i < |s| && Writes(s, i, opts) then Err(NullValue) else Ok(s)
  }

  /**
   * Visits the nodes in document order and rewrites each selected one in place: its text
   * when the sub-tag is null or empty, otherwise every attribute named as the sub-tag.
   */
  method UpdateTag(doc: array<Node>, opts: Options) returns (outcome: Outcome)
    modifies doc
    ensures TagUpdate(old(doc[..]), opts) == if outcome == Done then Ok(doc[..]) else Err(outcome.fault)
    ensures outcome != Done ==> doc[..] == old(doc[..])
  {
    if WritesText(opts) {
      outcome := UpdateText(doc, opts);
    } else {
      outcome := UpdateAttributes(doc, opts);
    }
  }

  /** The text branch of tag mode: each selected node's text becomes the value. */
  method UpdateText(doc: array<Node>, opts: Options) returns (outcome: Outcome)
    requires WritesText(opts)
    modifies doc
    ensures TagUpdate(old(doc[..]), opts) == if outcome == Done then Ok(doc[..]) else Err(outcome.fault)
    ensures outcome != Done ==> doc[..] == old(doc[..])
  {
    ghost var s := doc[..];
    for i := 0 to doc.Length
      invariant opts.value.Some? ==> forall j :: 0 <= j < i ==> doc[j] == TagUpdated(s, opts, opts.value.value)[j]
      invariant forall j :: i <= j < doc.Length ==> doc[j] == s[j]
      invariant opts.value.None? ==> doc[..] == s && forall j: nat :: j < i ==> !Writes(s, j, opts)
    {
      var leaf := i + 1 == doc.Length || doc[i + 1].depth <= doc[i].depth;
      assert leaf == IsLeaf(s, i);
      if leaf && opts.tag == Some(doc[i].name) {
        match opts.value
        case None =>
          assert Writes(s, i, opts);
          return Failed(NullValue);
        case Some(v) =>
          doc[i] := doc[i].(value := v);
      }
    }
    assert opts.value.Some? ==> doc[..] == TagUpdated(s, opts, opts.value.value);
    return Done;
  }

  /** The attribute branch of tag mode: on each selected node, every attribute named as the sub-tag gets the value. */
  method UpdateAttributes(doc: array<Node>, opts: Options) returns (outcome: Outcome)
    requires !WritesText(opts)
    modifies doc
    ensures TagUpdate(old(doc[..]), opts) == if outcome == Done then Ok(doc[..]) else Err(outcome.fault)
    ensures outcome != Done ==> doc[..] == old(doc[..])
  {
    ghost var s := doc[..];
    for i := 0 to doc.Length
      invariant opts.value.Some? ==> forall j :: 0 <= j < i ==> doc[j] == TagUpdated(s, opts, opts.value.value)[j]
      invariant forall j :: i <= j < doc.Length ==> doc[j] == s[j]
      invariant opts.value.None? ==> doc[..] == s && forall j: nat :: j < i ==> !Writes(s, j, opts)
    {
      var leaf := i + 1 == doc.Length || doc[i + 1].depth <= doc[i].depth;
      assert leaf == IsLeaf(s, i);
      if leaf && opts.tag == Some(doc[i].name) {
        var attrs, o := AssignAll(doc[i].attrs, opts.subtag.value, opts.value);
        if o != Done {
          assert Writes(s, i, opts);
          return o;
        }
        doc[i] := doc[i].(attrs := attrs);
      }
    }
    assert opts.value.Some? ==> doc[..] == TagUpdated(s, opts, opts.value.value);
    return Done;
  }

  /**
   * Without a sub-tag, every leaf named as the tag has the value as its text afterwards and
   * keeps its attributes; every other node, including a non-leaf with that name, is unchanged.
   */
  lemma TextModeSetsSelectedText(s: seq<Node>, opts: Options)
    requires WritesText(opts) && opts.value.Some?
    ensures TagUpdate(s, opts).Ok?
    ensures var r := TagUpdate(s, opts).value;
      |r| == |s| &&
      (forall i :: 0 <= i < |s| && IsLeaf(s, i) && opts.tag == Some(s[i].name) ==>
         r[i] == s[i].(value := opts.value.value)) &&
      (forall i :: 0 <= i < |s| && !(IsLeaf(s, i) && opts.tag == Some(s[i].name)) ==> r[i] == s[i])
  {
  }

  /**
   * With a non-empty sub-tag, on every selected leaf each attribute named as the sub-tag (all
   * of them) has the value afterwards; its other attributes, their order and count, and its
   * text are untouched, and every node not selected is unchanged.
   */
  lemma AttributeModeSetsNamedAttributes(s: seq<Node>, opts: Options)
    requires !WritesText(opts) && opts.value.Some?
    ensures TagUpdate(s, opts).Ok?
    ensures var r := TagUpdate(s, opts).value;
      |r| == |s| &&
      (forall i :: 0 <= i < |s| && !Selected(s, i, opts.tag) ==> r[i] == s[i]) &&
      (forall i :: 0 <= i < |s| && Selected(s, i, opts.tag) ==>
         r[i].value == s[i].value && SameNames(s[i].attrs, r[i].attrs) &&
         forall k :: 0 <= k < |r[i].attrs| ==>
           r[i].attrs[k].value == if s[i].attrs[k].name == opts.subtag.value then opts.value.value else s[i].attrs[k].value)
  {
  }

  /** Tag mode changes only text and attribute values, never the shape of the document. */
  lemma TagKeepsShape(s: seq<Node>, opts: Options)
    requires TagUpdate(s, opts).Ok?
    ensures SameShape(s, TagUpdate(s, opts).value)
  {
  }

  /** Running tag mode a second time with the same options changes nothing more. */
  lemma TagIdempotent(s: seq<Node>, opts: Options)
    requires TagUpdate(s, opts).Ok?
    ensures TagUpdate(TagUpdate(s, opts).value, opts) == TagUpdate(s, opts)
  {
    if opts.value.Some? {
      var v := opts.value.value;
      var r := TagUpdated(s, opts, v);
      var rr := TagUpdated(r, opts, v);
      forall i | 0 <= i < |s|
        ensures rr[i] == r[i]
      {
        assert IsLeaf(r, i) == IsLeaf(s, i);
        if Selected(s, i, opts.tag) && !WritesText(opts) {
          AssignedIdempotent(s[i].attrs, opts.subtag.value, v);
        }
      }
      assert rr == r;
    }
  }

  /** Tag mode stated on the tree: rewrite every childless element whose name is the tag. */
  function TagUpdatedTree(e: Element, opts: Options, value: string): Element
    decreases e, 1
  {
    if e.children == [] then
      if opts.tag != Some(e.name) then e
      else if WritesText(opts) then e.(value := value)
      else e.(attrs := Assigned(e.attrs, opts.subtag.value, value))
    else e.(children := TagUpdatedForest(e.children, opts, value))
  }

  function TagUpdatedForest(cs: seq<Element>, opts: Options, value: string): seq<Element>
    decreases cs, 0
  {
    if cs == [] then [] else [TagUpdatedTree(cs[0], opts, value)] + TagUpdatedForest(cs[1..], opts, value)
  }

  /** The update of a concatenation is the concatenation of the updates, when the join does not change a leaf. */
  lemma TagUpdatedConcat(a: seq<Node>, b: seq<Node>, opts: Options, value: string)
    requires a != [] && (b == [] || b[0].depth <= a[|a| - 1].depth)
    ensures TagUpdated(a + b, opts, value) == TagUpdated(a, opts, value) + TagUpdated(b, opts, value)
  {
  }

  /**
   * Updating the document in document order, as `UpdateTag` does, gives the document order
   * of the updated tree: the in-place walk over the array is the tree update.
   */
  lemma {:induction false} FlattenTagUpdatedTree(e: Element, depth: nat, opts: Options, value: string)
    ensures Flatten(TagUpdatedTree(e, opts, value), depth) == TagUpdated(Flatten(e, depth), opts, value)
    decreases e, 1
  {
    var s := Flatten(e, depth);
    var rest := FlattenOf(e.children, depth + 1);
    FlattenOfMirrorsDescendantsOf(e.children, depth + 1);
    FlattenOfTagUpdatedForest(e.children, depth + 1, opts, value);
    var r := TagUpdated(s, opts, value);
    assert r[0] == Flatten(TagUpdatedTree(e, opts, value), depth)[0] by {
      assert IsLeaf(s, 0) <==> e.children == [];
    }
    assert r[1..] == TagUpdated(rest, opts, value) by {
      forall i | 0 <= i < |rest|
        ensures r[i + 1] == TagUpdated(rest, opts, value)[i]
      {
        assert IsLeaf(s, i + 1) == IsLeaf(rest, i);
      }
    }
  }

  lemma {:induction false} FlattenOfTagUpdatedForest(cs: seq<Element>, depth: nat, opts: Options, value: string)
    ensures FlattenOf(TagUpdatedForest(cs, opts, value), depth) == TagUpdated(FlattenOf(cs, depth), opts, value)
    decreases cs, 0
  {
    if cs != [] {
      var a, b := Flatten(cs[0], depth), FlattenOf(cs[1..], depth);
      FlattenTagUpdatedTree(cs[0], depth, opts, value);
      FlattenOfTagUpdatedForest(cs[1..], depth, opts, value);
      FlattenMirrorsDescendants(cs[0], depth);
      FlattenOfMirrorsDescendantsOf(cs[1..], depth);
      assert a[|a| - 1] in a;
      TagUpdatedConcat(a, b, opts, value);
      assert TagUpdatedForest(cs, opts, value)[1..] == TagUpdatedForest(cs[1..], opts, value);
    }
  }

  /**
   * On a document loaded from a tree, the selection picks exactly the descendants (the root
   * included) that have no child elements and whose name is the tag.
   */
  lemma SelectedInTree(root: Element, tag: Option<string>, i: nat)
    requires i < |Descendants(root)|
    ensures |Flatten(root, 0)| == |Descendants(root)|
    ensures Selected(Flatten(root, 0), i, tag) <==>
      Descendants(root)[i].children == [] && tag == Some(Descendants(root)[i].name)
  {
    FlattenMirrorsDescendants(root, 0);
  }
}
