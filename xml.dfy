/**
 * The XML document, reduced to plain data. `Element` is the tree as the program sees it
 * through its element API; `Node` is one element as it sits in document order, which is
 * how the updates visit and change the document.
 */
module XmlTree {

  datatype Attribute = Attribute(name: string, value: string)

  /** An element: its name, its attributes in declaration order, its text, its child elements. */
  datatype Element = Element(name: string, attrs: seq<Attribute>, value: string, children: seq<Element>)

  /** An element in document order: how deep it is, and its own name, attributes and text. */
  datatype Node = Node(depth: nat, name: string, attrs: seq<Attribute>, value: string)

  /** The element and all elements below it, in pre-order (document order), the element first. */
  function Descendants(e: Element): seq<Element>
    decreases e, 1
  {
    [e] + DescendantsOf(e.children)
  }

  function DescendantsOf(cs: seq<Element>): seq<Element>
    decreases cs, 0
  {
    if cs == [] then [] else Descendants(cs[0]) + DescendantsOf(cs[1..])
  }

  /** The same pre-order walk, recording each element's depth instead of its children. */
  function Flatten(e: Element, depth: nat): seq<Node>
    decreases e, 1
  {
    [Node(depth, e.name, e.attrs, e.value)] + FlattenOf(e.children, depth + 1)
  }

  function FlattenOf(cs: seq<Element>, depth: nat): seq<Node>
    decreases cs, 0
  {
    if cs == [] then [] else Flatten(cs[0], depth) + FlattenOf(cs[1..], depth)
  }

  /** Node i has no child elements: the node after it, if any, is not deeper. */
  predicate IsLeaf(s: seq<Node>, i: nat)
    requires i < |s|
  {
    i + 1 == |s| || s[i + 1].depth <= s[i].depth
  }

  predicate SameLabel(n: Node, e: Element)
  {
    n.name == e.name && n.attrs == e.attrs && n.value == e.value
  }

  /** Node by node, `s` carries the labels of `es`, and a node is a leaf exactly when its element has no children. */
  predicate Mirrors(s: seq<Node>, es: seq<Element>)
  {
    |s| == |es| &&
    forall i :: 0 <= i < |s| ==> SameLabel(s[i], es[i]) && (IsLeaf(s, i) <==> es[i].children == [])
  }

  lemma MirrorsConcat(a: seq<Node>, da: seq<Element>, b: seq<Node>, db: seq<Element>)
    requires Mirrors(a, da) && Mirrors(b, db) && a != []
    requires b == [] || b[0].depth <= a[|a| - 1].depth
    ensures Mirrors(a + b, da + db)
  {
  }

  /**
   * The document-order form of a tree mirrors its pre-order element list: the same labels
   * at the same positions, and "the next node is not deeper" exactly for childless elements.
   */
  lemma {:induction false} FlattenMirrorsDescendants(e: Element, depth: nat)
    ensures Mirrors(Flatten(e, depth), Descendants(e))
    ensures Flatten(e, depth)[0].depth == depth
    ensures forall n <- Flatten(e, depth) :: n.depth >= depth
    decreases e, 1
  {
    var rest, drest := FlattenOf(e.children, depth + 1), DescendantsOf(e.children);
    FlattenOfMirrorsDescendantsOf(e.children, depth + 1);
    var s, es := Flatten(e, depth), Descendants(e);
    forall i | 0 <= i < |s|
      ensures SameLabel(s[i], es[i]) && (IsLeaf(s, i) <==> es[i].children == [])
    {
      if i == 0 {
        assert IsLeaf(s, 0) <==> rest == [];
      } else {
        assert s[i] == rest[i - 1] && es[i] == drest[i - 1];
        assert IsLeaf(s, i) == IsLeaf(rest, i - 1);
      }
    }
  }

  lemma {:induction false} FlattenOfMirrorsDescendantsOf(cs: seq<Element>, depth: nat)
    ensures Mirrors(FlattenOf(cs, depth), DescendantsOf(cs))
    ensures FlattenOf(cs, depth) == [] <==> cs == []
    ensures FlattenOf(cs, depth) != [] ==> FlattenOf(cs, depth)[0].depth == depth
    ensures forall n <- FlattenOf(cs, depth) :: n.depth >= depth
    decreases cs, 0
  {
    if cs != [] {
      FlattenMirrorsDescendants(cs[0], depth);
      FlattenOfMirrorsDescendantsOf(cs[1..], depth);
      var a, b := Flatten(cs[0], depth), FlattenOf(cs[1..], depth);
      assert a[|a| - 1] in a;
      MirrorsConcat(a, Descendants(cs[0]), b, DescendantsOf(cs[1..]));
    }
  }

  /** Same elements at the same depths with the same names and attribute names; only values may differ. */
  predicate SameShape(a: seq<Node>, b: seq<Node>)
  {
    |a| == |b| &&
    forall i :: 0 <= i < |a| ==>
      a[i].depth == b[i].depth && a[i].name == b[i].name && |a[i].attrs| == |b[i].attrs| &&
      forall k :: 0 <= k < |a[i].attrs| ==> a[i].attrs[k].name == b[i].attrs[k].name
  }
}
