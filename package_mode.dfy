/** Package mode: set the version of the first matching package reference, and of no other. */
module PackageMode {
  import opened Wrappers
  import opened Config
  import opened XmlTree
  import opened Attributes

  const PackageReference := "PackageReference"
  const Include := "Include"
  const Version := "Version"

  /**
   * Node i is a leaf package reference whose first `Include` attribute has the tag as its
   * value. Later `Include` attributes are never looked at; an unset tag matches nothing.
   */
  predicate IsTarget(s: seq<Node>, i: nat, tag: Option<string>)
    requires i < |s|
  {
    s[i].name == PackageReference && IsLeaf(s, i) && tag.Some? && FirstValue(s[i].attrs, Include) == tag
  }

  /** The first target at or after position `from`, in document order. */
  function FirstTarget(s: seq<Node>, tag: Option<string>, from: nat): (r: Option<nat>)
    requires from <= |s|
    ensures r.Some? ==> from <= r.value < |s| && IsTarget(s, r.value, tag)
    ensures r.Some? ==> forall j :: from <= j < r.value ==> !IsTarget(s, j, tag)
    ensures r.None? ==> forall j :: from <= j < |s| ==> !IsTarget(s, j, tag)
    decreases |s| - from
  {
    if from == |s| then None
    else if IsTarget(s, from, tag) then Some(from)
    else FirstTarget(s, tag, from + 1)
  }

  /** A target with no target before it is the first target. */
  lemma FirstTargetIsLeast(s: seq<Node>, tag: Option<string>, i: nat)
    requires i < |s| && IsTarget(s, i, tag)
    requires forall j :: 0 <= j < i ==> !IsTarget(s, j, tag)
    ensures FirstTarget(s, tag, 0) == Some(i)
  {
  }

  /**
   * What package mode does to a document: every `Version` attribute of the first target gets
   * the value and nothing else changes; with no target nothing changes at all. Writing an
   * unset value faults before anything is changed.
   */
  function PackageUpdate(s: seq<Node>, opts: Options): Result<seq<Node>>
  {
    match FirstTarget(s, opts.tag, 0)
    case None => Ok(s)
    case Some(i) =>
      match opts.value
      case Some(v) => Ok(s[i := s[i].(attrs := Assigned(s[i].attrs, Version, v))])
      case None => if HasAttribute(s[i].attrs, Version) then Err(NullValue) else Ok(s)
  }

  /**
   * Visits the leaf package references in document order; the first whose first `Include`
   * matches has all its `Version` attributes overwritten, and the walk stops there.
   */
  method UpdatePackageVersion(doc: array<Node>, opts: Options) returns (outcome: Outcome)
    modifies doc
    ensures PackageUpdate(old(doc[..]), opts) == if outcome == Done then Ok(doc[..]) else Err(outcome.fault)
    ensures outcome != Done ==> doc[..] == old(doc[..])
  {
    ghost var s := doc[..];
    outcome := Done;
    var i := 0;
    while i < doc.Length
      invariant 0 <= i <= doc.Length
      invariant doc[..] == s
      invariant forall j :: 0 <= j < i ==> !IsTarget(s, j, opts.tag)
    {
      var leaf := i + 1 == doc.Length || doc[i + 1].depth <= doc[i].depth;
      assert leaf == IsLeaf(s, i);
      if doc[i].name == PackageReference && leaf {
        var found := FirstMatches(doc[i].attrs, Include, opts.tag);
        if found {
          assert IsTarget(s, i, opts.tag);
          FirstTargetIsLeast(s, opts.tag, i);
          var attrs;
          attrs, outcome := AssignAll(doc[i].attrs, Version, opts.value);
          if outcome == Done {
            doc[i] := doc[i].(attrs := attrs);
            assert doc[..] == s[i := s[i].(attrs := attrs)];
            assert opts.value.None? ==> doc[..] == s;
          }
          break;
        }
      }
      i := i + 1;
    }
  }

  /**
   * Only the first target in document order changes: all of its `Version` attributes get the
   * value, and every other node, including any later target, is left exactly as it was.
   */
  lemma PackageSetsFirstTargetOnly(s: seq<Node>, opts: Options, i: nat)
    requires opts.value.Some?
    requires i < |s| && IsTarget(s, i, opts.tag)
    requires forall j :: 0 <= j < i ==> !IsTarget(s, j, opts.tag)
    ensures PackageUpdate(s, opts).Ok?
    ensures var r := PackageUpdate(s, opts).value;
      |r| == |s| &&
      r[i].depth == s[i].depth && r[i].name == s[i].name && r[i].value == s[i].value &&
      SameNames(s[i].attrs, r[i].attrs) &&
      (forall k :: 0 <= k < |r[i].attrs| ==>
         r[i].attrs[k].value == if s[i].attrs[k].name == Version then opts.value.value else s[i].attrs[k].value) &&
      (forall j :: 0 <= j < |s| && j != i ==> r[j] == s[j])
  {
  }

  /** When no leaf package reference matches, package mode leaves the document as it was. */
  lemma PackageWithoutTargetKeepsDocument(s: seq<Node>, opts: Options)
    requires forall i :: 0 <= i < |s| ==> !IsTarget(s, i, opts.tag)
    ensures PackageUpdate(s, opts) == Ok(s)
  {
  }

  /**
   * Only the first `Include` attribute is consulted: when its value differs from the package
   * name the element is no target, whatever later `Include` attributes say.
   */
  lemma OnlyFirstIncludeCounts(s: seq<Node>, tag: Option<string>, i: nat, k: nat)
    requires i < |s| && FirstNamed(s[i].attrs, Include, k)
    ensures IsTarget(s, i, tag) <==>
      s[i].name == PackageReference && IsLeaf(s, i) && tag == Some(s[i].attrs[k].value)
  {
  }

  /** Package mode changes only attribute values, never the shape of the document. */
  lemma PackageKeepsShape(s: seq<Node>, opts: Options)
    requires PackageUpdate(s, opts).Ok?
    ensures SameShape(s, PackageUpdate(s, opts).value)
  {
  }

  /** Documents of the same shape whose `Include` attributes agree have the same targets. */
  lemma SameTargets(s: seq<Node>, t: seq<Node>, tag: Option<string>)
    requires SameShape(s, t)
    requires forall i :: 0 <= i < |s| ==> FirstValue(t[i].attrs, Include) == FirstValue(s[i].attrs, Include)
    ensures forall from: nat :: from <= |s| ==> FirstTarget(t, tag, from) == FirstTarget(s, tag, from)
  {
    forall i | 0 <= i < |s|
      ensures IsTarget(t, i, tag) == IsTarget(s, i, tag)
    {
      assert IsLeaf(t, i) == IsLeaf(s, i);
    }
  }

  /**
   * Running package mode a second time with the same options changes nothing more: the same
   * element is still the first target, and its `Version` attributes already hold the value.
   */
  lemma PackageIdempotent(s: seq<Node>, opts: Options)
    requires PackageUpdate(s, opts).Ok?
    ensures PackageUpdate(PackageUpdate(s, opts).value, opts) == PackageUpdate(s, opts)
  {
    var r := PackageUpdate(s, opts).value;
    match FirstTarget(s, opts.tag, 0)
    case None =>
    case Some(i) =>
      forall j | 0 <= j < |s|
        ensures FirstValue(r[j].attrs, Include) == FirstValue(s[j].attrs, Include)
      {
        if j == i && opts.value.Some? {
          AssignedKeepsFirstValue(s[i].attrs, Version, opts.value.value, Include);
        }
      }
      SameTargets(s, r, opts.tag);
      if opts.value.Some? {
        AssignedIdempotent(s[i].attrs, Version, opts.value.value);
        assert r[i := r[i].(attrs := Assigned(r[i].attrs, Version, opts.value.value))] == r;
      }
  }

  /**
   * On a document loaded from a tree, the targets are exactly the descendants without child
   * elements named `PackageReference` whose first `Include` attribute holds the package name.
   */
  lemma TargetInTree(root: Element, tag: Option<string>, i: nat)
    requires i < |Descendants(root)|
    ensures |Flatten(root, 0)| == |Descendants(root)|
    ensures var e := Descendants(root)[i];
      IsTarget(Flatten(root, 0), i, tag) <==>
      e.children == [] && e.name == PackageReference && tag.Some? && FirstValue(e.attrs, Include) == tag
  {
    FlattenMirrorsDescendants(root, 0);
  }
}
