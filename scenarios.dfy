/** Worked examples of the documented behaviour, on small concrete documents. */
module Scenarios {
  import opened Wrappers
  import opened Config
  import opened XmlTree
  import opened Attributes
  import TagMode
  import PackageMode
  import Update

  /** <Project><PropertyGroup><Version>1.0.0</Version></PropertyGroup></Project> */
  function VersionProject(): Element
  {
    Element("Project", [], "", [Element("PropertyGroup", [], "", [Element("Version", [], "1.0.0", [])])])
  }

  /** Tag mode with tag `Version` and value `2.0.0` turns the version text into 2.0.0. */
  lemma VersionTagScenario()
    ensures TagMode.TagUpdate(Flatten(VersionProject(), 0), Options(Tag, Some("Version"), None, Some("2.0.0")))
      == Ok([Node(0, "Project", [], ""), Node(1, "PropertyGroup", [], ""), Node(2, "Version", [], "2.0.0")])
  {
    var s := Flatten(VersionProject(), 0);
    assert s == [Node(0, "Project", [], ""), Node(1, "PropertyGroup", [], ""), Node(2, "Version", [], "1.0.0")];
    assert !TagMode.Selected(s, 0, Some("Version")) && !TagMode.Selected(s, 1, Some("Version"));
    assert TagMode.Selected(s, 2, Some("Version"));
    var r := TagMode.TagUpdated(s, Options(Tag, Some("Version"), None, Some("2.0.0")), "2.0.0");
    assert r[0] == s[0] && r[1] == s[1] && r[2] == Node(2, "Version", [], "2.0.0");
    assert r == [Node(0, "Project", [], ""), Node(1, "PropertyGroup", [], ""), Node(2, "Version", [], "2.0.0")];
  }

  /** Without a value, the same run faults on the first write and changes nothing. */
  lemma UnsetValueScenario()
    ensures TagMode.TagUpdate(Flatten(VersionProject(), 0), Options(Tag, Some("Version"), None, None)) == Err(NullValue)
  {
    var s := Flatten(VersionProject(), 0);
    assert s == [Node(0, "Project", [], ""), Node(1, "PropertyGroup", [], ""), Node(2, "Version", [], "1.0.0")];
    assert TagMode.Writes(s, 2, Options(Tag, Some("Version"), None, None));
  }

  function Reference(package: string, version: string): Element
  {
    Element("PackageReference", [Attribute("Include", package), Attribute("Version", version)], "", [])
  }

  /** Two references to package Foo, versions 1.0.0 and 1.0.1. */
  function DuplicateReferences(): Element
  {
    Element("Project", [], "", [Element("ItemGroup", [], "", [Reference("Foo", "1.0.0"), Reference("Foo", "1.0.1")])])
  }

  /** Package mode for Foo with version 9.9.9 changes only the first of the two references. */
  lemma DuplicatePackageScenario()
    ensures PackageMode.PackageUpdate(Flatten(DuplicateReferences(), 0), Options(Package, Some("Foo"), None, Some("9.9.9")))
      == Ok([Node(0, "Project", [], ""), Node(1, "ItemGroup", [], ""),
             Node(2, "PackageReference", [Attribute("Include", "Foo"), Attribute("Version", "9.9.9")], ""),
             Node(2, "PackageReference", [Attribute("Include", "Foo"), Attribute("Version", "1.0.1")], "")])
  {
    var s := Flatten(DuplicateReferences(), 0);
    var first := [Attribute("Include", "Foo"), Attribute("Version", "1.0.0")];
    assert s == [Node(0, "Project", [], ""), Node(1, "ItemGroup", [], ""),
                 Node(2, "PackageReference", first, ""),
                 Node(2, "PackageReference", [Attribute("Include", "Foo"), Attribute("Version", "1.0.1")], "")];
    assert FirstValue(first, "Include") == Some("Foo");
    PackageMode.FirstTargetIsLeast(s, Some("Foo"), 2);
    var updated := Assigned(first, "Version", "9.9.9");
    assert updated[0] == Attribute("Include", "Foo") && updated[1] == Attribute("Version", "9.9.9");
    assert updated == [Attribute("Include", "Foo"), Attribute("Version", "9.9.9")];
    assert s[2 := s[2].(attrs := updated)] ==
      [Node(0, "Project", [], ""), Node(1, "ItemGroup", [], ""),
       Node(2, "PackageReference", [Attribute("Include", "Foo"), Attribute("Version", "9.9.9")], ""),
       Node(2, "PackageReference", [Attribute("Include", "Foo"), Attribute("Version", "1.0.1")], "")];
  }

  /**
   * A `.csproj` file whose saved text starts with the XML declaration line loses that line:
   * updating the version project and saving it leaves only the lines after the declaration.
   */
  method SavedDeclarationIsStripped() returns (written: seq<string>)
    ensures written == ["<Project>", "  <PropertyGroup>", "    <Version>2.0.0</Version>", "  </PropertyGroup>", "</Project>"]
  {
    var doc := new Node[3](i => Flatten(VersionProject(), 0)[if 0 <= i < 3 then i else 0]);
    var declaration := "<?xml version=\"1.0\" encoding=\"utf-8\"?>";
    var body := ["<Project>", "  <PropertyGroup>", "    <Version>2.0.0</Version>", "  </PropertyGroup>", "</Project>"];
    var save := (s: seq<Node>) => [declaration] + body;
    var file := new Update.ProjectFile([]);
    VersionTagScenario();
    assert doc[..] == Flatten(VersionProject(), 0);
    assert declaration[2] == 'x' && declaration[3] == 'm' && declaration[4] == 'l';
    assert declaration[2..5] == "xml";
    assert Update.OccursAt(declaration, "xml", 2);
    var outcome := Update.Update(doc, Options(Tag, Some("Version"), None, Some("2.0.0")), file, true, save);
    written := file.lines;
  }
}
