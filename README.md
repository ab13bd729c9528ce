# CSProjectChange: a verified model of the document mutator

CSProjectChange is a small command-line tool that edits `.csproj` project files. In **tag
mode** it finds every leaf element (an element without child elements) whose name is the
given tag and overwrites its text or, when a sub-tag is given, every attribute of that name.
In **package mode** it finds the first leaf `PackageReference` whose first `Include`
attribute names the given package and overwrites its `Version` attributes, and only that
one. After saving, a `.csproj` file loses its first line when that line contains `xml`.

This project models that logic in Dafny and proves what it does.

- `Config` holds the two modes, the options (passed explicitly instead of through a static
  field; an unset string option is `None`), and the uncaught faults: a value setter handed a
  null value, and a file with no first line.
- `XmlTree` holds the data. `Element` is the tree: a name, attributes in declaration order,
  a text value, and child elements. `Node` is an element as the updates visit it, in document
  order, with its depth. A document is an `array<Node>`, which is the pre-order list that
  `Descendants()` yields. "Has no child elements" is "the next node is not deeper".
  `FlattenMirrorsDescendants` proves that this form mirrors the tree.
- `Attributes` holds the two walks over an attribute list: overwrite every attribute with
  a given name, and compare the first attribute with a given name against a value.
- `TagMode` and `PackageMode` each hold the in-place method, the function that specifies
  it on `seq<Node>`, and the lemmas about that function. For tag mode there is also the same
  update stated on the tree, with a proof that the array walk computes it.
- `Update` holds the mode dispatch, the declaration-line stripping, and a model of the saved
  file's line list.
- `Scenarios` checks the documented examples on concrete documents.

Package mode reads only the first `Include` attribute of each leaf `PackageReference` and
stops there, whether or not it matches (see `PackageMode.OnlyFirstIncludeCounts`). An unset
`--value` makes the first text or attribute write throw (the `NullValue` fault). An unset
`--tag` matches nothing.

## Model

| member | source | states |
|---|---|---|
| `XmlTree.FlattenMirrorsDescendants` | Program.cs:103-104 | the document-order node list of a tree has the labels of its pre-order descendants (root first), and a node counts as a leaf exactly when its element has no child elements |
| `Attributes.Assigned` | Program.cs:161-170 | overwriting the attributes called `name` keeps every attribute name and its order, gives exactly those attributes the value, and leaves the other values unchanged |
| `Attributes.FirstValue` | Program.cs:107-123 | the result is absent exactly when no attribute has the name; otherwise it is the value of the first attribute with that name |
| `Attributes.AssignAll` | Program.cs:161-170 | the attribute walk overwrites every attribute called `name` (all of them, not only the first); with an unset value it faults exactly when such an attribute exists, and changes nothing |
| `Attributes.FirstMatches` | Program.cs:107-123 | the first-`Include` scan reports a match exactly when the package name is set and equals the value of the first attribute with that name |
| `Attributes.AssignedKeepsFirstValue` | Program.cs:125-136 | overwriting `Version` attributes never changes what the first `Include` attribute says |
| `Attributes.AssignedIdempotent` | Program.cs:161-170 | overwriting the same attributes with the same value twice is the same as doing it once |
| `Config.WritesText` | Program.cs:150 | tag mode writes element text exactly when the sub-tag is null or empty; otherwise it writes attributes |
| `TagMode.Selected` | Program.cs:146-147 | a node is selected when it has no child elements and its name equals the tag; an unset tag selects nothing |
| `TagMode.TagUpdate` | Program.cs:143-173 | the effect of tag mode: with a value, every selected node rewritten (text, or every attribute named as the sub-tag); with no value, the `NullValue` fault when some selected node has something to write, else the document unchanged |
| `TagMode.UpdateTag` | Program.cs:143-173 | the in-place walk leaves the document as `TagUpdate` specifies, or faults with it and leaves the document as it was; a null or empty sub-tag selects the text branch |
| `TagMode.UpdateText` | Program.cs:150-156 | each selected leaf's text becomes the value; an unset value faults at the first selected leaf, with nothing changed |
| `TagMode.UpdateAttributes` | Program.cs:157-172 | on each selected leaf, every attribute named as the sub-tag gets the value; an unset value faults at the first such attribute, with nothing changed |
| `TagMode.TextModeSetsSelectedText` | Program.cs:146-156 | with no sub-tag, every leaf named as the tag has the value as its text and keeps its attributes; elements with children and elements with other names are unchanged |
| `TagMode.AttributeModeSetsNamedAttributes` | Program.cs:159-171 | with a sub-tag, every attribute named as the sub-tag on a selected leaf has the value; attribute names, order, count and other values, and the element's text, are unchanged; unselected nodes are unchanged |
| `TagMode.TagKeepsShape` | Program.cs:143-173 | tag mode never changes element depths, element names or attribute names |
| `TagMode.TagIdempotent` | Program.cs:143-173 | applying tag mode a second time with the same options gives the same document |
| `TagMode.FlattenTagUpdatedTree` | Program.cs:143-173 | the in-place update in document order equals updating the tree (every childless element with the tag's name rewritten), then listing it in document order |
| `TagMode.SelectedInTree` | Program.cs:146-147 | on a document from a tree, the selection is exactly the childless descendants whose name is the tag |
| `PackageMode.IsTarget` | Program.cs:103-120 | a node is a target when it is a leaf `PackageReference` and the value of its first `Include` attribute equals the set package name |
| `PackageMode.PackageUpdate` | Program.cs:100-141 | the effect of package mode: every `Version` attribute of the first target gets the value; no target leaves the document unchanged; no value faults when that target has a `Version` attribute |
| `PackageMode.FirstTarget` | Program.cs:103-139 | the result is the least position at or after `from` that holds a target, and absent only when no target lies there |
| `PackageMode.FirstTargetIsLeast` | Program.cs:105-139 | a target with no target before it is the one package mode updates |
| `PackageMode.UpdatePackageVersion` | Program.cs:100-141 | the walk stops after the first leaf `PackageReference` whose first `Include` equals the package name, and leaves the document as `PackageUpdate` specifies, or faults with it and leaves it unchanged |
| `PackageMode.PackageSetsFirstTargetOnly` | Program.cs:125-138 | every `Version` attribute of the first target gets the value, its other attributes, name and text stay, and every other node, including later matching references, is unchanged |
| `PackageMode.PackageWithoutTargetKeepsDocument` | Program.cs:126 | when no element matches, the document is unchanged |
| `PackageMode.OnlyFirstIncludeCounts` | Program.cs:112-120 | whether an element matches depends only on its first `Include` attribute; later `Include` attributes are ignored |
| `PackageMode.PackageKeepsShape` | Program.cs:100-141 | package mode never changes element depths, element names or attribute names |
| `PackageMode.SameTargets` | Program.cs:103-120 | documents of the same shape whose first `Include` values agree have the same first target from every position |
| `PackageMode.PackageIdempotent` | Program.cs:100-141 | applying package mode a second time with the same options gives the same document |
| `PackageMode.TargetInTree` | Program.cs:103-104 | on a document from a tree, the targets are exactly the childless `PackageReference` descendants whose first `Include` holds the package name |
| `Update.Contains` | Program.cs:195 | the substring test holds exactly when `sub` occurs at some position of `s` |
| `Update.StripDeclaration` | Program.cs:192-200 | an empty line list faults; otherwise the result is a suffix of the lines, one line shorter exactly when the first line contains `xml` and the same length otherwise |
| `Update.Mutated` | Program.cs:180-187 | the document after the update: tag mode for `Mode.Tag`, package mode for every other mode |
| `Update.Update` | Program.cs:175-202 | `Mode.Tag` applies exactly tag mode and every other mode exactly package mode; a fault in the update leaves document and file untouched; otherwise the file holds the saved document, with its first line stripped as above for a `.csproj` file |
| `Update.UnsetTagChangesNothing` | Program.cs:100-173 | with an unset tag, neither mode changes the document |
| `Scenarios.VersionTagScenario` | Program.cs:143-156 | `<Version>1.0.0</Version>` with tag `Version` and value `2.0.0` becomes `<Version>2.0.0</Version>` |
| `Scenarios.UnsetValueScenario` | Program.cs:154 | the same run without a value faults on the write |
| `Scenarios.DuplicatePackageScenario` | Program.cs:105-139 | with two `Foo` references, only the first gets version `9.9.9` |
| `Scenarios.SavedDeclarationIsStripped` | Program.cs:190-200 | updating a `.csproj` file whose saved text starts with the XML declaration leaves exactly the lines after the declaration in the file |

## Left out

- Argument parsing through the command-line library, its error reporting, and the static
  options and error fields. The options are a parameter of every operation instead.
- Finding the input: the file-exists and directory-exists tests and the recursive
  enumeration of `*.csproj` files. These are file-system I/O, and their order depends on the
  platform.
- XML parsing and serialisation. The loaded document is a parameter. The serializer is a
  function parameter `save`, so the exact output formatting is not modelled.
- Reading and writing the file's lines are collapsed into the `lines` field of
  `ProjectFile`. Whether the file is a `.csproj` file is a boolean parameter, so the
  extension test and its lower-casing are not modelled.
- Console output: the usage text and the per-file progress line.
- Processing several files one after another, and so the claim that their order does not
  matter, because file enumeration is outside the model. `Update.Update` covers one file.
- XML name semantics. Element and attribute names are compared as plain, case-sensitive
  strings. Namespaces are ignored. The source's conversion of a tag or sub-tag to an XML name
  throws for an empty or invalid name; the model does not fault there.
- Text content is one string per element. Comments and mixed content inside a leaf are not
  modelled. Setting a leaf's text also replaces any such content.
- Attribute names are not required to be unique on an element, although XML requires it.
  The model therefore also covers repeated names, which the source handles with the same loops.
