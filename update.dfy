/**
 * Processing one loaded project file: apply the selected update to the document, save it,
 * and for a `.csproj` file drop a leading line that mentions "xml".
 */
module Update {
  import opened Wrappers
  import opened Config
  import opened XmlTree
  import TagMode
  import PackageMode

  /** `sub` occurs in `s` starting at position i. */
  predicate OccursAt(s: string, sub: string, i: nat)
  {
    i + |sub| <= |s| && s[i..i + |sub|] == sub
  }

  /** Ordinal substring search. */
  function Contains(s: string, sub: string): (r: bool)
    ensures r <==> exists i: nat :: OccursAt(s, sub, i)
    decreases |s|
  {
    if |s| < |sub| then false
    else if s[..|sub|] == sub then assert OccursAt(s, sub, 0); true
    else
      var r := Contains(s[1..], sub);
      assert forall i: nat :: OccursAt(s[1..], sub, i) <==> OccursAt(s, sub, i + 1) by {
        forall i: nat ensures OccursAt(s[1..], sub, i) <==> OccursAt(s, sub, i + 1) {
          if i + 1 + |sub| <= |s| {
            assert s[1..][i..i + |sub|] == s[i + 1..i + 1 + |sub|];
          }
        }
      }
      assert forall i: nat :: OccursAt(s, sub, i) ==> i == 0 || OccursAt(s[1..], sub, i - 1);
      r
  }

  /**
   * The list of lines read back from a saved `.csproj` file, with its first line removed
   * when that line contains "xml". Looking at the first line of an empty list faults.
   */
  method StripDeclaration(lines: seq<string>) returns (result: Result<seq<string>>)
    ensures result == Err(NoFirstLine) || result.Ok?
    ensures result.Ok? <==> lines != []
    ensures result.Ok? ==> |result.value| <= |lines| && result.value == lines[|lines| - |result.value|..]
    ensures result.Ok? ==> |result.value| == if Contains(lines[0], "xml") then |lines| - 1 else |lines|
  {
    if |lines| == 0 {
      return Err(NoFirstLine);
    }
    var list := lines;
    if Contains(list[0], "xml") {
      list := list[1..];
    }
    return Ok(list);
  }

  /** The contents of a file on disk, as its list of lines. */
  class ProjectFile {
    var lines: seq<string>

    constructor (lines: seq<string>)
      ensures this.lines == lines
    {
      this.lines := lines;
    }
  }

  /** The document as the selected mode leaves it: tag mode for `Tag`, package mode otherwise. */
  function Mutated(s: seq<Node>, opts: Options): Result<seq<Node>>
  {
    if opts.mode == Tag then TagMode.TagUpdate(s, opts) else PackageMode.PackageUpdate(s, opts)
  }

  /**
   * Updates the loaded document `doc` according to the mode, saves it to `file` through
   * the serializer `save`, and, for a `.csproj` file, strips a first line mentioning "xml".
   * A fault during the update leaves the file as it was; a fault while stripping leaves the
   * saved document in the file.
   */
  method Update(doc: array<Node>, opts: Options, file: ProjectFile, isCsproj: bool, save: seq<Node> -> seq<string>)
    returns (outcome: Outcome)
    modifies doc, file
    ensures Mutated(old(doc[..]), opts).Err? ==>
      outcome == Failed(Mutated(old(doc[..]), opts).fault) && doc[..] == old(doc[..]) && file.lines == old(file.lines)
    ensures Mutated(old(doc[..]), opts).Ok? ==> doc[..] == Mutated(old(doc[..]), opts).value
    ensures Mutated(old(doc[..]), opts).Ok? && !isCsproj ==> outcome == Done && file.lines == save(doc[..])
    ensures Mutated(old(doc[..]), opts).Ok? && isCsproj ==>
      var saved := save(doc[..]);
      if saved == [] then outcome == Failed(NoFirstLine) && file.lines == saved
      else outcome == Done && file.lines == if Contains(saved[0], "xml") then saved[1..] else saved
  {
    if opts.mode == Tag {
      outcome := TagMode.UpdateTag(doc, opts);
    } else {
      outcome := PackageMode.UpdatePackageVersion(doc, opts);
    }
    if outcome != Done {
      return;
    }
    file.lines := save(doc[..]);
    if isCsproj {
      var saved := file.lines;
      var stripped := StripDeclaration(saved);
      match stripped
      case Ok(lines) =>
        assert !Contains(saved[0], "xml") ==> lines == saved[0..];
        file.lines := lines;
      case Err(fault) =>
        outcome := Failed(fault);
    }
  }

  /**
   * A tag left unset (null) equals no element name and no `Include` value, so in either mode
   * the document comes out unchanged, whatever the value.
   */
  lemma UnsetTagChangesNothing(s: seq<Node>, opts: Options)
    requires opts.tag == None
    ensures Mutated(s, opts) == Ok(s)
  {
    if opts.mode == Tag && opts.value.Some? {
      assert TagMode.TagUpdated(s, opts, opts.value.value) == s;
    }
  }
}
