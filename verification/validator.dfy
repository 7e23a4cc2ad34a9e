/** The per-file part of the XML tag-status validator: the upload filter
    (`allowed_file`), the intake check of the upload route, and the
    classification of one parsed file (`process_xml_file`). */
module Validator {
  import opened Wrappers
  import opened Text
  import opened Xml

  /** `TAGS_TO_CHECK`, in declaration order. */
  const TagsToCheck: seq<string> :=
    ["D1", "D2", "D3", "D4", "D5", "D6", "D7", "D8", "D9", "D10", "D11", "D1251", "D1300"]

  /** The element that carries the meter number. */
  const MeterTag: string := "G1"

  /** The placeholder the records and exports use for a missing value. */
  const NotAvailable: string := "N/A"

  /** A `tag_status` value: `'yes'` or `'no'`. */
  datatype Presence = Yes | No

  /** One `tag: status` item of the `tag_status` dictionary. */
  datatype TagEntry = TagEntry(tag: string, status: Presence)

  /** The result dictionary of `process_xml_file`. `tagStatus` keeps the
      dictionary's insertion order. */
  datatype FileRecord = FileRecord(
    file: string,
    meter: string,
    tagStatus: seq<TagEntry>,
    missingTags: seq<string>,
    isFaulty: bool)

  // ---------------------------------------------------------------------
  // allowed_file

  /** `'.' in name and name.rsplit('.', 1)[1].lower() in {'xml'}`. */
  function AllowedFile(name: string): bool {
    match LastIndexOf(name, '.')
    case None => false
    case Some(i) => Lower(name[i + 1..]) == "xml"
  }

  /** An upload is accepted exactly when its name ends in `.xml`, in any mix
      of upper and lower case. */
  lemma AllowedFileSpec(name: string)
    ensures AllowedFile(name) <==>
      |name| >= 4 && name[|name| - 4] == '.' && Lower(name[|name| - 3..]) == "xml"
  {
    var n := |name|;
    if n >= 4 && name[n - 4] == '.' && Lower(name[n - 3..]) == "xml" {
      forall k | n - 4 < k < n ensures name[k] != '.' {
        assert LowerChar(name[k]) == Lower(name[n - 3..])[k - (n - 3)];
      }
      var r := LastIndexOf(name, '.');
      assert r == Some(n - 4);
    }
    if AllowedFile(name) {
      var i := LastIndexOf(name, '.').value;
      assert |name[i + 1..]| == 3;
    }
  }

  /** The same test spelled out letter by letter: the name ends in a dot
      followed by `x` or `X`, `m` or `M`, and `l` or `L`. */
  lemma AllowedFileLetters(name: string)
    ensures AllowedFile(name) <==>
      && |name| >= 4
      && name[|name| - 4] == '.'
      && name[|name| - 3] in "xX"
      && name[|name| - 2] in "mM"
      && name[|name| - 1] in "lL"
  {
    AllowedFileSpec(name);
    var n := |name|;
    if n >= 4 {
      var low := Lower(name[n - 3..]);
      assert low == [LowerChar(name[n - 3]), LowerChar(name[n - 2]), LowerChar(name[n - 1])];
    }
  }

  /** The intake loop of the upload route: no file, or a first file without
      a name, is refused as a whole; otherwise the first name that fails the
      filter is reported and nothing is processed. */
  method CheckUploads(names: seq<string>) returns (err: Option<string>)
    ensures (names == [] || names[0] == []) ==> err == Some("No selected files.")
    ensures names != [] && names[0] != [] ==>
      (err.None? <==> forall i | 0 <= i < |names| :: AllowedFile(names[i]))
    ensures names != [] && names[0] != [] && err.Some? ==>
      exists i | 0 <= i < |names| ::
        && err == Some("Invalid file type: " + names[i])
        && !AllowedFile(names[i])
        && forall j | 0 <= j < i :: AllowedFile(names[j])
  {
    if names == [] || names[0] == [] {
      return Some("No selected files.");
    }
    var i := 0;
    while i < |names|
      invariant 0 <= i <= |names|
      invariant forall j | 0 <= j < i :: AllowedFile(names[j])
    {
      if !AllowedFile(names[i]) {
        return Some("Invalid file type: " + names[i]);
      }
      i := i + 1;
    }
    err := None;
  }

  // ---------------------------------------------------------------------
  // process_xml_file

  /** The meter number a `G1` element offers: its stripped text, when it has
      text and that text is not blank (`G1.text and G1.text.strip()`). */
  function MeterOf(e: Element): Option<string> {
    match e.text
    case Some(s) => if s != [] && Strip(s) != [] then Some(Strip(s)) else None
    case None => None
  }

  /** The meter number of the first element of `g1s` that offers one. */
  function FirstMeter(g1s: seq<Element>): Option<string> {
    if g1s == [] then None
    else if MeterOf(g1s[0]).Some? then MeterOf(g1s[0])
    else FirstMeter(g1s[1..])
  }

  /** There is no meter number exactly when no element offers one. */
  lemma {:induction false} FirstMeterSpec(g1s: seq<Element>)
    ensures FirstMeter(g1s).None? <==> forall i | 0 <= i < |g1s| :: MeterOf(g1s[i]).None?
    decreases |g1s|
  {
    if g1s != [] && MeterOf(g1s[0]).None? {
      FirstMeterSpec(g1s[1..]);
      assert forall i | 1 <= i < |g1s| :: g1s[i] == g1s[1..][i - 1];
    }
  }

  /** The meter number found is offered by the element at `i`, and no
      element before it offers one. */
  lemma {:induction false} FirstMeterAt(g1s: seq<Element>) returns (i: nat)
    requires FirstMeter(g1s).Some?
    ensures i < |g1s| && MeterOf(g1s[i]) == FirstMeter(g1s)
    ensures forall j | 0 <= j < i :: MeterOf(g1s[j]).None?
    decreases |g1s|
  {
    if MeterOf(g1s[0]).Some? {
      i := 0;
    } else {
      var rest := g1s[1..];
      assert g1s == [g1s[0]] + rest;
      var k := FirstMeterAt(rest);
      i := k + 1;
    }
  }

  /** `'yes'` when `root.find('.//' + tag)` finds something, else `'no'`. */
  function PresenceOf(root: Element, tag: string): Presence {
    if FindBelow(root, tag).Some? then Yes else No
  }

  /** The `tag_status` items the tag loop records for `tags`, in order. */
  function StatusEntries(root: Element, tags: seq<string>): seq<TagEntry> {
    seq(|tags|, i requires 0 <= i < |tags| => TagEntry(tags[i], PresenceOf(root, tags[i])))
  }

  /** The `missing_tags` list the tag loop builds for `tags`. */
  function MissingTags(root: Element, tags: seq<string>): (m: seq<string>)
    ensures forall t :: t in m <==> t in tags && PresenceOf(root, t) == No
  {
    if tags == [] then []
    else
      var last := tags[|tags| - 1];
      assert tags == tags[..|tags| - 1] + [last];
      MissingTags(root, tags[..|tags| - 1]) + (if PresenceOf(root, last) == No then [last] else [])
  }

  /** The tags of the entries with status `p`, in entry order. */
  function TagsWithStatus(entries: seq<TagEntry>, p: Presence): seq<string> {
    if entries == [] then []
    else
      var last := entries[|entries| - 1];
      TagsWithStatus(entries[..|entries| - 1], p) + (if last.status == p then [last.tag] else [])
  }

  /** The record of a file that could not be parsed or has no meter number. */
  function FaultyRecord(path: string): FileRecord {
    FileRecord(Basename(path), NotAvailable, [], [], true)
  }

  /** What `process_xml_file` returns for the file at `path` whose contents
      parse to `doc`. */
  function Classify(path: string, doc: Document): FileRecord {
    match doc
    case Unparsable => FaultyRecord(path)
    case Parsed(root) =>
      match FirstMeter(IterTag(root, MeterTag))
      case None => FaultyRecord(path)
      case Some(m) =>
        FileRecord(Basename(path), m, StatusEntries(root, TagsToCheck),
                   MissingTags(root, TagsToCheck), false)
  }

  /** The meter loop of `process_xml_file`: walk `root.iter('G1')` and stop
      at the first element whose text is not blank. `meter` keeps `'N/A'`
      when there is none. */
  method FindMeter(root: Element) returns (hasMeter: bool, meter: string)
    ensures hasMeter == FirstMeter(IterTag(root, MeterTag)).Some?
    ensures meter == if hasMeter then FirstMeter(IterTag(root, MeterTag)).value else NotAvailable
  {
    meter := NotAvailable;
    hasMeter := false;
    var g1s := IterTag(root, MeterTag);
    var i := 0;
    while i < |g1s|
      invariant 0 <= i <= |g1s|
      invariant !hasMeter && meter == NotAvailable
      invariant FirstMeter(g1s[i..]) == FirstMeter(g1s)
    {
      var text := g1s[i].text;
      if text.Some? && text.value != [] && Strip(text.value) != [] {
        meter := Strip(text.value);
        hasMeter := true;
        break;
      }
      assert g1s[i..][1..] == g1s[i + 1..];
      i := i + 1;
    }
  }

  /** Checking one more tag appends its status, and appends the tag to the
      missing list when its status is `'no'`. */
  lemma TagLoopStep(root: Element, tags: seq<string>, tag: string)
    ensures StatusEntries(root, tags + [tag]) == StatusEntries(root, tags) + [TagEntry(tag, PresenceOf(root, tag))]
    ensures MissingTags(root, tags + [tag]) ==
      MissingTags(root, tags) + (if PresenceOf(root, tag) == No then [tag] else [])
  {
    assert (tags + [tag])[..|tags|] == tags;
  }

  /** The tag loop of `process_xml_file`: for each tag of `TAGS_TO_CHECK`,
      record `'yes'` or `'no'` and collect the missing ones. */
  method CheckTags(root: Element) returns (tagStatus: seq<TagEntry>, missingTags: seq<string>)
    ensures tagStatus == StatusEntries(root, TagsToCheck)
    ensures missingTags == MissingTags(root, TagsToCheck)
  {
    tagStatus, missingTags := [], [];
    var k := 0;
    while k < |TagsToCheck|
      invariant 0 <= k <= |TagsToCheck|
      invariant tagStatus == StatusEntries(root, TagsToCheck[..k])
      invariant missingTags == MissingTags(root, TagsToCheck[..k])
    {
      var tag := TagsToCheck[k];
      assert TagsToCheck[..k + 1] == TagsToCheck[..k] + [tag];
      TagLoopStep(root, TagsToCheck[..k], tag);
      if FindBelow(root, tag).Some? {
        tagStatus := tagStatus + [TagEntry(tag, Yes)];
      } else {
        tagStatus := tagStatus + [TagEntry(tag, No)];
        missingTags := missingTags + [tag];
      }
      k := k + 1;
    }
    assert TagsToCheck[..k] == TagsToCheck;
  }

  /** `process_xml_file`: without a meter number the file is faulty and its
      tags are not checked; with one, every tag is looked up below the root
      and the file is normal. A parse failure yields the faulty record. */
  method ProcessXmlFile(path: string, doc: Document) returns (result: FileRecord)
    ensures result == Classify(path, doc)
  {
    if doc.Unparsable? {
      return FaultyRecord(path);
    }
    var root := doc.root;
    var file := Basename(path);
    var hasMeter, meter := FindMeter(root);
    if !hasMeter {
      return FileRecord(file, meter, [], [], true);
    }
    var tagStatus, missingTags := CheckTags(root);
    result := FileRecord(file, meter, tagStatus, missingTags, false);
  }

  // ---------------------------------------------------------------------
  // What a record promises

  /** The record invariant: a faulty record carries no meter and no tag
      data; a normal record has one status per tag of `TAGS_TO_CHECK`, in
      that order, and lists as missing exactly the tags whose status is
      `'no'`, in the same order. */
  predicate Conforms(r: FileRecord) {
    if r.isFaulty then
      r.meter == NotAvailable && r.tagStatus == [] && r.missingTags == []
    else
      && |r.tagStatus| == |TagsToCheck|
      && (forall i | 0 <= i < |TagsToCheck| :: r.tagStatus[i].tag == TagsToCheck[i])
      && r.missingTags == TagsWithStatus(r.tagStatus, No)
  }

  /** The missing list the tag loop builds is the list of tags whose status
      it recorded as `'no'`. */
  lemma {:induction false} MissingTagsAreNoTags(root: Element, tags: seq<string>)
    ensures MissingTags(root, tags) == TagsWithStatus(StatusEntries(root, tags), No)
    decreases |tags|
  {
    if tags != [] {
      var n := |tags| - 1;
      MissingTagsAreNoTags(root, tags[..n]);
      var es := StatusEntries(root, tags);
      assert es[..n] == StatusEntries(root, tags[..n]);
    }
  }

  /** A file is faulty exactly when it cannot be parsed or no `G1` element
      (the root included) has a non-blank text; a faulty file has meter
      `'N/A'` and empty tag data. The file name is the path's basename. */
  lemma ClassifyFaulty(path: string, doc: Document)
    ensures Classify(path, doc).file == Basename(path)
    ensures Classify(path, doc).isFaulty <==>
      || doc.Unparsable?
      || forall i | 0 <= i < |IterTag(doc.root, MeterTag)| :: MeterOf(IterTag(doc.root, MeterTag)[i]).None?
    ensures Classify(path, doc).isFaulty ==>
      Classify(path, doc) == FileRecord(Basename(path), NotAvailable, [], [], true)
  {
    match doc
    case Unparsable =>
    case Parsed(root) =>
      var g1s := IterTag(root, MeterTag);
      assert IterTag(doc.root, MeterTag) == g1s;
      FirstMeterSpec(g1s);
      if FirstMeter(g1s).Some? {
        assert Classify(path, doc).isFaulty == false;
      } else {
        assert Classify(path, doc) == FaultyRecord(path);
      }
  }

  /** A normal file's meter is what `FirstMeter` finds among the `G1`
      elements of `root.iter('G1')`. */
  lemma ClassifyNormal(path: string, root: Element)
    requires !Classify(path, Parsed(root)).isFaulty
    ensures FirstMeter(IterTag(root, MeterTag)).Some?
    ensures Classify(path, Parsed(root)).meter == FirstMeter(IterTag(root, MeterTag)).value
  {
  }

  /** The meter of a normal file is the stripped text of the first `G1`
      element in document order (the root included) whose text is not
      blank. */
  lemma ClassifyMeter(path: string, root: Element)
    requires !Classify(path, Parsed(root)).isFaulty
    ensures exists i | 0 <= i < |IterTag(root, MeterTag)| ::
      var g := IterTag(root, MeterTag)[i];
      && g.tag == MeterTag
      && g.text.Some? && Classify(path, Parsed(root)).meter == Strip(g.text.value)
      && forall j | 0 <= j < i :: MeterOf(IterTag(root, MeterTag)[j]).None?
  {
    ClassifyNormal(path, root);
    var g1s := IterTag(root, MeterTag);
    var i := FirstMeterAt(g1s);
    IterTagSpec(root, MeterTag);
    assert g1s[i] in g1s;
  }

  /** The meter number found is never blank and has no surrounding white
      space. */
  lemma MeterIsTrimmed(g1s: seq<Element>)
    requires FirstMeter(g1s).Some?
    ensures var m := FirstMeter(g1s).value;
      m != [] && !IsSpace(m[0]) && !IsSpace(m[|m| - 1])
  {
    var i := FirstMeterAt(g1s);
    StripSpec(g1s[i].text.value);
  }

  /** A normal file has one status per tag of `TAGS_TO_CHECK`, in that order:
      `'yes'` exactly when an element with that tag lies strictly below the
      root (the root's own tag does not count). */
  lemma ClassifyTagStatus(path: string, root: Element)
    requires !Classify(path, Parsed(root)).isFaulty
    ensures var ts := Classify(path, Parsed(root)).tagStatus;
      && |ts| == |TagsToCheck|
      && forall i | 0 <= i < |TagsToCheck| ::
        && ts[i].tag == TagsToCheck[i]
        && (ts[i].status == Yes <==> ContainsAny(root.children, TagsToCheck[i]))
  {
    forall i | 0 <= i < |TagsToCheck| {
      FindBelowSpec(root, TagsToCheck[i]);
    }
  }

  /** The missing tags of a normal file are exactly the tags with status
      `'no'`, in `TAGS_TO_CHECK` order: the tags no element below the root
      carries. The file is normal however many of them there are. */
  lemma ClassifyMissingTags(path: string, root: Element)
    requires !Classify(path, Parsed(root)).isFaulty
    ensures var r := Classify(path, Parsed(root));
      && r.missingTags == TagsWithStatus(r.tagStatus, No)
      && forall t :: t in r.missingTags <==> t in TagsToCheck && !ContainsAny(root.children, t)
  {
    MissingTagsAreNoTags(root, TagsToCheck);
    forall t {
      FindBelowSpec(root, t);
    }
  }

  /** Every record `process_xml_file` returns keeps the record invariant. */
  lemma ClassifyConforms(path: string, doc: Document)
    ensures Conforms(Classify(path, doc))
  {
    if doc.Parsed? && !Classify(path, doc).isFaulty {
      MissingTagsAreNoTags(doc.root, TagsToCheck);
    }
  }

  /** The root element is itself a candidate for the meter number: a `G1`
      root with non-blank text gives the meter, whatever lies below it. */
  lemma RootMeterCounts(path: string, root: Element)
    requires root.tag == MeterTag && MeterOf(root).Some?
    ensures Classify(path, Parsed(root)).meter == MeterOf(root).value
    ensures !Classify(path, Parsed(root)).isFaulty
  {
    assert IterTag(root, MeterTag)[0] == root;
  }

  /** The root element is not a candidate for a checked tag: a document
      whose root is named `D1` and holds the meter in a `G1` child reports
      `D1` as missing. */
  lemma RootTagNotSearched(path: string, meter: string)
    requires Strip(meter) != []
    ensures var root := Element("D1", None, [Element(MeterTag, Some(meter), [])]);
      "D1" in Classify(path, Parsed(root)).missingTags
  {
    var g := Element(MeterTag, Some(meter), []);
    var root := Element("D1", None, [g]);
    assert IterTag(root, MeterTag) == [g] by {
      assert IterTag(g, MeterTag) == [g];
      assert root.children[1..] == [];
    }
    assert !Classify(path, Parsed(root)).isFaulty by {
      assert meter != [];
      assert FirstMeter([g]).Some?;
    }
    assert !ContainsAny(root.children, "D1") by {
      assert !Contains(g, "D1");
      assert root.children[1..] == [];
    }
    assert TagsToCheck[0] == "D1";
    ClassifyMissingTags(path, root);
  }
}
