/**
  The cleaner for Office Open XML and OpenDocument files. Such a file is a
  zip archive of named parts; the metadata lives in the `docProps` parts and
  in revision-session (`rsid`) attributes of the body, and the manifest
  `[Content_Types].xml` lists the parts.
*/
module OfficeCleaning {
  import opened Wrappers
  import opened Strings
  import opened Enums
  import opened Files
  import opened Cleaners

  /**
    An XML element as `ElementTree` sees it: its (possibly namespaced) tag,
    its text (`""` for none), its attributes and its depth below the root.
    A part is the list of its elements in `root.iter()` order, root first.
  */
  datatype Element = Element(tag: string, text: string, attrs: map<string, string>, depth: nat)

  /** An archive: part name to part content. */
  type Parts = map<string, string>

  /**
    The zip and XML libraries: reading an archive or a part may fail
    (`None`); writing always succeeds.
  */
  datatype Codec = Codec(
    unzip: string -> Option<Parts>,
    zip: Parts -> string,
    parseXml: string -> Option<seq<Element>>,
    writeXml: seq<Element> -> string)

  const CorePart := "docProps/core.xml"
  const AppPart := "docProps/app.xml"
  const CustomPart := "docProps/custom.xml"
  const MetadataParts: seq<string> := [CorePart, AppPart, CustomPart]
  const ManifestPart := "[Content_Types].xml"
  const MetadataPartNames: seq<string> := ["/docProps/core.xml", "/docProps/app.xml", "/docProps/custom.xml"]
  const SensitiveTags: seq<string> :=
    ["creator", "lastModifiedBy", "created", "modified", "company", "manager", "lastPrinted", "revision"]
  const ErrorPrefix := "Failed to clean Office document: "

  /** `tag.split('}')[-1]`: the tag without its `{namespace}`. */
  function LocalName(tag: string): (r: string)
    ensures '}' !in r && |r| <= |tag| && r == tag[|tag| - |r|..]
  {
    tag[LastIndexOf(tag, '}') + 1..]
  }

  // ---------------------------------------------------------------------
  // extract_metadata

  /**
    The report entries of one properties part, added to `acc`: every element
    with non-blank text gives `prefix + local name`, mapped to its first 100
    characters; a later element overwrites an earlier one with the same name.
  */
  function Collect(acc: map<string, string>, prefix: string, es: seq<Element>): (r: map<string, string>)
    ensures acc.Keys <= r.Keys
    ensures forall k :: k in r && !(prefix <= k) ==> k in acc && r[k] == acc[k]
    ensures forall k :: k in r && k !in acc ==> prefix <= k && |r[k]| <= 100
    decreases |es|
  {
    if |es| == 0 then acc
    else
      var m := Collect(acc, prefix, es[..|es| - 1]);
      var e := es[|es| - 1];
      if NonBlank(e.text) then m[prefix + LocalName(e.tag) := Truncate(e.text, 100)] else m
  }

  /**
    The element that last carries a given local name with non-blank text
    decides that entry.
  */
  /** Two names under the same prefix differ when the names do. */
  lemma PrefixedDistinct(prefix: string, a: string, b: string)
    requires a != b
    ensures prefix + a != prefix + b
  {
    assert (prefix + a)[|prefix|..] == a;
    assert (prefix + b)[|prefix|..] == b;
  }

  /** A last element that is blank, or reported under another key, leaves an entry alone. */
  lemma CollectKeeps(acc: map<string, string>, prefix: string, es: seq<Element>, key: string)
    requires |es| > 0 && key in Collect(acc, prefix, es[..|es| - 1])
    requires NonBlank(es[|es| - 1].text) ==> key != prefix + LocalName(es[|es| - 1].tag)
    ensures key in Collect(acc, prefix, es)
    ensures Collect(acc, prefix, es)[key] == Collect(acc, prefix, es[..|es| - 1])[key]
  {
  }

  /** A last element with non-blank text is reported under its local name. */
  lemma CollectAdds(acc: map<string, string>, prefix: string, es: seq<Element>)
    requires |es| > 0 && NonBlank(es[|es| - 1].text)
    ensures prefix + LocalName(es[|es| - 1].tag) in Collect(acc, prefix, es)
    ensures Collect(acc, prefix, es)[prefix + LocalName(es[|es| - 1].tag)] == Truncate(es[|es| - 1].text, 100)
  {
  }

  lemma {:induction false} CollectLast(acc: map<string, string>, prefix: string, es: seq<Element>, i: nat)
    requires i < |es| && NonBlank(es[i].text)
    requires forall j :: i < j < |es| && NonBlank(es[j].text) ==> LocalName(es[j].tag) != LocalName(es[i].tag)
    ensures prefix + LocalName(es[i].tag) in Collect(acc, prefix, es)
    ensures Collect(acc, prefix, es)[prefix + LocalName(es[i].tag)] == Truncate(es[i].text, 100)
    decreases |es|
  {
    var n := |es| - 1;
    var key := prefix + LocalName(es[i].tag);
    if i < n {
      assert es[..n][i] == es[i];
      assert forall j :: i < j < n ==> es[..n][j] == es[j];
      CollectLast(acc, prefix, es[..n], i);
      var before := Collect(acc, prefix, es[..n]);
      assert key in before && before[key] == Truncate(es[i].text, 100);
      if NonBlank(es[n].text) {
        PrefixedDistinct(prefix, LocalName(es[i].tag), LocalName(es[n].tag));
      }
      CollectKeeps(acc, prefix, es, key);
    } else {
      CollectAdds(acc, prefix, es);
    }
  }

  /** A properties part parses, or is absent. */
  predicate Readable(codec: Codec, parts: Parts, name: string) {
    name !in parts || codec.parseXml(parts[name]).Some?
  }

  /**
    `extract_metadata` on the content of a file. It never fails: an
    unreadable file gives what was collected before the failure.
  */
  function MetadataOf(codec: Codec, content: Option<string>): map<string, string> {
    if content.None? || codec.unzip(content.value).None? then map[]
    else
      var parts := codec.unzip(content.value).value;
      if !Readable(codec, parts, CorePart) then map[]
      else
        var core := if CorePart in parts then Collect(map[], "Core.", codec.parseXml(parts[CorePart]).value) else map[];
        if !Readable(codec, parts, AppPart) then core
        else
          var app := if AppPart in parts then Collect(core, "App.", codec.parseXml(parts[AppPart]).value) else core;
          if CustomPart in parts then app["Custom" := "Present"] else app
  }

  /** Every entry of the report is a `Core.`/`App.` field of at most 100 characters, or `Custom`. */
  lemma MetadataShape(codec: Codec, content: Option<string>)
    ensures forall k :: k in MetadataOf(codec, content) ==>
      (k == "Custom" && MetadataOf(codec, content)[k] == "Present") ||
      (("Core." <= k || "App." <= k) && |MetadataOf(codec, content)[k]| <= 100)
  {
    if content.Some? && codec.unzip(content.value).Some? {
      var parts := codec.unzip(content.value).value;
      if Readable(codec, parts, CorePart) {
        var core := if CorePart in parts then Collect(map[], "Core.", codec.parseXml(parts[CorePart]).value) else map[];
        assert forall k :: k in core ==> "Core." <= k && |core[k]| <= 100;
        if Readable(codec, parts, AppPart) && AppPart in parts {
          var app := Collect(core, "App.", codec.parseXml(parts[AppPart]).value);
          forall k | k in app
            ensures ("Core." <= k || "App." <= k) && |app[k]| <= 100
          {
            if k in core {
              assert "Core." <= k;
              assert !("App." <= k) by {
                assert k[0] == 'C' && "App."[0] == 'A';
              }
              assert app[k] == core[k];
            }
          }
        }
      }
    }
  }

  /** `Custom` is reported exactly when the custom part exists and the parts read before it parse. */
  lemma CustomReported(codec: Codec, content: string)
    ensures "Custom" in MetadataOf(codec, Some(content)) <==>
      codec.unzip(content).Some? &&
      var parts := codec.unzip(content).value;
      Readable(codec, parts, CorePart) && Readable(codec, parts, AppPart) && CustomPart in parts
  {
    assert !("Core." <= "Custom") && !("App." <= "Custom") by {
      assert "Custom"[1] == 'u';
      assert "Custom"[0] == 'C';
    }
  }

  /** A core property with non-blank text is reported under `Core.<local name>`, truncated. */
  lemma {:induction false} CorePropertyReported(codec: Codec, content: string, parts: Parts, es: seq<Element>, i: nat)
    requires codec.unzip(content) == Some(parts) && CorePart in parts
    requires codec.parseXml(parts[CorePart]) == Some(es)
    requires i < |es| && NonBlank(es[i].text)
    requires forall j :: i < j < |es| && NonBlank(es[j].text) ==> LocalName(es[j].tag) != LocalName(es[i].tag)
    ensures var key := "Core." + LocalName(es[i].tag);
      key in MetadataOf(codec, Some(content)) && MetadataOf(codec, Some(content))[key] == Truncate(es[i].text, 100)
  {
    var key := "Core." + LocalName(es[i].tag);
    CollectLast(map[], "Core.", es, i);
    assert !("App." <= key) by {
      assert key[0] == 'C';
    }
    assert key != "Custom" by {
      assert key[1] == 'o';
    }
  }

  /** `for elem in root.iter(): ...` filling the report from one part. */
  method CollectInto(acc: map<string, string>, prefix: string, es: seq<Element>) returns (r: map<string, string>)
    ensures r == Collect(acc, prefix, es)
  {
    r := acc;
    for i := 0 to |es|
      invariant r == Collect(acc, prefix, es[..i])
    {
      assert es[..i + 1][..i] == es[..i];
      var e := es[i];
      if NonBlank(e.text) {
        r := r[prefix + LocalName(e.tag) := Truncate(e.text, 100)];
      }
    }
    assert es[..|es|] == es;
  }

  /** `OfficeCleaner.extract_metadata`. */
  method ExtractMetadata(codec: Codec, files: map<Path, string>, p: Path) returns (metadata: map<string, string>)
    ensures metadata == MetadataOf(codec, Lookup(files, p))
  {
    metadata := map[];
    if p !in files {
      return;
    }
    var archive := codec.unzip(files[p]);
    if archive.None? {
      return;
    }
    var parts := archive.value;
    if CorePart in parts {
      var root := codec.parseXml(parts[CorePart]);
      if root.None? {
        return;
      }
      metadata := CollectInto(metadata, "Core.", root.value);
    }
    if AppPart in parts {
      var root := codec.parseXml(parts[AppPart]);
      if root.None? {
        return;
      }
      metadata := CollectInto(metadata, "App.", root.value);
    }
    if CustomPart in parts {
      metadata := metadata["Custom" := "Present"];
    }
  }

  // ---------------------------------------------------------------------
  // _clean_xml_metadata

  /** The sensitive-tag test: the lower-cased local name is in the list. */
  predicate IsSensitive(tag: string) {
    ToLower(LocalName(tag)) in SensitiveTags
  }

  function Blank(e: Element): Element {
    if IsSensitive(e.tag) then e.(text := "") else e
  }

  function BlankSensitive(es: seq<Element>): seq<Element> {
    seq(|es|, i requires 0 <= i < |es| => Blank(es[i]))
  }

  /**
    The test lower-cases the tag but two list entries are camel-case, so
    `lastModifiedBy` and `lastPrinted` are never cleared in any spelling.
  */
  lemma SensitiveTagsQuirk(tag: string)
    ensures IsSensitive(tag) <==>
      ToLower(LocalName(tag)) in ["creator", "created", "modified", "company", "manager", "revision"]
  {
    ToLowerNoUpper(LocalName(tag));
    assert !NoUpper("lastModifiedBy") by {
      assert IsUpper("lastModifiedBy"[4]);
    }
    assert !NoUpper("lastPrinted") by {
      assert IsUpper("lastPrinted"[4]);
    }
  }

  /** `elem.text = ""` for every sensitive element. */
  method ClearSensitiveFields(es: seq<Element>) returns (r: seq<Element>)
    ensures r == BlankSensitive(es)
    ensures |r| == |es|
    ensures forall i :: 0 <= i < |es| ==>
      r[i].tag == es[i].tag && r[i].attrs == es[i].attrs && r[i].depth == es[i].depth &&
      r[i].text == (if IsSensitive(es[i].tag) then "" else es[i].text)
  {
    r := es;
    for i := 0 to |es|
      invariant |r| == |es|
      invariant forall j :: 0 <= j < i ==> r[j] == Blank(es[j])
      invariant forall j :: i <= j < |es| ==> r[j] == es[j]
    {
      if IsSensitive(es[i].tag) {
        r := r[i := es[i].(text := "")];
      }
    }
  }

  /** `_clean_xml_metadata`: a part that does not parse is left as it is. */
  function CleanPropertiesPart(codec: Codec, text: string): string {
    match codec.parseXml(text)
    case None => text
    case Some(es) => codec.writeXml(BlankSensitive(es))
  }

  method CleanXmlMetadata(codec: Codec, text: string) returns (r: string)
    ensures r == CleanPropertiesPart(codec, text)
  {
    var root := codec.parseXml(text);
    if root.None? {
      return text;
    }
    var blanked := ClearSensitiveFields(root.value);
    r := codec.writeXml(blanked);
  }

  // ---------------------------------------------------------------------
  // The metadata-part loop of clean

  /** One step of the loop: a present part is cleared at Basic and deleted otherwise. */
  function TreatPart(codec: Codec, level: CleaningLevel, parts: Parts, name: string): Parts {
    if name !in parts then parts
    else if level == Basic then parts[name := CleanPropertiesPart(codec, parts[name])]
    else parts - {name}
  }

  function TreatParts(codec: Codec, level: CleaningLevel, parts: Parts, names: seq<string>): Parts
    decreases |names|
  {
    if |names| == 0 then parts
    else TreatPart(codec, level, TreatParts(codec, level, parts, names[..|names| - 1]), names[|names| - 1])
  }

  predicate Distinct(names: seq<string>) {
    forall i, j :: 0 <= i < j < |names| ==> names[i] != names[j]
  }

  /**
    What the loop does to each part: a listed part is kept and cleared at
    Basic, removed otherwise; every other part is untouched.
  */
  lemma {:induction false} TreatPartsEffect(codec: Codec, level: CleaningLevel, parts: Parts, names: seq<string>)
    requires Distinct(names)
    ensures var r := TreatParts(codec, level, parts, names);
      && (level == Basic ==> r.Keys == parts.Keys)
      && (level != Basic ==> r.Keys == parts.Keys - set n | n in names)
      && (forall k :: k in r && k !in names ==> r[k] == parts[k])
      && (level == Basic ==> forall k :: k in parts && k in names ==> r[k] == CleanPropertiesPart(codec, parts[k]))
    decreases |names|
  {
    if |names| > 0 {
      var init := names[..|names| - 1];
      TreatPartsEffect(codec, level, parts, init);
      assert names == init + [names[|names| - 1]];
    }
  }

  /** `for meta_file in metadata_files: ...`. */
  method RemoveMetadataFiles(codec: Codec, level: CleaningLevel, parts: Parts) returns (r: Parts)
    ensures r == TreatParts(codec, level, parts, MetadataParts)
  {
    r := parts;
    for i := 0 to |MetadataParts|
      invariant r == TreatParts(codec, level, parts, MetadataParts[..i])
    {
      assert MetadataParts[..i + 1][..i] == MetadataParts[..i];
      var name := MetadataParts[i];
      if name in r {
        if level == Basic {
          var cleaned := CleanXmlMetadata(codec, r[name]);
          r := r[name := cleaned];
        } else {
          r := r - {name};
        }
      }
    }
    assert MetadataParts[..|MetadataParts|] == MetadataParts;
  }

  // ---------------------------------------------------------------------
  // _clean_content_files and _remove_rsid_attributes

  /** The body parts chosen by the extension; the comparison is case-sensitive. */
  function ContentParts(ext: string): seq<string> {
    if ext == ".docx" || ext == ".odt" then ["word/document.xml", "content.xml"]
    else if ext == ".xlsx" || ext == ".ods" then ["xl/workbook.xml", "content.xml"]
    else if ext == ".pptx" || ext == ".odp" then ["ppt/presentation.xml", "content.xml"]
    else []
  }

  /** The number of leading characters of `s` satisfying `\s`. */
  function SpaceRun(s: string): (n: nat)
    ensures n <= |s| && (n < |s| ==> !IsSpace(s[n]))
    decreases |s|
  {
    if |s| > 0 && IsSpace(s[0]) then 1 + SpaceRun(s[1..]) else 0
  }

  /** The number of leading characters of `s` satisfying `\w`. */
  function WordRun(s: string): (n: nat)
    ensures n <= |s| && (n < |s| ==> !IsWordChar(s[n]))
    decreases |s|
  {
    if |s| > 0 && IsWordChar(s[0]) then 1 + WordRun(s[1..]) else 0
  }

  /** The number of leading characters of `s` other than `"`. */
  function UnquotedRun(s: string): (n: nat)
    ensures n <= |s| && (n < |s| ==> s[n] == '"')
    decreases |s|
  {
    if |s| > 0 && s[0] != '"' then 1 + UnquotedRun(s[1..]) else 0
  }

  /** `<name>="<value>"`: what `\w+="[^"]*"` matches. */
  function PairText(name: string, value: string): string {
    name + "=\"" + value + "\""
  }

  /** An attribute with the whitespace before it: `<ws><marker><name>="<value>"`. */
  function AttrText(ws: string, marker: string, name: string, value: string): string {
    ws + marker + PairText(name, value)
  }

  /** `name` matches `\w+` and `value` matches `[^"]*`. */
  predicate PairParts(name: string, value: string) {
    && |name| > 0 && (forall i :: 0 <= i < |name| ==> IsWordChar(name[i]))
    && '"' !in value
  }

  /** `ws` matches `\s+` and the rest as in `PairParts`. */
  predicate AttrParts(ws: string, name: string, value: string) {
    && |ws| > 0 && (forall i :: 0 <= i < |ws| ==> IsSpace(ws[i]))
    && PairParts(name, value)
  }

  /** The length of the match of `\w+="[^"]*"` at the start of `r`, or 0 when there is none. */
  function PairMatch(r: string): (k: nat)
    ensures k <= |r|
  {
    var c := WordRun(r);
    if c == 0 || c + 1 >= |r| || r[c] != '=' || r[c + 1] != '"' then 0
    else
      var d := c + 2 + UnquotedRun(r[c + 2..]);
      if d >= |r| then 0 else d + 1
  }

  /**
    The length of the match of `\s+<marker>\w+="[^"]*"` at the start of `s`,
    or 0 when there is none.
  */
  function AttrMatch(s: string, marker: string): (n: nat)
    ensures n <= |s|
    ensures n > 0 ==> Contains(s, marker)
  {
    var a := SpaceRun(s);
    if a == 0 || !(marker <= s[a..]) then 0
    else
      var k := PairMatch(s[a + |marker|..]);
      if k == 0 then 0
      else
        assert Contains(s[a..], marker);
        ContainsInSuffix(s, a, marker);
        a + |marker| + k
  }

  /** `re.sub(pattern, '', s)` for the pattern of `AttrMatch`. */
  function StripAttr(s: string, marker: string): string
    decreases |s|
  {
    if |s| == 0 then s
    else
      var n := AttrMatch(s, marker);
      if n > 0 then StripAttr(s[n..], marker) else [s[0]] + StripAttr(s[1..], marker)
  }

  /** `_remove_rsid_attributes`: the `w:rsid…` pass, then the `rsid…` pass. */
  function RemoveRsid(s: string): string {
    StripAttr(StripAttr(s, "w:rsid"), "rsid")
  }

  lemma {:induction false} StripAttrDeletes(s: string, marker: string)
    ensures IsSubsequence(StripAttr(s, marker), s)
    decreases |s|
  {
    if |s| > 0 {
      var n := AttrMatch(s, marker);
      if n > 0 {
        StripAttrDeletes(s[n..], marker);
        SubsequenceOfSuffix(StripAttr(s[n..], marker), s, n);
      } else {
        StripAttrDeletes(s[1..], marker);
        SubsequenceCons(s, StripAttr(s[1..], marker));
      }
    }
  }

  lemma {:induction false} StripAttrAbsent(s: string, marker: string)
    requires !Contains(s, marker)
    ensures StripAttr(s, marker) == s
    decreases |s|
  {
    if |s| > 0 {
      StripAttrAbsent(s[1..], marker);
    }
  }

  /** A match of `\w+="[^"]*"` is a name and a value of that shape. */
  lemma PairMatchSound(r: string)
    requires PairMatch(r) > 0
    ensures exists name, value :: PairParts(name, value) && r[..PairMatch(r)] == PairText(name, value)
  {
    var c := WordRun(r);
    var d := c + 2 + UnquotedRun(r[c + 2..]);
    assert c > 0 && c + 1 < |r| && r[c] == '=' && r[c + 1] == '"' && d < |r|;
    var name, value := r[..c], r[c + 2..d];
    WordPrefix(r);
    UnquotedPrefix(r[c + 2..]);
    assert value == r[c + 2..][..d - (c + 2)];
    var eq := "=\"";
    assert r[c..c + 2] == eq;
    assert r[..d + 1] == r[..c] + r[c..c + 2] + r[c + 2..d] + r[d..d + 1];
    assert PairParts(name, value) && r[..d + 1] == PairText(name, value);
  }

  /** A name and a value of that shape at the front match exactly, whatever follows. */
  lemma PairMatchFinds(name: string, value: string, t: string)
    requires PairParts(name, value)
    ensures PairMatch(PairText(name, value) + t) == |PairText(name, value)|
  {
    var r := PairText(name, value) + t;
    var eq, quote := "=\"", "\"";
    assert r == name + (eq + value + quote + t);
    WordRunOf(name, eq + value + quote + t);
    assert r[|name| + 2..] == value + (quote + t);
    UnquotedRunOf(value, quote + t);
  }

  /** A match is an attribute of the pattern's shape at the start of the text. */
  lemma AttrMatchSound(s: string, marker: string)
    requires AttrMatch(s, marker) > 0
    ensures exists ws, name, value ::
      AttrParts(ws, name, value) && s[..AttrMatch(s, marker)] == AttrText(ws, marker, name, value)
  {
    var a := SpaceRun(s);
    var b := a + |marker|;
    assert a > 0 && marker <= s[a..];
    var k := PairMatch(s[b..]);
    assert k > 0 && AttrMatch(s, marker) == b + k;
    PairMatchSound(s[b..]);
    var name, value :| PairParts(name, value) && s[b..][..k] == PairText(name, value);
    SpacePrefix(s);
    var ws := s[..a];
    assert s[..b + k] == ws + marker + s[b..][..k];
    assert AttrParts(ws, name, value);
  }

  lemma {:induction false} SpacePrefix(t: string)
    ensures forall i :: 0 <= i < SpaceRun(t) ==> IsSpace(t[..SpaceRun(t)][i])
    decreases |t|
  {
    if SpaceRun(t) > 0 {
      SpacePrefix(t[1..]);
      assert forall i :: 1 <= i < SpaceRun(t) ==> t[..SpaceRun(t)][i] == t[1..][..SpaceRun(t[1..])][i - 1];
    }
  }

  lemma {:induction false} WordPrefix(t: string)
    ensures forall i :: 0 <= i < WordRun(t) ==> IsWordChar(t[..WordRun(t)][i])
    decreases |t|
  {
    if WordRun(t) > 0 {
      WordPrefix(t[1..]);
      assert forall i :: 1 <= i < WordRun(t) ==> t[..WordRun(t)][i] == t[1..][..WordRun(t[1..])][i - 1];
    }
  }

  lemma {:induction false} UnquotedPrefix(t: string)
    ensures '"' !in t[..UnquotedRun(t)]
    decreases |t|
  {
    if UnquotedRun(t) > 0 {
      UnquotedPrefix(t[1..]);
      assert t[..UnquotedRun(t)] == [t[0]] + t[1..][..UnquotedRun(t[1..])];
    }
  }

  /**
    Conversely, a text that starts with such an attribute matches exactly that
    attribute, whatever follows it, since `\s+` and `\w+` cannot stop early.
  */
  lemma AttrMatchFinds(ws: string, marker: string, name: string, value: string, t: string)
    requires AttrParts(ws, name, value) && |marker| > 0 && !IsSpace(marker[0])
    ensures AttrMatch(AttrText(ws, marker, name, value) + t, marker) == |AttrText(ws, marker, name, value)|
  {
    var s := AttrText(ws, marker, name, value) + t;
    var pair := PairText(name, value);
    assert s == ws + (marker + (pair + t));
    SpaceRunOf(ws, marker + (pair + t));
    PairMatchFinds(name, value, t);
    AttrMatchAfter(s, marker, |ws|, pair + t);
  }

  /** Past the spaces and the marker, the match is the one of `\w+="[^"]*"`. */
  lemma AttrMatchAfter(s: string, marker: string, a: nat, r: string)
    requires a == SpaceRun(s) && a > 0 && s[a..] == marker + r
    requires PairMatch(r) > 0
    ensures AttrMatch(s, marker) == a + |marker| + PairMatch(r)
  {
    assert marker <= s[a..] && s[a + |marker|..] == r;
  }

  lemma {:induction false} SpaceRunOf(ws: string, r: string)
    requires forall i :: 0 <= i < |ws| ==> IsSpace(ws[i])
    requires |r| == 0 || !IsSpace(r[0])
    ensures SpaceRun(ws + r) == |ws|
    decreases |ws|
  {
    if |ws| > 0 {
      assert (ws + r)[1..] == ws[1..] + r;
      SpaceRunOf(ws[1..], r);
    }
  }

  lemma {:induction false} WordRunOf(name: string, r: string)
    requires forall i :: 0 <= i < |name| ==> IsWordChar(name[i])
    requires |r| == 0 || !IsWordChar(r[0])
    ensures WordRun(name + r) == |name|
    decreases |name|
  {
    if |name| > 0 {
      assert (name + r)[1..] == name[1..] + r;
      WordRunOf(name[1..], r);
    }
  }

  lemma {:induction false} UnquotedRunOf(value: string, r: string)
    requires '"' !in value
    requires |r| == 0 || r[0] == '"'
    ensures UnquotedRun(value + r) == |value|
    decreases |value|
  {
    if |value| > 0 {
      assert (value + r)[1..] == value[1..] + r;
      UnquotedRunOf(value[1..], r);
    }
  }

  /** The substitution removes an attribute at the front and goes on after it. */
  lemma StripAttrRemoves(ws: string, marker: string, name: string, value: string, t: string)
    requires AttrParts(ws, name, value) && |marker| > 0 && !IsSpace(marker[0])
    ensures StripAttr(AttrText(ws, marker, name, value) + t, marker) == StripAttr(t, marker)
  {
    var s := AttrText(ws, marker, name, value) + t;
    AttrMatchFinds(ws, marker, name, value, t);
    assert s[|AttrText(ws, marker, name, value)|..] == t;
  }

  /** A `w:rsid…` attribute at the front is gone after both passes. */
  lemma RemoveRsidRemoves(ws: string, name: string, value: string, t: string)
    requires AttrParts(ws, name, value)
    ensures RemoveRsid(AttrText(ws, "w:rsid", name, value) + t) == RemoveRsid(t)
  {
    var full := "w:rsid";
    StripAttrRemoves(ws, full, name, value, t);
  }

  /** rsid removal only deletes characters. */
  lemma RemoveRsidDeletes(s: string)
    ensures IsSubsequence(RemoveRsid(s), s)
  {
    var full, short := "w:rsid", "rsid";
    StripAttrDeletes(s, full);
    StripAttrDeletes(StripAttr(s, full), short);
    SubsequenceTrans(RemoveRsid(s), StripAttr(s, full), s);
  }

  /** Text that never mentions `rsid` is left as it is. */
  lemma RemoveRsidAbsent(s: string)
    requires !Contains(s, "rsid")
    ensures RemoveRsid(s) == s
  {
    var full, short := "w:rsid", "rsid";
    assert full == "w:" + short;
    if Contains(s, full) {
      ContainsTail(s, "w:", short);
    }
    StripAttrAbsent(s, full);
    StripAttrAbsent(s, short);
  }

  function RemoveRsidIn(parts: Parts, names: seq<string>): Parts
    decreases |names|
  {
    if |names| == 0 then parts
    else
      var r := RemoveRsidIn(parts, names[..|names| - 1]);
      var name := names[|names| - 1];
      if name in r then r[name := RemoveRsid(r[name])] else r
  }

  /** Each listed part that exists loses its rsid attributes; nothing else changes. */
  lemma {:induction false} RemoveRsidInEffect(parts: Parts, names: seq<string>)
    requires Distinct(names)
    ensures var r := RemoveRsidIn(parts, names);
      && r.Keys == parts.Keys
      && (forall k :: k in parts && k !in names ==> r[k] == parts[k])
      && (forall k :: k in parts && k in names ==> r[k] == RemoveRsid(parts[k]))
    decreases |names|
  {
    if |names| > 0 {
      var init := names[..|names| - 1];
      RemoveRsidInEffect(parts, init);
      assert names == init + [names[|names| - 1]];
    }
  }

  /** `_clean_content_files`. */
  method CleanContentFiles(parts: Parts, ext: string) returns (r: Parts)
    ensures r == RemoveRsidIn(parts, ContentParts(ext))
  {
    var names := ContentParts(ext);
    r := parts;
    for i := 0 to |names|
      invariant r == RemoveRsidIn(parts, names[..i])
    {
      assert names[..i + 1][..i] == names[..i];
      if names[i] in r {
        r := r[names[i] := RemoveRsid(r[names[i]])];
      }
    }
    assert names[..|names|] == names;
  }

  // ---------------------------------------------------------------------
  // _update_content_types

  /** An `Override` whose `PartName` is one of the three properties parts. */
  predicate IsMetadataOverride(e: Element) {
    LocalName(e.tag) == "Override" &&
    (if "PartName" in e.attrs then e.attrs["PartName"] else "") in MetadataPartNames
  }

  /** What survives of one element. */
  function Kept(e: Element): seq<Element> {
    if IsMetadataOverride(e) then [] else [e]
  }

  /** The elements that are not metadata overrides, in order. */
  function KeepEntries(es: seq<Element>): seq<Element>
    decreases |es|
  {
    if |es| == 0 then [] else Kept(es[0]) + KeepEntries(es[1..])
  }

  lemma {:induction false} KeepEntriesUnfold(es: seq<Element>)
    requires |es| > 0
    ensures KeepEntries(es) == Kept(es[0]) + KeepEntries(es[1..])
  {
  }

  /** The kept elements are the input with elements deleted, in order. */
  lemma {:induction false} KeepEntriesOrdered(es: seq<Element>)
    ensures IsSubsequence(KeepEntries(es), es)
    decreases |es|
  {
    if |es| > 0 {
      KeepEntriesOrdered(es[1..]);
      var rest := KeepEntries(es[1..]);
      KeepEntriesUnfold(es);
      if IsMetadataOverride(es[0]) {
        assert KeepEntries(es) == rest;
        SubsequenceOfSuffix(rest, es, 1);
      } else {
        SubsequenceCons(es, rest);
      }
    }
  }

  /** No metadata override is kept. */
  lemma {:induction false} KeepEntriesDrops(es: seq<Element>)
    ensures forall i :: 0 <= i < |KeepEntries(es)| ==> !IsMetadataOverride(KeepEntries(es)[i])
    decreases |es|
  {
    if |es| > 0 {
      KeepEntriesDrops(es[1..]);
      KeepEntriesUnfold(es);
    }
  }

  /** Every other element is kept. */
  lemma {:induction false} KeepEntriesKeeps(es: seq<Element>)
    ensures forall i :: 0 <= i < |es| && !IsMetadataOverride(es[i]) ==> es[i] in KeepEntries(es)
    decreases |es|
  {
    if |es| > 0 {
      KeepEntriesKeeps(es[1..]);
      KeepEntriesUnfold(es);
      forall i | 0 <= i < |es| && !IsMetadataOverride(es[i])
        ensures es[i] in KeepEntries(es)
      {
        if i > 0 {
          assert es[i] == es[1..][i - 1];
        }
      }
    }
  }

  lemma KeepStep(children: seq<Element>, i: nat, rest: seq<Element>)
    requires i < |children| && KeepEntries(children) == rest + KeepEntries(children[i..])
    ensures KeepEntries(children) == rest + Kept(children[i]) + KeepEntries(children[i + 1..])
  {
    var tail := children[i..];
    assert tail[0] == children[i] && tail[1..] == children[i + 1..];
    KeepEntriesUnfold(tail);
    SeqAssoc(rest, Kept(children[i]), KeepEntries(children[i + 1..]));
  }

  lemma SeqAssoc<T>(a: seq<T>, b: seq<T>, c: seq<T>)
    ensures a + (b + c) == a + b + c
  {
  }

  lemma RemovableStep(children: seq<Element>, i: nat)
    requires i < |children| && Removable(children[..i])
    requires IsMetadataOverride(children[i]) ==> children[i].depth == 1
    ensures Removable(children[..i + 1])
  {
    assert children[..i + 1] == children[..i] + [children[i]];
  }

  /** Every metadata override among the children is a direct child of the root. */
  predicate Removable(children: seq<Element>) {
    forall i :: 0 <= i < |children| && IsMetadataOverride(children[i]) ==> children[i].depth == 1
  }

  /**
    `root.remove` on every metadata override below the root. An override
    that is not a direct child of the root makes `remove` raise, and the
    manifest is then not rewritten (`None`).
  */
  function RemoveOverrides(es: seq<Element>): Option<seq<Element>> {
    if |es| == 0 then Some(es)
    else if !Removable(es[1..]) then None
    else Some([es[0]] + KeepEntries(es[1..]))
  }

  /** `for override in root.findall('.//{*}Override'): ... root.remove(override)`. */
  method RemoveMetadataOverrides(children: seq<Element>) returns (kept: Option<seq<Element>>)
    ensures kept == if Removable(children) then Some(KeepEntries(children)) else None
  {
    var rest: seq<Element> := [];
    for i := 0 to |children|
      invariant KeepEntries(children) == rest + KeepEntries(children[i..])
      invariant Removable(children[..i])
    {
      if IsMetadataOverride(children[i]) && children[i].depth != 1 {
        return None;
      }
      KeepStep(children, i, rest);
      RemovableStep(children, i);
      rest := rest + Kept(children[i]);
    }
    assert children[..|children|] == children;
    assert Removable(children);
    assert KeepEntries(children[|children|..]) == [];
    assert rest + KeepEntries(children[|children|..]) == rest;
    return Some(rest);
  }

  /** The new manifest text; a manifest that does not parse or cannot be edited is kept. */
  function EditManifest(codec: Codec, text: string): string {
    match codec.parseXml(text)
    case None => text
    case Some(es) =>
      match RemoveOverrides(es)
      case None => text
      case Some(kept) => codec.writeXml(kept)
  }

  function UpdateManifest(codec: Codec, parts: Parts): Parts {
    if ManifestPart in parts then parts[ManifestPart := EditManifest(codec, parts[ManifestPart])] else parts
  }

  /** `_update_content_types`. */
  method UpdateContentTypes(codec: Codec, parts: Parts) returns (r: Parts)
    ensures r == UpdateManifest(codec, parts)
  {
    if ManifestPart !in parts {
      return parts;
    }
    var root := codec.parseXml(parts[ManifestPart]);
    if root.None? {
      return parts;
    }
    var es := root.value;
    if |es| == 0 {
      return parts[ManifestPart := codec.writeXml(es)];
    }
    var children := RemoveMetadataOverrides(es[1..]);
    if children.None? {
      return parts;
    }
    r := parts[ManifestPart := codec.writeXml([es[0]] + children.value)];
  }

  // ---------------------------------------------------------------------
  // The whole rewrite

  /** The parts `clean` packs into the output archive. */
  function Rewrite(codec: Codec, level: CleaningLevel, ext: string, parts: Parts): Parts {
    var stripped := TreatParts(codec, level, parts, MetadataParts);
    var cleaned := if level == Basic then stripped else RemoveRsidIn(stripped, ContentParts(ext));
    UpdateManifest(codec, cleaned)
  }

  lemma PartNamesDistinct(ext: string)
    ensures Distinct(MetadataParts) && Distinct(ContentParts(ext))
    ensures forall n :: n in MetadataParts ==> n !in ContentParts(ext) && n != ManifestPart
    ensures ManifestPart !in ContentParts(ext)
  {
    assert CorePart[9] == 'c' && AppPart[9] == 'a' && CustomPart[9] == 'c' && CustomPart[10] == 'u';
    assert "word/document.xml"[0] == 'w' && "content.xml"[0] == 'c';
    assert "xl/workbook.xml"[0] == 'x' && "ppt/presentation.xml"[0] == 'p';
    assert ManifestPart[0] == '[' && CorePart[0] == 'd';
  }

  /**
    The parts of the output: at Basic the same as the input; at Deep and
    Paranoid the three properties parts are gone. No part is ever added.
  */
  lemma RewriteParts(codec: Codec, level: CleaningLevel, ext: string, parts: Parts)
    ensures level == Basic ==> Rewrite(codec, level, ext, parts).Keys == parts.Keys
    ensures level != Basic ==>
      Rewrite(codec, level, ext, parts).Keys == parts.Keys - {CorePart, AppPart, CustomPart}
  {
    PartNamesDistinct(ext);
    TreatPartsEffect(codec, level, parts, MetadataParts);
    var stripped := TreatParts(codec, level, parts, MetadataParts);
    RemoveRsidInEffect(stripped, ContentParts(ext));
    assert (set n | n in MetadataParts) == {CorePart, AppPart, CustomPart};
  }

  /** At Basic a present properties part is kept with its sensitive fields cleared. */
  lemma RewriteBasicProperties(codec: Codec, ext: string, parts: Parts, name: string)
    requires name in MetadataParts && name in parts
    ensures name in Rewrite(codec, Basic, ext, parts)
    ensures Rewrite(codec, Basic, ext, parts)[name] == CleanPropertiesPart(codec, parts[name])
  {
    PartNamesDistinct(ext);
    TreatPartsEffect(codec, Basic, parts, MetadataParts);
  }

  /** At Deep and Paranoid a chosen body part loses its rsid attributes; at Basic it is untouched. */
  lemma RewriteContent(codec: Codec, level: CleaningLevel, ext: string, parts: Parts, name: string)
    requires name in ContentParts(ext) && name in parts
    ensures name in Rewrite(codec, level, ext, parts)
    ensures Rewrite(codec, level, ext, parts)[name] ==
      if level == Basic then parts[name] else RemoveRsid(parts[name])
  {
    PartNamesDistinct(ext);
    TreatPartsEffect(codec, level, parts, MetadataParts);
    RemoveRsidInEffect(TreatParts(codec, level, parts, MetadataParts), ContentParts(ext));
  }

  /** Every other part is repackaged with identical content. */
  lemma RewriteKeepsOthers(codec: Codec, level: CleaningLevel, ext: string, parts: Parts, name: string)
    requires name in parts && name !in MetadataParts && name !in ContentParts(ext) && name != ManifestPart
    ensures name in Rewrite(codec, level, ext, parts)
    ensures Rewrite(codec, level, ext, parts)[name] == parts[name]
  {
    PartNamesDistinct(ext);
    TreatPartsEffect(codec, level, parts, MetadataParts);
    RemoveRsidInEffect(TreatParts(codec, level, parts, MetadataParts), ContentParts(ext));
  }

  /** The manifest is edited at every level, Basic included; without one nothing is added. */
  lemma RewriteManifest(codec: Codec, level: CleaningLevel, ext: string, parts: Parts)
    ensures ManifestPart in parts ==>
      ManifestPart in Rewrite(codec, level, ext, parts) &&
      Rewrite(codec, level, ext, parts)[ManifestPart] == EditManifest(codec, parts[ManifestPart])
    ensures ManifestPart !in parts ==> ManifestPart !in Rewrite(codec, level, ext, parts)
  {
    PartNamesDistinct(ext);
    TreatPartsEffect(codec, level, parts, MetadataParts);
    RemoveRsidInEffect(TreatParts(codec, level, parts, MetadataParts), ContentParts(ext));
  }

  /** An edited manifest keeps its root and has no metadata override left. */
  lemma EditedManifestClean(es: seq<Element>)
    requires RemoveOverrides(es).Some? && |es| > 0
    ensures var kept := RemoveOverrides(es).value;
      |kept| > 0 && kept[0] == es[0] && IsSubsequence(kept[1..], es[1..]) &&
      (forall i :: 1 <= i < |kept| ==> !IsMetadataOverride(kept[i])) &&
      (forall i :: 1 <= i < |es| && !IsMetadataOverride(es[i]) ==> es[i] in kept)
  {
    KeepEntriesOrdered(es[1..]);
    KeepEntriesDrops(es[1..]);
    KeepEntriesKeeps(es[1..]);
    var kept := RemoveOverrides(es).value;
    assert kept[1..] == KeepEntries(es[1..]);
    forall i | 1 <= i < |kept|
      ensures !IsMetadataOverride(kept[i])
    {
      assert kept[i] == KeepEntries(es[1..])[i - 1];
    }
    forall i | 1 <= i < |es| && !IsMetadataOverride(es[i])
      ensures es[i] in kept
    {
      assert es[i] == es[1..][i - 1];
    }
  }

  /**
    After a Deep or Paranoid clean, reading the output back (when the zip
    library reads back what it wrote) reports no metadata at all.
  */
  lemma DeepCleanReportsNothing(codec: Codec, level: CleaningLevel, ext: string, parts: Parts)
    requires level != Basic
    requires var out := Rewrite(codec, level, ext, parts); codec.unzip(codec.zip(out)) == Some(out)
    ensures MetadataOf(codec, Some(codec.zip(Rewrite(codec, level, ext, parts)))) == map[]
  {
    RewriteParts(codec, level, ext, parts);
  }

  /**
    The work `clean` does in its scratch directory: treat the properties
    parts, clean the body parts at Deep and Paranoid, then edit the manifest.
  */
  method RewriteArchive(codec: Codec, level: CleaningLevel, ext: string, parts: Parts) returns (r: Parts)
    ensures r == Rewrite(codec, level, ext, parts)
  {
    r := RemoveMetadataFiles(codec, level, parts);
    if level != Basic {
      r := CleanContentFiles(r, ext);
    }
    r := UpdateContentTypes(codec, r);
  }

  // ---------------------------------------------------------------------
  // The cleaner

  /** `OfficeCleaner`. */
  class OfficeCleaner {
    const base: BaseCleaner
    const codec: Codec

    constructor (level: CleaningLevel, codec: Codec)
      ensures base.Valid() && base.level == level && this.codec == codec
      ensures base.metadataRemoved.entries == map[] && base.warnings.items == [] && base.errors.items == []
      ensures fresh(base.Objects())
    {
      base := new BaseCleaner(level);
      this.codec := codec;
    }

    /**
      `clean`: report the metadata, then rewrite the archive. A file that is
      missing or not a zip, or an output that cannot be written, is the one
      error of the call and leaves the files as they were.
    */
    method Clean(fs: FileSystem, input: Path, output: Path) returns (ok: bool)
      requires base.Valid()
      modifies fs, base.Objects()
      ensures base.Valid() && fresh(base.Objects() - old(base.Objects()))
      ensures old(base.metadataRemoved).entries == map[]
      ensures base.metadataRemoved.entries == MetadataOf(codec, Lookup(old(fs.files), input))
      ensures base.warnings.items == []
      ensures ok <==>
        input in old(fs.files) && codec.unzip(old(fs.files)[input]).Some? && old(fs.CanCreateIn(output.dir))
      ensures ok ==>
        base.errors.items == [] &&
        fs.files == old(fs.files)[output :=
          codec.zip(Rewrite(codec, base.level, Suffix(input.name), codec.unzip(old(fs.files)[input]).value))]
      ensures !ok ==> fs.files == old(fs.files) && |base.errors.items| == 1 && ErrorPrefix <= base.errors.items[0]
      ensures fs.dirs == old(fs.dirs)
    {
      base.Reset();
      var metadata := ExtractMetadata(codec, fs.files, input);
      base.SetMetadataRemoved(metadata);
      if input !in fs.files {
        var reason := "file not found";
        PrefixOfConcat(ErrorPrefix, reason);
        base.AddError(ErrorPrefix + reason);
        return false;
      }
      var archive := codec.unzip(fs.files[input]);
      if archive.None? {
        var reason := "not a zip file";
        PrefixOfConcat(ErrorPrefix, reason);
        base.AddError(ErrorPrefix + reason);
        return false;
      }
      var parts := RewriteArchive(codec, base.level, Suffix(input.name), archive.value);
      ok := fs.WriteFile(output, codec.zip(parts));
      if !ok {
        var reason := "cannot write output";
        PrefixOfConcat(ErrorPrefix, reason);
        base.AddError(ErrorPrefix + reason);
      }
    }
  }
}
