/**
  The cleaner for plain-text and RTF files. Plain text is copied; RTF loses
  its `\info{...}` group and the arguments of eleven metadata control words.
*/
module TextCleaning {
  import opened Strings
  import opened Enums
  import opened Files
  import opened Cleaners

  const InfoOpen := "\\info{"

  /** The control words whose text is removed, in the order they are removed. */
  const Fields: seq<string> := [
    "\\author", "\\company", "\\operator", "\\creatim", "\\revtim", "\\printim",
    "\\comment", "\\keywords", "\\subject", "\\title", "\\doccomm"]

  const RtfErrorPrefix := "Failed to clean RTF: "
  const TextErrorPrefix := "Failed to clean text document: "

  /** `path.suffix.lower() == '.rtf'`. */
  predicate IsRtf(p: Path) {
    ToLower(Suffix(p.name)) == ".rtf"
  }

  /** The characters `[^\\}]` matches. */
  predicate Plain(c: char) {
    c != '\\' && c != '}'
  }

  /** The number of leading characters of `s` other than `}`. */
  function UnbracedRun(s: string): (n: nat)
    ensures n <= |s| && (n < |s| ==> s[n] == '}')
    ensures forall i :: 0 <= i < n ==> s[i] != '}'
    decreases |s|
  {
    if |s| > 0 && s[0] != '}' then 1 + UnbracedRun(s[1..]) else 0
  }

  /** The number of leading plain characters of `s`. */
  function PlainRun(s: string): (n: nat)
    ensures n <= |s| && (n < |s| ==> !Plain(s[n]))
    ensures forall i :: 0 <= i < n ==> Plain(s[i])
    decreases |s|
  {
    if |s| > 0 && Plain(s[0]) then 1 + PlainRun(s[1..]) else 0
  }

  /** `re.sub(r'\\info\{[^}]*\}', '', s)`. */
  function StripInfo(s: string): string
    decreases |s|
  {
    if |s| == 0 then s
    else if InfoOpen <= s && |InfoOpen| + UnbracedRun(s[|InfoOpen|..]) < |s| then
      StripInfo(s[|InfoOpen| + UnbracedRun(s[|InfoOpen|..]) + 1..])
    else [s[0]] + StripInfo(s[1..])
  }

  /** `re.sub(word + r'[^\\}]*', '', s)`. */
  function StripControl(s: string, word: string): string
    requires |word| > 0
    decreases |s|
  {
    if |s| == 0 then s
    else if word <= s then StripControl(s[|word| + PlainRun(s[|word|..])..], word)
    else [s[0]] + StripControl(s[1..], word)
  }

  /** A backslash followed by characters none of which is a backslash or `}`. */
  predicate ControlWord(w: string) {
    |w| > 1 && w[0] == '\\' && forall i :: 1 <= i < |w| ==> Plain(w[i])
  }

  /** `_clean_rtf`'s substitutions, the info group first. */
  function ScrubFields(s: string, words: seq<string>): string
    requires forall i :: 0 <= i < |words| ==> ControlWord(words[i])
    decreases |words|
  {
    if |words| == 0 then s
    else
      var w := words[|words| - 1];
      assert ControlWord(w);
      StripControl(ScrubFields(s, words[..|words| - 1]), w)
  }

  function ScrubRtf(s: string): string {
    ScrubFields(StripInfo(s), Fields)
  }

  // ---------------------------------------------------------------------
  // Deletion only

  lemma {:induction false} StripInfoDeletes(s: string)
    ensures IsSubsequence(StripInfo(s), s)
    ensures !Contains(s, InfoOpen) ==> StripInfo(s) == s
    decreases |s|
  {
    if |s| > 0 {
      if InfoOpen <= s && |InfoOpen| + UnbracedRun(s[|InfoOpen|..]) < |s| {
        var k := |InfoOpen| + UnbracedRun(s[|InfoOpen|..]);
        StripInfoDeletes(s[k + 1..]);
        SubsequenceOfSuffix(StripInfo(s[k + 1..]), s, k + 1);
        if !Contains(s, InfoOpen) {
          assert Contains(s, InfoOpen);
        }
      } else {
        StripInfoDeletes(s[1..]);
        SubsequenceCons(s, StripInfo(s[1..]));
      }
    }
  }

  lemma {:induction false} StripControlDeletes(s: string, word: string)
    requires |word| > 0
    ensures IsSubsequence(StripControl(s, word), s)
    ensures !Contains(s, word) ==> StripControl(s, word) == s
    decreases |s|
  {
    if |s| > 0 {
      if word <= s {
        var k := |word| + PlainRun(s[|word|..]);
        StripControlDeletes(s[k..], word);
        SubsequenceOfSuffix(StripControl(s[k..], word), s, k);
      } else {
        StripControlDeletes(s[1..], word);
        SubsequenceCons(s, StripControl(s[1..], word));
      }
    }
  }

  // ---------------------------------------------------------------------
  // No control word survives

  /** What follows a removed span is a backslash, a `}` or nothing, so the output starts that way too. */
  lemma {:induction false} StripControlStart(x: string, word: string)
    requires |word| > 0 && (|x| == 0 || !Plain(x[0]))
    ensures var r := StripControl(x, word); |r| == 0 || !Plain(r[0])
    decreases |x|
  {
    if |x| > 0 && word <= x {
      var k := |word| + PlainRun(x[|word|..]);
      StripControlStart(x[k..], word);
    }
  }

  /** A run of plain characters at the start of the output was already at the start of the input. */
  lemma {:induction false} PlainPrefixKept(u: string, t: string, word: string)
    requires |word| > 0 && forall i :: 0 <= i < |u| ==> Plain(u[i])
    requires u <= StripControl(t, word)
    ensures u <= t
    decreases |t|
  {
    if |t| > 0 && |u| > 0 {
      if word <= t {
        var k := |word| + PlainRun(t[|word|..]);
        StripControlStart(t[k..], word);
        assert false;
      } else {
        assert StripControl(t, word) == [t[0]] + StripControl(t[1..], word);
        PlainPrefixKept(u[1..], t[1..], word);
      }
    }
  }

  /** Removing one control word never creates an occurrence of another. */
  lemma {:induction false} StripControlNoNew(s: string, word: string, w: string)
    requires |word| > 0 && ControlWord(w)
    requires Contains(StripControl(s, word), w)
    ensures Contains(s, w)
    decreases |s|
  {
    if |s| > 0 {
      if word <= s {
        var k := |word| + PlainRun(s[|word|..]);
        StripControlNoNew(s[k..], word, w);
        ContainsInSuffix(s, k, w);
      } else {
        var t := StripControl(s[1..], word);
        assert StripControl(s, word) == [s[0]] + t;
        if w <= [s[0]] + t {
          assert w[1..] <= t;
          PlainPrefixKept(w[1..], s[1..], word);
          assert w <= s;
        } else {
          assert ([s[0]] + t)[1..] == t;
          StripControlNoNew(s[1..], word, w);
        }
      }
    }
  }

  /** After its own pass a control word is gone. */
  lemma {:induction false} StripControlRemoves(s: string, w: string)
    requires ControlWord(w)
    ensures !Contains(StripControl(s, w), w)
    decreases |s|
  {
    if |s| > 0 {
      if w <= s {
        var k := |w| + PlainRun(s[|w|..]);
        StripControlRemoves(s[k..], w);
      } else {
        var t := StripControl(s[1..], w);
        StripControlRemoves(s[1..], w);
        assert StripControl(s, w) == [s[0]] + t;
        assert ([s[0]] + t)[1..] == t;
        if w <= [s[0]] + t {
          PlainPrefixKept(w[1..], s[1..], w);
          assert false;
        }
      }
    } else {
      assert !(w <= StripControl(s, w));
    }
  }

  lemma {:induction false} ScrubFieldsRemoves(s: string, words: seq<string>)
    requires forall i :: 0 <= i < |words| ==> ControlWord(words[i])
    ensures forall i :: 0 <= i < |words| ==> !Contains(ScrubFields(s, words), words[i])
    ensures IsSubsequence(ScrubFields(s, words), s)
    decreases |words|
  {
    if |words| == 0 {
      SubsequenceRefl(s);
    } else {
      var n := |words| - 1;
      var before := ScrubFields(s, words[..n]);
      ScrubFieldsRemoves(s, words[..n]);
      StripControlRemoves(before, words[n]);
      StripControlDeletes(before, words[n]);
      SubsequenceTrans(ScrubFields(s, words), before, s);
      forall i | 0 <= i < n
        ensures !Contains(ScrubFields(s, words), words[i])
      {
        assert words[..n][i] == words[i];
        if Contains(ScrubFields(s, words), words[i]) {
          StripControlNoNew(before, words[n], words[i]);
        }
      }
    }
  }

  lemma FieldsAreControlWords()
    ensures forall i :: 0 <= i < |Fields| ==> ControlWord(Fields[i])
  {
    assert ControlWord("\\author") && ControlWord("\\company") && ControlWord("\\operator");
    assert ControlWord("\\creatim") && ControlWord("\\revtim") && ControlWord("\\printim");
    assert ControlWord("\\comment") && ControlWord("\\keywords") && ControlWord("\\subject");
    assert ControlWord("\\title") && ControlWord("\\doccomm");
  }

  /**
    The cleaned RTF is the input with characters deleted, and none of the
    eleven control words occurs in it.
  */
  lemma ScrubRtfClean(s: string)
    ensures IsSubsequence(ScrubRtf(s), s)
    ensures forall i :: 0 <= i < |Fields| ==> !Contains(ScrubRtf(s), Fields[i])
  {
    FieldsAreControlWords();
    StripInfoDeletes(s);
    ScrubFieldsRemoves(StripInfo(s), Fields);
    SubsequenceTrans(ScrubRtf(s), StripInfo(s), s);
  }

  /** The words are prefixes: `\titlepg` loses its `\title` and the rest of the word. */
  lemma TitlePrefixQuirk()
    ensures StripControl("\\titlepg\\par", "\\title") == "\\par"
  {
    assert "\\titlepg\\par"[6..] == "pg\\par";
    assert PlainRun("pg\\par") == 2;
    assert "\\titlepg\\par"[8..] == "\\par";
    assert !Contains("\\par", "\\title");
    StripControlDeletes("\\par", "\\title");
  }

  // ---------------------------------------------------------------------
  // What the substitutions remove

  /** A `\info{...}` group at the front is removed whole, up to its first `}`. */
  lemma StripInfoGroup(x: string, y: string)
    requires '}' !in x
    ensures StripInfo(InfoOpen + x + "}" + y) == StripInfo(y)
  {
    var s := InfoOpen + x + "}" + y;
    var k := |InfoOpen|;
    assert s[..k] == InfoOpen;
    assert s[k..] == x + "}" + y;
    assert s[k + |x|] == '}';
    assert UnbracedRun(s[k..]) == |x|;
    assert s[k + |x| + 1..] == y;
  }

  /**
    A field word is removed together with the plain characters after it, up
    to the next backslash or `}`.
  */
  lemma StripControlSpan(word: string, v: string, t: string)
    requires |word| > 0
    requires forall i :: 0 <= i < |v| ==> Plain(v[i])
    requires |t| == 0 || !Plain(t[0])
    ensures StripControl(word + v + t, word) == StripControl(t, word)
  {
    var s := word + v + t;
    assert word <= s;
    assert s[|word|..] == v + t;
    PlainRunOf(v, t);
    assert s[|word| + |v|..] == t;
  }

  lemma {:induction false} PlainRunOf(v: string, t: string)
    requires forall i :: 0 <= i < |v| ==> Plain(v[i])
    requires |t| == 0 || !Plain(t[0])
    ensures PlainRun(v + t) == |v|
    decreases |v|
  {
    if |v| > 0 {
      assert (v + t)[1..] == v[1..] + t;
      PlainRunOf(v[1..], t);
    }
  }

  /** `for field in metadata_fields: content = re.sub(field, '', content)`. */
  method CleanRtfText(content: string) returns (r: string)
    ensures r == ScrubRtf(content)
  {
    r := StripInfo(content);
    for i := 0 to |Fields|
      invariant r == ScrubFields(StripInfo(content), Fields[..i])
    {
      assert Fields[..i + 1][..i] == Fields[..i];
      r := StripControl(r, Fields[i]);
    }
    assert Fields[..|Fields|] == Fields;
  }

  // ---------------------------------------------------------------------
  // extract_metadata

  /**
    `TextCleaner.extract_metadata`: for an RTF file, which fields the first
    1000 characters mention. A file that cannot be read reports nothing.
  */
  function ExtractMetadata(files: map<Path, string>, p: Path): (m: map<string, string>)
    ensures !IsRtf(p) || p !in files ==> m == map[]
    ensures IsRtf(p) && p in files ==>
      var head := Truncate(files[p], 1000);
      && ("Author" in m <==> Contains(head, "\\author"))
      && ("Company" in m <==> Contains(head, "\\company"))
      && ("CreationTime" in m <==> Contains(head, "\\creatim"))
      && ("RevisionTime" in m <==> Contains(head, "\\revtim"))
    ensures m.Keys <= {"Author", "Company", "CreationTime", "RevisionTime"}
    ensures forall k :: k in m ==> m[k] == "Present"
  {
    if !IsRtf(p) || p !in files then map[]
    else
      var head := Truncate(files[p], 1000);
      var m1 := if Contains(head, "\\author") then map["Author" := "Present"] else map[];
      var m2 := if Contains(head, "\\company") then m1["Company" := "Present"] else m1;
      var m3 := if Contains(head, "\\creatim") then m2["CreationTime" := "Present"] else m2;
      if Contains(head, "\\revtim") then m3["RevisionTime" := "Present"] else m3
  }

  // ---------------------------------------------------------------------
  // The cleaner

  /** `TextCleaner`. Its level is stored but never read. */
  class TextCleaner {
    const base: BaseCleaner

    constructor (level: CleaningLevel)
      ensures base.Valid() && base.level == level
      ensures base.metadataRemoved.entries == map[] && base.warnings.items == [] && base.errors.items == []
      ensures fresh(base.Objects())
    {
      base := new BaseCleaner(level);
    }

    /** `_clean_rtf`. */
    method CleanRtf(fs: FileSystem, input: Path, output: Path) returns (ok: bool)
      requires base.Valid()
      modifies fs, base.errors
      ensures ok <==> input in old(fs.files) && old(fs.CanCreateIn(output.dir))
      ensures ok ==>
        fs.files == old(fs.files)[output := ScrubRtf(old(fs.files)[input])] &&
        base.errors.items == old(base.errors.items)
      ensures !ok ==>
        fs.files == old(fs.files) &&
        |base.errors.items| == |old(base.errors.items)| + 1 &&
        base.errors.items[..|old(base.errors.items)|] == old(base.errors.items) &&
        RtfErrorPrefix <= base.errors.items[|old(base.errors.items)|]
      ensures fs.dirs == old(fs.dirs)
    {
      if input !in fs.files {
        base.AddError(RtfErrorPrefix + "file not found");
        return false;
      }
      var content := CleanRtfText(fs.files[input]);
      ok := fs.WriteFile(output, content);
      if !ok {
        base.AddError(RtfErrorPrefix + "cannot write output");
      }
    }

    /**
      `clean`: RTF is scrubbed into the output; any other text is copied when
      the paths differ. The result does not depend on the level.
    */
    method Clean(fs: FileSystem, input: Path, output: Path) returns (ok: bool)
      requires base.Valid()
      modifies fs, base.Objects()
      ensures base.Valid() && fresh(base.Objects() - old(base.Objects()))
      ensures old(base.metadataRemoved).entries == map[]
      ensures base.metadataRemoved.entries == ExtractMetadata(old(fs.files), input)
      ensures base.warnings.items == []
      ensures fs.dirs == old(fs.dirs)
      ensures IsRtf(input) ==>
        (ok <==> input in old(fs.files) && old(fs.CanCreateIn(output.dir))) &&
        (ok ==> base.errors.items == [] && fs.files == old(fs.files)[output := ScrubRtf(old(fs.files)[input])])
      ensures !IsRtf(input) ==>
        (ok <==> input == output || (input in old(fs.files) && old(fs.CanCreateIn(output.dir)))) &&
        (ok ==>
          (base.errors.items == [] &&
           fs.files == if input == output then old(fs.files) else old(fs.files)[output := old(fs.files)[input]]))
      ensures !ok ==>
        fs.files == old(fs.files) && |base.errors.items| == 1 &&
        (if IsRtf(input) then RtfErrorPrefix else TextErrorPrefix) <= base.errors.items[0]
    {
      base.Reset();
      base.SetMetadataRemoved(ExtractMetadata(fs.files, input));
      if IsRtf(input) {
        ok := CleanRtf(fs, input, output);
      } else {
        ok := true;
        if input != output {
          ok := fs.CopyFile(input, output);
          if !ok {
            base.AddError(TextErrorPrefix + "cannot copy file");
          }
        }
      }
    }
  }
}
