/**
  `MetadataCleaner`, the orchestrator: it checks a file, backs it up, hands it
  to the cleaner for its type, checks the output and reports a
  `CleaningResult`; batches of files are folded into a `BatchCleaningResult`.
*/
module Orchestrator {
  import opened Wrappers
  import opened Enums
  import opened Files
  import opened Utils
  import opened Results
  import opened Cleaners
  import opened OfficeCleaning
  import opened TextCleaning
  import opened ExternalCleaners

  /** The six entries of the cleaner table. */
  datatype Slot = PdfSlot | OfficeSlot | ImageSlot | AudioSlot | VideoSlot | TextSlot

  /**
    `_get_cleaner`: the slot for a file type. Documents are split between
    the PDF, Office and text cleaners; every other family has its own.
  */
  function CleanerFor(t: FileType): (s: Option<Slot>)
    ensures s.None? <==> t == UNKNOWN
    ensures IsDocument(t) <==> s == Some(PdfSlot) || s == Some(OfficeSlot) || s == Some(TextSlot)
    ensures IsImage(t) <==> s == Some(ImageSlot)
    ensures IsAudio(t) <==> s == Some(AudioSlot)
    ensures IsVideo(t) <==> s == Some(VideoSlot)
  {
    if t == PDF then Some(PdfSlot)
    else if t in {DOCX, XLSX, PPTX, ODT, ODS, ODP} then Some(OfficeSlot)
    else if IsImage(t) then Some(ImageSlot)
    else if IsAudio(t) then Some(AudioSlot)
    else if IsVideo(t) then Some(VideoSlot)
    else if t in {TXT, RTF} then Some(TextSlot)
    else
      FamiliesCover(t);
      None
  }

  /** The slot of a supported file: `_get_cleaner` never returns `None` for one. */
  function SlotOf(p: Path): (s: Slot)
    requires IsSupportedFile(p)
    ensures CleanerFor(FromExtension(Suffix(p.name))) == Some(s)
  {
    SupportedIffKnown(p);
    CleanerFor(FromExtension(Suffix(p.name))).value
  }

  /**
    What `time` and `datetime` would say: the stamp in backup names, the
    ISO time a result is created at and the seconds a cleaning took.
  */
  datatype Clock = Clock(stamp: string, now: string, elapsed: real)

  const NotFoundPrefix := "File not found: "
  const UnsupportedPrefix := "Unsupported file type: "
  const BackupErrorPrefix := "Failed to create backup: "
  const IntegrityWarning := "File integrity verification failed"

  /** The output path: the one given, or the input itself. */
  function OutputFor(p: Path, outputPath: Option<Path>): Path {
    if outputPath.Some? then outputPath.value else p
  }

  /** The result for a file that does not exist. */
  function NotFound(p: Path, clock: Clock): CleaningResult {
    CleaningResult(p, false, 0, 0, map[], [NotFoundPrefix + PathText(p)], [], 0.0, None, None, None, clock.now)
  }

  /** The result for a file of a type no cleaner handles. */
  function Unsupported(p: Path, size: nat, clock: Clock): CleaningResult {
    CleaningResult(p, false, size, 0, map[], [UnsupportedPrefix + Suffix(p.name)], [], 0.0, None, None, None, clock.now)
  }

  /** The result for a file whose backup could not be made. */
  function BackupFailed(p: Path, size: nat, message: string, clock: Clock): CleaningResult {
    CleaningResult(p, false, size, 0, map[], [BackupErrorPrefix + message], [], 0.0, None, None, None, clock.now)
  }

  /** A cleaner writes its output path and nothing else. */
  predicate OnlyWrites(before: map<Path, string>, after: map<Path, string>, output: Path) {
    before - {output} == after - {output}
  }

  /** The files a non-recursive or a recursive glob finds in a folder. */
  function FilesIn(files: map<Path, string>, folder: Dir, recursive: bool): set<Path> {
    set p | p in files && (p.dir == folder || (recursive && folder < p.dir))
  }

  /**
    The supported files among them. There are no more of them than files
    found, so the count of skipped files is never negative.
  */
  function SupportedIn(files: map<Path, string>, folder: Dir, recursive: bool): (s: set<Path>)
    ensures |s| <= |FilesIn(files, folder, recursive)|
  {
    var all := FilesIn(files, folder, recursive);
    var s := set p | p in all && IsSupportedFile(p);
    assert all == s + (all - s);
    s
  }

  /** The file paths of a sequence of results, in order. */
  function FilePaths(rs: seq<CleaningResult>): seq<Path>
    decreases |rs|
  {
    if |rs| == 0 then [] else FilePaths(rs[..|rs| - 1]) + [rs[|rs| - 1].filePath]
  }

  /** Every failed result of the sequence carries an error, and no successful one does. */
  predicate Explained(rs: seq<CleaningResult>)
    decreases |rs|
  {
    |rs| == 0 || (Explained(rs[..|rs| - 1]) && (rs[|rs| - 1].success <==> rs[|rs| - 1].errors == []))
  }

  lemma PrefixSnoc(paths: seq<Path>, i: nat)
    requires i < |paths|
    ensures paths[..i + 1] == paths[..i] + [paths[i]]
  {
  }

  /** In results for the given paths, in order, an unsupported path's result is a rejection. */
  lemma RejectsUnsupportedPath(rs: seq<CleaningResult>, paths: seq<Path>, i: nat)
    requires FilePaths(rs) == paths && RejectsUnsupported(rs)
    requires i < |paths| && !IsSupportedFile(paths[i])
    ensures i < |rs| && Rejected(rs[i])
  {
    FilePathsAt(rs);
    RejectsUnsupportedAt(rs, i);
  }

  lemma {:induction false} RejectsUnsupportedAt(rs: seq<CleaningResult>, i: nat)
    requires RejectsUnsupported(rs) && i < |rs| && !IsSupportedFile(rs[i].filePath)
    ensures Rejected(rs[i])
    decreases |rs|
  {
    if i < |rs| - 1 {
      var init := rs[..|rs| - 1];
      assert rs[i] == init[i];
      RejectsUnsupportedAt(init, i);
    }
  }


  /** The i-th path is the path of the i-th result. */
  lemma {:induction false} FilePathsAt(rs: seq<CleaningResult>)
    ensures |FilePaths(rs)| == |rs|
    ensures forall i :: 0 <= i < |rs| ==> FilePaths(rs)[i] == rs[i].filePath
    decreases |rs|
  {
    if |rs| > 0 {
      FilePathsAt(rs[..|rs| - 1]);
    }
  }

  /**
    The result `clean_file` gives a path it turns away before any cleaner
    runs: a missing file, or a type no cleaner handles.
  */
  predicate Rejected(r: CleaningResult) {
    && !r.success && r.cleanedSize == 0 && r.metadataRemoved == map[] && r.backupPath == None
    && (r.errors == [NotFoundPrefix + PathText(r.filePath)] ||
        r.errors == [UnsupportedPrefix + Suffix(r.filePath.name)])
  }

  /** Every result of the sequence whose path is not supported is a rejection. */
  predicate RejectsUnsupported(rs: seq<CleaningResult>)
    decreases |rs|
  {
    |rs| == 0 ||
    (RejectsUnsupported(rs[..|rs| - 1]) && (!IsSupportedFile(rs[|rs| - 1].filePath) ==> Rejected(rs[|rs| - 1])))
  }

  /** `clean` of the PDF, image, audio or video cleaner, as much of it as `clean_file` relies on. */
  method RunExternal(c: ExternalCleaner, fs: FileSystem, input: Path, output: Path) returns (ok: bool)
    requires c.base.Valid()
    modifies fs, c.base.Objects()
    ensures fresh(c.base.Objects() - old(c.base.Objects()))
    ensures c.base.warnings.items == []
    ensures ok <==> c.base.errors.items == []
    ensures |c.base.errors.items| <= 1
    ensures OnlyWrites(old(fs.files), fs.files, output)
    ensures fs.dirs == old(fs.dirs)
  {
    ok := c.Clean(fs, input, output);
  }

  /** `clean` of the Office cleaner, as much of it as `clean_file` relies on. */
  method RunOffice(c: OfficeCleaner, fs: FileSystem, input: Path, output: Path) returns (ok: bool)
    requires c.base.Valid()
    modifies fs, c.base.Objects()
    ensures fresh(c.base.Objects() - old(c.base.Objects()))
    ensures c.base.warnings.items == []
    ensures ok <==> c.base.errors.items == []
    ensures |c.base.errors.items| <= 1
    ensures OnlyWrites(old(fs.files), fs.files, output)
    ensures fs.dirs == old(fs.dirs)
  {
    ok := c.Clean(fs, input, output);
  }

  /** `clean` of the text cleaner, as much of it as `clean_file` relies on. */
  method RunText(c: TextCleaner, fs: FileSystem, input: Path, output: Path) returns (ok: bool)
    requires c.base.Valid()
    modifies fs, c.base.Objects()
    ensures fresh(c.base.Objects() - old(c.base.Objects()))
    ensures c.base.warnings.items == []
    ensures ok <==> c.base.errors.items == []
    ensures |c.base.errors.items| <= 1
    ensures OnlyWrites(old(fs.files), fs.files, output)
    ensures fs.dirs == old(fs.dirs)
  {
    ok := c.Clean(fs, input, output);
  }

  class MetadataCleaner {
    const level: CleaningLevel
    const backup: bool
    const verify: bool
    const backupDir: Option<Dir>
    /** `calculate_file_hash` on a file's content. */
    const hash: string -> string
    const pdf: ExternalCleaner
    const office: OfficeCleaner
    const image: ExternalCleaner
    const audio: ExternalCleaner
    const video: ExternalCleaner
    const text: TextCleaner

    /** The base cleaner of a slot. */
    function BaseOf(s: Slot): BaseCleaner {
      match s
      case PdfSlot => pdf.base
      case OfficeSlot => office.base
      case ImageSlot => image.base
      case AudioSlot => audio.base
      case VideoSlot => video.base
      case TextSlot => text.base
    }

    /** The objects the cleaners may change, and any objects they made before. */
    ghost var Repr: set<object>

    /** The base cleaners of the six slots. */
    function Bases(): set<object> {
      {pdf.base, office.base, image.base, audio.base, video.base, text.base}
    }

    /** Every cleaner in the table works at the orchestrator's level. */
    predicate Valid() {
      forall s: Slot :: BaseOf(s).Valid() && BaseOf(s).level == level
    }

    /** `Repr` holds every object a cleaner may change. */
    ghost predicate Framed()
      reads this, Bases()
    {
      forall s: Slot :: BaseOf(s).Objects() <= Repr
    }

    /**
      `__init__`: the settings and one cleaner per slot. The outside
      libraries behind the PDF, image, audio and video cleaners, and the
      archive and XML codec of the Office cleaner, are parameters.
    */
    constructor (level: CleaningLevel, backup: bool, verify: bool, backupDir: Option<Dir>,
                 hash: string -> string, codec: Codec,
                 pdfTool: (Option<string>, CleaningLevel) -> ToolOutcome,
                 imageTool: (Option<string>, CleaningLevel) -> ToolOutcome,
                 audioTool: (Option<string>, CleaningLevel) -> ToolOutcome,
                 videoTool: (Option<string>, CleaningLevel) -> ToolOutcome)
      ensures Valid()
      ensures Framed() && fresh(Repr)
      ensures this.level == level && this.backup == backup && this.verify == verify
      ensures this.backupDir == backupDir && this.hash == hash && office.codec == codec
      ensures pdf.tool == pdfTool && image.tool == imageTool && audio.tool == audioTool && video.tool == videoTool
    {
      this.level := level;
      this.backup := backup;
      this.verify := verify;
      this.backupDir := backupDir;
      this.hash := hash;
      var p := new ExternalCleaner(level, pdfTool, "Failed to clean PDF: ");
      ghost var made := p.base.Objects();
      assert fresh(made);
      var o := new OfficeCleaner(level, codec);
      made := made + o.base.Objects();
      assert fresh(made);
      var i := new ExternalCleaner(level, imageTool, "Failed to clean image: ");
      made := made + i.base.Objects();
      assert fresh(made);
      var a := new ExternalCleaner(level, audioTool, "Failed to clean audio: ");
      made := made + a.base.Objects();
      assert fresh(made);
      var v := new ExternalCleaner(level, videoTool, "Failed to clean video: ");
      made := made + v.base.Objects();
      assert fresh(made);
      var t := new TextCleaner(level);
      made := made + t.base.Objects();
      assert fresh(made);
      pdf, office, image, audio, video, text := p, o, i, a, v, t;
      new;
      Repr := made;
      forall s: Slot
        ensures BaseOf(s).Valid() && BaseOf(s).level == level && BaseOf(s).Objects() <= Repr
      {
        match s
        case PdfSlot =>
        case OfficeSlot =>
        case ImageSlot =>
        case AudioSlot =>
        case VideoSlot =>
        case TextSlot =>
      }
    }

    /** `cleaner.clean(file_path, output_path)` for the cleaner in a slot. */
    method Dispatch(slot: Slot, fs: FileSystem, input: Path, output: Path) returns (ok: bool)
      requires Valid()
      modifies fs, BaseOf(slot).Objects()
      ensures fresh(BaseOf(slot).Objects() - old(BaseOf(slot).Objects()))
      ensures BaseOf(slot).warnings.items == []
      ensures ok <==> BaseOf(slot).errors.items == []
      ensures |BaseOf(slot).errors.items| <= 1
      ensures OnlyWrites(old(fs.files), fs.files, output)
      ensures fs.dirs == old(fs.dirs)
    {
      match slot
      case PdfSlot => ok := RunExternal(pdf, fs, input, output);
      case OfficeSlot => ok := RunOffice(office, fs, input, output);
      case ImageSlot => ok := RunExternal(image, fs, input, output);
      case AudioSlot => ok := RunExternal(audio, fs, input, output);
      case VideoSlot => ok := RunExternal(video, fs, input, output);
      case TextSlot => ok := RunText(text, fs, input, output);
    }

    /**
      The part of `clean_file` after the backup: run the cleaner of a slot,
      then, when asked to verify, warn if the output is missing or empty.
    */
    method Process(slot: Slot, fs: FileSystem, input: Path, output: Path) returns (success: bool)
      requires Valid() && Framed()
      modifies this, fs, Repr
      ensures Framed() && fresh(Repr - old(Repr))
      ensures OnlyWrites(old(fs.files), fs.files, output) && fs.dirs == old(fs.dirs)
      ensures success <==> BaseOf(slot).errors.items == []
      ensures |BaseOf(slot).errors.items| <= 1
      ensures BaseOf(slot).warnings.items ==
        (if verify && success && !VerifyFileIntegrity(fs.files, input, output) then [IntegrityWarning] else [])
    {
      success := Dispatch(slot, fs, input, output);
      if verify && success && !VerifyFileIntegrity(fs.files, input, output) {
        BaseOf(slot).AddWarning(IntegrityWarning);
      }
      Repr := Repr + BaseOf(slot).Objects();
    }

    /** The backup, when one is asked for, can be made. */
    predicate BackedUp(files: map<Path, string>, dirs: set<Dir>, readOnly: set<Dir>, p: Path) {
      backup ==> BackupSucceeds(files, dirs, readOnly, p, backupDir)
    }

    /** `clean_file` gets as far as the cleaner: the file exists, is supported and, if asked for, was backed up. */
    predicate Dispatches(files: map<Path, string>, dirs: set<Dir>, readOnly: set<Dir>, p: Path) {
      p in files && IsSupportedFile(p) && BackedUp(files, dirs, readOnly, p)
    }

    /**
      `clean_file` from the size and hash of the input on, for an existing
      file whose type the cleaner in `slot` handles.
    */
    method CleanAdmitted(slot: Slot, fs: FileSystem, filePath: Path, output: Path, clock: Clock)
      returns (r: CleaningResult)
      requires Valid() && Framed() && filePath in fs.files
      modifies this, fs, Repr
      ensures Framed() && fresh(Repr - old(Repr))
      ensures r.filePath == filePath && r.createdAt == clock.now
      ensures r.success <==> r.errors == []
      ensures |r.errors| <= 1
      ensures r.originalSize == |old(fs.files)[filePath]|
      ensures fs.dirs == (if backup then MakeDirsResult(old(fs.dirs), fs.readOnly, BackupDirFor(filePath, backupDir)).0
                          else old(fs.dirs))
      ensures !BackedUp(old(fs.files), old(fs.dirs), fs.readOnly, filePath) ==>
        r.errors != [] && BackupErrorPrefix <= r.errors[0] &&
        r.cleanedSize == 0 && r.backupPath == None && r.metadataRemoved == map[] && r.warnings == [] &&
        fs.files == old(fs.files)
      ensures BackedUp(old(fs.files), old(fs.dirs), fs.readOnly, filePath) ==>
        var saved := BackupPath(filePath, backupDir, clock.stamp);
        var cleaner := BaseOf(slot);
        && r.contentHashBefore == (if verify then Some(hash(old(fs.files)[filePath])) else None)
        && r.backupPath == (if backup then Some(saved) else None)
        && OnlyWrites(if backup then old(fs.files)[saved := old(fs.files)[filePath]] else old(fs.files), fs.files, output)
        && r.metadataRemoved == cleaner.metadataRemoved.entries
        && r.errors == cleaner.errors.items
        && r.warnings == cleaner.warnings.items
        && r.warnings == (if verify && r.success && !VerifyFileIntegrity(fs.files, filePath, output)
                          then [IntegrityWarning] else [])
        && r.cleanedSize == (if output in fs.files then |fs.files[output]| else 0)
        && r.contentHashAfter == (if verify && output in fs.files then Some(hash(fs.files[output])) else None)
        && r.processingTime == clock.elapsed
    {
      var originalSize := GetFileSize(fs.files, filePath);
      var hashBefore := if verify then Some(hash(fs.files[filePath])) else None;
      var backupPath: Option<Path> := None;
      if backup {
        var made := CreateBackup(fs, filePath, backupDir, clock.stamp);
        if made.Failure? {
          return BackupFailed(filePath, originalSize, made.error, clock);
        }
        backupPath := Some(made.value);
      }
      var success := Process(slot, fs, filePath, output);
      var cleanedSize := if output in fs.files then |fs.files[output]| else 0;
      var hashAfter := if verify && output in fs.files then Some(hash(fs.files[output])) else None;
      var cleaner := BaseOf(slot);
      r := CleaningResult(filePath, success, originalSize, cleanedSize, cleaner.metadataRemoved.entries,
                          cleaner.errors.items, cleaner.warnings.items, clock.elapsed,
                          backupPath, hashBefore, hashAfter, clock.now);
    }

    /**
      `clean_file`. The result holds copies of the cleaner's report and
      messages as they are when the call returns.
    */
    method CleanFile(fs: FileSystem, filePath: Path, outputPath: Option<Path>, clock: Clock)
      returns (r: CleaningResult)
      requires Valid() && Framed()
      modifies this, fs, Repr
      ensures Framed() && fresh(Repr - old(Repr))
      ensures r.filePath == filePath && r.createdAt == clock.now
      ensures r.success <==> r.errors == []
      ensures |r.errors| <= 1
      ensures r.success ==> Dispatches(old(fs.files), old(fs.dirs), fs.readOnly, filePath)
      ensures filePath !in old(fs.files) ==>
        r == NotFound(filePath, clock) && fs.files == old(fs.files) && fs.dirs == old(fs.dirs)
      ensures filePath in old(fs.files) && !IsSupportedFile(filePath) ==>
        r == Unsupported(filePath, |old(fs.files)[filePath]|, clock) &&
        fs.files == old(fs.files) && fs.dirs == old(fs.dirs)
      ensures filePath in old(fs.files) && IsSupportedFile(filePath) ==>
        r.originalSize == |old(fs.files)[filePath]| &&
        fs.dirs == (if backup then MakeDirsResult(old(fs.dirs), fs.readOnly, BackupDirFor(filePath, backupDir)).0
                    else old(fs.dirs))
      ensures filePath in old(fs.files) && IsSupportedFile(filePath) &&
              !Dispatches(old(fs.files), old(fs.dirs), fs.readOnly, filePath) ==>
        r.errors != [] && BackupErrorPrefix <= r.errors[0] &&
        r.cleanedSize == 0 && r.backupPath == None && r.metadataRemoved == map[] && r.warnings == [] &&
        fs.files == old(fs.files)
      ensures Dispatches(old(fs.files), old(fs.dirs), fs.readOnly, filePath) ==>
        var out := OutputFor(filePath, outputPath);
        var saved := BackupPath(filePath, backupDir, clock.stamp);
        var cleaner := BaseOf(SlotOf(filePath));
        && r.contentHashBefore == (if verify then Some(hash(old(fs.files)[filePath])) else None)
        && r.backupPath == (if backup then Some(saved) else None)
        && OnlyWrites(if backup then old(fs.files)[saved := old(fs.files)[filePath]] else old(fs.files), fs.files, out)
        && r.metadataRemoved == cleaner.metadataRemoved.entries
        && r.errors == cleaner.errors.items
        && r.warnings == cleaner.warnings.items
        && r.warnings == (if verify && r.success && !VerifyFileIntegrity(fs.files, filePath, out)
                          then [IntegrityWarning] else [])
        && r.cleanedSize == (if out in fs.files then |fs.files[out]| else 0)
        && r.contentHashAfter == (if verify && out in fs.files then Some(hash(fs.files[out])) else None)
        && r.processingTime == clock.elapsed
    {
      var output := OutputFor(filePath, outputPath);
      if filePath !in fs.files {
        return NotFound(filePath, clock);
      }
      if !IsSupportedFile(filePath) {
        return Unsupported(filePath, GetFileSize(fs.files, filePath), clock);
      }
      r := CleanAdmitted(SlotOf(filePath), fs, filePath, output, clock);
    }

    /**
      One task of the worker pool: clean a file with no output path and add
      its result to the batch.
    */
    method CleanInto(batch: BatchCleaningResult, fs: FileSystem, p: Path, clock: Clock) returns (r: CleaningResult)
      requires Valid() && Framed() && batch !in Repr
      modifies batch, this, fs, Repr
      ensures Framed() && fresh(Repr - old(Repr)) && batch !in Repr
      ensures batch.results == old(batch.results) + [r] && r.filePath == p
      ensures FilePaths(batch.results) == FilePaths(old(batch.results)) + [p]
      ensures old(Explained(batch.results)) ==> Explained(batch.results)
      ensures old(RejectsUnsupported(batch.results)) ==> RejectsUnsupported(batch.results)
      ensures !IsSupportedFile(p) ==> Rejected(r)
      ensures old(batch.Consistent()) ==> batch.Consistent()
      ensures batch.skipped == old(batch.skipped) && batch.totalTime == old(batch.totalTime)
    {
      r := CleanFile(fs, p, None, clock);
      batch.AddResult(r);
      assert batch.results[..|batch.results| - 1] == old(batch.results);
    }

    /**
      `clean_files`: every path is cleaned and counted, whatever happened to
      the others. The results are in the order of the paths.
    */
    method CleanFiles(fs: FileSystem, paths: seq<Path>, clock: Clock, totalTime: real)
      returns (batch: BatchCleaningResult)
      requires Valid() && Framed()
      modifies this, fs, Repr
      ensures Framed() && fresh(Repr - old(Repr))
      ensures fresh(batch) && batch.Consistent()
      ensures FilePaths(batch.results) == paths && |batch.results| == |paths| == batch.totalFiles
      ensures Explained(batch.results)
      ensures RejectsUnsupported(batch.results)
      ensures batch.skipped == 0 && batch.totalTime == totalTime
    {
      batch := new BatchCleaningResult();
      var i := 0;
      while i < |paths|
        invariant 0 <= i <= |paths|
        invariant Framed() && fresh(Repr - old(Repr))
        invariant fresh(batch) && batch !in Repr
        invariant batch.Consistent()
        invariant FilePaths(batch.results) == paths[..i] && Explained(batch.results)
        invariant RejectsUnsupported(batch.results)
        invariant batch.skipped == 0 && batch.totalTime == 0.0
      {
        PrefixSnoc(paths, i);
        var r := CleanInto(batch, fs, paths[i], clock);
        i := i + 1;
      }
      assert paths[..i] == paths;
      FilePathsAt(batch.results);
      FoldCounts(batch.results);
      batch.totalTime := totalTime;
    }

    /**
      `clean_folder`: a folder that does not exist gives the zero batch;
      otherwise every supported file found is cleaned once, in the order the
      folder is listed, and the others are counted as skipped.
    */
    method CleanFolder(fs: FileSystem, folder: Dir, recursive: bool, clock: Clock, totalTime: real)
      returns (batch: BatchCleaningResult)
      requires Valid() && Framed()
      modifies this, fs, Repr
      ensures Framed() && fresh(Repr - old(Repr))
      ensures fresh(batch) && batch.Consistent()
      ensures folder !in old(fs.dirs) ==>
        batch.results == [] && batch.totalFiles == 0 && batch.skipped == 0 && batch.totalTime == 0.0 &&
        fs.files == old(fs.files) && fs.dirs == old(fs.dirs)
      ensures folder in old(fs.dirs) ==>
        var all := FilesIn(old(fs.files), folder, recursive);
        var supported := SupportedIn(old(fs.files), folder, recursive);
        && (forall p :: p in FilePaths(batch.results) <==> p in supported)
        && batch.totalFiles == |batch.results| == |supported|
        && batch.skipped == |all| - |supported| >= 0
        && batch.totalTime == totalTime
    {
      if folder !in fs.dirs {
        batch := new BatchCleaningResult();
        return;
      }
      var all := FilesIn(fs.files, folder, recursive);
      var supported := SupportedIn(fs.files, folder, recursive);
      var listed := Enumerate(supported);
      batch := CleanFiles(fs, listed, clock, totalTime);
      FilePathsAt(batch.results);
      batch.skipped := |all| - |supported|;
    }
  }

  /** The members of a set in some order, each once, as a directory listing gives them. */
  method Enumerate(s: set<Path>) returns (ps: seq<Path>)
    ensures |ps| == |s|
    ensures forall p :: p in ps <==> p in s
  {
    ps := [];
    var todo := s;
    while todo != {}
      invariant todo <= s && |ps| + |todo| == |s|
      invariant forall p :: p in ps <==> p in s && p !in todo
      decreases |todo|
    {
      var p :| p in todo;
      ps := ps + [p];
      todo := todo - {p};
    }
  }

  // ---------------------------------------------------------------------
  // The result as `clean_file` builds it
  // ---------------------------------------------------------------------

  /**
    A result that holds the cleaner's own report and message lists, as
    `clean_file` builds it, instead of copies.
  */
  datatype SharedResult = SharedResult(success: bool, metadataRemoved: MetadataMap,
                                       errors: MessageList, warnings: MessageList)

  /**
    Two files cleaned one after the other by the same cleaner. The first
    result's report is emptied by the second call, and both results show
    the second call's messages.
  */
  method SharedResults(t: TextCleaner, fs: FileSystem, a: Path, b: Path)
    returns (first: SharedResult, second: SharedResult, ghost reportedFirst: map<string, string>)
    requires t.base.Valid()
    modifies fs, t.base.Objects()
    ensures reportedFirst == TextCleaning.ExtractMetadata(old(fs.files), a)
    ensures first.metadataRemoved.entries == map[]
    ensures first.errors == second.errors && first.warnings == second.warnings
  {
    var ok := t.Clean(fs, a, a);
    first := SharedResult(ok, t.base.metadataRemoved, t.base.errors, t.base.warnings);
    reportedFirst := first.metadataRemoved.entries;
    ok := t.Clean(fs, b, b);
    second := SharedResult(ok, t.base.metadataRemoved, t.base.errors, t.base.warnings);
  }
}
