/**
  Helpers of the cleaner: the supported-file test, filename sanitising,
  backups and the post-clean integrity check.
*/
module Utils {
  import opened Wrappers
  import opened Strings
  import opened Enums
  import opened Files

  /** `is_supported_file`: the lower-cased suffix, without dots, is a known type. */
  predicate IsSupportedFile(p: Path) {
    FromExtension(StripLeadingDots(ToLower(Suffix(p.name)))) != UNKNOWN
  }

  /**
    The extra normalisation `is_supported_file` applies before
    `from_extension` changes nothing: a file is supported exactly when its
    raw suffix classifies as a known type, which needs a non-empty suffix.
  */
  lemma {:induction false} SupportedIffKnown(p: Path)
    ensures IsSupportedFile(p) <==> FromExtension(Suffix(p.name)) != UNKNOWN
    ensures IsSupportedFile(p) ==> Suffix(p.name) != ""
  {
    NormalizeIdempotent(Suffix(p.name));
    if Suffix(p.name) == "" {
      assert Normalize("") == "";
      FromExtensionUnknown("");
    }
  }

  /** The characters `sanitize_filename` replaces. */
  const Reserved: set<char> := {'<', '>', ':', '"', '/', '\\', '|', '?', '*'}

  /** `re.sub(r'[<>:"/\\|?*]', '_', filename)`. */
  function SanitizeFilename(s: string): (r: string)
    ensures |r| == |s|
    ensures forall i :: 0 <= i < |s| ==> r[i] == (if s[i] in Reserved then '_' else s[i])
    ensures forall i :: 0 <= i < |r| ==> r[i] !in Reserved
    decreases |s|
  {
    if |s| == 0 then []
    else [if s[0] in Reserved then '_' else s[0]] + SanitizeFilename(s[1..])
  }

  lemma SanitizeIdempotent(s: string)
    ensures SanitizeFilename(SanitizeFilename(s)) == SanitizeFilename(s)
  {
  }

  const BackupFolderName := "metadata_cleaner_backups"

  /** The directory `create_backup` writes into. */
  function BackupDirFor(p: Path, backupDir: Option<Dir>): Dir {
    if backupDir.Some? then backupDir.value else p.dir + [BackupFolderName]
  }

  /** `f"{stem}_{timestamp}{suffix}"` inside the backup directory. */
  function BackupPath(p: Path, backupDir: Option<Dir>, stamp: string): Path {
    Path(BackupDirFor(p, backupDir), Stem(p.name) + "_" + stamp + Suffix(p.name))
  }

  /**
    The backup of a file with a suffix keeps that suffix (the timestamp holds
    no dot), so a backup of a supported file is supported too.
  */
  lemma {:induction false} BackupKeepsSuffix(p: Path, backupDir: Option<Dir>, stamp: string)
    requires '.' !in stamp && Suffix(p.name) != ""
    ensures Suffix(BackupPath(p, backupDir, stamp).name) == Suffix(p.name)
    ensures Stem(BackupPath(p, backupDir, stamp).name) == Stem(p.name) + "_" + stamp
    ensures IsSupportedFile(BackupPath(p, backupDir, stamp)) == IsSupportedFile(p)
  {
    var x := Stem(p.name) + "_" + stamp;
    var sfx := Suffix(p.name);
    var n := x + sfx;
    StemSuffix(p.name);
    assert |Stem(p.name)| > 0;
    assert n[|x|] == '.';
    assert n[|x| + 1..] == sfx[1..];
    assert LastIndexOf(n, '.') == |x|;
  }

  /**
    Two backups of the same file land on the same path exactly when they
    carry the same timestamp: names are unique per second, not per call.
  */
  lemma BackupPathCollides(p: Path, backupDir: Option<Dir>, s1: string, s2: string)
    ensures BackupPath(p, backupDir, s1) == BackupPath(p, backupDir, s2) <==> s1 == s2
  {
    var pre := Stem(p.name) + "_";
    var n1 := pre + s1 + Suffix(p.name);
    var n2 := pre + s2 + Suffix(p.name);
    if n1 == n2 {
      assert |s1| == |s2|;
      assert s1 == n1[|pre|..|pre| + |s1|];
      assert s2 == n2[|pre|..|pre| + |s2|];
    }
  }

  /** Whether `create_backup` completes: the directory can be made and written, and the file exists. */
  predicate BackupSucceeds(files: map<Path, string>, dirs: set<Dir>, readOnly: set<Dir>,
                           p: Path, backupDir: Option<Dir>)
  {
    var d := BackupDirFor(p, backupDir);
    MakeDirsResult(dirs, readOnly, d).1 && d !in readOnly && p in files
  }

  /**
    `create_backup`: make the directory, then copy the file. A raised
    exception is the `Failure` case; the directories made before it stay.
  */
  method CreateBackup(fs: FileSystem, p: Path, backupDir: Option<Dir>, stamp: string)
    returns (r: Result<Path, string>)
    modifies fs
    ensures fs.dirs == MakeDirsResult(old(fs.dirs), fs.readOnly, BackupDirFor(p, backupDir)).0
    ensures r.Success? <==> BackupSucceeds(old(fs.files), old(fs.dirs), fs.readOnly, p, backupDir)
    ensures r.Success? ==>
      r.value == BackupPath(p, backupDir, stamp) &&
      fs.files == old(fs.files)[r.value := old(fs.files)[p]]
    ensures r.Failure? ==> fs.files == old(fs.files)
  {
    var d := BackupDirFor(p, backupDir);
    var made := fs.MakeDirs(d);
    if !made {
      return Failure("cannot create backup directory");
    }
    var target := BackupPath(p, backupDir, stamp);
    var copied := fs.CopyFile(p, target);
    if !copied {
      return Failure("cannot copy file to backup directory");
    }
    return Success(target);
  }

  /** `verify_file_integrity`: the cleaned file exists and is not empty. */
  predicate VerifyFileIntegrity(files: map<Path, string>, original: Path, cleaned: Path) {
    cleaned in files && |files[cleaned]| > 0
  }

  /** The integrity check never looks at the original file. */
  lemma IntegrityIgnoresOriginal(files: map<Path, string>, a: Path, b: Path, cleaned: Path)
    ensures VerifyFileIntegrity(files, a, cleaned) == VerifyFileIntegrity(files, b, cleaned)
    ensures !VerifyFileIntegrity(files, a, cleaned) <==> cleaned !in files || files[cleaned] == []
  {
  }

  /** `get_file_size`: `stat().st_size`, which raises for a missing file. */
  function GetFileSize(files: map<Path, string>, p: Path): (size: nat)
    requires p in files
    ensures size == 0 <==> files[p] == []
  {
    |files[p]|
  }
}
