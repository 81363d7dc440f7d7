/**
  The part of the file system the cleaner touches: paths, pathlib's
  `stem`/`suffix`, and a mutable store of files and directories.

  A file's content is a `string` whose characters stand for its bytes.
  Writing fails when the target directory is missing or read-only;
  nothing else about the operating system is modelled.
*/
module Files {
  import opened Wrappers
  import opened Strings

  /** A directory, as the list of its components from the root. */
  type Dir = seq<string>

  datatype Path = Path(dir: Dir, name: string)

  /** `Path.suffix`: from the last dot on, unless that dot starts or ends the name. */
  function Suffix(name: string): (r: string)
    ensures r == [] || (r[0] == '.' && '.' !in r[1..] && |r| >= 2 && |r| < |name|)
  {
    var i := LastIndexOf(name, '.');
    if 0 < i < |name| - 1 then name[i..] else ""
  }

  /** `Path.stem`: the name without its suffix. */
  function Stem(name: string): string {
    var i := LastIndexOf(name, '.');
    if 0 < i < |name| - 1 then name[..i] else name
  }

  lemma StemSuffix(name: string)
    ensures Stem(name) + Suffix(name) == name
    ensures |Stem(name)| > 0 || |name| == 0
  {
  }

  /** The content of `p`, if it exists. */
  function Lookup(files: map<Path, string>, p: Path): Option<string> {
    if p in files then Some(files[p]) else None
  }

  function Parent(d: Dir): Dir
    requires |d| > 0
  {
    d[..|d| - 1]
  }

  /**
    `Path.mkdir(parents=True, exist_ok=True)`: the directories after the call
    and whether `d` exists at the end. A directory is created only inside an
    existing, writable parent; the root always exists or never will.
  */
  function MakeDirsResult(dirs: set<Dir>, readOnly: set<Dir>, d: Dir): (r: (set<Dir>, bool))
    ensures dirs <= r.0
    ensures r.1 <==> d in r.0
    ensures forall x :: x in r.0 - dirs ==> x <= d
    ensures d in dirs ==> r == (dirs, true)
    decreases |d|
  {
    if d in dirs then (dirs, true)
    else if |d| == 0 then (dirs, false)
    else
      var (ds, ok) := MakeDirsResult(dirs, readOnly, Parent(d));
      assert forall x :: x in ds - dirs ==> x <= Parent(d) && |x| < |d| && x <= d;
      if ok && Parent(d) !in readOnly then (ds + {d}, true) else (ds, false)
  }

  class FileSystem {
    var files: map<Path, string>
    var dirs: set<Dir>
    const readOnly: set<Dir>

    /** A file system holding only the root directory. */
    constructor (readOnly: set<Dir>)
      ensures files == map[] && dirs == {[]} && this.readOnly == readOnly
    {
      files := map[];
      dirs := {[]};
      this.readOnly := readOnly;
    }

    /** A file may be created or replaced in `d`. */
    predicate CanCreateIn(d: Dir)
      reads this
    {
      d in dirs && d !in readOnly
    }

    /** `open(p, "wb").write(data)`. */
    method WriteFile(p: Path, data: string) returns (ok: bool)
      modifies this
      ensures ok == old(CanCreateIn(p.dir))
      ensures files == if ok then old(files)[p := data] else old(files)
      ensures dirs == old(dirs)
    {
      ok := CanCreateIn(p.dir);
      if ok {
        files := files[p := data];
      }
    }

    /** `shutil.copy2(src, dst)`: the content is copied (timestamps are not modelled). */
    method CopyFile(src: Path, dst: Path) returns (ok: bool)
      modifies this
      ensures ok == (src in old(files) && old(CanCreateIn(dst.dir)))
      ensures files == if ok then old(files)[dst := old(files)[src]] else old(files)
      ensures dirs == old(dirs)
    {
      if src !in files {
        return false;
      }
      ok := WriteFile(dst, files[src]);
    }

    /** `Path.mkdir(parents=True, exist_ok=True)`. */
    method MakeDirs(d: Dir) returns (ok: bool)
      modifies this
      ensures (dirs, ok) == MakeDirsResult(old(dirs), readOnly, d)
      ensures files == old(files)
    {
      var r := MakeDirsResult(dirs, readOnly, d);
      dirs, ok := r.0, r.1;
    }
  }
}
