/**
  The PDF, image, audio and video cleaners. Their work is done by outside
  libraries (pikepdf, Pillow and exiftool, mutagen, ffmpeg); the model keeps
  only what the cleaner itself does around the library call.
*/
module ExternalCleaners {
  import opened Wrappers
  import opened Enums
  import opened Files
  import opened Cleaners

  /**
    What the library reports for a file's content (`None` when the file does
    not exist): the metadata it found, and the cleaned content or the whole
    error message the cleaner records (`"FFmpeg error: ..."`,
    `"Failed to clean PDF: ..."`, ...).
  */
  datatype ToolOutcome = ToolOutcome(metadata: map<string, string>, output: Result<string, string>)

  /** A cleaner whose work is one library call. */
  class ExternalCleaner {
    const base: BaseCleaner
    const tool: (Option<string>, CleaningLevel) -> ToolOutcome
    /** `"Failed to clean PDF: "`, ...: the prefix of a failed write. */
    const errorPrefix: string

    constructor (level: CleaningLevel, tool: (Option<string>, CleaningLevel) -> ToolOutcome, errorPrefix: string)
      ensures base.Valid() && base.level == level && this.tool == tool && this.errorPrefix == errorPrefix
      ensures base.metadataRemoved.entries == map[] && base.warnings.items == [] && base.errors.items == []
      ensures fresh(base.Objects())
    {
      base := new BaseCleaner(level);
      this.tool := tool;
      this.errorPrefix := errorPrefix;
    }

    /**
      `clean`: reset, record what the library found, and write its output.
      A library failure or an unwritable output is the one error of the call,
      and leaves the files as they were.
    */
    method Clean(fs: FileSystem, input: Path, output: Path) returns (ok: bool)
      requires base.Valid()
      modifies fs, base.Objects()
      ensures base.Valid() && fresh(base.Objects() - old(base.Objects()))
      ensures old(base.metadataRemoved).entries == map[]
      ensures var outcome := tool(Lookup(old(fs.files), input), base.level);
        && base.metadataRemoved.entries == outcome.metadata
        && (ok <==> outcome.output.Success? && old(fs.CanCreateIn(output.dir)))
        && (ok ==> base.errors.items == [] && fs.files == old(fs.files)[output := outcome.output.value])
      ensures !ok ==> fs.files == old(fs.files) && |base.errors.items| == 1
      ensures var outcome := tool(Lookup(old(fs.files), input), base.level);
        && (outcome.output.Failure? ==> base.errors.items == [outcome.output.error])
        && (!ok && outcome.output.Success? ==> errorPrefix <= base.errors.items[0])
      ensures base.warnings.items == []
      ensures fs.dirs == old(fs.dirs)
    {
      base.Reset();
      var outcome := tool(if input in fs.files then Some(fs.files[input]) else None, base.level);
      base.SetMetadataRemoved(outcome.metadata);
      if outcome.output.Failure? {
        base.AddError(outcome.output.error);
        return false;
      }
      ok := fs.WriteFile(output, outcome.output.value);
      if !ok {
        base.AddError(errorPrefix + "cannot write output");
      }
    }
  }
}
