# Metadata-Cleaner, modelled in Dafny

Metadata-Cleaner removes privacy-sensitive metadata from files. It handles
PDF, Office (OOXML and OpenDocument), image, audio, video and text/RTF files.
A `MetadataCleaner` object does the orchestration. For each file it:

1. checks that the file exists and that its type is supported;
2. optionally backs the file up;
3. hands the file to the cleaner for its type;
4. optionally checks that the output exists and is not empty;
5. reports a `CleaningResult`.

Batches of files, whether a list or a folder, are folded into a
`BatchCleaningResult`.

This project models that orchestration, the bookkeeping around it, and the
two cleaners whose logic lives in the repository itself:

- the Office archive rewriter;
- the RTF stripper.

It proves what these promise. The files are:

| file | module | what it models |
|---|---|---|
| `wrappers.dfy` | `Wrappers` | `Option` and `Result` |
| `strings.dfy` | `Strings` | ASCII case folding, the `\s`/`\w` classes, substring search, "obtained by deleting characters" |
| `enums.dfy` | `Enums` | `CleaningLevel`, `FileType`, `from_extension`, the four family predicates |
| `filesystem.dfy` | `Files` | paths, `stem`/`suffix`, and a `FileSystem` object holding files and directories |
| `utils.dfy` | `Utils` | supported-file test, filename sanitising, backups, the integrity check, file sizes |
| `result.dfy` | `Results` | `CleaningResult`, `BatchCleaningResult` and its counters as a fold |
| `base_cleaner.dfy` | `Cleaners` | `BaseCleaner`: the report and message lists every cleaner carries |
| `office_cleaner.dfy` | `OfficeCleaning` | `OfficeCleaner` over a map of zip parts and a flat list of XML elements |
| `text_cleaner.dfy` | `TextCleaning` | `TextCleaner` and its regular-expression pipeline |
| `external_cleaners.dfy` | `ExternalCleaners` | the PDF, image, audio and video cleaners around an opaque library call |
| `cleaner.dfy` | `Orchestrator` | `MetadataCleaner`: `clean_file`, `_get_cleaner`, `clean_files`, `clean_folder` |

Design choices:

- **Files.** The file system is a mutable object. Its state is a map from
  path to content plus a set of directories, and some directories are
  read-only. Writing a file fails exactly when its directory is missing or
  read-only.
- **Outside libraries.** The zip and XML libraries (`Codec`) are function
  parameters, and so is the content hash. So is the library behind each
  PDF, image, audio and video cleaner (`ToolOutcome`).
- **Cleaner state is mutable.** Every cleaner keeps its state in a
  `BaseCleaner` object:
  - `warnings` and `errors` are list objects that `reset` clears in place;
  - `metadata_removed` is rebound to a new dictionary on every `clean`.
- **Results are snapshots.** `clean_file` in the model returns a
  `CleaningResult` value that copies those collections. The source builds
  the result from the cleaner's own objects instead, so a later clean
  changes an earlier result. The Findings section covers this.
- **Batches are sequential.** A batch is a sequential loop over the paths.
  The source uses a thread pool and adds results in completion order.
  `Results.FoldPermutation` proves that the counters do not depend on that
  order.

One description of the system counts every file of a folder in
`total_files`. The code does not: `clean_folder` passes only supported files
to `clean_file` and counts the others in `skipped`. The model follows the
code, as `Orchestrator.MetadataCleaner.CleanFolder` states.

## Model

| member | source | states |
|---|---|---|
| Enums.StripLeadingDots | core/enums.py:55 | after `lstrip('.')` the text is empty or does not start with a dot |
| Enums.SearchFinds | core/enums.py:56-58 | the scan returns the first member of the table whose value is the searched text |
| Enums.SearchMissesAll | core/enums.py:56-59 | text that is no member's value falls through to UNKNOWN |
| Enums.SearchResult | core/enums.py:56-59 | the scan yields UNKNOWN or a member of the table whose value is the searched text |
| Enums.ValueInjective | core/enums.py:15-50 | no two members share a value |
| Enums.SearchValue | core/enums.py:52-59 | scanning the member list for a member's value finds that member |
| Enums.FromExtensionValue | core/enums.py:15-59 | round trip: `from_extension(t.value) == t` for every member, UNKNOWN included |
| Enums.FromDottedValue | core/enums.py:52-59 | `"." + t.value` also selects `t` |
| Enums.StripLeadingDotsIdempotent | core/enums.py:55 | stripping leading dots twice is stripping them once |
| Enums.FromExtensionInsensitive | core/enums.py:55 | `from_extension` ignores one leading dot and the (ASCII) case of the extension |
| Enums.NormalizeIdempotent | core/enums.py:55 | lower-casing and stripping dots a second time changes nothing |
| Enums.FromExtensionUnknown | core/enums.py:56-59 | an extension whose normal form is no member's value gives UNKNOWN |
| Enums.FromExtensionKnown | core/enums.py:56-59 | a known result is the member whose value is the normalised extension |
| Enums.FamiliesDisjoint | core/enums.py:61-85 | no type is in two of the document, image, audio and video families |
| Enums.FamiliesCover | core/enums.py:61-85 | every type except UNKNOWN is in some family, and UNKNOWN is in none |
| Enums.PdfDetection | tests/test_cleaner.py:66-70 | `.pdf`, `pdf` and `.PDF` all give PDF |
| Enums.DetectJpg | tests/test_cleaner.py:72-77 | `.jpg` gives JPG |
| Enums.DetectPng | tests/test_cleaner.py:72-77 | `.png` gives PNG |
| Enums.DetectTiff | tests/test_cleaner.py:72-77 | `.tiff` gives TIFF |
| Enums.ImageDetection | tests/test_cleaner.py:72-77 | jpg, png and tiff are images |
| Enums.DetectDocx | tests/test_cleaner.py:79-84 | `.docx` gives DOCX |
| Enums.DetectXlsx | tests/test_cleaner.py:79-84 | `.xlsx` gives XLSX |
| Enums.DetectPptx | tests/test_cleaner.py:79-84 | `.pptx` gives PPTX |
| Enums.OfficeDetection | tests/test_cleaner.py:79-84 | docx, xlsx and pptx are documents |
| Enums.DetectMp3 | tests/test_cleaner.py:86-90 | `.mp3` gives MP3 |
| Enums.DetectFlac | tests/test_cleaner.py:86-90 | `.flac` gives FLAC |
| Enums.AudioDetection | tests/test_cleaner.py:86-90 | mp3 and flac are audio |
| Enums.DetectMp4 | tests/test_cleaner.py:92-96 | `.mp4` gives MP4 |
| Enums.DetectAvi | tests/test_cleaner.py:92-96 | `.avi` gives AVI |
| Enums.VideoDetection | tests/test_cleaner.py:92-96 | mp4 and avi are video |
| Files.Suffix | core/utils.py:31 | a suffix is empty, or a dot followed by at least one dot-free character, and shorter than the name |
| Files.StemSuffix | core/utils.py:31 | stem and suffix put back together give the name, and a non-empty name has a non-empty stem |
| Files.MakeDirsResult | core/utils.py:61-63 | `mkdir(parents=True, exist_ok=True)` only adds directories on the way to the target; it reports success exactly when the target exists at the end; an existing target changes nothing |
| Files.FileSystem.MakeDirs | core/utils.py:26 | the directory set becomes what `mkdir -p` makes of it, and no file changes |
| Files.FileSystem.WriteFile | cleaners/text_cleaner.py:96-97 | a write succeeds exactly when the directory exists and is writable; on success only that path changes, otherwise nothing does |
| Files.FileSystem.CopyFile | core/utils.py:34 | `shutil.copy2` succeeds exactly when the source exists and the target can be written; the target then holds the source's content |
| Utils.SupportedIffKnown | core/utils.py:66-71 | a file is supported exactly when its suffix classifies as a known type, and a supported file has a non-empty suffix |
| Utils.SanitizeFilename | core/utils.py:74-79 | the length is kept; each of `< > : " / \ \| ? *` becomes `_`; every other character is kept; no reserved character is left |
| Utils.SanitizeIdempotent | core/utils.py:78 | sanitising twice equals sanitising once |
| Utils.BackupKeepsSuffix | core/utils.py:29-32 | the backup name is `stem_timestamp` plus the original suffix, so a backup of a supported file is supported too |
| Utils.BackupPathCollides | core/utils.py:29-32 | two backups of one file get the same path exactly when their timestamps are equal |
| Utils.CreateBackup | core/utils.py:21-36 | succeeds exactly when the backup directory can be made and written and the file exists; then the backup holds the file's content at copy time, and otherwise no file changes |
| Utils.IntegrityIgnoresOriginal | core/utils.py:39-53 | the check fails exactly when the cleaned file is missing or empty, and never depends on the original path |
| Utils.GetFileSize | core/utils.py:56-58 | the size is zero exactly when the content is empty |
| Results.PercentBounds | core/result.py:31-36 | the percentage is 0 for an empty original; otherwise it is `reduction * 100 / original`, at most 100, exactly 100 when the file was emptied, and negative exactly when the file grew |
| Results.ResultToDict | core/result.py:43-61 | the dictionary has exactly the fifteen keys of `to_dict` |
| Results.ResultDicts | core/result.py:103 | one dictionary per result, in order, each with those keys |
| Results.SuccessesSnoc | core/result.py:80-82 | appending a result adds one success and its reduction only when it succeeded |
| Results.FoldCounts | core/result.py:68-84 | from the zero batch, `total_files == successful + failed == len(results)`, and the size total is the sum of the successful results' reductions |
| Results.CountCommutes | core/result.py:76-84 | adding two results in either order gives the same counters |
| Results.FoldRemove | core/result.py:76-84 | any one result may be added last without changing the counters |
| Results.FoldPermutation | core/result.py:76-84 | any permutation of the same results gives the same counters and size total |
| Results.BatchCleaningResult.constructor | core/result.py:68-74 | a new batch has every counter at zero and no results |
| Results.BatchCleaningResult.AddResult | core/result.py:76-84 | appends the result and counts it once, as a success with its reduction or as a failure; `skipped` and `total_time` are kept; consistency with the fold is preserved |
| Results.BatchCleaningResult.SuccessRate | core/result.py:86-91 | 0 for an empty batch; otherwise `successful * 100 / total_files`, within [0, 100] when the counts are sane |
| Results.BatchCleaningResult.ToDict | core/result.py:93-104 | the batch dictionary's eight keys, with one result dictionary per result |
| Results.SuccessRateBounded | core/result.py:86-91 | in a batch built by `add_result` the rate is a percentage, and the counters agree with the results |
| Cleaners.BaseCleaner.constructor | cleaners/base_cleaner.py:16-20 | the level is stored, the report and both message lists are empty, and the lists are distinct objects |
| Cleaners.BaseCleaner.Reset | cleaners/base_cleaner.py:49-53 | the report and both lists are emptied in place; the same objects stay bound |
| Cleaners.BaseCleaner.AddWarning | cleaners/base_cleaner.py:55-58 | the message is appended to the warnings; the errors are unchanged |
| Cleaners.BaseCleaner.AddError | cleaners/base_cleaner.py:60-63 | the message is appended to the errors; the warnings are unchanged |
| Cleaners.BaseCleaner.SetMetadataRemoved | cleaners/text_cleaner.py:50 | `metadata_removed` is bound to a new dictionary; the old one is left as it was |
| ExternalCleaners.ExternalCleaner.constructor | cleaners/pdf_cleaner.py:22-26 | a cleaner around one library at the given level, with an empty state |
| ExternalCleaners.ExternalCleaner.Clean | cleaners/pdf_cleaner.py:58-129 | the PDF cleaner: the report is what the library found; success exactly when the library succeeded and the output could be written; a failure is the one error and leaves every file as it was. The image, audio and video cleaners use the same member, with the differences listed under "Left out" |
| OfficeCleaning.LocalName | cleaners/office_cleaner.py:35 | the local name is the part of the tag after its last `}`, and contains no `}` |
| OfficeCleaning.Collect | cleaners/office_cleaner.py:33-36 | filling the report keeps earlier keys, touches only keys under the part's prefix, and stores values of at most 100 characters |
| OfficeCleaning.CollectLast | cleaners/office_cleaner.py:33-36 | an element with non-blank text that no later non-blank element shares a name with is reported with its first 100 characters |
| OfficeCleaning.CollectInto | cleaners/office_cleaner.py:33-36 | the loop over `root.iter()` computes `Collect` |
| OfficeCleaning.MetadataShape | cleaners/office_cleaner.py:23-54 | every key is `Core.`/`App.` with a value of at most 100 characters, or `Custom` with `Present` |
| OfficeCleaning.CustomReported | cleaners/office_cleaner.py:47-49 | `Custom` is reported exactly when `custom.xml` exists and the parts read before it parse |
| OfficeCleaning.CorePropertyReported | cleaners/office_cleaner.py:29-36 | a core property with non-blank text is reported as `Core.<local name>` with its first 100 characters |
| OfficeCleaning.ExtractMetadata | cleaners/office_cleaner.py:23-54 | extraction never fails, and yields the report of the file's content, or nothing for a missing file |
| OfficeCleaning.SensitiveTagsQuirk | cleaners/office_cleaner.py:116-123 | a tag is cleared exactly when its lower-cased local name is one of six list entries; `lastModifiedBy` and `lastPrinted` never match |
| OfficeCleaning.ClearSensitiveFields | cleaners/office_cleaner.py:121-124 | every element is kept, and exactly the sensitive ones lose their text |
| OfficeCleaning.CleanXmlMetadata | cleaners/office_cleaner.py:109-129 | a properties part that parses is rewritten with sensitive fields cleared; one that does not parse is kept |
| OfficeCleaning.TreatPartsEffect | cleaners/office_cleaner.py:75-90 | at Basic each present properties part is cleaned in place; at Deep and Paranoid each is deleted; a missing part is skipped; other parts are unchanged |
| OfficeCleaning.RemoveMetadataFiles | cleaners/office_cleaner.py:81-90 | the loop over the three properties parts computes that effect |
| OfficeCleaning.AttrMatch | cleaners/office_cleaner.py:162-163 | a match is a prefix of the text and contains the attribute marker |
| OfficeCleaning.AttrMatchSound | cleaners/office_cleaner.py:162-163 | every match is whitespace, the marker, a word, `="`, a value without `"`, and `"`, as the pattern `\s+<marker>\w+="[^"]*"` says |
| OfficeCleaning.PairMatchSound | cleaners/office_cleaner.py:162-163 | a match of the tail `\w+="[^"]*"` is a non-empty word, `="`, a value without `"`, and `"` |
| OfficeCleaning.PairMatchFinds | cleaners/office_cleaner.py:162-163 | conversely, such a word and value at the front match exactly, whatever follows |
| OfficeCleaning.AttrMatchFinds | cleaners/office_cleaner.py:162-163 | conversely, a text that starts with such an attribute matches exactly that attribute, whatever follows it |
| OfficeCleaning.StripAttrRemoves | cleaners/office_cleaner.py:162-163 | a substitution deletes an attribute at the front of the text and goes on with the rest |
| OfficeCleaning.RemoveRsidRemoves | cleaners/office_cleaner.py:154-171 | a `w:rsid…="…"` attribute at the front is gone after both passes |
| OfficeCleaning.StripAttrDeletes | cleaners/office_cleaner.py:162-163 | one rsid substitution only deletes characters |
| OfficeCleaning.StripAttrAbsent | cleaners/office_cleaner.py:162-163 | text without the marker is unchanged by that substitution |
| OfficeCleaning.RemoveRsidDeletes | cleaners/office_cleaner.py:154-171 | rsid removal only deletes characters |
| OfficeCleaning.RemoveRsidAbsent | cleaners/office_cleaner.py:154-171 | text with no `rsid` substring is unchanged |
| OfficeCleaning.RemoveRsidInEffect | cleaners/office_cleaner.py:147-149 | each listed part that exists loses its rsid attributes; every other part and the set of part names are unchanged |
| OfficeCleaning.CleanContentFiles | cleaners/office_cleaner.py:131-152 | the body parts chosen by the case-sensitive extension are rewritten by rsid removal |
| OfficeCleaning.KeepEntriesOrdered | cleaners/office_cleaner.py:190-193 | the kept manifest entries are the original entries, in order, with some removed |
| OfficeCleaning.KeepEntriesDrops | cleaners/office_cleaner.py:190-193 | no Override of a properties part is kept |
| OfficeCleaning.KeepEntriesKeeps | cleaners/office_cleaner.py:190-193 | every other entry is kept |
| OfficeCleaning.RemoveMetadataOverrides | cleaners/office_cleaner.py:190-193 | the loop yields the kept entries; an override that is not a direct child of the root makes `remove` fail |
| OfficeCleaning.UpdateContentTypes | cleaners/office_cleaner.py:173-198 | the manifest is edited, left alone when it is missing, and kept when it cannot be parsed or edited |
| OfficeCleaning.EditedManifestClean | cleaners/office_cleaner.py:183-195 | an edited manifest keeps its root and every non-metadata entry, and has no metadata override left |
| OfficeCleaning.PartNamesDistinct | cleaners/office_cleaner.py:75-79 | the properties parts, the chosen body parts and the manifest are distinct names |
| OfficeCleaning.RewriteParts | cleaners/office_cleaner.py:74-100 | at Basic the part names are unchanged; at Deep and Paranoid they are the input's names without the three properties parts; no part is added |
| OfficeCleaning.RewriteBasicProperties | cleaners/office_cleaner.py:84-86 | at Basic a present properties part is kept with its sensitive fields cleared |
| OfficeCleaning.RewriteContent | cleaners/office_cleaner.py:92-94 | a chosen body part loses its rsid attributes at Deep and Paranoid, and is untouched at Basic |
| OfficeCleaning.RewriteKeepsOthers | cleaners/office_cleaner.py:200-206 | every other part is repackaged with identical content |
| OfficeCleaning.RewriteManifest | cleaners/office_cleaner.py:97 | the manifest is edited at every level, Basic included; without one, none is added |
| OfficeCleaning.RewriteArchive | cleaners/office_cleaner.py:74-97 | the steps in the scratch directory compute the rewritten part map |
| OfficeCleaning.DeepCleanReportsNothing | cleaners/office_cleaner.py:75-100 | after a Deep or Paranoid clean, reading the output back reports no metadata |
| OfficeCleaning.OfficeCleaner.constructor | cleaners/office_cleaner.py:20-21 | an Office cleaner at the given level with an empty state |
| OfficeCleaning.OfficeCleaner.Clean | cleaners/office_cleaner.py:56-107 | the report is the input's metadata; success exactly when the input exists, is a zip and the output can be written; the output is the rewritten archive; a failure is one `Failed to clean Office document` error and writes nothing |
| TextCleaning.StripInfoDeletes | cleaners/text_cleaner.py:75 | removing `\info{...}` groups only deletes characters, and changes nothing when there is none |
| TextCleaning.StripInfoGroup | cleaners/text_cleaner.py:75 | a `\info{...}` group is removed whole, from `\info{` to its first `}` |
| TextCleaning.StripControlSpan | cleaners/text_cleaner.py:78-93 | a field word is removed together with the text after it, up to the next backslash or `}` |
| TextCleaning.StripControlDeletes | cleaners/text_cleaner.py:92-93 | each field substitution only deletes characters, and changes nothing when the word is absent |
| TextCleaning.StripControlNoNew | cleaners/text_cleaner.py:92-93 | a substitution never creates an occurrence of another control word |
| TextCleaning.StripControlRemoves | cleaners/text_cleaner.py:92-93 | after its own substitution a control word no longer occurs |
| TextCleaning.ScrubFieldsRemoves | cleaners/text_cleaner.py:78-93 | after the loop none of the words occurs, and the text is a deletion of the input |
| TextCleaning.FieldsAreControlWords | cleaners/text_cleaner.py:78-90 | each of the eleven patterns is a backslash word |
| TextCleaning.ScrubRtfClean | cleaners/text_cleaner.py:75-93 | the cleaned RTF is a deletion of the input and contains none of the eleven control words |
| TextCleaning.TitlePrefixQuirk | cleaners/text_cleaner.py:88 | `\title` also removes `\titlepg` |
| TextCleaning.CleanRtfText | cleaners/text_cleaner.py:74-93 | the substitution loop computes the clean text |
| TextCleaning.ExtractMetadata | cleaners/text_cleaner.py:19-42 | empty unless the file is RTF and exists; otherwise each of the four fields is `Present` exactly when its word occurs in the first 1000 characters |
| TextCleaning.TextCleaner.constructor | cleaners/text_cleaner.py:16-17 | a text cleaner at the given level with an empty state |
| TextCleaning.TextCleaner.CleanRtf | cleaners/text_cleaner.py:65-104 | succeeds exactly when the input exists and the output can be written; the output holds the cleaned text; a failure is one `Failed to clean RTF` error |
| TextCleaning.TextCleaner.Clean | cleaners/text_cleaner.py:44-63 | the report is the RTF detection; RTF goes through `_clean_rtf`; a plain file is copied when the paths differ, and otherwise succeeds with nothing written; a failure is one error and writes nothing; nothing depends on the level |
| Orchestrator.CleanerFor | core/cleaner.py:235-253 | every type but UNKNOWN gets a cleaner; documents go to the PDF, Office or text cleaner, and each other family to its own |
| Orchestrator.SlotOf | core/cleaner.py:117-125 | a supported file always has a cleaner, so the `No cleaner available` branch cannot be taken |
| Orchestrator.SupportedIn | core/cleaner.py:181-182 | there are no more supported files than files found, so `skipped` (core/cleaner.py:198) is never negative |
| Orchestrator.Enumerate | core/cleaner.py:187-191 | a listing holds each found file exactly once |
| Orchestrator.MetadataCleaner.constructor | core/cleaner.py:26-55 | the settings are stored, and there is one fresh cleaner per slot, all at the same level |
| Orchestrator.MetadataCleaner.Dispatch | core/cleaner.py:128 | the chosen cleaner writes only the output path; it succeeds exactly when it records no error, records at most one error, and leaves no warning |
| Orchestrator.MetadataCleaner.Process | core/cleaner.py:128-138 | the verification warning is added exactly when `verify` is on, the clean succeeded and the output is missing or empty; it never changes `success` |
| Orchestrator.MetadataCleaner.CleanAdmitted | core/cleaner.py:97-152 | a failed backup gives one `Failed to create backup` error and no cleaning; otherwise the result carries the cleaner's report and messages, the sizes, the hashes only when `verify` is on, and the backup path |
| Orchestrator.MetadataCleaner.CleanFile | core/cleaner.py:57-152 | a missing file gives the `File not found` result, and an unsupported one the `Unsupported file type` result with its real size; neither backs up or writes anything. A backup failure, then dispatch and verification, follow in that order. The output defaults to the input. Success holds exactly when there is no error |
| Orchestrator.MetadataCleaner.CleanInto | core/cleaner.py:227-229 | one result is appended and counted, the batch stays consistent, and an unsupported path gets the "File not found" or "Unsupported file type" rejection |
| Orchestrator.MetadataCleaner.CleanFiles | core/cleaner.py:202-233 | one result per path, in path order, each failure explained by an error; the results satisfy `RejectsUnsupported`, which by `Orchestrator.RejectsUnsupportedPath` makes the result of every unsupported path a rejection with its exact error; `total_files == len(paths)`, `skipped == 0`, and the counters agree with the results |
| Orchestrator.RejectsUnsupportedPath | core/cleaner.py:78-95 | in a batch's results, the result at an unsupported path's position is a rejection: failed, with no output size, report or backup, and its one error names the missing file or the suffix |
| Orchestrator.MetadataCleaner.CleanFolder | core/cleaner.py:154-200 | a missing folder gives the all-zero batch; otherwise each supported file is cleaned once, `total_files` is their number, and `skipped` is the number of the others, never negative |
| Orchestrator.SharedResults | core/cleaner.py:140-152 | as written: an earlier result shares the cleaner's objects, so a second clean empties its report and replaces its messages |

## Left out

- The PDF, image, audio and video cleaners' work happens inside pikepdf, Pillow/exiftool, mutagen and ffmpeg. It is a parameter (`ToolOutcome`), and so is their metadata extraction. exiftool rewriting the input file in place is not modelled.
- ExternalCleaners.ExternalCleaner.Clean: at Deep and Paranoid the audio cleaner calls `audio.delete()` on the input file (cleaners/audio_cleaner.py:85), which strips the input's tags on disk even when the output is another file. The model writes only the output.
- ExternalCleaners.ExternalCleaner.Clean: the video cleaner runs ffmpeg with `-y` (cleaners/video_cleaner.py:87), so a failed run may already have created or truncated the output. The model promises that a failure leaves every file as it was, which holds for the PDF cleaner only.
- ExternalCleaners.ExternalCleaner.Clean: when `pikepdf.open` raises (cleaners/pdf_cleaner.py:63-65), the PDF cleaner keeps the dictionary `reset` cleared. The model always binds a new dictionary holding what the library parameter reports, so which object holds the report is not modelled in that case.
- The constructors of the PDF, image and video cleaners may fail when a library or ffmpeg is missing. That is not modelled.
- The SHA-256 chunk loop of `calculate_file_hash` is the `hash` parameter of `MetadataCleaner`.
- Zip and XML reading and writing form the `Codec` parameter. Part order, directory entries, compression and the XML declaration are not modelled. An XML part is the flat pre-order list of its elements.
- Only direct children of the manifest root can be removed. A nested Override makes `root.remove` fail, and then the manifest is kept. Subtrees under an Override are not modelled.
- Clocks are left out. The backup timestamp, the creation time of a result and the processing time are the `Clock` parameter, and one `Clock` serves a whole batch. `total_time` is a parameter.
- The thread pool of `clean_files` and `clean_folder` is not modelled. The model cleans the files in order; `Results.FoldPermutation` shows the counters are the same in any completion order. An exception escaping `clean_file` aborts the batch in the source; the model's `clean_file` raises none.
- `Orchestrator.MetadataCleaner.CleanFolder`: which files a folder yields, and in what order, is chosen by the model (`Enumerate`), not by the operating system's glob order.
- Floats are not modelled. Sizes and counts are unbounded integers. Percentages and rates are exact reals, and the rounding in `to_dict` is not modelled.
- Text is not decoded. Contents are character strings standing for bytes: UTF-8 decoding with `errors='ignore'` is not modelled. `lower()`, `\s` and `\w` act on ASCII only: `\s` and `str.strip` cover the six usual blanks and the separators 0x1C to 0x1F, but no non-ASCII whitespace.
- TextCleaning.StripInfoDeletes: states only that characters are deleted. That a `\info{...}` group is removed is the separate lemma `TextCleaning.StripInfoGroup`.
- OfficeCleaning.AttrMatch: its own contract only bounds the match. What a match is, in both directions, is `OfficeCleaning.AttrMatchSound` and `OfficeCleaning.AttrMatchFinds`.
- OfficeCleaning.StripAttrDeletes: states only that characters are deleted. That an attribute is removed is `OfficeCleaning.StripAttrRemoves`.
- OfficeCleaning.RemoveRsidDeletes: states only that characters are deleted. That an rsid attribute is removed is `OfficeCleaning.RemoveRsidRemoves`.
- The removal of rsid attributes is not promised to leave none behind. Like `re.sub`, each pass scans once, and removing one attribute can join the text around it into a new match. For example, ` w:rsid w:rsidA="1"B="2"` becomes ` w:rsidB="2"`.
- A directory passed to `clean_file` is not modelled. A path names a file or nothing, and file metadata such as timestamps (kept by `copy2`) is not modelled.
- `ensure_directory` is the file system's `MakeDirs`, which `create_backup` also uses.
- Logging, the command line, the web interface and packaging are not part of this model.

## Findings

| source | as written | input that shows it | evidently intended | confidence | as-written member | corrected member |
|---|---|---|---|---|---|---|
| core/cleaner.py:140-152 | the result holds the cleaner's own `metadata_removed`, `errors` and `warnings` objects, which the next `clean` of that cleaner resets in place | two `clean_file` calls on two files of the same type: after the second, the first result's report is empty and its messages are those of the second call | each result keeps copies of the report and messages of its own call | not executed | Orchestrator.SharedResults | Orchestrator.MetadataCleaner.CleanFile |
