/**
  Cleaning levels and file types (core/enums.py): the extension table, its
  case- and dot-insensitive lookup and the four media families.
*/
module Enums {
  import opened Strings

  /** How thoroughly a file is cleaned, from least to most. */
  datatype CleaningLevel = Basic | Deep | Paranoid

  datatype FileType =
    | PDF | DOCX | XLSX | PPTX | ODT | ODS | ODP | RTF | TXT
    | JPEG | JPG | PNG | TIFF | TIF | GIF | BMP | WEBP
    | MP3 | FLAC | WAV | M4A | OGG
    | MP4 | AVI | MKV | MOV | WMV
    | UNKNOWN

  /** The value each member carries in the enumeration. */
  function Value(t: FileType): string {
    match t
    case PDF => "pdf"
    case DOCX => "docx"
    case XLSX => "xlsx"
    case PPTX => "pptx"
    case ODT => "odt"
    case ODS => "ods"
    case ODP => "odp"
    case RTF => "rtf"
    case TXT => "txt"
    case JPEG => "jpeg"
    case JPG => "jpg"
    case PNG => "png"
    case TIFF => "tiff"
    case TIF => "tif"
    case GIF => "gif"
    case BMP => "bmp"
    case WEBP => "webp"
    case MP3 => "mp3"
    case FLAC => "flac"
    case WAV => "wav"
    case M4A => "m4a"
    case OGG => "ogg"
    case MP4 => "mp4"
    case AVI => "avi"
    case MKV => "mkv"
    case MOV => "mov"
    case WMV => "wmv"
    case UNKNOWN => "unknown"
  }

  /** The members in declaration order, the order `for file_type in cls` visits them. */
  const Members: seq<FileType> := [
    PDF, DOCX, XLSX, PPTX, ODT, ODS, ODP, RTF, TXT,
    JPEG, JPG, PNG, TIFF, TIF, GIF, BMP, WEBP,
    MP3, FLAC, WAV, M4A, OGG,
    MP4, AVI, MKV, MOV, WMV,
    UNKNOWN
  ]

  /** `s.lstrip('.')`. */
  function StripLeadingDots(s: string): (r: string)
    ensures r == [] || r[0] != '.'
    decreases |s|
  {
    if |s| > 0 && s[0] == '.' then StripLeadingDots(s[1..]) else s
  }

  /** `ext.lower().lstrip('.')`. */
  function Normalize(ext: string): string {
    StripLeadingDots(ToLower(ext))
  }

  /** The first member of `table` whose value is `e`, else UNKNOWN. */
  function Search(table: seq<FileType>, e: string): FileType
    decreases |table|
  {
    if |table| == 0 then UNKNOWN
    else if Value(table[0]) == e then table[0]
    else Search(table[1..], e)
  }

  /** `FileType.from_extension`. */
  function FromExtension(ext: string): FileType {
    Search(Members, Normalize(ext))
  }

  predicate IsDocument(t: FileType) {
    t in {PDF, DOCX, XLSX, PPTX, ODT, ODS, ODP, RTF, TXT}
  }

  predicate IsImage(t: FileType) {
    t in {JPEG, JPG, PNG, TIFF, TIF, GIF, BMP, WEBP}
  }

  predicate IsAudio(t: FileType) {
    t in {MP3, FLAC, WAV, M4A, OGG}
  }

  predicate IsVideo(t: FileType) {
    t in {MP4, AVI, MKV, MOV, WMV}
  }

  // ---------------------------------------------------------------------
  // Properties of the table and the lookup
  // ---------------------------------------------------------------------

  lemma {:induction false} SearchFinds(table: seq<FileType>, i: nat, e: string)
    requires i < |table| && Value(table[i]) == e
    requires forall j :: 0 <= j < i ==> Value(table[j]) != e
    ensures Search(table, e) == table[i]
    decreases i
  {
    if i > 0 {
      SearchFinds(table[1..], i - 1, e);
    }
  }

  /** A value that belongs to no member is found nowhere. */
  lemma {:induction false} SearchMissesAll(table: seq<FileType>, e: string)
    requires forall t: FileType :: Value(t) != e
    ensures Search(table, e) == UNKNOWN
    decreases |table|
  {
    if |table| > 0 {
      SearchMissesAll(table[1..], e);
    }
  }

  lemma {:induction false} SearchResult(table: seq<FileType>, e: string)
    ensures Search(table, e) == UNKNOWN || (Search(table, e) in table && Value(Search(table, e)) == e)
    decreases |table|
  {
    if |table| > 0 && Value(table[0]) != e {
      SearchResult(table[1..], e);
    }
  }

  /** The position of each member in the table. */
  function Position(t: FileType): nat {
    match t
    case PDF => 0
    case DOCX => 1
    case XLSX => 2
    case PPTX => 3
    case ODT => 4
    case ODS => 5
    case ODP => 6
    case RTF => 7
    case TXT => 8
    case JPEG => 9
    case JPG => 10
    case PNG => 11
    case TIFF => 12
    case TIF => 13
    case GIF => 14
    case BMP => 15
    case WEBP => 16
    case MP3 => 17
    case FLAC => 18
    case WAV => 19
    case M4A => 20
    case OGG => 21
    case MP4 => 22
    case AVI => 23
    case MKV => 24
    case MOV => 25
    case WMV => 26
    case UNKNOWN => 27
  }

  lemma PositionCorrect(t: FileType)
    ensures Position(t) < |Members| && Members[Position(t)] == t
  {
  }

  lemma PositionUnique(j: nat)
    requires j < |Members|
    ensures Position(Members[j]) == j
  {
  }

  lemma ValueInjective(t: FileType, u: FileType)
    requires Value(t) == Value(u)
    ensures t == u
  {
  }

  /** A normalised extension that is some member's value selects that member. */
  lemma {:induction false} SearchValue(t: FileType)
    ensures Search(Members, Value(t)) == t
  {
    var i := Position(t);
    PositionCorrect(t);
    forall j | 0 <= j < i
      ensures Value(Members[j]) != Value(t)
    {
      if Value(Members[j]) == Value(t) {
        ValueInjective(Members[j], t);
        PositionUnique(j);
      }
    }
    SearchFinds(Members, i, Value(t));
  }

  /** Round trip: `from_extension(t.value) == t` for every member. */
  lemma {:induction false} FromExtensionValue(t: FileType)
    ensures FromExtension(Value(t)) == t
  {
    ToLowerNoUpper(Value(t));
    assert Normalize(Value(t)) == Value(t);
    SearchValue(t);
  }

  lemma {:induction false} StripLeadingDotsPrefix(s: string)
    ensures StripLeadingDots("." + s) == StripLeadingDots(s)
  {
    assert ("." + s)[1..] == s;
  }

  lemma {:induction false} StripLeadingDotsIdempotent(s: string)
    ensures StripLeadingDots(StripLeadingDots(s)) == StripLeadingDots(s)
  {
  }

  /** `from_extension` ignores a leading dot and the case of the extension. */
  lemma {:induction false} FromExtensionInsensitive(ext: string)
    ensures FromExtension("." + ext) == FromExtension(ext)
    ensures FromExtension(ToLower(ext)) == FromExtension(ext)
  {
    ToLowerConcat(".", ext);
    assert ToLower(".") == ".";
    StripLeadingDotsPrefix(ToLower(ext));
    ToLowerNoUpper(ext);
    ToLowerNoUpper(ToLower(ext));
  }

  /** Normalising twice is normalising once. */
  lemma {:induction false} NormalizeIdempotent(ext: string)
    ensures Normalize(Normalize(ext)) == Normalize(ext)
  {
    var low := ToLower(ext);
    ToLowerNoUpper(ext);
    StripLeadingDotsNoUpper(low);
    ToLowerNoUpper(StripLeadingDots(low));
    StripLeadingDotsIdempotent(low);
  }

  lemma {:induction false} StripLeadingDotsNoUpper(s: string)
    requires NoUpper(s)
    ensures NoUpper(StripLeadingDots(s))
    decreases |s|
  {
    if |s| > 0 && s[0] == '.' {
      StripLeadingDotsNoUpper(s[1..]);
    }
  }

  /** An extension whose normal form is no member's value is UNKNOWN. */
  lemma {:induction false} FromExtensionUnknown(ext: string)
    requires forall t: FileType :: Value(t) != Normalize(ext)
    ensures FromExtension(ext) == UNKNOWN
  {
    SearchMissesAll(Members, Normalize(ext));
  }

  /** Conversely, every known result comes from its own value. */
  lemma {:induction false} FromExtensionKnown(ext: string)
    ensures FromExtension(ext) == UNKNOWN || Value(FromExtension(ext)) == Normalize(ext)
  {
    SearchResult(Members, Normalize(ext));
  }

  /** The four families are pairwise disjoint. */
  lemma FamiliesDisjoint(t: FileType)
    ensures !(IsDocument(t) && IsImage(t)) && !(IsDocument(t) && IsAudio(t))
    ensures !(IsDocument(t) && IsVideo(t)) && !(IsImage(t) && IsAudio(t))
    ensures !(IsImage(t) && IsVideo(t)) && !(IsAudio(t) && IsVideo(t))
  {
  }

  /** Every type but UNKNOWN lies in some family; UNKNOWN lies in none. */
  lemma FamiliesCover(t: FileType)
    ensures t == UNKNOWN <==> !(IsDocument(t) || IsImage(t) || IsAudio(t) || IsVideo(t))
  {
  }

  /** `.ext` selects the member whose value is `ext`. */
  lemma {:induction false} FromDottedValue(t: FileType)
    ensures FromExtension("." + Value(t)) == t
  {
    FromExtensionInsensitive(Value(t));
    FromExtensionValue(t);
  }

  /** The PDF detections the repository's tests assert, plus the upper-case spelling. */
  lemma {:induction false} PdfDetection()
    ensures FromExtension(".pdf") == PDF && FromExtension("pdf") == PDF
    ensures FromExtension(".PDF") == PDF
  {
    var plain, dotted, upper := "pdf", ".pdf", ".PDF";
    assert plain == Value(PDF) && dotted == "." + Value(PDF);
    FromDottedValue(PDF);
    FromExtensionValue(PDF);
    FromExtensionInsensitive(upper);
    assert ToLower(upper) == dotted;
  }

  // The family detections the repository's tests assert, one extension at a time.

  lemma {:induction false} DetectJpg()
    ensures FromExtension(".jpg") == JPG
  {
    var ext := ".jpg";
    assert ext == "." + Value(JPG);
    FromDottedValue(JPG);
  }

  lemma {:induction false} DetectPng()
    ensures FromExtension(".png") == PNG
  {
    var ext := ".png";
    assert ext == "." + Value(PNG);
    FromDottedValue(PNG);
  }

  lemma {:induction false} DetectTiff()
    ensures FromExtension(".tiff") == TIFF
  {
    var ext := ".tiff";
    assert ext == "." + Value(TIFF);
    FromDottedValue(TIFF);
  }

  lemma {:induction false} DetectDocx()
    ensures FromExtension(".docx") == DOCX
  {
    var ext := ".docx";
    assert ext == "." + Value(DOCX);
    FromDottedValue(DOCX);
  }

  lemma {:induction false} DetectXlsx()
    ensures FromExtension(".xlsx") == XLSX
  {
    var ext := ".xlsx";
    assert ext == "." + Value(XLSX);
    FromDottedValue(XLSX);
  }

  lemma {:induction false} DetectPptx()
    ensures FromExtension(".pptx") == PPTX
  {
    var ext := ".pptx";
    assert ext == "." + Value(PPTX);
    FromDottedValue(PPTX);
  }

  lemma {:induction false} DetectMp3()
    ensures FromExtension(".mp3") == MP3
  {
    var ext := ".mp3";
    assert ext == "." + Value(MP3);
    FromDottedValue(MP3);
  }

  lemma {:induction false} DetectFlac()
    ensures FromExtension(".flac") == FLAC
  {
    var ext := ".flac";
    assert ext == "." + Value(FLAC);
    FromDottedValue(FLAC);
  }

  lemma {:induction false} DetectMp4()
    ensures FromExtension(".mp4") == MP4
  {
    var ext := ".mp4";
    assert ext == "." + Value(MP4);
    FromDottedValue(MP4);
  }

  lemma {:induction false} DetectAvi()
    ensures FromExtension(".avi") == AVI
  {
    var ext := ".avi";
    assert ext == "." + Value(AVI);
    FromDottedValue(AVI);
  }

  lemma {:induction false} ImageDetection()
    ensures IsImage(FromExtension(".jpg"))
    ensures IsImage(FromExtension(".png"))
    ensures IsImage(FromExtension(".tiff"))
  {
    DetectJpg();
    DetectPng();
    DetectTiff();
  }

  lemma {:induction false} OfficeDetection()
    ensures IsDocument(FromExtension(".docx"))
    ensures IsDocument(FromExtension(".xlsx"))
    ensures IsDocument(FromExtension(".pptx"))
  {
    DetectDocx();
    DetectXlsx();
    DetectPptx();
  }

  lemma {:induction false} AudioDetection()
    ensures IsAudio(FromExtension(".mp3"))
    ensures IsAudio(FromExtension(".flac"))
  {
    DetectMp3();
    DetectFlac();
  }

  lemma {:induction false} VideoDetection()
    ensures IsVideo(FromExtension(".mp4"))
    ensures IsVideo(FromExtension(".avi"))
  {
    DetectMp4();
    DetectAvi();
  }
}
