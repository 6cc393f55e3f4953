/**
 * The metadata report (`extract_metadata`): two independent stages append
 * lines to `results` (EXIF/GPS first, then hachoir), and the lines are
 * newline-joined, with a placeholder when there are none. PIL, piexif and
 * hachoir are not modelled: each stage is given by what its library calls
 * came to.
 */
module Metadata {
  import opened Wrappers
  import opened Text
  import opened Gps

  /** What opening the image and loading its EXIF block came to. */
  datatype ExifStage =
    | OpenFailed(error: string)      // Image.open raised
    | NoExif                         // img.info has no, or an empty, 'exif' entry
    | LoadFailed(error: string)      // piexif.load raised
    | Loaded(exif: ExifData)

  /** What the hachoir pass came to. */
  datatype HachoirStage =
    | CreateFailed(error: string)    // NamedTemporaryFile raised: no file was made
    | WriteFailed(error: string)     // the file was made, writing the bytes raised
    | NoParser                       // createParser returned None
    | NoMetadata                     // extractMetadata returned nothing
    | ParseFailed(error: string)     // after the write: closing the file, createParser, extractMetadata or exportPlaintext raised
    | Plaintext(items: seq<string>)  // metadata.exportPlaintext()

  const PLACEHOLDER := "No metadata extracted."
  const NO_PARSER_LINE := "Unable to parse file with hachoir."
  const NO_METADATA_LINE := "No metadata found with hachoir."

  /** `f"{x:.6f}"`: floating-point formatting is supplied by the caller. */
  type Formatter = real -> string

  function GpsLine(lat: real, lon: real, fmt: Formatter): string
  {
    "📍 GPS Location: " + fmt(lat) + ", " + fmt(lon)
  }

  function MapLine(lat: real, lon: real, fmt: Formatter): string
  {
    "🌍 View on Map: https://maps.google.com/?q=" + fmt(lat) + "," + fmt(lon)
  }

  function PiexifErrorLine(error: string): string
  {
    "⚠️ piexif error: " + error
  }

  function HachoirErrorLine(error: string): string
  {
    "⚠️ hachoir error: " + error
  }

  /** `item.replace("- ", "")`. */
  function StripBullet(item: string): string
  {
    Replace(item, "- ", "")
  }

  /** The lines the EXIF stage appends. */
  function ExifLines(stage: ExifStage, fmt: Formatter): seq<string>
  {
    match stage
    case OpenFailed(e) => [PiexifErrorLine(e)]
    case LoadFailed(e) => [PiexifErrorLine(e)]
    case NoExif => []
    case Loaded(exif) =>
      match ExtractGpsInfo(exif)
      case None => []
      case Some((lat, lon)) => [GpsLine(lat, lon, fmt), MapLine(lat, lon, fmt)]
  }

  /** The lines the hachoir stage appends. */
  function HachoirLines(stage: HachoirStage): seq<string>
  {
    match stage
    case CreateFailed(e) => [HachoirErrorLine(e)]
    case WriteFailed(e) => [HachoirErrorLine(e)]
    case ParseFailed(e) => [HachoirErrorLine(e)]
    case NoParser => [NO_PARSER_LINE]
    case NoMetadata => [NO_METADATA_LINE]
    case Plaintext(items) => seq(|items|, i requires 0 <= i < |items| => StripBullet(items[i]))
  }

  /** `"\n".join(results) if results else "No metadata extracted."` */
  function Render(lines: seq<string>): string
  {
    if |lines| > 0 then Join(lines, "\n") else PLACEHOLDER
  }

  /**
   * The hachoir stage with its temporary file, as written: the file name is
   * recorded only after the bytes are written, so the `finally` clause cannot
   * remove a file whose write raised.
   */
  method HachoirPassAsWritten(stage: HachoirStage) returns (lines: seq<string>, ghost leftOnDisk: bool)
    ensures lines == HachoirLines(stage)
    ensures leftOnDisk <==> stage.WriteFailed?
  {
    ghost var onDisk := false;
    var pathKnown := false;
    match stage {
      case CreateFailed(e) =>
        lines := [HachoirErrorLine(e)];
      case WriteFailed(e) =>
        onDisk := true;
        lines := [HachoirErrorLine(e)];
      case _ =>
        onDisk := true;
        pathKnown := true;
        lines := HachoirOutcome(stage);
    }
    // finally: remove the file when its path is known
    if pathKnown && onDisk {
      onDisk := false;
    }
    leftOnDisk := onDisk;
  }

  /**
   * The hachoir stage with the file name recorded as soon as the file
   * exists, so that every exit path removes it.
   */
  method HachoirPass(stage: HachoirStage) returns (lines: seq<string>, ghost leftOnDisk: bool)
    ensures lines == HachoirLines(stage)
    ensures !leftOnDisk
  {
    ghost var onDisk := false;
    var pathKnown := false;
    match stage {
      case CreateFailed(e) =>
        lines := [HachoirErrorLine(e)];
      case WriteFailed(e) =>
        onDisk := true;
        pathKnown := true;
        lines := [HachoirErrorLine(e)];
      case _ =>
        onDisk := true;
        pathKnown := true;
        lines := HachoirOutcome(stage);
    }
    // finally: remove the file when its path is known
    if pathKnown && onDisk {
      onDisk := false;
    }
    leftOnDisk := onDisk;
  }

  /** The lines of a hachoir pass whose temporary file was written. */
  function HachoirOutcome(stage: HachoirStage): seq<string>
    requires !stage.CreateFailed? && !stage.WriteFailed?
  {
    match stage
    case NoParser => [NO_PARSER_LINE]
    case NoMetadata => [NO_METADATA_LINE]
    case ParseFailed(e) => [HachoirErrorLine(e)]
    case Plaintext(items) => seq(|items|, i requires 0 <= i < |items| => StripBullet(items[i]))
  }

  /**
   * `extract_metadata(image_bytes)`: the EXIF stage, then the hachoir stage,
   * then the join. The hachoir stage is the corrected `HachoirPass`; the
   * as-written `HachoirPassAsWritten` yields the same lines and differs only
   * in the temporary file it may leave behind.
   */
  method ExtractMetadata(exif: ExifStage, hachoir: HachoirStage, fmt: Formatter) returns (report: string)
    ensures report == Render(ExifLines(exif, fmt) + HachoirLines(hachoir))
  {
    var results: seq<string> := [];
    match exif {
      case OpenFailed(e) =>
        results := results + [PiexifErrorLine(e)];
      case LoadFailed(e) =>
        results := results + [PiexifErrorLine(e)];
      case NoExif =>
      case Loaded(data) =>
        var gps := ExtractGpsInfo(data);
        if gps.Some? {
          var (lat, lon) := gps.value;
          results := results + [GpsLine(lat, lon, fmt)];
          results := results + [MapLine(lat, lon, fmt)];
        }
    }
    assert results == ExifLines(exif, fmt);
    var lines, _ := HachoirPass(hachoir);
    results := results + lines;
    report := if |results| > 0 then Join(results, "\n") else PLACEHOLDER;
  }

  // ---------------------------------------------------------------------
  // Lemmas

  /** The EXIF stage adds the two GPS lines exactly when the GPS block is usable. */
  lemma GpsLinesExactlyWhenUsable(stage: ExifStage, fmt: Formatter)
    ensures |ExifLines(stage, fmt)| <= 2
    ensures |ExifLines(stage, fmt)| == 2 <==> stage.Loaded? && HasUsableGps(stage.exif)
    ensures |ExifLines(stage, fmt)| == 2 ==>
      var (lat, lon) := ExtractGpsInfo(stage.exif).value;
      ExifLines(stage, fmt) == [GpsLine(lat, lon, fmt), MapLine(lat, lon, fmt)]
    ensures |ExifLines(stage, fmt)| == 1 <==> stage.OpenFailed? || stage.LoadFailed?
  {
    if stage.Loaded? {
      NoneExactlyWhenUnusable(stage.exif);
    }
  }

  /** The hachoir stage adds one line per plaintext item, or exactly one line. */
  lemma HachoirContribution(stage: HachoirStage)
    ensures stage.Plaintext? ==>
              && |HachoirLines(stage)| == |stage.items|
              && forall i :: 0 <= i < |stage.items| ==> HachoirLines(stage)[i] == StripBullet(stage.items[i])
    ensures !stage.Plaintext? ==> |HachoirLines(stage)| == 1
  {
  }

  /** Stripping bullets never lengthens an item, and leaves an item without "- " unchanged. */
  lemma StripBulletShrinks(item: string)
    ensures |StripBullet(item)| <= |item|
    ensures !Contains(item, "- ") ==> StripBullet(item) == item
  {
    DeleteShrinks(item, "- ");
    if !Contains(item, "- ") {
      ReplaceAbsent(item, "- ", "");
    }
  }

  /**
   * The report is the placeholder exactly when no line was collected, or the
   * only line collected is the placeholder text itself.
   */
  lemma PlaceholderExactlyWhenNoLines(lines: seq<string>)
    ensures Render(lines) == PLACEHOLDER <==> lines == [] || lines == [PLACEHOLDER]
  {
    if |lines| >= 2 {
      JoinHasSeparator(lines, '\n');
      assert '\n' !in PLACEHOLDER;
    }
  }

  /** The report is empty exactly when the one line collected is empty (a hachoir item "- "). */
  lemma ReportNonEmpty(lines: seq<string>)
    ensures Render(lines) == "" <==> lines == [""]
  {
    if |lines| >= 2 {
      JoinHasSeparator(lines, '\n');
    }
  }

  /** Splitting a report of one-line entries at newlines gives the collected lines back, in order. */
  lemma ReportSplitsIntoLines(lines: seq<string>)
    requires |lines| >= 1
    requires forall k :: 0 <= k < |lines| ==> '\n' !in lines[k]
    ensures Split(Render(lines), '\n') == lines
  {
    SplitJoin(lines, '\n');
  }

  /** The GPS lines, when there are any, come before every hachoir line. */
  lemma GpsBeforeHachoir(exif: ExifStage, hachoir: HachoirStage, fmt: Formatter)
    requires exif.Loaded? && HasUsableGps(exif.exif)
    ensures var lines := ExifLines(exif, fmt) + HachoirLines(hachoir);
      var (lat, lon) := ExtractGpsInfo(exif.exif).value;
      lines[0] == GpsLine(lat, lon, fmt) && lines[1] == MapLine(lat, lon, fmt) &&
      lines[2..] == HachoirLines(hachoir)
  {
    GpsLinesExactlyWhenUsable(exif, fmt);
  }
}
