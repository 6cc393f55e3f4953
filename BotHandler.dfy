/**
 * The image handler (`handle_image`): which uploads are analysed, when a
 * HEIC conversion is attempted, and the replies sent, in order. Telegram
 * calls, the download, the HEIC transcode and the local copy of the file are
 * not modelled: the handler is given what they came to.
 */
module BotHandler {
  import opened Wrappers
  import opened Text
  import opened Metadata
  import opened ImageSearch
  import opened SearchResults

  /** One size of a Telegram photo; the last one in a message is the largest. */
  datatype PhotoSize = PhotoSize(fileUniqueId: string)

  /** A Telegram document; Telegram may leave out its file name and MIME type. */
  datatype Document = Document(fileName: Option<string>, mimeType: Option<string>)

  datatype Message = Message(photo: seq<PhotoSize>, document: Option<Document>)

  /** How the handler takes an incoming message. */
  datatype Intake =
    | Accepted(fileName: Option<string>, mimeType: string)
    | Rejected
    | NoMimeType    // `document.mime_type.startswith(...)` raises on a missing MIME type

  /** The photo / image-document / rejection branches of `handle_image`. */
  function Classify(m: Message): (r: Intake)
    ensures r.Accepted? <==>
      |m.photo| > 0 ||
      (m.document.Some? && m.document.value.mimeType.Some? && StartsWith(m.document.value.mimeType.value, "image/"))
    ensures r.Accepted? ==> StartsWith(r.mimeType, "image/")
    ensures |m.photo| > 0 ==>
      r == Accepted(Some(m.photo[|m.photo| - 1].fileUniqueId + ".jpg"), "image/jpeg")
    ensures r.Accepted? && |m.photo| == 0 ==>
      r.fileName == m.document.value.fileName && Some(r.mimeType) == m.document.value.mimeType
  {
    if |m.photo| > 0 then
      Accepted(Some(m.photo[|m.photo| - 1].fileUniqueId + ".jpg"), "image/jpeg")
    else if m.document.None? then
      Rejected
    else if m.document.value.mimeType.None? then
      NoMimeType
    else if StartsWith(m.document.value.mimeType.value, "image/") then
      Accepted(m.document.value.fileName, m.document.value.mimeType.value)
    else
      Rejected
  }

  /** `filename.lower().endswith(".heic") or mimetype == "image/heic"`. */
  predicate NeedsHeicConversion(fileName: string, mimeType: string)
  {
    EndsWith(Lower(fileName), ".heic") || mimeType == "image/heic"
  }

  /** The file name ends in `.heic` in any mix of upper and lower case. */
  predicate HasHeicExtension(fileName: string)
  {
    var n := |fileName|;
    n >= 5 && fileName[n - 5] == '.' &&
    fileName[n - 4] in "hH" && fileName[n - 3] in "eE" && fileName[n - 2] in "iI" && fileName[n - 1] in "cC"
  }

  /** What the HEIC to JPEG transcode came to. */
  datatype Conversion = Converted | ConversionFailed(error: string)

  const REJECTION := "That doesn’t look like an image I can analyze."
  const HEIC_DETECTED := ".HEIC file detected. Trying to convert..."
  const HEIC_CONVERTED := "Converted HEIC to JPEG."
  const SEARCHING := "Running reverse image search on Yandex, Bing, and Google..."

  function HeicFailure(error: string): string
  {
    "Failed to convert HEIC: " + error
  }

  function MetadataReply(report: string): string
  {
    "Metadata:\n" + report
  }

  /** The results reply for some order Google's links may come out in. */
  ghost predicate IsResultsReply(reply: string, yandex: Browser, bing: Browser, google: Browser)
  {
    exists g :: GoogleOutcomeAcceptable(google, g) &&
      reply == Unlines(ReplyLines(EngineLinks("Yandex", YandexOutcome(yandex)),
                                  EngineLinks("Bing", BingOutcome(bing)),
                                  EngineLinks("Google", g)))
  }

  /** The metadata reply, the "searching" notice and the results reply, in that order. */
  ghost predicate AnalysisReplies(sent: seq<string>, exif: ExifStage, hachoir: HachoirStage, fmt: Formatter,
                                  yandex: Browser, bing: Browser, google: Browser)
  {
    && |sent| == 3
    && sent[0] == MetadataReply(Render(ExifLines(exif, fmt) + HachoirLines(hachoir)))
    && sent[1] == SEARCHING
    && IsResultsReply(sent[2], yandex, bing, google)
  }

  /**
   * `handle_image`: the replies it sends, in order, and whether it ended in
   * an exception (`crashed`). `saveError` is what writing the local copy
   * into the temporary directory raised, if anything. The EXIF and hachoir
   * stages describe the bytes after any conversion.
   */
  method HandleImage(m: Message, conversion: Conversion, saveError: Option<string>,
                     exif: ExifStage, hachoir: HachoirStage, fmt: Formatter,
                     yandex: Browser, bing: Browser, google: Browser)
    returns (replies: seq<string>, crashed: bool)
    ensures Classify(m).Rejected? ==> replies == [REJECTION] && !crashed
    ensures Classify(m).NoMimeType? ==> replies == [] && crashed
    ensures Classify(m).Accepted? && Classify(m).fileName.None? ==> replies == [] && crashed
    ensures Classify(m).Accepted? && Classify(m).fileName.Some? ==>
      var heic := NeedsHeicConversion(Classify(m).fileName.value, Classify(m).mimeType);
      var before := if heic then [HEIC_DETECTED, HEIC_CONVERTED] else [];
      if heic && conversion.ConversionFailed? then
        replies == [HEIC_DETECTED, HeicFailure(conversion.error)] && !crashed
      else if saveError.Some? then
        replies == before && crashed
      else
        && !crashed
        && |replies| >= |before|
        && replies[..|before|] == before
        && AnalysisReplies(replies[|before|..], exif, hachoir, fmt, yandex, bing, google)
  {
    replies, crashed := [], false;
    var intake := Classify(m);
    if intake.Rejected? {
      replies := replies + [REJECTION];
      return;
    }
    if intake.NoMimeType? {
      crashed := true;
      return;
    }
    if intake.fileName.None? {
      // `filename.lower()` raises on a document without a file name
      crashed := true;
      return;
    }
    var fileName, mimeType := intake.fileName.value, intake.mimeType;
    if NeedsHeicConversion(fileName, mimeType) {
      replies := replies + [HEIC_DETECTED];
      if conversion.ConversionFailed? {
        replies := replies + [HeicFailure(conversion.error)];
        return;
      }
      replies := replies + [HEIC_CONVERTED];
    }
    if saveError.Some? {
      // `open(local_path, "wb")` or the write raised
      crashed := true;
      return;
    }
    ghost var before := replies;
    var sent := ReportAndSearch(exif, hachoir, fmt, yandex, bing, google);
    replies := replies + sent;
    assert replies[..|before|] == before && replies[|before|..] == sent;
  }

  /**
   * The second half of `handle_image`, once the local copy is saved: the
   * metadata reply, the "searching" notice, the three searches and the
   * results reply.
   */
  method ReportAndSearch(exif: ExifStage, hachoir: HachoirStage, fmt: Formatter,
                         yandex: Browser, bing: Browser, google: Browser)
    returns (sent: seq<string>)
    ensures AnalysisReplies(sent, exif, hachoir, fmt, yandex, bing, google)
  {
    sent := [];
    var report := ExtractMetadata(exif, hachoir, fmt);
    sent := sent + [MetadataReply(report)];
    sent := sent + [SEARCHING];
    var yandexLinks, bingLinks, googleLinks := RunSearches(yandex, bing, google);
    var reply := BuildReply(yandexLinks, bingLinks, googleLinks);
    ghost var g :| GoogleOutcomeAcceptable(google, g) && googleLinks == EngineLinks("Google", g);
    assert IsResultsReply(reply, yandex, bing, google);
    sent := sent + [reply];
  }

  // ---------------------------------------------------------------------
  // Lemmas

  /** The lower-cased name ends in `.heic` exactly when the name ends in `.heic` in any case. */
  lemma HeicIgnoresCase(fileName: string, mimeType: string)
    ensures NeedsHeicConversion(fileName, mimeType) <==> HasHeicExtension(fileName) || mimeType == "image/heic"
  {
    var low := Lower(fileName);
    var n := |fileName|;
    if n >= 5 {
      if HasHeicExtension(fileName) {
        assert low[n - 5..] == ".heic";
      }
      if EndsWith(low, ".heic") {
        assert low[n - 5..][0] == '.' && low[n - 5..][1] == 'h' && low[n - 5..][2] == 'e';
        assert low[n - 5..][3] == 'i' && low[n - 5..][4] == 'c';
      }
    }
  }

  /** A photo upload is named `<id>.jpg` with type `image/jpeg`, so it is never converted. */
  lemma PhotoNeverConverted(m: Message)
    requires |m.photo| > 0
    ensures Classify(m).Accepted? && Classify(m).fileName.Some?
    ensures !NeedsHeicConversion(Classify(m).fileName.value, Classify(m).mimeType)
  {
    var name := Classify(m).fileName.value;
    HeicIgnoresCase(name, "image/jpeg");
    assert name[|name| - 4] == '.';
  }
}
