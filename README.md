# Image search bot — a verified model of its core

The bot receives an image on Telegram, reports the image's embedded metadata
(GPS position from EXIF, container metadata from hachoir), and runs a reverse
image search on Yandex, Bing and Google through scripted browser sessions,
replying with the result links. This project models the logic around those
library and browser calls in Dafny and proves what it promises:

- `Gps.dfy`: `extract_gps_info` / `convert_to_degrees`. Three rationals become
  decimal degrees over exact reals, signed by the hemisphere reference. Every
  failure becomes `None`.
- `Metadata.dfy`: `extract_metadata`. Two fault-tolerant stages append lines.
  The lines are newline-joined, with a placeholder when there are none. The
  hachoir stage's temporary file is tracked with a ghost flag.
- `UrlCodec.dfy`: the parts of `urllib.parse` the Bing scraper uses:
  `urlparse(...).query`, `parse_qs` and `unquote`. Percent-decoding follows
  section 2.1 of RFC 3986. Query parsing follows section 5.1 of the WHATWG URL
  Standard (application/x-www-form-urlencoded) as `parse_qs` implements it.
- `ImageSearch.dfy`: the three drivers. Yandex filters anchors and keeps the
  first 5. Bing extracts `mediaurl` values in a loop and keeps the first 5.
  Google deduplicates, keeps 3, and falls back to the page URL. Each driver
  turns an exception raised inside its `try` into a one-element error list.
  A failed browser launch (before the `try`) or a failed `driver.quit()` (in
  the `finally`) propagates. `driver.quit()` runs exactly when the browser
  launched, and a ghost out-parameter records that.
- `SearchResults.dfy`: `run_searches` (each engine's failure isolated),
  `format_links` with underscore escaping, and the reply built with `+=`.
- `BotHandler.dfy`: photo / image-document / rejection classification, the
  HEIC test, and the replies `handle_image` sends, in order.
- `Text.dfy`, `Wrappers.dfy`: Python's `join`, `split`, `replace`, `in`,
  slicing and ASCII `lower`, plus `Option`.

The browser is not modelled. A driver is given what launching the browser,
the page run and `driver.quit()` came to. When the run gets as far as
scraping, it is given the page's anchors in document order: each anchor's raw
`href` attribute, the URL `get_attribute("href")` resolves it to, and its
`jsname`. PIL, piexif, hachoir and the HEIC transcode are given by their results.
Float formatting (`:.6f`) is a caller-supplied function.

Facts about the code that the model records:
- `handle_image` sends no acknowledgment before the metadata reply.
- Only the Google driver deduplicates its links.
- The metadata pass does not remove its temporary file on every path (see
  Findings).
- The Bing driver decodes each `mediaurl` value twice (see Findings). Only
  `ImageSearch.BingUrlsAsWritten` keeps that loop as written. The driver,
  `run_searches` and `handle_image` are modelled with the single decode.
- `run_searches` is one executor task that calls the three drivers one after
  another; the worker thread only keeps the event loop free.
- The Yandex and Bing XPath selectors test the `href` attribute as written,
  while `get_attribute("href")` returns the resolved URL. A relative Yandex
  link can therefore pass the "not yandex" selector and be returned as a
  yandex.com URL (`ImageSearch.YandexRelativeLinkKept`).

## Model

| member | source | states |
|---|---|---|
| Gps.ExtractGpsInfo | image_bot.py:38-58 | `extract_gps_info` itself; specified by Gps.NoneExactlyWhenUnusable (when it is `None`) and Gps.HemisphereSigns (the signed values) |
| Gps.Degrees | image_bot.py:44-46 | a value converts exactly when it unpacks into three rationals with non-zero denominators |
| Gps.DegreesAsArcSeconds | image_bot.py:44-46 | the degrees times 3600 are 3600·d + 60·m + s, i.e. d + m/60 + s/3600 |
| Gps.FortyAndAHalf | image_bot.py:44-46 | ((40,1),(30,1),(0,1)) converts to 40.5 |
| Gps.DegreesNonNegative | image_bot.py:44-46 | non-negative numerators over positive denominators give non-negative degrees |
| Gps.NoneExactlyWhenUnusable | image_bot.py:38-58 | `None` exactly when the GPS IFD is missing or empty, a key is missing, a coordinate has the wrong shape, or a denominator is zero |
| Gps.HemisphereSigns | image_bot.py:48-56 | latitude is negated exactly when its reference is not b'N', longitude when not b'E'; with non-negative parts N/E give ≥ 0 and any other reference ≤ 0 |
| Text.Lower | image_bot.py:136 | `lower()` on ASCII: the length is kept, no ASCII capital is left, and a string without one comes back unchanged |
| Metadata.Render | image_bot.py:101 | the newline join with its placeholder; specified by Metadata.PlaceholderExactlyWhenNoLines, Metadata.ReportNonEmpty and Metadata.ReportSplitsIntoLines |
| Metadata.ExtractMetadata | image_bot.py:61-101 | the report is the render of the EXIF lines followed by the hachoir lines |
| Metadata.GpsLinesExactlyWhenUsable | image_bot.py:65-76 | the EXIF stage adds the coordinate and map lines exactly when the GPS block is usable, one error line exactly when opening or loading raised, otherwise nothing |
| Metadata.HachoirContribution | image_bot.py:83-93 | the hachoir stage adds one bullet-stripped line per plaintext item in order, or exactly one line |
| Metadata.StripBulletShrinks | image_bot.py:89 | removing "- " never lengthens an item and leaves an item without "- " unchanged |
| Metadata.PlaceholderExactlyWhenNoLines | image_bot.py:101 | the report is "No metadata extracted." exactly when no line was collected, or the one line is that text |
| Metadata.ReportNonEmpty | image_bot.py:101 | the report is empty exactly when the collected lines are the single empty line |
| Metadata.ReportSplitsIntoLines | image_bot.py:101 | splitting the report at newlines gives back the collected lines, in order |
| Metadata.GpsBeforeHachoir | image_bot.py:71-89 | the coordinate line, then the map line, precede every hachoir line |
| Metadata.HachoirPassAsWritten | image_bot.py:78-99 | as written, the temporary file is left on disk exactly when writing it raised |
| Metadata.HachoirPass | image_bot.py:78-99 | with the path recorded at creation, no exit path leaves the temporary file |
| UrlCodec.PercentDecode | image_search.py:81 | decoding never lengthens a string and keeps a non-empty one non-empty |
| UrlCodec.DecodeEncode | image_search.py:81 | percent-decoding undoes percent-encoding |
| UrlCodec.FormDecodeEncoded | image_search.py:78 | `parse_qs`'s value decoding undoes percent-encoding |
| UrlCodec.QueryOf | image_search.py:77 | the query never contains the fragment |
| UrlCodec.QueryBetweenMarks | image_search.py:77 | for `base?q#f` (base without `?` or `#`, q without `#`) the query is exactly q, with or without a fragment |
| UrlCodec.FieldPair | image_search.py:78 | a field yields at most one pair, and a kept pair has a non-empty value |
| UrlCodec.FieldWithValue | image_search.py:78 | a field `name=value` with a non-empty value yields the one pair of its form-decoded name and value |
| UrlCodec.FieldWithoutEquals | image_search.py:78 | a field without "=" is dropped |
| UrlCodec.FieldWithBlankValue | image_search.py:78 | a field `name=` with an empty value is dropped |
| UrlCodec.QueryPairsOfOne | image_search.py:78 | the pairs of a one-field query are that field's pair, if any |
| UrlCodec.QueryPairsAppend | image_search.py:78 | the pairs of two runs of fields are the pairs of the first run, then those of the second |
| UrlCodec.QueryPairsBounds | image_search.py:78 | there are never more pairs than fields, and every value is non-empty |
| UrlCodec.ParseQsAppend | image_search.py:78 | parsing `a&b` gives the pairs of a followed by those of b |
| UrlCodec.LeadingFieldValue | image_search.py:78-79 | when the first field is `name=value`, the lookup of the decoded name gives the decoded value |
| UrlCodec.FirstValueSkip | image_search.py:79 | pairs in front that do not carry the name do not change the lookup |
| UrlCodec.FirstValue | image_search.py:79 | the result is the value of the first pair with that name, or `None` when there is no such pair |
| ImageSearch.YandexCollected | image_search.py:42-43 | a URL is collected exactly when it is the non-empty resolved href of an anchor whose raw href passes the selector |
| ImageSearch.YandexCollectedAppend | image_search.py:42-43 | collection follows document order |
| ImageSearch.YandexUrls | image_search.py:42-46 | the result is the collected list truncated to 5 (the empty case agrees); each URL is non-empty and resolved from an anchor whose raw href passes the selector |
| ImageSearch.YandexFirstFive | image_search.py:42-46 | the result is the first min(5, n) collected URLs |
| ImageSearch.YandexAbsoluteLinksPassSelector | image_search.py:42-43 | when every raw href is already the absolute URL, each returned URL contains "http" and not "yandex" |
| ImageSearch.YandexRelativeLinkKept | image_search.py:42-43 | every relative raw href containing "http" and no 'y' (e.g. `/images/search?url=http%3A%2F%2Fx.com`), resolved against https://yandex.com, is returned as that yandex.com URL |
| ImageSearch.YandexReturnsResolved | image_search.py:42-43 | an anchor whose raw href passes the selector is returned as its resolved URL, whatever that URL holds |
| ImageSearch.YandexReverseImageSearch | image_search.py:27-53 | the outcome is the scraped list, a one-element "⚠️ Yandex error" list, or the exception; quit runs exactly when the browser launched |
| ImageSearch.MediaValue | image_search.py:77-79 | `parse_qs(urlparse(href).query).get("mediaurl", [""])[0]`; specified by ImageSearch.MediaValueRoundTrip |
| ImageSearch.BingContribution | image_search.py:75-81 | an anchor adds at most one URL; it carries the corrected single decode (see Findings) |
| ImageSearch.BingAnchorUrls | image_search.py:75-81 | one pass of the loop body appends exactly the anchor's contribution, decoded once |
| ImageSearch.BingAnchorUrlsAsWritten | image_search.py:75-81 | one pass of the loop body as written appends the contribution with `unquote` applied again |
| ImageSearch.BingContributionAsWritten | image_search.py:81 | as written, the added URL is the corrected one decoded a second time |
| ImageSearch.BingAtMostOnePerAnchor | image_search.py:73-81 | the loop collects at most one URL per anchor |
| ImageSearch.BingCollectedAppend | image_search.py:73-81 | the anchors of two page parts contribute in turn (document order) |
| ImageSearch.BingUrls | image_search.py:73-84 | the loop's list truncated to 5 is the contributions in document order, truncated to 5; each value is decoded once (the corrected loop, see Findings) |
| ImageSearch.BingUrlsAsWritten | image_search.py:73-84 | the loop as written, appending `unquote(media)`: its list truncated to 5 is the as-written contributions in document order, truncated to 5 |
| ImageSearch.AsWrittenDecodesAgain | image_search.py:73-81 | the as-written loop collects as many URLs as the corrected one, each the corrected URL percent-decoded once more |
| ImageSearch.MediaValueRoundTrip | image_search.py:77-79 | for a link `base?front&mediaurl=<encoded t>&rest#frag`, where no field of front carries `mediaurl`, the extracted media value is exactly t |
| ImageSearch.MediaRoundTrip | image_search.py:71-81 | an anchor whose markup href (relative or absolute) contains "mediaurl=" and which resolves to such a link contributes exactly [t] in the corrected loop |
| ImageSearch.ContributionOf | image_search.py:71-81 | an anchor whose markup href and resolved link both contain "mediaurl=", with a non-empty media value, contributes exactly that value |
| ImageSearch.AsWrittenDecodesTwice | image_search.py:71-81 | such an anchor contributes [t] in the corrected loop and [unquote(t)] as written |
| ImageSearch.DoubleDecodeAltersPercent | image_search.py:78-81 | for a media URL "%41" in any such link, the corrected pass returns "%41" and the as-written pass "A" |
| ImageSearch.BingReverseImageSearch | image_search.py:56-91 | the outcome is the truncated list (corrected single decode), a one-element "⚠️ Bing error" list, or the exception; quit runs exactly when the browser launched |
| ImageSearch.GoogleLinks | image_search.py:119-120 | the set of non-empty resolved hrefs of the `jsname="UWckNb"` anchors; specified through ImageSearch.GoogleUrls |
| ImageSearch.GoogleUrls | image_search.py:119-128 | the page URL alone when no link has an href; otherwise min(3, n) distinct links, all from the page |
| ImageSearch.GoogleReverseImageSearch | image_search.py:94-137 | a timeout gives exactly "⚠️ Google timeout.", another error "⚠️ Google error: …", success the links above; quit runs exactly when the browser launched |
| ImageSearch.ResultsWithinCaps | image_search.py:46 | a returned Yandex or Bing list has at most 5 entries, whichever way the call ended |
| ImageSearch.GoogleWithinCap | image_search.py:124-128 | the Google post-processing returns between 1 and 3 entries |
| SearchResults.EngineLinks | image_bot.py:164-175 | one engine's list, or its error line; specified by SearchResults.RaisedBecomesOneLine and SearchResults.RunSearches |
| SearchResults.RunSearches | image_bot.py:163-176 | always three lists; each depends on its own engine only, a raised engine gives one "<Engine> error: …" line; lengths stay within 5, 5 and 1..3 |
| SearchResults.RaisedBecomesOneLine | image_bot.py:164-175 | an engine that raised contributes exactly one line naming it |
| SearchResults.BulletsReadBack | image_bot.py:185-186 | one bullet per link, in order; each starts with "• ", and the rest with `\_` read as `_` is the link; a link without a newline gives a one-line bullet |
| SearchResults.EscapeAddsOnlyBackslashes | image_bot.py:185 | escaping adds no character other than a backslash |
| SearchResults.EscapeMarksUnderscores | image_bot.py:185 | every underscore in an escaped link is preceded by a backslash |
| SearchResults.UnescapeEscape | image_bot.py:185 | escaping loses nothing: reading `\_` back as `_` gives the link |
| SearchResults.FormatLinks | image_bot.py:183-187 | `format_links` itself; specified by SearchResults.FormatLinksPrintsSection and SearchResults.BulletsReadBack |
| SearchResults.FormatLinksPrintsSection | image_bot.py:183-187 | a section prints as the bold header, a bullet per link or "• No results found.", then a blank line |
| SearchResults.BuildReply | image_bot.py:189-192 | the reply prints the results header, a blank line, then the Yandex, Bing and Google sections in that order |
| SearchResults.OfflineReply | image_bot.py:163-192 | when every page run fails, the reply holds one error bullet per engine |
| BotHandler.Classify | image_bot.py:116-129 | a message is accepted exactly for a photo or a document whose MIME type starts with "image/"; a photo is `<unique_id>.jpg` of type image/jpeg |
| BotHandler.NeedsHeicConversion | image_bot.py:136 | the HEIC test; specified by BotHandler.HeicIgnoresCase and BotHandler.PhotoNeverConverted |
| BotHandler.HeicIgnoresCase | image_bot.py:136 | conversion is attempted exactly when the name ends in ".heic" in any case or the type is image/heic |
| BotHandler.PhotoNeverConverted | image_bot.py:116-136 | a photo upload never triggers a HEIC conversion |
| BotHandler.HandleImage | image_bot.py:111-192 | a rejected message gets the one rejection reply; a failed conversion stops after two replies; a failed write of the local copy raises after the conversion replies; otherwise the metadata, "searching" and results replies follow, in order |
| BotHandler.ReportAndSearch | image_bot.py:155-192 | the three replies sent after the local copy: the metadata report, the "searching" notice, then the results reply |

## Left out

- Telegram calls, the `/start` reply, `main`, polling and the `nest_asyncio` fallback: platform I/O.
- The worker thread of `run_in_executor`: `run_searches` itself is modelled, calling the drivers one after another as the source does.
- Browser automation (Chrome options, navigation, clicks, explicit waits, the 8-second sleep, `os.path.abspath`): a driver is given the outcome of its session.
- `save_debug_artifacts`: a filesystem side effect. An exception it raises is a failed page run.
- PIL, piexif, hachoir and pillow_heif internals, including the HEIC transcode: they are given by their results.
- BotHandler.HandleImage: the copy of the image written to the temp directory is given only by whether the write raised. Its path is not modelled: it joins the temp directory with the document's own file name, so an absolute name would escape the temp directory.
- Removal of the metadata temp file is taken to succeed; the source ignores a failed `os.remove`.
- Logging and `print`.
- Gps.Degrees: computed over exact reals, so float rounding and overflow for huge numerators are not modelled. Neither is the sign of zero: a latitude of 0 with reference `S` is `-0.0` in Python and formats as "-0.000000", while the model has only 0.
- Metadata.ExtractMetadata: the `:.6f` formatting is a function supplied by the caller.
- UrlCodec.PercentDecode: a decoded octet becomes the character with that code. The source UTF-8-decodes runs of octets with replacement, so the model is exact for ASCII only.
- UrlCodec.QueryOf: does not model `urlsplit` stripping leading C0 controls and spaces, or deleting tabs and newlines. It also does not model the `ValueError("Invalid IPv6 URL")` that `urlsplit` raises when the network location has an unbalanced `[` or `]`. In the source that exception leaves the loop, and the Bing driver returns its one-line error list for the whole page.
- ImageSearch.BingUrls: decodes each `mediaurl` value once, as evidently intended. Line 81 applies `unquote` again, and that loop is `ImageSearch.BingUrlsAsWritten` (see Findings).
- ImageSearch.BingReverseImageSearch: returns the list of the corrected loop, `ImageSearch.BingUrls`. `SearchResults.RunSearches` and `BotHandler.HandleImage` use it too.
- Text.Lower: ASCII letters only, while Python's `lower()` covers all of Unicode.
- ImageSearch.Anchor: the raw `href` and the resolved URL are both given. How the browser resolves one into the other is not modelled.
- ImageSearch.YandexFirstFive: does not promise that each returned URL contains "http" and not "yandex". The XPath tests the raw attribute and the returned value is the resolved URL, so that promise holds only for absolute hrefs (ImageSearch.YandexAbsoluteLinksPassSelector; the relative case is ImageSearch.YandexRelativeLinkKept).
- ImageSearch.GoogleUrls: Python leaves the order of `list(set)` unspecified, so the contract fixes which links are allowed, not their order.
- SearchResults.RunSearches: states Google's list only up to that order.
- BotHandler.HandleImage: states the last reply only up to the order of Google's links.
- Metadata.PlaceholderExactlyWhenNoLines: a single collected line equal to the placeholder text also yields the placeholder.

## Findings

| source | as written | input that shows it | evidently intended | confidence | as-written member | corrected member |
|---|---|---|---|---|---|---|
| image_search.py:78-81 | `parse_qs` already decodes the `mediaurl` value, and `unquote` decodes it again | any anchor resolving to `base?front&mediaurl=%2541&rest#frag` (media URL "%41") yields "A" (lemma ImageSearch.DoubleDecodeAltersPercent) | decode once, giving back the URL Bing encoded | medium, not executed | ImageSearch.BingContributionAsWritten | ImageSearch.BingContribution |
| image_bot.py:79-97 | `temp_file_path` is set only after `temp_file.write` returns, so a failed write leaves the file that `NamedTemporaryFile(delete=False)` created | a write that raises, e.g. on a full disk | record the path when the file is created, so the `finally` clause removes it on every path | medium, not executed | Metadata.HachoirPassAsWritten | Metadata.HachoirPass |
