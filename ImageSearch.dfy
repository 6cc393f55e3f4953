/**
 * The three reverse-image-search drivers (`yandex_reverse_image_search`,
 * `bing_reverse_image_search`, `google_reverse_image_search`). The browser
 * session is not modelled: a driver is given what launching the browser,
 * the scripted page run and `driver.quit()` came to, and the page run, when
 * it gets as far as scraping, is the list of anchors on the result page in
 * document order. What is modelled is the post-processing of their `href`
 * values, the error values, and the `finally: driver.quit()` discipline.
 */
module ImageSearch {
  import opened Wrappers
  import opened Text
  import opened UrlCodec

  /**
   * An `<a>` element of the result page. `rawHref` is its `href` attribute as
   * written in the markup, which an XPath `@href` test sees; `href` is what
   * `get_attribute("href")` returns, the URL resolved against the page; and
   * `jsname` is its `jsname` attribute.
   */
  datatype Anchor = Anchor(rawHref: Option<string>, href: Option<string>, jsname: Option<string>)

  /** What the statements inside a driver's `try` block came to. */
  datatype PageRun =
    | Scraped(anchors: seq<Anchor>, currentUrl: string)
    | TimedOut(message: string)    // a TimeoutException in the try block (a WebDriverWait, or a page load in `driver.get`)
    | Failed(message: string)      // any other exception in the try block

  /** The whole browser session of one driver call. */
  datatype Browser =
    | LaunchFailed(message: string)                      // uc.Chrome(...) raised, before the try
    | Launched(run: PageRun, quitError: Option<string>)  // Some: driver.quit() raised

  /** A driver call either returns a list of strings or raises. */
  datatype EngineOutcome = Returned(links: seq<string>) | Raised(error: string)

  const YANDEX_CAP := 5
  const BING_CAP := 5
  const GOOGLE_CAP := 3

  const YANDEX_ERROR := "⚠️ Yandex error: "
  const BING_ERROR := "⚠️ Bing error: "
  const GOOGLE_ERROR := "⚠️ Google error: "
  const GOOGLE_TIMEOUT := "⚠️ Google timeout."

  /** No string occurs twice. */
  predicate Distinct(s: seq<string>)
  {
    forall i, j :: 0 <= i < j < |s| ==> s[i] != s[j]
  }

  /** The outcome once `driver.quit()` has run after the try block produced `result`. */
  function AfterQuit(quitError: Option<string>, result: seq<string>): EngineOutcome
  {
    if quitError.Some? then Raised(quitError.value) else Returned(result)
  }

  // ---------------------------------------------------------------------
  // Yandex

  /** The XPath `contains(@href, "http") and not(contains(@href, "yandex"))`. */
  predicate YandexSelects(href: string)
  {
    Contains(href, "http") && !Contains(href, "yandex")
  }

  /** The XPath tests the raw attribute; the comprehension keeps the resolved URL when it is non-empty. */
  predicate YandexKeeps(a: Anchor)
  {
    a.rawHref.Some? && YandexSelects(a.rawHref.value) && a.href.Some? && a.href.value != ""
  }

  /** `[r.get_attribute("href") for r in results if r.get_attribute("href")]`. */
  function YandexCollected(anchors: seq<Anchor>): (urls: seq<string>)
    ensures |urls| <= |anchors|
    ensures forall u :: u in urls <==>
      exists k :: 0 <= k < |anchors| && YandexKeeps(anchors[k]) && anchors[k].href.value == u
    decreases |anchors|
  {
    if |anchors| == 0 then []
    else
      var rest := YandexCollected(anchors[1..]);
      assert forall k :: 0 < k < |anchors| ==> anchors[k] == anchors[1..][k - 1];
      if YandexKeeps(anchors[0]) then [anchors[0].href.value] + rest else rest
  }

  /** `urls[:5] if urls else []`. */
  function YandexUrls(anchors: seq<Anchor>): (r: seq<string>)
    ensures r == Take(YandexCollected(anchors), YANDEX_CAP)
    ensures forall u :: u in r ==>
      u != "" && exists k :: 0 <= k < |anchors| && YandexKeeps(anchors[k]) && anchors[k].href == Some(u)
  {
    var urls := YandexCollected(anchors);
    if |urls| > 0 then Take(urls, YANDEX_CAP) else []
  }

  /** The value of the try block or of its `except` clause. */
  function YandexResult(run: PageRun): seq<string>
  {
    match run
    case Scraped(anchors, _) => YandexUrls(anchors)
    case TimedOut(m) => [YANDEX_ERROR + m]
    case Failed(m) => [YANDEX_ERROR + m]
  }

  function YandexOutcome(browser: Browser): EngineOutcome
  {
    match browser
    case LaunchFailed(m) => Raised(m)
    case Launched(run, quitError) => AfterQuit(quitError, YandexResult(run))
  }

  /** `yandex_reverse_image_search`: `quitCalled` records that `driver.quit()` ran. */
  method YandexReverseImageSearch(browser: Browser) returns (outcome: EngineOutcome, ghost quitCalled: bool)
    ensures outcome == YandexOutcome(browser)
    ensures quitCalled <==> browser.Launched?
  {
    quitCalled := false;
    if browser.LaunchFailed? {
      return Raised(browser.message), quitCalled;
    }
    var result: seq<string>;
    match browser.run {
      case Scraped(anchors, _) =>
        var urls := YandexCollected(anchors);
        result := if |urls| > 0 then Take(urls, YANDEX_CAP) else [];
      case TimedOut(m) =>
        result := [YANDEX_ERROR + m];
      case Failed(m) =>
        result := [YANDEX_ERROR + m];
    }
    // finally
    quitCalled := true;
    if browser.quitError.Some? {
      outcome := Raised(browser.quitError.value);
    } else {
      outcome := Returned(result);
    }
  }

  // ---------------------------------------------------------------------
  // Bing

  /** `parse_qs(urlparse(href).query).get("mediaurl", [""])[0]`. */
  function MediaValue(href: string): string
  {
    match FirstValue(ParseQs(QueryOf(href)), "mediaurl")
    case Some(v) => v
    case None => ""
  }

  /** The XPath `contains(@href, "mediaurl=")` on the raw attribute, then `if href and "mediaurl=" in href` on the resolved URL. */
  predicate BingSelects(a: Anchor)
  {
    a.rawHref.Some? && Contains(a.rawHref.value, "mediaurl=") &&
    a.href.Some? && a.href.value != "" && Contains(a.href.value, "mediaurl=")
  }

  /**
   * What one anchor adds to `urls`: its media URL, decoded once (the
   * corrected behaviour; see `BingContributionAsWritten`).
   */
  function BingContribution(a: Anchor): (r: seq<string>)
    ensures |r| <= 1
  {
    if BingSelects(a) && MediaValue(a.href.value) != "" then [MediaValue(a.href.value)] else []
  }

  /** As written: `unquote` applied once more to the value `parse_qs` already decoded. */
  function BingContributionAsWritten(a: Anchor): (r: seq<string>)
    ensures |r| == |BingContribution(a)|
    ensures |r| == 1 ==> r[0] == PercentDecode(BingContribution(a)[0])
  {
    if BingSelects(a) && MediaValue(a.href.value) != "" then [PercentDecode(MediaValue(a.href.value))] else []
  }

  /** Everything the loop over the anchors appends, in document order. */
  function BingCollected(anchors: seq<Anchor>): seq<string>
  {
    FlatMap(anchors, BingContribution)
  }

  /** One pass of the loop body: `if href and "mediaurl=" in href`, then `if media`. */
  method BingAnchorUrls(a: Anchor) returns (add: seq<string>)
    ensures add == BingContribution(a)
  {
    add := [];
    if BingSelects(a) {
      var media := MediaValue(a.href.value);
      if media != "" {
        add := [media];
      }
    }
  }

  /** The loop of `bing_reverse_image_search` and its `urls[:5] if urls else []`. */
  method BingUrls(anchors: seq<Anchor>) returns (r: seq<string>)
    ensures r == Take(BingCollected(anchors), BING_CAP)
  {
    var urls: seq<string> := [];
    for i := 0 to |anchors|
      invariant urls == BingCollected(anchors[..i])
    {
      var add := BingAnchorUrls(anchors[i]);
      urls := urls + add;
      FlatMapStep(anchors, i, BingContribution);
    }
    assert anchors[..|anchors|] == anchors;
    r := if |urls| > 0 then Take(urls, BING_CAP) else [];
  }

  /** Everything the loop appends as written, each value passed through `unquote` again. */
  function BingCollectedAsWritten(anchors: seq<Anchor>): seq<string>
  {
    FlatMap(anchors, BingContributionAsWritten)
  }

  /** One pass of the loop body as written, appending `unquote(media)`. */
  method BingAnchorUrlsAsWritten(a: Anchor) returns (add: seq<string>)
    ensures add == BingContributionAsWritten(a)
  {
    add := [];
    if BingSelects(a) {
      var media := MediaValue(a.href.value);
      if media != "" {
        add := [PercentDecode(media)];
      }
    }
  }

  /** The loop of `bing_reverse_image_search` as written. */
  method BingUrlsAsWritten(anchors: seq<Anchor>) returns (r: seq<string>)
    ensures r == Take(BingCollectedAsWritten(anchors), BING_CAP)
  {
    var urls: seq<string> := [];
    for i := 0 to |anchors|
      invariant urls == BingCollectedAsWritten(anchors[..i])
    {
      var add := BingAnchorUrlsAsWritten(anchors[i]);
      urls := urls + add;
      FlatMapStep(anchors, i, BingContributionAsWritten);
    }
    assert anchors[..|anchors|] == anchors;
    r := if |urls| > 0 then Take(urls, BING_CAP) else [];
  }

  function BingOutcome(browser: Browser): EngineOutcome
  {
    match browser
    case LaunchFailed(m) => Raised(m)
    case Launched(run, quitError) =>
      AfterQuit(quitError,
        match run
        case Scraped(anchors, _) => Take(BingCollected(anchors), BING_CAP)
        case TimedOut(m) => [BING_ERROR + m]
        case Failed(m) => [BING_ERROR + m])
  }

  /** `bing_reverse_image_search`: `quitCalled` records that `driver.quit()` ran. */
  method BingReverseImageSearch(browser: Browser) returns (outcome: EngineOutcome, ghost quitCalled: bool)
    ensures outcome == BingOutcome(browser)
    ensures quitCalled <==> browser.Launched?
  {
    quitCalled := false;
    if browser.LaunchFailed? {
      return Raised(browser.message), quitCalled;
    }
    var result: seq<string>;
    match browser.run {
      case Scraped(anchors, _) =>
        result := BingUrls(anchors);
      case TimedOut(m) =>
        result := [BING_ERROR + m];
      case Failed(m) =>
        result := [BING_ERROR + m];
    }
    // finally
    quitCalled := true;
    if browser.quitError.Some? {
      outcome := Raised(browser.quitError.value);
    } else {
      outcome := Returned(result);
    }
  }

  // ---------------------------------------------------------------------
  // Google

  /** The XPath `//a[@jsname="UWckNb"]`. */
  predicate GoogleSelects(a: Anchor)
  {
    a.jsname == Some("UWckNb")
  }

  /** `{a.get_attribute("href") for a in result_links if a.get_attribute("href")}`. */
  function GoogleLinks(anchors: seq<Anchor>): set<string>
  {
    set k | 0 <= k < |anchors| && GoogleSelects(anchors[k]) && anchors[k].href.Some? && anchors[k].href.value != ""
      :: anchors[k].href.value
  }

  /**
   * What the Google post-processing may return: the page URL when no link
   * was found, otherwise up to three distinct links, in any order (Python
   * does not fix the iteration order of a set).
   */
  predicate GoogleAcceptable(anchors: seq<Anchor>, currentUrl: string, urls: seq<string>)
  {
    var links := GoogleLinks(anchors);
    (links == {} ==> urls == [currentUrl]) &&
    (links != {} ==>
      |urls| == Min(GOOGLE_CAP, |links|) && Distinct(urls) && forall u :: u in urls ==> u in links)
  }

  /** `list({...})`, the fallback to `driver.current_url`, and `urls[:3]`. */
  method GoogleUrls(anchors: seq<Anchor>, currentUrl: string) returns (r: seq<string>)
    ensures GoogleAcceptable(anchors, currentUrl, r)
  {
    var links := GoogleLinks(anchors);
    var urls: seq<string> := [];
    var rest := links;
    while rest != {}
      invariant forall u :: u in urls ==> u in links && u !in rest
      invariant rest <= links
      invariant Distinct(urls)
      invariant |urls| + |rest| == |links|
      decreases |rest|
    {
      var u :| u in rest;
      urls := urls + [u];
      rest := rest - {u};
    }
    if |urls| == 0 {
      r := [currentUrl];
    } else {
      r := Take(urls, GOOGLE_CAP);
    }
  }

  /** The outcomes `google_reverse_image_search` can have for a browser session. */
  predicate GoogleOutcomeAcceptable(browser: Browser, outcome: EngineOutcome)
  {
    match browser
    case LaunchFailed(m) => outcome == Raised(m)
    case Launched(run, quitError) =>
      if quitError.Some? then outcome == Raised(quitError.value)
      else
        outcome.Returned? &&
        match run
        case Scraped(anchors, currentUrl) => GoogleAcceptable(anchors, currentUrl, outcome.links)
        case TimedOut(_) => outcome.links == [GOOGLE_TIMEOUT]
        case Failed(m) => outcome.links == [GOOGLE_ERROR + m]
  }

  /** `google_reverse_image_search`: `quitCalled` records that `driver.quit()` ran. */
  method GoogleReverseImageSearch(browser: Browser) returns (outcome: EngineOutcome, ghost quitCalled: bool)
    ensures GoogleOutcomeAcceptable(browser, outcome)
    ensures quitCalled <==> browser.Launched?
  {
    quitCalled := false;
    if browser.LaunchFailed? {
      return Raised(browser.message), quitCalled;
    }
    var result: seq<string>;
    match browser.run {
      case Scraped(anchors, currentUrl) =>
        result := GoogleUrls(anchors, currentUrl);
      case TimedOut(_) =>
        result := [GOOGLE_TIMEOUT];
      case Failed(m) =>
        result := [GOOGLE_ERROR + m];
    }
    // finally
    quitCalled := true;
    if browser.quitError.Some? {
      outcome := Raised(browser.quitError.value);
    } else {
      outcome := Returned(result);
    }
  }

  // ---------------------------------------------------------------------
  // Lemmas

  /** Collection follows document order: the anchors of two page parts contribute in turn. */
  lemma {:induction false} YandexCollectedAppend(a: seq<Anchor>, b: seq<Anchor>)
    ensures YandexCollected(a + b) == YandexCollected(a) + YandexCollected(b)
    decreases |a|
  {
    if |a| > 0 {
      YandexCollectedAppend(a[1..], b);
      assert (a + b)[1..] == a[1..] + b;
    } else {
      assert a + b == b;
    }
  }

  /** The Yandex result is the first min(5, n) collected URLs. */
  lemma YandexFirstFive(anchors: seq<Anchor>)
    ensures var r := YandexUrls(anchors);
      |r| == Min(YANDEX_CAP, |YandexCollected(anchors)|) &&
      r == YandexCollected(anchors)[..|r|]
  {
  }

  /** When every raw `href` is already the absolute URL, each returned URL passes the selector itself. */
  lemma YandexAbsoluteLinksPassSelector(anchors: seq<Anchor>)
    requires forall k :: 0 <= k < |anchors| ==> anchors[k].rawHref == anchors[k].href
    ensures forall u :: u in YandexUrls(anchors) ==> Contains(u, "http") && !Contains(u, "yandex")
  {
  }

  /** One anchor whose raw `href` passes the selector is returned as its resolved URL, whatever that URL holds. */
  lemma {:induction false} YandexReturnsResolved(raw: string, resolved: string, jsname: Option<string>)
    requires YandexSelects(raw) && resolved != ""
    ensures YandexUrls([Anchor(Some(raw), Some(resolved), jsname)]) == [resolved]
  {
    var a := Anchor(Some(raw), Some(resolved), jsname);
    assert [a][1..] == [];
  }

  /**
   * The selector sees a relative `href` as written, but the result is resolved: a path on
   * Yandex's own site that names `http` only in its query (such as
   * `/images/search?url=http%3A%2F%2Fx.com`) passes the selector and is
   * returned as a yandex.com URL.
   */
  lemma {:induction false} YandexRelativeLinkKept(path: string)
    requires Contains(path, "http") && 'y' !in path
    ensures var resolved := "https://yandex.com" + path;
      YandexUrls([Anchor(Some(path), Some(resolved), None)]) == [resolved] && Contains(resolved, "yandex")
  {
    var resolved := "https://yandex.com" + path;
    LacksFirstChar(path, "yandex");
    assert resolved[8..14] == "yandex";
    ContainsAt(resolved, 8, "yandex");
    YandexReturnsResolved(path, resolved, None);
  }

  /** The anchors of two consecutive parts of the page contribute in document order. */
  lemma {:induction false} BingCollectedAppend(a: seq<Anchor>, b: seq<Anchor>)
    ensures BingCollected(a + b) == BingCollected(a) + BingCollected(b)
  {
    FlatMapAppend(a, b, BingContribution);
  }

  /**
   * The loop as written collects the same number of URLs as the corrected
   * one, each the corrected URL decoded a second time.
   */
  lemma {:induction false} AsWrittenDecodesAgain(anchors: seq<Anchor>)
    ensures |BingCollectedAsWritten(anchors)| == |BingCollected(anchors)|
    ensures forall k :: 0 <= k < |BingCollected(anchors)| ==>
              BingCollectedAsWritten(anchors)[k] == PercentDecode(BingCollected(anchors)[k])
    decreases |anchors|
  {
    if |anchors| > 0 {
      var n := |anchors| - 1;
      AsWrittenDecodesAgain(anchors[..n]);
      var c, w := BingContribution(anchors[n]), BingContributionAsWritten(anchors[n]);
      assert BingCollected(anchors) == BingCollected(anchors[..n]) + c;
      assert BingCollectedAsWritten(anchors) == BingCollectedAsWritten(anchors[..n]) + w;
    }
  }

  /** Each anchor adds at most one URL. */
  lemma {:induction false} BingAtMostOnePerAnchor(anchors: seq<Anchor>)
    ensures |BingCollected(anchors)| <= |anchors|
    decreases |anchors|
  {
    if |anchors| > 0 {
      var n := |anchors| - 1;
      BingAtMostOnePerAnchor(anchors[..n]);
      assert |BingContribution(anchors[n])| <= 1;
    }
  }

  /** A substring anywhere in a string is found by `in`. */
  lemma {:induction false} ContainsAt(s: string, i: nat, t: string)
    requires i + |t| <= |s| && s[i..i + |t|] == t
    ensures Contains(s, t)
    decreases i
  {
    if i > 0 {
      ContainsAt(s[1..], i - 1, t);
      assert s[1..][i - 1..i - 1 + |t|] == s[i..i + |t|];
    }
  }

  /** A string without the first character of `t` does not contain `t`. */
  lemma {:induction false} LacksFirstChar(s: string, t: string)
    requires |t| > 0 && t[0] !in s
    ensures !Contains(s, t)
    decreases |s|
  {
    if |s| > 0 {
      LacksFirstChar(s[1..], t);
    }
  }

  /** The first `&`-separated field of `field + tail` is `field`. */
  lemma {:induction false} FirstField(field: string, tail: string)
    requires '&' !in field
    requires tail == [] || tail[0] == '&'
    ensures Split(field + tail, '&')[0] == field
  {
    if tail == [] {
      IndexOfAbsent(field, '&');
      assert field + tail == field;
    } else {
      IndexOfAfter(field, '&', tail[1..]);
      assert field + tail == field + ['&'] + tail[1..];
      assert (field + tail)[..|field|] == field;
    }
  }

  /** A first field `mediaurl=<e>` with a non-empty `e` makes `e`, form-decoded, the media value. */
  lemma {:induction false} MediaFromFirstField(fields: seq<string>, e: string)
    requires |fields| >= 1 && fields[0] == "mediaurl=" + e && |e| > 0
    ensures FirstValue(QueryPairs(fields), "mediaurl") == Some(FormDecode(e))
  {
    assert "mediaurl=" + e == "mediaurl" + "=" + e;
    LeadingFieldValue(fields, "mediaurl", e);
    MediaKeyIsPlain();
  }

  /** Form-decoding leaves the name `mediaurl` as it is. */
  lemma MediaKeyIsPlain()
    ensures FormDecode("mediaurl") == "mediaurl"
  {
    FormDecodePlain("mediaurl");
  }

  /** Percent-encoded text holds none of the characters that delimit URL parts. */
  lemma {:induction false} EncodedHasNoDelimiters(t: string)
    requires IsOctetString(t)
    ensures var e := PercentEncode(t); '#' !in e && '&' !in e && '?' !in e
  {
    var e := PercentEncode(t);
    forall i | 0 <= i < |e| ensures e[i] != '#' && e[i] != '&' && e[i] != '?' {
      assert UrlSafe(e[i]);
    }
  }

  /**
   * Fields in front of the `mediaurl` field that `parse_qs` keeps under
   * other names do not change the media value.
   */
  lemma {:induction false} SkipFrontFields(front: string, rest: string)
    requires front == [] || front[|front| - 1] == '&'
    requires FirstValue(ParseQs(front), "mediaurl") == None
    ensures FirstValue(ParseQs(front + rest), "mediaurl") == FirstValue(ParseQs(rest), "mediaurl")
  {
    if front != [] {
      var pre := front[..|front| - 1];
      assert front == pre + "&" + "";
      assert front + rest == pre + "&" + rest;
      ParseQsAppend(pre, "");
      ParseQsAppend(pre, rest);
      assert ParseQs(front)[..|ParseQs(pre)|] == ParseQs(pre);
      FirstValueSkip(ParseQs(pre), ParseQs(rest), "mediaurl");
    } else {
      assert front + rest == rest;
    }
  }

  /** The query of a Bing link is everything between its `?` and its fragment. */
  lemma {:induction false} LinkQuery(base: string, front: string, e: string, mid: string, end: string)
    requires '?' !in base && '#' !in base && '#' !in front && '#' !in e && '#' !in mid
    requires end == [] || end[0] == '#'
    ensures QueryOf(base + "?" + front + "mediaurl=" + e + mid + end) == front + "mediaurl=" + e + mid
  {
    var q := front + "mediaurl=" + e + mid;
    assert base + "?" + front + "mediaurl=" + e + mid + end == base + "?" + q + end;
    assert '#' !in "mediaurl=";
    assert '#' !in q;
    QueryBetweenMarks(base, q, end);
  }

  /**
   * In a query `<front>mediaurl=<percent-encoded t><mid>`, where `front` is
   * zero or more fields that keep no pair named `mediaurl`, the first
   * `mediaurl` value `parse_qs` finds is `t`.
   */
  lemma {:induction false} MediaOfQuery(front: string, t: string, mid: string)
    requires front == [] || front[|front| - 1] == '&'
    requires FirstValue(ParseQs(front), "mediaurl") == None
    requires |t| > 0 && IsOctetString(t)
    requires mid == [] || mid[0] == '&'
    ensures FirstValue(ParseQs(front + "mediaurl=" + PercentEncode(t) + mid), "mediaurl") == Some(t)
  {
    var rest := "mediaurl=" + PercentEncode(t) + mid;
    assert front + "mediaurl=" + PercentEncode(t) + mid == front + rest;
    MediaOfLeadingField(t, mid);
    SkipFrontFields(front, rest);
  }

  /** A query whose first field is `mediaurl=<percent-encoded t>` has `t` as its media value. */
  lemma {:induction false} MediaOfLeadingField(t: string, mid: string)
    requires |t| > 0 && IsOctetString(t)
    requires mid == [] || mid[0] == '&'
    ensures FirstValue(ParseQs("mediaurl=" + PercentEncode(t) + mid), "mediaurl") == Some(t)
  {
    var e := PercentEncode(t);
    var field := "mediaurl=" + e;
    EncodedHasNoDelimiters(t);
    assert '&' !in field;
    FirstField(field, mid);
    MediaFromFirstField(Split(field + mid, '&'), e);
    FormDecodeEncoded(t);
  }

  /**
   * The media value of a Bing link `base?<front>mediaurl=<percent-encoded
   * t><mid><end>` is `t`: `front` is zero or more fields that keep no pair
   * named `mediaurl`, `mid` more fields, `end` the fragment.
   */
  lemma {:induction false} MediaValueRoundTrip(base: string, front: string, t: string, mid: string, end: string)
    requires '?' !in base && '#' !in base && '#' !in front
    requires front == [] || front[|front| - 1] == '&'
    requires FirstValue(ParseQs(front), "mediaurl") == None
    requires |t| > 0 && IsOctetString(t)
    requires mid == [] || (mid[0] == '&' && '#' !in mid)
    requires end == [] || end[0] == '#'
    ensures MediaValue(base + "?" + front + "mediaurl=" + PercentEncode(t) + mid + end) == t
  {
    EncodedHasNoDelimiters(t);
    LinkQuery(base, front, PercentEncode(t), mid, end);
    MediaOfQuery(front, t, mid);
  }

  /**
   * An anchor whose markup `href` (`raw`, often relative) names `mediaurl=`
   * and which resolves to a Bing link `base?<front>mediaurl=<percent-encoded
   * t><mid><end>` contributes `t` itself: the value is form-decoded once,
   * and decoding undoes the encoding.
   */
  lemma {:induction false} MediaRoundTrip(raw: string, base: string, front: string, t: string, mid: string, end: string, jsname: Option<string>)
    requires Contains(raw, "mediaurl=")
    requires '?' !in base && '#' !in base && '#' !in front
    requires front == [] || front[|front| - 1] == '&'
    requires FirstValue(ParseQs(front), "mediaurl") == None
    requires |t| > 0 && IsOctetString(t)
    requires mid == [] || (mid[0] == '&' && '#' !in mid)
    requires end == [] || end[0] == '#'
    ensures BingContribution(Anchor(Some(raw), Some(base + "?" + front + "mediaurl=" + PercentEncode(t) + mid + end), jsname)) == [t]
  {
    MediaValueRoundTrip(base, front, t, mid, end);
    HasMediaKey(base, front, PercentEncode(t), mid, end);
    ContributionOf(raw, base + "?" + front + "mediaurl=" + PercentEncode(t) + mid + end, jsname, t);
  }

  /** A Bing link carries the text its XPath and its `in` test look for. */
  lemma {:induction false} HasMediaKey(base: string, front: string, e: string, mid: string, end: string)
    ensures Contains(base + "?" + front + "mediaurl=" + e + mid + end, "mediaurl=")
  {
    var href := base + "?" + front + "mediaurl=" + e + mid + end;
    var i := |base| + 1 + |front|;
    assert href[i..i + 9] == "mediaurl=";
    ContainsAt(href, i, "mediaurl=");
  }

  /** An anchor the XPath selects whose resolved link names a non-empty media value contributes exactly that value. */
  lemma {:induction false} ContributionOf(raw: string, href: string, jsname: Option<string>, t: string)
    requires Contains(raw, "mediaurl=") && Contains(href, "mediaurl=")
    requires MediaValue(href) == t && t != ""
    ensures BingContribution(Anchor(Some(raw), Some(href), jsname)) == [t]
  {
  }

  /** As written, a Bing link yields its media URL decoded a second time. */
  lemma {:induction false} AsWrittenDecodesTwice(raw: string, base: string, front: string, t: string, mid: string, end: string)
    requires Contains(raw, "mediaurl=")
    requires '?' !in base && '#' !in base && '#' !in front
    requires front == [] || front[|front| - 1] == '&'
    requires FirstValue(ParseQs(front), "mediaurl") == None
    requires |t| > 0 && IsOctetString(t)
    requires mid == [] || (mid[0] == '&' && '#' !in mid)
    requires end == [] || end[0] == '#'
    ensures var link := base + "?" + front + "mediaurl=" + PercentEncode(t) + mid + end;
      var a := Anchor(Some(raw), Some(link), None);
      BingContribution(a) == [t] && BingContributionAsWritten(a) == [PercentDecode(t)]
  {
    MediaRoundTrip(raw, base, front, t, mid, end, None);
  }

  /**
   * The source decodes the value a second time, so a media URL that itself
   * holds a percent sign comes back altered: `%41` is returned as `A`.
   */
  lemma {:induction false} DoubleDecodeAltersPercent(raw: string, base: string, front: string, mid: string, end: string)
    requires Contains(raw, "mediaurl=")
    requires '?' !in base && '#' !in base && '#' !in front
    requires front == [] || front[|front| - 1] == '&'
    requires FirstValue(ParseQs(front), "mediaurl") == None
    requires mid == [] || (mid[0] == '&' && '#' !in mid)
    requires end == [] || end[0] == '#'
    ensures var link := base + "?" + front + "mediaurl=" + PercentEncode("%41") + mid + end;
      var a := Anchor(Some(raw), Some(link), None);
      BingContribution(a) == ["%41"] && BingContributionAsWritten(a) == ["A"]
  {
    assert IsOctetString("%41");
    AsWrittenDecodesTwice(raw, base, front, "%41", mid, end);
    DecodesToA();
  }

  lemma DecodesToA()
    ensures PercentDecode("%41") == "A"
  {
    assert IsHexDigit('4') && IsHexDigit('1');
    assert PercentDecode("%41"[3..]) == "";
  }

  /** Every driver result is within its engine's cap, whichever way the call ended. */
  lemma ResultsWithinCaps(y: Browser, b: Browser)
    ensures YandexOutcome(y).Returned? ==> |YandexOutcome(y).links| <= YANDEX_CAP
    ensures BingOutcome(b).Returned? ==> |BingOutcome(b).links| <= BING_CAP
  {
  }

  lemma GoogleWithinCap(anchors: seq<Anchor>, currentUrl: string, urls: seq<string>)
    requires GoogleAcceptable(anchors, currentUrl, urls)
    ensures 1 <= |urls| <= GOOGLE_CAP
  {
  }
}
