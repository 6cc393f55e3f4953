/**
 * Running the three searches (`run_searches`) and building the Markdown
 * reply (`format_links` and the `reply +=` sequence of `handle_image`).
 * `run_searches` calls the three drivers one after another, as one task
 * that the source hands to a worker thread so the event loop stays free;
 * the thread is not modelled.
 */
module SearchResults {
  import opened Wrappers
  import opened Text
  import opened ImageSearch

  /** What `run_searches` keeps of one driver call: its list, or "<Engine> error: …" if it raised. */
  function EngineLinks(engine: string, outcome: EngineOutcome): seq<string>
  {
    match outcome
    case Returned(links) => links
    case Raised(e) => [engine + " error: " + e]
  }

  /** `run_searches(path)`: each driver call in its own try/except, in the order Yandex, Bing, Google. */
  method RunSearches(yandex: Browser, bing: Browser, google: Browser)
    returns (yandexLinks: seq<string>, bingLinks: seq<string>, googleLinks: seq<string>)
    ensures yandexLinks == EngineLinks("Yandex", YandexOutcome(yandex))
    ensures bingLinks == EngineLinks("Bing", BingOutcome(bing))
    ensures exists o :: GoogleOutcomeAcceptable(google, o) && googleLinks == EngineLinks("Google", o)
    ensures |yandexLinks| <= YANDEX_CAP && |bingLinks| <= BING_CAP && 1 <= |googleLinks| <= GOOGLE_CAP
  {
    var y, _ := YandexReverseImageSearch(yandex);
    yandexLinks := if y.Raised? then ["Yandex error: " + y.error] else y.links;
    var b, _ := BingReverseImageSearch(bing);
    bingLinks := if b.Raised? then ["Bing error: " + b.error] else b.links;
    var g, _ := GoogleReverseImageSearch(google);
    googleLinks := if g.Raised? then ["Google error: " + g.error] else g.links;
    assert "Yandex" + " error: " == "Yandex error: " && "Bing" + " error: " == "Bing error: " && "Google" + " error: " == "Google error: ";
    assert GoogleOutcomeAcceptable(google, g) && googleLinks == EngineLinks("Google", g);
    ResultsWithinCaps(yandex, bing);
    if google.Launched? && google.quitError.None? && google.run.Scraped? {
      GoogleWithinCap(google.run.anchors, google.run.currentUrl, g.links);
    }
  }

  /** `link.replace("_", "\\_")`: Markdown escaping of underscores. */
  function Escape(link: string): string
  {
    Replace(link, "_", "\\_")
  }

  /** The reading of an escaped link: every `\_` back to `_`. */
  function Unescape(text: string): string
  {
    Replace(text, "\\_", "_")
  }

  function Header(name: string, emoji: string): string
  {
    emoji + " *" + name + ":*"
  }

  const NO_RESULTS := "• No results found."

  /** One "• " line per link, the link escaped. */
  function Bullets(links: seq<string>): seq<string>
  {
    seq(|links|, i requires 0 <= i < |links| => "• " + Escape(links[i]))
  }

  /** `format_links(name, emoji, links)`. */
  function FormatLinks(name: string, emoji: string, links: seq<string>): string
  {
    if |links| > 0 then
      emoji + " *" + name + ":*\n" + Join(Bullets(links), "\n") + "\n\n"
    else
      emoji + " *" + name + ":*\n• No results found.\n\n"
  }

  /** A section line by line: the engine header, a bullet per link or the no-results line, a blank line. */
  function SectionLines(name: string, emoji: string, links: seq<string>): seq<string>
  {
    [Header(name, emoji)] + (if |links| > 0 then Bullets(links) else [NO_RESULTS]) + [""]
  }

  const RESULTS_HEADER := "🔍 *Reverse Image Search Results*"

  /** The reply line by line: the results header, a blank line, then Yandex, Bing and Google. */
  function ReplyLines(yandex: seq<string>, bing: seq<string>, google: seq<string>): seq<string>
  {
    [RESULTS_HEADER, ""] +
    SectionLines("Yandex", "🟣", yandex) +
    SectionLines("Bing", "🔵", bing) +
    SectionLines("Google", "🔴", google)
  }

  /** The `reply = …; reply += format_links(…)` sequence of `handle_image`. */
  method BuildReply(yandex: seq<string>, bing: seq<string>, google: seq<string>) returns (reply: string)
    ensures reply == Unlines(ReplyLines(yandex, bing, google))
  {
    reply := "🔍 *Reverse Image Search Results*\n\n";
    reply := reply + FormatLinks("Yandex", "🟣", yandex);
    reply := reply + FormatLinks("Bing", "🔵", bing);
    reply := reply + FormatLinks("Google", "🔴", google);
    FormatLinksPrintsSection("Yandex", "🟣", yandex);
    FormatLinksPrintsSection("Bing", "🔵", bing);
    FormatLinksPrintsSection("Google", "🔴", google);
    var sy, sb, sg := SectionLines("Yandex", "🟣", yandex), SectionLines("Bing", "🔵", bing), SectionLines("Google", "🔴", google);
    UnlinesAppend([RESULTS_HEADER, ""], sy);
    UnlinesAppend([RESULTS_HEADER, ""] + sy, sb);
    UnlinesAppend([RESULTS_HEADER, ""] + sy + sb, sg);
    assert Unlines([RESULTS_HEADER, ""]) == "🔍 *Reverse Image Search Results*\n\n";
  }

  // ---------------------------------------------------------------------
  // Lemmas

  /** An engine that raised leaves exactly one line, naming the engine. */
  lemma RaisedBecomesOneLine(engine: string, e: string)
    ensures EngineLinks(engine, Raised(e)) == [engine + " error: " + e]
    ensures |EngineLinks(engine, Raised(e))| == 1
  {
  }

  /** In the escaped text every underscore follows a backslash. */
  lemma {:induction false} EscapeMarksUnderscores(s: string)
    ensures forall i :: 0 <= i < |Escape(s)| && Escape(s)[i] == '_' ==> i > 0 && Escape(s)[i - 1] == '\\'
    decreases |s|
  {
    if |s| > 0 {
      EscapeMarksUnderscores(s[1..]);
      var e := Escape(s[1..]);
      if s[0] == '_' {
        assert s[..1] == "_";
        assert Escape(s) == "\\_" + e;
      } else {
        assert s[..1] != "_";
        assert Escape(s) == [s[0]] + e;
      }
    }
  }

  /** Escaping loses nothing: reading `\_` back as `_` gives the link back. */
  lemma {:induction false} UnescapeEscape(s: string)
    ensures Unescape(Escape(s)) == s
    decreases |s|
  {
    if |s| > 0 {
      UnescapeEscape(s[1..]);
      EscapeMarksUnderscores(s[1..]);
      var e := Escape(s[1..]);
      if s[0] == '_' {
        assert s[..1] == "_";
        assert Escape(s) == "\\_" + e;
        assert ("\\_" + e)[..2] == "\\_" && ("\\_" + e)[2..] == e;
      } else {
        assert s[..1] != "_";
        assert Escape(s) == [s[0]] + e;
        if |e| > 0 {
          assert ([s[0]] + e)[1] == e[0] != '_';
          assert ([s[0]] + e)[..2] != "\\_";
        }
        assert ([s[0]] + e)[1..] == e;
      }
      assert s == [s[0]] + s[1..];
    }
  }

  /** Escaping adds backslashes and no other character. */
  lemma {:induction false} EscapeAddsOnlyBackslashes(s: string)
    ensures forall c :: c in Escape(s) ==> c in s || c == '\\'
    decreases |s|
  {
    if |s| > 0 {
      EscapeAddsOnlyBackslashes(s[1..]);
      var e := Escape(s[1..]);
      if s[0] == '_' {
        assert s[..1] == "_";
        assert Escape(s) == "\\_" + e;
      } else {
        assert s[..1] != "_";
        assert Escape(s) == [s[0]] + e;
      }
    }
  }

  /**
   * Each bullet of `format_links` reads back as its link: it starts with
   * "• ", the rest with `\_` read as `_` is the link, and a link without a
   * newline gives a bullet without one, so the bullet stays one line.
   */
  lemma BulletsReadBack(links: seq<string>)
    ensures |Bullets(links)| == |links|
    ensures forall i :: 0 <= i < |links| ==>
      StartsWith(Bullets(links)[i], "• ") && Unescape(Bullets(links)[i][2..]) == links[i]
    ensures forall i :: 0 <= i < |links| && '\n' !in links[i] ==> '\n' !in Bullets(links)[i]
  {
    forall i | 0 <= i < |links|
      ensures StartsWith(Bullets(links)[i], "• ") && Unescape(Bullets(links)[i][2..]) == links[i]
      ensures '\n' !in links[i] ==> '\n' !in Bullets(links)[i]
    {
      var b := Bullets(links)[i];
      assert b[..2] == "• " && b[2..] == Escape(links[i]);
      UnescapeEscape(links[i]);
      EscapeAddsOnlyBackslashes(links[i]);
    }
  }

  /** `format_links` prints its section line by line. */
  lemma {:induction false} FormatLinksPrintsSection(name: string, emoji: string, links: seq<string>)
    ensures FormatLinks(name, emoji, links) == Unlines(SectionLines(name, emoji, links))
  {
    if |links| > 0 {
      LinksSectionPrinted(Header(name, emoji), Bullets(links));
    } else {
      EmptySectionPrinted(name, emoji);
    }
  }

  lemma {:induction false} LinksSectionPrinted(h: string, b: seq<string>)
    requires |b| > 0
    ensures h + "\n" + Join(b, "\n") + "\n\n" == Unlines([h] + b + [""])
  {
    JoinThenNewline(b);
    UnlinesAppend(b, [""]);
    assert Unlines([""]) == "\n";
    assert [h] + b + [""] == [h] + (b + [""]);
    assert Unlines([h] + (b + [""])) == h + "\n" + Unlines(b + [""]);
  }

  lemma {:induction false} EmptySectionPrinted(name: string, emoji: string)
    ensures emoji + " *" + name + ":*\n• No results found.\n\n" == Unlines([Header(name, emoji), NO_RESULTS, ""])
  {
    ThreeLines(Header(name, emoji), NO_RESULTS);
    assert ":*\n• No results found.\n\n" == ":*" + "\n" + NO_RESULTS + "\n\n";
  }

  lemma {:induction false} ThreeLines(h: string, x: string)
    ensures h + "\n" + x + "\n\n" == Unlines([h, x, ""])
  {
    var lines := [h, x, ""];
    assert lines[1..] == [x, ""] && lines[1..][1..] == [""] && lines[1..][1..][1..] == [];
    assert Unlines(lines[1..][1..]) == "\n";
    assert Unlines(lines[1..]) == x + "\n" + "\n";
    assert Unlines(lines) == h + "\n" + (x + "\n" + "\n");
  }

  /** With no network every driver fails in its page run, and the reply carries one error bullet per engine. */
  lemma OfflineReply(my: string, mb: string, mg: string, google: EngineOutcome)
    requires GoogleOutcomeAcceptable(Launched(Failed(mg), None), google)
    ensures var lines := ReplyLines(EngineLinks("Yandex", YandexOutcome(Launched(Failed(my), None))),
                                    EngineLinks("Bing", BingOutcome(Launched(Failed(mb), None))),
                                    EngineLinks("Google", google));
      |lines| == 11 &&
      lines[3] == "• " + Escape(YANDEX_ERROR + my) &&
      lines[6] == "• " + Escape(BING_ERROR + mb) &&
      lines[9] == "• " + Escape(GOOGLE_ERROR + mg)
  {
  }
}
