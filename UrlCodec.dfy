/**
 * The parts of Python's `urllib.parse` the Bing scraper relies on:
 * `urlparse(href).query`, `parse_qs(query)` and `unquote(value)`.
 * Percent-decoding follows section 2.1 of RFC 3986; query parsing follows
 * the application/x-www-form-urlencoded parser of section 5.1 of the
 * WHATWG URL Standard as `parse_qs` implements it with its defaults
 * (separator `&`, blank values dropped).
 */
module UrlCodec {
  import opened Wrappers
  import opened Text

  predicate IsHexDigit(c: char)
  {
    '0' <= c <= '9' || 'a' <= c <= 'f' || 'A' <= c <= 'F'
  }

  function HexValue(c: char): (v: nat)
    requires IsHexDigit(c)
    ensures v < 16
  {
    if '0' <= c <= '9' then c as int - '0' as int
    else if 'a' <= c <= 'f' then c as int - 'a' as int + 10
    else c as int - 'A' as int + 10
  }

  /** The upper-case hex digit for `v`, as section 2.1 of RFC 3986 recommends. */
  function HexDigit(v: nat): (c: char)
    requires v < 16
    ensures IsHexDigit(c) && HexValue(c) == v
  {
    if v < 10 then ('0' as int + v) as char else ('A' as int + v - 10) as char
  }

  /**
   * `unquote(s)`: every `%` followed by two hex digits becomes the octet they
   * name; any other `%` stays as it is. The octet is taken as the character
   * with that code.
   */
  function PercentDecode(s: string): (r: string)
    ensures |r| <= |s|
    ensures |s| > 0 ==> |r| > 0
    decreases |s|
  {
    if |s| == 0 then ""
    else if s[0] == '%' && |s| >= 3 && IsHexDigit(s[1]) && IsHexDigit(s[2]) then
      [(16 * HexValue(s[1]) + HexValue(s[2])) as char] + PercentDecode(s[3..])
    else
      [s[0]] + PercentDecode(s[1..])
  }

  /** The unreserved characters of section 2.3 of RFC 3986. */
  predicate Unreserved(c: char)
  {
    'a' <= c <= 'z' || 'A' <= c <= 'Z' || '0' <= c <= '9' || c == '-' || c == '.' || c == '_' || c == '~'
  }

  /** A character that can appear in the output of `PercentEncode`. */
  predicate UrlSafe(c: char)
  {
    Unreserved(c) || c == '%'
  }

  predicate IsOctetString(s: string)
  {
    forall i :: 0 <= i < |s| ==> s[i] as int < 256
  }

  /** Percent-encoding of every character outside the unreserved set. */
  function PercentEncode(s: string): (r: string)
    requires IsOctetString(s)
    ensures forall i :: 0 <= i < |r| ==> UrlSafe(r[i])
    ensures |s| > 0 ==> |r| > 0
    decreases |s|
  {
    if |s| == 0 then ""
    else
      var c := s[0];
      var head := if Unreserved(c) then [c] else ['%', HexDigit(c as int / 16), HexDigit(c as int % 16)];
      head + PercentEncode(s[1..])
  }

  /** The form-decoding `parse_qs` applies to names and values: `+` is a space, then `unquote`. */
  function FormDecode(s: string): string
  {
    PercentDecode(Replace(s, "+", " "))
  }

  /** `urlparse(href).query`: after the first `?`, before the first `#`. */
  function QueryOf(href: string): (q: string)
    ensures '#' !in q
  {
    var beforeFragment := href[..IndexOf(href, '#')];
    var i := IndexOf(beforeFragment, '?');
    if i < |beforeFragment| then beforeFragment[i + 1..] else ""
  }

  /**
   * What `parse_qs` keeps of one field: the pair of its form-decoded name
   * and value, split at the first `=`, or nothing when the field has no `=`
   * or its value is empty.
   */
  function FieldPair(f: string): (r: seq<(string, string)>)
    ensures |r| <= 1
    ensures |r| == 1 ==> r[0].1 != ""
  {
    var i := IndexOf(f, '=');
    if i + 1 >= |f| then [] else [(FormDecode(f[..i]), FormDecode(f[i + 1..]))]
  }

  /** The name/value pairs `parse_qs` keeps from the `&`-separated fields, in order. */
  function QueryPairs(fields: seq<string>): seq<(string, string)>
  {
    FlatMap(fields, FieldPair)
  }

  function ParseQs(query: string): seq<(string, string)>
  {
    QueryPairs(Split(query, '&'))
  }

  /** `parse_qs(query).get(name, [""])[0]`, with `None` for the missing key. */
  function FirstValue(pairs: seq<(string, string)>, name: string): (v: Option<string>)
    ensures v.Some? ==> exists k :: 0 <= k < |pairs| && pairs[k] == (name, v.value) &&
                                    forall j :: 0 <= j < k ==> pairs[j].0 != name
    ensures v.None? ==> forall k :: 0 <= k < |pairs| ==> pairs[k].0 != name
    decreases |pairs|
  {
    if |pairs| == 0 then None
    else if pairs[0].0 == name then Some(pairs[0].1)
    else FirstValue(pairs[1..], name)
  }

  // ---------------------------------------------------------------------
  // Lemmas

  /** Decoding undoes encoding (section 2.1 of RFC 3986). */
  lemma {:induction false} DecodeEncode(s: string)
    requires IsOctetString(s)
    ensures PercentDecode(PercentEncode(s)) == s
    decreases |s|
  {
    if |s| > 0 {
      var c := s[0];
      var rest := PercentEncode(s[1..]);
      DecodeEncode(s[1..]);
      if Unreserved(c) {
        assert PercentEncode(s) == [c] + rest;
      } else {
        var e := ['%', HexDigit(c as int / 16), HexDigit(c as int % 16)];
        assert PercentEncode(s) == e + rest;
        assert (e + rest)[3..] == rest;
      }
      assert s == [c] + s[1..];
    }
  }

  /** Decoding changes nothing in a string without `%`. */
  lemma {:induction false} DecodeWithoutPercent(s: string)
    requires '%' !in s
    ensures PercentDecode(s) == s
    decreases |s|
  {
    if |s| > 0 {
      DecodeWithoutPercent(s[1..]);
      assert s == [s[0]] + s[1..];
    }
  }

  /** For a one-character pattern, `in` is character membership. */
  lemma {:induction false} ContainsChar(s: string, c: char)
    ensures Contains(s, [c]) <==> c in s
    decreases |s|
  {
    if |s| > 0 {
      ContainsChar(s[1..], c);
      assert s == [s[0]] + s[1..];
    }
  }

  /** Form-decoding a string of plain characters changes nothing. */
  lemma FormDecodePlain(s: string)
    requires '+' !in s && '%' !in s
    ensures FormDecode(s) == s
  {
    ContainsChar(s, '+');
    ReplaceAbsent(s, "+", " ");
    DecodeWithoutPercent(s);
  }

  /** Form-decoding a percent-encoded string gives the original string back. */
  lemma FormDecodeEncoded(t: string)
    requires IsOctetString(t)
    ensures FormDecode(PercentEncode(t)) == t
  {
    var e := PercentEncode(t);
    ContainsChar(e, '+');
    ReplaceAbsent(e, "+", " ");
    DecodeEncode(t);
  }

  /** The query is the text between the first `?` and the fragment, when there is one. */
  lemma {:induction false} QueryBetweenMarks(base: string, q: string, end: string)
    requires '?' !in base && '#' !in base && '#' !in q
    requires end == [] || end[0] == '#'
    ensures QueryOf(base + "?" + q + end) == q
  {
    var front := base + ['?'] + q;
    var href := front + end;
    assert base + "?" + q + end == href;
    if end == [] {
      assert '#' !in href;
      IndexOfAbsent(href, '#');
      assert href[..|href|] == front;
    } else {
      assert '#' !in front;
      IndexOfAfter(front, '#', end[1..]);
      assert href == front + ['#'] + end[1..];
      assert href[..|front|] == front;
    }
    IndexOfAfter(base, '?', q);
    assert front[|base| + 1..] == q;
  }

  /** The fields of two consecutive parts of a query are parsed independently, in order. */
  lemma {:induction false} QueryPairsAppend(a: seq<string>, b: seq<string>)
    ensures QueryPairs(a + b) == QueryPairs(a) + QueryPairs(b)
  {
    FlatMapAppend(a, b, FieldPair);
  }

  /** At most one pair per field, and never a pair with an empty value. */
  lemma {:induction false} QueryPairsBounds(fields: seq<string>)
    ensures |QueryPairs(fields)| <= |fields|
    ensures forall k :: 0 <= k < |QueryPairs(fields)| ==> QueryPairs(fields)[k].1 != ""
    decreases |fields|
  {
    if |fields| > 0 {
      var n := |fields| - 1;
      QueryPairsBounds(fields[..n]);
      assert QueryPairs(fields) == QueryPairs(fields[..n]) + FieldPair(fields[n]);
    }
  }

  /** `parse_qs` of two queries joined by `&` is the pairs of the first, then of the second. */
  lemma {:induction false} ParseQsAppend(a: string, b: string)
    ensures ParseQs(a + "&" + b) == ParseQs(a) + ParseQs(b)
  {
    assert a + "&" + b == a + ['&'] + b;
    SplitAppend(a, b, '&');
    QueryPairsAppend(Split(a, '&'), Split(b, '&'));
  }

  /** A field `name=value` with a non-empty value becomes the pair of its form-decoded parts. */
  lemma {:induction false} FieldWithValue(name: string, value: string)
    requires '=' !in name && value != ""
    ensures QueryPairs([name + "=" + value]) == [(FormDecode(name), FormDecode(value))]
  {
    var f := name + "=" + value;
    QueryPairsOfOne(f);
    assert f == name + ['='] + value;
    IndexOfAfter(name, '=', value);
    assert f[..|name|] == name;
    assert f[|name| + 1..] == value;
  }

  /** A leading field `name=value` with a non-empty value supplies the first value for its name. */
  lemma {:induction false} LeadingFieldValue(fields: seq<string>, name: string, value: string)
    requires '=' !in name && value != ""
    requires |fields| >= 1 && fields[0] == name + "=" + value
    ensures FirstValue(QueryPairs(fields), FormDecode(name)) == Some(FormDecode(value))
  {
    var f := fields[0];
    FieldWithValue(name, value);
    assert fields == [f] + fields[1..];
    QueryPairsAppend([f], fields[1..]);
    var pairs := QueryPairs(fields);
    assert pairs == QueryPairs([f]) + QueryPairs(fields[1..]);
    assert pairs[0] == (FormDecode(name), FormDecode(value));
  }

  lemma {:induction false} QueryPairsOfOne(f: string)
    ensures QueryPairs([f]) == FieldPair(f)
  {
    var fields := [f];
    assert fields[..|fields| - 1] == [];
    assert FlatMap(fields, FieldPair) == FlatMap(fields[..|fields| - 1], FieldPair) + FieldPair(fields[|fields| - 1]);
  }

  /** A field without `=` is dropped. */
  lemma {:induction false} FieldWithoutEquals(f: string)
    requires '=' !in f
    ensures QueryPairs([f]) == []
  {
    QueryPairsOfOne(f);
    IndexOfAbsent(f, '=');
  }

  /** A field `name=` with a blank value is dropped. */
  lemma {:induction false} FieldWithBlankValue(name: string)
    requires '=' !in name
    ensures QueryPairs([name + "="]) == []
  {
    QueryPairsOfOne(name + "=");
    IndexOfAfter(name, '=', "");
    assert name + "=" == name + ['='] + "";
  }

  /** Pairs without the name in front do not change which value is found first. */
  lemma {:induction false} FirstValueSkip(p: seq<(string, string)>, q: seq<(string, string)>, name: string)
    requires forall k :: 0 <= k < |p| ==> p[k].0 != name
    ensures FirstValue(p + q, name) == FirstValue(q, name)
    decreases |p|
  {
    if |p| == 0 {
      assert p + q == q;
    } else {
      FirstValueSkip(p[1..], q, name);
      assert (p + q)[0] == p[0];
      assert (p + q)[1..] == p[1..] + q;
    }
  }
}
