/**
 * The two format-selection rules of the content-negotiation example, both
 * substring tests on the `Accept` header (no q-values), and `sendResponse`,
 * which turns a chosen format into a content type and a body.
 */
module Negotiation {
  import opened Optional
  import opened XmlSerializer

  const Json: string := "application/json"
  const Xml: string := "application/xml"
  const Html: string := "text/html"
  const TextXml: string := "text/xml"
  const NotAcceptableMessage: string := "Formato no soportado"

  /** `s.includes(sub)`. */
  predicate Contains(s: string, sub: string)
    decreases |s|
  {
    if |sub| > |s| then false
    else if s[..|sub|] == sub then true
    else Contains(s[1..], sub)
  }

  /** `Contains` is "occurs at some position", in both directions. */
  lemma {:induction false} ContainsSpec(s: string, sub: string)
    ensures Contains(s, sub) <==> exists i :: 0 <= i <= |s| - |sub| && s[i..][..|sub|] == sub
    decreases |s|
  {
    if |sub| <= |s| && s[..|sub|] != sub {
      ContainsSpec(s[1..], sub);
      if Contains(s, sub) {
        var i :| 0 <= i <= |s| - 1 - |sub| && s[1..][i..][..|sub|] == sub;
        assert s[i + 1..] == s[1..][i..];
      }
      if exists i :: 0 <= i <= |s| - |sub| && s[i..][..|sub|] == sub {
        var i :| 0 <= i <= |s| - |sub| && s[i..][..|sub|] == sub;
        assert i != 0;
        assert s[1..][i - 1..] == s[i..];
      }
    } else if |sub| <= |s| {
      assert s[0..] == s;
    }
  }

  // ---------------------------------------------------------------------
  // res.format
  // ---------------------------------------------------------------------

  /**
   * The content type the `res.format` override settles on; `accept` is
   * `req.headers.accept || ''`, so an absent header is the empty string.
   */
  function NegotiatedType(accept: string): (r: string)
    ensures r == Xml <==> Contains(accept, Xml) || Contains(accept, TextXml)
    ensures r == Html <==> !Contains(accept, Xml) && !Contains(accept, TextXml) && Contains(accept, Html)
    ensures r in {Json, Xml, Html}
  {
    if Contains(accept, Xml) || Contains(accept, TextXml) then Xml
    else if Contains(accept, Html) then Html
    else Json
  }

  /** What `res.format(formats)` does: run a formatter under a content type, or answer 406. */
  datatype Choice =
    | Formatted(contentType: string, formatter: string)
    | NotAcceptable(status: int, message: string)

  /**
   * `formats` is the set of content types the handler supplies a formatter
   * for. The formatter of the negotiated type runs if there is one, the
   * JSON formatter otherwise; the Content-Type header is the negotiated
   * type either way.
   */
  function ResFormat(accept: string, formats: set<string>): (r: Choice)
    ensures r.NotAcceptable? <==> NegotiatedType(accept) !in formats && Json !in formats
    ensures r.NotAcceptable? ==> r == NotAcceptable(406, NotAcceptableMessage)
    ensures r.Formatted? ==> r.contentType == NegotiatedType(accept) && r.formatter in formats
    ensures r.Formatted? && NegotiatedType(accept) in formats ==> r.formatter == NegotiatedType(accept)
  {
    var contentType := NegotiatedType(accept);
    if contentType in formats then Formatted(contentType, contentType)
    else if Json in formats then Formatted(contentType, Json)
    else NotAcceptable(406, NotAcceptableMessage)
  }

  /**
   * A handler that supplies all three formatters never answers 406 and
   * always runs the formatter of the type it announces.
   */
  lemma AllFormatsAlwaysServed(accept: string)
    ensures ResFormat(accept, {Json, Xml, Html}) == Formatted(NegotiatedType(accept), NegotiatedType(accept))
  {
  }

  /**
   * Falling back to JSON keeps the negotiated Content-Type: whenever the
   * handler lacks the negotiated formatter but has a JSON one, the JSON
   * formatter runs under the negotiated type.
   */
  lemma FallbackKeepsNegotiatedType(accept: string, formats: set<string>)
    requires NegotiatedType(accept) !in formats && Json in formats
    ensures ResFormat(accept, formats) == Formatted(NegotiatedType(accept), Json)
  {
  }

  /** For instance, a client asking for HTML from a JSON-only handler is told the body is HTML. */
  lemma HtmlClientOfJsonOnlyHandler()
    ensures ResFormat(Html, {Json}) == Formatted(Html, Json)
  {
    assert Contains(Html, Html) by {
      assert Html[..|Html|] == Html;
    }
    assert !Contains(Html, Xml);
    assert !Contains(Html[1..], TextXml) by {
      assert Html[1..][..|TextXml|][0] != TextXml[0];
    }
    assert Html[..|TextXml|][5] != TextXml[5];
    assert !Contains(Html, TextXml);
  }

  // ---------------------------------------------------------------------
  // The requestedFormat middleware and sendResponse
  // ---------------------------------------------------------------------

  datatype Format = JsonFormat | XmlFormat | HtmlFormat

  /** The `req.requestedFormat` the middleware records, from the header and `?format=`. */
  function RequestedFormat(accept: string, format: Option<string>): Format {
    if format == Some("xml") || Contains(accept, Xml) then XmlFormat
    else if format == Some("html") || Contains(accept, Html) then HtmlFormat
    else JsonFormat
  }

  /**
   * The query parameter and the header are read together, the XML test
   * first: a header asking for XML beats `?format=html`, and `?format=xml`
   * beats any header. JSON is chosen exactly when neither asks for XML or
   * HTML.
   */
  lemma RequestedFormatPrecedence(accept: string, format: Option<string>)
    ensures RequestedFormat(accept, format) == XmlFormat <==> format == Some("xml") || Contains(accept, Xml)
    ensures RequestedFormat(accept, format) == HtmlFormat <==>
      format != Some("xml") && !Contains(accept, Xml) && (format == Some("html") || Contains(accept, Html))
    ensures RequestedFormat(accept, format) == JsonFormat <==>
      format != Some("xml") && format != Some("html") && !Contains(accept, Xml) && !Contains(accept, Html)
  {
  }

  /** The string the middleware stores, as `sendResponse` receives it. */
  function FormatName(f: Format): string {
    match f
    case JsonFormat => "json"
    case XmlFormat => "xml"
    case HtmlFormat => "html"
  }

  /** The body `sendResponse` sends. */
  datatype Body =
    | XmlDocument(text: string)  // `objectToXML(data)` under the default root
    | AsIs(data: Value)          // `res.send(data)`: the value as given
    | JsonOf(data: Value)        // `res.json(data)`

  datatype Response = Response(contentType: string, body: Body)

  /** `sendResponse(res, data, format)`; the format defaults to `'json'`. */
  function SendResponse(data: Value, format: Option<string>): (r: Response)
    ensures r.contentType in {Json, Xml, Html}
    ensures r.contentType == Xml <==> format == Some("xml")
    ensures r.contentType == Html <==> format == Some("html")
    ensures r.contentType == Xml ==> r.body == XmlDocument(ObjectToXml(data, None))
    ensures r.contentType == Html ==> r.body == AsIs(data)
    ensures r.contentType == Json ==> r.body == JsonOf(data)
  {
    match format.GetOr("json")
    case "xml" => Response(Xml, XmlDocument(ObjectToXml(data, None)))
    case "html" => Response(Html, AsIs(data))
    case _ => Response(Json, JsonOf(data))
  }

  /** The content type a format is sent under. */
  function ContentTypeOf(f: Format): string {
    match f
    case JsonFormat => Json
    case XmlFormat => Xml
    case HtmlFormat => Html
  }

  /** What the middleware records is what `sendResponse` serves: the two meet on the format name. */
  lemma SendRequestedFormat(data: Value, accept: string, format: Option<string>)
    ensures SendResponse(data, Some(FormatName(RequestedFormat(accept, format)))).contentType
            == ContentTypeOf(RequestedFormat(accept, format))
  {
  }

  /**
   * Without `?format=`, the middleware and `res.format` agree on every
   * header that does not mention `text/xml`: the content type of the
   * requested format is the negotiated type.
   */
  lemma RulesAgreeWithoutTextXml(accept: string)
    requires !Contains(accept, TextXml)
    ensures ContentTypeOf(RequestedFormat(accept, None)) == NegotiatedType(accept)
  {
  }

  /** `text/xml` is recognised by `res.format` only: the middleware falls back to JSON for it. */
  lemma TextXmlOnlyNegotiated()
    ensures NegotiatedType(TextXml) == Xml
    ensures RequestedFormat(TextXml, None) == JsonFormat
  {
    assert Contains(TextXml, TextXml) by {
      assert TextXml[..|TextXml|] == TextXml;
    }
    assert !Contains(TextXml, Xml);
    assert !Contains(TextXml, Html);
  }
}
