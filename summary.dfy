/**
 * The summary fetcher's request URL and the summary parser `messageContentFromResponse`.
 * The HTTP request, reading the body and JSON decoding are not modelled: their combined
 * outcome is a value of `HttpResult`, supplied from outside.
 */
module Summary {
  import opened Wrappers
  import opened Text

  /** One entry of `query.pages` in the API's JSON reply. */
  datatype WikiResult = WikiResult(title: string, extract: string, pageId: int)

  /** What reading and decoding a response body gave. */
  datatype Body =
    | ReadError(err: string)                          // the body could not be read
    | DecodeError(err: string)                        // the body is not the expected JSON
    | Decoded(pages: map<string, WikiResult>)         // the decoded `query.pages` map

  /** What the HTTP request gave. */
  datatype HttpResult =
    | GetError(err: string)                           // a transport error
    | NilResponse                                     // no error, but a nil response
    | Got(body: Body)

  const QueryPrefix := "https://en.wikipedia.org/w/api.php?action=query&titles="
  const QuerySuffix :=
    "&format=json" + "&prop=extracts" + "&exintro=true" + "&explaintext=true"
    + "&exsentences=1" + "&exlimit=1"

  /** The error text `messageContentFromResponse` returns for an empty page map. */
  const EmptyPagesError := "shit"

  /** The summary request for a title; the title goes in verbatim, without percent-encoding. */
  function QueryUrl(title: string): (url: string)
    ensures |url| == |QueryPrefix| + |title| + |QuerySuffix|
    ensures QueryPrefix <= url && url[|QueryPrefix|..|QueryPrefix| + |title|] == title
    ensures url[|QueryPrefix| + |title|..] == QuerySuffix
  {
    QueryPrefix + title + QuerySuffix
  }

  /** The title a summary request URL asks for, if it is one. */
  function RequestedTitle(url: string): Option<string> {
    if |QueryPrefix| + |QuerySuffix| <= |url| && QueryPrefix <= url
       && url[|url| - |QuerySuffix|..] == QuerySuffix
    then Some(url[|QueryPrefix|..|url| - |QuerySuffix|])
    else None
  }

  /** Every title can be read back from its request URL. */
  lemma RequestedTitleOfQueryUrl(title: string)
    ensures RequestedTitle(QueryUrl(title)) == Some(title)
  {
    var url := QueryUrl(title);
    assert url[..|QueryPrefix|] == QueryPrefix;
    assert url[|url| - |QuerySuffix|..] == QuerySuffix;
    assert url[|QueryPrefix|..|url| - |QuerySuffix|] == title;
  }

  /** A string that starts with `prefix` and ends with `suffix` is the two around its middle. */
  lemma Reassembled(s: string, prefix: string, suffix: string)
    requires |prefix| + |suffix| <= |s| && prefix <= s && s[|s| - |suffix|..] == suffix
    ensures prefix + s[|prefix|..|s| - |suffix|] + suffix == s
  {
    assert s == s[..|prefix|] + s[|prefix|..|s| - |suffix|] + s[|s| - |suffix|..];
  }

  /** Every summary request URL is the request URL of the title read from it. */
  lemma QueryUrlOfRequestedTitle(url: string)
    requires RequestedTitle(url).Some?
    ensures QueryUrl(RequestedTitle(url).value) == url
  {
    Reassembled(url, QueryPrefix, QuerySuffix);
  }

  /** Distinct titles are requested with distinct URLs. */
  lemma QueryUrlInjective(t1: string, t2: string)
    requires QueryUrl(t1) == QueryUrl(t2)
    ensures t1 == t2
  {
    RequestedTitleOfQueryUrl(t1);
    RequestedTitleOfQueryUrl(t2);
  }

  /** The texts the parser may return for a non-empty page map: one per entry. */
  function Summaries(pages: map<string, WikiResult>): set<string> {
    set k | k in pages :: FirstLine(pages[k].extract)
  }

  /** The parser's outcome, with the set of texts it may choose from on success. */
  function ParseOutcome(body: Body): Result<set<string>, string> {
    match body
    case ReadError(err) => Failure(err)
    case DecodeError(err) => Failure(err)
    case Decoded(pages) => if pages == map[] then Failure(EmptyPagesError) else Success(Summaries(pages))
  }

  /** A parser result agrees with `ParseOutcome`: the same error, or one of the allowed texts. */
  predicate ParsedAs(body: Body, r: Result<string, string>) {
    match ParseOutcome(body)
    case Failure(err) => r == Failure(err)
    case Success(texts) => r.Success? && r.value in texts
  }

  /**
   * `messageContentFromResponse`: the error of a failed read or decode, an error for an empty
   * page map, and otherwise the first line of the extract of one entry, chosen in no
   * particular order.
   */
  method MessageContentFromResponse(body: Body) returns (r: Result<string, string>)
    ensures body.ReadError? ==> r == Failure(body.err)
    ensures body.DecodeError? ==> r == Failure(body.err)
    ensures body.Decoded? && body.pages == map[] ==> r == Failure(EmptyPagesError)
    ensures body.Decoded? && body.pages != map[] ==>
      r.Success? && exists k :: k in body.pages && r.value == FirstLine(body.pages[k].extract)
    ensures ParsedAs(body, r)
  {
    match body
    case ReadError(err) => r := Failure(err);
    case DecodeError(err) => r := Failure(err);
    case Decoded(pages) =>
      if pages == map[] {
        r := Failure(EmptyPagesError);
      } else {
        var key :| key in pages.Keys;
        r := Success(FirstLine(pages[key].extract));
        assert r.value in Summaries(pages);
      }
  }

  /**
   * Each text the parser may return is a line-break-free prefix of an entry's extract, the
   * whole extract when it has no line break; a non-empty map always offers one.
   */
  lemma SummariesAreFirstLines(pages: map<string, WikiResult>)
    ensures (Summaries(pages) == {}) <==> (pages == map[])
    ensures forall t :: t in Summaries(pages) ==>
      exists k :: k in pages && t <= pages[k].extract && '\n' !in t
        && ('\n' !in pages[k].extract ==> t == pages[k].extract)
  {
    if pages != map[] {
      var k :| k in pages;
      assert FirstLine(pages[k].extract) in Summaries(pages);
    }
  }
}
