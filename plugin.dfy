/**
 * The message handler `MessageHasBeenPosted`: for each link in a post not written by the bot,
 * extract a title, request its summary, and reply with the summary under the post's parent
 * (a new top-level post when the post has none).
 * A failure at the split, request, empty-response or parse step skips that link only; a link
 * with no page match makes the handler panic.
 */
module WikipediaPlugin {
  import opened Wrappers
  import opened Text
  import opened LinkMatcher
  import opened TitleExtractor
  import opened Summary

  /** The fields of a Mattermost post that the handler reads or writes. */
  datatype Post = Post(userId: string, message: string, parentId: string, channelId: string)

  datatype LogLevel = Warn | Error

  datatype LogEntry = LogEntry(level: LogLevel, text: string)

  /** What handling one link amounts to. */
  datatype LinkResult =
    | NoTitle                                  // no page match: the handler panics
    | SplitFailed                              // more than two `#` parts: warned, skipped
    | GetFailed(url: string, err: string)      // the request failed: warned, skipped
    | EmptyResponse(url: string)               // a nil response: logged, skipped
    | ParseFailed(url: string, err: string)    // the parser failed: logged, skipped
    | Replied(url: string, options: set<string>) // a reply with one of `options` is posted

  /** How a call of the handler ends. */
  datatype Exit = Returned | PanickedAt(index: nat)

  /** The handling of one link, given what the request and decoding give for each URL. */
  function HandleLink(link: string, fetch: string -> HttpResult): (r: LinkResult)
    ensures r.NoTitle? <==> ExtractTitle(link).NoPageMatch?
    ensures r.SplitFailed? <==> ExtractTitle(link).TooManyParts?
    ensures ExtractTitle(link).Title? ==> r.url == QueryUrl(ExtractTitle(link).title)
  {
    match ExtractTitle(link)
    case NoPageMatch => NoTitle
    case TooManyParts => SplitFailed
    case Title(title) => Fetched(QueryUrl(title), fetch(QueryUrl(title)))
  }

  /** The handling of a link once its summary request `url` has given `resp`. */
  function Fetched(url: string, resp: HttpResult): (r: LinkResult)
    ensures !r.NoTitle? && !r.SplitFailed? && r.url == url
    ensures r.GetFailed? <==> resp.GetError?
    ensures r.EmptyResponse? <==> resp.NilResponse?
    ensures r.Replied? <==> resp.Got? && ParseOutcome(resp.body).Success?
  {
    match resp
    case GetError(err) => GetFailed(url, err)
    case NilResponse => EmptyResponse(url)
    case Got(body) =>
      match ParseOutcome(body)
      case Failure(err) => ParseFailed(url, err)
      case Success(options) => Replied(url, options)
  }

  function HandleAll(links: seq<string>, fetch: string -> HttpResult): (results: seq<LinkResult>)
    ensures |results| == |links|
    ensures forall j :: 0 <= j < |links| ==> results[j] == HandleLink(links[j], fetch)
  {
    seq(|links|, j requires 0 <= j < |links| => HandleLink(links[j], fetch))
  }

  /** The index of the first link that panics, or the number of links. */
  function FirstPanic(results: seq<LinkResult>): (n: nat)
    ensures n <= |results|
    ensures forall j :: 0 <= j < n ==> !results[j].NoTitle?
    ensures n < |results| ==> results[n].NoTitle?
  {
    if results == [] || results[0].NoTitle? then 0 else 1 + FirstPanic(results[1..])
  }

  /** A link that does not panic before the first panic moves the first panic no earlier. */
  lemma FirstPanicPast(results: seq<LinkResult>, i: nat)
    requires i <= FirstPanic(results) && i < |results| && !results[i].NoTitle?
    ensures i + 1 <= FirstPanic(results)
  {
  }

  /** A link that panics, with none before it, is the first panic. */
  lemma FirstPanicAt(results: seq<LinkResult>, i: nat)
    requires i <= FirstPanic(results) && i < |results| && results[i].NoTitle?
    ensures FirstPanic(results) == i
  {
  }

  /** The URLs requested while handling a link. */
  function RequestOf(r: LinkResult): seq<string> {
    if r.NoTitle? || r.SplitFailed? then [] else [r.url]
  }

  /** The URLs requested while handling links with these results, in order. */
  function Requests(results: seq<LinkResult>): seq<string>
    decreases |results|
  {
    if results == [] then []
    else Requests(results[..|results| - 1]) + RequestOf(results[|results| - 1])
  }

  /** The warning for a link whose anchor holds another `#`. */
  function SplitWarning(link: string): (e: LogEntry)
    ensures e.level == Warn && |link| < |e.text| && e.text[|e.text| - |link|..] == link
  {
    LogEntry(Warn, "Couldn't find title in Wikipedia link " + link)
  }

  /** The warning for a failed request. */
  function GetWarning(link: string, err: string): (e: LogEntry)
    ensures e.level == Warn && |link| + 2 + |err| < |e.text|
    ensures e.text[|e.text| - |err| - 2 - |link|..] == link + ": " + err
  {
    LogEntry(Warn, "Something went wrong getting " + link + ": " + err)
  }

  const EmptyResponseError := LogEntry(Error, "response was empty")

  /** The log entries written while handling a link. */
  function LogOf(link: string, r: LinkResult): (entries: seq<LogEntry>)
    ensures |entries| <= 1
    ensures entries == [] <==> r.NoTitle? || r.Replied?
    ensures entries != [] ==> (entries[0].level == Warn <==> r.SplitFailed? || r.GetFailed?)
    ensures r.EmptyResponse? ==> entries == [LogEntry(Error, "response was empty")]
    ensures r.ParseFailed? ==> entries == [LogEntry(Error, r.err)]
  {
    match r
    case NoTitle => []
    case SplitFailed => [SplitWarning(link)]
    case GetFailed(_, err) => [GetWarning(link, err)]
    case EmptyResponse(_) => [EmptyResponseError]
    case ParseFailed(_, err) => [LogEntry(Error, err)]
    case Replied(_, _) => []
  }

  /** The log entries written while handling these links, in order. */
  function Logs(links: seq<string>, results: seq<LinkResult>): seq<LogEntry>
    requires |links| == |results|
    decreases |results|
  {
    if results == [] then []
    else
      var n := |results| - 1;
      Logs(links[..n], results[..n]) + LogOf(links[n], results[n])
  }

  /** `texts` are the reply texts of these link results: one for each reply, chosen from its options, in order. */
  ghost predicate Realizes(results: seq<LinkResult>, texts: seq<string>)
    decreases |results|
  {
    if results == [] then texts == []
    else
      var n := |results| - 1;
      if results[n].Replied? then
        texts != [] && texts[|texts| - 1] in results[n].options
        && Realizes(results[..n], texts[..|texts| - 1])
      else Realizes(results[..n], texts)
  }

  /** The number of links that get a reply. */
  function CountReplied(results: seq<LinkResult>): nat
    decreases |results|
  {
    if results == [] then 0
    else CountReplied(results[..|results| - 1]) + (if results[|results| - 1].Replied? then 1 else 0)
  }

  /**
   * The reply the bot posts with `text` for a post: the bot as author, in the post's channel,
   * under the post's parent (a new top-level post when the post has none).
   */
  function Reply(botId: string, post: Post, text: string): Post {
    Post(botId, text, post.parentId, post.channelId)
  }

  /**
   * The replies posted with these texts, in order: each by the bot, in the triggering post's
   * channel, under that post's parent (not under the post itself).
   */
  function Replies(botId: string, post: Post, texts: seq<string>): (replies: seq<Post>)
    ensures |replies| == |texts|
    ensures forall j :: 0 <= j < |texts| ==>
      && replies[j].userId == botId && replies[j].message == texts[j]
      && replies[j].parentId == post.parentId && replies[j].channelId == post.channelId
  {
    seq(|texts|, j requires 0 <= j < |texts| => Reply(botId, post, texts[j]))
  }

  /** Each link gets at most one reply: as many replies as links whose handling succeeded. */
  lemma {:induction false} RealizesCount(results: seq<LinkResult>, texts: seq<string>)
    requires Realizes(results, texts)
    ensures |texts| == CountReplied(results) <= |results|
    decreases |results|
  {
    if results != [] {
      var n := |results| - 1;
      if results[n].Replied? {
        RealizesCount(results[..n], texts[..|texts| - 1]);
      } else {
        RealizesCount(results[..n], texts);
      }
    }
  }

  /** The texts a link result offers for its reply: none unless it is a reply. */
  function OfferedTexts(r: LinkResult): set<string> {
    if r.Replied? then r.options else {}
  }

  /** Every reply text is one offered by a link that got a reply. */
  lemma {:induction false} RealizedTexts(results: seq<LinkResult>, texts: seq<string>)
    requires Realizes(results, texts)
    ensures forall j :: 0 <= j < |texts| ==>
      exists n :: 0 <= n < |results| && texts[j] in OfferedTexts(results[n])
    decreases |results|
  {
    if results != [] {
      var last := |results| - 1;
      var prefix := results[..last];
      var earlier := if results[last].Replied? then texts[..|texts| - 1] else texts;
      RealizedTexts(prefix, earlier);
      forall j | 0 <= j < |texts|
        ensures exists n :: 0 <= n < |results| && texts[j] in OfferedTexts(results[n])
      {
        if j < |earlier| {
          assert texts[j] == earlier[j];
          var m :| 0 <= m < |prefix| && earlier[j] in OfferedTexts(prefix[m]);
          assert results[m] == prefix[m];
        } else {
          assert texts[j] in OfferedTexts(results[last]);
        }
      }
    }
  }

  /** Handling one more link appends its requests and log entries to those made so far. */
  lemma StepTrace(links: seq<string>, results: seq<LinkResult>, i: nat, requested: seq<string>, log: seq<LogEntry>)
    requires |links| == |results| && i < |results|
    ensures requested + Requests(results[..i + 1]) == requested + Requests(results[..i]) + RequestOf(results[i])
    ensures log + Logs(links[..i + 1], results[..i + 1]) == log + Logs(links[..i], results[..i]) + LogOf(links[i], results[i])
  {
    var rs, ls := results[..i + 1], links[..i + 1];
    assert rs[..i] == results[..i] && rs[i] == results[i];
    assert Requests(rs) == Requests(results[..i]) + RequestOf(results[i]);
    assert ls[..i] == links[..i] && ls[i] == links[i];
    assert Logs(ls, rs) == Logs(links[..i], results[..i]) + LogOf(links[i], results[i]);
  }

  /** A link that gets no reply adds no reply text. */
  lemma StepSkip(results: seq<LinkResult>, i: nat, texts: seq<string>)
    requires i < |results| && !results[i].Replied? && Realizes(results[..i], texts)
    ensures Realizes(results[..i + 1], texts)
  {
    assert results[..i + 1][..i] == results[..i];
  }

  /** One more reply text means one more reply after those posted so far. */
  lemma RepliesSnoc(botId: string, post: Post, created: seq<Post>, texts: seq<string>, text: string)
    ensures created + Replies(botId, post, texts + [text]) == created + Replies(botId, post, texts) + [Reply(botId, post, text)]
  {
    assert Replies(botId, post, texts + [text]) == Replies(botId, post, texts) + [Reply(botId, post, text)];
  }

  /** A link that gets a reply adds one of its texts. */
  lemma StepReply(results: seq<LinkResult>, i: nat, texts: seq<string>, text: string)
    requires i < |results| && results[i].Replied? && text in results[i].options
    requires Realizes(results[..i], texts)
    ensures Realizes(results[..i + 1], texts + [text])
  {
    assert results[..i + 1][..i] == results[..i];
    assert (texts + [text])[..|texts|] == texts;
  }

  /**
   * A message none of whose whitespace-free runs holds `.wikipedia.org` after its first character
   * causes no request, no log entry and no reply.
   */
  lemma QuietMessage(message: string, fetch: string -> HttpResult, texts: seq<string>)
    requires forall a: nat, b: nat :: IsToken(message, a, b) ==> !Qualifies(message[a..b])
    ensures var links := FindLinks(message);
      var results := HandleAll(links, fetch);
      var n := FirstPanic(results);
      && n == |links| == 0
      && Requests(results[..n]) == [] && Logs(links[..n], results[..n]) == []
      && (Realizes(results[..n], texts) <==> texts == [])
  {
    NoLinksIff(message);
  }

  /** A link is requested only under a title that is non-empty and free of `#` and whitespace. */
  lemma RequestedTitleShape(link: string, fetch: string -> HttpResult)
    ensures forall url :: url in RequestOf(HandleLink(link, fetch)) ==>
      exists title :: ExtractTitle(link) == Title(title) && url == QueryUrl(title)
        && title != [] && '#' !in title && NoSpace(title)
  {
    if ExtractTitle(link).Title? {
      TitleShape(link);
    }
  }

  /** Links that differ only in a single `#`-anchor are handled alike. */
  lemma HandleIgnoresAnchor(base: string, anchor: string, fetch: string -> HttpResult)
    requires '#' !in base && NoSpace(base) && ExtractTitle(base).Title?
    requires anchor != [] && '#' !in anchor && NoSpace(anchor)
    ensures HandleLink(base + "#" + anchor, fetch) == HandleLink(base, fetch)
  {
    AnchorDiscarded(base, anchor);
  }

  /** A link whose anchor holds another `#` is skipped with a warning and never requested. */
  lemma DoubleAnchorNotRequested(base: string, fragment: string, fetch: string -> HttpResult)
    requires '#' !in base && NoSpace(base) && ExtractTitle(base).Title?
    requires '#' in fragment && NoSpace(fragment)
    ensures var link := base + "#" + fragment;
      HandleLink(link, fetch) == SplitFailed && RequestOf(HandleLink(link, fetch)) == []
      && LogOf(link, HandleLink(link, fetch)) == [LogEntry(Warn, "Couldn't find title in Wikipedia link " + link)]
  {
    DoubleAnchorSkipped(base, fragment);
  }

  /** The plugin: the bot's identity, the posts it created, and the requests and log entries it made. */
  class Plugin {
    const botId: string
    var created: seq<Post>
    ghost var requested: seq<string>
    ghost var log: seq<LogEntry>

    constructor (botId: string)
      ensures this.botId == botId && created == [] && requested == [] && log == []
    {
      this.botId := botId;
      created := [];
      requested := [];
      log := [];
    }

    /**
     * Handle a posted message. The bot's own posts are ignored. Otherwise the links are handled
     * in order until one panics: each link is requested, logged and replied to as `HandleLink`
     * says, and `texts` are the chosen reply texts.
     */
    method MessageHasBeenPosted(post: Post, fetch: string -> HttpResult) returns (exit: Exit, ghost texts: seq<string>)
      modifies this
      ensures post.userId == botId ==>
        exit == Returned && created == old(created) && requested == old(requested) && log == old(log)
      ensures post.userId != botId ==>
        var links := FindLinks(post.message);
        var results := HandleAll(links, fetch);
        var n := FirstPanic(results);
        && exit == (if n < |links| then PanickedAt(n) else Returned)
        && requested == old(requested) + Requests(results[..n])
        && log == old(log) + Logs(links[..n], results[..n])
        && Realizes(results[..n], texts)
        && created == old(created) + Replies(botId, post, texts)
    {
      texts := [];
      if post.userId == botId {
        return Returned, texts;
      }
      var links := FindLinks(post.message);
      ghost var results := HandleAll(links, fetch);
      for i := 0 to |links|
        invariant i <= FirstPanic(results)
        invariant requested == old(requested) + Requests(results[..i])
        invariant log == old(log) + Logs(links[..i], results[..i])
        invariant Realizes(results[..i], texts)
        invariant created == old(created) + Replies(botId, post, texts)
      {
        StepTrace(links, results, i, old(requested), old(log));
        var panicked, text := HandleOneLink(post, links[i], fetch);
        if panicked {
          FirstPanicAt(results, i);
          return PanickedAt(i), texts;
        }
        FirstPanicPast(results, i);
        if results[i].Replied? {
          StepReply(results, i, texts, text);
          RepliesSnoc(botId, post, old(created), texts, text);
          texts := texts + [text];
        } else {
          StepSkip(results, i, texts);
        }
      }
      return Returned, texts;
    }

    /**
     * The loop body of the handler for one link: extract the title, request the summary,
     * parse it and post the reply, logging and giving up on this link at each failure.
     * `panicked` reports that the page pattern did not match, where Go indexes a nil slice.
     */
    method HandleOneLink(post: Post, link: string, fetch: string -> HttpResult) returns (panicked: bool, ghost text: string)
      modifies this
      ensures var r := HandleLink(link, fetch);
        && panicked == r.NoTitle?
        && requested == old(requested) + RequestOf(r)
        && log == old(log) + LogOf(link, r)
        && (r.Replied? ==> text in r.options && created == old(created) + [Reply(botId, post, text)])
        && (!r.Replied? ==> created == old(created))
    {
      panicked, text := false, "";
      var extraction := TakeApart(link);
      if extraction.NoPageMatch? {
        return true, text;
      }
      if extraction.TooManyParts? {
        log := log + [SplitWarning(link)];
        return;
      }
      var url := QueryUrl(extraction.title);
      requested := requested + [url];
      text := ReplyFor(post, link, url, fetch(url));
    }

    /**
     * The rest of the loop body once the summary request `url` has given `resp`: log a failed
     * or empty response, or parse it and post the reply.
     */
    method ReplyFor(post: Post, link: string, url: string, resp: HttpResult) returns (ghost text: string)
      modifies this
      ensures var r := Fetched(url, resp);
        && requested == old(requested)
        && log == old(log) + LogOf(link, r)
        && (r.Replied? ==> text in r.options && created == old(created) + [Reply(botId, post, text)])
        && (!r.Replied? ==> created == old(created))
    {
      text := "";
      if resp.GetError? {
        log := log + [GetWarning(link, resp.err)];
        return;
      }
      if resp.NilResponse? {
        log := log + [EmptyResponseError];
        return;
      }
      var message := MessageContentFromResponse(resp.body);
      if message.Failure? {
        log := log + [LogEntry(Error, message.error)];
        return;
      }
      created := created + [Reply(botId, post, message.value)];
      text := message.value;
    }
  }

  /**
   * Taking a link apart as the handler's loop body does: the page match, its split on `#`, and
   * the removal of the `wiki/` prefix from the first part. This is the imperative form of
   * `ExtractTitle`, which specifies it.
   */
  method TakeApart(link: string) returns (extraction: Extraction)
    ensures extraction == ExtractTitle(link)
  {
    var pageMatch := PageMatch(link);
    if pageMatch.None? {
      return NoPageMatch;
    }
    var titleAndAnchor := Split(pageMatch.value, '#');
    var title: string;
    if |titleAndAnchor| == 1 {
      title := titleAndAnchor[0];
    } else if |titleAndAnchor| == 2 {
      title := titleAndAnchor[0];
    } else {
      return TooManyParts;
    }
    if Marker <= title {
      title := title[|Marker|..];
    }
    return Title(title);
  }
}
