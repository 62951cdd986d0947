# Wikipedia link summaries for Mattermost, in Dafny

This project models the message handler of the Mattermost Wikipedia plugin
(`server/plugin.go`) and proves properties of it. When a user posts a message,
the plugin finds every Wikipedia link in it. For each link it takes the page
title out of the link, requests the page's introduction from the Wikipedia API,
and replies with the first line of the summary, under the post's parent (a new
top-level post when the post has none). The bot's
own posts are ignored.

The model follows the pipeline, one module per stage:

- `Text`: whitespace as RE2's `\s` sees it, whitespace-free runs, and Go's
  `strings.Split` and `strings.SplitN(s, "\n", 2)` for one-character
  separators.
- `LinkMatcher`: the link pattern `wikiURLPattern`, stated as a lexical scan.
  The links are the maximal whitespace-free runs ("tokens") of the message in
  which `.wikipedia.org` occurs at index 1 or later, left to right.
- `TitleExtractor`: the page pattern `wikiPagePattern` and its leftmost match.
  Then the split of the match on `#`, and the removal of the `wiki/` prefix.
- `Summary`: the summary request URL, and the parser
  `messageContentFromResponse` over an already decoded page map.
- `WikipediaPlugin`: the per-link outcome as a function (`HandleLink`). Also a
  `Plugin` class whose `MessageHasBeenPosted` method runs the loop over links.
  The class holds the posts the bot creates, plus ghost records of the
  requested URLs and of the log entries.

`http.Get`, reading the body and JSON decoding are modelled as one oracle
`fetch: string -> HttpResult`. It gives a transport error, a nil response, or a
body that failed to read, failed to decode, or decoded to a page map.

Three points where the code's behaviour differs from a prose description of the
plugin. The model follows the code in each:

- A link with no `wiki/` followed by a title character is not skipped. The code
  indexes the nil result of `FindStringSubmatch` (`server/plugin.go:66`), which
  panics. The model ends the handler with `PanickedAt(i)`. Requests, log
  entries and replies for the links before `i` remain; later links are not
  handled.
- `wiki/` is matched anywhere in the link, not only as a path segment. So
  `https://en.wikipedia.org/notwiki/Foo` yields the title `Foo`. `PageMatch`
  and `TitleAfterLeftmostMarker` state this: the leftmost `wiki/` counts,
  whatever comes before it.
- The title goes into the request URL verbatim. No percent-decoding or
  percent-encoding is done (`QueryUrl`).

## Model

| member | source | states |
|---|---|---|
| Text.FirstLine | server/plugin.go:136 | the text before the first `"\n"`: a prefix of the extract with no line break, the whole extract when it has none, and otherwise followed by a line break |
| Text.SplitN2Join | server/plugin.go:136 | joining the two parts of `SplitN(s, "\n", 2)` gives `s` back |
| Text.Split | server/plugin.go:66 | splitting on `#` gives at least one part, and no part holds a `#`; `JoinSplit` and `SplitCount` relate the parts back to the match |
| Text.SplitN2 | server/plugin.go:136 | cutting at the first line break gives one or two parts, the first without a line break; `SplitN2Join` shows nothing is lost |
| Text.JoinSplit | server/plugin.go:66 | `strings.Split` on `#` loses nothing: joining the parts with `#` gives the match back |
| Text.SplitCount | server/plugin.go:66-76 | the split has one more part than the match has `#` characters, which decides the 1 / 2 / more branches |
| Text.SplitAround | server/plugin.go:66-75 | a single `#` between two `#`-free strings splits into exactly those two parts |
| Text.SplitFirst | server/plugin.go:66-74 | part 0 of the split is the `#`-free prefix that ends at the first `#` or at the end |
| LinkMatcher.ScanFrom | server/plugin.go:19 | the spans found from a boundary are exactly the qualifying tokens after it: each span is a qualifying token, spans are disjoint and left to right, and no qualifying token is missed |
| LinkMatcher.LinkSpans | server/plugin.go:19 | the same three properties for the whole message |
| LinkMatcher.FindLinks | server/plugin.go:65 | the links iterated are the texts of those spans, in order; each is non-empty, whitespace-free and contains `.wikipedia.org` at index 1 or later |
| LinkMatcher.NoLinksIff | server/plugin.go:19 | a message has no links exactly when none of its tokens holds `.wikipedia.org` at index 1 or later |
| LinkMatcher.NoDomainNoLinks | server/plugin.go:19 | a message in which `.wikipedia.org` never occurs has no links |
| TitleExtractor.FindMarker | server/plugin.go:23 | the search returns the leftmost position where the page pattern can match (`wiki/` followed by a character that is neither whitespace nor `#`), or none when there is no such position |
| TitleExtractor.TitleEnd | server/plugin.go:23 | the title run `[^\s#]+` ends at the first whitespace or `#`, or at the end |
| TitleExtractor.PageMatch | server/plugin.go:23 | the page pattern matches nowhere exactly when no `wiki/` is followed by a title character; otherwise the match is the text of the link that starts at the leftmost such `wiki/`, begins with `wiki/` plus at least one more character, and holds no whitespace (`AnchoredMatch` and `TitleAfterLeftmostMarker` say where it ends) |
| TitleExtractor.TrimMarker | server/plugin.go:84-86 | a title that starts with `wiki/` loses exactly that prefix; any other title is kept as it is |
| TitleExtractor.ExtractTitle | server/plugin.go:66-86 | there is no page match exactly when the pattern finds nothing; an extracted title, with `wiki/` put back in front, is a prefix of the match, and it holds no `#` (`NoPageMatchIff`, `TitleShape` and `TitleAfterLeftmostMarker` state the rest) |
| TitleExtractor.NoPageMatchIff | server/plugin.go:66 | extraction fails with no page match exactly when no `wiki/` in the link is followed by a title character |
| TitleExtractor.TitleAfterLeftmostMarker | server/plugin.go:66-86 | when extraction succeeds, the title is the whole, non-empty run of title characters right after the leftmost `wiki/`; the `wiki/` prefix is always removed and any anchor is dropped |
| TitleExtractor.TitleShape | server/plugin.go:66-86 | an extracted title is non-empty and holds neither `#` nor whitespace |
| TitleExtractor.AnchoredMatch | server/plugin.go:23 | appending `#` and a non-empty whitespace-free tail to an anchor-free link extends the page match by exactly that text |
| TitleExtractor.AnchorDiscarded | server/plugin.go:70-75 | adding a single `#`-anchor to a link leaves its extracted title unchanged |
| TitleExtractor.DoubleAnchorSkipped | server/plugin.go:76-79 | an anchor that itself holds a `#` gives more than two parts, and the extraction says so |
| Summary.QueryUrl | server/plugin.go:88-97 | the request URL is the fixed prefix, then the title verbatim, then the fixed suffix; `RequestedTitleOfQueryUrl` and `QueryUrlOfRequestedTitle` read it back |
| Summary.RequestedTitleOfQueryUrl | server/plugin.go:88-97 | the request URL is the fixed prefix, the raw title and the fixed suffix: the title can be read back from it unchanged |
| Summary.QueryUrlOfRequestedTitle | server/plugin.go:88-97 | every string of that shape is the request URL of the title read from it |
| Summary.QueryUrlInjective | server/plugin.go:88-97 | different titles are requested with different URLs |
| Summary.MessageContentFromResponse | server/plugin.go:124-140 | a read or decode error is passed on; an empty page map gives the error `"shit"` and never a text; otherwise the result is the first line of the extract of some entry of the map |
| Summary.SummariesAreFirstLines | server/plugin.go:135-139 | the possible results are empty exactly when the map is; each is a line-break-free prefix of an entry's extract, and the whole extract when it has no line break |
| WikipediaPlugin.HandleLink | server/plugin.go:66-120 | a link panics exactly when it has no page match and is skipped at the split exactly when extraction finds more than two `#`-parts; otherwise its one request goes to the summary URL of the extracted title |
| WikipediaPlugin.Fetched | server/plugin.go:99-120 | once requested, a link fails at the request exactly on a transport error, fails as empty exactly on a nil response, and gets a reply exactly when the body parses; every outcome carries the requested URL |
| WikipediaPlugin.SplitWarning | server/plugin.go:77 | the split failure is logged as a warning whose text ends with the link |
| WikipediaPlugin.GetWarning | server/plugin.go:100 | a failed request is logged as a warning whose text ends with the link, `": "` and the error |
| WikipediaPlugin.LogOf | server/plugin.go:77-112 | a link writes at most one log entry, and one exactly when it is skipped after its page match; the entry is a warning for a split or request failure and an error (the fixed text `"response was empty"`, or the parser's error) for a nil response or a parse failure |
| WikipediaPlugin.FirstPanic | server/plugin.go:66 | the handler gets through the links up to the first one without a page match; all earlier links have one |
| WikipediaPlugin.Replies | server/plugin.go:115-120 | each reply is posted by the bot with the chosen text, under the triggering post's parent (not the post itself) and in its channel |
| WikipediaPlugin.RealizesCount | server/plugin.go:65-121 | at most one reply per link: as many replies as links whose handling got through every step |
| WikipediaPlugin.RealizedTexts | server/plugin.go:109-120 | every reply text is one the parser may return for the response of a link that got a reply |
| WikipediaPlugin.QuietMessage | server/plugin.go:65 | a message none of whose tokens holds `.wikipedia.org` at index 1 or later causes no request, no log entry and no reply |
| WikipediaPlugin.RequestedTitleShape | server/plugin.go:84-97 | a URL is requested only for an extracted title, which is non-empty and free of `#` and whitespace |
| WikipediaPlugin.HandleIgnoresAnchor | server/plugin.go:70-75 | links that differ only in a single `#`-anchor are requested, logged and answered alike |
| WikipediaPlugin.DoubleAnchorNotRequested | server/plugin.go:76-79 | a link whose anchor holds another `#` is skipped with the warning "Couldn't find title in Wikipedia link ..." and never requested |
| WikipediaPlugin.TakeApart | server/plugin.go:66-86 | the loop body's title extraction (match, split on `#`, prefix removal), written as statements, computes `ExtractTitle` |
| WikipediaPlugin.Plugin.constructor | server/plugin.go:41 | a plugin starts with the bot id it is given and has created, requested and logged nothing |
| WikipediaPlugin.Plugin.MessageHasBeenPosted | server/plugin.go:60-122 | a post by the bot changes nothing; otherwise the links are handled in order up to the first panic: the requests and log entries are those of each handled link in order, one reply is appended per successful link, and the handler returns or panics at that link |
| WikipediaPlugin.Plugin.HandleOneLink | server/plugin.go:66-120 | one pass of the loop body: it panics exactly when there is no page match, and otherwise requests, logs and replies as `HandleLink` says |
| WikipediaPlugin.Plugin.ReplyFor | server/plugin.go:99-120 | after the request: a transport error is warned about, a nil response and a parse error are logged as errors, and a parsed summary is posted as one reply |

## Left out

- `http.Get`, `ioutil.ReadAll` and `json.Unmarshal` are not modelled. Their combined outcome for a URL is the oracle `fetch`, which is assumed to give the same answer each time it is asked about the same URL.
- `OnActivate` and `ServeHTTP` (bot provisioning, the profile image, file reading) are not modelled. The bot id is a constructor argument.
- `configurationLock` and `configuration` are not modelled. The handler never uses them.
- The unused pattern `wikilinkPattern` is not modelled.
- Logging is a ghost sequence of (level, text) entries. The Mattermost logging API is not modelled.
- `CreatePost` is an append to the `created` sequence. Its result and possible failure are ignored, as the code ignores them.
- Concurrency between handler calls is not modelled. Each call runs alone.
- LinkMatcher.FindLinks: the scan is not proved equal to RE2's leftmost-first matching of `wikiURLPattern`. The equivalence is argued in the module comment: the optional scheme is made of non-whitespace characters, the trailing `[^\s]*` runs greedily to the end of the token, and a start inside a token can match only if the token's own start can.
- TitleExtractor.PageMatch: the page pattern is modelled by a direct search for its leftmost match, not by a regex engine.
- WikipediaPlugin.Plugin.MessageHasBeenPosted: the panic at `server/plugin.go:66` is an exit value `PanickedAt(i)`. It does not unwind the Mattermost plugin process.
- Summary.MessageContentFromResponse: Go's randomised map iteration order is a nondeterministic choice of an entry. Which entry is chosen is not specified.
