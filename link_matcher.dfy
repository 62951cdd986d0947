/**
 * The link matcher: every non-overlapping match of the link pattern in a message, found by a
 * lexical scan.
 *
 * The pattern `((http|https)://)?[^\s]+\.wikipedia\.org[^\s]*` matches, leftmost first,
 * exactly the maximal whitespace-free runs ("tokens") of the message in which
 * `.wikipedia.org` occurs at an index of at least one: the optional scheme consists of
 * non-whitespace characters itself, the trailing `[^\s]*` runs greedily to the end of the
 * token, and a start strictly inside a token can match only if the token's own start can.
 */
module LinkMatcher {
  import opened Text

  const Domain := ".wikipedia.org"

  /** `.wikipedia.org` occurs in `t` starting at index `k`. */
  predicate DomainAt(t: string, k: nat) {
    k + |Domain| <= |t| && t[k..k + |Domain|] == Domain
  }

  /** A token is a link when the domain occurs in it after at least one character. */
  predicate Qualifies(t: string) {
    exists k: nat :: 1 <= k <= |t| && DomainAt(t, k)
  }

  /** A half-open range of character positions in the message. */
  datatype Span = Span(start: nat, end: nat)

  /** `s[a..b]` is a maximal non-empty run of non-whitespace characters. */
  predicate IsToken(s: string, a: nat, b: nat) {
    && a < b <= |s|
    && (forall k :: a <= k < b ==> !IsSpace(s[k]))
    && (a == 0 || IsSpace(s[a - 1]))
    && (b == |s| || IsSpace(s[b]))
  }

  /** Position `i` is not strictly inside a token. */
  predicate AtBoundary(s: string, i: nat)
    requires i <= |s|
  {
    i == 0 || i == |s| || IsSpace(s[i - 1]) || IsSpace(s[i])
  }

  /**
   * The first token at or after a boundary `i` starts where the whitespace after `i` ends;
   * every other token at or after `i` lies wholly beyond it.
   */
  lemma FirstTokenFrom(s: string, i: nat)
    requires i <= |s| && AtBoundary(s, i)
    ensures var a := SkipSpaces(s, i);
      a < |s| ==> IsToken(s, a, TokenEnd(s, a))
    ensures var a := SkipSpaces(s, i);
      forall a': nat, b': nat :: i <= a' && IsToken(s, a', b') ==>
        a < |s| && ((a' == a && b' == TokenEnd(s, a)) || TokenEnd(s, a) < a')
  {
    var a := SkipSpaces(s, i);
    forall a': nat, b': nat | i <= a' && IsToken(s, a', b')
      ensures a < |s| && ((a' == a && b' == TokenEnd(s, a)) || TokenEnd(s, a) < a')
    {
      assert !IsSpace(s[a']);
      if a' == a {
        assert b' == |s| || IsSpace(s[b']);
        assert TokenEnd(s, a) == |s| || IsSpace(s[TokenEnd(s, a)]);
      } else {
        assert IsSpace(s[a' - 1]);
      }
    }
  }

  /** Every span is a qualifying token at or after `i`. */
  predicate SpansAreLinks(s: string, i: nat, spans: seq<Span>) {
    forall n :: 0 <= n < |spans| ==>
      i <= spans[n].start && IsToken(s, spans[n].start, spans[n].end)
      && Qualifies(s[spans[n].start..spans[n].end])
  }

  /** The spans are disjoint and left to right. */
  predicate SpansOrdered(spans: seq<Span>) {
    forall m, n :: 0 <= m < n < |spans| ==> spans[m].end < spans[n].start
  }

  /** Every qualifying token at or after `i` is among the spans. */
  ghost predicate SpansComplete(s: string, i: nat, spans: seq<Span>) {
    forall a: nat, b: nat :: i <= a && IsToken(s, a, b) && Qualifies(s[a..b]) ==> Span(a, b) in spans
  }

  /** The spans of the qualifying tokens at or after `i`, left to right. */
  function ScanFrom(s: string, i: nat): (spans: seq<Span>)
    requires i <= |s| && AtBoundary(s, i)
    ensures SpansAreLinks(s, i, spans) && SpansOrdered(spans) && SpansComplete(s, i, spans)
    decreases |s| - i
  {
    FirstTokenFrom(s, i);
    var a := SkipSpaces(s, i);
    if a == |s| then []
    else
      var b := TokenEnd(s, a);
      var rest := ScanFrom(s, b);
      ScanStep(s, i, rest);
      if Qualifies(s[a..b]) then [Span(a, b)] + rest else rest
  }

  /** The first token after `i`, kept when it qualifies, followed by the scan after it, is the scan from `i`. */
  lemma ScanStep(s: string, i: nat, rest: seq<Span>)
    requires i <= |s| && AtBoundary(s, i) && SkipSpaces(s, i) < |s|
    requires var b := TokenEnd(s, SkipSpaces(s, i));
      SpansAreLinks(s, b, rest) && SpansOrdered(rest) && SpansComplete(s, b, rest)
    ensures var a := SkipSpaces(s, i);
      var b := TokenEnd(s, a);
      var spans := if Qualifies(s[a..b]) then [Span(a, b)] + rest else rest;
      SpansAreLinks(s, i, spans) && SpansOrdered(spans) && SpansComplete(s, i, spans)
  {
    var a := SkipSpaces(s, i);
    var b := TokenEnd(s, a);
    FirstTokenFrom(s, i);
    ScanStepComplete(s, i, rest);
    if Qualifies(s[a..b]) {
      ConsSpan(s, i, a, b, rest);
    }
  }

  /** A qualifying token before all the spans of a later scan can be put in front of them. */
  lemma ConsSpan(s: string, i: nat, a: nat, b: nat, rest: seq<Span>)
    requires i <= a && IsToken(s, a, b) && Qualifies(s[a..b])
    requires SpansAreLinks(s, b, rest) && SpansOrdered(rest)
    ensures SpansAreLinks(s, i, [Span(a, b)] + rest) && SpansOrdered([Span(a, b)] + rest)
  {
    var spans := [Span(a, b)] + rest;
    forall n | 0 <= n < |rest| ensures b < rest[n].start {
      assert !IsSpace(s[rest[n].start]);
    }
    forall n | 1 <= n < |spans| ensures spans[n] == rest[n - 1] {
    }
  }

  /** Completeness carries over from the scan after the first token to the scan from `i`. */
  lemma ScanStepComplete(s: string, i: nat, rest: seq<Span>)
    requires i <= |s| && AtBoundary(s, i) && SkipSpaces(s, i) < |s|
    requires SpansComplete(s, TokenEnd(s, SkipSpaces(s, i)), rest)
    ensures var a := SkipSpaces(s, i);
      var b := TokenEnd(s, a);
      SpansComplete(s, i, if Qualifies(s[a..b]) then [Span(a, b)] + rest else rest)
  {
    var a := SkipSpaces(s, i);
    var b := TokenEnd(s, a);
    var spans := if Qualifies(s[a..b]) then [Span(a, b)] + rest else rest;
    FirstTokenFrom(s, i);
    forall a': nat, b': nat | i <= a' && IsToken(s, a', b') && Qualifies(s[a'..b'])
      ensures Span(a', b') in spans
    {
      if a' == a && b' == b {
        assert spans[0] == Span(a, b);
      } else {
        assert Span(a', b') in rest;
      }
    }
  }

  /** The spans of all links of a message, left to right. */
  function LinkSpans(s: string): (spans: seq<Span>)
    ensures SpansAreLinks(s, 0, spans) && SpansOrdered(spans) && SpansComplete(s, 0, spans)
  {
    ScanFrom(s, 0)
  }

  /** All matches of the link pattern in a message: the text of each link, left to right. */
  function FindLinks(s: string): (links: seq<string>)
    ensures |links| == |LinkSpans(s)|
    ensures forall n :: 0 <= n < |links| ==>
      links[n] == s[LinkSpans(s)[n].start..LinkSpans(s)[n].end]
      && links[n] != [] && Qualifies(links[n])
      && forall k :: 0 <= k < |links[n]| ==> !IsSpace(links[n][k])
  {
    var spans := LinkSpans(s);
    seq(|spans|, n requires 0 <= n < |spans| => s[spans[n].start..spans[n].end])
  }

  /** A message has no links exactly when none of its tokens qualifies. */
  lemma NoLinksIff(s: string)
    ensures FindLinks(s) == [] <==> forall a: nat, b: nat :: IsToken(s, a, b) ==> !Qualifies(s[a..b])
  {
    if FindLinks(s) != [] {
      var sp := LinkSpans(s)[0];
      assert IsToken(s, sp.start, sp.end) && Qualifies(s[sp.start..sp.end]);
    } else {
      forall a: nat, b: nat | IsToken(s, a, b)
        ensures !Qualifies(s[a..b])
      {
        assert Span(a, b) !in LinkSpans(s);
      }
    }
  }

  /** Text in which `.wikipedia.org` never occurs holds no link. */
  lemma NoDomainNoLinks(s: string)
    requires forall k: nat :: !DomainAt(s, k)
    ensures FindLinks(s) == []
  {
    if FindLinks(s) != [] {
      var sp := LinkSpans(s)[0];
      var t := s[sp.start..sp.end];
      var k: nat :| 1 <= k <= |t| && DomainAt(t, k);
      assert t[k..k + |Domain|] == s[sp.start + k..sp.start + k + |Domain|];
      assert DomainAt(s, sp.start + k);
    }
  }
}
