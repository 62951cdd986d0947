/**
 * The title extractor: the whole leftmost match of the page pattern in a link, the split of
 * that match on `#`, and the removal of the `wiki/` prefix.
 *
 * The pattern `wiki/[^\s#]+(#[^\s]+)?` matches, leftmost first, at the first `wiki/` that is
 * followed by a character other than whitespace and `#`; the title run is then the longest
 * such run, and the optional anchor group takes `#` and the whole whitespace-free run after it
 * when that run is not empty.
 */
module TitleExtractor {
  import opened Wrappers
  import opened Text

  const Marker := "wiki/"

  /** A character of the class `[^\s#]`. */
  predicate TitleChar(c: char) {
    !IsSpace(c) && c != '#'
  }

  /** `wiki/` starts at `p` and a title character follows it, so the pattern can match at `p`. */
  predicate MarkerAt(s: string, p: nat) {
    p + |Marker| < |s| && s[p..p + |Marker|] == Marker && TitleChar(s[p + |Marker|])
  }

  /** The leftmost position at or after `from` where the pattern can match. */
  function FindMarker(s: string, from: nat): (r: Option<nat>)
    requires from <= |s|
    ensures r.Some? ==> from <= r.value && MarkerAt(s, r.value)
    ensures r.Some? ==> forall q: nat :: from <= q < r.value ==> !MarkerAt(s, q)
    ensures r.None? ==> forall q: nat :: from <= q ==> !MarkerAt(s, q)
    decreases |s| - from
  {
    if from == |s| then None
    else if MarkerAt(s, from) then Some(from)
    else FindMarker(s, from + 1)
  }

  /** The end of the run of title characters that starts at `i` (RE2 `[^\s#]*`). */
  function TitleEnd(s: string, i: nat): (j: nat)
    requires i <= |s|
    ensures i <= j <= |s|
    ensures forall k :: i <= k < j ==> TitleChar(s[k])
    ensures j < |s| ==> !TitleChar(s[j])
    decreases |s| - i
  {
    if i == |s| || !TitleChar(s[i]) then i else TitleEnd(s, i + 1)
  }

  /** The whole leftmost match of the page pattern in `s`, or None when the pattern matches nowhere. */
  function PageMatch(s: string): (r: Option<string>)
    ensures r.None? <==> forall p: nat :: !MarkerAt(s, p)
    ensures r.Some? ==> var p := FindMarker(s, 0).value;
      p + |r.value| <= |s| && r.value == s[p..p + |r.value|]
    ensures r.Some? ==> |Marker| < |r.value| && Marker <= r.value && NoSpace(r.value)
  {
    match FindMarker(s, 0)
    case None => None
    case Some(p) =>
      var q := TitleEnd(s, p + |Marker|);
      var e := if q + 1 < |s| && s[q] == '#' && !IsSpace(s[q + 1]) then TokenEnd(s, q + 1) else q;
      MatchShape(s, p, q, e);
      Some(s[p..e])
  }

  /** A match is `wiki/` followed by a non-empty run without whitespace. */
  lemma MatchShape(s: string, p: nat, q: nat, e: nat)
    requires MarkerAt(s, p) && q == TitleEnd(s, p + |Marker|) && q <= e <= |s|
    requires forall k :: q < k < e ==> !IsSpace(s[k])
    requires q < e ==> s[q] == '#'
    ensures |Marker| < |s[p..e]| && Marker <= s[p..e] && NoSpace(s[p..e])
  {
    var m := s[p..e];
    forall k | 0 <= k < |m| ensures !IsSpace(m[k]) {
      if k < |Marker| {
        assert m[k] == Marker[k];
      }
    }
  }

  /** Removes a leading `wiki/`, as the handler does before building the request. */
  function TrimMarker(t: string): (r: string)
    ensures Marker <= t ==> Marker + r == t
    ensures !(Marker <= t) ==> r == t
  {
    if Marker <= t then t[|Marker|..] else t
  }

  /** The outcome of taking a link apart. */
  datatype Extraction =
    | Title(title: string)   // one or two `#`-separated parts; any anchor is dropped
    | TooManyParts           // the anchor holds another `#`: warn and skip the link
    | NoPageMatch            // the pattern found nothing: indexing the nil result panics

  /** Title extraction for one link, as the handler does it before fetching. */
  function ExtractTitle(link: string): (r: Extraction)
    ensures r.NoPageMatch? <==> PageMatch(link).None?
    ensures r.Title? ==> Marker + r.title <= PageMatch(link).value && '#' !in r.title
  {
    match PageMatch(link)
    case None => NoPageMatch
    case Some(m) =>
      var titleAndAnchor := Split(m, '#');
      if |titleAndAnchor| == 1 || |titleAndAnchor| == 2 then
        FirstPartTrimmed(m);
        Title(TrimMarker(titleAndAnchor[0]))
      else TooManyParts
  }

  /** The first `#`-part of a match, without `wiki/`, is what follows `wiki/` up to any `#`. */
  lemma FirstPartTrimmed(m: string)
    requires Marker <= m
    ensures var t := TrimMarker(Split(m, '#')[0]); Marker + t <= m && '#' !in t
  {
    var i := IndexOf(m, '#');
    assert Split(m, '#')[0] == m[..i];
    assert forall j :: 0 <= j < |Marker| ==> m[j] == Marker[j] != '#';
    assert Marker <= m[..i];
  }

  /** `p` is the leftmost position where the page pattern matches. */
  predicate LeftmostMarker(s: string, p: nat) {
    MarkerAt(s, p) && forall q: nat :: q < p ==> !MarkerAt(s, q)
  }

  /** The search finds the leftmost marker. */
  lemma FindMarkerLeftmost(s: string, p: nat)
    requires LeftmostMarker(s, p)
    ensures FindMarker(s, 0) == Some(p)
  {
  }

  /** The link is not handled exactly when no `wiki/` in it is followed by a title character. */
  lemma NoPageMatchIff(link: string)
    ensures ExtractTitle(link).NoPageMatch? <==> forall p: nat :: !MarkerAt(link, p)
  {
    if ExtractTitle(link).NoPageMatch? {
      assert FindMarker(link, 0).None?;
    }
  }

  /** `t` is a non-empty run of title characters at `i` in `s` that cannot be extended. */
  predicate IsTitleRun(s: string, i: nat, t: string) {
    && t != []
    && (forall k :: 0 <= k < |t| ==> TitleChar(t[k]))
    && i + |t| <= |s| && s[i..i + |t|] == t
    && (i + |t| == |s| || !TitleChar(s[i + |t|]))
  }

  /**
   * A successful extraction yields the non-empty run of title characters right after the
   * leftmost marker, with the `wiki/` prefix removed and nothing after the run.
   */
  lemma TitleAfterLeftmostMarker(link: string, p: nat)
    requires LeftmostMarker(link, p)
    ensures !ExtractTitle(link).NoPageMatch?
    ensures ExtractTitle(link).Title? ==> IsTitleRun(link, p + |Marker|, ExtractTitle(link).title)
  {
    FindMarkerLeftmost(link, p);
    TitleIsRun(link, p);
    RunAfterMarker(link, p);
  }

  /** The title run after a marker is non-empty and stops at the end or at a non-title character. */
  lemma RunAfterMarker(link: string, p: nat)
    requires MarkerAt(link, p)
    ensures IsTitleRun(link, p + |Marker|, link[p + |Marker|..TitleEnd(link, p + |Marker|)])
  {
    var start := p + |Marker|;
    var q := TitleEnd(link, start);
    assert forall k :: 0 <= k < q - start ==> link[start..q][k] == link[start + k];
  }

  /** The extracted title is the title run after the marker the search finds. */
  lemma TitleIsRun(link: string, p: nat)
    requires FindMarker(link, 0) == Some(p)
    ensures ExtractTitle(link).Title? ==>
      ExtractTitle(link).title == link[p + |Marker|..TitleEnd(link, p + |Marker|)]
  {
    var q := TitleEnd(link, p + |Marker|);
    FirstPartIsRun(link, p);
    TrimmedRun(link, p, q);
  }

  /** The first `#`-separated part of the page match is the marker and its title run. */
  lemma FirstPartIsRun(link: string, p: nat)
    requires FindMarker(link, 0) == Some(p)
    ensures PageMatch(link).Some?
      && Split(PageMatch(link).value, '#')[0] == link[p..TitleEnd(link, p + |Marker|)]
  {
    var q := TitleEnd(link, p + |Marker|);
    MatchStartsWithRun(link, p);
    RunHasNoHash(link, p, q);
    SplitFirst(PageMatch(link).value, '#', link[p..q]);
  }

  /** Removing the marker from the marker and its title run leaves the run. */
  lemma TrimmedRun(link: string, p: nat, q: nat)
    requires MarkerAt(link, p) && p + |Marker| <= q <= |link|
    ensures TrimMarker(link[p..q]) == link[p + |Marker|..q]
  {
    assert link[p..q][..|Marker|] == link[p..p + |Marker|];
  }

  /** The page match starts with the marker and its title run, followed by `#` or nothing. */
  lemma MatchStartsWithRun(link: string, p: nat)
    requires FindMarker(link, 0) == Some(p)
    ensures var q := TitleEnd(link, p + |Marker|);
      && PageMatch(link).Some? && var m := PageMatch(link).value;
      && link[p..q] <= m && (q - p == |m| || m[q - p] == '#')
  {
  }

  /** The marker and the title run after it hold no `#`. */
  lemma RunHasNoHash(link: string, p: nat, q: nat)
    requires MarkerAt(link, p) && q == TitleEnd(link, p + |Marker|)
    ensures '#' !in link[p..q]
  {
    forall k | 0 <= k < q - p ensures link[p..q][k] != '#' {
      if k < |Marker| {
        assert link[p..q][k] == link[p..p + |Marker|][k] == Marker[k];
      } else {
        assert TitleChar(link[p + k]);
      }
    }
  }

  /** An extracted title is non-empty and holds neither `#` nor whitespace. */
  lemma TitleShape(link: string)
    requires ExtractTitle(link).Title?
    ensures var t := ExtractTitle(link).title; t != [] && '#' !in t && NoSpace(t)
  {
    var p := FindMarker(link, 0).value;
    TitleAfterLeftmostMarker(link, p);
    var t := ExtractTitle(link).title;
    assert forall k :: 0 <= k < |t| ==> TitleChar(t[k]);
  }

  /** A run of title characters that stops at a non-title character or the end is the one `TitleEnd` finds. */
  lemma TitleEndIs(s: string, i: nat, j: nat)
    requires i <= j <= |s|
    requires forall k :: i <= k < j ==> TitleChar(s[k])
    requires j == |s| || !TitleChar(s[j])
    ensures TitleEnd(s, i) == j
  {
  }

  /** The page match of a whitespace-free, anchor-free link runs from its leftmost marker to its end. */
  lemma PlainMatch(base: string, p: nat)
    requires '#' !in base && NoSpace(base) && FindMarker(base, 0) == Some(p)
    ensures PageMatch(base) == Some(base[p..])
  {
    assert forall k :: p + |Marker| <= k < |base| ==> TitleChar(base[k]);
    TitleEndIs(base, p + |Marker|, |base|);
    assert base[p..|base|] == base[p..];
  }

  /** Appending `#tail` to such a link extends its page match by exactly that. */
  lemma AnchoredMatch(base: string, tail: string, p: nat)
    requires '#' !in base && NoSpace(base) && FindMarker(base, 0) == Some(p)
    requires tail != [] && NoSpace(tail)
    ensures PageMatch(base + "#" + tail) == Some(base[p..] + "#" + tail)
  {
    var link := base + "#" + tail;
    AnchoredLinkMarker(base, tail, p);
    AnchoredTitleEnd(base, tail, p);
    AnchoredTokenEnd(base, tail);
    assert |link| == |base| + 1 + |tail| && link[|base|] == '#' && link[|base| + 1] == tail[0];
    AnchorMatchAt(link, p, |base|);
    DropAppend(base + "#", tail, p);
    DropAppend(base, "#", p);
  }

  /** After the leftmost marker the title run of `base#tail` stops at the `#`. */
  lemma AnchoredTitleEnd(base: string, tail: string, p: nat)
    requires '#' !in base && NoSpace(base) && p + |Marker| <= |base|
    ensures TitleEnd(base + "#" + tail, p + |Marker|) == |base|
  {
    var link := base + "#" + tail;
    forall k | p + |Marker| <= k < |base| ensures TitleChar(link[k]) {
      assert link[k] == base[k];
    }
    assert link[|base|] == '#';
    TitleEndIs(link, p + |Marker|, |base|);
  }

  /** The anchor group of `base#tail` runs to the end of the link. */
  lemma AnchoredTokenEnd(base: string, tail: string)
    requires NoSpace(tail)
    ensures TokenEnd(base + "#" + tail, |base| + 1) == |base| + 1 + |tail|
  {
    TokenEndOfSuffix(base + "#", tail);
  }

  /** The page match when the title run is followed by `#` and a whitespace-free rest. */
  lemma AnchorMatchAt(s: string, p: nat, q: nat)
    requires FindMarker(s, 0) == Some(p) && q == TitleEnd(s, p + |Marker|)
    requires q + 1 < |s| && s[q] == '#' && !IsSpace(s[q + 1]) && TokenEnd(s, q + 1) == |s|
    ensures PageMatch(s) == Some(s[p..])
  {
    assert s[p..|s|] == s[p..];
  }

  /** Appending a single `#`-anchor to a link leaves its title unchanged. */
  lemma AnchorDiscarded(base: string, anchor: string)
    requires '#' !in base && NoSpace(base) && ExtractTitle(base).Title?
    requires anchor != [] && '#' !in anchor && NoSpace(anchor)
    ensures ExtractTitle(base + "#" + anchor) == ExtractTitle(base)
  {
    var p := FindMarker(base, 0).value;
    PlainMatch(base, p);
    AnchoredMatch(base, anchor, p);
    assert '#' !in base[p..] by {
      assert forall j :: 0 <= j < |base| - p ==> base[p..][j] == base[p + j];
    }
    SplitAround(base[p..], anchor, '#');
    SplitNone(base[p..], '#');
  }

  /** An anchor that itself holds a `#` makes the split yield more than two parts. */
  lemma DoubleAnchorSkipped(base: string, fragment: string)
    requires '#' !in base && NoSpace(base) && ExtractTitle(base).Title?
    requires '#' in fragment && NoSpace(fragment)
    ensures ExtractTitle(base + "#" + fragment) == TooManyParts
  {
    var p := FindMarker(base, 0).value;
    AnchoredMatch(base, fragment, p);
    var m := base[p..] + "#" + fragment;
    SplitCount(m, '#');
    assert multiset(m) == multiset(base[p..]) + multiset{'#'} + multiset(fragment);
    assert multiset(fragment)['#'] >= 1;
  }

  /** The leftmost marker of a whitespace-free, anchor-free link stays leftmost after `#` and more. */
  lemma AnchoredLinkMarker(base: string, anchor: string, p: nat)
    requires '#' !in base && FindMarker(base, 0) == Some(p)
    ensures FindMarker(base + "#" + anchor, 0) == Some(p)
  {
    var link := base + "#" + anchor;
    assert link[p..p + |Marker|] == base[p..p + |Marker|];
    forall q: nat | q < p ensures !MarkerAt(link, q) {
      assert link[q..q + |Marker|] == base[q..q + |Marker|];
      assert link[q + |Marker|] == base[q + |Marker|];
      assert !MarkerAt(base, q);
    }
    FindMarkerLeftmost(link, p);
  }
}
