/**
 * Character classes and the few `strings` package operations the plugin uses,
 * on strings as sequences of characters.
 */
module Text {

  /** RE2's `\s`: space, tab, newline, form feed and carriage return (not vertical tab). */
  predicate IsSpace(c: char) {
    c == ' ' || c == '\t' || c == '\n' || c == '\U{000C}' || c == '\r'
  }

  /** `s` holds no whitespace. */
  predicate NoSpace(s: string) {
    forall k :: 0 <= k < |s| ==> !IsSpace(s[k])
  }

  /** The first index at or after `i` that is not whitespace, or `|s|`. */
  function SkipSpaces(s: string, i: nat): (j: nat)
    requires i <= |s|
    ensures i <= j <= |s|
    ensures forall k :: i <= k < j ==> IsSpace(s[k])
    ensures j < |s| ==> !IsSpace(s[j])
    decreases |s| - i
  {
    if i == |s| || !IsSpace(s[i]) then i else SkipSpaces(s, i + 1)
  }

  /** The end of the run of non-whitespace characters that starts at `i` (RE2 `[^\s]*`). */
  function TokenEnd(s: string, i: nat): (j: nat)
    requires i <= |s|
    ensures i <= j <= |s|
    ensures forall k :: i <= k < j ==> !IsSpace(s[k])
    ensures j < |s| ==> IsSpace(s[j])
    decreases |s| - i
  {
    if i == |s| || IsSpace(s[i]) then i else TokenEnd(s, i + 1)
  }

  /** A non-whitespace run that stops at whitespace or at the end is the one `TokenEnd` finds. */
  lemma TokenEndIs(s: string, i: nat, j: nat)
    requires i <= j <= |s|
    requires forall k :: i <= k < j ==> !IsSpace(s[k])
    requires j == |s| || IsSpace(s[j])
    ensures TokenEnd(s, i) == j
  {
  }

  /** A whitespace-free suffix is one run to the end. */
  lemma TokenEndOfSuffix(a: string, t: string)
    requires NoSpace(t)
    ensures TokenEnd(a + t, |a|) == |a + t|
  {
    var s := a + t;
    forall k | |a| <= k < |s| ensures !IsSpace(s[k]) {
      assert s[k] == t[k - |a|];
    }
    TokenEndIs(s, |a|, |s|);
  }

  /** Dropping a prefix of the first part of a concatenation. */
  lemma DropAppend(a: string, b: string, p: nat)
    requires p <= |a|
    ensures (a + b)[p..] == a[p..] + b
  {
  }

  /** The index of the first `c` in `s`, or `|s|` when `c` does not occur. */
  function IndexOf(s: string, c: char): (i: nat)
    ensures i <= |s|
    ensures c !in s[..i]
    ensures i < |s| ==> s[i] == c
    ensures i == |s| <==> c !in s
  {
    if s == [] || s[0] == c then 0
    else
      var i := 1 + IndexOf(s[1..], c);
      assert s[..i] == [s[0]] + s[1..][..i - 1];
      i
  }

  /** A separator-free prefix that stops at the separator or the end is the first piece of a split. */
  lemma SplitFirst(s: string, sep: char, w: string)
    requires w <= s && sep !in w && (|w| == |s| || s[|w|] == sep)
    ensures Split(s, sep)[0] == w
  {
    var i := IndexOf(s, sep);
    assert i <= |w| by {
      if |w| < |s| {
        assert s[|w|] == sep;
      }
    }
    assert forall j :: 0 <= j < |w| ==> s[j] == w[j] != sep;
  }

  /** The pieces of `s` between the occurrences of a one-character separator. */
  function Split(s: string, sep: char): (parts: seq<string>)
    ensures |parts| >= 1
    ensures forall k :: 0 <= k < |parts| ==> sep !in parts[k]
    decreases |s|
  {
    var i := IndexOf(s, sep);
    if i == |s| then [s] else [s[..i]] + Split(s[i + 1..], sep)
  }

  /** The pieces glued together with a one-character separator between them: the inverse of `Split`. */
  function Join(parts: seq<string>, sep: char): string
  {
    if parts == [] then ""
    else if |parts| == 1 then parts[0]
    else parts[0] + [sep] + Join(parts[1..], sep)
  }

  /** `s` cut at the first occurrence of a one-character separator: one piece when there is none, two otherwise. */
  function SplitN2(s: string, sep: char): (parts: seq<string>)
    ensures 1 <= |parts| <= 2
    ensures sep !in parts[0]
  {
    var i := IndexOf(s, sep);
    if i == |s| then [s] else [s[..i], s[i + 1..]]
  }

  /** The first of at most two parts when `s` is cut at a line break: the text before the first one. */
  function FirstLine(s: string): (r: string)
    ensures r <= s
    ensures '\n' !in r
    ensures '\n' !in s ==> r == s
    ensures |r| < |s| ==> s[|r|] == '\n'
  {
    SplitN2(s, '\n')[0]
  }

  /** Joining the pieces of a split gives back the original string. */
  lemma {:induction false} JoinSplit(s: string, sep: char)
    ensures Join(Split(s, sep), sep) == s
    decreases |s|
  {
    var i := IndexOf(s, sep);
    if i < |s| {
      var rest := Split(s[i + 1..], sep);
      var parts := Split(s, sep);
      assert parts == [s[..i]] + rest;
      assert parts[1..] == rest;
      JoinSplit(s[i + 1..], sep);
      calc {
        Join(parts, sep);
        parts[0] + [sep] + Join(rest, sep);
        s[..i] + [sep] + s[i + 1..];
        { assert s == s[..i] + [sep] + s[i + 1..]; }
        s;
      }
    }
  }

  /** Splitting gives one more piece than there are separators. */
  lemma {:induction false} SplitCount(s: string, sep: char)
    ensures |Split(s, sep)| == multiset(s)[sep] + 1
    decreases |s|
  {
    var i := IndexOf(s, sep);
    if i < |s| {
      SplitCount(s[i + 1..], sep);
      CountAfterFirst(s, i, sep);
    } else {
      assert multiset(s)[sep] == 0;
    }
  }

  /** Up to its first occurrence at `i`, `c` occurs once more in `s` than after `i`. */
  lemma CountAfterFirst(s: string, i: nat, c: char)
    requires i < |s| && s[i] == c && c !in s[..i]
    ensures multiset(s)[c] == multiset(s[i + 1..])[c] + 1
  {
    assert s == s[..i] + [c] + s[i + 1..];
    assert multiset(s) == multiset(s[..i]) + multiset{c} + multiset(s[i + 1..]);
    assert multiset(s[..i])[c] == 0;
  }

  /** A string without the separator splits into itself alone. */
  lemma SplitNone(x: string, sep: char)
    requires sep !in x
    ensures Split(x, sep) == [x]
  {
  }

  /** One separator between two separator-free strings splits them apart again. */
  lemma SplitAround(x: string, y: string, sep: char)
    requires sep !in x && sep !in y
    ensures Split(x + [sep] + y, sep) == [x, y]
  {
    var s := x + [sep] + y;
    var i := IndexOf(s, sep);
    assert s[..|x|] == x && s[|x|] == sep;
    assert i == |x|;
    assert s[..i] == x && s[i + 1..] == y;
    SplitNone(y, sep);
  }

  /** `SplitN` with a limit of two loses nothing either. */
  lemma SplitN2Join(s: string, sep: char)
    ensures Join(SplitN2(s, sep), sep) == s
  {
    var i := IndexOf(s, sep);
    if i < |s| {
      assert s == s[..i] + [sep] + s[i + 1..];
    }
  }
}
