/**
 * The few Python `str` behaviours the components depend on: the
 * `str.isspace` character set (also what regex `\s` means), `strip`,
 * `startswith`, `splitlines`, `"sep".join`, and the
 * "one text or a list of texts" argument normalisation.
 */
module PyStr {

  /** Python's `str.isspace` set; `re`'s `\s` on str patterns is the same set. */
  predicate IsSpace(c: char)
  {
    ('\U{9}' <= c <= '\U{D}') || ('\U{1C}' <= c <= '\U{1F}') || c == ' ' ||
    c == '\U{85}' || c == '\U{A0}' || c == '\U{1680}' ||
    ('\U{2000}' <= c <= '\U{200A}') || c == '\U{2028}' || c == '\U{2029}' ||
    c == '\U{202F}' || c == '\U{205F}' || c == '\U{3000}'
  }

  /** The line boundaries of `str.splitlines` (`\r\n` is one boundary). */
  predicate IsLineBreak(c: char)
  {
    c == '\n' || c == '\r' || c == '\U{B}' || c == '\U{C}' ||
    c == '\U{1C}' || c == '\U{1D}' || c == '\U{1E}' ||
    c == '\U{85}' || c == '\U{2028}' || c == '\U{2029}'
  }

  predicate StartsWith(s: string, prefix: string)
  {
    |prefix| <= |s| && s[..|prefix|] == prefix
  }

  /** Index of the first non-space character at or after `i` (or `|s|`). */
  function SkipSpaces(s: string, i: nat): (j: nat)
    requires i <= |s|
    ensures i <= j <= |s|
    ensures forall k :: i <= k < j ==> IsSpace(s[k])
    ensures j < |s| ==> !IsSpace(s[j])
    decreases |s| - i
  {
    if i == |s| || !IsSpace(s[i]) then i else SkipSpaces(s, i + 1)
  }

  /** One past the last non-space character before `j` that is at or after `lo` (or `lo`). */
  function TrimEnd(s: string, lo: nat, j: nat): (e: nat)
    requires lo <= j <= |s|
    ensures lo <= e <= j
    ensures forall k :: e <= k < j ==> IsSpace(s[k])
    ensures e > lo ==> !IsSpace(s[e - 1])
    decreases j - lo
  {
    if j == lo || !IsSpace(s[j - 1]) then j else TrimEnd(s, lo, j - 1)
  }

  /** `s.strip()`: the slice left after removing leading and trailing whitespace. */
  function Strip(s: string): (r: string)
    ensures |r| <= |s|
    ensures r != [] ==> !IsSpace(r[0]) && !IsSpace(r[|r| - 1])
    ensures exists i, j :: 0 <= i <= j <= |s| && r == s[i..j] &&
              (forall k :: 0 <= k < i ==> IsSpace(s[k])) &&
              (forall k :: j <= k < |s| ==> IsSpace(s[k]))
  {
    var i := SkipSpaces(s, 0);
    var j := TrimEnd(s, i, |s|);
    assert forall k :: i <= k < |s| && !IsSpace(s[k]) ==> k < j;
    s[i..j]
  }

  /** Stripping twice is stripping once. */
  lemma StripIdempotent(s: string)
    ensures Strip(Strip(s)) == Strip(s)
  {
    var r := Strip(s);
    if r != [] {
      assert SkipSpaces(r, 0) == 0;
      assert TrimEnd(r, 0, |r|) == |r|;
      assert r[0..|r|] == r;
    }
  }

  /** Index of the first line boundary at or after `i` (or `|s|`). */
  function LineEnd(s: string, i: nat): (j: nat)
    requires i <= |s|
    ensures i <= j <= |s|
    ensures j < |s| ==> IsLineBreak(s[j])
    decreases |s| - i
  {
    if i == |s| || IsLineBreak(s[i]) then i else LineEnd(s, i + 1)
  }

  /** `s.splitlines()`: no boundary characters are kept and a final boundary adds no empty line. */
  function SplitLines(s: string): (lines: seq<string>)
    ensures s == [] <==> lines == []
    decreases |s|
  {
    if s == [] then []
    else
      var j := LineEnd(s, 0);
      var next := if j < |s| && s[j] == '\r' && j + 1 < |s| && s[j + 1] == '\n' then j + 2
                  else if j < |s| then j + 1 else j;
      [s[..j]] + SplitLines(s[next..])
  }

  lemma {:induction false} LineEndFirst(s: string, i: nat, k: nat)
    requires i <= k <= |s| && k < LineEnd(s, i)
    ensures !IsLineBreak(s[k])
    decreases |s| - i
  {
    if k > i { LineEndFirst(s, i + 1, k); }
  }

  predicate HasNoBreaks(line: string)
  {
    forall k :: 0 <= k < |line| ==> !IsLineBreak(line[k])
  }

  /** No line returned by `splitlines` contains a boundary character. */
  lemma {:induction false} SplitLinesHaveNoBreaks(s: string)
    ensures forall line :: line in SplitLines(s) ==> HasNoBreaks(line)
    decreases |s|
  {
    if s != [] {
      var j := LineEnd(s, 0);
      var next := if j < |s| && s[j] == '\r' && j + 1 < |s| && s[j + 1] == '\n' then j + 2
                  else if j < |s| then j + 1 else j;
      var tail := SplitLines(s[next..]);
      SplitLinesHaveNoBreaks(s[next..]);
      assert SplitLines(s) == [s[..j]] + tail;
      assert HasNoBreaks(s[..j]) by {
        forall k | 0 <= k < j ensures !IsLineBreak(s[..j][k]) { LineEndFirst(s, 0, k); }
      }
    }
  }

  /** `sep.join(parts)`. */
  function Join(parts: seq<string>, sep: string): string
  {
    if parts == [] then []
    else if |parts| == 1 then parts[0]
    else parts[0] + sep + Join(parts[1..], sep)
  }

  /** Texts whose only line boundary is `\n`. */
  predicate OnlyNewlines(s: string)
  {
    forall k :: 0 <= k < |s| && IsLineBreak(s[k]) ==> s[k] == '\n'
  }

  lemma SplitLinesFirst(s: string, j: nat)
    requires s != [] && j == LineEnd(s, 0) && j < |s| && s[j] == '\n'
    ensures SplitLines(s) == [s[..j]] + SplitLines(s[j + 1..])
  {
  }

  lemma SplitLinesSingle(s: string)
    requires s != [] && LineEnd(s, 0) == |s|
    ensures SplitLines(s) == [s]
  {
    assert s[..|s|] == s;
  }

  lemma JoinCons(head: string, tail: seq<string>, rest: string, s: string)
    requires tail != [] && Join(tail, "\n") == rest && s == head + "\n" + rest
    ensures Join([head] + tail, "\n") == s
  {
    assert ([head] + tail)[1..] == tail;
  }

  /** Splitting a text whose only boundary is `\n`, and that does not end in one, and joining with `\n` gives the text back. */
  lemma {:induction false} JoinSplitLines(s: string)
    requires OnlyNewlines(s)
    requires s == [] || s[|s| - 1] != '\n'
    ensures Join(SplitLines(s), "\n") == s
    decreases |s|
  {
    if s != [] {
      var j := LineEnd(s, 0);
      if j < |s| {
        assert s[j] == '\n';
        assert j < |s| - 1;
        var rest := s[j + 1..];
        assert rest[|rest| - 1] == s[|s| - 1];
        assert OnlyNewlines(rest) by {
          forall k | 0 <= k < |rest| ensures rest[k] == s[j + 1 + k] {}
        }
        assert s == s[..j] + "\n" + rest by {
          assert [s[j]] == "\n";
          assert s == s[..j] + [s[j]] + rest;
        }
        JoinSplitLines(rest);
        SplitLinesFirst(s, j);
        JoinCons(s[..j], SplitLines(rest), rest, s);
      } else {
        SplitLinesSingle(s);
      }
    }
  }

  /** A text parameter that is either one string or a list of strings. */
  datatype TextsArg = OneText(text: string) | TextList(texts: seq<string>)

  /** `texts if isinstance(texts, list) else [texts]`. */
  function NormalizeTexts(arg: TextsArg): (texts: seq<string>)
    ensures arg.OneText? ==> texts == [arg.text]
    ensures arg.TextList? ==> texts == arg.texts
  {
    match arg
    case OneText(t) => [t]
    case TextList(ts) => ts
  }
}

/** Python `list` operations with their index and error conventions. */
module PyList {

  /** The first position of `x` in `xs`. */
  function IndexOf<T(==)>(xs: seq<T>, x: T): (k: nat)
    requires x in xs
    ensures k < |xs| && xs[k] == x
    ensures forall j :: 0 <= j < k ==> xs[j] != x
  {
    if xs[0] == x then 0 else 1 + IndexOf(xs[1..], x)
  }

  /** `xs.remove(x)` for an `x` that is present (otherwise Python raises `ValueError`). */
  function RemoveFirst<T(==)>(xs: seq<T>, x: T): (r: seq<T>)
    requires x in xs
  {
    var k := IndexOf(xs, x);
    xs[..k] + xs[k + 1..]
  }

  lemma RemoveFirstContents<T>(xs: seq<T>, x: T)
    requires x in xs
    ensures |RemoveFirst(xs, x)| == |xs| - 1
    ensures multiset(RemoveFirst(xs, x)) == multiset(xs) - multiset{x}
    ensures forall y :: y in RemoveFirst(xs, x) ==> y in xs
  {
    var k := IndexOf(xs, x);
    assert xs == xs[..k] + [x] + xs[k + 1..];
  }

  /** Removing `x` leaves every other element where membership is concerned. */
  lemma RemoveFirstOthers<T>(xs: seq<T>, x: T)
    requires x in xs
    ensures forall y :: y != x ==> (y in RemoveFirst(xs, x) <==> y in xs)
  {
    var k := IndexOf(xs, x);
    assert xs == xs[..k] + [x] + xs[k + 1..];
  }

  /** Removing an element that occurs once leaves a list without it. */
  lemma RemoveFirstUnique<T>(xs: seq<T>, x: T)
    requires x in xs
    requires forall i, j :: 0 <= i < j < |xs| ==> xs[i] != xs[j]
    ensures x !in RemoveFirst(xs, x)
    ensures forall i, j :: 0 <= i < j < |RemoveFirst(xs, x)| ==> RemoveFirst(xs, x)[i] != RemoveFirst(xs, x)[j]
  {
    var k := IndexOf(xs, x);
    var r := RemoveFirst(xs, x);
    forall i | 0 <= i < |r| ensures r[i] == xs[if i < k then i else i + 1] {}
  }

  /** Where `xs.insert(i, x)` places `x` in a list of length `n`. */
  function InsertPos(n: nat, i: int): (k: nat)
    ensures k <= n
    ensures 0 <= i <= n ==> k == i
    ensures i < 0 && n + i >= 0 ==> k == n + i
    ensures n + i < 0 ==> k == 0
    ensures i > n ==> k == n
  {
    if i < 0 then (if n + i < 0 then 0 else n + i)
    else if i > n then n else i
  }

  /** `xs.insert(i, x)`. */
  function Insert<T>(xs: seq<T>, i: int, x: T): (r: seq<T>)
    ensures |r| == |xs| + 1
    ensures r[InsertPos(|xs|, i)] == x
    ensures multiset(r) == multiset(xs) + multiset{x}
  {
    var k := InsertPos(|xs|, i);
    assert xs == xs[..k] + xs[k..];
    xs[..k] + [x] + xs[k..]
  }
}
