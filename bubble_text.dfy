/**
 * The markdown-lite chat bubble of `AnimatedComponents/BubbleText.py`:
 * `TextFormatter` classifies a line by its prefix and cuts the rest into
 * styled spans with five fixed patterns; the bubble types its texts line by
 * line, with `---` dividers and fenced code blocks, and copies its text to
 * the clipboard without markdown characters.
 *
 * The five regular expressions are written out as explicit matchers with
 * the search semantics of Python's `re`: the leftmost start wins, `.*?`
 * takes as few characters as it can and never a `\n`, `[^\s]+` takes as many
 * as it can and gives characters back only to let the pattern finish.
 */
module BubbleText {
  import opened Wrappers
  import opened PyStr

  // ---------- spans ----------

  /** A `TextSpan` by what it shows: plain text, a link with its url, inline code, bold or italic text. */
  datatype Span =
    | Plain(text: string)
    | MarkdownLink(text: string, url: string)
    | BareLink(url: string)
    | Code(text: string)
    | Bold(text: string)
    | Italic(text: string)

  /** The markdown source a span was cut from. */
  function Render(sp: Span): string
  {
    match sp
    case Plain(t) => t
    case MarkdownLink(l, u) => "[" + l + "](" + u + ")"
    case BareLink(u) => u
    case Code(t) => "`" + t + "`"
    case Bold(t) => "**" + t + "**"
    case Italic(t) => "_" + t + "_"
  }

  /** The markdown source of a list of spans. */
  function RenderAll(spans: seq<Span>): string
  {
    if spans == [] then [] else Render(spans[0]) + RenderAll(spans[1..])
  }

  lemma {:induction false} RenderAllAppend(a: seq<Span>, b: seq<Span>)
    ensures RenderAll(a + b) == RenderAll(a) + RenderAll(b)
  {
    if a != [] {
      assert (a + b)[0] == a[0] && (a + b)[1..] == a[1..] + b;
      RenderAllAppend(a[1..], b);
      calc {
        RenderAll(a + b);
        Render(a[0]) + RenderAll(a[1..] + b);
        Render(a[0]) + (RenderAll(a[1..]) + RenderAll(b));
        (Render(a[0]) + RenderAll(a[1..])) + RenderAll(b);
      }
    } else {
      assert a + b == b;
    }
  }

  /** The five patterns, in the order `_format_spans` lists them. */
  datatype Kind = MdLinkKind | LinkKind | CodeKind | BoldKind | ItalicKind

  const Patterns: seq<Kind> := [MdLinkKind, LinkKind, CodeKind, BoldKind, ItalicKind]

  /** A pattern match: where it starts and ends in the searched text, and the span it becomes. */
  datatype Hit = Hit(start: nat, end: nat, span: Span)

  /** `h` covers a non-empty slice of `t` whose markdown source is exactly its span's. */
  ghost predicate HitIn(t: string, h: Hit)
  {
    h.start < h.end <= |t| && t[h.start..h.end] == Render(h.span) && !h.span.Plain?
  }

  lemma Slice3(t: string, a: nat, b: nat, c: nat, d: nat)
    requires a <= b <= c <= d <= |t|
    ensures t[a..d] == t[a..b] + t[b..c] + t[c..d]
  {
  }

  lemma Slice5(t: string, a: nat, b: nat, c: nat, d: nat, e: nat, f: nat)
    requires a <= b <= c <= d <= e <= f <= |t|
    ensures t[a..f] == t[a..b] + t[b..c] + t[c..d] + t[d..e] + t[e..f]
  {
    Slice3(t, a, b, c, d);
    Slice3(t, a, d, e, f);
  }

  lemma CharAt(t: string, i: nat)
    requires i < |t|
    ensures t[i..i + 1] == [t[i]]
  {
  }

  lemma CharsAt(t: string, i: nat)
    requires i + 1 < |t|
    ensures t[i..i + 2] == [t[i], t[i + 1]]
  {
  }

  lemma NoSpaceSlice(t: string, a: nat, b: nat)
    requires a <= b <= |t|
    requires forall i :: a <= i < b ==> !IsSpace(t[i])
    ensures forall i :: 0 <= i < |t[a..b]| ==> !IsSpace(t[a..b][i])
  {
  }

  lemma NoCharSlice(t: string, a: nat, b: nat, c: char)
    requires a <= b <= |t|
    requires forall i :: a <= i < b ==> t[i] != c
    ensures c !in t[a..b]
  {
  }

  // ---------- the five matchers ----------

  /** `h` covers a non-empty slice of `t` and stands for a match span (its cheap, structural part). */
  predicate Placed(t: string, h: Hit)
  {
    h.start < h.end <= |t| && !h.span.Plain?
  }

  /** Where greedy `[^\s]+` started at `p` stops: the end of the run of non-whitespace characters. */
  function RunEnd(t: string, p: nat): (e: nat)
    requires p <= |t|
    ensures p <= e <= |t|
    ensures forall k :: p <= k < e ==> !IsSpace(t[k])
    ensures e < |t| ==> IsSpace(t[e])
    decreases |t| - p
  {
    if p == |t| || IsSpace(t[p]) then p else RunEnd(t, p + 1)
  }

  /** `https?://` at `p`: the position after it (the `s` is tried first). */
  function Scheme(t: string, p: nat): (r: Option<nat>)
    ensures r.Some? ==> p + 7 <= r.value <= |t|
  {
    if p + 4 <= |t| && t[p] == 'h' && t[p + 1] == 't' && t[p + 2] == 't' && t[p + 3] == 'p' then
      if p + 8 <= |t| && t[p + 4] == 's' && t[p + 5] == ':' && t[p + 6] == '/' && t[p + 7] == '/' then Some(p + 8)
      else if p + 7 <= |t| && t[p + 4] == ':' && t[p + 5] == '/' && t[p + 6] == '/' then Some(p + 7)
      else None
    else None
  }

  /** What `Scheme` recognised is literally `https://` or `http://`. */
  lemma SchemeText(t: string, p: nat)
    requires Scheme(t, p).Some?
    ensures t[p..Scheme(t, p).value] == "https://" || t[p..Scheme(t, p).value] == "http://"
  {
  }

  /** None of the scheme's characters is whitespace. */
  lemma SchemeNoSpace(t: string, p: nat)
    requires Scheme(t, p).Some?
    ensures forall i :: p <= i < Scheme(t, p).value ==> !IsSpace(t[i])
  {
  }

  /** `https?://[^\s]+` at `s`: the longest run of non-whitespace after the scheme, at least one character. */
  function LinkAt(t: string, s: nat): (r: Option<Hit>)
    ensures r.Some? ==> r.value.start == s && Placed(t, r.value) && r.value.span.BareLink?
  {
    match Scheme(t, s)
    case None => None
    case Some(u) =>
      if u < |t| && !IsSpace(t[u]) then
        var e := RunEnd(t, u);
        Some(Hit(s, e, BareLink(t[s..e])))
      else None
  }

  /** The last `)` at a position in `[lo, e)`: where `[^\s]+\)` ends after giving characters back. */
  function LastParen(t: string, lo: nat, e: nat): (r: Option<nat>)
    requires e <= |t|
    ensures r.Some? ==> lo <= r.value < e && t[r.value] == ')' && forall k :: r.value < k < e ==> t[k] != ')'
    ensures r.None? ==> forall k :: lo <= k < e ==> t[k] != ')'
    decreases e
  {
    if e <= lo then None
    else if t[e - 1] == ')' then Some(e - 1)
    else LastParen(t, lo, e - 1)
  }

  /** `\]\((https?://[^\s]+)\)` at `j`: the position of the closing `)`. */
  function MdTail(t: string, j: nat): (r: Option<nat>)
    ensures r.Some? ==> j + 2 < r.value < |t| && t[j] == ']' && t[j + 1] == '(' && t[r.value] == ')'
  {
    if j + 1 < |t| && t[j] == ']' && t[j + 1] == '(' then
      match Scheme(t, j + 2)
      case None => None
      case Some(u) => LastParen(t, u + 1, RunEnd(t, u))
    else None
  }

  /**
   * The lazy text of `\[(.*?)\]\(...\)`: the first `j` from which the rest
   * of the pattern matches, with no `\n` before it.
   */
  function MdClose(t: string, j: nat): (r: Option<nat>)
    requires j <= |t|
    ensures r.Some? ==> j <= r.value && MdTail(t, r.value).Some?
    ensures r.Some? ==> forall i :: j <= i < r.value ==> t[i] != '\n'
    decreases |t| - j
  {
    if MdTail(t, j).Some? then Some(j)
    else if j == |t| || t[j] == '\n' then None
    else MdClose(t, j + 1)
  }

  /** `\[(.*?)\]\((https?://[^\s]+)\)` at `s`. */
  function MdLinkAt(t: string, s: nat): (r: Option<Hit>)
    ensures r.Some? ==> r.value.start == s && Placed(t, r.value) && r.value.span.MarkdownLink?
  {
    if s < |t| && t[s] == '[' then
      match MdClose(t, s + 1)
      case None => None
      case Some(j) =>
        var k := MdTail(t, j).value;
        Some(Hit(s, k + 1, MarkdownLink(t[s + 1..j], t[j + 2..k])))
    else None
  }

  /** The first `c` at or after `j` with no `\n` before it: where a lazy `(.*?)c` closes. */
  function CloseFrom(t: string, j: nat, c: char): (r: Option<nat>)
    requires j <= |t| && c != '\n'
    ensures r.Some? ==> j <= r.value < |t| && t[r.value] == c
    ensures r.Some? ==> forall i :: j <= i < r.value ==> t[i] != c && t[i] != '\n'
    decreases |t| - j
  {
    if j == |t| || t[j] == '\n' then None
    else if t[j] == c then Some(j)
    else CloseFrom(t, j + 1, c)
  }

  /** `` `(.*?)` `` at `s`. */
  function CodeAt(t: string, s: nat): (r: Option<Hit>)
    ensures r.Some? ==> r.value.start == s && Placed(t, r.value) && r.value.span.Code?
  {
    if s < |t| && t[s] == '`' then
      match CloseFrom(t, s + 1, '`')
      case None => None
      case Some(j) => Some(Hit(s, j + 1, Code(t[s + 1..j])))
    else None
  }

  /** `_(.*?)_` at `s`. */
  function ItalicAt(t: string, s: nat): (r: Option<Hit>)
    ensures r.Some? ==> r.value.start == s && Placed(t, r.value) && r.value.span.Italic?
  {
    if s < |t| && t[s] == '_' then
      match CloseFrom(t, s + 1, '_')
      case None => None
      case Some(j) => Some(Hit(s, j + 1, Italic(t[s + 1..j])))
    else None
  }

  /** The first `**` at or after `j` with no `\n` before it. */
  function BoldClose(t: string, j: nat): (r: Option<nat>)
    requires j <= |t|
    ensures r.Some? ==> j <= r.value && r.value + 2 <= |t| && t[r.value] == '*' && t[r.value + 1] == '*'
    ensures r.Some? ==> forall i :: j <= i < r.value ==> t[i] != '\n'
    decreases |t| - j
  {
    if j + 1 < |t| && t[j] == '*' && t[j + 1] == '*' then Some(j)
    else if j == |t| || t[j] == '\n' then None
    else BoldClose(t, j + 1)
  }

  /** `\*\*(.*?)\*\*` at `s`. */
  function BoldAt(t: string, s: nat): (r: Option<Hit>)
    ensures r.Some? ==> r.value.start == s && Placed(t, r.value) && r.value.span.Bold?
  {
    if s + 1 < |t| && t[s] == '*' && t[s + 1] == '*' then
      match BoldClose(t, s + 2)
      case None => None
      case Some(j) => Some(Hit(s, j + 2, Bold(t[s + 2..j])))
    else None
  }

  /** The span kind a hit came from. */
  function KindOf(sp: Span): Kind
    requires !sp.Plain?
  {
    match sp
    case MarkdownLink(_, _) => MdLinkKind
    case BareLink(_) => LinkKind
    case Code(_) => CodeKind
    case Bold(_) => BoldKind
    case Italic(_) => ItalicKind
  }

  /** Pattern `k` tried at position `s`. */
  function MatchAt(k: Kind, t: string, s: nat): (r: Option<Hit>)
    ensures r.Some? ==> r.value.start == s && Placed(t, r.value) && KindOf(r.value.span) == k
  {
    match k
    case MdLinkKind => MdLinkAt(t, s)
    case LinkKind => LinkAt(t, s)
    case CodeKind => CodeAt(t, s)
    case BoldKind => BoldAt(t, s)
    case ItalicKind => ItalicAt(t, s)
  }

  // ---------- what a match stands for ----------

  /** A bare link is the whole match: `http://` or `https://` and at least one more character, none of them whitespace. */
  lemma LinkRender(t: string, s: nat)
    requires LinkAt(t, s).Some?
    ensures HitIn(t, LinkAt(t, s).value)
    ensures var u := LinkAt(t, s).value.span.url;
            (StartsWith(u, "https://") || StartsWith(u, "http://")) && forall i :: 0 <= i < |u| ==> !IsSpace(u[i])
  {
    var u := Scheme(t, s).value;
    var e := RunEnd(t, u);
    SchemeText(t, s);
    SchemeNoSpace(t, s);
    PrefixSlice(t, s, u, e);
    NoSpaceSlice(t, s, e);
  }

  lemma PrefixSlice(t: string, a: nat, b: nat, c: nat)
    requires a <= b <= c <= |t|
    ensures t[a..c][..b - a] == t[a..b]
  {
  }

  /** A markdown link is `[`, its text without a newline, `](`, its url without whitespace, `)`. */
  lemma MdLinkRender(t: string, s: nat)
    requires MdLinkAt(t, s).Some?
    ensures HitIn(t, MdLinkAt(t, s).value)
    ensures '\n' !in MdLinkAt(t, s).value.span.text
    ensures forall i :: 0 <= i < |MdLinkAt(t, s).value.span.url| ==> !IsSpace(MdLinkAt(t, s).value.span.url[i])
  {
    var j := MdClose(t, s + 1).value;
    var k := MdTail(t, j).value;
    var h := Hit(s, k + 1, MarkdownLink(t[s + 1..j], t[j + 2..k]));
    assert MdLinkAt(t, s) == Some(h);
    MdLinkText(t, s, j, k);
    assert t[h.start..h.end] == Render(h.span);
    MdTailUrl(t, j);
    NoSpaceSlice(t, j + 2, k);
    NoCharSlice(t, s + 1, j, '\n');
  }

  lemma MdLinkText(t: string, s: nat, j: nat, k: nat)
    requires s < j && j + 2 <= k < |t|
    requires t[s] == '[' && t[j] == ']' && t[j + 1] == '(' && t[k] == ')'
    ensures t[s..k + 1] == "[" + t[s + 1..j] + "](" + t[j + 2..k] + ")"
  {
    Slice5(t, s, s + 1, j, j + 2, k, k + 1);
    CharAt(t, s);
    CharsAt(t, j);
    CharAt(t, k);
  }

  /** The url of a markdown link has no whitespace: the scheme, then part of a run of non-whitespace. */
  lemma MdTailUrl(t: string, j: nat)
    requires MdTail(t, j).Some?
    ensures forall i :: j + 2 <= i < MdTail(t, j).value ==> !IsSpace(t[i])
  {
    var u := Scheme(t, j + 2).value;
    SchemeNoSpace(t, j + 2);
    assert MdTail(t, j).value < RunEnd(t, u);
  }

  /** Inline code is its text between backquotes; the text has no backquote and no newline. */
  lemma CodeRender(t: string, s: nat)
    requires CodeAt(t, s).Some?
    ensures HitIn(t, CodeAt(t, s).value)
    ensures '\n' !in CodeAt(t, s).value.span.text && '`' !in CodeAt(t, s).value.span.text
  {
    var j := CloseFrom(t, s + 1, '`').value;
    Wrapped1(t, s, j);
    NoCharSlice(t, s + 1, j, '\n');
    NoCharSlice(t, s + 1, j, '`');
  }

  /** A slice that starts and ends with the same character is that character, the text between, and it again. */
  lemma Wrapped1(t: string, s: nat, j: nat)
    requires s < j < |t| && t[s] == t[j]
    ensures t[s..j + 1] == [t[s]] + t[s + 1..j] + [t[s]]
  {
    Slice3(t, s, s + 1, j, j + 1);
    CharAt(t, s);
    CharAt(t, j);
  }

  /** Italic text is its text between underscores; the text has no underscore and no newline. */
  lemma ItalicRender(t: string, s: nat)
    requires ItalicAt(t, s).Some?
    ensures HitIn(t, ItalicAt(t, s).value)
    ensures '\n' !in ItalicAt(t, s).value.span.text && '_' !in ItalicAt(t, s).value.span.text
  {
    var j := CloseFrom(t, s + 1, '_').value;
    Wrapped1(t, s, j);
    NoCharSlice(t, s + 1, j, '\n');
    NoCharSlice(t, s + 1, j, '_');
  }

  /** Bold text is its text between `**` pairs; the text has no newline. */
  lemma BoldRender(t: string, s: nat)
    requires BoldAt(t, s).Some?
    ensures HitIn(t, BoldAt(t, s).value)
    ensures '\n' !in BoldAt(t, s).value.span.text
  {
    var j := BoldClose(t, s + 2).value;
    Slice3(t, s, s + 2, j, j + 2);
    CharsAt(t, s);
    CharsAt(t, j);
    NoCharSlice(t, s + 2, j, '\n');
  }

  /** Every match stands for exactly the slice of text it covers. */
  lemma MatchRender(k: Kind, t: string, s: nat)
    requires MatchAt(k, t, s).Some?
    ensures HitIn(t, MatchAt(k, t, s).value)
  {
    match k
    case MdLinkKind => MdLinkRender(t, s);
    case LinkKind => LinkRender(t, s);
    case CodeKind => CodeRender(t, s);
    case BoldKind => BoldRender(t, s);
    case ItalicKind => ItalicRender(t, s);
  }

  /** `re.search` of pattern `k` from position `s`: the match at the leftmost position where there is one. */
  function Search(k: Kind, t: string, s: nat): (r: Option<Hit>)
    ensures r.Some? ==> s <= r.value.start && Placed(t, r.value) && KindOf(r.value.span) == k
    decreases |t| - s
  {
    if s >= |t| then None
    else
      match MatchAt(k, t, s)
      case Some(h) => Some(h)
      case None => Search(k, t, s + 1)
  }

  /** The search result is what pattern `k` matches at the position it reports. */
  lemma {:induction false} SearchFound(k: Kind, t: string, s: nat)
    requires Search(k, t, s).Some?
    ensures MatchAt(k, t, Search(k, t, s).value.start) == Search(k, t, s)
    decreases |t| - s
  {
    if MatchAt(k, t, s).None? {
      SearchFound(k, t, s + 1);
    }
  }

  /** The search result is leftmost: pattern `k` matches nowhere before it (nowhere at all when there is none). */
  lemma {:induction false} SearchLeftmost(k: Kind, t: string, s: nat, p: nat)
    requires s <= p < |t|
    requires Search(k, t, s).Some? ==> p < Search(k, t, s).value.start
    ensures MatchAt(k, t, p).None?
    decreases p - s
  {
    if p > s {
      SearchLeftmost(k, t, s + 1, p);
    }
  }

  lemma SearchRender(k: Kind, t: string, s: nat)
    requires Search(k, t, s).Some?
    ensures HitIn(t, Search(k, t, s).value)
  {
    SearchFound(k, t, s);
    MatchRender(k, t, Search(k, t, s).value.start);
  }

  /** `min(matches, key=start)`: the later candidate wins only with a strictly smaller start. */
  function Earlier(a: Option<Hit>, b: Option<Hit>): Option<Hit>
  {
    if a.None? then b
    else if b.None? then a
    else if b.value.start < a.value.start then b
    else a
  }

  /** `min(matches, key=start)` over the candidates that matched, in order. */
  function Earliest(c: seq<Option<Hit>>): (r: Option<Hit>)
    ensures r.None? || r in c
    decreases |c|
  {
    if c == [] then None else Earlier(Earliest(c[..|c| - 1]), c[|c| - 1])
  }

  /**
   * The choice `min` makes: there is a result exactly when some candidate
   * matched; no candidate starts earlier; and the result is the first
   * candidate with the smallest start, every candidate before it starting
   * strictly later.
   */
  lemma {:induction false} EarliestChoice(c: seq<Option<Hit>>)
    ensures Earliest(c).None? <==> forall j :: 0 <= j < |c| ==> c[j].None?
    ensures Earliest(c).Some? ==> forall j :: 0 <= j < |c| && c[j].Some? ==> Earliest(c).value.start <= c[j].value.start
    ensures Earliest(c).Some? ==>
              exists m :: 0 <= m < |c| && c[m] == Earliest(c) &&
                forall j :: 0 <= j < m && c[j].Some? ==> Earliest(c).value.start < c[j].value.start
    decreases |c|
  {
    if c != [] {
      var init := c[..|c| - 1];
      EarliestChoice(init);
      assert forall j :: 0 <= j < |init| ==> c[j] == init[j];
      var a := Earliest(init);
      if a.Some? && (c[|c| - 1].None? || a.value.start <= c[|c| - 1].value.start) {
        var m :| 0 <= m < |init| && init[m] == a && forall j :: 0 <= j < m && init[j].Some? ==> a.value.start < init[j].value.start;
        assert c[m] == Earliest(c);
      } else if c[|c| - 1].Some? {
        assert c[|c| - 1] == Earliest(c);
      }
    }
  }

  /** `re.search` of each of the five patterns from `i`, in order. */
  function Candidates(t: string, i: nat): seq<Option<Hit>>
  {
    seq(|Patterns|, j requires 0 <= j < |Patterns| => Search(Patterns[j], t, i))
  }

  /**
   * The match `_format_spans` takes at `idx == i`: each pattern searched in
   * `text[idx:]`, then the one with the smallest start. No pattern looks
   * behind where it starts, so searching the rest of the text is searching
   * the whole text from `i`, and positions here are positions in the whole
   * text.
   */
  function FirstMatch(t: string, i: nat): (r: Option<Hit>)
    ensures r.Some? ==> i <= r.value.start && Placed(t, r.value)
  {
    Earliest(Candidates(t, i))
  }

  lemma FirstMatchRender(t: string, i: nat)
    requires FirstMatch(t, i).Some?
    ensures HitIn(t, FirstMatch(t, i).value)
  {
    var c := Candidates(t, i);
    EarliestChoice(c);
    var m :| 0 <= m < |c| && c[m] == FirstMatch(t, i);
    SearchRender(Patterns[m], t, i);
  }

  /**
   * The spans `_format_spans` produces for the text from `i` on: the plain
   * gap before the first match (when not empty), the match's span, then the
   * spans of what follows the match; with no match, the whole rest as one
   * plain span.
   */
  function SpansFrom(t: string, i: nat): (r: seq<Span>)
    requires i <= |t|
    ensures i == |t| <==> r == []
    decreases |t| - i
  {
    if i == |t| then []
    else
      match FirstMatch(t, i)
      case None => [Plain(t[i..])]
      case Some(h) =>
        (if h.start > i then [Plain(t[i..h.start])] else []) + [h.span] + SpansFrom(t, h.end)
  }

  /** `_format_spans(text)`. */
  function SpansOf(t: string): (r: seq<Span>)
    ensures t == [] <==> r == []
  {
    SpansFrom(t, 0)
  }

  lemma AppendAssoc<T>(a: seq<T>, b: seq<T>, c: seq<T>)
    ensures (a + b) + c == a + (b + c)
  {
  }

  /** The scan's invariant survives one match: what is done, the gap and the match, then the spans after the match. */
  lemma ScanStep(done: seq<Span>, t: string, i: nat)
    requires i < |t| && done + SpansFrom(t, i) == SpansOf(t) && FirstMatch(t, i).Some?
    ensures var h := FirstMatch(t, i).value;
            h.end <= |t| &&
            done + (if h.start > i then [Plain(t[i..h.start])] else []) + [h.span] + SpansFrom(t, h.end) == SpansOf(t)
  {
    var h := FirstMatch(t, i).value;
    var gap: seq<Span> := if h.start > i then [Plain(t[i..h.start])] else [];
    AppendAssoc(done, gap, [h.span]);
    AppendAssoc(done, gap + [h.span], SpansFrom(t, h.end));
  }

  /** No plain span is empty and no two plain spans are adjacent: each gap is followed by a match. */
  lemma {:induction false} SpansShape(t: string, i: nat)
    requires i <= |t|
    ensures forall j :: 0 <= j < |SpansFrom(t, i)| && SpansFrom(t, i)[j].Plain? ==> SpansFrom(t, i)[j].text != []
    ensures forall j :: 0 <= j < |SpansFrom(t, i)| - 1 && SpansFrom(t, i)[j].Plain? ==> !SpansFrom(t, i)[j + 1].Plain?
    decreases |t| - i
  {
    if i < |t| {
      match FirstMatch(t, i)
      case None =>
      case Some(h) =>
        var rest := SpansFrom(t, h.end);
        SpansShape(t, h.end);
        var head := (if h.start > i then [Plain(t[i..h.start])] else []) + [h.span];
        assert SpansFrom(t, i) == head + rest;
        assert forall j :: 0 <= j < |head| && head[j].Plain? ==> j + 1 < |head| && !head[j + 1].Plain? && head[j].text != [];
    }
  }

  lemma SliceRest(t: string, a: nat, b: nat, c: nat)
    requires a <= b <= c <= |t|
    ensures t[a..] == t[a..b] + t[b..c] + t[c..]
  {
  }

  /** The rendering of the gap before a match is the text before it. */
  lemma GapRender(t: string, i: nat, start: nat)
    requires i <= start <= |t|
    ensures RenderAll(if start > i then [Plain(t[i..start])] else []) == t[i..start]
  {
    if start > i {
      assert RenderAll([Plain(t[i..start])]) == t[i..start] + RenderAll([]);
    }
  }

  /** Rendering the spans back gives the text: the gaps and matches cut the text into consecutive pieces. */
  lemma {:induction false} SpansRender(t: string, i: nat)
    requires i <= |t|
    ensures RenderAll(SpansFrom(t, i)) == t[i..]
    decreases |t| - i
  {
    if i < |t| {
      match FirstMatch(t, i)
      case None =>
        assert RenderAll([Plain(t[i..])]) == t[i..] + RenderAll([]);
      case Some(h) =>
        var gap := if h.start > i then [Plain(t[i..h.start])] else [];
        FirstMatchRender(t, i);
        SpansRender(t, h.end);
        RenderAllAppend(gap + [h.span], SpansFrom(t, h.end));
        RenderAllAppend(gap, [h.span]);
        assert RenderAll([h.span]) == Render(h.span) + RenderAll([]);
        GapRender(t, i, h.start);
        SliceRest(t, i, h.start, h.end);
    } else {
      assert t[i..] == [];
    }
  }

  /**
   * `_format_spans`: scan from `idx`, take the first match of the rest,
   * emit the gap and the match, continue after the match; with no match
   * emit the rest and stop.
   */
  method FormatSpans(text: string) returns (spans: seq<Span>)
    ensures spans == SpansOf(text)
    ensures RenderAll(spans) == text
  {
    spans := [];
    var idx := 0;
    while idx < |text|
      invariant idx <= |text|
      invariant spans + SpansFrom(text, idx) == SpansOf(text)
      decreases |text| - idx
    {
      var first := FirstMatch(text, idx);
      if first.None? {
        spans := spans + [Plain(text[idx..])];
        break;
      }
      var h := first.value;
      ScanStep(spans, text, idx);
      if h.start > idx {
        spans := spans + [Plain(text[idx..h.start])];
      } else {
        assert spans + [] == spans;
      }
      spans := spans + [h.span];
      idx := h.end;
    }
    if idx == |text| {
      assert spans + [] == spans;
    }
    SpansRender(text, 0);
    assert text[0..] == text;
  }

  // ---------- line formatting ----------

  /** What `format` returns: a heading of some font size, a bullet line, or a line of spans. */
  datatype Line = Heading(size: nat, text: string) | Bullet(text: string) | Rich(spans: seq<Span>)

  /** `TextFormatter.format`. */
  function Format(text: string): (r: Line)
    ensures r.Heading? ==> r.size in {16, 18, 20}
  {
    var s := Strip(text);
    if StartsWith(s, "### ") then Heading(16, s[4..])
    else if StartsWith(s, "## ") then Heading(18, s[3..])
    else if StartsWith(s, "# ") then Heading(20, s[2..])
    else if StartsWith(s, "- ") then Bullet("• " + s[2..])
    else Rich(SpansOf(text))
  }

  /** The markdown a formatted line stands for. */
  function Source(line: Line): string
  {
    match line
    case Heading(size, t) => (if size == 16 then "### " else if size == 18 then "## " else "# ") + t
    case Bullet(t) => "- " + (if |t| >= 2 then t[2..] else t)
    case Rich(spans) => RenderAll(spans)
  }

  lemma PrefixRest(s: string, prefix: string)
    requires StartsWith(s, prefix)
    ensures prefix + s[|prefix|..] == s
  {
    assert s == s[..|prefix|] + s[|prefix|..];
  }

  lemma DropPrefix(prefix: string, rest: string)
    ensures (prefix + rest)[|prefix|..] == rest
  {
  }

  /**
   * `format` loses nothing: a heading or bullet gives back the stripped
   * line, a span line the line itself; and a span line is exactly one whose
   * stripped form has none of the four prefixes.
   */
  lemma FormatSource(text: string)
    ensures !Format(text).Rich? ==> Source(Format(text)) == Strip(text)
    ensures Format(text).Rich? ==> Source(Format(text)) == text
    ensures Format(text).Rich? <==> !StartsWith(Strip(text), "### ") && !StartsWith(Strip(text), "## ") &&
                                     !StartsWith(Strip(text), "# ") && !StartsWith(Strip(text), "- ")
  {
    var s := Strip(text);
    if StartsWith(s, "### ") {
      PrefixRest(s, "### ");
    } else if StartsWith(s, "## ") {
      PrefixRest(s, "## ");
    } else if StartsWith(s, "# ") {
      PrefixRest(s, "# ");
    } else if StartsWith(s, "- ") {
      PrefixRest(s, "- ");
      DropPrefix("• ", s[2..]);
    } else {
      SpansRender(text, 0);
      assert text[0..] == text;
    }
  }

  // ---------- clipboard ----------

  /** The characters `re.sub(r"[*#`]", "", ...)` deletes. */
  predicate Markup(c: char)
  {
    c == '*' || c == '#' || c == '`'
  }

  /** The clean-up of `copy_to_clipboard`: every markup character deleted, the others kept in order. */
  function Clean(s: string): (r: string)
    ensures |r| <= |s|
  {
    if s == [] then [] else (if Markup(s[0]) then [] else [s[0]]) + Clean(s[1..])
  }

  /** No markup character is left, and every other character is kept as often as it occurred. */
  lemma {:induction false} CleanContents(s: string)
    ensures forall i :: 0 <= i < |Clean(s)| ==> !Markup(Clean(s)[i])
    ensures forall c :: !Markup(c) ==> multiset(Clean(s))[c] == multiset(s)[c]
  {
    if s != [] {
      CleanContents(s[1..]);
      assert s == [s[0]] + s[1..];
      var head: string := if Markup(s[0]) then [] else [s[0]];
      assert Clean(s) == head + Clean(s[1..]);
    }
  }

  lemma {:induction false} CleanAppend(a: string, b: string)
    ensures Clean(a + b) == Clean(a) + Clean(b)
  {
    if a != [] {
      assert (a + b)[0] == a[0] && (a + b)[1..] == a[1..] + b;
      CleanAppend(a[1..], b);
    } else {
      assert a + b == b;
    }
  }

  /** A text without markup characters is left as it is, so cleaning twice is cleaning once. */
  lemma {:induction false} CleanNoMarkup(s: string)
    requires forall i :: 0 <= i < |s| ==> !Markup(s[i])
    ensures Clean(s) == s
  {
    if s != [] {
      CleanNoMarkup(s[1..]);
    }
  }

  lemma CleanIdempotent(s: string)
    ensures Clean(Clean(s)) == Clean(s)
  {
    CleanContents(s);
    CleanNoMarkup(Clean(s));
  }

  /** The cleaned texts, one by one. */
  function CleanEach(texts: seq<string>): (r: seq<string>)
    ensures |r| == |texts|
  {
    if texts == [] then [] else [Clean(texts[0])] + CleanEach(texts[1..])
  }

  /** The bubble's text is its texts joined by `\n`; cleaning it cleans every text and keeps the separators. */
  lemma {:induction false} CleanJoin(texts: seq<string>)
    ensures Clean(Join(texts, "\n")) == Join(CleanEach(texts), "\n")
  {
    if |texts| > 1 {
      CleanJoin(texts[1..]);
      CleanAppend(texts[0] + "\n", Join(texts[1..], "\n"));
      CleanAppend(texts[0], "\n");
      assert Clean("\n") == "\n" by {
        assert Clean("\n") == [] + [] + [] + "\n" + Clean([]);
      }
      assert CleanEach(texts)[1..] == CleanEach(texts[1..]);
    }
  }

  // ---------- typing a text ----------

  /**
   * A control of the bubble's column. A formatted control is recorded by
   * the text it was formatted from; what it shows is `Format(source)`.
   */
  datatype Control = Divider | CodeBox(code: string) | EmptyText | Formatted(source: string)

  /** What a formatted control shows. */
  function Shows(c: Control): (r: Line)
    requires c.Formatted?
    ensures r.Rich? ==> Source(r) == c.source
    ensures !r.Rich? ==> Source(r) == Strip(c.source)
  {
    FormatSource(c.source);
    Format(c.source)
  }

  /** The typing state: the column's controls, whether a code block is open, and the code gathered in it. */
  datatype Typing = Typing(controls: seq<Control>, inCode: bool, acc: string)

  /** While a block is open its code box is the last control and shows the gathered code. */
  ghost predicate Consistent(st: Typing)
  {
    st.inCode ==> |st.controls| > 0 && st.controls[|st.controls| - 1] == CodeBox(st.acc)
  }

  predicate IsFence(line: string)
  {
    StartsWith(Strip(line), "```")
  }

  /** The control an ordinary line ends as, once all its characters are typed. */
  function Typed(line: string): Control
  {
    if line == [] then EmptyText else Formatted(line)
  }

  function ReplaceLast(controls: seq<Control>, c: Control): (r: seq<Control>)
    requires |controls| > 0
    ensures |r| == |controls| && r[|r| - 1] == c && r[..|r| - 1] == controls[..|controls| - 1]
  {
    controls[..|controls| - 1] + [c]
  }

  /**
   * One line of `_type_text`. Outside a block every line adds exactly one
   * control (a divider, a new code box or the typed line) and inside a
   * block none; a fence line, and only a fence line, toggles the block.
   */
  function Step(st: Typing, line: string): (r: Typing)
    requires Consistent(st)
    ensures Consistent(r)
    ensures |r.controls| == |st.controls| + (if st.inCode then 0 else 1)
    ensures r.inCode <==> (st.inCode != IsFence(line))
    ensures !st.inCode ==> r.controls[..|st.controls|] == st.controls
  {
    var stripped := Strip(line);
    if !st.inCode && stripped == "---" then
      st.(controls := st.controls + [Divider])
    else if StartsWith(stripped, "```") then
      if !st.inCode then Typing(st.controls + [CodeBox("")], true, "")
      else st.(inCode := false)
    else if st.inCode then
      var acc := st.acc + line + "\n";
      Typing(ReplaceLast(st.controls, CodeBox(acc)), true, acc)
    else
      st.(controls := st.controls + [Typed(line)])
  }

  /** The lines typed one after the other from state `st`. */
  function RunFrom(st: Typing, lines: seq<string>): (r: Typing)
    requires Consistent(st)
    ensures Consistent(r)
    decreases |lines|
  {
    if lines == [] then st else RunFrom(Step(st, lines[0]), lines[1..])
  }

  lemma RunFromCons(st: Typing, lines: seq<string>)
    requires Consistent(st) && lines != []
    ensures RunFrom(st, lines) == RunFrom(Step(st, lines[0]), lines[1..])
  {
  }

  /** The lines of a block, each followed by `\n`. */
  function Terminated(lines: seq<string>): string
  {
    if lines == [] then [] else lines[0] + "\n" + Terminated(lines[1..])
  }

  /** Inside an open block a line that is not a fence is added to the gathered code, followed by `\n`. */
  lemma StepInCode(st: Typing, line: string)
    requires Consistent(st) && st.inCode && !IsFence(line)
    ensures Step(st, line) == Typing(ReplaceLast(st.controls, CodeBox(st.acc + line + "\n")), true, st.acc + line + "\n")
  {
  }

  /** Outside a block, a `---` line adds a divider. */
  lemma StepDivider(st: Typing, line: string)
    requires Consistent(st) && !st.inCode && Strip(line) == "---"
    ensures Step(st, line) == Typing(st.controls + [Divider], false, st.acc)
  {
  }

  /** A fence line outside a block opens one with a new, empty code box; inside a block it closes it. */
  lemma StepFence(st: Typing, line: string)
    requires Consistent(st) && IsFence(line) && (st.inCode || Strip(line) != "---")
    ensures !st.inCode ==> Step(st, line) == Typing(st.controls + [CodeBox("")], true, "")
    ensures st.inCode ==> Step(st, line) == Typing(st.controls, false, st.acc)
  {
  }

  /** Outside a block, any other line adds the control it is typed into. */
  lemma StepPlain(st: Typing, line: string)
    requires Consistent(st) && !st.inCode && !IsFence(line) && Strip(line) != "---"
    ensures Step(st, line) == Typing(st.controls + [Typed(line)], false, st.acc)
  {
  }

  lemma TerminatedCons(acc: string, block: seq<string>)
    requires block != []
    ensures acc + block[0] + "\n" + Terminated(block[1..]) == acc + Terminated(block)
  {
  }

  lemma ReplaceLastTwice(controls: seq<Control>, a: Control, b: Control)
    requires |controls| > 0
    ensures ReplaceLast(ReplaceLast(controls, a), b) == ReplaceLast(controls, b)
  {
  }

  /** Inside an open block, the non-fence lines are gathered, each followed by `\n`, into the block's box. */
  lemma {:induction false} CodeBlockText(st: Typing, block: seq<string>)
    requires Consistent(st) && st.inCode
    requires forall i :: 0 <= i < |block| ==> !IsFence(block[i])
    ensures RunFrom(st, block) == Typing(ReplaceLast(st.controls, CodeBox(st.acc + Terminated(block))), true, st.acc + Terminated(block))
    decreases |block|
  {
    if block == [] {
      assert st.acc + Terminated(block) == st.acc;
      assert ReplaceLast(st.controls, CodeBox(st.acc)) == st.controls;
    } else {
      StepInCode(st, block[0]);
      var next := Step(st, block[0]);
      CodeBlockText(next, block[1..]);
      TerminatedCons(st.acc, block);
      ReplaceLastTwice(st.controls, CodeBox(next.acc), CodeBox(st.acc + Terminated(block)));
    }
  }

  /**
   * An opening fence outside a block adds one code box, and the block's
   * lines end up in it, each followed by `\n`.
   */
  lemma CodeBlockBox(st: Typing, fence: string, block: seq<string>)
    requires Consistent(st) && !st.inCode && IsFence(fence)
    requires forall i :: 0 <= i < |block| ==> !IsFence(block[i])
    ensures RunFrom(st, [fence] + block).controls == st.controls + [CodeBox(Terminated(block))]
    ensures RunFrom(st, [fence] + block).inCode
  {
    var boxed := Step(st, fence);
    assert Strip(fence) != "---";
    assert boxed == Typing(st.controls + [CodeBox("")], true, "");
    assert ([fence] + block)[1..] == block;
    CodeBlockText(boxed, block);
    assert "" + Terminated(block) == Terminated(block);
  }

  /** The bubble: its texts, the text they make together, whether it is mounted, and its column. */
  class Bubble {
    const texts: seq<string>
    const textContent: string
    var running: bool
    var controls: seq<Control>

    /** The content text is the texts joined by `\n`. */
    ghost predicate Valid()
      reads this
    {
      textContent == Join(texts, "\n")
    }

    /** `AnimatedTextBubble(texts)`: one text or a list; the content text joins them with `\n`. */
    constructor (arg: TextsArg)
      ensures Valid() && texts == NormalizeTexts(arg)
      ensures !running && controls == []
    {
      texts := NormalizeTexts(arg);
      textContent := Join(NormalizeTexts(arg), "\n");
      running := false;
      controls := [];
    }

    /** `copy_to_clipboard`: the text handed to the clipboard and to `on_copied`. */
    method CopyToClipboard() returns (clean: string)
      requires Valid()
      ensures clean == Clean(textContent) && clean == Join(CleanEach(texts), "\n")
    {
      clean := Clean(textContent);
      CleanJoin(texts);
    }

    method DidMount()
      modifies this
      ensures running && controls == old(controls)
    {
      running := true;
    }

    method WillUnmount()
      modifies this
      ensures !running && controls == old(controls)
    {
      running := false;
    }

    /**
     * `_type_text`: the column is cleared, then every line of the text is
     * handled in turn; code lines are typed into the open box character by
     * character and ordinary lines are re-formatted after every character.
     */
    method TypeText(fullText: string)
      modifies this
      ensures controls == RunFrom(Typing([], false, ""), SplitLines(fullText)).controls
      ensures running == old(running)
    {
      controls := [];
      var inCode := false;
      var acc: string := "";
      var lines := SplitLines(fullText);
      var i := 0;
      while i < |lines|
        invariant i <= |lines| && running == old(running)
        invariant Consistent(Typing(controls, inCode, acc))
        invariant RunFrom(Typing(controls, inCode, acc), lines[i..]) == RunFrom(Typing([], false, ""), lines)
      {
        var line := lines[i];
        ghost var before := Typing(controls, inCode, acc);
        var stripped := Strip(line);
        if !inCode && stripped == "---" {
          StepDivider(before, line);
          controls := controls + [Divider];
        } else if StartsWith(stripped, "```") {
          StepFence(before, line);
          inCode := !inCode;
          if inCode {
            acc := "";
            controls := controls + [CodeBox("")];
          }
        } else if inCode {
          StepInCode(before, line);
          acc, controls := TypeCodeLine(acc, controls, line);
        } else {
          StepPlain(before, line);
          controls := TypePlainLine(controls, line);
        }
        RunFromCons(before, lines[i..]);
        assert lines[i..][1..] == lines[i + 1..];
        i := i + 1;
      }
      assert lines[i..] == [];
    }

    /** `_type_loop`: one pass typing each text in turn, stopping when the bubble is not mounted. */
    method TypeLoop()
      modifies this
      ensures running == old(running)
      ensures !running || texts == [] ==> controls == old(controls)
      ensures running && texts != [] ==> controls == RunFrom(Typing([], false, ""), SplitLines(texts[|texts| - 1])).controls
    {
      var i := 0;
      while i < |texts|
        invariant i <= |texts| && running == old(running)
        invariant !running ==> controls == old(controls)
        invariant i == 0 ==> controls == old(controls)
        invariant running && i > 0 ==> controls == RunFrom(Typing([], false, ""), SplitLines(texts[i - 1])).controls
      {
        if !running {
          break;
        }
        TypeText(texts[i]);
        i := i + 1;
      }
    }
  }

  /** Types the characters of `line` and then `\n` into the open code box, one at a time. */
  method TypeCodeLine(acc0: string, controls0: seq<Control>, line: string) returns (acc: string, controls: seq<Control>)
    requires |controls0| > 0
    ensures acc == acc0 + line + "\n" && controls == ReplaceLast(controls0, CodeBox(acc))
  {
    var chars := line + "\n";
    acc := acc0;
    controls := controls0;
    var j := 0;
    while j < |chars|
      invariant j <= |chars| && acc == acc0 + chars[..j]
      invariant |controls| == |controls0| && controls[..|controls| - 1] == controls0[..|controls0| - 1]
      invariant j > 0 ==> controls[|controls| - 1] == CodeBox(acc)
    {
      acc := acc + [chars[j]];
      controls := controls[..|controls| - 1] + [CodeBox(acc)];
      assert chars[..j + 1] == chars[..j] + [chars[j]];
      j := j + 1;
    }
    assert chars[..j] == chars;
    assert controls == controls[..|controls| - 1] + [controls[|controls| - 1]];
  }

  /** Appends an empty text for `line`, then shows `format` of each longer prefix of it. */
  method TypePlainLine(controls0: seq<Control>, line: string) returns (controls: seq<Control>)
    ensures controls == controls0 + [Typed(line)]
  {
    controls := controls0 + [EmptyText];
    var partial: string := "";
    var j := 0;
    while j < |line|
      invariant j <= |line| && partial == line[..j]
      invariant controls == controls0 + [if j == 0 then EmptyText else Formatted(partial)]
    {
      partial := partial + [line[j]];
      controls := controls[..|controls| - 1] + [Formatted(partial)];
      assert line[..j + 1] == line[..j] + [line[j]];
      j := j + 1;
    }
    assert line[..j] == line;
  }
}
