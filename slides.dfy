/**
 * `parse_slides_from_output`: model output becomes a list of slides, each a
 * title and its bullets, by the first of three strategies that applies:
 * "Slide Title:" / "Title:" headers, then `#` headings, then fixed-size
 * chunks of the collapsed text.
 *
 * The regular expressions are modelled by the scanners below; the comment
 * on each says how the pattern's backtracking comes out.
 */
module Slides {
  import opened Wrappers
  import opened Text
  import opened Summary

  datatype Slide = Slide(title: string, bullets: seq<string>)

  const ChunkSize := 1200
  const MaxTitleChars := 60

  /** `re.split(r'(?<=[.!?])\s+', simple_local_summary(text, max_sentences=4))` */
  function SummaryBullets(text: string): (bs: seq<string>)
    ensures 1 <= |bs| <= 4
    ensures AllSpace(text) ==> bs == [[]]
    ensures !AllSpace(text) ==> forall b :: b in bs ==> b != []
  {
    var t := Normalize(text);
    var ps := SplitSentences(t);
    var r := LocalSummary(text, 4);
    assert !AllSpace(text) ==> forall b :: b in SplitSentences(r) ==> b != [] by {
      if !AllSpace(text) {
        SentencesNonEmpty(t);
        assert forall b :: b in ps[..Min(4, |ps|)] ==> b in ps;
      }
    }
    assert AllSpace(text) ==> SplitSentences(r) == [[]] by {
      if AllSpace(text) {
        assert r == [];
        assert FirstBreak(r, 0) == 0;
      }
    }
    SplitSentences(r)
  }

  // ---------------------------------------------------------------------
  // Shared pieces of the two heading patterns

  /** The first `\n` at or after `w`, or `|s|`. */
  function NewlineFrom(s: string, w: nat): (e: nat)
    requires w <= |s|
    ensures w <= e <= |s|
    ensures e < |s| ==> s[e] == '\n'
    ensures forall k :: w <= k < e ==> s[k] != '\n'
    decreases |s| - w
  {
    if w == |s| || s[w] == '\n' then w else NewlineFrom(s, w + 1)
  }

  /** The last index in `[a, w)` whose character is not `\n`. */
  function LastNonNewline(s: string, a: nat, w: nat): (r: Option<nat>)
    requires a <= w <= |s|
    ensures r.Some? ==> a <= r.value < w && s[r.value] != '\n'
    ensures forall k :: a <= k < w && (r.None? || r.value < k) ==> s[k] == '\n'
    decreases w - a
  {
    if w == a then None
    else if s[w - 1] != '\n' then Some(w - 1)
    else LastNonNewline(s, a, w - 1)
  }

  /**
   * Where the captured title of `\s*(.+?)` (or `\s*(.+)`) starts when the
   * pattern reaches index `a`. The greedy `\s*` runs to the end of the
   * spaces; a non-space character there starts the title. When the spaces
   * run to the end of the text, `\s*` gives characters back until the title
   * can start on one that is not `\n`; if every one is `\n` there is no match.
   */
  function TitleStart(s: string, a: nat): (r: Option<nat>)
    requires a <= |s|
    ensures r.Some? ==> a <= r.value < |s| && s[r.value] != '\n'
    ensures r.Some? ==> forall k :: a <= k < r.value ==> IsSpace(s[k])
    ensures r.Some? ==> !IsSpace(s[r.value]) || forall k :: r.value < k < |s| ==> s[k] == '\n'
    ensures r.None? <==> forall k :: a <= k < |s| ==> s[k] == '\n'
  {
    var w := SpaceRunEnd(s, a);
    if w < |s| then Some(w) else LastNonNewline(s, a, w)
  }

  // ---------------------------------------------------------------------
  // Strategy 1: r'(?:Slide Title:|Title:)\s*(.+?)(?:\n|$)([\s\S]*?)(?=(?:Slide Title:|Title:)|$)'
  // with re.IGNORECASE, through re.findall.

  const SlideTitleKey := "slide title:"
  const TitleKey := "title:"

  predicate IsHeader(s: string, h: nat) {
    h <= |s| && (StartsWithNoCase(s[h..], SlideTitleKey) || StartsWithNoCase(s[h..], TitleKey))
  }

  function HeaderLength(s: string, h: nat): (n: nat)
    requires IsHeader(s, h)
    ensures h + n <= |s|
  {
    if StartsWithNoCase(s[h..], SlideTitleKey) then |SlideTitleKey| else |TitleKey|
  }

  /** Where the lazy body may stop: before a header, or where `$` holds (at the end, or before a final `\n`). */
  predicate BodyStops(s: string, p: nat) {
    IsHeader(s, p) || p == |s| || (p + 1 == |s| && s[p] == '\n')
  }

  function BodyEnd(s: string, p: nat): (q: nat)
    requires p <= |s|
    ensures p <= q <= |s| && BodyStops(s, q)
    ensures forall k :: p <= k < q ==> !BodyStops(s, k)
    decreases |s| - p
  {
    if BodyStops(s, p) then p
    else
      var q := BodyEnd(s, p + 1);
      assert forall k :: p <= k < q ==> !BodyStops(s, k) by {
        forall k | p <= k < q
          ensures !BodyStops(s, k)
        {
          if k > p {
            assert p + 1 <= k < q;
          }
        }
      }
      q
  }

  /** One findall match: where it starts and ends, and its title and body groups. */
  datatype Match = Match(start: nat, title: string, body: string, end: nat)

  /**
   * The structured pattern tried at index `h`. The lazy title runs to the
   * first `\n` (consumed) or the end; the lazy body runs to the first place
   * where the lookahead holds. A header followed by nothing but line breaks
   * does not match.
   */
  function StructuredAt(s: string, h: nat): (r: Option<Match>)
    requires h <= |s|
    ensures r.Some? ==> r.value.start == h < r.value.end <= |s| && IsHeader(s, h)
    ensures r.Some? ==> '\n' !in r.value.title && r.value.title != []
  {
    if !IsHeader(s, h) then None
    else
      var a := h + HeaderLength(s, h);
      match TitleStart(s, a)
      case None => None
      case Some(w) =>
        var e := NewlineFrom(s, w);
        var b := if e < |s| then e + 1 else e;
        var p := BodyEnd(s, b);
        assert forall c :: c in s[w..e] ==> c != '\n';
        Some(Match(h, s[w..e], s[b..p], p))
  }

  /** The structured pattern fails at `h` exactly when no header starts there or only line breaks follow it. */
  lemma StructuredAtNone(s: string, h: nat)
    requires h <= |s|
    ensures StructuredAt(s, h).None? <==>
      !IsHeader(s, h) || forall k :: h + HeaderLength(s, h) <= k < |s| ==> s[k] == '\n'
  {
  }

  /**
   * The groups of a structured match at `h`: the title runs from TitleStart
   * to the end of its line, and the body from the next line to the first
   * place the lookahead holds.
   */
  lemma StructuredAtGroups(s: string, h: nat)
    requires h <= |s| && StructuredAt(s, h).Some?
    ensures
      var m := StructuredAt(s, h).value;
      var w := TitleStart(s, h + HeaderLength(s, h)).value;
      var e := w + |m.title|;
      var b := if e < |s| then e + 1 else e;
      && e <= |s| && m.title == s[w..e] && (e == |s| || s[e] == '\n')
      && b <= m.end && m.body == s[b..m.end] && m.end == BodyEnd(s, b)
  {
    var w := TitleStart(s, h + HeaderLength(s, h)).value;
    var e := NewlineFrom(s, w);
    assert StructuredAt(s, h).value.title == s[w..e];
  }

  /**
   * `pattern.findall(s)` from index `i`: the matches in order, not
   * overlapping, each the pattern's match at its own start.
   */
  function StructuredMatches(s: string, i: nat): (ms: seq<Match>)
    requires i <= |s|
    ensures forall k :: 0 <= k < |ms| ==>
      i <= ms[k].start < ms[k].end <= |s| && StructuredAt(s, ms[k].start) == Some(ms[k])
    ensures forall j, k :: 0 <= j < k < |ms| ==> ms[j].end <= ms[k].start
    decreases |s| - i
  {
    match StructuredAt(s, i)
    case Some(m) =>
      var rest := StructuredMatches(s, m.end);
      MatchesAfter(s, m, rest);
      [m] + rest
    case None => if i == |s| then [] else StructuredMatches(s, i + 1)
  }

  /** Putting a match in front of the matches after its end keeps them in order. */
  lemma MatchesAfter(s: string, m: Match, rest: seq<Match>)
    requires m.start < m.end <= |s| && StructuredAt(s, m.start) == Some(m)
    requires forall k :: 0 <= k < |rest| ==>
      m.end <= rest[k].start < rest[k].end <= |s| && StructuredAt(s, rest[k].start) == Some(rest[k])
    requires forall j, k :: 0 <= j < k < |rest| ==> rest[j].end <= rest[k].start
    ensures var ms := [m] + rest;
      && (forall k :: 0 <= k < |ms| ==>
        m.start <= ms[k].start < ms[k].end <= |s| && StructuredAt(s, ms[k].start) == Some(ms[k]))
      && (forall j, k :: 0 <= j < k < |ms| ==> ms[j].end <= ms[k].start)
  {
    var ms := [m] + rest;
    assert forall k :: 0 < k < |ms| ==> ms[k] == rest[k - 1];
    MatchesOrdered(m, rest);
  }

  lemma MatchesOrdered(m: Match, rest: seq<Match>)
    requires m.start < m.end
    requires forall k :: 0 <= k < |rest| ==> m.end <= rest[k].start < rest[k].end
    requires forall j, k :: 0 <= j < k < |rest| ==> rest[j].end <= rest[k].start
    ensures var ms := [m] + rest; forall j, k :: 0 <= j < k < |ms| ==> ms[j].end <= ms[k].start
  {
    var ms := [m] + rest;
    forall j, k | 0 <= j < k < |ms|
      ensures ms[j].end <= ms[k].start
    {
      assert ms[k] == rest[k - 1];
      if j > 0 {
        assert ms[j] == rest[j - 1];
      }
    }
  }

  /** Whether index `h` lies inside one of the matches. */
  predicate InsideMatch(ms: seq<Match>, h: nat) {
    exists k :: 0 <= k < |ms| && ms[k].start <= h < ms[k].end
  }

  /** findall misses nothing: the pattern fails at every index from `i` on that no match covers. */
  lemma {:induction false} StructuredMatchesComplete(s: string, i: nat, h: nat)
    requires i <= h <= |s| && !InsideMatch(StructuredMatches(s, i), h)
    ensures StructuredAt(s, h).None?
    decreases |s| - i
  {
    var r := StructuredAt(s, i);
    if r.Some? {
      var m := r.value;
      var rest := StructuredMatches(s, m.end);
      NotInsideRest(StructuredMatches(s, i), m, rest, h);
      StructuredMatchesComplete(s, m.end, h);
    } else if h > i {
      StructuredMatchesComplete(s, i + 1, h);
    }
  }

  /** An index outside every match of `[m] + rest` lies past `m` and outside every match of `rest`. */
  lemma NotInsideRest(ms: seq<Match>, m: Match, rest: seq<Match>, h: nat)
    requires ms == [m] + rest && m.start <= h && !InsideMatch(ms, h)
    ensures m.end <= h && !InsideMatch(rest, h)
  {
    assert ms[0] == m;
    forall k | 0 <= k < |rest|
      ensures !(rest[k].start <= h < rest[k].end)
    {
      assert rest[k] == ms[k + 1];
    }
  }

  /** `[-•\*\d\)]`: the first character of a bullet line. */
  predicate IsBulletMarker(c: char) {
    c == '-' || c == '\U{2022}' || c == '*' || IsDigit(c) || c == ')'
  }

  /** `re.match(r'^[-•\*\d\)]\s+', line)` on a stripped line. */
  predicate IsBulletLine(l: string) {
    |l| >= 2 && IsBulletMarker(l[0]) && IsSpace(l[1])
  }

  /** `[-•\*\d\)\.]`: the characters the marker prefix is made of. */
  predicate IsMarkerChar(c: char) {
    IsBulletMarker(c) || c == '.'
  }

  function MarkerRunEnd(l: string, i: nat): (j: nat)
    requires i <= |l|
    ensures i <= j <= |l|
    ensures forall k :: i <= k < j ==> IsMarkerChar(l[k])
    ensures j < |l| ==> !IsMarkerChar(l[j])
    decreases |l| - i
  {
    if i < |l| && IsMarkerChar(l[i]) then MarkerRunEnd(l, i + 1) else i
  }

  /** `re.sub(r'^[-•\*\d\)\.]+\s*', '', line).strip()` */
  function StripMarkers(l: string): string {
    Strip(l[MarkerRunEnd(l, 0)..])
  }

  /** What one line adds to the bullets of a structured slide. */
  function MarkedBullet(line: string): seq<string> {
    var l := Strip(line);
    if l != [] && IsBulletLine(l) then [StripMarkers(l)] else []
  }

  /** The bullets the line loop of strategy 1 collects, line by line. */
  function MarkedBullets(lines: seq<string>): seq<string> {
    if lines == [] then []
    else MarkedBullets(lines[..|lines| - 1]) + MarkedBullet(lines[|lines| - 1])
  }

  /** The slide strategy 1 makes of one match. */
  function StructuredSlide(m: Match): Slide {
    var bs := MarkedBullets(Lines(m.body));
    Slide(Strip(m.title), if bs != [] then bs else SummaryBullets(m.body))
  }

  // ---------------------------------------------------------------------
  // Strategy 2: r'^\s*#\s*(.+)$' with re.MULTILINE, through re.findall and re.split.

  /** One heading match: its title group and the span it covers. */
  datatype Heading = Heading(title: string, start: nat, end: nat)

  /** `^\s*#` holds at `p`: a line starts there and its leading spaces (which may cross lines) end on `#`. */
  predicate HeadingStart(s: string, p: nat)
    requires p <= |s|
  {
    && (p == 0 || s[p - 1] == '\n')
    && SpaceRunEnd(s, p) < |s| && s[SpaceRunEnd(s, p)] == '#'
  }

  /**
   * The heading pattern tried at index `p`: `^` holds at a line start, `\s*`
   * (which may cross lines) must end on `#`, and the greedy title runs to
   * the next `\n`, where `$` holds. A `#` followed by nothing but line
   * breaks does not match.
   */
  function HeadingAt(s: string, p: nat): (r: Option<Heading>)
    requires p <= |s|
    ensures r.Some? ==> r.value.start == p < r.value.end <= |s| && HeadingStart(s, p)
    ensures r.Some? ==> '\n' !in r.value.title && r.value.title != []
  {
    if !(p == 0 || s[p - 1] == '\n') then None
    else
      var r := SpaceRunEnd(s, p);
      if r == |s| || s[r] != '#' then None
      else match TitleStart(s, r + 1)
        case None => None
        case Some(w) =>
          var e := NewlineFrom(s, w);
          assert forall c :: c in s[w..e] ==> c != '\n';
          Some(Heading(s[w..e], p, e))
  }

  /** The heading pattern fails at `p` exactly when `^\s*#` does not hold there or only line breaks follow the `#`. */
  lemma HeadingAtNone(s: string, p: nat)
    requires p <= |s|
    ensures HeadingAt(s, p).None? <==>
      !HeadingStart(s, p) || forall k :: SpaceRunEnd(s, p) < k < |s| ==> s[k] == '\n'
  {
  }

  /** The title of a heading match is the rest of its line after the blanks that follow the `#`. */
  lemma HeadingAtGroups(s: string, p: nat)
    requires p <= |s| && HeadingAt(s, p).Some?
    ensures
      var h := HeadingAt(s, p).value;
      var w := h.end - |h.title|;
      && SpaceRunEnd(s, p) < w && h.title == s[w..h.end]
      && (h.end == |s| || s[h.end] == '\n')
      && forall k :: SpaceRunEnd(s, p) < k < w ==> IsSpace(s[k])
  {
    var w := TitleStart(s, SpaceRunEnd(s, p) + 1).value;
    var e := NewlineFrom(s, w);
    assert HeadingAt(s, p).value.title == s[w..e];
  }

  /**
   * `re.findall` of the heading pattern from index `i`: the matches in
   * order and not overlapping, each one the pattern's match at its own
   * start, which is a line whose first non-space character is `#`.
   */
  function Headings(s: string, i: nat): (hs: seq<Heading>)
    requires i <= |s|
    ensures forall k :: 0 <= k < |hs| ==>
      i <= hs[k].start < hs[k].end <= |s| && HeadingAt(s, hs[k].start) == Some(hs[k])
    ensures SpansOrdered(s, hs)
    decreases |s| - i
  {
    match HeadingAt(s, i)
    case Some(h) =>
      var rest := Headings(s, h.end);
      HeadingsAfter(s, h, rest);
      [h] + rest
    case None => if i == |s| then [] else Headings(s, i + 1)
  }

  /** Putting a heading in front of the headings after its end keeps them in order. */
  lemma HeadingsAfter(s: string, h: Heading, rest: seq<Heading>)
    requires h.start < h.end <= |s| && HeadingAt(s, h.start) == Some(h)
    requires forall k :: 0 <= k < |rest| ==>
      h.end <= rest[k].start < rest[k].end <= |s| && HeadingAt(s, rest[k].start) == Some(rest[k])
    requires SpansOrdered(s, rest)
    ensures var hs := [h] + rest;
      && (forall k :: 0 <= k < |hs| ==>
        h.start <= hs[k].start < hs[k].end <= |s| && HeadingAt(s, hs[k].start) == Some(hs[k]))
      && SpansOrdered(s, hs)
  {
    var hs := [h] + rest;
    assert forall k :: 0 < k < |hs| ==> hs[k] == rest[k - 1];
    HeadingsOrdered(s, h, rest);
  }

  lemma HeadingsOrdered(s: string, h: Heading, rest: seq<Heading>)
    requires h.start < h.end <= |s|
    requires forall k :: 0 <= k < |rest| ==> h.end <= rest[k].start
    requires SpansOrdered(s, rest)
    ensures SpansOrdered(s, [h] + rest)
  {
    var hs := [h] + rest;
    forall j, k | 0 <= j < k < |hs|
      ensures hs[j].end <= hs[k].start
    {
      assert hs[k] == rest[k - 1];
      if j > 0 {
        assert hs[j] == rest[j - 1];
      }
    }
  }

  /** Whether index `p` lies inside one of the heading spans. */
  predicate InsideHeading(hs: seq<Heading>, p: nat) {
    exists k :: 0 <= k < |hs| && hs[k].start <= p < hs[k].end
  }

  /** findall misses no heading: the pattern fails at every index from `i` on that no span covers. */
  lemma {:induction false} HeadingsComplete(s: string, i: nat, p: nat)
    requires i <= p <= |s| && !InsideHeading(Headings(s, i), p)
    ensures HeadingAt(s, p).None?
    decreases |s| - i
  {
    var r := HeadingAt(s, i);
    if r.Some? {
      var h := r.value;
      NotInsideLaterHeadings(Headings(s, i), h, Headings(s, h.end), p);
      HeadingsComplete(s, h.end, p);
    } else if p > i {
      HeadingsComplete(s, i + 1, p);
    }
  }

  /** An index outside every span of `[h] + rest` lies past `h` and outside every span of `rest`. */
  lemma NotInsideLaterHeadings(hs: seq<Heading>, h: Heading, rest: seq<Heading>, p: nat)
    requires hs == [h] + rest && h.start <= p && !InsideHeading(hs, p)
    ensures h.end <= p && !InsideHeading(rest, p)
  {
    assert hs[0] == h;
    forall k | 0 <= k < |rest|
      ensures !(rest[k].start <= p < rest[k].end)
    {
      assert rest[k] == hs[k + 1];
    }
  }

  /** Each heading's span lies inside the text, and the spans come in order without overlapping. */
  predicate SpansOrdered(s: string, hs: seq<Heading>) {
    && (forall j :: 0 <= j < |hs| ==> hs[j].start < hs[j].end <= |s|)
    && (forall j, l :: 0 <= j < l < |hs| ==> hs[j].end <= hs[l].start)
  }

  /**
   * `re.split` by the heading pattern, part `k + 1`: the text after heading
   * `k` up to the next one. The bounds are clamped to the text so that the
   * function is total; for the spans Headings returns they never cut
   * (HeadingBodyIsPart).
   */
  function HeadingBody(s: string, hs: seq<Heading>, k: nat): string
    requires k < |hs|
  {
    var next := if k + 1 < |hs| then hs[k + 1].start else |s|;
    var hi := if next <= |s| then next else |s|;
    var lo := if hs[k].end <= hi then hs[k].end else hi;
    s[lo..hi]
  }

  /** For ordered spans the body is exactly the text between heading `k` and the next heading or the end. */
  lemma HeadingBodyIsPart(s: string, hs: seq<Heading>, k: nat)
    requires k < |hs| && SpansOrdered(s, hs)
    ensures k + 1 < |hs| ==> HeadingBody(s, hs, k) == s[hs[k].end..hs[k + 1].start]
    ensures k + 1 == |hs| ==> HeadingBody(s, hs, k) == s[hs[k].end..]
  {
  }

  /** `l.strip().lstrip('-•* ').strip()` */
  function StripDashes(l: string): string {
    var t := Strip(l);
    Strip(t[DashRunEnd(t, 0)..])
  }

  predicate IsDashChar(c: char) {
    c == '-' || c == '\U{2022}' || c == '*' || c == ' '
  }

  function DashRunEnd(l: string, i: nat): (j: nat)
    requires i <= |l|
    ensures i <= j <= |l|
    decreases |l| - i
  {
    if i < |l| && IsDashChar(l[i]) then DashRunEnd(l, i + 1) else i
  }

  /** `[l.strip().lstrip('-•* ').strip() for l in body.splitlines() if l.strip().startswith('-')]` */
  function DashBullets(lines: seq<string>): seq<string> {
    if lines == [] then []
    else
      (if StartsWith(Strip(lines[0]), "-") then [StripDashes(lines[0])] else [])
      + DashBullets(lines[1..])
  }

  /** The slide strategy 2 makes of a heading's title and the body after it. */
  function HeadingSlide(title: string, body: string): Slide {
    var bs := DashBullets(Lines(body));
    Slide(Strip(title), if bs != [] then bs else SummaryBullets(if body != [] then body else title))
  }

  // ---------------------------------------------------------------------
  // Strategy 3: fixed-size chunks of the collapsed text.

  /** `[t[i:i+size] for i in range(0, len(t), size)]` */
  function Chunks(t: string, size: nat): (cs: seq<string>)
    requires size > 0
    ensures t == [] <==> cs == []
    ensures (|cs| - 1) * size < |t| <= |cs| * size || t == []
    ensures forall c :: c in cs ==> 0 < |c| <= size
    decreases |t|
  {
    if t == [] then []
    else if |t| <= size then [t]
    else
      var rest := Chunks(t[size..], size);
      assert (|rest| + 1) * size == |rest| * size + size;
      [t[..size]] + rest
  }

  /** The slide made of one chunk: its summary's sentences, titled by the first cut to 60 characters. */
  function ChunkSlide(chunk: string): Slide {
    var bs := SummaryBullets(chunk);
    Slide(Take(bs[0], MaxTitleChars), bs)
  }

  // ---------------------------------------------------------------------
  // One slide per match, heading or chunk, in order

  function StructuredSlideList(ms: seq<Match>): (r: seq<Slide>)
    ensures |r| == |ms|
  {
    if ms == [] then []
    else StructuredSlideList(ms[..|ms| - 1]) + [StructuredSlide(ms[|ms| - 1])]
  }

  /** The slides of headings `0 .. n - 1`. */
  function HeadingSlideList(s: string, hs: seq<Heading>, n: nat): (r: seq<Slide>)
    requires n <= |hs|
    ensures |r| == n
  {
    seq(n, k requires 0 <= k < n => HeadingSlide(hs[k].title, HeadingBody(s, hs, k)))
  }

  function ChunkSlideList(cs: seq<string>): (r: seq<Slide>)
    ensures |r| == |cs|
  {
    if cs == [] then [] else ChunkSlideList(cs[..|cs| - 1]) + [ChunkSlide(cs[|cs| - 1])]
  }

  // ---------------------------------------------------------------------
  // The whole parser

  /** The slides `parse_slides_from_output(s)` returns. */
  function ParseSlides(s: string): seq<Slide> {
    var ms := StructuredMatches(s, 0);
    if ms != [] then StructuredSlideList(ms)
    else
      var hs := Headings(s, 0);
      if hs != [] then HeadingSlideList(s, hs, |hs|)
      else
        var cleaned := Normalize(s);
        if cleaned == [] then []
        else
          var cs := Chunks(cleaned, ChunkSize);
          ChunkSlideList(cs)
  }

  // ---------------------------------------------------------------------
  // The program's loops

  /** The line loop of strategy 1: strip each line, keep bullet lines without their markers. */
  method CollectBullets(body: string) returns (bullets: seq<string>)
    ensures bullets == MarkedBullets(Lines(body))
  {
    var lines := Lines(body);
    bullets := [];
    var j := 0;
    while j < |lines|
      invariant 0 <= j <= |lines|
      invariant bullets == MarkedBullets(lines[..j])
    {
      assert lines[..j + 1][..j] == lines[..j];
      var line := Strip(lines[j]);
      if line != [] && IsBulletLine(line) {
        bullets := bullets + [StripMarkers(line)];
      }
      j := j + 1;
    }
    assert lines[..|lines|] == lines;
  }

  /** One pass of the match loop of strategy 1. */
  method MakeStructuredSlide(m: Match) returns (slide: Slide)
    ensures slide == StructuredSlide(m)
  {
    var title := Strip(m.title);
    var bullets := CollectBullets(m.body);
    if bullets == [] {
      bullets := SummaryBullets(m.body);
    }
    slide := Slide(title, bullets);
  }

  /** The match loop of strategy 1: one slide per match, in order. */
  method StructuredSlides(ms: seq<Match>) returns (slides: seq<Slide>)
    ensures slides == StructuredSlideList(ms)
  {
    slides := [];
    var i := 0;
    while i < |ms|
      invariant 0 <= i <= |ms|
      invariant slides == StructuredSlideList(ms[..i])
    {
      slides := AddStructuredSlide(ms, i, slides);
      i := i + 1;
    }
    assert ms[..|ms|] == ms;
  }

  /** One pass of the match loop, appending the slide of match `i`. */
  method AddStructuredSlide(ms: seq<Match>, i: nat, slides: seq<Slide>) returns (slides': seq<Slide>)
    requires i < |ms| && slides == StructuredSlideList(ms[..i])
    ensures slides' == StructuredSlideList(ms[..i + 1])
  {
    var slide := MakeStructuredSlide(ms[i]);
    slides' := slides + [slide];
    StructuredListSnoc(ms, i);
  }

  lemma StructuredListSnoc(ms: seq<Match>, i: nat)
    requires i < |ms|
    ensures StructuredSlideList(ms[..i + 1]) == StructuredSlideList(ms[..i]) + [StructuredSlide(ms[i])]
  {
    var p := ms[..i + 1];
    assert p[..i] == ms[..i] && p[i] == ms[i];
  }

  /** One pass of the heading loop. */
  method MakeHeadingSlide(title: string, body: string) returns (slide: Slide)
    ensures slide == HeadingSlide(title, body)
  {
    var bullets := DashBullets(Lines(body));
    if bullets == [] {
      bullets := SummaryBullets(if body != [] then body else title);
    }
    slide := Slide(Strip(title), bullets);
  }

  /** The heading loop of strategy 2: one slide per heading, its body the split part after it. */
  method HeadingSlides(s: string, hs: seq<Heading>) returns (slides: seq<Slide>)
    ensures slides == HeadingSlideList(s, hs, |hs|)
  {
    slides := [];
    var i := 0;
    while i < |hs|
      invariant 0 <= i <= |hs|
      invariant slides == HeadingSlideList(s, hs, i)
    {
      slides := AddHeadingSlide(s, hs, i, slides);
      i := i + 1;
    }
  }

  /** One pass of the heading loop, appending the slide of heading `i`. */
  method AddHeadingSlide(s: string, hs: seq<Heading>, i: nat, slides: seq<Slide>) returns (slides': seq<Slide>)
    requires i < |hs|
    requires slides == HeadingSlideList(s, hs, i)
    ensures slides' == HeadingSlideList(s, hs, i + 1)
  {
    var slide := MakeHeadingSlide(hs[i].title, HeadingBody(s, hs, i));
    slides' := slides + [slide];
    HeadingListSnoc(s, hs, i);
  }

  /** One pass of the chunk loop. */
  method MakeChunkSlide(chunk: string) returns (slide: Slide)
    ensures slide == ChunkSlide(chunk)
  {
    var bullets := SummaryBullets(chunk);
    var title := bullets[0];
    slide := Slide(Take(title, MaxTitleChars), bullets);
  }

  /** The chunk loop: one slide per chunk, in chunk order. */
  method ChunkSlides(chunks: seq<string>) returns (slides: seq<Slide>)
    ensures slides == ChunkSlideList(chunks)
  {
    slides := [];
    var i := 0;
    while i < |chunks|
      invariant 0 <= i <= |chunks|
      invariant slides == ChunkSlideList(chunks[..i])
    {
      slides := AddChunkSlide(chunks, i, slides);
      i := i + 1;
    }
    assert chunks[..|chunks|] == chunks;
  }

  /** One pass of the chunk loop, appending the slide of chunk `i`. */
  method AddChunkSlide(chunks: seq<string>, i: nat, slides: seq<Slide>) returns (slides': seq<Slide>)
    requires i < |chunks| && slides == ChunkSlideList(chunks[..i])
    ensures slides' == ChunkSlideList(chunks[..i + 1])
  {
    var slide := MakeChunkSlide(chunks[i]);
    slides' := slides + [slide];
    ChunkListSnoc(chunks, i);
  }

  lemma ChunkListSnoc(cs: seq<string>, i: nat)
    requires i < |cs|
    ensures ChunkSlideList(cs[..i + 1]) == ChunkSlideList(cs[..i]) + [ChunkSlide(cs[i])]
  {
    var p := cs[..i + 1];
    assert p[..i] == cs[..i] && p[i] == cs[i];
  }

  /** `parse_slides_from_output(output)` */
  method ParseSlidesFromOutput(output: string) returns (slides: seq<Slide>)
    ensures slides == ParseSlides(output)
  {
    var matches := StructuredMatches(output, 0);
    if matches != [] {
      slides := StructuredSlides(matches);
      return;
    }
    var headings := Headings(output, 0);
    if headings != [] {
      slides := HeadingSlides(output, headings);
      return;
    }
    var cleaned := Normalize(output);
    if cleaned == [] {
      return [];
    }
    var chunks := Chunks(cleaned, ChunkSize);
    slides := ChunkSlides(chunks);
  }

  // ---------------------------------------------------------------------
  // Properties of the parser

  lemma StructuredListAt(ms: seq<Match>)
    ensures forall k :: 0 <= k < |ms| ==> StructuredSlideList(ms)[k] == StructuredSlide(ms[k])
  {
    forall k | 0 <= k < |ms| ensures StructuredSlideList(ms)[k] == StructuredSlide(ms[k]) {
      StructuredSlideAt(ms, k);
    }
  }

  lemma {:induction false} StructuredSlideAt(ms: seq<Match>, k: nat)
    requires k < |ms|
    ensures StructuredSlideList(ms)[k] == StructuredSlide(ms[k])
  {
    if k < |ms| - 1 {
      StructuredSlideAt(ms[..|ms| - 1], k);
      assert ms[..|ms| - 1][k] == ms[k];
    }
  }

  lemma HeadingListAt(s: string, hs: seq<Heading>, n: nat)
    requires n <= |hs|
    ensures forall k :: 0 <= k < n ==>
      HeadingSlideList(s, hs, n)[k] == HeadingSlide(hs[k].title, HeadingBody(s, hs, k))
  {
  }

  lemma HeadingListSnoc(s: string, hs: seq<Heading>, i: nat)
    requires i < |hs|
    ensures HeadingSlideList(s, hs, i + 1) == HeadingSlideList(s, hs, i) + [HeadingSlide(hs[i].title, HeadingBody(s, hs, i))]
  {
    HeadingListPrefix(s, hs, i);
    AppendLast(HeadingSlideList(s, hs, i + 1), HeadingSlideList(s, hs, i), HeadingSlide(hs[i].title, HeadingBody(s, hs, i)));
  }

  lemma HeadingListPrefix(s: string, hs: seq<Heading>, i: nat)
    requires i < |hs|
    ensures HeadingSlideList(s, hs, i + 1)[..i] == HeadingSlideList(s, hs, i)
  {
    var a := HeadingSlideList(s, hs, i + 1)[..i];
    var b := HeadingSlideList(s, hs, i);
    forall k | 0 <= k < i
      ensures a[k] == b[k]
    {
    }
  }

  /** A sequence is its prefix followed by its last element. */
  lemma AppendLast<T>(a: seq<T>, b: seq<T>, x: T)
    requires |a| == |b| + 1 && a[..|b|] == b && a[|b|] == x
    ensures a == b + [x]
  {
    assert a == a[..|b|] + [a[|b|]];
  }

  lemma ChunkListAt(cs: seq<string>)
    ensures forall k :: 0 <= k < |cs| ==> ChunkSlideList(cs)[k] == ChunkSlide(cs[k])
  {
    forall k | 0 <= k < |cs| ensures ChunkSlideList(cs)[k] == ChunkSlide(cs[k]) {
      ChunkSlideAt(cs, k);
    }
  }

  lemma {:induction false} ChunkSlideAt(cs: seq<string>, k: nat)
    requires k < |cs|
    ensures ChunkSlideList(cs)[k] == ChunkSlide(cs[k])
  {
    if k < |cs| - 1 {
      ChunkSlideAt(cs[..|cs| - 1], k);
      assert cs[..|cs| - 1][k] == cs[k];
    }
  }

  /** No header can start on a space, so a blank text has no structured match. */
  lemma {:induction false} NoMatchesInBlank(s: string, i: nat)
    requires i <= |s| && AllSpace(s)
    ensures StructuredMatches(s, i) == []
    decreases |s| - i
  {
    if i < |s| {
      assert LowerChar(s[i]) == s[i];
      assert !IsHeader(s, i);
      NoMatchesInBlank(s, i + 1);
    }
  }

  /** A blank text has no `#`, so no heading. */
  lemma {:induction false} NoHeadingsInBlank(s: string, i: nat)
    requires i <= |s| && AllSpace(s)
    ensures Headings(s, i) == []
    decreases |s| - i
  {
    assert SpaceRunEnd(s, i) == |s|;
    if i < |s| {
      NoHeadingsInBlank(s, i + 1);
    }
  }

  /** The parser returns no slide exactly when the text is blank. */
  lemma NoSlidesIffBlank(s: string)
    ensures ParseSlides(s) == [] <==> AllSpace(s)
  {
    if AllSpace(s) {
      NoMatchesInBlank(s, 0);
      NoHeadingsInBlank(s, 0);
    }
  }

  /** Every slide the parser makes has at least one bullet. */
  lemma EverySlideHasBullets(s: string)
    ensures forall k :: 0 <= k < |ParseSlides(s)| ==> |ParseSlides(s)[k].bullets| >= 1
  {
    var ms := StructuredMatches(s, 0);
    var hs := Headings(s, 0);
    if ms != [] {
      StructuredListAt(ms);
    } else if hs != [] {
      HeadingListAt(s, hs, |hs|);
    } else if Normalize(s) != [] {
      ChunkListAt(Chunks(Normalize(s), ChunkSize));
    }
  }

  /**
   * The bullets of strategy 1 are exactly the qualifying lines with their
   * markers stripped: each comes from a bullet line, each bullet line gives
   * one, and there are none when no line qualifies.
   */
  lemma MarkedBulletsFromLines(ls: seq<string>)
    ensures |MarkedBullets(ls)| <= |ls|
    ensures forall b :: b in MarkedBullets(ls) ==>
      exists l :: l in ls && IsBulletLine(Strip(l)) && b == StripMarkers(Strip(l))
    ensures forall l :: l in ls && IsBulletLine(Strip(l)) ==> StripMarkers(Strip(l)) in MarkedBullets(ls)
    ensures MarkedBullets(ls) == [] <==> forall l :: l in ls ==> !IsBulletLine(Strip(l))
  {
    MarkedBulletsSound(ls);
    MarkedBulletsComplete(ls);
    if MarkedBullets(ls) != [] {
      assert MarkedBullets(ls)[0] in MarkedBullets(ls);
    }
  }

  /**
   * The bullets of strategy 1 follow the lines: the bullets of two blocks
   * of lines are those of the first followed by those of the second, and a
   * single line gives its own bullet or none.
   */
  lemma {:induction false} MarkedBulletsAppend(a: seq<string>, b: seq<string>)
    ensures MarkedBullets(a + b) == MarkedBullets(a) + MarkedBullets(b)
    decreases |b|
  {
    if b == [] {
      assert a + b == a;
    } else {
      var init, x := b[..|b| - 1], b[|b| - 1];
      MarkedBulletsAppend(a, init);
      SnocOfAppend(a, b);
      MarkedBulletsSnoc(a + init, x);
      MarkedBulletsSnoc(init, x);
      SnocOfAppend([], b);
      assert [] + b == b && [] + init == init;
      AppendAssoc(MarkedBullets(a), MarkedBullets(init), MarkedBullet(x));
    }
  }

  lemma SnocOfAppend<T>(a: seq<T>, b: seq<T>)
    requires b != []
    ensures a + b == (a + b[..|b| - 1]) + [b[|b| - 1]]
  {
  }

  lemma MarkedBulletsSnoc(ls: seq<string>, l: string)
    ensures MarkedBullets(ls + [l]) == MarkedBullets(ls) + MarkedBullet(l)
  {
    assert (ls + [l])[..|ls|] == ls;
  }

  lemma MarkedBulletsOne(l: string)
    ensures MarkedBullets([l]) == MarkedBullet(l)
    ensures MarkedBullets([l]) == if IsBulletLine(Strip(l)) then [StripMarkers(Strip(l))] else []
  {
    assert [l][..0] == [];
  }

  lemma {:induction false} MarkedBulletsSound(ls: seq<string>)
    ensures |MarkedBullets(ls)| <= |ls|
    ensures forall b :: b in MarkedBullets(ls) ==>
      exists l :: l in ls && IsBulletLine(Strip(l)) && b == StripMarkers(Strip(l))
  {
    if ls != [] {
      var init := ls[..|ls| - 1];
      var last := ls[|ls| - 1];
      MarkedBulletsSound(init);
      assert forall l :: l in init ==> l in ls;
      assert last in ls;
    }
  }

  lemma {:induction false} MarkedBulletsComplete(ls: seq<string>)
    ensures forall l :: l in ls && IsBulletLine(Strip(l)) ==> StripMarkers(Strip(l)) in MarkedBullets(ls)
  {
    if ls != [] {
      var init := ls[..|ls| - 1];
      var last := ls[|ls| - 1];
      MarkedBulletsComplete(init);
      assert MarkedBullets(ls) == MarkedBullets(init) + MarkedBullet(last);
      forall l | l in ls && IsBulletLine(Strip(l))
        ensures StripMarkers(Strip(l)) in MarkedBullets(ls)
      {
        if l != last {
          var i :| 0 <= i < |ls| && ls[i] == l;
          assert init[i] == l;
        }
      }
    }
  }

  /**
   * Strategy 1 makes one slide per findall match, in order: each match
   * starts at a header, and its slide is titled by the match's stripped
   * one-line title. Every header followed by something other than line
   * breaks (`\s*` may cross lines, so the title can be on a later line)
   * lies in some match: a match starts there or covers it.
   */
  lemma StructuredSlidesShape(s: string)
    requires StructuredMatches(s, 0) != []
    ensures |ParseSlides(s)| == |StructuredMatches(s, 0)|
    ensures forall k :: 0 <= k < |ParseSlides(s)| ==>
      && IsHeader(s, StructuredMatches(s, 0)[k].start)
      && ParseSlides(s)[k].title == Strip(StructuredMatches(s, 0)[k].title)
      && '\n' !in ParseSlides(s)[k].title
    ensures forall h :: 0 <= h <= |s| && IsHeader(s, h) && !OnlyBreaksAfter(s, h + HeaderLength(s, h)) ==>
      InsideMatch(StructuredMatches(s, 0), h)
  {
    var ms := StructuredMatches(s, 0);
    assert ParseSlides(s) == StructuredSlideList(ms);
    StructuredListShape(s, ms);
    HeadersCovered(s);
  }

  /** `\s*` crosses the line break, so a header whose title is on the next line still matches. */
  lemma ExampleTitleOnNextLine()
    ensures StructuredAt("Title:\nFoo", 0).Some?
    ensures StructuredAt("Title:\nFoo", 0).value.title == "Foo"
  {
    var s := "Title:\nFoo";
    NextLineHeader();
    StructuredAtNone(s, 0);
    assert s[7] != '\n';
    NextLineTitle();
    StructuredAtGroups(s, 0);
    SliceIs(s, 7, 10, "Foo");
  }

  lemma NextLineHeader()
    ensures IsHeader("Title:\nFoo", 0) && HeaderLength("Title:\nFoo", 0) == 6
  {
    var s := "Title:\nFoo";
    assert s[0..] == s;
    assert !StartsWithNoCase(s, SlideTitleKey);
    assert StartsWithNoCase(s, TitleKey) by {
      forall i | 0 <= i < 6 ensures LowerChar(s[i]) == TitleKey[i] { }
    }
  }

  lemma NextLineTitle()
    ensures TitleStart("Title:\nFoo", 6) == Some(7) && NewlineFrom("Title:\nFoo", 7) == 10
  {
    var s := "Title:\nFoo";
    assert SpaceRunEnd(s, 7) == 7;
    assert NewlineFrom(s, 10) == 10 && NewlineFrom(s, 9) == 10 && NewlineFrom(s, 8) == 10;
  }

  /** Only line breaks follow index `a`. */
  predicate OnlyBreaksAfter(s: string, a: nat) {
    forall k :: a <= k < |s| ==> s[k] == '\n'
  }

  /** findall covers every header the pattern can match at. */
  lemma HeadersCovered(s: string)
    ensures forall h :: 0 <= h <= |s| && IsHeader(s, h) && !OnlyBreaksAfter(s, h + HeaderLength(s, h)) ==>
      InsideMatch(StructuredMatches(s, 0), h)
  {
    forall h | 0 <= h <= |s| && IsHeader(s, h) && !OnlyBreaksAfter(s, h + HeaderLength(s, h))
      ensures InsideMatch(StructuredMatches(s, 0), h)
    {
      StructuredAtNone(s, h);
      if !InsideMatch(StructuredMatches(s, 0), h) {
        StructuredMatchesComplete(s, 0, h);
      }
    }
  }

  lemma StructuredListShape(s: string, ms: seq<Match>)
    requires forall k :: 0 <= k < |ms| ==> ms[k].start <= |s| && StructuredAt(s, ms[k].start) == Some(ms[k])
    ensures forall k :: 0 <= k < |ms| ==>
      && IsHeader(s, ms[k].start)
      && StructuredSlideList(ms)[k].title == Strip(ms[k].title)
      && '\n' !in StructuredSlideList(ms)[k].title
  {
    StructuredListAt(ms);
  }

  /**
   * Strategy 2 makes one slide per heading match, in order: each starts at
   * a line whose first non-space character is `#`, and its slide is titled
   * by the stripped heading text.
   */
  lemma HeadingSlidesShape(s: string)
    requires StructuredMatches(s, 0) == [] && Headings(s, 0) != []
    ensures |ParseSlides(s)| == |Headings(s, 0)|
    ensures forall k :: 0 <= k < |ParseSlides(s)| ==>
      && HeadingStart(s, Headings(s, 0)[k].start)
      && ParseSlides(s)[k].title == Strip(Headings(s, 0)[k].title)
      && '\n' !in ParseSlides(s)[k].title
  {
    var hs := Headings(s, 0);
    assert ParseSlides(s) == HeadingSlideList(s, hs, |hs|);
    HeadingListShape(s, hs);
  }

  lemma HeadingListShape(s: string, hs: seq<Heading>)
    requires forall k :: 0 <= k < |hs| ==> hs[k].start <= |s| && HeadingAt(s, hs[k].start) == Some(hs[k])
    ensures forall k :: 0 <= k < |hs| ==>
      && hs[k].start <= |s| && HeadingStart(s, hs[k].start)
      && HeadingSlideList(s, hs, |hs|)[k].title == Strip(hs[k].title)
      && '\n' !in HeadingSlideList(s, hs, |hs|)[k].title
  {
    HeadingListAt(s, hs, |hs|);
    forall k | 0 <= k < |hs|
      ensures HeadingStart(s, hs[k].start) && '\n' !in Strip(hs[k].title)
    {
      assert HeadingAt(s, hs[k].start) == Some(hs[k]);
    }
  }

  /** No two neighbouring spaces and no space at the end: every piece of at least two characters holds a non-space. */
  ghost predicate Spaced(t: string) {
    && (t == [] || !IsSpace(t[|t| - 1]))
    && (forall i, j :: 0 <= i && j == i + 1 && j < |t| ==> !IsSpace(t[i]) || !IsSpace(t[j]))
  }

  lemma {:induction false} ChunksNotBlank(t: string, size: nat)
    requires size >= 2 && Spaced(t)
    ensures forall c :: c in Chunks(t, size) ==> !AllSpace(c)
    decreases |t|
  {
    if |t| > size {
      var rest := t[size..];
      assert Spaced(rest) by {
        forall i, j | 0 <= i && j == i + 1 && j < |rest|
          ensures !IsSpace(rest[i]) || !IsSpace(rest[j])
        {
          assert rest[i] == t[i + size] && rest[j] == t[j + size];
        }
      }
      ChunksNotBlank(rest, size);
      assert !IsSpace(t[..size][0]) || !IsSpace(t[..size][1]);
    } else if t != [] {
      assert !IsSpace(t[|t| - 1]);
    }
  }

  /**
   * Strategy 3: the collapsed text is cut into 1200-character chunks, one
   * slide each; every slide has one to four non-empty bullets and is titled
   * by its first bullet cut to 60 characters.
   */
  lemma ChunkSlidesShape(s: string)
    requires StructuredMatches(s, 0) == [] && Headings(s, 0) == [] && !AllSpace(s)
    ensures var t := Normalize(s); var n := |ParseSlides(s)|;
      (n - 1) * ChunkSize < |t| <= n * ChunkSize
    ensures forall k :: 0 <= k < |ParseSlides(s)| ==>
      var sl := ParseSlides(s)[k];
      && 1 <= |sl.bullets| <= 4
      && (forall b :: b in sl.bullets ==> b != [])
      && sl.title == Take(sl.bullets[0], MaxTitleChars)
      && 0 < |sl.title| <= MaxTitleChars
  {
    var t := Normalize(s);
    var cs := Chunks(t, ChunkSize);
    assert ParseSlides(s) == ChunkSlideList(cs);
    ChunksNotBlank(t, ChunkSize);
    forall k | 0 <= k < |cs|
      ensures var sl := ChunkSlideList(cs)[k];
        && 1 <= |sl.bullets| <= 4
        && (forall b :: b in sl.bullets ==> b != [])
        && sl.title == Take(sl.bullets[0], MaxTitleChars)
        && 0 < |sl.title| <= MaxTitleChars
    {
      ChunkSlideAt(cs, k);
      assert cs[k] in cs;
      ChunkSlideShape(cs[k]);
    }
  }

  /** The slide of a chunk that is not blank: one to four non-empty bullets, titled by the first cut to 60 characters. */
  lemma ChunkSlideShape(c: string)
    requires !AllSpace(c)
    ensures var sl := ChunkSlide(c);
      && 1 <= |sl.bullets| <= 4
      && (forall b :: b in sl.bullets ==> b != [])
      && sl.title == Take(sl.bullets[0], MaxTitleChars)
      && 0 < |sl.title| <= MaxTitleChars
  {
    var bs := SummaryBullets(c);
    assert bs[0] in bs;
  }

  /** Joining the chunks gives back the text. */
  function Concat(cs: seq<string>): string {
    if cs == [] then [] else cs[0] + Concat(cs[1..])
  }

  lemma {:induction false} ChunksConcat(t: string, size: nat)
    requires size > 0
    ensures Concat(Chunks(t, size)) == t
    decreases |t|
  {
    if |t| > size {
      ChunksConcat(t[size..], size);
      assert t[..size] + t[size..] == t;
    }
  }

  /** Chunk `k` is `t[k * size:(k + 1) * size]`: every chunk but the last is full. */
  lemma {:induction false} ChunksAreSlices(t: string, size: nat, k: nat)
    requires size > 0 && k < |Chunks(t, size)|
    ensures k * size < |t|
    ensures Chunks(t, size)[k] == t[k * size..if (k + 1) * size <= |t| then (k + 1) * size else |t|]
    decreases |t|
  {
    if |t| <= size {
      assert k == 0;
    } else if k > 0 {
      var m: nat := k - 1;
      var u := t[size..];
      ChunksTail(t, size, m);
      ChunksAreSlices(u, size, m);
      NextMultiple(m, size);
      NextMultiple(k, size);
      var lo := m * size;
      var hi := if (m + 1) * size <= |u| then (m + 1) * size else |u|;
      SliceOfSuffix(t, size, lo, hi);
      assert lo + size == k * size;
      assert hi + size == if (k + 1) * size <= |t| then (k + 1) * size else |t|;
    }
  }

  /** The chunks after the first are the chunks of the rest. */
  lemma ChunksTail(t: string, size: nat, m: nat)
    requires size > 0 && |t| > size && m + 1 < |Chunks(t, size)|
    ensures m < |Chunks(t[size..], size)| && Chunks(t, size)[m + 1] == Chunks(t[size..], size)[m]
  {
  }

  lemma NextMultiple(m: nat, size: nat)
    ensures (m + 1) * size == m * size + size
  {
  }

  lemma SliceOfSuffix<T>(t: seq<T>, d: nat, lo: nat, hi: nat)
    requires d <= |t| && lo <= hi <= |t| - d
    ensures t[d..][lo..hi] == t[lo + d..hi + d]
  {
  }

  // ---------------------------------------------------------------------
  // A worked example

  /** A header cannot start on a character that folds to neither `s` nor `t`. */
  lemma NotHeaderAt(s: string, h: nat)
    requires h < |s| && LowerChar(s[h]) != 's' && LowerChar(s[h]) != 't'
    ensures !IsHeader(s, h)
  {
  }

  /** The lazy body stops at the first place the lookahead holds. */
  lemma {:induction false} BodyEndAt(s: string, p: nat, q: nat)
    requires p <= q <= |s| && BodyStops(s, q)
    requires forall k :: p <= k < q ==> !BodyStops(s, k)
    ensures BodyEnd(s, p) == q
    decreases q - p
  {
    if p < q {
      BodyEndAt(s, p + 1, q);
    }
  }

  const Example := "Slide Title: A\n- x\n- y\nSlide Title: B\n- z"

  lemma SliceIs(s: string, i: nat, j: nat, t: string)
    requires i <= j <= |s| && j - i == |t|
    requires forall k :: 0 <= k < |t| ==> s[i + k] == t[k]
    ensures s[i..j] == t
  {
  }

  lemma HeaderIs(s: string, h: nat)
    requires h + 12 <= |s| && s[h..h + 12] == "Slide Title:"
    ensures IsHeader(s, h) && HeaderLength(s, h) == 12
  {
    assert StartsWithNoCase(s[h..], SlideTitleKey) by {
      forall i | 0 <= i < 12
        ensures LowerChar(s[h..][i]) == SlideTitleKey[i]
      {
        assert s[h..][i] == s[h..h + 12][i];
      }
    }
  }

  /** Where each body of the example ends: at the second header, and at the end. */
  lemma ExampleBodyEnd(p: nat, q: nat)
    requires (p == 15 && q == 23) || (p == 38 && q == 41)
    ensures BodyEnd(Example, p) == q
  {
    var s := Example;
    if q == 23 {
      ExampleHeader(23);
    }
    forall k | p <= k < q
      ensures !BodyStops(s, k)
    {
      NotHeaderAt(s, k);
    }
    BodyEndAt(s, p, q);
  }

  /** The example's two headers, at 0 and at 23. */
  lemma ExampleHeader(h: nat)
    requires h == 0 || h == 23
    ensures IsHeader(Example, h) && HeaderLength(Example, h) == 12
  {
    SliceIs(Example, h, h + 12, "Slide Title:");
    HeaderIs(Example, h);
  }

  /** The match at a header whose title line ends in a line break. */
  lemma MatchAt(s: string, h: nat, w: nat, e: nat, p: nat)
    requires IsHeader(s, h) && TitleStart(s, h + HeaderLength(s, h)) == Some(w)
    requires NewlineFrom(s, w) == e < |s| && BodyEnd(s, e + 1) == p
    ensures StructuredAt(s, h) == Some(Match(h, s[w..e], s[e + 1..p], p))
  {
    var r := StructuredAt(s, h);
    assert r.Some? && r.value.title == s[w..e] && r.value.body == s[e + 1..p] && r.value.end == p;
  }

  /** The example's titles: a blank, one letter and a line break after each header. */
  lemma ExampleTitle(a: nat)
    requires a == 12 || a == 35
    ensures TitleStart(Example, a) == Some(a + 1) && NewlineFrom(Example, a + 1) == a + 2
  {
    TitleSpan(Example, a);
  }

  /** A blank, one title character and a line break. */
  lemma TitleSpan(s: string, a: nat)
    requires a + 3 <= |s| && s[a] == ' ' && !IsSpace(s[a + 1]) && s[a + 1] != '\n' && s[a + 2] == '\n'
    ensures TitleStart(s, a) == Some(a + 1) && NewlineFrom(s, a + 1) == a + 2
  {
    assert SpaceRunEnd(s, a + 1) == a + 1;
    assert NewlineFrom(s, a + 2) == a + 2;
  }

  lemma ExampleFirstTexts()
    ensures Example[13..14] == "A" && Example[15..23] == "- x\n- y\n"
  {
    SliceIs(Example, 13, 14, "A");
    SliceIs(Example, 15, 23, "- x\n- y\n");
  }

  lemma ExampleSecondTexts()
    ensures Example[36..37] == "B" && Example[38..41] == "- z"
  {
    SliceIs(Example, 36, 37, "B");
    SliceIs(Example, 38, 41, "- z");
  }

  lemma ExampleFirstMatch()
    ensures StructuredAt(Example, 0) == Some(Match(0, "A", "- x\n- y\n", 23))
  {
    ExampleHeader(0);
    ExampleTitle(12);
    ExampleBodyEnd(15, 23);
    MatchAt(Example, 0, 13, 14, 23);
    ExampleFirstTexts();
  }

  lemma ExampleSecondMatch()
    ensures StructuredAt(Example, 23) == Some(Match(23, "B", "- z", 41))
  {
    ExampleHeader(23);
    ExampleTitle(35);
    ExampleBodyEnd(38, 41);
    MatchAt(Example, 23, 36, 37, 41);
    ExampleSecondTexts();
  }

  lemma ExampleMatches()
    ensures StructuredMatches(Example, 0) == [Match(0, "A", "- x\n- y\n", 23), Match(23, "B", "- z", 41)]
  {
    ExampleFirstMatch();
    ExampleLaterMatches();
  }

  lemma ExampleLaterMatches()
    ensures StructuredMatches(Example, 23) == [Match(23, "B", "- z", 41)]
  {
    ExampleSecondMatch();
    ExampleEnd();
  }

  lemma ExampleEnd()
    ensures StructuredMatches(Example, 41) == []
  {
    assert StructuredAt(Example, 41) == None;
  }

  /** A dash line is a bullet: its marker and the blank after it are dropped. */
  lemma DashLineBullet(c: char)
    requires !IsSpace(c) && !IsMarkerChar(c)
    ensures MarkedBullet(['-', ' ', c]) == [[c]]
  {
    var l := ['-', ' ', c];
    assert Strip(l) == l by { assert SpaceRunEnd(l, 0) == 0; }
    assert MarkerRunEnd(l, 2) == 2;
    assert MarkerRunEnd(l, 1) == 1;
    assert MarkerRunEnd(l, 0) == 1;
    var rest := l[1..];
    assert SpaceRunEnd(rest, 0) == 1 by {
      assert SpaceRunEnd(rest, 1) == 1;
    }
    assert Strip(rest) == [c];
  }

  lemma StripLetter(c: char)
    requires !IsSpace(c)
    ensures Strip([c]) == [c]
  {
    assert SpaceRunEnd([c], 0) == 0;
    assert StripEndIndex([c], 0) == 1;
  }

  lemma ExampleFirstLines()
    ensures Lines("- x\n- y\n") == ["- x", "- y"]
  {
    var b1 := "- x\n- y\n";
    ExampleFirstLineEnd();
    LinesCons(b1, 3, 4);
    SliceIs(b1, 4, 8, "- y\n");
    SliceIs(b1, 0, 3, "- x");
    assert b1[4..] == b1[4..8];
    ExampleLastLine();
    assert Lines(b1) == ["- x"] + ["- y"];
  }

  lemma ExampleFirstLineEnd()
    ensures LineEnd("- x\n- y\n", 0) == 3
  {
    var b1 := "- x\n- y\n";
    assert LineEnd(b1, 3) == 3 && LineEnd(b1, 2) == 3 && LineEnd(b1, 1) == 3;
  }

  lemma ExampleLastLine()
    ensures Lines("- y\n") == ["- y"]
  {
    var r1 := "- y\n";
    assert LineEnd(r1, 3) == 3 && LineEnd(r1, 2) == 3 && LineEnd(r1, 1) == 3 && LineEnd(r1, 0) == 3;
    assert r1[4..] == [];
    SliceIs(r1, 0, 3, "- y");
  }

  lemma ExampleSlides()
    ensures StructuredSlide(Match(0, "A", "- x\n- y\n", 23)) == Slide("A", ["x", "y"])
    ensures StructuredSlide(Match(23, "B", "- z", 41)) == Slide("B", ["z"])
  {
    ExampleFirstSlide();
    ExampleSecondSlide();
  }

  lemma ExampleFirstSlide()
    ensures StructuredSlide(Match(0, "A", "- x\n- y\n", 23)) == Slide("A", ["x", "y"])
  {
    ExampleFirstBullets();
    StripLetter('A');
  }

  lemma ExampleSecondSlide()
    ensures StructuredSlide(Match(23, "B", "- z", 41)) == Slide("B", ["z"])
  {
    ExampleSecondBullets();
    StripLetter('B');
  }

  lemma ExampleFirstBullets()
    ensures MarkedBullets(Lines("- x\n- y\n")) == ["x", "y"]
  {
    ExampleFirstLines();
    MarkedPair("- x", "- y");
    ExampleDashLines();
  }

  lemma ExampleSecondBullets()
    ensures MarkedBullets(Lines("- z")) == ["z"]
  {
    ExampleSecondLines();
    MarkedOne("- z");
    ExampleDashLines();
  }

  lemma ExampleDashLines()
    ensures MarkedBullet("- x") == ["x"] && MarkedBullet("- y") == ["y"] && MarkedBullet("- z") == ["z"]
  {
    DashLetter('x');
    DashLetter('y');
    DashLetter('z');
  }

  lemma DashLetter(c: char)
    requires 'a' <= c <= 'z'
    ensures MarkedBullet(['-', ' ', c]) == [[c]]
  {
    DashLineBullet(c);
  }

  lemma MarkedOne(a: string)
    ensures MarkedBullets([a]) == MarkedBullet(a)
  {
    assert [a][..0] == [];
  }

  lemma MarkedPair(a: string, b: string)
    ensures MarkedBullets([a, b]) == MarkedBullet(a) + MarkedBullet(b)
  {
    assert [a, b][..1] == [a];
    MarkedOne(a);
  }

  lemma ExampleSecondLines()
    ensures Lines("- z") == ["- z"]
  {
    var b2 := "- z";
    assert LineEnd(b2, 3) == 3 && LineEnd(b2, 2) == 3 && LineEnd(b2, 1) == 3 && LineEnd(b2, 0) == 3;
  }

  /** Two headed slides: `A` with bullets x and y, then `B` with bullet z. */
  lemma ExampleParse()
    ensures ParseSlides(Example) == [Slide("A", ["x", "y"]), Slide("B", ["z"])]
  {
    ExampleMatches();
    ExampleSlides();
    ParseStructured(Example);
    PairSlides(Match(0, "A", "- x\n- y\n", 23), Match(23, "B", "- z", 41));
  }

  lemma ParseStructured(s: string)
    requires StructuredMatches(s, 0) != []
    ensures ParseSlides(s) == StructuredSlideList(StructuredMatches(s, 0))
  {
  }

  lemma PairSlides(a: Match, b: Match)
    ensures StructuredSlideList([a, b]) == [StructuredSlide(a), StructuredSlide(b)]
  {
    assert [a, b][..1] == [a];
    assert [a][..0] == [];
  }

  /** One marker character and a blank make a bullet line; a numbered `1.` or `1)` does not. */
  lemma BulletLineExamples()
    ensures IsBulletLine("- x") && IsBulletLine("* x") && IsBulletLine("\U{2022} x") && IsBulletLine("1 x")
    ensures !IsBulletLine("1. x") && !IsBulletLine("1) x") && !IsBulletLine("-x")
  {
  }
}
