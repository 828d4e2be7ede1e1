/**
 * The small helpers around the pipeline: choosing the text extractor by
 * file extension, cutting the document for the prompt, and what `make_ppt`
 * computes before it renders anything: the style with its defaults, the
 * title size, and the title and bullet texts of each slide.
 */
module Deck {
  import opened Wrappers
  import opened Text
  import opened JsonValue
  import opened Slides
  import Color
  import DesignPrompt
  import StyleMerge

  // ---------------------------------------------------------------------
  // extract_text: dispatch on the lower-cased file name

  datatype FileKind = Pdf | Docx | PlainText

  predicate EndsWith(s: string, p: string) {
    |p| <= |s| && s[|s| - |p|..] == p
  }

  /** Which extractor `extract_text` calls for a file name. */
  function KindOf(name: string): FileKind {
    var n := Lower(name);
    if EndsWith(n, ".pdf") then Pdf
    else if EndsWith(n, ".docx") || EndsWith(n, ".doc") then Docx
    else PlainText
  }

  /**
   * `extract_text(uploaded_file)`. The PDF and DOCX readers and the UTF-8
   * decoder (with replacement characters) are given as functions; plain
   * text is decoded and stripped.
   */
  function ExtractText(name: string, data: seq<byte>,
                       pdf: seq<byte> -> string, docx: seq<byte> -> string,
                       utf8: seq<byte> -> string): (text: string)
    ensures KindOf(name) == Pdf ==> text == pdf(data)
    ensures KindOf(name) == Docx ==> text == docx(data)
    ensures KindOf(name) == PlainText ==> text == Strip(utf8(data))
  {
    match KindOf(name)
    case Pdf => pdf(data)
    case Docx => docx(data)
    case PlainText => Strip(utf8(data))
  }

  lemma LowerIdempotent(s: string)
    ensures Lower(Lower(s)) == Lower(s)
  {
  }

  /** The extension test ignores case. */
  lemma KindIgnoresCase(name: string)
    ensures KindOf(name) == KindOf(Lower(name))
  {
    LowerIdempotent(name);
  }

  /** Extracted plain text has no spaces at either end. */
  lemma PlainTextIsStripped(name: string, data: seq<byte>,
                            pdf: seq<byte> -> string, docx: seq<byte> -> string,
                            utf8: seq<byte> -> string)
    requires KindOf(name) == PlainText
    ensures var t := ExtractText(name, data, pdf, docx, utf8);
      t == [] || (!IsSpace(t[0]) && !IsSpace(t[|t| - 1]))
  {
  }

  lemma KindExamples()
    ensures KindOf("Report.PDF") == Pdf
    ensures KindOf("notes.Doc") == Docx
    ensures KindOf("a.docx.txt") == PlainText
  {
    assert Lower("Report.PDF")[6..] == ".pdf";
    assert Lower("notes.Doc")[5..] == ".doc";
    assert Lower("notes.Doc")[4..][0] == 's';
    assert Lower("a.docx.txt")[6..][1] == 't';
    assert Lower("a.docx.txt")[5..][0] == 'x';
  }

  // ---------------------------------------------------------------------
  // The document text put into the prompt

  const MaxChunkChars := 3000
  const TruncatedMarker := "\n\n[TRUNCATED]"

  /** `text if len(text) <= max_chunk_chars else text[:max_chunk_chars] + "\n\n[TRUNCATED]"` */
  function TruncateForPrompt(text: string, maxChars: nat): (r: string)
    ensures |text| <= maxChars ==> r == text
    ensures |text| > maxChars ==>
      |r| == maxChars + |TruncatedMarker| && r[..maxChars] == text[..maxChars]
      && r[maxChars..] == TruncatedMarker
    ensures |r| <= maxChars + |TruncatedMarker|
  {
    if |text| <= maxChars then text else text[..maxChars] + TruncatedMarker
  }

  // ---------------------------------------------------------------------
  // Python int() of a style value

  /** Digits with single underscores between them, `[0-9]+(_[0-9]+)*`, as int() accepts. */
  predicate ValidDigits(d: string)
    decreases |d|
  {
    && d != [] && IsDigit(d[0])
    && (|d| == 1
        || (IsDigit(d[1]) && ValidDigits(d[1..]))
        || (d[1] == '_' && ValidDigits(d[2..])))
  }

  /** The value of the digits of `d`, anything else skipped. */
  function DigitsValue(d: string): (v: nat) {
    if d == [] then 0
    else if !IsDigit(d[|d| - 1]) then DigitsValue(d[..|d| - 1])
    else 10 * DigitsValue(d[..|d| - 1]) + DigitValue(d[|d| - 1])
  }

  lemma {:induction false} AllDigitsValid(d: string)
    requires d != [] && forall i :: 0 <= i < |d| ==> IsDigit(d[i])
    ensures ValidDigits(d)
    decreases |d|
  {
    if |d| > 1 {
      AllDigitsValid(d[1..]);
    }
  }

  /** `int(s)` for a str value: spaces around, an optional sign, then digits; None where int() raises. */
  function IntOfText(s: string): (r: Option<int>) {
    var t := Strip(s);
    var neg := t != [] && t[0] == '-';
    var d := if t != [] && (t[0] == '-' || t[0] == '+') then t[1..] else t;
    if ValidDigits(d) then Some(if neg then -(DigitsValue(d) as int) else DigitsValue(d)) else None
  }

  /** `int(v)` for a decoded style value; None where int() raises (None, lists, dicts, bad text). */
  function IntOf(v: Json): (r: Option<int>)
    ensures v.Int? ==> r == Some(v.n)
    ensures v.Null? || v.Arr? || v.Obj? ==> r == None
  {
    match v
    case Int(n) => Some(n)
    case Bool(b) => Some(if b then 1 else 0)
    case Str(s) => IntOfText(s)
    case _ => None
  }

  /** The decimal numeral of a natural number. */
  function NatString(n: nat): (s: string)
    ensures s != [] && forall i :: 0 <= i < |s| ==> IsDigit(s[i])
  {
    if n < 10 then [('0' as int + n) as char]
    else NatString(n / 10) + [('0' as int + n % 10) as char]
  }

  /** `str(n)` */
  function IntString(n: int): string {
    if n < 0 then "-" + NatString(-n) else NatString(n)
  }

  lemma {:induction false} NatStringValue(n: nat)
    ensures DigitsValue(NatString(n)) == n
  {
    var s := NatString(n);
    if n >= 10 {
      NatStringValue(n / 10);
      assert s[..|s| - 1] == NatString(n / 10);
    }
  }

  /** int() reads back what str() writes. */
  lemma IntStringRoundTrip(n: int)
    ensures IntOfText(IntString(n)) == Some(n)
  {
    var m: nat := if n < 0 then -n else n;
    var d := NatString(m);
    NatStringValue(m);
    AllDigitsValid(d);
    var s := IntString(n);
    StripUnspaced(s);
    if n < 0 {
      assert s[1..] == d;
      SignedDigits(s, d);
    } else {
      UnsignedDigits(s);
    }
  }

  lemma SignedDigits(s: string, d: string)
    requires Strip(s) == s && s == "-" + d && ValidDigits(d)
    ensures IntOfText(s) == Some(-(DigitsValue(d) as int))
  {
    assert s[1..] == d;
  }

  lemma UnsignedDigits(s: string)
    requires Strip(s) == s && ValidDigits(s)
    ensures IntOfText(s) == Some(DigitsValue(s) as int)
  {
  }

  /** Spaces around the numeral are skipped. */
  lemma IntOfTextSpaces()
    ensures IntOfText(" 18 ") == Some(18)
  {
    var t := " 18 ";
    assert SpaceRunEnd(t, 0) == 1;
    assert Strip(t) == "18";
    var d := "18";
    assert d[1..] == "8" && ValidDigits("8");
    assert d[..1] == "1" && "1"[..0] == [];
    assert DigitsValue("1") == 1;
  }

  /** A sign and single underscores between digits are read. */
  lemma IntOfTextUnderscore()
    ensures IntOfText("-1_000") == Some(-1000)
  {
    var t := "-1_000";
    StripUnspaced(t);
    UnderscoreDigits();
    SignedDigits(t, "1_000");
  }

  lemma UnderscoreDigits()
    ensures ValidDigits("1_000") && DigitsValue("1_000") == 1000
  {
    var d := "1_000";
    assert d[2..] == "000" && "000"[1..] == "00" && "00"[1..] == "0";
    assert ValidDigits("0") && ValidDigits("00") && ValidDigits("000");
    assert "1_"[..1] == "1" && "1"[..0] == [];
    assert "1_0"[..2] == "1_";
    assert "1_00"[..3] == "1_0";
    assert d[..4] == "1_00";
    assert DigitsValue("1") == 1;
    assert DigitsValue("1_") == 1;
    assert DigitsValue("1_0") == 10;
    assert DigitsValue("1_00") == 100;
  }

  /** A double underscore makes int() raise. */
  lemma IntOfTextRejectsDoubleUnderscore()
    ensures IntOfText("1__0") == None
  {
    var u := "1__0";
    StripUnspaced(u);
    assert !IsDigit(u[1]) && !IsDigit(u[2]);
  }

  /** So does a unit after the number. */
  lemma IntOfTextRejectsUnit()
    ensures IntOfText("18pt") == None
  {
    var p := "18pt";
    StripUnspaced(p);
    assert !IsDigit(p[3]);
  }

  // ---------------------------------------------------------------------
  // make_ppt: the style with its defaults

  /** What `make_ppt` reads from the style before rendering. */
  datatype Theme = Theme(
    background: Json,
    font: Json,
    fontSize: int,
    titleSize: int,
    fontColor: Json,
    emoji: bool)

  const DefaultFontSize := 14

  /** `style.get(key, default)` */
  function Get(style: map<string, Json>, key: string, default: Json): Json {
    if key in style then style[key] else default
  }

  /** `int(style.get("font_size", 14))`, or 14 where int() raises. */
  function FontSizeOf(style: map<string, Json>): (n: int)
    ensures "font_size" !in style ==> n == DefaultFontSize
    ensures "font_size" in style && IntOf(style["font_size"]).Some? ==> n == IntOf(style["font_size"]).value
    ensures "font_size" in style && IntOf(style["font_size"]).None? ==> n == DefaultFontSize
  {
    match IntOf(Get(style, "font_size", Int(DefaultFontSize)))
    case Some(n) => n
    case None => DefaultFontSize
  }

  /** `max(font_size + 4, 14)` */
  function TitleSize(fontSize: int): (t: int)
    ensures t >= fontSize + 4 && t >= DefaultFontSize
    ensures t == fontSize + 4 || t == DefaultFontSize
  {
    if fontSize + 4 > DefaultFontSize then fontSize + 4 else DefaultFontSize
  }

  /** The style normalisation at the head of `make_ppt`. */
  function NormalizeStyle(style: map<string, Json>): (th: Theme)
    ensures th.background == Get(style, "background_color", Str("#FFFFFF"))
    ensures th.font == Get(style, "font", Str("Arial"))
    ensures th.fontSize == FontSizeOf(style)
    ensures th.titleSize == TitleSize(th.fontSize)
    ensures th.fontColor == Get(style, "font_color", Str("#000000"))
    ensures th.emoji <==> Truthy(Get(style, "emoji_in_bullets", Bool(false)))
  {
    var fs := FontSizeOf(style);
    Theme(
      Get(style, "background_color", Str("#FFFFFF")),
      Get(style, "font", Str("Arial")),
      fs,
      TitleSize(fs),
      Get(style, "font_color", Str("#000000")),
      Truthy(Get(style, "emoji_in_bullets", Bool(false))))
  }

  /** An empty style gives the defaults: white background, Arial 14 with 18-point titles, black text, no prefix. */
  lemma EmptyStyleDefaults()
    ensures NormalizeStyle(map[]) == Theme(Str("#FFFFFF"), Str("Arial"), 14, 18, Str("#000000"), false)
  {
  }

  /**
   * When no file produced style JSON, `make_ppt` renders exactly the style
   * parsed from the design prompt: no field falls back to its default.
   */
  lemma PromptOnlyTheme(prompt: string, jsons: seq<Option<Json>>)
    requires forall i :: 0 <= i < |jsons| ==> jsons[i].None?
    ensures var ds := DesignPrompt.DesignStyle(prompt);
      NormalizeStyle(StyleMerge.FinalStyle(prompt, jsons)) ==
        Theme(Str(ds.backgroundColor), Str(ds.font), ds.fontSize, TitleSize(ds.fontSize),
              Str(ds.fontColor), ds.emojiInBullets)
  {
    StyleMerge.NoJsonGivesPrompt(prompt, jsons);
    StyleMapTheme(DesignPrompt.DesignStyle(prompt));
  }

  /** The theme of a parsed prompt's dictionary holds its five values. */
  lemma StyleMapTheme(ds: DesignPrompt.Style)
    ensures NormalizeStyle(DesignPrompt.StyleMap(ds)) ==
      Theme(Str(ds.backgroundColor), Str(ds.font), ds.fontSize, TitleSize(ds.fontSize),
            Str(ds.fontColor), ds.emojiInBullets)
  {
  }

  /**
   * `hex_to_rgb_obj(v)` for a style value: a falsy value reads as white, a
   * string as its colour; any other value makes `.strip()` raise (None).
   */
  function ColorOf(v: Json): (c: Option<Color.Rgb>)
    ensures !Truthy(v) ==> c == Some(Color.White)
    ensures v.Str? ==> c == Some(Color.HexToRgb(v.s))
    ensures Truthy(v) && !v.Str? ==> c.None?
  {
    if !Truthy(v) then
      Color.BlankIsWhite([]);
      Some(Color.White)
    else match v
      case Str(s) => Some(Color.HexToRgb(s))
      case _ => None
  }

  // ---------------------------------------------------------------------
  // make_ppt: the texts each slide gets

  const MaxSlideTitle := 250
  const BulletPrefix := "\U{2022} "

  /** The title placeholder text: the title cut to 250 characters. */
  function TitleText(s: Slide): (t: string)
    ensures |t| <= MaxSlideTitle && StartsWith(s.title, t)
    ensures |s.title| <= MaxSlideTitle ==> t == s.title
  {
    Take(s.title, MaxSlideTitle)
  }

  /** One bullet paragraph's text: `"• " + b` when emoji are on. */
  function BulletText(b: string, emoji: bool): string {
    if emoji then BulletPrefix + b else b
  }

  /** The bullet paragraphs of one slide, in order. */
  function BulletTexts(bs: seq<string>, emoji: bool): (ts: seq<string>)
    ensures |ts| == |bs|
  {
    if bs == [] then [] else BulletTexts(bs[..|bs| - 1], emoji) + [BulletText(bs[|bs| - 1], emoji)]
  }

  /** A rendered slide: title text and size, bullet texts and size. */
  datatype Page = Page(title: string, titleSize: int, bullets: seq<string>, bulletSize: int)

  function PageOf(th: Theme, s: Slide): Page {
    Page(TitleText(s), th.titleSize, BulletTexts(s.bullets, th.emoji), th.fontSize)
  }

  /** The pages `make_ppt` renders, one per slide and in the slides' order. */
  function PagesOf(th: Theme, slides: seq<Slide>): (ps: seq<Page>)
    ensures |ps| == |slides|
    ensures forall k :: 0 <= k < |ps| ==> ps[k] == PageOf(th, slides[k])
  {
    if slides == [] then [] else PagesOf(th, slides[..|slides| - 1]) + [PageOf(th, slides[|slides| - 1])]
  }

  /** The bullet loop of `make_ppt`. */
  method RenderBullets(bs: seq<string>, emoji: bool) returns (ts: seq<string>)
    ensures ts == BulletTexts(bs, emoji)
  {
    ts := [];
    var i := 0;
    while i < |bs|
      invariant 0 <= i <= |bs|
      invariant ts == BulletTexts(bs[..i], emoji)
    {
      assert bs[..i + 1][..i] == bs[..i];
      var t := bs[i];
      if emoji {
        t := BulletPrefix + t;
      }
      ts := ts + [t];
      i := i + 1;
    }
    assert bs[..|bs|] == bs;
  }

  /** The slide loop of `make_ppt`, on the texts and sizes it sets. */
  method RenderSlides(slides: seq<Slide>, style: map<string, Json>) returns (pages: seq<Page>)
    ensures pages == PagesOf(NormalizeStyle(style), slides)
  {
    var th := NormalizeStyle(style);
    pages := [];
    var i := 0;
    while i < |slides|
      invariant 0 <= i <= |slides|
      invariant pages == PagesOf(th, slides[..i])
    {
      assert slides[..i + 1][..i] == slides[..i];
      var bullets := RenderBullets(slides[i].bullets, th.emoji);
      pages := pages + [Page(TitleText(slides[i]), th.titleSize, bullets, th.fontSize)];
      i := i + 1;
    }
    assert slides[..|slides|] == slides;
  }

  lemma {:induction false} BulletTextsAt(bs: seq<string>, emoji: bool)
    ensures forall k :: 0 <= k < |bs| ==> BulletTexts(bs, emoji)[k] == BulletText(bs[k], emoji)
  {
    if bs != [] {
      BulletTextsAt(bs[..|bs| - 1], emoji);
    }
  }

  /**
   * Every bullet comes out in order: with emoji on it is the bullet behind
   * the two-character prefix, with emoji off it is the bullet itself.
   */
  lemma BulletTextsKeepBullets(bs: seq<string>, emoji: bool)
    ensures var ts := BulletTexts(bs, emoji);
      && (emoji ==> forall k :: 0 <= k < |bs| ==> StartsWith(ts[k], BulletPrefix) && ts[k][|BulletPrefix|..] == bs[k])
      && (!emoji ==> ts == bs)
  {
    BulletTextsAt(bs, emoji);
  }

  lemma {:induction false} PagesAt(th: Theme, slides: seq<Slide>)
    ensures forall k :: 0 <= k < |slides| ==> PagesOf(th, slides)[k] == PageOf(th, slides[k])
  {
    if slides != [] {
      PagesAt(th, slides[..|slides| - 1]);
      assert forall k :: 0 <= k < |slides| - 1 ==> slides[..|slides| - 1][k] == slides[k];
    }
  }

  /** Every page has as many bullet paragraphs as its slide has bullets, a title of at most 250 characters, and a title at least 14 points and 4 points above the text. */
  lemma PagesShape(style: map<string, Json>, slides: seq<Slide>)
    ensures var th := NormalizeStyle(style); var ps := PagesOf(th, slides);
      forall k :: 0 <= k < |slides| ==>
        && |ps[k].bullets| == |slides[k].bullets|
        && |ps[k].title| <= MaxSlideTitle
        && ps[k].titleSize >= DefaultFontSize && ps[k].titleSize >= ps[k].bulletSize + 4
  {
    PagesAt(NormalizeStyle(style), slides);
  }
}
