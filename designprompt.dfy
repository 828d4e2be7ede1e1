/**
 * `parse_design_prompt`: a free-form design instruction becomes a complete
 * five-field style, every field keeping its default unless a fixed pattern
 * matches.
 */
module DesignPrompt {
  import opened Wrappers
  import opened Text
  import opened JsonValue

  datatype Style = Style(
    backgroundColor: string,
    font: string,
    fontSize: int,
    fontColor: string,
    emojiInBullets: bool)

  const DefaultStyle := Style("#FFFFFF", "Arial", 14, "#000000", false)

  /** COLOR_MAP, in the order of its literal (which is its iteration order). */
  const ColorNames: seq<string> :=
    ["blue", "dark blue", "black", "white", "green", "red",
     "yellow", "gray", "dark", "light", "orange", "purple"]
  const ColorHexes: seq<string> :=
    ["#003366", "#003366", "#000000", "#FFFFFF", "#008000", "#FF0000",
     "#FFCC00", "#808080", "#333333", "#F8F8F8", "#FF8C00", "#800080"]

  /** The colour words after which the font colour turns white. */
  const DarkColorNames: seq<string> := ["blue", "dark blue", "black", "dark", "purple"]

  const FontOptions: seq<string> :=
    ["Arial", "Calibri", "Times New Roman", "Helvetica", "Comic Sans MS", "Verdana"]

  /** A colour as `#RRGGBB`. */
  predicate IsHexColor(s: string) {
    |s| == 7 && s[0] == '#' && forall i :: 1 <= i < 7 ==> IsHexDigit(s[i])
  }

  /** `COLOR_MAP.get(key)` */
  function ColorLookup(key: string): (r: Option<string>)
    ensures r.Some? <==> key in ColorNames
    ensures r.Some? ==> r.value in ColorHexes
  {
    assert ColorNames[0..] == ColorNames;
    ColorLookupFrom(key, 0)
  }

  function ColorLookupFrom(key: string, i: nat): (r: Option<string>)
    requires i <= |ColorNames|
    ensures r.Some? <==> key in ColorNames[i..]
    ensures r.Some? ==> r.value in ColorHexes
    decreases |ColorNames| - i
  {
    if i == |ColorNames| then None
    else if ColorNames[i] == key then Some(ColorHexes[i])
    else
      assert ColorNames[i..] == [ColorNames[i]] + ColorNames[i + 1..];
      ColorLookupFrom(key, i + 1)
  }

  lemma ColorHexesAreHexColors()
    ensures forall h :: h in ColorHexes ==> IsHexColor(h)
  {
  }

  /** A `#` followed by six hex digits starts at index `k`. */
  predicate HexAt(prompt: string, k: nat) {
    k + 7 <= |prompt| && IsHexColor(prompt[k..k + 7])
  }

  /**
   * `re.search(r'#([0-9a-fA-F]{6})', prompt)` from index `i`: where the
   * first `#` with six hex digits after it stands.
   */
  function FindHex(prompt: string, i: nat): (r: Option<nat>)
    ensures r.Some? ==> i <= r.value && HexAt(prompt, r.value)
    ensures forall k :: i <= k && (r.None? || k < r.value) ==> !HexAt(prompt, k)
    decreases |prompt| - i
  {
    if i + 7 > |prompt| then None
    else if HexAt(prompt, i) then Some(i)
    else FindHex(prompt, i + 1)
  }

  /** The first word of `words` from index `i` on that occurs in `text`. */
  function FirstWord(text: string, words: seq<string>, i: nat): (r: Option<nat>)
    requires i <= |words|
    ensures r.Some? ==> i <= r.value < |words| && Contains(text, words[r.value])
    ensures forall k :: i <= k < |words| && (r.None? || k < r.value) ==> !Contains(text, words[k])
    decreases |words| - i
  {
    if i == |words| then None
    else if Contains(text, words[i]) then Some(i)
    else FirstWord(text, words, i + 1)
  }

  function LowerAll(words: seq<string>): (r: seq<string>)
    ensures |r| == |words|
    ensures forall i :: 0 <= i < |words| ==> r[i] == Lower(words[i])
  {
    seq(|words|, i requires 0 <= i < |words| => Lower(words[i]))
  }

  function TwoDigits(s: string, p: nat): Option<nat>
  {
    if p + 2 <= |s| && IsDigit(s[p]) && IsDigit(s[p + 1])
    then Some(10 * DigitValue(s[p]) + DigitValue(s[p + 1]))
    else None
  }

  /**
   * The pattern `font ?size ?[:= ]?(\d{2})` tried at index `i` of the
   * lower-cased prompt, with the value of its two captured digits. The
   * optional blank after "font" is taken exactly when it is there; after
   * "size" at most one of the three ways to skip zero, one or two
   * characters can be followed by two digits.
   */
  function FontSizeAt(s: string, i: nat): (r: Option<nat>)
    ensures r.Some? ==> r.value < 100
    ensures r.Some? ==> i + 4 <= |s| && StartsWith(s[i..], "font")
    ensures r.Some? ==> exists p :: i + 8 <= p <= i + 11 && r == TwoDigits(s, p)
  {
    if !(i <= |s| && StartsWith(s[i..], "font")) then None
    else
      var p1 := if i + 4 < |s| && s[i + 4] == ' ' then i + 5 else i + 4;
      if !StartsWith(s[p1..], "size") then None
      else
        var p2 := p1 + 4;
        if p2 + 1 < |s| && s[p2] == ' ' && s[p2 + 1] in ":= " && TwoDigits(s, p2 + 2).Some? then TwoDigits(s, p2 + 2)
        else if p2 < |s| && s[p2] in " :=" && TwoDigits(s, p2 + 1).Some? then TwoDigits(s, p2 + 1)
        else TwoDigits(s, p2)
  }

  /** `re.search` of the font-size pattern from index `i`. */
  function FindFontSize(s: string, i: nat): (r: Option<nat>)
    requires i <= |s|
    ensures r.Some? ==> r.value < 100 && exists k :: i <= k <= |s| && FontSizeAt(s, k) == r
    ensures r.None? ==> forall k :: i <= k <= |s| ==> FontSizeAt(s, k).None?
    decreases |s| - i
  {
    if FontSizeAt(s, i).Some? then FontSizeAt(s, i)
    else if i == |s| then None
    else FindFontSize(s, i + 1)
  }

  /** `re.search` finds the leftmost match: the first index where the pattern matches decides the size. */
  lemma {:induction false} FindFontSizeLeftmost(s: string, i: nat, k: nat)
    requires i <= k <= |s| && FontSizeAt(s, k).Some?
    requires forall j :: i <= j < k ==> FontSizeAt(s, j).None?
    ensures FindFontSize(s, i) == FontSizeAt(s, k)
    decreases k - i
  {
    if i < k {
      FindFontSizeSkip(s, i);
      FindFontSizeLeftmost(s, i + 1, k);
    }
  }

  lemma FindFontSizeSkip(s: string, i: nat)
    requires i < |s| && FontSizeAt(s, i).None?
    ensures FindFontSize(s, i) == FindFontSize(s, i + 1)
  {
  }

  /** The background colour after the hex search: the `#RRGGBB` token found, or the default. */
  function HexBackground(prompt: string): string {
    match FindHex(prompt, 0)
    case Some(k) => prompt[k..k + 7]
    case None => DefaultStyle.backgroundColor
  }

  /** The font colour chosen with colour word `j`: white after a dark word. */
  function ReadableFontColor(j: nat): string
    requires j < |ColorNames|
  {
    if ColorNames[j] in DarkColorNames then "#FFFFFF" else "#000000"
  }

  /** The font size from the keyword hints alone: "small"/"compact" win over "large"/"big". */
  function SizeHint(pl: string): int {
    if Contains(pl, "small") || Contains(pl, "compact") then 12
    else if Contains(pl, "large") || Contains(pl, "big") || Contains(pl, "title large") then 20
    else DefaultStyle.fontSize
  }

  predicate WantsEmoji(pl: string) {
    Contains(pl, "emoji") || Contains(pl, "emojis") || Contains(pl, "smiley")
  }

  /** The style `parse_design_prompt` returns, field by field in the order it sets them. */
  function DesignStyle(prompt: string): Style {
    var pl := Lower(prompt);
    var colorWord := FirstWord(pl, ColorNames, 0);
    var fontWord := FirstWord(pl, LowerAll(FontOptions), 0);
    Style(
      if colorWord.Some? then ColorHexes[colorWord.value] else HexBackground(prompt),
      if fontWord.Some? then FontOptions[fontWord.value] else DefaultStyle.font,
      match FindFontSize(pl, 0) case Some(n) => n case None => SizeHint(pl),
      if colorWord.Some? then ReadableFontColor(colorWord.value) else DefaultStyle.fontColor,
      WantsEmoji(pl))
  }

  /** The style as the dictionary the program builds: exactly five keys. */
  function StyleMap(s: Style): (m: map<string, Json>)
    ensures m.Keys == {"background_color", "font", "font_size", "font_color", "emoji_in_bullets"}
    ensures m["font_size"] == Int(s.fontSize) && m["emoji_in_bullets"] == Bool(s.emojiInBullets)
  {
    map[
      "background_color" := Str(s.backgroundColor),
      "font" := Str(s.font),
      "font_size" := Int(s.fontSize),
      "font_color" := Str(s.fontColor),
      "emoji_in_bullets" := Bool(s.emojiInBullets)]
  }

  /** Every value of the style dictionary is set: none is None. */
  lemma StyleMapHasNoNull(s: Style)
    ensures forall k :: k in StyleMap(s) ==> StyleMap(s)[k] != Null
  {
  }

  /**
   * The colour-word loop of `parse_design_prompt`: the first word of
   * COLOR_MAP found in the prompt sets the background and a readable font
   * colour, and the loop stops.
   */
  method ApplyColorWord(promptL: string, style: Style) returns (r: Style)
    ensures var w := FirstWord(promptL, ColorNames, 0);
      r == if w.Some? then style.(backgroundColor := ColorHexes[w.value], fontColor := ReadableFontColor(w.value))
           else style
  {
    r := style;
    var i := 0;
    while i < |ColorNames|
      invariant 0 <= i <= |ColorNames|
      invariant FirstWord(promptL, ColorNames, 0) == FirstWord(promptL, ColorNames, i)
      invariant r == style
    {
      if Contains(promptL, ColorNames[i]) {
        r := r.(backgroundColor := ColorHexes[i]);
        r := r.(fontColor := if ColorNames[i] in DarkColorNames then "#FFFFFF" else "#000000");
        break;
      }
      i := i + 1;
    }
  }

  /** The font loop of `parse_design_prompt`: the first of FONT_OPTIONS found, ignoring case, is taken. */
  method ApplyFont(promptL: string, style: Style) returns (r: Style)
    ensures var w := FirstWord(promptL, LowerAll(FontOptions), 0);
      r == if w.Some? then style.(font := FontOptions[w.value]) else style
  {
    r := style;
    var fonts := LowerAll(FontOptions);
    var f := 0;
    while f < |FontOptions|
      invariant 0 <= f <= |FontOptions|
      invariant FirstWord(promptL, fonts, 0) == FirstWord(promptL, fonts, f)
      invariant r == style
    {
      if Contains(promptL, Lower(FontOptions[f])) {
        r := r.(font := FontOptions[f]);
        break;
      }
      f := f + 1;
    }
  }

  /**
   * `parse_design_prompt(prompt)`, updating one style value check by check
   * as the program updates its dictionary.
   */
  method ParseDesignPrompt(prompt: string) returns (style: Style)
    ensures style == DesignStyle(prompt)
  {
    var promptL := Lower(prompt);
    style := ApplyHex(prompt, DefaultStyle);
    style := ApplyColorWord(promptL, style);
    style := ApplyFont(promptL, style);
    style := ApplyFontSize(promptL, style);
    style := ApplyEmoji(promptL, style);
  }

  /** The hex search: a `#RRGGBB` token found anywhere sets the background. */
  method ApplyHex(prompt: string, style: Style) returns (r: Style)
    ensures r == if FindHex(prompt, 0).Some? then style.(backgroundColor := HexBackground(prompt)) else style
  {
    r := style;
    var hex := FindHex(prompt, 0);
    if hex.Some? {
      var k := hex.value;
      r := r.(backgroundColor := "#" + prompt[k + 1..k + 7]);
      assert prompt[k..k + 7] == "#" + prompt[k + 1..k + 7];
    }
  }

  /** The size checks: the keyword hints, then a `font size NN` match overriding them. */
  method ApplyFontSize(promptL: string, style: Style) returns (r: Style)
    requires style.fontSize == DefaultStyle.fontSize
    ensures r == style.(fontSize := match FindFontSize(promptL, 0) case Some(n) => n case None => SizeHint(promptL))
  {
    r := style;
    if Contains(promptL, "large") || Contains(promptL, "big") || Contains(promptL, "title large") {
      r := r.(fontSize := 20);
    }
    if Contains(promptL, "small") || Contains(promptL, "compact") {
      r := r.(fontSize := 12);
    }
    var m := FindFontSize(promptL, 0);
    if m.Some? {
      r := r.(fontSize := m.value);
    }
  }

  /** The emoji check: any of the three words turns emoji bullets on. */
  method ApplyEmoji(promptL: string, style: Style) returns (r: Style)
    ensures r == style.(emojiInBullets := style.emojiInBullets || WantsEmoji(promptL))
  {
    r := style;
    if Contains(promptL, "emoji") || Contains(promptL, "emojis") || Contains(promptL, "smiley") {
      r := r.(emojiInBullets := true);
    }
  }

  /** With no pattern matching, every field keeps its default. */
  lemma DesignDefaults(prompt: string)
    requires FirstWord(Lower(prompt), ColorNames, 0).None?
    requires FirstWord(Lower(prompt), LowerAll(FontOptions), 0).None?
    requires FindHex(prompt, 0).None? && FindFontSize(Lower(prompt), 0).None?
    requires !Contains(Lower(prompt), "small") && !Contains(Lower(prompt), "compact")
    requires !Contains(Lower(prompt), "large") && !Contains(Lower(prompt), "big")
    requires !WantsEmoji(Lower(prompt))
    ensures DesignStyle(prompt) == DefaultStyle
  {
    NoSizeHint(Lower(prompt));
  }

  lemma NoSizeHint(pl: string)
    requires !Contains(pl, "small") && !Contains(pl, "compact")
    requires !Contains(pl, "large") && !Contains(pl, "big")
    ensures SizeHint(pl) == DefaultStyle.fontSize
  {
    if Contains(pl, "title large") {
      ContainsPart(pl, "title large", 6, "large");
    }
  }

  /**
   * The first colour word of the table that occurs in the lower-cased prompt
   * sets the background, whatever `#RRGGBB` token the prompt also holds, and
   * the font colour is white exactly for the dark words.
   */
  lemma ColorWordWins(prompt: string, j: nat)
    requires j < |ColorNames| && Contains(Lower(prompt), ColorNames[j])
    requires forall k :: 0 <= k < j ==> !Contains(Lower(prompt), ColorNames[k])
    ensures DesignStyle(prompt).backgroundColor == ColorHexes[j]
    ensures DesignStyle(prompt).fontColor == "#FFFFFF" <==> ColorNames[j] in DarkColorNames
  {
    var w := FirstWord(Lower(prompt), ColorNames, 0);
    assert w == Some(j);
  }

  /** A `#RRGGBB` token sets the background only when no colour word occurs. */
  lemma HexOnlyWithoutColorWord(prompt: string)
    ensures (forall j :: 0 <= j < |ColorNames| ==> !Contains(Lower(prompt), ColorNames[j])) ==>
      DesignStyle(prompt).backgroundColor == HexBackground(prompt) &&
      DesignStyle(prompt).fontColor == DefaultStyle.fontColor
    ensures (exists j :: 0 <= j < |ColorNames| && Contains(Lower(prompt), ColorNames[j])) ==>
      DesignStyle(prompt).backgroundColor in ColorHexes
  {
  }

  /** "dark blue" is never the colour word chosen: "blue" comes first and occurs inside it. */
  lemma {:induction false} DarkBlueNeverChosen(prompt: string)
    ensures FirstWord(Lower(prompt), ColorNames, 0) != Some(1)
  {
    var pl := Lower(prompt);
    if Contains(pl, ColorNames[1]) {
      ContainsPart(pl, ColorNames[1], 5, ColorNames[0]);
    }
  }

  /** A `font size NN` match decides the size; otherwise "small"/"compact" beat "large"/"big". */
  lemma FontSizePrecedence(prompt: string)
    ensures var pl := Lower(prompt);
      && (FindFontSize(pl, 0).Some? ==> DesignStyle(prompt).fontSize == FindFontSize(pl, 0).value < 100)
      && (FindFontSize(pl, 0).None? && (Contains(pl, "small") || Contains(pl, "compact")) ==>
            DesignStyle(prompt).fontSize == 12)
      && ((FindFontSize(pl, 0).None? && !Contains(pl, "small") && !Contains(pl, "compact")
           && (Contains(pl, "large") || Contains(pl, "big"))) ==> DesignStyle(prompt).fontSize == 20)
  {
  }

  /** `font size 20` and `fontsize=18` match; `font size: 12` does not, as the colon and the blank come in the wrong order. */
  lemma FontSizeExamples()
    ensures FontSizeAt("font size 20", 0) == Some(20)
    ensures FontSizeAt("fontsize=18", 0) == Some(18)
    ensures FontSizeAt("font size: 12", 0) == None
  {
    assert StartsWith("font size 20"[5..], "size");
    assert StartsWith("fontsize=18"[4..], "size");
    assert StartsWith("font size: 12"[5..], "size");
  }

  /**
   * Every style the parser returns is well formed: both colours are
   * `#RRGGBB`, the font is one of the offered fonts and the size is one of
   * the hint sizes or a two-digit number.
   */
  lemma DesignStyleWellFormed(prompt: string)
    ensures IsHexColor(DesignStyle(prompt).backgroundColor)
    ensures IsHexColor(DesignStyle(prompt).fontColor)
    ensures DesignStyle(prompt).font in FontOptions
    ensures 0 <= DesignStyle(prompt).fontSize < 100
  {
    ColorHexesAreHexColors();
    assert IsHexColor("#FFFFFF") && IsHexColor("#000000");
  }
}
