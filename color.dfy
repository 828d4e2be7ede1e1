/**
 * `hex_to_rgb_obj`: a colour given as `#RRGGBB` or as a colour word becomes
 * the three channels of an RGB colour; anything it cannot read becomes white.
 *
 * Each channel is `int(pair, 16)` of a two-character slice, and Python's
 * int() is lenient there: it skips whitespace around the digits and takes a
 * sign, so " f", "f ", "+f" read as 15 and "-f" as -15, which the colour
 * constructor refuses (white); "-0" reads as 0.
 */
module Color {
  import opened Wrappers
  import opened Text
  import DesignPrompt

  datatype Rgb = Rgb(r: byte, g: byte, b: byte)

  const White := Rgb(255, 255, 255)

  const WhiteHex := "#FFFFFF"

  /** `int(p, 16)` for a two-character string `p`, or None where int() raises. */
  function ParsePair(p: string): (v: Option<int>)
    requires |p| == 2
    ensures v.Some? ==> -16 < v.value < 256
    ensures IsHexDigit(p[0]) && IsHexDigit(p[1]) ==> v == Some(16 * HexValue(p[0]) + HexValue(p[1]))
  {
    if IsHexDigit(p[0]) && IsHexDigit(p[1]) then Some(16 * HexValue(p[0]) + HexValue(p[1]))
    else if IsSpace(p[0]) && IsHexDigit(p[1]) then Some(HexValue(p[1]))
    else if IsHexDigit(p[0]) && IsSpace(p[1]) then Some(HexValue(p[0]))
    else if p[0] == '+' && IsHexDigit(p[1]) then Some(HexValue(p[1]))
    else if p[0] == '-' && IsHexDigit(p[1]) then Some(-(HexValue(p[1]) as int))
    else None
  }

  /** One channel: the pair's value if int() reads it and the colour constructor accepts it. */
  function Channel(p: string): (c: Option<byte>)
    requires |p| == 2
    ensures c.Some? <==> ParsePair(p).Some? && ParsePair(p).value >= 0
    ensures c.Some? ==> c.value as int == ParsePair(p).value
  {
    match ParsePair(p)
    case Some(v) => if v >= 0 then Some(v as byte) else None
    case None => None
  }

  /** Index of the first character at or after `i` that is not `#`: `s.lstrip("#")` starts there. */
  function HashRunEnd(s: string, i: nat): (j: nat)
    requires i <= |s|
    ensures i <= j <= |s|
    ensures forall k :: i <= k < j ==> s[k] == '#'
    ensures j < |s| ==> s[j] != '#'
    decreases |s| - i
  {
    if i < |s| && s[i] == '#' then HashRunEnd(s, i + 1) else i
  }

  /** What `hex_color` holds when the digits are read: the stripped text, or the colour word's hex. */
  function Resolve(hexColor: string): string {
    var t := Strip(if hexColor == [] then WhiteHex else hexColor);
    if StartsWith(t, "#") then t
    else match DesignPrompt.ColorLookup(Lower(t))
      case Some(h) => h
      case None => WhiteHex
  }

  /** `hex_to_rgb_obj(hex_color)` */
  function HexToRgb(hexColor: string): Rgb {
    ReadDigits(Resolve(hexColor))
  }

  /** The `try` block: `lstrip("#")`, the length check and the three channels. */
  function ReadDigits(t: string): Rgb {
    var h := t[HashRunEnd(t, 0)..];
    if |h| != 6 then White
    else match (Channel(h[0..2]), Channel(h[2..4]), Channel(h[4..6]))
      case (Some(r), Some(g), Some(b)) => Rgb(r, g, b)
      case _ => White
  }

  // ---------------------------------------------------------------------
  // Writing a colour as `#RRGGBB`, the inverse direction

  function HexDigitChar(v: nat): (c: char)
    requires v < 16
    ensures IsHexDigit(c) && HexValue(c) == v
  {
    if v < 10 then ('0' as int + v) as char else ('A' as int + v - 10) as char
  }

  /** The colour as `#RRGGBB`, upper-case digits. */
  function Format(c: Rgb): (s: string)
    ensures DesignPrompt.IsHexColor(s)
  {
    var r, g, b := c.r as nat, c.g as nat, c.b as nat;
    ['#', HexDigitChar(r / 16), HexDigitChar(r % 16), HexDigitChar(g / 16), HexDigitChar(g % 16),
     HexDigitChar(b / 16), HexDigitChar(b % 16)]
  }

  // ---------------------------------------------------------------------
  // Properties

  /**
   * A run of one or more `#` and six hex digits reads as the digits' three
   * pairs: `lstrip("#")` removes the whole run.
   */
  lemma HexColorChannels(s: string, n: nat)
    requires 1 <= n && |s| == n + 6
    requires forall k :: 0 <= k < n ==> s[k] == '#'
    requires forall k :: n <= k < n + 6 ==> IsHexDigit(s[k])
    ensures HexToRgb(s) == Rgb(
      (16 * HexValue(s[n]) + HexValue(s[n + 1])) as byte,
      (16 * HexValue(s[n + 2]) + HexValue(s[n + 3])) as byte,
      (16 * HexValue(s[n + 4]) + HexValue(s[n + 5])) as byte)
  {
    ResolveHash(s);
    ReadHashed(s, n);
  }

  lemma ResolveHexColor(s: string)
    requires DesignPrompt.IsHexColor(s)
    ensures Resolve(s) == s
  {
    StripUnspaced(s);
  }

  lemma ReadHashed(s: string, n: nat)
    requires 1 <= n && |s| == n + 6
    requires forall k :: 0 <= k < n ==> s[k] == '#'
    requires forall k :: n <= k < n + 6 ==> IsHexDigit(s[k])
    ensures ReadDigits(s) == Rgb(
      (16 * HexValue(s[n]) + HexValue(s[n + 1])) as byte,
      (16 * HexValue(s[n + 2]) + HexValue(s[n + 3])) as byte,
      (16 * HexValue(s[n + 4]) + HexValue(s[n + 5])) as byte)
  {
    HashRunTo(s, 0, n);
    var h := s[n..];
    assert h[0..2] == s[n..n + 2] && h[2..4] == s[n + 2..n + 4] && h[4..6] == s[n + 4..n + 6];
  }

  lemma {:induction false} HashRunTo(s: string, i: nat, n: nat)
    requires i <= n < |s| && s[n] != '#'
    requires forall k :: i <= k < n ==> s[k] == '#'
    ensures HashRunEnd(s, i) == n
    decreases n - i
  {
    if i < n {
      HashRunTo(s, i + 1, n);
    }
  }

  /** Reading back a written colour gives the colour: HexToRgb inverts Format. */
  lemma FormatRoundTrip(c: Rgb)
    ensures HexToRgb(Format(c)) == c
  {
    HexColorChannels(Format(c), 1);
  }

  /** A text that starts with `#` and does not end with a space is read as it is. */
  lemma ResolveHash(s: string)
    requires s != [] && s[0] == '#' && !IsSpace(s[|s| - 1])
    ensures Resolve(s) == s
  {
    StripUnspaced(s);
  }

  lemma WhiteHexIsWhite()
    ensures Resolve(WhiteHex) == WhiteHex && ReadDigits(WhiteHex) == White
  {
    ResolveHash(WhiteHex);
    ReadHashed(WhiteHex, 1);
  }

  /** Every table key has a letter, so a blank or empty key is not in the table. */
  lemma NoBlankColorName(t: string)
    requires AllSpace(t)
    ensures t !in DesignPrompt.ColorNames
  {
    forall k | 0 <= k < |DesignPrompt.ColorNames|
      ensures DesignPrompt.ColorNames[k] != t
    {
      assert DesignPrompt.ColorNames[k] != [] && !IsSpace(DesignPrompt.ColorNames[k][0]);
    }
  }

  /** An empty or blank colour is white. */
  lemma BlankIsWhite(s: string)
    requires AllSpace(s)
    ensures HexToRgb(s) == White
  {
    WhiteHexIsWhite();
    if s != [] {
      StripEmpty(s);
      var t := Strip(s);
      assert Lower(t) == [];
      NoBlankColorName(Lower(t));
    }
  }

  /** A `#` colour whose digits after the leading `#`s are not six characters is white. */
  lemma BadLengthIsWhite(s: string)
    requires var t := Strip(s); StartsWith(t, "#") && |t| - HashRunEnd(t, 0) != 6
    ensures HexToRgb(s) == White
  {
    assert s != [];
  }

  /** A `#` colour holding a character int() never reads in a hex pair (not a digit, blank or sign) is white. */
  lemma NonHexIsWhite(s: string, i: nat)
    requires StartsWith(Strip(s), "#") && |Strip(s)| - HashRunEnd(Strip(s), 0) == 6 && i < 6
    requires var c := Strip(s)[HashRunEnd(Strip(s), 0) + i]; !IsHexDigit(c) && !IsSpace(c) && c != '+' && c != '-'
    ensures HexToRgb(s) == White
  {
    var t := Strip(s);
    assert s != [];
    assert Resolve(s) == t;
    var h := t[HashRunEnd(t, 0)..];
    assert h[i] == t[HashRunEnd(t, 0) + i];
    if i < 2 {
      BadPair(h[0..2], i);
    } else if i < 4 {
      BadPair(h[2..4], i - 2);
    } else {
      BadPair(h[4..6], i - 4);
    }
  }

  lemma BadPair(p: string, i: nat)
    requires |p| == 2 && i < 2 && !IsHexDigit(p[i]) && !IsSpace(p[i]) && p[i] != '+' && p[i] != '-'
    ensures Channel(p) == None
  {
  }

  /** A colour word, in any case and with spaces around it, reads as its table colour. */
  lemma ColorWordResolves(s: string, i: nat)
    requires i < |DesignPrompt.ColorNames|
    requires Lower(Strip(s)) == DesignPrompt.ColorNames[i]
    ensures Resolve(s) == DesignPrompt.ColorHexes[i]
    ensures HexToRgb(s) == HexToRgb(DesignPrompt.ColorHexes[i])
  {
    var t := Strip(s);
    ColorNameUnhashed(t, i);
    LookupAt(i);
    var h := DesignPrompt.ColorHexes[i];
    ResolveWord(s, h);
    DesignPrompt.ColorHexesAreHexColors();
    assert h in DesignPrompt.ColorHexes;
    ResolveHexColor(h);
  }

  /** No colour word starts with `#`, in any case. */
  lemma ColorNameUnhashed(t: string, i: nat)
    requires i < |DesignPrompt.ColorNames|
    requires Lower(t) == DesignPrompt.ColorNames[i]
    ensures t != [] && !StartsWith(t, "#")
  {
    assert Lower(t)[0] == LowerChar(t[0]);
    assert DesignPrompt.ColorNames[i][0] != '#';
  }

  /** A text that is not a `#` colour resolves through the colour table. */
  lemma ResolveWord(s: string, h: string)
    requires Strip(s) != [] && !StartsWith(Strip(s), "#")
    requires DesignPrompt.ColorLookup(Lower(Strip(s))) == Some(h)
    ensures Resolve(s) == h
  {
    assert s != [];
  }

  /** Any other word that is not a `#` colour is white. */
  lemma UnknownWordIsWhite(s: string)
    requires s != [] && !StartsWith(Strip(s), "#") && Lower(Strip(s)) !in DesignPrompt.ColorNames
    ensures HexToRgb(s) == White
  {
    WhiteHexIsWhite();
  }

  /** The table's keys are distinct, so `COLOR_MAP.get` of key `i` is value `i`. */
  lemma LookupAt(i: nat)
    requires i < |DesignPrompt.ColorNames|
    ensures DesignPrompt.ColorLookup(DesignPrompt.ColorNames[i]) == Some(DesignPrompt.ColorHexes[i])
  {
    assert DesignPrompt.ColorNames[0..] == DesignPrompt.ColorNames;
    LookupFromAt(0, i);
  }

  lemma {:induction false} LookupFromAt(j: nat, i: nat)
    requires j <= i < |DesignPrompt.ColorNames|
    ensures DesignPrompt.ColorLookupFrom(DesignPrompt.ColorNames[i], j) == Some(DesignPrompt.ColorHexes[i])
    decreases i - j
  {
    if j < i {
      DistinctNames(j, i);
      LookupFromAt(j + 1, i);
    }
  }

  lemma DistinctNames(j: nat, i: nat)
    requires j < i < |DesignPrompt.ColorNames|
    ensures DesignPrompt.ColorNames[j] != DesignPrompt.ColorNames[i]
  {
    var names := DesignPrompt.ColorNames;
    assert |names[j]| != |names[i]| || names[j][0] != names[i][0] || names[j][1] != names[i][1]
      || names[j][2] != names[i][2];
  }

  /** int()'s leniency: whitespace and `+` around a digit are read. */
  lemma LenientPairs()
    ensures HexToRgb("# 1+2-0") == Rgb(1, 2, 0)
  {
    var s := "# 1+2-0";
    ResolveHash(s);
    assert HashRunEnd(s, 1) == 1;
    var h := s[1..];
    assert h[0..2] == [' ', '1'] && h[2..4] == ['+', '2'] && h[4..6] == ['-', '0'];
  }

  /** A pair with a `-` and a non-zero digit reads as negative, and the colour is refused. */
  lemma NegativePairIsWhite()
    ensures HexToRgb("#-10000") == White
  {
    var s := "#-10000";
    ResolveHash(s);
    assert HashRunEnd(s, 1) == 1;
    assert s[1..][0..2] == ['-', '1'];
  }
}
