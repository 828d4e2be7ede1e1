# AIPPTCreation text pipeline, modelled in Dafny

AIPPTCreation is a Streamlit app (`app.py`) that turns uploaded documents
into a PowerPoint deck. The app sends each document to a hosted language
model. It then parses the model's answer into slides and a style. Where the
model fails, it summarises the text locally. At the end it merges and
normalises the style before rendering.

This project models the string-processing core of that pipeline:

- `parse_design_prompt`: a free-form design instruction becomes a five-field
  style (module `DesignPrompt`).
- `simple_local_summary` and the shared sentence splitter (module `Summary`).
- `extract_style_json_from_text`: finds the style JSON in the model's output,
  first as a tagged block, then as a brace-balanced span (module `StyleJson`).
- `parse_slides_from_output`: its three strategies are "Slide Title:"
  headers, `#` headings, and 1200-character chunks (module `Slides`).
- `hex_to_rgb_obj`: a colour string becomes an RGB triple (module `Color`).
- The extension dispatch of `extract_text`, the prompt truncation, and what
  `make_ppt` computes before rendering: the style defaults, the title size,
  and the title and bullet texts (module `Deck`).
- The style merge of the upload loop and the local fallback slides
  (module `StyleMerge`).

Shared pieces:

- `Text` holds the character classes and the scanners that stand in for the
  regular expressions and `str` methods.
- `JsonValue` holds the decoded JSON values.
- `Wrappers` holds `Option` and `byte`.

Each regular expression is modelled by a scanner over characters. The
comment on each scanner says how the pattern's backtracking comes out.

Each loop of the program is a method. It is proved equal to a function that
specifies it, for example `Slides.ParseSlidesFromOutput` against
`Slides.ParseSlides`. The properties are proved about those functions.

Some of the code's behaviour is easy to misread. The model follows the
code:

- A colour word in the prompt overrides a literal `#RRGGBB`, because the word
  loop runs after the hex search.
- The prompt parser reads no footer, and slides carry none.
- Bullets are not capped at any count.
- Blank model output gives no slides at all, not a placeholder slide.
- The brace scan returns the rightmost decodable span. That span may be
  nested inside a larger object. Braces inside JSON strings are counted like
  any other brace.
- A bullet line needs one marker character followed by whitespace. So `1. x`
  and `1) x` are not bullets, but `- x`, `* x`, `• x` and `1 x` are.
- The font-size pattern does not match `font size: 12`: the optional blank
  must come before the optional colon. It does match `font size 20` and
  `fontsize=18`.
- The table entry "dark blue" is never chosen. "blue" comes first in the
  table and occurs inside it.

## Model

| member | source | states |
|---|---|---|
| Text.Normalize | app.py:54 | the whitespace-collapsed, stripped text has only single blanks strictly inside it, and is empty exactly when the input is blank |
| Text.CollapseKeepsNonSpaces | app.py:54 | replacing each whitespace run by one blank keeps every other character, in order |
| Text.NormalizeKeepsNonSpaces | app.py:54 | normalising keeps exactly the non-space characters of the input, in order |
| Text.Words | app.py:54 | the reference split `str.split()`: each word is non-empty and holds no whitespace |
| Text.CollapseWords | app.py:54 | replacing each whitespace run by one blank gives the words joined by single blanks, with one more blank in front when the text starts with whitespace and one at the end when whitespace follows its last word |
| Text.NormalizeWords | app.py:54 | `re.sub(r"\s+", " ", t).strip()` equals `" ".join(t.split())`: the maximal non-space runs of the input, in order, joined by single blanks |
| Text.WordsOfBlank | app.py:54 | a text has no words exactly when it is blank |
| Text.CollapseAppend | app.py:54 | collapsing two texts that do not meet in whitespace collapses each on its own |
| Text.StripUnique | app.py:54 | `strip()` of blanks around a text that neither starts nor ends with whitespace gives that text |
| Text.Lines | app.py:146 | splitting into lines gives no lines exactly for the empty text, and no line holds a line boundary |
| Text.LinesRoundTrip | app.py:146 | joining the lines with `\n` gives the text back with each boundary (`\r\n` as one) written as `\n`, less one final boundary: the lines are the maximal runs between boundaries, in order |
| Summary.SplitSentences | app.py:55 | the sentence split always yields at least one piece |
| Summary.SplitSentencesPieces | app.py:55 | every piece but the last is non-empty and ends in `.`, `!` or `?`, and no piece holds a split point (a blank after such a character) |
| Summary.JoinSplitSentences | app.py:55-56 | round trip: joining the sentences of a collapsed text with blanks gives the text back |
| Summary.SentencesNonEmpty | app.py:55 | every sentence of a non-empty collapsed text is non-empty |
| Summary.SentencePrefix | app.py:56 | the join of the first k sentences is a non-empty prefix of the text whose own sentences are exactly those k |
| Summary.LocalSummary | app.py:53-56 | blank input gives ""; with max_sentences 0 the result is the first 200 characters plus "..." when longer; otherwise a non-empty prefix of the collapsed text made of its first min(max_sentences, count) sentences |
| DesignPrompt.ColorLookup | app.py:61-65 | `COLOR_MAP.get` finds a value exactly for the table's keys, and every value is a table colour |
| DesignPrompt.FindHex | app.py:73 | the hex search finds the first index holding `#` and six hex digits, and nothing before it |
| DesignPrompt.FirstWord | app.py:78-79 | the word loops stop at the first word of the list that occurs in the text; no earlier word occurs |
| DesignPrompt.FontSizeAt | app.py:96 | a match of the font-size pattern at index i starts with `font` and its value, below 100, is the two digits at some p with i+8 <= p <= i+11 |
| DesignPrompt.FindFontSize | app.py:96 | the font-size search gives the value of a match at some index, or None when the pattern matches nowhere |
| DesignPrompt.FindFontSizeLeftmost | app.py:96 | `re.search` takes the leftmost match: when the pattern matches at k and nowhere from i up to k, the search from i gives the value at k |
| DesignPrompt.FontSizeExamples | app.py:96 | `font size 20` reads 20 and `fontsize=18` reads 18; `font size: 12` is not matched |
| DesignPrompt.StyleMap | app.py:70 | the style dictionary has exactly the five keys, with the size and the emoji flag as set |
| DesignPrompt.StyleMapHasNoNull | app.py:70 | no value of the style dictionary is None |
| DesignPrompt.ApplyHex | app.py:73-75 | the hex step sets the background to the `#RRGGBB` token found, and changes nothing otherwise |
| DesignPrompt.ApplyColorWord | app.py:78-83 | the colour loop sets the background and a readable font colour from the first table word found, or changes nothing |
| DesignPrompt.ApplyFont | app.py:86-89 | the font loop takes the first offered font found, ignoring case, or changes nothing |
| DesignPrompt.ApplyFontSize | app.py:92-100 | the size checks give the captured number when the pattern matches, else the keyword hint size |
| DesignPrompt.ApplyEmoji | app.py:103-104 | the emoji flag is turned on by "emoji", "emojis" or "smiley" and never turned off |
| DesignPrompt.ParseDesignPrompt | app.py:68-106 | the method's check-by-check updates give the style DesignStyle specifies |
| DesignPrompt.DesignStyle | app.py:68-106 | the style `parse_design_prompt` returns, field by field in the order the program sets them; specified by ParseDesignPrompt's loops and characterised by the lemmas below |
| DesignPrompt.DesignDefaults | app.py:70 | when no pattern matches, every field keeps its default: `#FFFFFF`, Arial, 14, `#000000`, no emoji |
| DesignPrompt.ColorWordWins | app.py:73-83 | the first table word in the lower-cased prompt sets the background over any hex token; the font colour is white exactly for the dark words |
| DesignPrompt.HexOnlyWithoutColorWord | app.py:73-83 | without a colour word the background is the hex result and the font colour stays black; with one the background is a table colour |
| DesignPrompt.DarkBlueNeverChosen | app.py:78-83 | the colour word chosen is never "dark blue" |
| DesignPrompt.FontSizePrecedence | app.py:92-100 | a `font size NN` match decides the size (below 100); otherwise "small"/"compact" give 12 over "large"/"big" giving 20 |
| DesignPrompt.DesignStyleWellFormed | app.py:68-106 | both colours are `#RRGGBB`, the font is an offered font, and the size is in 0..99 |
| StyleJson.FindNoCase | app.py:113 | the case-insensitive tag search returns the first index at or after the start where the tag occurs |
| StyleJson.TaggedBlockAt | app.py:113 | the tagged block is the text between the first opening tag and the first closing tag after it |
| StyleJson.NoTaggedBlock | app.py:113 | with no closing tag after the first opening tag, there is no block |
| StyleJson.NoOpenTag | app.py:113 | with no opening tag, there is no block |
| StyleJson.FirstClose | app.py:123-128 | the span ends at the first index where the depth counter is back at 0 |
| StyleJson.MatchingClose | app.py:122-128 | the depth-counting inner loop returns that first closing index, or None |
| StyleJson.TryStart | app.py:121-133 | one turn of the outer loop decodes the balanced span starting at a `{`, or gives None |
| StyleJson.ExtractStyleJson | app.py:111-134 | the extractor's loops return what ExtractStyle specifies: the decodable tagged block, else the right-to-left scan |
| StyleJson.ExtractStyle | app.py:111-134 | the value `extract_style_json_from_text` returns: the decoded tagged block when it decodes, else the right-to-left brace scan; characterised by ScanFromFindsRightmost and ExtractNone |
| StyleJson.ScanFromFindsRightmost | app.py:120-134 | the scan returns the value of the rightmost start whose span decodes, and None when no span decodes |
| StyleJson.CandidateBalanced | app.py:122-129 | every tried span opens with `{`, closes with `}`, is balanced, and each proper prefix has more `{` than `}` |
| StyleJson.ExtractNone | app.py:111-134 | the result is None exactly when the block is missing or undecodable and no span decodes, in particular when the text has no `{` |
| Slides.SummaryBullets | app.py:154-155 | the summary's sentences are one to four bullets, `[""]` for a blank body, and otherwise all non-empty |
| Slides.TitleStart | app.py:139 | `\s*(.+?)` starts its title after blanks only, on a character that is not a line break, and on a non-blank one unless only line breaks follow; there is no title exactly when only line breaks remain |
| Slides.BodyEnd | app.py:139 | the lazy body stops at the first place where a header or the end follows |
| Slides.StructuredAt | app.py:139 | a structured match starts at a header and ends further on, with a non-empty one-line title |
| Slides.StructuredAtNone | app.py:139 | the pattern fails at an index exactly when no header starts there or only line breaks follow the header (so `Title:` alone gives no match) |
| Slides.StructuredAtGroups | app.py:139 | a match's title is the rest of the header's line from TitleStart on, and its body runs from the next line to where BodyEnd stops |
| Slides.StructuredMatches | app.py:140 | findall's matches each start at a header and are the pattern's match there, in order and not overlapping |
| Slides.StructuredMatchesComplete | app.py:140 | findall misses nothing: the pattern fails at every index no match covers |
| Slides.HeadingAt | app.py:160 | a heading match starts where HeadingStart holds: at a line start whose leading whitespace (which may cross line breaks) ends on `#`; its title is non-empty and on one line |
| Slides.HeadingAtNone | app.py:160 | the pattern fails at an index exactly when it is not a line start whose leading blanks end on `#`, or only line breaks follow the `#` |
| Slides.HeadingAtGroups | app.py:160 | the heading title is the rest of the line after the blanks that follow the `#` |
| Slides.Headings | app.py:160 | the heading matches each start at a `#` line and are the pattern's match there, with spans inside the text, in order, and not overlapping |
| Slides.HeadingsComplete | app.py:160 | findall misses no heading: the pattern fails at every index no match covers |
| Slides.HeadingBodyIsPart | app.py:163-165 | the body of heading k is the text between it and the next heading, or the end |
| Slides.Chunks | app.py:178 | the chunks are non-empty, at most `size` long, and there are ceil(len/size) of them |
| Slides.ChunksConcat | app.py:178 | joining the chunks gives back the text |
| Slides.ChunksAreSlices | app.py:178 | chunk k starts inside the text and is `t[k*size:(k+1)*size]`, cut at the end of the text |
| Slides.CollectBullets | app.py:146-151 | the line loop collects the bullets MarkedBullets specifies |
| Slides.MarkedBulletsAppend | app.py:145-151 | the bullets of the lines a + b are the bullets of a followed by the bullets of b |
| Slides.MarkedBulletsOne | app.py:146-151 | one line gives one bullet, its stripped text without the marker, exactly when it is a bullet line, and nothing otherwise |
| Slides.MarkedBulletsFromLines | app.py:145-151 | each bullet is a qualifying line with its markers stripped; each qualifying line gives one; there are none exactly when no line qualifies |
| Slides.BulletLineExamples | app.py:150 | `- x`, `* x`, `• x` and `1 x` are bullet lines; `1. x`, `1) x` and `-x` are not |
| Slides.MakeStructuredSlide | app.py:142-156 | one match becomes the stripped title with its bullets, or the summary sentences when there are none |
| Slides.StructuredSlides | app.py:141-157 | the match loop makes one slide per match, in order |
| Slides.MakeHeadingSlide | app.py:164-170 | one heading becomes its stripped title with its dash bullets, or the summary of its body (or title) |
| Slides.HeadingSlides | app.py:164-171 | the heading loop makes one slide per heading, in order |
| Slides.MakeChunkSlide | app.py:180-183 | one chunk becomes its summary sentences, titled by the first cut to 60 characters |
| Slides.ChunkSlides | app.py:179-184 | the chunk loop makes one slide per chunk, in order |
| Slides.ParseSlides | app.py:136-184 | the slides `parse_slides_from_output` returns: the structured matches if any, else the headings if any, else nothing for blank output, else the chunks; characterised by the Shape lemmas and NoSlidesIffBlank |
| Slides.ParseSlidesFromOutput | app.py:136-184 | the parser returns what ParseSlides specifies: the first strategy that finds something |
| Slides.NoSlidesIffBlank | app.py:136-184 | the parser returns no slide exactly when the output is blank |
| Slides.EverySlideHasBullets | app.py:136-184 | every slide has at least one bullet |
| Slides.StructuredSlidesShape | app.py:141-157 | with matches present there is one slide per findall match, in order, each match starting at a header, titled by its stripped one-line title; every header followed by something other than line breaks lies inside a match (a match starts there or covers it), since `\s*` may carry the title onto a later line |
| Slides.HeadersCovered | app.py:139-140 | every header not followed only by line breaks lies inside one of findall's matches |
| Slides.ExampleTitleOnNextLine | app.py:139 | `"Title:\nFoo"` matches at 0 with title `Foo`: the title may be on the line after the header |
| Slides.HeadingSlidesShape | app.py:160-171 | with headings and no structured matches there is one slide per heading match, each starting where HeadingStart holds (a line start whose leading whitespace, possibly across line breaks, ends on `#`), titled by its stripped heading text |
| Slides.ChunkSlidesShape | app.py:174-184 | the chunk fallback makes ceil(len(cleaned)/1200) slides, each with one to four non-empty bullets, titled by the first bullet cut to 60 characters |
| Slides.ChunkSlideShape | app.py:180-183 | the slide of one chunk that is not blank has one to four non-empty bullets and a non-empty title of at most 60 characters |
| Slides.ExampleParse | app.py:136-157 | `"Slide Title: A\n- x\n- y\nSlide Title: B\n- z"` parses to slides A with bullets x, y and B with bullet z |
| Color.ParsePair | app.py:245 | `int(pair, 16)` reads two hex digits as their value, and anything it reads lies in -15..255 |
| Color.Channel | app.py:245-246 | a channel exists exactly when int() reads the pair and the value is not negative |
| Color.HashRunEnd | app.py:242 | `lstrip("#")` removes exactly the leading run of `#` |
| Color.HexColorChannels | app.py:241-246 | a colour of one or more `#` followed by six hex digits reads as its three hex pairs |
| Color.HexToRgb | app.py:234-248 | the colour `hex_to_rgb_obj` returns: blank input as `#FFFFFF`, a word through the colour table, then `lstrip("#")`, the length check and three `int(pair, 16)`, white on any failure; characterised by the lemmas below |
| Color.FormatRoundTrip | app.py:241-246 | reading back a colour written as `#RRGGBB` gives the colour |
| Color.BlankIsWhite | app.py:235-236 | an empty or blank colour is white |
| Color.BadLengthIsWhite | app.py:243-244 | a `#` colour whose digits are not six characters is white |
| Color.NonHexIsWhite | app.py:245-248 | a `#` colour with a character int() never reads in a pair is white |
| Color.ColorWordResolves | app.py:238-240 | a colour word, in any case and with blanks around it, reads as its table colour |
| Color.UnknownWordIsWhite | app.py:240 | any other word without `#` is white |
| Color.LookupAt | app.py:61-65 | the table's keys are distinct, so looking up key i gives value i |
| Color.LenientPairs | app.py:245 | int() reads `" 1"`, `"+2"` and `"-0"`, so `"# 1+2-0"` gives (1, 2, 0) |
| Color.NegativePairIsWhite | app.py:245-248 | a pair such as `"-1"` reads as negative, and the colour is refused (white) |
| Deck.ExtractText | app.py:40-48 | `.pdf` goes to the PDF reader, `.docx`/`.doc` to the DOCX reader, anything else is decoded and stripped |
| Deck.KindOf | app.py:42-48 | which reader `extract_text` picks from the lower-cased name's ending: `.pdf`, then `.docx` or `.doc`, else plain text |
| Deck.KindIgnoresCase | app.py:42 | the extension test ignores case |
| Deck.PlainTextIsStripped | app.py:37-38 | extracted plain text has no blank at either end |
| Deck.KindExamples | app.py:43-48 | `Report.PDF` is PDF, `notes.Doc` is DOCX, `a.docx.txt` is plain text |
| Deck.TruncateForPrompt | app.py:194 | text within the limit is kept; longer text is its first `max` characters followed by the marker |
| Deck.IntOf | app.py:256 | int() of an integer is itself; of None, a list or a dict it raises |
| Deck.IntStringRoundTrip | app.py:256 | int() reads back what str() writes, for every integer |
| Deck.IntOfTextSpaces | app.py:256 | int() skips blanks around a numeral |
| Deck.IntOfTextUnderscore | app.py:256 | int() reads a sign and single underscores between digits |
| Deck.IntOfTextRejectsDoubleUnderscore | app.py:255-258 | int() raises on a double underscore |
| Deck.IntOfTextRejectsUnit | app.py:255-258 | int() raises on a unit after the number |
| Deck.FontSizeOf | app.py:255-258 | the font size is int() of the value when it reads, and 14 when the key is missing or int() raises |
| Deck.TitleSize | app.py:287 | the title size is at least 14 and at least 4 above the text size, and equals one of the two |
| Deck.NormalizeStyle | app.py:252-260 | each field is the style's value for its key or its default, the size with the int-or-14 rule, the emoji flag the value's truthiness |
| Deck.EmptyStyleDefaults | app.py:252-260 | an empty style gives a white background, Arial 14 with 18-point titles, black text and no prefix |
| Deck.StyleMapTheme | app.py:252-260 | the theme of a parsed-prompt dictionary holds its five values |
| Deck.PromptOnlyTheme | app.py:397-406 | with no style JSON at all, the deck is rendered exactly in the prompt's style: no field falls back to a default |
| Deck.ColorOf | app.py:278 | a falsy style value gives white; a string gives HexToRgb of it; any other truthy value gives None, since the colour step raises and its `try` skips the fill |
| Deck.TitleText | app.py:285 | the title text is a prefix of the title of at most 250 characters, the whole title when short enough |
| Deck.BulletTexts | app.py:296-299 | there is one paragraph text per bullet |
| Deck.RenderBullets | app.py:296-302 | the bullet loop produces the texts BulletTexts specifies |
| Deck.PagesOf | app.py:272-305 | there is one page per slide, and page k is the page of slide k |
| Deck.RenderSlides | app.py:272-305 | the slide loop produces the pages PagesOf specifies, under the normalised style |
| Deck.BulletTextsKeepBullets | app.py:297-299 | with emoji on, each paragraph is `"• "` followed by its bullet; with emoji off, the paragraphs are the bullets |
| Deck.PagesShape | app.py:285-304 | every page has one paragraph per bullet, a title of at most 250 characters, and a title size at least 14 and 4 above the text |
| StyleMerge.MergeJson | app.py:362-369 | a style JSON object overwrites its keys and keeps the others; a falsy or non-object value changes nothing |
| StyleMerge.MergeStyleJson | app.py:362-369 | the merge step gives what MergeJson specifies |
| StyleMerge.MergeFields | app.py:366-367 | the item loop gives the map union, with the JSON's values winning |
| StyleMerge.FillGaps | app.py:399-401 | a parsed-prompt value fills each key that is missing or None; every other key keeps its value |
| StyleMerge.FillFromPrompt | app.py:399-401 | the fill loop gives what FillGaps specifies |
| StyleMerge.MergeAll | app.py:351-369 | the style after merging each file's JSON in upload order; characterised by MergeAllKeys, LastJsonWins and UntouchedKeyKeepsPrompt |
| StyleMerge.FinalStyle | app.py:346-401 | the style `make_ppt` receives: the prompt's style, merged with every file's JSON, then filled from the prompt where a key is missing or None; characterised by FinalStyleComplete and NoJsonGivesPrompt |
| StyleMerge.MergeAllKeys | app.py:351-369 | merges only ever add keys |
| StyleMerge.FillCloses | app.py:399-401 | after filling from a style without None values, none of its keys is missing or None |
| StyleMerge.FillNoGaps | app.py:399-401 | filling a style without None values from itself changes nothing |
| StyleMerge.FinalStyleComplete | app.py:397-401 | the five prompt keys are always present in the final style, and never None |
| StyleMerge.LastJsonWins | app.py:362-369 | a key the last style object sets to a value other than None keeps that value over the prompt |
| StyleMerge.UntouchedKeyKeepsPrompt | app.py:346-369 | a prompt key no style object mentions keeps the prompt's value |
| StyleMerge.NoJsonGivesPrompt | app.py:346-401 | with no style JSON at all, the final style is the parsed prompt |
| StyleMerge.FallbackSlides | app.py:375-381 | the fallback loop makes one chunk slide per 1800-character piece of the raw text |
| StyleMerge.FallbackShape | app.py:375-381 | the fallback makes ceil(len/1800) slides, each with one to four bullets, titled by its first bullet cut to 60 characters |

## Left out

- The Streamlit UI, its widgets and its messages are not modelled; only the style merge and the fallback chunking of the upload loop are.
- The hosted model call is not modelled, since it is a remote service with arbitrary output. The model's answer is an arbitrary string input.
- The UI's last fallback (one summary slide per file when the model returned no slides, app.py:385-392) is not modelled; it reuses the summariser modelled here.
- The PDF and DOCX readers and the UTF-8 decoder are library code. They are function parameters of `Deck.ExtractText`.
- `json.loads` is the function parameter `decode`. It gives None where the library raises. Its floats are not modelled.
- The pptx rendering in `make_ppt` (shapes, fonts, colours, the fallback text box, saving) is library code and is not modelled. Its exception-swallowing blocks are not modelled either. Only the style normalisation and the title and bullet texts are.
- Deck.PagesShape: "one paragraph per bullet" holds only when no rendering step raises. `Inches` is never imported, so the fallback text box always raises. A truthy non-string `font_color` (Deck.ColorOf gives None) or a font size python-pptx refuses therefore leaves each slide with only its first bullet paragraph.
- Case folding (`str.lower()`, `re.IGNORECASE`), `\d` and the digits `int()` reads are modelled on ASCII only; other Unicode letters and digits are not. So `int("١٨")`, which Python reads as 18, gives the default size 14 here, and a colour pair such as `"٣٣"` gives white.
- A `None` design prompt is not modelled. The hex search would raise on it, so the prompt is a plain string.
- `max_sentences` is a natural number here; the program never passes a negative one.
- StyleJson.ExtractStyle: a tagged block holding `null` gives `Some(Null)`, where the program returns the None that `json.loads` gives; the merge treats both alike, since a falsy value changes nothing.
- Slides.HeadingBody: clamps its bounds to the text so that it is total; for the spans that Headings returns it never cuts (`Slides.HeadingBodyIsPart`).
