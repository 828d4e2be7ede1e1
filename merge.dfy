/**
 * The style bookkeeping of the upload loop: the style starts as the parsed
 * design prompt, each file's style JSON overwrites its keys, and at the end
 * the parsed prompt fills every key that is missing or None. Files the model
 * could not summarise get slides from the local summariser, one per
 * 1800-character piece of their text.
 */
module StyleMerge {
  import opened Wrappers
  import opened Text
  import opened JsonValue
  import opened Slides
  import DesignPrompt

  // ---------------------------------------------------------------------
  // Step 1: the style JSON overwrites the style

  /**
   * `if style_json: for k, v in style_json.items(): global_style[k] = v`.
   * A falsy value does nothing; a truthy value that is not an object makes
   * `.items()` raise, which is swallowed, so it does nothing either.
   */
  function MergeJson(g: map<string, Json>, styleJson: Option<Json>): (r: map<string, Json>)
    ensures styleJson.Some? && styleJson.value.Obj? ==>
      && r.Keys == g.Keys + styleJson.value.fields.Keys
      && (forall k :: k in styleJson.value.fields ==> r[k] == styleJson.value.fields[k])
      && (forall k :: k in g && k !in styleJson.value.fields ==> r[k] == g[k])
    ensures styleJson.None? || !styleJson.value.Obj? ==> r == g
  {
    match styleJson
    case Some(Obj(f)) => g + f
    case _ => g
  }

  /** The merge step of the upload loop. */
  method MergeStyleJson(g: map<string, Json>, styleJson: Option<Json>) returns (r: map<string, Json>)
    ensures r == MergeJson(g, styleJson)
  {
    r := g;
    if styleJson.Some? && Truthy(styleJson.value) && styleJson.value.Obj? {
      r := MergeFields(g, styleJson.value.fields);
    } else if styleJson.Some? && styleJson.value.Obj? {
      UnionByKeys(g, g, map[]);
    }
  }

  /** `for k, v in style_json.items(): global_style[k] = v` */
  method MergeFields(g: map<string, Json>, f: map<string, Json>) returns (r: map<string, Json>)
    ensures r == g + f
  {
    r := g;
    var todo := f.Keys;
    while todo != {}
      invariant todo <= f.Keys
      invariant forall k :: k in r <==> k in g || (k in f && k !in todo)
      invariant forall k :: k in f && k !in todo ==> r[k] == f[k]
      invariant forall k :: k in g && (k !in f || k in todo) ==> r[k] == g[k]
      decreases |todo|
    {
      var k :| k in todo;
      r := r[k := f[k]];
      todo := todo - {k};
    }
    UnionByKeys(r, g, f);
  }

  // ---------------------------------------------------------------------
  // Step 2: the parsed prompt fills the gaps

  /** Whether `k` is missing from the style or None there. */
  predicate Gap(g: map<string, Json>, k: string) {
    k !in g || g[k] == Null
  }

  /** `for k, v in parsed.items(): if k not in global_style or global_style.get(k) is None: global_style[k] = v` */
  function FillGaps(g: map<string, Json>, parsed: map<string, Json>): (r: map<string, Json>)
    ensures r.Keys == g.Keys + parsed.Keys
    ensures forall k :: k in parsed && Gap(g, k) ==> r[k] == parsed[k]
    ensures forall k :: k in g && !(k in parsed && Gap(g, k)) ==> r[k] == g[k]
  {
    map k | k in g.Keys + parsed.Keys :: if k in parsed && Gap(g, k) then parsed[k] else g[k]
  }

  /** The fill loop over the parsed prompt's items. */
  method FillFromPrompt(g: map<string, Json>, parsed: map<string, Json>) returns (r: map<string, Json>)
    ensures r == FillGaps(g, parsed)
  {
    r := g;
    var todo := parsed.Keys;
    while todo != {}
      invariant todo <= parsed.Keys
      invariant forall k :: k in r <==> k in g || (k in parsed && k !in todo)
      invariant forall k :: k in parsed && k !in todo && Gap(g, k) ==> r[k] == parsed[k]
      invariant forall k :: k in g && !(k in parsed && k !in todo && Gap(g, k)) ==> r[k] == g[k]
      decreases |todo|
    {
      var k :| k in todo;
      if k !in r || r[k] == Null {
        r := r[k := parsed[k]];
      }
      todo := todo - {k};
    }
    FillByKeys(r, g, parsed);
  }

  lemma UnionByKeys(r: map<string, Json>, g: map<string, Json>, f: map<string, Json>)
    requires forall k :: k in r <==> k in g || k in f
    requires forall k :: k in f ==> r[k] == f[k]
    requires forall k :: k in g && k !in f ==> r[k] == g[k]
    ensures r == g + f
  {
    forall k | k in r
      ensures r[k] == (g + f)[k]
    {
      if k in f {
        assert r[k] == f[k];
      } else {
        assert k in g && r[k] == g[k];
      }
    }
  }

  lemma FillByKeys(r: map<string, Json>, g: map<string, Json>, parsed: map<string, Json>)
    requires forall k :: k in r <==> k in g || k in parsed
    requires forall k :: k in parsed && Gap(g, k) ==> r[k] == parsed[k]
    requires forall k :: k in g && !(k in parsed && Gap(g, k)) ==> r[k] == g[k]
    ensures r == FillGaps(g, parsed)
  {
    forall k | k in r
      ensures r[k] == FillGaps(g, parsed)[k]
    {
      if k in parsed && Gap(g, k) {
        assert r[k] == parsed[k];
      } else {
        assert k in g && r[k] == g[k];
      }
    }
  }

  // ---------------------------------------------------------------------
  // The whole upload loop's style

  /** The style after the JSON of each file, in upload order. */
  function MergeAll(g: map<string, Json>, jsons: seq<Option<Json>>): map<string, Json> {
    if jsons == [] then g else MergeJson(MergeAll(g, jsons[..|jsons| - 1]), jsons[|jsons| - 1])
  }

  /** The style `make_ppt` receives for a design prompt and the style JSON each file produced. */
  function FinalStyle(prompt: string, jsons: seq<Option<Json>>): map<string, Json> {
    var parsed := DesignPrompt.StyleMap(DesignPrompt.DesignStyle(prompt));
    FillGaps(MergeAll(parsed, jsons), parsed)
  }

  /** Keys are only ever added by the merges. */
  lemma {:induction false} MergeAllKeys(g: map<string, Json>, jsons: seq<Option<Json>>)
    ensures g.Keys <= MergeAll(g, jsons).Keys
  {
    if jsons != [] {
      MergeAllKeys(g, jsons[..|jsons| - 1]);
    }
  }

  /** Filling from a style without None values leaves none of its keys missing or None. */
  lemma FillCloses(g: map<string, Json>, parsed: map<string, Json>)
    requires forall k :: k in parsed ==> parsed[k] != Null
    ensures forall k :: k in parsed ==> k in FillGaps(g, parsed) && FillGaps(g, parsed)[k] != Null
  {
  }

  /** The five prompt keys are always present in the final style, and never None. */
  lemma FinalStyleComplete(prompt: string, jsons: seq<Option<Json>>)
    ensures var st := FinalStyle(prompt, jsons);
      forall k :: k in DesignPrompt.StyleMap(DesignPrompt.DesignStyle(prompt)) ==> k in st && st[k] != Null
  {
    var parsed := DesignPrompt.StyleMap(DesignPrompt.DesignStyle(prompt));
    DesignPrompt.StyleMapHasNoNull(DesignPrompt.DesignStyle(prompt));
    FillCloses(MergeAll(parsed, jsons), parsed);
  }

  /** A key the last object sets to a value other than None keeps that value: the JSON wins over the prompt. */
  lemma LastJsonWins(prompt: string, jsons: seq<Option<Json>>, k: string)
    requires jsons != [] && jsons[|jsons| - 1].Some?
    requires var j := jsons[|jsons| - 1].value; j.Obj? && k in j.fields && j.fields[k] != Null
    ensures FinalStyle(prompt, jsons)[k] == jsons[|jsons| - 1].value.fields[k]
  {
  }

  /** A prompt key no object ever mentions keeps the prompt's value. */
  lemma {:induction false} UntouchedKeyKeepsPrompt(g: map<string, Json>, jsons: seq<Option<Json>>, k: string)
    requires k in g
    requires forall i :: 0 <= i < |jsons| && jsons[i].Some? && jsons[i].value.Obj? ==> k !in jsons[i].value.fields
    ensures k in MergeAll(g, jsons) && MergeAll(g, jsons)[k] == g[k]
  {
    if jsons != [] {
      UntouchedKeyKeepsPrompt(g, jsons[..|jsons| - 1], k);
      MergeAllKeys(g, jsons[..|jsons| - 1]);
    }
  }

  /** With no style JSON at all, the final style is the parsed prompt. */
  lemma NoJsonGivesPrompt(prompt: string, jsons: seq<Option<Json>>)
    requires forall i :: 0 <= i < |jsons| ==> jsons[i].None?
    ensures FinalStyle(prompt, jsons) == DesignPrompt.StyleMap(DesignPrompt.DesignStyle(prompt))
  {
    var parsed := DesignPrompt.StyleMap(DesignPrompt.DesignStyle(prompt));
    MergeAllNone(parsed, jsons);
    DesignPrompt.StyleMapHasNoNull(DesignPrompt.DesignStyle(prompt));
    FillNoGaps(parsed);
  }

  /** Filling a style without None values from itself changes nothing. */
  lemma FillNoGaps(parsed: map<string, Json>)
    requires forall k :: k in parsed ==> parsed[k] != Null
    ensures FillGaps(parsed, parsed) == parsed
  {
  }

  lemma {:induction false} MergeAllNone(g: map<string, Json>, jsons: seq<Option<Json>>)
    requires forall i :: 0 <= i < |jsons| ==> jsons[i].None?
    ensures MergeAll(g, jsons) == g
  {
    if jsons != [] {
      MergeAllNone(g, jsons[..|jsons| - 1]);
    }
  }

  // ---------------------------------------------------------------------
  // The local fallback for a file the model could not summarise

  const FallbackChunkSize := 1800

  /** The fallback loop: one summary slide per 1800-character piece of the raw text. */
  method FallbackSlides(text: string) returns (slides: seq<Slide>)
    ensures slides == ChunkSlideList(Chunks(text, FallbackChunkSize))
  {
    var chunks := Chunks(text, FallbackChunkSize);
    slides := ChunkSlides(chunks);
  }

  /**
   * The fallback makes ceil(len(text) / 1800) slides, each with one to four
   * bullets and titled by its first bullet cut to 60 characters.
   */
  lemma FallbackShape(text: string)
    requires text != []
    ensures var ss := ChunkSlideList(Chunks(text, FallbackChunkSize)); var n := |ss|;
      && (n - 1) * FallbackChunkSize < |text| <= n * FallbackChunkSize
      && forall k :: 0 <= k < n ==>
        1 <= |ss[k].bullets| <= 4 && ss[k].title == Take(ss[k].bullets[0], MaxTitleChars)
  {
    ChunkListAt(Chunks(text, FallbackChunkSize));
  }
}
