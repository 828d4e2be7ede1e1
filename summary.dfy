/**
 * The local fallback summariser `simple_local_summary` and the sentence
 * splitter `re.split(r'(?<=[.!?])\s+', ...)` that it and the slide parser
 * share.
 */
module Summary {
  import opened Text

  /** A split point of the sentence pattern: a space right after `.`, `!` or `?`. */
  predicate IsBreak(t: string, k: int) {
    0 < k < |t| && IsSpace(t[k]) && IsTerminator(t[k - 1])
  }

  /** The first split point at or after `i`, or `|t|` when there is none. */
  function FirstBreak(t: string, i: nat): (j: nat)
    requires i <= |t|
    ensures i <= j <= |t|
    ensures j < |t| ==> IsBreak(t, j)
    ensures forall k :: i <= k < j ==> !IsBreak(t, k)
    decreases |t| - i
  {
    if i == |t| || IsBreak(t, i) then i else FirstBreak(t, i + 1)
  }

  lemma {:induction false} FirstBreakUnique(t: string, i: nat, j: nat)
    requires i <= j <= |t|
    requires j < |t| ==> IsBreak(t, j)
    requires forall k :: i <= k < j ==> !IsBreak(t, k)
    ensures FirstBreak(t, i) == j
    decreases j - i
  {
    if i < j {
      FirstBreakUnique(t, i + 1, j);
    }
  }

  /**
   * Pieces a sentence split can give: none holds a split point, and every
   * piece but the last is non-empty and ends in `.`, `!` or `?`.
   */
  predicate SentencePieces(ps: seq<string>) {
    && (forall k :: 0 <= k < |ps| - 1 ==> ps[k] != [] && IsTerminator(ps[k][|ps[k]| - 1]))
    && (forall k, i :: 0 <= k < |ps| && 0 <= i < |ps[k]| ==> !IsBreak(ps[k], i))
  }

  /**
   * `re.split(r'(?<=[.!?])\s+', t)`: the pieces between the maximal space
   * runs that follow an end-of-sentence character. Never empty: the empty
   * string splits into `[""]`.
   */
  function SplitSentences(t: string): (ps: seq<string>)
    ensures |ps| >= 1
    decreases |t|
  {
    var j := FirstBreak(t, 0);
    if j == |t| then [t] else [t[..j]] + SplitSentences(t[SpaceRunEnd(t, j)..])
  }

  /**
   * The split cuts at every split point and nowhere else: no piece holds a
   * split point, and every piece but the last ends a sentence.
   */
  lemma {:induction false} SplitSentencesPieces(t: string)
    ensures SentencePieces(SplitSentences(t))
    decreases |t|
  {
    var j := FirstBreak(t, 0);
    if j < |t| {
      SplitSentencesPieces(t[SpaceRunEnd(t, j)..]);
      NoBreakInPrefix(t, t[..j], j);
      PiecesCons(t[..j], SplitSentences(t[SpaceRunEnd(t, j)..]));
    } else {
      assert SplitSentences(t) == [t];
    }
  }

  /** A sentence ending in a terminator in front of valid pieces gives valid pieces. */
  lemma PiecesCons(a: string, rest: seq<string>)
    requires a != [] && IsTerminator(a[|a| - 1])
    requires forall i :: 0 <= i < |a| ==> !IsBreak(a, i)
    requires SentencePieces(rest)
    ensures SentencePieces([a] + rest)
  {
    var ps := [a] + rest;
    forall k | 0 < k < |ps|
      ensures ps[k] == rest[k - 1]
    {
    }
  }

  /** `" ".join(ps)` */
  function Join(ps: seq<string>): (r: string)
    ensures ps == [] ==> r == []
  {
    if ps == [] then []
    else if |ps| == 1 then ps[0]
    else ps[0] + " " + Join(ps[1..])
  }

  function Min(a: nat, b: nat): nat {
    if a < b then a else b
  }

  /** The text after the first split point of a collapsed string is collapsed and non-empty. */
  lemma CollapsedAfterBreak(t: string, j: nat)
    requires Collapsed(t) && j < |t| && IsBreak(t, j)
    ensures SpaceRunEnd(t, j) == j + 1 && j + 1 < |t|
    ensures t == t[..j] + " " + t[j + 1..]
    ensures Collapsed(t[j + 1..]) && t[j + 1..] != []
  {
    assert SpaceRunEnd(t, j + 1) == j + 1;
    var u := t[j + 1..];
    forall i | 0 <= i < |u| && IsSpace(u[i])
      ensures u[i] == ' ' && 0 < i < |u| - 1 && !IsSpace(u[i + 1])
    {
      assert u[i] == t[j + 1 + i];
    }
  }

  /** A piece that ends before the first split point has no split point of its own. */
  lemma NoBreakInPrefix(t: string, p: string, j: nat)
    requires j <= |p| && j + 1 <= |t| + 1
    requires p[..j] == t[..j]
    requires forall k :: 0 <= k < j ==> !IsBreak(t, k)
    ensures forall k :: 0 <= k < j ==> !IsBreak(p, k)
  {
    forall k | 0 <= k < j ensures !IsBreak(p, k) {
      if IsBreak(p, k) {
        assert p[k] == t[k] && p[k - 1] == t[k - 1];
        assert IsBreak(t, k);
      }
    }
  }

  /** Round trip: joining the sentences of a collapsed text gives the text back. */
  lemma {:induction false} JoinSplitSentences(t: string)
    requires Collapsed(t)
    ensures Join(SplitSentences(t)) == t
    decreases |t|
  {
    var j := FirstBreak(t, 0);
    if j < |t| {
      CollapsedAfterBreak(t, j);
      var u := t[j + 1..];
      JoinSplitSentences(u);
      assert SplitSentences(t) == [t[..j]] + SplitSentences(u);
    }
  }

  /** The recursive step of SplitSentences on a collapsed text. */
  lemma SplitAtFirstBreak(t: string, j: nat)
    requires Collapsed(t) && j == FirstBreak(t, 0) < |t|
    ensures 0 < j && j + 1 < |t|
    ensures Collapsed(t[j + 1..]) && t[j + 1..] != []
    ensures SplitSentences(t) == [t[..j]] + SplitSentences(t[j + 1..])
  {
    CollapsedAfterBreak(t, j);
  }

  /** The first sentence of a collapsed text, the blank after it, and the rest. */
  lemma FirstSentence(t: string, j: nat)
    requires Collapsed(t) && j == FirstBreak(t, 0) < |t|
    ensures 0 < j && j + 1 < |t|
    ensures t == t[..j] + " " + t[j + 1..]
    ensures IsTerminator(t[j - 1]) && !IsSpace(t[j + 1])
    ensures forall k :: 0 <= k < j ==> !IsBreak(t[..j], k)
  {
    CollapsedAfterBreak(t, j);
    NoBreakInPrefix(t, t[..j], j);
  }

  /** A text without split points is one sentence. */
  lemma OneSentence(a: string)
    requires forall k :: 0 <= k < |a| ==> !IsBreak(a, k)
    ensures SplitSentences(a) == [a]
  {
    FirstBreakUnique(a, 0, |a|);
  }

  /** A sentence, one blank and a text that starts with a non-space: the sentence is split off first. */
  lemma SplitAfterSentence(a: string, rest: string)
    requires a != [] && IsTerminator(a[|a| - 1])
    requires forall k :: 0 <= k < |a| ==> !IsBreak(a, k)
    requires rest != [] && !IsSpace(rest[0])
    ensures SplitSentences(a + " " + rest) == [a] + SplitSentences(rest)
  {
    var p := a + " " + rest;
    var j := |a|;
    forall k | 0 <= k < j ensures !IsBreak(p, k) {
      assert !IsBreak(a, k);
      assert p[k] == a[k];
      if k > 0 { assert p[k - 1] == a[k - 1]; }
    }
    assert IsBreak(p, j) by { assert p[j] == ' ' && p[j - 1] == a[j - 1]; }
    FirstBreakUnique(p, 0, j);
    assert p[j + 1] == rest[0];
    assert SpaceRunEnd(p, j + 1) == j + 1;
    assert p[..j] == a && p[j + 1..] == rest;
  }

  /**
   * Keeping the first `k` sentences of a collapsed text gives a non-empty
   * prefix of it that splits into exactly those `k` sentences.
   */
  lemma {:induction false} SentencePrefix(t: string, k: nat)
    requires Collapsed(t) && t != []
    requires 1 <= k <= |SplitSentences(t)|
    ensures Join(SplitSentences(t)[..k]) != []
    ensures StartsWith(t, Join(SplitSentences(t)[..k]))
    ensures SplitSentences(Join(SplitSentences(t)[..k])) == SplitSentences(t)[..k]
    decreases |t|
  {
    var j := FirstBreak(t, 0);
    if j == |t| {
      assert SplitSentences(t)[..k] == [t];
    } else if k == 1 {
      FirstSentenceOnly(t, j);
    } else {
      var u := t[j + 1..];
      SentenceStep(t, j, u, k);
      SentencePrefix(u, k - 1);
      PrefixAfterSentence(t, j, u, SplitSentences(u)[..k - 1]);
    }
  }

  /** The base case of SentencePrefix past a split point: the first sentence alone. */
  lemma FirstSentenceOnly(t: string, j: nat)
    requires Collapsed(t) && j == FirstBreak(t, 0) < |t|
    ensures SplitSentences(t)[..1] == [t[..j]]
    ensures Join([t[..j]]) == t[..j] != []
    ensures StartsWith(t, t[..j])
    ensures SplitSentences(t[..j]) == [t[..j]]
  {
    SplitAtFirstBreak(t, j);
    FirstSentence(t, j);
    OneSentence(t[..j]);
  }

  /** What the inductive step of SentencePrefix needs about the text after the first split point. */
  lemma SentenceStep(t: string, j: nat, u: string, k: nat)
    requires Collapsed(t) && j == FirstBreak(t, 0) < |t| && u == t[j + 1..]
    requires 2 <= k <= |SplitSentences(t)|
    ensures Collapsed(u) && u != [] && k - 1 <= |SplitSentences(u)|
    ensures SplitSentences(t)[..k] == [t[..j]] + SplitSentences(u)[..k - 1]
  {
    SplitAtFirstBreak(t, j);
  }

  /** The inductive step of SentencePrefix: the first sentence in front of a prefix of the rest. */
  lemma PrefixAfterSentence(t: string, j: nat, u: string, rest: seq<string>)
    requires Collapsed(t) && j == FirstBreak(t, 0) < |t| && u == t[j + 1..]
    requires rest != [] && Join(rest) != [] && StartsWith(u, Join(rest))
    requires SplitSentences(Join(rest)) == rest
    ensures Join([t[..j]] + rest) != []
    ensures StartsWith(t, Join([t[..j]] + rest))
    ensures SplitSentences(Join([t[..j]] + rest)) == [t[..j]] + rest
  {
    FirstSentence(t, j);
    var a := t[..j];
    var p' := Join(rest);
    assert ([a] + rest)[1..] == rest;
    assert Join([a] + rest) == a + " " + p';
    assert p'[0] == u[0] by { assert u[..|p'|] == p'; }
    SplitAfterSentence(a, p');
    assert t[..|a + " " + p'|] == a + " " + u[..|p'|];
  }

  /** Every sentence of a non-empty collapsed text is non-empty. */
  lemma {:induction false} SentencesNonEmpty(t: string)
    requires Collapsed(t) && t != []
    ensures forall p :: p in SplitSentences(t) ==> p != []
    decreases |t|
  {
    var j := FirstBreak(t, 0);
    if j < |t| {
      CollapsedAfterBreak(t, j);
      SentencesNonEmpty(t[j + 1..]);
      assert SplitSentences(t) == [t[..j]] + SplitSentences(t[j + 1..]);
    }
  }

  /**
   * `simple_local_summary(text, max_sentences)`: the first `max_sentences`
   * sentences of the whitespace-collapsed text, or, when that join is empty,
   * its first 200 characters with "..." when it is longer.
   */
  function LocalSummary(text: string, maxSentences: nat): (r: string)
    ensures AllSpace(text) ==> r == []
    ensures maxSentences == 0 ==>
      var t := Normalize(text);
      r == Take(t, 200) + (if |t| > 200 then "..." else "")
    ensures maxSentences > 0 && !AllSpace(text) ==>
      && r != []
      && StartsWith(Normalize(text), r)
      && var ps := SplitSentences(Normalize(text));
         SplitSentences(r) == ps[..Min(maxSentences, |ps|)]
  {
    var t := Normalize(text);
    var ps := SplitSentences(t);
    var joined := Join(ps[..Min(maxSentences, |ps|)]);
    assert maxSentences > 0 && t != [] ==>
      joined != [] && StartsWith(t, joined) && SplitSentences(joined) == ps[..Min(maxSentences, |ps|)] by {
      if maxSentences > 0 && t != [] {
        SentencePrefix(t, Min(maxSentences, |ps|));
      }
    }
    assert t == [] ==> joined == [] by {
      if t == [] {
        assert ps == [[]];
      }
    }
    if joined != [] then joined else Take(t, 200) + (if |t| > 200 then "..." else "")
  }
}
