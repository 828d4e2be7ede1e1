/**
 * Character classes and the string scanners that stand in for the regular
 * expressions and str methods app.py relies on.
 *
 * Character classes follow Python 3 on str values: `\s` and str.strip()
 * both use str.isspace(); str.splitlines() breaks on its own set of line
 * boundaries. Case folding (str.lower(), re.IGNORECASE) and `\d` are
 * modelled on ASCII only.
 */
module Text {
  import opened Wrappers

  /** str.isspace(): the characters `\s` matches and str.strip() removes. */
  predicate IsSpace(c: char) {
    || ('\t' <= c <= '\r')
    || ('\U{1C}' <= c <= '\U{1F}')
    || c == ' '
    || c == '\U{85}'
    || c == '\U{A0}'
    || c == '\U{1680}'
    || ('\U{2000}' <= c <= '\U{200A}')
    || c == '\U{2028}'
    || c == '\U{2029}'
    || c == '\U{202F}'
    || c == '\U{205F}'
    || c == '\U{3000}'
  }

  /** The line boundaries of str.splitlines(). */
  predicate IsLineBreak(c: char) {
    || c == '\n' || c == '\r' || c == '\U{0B}' || c == '\U{0C}'
    || ('\U{1C}' <= c <= '\U{1E}')
    || c == '\U{85}' || c == '\U{2028}' || c == '\U{2029}'
  }

  predicate IsDigit(c: char) {
    '0' <= c <= '9'
  }

  predicate IsHexDigit(c: char) {
    IsDigit(c) || 'a' <= c <= 'f' || 'A' <= c <= 'F'
  }

  function HexValue(c: char): (v: nat)
    requires IsHexDigit(c)
    ensures v < 16
  {
    if IsDigit(c) then c as nat - '0' as nat
    else if 'a' <= c <= 'f' then c as nat - 'a' as nat + 10
    else c as nat - 'A' as nat + 10
  }

  function DigitValue(c: char): (v: nat)
    requires IsDigit(c)
    ensures v < 10
  {
    c as nat - '0' as nat
  }

  /** The end-of-sentence characters of the pattern `(?<=[.!?])\s+`. */
  predicate IsTerminator(c: char) {
    c == '.' || c == '!' || c == '?'
  }

  function LowerChar(c: char): char {
    if 'A' <= c <= 'Z' then (c as int - 'A' as int + 'a' as int) as char else c
  }

  /** str.lower(), on ASCII letters. */
  function Lower(s: string): (r: string)
    ensures |r| == |s|
    ensures forall i :: 0 <= i < |s| ==> r[i] == LowerChar(s[i])
  {
    seq(|s|, i requires 0 <= i < |s| => LowerChar(s[i]))
  }

  predicate StartsWith(s: string, p: string) {
    |p| <= |s| && s[..|p|] == p
  }

  /** `s` starts with the lower-case word `p`, ignoring the case of `s`. */
  predicate StartsWithNoCase(s: string, p: string) {
    |p| <= |s| && forall i :: 0 <= i < |p| ==> LowerChar(s[i]) == p[i]
  }

  /** `s.find(p, i)`: the first index at or after `i` where `p` occurs. */
  function IndexOf(s: string, p: string, i: nat): (r: Option<nat>)
    ensures r.Some? ==> i <= r.value <= |s| && StartsWith(s[r.value..], p)
    decreases |s| - i
  {
    if i > |s| then None
    else if StartsWith(s[i..], p) then Some(i)
    else IndexOf(s, p, i + 1)
  }

  /** `p in s` for str values. */
  predicate Contains(s: string, p: string) {
    IndexOf(s, p, 0).Some?
  }

  /** An occurrence at `k` is found by any search that starts at or before `k`. */
  lemma {:induction false} OccursAt(s: string, p: string, i: nat, k: nat)
    requires i <= k <= |s| && StartsWith(s[k..], p)
    ensures IndexOf(s, p, i).Some? && IndexOf(s, p, i).value <= k
    decreases k - i
  {
    if !StartsWith(s[i..], p) {
      OccursAt(s, p, i + 1, k);
    }
  }

  function Take(s: string, n: nat): (r: string)
    ensures |r| == if |s| < n then |s| else n
    ensures r == s[..|r|]
  {
    if |s| <= n then s else s[..n]
  }

  /** Index of the first character at or after `i` that is not a space. */
  function SpaceRunEnd(s: string, i: nat): (j: nat)
    requires i <= |s|
    ensures i <= j <= |s|
    ensures forall k :: i <= k < j ==> IsSpace(s[k])
    ensures j < |s| ==> !IsSpace(s[j])
    decreases |s| - i
  {
    if i < |s| && IsSpace(s[i]) then SpaceRunEnd(s, i + 1) else i
  }

  /** Index just past the last character of `s[lo..]` that is not a space (or `lo`). */
  function StripEndIndex(s: string, lo: nat): (hi: nat)
    requires lo <= |s|
    ensures lo <= hi <= |s|
    ensures forall k :: hi <= k < |s| ==> IsSpace(s[k])
    ensures hi == lo || !IsSpace(s[hi - 1])
    decreases |s|
  {
    if |s| > lo && IsSpace(s[|s| - 1]) then StripEndIndex(s[..|s| - 1], lo) else |s|
  }

  /** str.strip(): `s[lo..hi]` with only spaces outside it. */
  function Strip(s: string): (r: string)
    ensures SpaceRunEnd(s, 0) + |r| <= |s|
    ensures r == [] || (!IsSpace(r[0]) && !IsSpace(r[|r| - 1]))
    ensures r == s[SpaceRunEnd(s, 0)..SpaceRunEnd(s, 0) + |r|]
    ensures forall k :: 0 <= k < SpaceRunEnd(s, 0) ==> IsSpace(s[k])
    ensures forall k :: SpaceRunEnd(s, 0) + |r| <= k < |s| ==> IsSpace(s[k])
  {
    var lo := SpaceRunEnd(s, 0);
    s[lo..StripEndIndex(s, lo)]
  }

  /** A string that neither starts nor ends with a space is its own strip. */
  lemma StripUnspaced(s: string)
    requires s != [] && !IsSpace(s[0]) && !IsSpace(s[|s| - 1])
    ensures Strip(s) == s
  {
    assert SpaceRunEnd(s, 0) == 0;
  }

  /** The characters of `s` that are not spaces, in order. */
  function NonSpaces(s: string): string {
    if s == [] then [] else (if IsSpace(s[0]) then [] else [s[0]]) + NonSpaces(s[1..])
  }

  lemma {:induction false} NonSpacesAppend(a: string, b: string)
    ensures NonSpaces(a + b) == NonSpaces(a) + NonSpaces(b)
    decreases |a|
  {
    if a == [] {
      assert a + b == b;
    } else {
      assert (a + b)[0] == a[0] && (a + b)[1..] == a[1..] + b;
      NonSpacesAppend(a[1..], b);
    }
  }

  lemma {:induction false} NonSpacesOfBlank(s: string)
    requires AllSpace(s)
    ensures NonSpaces(s) == []
    decreases |s|
  {
    if s != [] {
      NonSpacesOfBlank(s[1..]);
    }
  }

  /** `re.sub(r"\s+", " ", s)`: every run of spaces becomes one blank. */
  function Collapse(s: string): (r: string)
    ensures |r| <= |s|
    ensures r == [] <==> s == []
    ensures r != [] ==> (IsSpace(r[0]) <==> IsSpace(s[0]))
    ensures AllSpace(r) <==> AllSpace(s)
    ensures forall i :: 0 <= i < |r| && IsSpace(r[i]) ==> r[i] == ' '
    ensures forall i, j :: 0 <= i && j == i + 1 && j < |r| ==> !IsSpace(r[i]) || !IsSpace(r[j])
    decreases |s|
  {
    if s == [] then []
    else if IsSpace(s[0]) then
      var j := SpaceRunEnd(s, 0);
      assert AllSpace(s[j..]) <==> j == |s| by {
        if j < |s| { assert s[j..][0] == s[j]; }
      }
      var rest := Collapse(s[j..]);
      assert AllSpace([' '] + rest) <==> AllSpace(rest) by {
        if AllSpace([' '] + rest) {
          forall i | 0 <= i < |rest| ensures IsSpace(rest[i]) { assert rest[i] == ([' '] + rest)[i + 1]; }
        }
      }
      [' '] + rest
    else [s[0]] + Collapse(s[1..])
  }

  /** Collapsing changes only spaces: the other characters stay, in order. */
  lemma {:induction false} CollapseKeepsNonSpaces(s: string)
    ensures NonSpaces(Collapse(s)) == NonSpaces(s)
    decreases |s|
  {
    if s != [] {
      if IsSpace(s[0]) {
        var j := SpaceRunEnd(s, 0);
        assert s == s[..j] + s[j..];
        NonSpacesAppend(s[..j], s[j..]);
        NonSpacesOfBlank(s[..j]);
        CollapseKeepsNonSpaces(s[j..]);
        assert NonSpaces([' '] + Collapse(s[j..])) == NonSpaces(Collapse(s[j..])) by {
          assert ([' '] + Collapse(s[j..]))[1..] == Collapse(s[j..]);
        }
      } else {
        CollapseKeepsNonSpaces(s[1..]);
        assert ([s[0]] + Collapse(s[1..]))[1..] == Collapse(s[1..]);
      }
    }
  }

  /**
   * A string in the shape `re.sub(r"\s+", " ", s).strip()` leaves: its only
   * spaces are single blanks strictly inside it.
   */
  ghost predicate Collapsed(t: string) {
    && (forall i :: 0 <= i < |t| && IsSpace(t[i]) ==> t[i] == ' ' && 0 < i < |t| - 1)
    && (forall i, j :: 0 <= i && j == i + 1 && j < |t| ==> !IsSpace(t[i]) || !IsSpace(t[j]))
  }

  /** `re.sub(r"\s+", " ", s).strip()` */
  function Normalize(s: string): (t: string)
    ensures Collapsed(t)
    ensures t == [] <==> AllSpace(s)
  {
    var c := Collapse(s);
    StripEmpty(c);
    Strip(c)
  }

  /** Normalising changes only spaces: the other characters stay, in order. */
  lemma NormalizeKeepsNonSpaces(s: string)
    ensures NonSpaces(Normalize(s)) == NonSpaces(s)
  {
    CollapseKeepsNonSpaces(s);
    StripKeepsNonSpaces(Collapse(s));
  }

  /** str.strip() removes only spaces. */
  lemma StripKeepsNonSpaces(s: string)
    ensures NonSpaces(Strip(s)) == NonSpaces(s)
  {
    var lo := SpaceRunEnd(s, 0);
    var hi := lo + |Strip(s)|;
    assert s == s[..lo] + Strip(s) + s[hi..];
    NonSpacesAppend(s[..lo] + Strip(s), s[hi..]);
    NonSpacesAppend(s[..lo], Strip(s));
    NonSpacesOfBlank(s[..lo]);
    NonSpacesOfBlank(s[hi..]);
  }

  predicate AllSpace(s: string) {
    forall i :: 0 <= i < |s| ==> IsSpace(s[i])
  }

  lemma StripEmpty(s: string)
    ensures Strip(s) == [] <==> AllSpace(s)
  {
  }

  // ---------------------------------------------------------------------
  // `re.sub(r"\s+", " ", s).strip()` is `" ".join(s.split())`

  /** Index of the first space at or after `i`, or `|s|`. */
  function WordEnd(s: string, i: nat): (j: nat)
    requires i <= |s|
    ensures i <= j <= |s|
    ensures forall k :: i <= k < j ==> !IsSpace(s[k])
    ensures j < |s| ==> IsSpace(s[j])
    decreases |s| - i
  {
    if i == |s| || IsSpace(s[i]) then i else WordEnd(s, i + 1)
  }

  /** str.split() with no argument: the maximal runs of non-space characters, in order. */
  function Words(s: string): (ws: seq<string>)
    ensures forall k :: 0 <= k < |ws| ==> ws[k] != [] && forall i :: 0 <= i < |ws[k]| ==> !IsSpace(ws[k][i])
    decreases |s|
  {
    if s == [] then []
    else if IsSpace(s[0]) then Words(s[SpaceRunEnd(s, 0)..])
    else
      var j := WordEnd(s, 0);
      var rest := Words(s[j..]);
      assert forall k :: 0 < k < |[s[..j]] + rest| ==> ([s[..j]] + rest)[k] == rest[k - 1];
      [s[..j]] + rest
  }

  /** `" ".join(ws)` */
  function Unwords(ws: seq<string>): string {
    if ws == [] then [] else if |ws| == 1 then ws[0] else ws[0] + " " + Unwords(ws[1..])
  }

  /** Normalising is joining the words with single blanks. */
  lemma NormalizeWords(s: string)
    ensures Normalize(s) == Unwords(Words(s))
  {
    var u := Unwords(Words(s));
    CollapseWords(s);
    UnwordsEnds(Words(s));
    LeadTrailBlank(s);
    StripUnique(Lead(s), u, Trail(s));
    assert Normalize(s) == Strip(Collapse(s));
  }

  /** The blank a collapse leaves in front of the first word. */
  function Lead(s: string): string {
    if s != [] && IsSpace(s[0]) then " " else ""
  }

  /** The blank a collapse leaves after the last word. */
  function Trail(s: string): string {
    if !AllSpace(s) && IsSpace(s[|s| - 1]) then " " else ""
  }

  lemma LeadTrailBlank(s: string)
    ensures AllSpace(Lead(s)) && AllSpace(Trail(s))
  {
  }

  /** Collapsing leaves the words joined by single blanks, with one blank at each end that had spaces. */
  lemma {:induction false} CollapseWords(s: string)
    ensures Collapse(s) == Lead(s) + Unwords(Words(s)) + Trail(s)
    decreases |s|, 3
  {
    if s == [] {
    } else if IsSpace(s[0]) {
      CollapseWordsSpace(s);
    } else {
      CollapseWordsWord(s);
    }
  }

  lemma {:induction false} CollapseWordsSpace(s: string)
    requires s != [] && IsSpace(s[0])
    ensures Collapse(s) == Lead(s) + Unwords(Words(s)) + Trail(s)
    decreases |s|, 0
  {
    var j := SpaceRunEnd(s, 0);
    var r := s[j..];
    var u := Unwords(Words(r));
    CollapseWords(r);
    assert Lead(r) == [] by {
      if r != [] { assert r[0] == s[j]; }
    }
    assert Trail(s) == Trail(r) by {
      if r != [] {
        assert r[|r| - 1] == s[|s| - 1];
        assert !AllSpace(r) && !AllSpace(s);
      } else {
        assert AllSpace(s);
      }
    }
    assert Collapse(s) == " " + Collapse(r);
    assert Words(s) == Words(r);
    assert Collapse(r) == u + Trail(r) by { assert Lead(r) + u == u; }
    AppendAssoc(" ", u, Trail(r));
  }

  lemma {:induction false} CollapseWordsWord(s: string)
    requires s != [] && !IsSpace(s[0])
    ensures Collapse(s) == Lead(s) + Unwords(Words(s)) + Trail(s)
    decreases |s|, 2
  {
    var j := WordEnd(s, 0);
    var w, r := s[..j], s[j..];
    assert s == w + r;
    assert Words(s) == [w] + Words(r);
    CollapseWordThen(w, r);
    assert Lead(s) == [];
  }

  /** A word followed by text that is empty or starts with a space collapses to the word, then the rest. */
  lemma {:induction false} CollapseWordThen(w: string, r: string)
    requires w != [] && forall i :: 0 <= i < |w| ==> !IsSpace(w[i])
    requires r == [] || IsSpace(r[0])
    ensures Collapse(w + r) == Unwords([w] + Words(r)) + Trail(w + r)
    decreases |w + r|, 1
  {
    CollapseAppend(w, r);
    CollapseWord(w);
    WordsOfBlank(r);
    if r == [] {
      CollapseWordAlone(w);
    } else if Words(r) == [] {
      CollapseWordBlank(w, r);
    } else {
      CollapseWordMore(w, r);
    }
  }

  lemma CollapseWordAlone(w: string)
    requires w != [] && forall i :: 0 <= i < |w| ==> !IsSpace(w[i])
    requires Collapse(w + []) == w + Collapse([])
    ensures Collapse(w + []) == Unwords([w] + Words([])) + Trail(w + [])
  {
    var s := w + [];
    assert s == w;
    assert !AllSpace(s) by { assert s[0] == w[0]; }
    assert Trail(s) == [];
    assert Unwords([w]) == w;
  }

  lemma CollapseWordBlank(w: string, r: string)
    requires w != [] && forall i :: 0 <= i < |w| ==> !IsSpace(w[i])
    requires r != [] && AllSpace(r) && Words(r) == []
    requires Collapse(w + r) == w + Collapse(r)
    ensures Collapse(w + r) == Unwords([w] + Words(r)) + Trail(w + r)
  {
    var s := w + r;
    CollapseBlank(r);
    assert !AllSpace(s) by { assert s[0] == w[0]; }
    assert s[|s| - 1] == r[|r| - 1];
    assert Trail(s) == " ";
    assert [w] + Words(r) == [w];
    assert Unwords([w]) == w;
  }

  lemma {:induction false} CollapseWordMore(w: string, r: string)
    requires w != [] && forall i :: 0 <= i < |w| ==> !IsSpace(w[i])
    requires r != [] && IsSpace(r[0]) && !AllSpace(r) && Words(r) != []
    requires Collapse(w + r) == w + Collapse(r)
    ensures Collapse(w + r) == Unwords([w] + Words(r)) + Trail(w + r)
    decreases |w + r|, 0
  {
    var u := Unwords(Words(r));
    CollapseWords(r);
    TrailAfterWord(w, r);
    assert Lead(r) == " ";
    UnwordsCons(w, Words(r));
    JoinSteps(Collapse(w + r), w, Collapse(r), Lead(r), u, Trail(r), Unwords([w] + Words(r)));
  }

  lemma TrailAfterWord(w: string, r: string)
    requires r != [] && !AllSpace(r)
    ensures Trail(w + r) == Trail(r)
  {
    var s := w + r;
    var k :| 0 <= k < |r| && !IsSpace(r[k]);
    assert s[|w| + k] == r[k];
    assert s[|s| - 1] == r[|r| - 1];
  }

  lemma JoinSteps<T>(c: seq<T>, w: seq<T>, cr: seq<T>, b: seq<T>, u: seq<T>, t: seq<T>, x: seq<T>)
    requires c == w + cr && cr == b + u + t && x == w + b + u
    ensures c == x + t
  {
  }

  lemma AppendAssoc<T>(x: seq<T>, y: seq<T>, z: seq<T>)
    ensures (x + y) + z == x + (y + z)
  {
  }

  lemma UnwordsCons(w: string, ws: seq<string>)
    requires ws != []
    ensures Unwords([w] + ws) == w + " " + Unwords(ws)
  {
    assert ([w] + ws)[1..] == ws;
  }

  lemma {:induction false} WordsOfBlank(s: string)
    ensures Words(s) == [] <==> AllSpace(s)
    decreases |s|
  {
    if s != [] && IsSpace(s[0]) {
      var j := SpaceRunEnd(s, 0);
      WordsOfBlank(s[j..]);
      if !AllSpace(s) {
        var k :| 0 <= k < |s| && !IsSpace(s[k]);
        assert s[j..][k - j] == s[k];
      }
    }
  }

  /** The words of a string, joined, neither start nor end with a space. */
  lemma {:induction false} UnwordsEnds(ws: seq<string>)
    requires forall k :: 0 <= k < |ws| ==> ws[k] != [] && forall i :: 0 <= i < |ws[k]| ==> !IsSpace(ws[k][i])
    ensures Unwords(ws) == [] || (!IsSpace(Unwords(ws)[0]) && !IsSpace(Unwords(ws)[|Unwords(ws)| - 1]))
  {
    if |ws| > 1 {
      UnwordsEnds(ws[1..]);
      assert ws[1] == ws[1..][0];
      var u := Unwords(ws[1..]);
      assert u != [] by { assert |Unwords(ws[1..])| >= |ws[1]| by { UnwordsFirst(ws[1..]); } }
      assert Unwords(ws)[0] == ws[0][0];
    } else if |ws| == 1 {
      assert ws[0][|ws[0]| - 1] == ws[0][|ws[0]| - 1];
    }
  }

  lemma UnwordsFirst(ws: seq<string>)
    requires ws != []
    ensures |Unwords(ws)| >= |ws[0]|
  {
  }

  /** `str.strip()` of blanks around a string that neither starts nor ends with a space gives that string. */
  lemma StripUnique(a: string, r: string, b: string)
    requires AllSpace(a) && AllSpace(b)
    requires r == [] || (!IsSpace(r[0]) && !IsSpace(r[|r| - 1]))
    ensures Strip(a + r + b) == r
  {
    var s := a + r + b;
    var lo, hi := |a|, |a| + |r|;
    assert forall k :: 0 <= k < lo ==> IsSpace(s[k]) by {
      forall k | 0 <= k < lo ensures IsSpace(s[k]) { assert s[k] == a[k]; }
    }
    assert forall k :: hi <= k < |s| ==> IsSpace(s[k]) by {
      forall k | hi <= k < |s| ensures IsSpace(s[k]) { assert s[k] == b[k - hi]; }
    }
    if r != [] {
      assert s[lo] == r[0] && s[hi - 1] == r[|r| - 1];
    }
    StripAt(s, lo, hi);
    assert s[lo..hi] == r;
  }

  /** When `s[lo..hi]` has only spaces outside it and non-spaces at its ends, it is the strip of `s`. */
  lemma StripAt(s: string, lo: nat, hi: nat)
    requires lo <= hi <= |s|
    requires forall k :: 0 <= k < lo ==> IsSpace(s[k])
    requires forall k :: hi <= k < |s| ==> IsSpace(s[k])
    requires lo == hi || (!IsSpace(s[lo]) && !IsSpace(s[hi - 1]))
    ensures Strip(s) == s[lo..hi]
  {
    if lo == hi {
      assert AllSpace(s) by {
        forall k | 0 <= k < |s| ensures IsSpace(s[k]) {
          if k < lo { } else { }
        }
      }
      StripEmpty(s);
    } else {
      SpaceRunEndIs(s, 0, lo);
      var t := Strip(s);
      var n := |t|;
      assert hi - lo <= n;
      assert t[n - 1] == s[lo + n - 1];
      assert n <= hi - lo;
    }
  }

  /** A run of spaces from `i` ending at `j` ends where SpaceRunEnd says. */
  lemma {:induction false} SpaceRunEndIs(s: string, i: nat, j: nat)
    requires i <= j <= |s|
    requires forall k :: i <= k < j ==> IsSpace(s[k])
    requires j == |s| || !IsSpace(s[j])
    ensures SpaceRunEnd(s, i) == j
    decreases j - i
  {
    if i < j {
      SpaceRunEndIs(s, i + 1, j);
    }
  }

  /** Collapsing two strings that do not meet in spaces collapses each on its own. */
  lemma {:induction false} CollapseAppend(a: string, b: string)
    requires a == [] || b == [] || !IsSpace(a[|a| - 1]) || !IsSpace(b[0])
    ensures Collapse(a + b) == Collapse(a) + Collapse(b)
    decreases |a|, 1
  {
    if a == [] {
      assert a + b == b;
    } else if IsSpace(a[0]) {
      CollapseAppendSpace(a, b);
    } else {
      CollapseAppendWord(a, b);
    }
  }

  lemma {:induction false} CollapseAppendSpace(a: string, b: string)
    requires a != [] && IsSpace(a[0])
    requires b == [] || !IsSpace(a[|a| - 1]) || !IsSpace(b[0])
    ensures Collapse(a + b) == Collapse(a) + Collapse(b)
    decreases |a|, 0
  {
    var j := SpaceRunEnd(a, 0);
    if j == |a| {
      CollapseAppendBlank(a, b);
    } else {
      var c := a + b;
      assert c[0] == a[0] && c[j] == a[j];
      SpaceRunEndIs(c, 0, j);
      assert c[j..] == a[j..] + b;
      assert a[j..][|a[j..]| - 1] == a[|a| - 1];
      CollapseAppend(a[j..], b);
      assert Collapse(c) == " " + Collapse(a[j..] + b);
      assert Collapse(a) == " " + Collapse(a[j..]);
      AppendAssoc(" ", Collapse(a[j..]), Collapse(b));
    }
  }

  /** Blanks followed by text that starts with a non-space collapse to one blank, then the text. */
  lemma CollapseAppendBlank(a: string, b: string)
    requires a != [] && AllSpace(a)
    requires b == [] || !IsSpace(b[0])
    ensures Collapse(a + b) == Collapse(a) + Collapse(b)
  {
    var c := a + b;
    assert c[0] == a[0];
    assert c[|a|..] == b;
    assert b == [] || !IsSpace(c[|a|]) by {
      if b != [] { assert c[|a|] == b[0]; }
    }
    SpaceRunEndIs(c, 0, |a|);
    CollapseBlank(a);
  }

  lemma {:induction false} CollapseAppendWord(a: string, b: string)
    requires a != [] && !IsSpace(a[0])
    requires b == [] || !IsSpace(a[|a| - 1]) || !IsSpace(b[0])
    ensures Collapse(a + b) == Collapse(a) + Collapse(b)
    decreases |a|, 0
  {
    assert (a + b)[0] == a[0];
    assert (a + b)[1..] == a[1..] + b;
    if |a| > 1 {
      assert a[1..][|a[1..]| - 1] == a[|a| - 1];
    }
    CollapseAppend(a[1..], b);
    AppendAssoc([a[0]], Collapse(a[1..]), Collapse(b));
  }

  lemma {:induction false} CollapseWord(w: string)
    requires forall i :: 0 <= i < |w| ==> !IsSpace(w[i])
    ensures Collapse(w) == w
    decreases |w|
  {
    if w != [] {
      CollapseWord(w[1..]);
    }
  }

  lemma CollapseBlank(w: string)
    requires w != [] && AllSpace(w)
    ensures Collapse(w) == " "
  {
    SpaceRunEndIs(w, 0, |w|);
    assert w[|w|..] == [];
  }

  /** Index of the first line boundary at or after `i`, or `|s|`. */
  function LineEnd(s: string, i: nat): (j: nat)
    requires i <= |s|
    ensures i <= j <= |s|
    ensures forall k :: i <= k < j ==> !IsLineBreak(s[k])
    ensures j < |s| ==> IsLineBreak(s[j])
    decreases |s| - i
  {
    if i == |s| || IsLineBreak(s[i]) then i else LineEnd(s, i + 1)
  }

  /**
   * str.splitlines(): the text between line boundaries, "\r\n" counting as
   * one boundary; a boundary at the very end opens no further line.
   */
  function Lines(s: string): (ls: seq<string>)
    ensures s == [] <==> ls == []
    ensures forall l :: l in ls ==> forall c :: c in l ==> !IsLineBreak(c)
    decreases |s|
  {
    if s == [] then []
    else
      var j := LineEnd(s, 0);
      if j == |s| then [s]
      else
        var next := if s[j] == '\r' && j + 1 < |s| && s[j + 1] == '\n' then j + 2 else j + 1;
        [s[..j]] + Lines(s[next..])
  }

  /** `s` with every line boundary written as `\n`, "\r\n" as one. */
  function NewlinesOnly(s: string): string
    decreases |s|
  {
    if s == [] then []
    else if s[0] == '\r' && |s| > 1 && s[1] == '\n' then "\n" + NewlinesOnly(s[2..])
    else if IsLineBreak(s[0]) then "\n" + NewlinesOnly(s[1..])
    else [s[0]] + NewlinesOnly(s[1..])
  }

  /** `"\n".join(ls)` */
  function Unlines(ls: seq<string>): string {
    if ls == [] then [] else if |ls| == 1 then ls[0] else ls[0] + "\n" + Unlines(ls[1..])
  }

  predicate EndsWithLineBreak(s: string) {
    s != [] && IsLineBreak(s[|s| - 1])
  }

  /**
   * Joining the lines back with `\n` gives the text with each boundary
   * written as `\n`, less a boundary at the very end: the lines are the
   * text's maximal runs without boundaries, in order.
   */
  lemma {:induction false} LinesRoundTrip(s: string)
    ensures Unlines(Lines(s)) + (if EndsWithLineBreak(s) then "\n" else "") == NewlinesOnly(s)
    decreases |s|
  {
    if s != [] {
      var j := LineEnd(s, 0);
      UnbrokenPrefix(s, j);
      if j == |s| {
        assert s[j..] == [] && s[..j] == s;
      } else {
        var next := if s[j] == '\r' && j + 1 < |s| && s[j + 1] == '\n' then j + 2 else j + 1;
        BoundaryStep(s, j, next);
        LinesRoundTrip(s[next..]);
        LinesStep(s, j, next);
      }
    }
  }

  /** A boundary, "\r\n" counting as one, becomes a single `\n`. */
  lemma BoundaryStep(s: string, j: nat, next: nat)
    requires j < |s| && IsLineBreak(s[j])
    requires next == if s[j] == '\r' && j + 1 < |s| && s[j + 1] == '\n' then j + 2 else j + 1
    ensures NewlinesOnly(s[j..]) == "\n" + NewlinesOnly(s[next..])
  {
    var t := s[j..];
    assert t[0] == s[j];
    if next == j + 2 {
      assert t[1] == '\n' && t[2..] == s[next..];
    } else {
      assert t[1..] == s[next..];
    }
  }

  /** The step of LinesRoundTrip: the first line, one `\n`, and the round trip of the rest. */
  lemma LinesStep(s: string, j: nat, next: nat)
    requires j == LineEnd(s, 0) < |s|
    requires next == if s[j] == '\r' && j + 1 < |s| && s[j + 1] == '\n' then j + 2 else j + 1
    requires NewlinesOnly(s) == s[..j] + NewlinesOnly(s[j..])
    requires NewlinesOnly(s[j..]) == "\n" + NewlinesOnly(s[next..])
    requires Unlines(Lines(s[next..])) + (if EndsWithLineBreak(s[next..]) then "\n" else "") == NewlinesOnly(s[next..])
    ensures Unlines(Lines(s)) + (if EndsWithLineBreak(s) then "\n" else "") == NewlinesOnly(s)
  {
    var u := s[next..];
    LinesCons(s, j, next);
    BreakBefore(s, j, next);
    FinalBreak(s, next);
    JoinBack(s[..j], Lines(u), NewlinesOnly(u),
      if EndsWithLineBreak(u) then "\n" else "", if EndsWithLineBreak(s) then "\n" else "");
  }

  lemma BreakBefore(s: string, j: nat, next: nat)
    requires j == LineEnd(s, 0) < |s|
    requires next == if s[j] == '\r' && j + 1 < |s| && s[j + 1] == '\n' then j + 2 else j + 1
    ensures 0 < next <= |s| && IsLineBreak(s[next - 1])
  {
    if next == j + 2 {
      assert s[next - 1] == '\n';
    } else {
      assert s[next - 1] == s[j];
    }
  }

  /** The first line of `s`, then the lines after its boundary. */
  lemma LinesCons(s: string, j: nat, next: nat)
    requires j == LineEnd(s, 0) < |s|
    requires next == if s[j] == '\r' && j + 1 < |s| && s[j + 1] == '\n' then j + 2 else j + 1
    ensures Lines(s) == [s[..j]] + Lines(s[next..])
  {
  }

  /** Whether `s` ends on a boundary after its first one is decided by what follows that boundary. */
  lemma FinalBreak(s: string, next: nat)
    requires 0 < next <= |s| && IsLineBreak(s[next - 1])
    ensures s[next..] == [] ==> EndsWithLineBreak(s)
    ensures s[next..] != [] ==> EndsWithLineBreak(s[next..]) == EndsWithLineBreak(s)
  {
    if next < |s| {
      SameLastChar(s, next);
    }
  }

  lemma SameLastChar(s: string, next: nat)
    requires next < |s|
    ensures EndsWithLineBreak(s[next..]) == EndsWithLineBreak(s)
  {
    assert s[next..][|s| - next - 1] == s[|s| - 1];
  }

  lemma JoinBack(a: string, rest: seq<string>, n: string, fu: string, fs: string)
    requires rest == [] ==> n == [] && fs == "\n"
    requires rest != [] ==> Unlines(rest) + fu == n && fs == fu
    ensures Unlines([a] + rest) + fs == a + ("\n" + n)
  {
    if rest != [] {
      UnlinesCons(a, rest);
      assert Unlines([a] + rest) + fs == a + "\n" + (Unlines(rest) + fu);
    }
  }

  lemma UnlinesCons(a: string, rest: seq<string>)
    requires rest != []
    ensures Unlines([a] + rest) == a + "\n" + Unlines(rest)
  {
    assert ([a] + rest)[1..] == rest;
  }

  /** A prefix without boundaries is copied as it is. */
  lemma {:induction false} UnbrokenPrefix(s: string, j: nat)
    requires j <= |s| && forall k :: 0 <= k < j ==> !IsLineBreak(s[k])
    ensures NewlinesOnly(s) == s[..j] + NewlinesOnly(s[j..])
    decreases j
  {
    if j > 0 {
      UnbrokenPrefix(s[1..], j - 1);
      assert s[1..][j - 1..] == s[j..];
      assert s[..j] == [s[0]] + s[1..][..j - 1];
    }
  }

  /** Whatever occurs inside an occurring word occurs too. */
  lemma ContainsPart(s: string, p: string, off: nat, q: string)
    requires Contains(s, p) && off + |q| <= |p| && p[off..off + |q|] == q
    ensures Contains(s, q)
  {
    var i := IndexOf(s, p, 0).value;
    assert s[i + off..][..|q|] == s[i..][..|p|][off..off + |q|];
    OccursAt(s, q, 0, i + off);
  }
}
