/**
 * `extract_style_json_from_text`: find a decodable style object in model
 * output, first in a `<STYLE_JSON>...</STYLE_JSON>` block, then in the
 * brace-balanced spans that start at each `{`, scanning from the right.
 * `json.loads` is the parameter `decode`: it returns None where the
 * library raises.
 */
module StyleJson {
  import opened Wrappers
  import opened Text
  import opened JsonValue

  const OpenTag := "<style_json>"
  const CloseTag := "</style_json>"

  /** The first index at or after `i` where the lower-case word `p` starts, ignoring case. */
  function FindNoCase(s: string, p: string, i: nat): (r: Option<nat>)
    ensures r.Some? ==> i <= r.value <= |s| && StartsWithNoCase(s[r.value..], p)
    ensures forall k :: i <= k <= |s| && (r.None? || k < r.value) ==> !StartsWithNoCase(s[k..], p)
    decreases |s| - i
  {
    if i > |s| then None
    else if StartsWithNoCase(s[i..], p) then Some(i)
    else FindNoCase(s, p, i + 1)
  }

  /**
   * `re.search(r'<STYLE_JSON>(.*?)</STYLE_JSON>', s, re.DOTALL | re.IGNORECASE)`
   * and its group: the text between the first opening tag and the first
   * closing tag after it. When no closing tag follows the first opening
   * tag, none follows a later one either, so there is no match at all.
   */
  function TaggedBlock(s: string): Option<string> {
    match FindNoCase(s, OpenTag, 0)
    case None => None
    case Some(o) =>
      if o + |OpenTag| > |s| then None
      else match FindNoCase(s, CloseTag, o + |OpenTag|)
        case None => None
        case Some(c) => Some(s[o + |OpenTag|..c])
  }

  /**
   * The tagged block is the text between the first opening tag and the
   * first closing tag after it.
   */
  lemma TaggedBlockAt(s: string, o: nat, c: nat)
    requires o + |OpenTag| <= c <= |s|
    requires StartsWithNoCase(s[o..], OpenTag) && forall k :: 0 <= k < o ==> !StartsWithNoCase(s[k..], OpenTag)
    requires StartsWithNoCase(s[c..], CloseTag)
    requires forall k :: o + |OpenTag| <= k < c ==> !StartsWithNoCase(s[k..], CloseTag)
    ensures TaggedBlock(s) == Some(s[o + |OpenTag|..c])
  {
    FindNoCaseAt(s, OpenTag, 0, o);
    FindNoCaseAt(s, CloseTag, o + |OpenTag|, c);
  }

  /** The search from `i` finds the first occurrence at or after `i`. */
  lemma FindNoCaseAt(s: string, p: string, i: nat, o: nat)
    requires i <= o <= |s| && StartsWithNoCase(s[o..], p)
    requires forall k :: i <= k < o ==> !StartsWithNoCase(s[k..], p)
    ensures FindNoCase(s, p, i) == Some(o)
  {
  }

  /** Without an opening tag, or without a closing tag after the first one, there is no block. */
  lemma NoTaggedBlock(s: string, o: nat)
    requires o + |OpenTag| <= |s| && StartsWithNoCase(s[o..], OpenTag)
    requires forall k :: 0 <= k < o ==> !StartsWithNoCase(s[k..], OpenTag)
    requires forall k :: o + |OpenTag| <= k <= |s| ==> !StartsWithNoCase(s[k..], CloseTag)
    ensures TaggedBlock(s) == None
  {
    FindNoCaseAt(s, OpenTag, 0, o);
  }

  lemma NoOpenTag(s: string)
    requires forall k :: 0 <= k <= |s| ==> !StartsWithNoCase(s[k..], OpenTag)
    ensures TaggedBlock(s) == None
  {
  }

  function Delta(c: char): int {
    if c == '{' then 1 else if c == '}' then -1 else 0
  }

  /** The value of the program's `depth` counter after reading `t`. */
  function Depth(t: string): int {
    if t == [] then 0 else Depth(t[..|t| - 1]) + Delta(t[|t| - 1])
  }

  /** The counter started at the `{` at `st` is back at 0 after reading index `k`. */
  predicate ClosesAt(s: string, st: nat, k: nat) {
    st <= k < |s| && Depth(s[st..k + 1]) == 0
  }

  /** The first `end >= e` at which the counter started at `st` is back at 0. */
  function FirstClose(s: string, st: nat, e: nat): (r: Option<nat>)
    requires st <= e <= |s|
    ensures r.Some? ==> e <= r.value < |s| && ClosesAt(s, st, r.value)
    ensures forall k :: e <= k && (r.None? || k < r.value) ==> !ClosesAt(s, st, k)
    decreases |s| - e
  {
    if e == |s| then None
    else if ClosesAt(s, st, e) then Some(e)
    else FirstClose(s, st, e + 1)
  }

  /** The span tried for the `{` at `st`, if the counter ever returns to 0. */
  function Candidate(s: string, st: nat): Option<string>
    requires st < |s|
  {
    if s[st] != '{' then None
    else match FirstClose(s, st, st)
      case Some(e) => Some(s[st..e + 1])
      case None => None
  }

  function TryAt(s: string, decode: string -> Option<Json>, st: nat): Option<Json>
    requires st < |s|
  {
    match Candidate(s, st)
    case Some(c) => decode(c)
    case None => None
  }

  /** The outer loop from start `k - 1` down to 0: the first candidate that decodes. */
  function ScanFrom(s: string, decode: string -> Option<Json>, k: nat): Option<Json>
    requires k <= |s|
  {
    if k == 0 then None
    else if TryAt(s, decode, k - 1).Some? then TryAt(s, decode, k - 1)
    else ScanFrom(s, decode, k - 1)
  }

  /** The value `extract_style_json_from_text(s)` returns. */
  function ExtractStyle(s: string, decode: string -> Option<Json>): Option<Json> {
    var tagged := TaggedBlock(s);
    if tagged.Some? && decode(Strip(tagged.value)).Some? then decode(Strip(tagged.value))
    else ScanFrom(s, decode, |s|)
  }

  /**
   * The inner loop of `extract_style_json_from_text`: from the `{` at
   * `start`, count braces until the counter is back at 0.
   */
  method MatchingClose(s: string, start: nat) returns (r: Option<nat>)
    requires start < |s|
    ensures r == FirstClose(s, start, start)
  {
    var depth := 0;
    var end := start;
    while end < |s|
      invariant start <= end <= |s|
      invariant depth == Depth(s[start..end])
      invariant FirstClose(s, start, start) == FirstClose(s, start, end)
    {
      if s[end] == '{' {
        depth := depth + 1;
      } else if s[end] == '}' {
        depth := depth - 1;
      }
      assert s[start..end + 1][..end - start] == s[start..end];
      if depth == 0 {
        return Some(end);
      }
      end := end + 1;
    }
    return None;
  }

  /** `extract_style_json_from_text(s)`: the tagged block, then starts from right to left. */
  method ExtractStyleJson(s: string, decode: string -> Option<Json>) returns (r: Option<Json>)
    ensures r == ExtractStyle(s, decode)
  {
    var block := TaggedBlock(s);
    if block.Some? {
      var v := decode(Strip(block.value));
      if v.Some? {
        return v;
      }
    }
    var k := |s|;
    while k > 0
      invariant 0 <= k <= |s|
      invariant ScanFrom(s, decode, |s|) == ScanFrom(s, decode, k)
    {
      var v := TryStart(s, decode, k - 1);
      if v.Some? {
        return v;
      }
      k := k - 1;
    }
    return None;
  }

  /** One turn of the outer loop: the span from the `{` at `start`, decoded. */
  method TryStart(s: string, decode: string -> Option<Json>, start: nat) returns (v: Option<Json>)
    requires start < |s|
    ensures v == TryAt(s, decode, start)
  {
    v := None;
    if s[start] == '{' {
      var end := MatchingClose(s, start);
      if end.Some? {
        var candidate := s[start..end.value + 1];
        v := decode(candidate);
      }
    }
  }

  /** A start whose span decodes, with no decodable span further right below `k`. */
  ghost predicate RightmostDecodable(s: string, decode: string -> Option<Json>, k: nat, st: nat)
    requires k <= |s|
  {
    st < k && TryAt(s, decode, st).Some? && forall st' :: st < st' < k ==> TryAt(s, decode, st').None?
  }

  /**
   * The brace scan returns the value of the rightmost candidate span that
   * decodes, and None when no candidate decodes.
   */
  lemma {:induction false} ScanFromFindsRightmost(s: string, decode: string -> Option<Json>, k: nat)
    requires k <= |s|
    ensures ScanFrom(s, decode, k).None? ==> forall st :: 0 <= st < k ==> TryAt(s, decode, st).None?
    ensures ScanFrom(s, decode, k).Some? ==>
      exists st :: RightmostDecodable(s, decode, k, st) && ScanFrom(s, decode, k) == TryAt(s, decode, st)
    decreases k
  {
    if k > 0 {
      var m: nat := k - 1;
      ScanFromFindsRightmost(s, decode, m);
      if TryAt(s, decode, m).Some? {
        assert ScanFrom(s, decode, k) == TryAt(s, decode, m);
        assert RightmostDecodable(s, decode, k, m);
      } else {
        assert ScanFrom(s, decode, k) == ScanFrom(s, decode, m);
        if ScanFrom(s, decode, m).Some? {
          var st :| RightmostDecodable(s, decode, m, st) && ScanFrom(s, decode, m) == TryAt(s, decode, st);
          assert RightmostDecodable(s, decode, k, st);
        }
      }
    }
  }

  /** The counter moves by at most one per character. */
  lemma DepthStep(t: string, c: char)
    ensures Depth(t + [c]) == Depth(t) + Delta(c)
  {
    assert (t + [c])[..|t|] == t;
  }

  /**
   * A candidate span is balanced: it opens with `{`, closes with `}`, holds
   * as many of one as of the other, and every proper prefix has more `{`
   * than `}`.
   */
  lemma {:induction false} CandidateBalanced(s: string, st: nat)
    requires st < |s| && Candidate(s, st).Some?
    ensures var c := Candidate(s, st).value;
      && c[0] == '{' && c[|c| - 1] == '}'
      && Depth(c) == 0
      && forall j :: 0 < j < |c| ==> Depth(c[..j]) > 0
  {
    var e := FirstClose(s, st, st).value;
    var c := s[st..e + 1];
    forall j | 0 < j < |c|
      ensures Depth(c[..j]) > 0
    {
      assert c[..j] == s[st..st + j];
      OpenPrefixPositive(s, st, e, j);
    }
    assert c[0] == '{';
    assert Depth(c) == 0;
    assert c[|c| - 1] == '}' by {
      assert c == c[..|c| - 1] + [c[|c| - 1]];
      DepthStep(c[..|c| - 1], c[|c| - 1]);
    }
  }

  /** Before the first close, every prefix of the span from the `{` at `st` has more `{` than `}`. */
  lemma {:induction false} OpenPrefixPositive(s: string, st: nat, e: nat, j: nat)
    requires st <= e < |s| && s[st] == '{'
    requires forall k :: st <= k < e ==> !ClosesAt(s, st, k)
    requires 1 <= j <= e - st
    ensures Depth(s[st..st + j]) > 0
    decreases j
  {
    if j == 1 {
      assert s[st..st + 1] == [] + ['{'];
      DepthStep([], '{');
    } else {
      OpenPrefixPositive(s, st, e, j - 1);
      assert s[st..st + j] == s[st..st + j - 1] + [s[st + j - 1]];
      DepthStep(s[st..st + j - 1], s[st + j - 1]);
      assert !ClosesAt(s, st, st + j - 1);
    }
  }

  /**
   * The extractor gives None (rather than an empty object) exactly when the
   * tagged block is missing or undecodable and no candidate span decodes;
   * in particular whenever the text has no `{` and no decodable block.
   */
  lemma ExtractNone(s: string, decode: string -> Option<Json>)
    ensures ExtractStyle(s, decode).None? <==>
      && (TaggedBlock(s).None? || decode(Strip(TaggedBlock(s).value)).None?)
      && forall st :: 0 <= st < |s| ==> TryAt(s, decode, st).None?
    ensures '{' !in s && (TaggedBlock(s).None? || decode(Strip(TaggedBlock(s).value)).None?) ==>
      ExtractStyle(s, decode).None?
  {
    ScanFromFindsRightmost(s, decode, |s|);
    if '{' !in s {
      forall st | 0 <= st < |s| ensures TryAt(s, decode, st).None? {
        assert s[st] in s;
      }
    }
  }
}
