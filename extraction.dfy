/** `safe_extract_json` (review_pr.py:44-66): recover a JSON value from a
    language model's free-text reply. Three candidates are handed to
    `json.loads` in turn and the first that parses wins: the whole reply,
    the slice from its first `[` to its last `]`, and that slice repaired.
    When none parses, or there is no such slice, the result is `[]`; no
    path raises. */
module Extraction {
  import opened JsonValue
  import opened TextSearch
  import opened Repair

  /** `b` is a bracketed candidate with `p` before it and `q` after it:
      `b` opens with `[` and closes with `]`, `p` holds no `[` and `q` no `]`. */
  predicate Framed(p: string, b: string, q: string) {
    && |b| >= 2 && b[0] == '[' && b[|b| - 1] == ']'
    && '[' !in p && ']' !in q
  }

  /** Some `[` comes before some `]`. */
  predicate HasBracketPair(text: string) {
    exists i, j :: 0 <= i < j < |text| && text[i] == '[' && text[j] == ']'
  }

  /** The slice `text[start:end+1]` of review_pr.py:52-55, present only when
      both brackets occur and the last `]` lies after the first `[`. */
  function Snippet(text: string): Option<string> {
    var start := Find(text, '[');
    var end := RFind(text, ']');
    if start != -1 && end != -1 && end > start then Some(text[start..end + 1]) else None
  }

  /** There is a snippet exactly when some `[` comes before some `]`. */
  lemma SnippetExistsIff(text: string)
    ensures Snippet(text).Some? <==> HasBracketPair(text)
  {
    var start, end := Find(text, '['), RFind(text, ']');
    if HasBracketPair(text) {
      var i, j :| 0 <= i < j < |text| && text[i] == '[' && text[j] == ']';
      assert start <= i;
      assert end >= j;
    }
  }

  /** Cutting a text at a first `[` and a last `]` frames the part between. */
  lemma CutIsFramed(text: string, start: nat, end: nat)
    requires start < end < |text| && text[start] == '[' && text[end] == ']'
    requires forall k :: 0 <= k < start ==> text[k] != '['
    requires forall k :: end < k < |text| ==> text[k] != ']'
    ensures Framed(text[..start], text[start..end + 1], text[end + 1..])
  {
    var b := text[start..end + 1];
    assert b[0] == '[' && b[|b| - 1] == ']';
  }

  /** The snippet runs from the first `[` to the last `]`, inclusive, and
      is framed by the prose around it. */
  lemma SnippetIsFramedSlice(text: string)
    requires Snippet(text).Some?
    ensures var start, end := Find(text, '['), RFind(text, ']');
            && 0 <= start < end < |text|
            && Snippet(text).value == text[start..end + 1]
            && Framed(text[..start], text[start..end + 1], text[end + 1..])
  {
    var start, end := Find(text, '['), RFind(text, ']');
    CutIsFramed(text, start, end);
  }

  /** The extractor of review_pr.py:44-66, over the parser `loads`. */
  function SafeExtractJson(loads: JsonLoads, text: string): Json {
    match loads(text)
    case Some(v) => v
    case None =>
      match Snippet(text)
      case None => EmptyList
      case Some(snippet) =>
        match loads(snippet)
        case Some(v) => v
        case None => loads(RepairSnippet(snippet)).GetOr(EmptyList)
  }

  /** The texts the extractor hands to `json.loads`, in order. */
  function Candidates(text: string): (cs: seq<string>)
    ensures 1 <= |cs| <= 3 && cs[0] == text
  {
    match Snippet(text)
    case None => [text]
    case Some(snippet) => [text, snippet, RepairSnippet(snippet)]
  }

  /** Reference reading of a try/except cascade: the value of the first
      candidate that parses. */
  function FirstParse(loads: JsonLoads, cs: seq<string>): (r: Option<Json>)
    ensures r.None? <==> forall k :: 0 <= k < |cs| ==> loads(cs[k]).None?
    ensures r.Some? ==> exists k :: 0 <= k < |cs| && loads(cs[k]) == r &&
                                    forall t :: 0 <= t < k ==> loads(cs[t]).None?
  {
    if cs == [] then None
    else if loads(cs[0]).Some? then loads(cs[0])
    else
      var r := FirstParse(loads, cs[1..]);
      assert forall k :: 0 < k < |cs| ==> cs[k] == cs[1..][k - 1];
      r
  }

  /** The extractor is a first-success-wins cascade over its candidates,
      falling back to `[]`. */
  lemma ExtractIsFirstSuccess(loads: JsonLoads, text: string)
    ensures SafeExtractJson(loads, text) == FirstParse(loads, Candidates(text)).GetOr(EmptyList)
  {
    var cs := Candidates(text);
    if loads(text).None? {
      match Snippet(text)
      case None =>
        assert cs[1..] == [];
      case Some(snippet) =>
        var repaired := RepairSnippet(snippet);
        assert cs[1..] == [snippet, repaired];
        assert [snippet, repaired][1..] == [repaired];
        assert [repaired][1..] == [];
        assert FirstParse(loads, [repaired]) == loads(repaired);
        assert FirstParse(loads, cs) == FirstParse(loads, [snippet, repaired]);
    }
  }

  /** Every value the extractor returns is `[]` or what `json.loads`
      returned for one of the candidates. */
  lemma ResultIsParsedOrEmpty(loads: JsonLoads, text: string)
    ensures var r := SafeExtractJson(loads, text);
            r == EmptyList || exists c :: c in Candidates(text) && loads(c) == Some(r)
  {
    ExtractIsFirstSuccess(loads, text);
  }

  /** Only the candidates are ever parsed: two parsers that agree on them
      give the same result. */
  lemma OnlyCandidatesMatter(loads1: JsonLoads, loads2: JsonLoads, text: string)
    requires forall c :: c in Candidates(text) ==> loads1(c) == loads2(c)
    ensures SafeExtractJson(loads1, text) == SafeExtractJson(loads2, text)
  {
    assert text in Candidates(text);
    if Snippet(text).Some? {
      var snippet := Snippet(text).value;
      assert snippet in Candidates(text) && RepairSnippet(snippet) in Candidates(text);
    }
  }

  /** Stage 1: a reply that parses as a whole is returned as parsed,
      whatever its JSON type; nothing is sliced or repaired. */
  lemma WholeTextWins(loads: JsonLoads, text: string)
    requires loads(text).Some?
    ensures SafeExtractJson(loads, text) == loads(text).value
  {
  }

  /** When the reply does not parse and no `[` comes before a `]`, the
      result is `[]`. */
  lemma NoBracketPairGivesEmpty(loads: JsonLoads, text: string)
    requires loads(text).None? && !HasBracketPair(text)
    ensures SafeExtractJson(loads, text) == EmptyList
  {
    SnippetExistsIff(text);
  }

  /** The candidate is exactly the bracketed part, whatever prose stands
      around it, provided the prose before holds no `[` and the prose after
      holds no `]`. */
  lemma {:induction false} SnippetOfFramed(p: string, b: string, q: string)
    requires Framed(p, b, q)
    ensures Snippet(p + b + q) == Some(b)
  {
    var text := p + b + q;
    var start, end := Find(text, '['), RFind(text, ']');
    assert text[|p|] == '[' && text[|p| + |b| - 1] == ']';
    assert text[..|p|] == p;
    assert start == |p|;
    assert text[|p| + |b|..] == q;
    assert end == |p| + |b| - 1;
    assert text[start..end + 1] == b;
  }

  /** Stage 2: when the whole reply does not parse but its bracketed part
      does, that value is returned and no repair is applied. */
  lemma FramedSnippetWins(loads: JsonLoads, p: string, b: string, q: string)
    requires Framed(p, b, q)
    requires loads(p + b + q).None? && loads(b).Some?
    ensures SafeExtractJson(loads, p + b + q) == loads(b).value
  {
    SnippetOfFramed(p, b, q);
  }

  /** Stage 3: when neither the reply nor its bracketed part parses, the
      result is the parse of the repaired part, or `[]` if that fails too. */
  lemma FramedSnippetRepaired(loads: JsonLoads, p: string, b: string, q: string)
    requires Framed(p, b, q)
    requires loads(p + b + q).None? && loads(b).None?
    ensures SafeExtractJson(loads, p + b + q) == loads(RepairSnippet(b)).GetOr(EmptyList)
  {
    SnippetOfFramed(p, b, q);
  }
}
