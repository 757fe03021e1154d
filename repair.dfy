/** The last-resort repair of a bracketed snippet (review_pr.py:60-61):
    quote bare keys, then turn every single quote into a double quote. */
module Repair {
  import opened TextSearch
  import opened KeyQuoting
  import opened KeyQuotingLaws

  /** `s.replace("'", '"')` (review_pr.py:61): every single quote becomes
      a double quote, every other character stays where it is. */
  function NormalizeQuotes(s: string): (r: string)
    ensures |r| == |s|
    ensures '\'' !in r
    ensures forall k :: 0 <= k < |s| && s[k] == '\'' ==> r[k] == '"'
    ensures forall k :: 0 <= k < |s| && s[k] != '\'' ==> r[k] == s[k]
  {
    seq(|s|, k requires 0 <= k < |s| => if s[k] == '\'' then '"' else s[k])
  }

  /** The repaired snippet handed to the third parse (review_pr.py:60-61):
      key quoting first, quote normalisation second. */
  function RepairSnippet(snippet: string): string {
    NormalizeQuotes(QuoteKeys(snippet))
  }

  /** A text without single quotes is left as it is. */
  lemma NormalizeQuotesWithoutSingleQuote(s: string)
    requires '\'' !in s
    ensures NormalizeQuotes(s) == s
  {
    assert forall k :: 0 <= k < |s| ==> s[k] != '\'' by {
      forall k | 0 <= k < |s| ensures s[k] != '\'' {
        assert s[k] in s;
      }
    }
  }

  /** Quote normalisation keeps every `:` and every word character where
      it was, so it cannot create a bare key. */
  lemma NormalizeQuotesKeepsNoBareKey(s: string)
    requires NoBareKey(s)
    ensures NoBareKey(NormalizeQuotes(s))
  {
    var r := NormalizeQuotes(s);
    forall k | 0 < k < |r| && r[k] == ':' ensures !IsWordChar(r[k - 1]) {
      assert s[k] == ':';
    }
  }

  /** The repaired text has no single quote and no bare key left. */
  lemma RepairIsClean(snippet: string)
    ensures '\'' !in RepairSnippet(snippet)
    ensures NoBareKey(RepairSnippet(snippet))
  {
    QuoteKeysLeavesNoBareKey(snippet);
    NormalizeQuotesKeepsNoBareKey(QuoteKeys(snippet));
  }

  /** Repairing an already repaired text changes nothing. */
  lemma RepairIdempotent(snippet: string)
    ensures RepairSnippet(RepairSnippet(snippet)) == RepairSnippet(snippet)
  {
    var once := RepairSnippet(snippet);
    RepairIsClean(snippet);
    NoBareKeyUnchanged(once);
    NormalizeQuotesWithoutSingleQuote(once);
  }

  /** Quote normalisation works character by character, so it distributes
      over concatenation. */
  lemma NormalizeQuotesConcat(a: string, b: string)
    ensures NormalizeQuotes(a + b) == NormalizeQuotes(a) + NormalizeQuotes(b)
  {
    var l, r := NormalizeQuotes(a + b), NormalizeQuotes(a) + NormalizeQuotes(b);
    forall k | 0 <= k < |l| ensures l[k] == r[k] {
      if k < |a| {
        assert (a + b)[k] == a[k];
      } else {
        assert (a + b)[k] == b[k - |a|];
      }
    }
  }

  /** A snippet that splits right after a non-word character is repaired
      part by part. */
  lemma RepairConcat(a: string, b: string)
    requires a == [] || !IsWordChar(a[|a| - 1])
    ensures RepairSnippet(a + b) == RepairSnippet(a) + RepairSnippet(b)
  {
    QuoteKeysConcat(a, b);
    NormalizeQuotesConcat(QuoteKeys(a), QuoteKeys(b));
  }

  // ---------------------------------------------------------------------
  // The order of the two repair steps does not matter: quote normalisation
  // neither creates nor removes word characters or colons.

  lemma {:induction false} NormalizeQuotesKeepsRuns(s: string, i: nat)
    requires i <= |s|
    ensures RunEnd(NormalizeQuotes(s), i) == RunEnd(s, i)
    decreases |s| - i
  {
    if i < |s| && IsWordChar(s[i]) {
      NormalizeQuotesKeepsRuns(s, i + 1);
    }
  }

  lemma NormalizeQuotesSlice(s: string, i: nat, j: nat)
    requires i <= j <= |s|
    ensures NormalizeQuotes(s)[i..j] == NormalizeQuotes(s[i..j])
  {
  }

  lemma CommuteOnChar(s: string, i: nat)
    requires i < |s| && !IsWordChar(s[i])
    requires QuoteRunsFrom(NormalizeQuotes(s), i + 1) == NormalizeQuotes(QuoteRunsFrom(s, i + 1))
    ensures QuoteRunsFrom(NormalizeQuotes(s), i) == NormalizeQuotes(QuoteRunsFrom(s, i))
  {
    var t := NormalizeQuotes(s);
    CharStep(s, i);
    CharStep(t, i);
    NormalizeQuotesConcat([s[i]], QuoteRunsFrom(s, i + 1));
  }

  /** Normalising a quoted key normalises the key and what follows it. */
  lemma NormalizeQuotedKey(key: string, rest: string)
    ensures NormalizeQuotes(['"'] + key + ['"', ':'] + rest)
            == ['"'] + NormalizeQuotes(key) + ['"', ':'] + NormalizeQuotes(rest)
  {
    NormalizeQuotesConcat(['"'] + key + ['"', ':'], rest);
    NormalizeQuotesConcat(['"'] + key, ['"', ':']);
    NormalizeQuotesConcat(['"'], key);
    assert NormalizeQuotes(['"']) == ['"'];
    assert NormalizeQuotes(['"', ':']) == ['"', ':'];
  }

  lemma CommuteOnKey(s: string, i: nat, j: nat)
    requires i < |s| && IsWordChar(s[i]) && j == RunEnd(s, i) && j < |s| && s[j] == ':'
    requires QuoteRunsFrom(NormalizeQuotes(s), j + 1) == NormalizeQuotes(QuoteRunsFrom(s, j + 1))
    ensures QuoteRunsFrom(NormalizeQuotes(s), i) == NormalizeQuotes(QuoteRunsFrom(s, i))
  {
    var t := NormalizeQuotes(s);
    NormalizeQuotesKeepsRuns(s, i);
    QuotedRunStep(s, i, j);
    QuotedRunStep(t, i, j);
    NormalizeQuotesSlice(s, i, j);
    NormalizeQuotedKey(s[i..j], QuoteRunsFrom(s, j + 1));
  }

  lemma CommuteOnRun(s: string, i: nat, j: nat)
    requires i < |s| && IsWordChar(s[i]) && j == RunEnd(s, i) && !(j < |s| && s[j] == ':')
    requires QuoteRunsFrom(NormalizeQuotes(s), j) == NormalizeQuotes(QuoteRunsFrom(s, j))
    ensures QuoteRunsFrom(NormalizeQuotes(s), i) == NormalizeQuotes(QuoteRunsFrom(s, i))
  {
    var t := NormalizeQuotes(s);
    NormalizeQuotesKeepsRuns(s, i);
    CopiedRunStep(s, i, j);
    CopiedRunStep(t, i, j);
    NormalizeQuotesSlice(s, i, j);
    NormalizeQuotesConcat(s[i..j], QuoteRunsFrom(s, j));
  }

  lemma {:induction false} QuoteRunsCommute(s: string, i: nat)
    requires i <= |s|
    ensures QuoteRunsFrom(NormalizeQuotes(s), i) == NormalizeQuotes(QuoteRunsFrom(s, i))
    decreases |s| - i
  {
    if i < |s| {
      var j := RunEnd(s, i);
      if !IsWordChar(s[i]) {
        QuoteRunsCommute(s, i + 1);
        CommuteOnChar(s, i);
      } else if j < |s| && s[j] == ':' {
        QuoteRunsCommute(s, j + 1);
        CommuteOnKey(s, i, j);
      } else {
        QuoteRunsCommute(s, j);
        CommuteOnRun(s, i, j);
      }
    }
  }

  /** Normalising the quotes first and quoting the keys second gives the
      same repaired text. */
  lemma RepairStepsCommute(snippet: string)
    ensures QuoteKeys(NormalizeQuotes(snippet)) == RepairSnippet(snippet)
  {
    QuoteKeysIsRunWise(snippet);
    QuoteKeysIsRunWise(NormalizeQuotes(snippet));
    QuoteRunsCommute(snippet, 0);
  }
}
