/** What the key-quoting rewrite of review_pr.py:60 promises: no bare key
    survives, a text without bare keys (in particular without any `:`) is
    left alone, the rewrite is idempotent, and it only ever inserts double
    quotes. */
module KeyQuotingLaws {
  import opened TextSearch
  import opened KeyQuoting

  /** No word character stands right before a `:`: no bare key is left. */
  predicate NoBareKey(s: string) {
    forall k :: 0 < k < |s| && s[k] == ':' ==> !IsWordChar(s[k - 1])
  }

  /** `s` with every double quote deleted. */
  function DropDoubleQuotes(s: string): string {
    if s == [] then []
    else (if s[0] == '"' then [] else [s[0]]) + DropDoubleQuotes(s[1..])
  }

  lemma NoBareKeyConcat(a: string, b: string)
    requires NoBareKey(a) && NoBareKey(b)
    requires a != [] && b != [] ==> !IsWordChar(a[|a| - 1]) || b[0] != ':'
    ensures NoBareKey(a + b)
  {
    forall k | 0 < k < |a + b| && (a + b)[k] == ':'
      ensures !IsWordChar((a + b)[k - 1])
    {
      if k > |a| {
        assert (a + b)[k] == b[k - |a|] && (a + b)[k - 1] == b[k - 1 - |a|];
      }
    }
  }

  /** In a text without bare keys no run of word characters is followed
      by `:`. */
  lemma RunNotFollowedByColon(s: string, i: nat)
    requires i < |s| && IsWordChar(s[i]) && NoBareKey(s)
    ensures !(RunEnd(s, i) < |s| && s[RunEnd(s, i)] == ':')
  {
    var j := RunEnd(s, i);
    RunIsWord(s, i);
    if j < |s| {
      assert IsWordChar(s[j - 1]);
    }
  }

  /** A text in which no word character precedes a `:` is left as it is. */
  lemma {:induction false} NoBareKeyRunsUnchanged(s: string, i: nat)
    requires i <= |s| && NoBareKey(s)
    ensures QuoteRunsFrom(s, i) == s[i..]
    decreases |s| - i
  {
    if i < |s| {
      if !IsWordChar(s[i]) {
        NoBareKeyRunsUnchanged(s, i + 1);
        CharStep(s, i);
        assert s[i..] == [s[i]] + s[i + 1..];
      } else {
        var j := RunEnd(s, i);
        RunNotFollowedByColon(s, i);
        NoBareKeyRunsUnchanged(s, j);
        CopiedRunStep(s, i, j);
        assert s[i..] == s[i..j] + s[j..];
      }
    }
  }

  /** Without bare keys the rewrite is the identity. */
  lemma NoBareKeyUnchanged(s: string)
    requires NoBareKey(s)
    ensures QuoteKeys(s) == s
  {
    QuoteKeysIsRunWise(s);
    NoBareKeyRunsUnchanged(s, 0);
  }

  /** A text without any `:` is left as it is. */
  lemma NoColonUnchanged(s: string)
    requires ':' !in s
    ensures QuoteKeys(s) == s
  {
    assert NoBareKey(s) by {
      forall k | 0 < k < |s| ensures s[k] != ':' {
        assert s[k] in s;
      }
    }
    NoBareKeyUnchanged(s);
  }

  /** A run of word characters contains no `:`. */
  lemma RunHasNoBareKey(s: string, i: nat)
    requires i <= |s|
    ensures NoBareKey(s[i..RunEnd(s, i)])
  {
    RunIsWord(s, i);
    var run := s[i..RunEnd(s, i)];
    forall k | 0 < k < |run| ensures run[k] != ':' {
      assert IsWordChar(s[i + k]);
    }
  }

  /** What the reference emits for the text from `i` on: no bare key, and
      the first character of the input unless a quote opens a key. */
  predicate RunsCleanFrom(s: string, i: nat)
    requires i <= |s|
  {
    && NoBareKey(QuoteRunsFrom(s, i))
    && (i < |s| ==>
          && QuoteRunsFrom(s, i) != []
          && QuoteRunsFrom(s, i)[0] ==
               (if IsWordChar(s[i]) && RunEnd(s, i) < |s| && s[RunEnd(s, i)] == ':' then '"' else s[i]))
  }

  lemma CharKeepsClean(s: string, i: nat)
    requires i < |s| && !IsWordChar(s[i]) && RunsCleanFrom(s, i + 1)
    ensures RunsCleanFrom(s, i)
  {
    CharStep(s, i);
    NoBareKeyConcat([s[i]], QuoteRunsFrom(s, i + 1));
  }

  lemma QuotedRunKeepsClean(s: string, i: nat, j: nat)
    requires i < |s| && IsWordChar(s[i]) && j == RunEnd(s, i) && j < |s| && s[j] == ':'
    requires RunsCleanFrom(s, j + 1)
    ensures RunsCleanFrom(s, i)
  {
    QuotedRunStep(s, i, j);
    RunHasNoBareKey(s, i);
    var key := ['"'] + s[i..j] + ['"', ':'];
    assert NoBareKey(key);
    NoBareKeyConcat(key, QuoteRunsFrom(s, j + 1));
  }

  lemma CopiedRunKeepsClean(s: string, i: nat, j: nat)
    requires i < |s| && IsWordChar(s[i]) && j == RunEnd(s, i) && !(j < |s| && s[j] == ':')
    requires RunsCleanFrom(s, j)
    ensures RunsCleanFrom(s, i)
  {
    CopiedRunStep(s, i, j);
    RunHasNoBareKey(s, i);
    NoBareKeyConcat(s[i..j], QuoteRunsFrom(s, j));
  }

  lemma {:induction false} QuoteRunsNoBareKey(s: string, i: nat)
    requires i <= |s|
    ensures RunsCleanFrom(s, i)
    decreases |s| - i
  {
    if i < |s| {
      var j := RunEnd(s, i);
      if !IsWordChar(s[i]) {
        QuoteRunsNoBareKey(s, i + 1);
        CharKeepsClean(s, i);
      } else if j < |s| && s[j] == ':' {
        QuoteRunsNoBareKey(s, j + 1);
        QuotedRunKeepsClean(s, i, j);
      } else {
        QuoteRunsNoBareKey(s, j);
        CopiedRunKeepsClean(s, i, j);
      }
    }
  }

  /** After the rewrite no word character stands right before a `:`. */
  lemma QuoteKeysLeavesNoBareKey(s: string)
    ensures NoBareKey(QuoteKeys(s))
  {
    QuoteKeysIsRunWise(s);
    QuoteRunsNoBareKey(s, 0);
  }

  /** Running the rewrite twice is the same as running it once. */
  lemma QuoteKeysIdempotent(s: string)
    ensures QuoteKeys(QuoteKeys(s)) == QuoteKeys(s)
  {
    QuoteKeysLeavesNoBareKey(s);
    NoBareKeyUnchanged(QuoteKeys(s));
  }

  lemma {:induction false} DropDoubleQuotesConcat(a: string, b: string)
    ensures DropDoubleQuotes(a + b) == DropDoubleQuotes(a) + DropDoubleQuotes(b)
  {
    if a == [] {
      assert a + b == b;
    } else {
      assert (a + b)[1..] == a[1..] + b;
      DropDoubleQuotesConcat(a[1..], b);
    }
  }

  /** Quoting a key adds double quotes and nothing else. */
  lemma QuotedKeyDrop(key: string, out: string, rest: string)
    requires DropDoubleQuotes(out) == DropDoubleQuotes(rest)
    ensures DropDoubleQuotes(['"'] + key + ['"', ':'] + out) == DropDoubleQuotes(key + [':'] + rest)
  {
    DropDoubleQuotesConcat(['"'] + key + ['"', ':'], out);
    DropDoubleQuotesConcat(['"'] + key, ['"', ':']);
    DropDoubleQuotesConcat(['"'], key);
    assert DropDoubleQuotes(['"', ':']) == [':'];
    DropDoubleQuotesConcat(key + [':'], rest);
    DropDoubleQuotesConcat(key, [':']);
  }

  /** Copying a run adds nothing. */
  lemma CopiedRunDrop(run: string, out: string, rest: string)
    requires DropDoubleQuotes(out) == DropDoubleQuotes(rest)
    ensures DropDoubleQuotes(run + out) == DropDoubleQuotes(run + rest)
  {
    DropDoubleQuotesConcat(run, out);
    DropDoubleQuotesConcat(run, rest);
  }

  /** The reference output from `i` on equals the input from `i` on once
      double quotes are deleted. */
  predicate ErasesToInputFrom(s: string, i: nat)
    requires i <= |s|
  {
    DropDoubleQuotes(QuoteRunsFrom(s, i)) == DropDoubleQuotes(s[i..])
  }

  /** The suffix from `i` splits at `j`, and at the character there. */
  lemma SuffixSplits(s: string, i: nat, j: nat)
    requires i <= j <= |s|
    ensures s[i..] == s[i..j] + s[j..]
    ensures j < |s| ==> s[i..] == s[i..j] + [s[j]] + s[j + 1..]
  {
    if j < |s| {
      assert s[j..] == [s[j]] + s[j + 1..];
    }
  }

  lemma CharErases(s: string, i: nat)
    requires i < |s| && !IsWordChar(s[i]) && ErasesToInputFrom(s, i + 1)
    ensures ErasesToInputFrom(s, i)
  {
    CharStep(s, i);
    SuffixSplits(s, i, i);
    CopiedRunDrop([s[i]], QuoteRunsFrom(s, i + 1), s[i + 1..]);
  }

  lemma QuotedRunErases(s: string, i: nat, j: nat)
    requires i < |s| && IsWordChar(s[i]) && j == RunEnd(s, i) && j < |s| && s[j] == ':'
    requires ErasesToInputFrom(s, j + 1)
    ensures ErasesToInputFrom(s, i)
  {
    QuotedRunStep(s, i, j);
    SuffixSplits(s, i, j);
    QuotedKeyDrop(s[i..j], QuoteRunsFrom(s, j + 1), s[j + 1..]);
  }

  lemma CopiedRunErases(s: string, i: nat, j: nat)
    requires i < |s| && IsWordChar(s[i]) && j == RunEnd(s, i) && !(j < |s| && s[j] == ':')
    requires ErasesToInputFrom(s, j)
    ensures ErasesToInputFrom(s, i)
  {
    CopiedRunStep(s, i, j);
    SuffixSplits(s, i, j);
    CopiedRunDrop(s[i..j], QuoteRunsFrom(s, j), s[j..]);
  }

  lemma {:induction false} RunsOnlyAddDoubleQuotes(s: string, i: nat)
    requires i <= |s|
    ensures ErasesToInputFrom(s, i)
    decreases |s| - i
  {
    if i < |s| {
      var j := RunEnd(s, i);
      if !IsWordChar(s[i]) {
        RunsOnlyAddDoubleQuotes(s, i + 1);
        CharErases(s, i);
      } else if j < |s| && s[j] == ':' {
        RunsOnlyAddDoubleQuotes(s, j + 1);
        QuotedRunErases(s, i, j);
      } else {
        RunsOnlyAddDoubleQuotes(s, j);
        CopiedRunErases(s, i, j);
      }
    }
  }

  /** The rewrite inserts double quotes and nothing else: with every double
      quote deleted, input and output are the same text. */
  lemma QuoteKeysOnlyAddsDoubleQuotes(s: string)
    ensures DropDoubleQuotes(QuoteKeys(s)) == DropDoubleQuotes(s)
  {
    QuoteKeysIsRunWise(s);
    RunsOnlyAddDoubleQuotes(s, 0);
    assert s[0..] == s;
  }
}
