/** The first repair step of the extractor, `re.sub(r"(\w+):", r'"\1":', snippet)`
    (review_pr.py:60): every bare object key is wrapped in double quotes.

    `SubFrom` follows the regex engine: it tries a match at each position
    from left to right, the greedy `\w+` giving characters back one at a
    time until `:` follows; after a match it resumes behind the `:`, after a
    failed attempt it copies one character and tries the next position.
    `QuoteRunsFrom` reads the same rewrite one maximal run of word
    characters at a time, and `QuoteStream` in a single pass that holds
    back the current run; `QuoteKeysIsRunWise` and `QuoteKeysIsStream` prove
    the three equal. `\w` is taken as ASCII letters, digits and `_`. */
module KeyQuoting {
  import opened JsonValue
  import opened TextSearch

  /** The end (exclusive) of the run of word characters that starts at `i`. */
  function RunEnd(s: string, i: nat): (j: nat)
    requires i <= |s|
    ensures i <= j <= |s|
    ensures j == |s| || !IsWordChar(s[j])
    decreases |s| - i
  {
    if i < |s| && IsWordChar(s[i]) then RunEnd(s, i + 1) else i
  }

  /** The run from `i` to its end consists of word characters only. */
  lemma {:induction false} RunIsWord(s: string, i: nat)
    requires i <= |s|
    ensures forall k :: i <= k < RunEnd(s, i) ==> IsWordChar(s[k])
    decreases |s| - i
  {
    if i < |s| && IsWordChar(s[i]) {
      RunIsWord(s, i + 1);
    }
  }

  /** Backtracking of the greedy `\w+` that began at `i` and currently
      ends at `k` (exclusive): the index of the `:` that completes the
      match, if some length from `k - i` down to 1 is followed by `:`. */
  function Backtrack(s: string, i: nat, k: nat): (m: Option<nat>)
    requires i < k <= |s|
    ensures m.Some? ==> i < m.value <= k && m.value < |s| && s[m.value] == ':'
    decreases k
  {
    if k < |s| && s[k] == ':' then Some(k)
    else if k == i + 1 then None
    else Backtrack(s, i, k - 1)
  }

  /** One attempt of the pattern `(\w+):` at position `i`: the index of the
      matched `:`, or `None`. */
  function MatchAt(s: string, i: nat): (m: Option<nat>)
    requires i <= |s|
    ensures m.Some? ==> i < m.value < |s| && s[m.value] == ':'
  {
    if i < |s| && IsWordChar(s[i]) then Backtrack(s, i, RunEnd(s, i)) else None
  }

  /** `re.sub` from position `i` on: after a match the replacement `"\1":`
      is emitted and the scan resumes behind the matched `:`; after a failed
      attempt the character itself is copied and the scan tries the next
      position. */
  function SubFrom(s: string, i: nat): string
    requires i <= |s|
    decreases |s| - i
  {
    if i == |s| then []
    else match MatchAt(s, i)
      case Some(j) => ['"'] + s[i..j] + ['"', ':'] + SubFrom(s, j + 1)
      case None => [s[i]] + SubFrom(s, i + 1)
  }

  /** The key-quoting rewrite of review_pr.py:60. */
  function QuoteKeys(s: string): string {
    SubFrom(s, 0)
  }

  /** Reference reading of the rewrite from position `i` on: a maximal run of
      word characters followed by `:` is wrapped in double quotes, any other
      run and any other character is copied. */
  function QuoteRunsFrom(s: string, i: nat): string
    requires i <= |s|
    decreases |s| - i
  {
    if i == |s| then []
    else if !IsWordChar(s[i]) then [s[i]] + QuoteRunsFrom(s, i + 1)
    else
      var j := RunEnd(s, i);
      if j < |s| && s[j] == ':' then ['"'] + s[i..j] + ['"', ':'] + QuoteRunsFrom(s, j + 1)
      else s[i..j] + QuoteRunsFrom(s, j)
  }

  /** A third reading, in one pass over the text from position `i` on: the
      current run of word characters is held back in `run` until the next
      character decides whether it is a key (`:` follows) or copied text. */
  function QuoteStream(s: string, i: nat, run: string): string
    requires i <= |s|
    decreases |s| - i
  {
    if i == |s| then run
    else if IsWordChar(s[i]) then QuoteStream(s, i + 1, run + [s[i]])
    else if s[i] == ':' && run != [] then ['"'] + run + ['"', ':'] + QuoteStream(s, i + 1, [])
    else run + [s[i]] + QuoteStream(s, i + 1, [])
  }

  // ---------------------------------------------------------------------
  // The greedy match with backtracking succeeds exactly on a maximal run.

  /** Giving back characters of a run never helps: inside a run every
      character is a word character, hence not `:`. */
  lemma {:induction false} BacktrackOnlyAtRunEnd(s: string, i: nat, k: nat)
    requires i < k <= |s|
    requires forall t :: i <= t < k ==> IsWordChar(s[t])
    ensures Backtrack(s, i, k) == if k < |s| && s[k] == ':' then Some(k) else None
  {
    if k < |s| && s[k] == ':' {
    } else if k == i + 1 {
    } else {
      assert IsWordChar(s[k - 1]);
      BacktrackOnlyAtRunEnd(s, i, k - 1);
    }
  }

  /** An attempt at `i` matches exactly when `i` starts a run of word
      characters (possibly inside a longer one) whose end holds `:`. */
  lemma MatchAtIsMaximalRun(s: string, i: nat)
    requires i <= |s|
    ensures MatchAt(s, i) ==
      if i < |s| && IsWordChar(s[i]) && RunEnd(s, i) < |s| && s[RunEnd(s, i)] == ':'
      then Some(RunEnd(s, i)) else None
  {
    if i < |s| && IsWordChar(s[i]) {
      RunIsWord(s, i);
      BacktrackOnlyAtRunEnd(s, i, RunEnd(s, i));
    }
  }

  /** One step of the scan after a successful attempt. */
  lemma ScanMatchStep(s: string, i: nat, j: nat)
    requires i < |s| && MatchAt(s, i) == Some(j)
    ensures SubFrom(s, i) == ['"'] + s[i..j] + ['"', ':'] + SubFrom(s, j + 1)
  {
  }

  /** One step of the scan after a failed attempt. */
  lemma ScanCopyStep(s: string, i: nat)
    requires i < |s| && MatchAt(s, i).None?
    ensures SubFrom(s, i) == [s[i]] + SubFrom(s, i + 1)
  {
  }

  /** A nonempty slice is its first character followed by the rest. */
  lemma SliceStartsWith(s: string, i: nat, j: nat)
    requires i < j <= |s|
    ensures s[i..j] == [s[i]] + s[i + 1..j]
  {
  }

  /** Inside a run that is not followed by `:` every attempt fails. */
  lemma FailedAttempt(s: string, t: nat, j: nat)
    requires t < j <= |s| && RunEnd(s, t) == j && (j == |s| || s[j] != ':')
    ensures MatchAt(s, t).None?
  {
    MatchAtIsMaximalRun(s, t);
  }

  /** Inside a run that is not followed by `:` the attempt fails and the
      character is copied. */
  lemma FailedRunStep(s: string, t: nat, j: nat)
    requires t < j <= |s| && RunEnd(s, t) == j && (j == |s| || s[j] != ':')
    requires SubFrom(s, t + 1) == s[t + 1..j] + SubFrom(s, j)
    ensures SubFrom(s, t) == s[t..j] + SubFrom(s, j)
  {
    FailedAttempt(s, t, j);
    ScanCopyStep(s, t);
    SliceStartsWith(s, t, j);
  }

  /** When the run from `t` to `j` is not followed by `:`, the engine
      copies it one character at a time, every attempt failing. */
  lemma {:induction false} FailedRunIsCopied(s: string, t: nat, j: nat)
    requires t <= j <= |s| && RunEnd(s, t) == j && (j == |s| || s[j] != ':')
    ensures SubFrom(s, t) == s[t..j] + SubFrom(s, j)
    decreases j - t
  {
    if t < j {
      assert RunEnd(s, t + 1) == j;
      FailedRunIsCopied(s, t + 1, j);
      FailedRunStep(s, t, j);
    }
  }

  /** The reference copies a character that cannot start a key. */
  lemma CharStep(s: string, i: nat)
    requires i < |s| && !IsWordChar(s[i])
    ensures QuoteRunsFrom(s, i) == [s[i]] + QuoteRunsFrom(s, i + 1)
  {
  }

  /** The reference quotes a run followed by `:`. */
  lemma QuotedRunStep(s: string, i: nat, j: nat)
    requires i < |s| && IsWordChar(s[i]) && j == RunEnd(s, i) && j < |s| && s[j] == ':'
    ensures QuoteRunsFrom(s, i) == ['"'] + s[i..j] + ['"', ':'] + QuoteRunsFrom(s, j + 1)
  {
  }

  /** The reference copies a run not followed by `:`. */
  lemma CopiedRunStep(s: string, i: nat, j: nat)
    requires i < |s| && IsWordChar(s[i]) && j == RunEnd(s, i) && !(j < |s| && s[j] == ':')
    ensures QuoteRunsFrom(s, i) == s[i..j] + QuoteRunsFrom(s, j)
  {
  }

  /** A character that cannot start a key is copied by both readings. */
  lemma CopiedCharAgrees(s: string, i: nat)
    requires i < |s| && !IsWordChar(s[i])
    requires SubFrom(s, i + 1) == QuoteRunsFrom(s, i + 1)
    ensures SubFrom(s, i) == QuoteRunsFrom(s, i)
  {
    MatchAtIsMaximalRun(s, i);
    ScanCopyStep(s, i);
    CharStep(s, i);
  }

  /** A run followed by `:` is quoted by both readings. */
  lemma QuotedRunAgrees(s: string, i: nat, j: nat)
    requires i < |s| && IsWordChar(s[i]) && j == RunEnd(s, i) && j < |s| && s[j] == ':'
    requires SubFrom(s, j + 1) == QuoteRunsFrom(s, j + 1)
    ensures SubFrom(s, i) == QuoteRunsFrom(s, i)
  {
    MatchAtIsMaximalRun(s, i);
    ScanMatchStep(s, i, j);
    QuotedRunStep(s, i, j);
  }

  /** A run not followed by `:` is copied by both readings. */
  lemma CopiedRunAgrees(s: string, i: nat, j: nat)
    requires i < |s| && IsWordChar(s[i]) && j == RunEnd(s, i) && !(j < |s| && s[j] == ':')
    requires SubFrom(s, j) == QuoteRunsFrom(s, j)
    ensures SubFrom(s, i) == QuoteRunsFrom(s, i)
  {
    FailedRunIsCopied(s, i, j);
    CopiedRunStep(s, i, j);
  }

  /** The regex engine's scan equals the run-by-run reference. */
  lemma {:induction false} ScanIsRunWise(s: string, i: nat)
    requires i <= |s|
    ensures SubFrom(s, i) == QuoteRunsFrom(s, i)
    decreases |s| - i
  {
    if i < |s| {
      var j := RunEnd(s, i);
      if !IsWordChar(s[i]) {
        ScanIsRunWise(s, i + 1);
        CopiedCharAgrees(s, i);
      } else if j < |s| && s[j] == ':' {
        ScanIsRunWise(s, j + 1);
        QuotedRunAgrees(s, i, j);
      } else {
        ScanIsRunWise(s, j);
        CopiedRunAgrees(s, i, j);
      }
    }
  }

  /** The rewrite wraps each maximal run of word characters followed by
      `:` in double quotes and copies everything else. */
  lemma QuoteKeysIsRunWise(s: string)
    ensures QuoteKeys(s) == QuoteRunsFrom(s, 0)
  {
    ScanIsRunWise(s, 0);
  }

  // ---------------------------------------------------------------------
  // The one-pass reading agrees with the run-wise one.

  /** Holding back a word character of the current run. */
  lemma HoldWordStep(s: string, r: nat, i: nat)
    requires r <= |s| && r <= i < RunEnd(s, r)
    ensures QuoteStream(s, i, s[r..i]) == QuoteStream(s, i + 1, s[r..i + 1])
  {
    RunIsWord(s, r);
    assert s[r..i] + [s[i]] == s[r..i + 1];
  }

  /** The stream holds back the whole run before deciding about it. */
  lemma {:induction false} HoldRun(s: string, r: nat, i: nat)
    requires r <= |s| && r <= i <= RunEnd(s, r)
    ensures QuoteStream(s, i, s[r..i]) == QuoteStream(s, RunEnd(s, r), s[r..RunEnd(s, r)])
    decreases RunEnd(s, r) - i
  {
    if i < RunEnd(s, r) {
      HoldWordStep(s, r, i);
      HoldRun(s, r, i + 1);
    }
  }

  /** A run starting at `r` is held back from an empty run. */
  lemma HoldFromStart(s: string, r: nat)
    requires r <= |s|
    ensures QuoteStream(s, r, []) == QuoteStream(s, RunEnd(s, r), s[r..RunEnd(s, r)])
  {
    HoldRun(s, r, r);
    assert s[r..r] == [];
  }

  lemma StreamCopiesChar(s: string, r: nat)
    requires r < |s| && !IsWordChar(s[r])
    requires QuoteStream(s, r + 1, []) == QuoteRunsFrom(s, r + 1)
    ensures QuoteStream(s, r, []) == QuoteRunsFrom(s, r)
  {
    CharStep(s, r);
  }

  lemma StreamCopiesFinalRun(s: string, r: nat)
    requires r < |s| && IsWordChar(s[r]) && RunEnd(s, r) == |s|
    ensures QuoteStream(s, r, []) == QuoteRunsFrom(s, r)
  {
    HoldFromStart(s, r);
    CopiedRunStep(s, r, |s|);
  }

  lemma StreamQuotesKey(s: string, r: nat, j: nat)
    requires r < j < |s| && RunEnd(s, r) == j && IsWordChar(s[r]) && s[j] == ':'
    requires QuoteStream(s, j + 1, []) == QuoteRunsFrom(s, j + 1)
    ensures QuoteStream(s, r, []) == QuoteRunsFrom(s, r)
  {
    HoldFromStart(s, r);
    QuotedRunStep(s, r, j);
  }

  lemma StreamCopiesRun(s: string, r: nat, j: nat)
    requires r < j < |s| && RunEnd(s, r) == j && IsWordChar(s[r]) && s[j] != ':'
    requires QuoteStream(s, j + 1, []) == QuoteRunsFrom(s, j + 1)
    ensures QuoteStream(s, r, []) == QuoteRunsFrom(s, r)
  {
    HoldFromStart(s, r);
    CopiedRunStep(s, r, j);
    CharStep(s, j);
  }

  lemma {:induction false} StreamIsRunWise(s: string, r: nat)
    requires r <= |s|
    ensures QuoteStream(s, r, []) == QuoteRunsFrom(s, r)
    decreases |s| - r
  {
    if r < |s| {
      var j := RunEnd(s, r);
      if !IsWordChar(s[r]) {
        StreamIsRunWise(s, r + 1);
        StreamCopiesChar(s, r);
      } else if j == |s| {
        StreamCopiesFinalRun(s, r);
      } else if s[j] == ':' {
        StreamIsRunWise(s, j + 1);
        StreamQuotesKey(s, r, j);
      } else {
        StreamIsRunWise(s, j + 1);
        StreamCopiesRun(s, r, j);
      }
    }
  }

  /** Behind a prefix `a`, the stream over `a + b` is the stream over `b`. */
  lemma {:induction false} StreamShift(a: string, b: string, k: nat, run: string)
    requires k <= |b|
    ensures QuoteStream(a + b, |a| + k, run) == QuoteStream(b, k, run)
    decreases |b| - k
  {
    if k < |b| {
      assert (a + b)[|a| + k] == b[k];
      if IsWordChar(b[k]) {
        StreamShift(a, b, k + 1, run + [b[k]]);
      } else {
        StreamShift(a, b, k + 1, []);
      }
    }
  }

  /** The last character of `a` is not a word character: it flushes the
      held-back run, and what follows is the stream over `b`. */
  lemma StreamConcatLast(a: string, b: string, run: string)
    requires a != [] && !IsWordChar(a[|a| - 1])
    ensures QuoteStream(a + b, |a| - 1, run) == QuoteStream(a, |a| - 1, run) + QuoteStream(b, 0, [])
  {
    var i := |a| - 1;
    assert (a + b)[i] == a[i];
    StreamShift(a, b, 0, []);
    var head := if a[i] == ':' && run != [] then ['"'] + run + ['"', ':'] else run + [a[i]];
    assert QuoteStream(a, i, run) == head + [];
    assert QuoteStream(a + b, i, run) == head + QuoteStream(b, 0, []);
  }

  lemma StreamConcatWord(a: string, b: string, i: nat, run: string)
    requires i < |a| - 1 && IsWordChar(a[i])
    requires QuoteStream(a + b, i + 1, run + [a[i]]) == QuoteStream(a, i + 1, run + [a[i]]) + QuoteStream(b, 0, [])
    ensures QuoteStream(a + b, i, run) == QuoteStream(a, i, run) + QuoteStream(b, 0, [])
  {
    assert (a + b)[i] == a[i];
  }

  lemma StreamConcatOther(a: string, b: string, i: nat, run: string)
    requires i < |a| - 1 && !IsWordChar(a[i])
    requires QuoteStream(a + b, i + 1, []) == QuoteStream(a, i + 1, []) + QuoteStream(b, 0, [])
    ensures QuoteStream(a + b, i, run) == QuoteStream(a, i, run) + QuoteStream(b, 0, [])
  {
    assert (a + b)[i] == a[i];
    var head := if a[i] == ':' && run != [] then ['"'] + run + ['"', ':'] else run + [a[i]];
    assert QuoteStream(a, i, run) == head + QuoteStream(a, i + 1, []);
    assert QuoteStream(a + b, i, run) == head + QuoteStream(a + b, i + 1, []);
  }

  /** A non-word character ends the held-back run, so the stream splits
      behind the last character of `a` when that is not a word character. */
  lemma {:induction false} StreamConcat(a: string, b: string, i: nat, run: string)
    requires i < |a| && !IsWordChar(a[|a| - 1])
    ensures QuoteStream(a + b, i, run) == QuoteStream(a, i, run) + QuoteStream(b, 0, [])
    decreases |a| - i
  {
    if i == |a| - 1 {
      StreamConcatLast(a, b, run);
    } else if IsWordChar(a[i]) {
      StreamConcat(a, b, i + 1, run + [a[i]]);
      StreamConcatWord(a, b, i, run);
    } else {
      StreamConcat(a, b, i + 1, []);
      StreamConcatOther(a, b, i, run);
    }
  }

  /** The rewrite is the one-pass reading. */
  lemma QuoteKeysIsStream(s: string)
    ensures QuoteKeys(s) == QuoteStream(s, 0, [])
  {
    QuoteKeysIsRunWise(s);
    StreamIsRunWise(s, 0);
  }

  /** The rewrite never looks past a non-word character, so a text that
      splits right after one is rewritten part by part. */
  lemma QuoteKeysConcat(a: string, b: string)
    requires a == [] || !IsWordChar(a[|a| - 1])
    ensures QuoteKeys(a + b) == QuoteKeys(a) + QuoteKeys(b)
  {
    if a == [] {
      assert a + b == b;
      assert QuoteKeys(a) == [];
    } else {
      QuoteKeysIsStream(a + b);
      QuoteKeysIsStream(a);
      QuoteKeysIsStream(b);
      StreamConcat(a, b, 0, []);
    }
  }
}
