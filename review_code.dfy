/** The two pure fragments of `review_code` (review_pr.py:69-124): the
    early exit on a missing diff (review_pr.py:70-71) and the filter that
    keeps the model's findings about the file under review
    (review_pr.py:115).

    As written, review_pr.py:113 overwrites the extracted findings with a
    call of the undefined name `safe`; the resulting `NameError` is caught
    at review_pr.py:117, so the filter is never reached there. The filter
    is modelled over the extractor's value of review_pr.py:111, the
    evident intent. */
module ReviewCode {
  import opened JsonValue

  /** The text `get_pr_diff` returns in place of a diff when git fails. */
  const DiffErrorPrefix: string := "Error getting diff:"

  /** `not diff or diff.startswith("Error getting diff:")`. */
  predicate ReturnsEarly(diff: string) {
    diff == [] || DiffErrorPrefix <= diff
  }

  /** Every error report of `get_pr_diff`, whatever the message, makes the
      review return `[]` at once; so does an empty diff. */
  lemma ErrorReportReturnsEarly(message: string)
    ensures ReturnsEarly("Error getting diff: " + message)
    ensures ReturnsEarly([])
  {
    assert ("Error getting diff: " + message)[..|DiffErrorPrefix|] == DiffErrorPrefix;
  }

  /** A diff that does not begin with `E` is reviewed; in particular every
      unified diff, which begins with `diff --git`. */
  lemma DiffIsReviewed(diff: string)
    requires diff != [] && diff[0] != 'E'
    ensures !ReturnsEarly(diff)
  {
    assert DiffErrorPrefix[0] == 'E';
  }

  /** The guard looks at the prefix only: a text that returns early still
      does so whatever is appended to it, unless it was empty. */
  lemma GuardIgnoresTail(diff: string, tail: string)
    requires diff != [] && ReturnsEarly(diff)
    ensures ReturnsEarly(diff + tail)
  {
    assert (diff + tail)[..|DiffErrorPrefix|] == diff[..|DiffErrorPrefix|];
  }

  /** `i.get("file") == file_path` on a dict: the item names the file. */
  predicate BelongsTo(item: Json, filePath: string) {
    item.Obj? && "file" in item.fields && item.fields["file"] == Str(filePath)
  }

  /** `[i for i in items if i.get("file") == file_path]` over a list:
      `None` stands for the `AttributeError` raised by `.get` on an
      element that is not a dict. */
  function FilterItems(items: seq<Json>, filePath: string): (r: Option<seq<Json>>)
    ensures r.None? <==> exists k :: 0 <= k < |items| && !items[k].Obj?
    ensures r.Some? ==> |r.value| <= |items|
    ensures r.Some? ==> forall x :: x in r.value ==> x in items && BelongsTo(x, filePath)
  {
    if items == [] then Some([])
    else if !items[0].Obj? then None
    else
      var rest := FilterItems(items[1..], filePath);
      assert forall k :: 0 < k < |items| ==> items[k] == items[1..][k - 1];
      match rest
      case None => None
      case Some(kept) =>
        Some(if BelongsTo(items[0], filePath) then [items[0]] + kept else kept)
  }

  /** The filter over the extractor's value, with Python's iteration: a
      list yields its elements, a dict its keys and a string its characters
      (both strings, whose `.get` raises), and any other value is not
      iterable (`TypeError`). */
  function FilterForFile(v: Json, filePath: string): (r: Option<seq<Json>>)
    ensures v.Arr? ==> r == FilterItems(v.items, filePath)
    ensures v.Obj? ==> (r.Some? <==> v.fields == map[])
    ensures v.Str? ==> (r.Some? <==> v.s == [])
    ensures !(v.Arr? || v.Obj? || v.Str?) ==> r.None?
    ensures r.Some? ==> v.Arr? || r.value == []
  {
    match v
    case Arr(items) => FilterItems(items, filePath)
    case Obj(fields) => if fields == map[] then Some([]) else None
    case Str(s) => if s == [] then Some([]) else None
    case _ => None
  }

  /** One step of the filter: a dict in front is kept or dropped, and the
      rest is filtered on. */
  lemma FilterCons(item: Json, rest: seq<Json>, filePath: string)
    requires item.Obj? && FilterItems(rest, filePath).Some?
    ensures FilterItems([item] + rest, filePath)
            == Some((if BelongsTo(item, filePath) then [item] else []) + FilterItems(rest, filePath).value)
  {
    assert ([item] + rest)[0] == item && ([item] + rest)[1..] == rest;
    var kept := FilterItems(rest, filePath).value;
    assert [] + kept == kept;
  }

  /** Filtering distributes over concatenation: the kept items keep their
      relative order. */
  lemma {:induction false} FilterConcat(a: seq<Json>, b: seq<Json>, filePath: string)
    requires FilterItems(a, filePath).Some? && FilterItems(b, filePath).Some?
    ensures FilterItems(a + b, filePath)
            == Some(FilterItems(a, filePath).value + FilterItems(b, filePath).value)
  {
    if a == [] {
      assert a + b == b;
      assert [] + FilterItems(b, filePath).value == FilterItems(b, filePath).value;
    } else {
      var rest := a[1..];
      assert a == [a[0]] + rest && a + b == [a[0]] + (rest + b);
      assert a[0].Obj? && FilterItems(rest, filePath).Some?;
      FilterConcat(rest, b, filePath);
      FilterCons(a[0], rest, filePath);
      FilterCons(a[0], rest + b, filePath);
      var head := if BelongsTo(a[0], filePath) then [a[0]] else [];
      var ka, kb := FilterItems(rest, filePath).value, FilterItems(b, filePath).value;
      assert head + (ka + kb) == (head + ka) + kb;
    }
  }

  /** A single item is kept exactly when it belongs to the file. */
  lemma FilterOne(item: Json, filePath: string)
    requires item.Obj?
    ensures BelongsTo(item, filePath) ==> FilterItems([item], filePath) == Some([item])
    ensures !BelongsTo(item, filePath) ==> FilterItems([item], filePath) == Some([])
  {
    assert [item][1..] == [];
    assert FilterItems([item][1..], filePath) == Some([]);
    assert [item] + [] == [item];
  }

  /** The filter keeps every item of the file as often as it occurs and
      nothing else. */
  lemma {:induction false} FilterCounts(items: seq<Json>, filePath: string, x: Json)
    requires FilterItems(items, filePath).Some?
    ensures multiset(FilterItems(items, filePath).value)[x]
            == if BelongsTo(x, filePath) then multiset(items)[x] else 0
  {
    if items != [] {
      assert items == [items[0]] + items[1..];
      assert FilterItems(items[1..], filePath).Some?;
      FilterCounts(items[1..], filePath, x);
    }
  }

  /** When every item belongs to the file, the filter keeps the list as it
      is. */
  lemma {:induction false} FilterKeepsAll(items: seq<Json>, filePath: string)
    requires forall k :: 0 <= k < |items| ==> BelongsTo(items[k], filePath)
    ensures FilterItems(items, filePath) == Some(items)
  {
    if items != [] {
      assert forall k :: 0 < k < |items| ==> items[k] == items[1..][k - 1];
      FilterKeepsAll(items[1..], filePath);
      assert items == [items[0]] + items[1..];
    }
  }
}
