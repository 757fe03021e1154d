/** The string primitives the extractor relies on: Python's `str.find`,
    `str.rfind` for a single character, and the regex class `\w`. */
module TextSearch {

  /** The regex class `\w`, restricted to ASCII. */
  predicate IsWordChar(c: char) {
    ('A' <= c <= 'Z') || ('a' <= c <= 'z') || ('0' <= c <= '9') || c == '_'
  }

  /** The lowest index from `i` on holding `c`, or -1 when there is none. */
  function FindFrom(s: string, c: char, i: nat): (r: int)
    requires i <= |s|
    ensures r == -1 || i <= r < |s|
    ensures r == -1 ==> forall k :: i <= k < |s| ==> s[k] != c
    ensures r >= 0 ==> s[r] == c && forall k :: i <= k < r ==> s[k] != c
    decreases |s| - i
  {
    if i == |s| then -1
    else if s[i] == c then i
    else FindFrom(s, c, i + 1)
  }

  /** `s.find(c)`: the lowest index holding `c`, or -1 when there is none. */
  function Find(s: string, c: char): (r: int)
    ensures -1 <= r < |s|
    ensures r == -1 ==> forall k :: 0 <= k < |s| ==> s[k] != c
    ensures r >= 0 ==> s[r] == c && forall k :: 0 <= k < r ==> s[k] != c
  {
    FindFrom(s, c, 0)
  }

  /** The highest index below `i` holding `c`, or -1 when there is none. */
  function RFindBelow(s: string, c: char, i: nat): (r: int)
    requires i <= |s|
    ensures -1 <= r < i
    ensures r == -1 ==> forall k :: 0 <= k < i ==> s[k] != c
    ensures r >= 0 ==> s[r] == c && forall k :: r < k < i ==> s[k] != c
  {
    if i == 0 then -1
    else if s[i - 1] == c then i - 1
    else RFindBelow(s, c, i - 1)
  }

  /** `s.rfind(c)`: the highest index holding `c`, or -1 when there is none. */
  function RFind(s: string, c: char): (r: int)
    ensures -1 <= r < |s|
    ensures r == -1 ==> forall k :: 0 <= k < |s| ==> s[k] != c
    ensures r >= 0 ==> s[r] == c && forall k :: r < k < |s| ==> s[k] != c
  {
    RFindBelow(s, c, |s|)
  }

  /** Both searches answer -1 exactly when the character is absent. */
  lemma AbsentIff(s: string, c: char)
    ensures Find(s, c) == -1 <==> c !in s
    ensures RFind(s, c) == -1 <==> c !in s
  {
    if c in s {
      var k :| 0 <= k < |s| && s[k] == c;
    }
  }
}
