/**
 * String ordering as the pages use it through `localeCompare`. The collation is
 * locale-dependent, so it is a parameter: `le(a, b)` holds when
 * `a.localeCompare(b) <= 0`, and it is assumed to be a total order in which only
 * equal strings compare as equal.
 */
module Collation {

  ghost predicate IsTotalOrder(le: (string, string) -> bool)
  {
    && (forall a, b :: le(a, b) || le(b, a))
    && (forall a, b :: le(a, b) && le(b, a) ==> a == b)
    && (forall a, b, c :: le(a, b) && le(b, c) ==> le(a, c))
  }

  /** Ascending under `le`: every element is at or before every later one. */
  predicate Sorted(s: seq<string>, le: (string, string) -> bool)
  {
    forall i, j :: 0 <= i < j < |s| ==> le(s[i], s[j])
  }

  /** Places `x` in front of the first element it is at or before. */
  function Insert(x: string, s: seq<string>, le: (string, string) -> bool): (r: seq<string>)
    requires IsTotalOrder(le)
    requires Sorted(s, le)
    ensures multiset(r) == multiset(s) + multiset{x}
    ensures Sorted(r, le)
  {
    if s == [] then [x]
    else if le(x, s[0]) then
      PrependSorted(x, s, le);
      [x] + s
    else
      var rest := Insert(x, s[1..], le);
      assert s == [s[0]] + s[1..];
      forall k | 0 <= k < |rest| ensures le(s[0], rest[k]) {
        assert rest[k] in multiset(rest);
        if rest[k] != x {
          assert rest[k] in multiset(s[1..]);
          var m :| 0 <= m < |s[1..]| && s[1..][m] == rest[k];
          assert s[m + 1] == rest[k];
        }
      }
      ConsSorted(s[0], rest, le);
      [s[0]] + rest
  }

  lemma PrependSorted(x: string, s: seq<string>, le: (string, string) -> bool)
    requires IsTotalOrder(le)
    requires Sorted(s, le)
    requires s != [] && le(x, s[0])
    ensures Sorted([x] + s, le)
  {
  }

  lemma ConsSorted(x: string, s: seq<string>, le: (string, string) -> bool)
    requires Sorted(s, le)
    requires forall k :: 0 <= k < |s| ==> le(x, s[k])
    ensures Sorted([x] + s, le)
  {
  }

  /** `Array.prototype.sort` with the comparator `(a, b) => a.localeCompare(b)`. */
  function Sort(s: seq<string>, le: (string, string) -> bool): (r: seq<string>)
    requires IsTotalOrder(le)
    ensures multiset(r) == multiset(s)
    ensures Sorted(r, le)
  {
    if s == [] then []
    else
      assert s == [s[0]] + s[1..];
      Insert(s[0], Sort(s[1..], le), le)
  }

}
