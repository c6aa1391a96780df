/** Ascending enumeration of a finite set of comment ids. */
module OrderedIds {
  import opened ProofHelpers

  ghost predicate StrictlyIncreasing(s: seq<int>)
  {
    forall i, j :: 0 <= i < j < |s| ==> s[i] < s[j]
  }

  /** `m` is the least element of `s`. */
  ghost predicate IsLeast(m: int, s: set<int>)
  {
    m in s && forall x :: x in s ==> m <= x
  }

  lemma {:induction false} LeastExists(s: set<int>, y: int)
    requires y in s
    ensures exists m :: IsLeast(m, s)
    decreases |s|
  {
    var rest := s - {y};
    if rest == {} {
      assert IsLeast(y, s) by {
        forall x | x in s ensures y <= x {
          assert x !in rest;
        }
      }
    } else {
      HasElement(rest);
      var z :| z in rest;
      LeastExists(rest, z);
      var m :| IsLeast(m, rest);
      var least := if y < m then y else m;
      assert IsLeast(least, s) by {
        forall x | x in s ensures least <= x {
          if x != y {
            assert x in rest;
          }
        }
      }
    }
  }

  /** The least element of a non-empty set of ids. */
  function MinOf(s: set<int>): (m: int)
    requires s != {}
    ensures m in s && forall x :: x in s ==> m <= x
  {
    HasElement(s);
    var y :| y in s;
    LeastExists(s, y);
    var m :| m in s && forall x :: x in s ==> m <= x;
    m
  }

  /** The ids of `s` in ascending order, the order in which a plain object
      enumerates its array-index keys (0 to 2^32 - 2). */
  function SortedIds(s: set<int>): (r: seq<int>)
    ensures |r| == |s|
    ensures forall k :: k in r <==> k in s
    ensures StrictlyIncreasing(r)
    decreases |s|
  {
    if s == {} then []
    else
      var m := MinOf(s);
      [m] + SortedIds(s - {m})
  }

  /** An ascending enumeration of a set is the only one: `SortedIds` is it. */
  lemma {:induction false} SortedIdsUnique(r: seq<int>, s: set<int>)
    requires StrictlyIncreasing(r)
    requires forall k :: k in r <==> k in s
    ensures SortedIds(s) == r
    decreases |r|
  {
    if r == [] {
      assert forall k :: k !in s;
    } else {
      var m := r[0];
      AscendingHead(r, s);
      var least := MinOf(s);
      assert least <= m && m <= least;
      SortedIdsUnique(r[1..], s - {m});
      SortedIdsUnfold(s);
      HeadTail(r);
    }
  }

  lemma SortedIdsUnfold(s: set<int>)
    requires s != {}
    ensures SortedIds(s) == [MinOf(s)] + SortedIds(s - {MinOf(s)})
  {
  }

  /** The head of an ascending enumeration of `s` is its least element, and
      the tail enumerates the rest of `s` in ascending order. */
  lemma AscendingHead(r: seq<int>, s: set<int>)
    requires r != []
    requires StrictlyIncreasing(r)
    requires forall k :: k in r <==> k in s
    ensures r[0] in s && forall k :: k in s ==> r[0] <= k
    ensures StrictlyIncreasing(r[1..])
    ensures forall k :: k in r[1..] <==> k in s - {r[0]}
  {
  }
}
