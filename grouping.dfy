/** The grouping of the comment table by parent id: the pure computation the
    store caches. */
module Grouping {
  import opened Comments
  import opened CommentTable
  import opened OrderedIds
  import opened ProofHelpers

  /** The ids of `cs` strictly increase, so no comment occurs twice. */
  ghost predicate IdsAscending(cs: seq<Comment>)
  {
    forall i, j :: 0 <= i < j < |cs| ==> cs[i].id < cs[j].id
  }

  /** Every comment of `cs` has an id above `x`. */
  ghost predicate IdsAbove(cs: seq<Comment>, x: int)
  {
    forall i :: 0 <= i < |cs| ==> x < cs[i].id
  }

  /** `Object.values` of the table: its comments in ascending id order. */
  function Values(m: map<int, Comment>): (r: seq<Comment>)
    ensures |r| == |m|
    ensures forall i :: 0 <= i < |r| ==> SortedIds(m.Keys)[i] in m && r[i] == m[SortedIds(m.Keys)[i]]
  {
    var ks := SortedIds(m.Keys);
    KeysListed(m, ks);
    seq(|ks|, i requires 0 <= i < |ks| => m[ks[i]])
  }

  lemma KeysListed(m: map<int, Comment>, ks: seq<int>)
    requires forall k :: k in ks <==> k in m.Keys
    ensures forall i :: 0 <= i < |ks| ==> ks[i] in m
  {
    forall i | 0 <= i < |ks| ensures ks[i] in m {
      var k := ks[i];
      assert k in ks;
    }
  }

  /** Every comment of the table occurs in `Values`, and nothing else does. */
  lemma ValuesMembers(m: map<int, Comment>)
    requires IdsConsistent(m)
    ensures forall c :: c in Values(m) <==> c.id in m && m[c.id] == c
  {
  }

  /** When comments sit under their own ids, `Values` is ascending by id. */
  lemma ValuesAscending(m: map<int, Comment>)
    requires IdsConsistent(m)
    ensures IdsAscending(Values(m))
  {
  }

  /** The comments of `cs` whose parent is `p`, in the order of `cs`: the
      reference definition of one group. */
  function WithParent(cs: seq<Comment>, p: ParentKey): seq<Comment>
  {
    if cs == [] then []
    else (if cs[0].parent == p then [cs[0]] else []) + WithParent(cs[1..], p)
  }

  /** Filtering distributes over appending one comment. */
  lemma {:induction false} WithParentSnoc(cs: seq<Comment>, c: Comment, p: ParentKey)
    ensures WithParent(cs + [c], p) == WithParent(cs, p) + (if c.parent == p then [c] else [])
    decreases |cs|
  {
    SnocParts(cs, c);
    if cs != [] {
      var head := if cs[0].parent == p then [cs[0]] else [];
      WithParentSnoc(cs[1..], c, p);
      ConcatAssoc(head, WithParent(cs[1..], p), if c.parent == p then [c] else []);
    }
  }

  /** A group holds exactly the comments of `cs` with that parent. */
  lemma {:induction false} WithParentMembers(cs: seq<Comment>, p: ParentKey)
    ensures forall c :: c in WithParent(cs, p) <==> c in cs && c.parent == p
    decreases |cs|
  {
    if cs != [] {
      WithParentMembers(cs[1..], p);
      assert forall c :: c in cs <==> c == cs[0] || c in cs[1..];
    }
  }

  lemma AscendingTail(cs: seq<Comment>)
    requires cs != []
    requires IdsAscending(cs)
    ensures IdsAscending(cs[1..]) && IdsAbove(cs[1..], cs[0].id)
  {
  }

  lemma AscendingCons(c: Comment, cs: seq<Comment>)
    requires IdsAscending(cs) && IdsAbove(cs, c.id)
    ensures IdsAscending([c] + cs)
  {
  }

  lemma {:induction false} WithParentAbove(cs: seq<Comment>, p: ParentKey, x: int)
    requires IdsAbove(cs, x)
    ensures IdsAbove(WithParent(cs, p), x)
    decreases |cs|
  {
    if cs != [] {
      assert IdsAbove(cs[1..], x);
      WithParentAbove(cs[1..], p, x);
    }
  }

  /** A group keeps the ascending id order of `cs`. */
  lemma {:induction false} WithParentAscending(cs: seq<Comment>, p: ParentKey)
    requires IdsAscending(cs)
    ensures IdsAscending(WithParent(cs, p))
    decreases |cs|
  {
    if cs != [] {
      var tail := WithParent(cs[1..], p);
      AscendingTail(cs);
      WithParentAscending(cs[1..], p);
      WithParentAbove(cs[1..], p, cs[0].id);
      if cs[0].parent == p {
        AscendingCons(cs[0], tail);
      } else {
        assert WithParent(cs, p) == tail;
      }
    }
  }

  /** In a sequence ascending by id, the tail holds every comment but the head. */
  lemma TailMembers(cs: seq<Comment>, c: Comment)
    requires cs != []
    requires IdsAscending(cs)
    ensures c in cs[1..] <==> c in cs && c != cs[0]
  {
  }

  /** Two sequences ascending by id that hold the same comments are equal:
      a group is determined by its members. */
  lemma {:induction false} AscendingDetermined(a: seq<Comment>, b: seq<Comment>)
    requires IdsAscending(a) && IdsAscending(b)
    requires forall c :: c in a <==> c in b
    ensures a == b
    decreases |a|
  {
    if a == [] || b == [] {
      assert forall c :: c !in a && c !in b;
      NoMembersEmpty(a);
      NoMembersEmpty(b);
    } else {
      var a0, b0 := a[0], b[0];
      assert a0 in a && b0 in b;
      var i :| 0 <= i < |a| && a[i] == b[0];
      var j :| 0 <= j < |b| && b[j] == a[0];
      assert a[0].id <= a[i].id && b[0].id <= b[j].id;
      assert i == 0;
      forall c ensures c in a[1..] <==> c in b[1..] {
        TailMembers(a, c);
        TailMembers(b, c);
      }
      AscendingTail(a);
      AscendingTail(b);
      AscendingDetermined(a[1..], b[1..]);
      HeadTail(a);
      HeadTail(b);
    }
  }

  /** A sequence ascending by id holds each of its comments exactly once. */
  lemma {:induction false} AscendingOnce(cs: seq<Comment>, c: Comment)
    requires IdsAscending(cs)
    requires c in cs
    ensures multiset(cs)[c] == 1
    decreases |cs|
  {
    HeadTail(cs);
    AscendingTail(cs);
    if c == cs[0] {
      forall i | 0 <= i < |cs[1..]| ensures cs[1..][i] != c {
      }
      assert c !in cs[1..];
    } else {
      AscendingOnce(cs[1..], c);
    }
  }

  /** lodash `groupBy(cs, 'parent_id')`: each comment appended, in order, to
      the group of its parent. */
  function GroupBy(cs: seq<Comment>): (g: map<ParentKey, seq<Comment>>)
    ensures forall p :: p in g <==> WithParent(cs, p) != []
    ensures forall p :: p in g ==> g[p] == WithParent(cs, p)
  {
    if cs == [] then map[]
    else
      var pre := cs[..|cs| - 1];
      var c := cs[|cs| - 1];
      assert cs == pre + [c];
      var g := GroupBy(pre);
      var g' := g[c.parent := (if c.parent in g then g[c.parent] else []) + [c]];
      GroupStep(g, pre, c);
      g'
  }

  /** Appending `c` to the group of its parent turns a grouping of `pre`
      into a grouping of `pre + [c]`. */
  lemma GroupStep(g: map<ParentKey, seq<Comment>>, pre: seq<Comment>, c: Comment)
    requires forall p :: p in g <==> WithParent(pre, p) != []
    requires forall p :: p in g ==> g[p] == WithParent(pre, p)
    ensures var g' := g[c.parent := (if c.parent in g then g[c.parent] else []) + [c]];
      && (forall p :: p in g' <==> WithParent(pre + [c], p) != [])
      && (forall p :: p in g' ==> g'[p] == WithParent(pre + [c], p))
  {
    forall p ensures WithParent(pre + [c], p) == WithParent(pre, p) + (if c.parent == p then [c] else []) {
      WithParentSnoc(pre, c, p);
    }
  }

  /** The grouping of the table that the store caches (`groupBy(Object.values(...), 'parent_id')`). */
  function Grouped(m: map<int, Comment>): (g: map<ParentKey, seq<Comment>>)
  {
    GroupBy(Values(m))
  }

  /** A key is present exactly when some comment of the table has that parent. */
  lemma GroupedKeys(m: map<int, Comment>, p: ParentKey)
    requires IdsConsistent(m)
    ensures p in Grouped(m) <==> exists k :: k in m && m[k].parent == p
  {
    var vs := Values(m);
    ValuesMembers(m);
    WithParentMembers(vs, p);
    if p in Grouped(m) {
      var c := WithParent(vs, p)[0];
      assert c in WithParent(vs, p);
      assert m[c.id].parent == p;
    }
  }

  /** Each group holds exactly the table's comments with that parent, in
      ascending id order. */
  lemma GroupedMembers(m: map<int, Comment>, p: ParentKey)
    requires IdsConsistent(m)
    requires p in Grouped(m)
    ensures forall c :: c in Grouped(m)[p] <==> c.id in m && m[c.id] == c && c.parent == p
    ensures IdsAscending(Grouped(m)[p])
  {
    ValuesMembers(m);
    ValuesAscending(m);
    WithParentMembers(Values(m), p);
    WithParentAscending(Values(m), p);
  }

  /** The group of parent `p`, or `None` when no comment has that parent. */
  function GroupOf(m: map<int, Comment>, p: ParentKey): Option<seq<Comment>>
  {
    var g := Grouped(m);
    if p in g then Some(g[p]) else None
  }

  /** A lookup finds a group exactly when some comment has that parent, and
      the group holds exactly those comments, ascending by id. */
  lemma GroupOfSpec(m: map<int, Comment>, p: ParentKey)
    requires IdsConsistent(m)
    ensures GroupOf(m, p).Some? <==> exists k :: k in m && m[k].parent == p
    ensures GroupOf(m, p).Some? ==>
      forall c :: c in GroupOf(m, p).value <==> c.id in m && m[c.id] == c && c.parent == p
    ensures GroupOf(m, p).Some? ==> IdsAscending(GroupOf(m, p).value)
  {
    GroupedKeys(m, p);
    if p in Grouped(m) {
      GroupedMembers(m, p);
    }
  }

  /** A group is pinned down by its members: when `expected` is ascending and
      holds exactly the comments with parent `p`, and one exists, the lookup
      returns `expected`. */
  lemma GroupOfIs(m: map<int, Comment>, p: ParentKey, expected: seq<Comment>)
    requires IdsConsistent(m)
    requires expected != [] && IdsAscending(expected)
    requires forall c :: c in expected <==> c.id in m && m[c.id] == c && c.parent == p
    ensures GroupOf(m, p) == Some(expected)
  {
    var e := expected[0];
    assert e in expected;
    GroupOfSpec(m, p);
    assert e.id in m && m[e.id].parent == p;
    AscendingDetermined(GroupOf(m, p).value, expected);
  }

  /** Every comment of the table appears exactly once in the grouping,
      under its parent's key and under no other. */
  lemma GroupedPartition(m: map<int, Comment>, k: int)
    requires IdsConsistent(m)
    requires k in m
    ensures m[k].parent in Grouped(m)
    ensures multiset(Grouped(m)[m[k].parent])[m[k]] == 1
    ensures forall p :: p in Grouped(m) && p != m[k].parent ==> m[k] !in Grouped(m)[p]
  {
    var c := m[k];
    GroupedKeys(m, c.parent);
    GroupedMembers(m, c.parent);
    AscendingOnce(Grouped(m)[c.parent], c);
    forall p | p in Grouped(m) && p != c.parent ensures c !in Grouped(m)[p] {
      GroupedMembers(m, p);
    }
  }
}
