/** Small facts about sets and sequences that the verifier does not find on
    its own: that a non-empty collection has a member, and how a sequence
    splits at its ends. They say nothing about the comment store; the proofs
    elsewhere call them to take one step at a time. */
module ProofHelpers {

  /** A set that is not empty has an element. */
  lemma HasElement(s: set<int>)
    requires s != {}
    ensures exists y :: y in s
  {
    if forall y :: y !in s {
      NoElementsEmpty(s);
    }
  }

  lemma NoElementsEmpty(s: set<int>)
    requires forall y :: y !in s
    ensures s == {}
  {
    assert forall k :: k !in s;
  }

  /** A sequence that is not empty has a member. */
  lemma HasMember<T>(cs: seq<T>)
    requires cs != []
    ensures exists c :: c in cs
  {
    var c := cs[0];
    assert c in cs;
  }

  lemma NoMembersEmpty<T>(cs: seq<T>)
    requires forall c :: c !in cs
    ensures cs == []
  {
    if cs != [] {
      HasMember(cs);
      assert false;
    }
  }

  lemma HeadTail<T>(r: seq<T>)
    requires r != []
    ensures r == [r[0]] + r[1..]
  {
  }

  lemma SnocParts<T>(cs: seq<T>, c: T)
    ensures cs == [] ==> cs + [c] == [c] && [c][1..] == []
    ensures cs != [] ==> (cs + [c])[0] == cs[0] && (cs + [c])[1..] == cs[1..] + [c]
  {
  }

  lemma ConcatAssoc<T>(a: seq<T>, b: seq<T>, c: seq<T>)
    ensures (a + b) + c == a + (b + c)
  {
  }

  lemma ThreeParts<T>(x: T, y: T, z: T)
    ensures [x, y, z] == [x, y] + [z] && [x, y] == [x] + [y] && [x] == [] + [x]
  {
  }
}
