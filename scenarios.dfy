/** What callers of the comment store can rely on, derived from the store's
    contracts alone. */
module CommentStoreScenarios {
  import opened Comments
  import opened CommentTable
  import opened Grouping
  import opened CommentStores
  import opened ProofHelpers

  /** Voting for the same comment twice leaves the votes as voting once. */
  method AddUserVoteTwice(store: CommentStore, comment: Comment)
    requires store.Valid()
    modifies store
    ensures store.Valid()
    ensures store.userVotes == old(store.userVotes) + {comment.id}
    ensures store.comments == old(store.comments)
    ensures store.groupedByParentId == old(store.groupedByParentId)
  {
    store.AddUserVote(comment);
    ghost var once := store.userVotes;
    store.AddUserVote(comment);
    assert store.userVotes == once;
  }

  /** Voting for a comment and then withdrawing the vote leaves it unvoted,
      and every other vote as it was. */
  method VoteThenUnvote(store: CommentStore, comment: Comment)
    requires store.Valid()
    modifies store
    ensures store.Valid()
    ensures comment.id !in store.userVotes
    ensures store.userVotes == old(store.userVotes) - {comment.id}
  {
    store.AddUserVote(comment);
    store.RemoveUserVote(comment);
  }

  /** After a flush no parent id has comments. */
  method FlushThenLookup(store: CommentStore, parentId: ParentKey) returns (r: Option<seq<Comment>>)
    requires store.Valid()
    modifies store
    ensures r == None
  {
    store.FlushStore();
    r := store.GetCommentsByParentId(parentId);
  }

  /** Logging out empties the store: the grouping read next is empty.
      Any other action leaves the grouping as it would have been. */
  method DispatchThenGroup(store: CommentStore, dispatchedAction: DispatchedAction)
    returns (grouped: map<ParentKey, seq<Comment>>)
    requires store.Valid()
    modifies store
    ensures dispatchedAction.UserLogout? ==> grouped == map[] && store.userVotes == {}
    ensures dispatchedAction.Other? ==> grouped == Grouped(old(store.comments))
  {
    store.HandleDispatchAction(dispatchedAction);
    grouped := store.GetGroupedByParentId();
    assert Values(map[]) == [];
  }

  /** Initializing with no comments and no votes leaves an empty grouping. */
  method InitializeEmpty(store: CommentStore) returns (grouped: map<ParentKey, seq<Comment>>)
    requires store.Valid()
    modifies store
    ensures grouped == map[]
    ensures store.userVotes == {}
  {
    store.Initialize(None, None);
    grouped := store.GetGroupedByParentId();
    assert Values(map[]) == [];
  }

  /** Loading three records stores each under its id, in order. */
  lemma LoadThree(m: map<int, Comment>, x: Comment, y: Comment, z: Comment)
    ensures Upsert(m, [x, y, z]) == m[x.id := x][y.id := y][z.id := z]
  {
    ThreeParts(x, y, z);
    UpsertSnoc(m, [], x);
    UpsertSnoc(m, [x], y);
    UpsertSnoc(m, [x, y], z);
  }

  /** The table holds exactly `x`, `y` and `z`, each under its own id. */
  ghost predicate HoldsExactly(m: map<int, Comment>, x: Comment, y: Comment, z: Comment)
  {
    && IdsConsistent(m)
    && forall c: Comment :: c.id in m && m[c.id] == c <==> c == x || c == y || c == z
  }

  /** Three comments with ascending ids loaded into an empty table are all the
      table holds. */
  lemma LoadedThree(x: Comment, y: Comment, z: Comment)
    requires x.id < y.id < z.id
    ensures HoldsExactly(Upsert(map[], [x, y, z]), x, y, z)
  {
    LoadThree(map[], x, y, z);
  }

  /** A comment with two later replies: the top level holds the comment alone. */
  lemma ThreadTopLevel(m: map<int, Comment>, first: Comment, second: Comment, third: Comment)
    requires first.id < second.id < third.id
    requires first.parent == None && second.parent == Some(first.id) && third.parent == Some(first.id)
    requires HoldsExactly(m, first, second, third)
    ensures GroupOf(m, None) == Some([first])
  {
    GroupOfIs(m, None, [first]);
  }

  /** A comment with two later replies: its replies are both, in id order. */
  lemma ThreadReplies(m: map<int, Comment>, first: Comment, second: Comment, third: Comment)
    requires first.id < second.id < third.id
    requires first.parent == None && second.parent == Some(first.id) && third.parent == Some(first.id)
    requires HoldsExactly(m, first, second, third)
    ensures GroupOf(m, Some(first.id)) == Some([second, third])
  {
    GroupOfIs(m, Some(first.id), [second, third]);
  }

  /** A comment `a` with two replies `b` and `c`: the top level holds `a`
      alone and its replies hold `b` then `c`. */
  lemma ThreadGroups(a: int, b: int, c: int)
    requires a < b < c
    ensures var m := Upsert(map[], [Comment(a, None), Comment(b, Some(a)), Comment(c, Some(a))]);
      && GroupOf(m, None) == Some([Comment(a, None)])
      && GroupOf(m, Some(a)) == Some([Comment(b, Some(a)), Comment(c, Some(a))])
  {
    var first, second, third := Comment(a, None), Comment(b, Some(a)), Comment(c, Some(a));
    var m := Upsert(map[], [first, second, third]);
    LoadedThree(first, second, third);
    ThreadTopLevel(m, first, second, third);
    ThreadReplies(m, first, second, third);
  }

  /** Reloading the middle comment as top-level leaves the first comment,
      the moved one and the last reply. */
  lemma ReloadedMiddle(m: map<int, Comment>, first: Comment, second: Comment, third: Comment, moved: Comment)
    requires first.id < second.id < third.id && moved.id == second.id
    requires HoldsExactly(m, first, second, third)
    ensures HoldsExactly(Upsert(m, [moved]), first, moved, third)
  {
  }

  /** Two top-level comments and one reply to the first: the top level holds
      both, in id order. */
  lemma ReparentTopLevel(m: map<int, Comment>, first: Comment, moved: Comment, third: Comment)
    requires first.id < moved.id < third.id
    requires first.parent == None && moved.parent == None && third.parent == Some(first.id)
    requires HoldsExactly(m, first, moved, third)
    ensures GroupOf(m, None) == Some([first, moved])
  {
    GroupOfIs(m, None, [first, moved]);
  }

  /** Two top-level comments and one reply to the first: the reply is the
      first comment's only one. */
  lemma ReparentReplies(m: map<int, Comment>, first: Comment, moved: Comment, third: Comment)
    requires first.id < moved.id < third.id
    requires first.parent == None && moved.parent == None && third.parent == Some(first.id)
    requires HoldsExactly(m, first, moved, third)
    ensures GroupOf(m, Some(first.id)) == Some([third])
  {
    GroupOfIs(m, Some(first.id), [third]);
  }

  /** The same thread after `b` is reloaded as a top-level comment: `b` moves
      from the replies of `a` to the top level, after `a`. */
  lemma ReparentGroups(a: int, b: int, c: int)
    requires a < b < c
    ensures var m := Upsert(Upsert(map[], [Comment(a, None), Comment(b, Some(a)), Comment(c, Some(a))]), [Comment(b, None)]);
      && GroupOf(m, None) == Some([Comment(a, None), Comment(b, None)])
      && GroupOf(m, Some(a)) == Some([Comment(c, Some(a))])
  {
    var first, second, third := Comment(a, None), Comment(b, Some(a)), Comment(c, Some(a));
    var moved := Comment(b, None);
    var loaded := Upsert(map[], [first, second, third]);
    LoadedThree(first, second, third);
    ReloadedMiddle(loaded, first, second, third, moved);
    var m := Upsert(loaded, [moved]);
    ReparentTopLevel(m, first, moved, third);
    ReparentReplies(m, first, moved, third);
  }

  /** A fresh store loaded with the thread answers both lookups as
      `ThreadGroups` says. */
  method ThreadScenario(a: int, b: int, c: int)
    returns (topLevel: Option<seq<Comment>>, replies: Option<seq<Comment>>)
    requires a < b < c
    ensures topLevel == Some([Comment(a, None)])
    ensures replies == Some([Comment(b, Some(a)), Comment(c, Some(a))])
  {
    var store := new CommentStore();
    store.UpdateWithJson(Some([Comment(a, None), Comment(b, Some(a)), Comment(c, Some(a))]));
    ThreadGroups(a, b, c);
    topLevel := store.GetCommentsByParentId(None);
    replies := store.GetCommentsByParentId(Some(a));
  }

  /** A fresh store loaded with the thread and then with the moved reply
      answers both lookups as `ReparentGroups` says: the second load
      invalidated the grouping the first lookup would otherwise reuse. */
  method ReparentScenario(a: int, b: int, c: int)
    returns (before: Option<seq<Comment>>, topLevel: Option<seq<Comment>>, replies: Option<seq<Comment>>)
    requires a < b < c
    ensures before == Some([Comment(b, Some(a)), Comment(c, Some(a))])
    ensures topLevel == Some([Comment(a, None), Comment(b, None)])
    ensures replies == Some([Comment(c, Some(a))])
  {
    var store := new CommentStore();
    store.UpdateWithJson(Some([Comment(a, None), Comment(b, Some(a)), Comment(c, Some(a))]));
    ThreadGroups(a, b, c);
    before := store.GetCommentsByParentId(Some(a));
    store.UpdateWithJson(Some([Comment(b, None)]));
    ReparentGroups(a, b, c);
    topLevel := store.GetCommentsByParentId(None);
    replies := store.GetCommentsByParentId(Some(a));
  }
}
