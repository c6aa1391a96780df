/** The comment store: the comments loaded so far, keyed by id, the ids of the
    comments the current user has voted on, and a cached grouping of the
    comments by parent id that every write to the comments throws away. */
module CommentStores {
  import opened Comments
  import opened CommentTable
  import opened Grouping

  /** The ids listed in `ids`. */
  ghost function IdSet(ids: seq<int>): set<int>
  {
    set i | i in ids
  }

  lemma IdSetSnoc(ids: seq<int>, n: nat)
    requires n < |ids|
    ensures IdSet(ids[..n + 1]) == IdSet(ids[..n]) + {ids[n]}
  {
  }

  class CommentStore {
    var comments: map<int, Comment>
    var userVotes: set<int>
    /** The grouping of `comments` by parent id; `None` when it is stale. */
    var groupedByParentId: Option<map<ParentKey, seq<Comment>>>

    /** Comments sit under their own ids, and a cache that is present is the
        grouping of the current comments. */
    ghost predicate Valid()
      reads this
    {
      && IdsConsistent(comments)
      && (groupedByParentId.Some? ==> groupedByParentId.value == Grouped(comments))
    }

    constructor ()
      ensures Valid()
      ensures comments == map[] && userVotes == {} && groupedByParentId == None
    {
      comments := map[];
      userVotes := {};
      groupedByParentId := None;
    }

    method AddUserVote(comment: Comment)
      requires Valid()
      modifies this
      ensures Valid()
      ensures userVotes == old(userVotes) + {comment.id}
      ensures comments == old(comments) && groupedByParentId == old(groupedByParentId)
    {
      userVotes := userVotes + {comment.id};
    }

    method AddVoted(commentIds: Option<seq<int>>)
      requires Valid()
      modifies this
      ensures Valid()
      ensures commentIds.None? ==> userVotes == old(userVotes)
      ensures commentIds.Some? ==> userVotes == old(userVotes) + IdSet(commentIds.value)
      ensures comments == old(comments) && groupedByParentId == old(groupedByParentId)
    {
      if commentIds == None {
        return;
      }
      var ids := commentIds.value;
      for n := 0 to |ids|
        invariant userVotes == old(userVotes) + IdSet(ids[..n])
        invariant comments == old(comments) && groupedByParentId == old(groupedByParentId)
      {
        IdSetSnoc(ids, n);
        userVotes := userVotes + {ids[n]};
      }
      assert ids[..|ids|] == ids;
    }

    method FlushStore()
      requires Valid()
      modifies this
      ensures Valid()
      ensures comments == map[] && userVotes == {} && groupedByParentId == None
    {
      Invalidate();
      comments := map[];
      userVotes := {};
    }

    /** The comments whose parent is `parentId`, ascending by id, or `None`
        when no comment has that parent. */
    method GetCommentsByParentId(parentId: ParentKey) returns (r: Option<seq<Comment>>)
      requires Valid()
      modifies this
      ensures Valid()
      ensures r == GroupOf(comments, parentId)
      ensures r.Some? <==> exists k :: k in comments && comments[k].parent == parentId
      ensures r.Some? ==> forall c :: c in r.value <==> c.id in comments && comments[c.id] == c && c.parent == parentId
      ensures r.Some? ==> IdsAscending(r.value)
      ensures comments == old(comments) && userVotes == old(userVotes)
      ensures groupedByParentId == Some(Grouped(comments))
    {
      var grouped := GetGroupedByParentId();
      GroupOfSpec(comments, parentId);
      if parentId in grouped {
        r := Some(grouped[parentId]);
      } else {
        r := None;
      }
    }

    /** The grouping of the comments by parent id: the cached one when it is
        fresh, otherwise one computed now and cached. */
    method GetGroupedByParentId() returns (grouped: map<ParentKey, seq<Comment>>)
      requires Valid()
      modifies this
      ensures Valid()
      ensures grouped == Grouped(comments)
      ensures old(groupedByParentId).Some? ==> grouped == old(groupedByParentId).value
      ensures groupedByParentId == Some(grouped)
      ensures comments == old(comments) && userVotes == old(userVotes)
    {
      if groupedByParentId == None {
        groupedByParentId := Some(Grouped(comments));
      }
      grouped := groupedByParentId.value;
    }

    method HandleDispatchAction(dispatchedAction: DispatchedAction)
      requires Valid()
      modifies this
      ensures Valid()
      ensures dispatchedAction.UserLogout? ==>
        comments == map[] && userVotes == {} && groupedByParentId == None
      ensures dispatchedAction.Other? ==>
        comments == old(comments) && userVotes == old(userVotes) && groupedByParentId == old(groupedByParentId)
    {
      if dispatchedAction == UserLogout {
        FlushStore();
      }
    }

    /** Empties the store, then loads `votes` and `json`; a missing list
        loads nothing. */
    method Initialize(json: Option<seq<Comment>>, votes: Option<seq<int>>)
      requires Valid()
      modifies this
      ensures Valid()
      ensures comments == Upsert(map[], json.GetOr([]))
      ensures userVotes == IdSet(votes.GetOr([]))
      ensures groupedByParentId == None
    {
      FlushStore();
      AddVoted(votes);
      UpdateWithJson(json);
      assert IdSet([]) == {};
    }

    method RemoveUserVote(comment: Comment)
      requires Valid()
      modifies this
      ensures Valid()
      ensures userVotes == old(userVotes) - {comment.id}
      ensures comments == old(comments) && groupedByParentId == old(groupedByParentId)
    {
      userVotes := userVotes - {comment.id};
    }

    /** Stores each record of `data` under its id, in order, and marks the
        grouping stale; a missing list changes nothing. */
    method UpdateWithJson(data: Option<seq<Comment>>)
      requires Valid()
      modifies this
      ensures Valid()
      ensures data.None? ==> comments == old(comments) && groupedByParentId == old(groupedByParentId)
      ensures data.Some? ==> comments == Upsert(old(comments), data.value) && groupedByParentId == None
      ensures userVotes == old(userVotes)
    {
      if data == None {
        return;
      }
      Invalidate();
      var records := data.value;
      for n := 0 to |records|
        invariant comments == Upsert(old(comments), records[..n])
        invariant groupedByParentId == None && userVotes == old(userVotes)
        invariant Valid()
      {
        var comment := records[n];
        assert records[..n + 1][..n] == records[..n];
        comments := comments[comment.id := comment];
      }
      assert records[..|records|] == records;
    }

    /** Marks the grouping stale. */
    method Invalidate()
      requires Valid()
      modifies this
      ensures Valid()
      ensures groupedByParentId == None
      ensures comments == old(comments) && userVotes == old(userVotes)
    {
      groupedByParentId := None;
    }
  }
}
