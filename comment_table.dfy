/** The table of comments keyed by id, and what a batch of `set` calls does
    to it. */
module CommentTable {
  import opened Comments

  /** Every comment is stored under its own id, as `comments.set(comment.id, comment)` keeps it. */
  ghost predicate IdsConsistent(m: map<int, Comment>)
  {
    forall k :: k in m ==> m[k].id == k
  }

  /** The ids of the records in `cs`. */
  ghost function IdsOf(cs: seq<Comment>): set<int>
  {
    set c | c in cs :: c.id
  }

  /** The table after `m.set(c.id, c)` for each record `c` of `cs`, in order. */
  function Upsert(m: map<int, Comment>, cs: seq<Comment>): (r: map<int, Comment>)
    ensures r.Keys == m.Keys + IdsOf(cs)
    ensures IdsConsistent(m) ==> IdsConsistent(r)
  {
    if cs == [] then m
    else
      var c := cs[|cs| - 1];
      assert cs == cs[..|cs| - 1] + [c];
      Upsert(m, cs[..|cs| - 1])[c.id := c]
  }

  /** One more record is one more `set` on the table. */
  lemma UpsertSnoc(m: map<int, Comment>, cs: seq<Comment>, c: Comment)
    ensures Upsert(m, cs + [c]) == Upsert(m, cs)[c.id := c]
  {
  }

  /** The last record with a given id is the one the table keeps. */
  lemma {:induction false} UpsertLastWins(m: map<int, Comment>, cs: seq<Comment>, i: nat)
    requires i < |cs|
    requires forall j :: i < j < |cs| ==> cs[j].id != cs[i].id
    ensures cs[i].id in Upsert(m, cs) && Upsert(m, cs)[cs[i].id] == cs[i]
  {
    if i < |cs| - 1 {
      var pre := cs[..|cs| - 1];
      UpsertLastWins(m, pre, i);
    }
  }

  /** An id no record of `cs` carries keeps its old comment. */
  lemma {:induction false} UpsertKeepsOthers(m: map<int, Comment>, cs: seq<Comment>, k: int)
    requires k in m
    requires forall j :: 0 <= j < |cs| ==> cs[j].id != k
    ensures k in Upsert(m, cs) && Upsert(m, cs)[k] == m[k]
  {
    if cs != [] {
      UpsertKeepsOthers(m, cs[..|cs| - 1], k);
    }
  }

  /** Applying the same batch twice leaves the table as applying it once. */
  lemma {:induction false} UpsertIdempotent(m: map<int, Comment>, cs: seq<Comment>)
    ensures Upsert(Upsert(m, cs), cs) == Upsert(m, cs)
  {
    var once := Upsert(m, cs);
    var twice := Upsert(once, cs);
    forall k | k in twice
      ensures k in once && twice[k] == once[k]
    {
      if exists j :: 0 <= j < |cs| && cs[j].id == k {
        var i := LastIndexOf(cs, k);
        UpsertLastWins(m, cs, i);
        UpsertLastWins(once, cs, i);
      } else {
        UpsertKeepsOthers(once, cs, k);
      }
    }
  }

  /** The position of the last record of `cs` with id `k`. */
  function LastIndexOf(cs: seq<Comment>, k: int): (i: nat)
    requires exists j :: 0 <= j < |cs| && cs[j].id == k
    ensures i < |cs| && cs[i].id == k
    ensures forall j :: i < j < |cs| ==> cs[j].id != k
  {
    if cs[|cs| - 1].id == k then |cs| - 1
    else
      var pre := cs[..|cs| - 1];
      assert exists j :: 0 <= j < |pre| && pre[j].id == k;
      LastIndexOf(pre, k)
  }
}
