/** The values the comment store works with: comments, the keys it groups
    them under, and the actions dispatched to it. */
module Comments {

  /** An optional value; `None` stands for the source's `null` and `undefined`. */
  datatype Option<+T> = None | Some(value: T) {

    /** The value, or `default` when there is none. */
    function GetOr(default: T): T
    {
      match this
      case Some(v) => v
      case None => default
    }
  }

  /** A comment as the store sees it: its id and the id of the comment it
      replies to (`None` for a top-level comment). Building a comment from its
      JSON record is the identity on these two fields. */
  datatype Comment = Comment(id: int, parent: Option<int>)

  /** The key comments are grouped under: the parent id, where `None` plays
      the part of the string key "null". */
  type ParentKey = Option<int>

  /** The actions the dispatcher hands to the store: the user logging out,
      and every other action, which the store ignores. */
  datatype DispatchedAction = UserLogout | Other
}
