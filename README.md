# CommentStore model

This project models osu!web's client-side comment store
(`resources/assets/lib/stores/comment-store.ts`). The store holds three things:

- the comments loaded so far, keyed by id;
- the ids of the comments the signed-in user has voted on;
- a cached grouping of the comments by parent id. The grouping is computed
  lazily, and every write to the comments throws it away.

`CommentStore` is a Dafny class with the same three fields:

- `comments`, a `map<int, Comment>`;
- `userVotes`, a `set<int>`;
- `groupedByParentId`, an `Option` of a map from parent key to a list of comments.

Each method of the store is a method of the class. It names the state it
changes and states the whole new state. Every method keeps the class
invariant `Valid()`:

- every comment is stored under its own id;
- a cache that is present equals the grouping of the current comments.

Because every method keeps that invariant, a cached grouping is never stale.

The grouping the store caches is a pure function, `Grouped`: lodash `groupBy`
over `Object.values` of the table. It is built in three layers.

1. `SortedIds` and `Values` enumerate the table in ascending id order. That is
   the order in which a plain object lists its array-index keys (0 to
   2^32 - 2).
2. `GroupBy` appends each comment, in order, to the group of its parent.
3. `GroupBy` is proved against a reference filter, `WithParent`.

From this follow the facts callers rely on:

- a parent has a group exactly when some comment has that parent;
- a group holds exactly the comments with that parent, ascending by id;
- every comment sits in exactly one group.

`updateWithJSON`'s loop of `Map.set` calls is the function `Upsert`. It has
these lemmas:

- the last record with a given id wins;
- ids the batch does not mention keep their comments;
- loading a batch twice equals loading it once.

The scenario members at the end call the store's operations in sequence:

- voting twice;
- voting and then withdrawing the vote;
- flushing and then looking up;
- logging out and then grouping;
- initializing with nothing;
- a thread of a comment and two replies, before and after one reply is moved
  to the top level.

They show that the store's contracts pin down what a caller observes.

Inputs the source takes as `T | undefined | null` are `Option<T>` here, with
`None` for a missing value. A parent id is a `ParentKey`:

- `None` stands for a top-level comment, `null` in the source;
- `Some(id)` stands for a reply.

The source turns the key into a string before indexing the grouping, and
`null` becomes `"null"`. Distinct keys give distinct strings, so this option
type captures the same lookups.

Files:

- `comments.dfy`: `Option`, `Comment`, `ParentKey`, `DispatchedAction`;
- `comment_table.dfy`: `Upsert` and its lemmas;
- `ordered_ids.dfy`: ascending enumeration of a set of ids;
- `grouping.dfy`: `Values`, `GroupBy`, `Grouped`, `GroupOf` and their lemmas;
- `comment_store.dfy`: the `CommentStore` class;
- `scenarios.dfy`: sequences of store operations and what they yield;
- `proof_helpers.dfy`: small facts about sets and sequences that the proofs
  use as steps; they state nothing about the store.

## Model

| member | source | states |
|---|---|---|
| CommentTable.Upsert | resources/assets/lib/stores/comment-store.ts:84-88 | After the batch the table's ids are the old ids plus the ids of the records; a table whose comments sit under their own ids stays so |
| CommentTable.UpsertSnoc | resources/assets/lib/stores/comment-store.ts:85-87 | The unfolding of `Upsert` by one record: a further record is one more `set` of that record under its id |
| CommentTable.UpsertLastWins | resources/assets/lib/stores/comment-store.ts:84-88 | The record a batch leaves under an id is the last record of the batch with that id |
| CommentTable.UpsertKeepsOthers | resources/assets/lib/stores/comment-store.ts:84-88 | An id no record of the batch carries keeps its old comment |
| CommentTable.UpsertIdempotent | resources/assets/lib/stores/comment-store.ts:82-89 | Loading the same batch twice leaves the table as loading it once |
| OrderedIds.SortedIds | resources/assets/lib/stores/comment-store.ts:57 | The enumeration of the table's ids lists each id exactly once, strictly ascending |
| OrderedIds.SortedIdsUnique | resources/assets/lib/stores/comment-store.ts:57 | Any strictly ascending list of exactly the ids of a set is that enumeration |
| Grouping.Values | resources/assets/lib/stores/comment-store.ts:57 | `Object.values` of the table has one entry per id, and its i-th entry is the comment under the i-th smallest id |
| Grouping.ValuesMembers | resources/assets/lib/stores/comment-store.ts:57 | A comment occurs in `Object.values` of the table exactly when the table holds it under its id |
| Grouping.ValuesAscending | resources/assets/lib/stores/comment-store.ts:57 | `Object.values` of the table is ascending by id |
| Grouping.GroupBy | resources/assets/lib/stores/comment-store.ts:57 | `groupBy(cs, 'parent_id')` has a key exactly for the parents some comment of `cs` has, and each group is the comments of `cs` with that parent, in the order of `cs` |
| Grouping.AscendingDetermined | resources/assets/lib/stores/comment-store.ts:57 | Two lists ascending by id with the same members are equal, so a group is determined by its members |
| Grouping.GroupedKeys | resources/assets/lib/stores/comment-store.ts:57 | The grouping of the table has a key exactly when some comment of the table has that parent |
| Grouping.GroupedMembers | resources/assets/lib/stores/comment-store.ts:57 | A group holds exactly the table's comments with that parent, ascending by id |
| Grouping.GroupedPartition | resources/assets/lib/stores/comment-store.ts:57 | Every comment of the table is in the group of its parent exactly once, and in no other group |
| Grouping.GroupOfSpec | resources/assets/lib/stores/comment-store.ts:50-53 | Looking up a parent finds a group exactly when some comment has that parent; the group holds exactly those comments, ascending by id |
| Grouping.GroupOfIs | resources/assets/lib/stores/comment-store.ts:50-53 | When a non-empty ascending list holds exactly the comments with a parent, looking up that parent returns that list |
| CommentStores.CommentStore.constructor | resources/assets/lib/stores/comment-store.ts:28-30 | A new store has no comments, no votes and no cached grouping |
| CommentStores.CommentStore.AddUserVote | resources/assets/lib/stores/comment-store.ts:33-35 | The votes gain the comment's id; comments and cache are unchanged |
| CommentStores.CommentStore.AddVoted | resources/assets/lib/stores/comment-store.ts:38-41 | A missing list changes nothing; otherwise the votes become the old votes united with the listed ids; comments and cache are unchanged |
| CommentStores.CommentStore.FlushStore | resources/assets/lib/stores/comment-store.ts:44-48 | Comments and votes become empty and the cache stale |
| CommentStores.CommentStore.GetCommentsByParentId | resources/assets/lib/stores/comment-store.ts:50-53 | The result is present exactly when some comment has that parent, and then holds exactly those comments ascending by id; the cache is now the fresh grouping and nothing else changes |
| CommentStores.CommentStore.GetGroupedByParentId | resources/assets/lib/stores/comment-store.ts:55-61 | A present cache is returned as it is; otherwise the grouping of the current comments is computed, cached and returned; either way the result is the grouping of the current comments |
| CommentStores.CommentStore.HandleDispatchAction | resources/assets/lib/stores/comment-store.ts:63-67 | A logout action flushes the store; any other action changes nothing |
| CommentStores.CommentStore.Initialize | resources/assets/lib/stores/comment-store.ts:70-74 | Afterwards the comments are exactly the given records loaded into an empty table, the votes exactly the given ids, and the cache stale |
| CommentStores.CommentStore.RemoveUserVote | resources/assets/lib/stores/comment-store.ts:77-79 | The votes lose the comment's id and nothing else; comments and cache are unchanged |
| CommentStores.CommentStore.UpdateWithJson | resources/assets/lib/stores/comment-store.ts:82-89 | A missing list changes nothing and keeps the cache; otherwise each record is stored under its id in order and the cache is stale; votes are unchanged |
| CommentStores.CommentStore.Invalidate | resources/assets/lib/stores/comment-store.ts:91-93 | The cache becomes stale and nothing else changes |
| CommentStoreScenarios.AddUserVoteTwice | resources/assets/lib/stores/comment-store.ts:33-35 | Voting for a comment twice leaves the votes as voting once |
| CommentStoreScenarios.VoteThenUnvote | resources/assets/lib/stores/comment-store.ts:77-79 | Voting and then withdrawing the vote leaves the comment unvoted and every other vote as it was |
| CommentStoreScenarios.FlushThenLookup | resources/assets/lib/stores/comment-store.ts:44-53 | After a flush every lookup by parent finds nothing |
| CommentStoreScenarios.DispatchThenGroup | resources/assets/lib/stores/comment-store.ts:63-67 | After a logout action the grouping is empty and there are no votes; after any other action the grouping is that of the old comments |
| CommentStoreScenarios.InitializeEmpty | resources/assets/lib/stores/comment-store.ts:70-74 | Initializing with no comments and no votes leaves an empty grouping and no votes |
| CommentStoreScenarios.LoadThree | resources/assets/lib/stores/comment-store.ts:84-88 | Loading three records stores each under its id, later ones over earlier ones |
| CommentStoreScenarios.LoadedThree | resources/assets/lib/stores/comment-store.ts:84-88 | Three records with ascending ids loaded into an empty table are all the table holds |
| CommentStoreScenarios.ThreadTopLevel | resources/assets/lib/stores/comment-store.ts:50-61 | With one top-level comment and two replies to it, the top-level lookup returns that comment alone |
| CommentStoreScenarios.ThreadReplies | resources/assets/lib/stores/comment-store.ts:50-61 | With one top-level comment and two replies to it, its replies are both, in id order |
| CommentStoreScenarios.ThreadGroups | resources/assets/lib/stores/comment-store.ts:50-61 | Loading a comment and two replies gives the comment at the top level and both replies under it |
| CommentStoreScenarios.ReloadedMiddle | resources/assets/lib/stores/comment-store.ts:84-88 | Reloading a comment under its id replaces it and keeps the other two |
| CommentStoreScenarios.ReparentTopLevel | resources/assets/lib/stores/comment-store.ts:50-61 | With two top-level comments and one reply, the top level holds both, in id order |
| CommentStoreScenarios.ReparentReplies | resources/assets/lib/stores/comment-store.ts:50-61 | With two top-level comments and one reply to the first, that reply is the first's only one |
| CommentStoreScenarios.ReparentGroups | resources/assets/lib/stores/comment-store.ts:82-93 | Reloading a reply as top-level moves it from its parent's group to the top level, after the earlier top-level comment |
| CommentStoreScenarios.ThreadScenario | resources/assets/lib/stores/comment-store.ts:50-61 | A fresh store loaded with a comment and two replies answers both lookups accordingly |
| CommentStoreScenarios.ReparentScenario | resources/assets/lib/stores/comment-store.ts:82-93 | A lookup after a second load sees the second load: the grouping cached by the earlier lookup was invalidated |

## Left out

- MobX: the `@observable` and `@action` decorators and `observable.map` are reactivity plumbing. The fields are plain fields, and no change notification is modelled.
- `Comment.fromJSON` and `CommentJSON` are not part of this model. A record is taken to be the comment it decodes to, so the model has no error path inside that decoding. A decoding that throws midway through a batch would leave the earlier records of the batch applied; that partial application is not modelled.
- `Comment` keeps only `id` and `parent_id`. Its other fields do not affect the store's logic.
- `DispatcherAction`, `UserLogoutAction` and `instanceof` are not part of this model. A dispatched action is `UserLogout` or `Other`.
- The `Store` base class is not part of this model.
- Lodash `groupBy` internals and JavaScript string coercion of keys: the grouping is specified functionally. A parent key is `Option<int>`, not the string the source builds; the two are in one-to-one correspondence.
- Grouping.Values: enumerates all ids in ascending order. A JavaScript object lists only the array-index keys (0 to 2^32 - 2) that way; negative ids or ids of 2^32 - 1 and above would come after them in insertion order. The model does not capture that insertion order.
- Ids are unbounded integers. JavaScript numbers are doubles, so ids beyond 2^53 would collide there.
- The order of the keys of the grouping dictionary is not modelled, because a Dafny map has none. `getCommentsByParentId` only indexes the dictionary; other readers of `getGroupedByParentId` are not modelled.
- CommentStores.CommentStore.Valid: assumes the comments are written only through the store's methods, and that no caller mutates a returned grouping or group. The source enforces neither: `comments` and `userVotes` are public fields, and the cached dictionary and its arrays are returned by reference. The model's values are immutable, so this aliasing, and the stale grouping it could cause, are not captured.
