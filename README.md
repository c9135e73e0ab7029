# imageshare: the social graph and feed of the User model

This project models the social graph and home feed of the imageshare photo
application (`app/models/user.rb`) as a small in-memory database and proves
what its queries and updates do.

The database has three tables, each keyed by its primary key:

- `users`: a set of user ids;
- `relationships`: rows `id -> Relationship(followerId, followedId)`, with the
  table's autoincrement counter `nextRelationshipId`;
- `images`: rows `id -> Image(userId)`.

Files and modules:

- `schema.dfy` (`Schema`): ids, row types, tables, and `SubTable`, meaning
  "keeps only some rows, each unchanged".
- `user_queries.dfy` (`UserQueries`): the read-only side of the model, as
  functions of the tables. These are the associations `active_relationships`,
  `passive_relationships`, `images`, `following` and `followers`, plus
  `following?` (`IsFollowing`) and `feed`. It also defines the multiplicity of
  an `a`->`b` link (`EdgeCount`), the table left after the destroy cascade
  (`WithoutUser`) and referential integrity (`Intact`).
- `graph_lemmas.dfy` (`GraphLemmas`): how the associations relate to each
  other. It also shows how `follow` (insert a row under a fresh key),
  `unfollow` (delete one key) and the cascade change each query.
- `store.dfy` (`Store`): class `Database`, which holds the tables. Its methods
  `Follow`, `Unfollow` and `DestroyUser` change the tables in place. Each
  method states its whole new state and keeps the invariant `Valid()`: row ids
  come from the counter, and every row references existing users.
- `scenarios.dfy` (`Scenarios`): a client that relies only on the contracts.
  Alice (id 1) follows Bob (id 2), so Bob's image 10 shows up in Alice's feed.
  Unfollowing removes it. A second unfollow finds no row. Finally Bob is
  destroyed: no relationship rows remain, and his image stays in the table.

Behaviour of the source that the model keeps on purpose:

- `follow` does not check for an existing row, so calling it twice makes two
  rows (`FollowAddsDuplicate`). After that, one `unfollow` leaves the user still
  following (`UnfollowLastRow`, `DoubleFollowSurvivesOneUnfollow`).
- With no matching row, `unfollow` raises, because its lookup yields nil. The
  model returns `NilRelationship` for that path and changes nothing; the result
  value only marks where the call fails.
- Nothing in the code makes `follow` idempotent, and nothing in the model does.
- `dependent: :destroy` on both relationship associations defines what
  destroying a user does, and the model covers it. Destroying a user leaves
  that user's images in the table, because the images association has no
  `dependent` option.
- The query behind `find_by` has no order, so `Unfollow` may destroy any one
  `a`->`b` row.

## Model

| member | source | states |
|---|---|---|
| `UserQueries.ActiveRelationships` | app/models/user.rb:8 | the rows whose follower is `u`; its properties are proved in `FollowingIffFollowers`, `ActiveDrained` and `CascadeRemovesTouchingRows` |
| `UserQueries.PassiveRelationships` | app/models/user.rb:9 | the rows whose followed user is `u`; its properties are proved in `FollowingIffFollowers`, `PassiveDrained` and `CascadeRemovesTouchingRows` |
| `UserQueries.Images` | app/models/user.rb:6 | the images `u` owns; how they enter and leave feeds is proved in `FeedIsOwnAndFollowedImages`, `FeedAfterFollow`, `FeedAfterUnfollow` and `FeedAfterCascade` |
| `UserQueries.Following` | app/models/user.rb:10 | the followed ends of `u`'s active rows; `FollowingIffFollowers` ties it to rows, `FollowingInsert` and `FollowingDelete` give it after `follow` and `unfollow`, and `CascadeAssociations` gives it after a user is destroyed |
| `UserQueries.Followers` | app/models/user.rb:11 | the follower ends of `u`'s passive rows; `FollowingIffFollowers` ties it to `Following`, `FollowersInsert` gives it after `follow`, and `CascadeAssociations` gives it after a user is destroyed |
| `UserQueries.EdgeCount` | app/models/user.rb:10 | how many times `b` occurs in `a.following`; `IsFollowingIffEdgeCount`, `FollowAddsDuplicate` and `UnfollowRemovesOneRow` give its meaning and how it changes |
| `UserQueries.InFeed` | app/models/user.rb:14 | the condition of the feed query; the contract of `Feed` states it in terms of relationship rows |
| `UserQueries.WithoutUser` | app/models/user.rb:8-9 | the table after destroying a user's rows; `CascadeRemovesTouchingRows` and `CascadeAssociations` characterise it |
| `UserQueries.IsFollowing` | app/models/user.rb:25-27 | `a.following?(b)` holds exactly when some relationship row has follower `a` and followed `b` |
| `UserQueries.Feed` | app/models/user.rb:13-15 | the feed is a sub-table of the images table (each image at most once, rows unchanged), and an image is in it iff its owner is `u` or someone `u` follows |
| `GraphLemmas.FollowingIffFollowers` | app/models/user.rb:8-11 | `b` is in `a.following` iff `a` is in `b.followers` iff `a.following?(b)` |
| `GraphLemmas.IsFollowingIffEdgeCount` | app/models/user.rb:10-11 | `following?` holds iff `b` occurs at least once in `a.following` (one occurrence per `a`->`b` row) |
| `GraphLemmas.AssociationsAreUsers` | app/models/user.rb:10-11 | when the tables have referential integrity, `following` and `followers` contain only existing users |
| `GraphLemmas.FollowAddsEdge` | app/models/user.rb:17-19 | after `follow(a, b)`: `a.following?(b)`, `a.following` gains exactly `b`, `b.followers` gains exactly `a`, and other users' associations are unchanged |
| `GraphLemmas.FollowingInsert` | app/models/user.rb:17-19 | inserting an `a`->`b` row under a fresh key changes only `a.following`, and only by adding `b` |
| `GraphLemmas.FollowersInsert` | app/models/user.rb:17-19 | inserting an `a`->`b` row under a fresh key changes only `b.followers`, and only by adding `a` |
| `GraphLemmas.FollowAddsDuplicate` | app/models/user.rb:17-19 | each `follow(a, b)` raises the number of `a`->`b` rows by one, even when a row exists; every other pair's count is unchanged |
| `GraphLemmas.UnfollowRemovesOneRow` | app/models/user.rb:21-23 | deleting one `a`->`b` row lowers that pair's count by exactly one and leaves every other pair's count unchanged |
| `GraphLemmas.UnfollowLastRow` | app/models/user.rb:21-27 | after `unfollow(a, b)`, `a.following?(b)` still holds iff there were at least two `a`->`b` rows |
| `GraphLemmas.DoubleFollowSurvivesOneUnfollow` | app/models/user.rb:17-23 | from any table, two `follow(a, b)` calls under fresh keys followed by destroying either `a`->`b` row leave `a` still following `b` |
| `GraphLemmas.FollowThenUnfollow` | app/models/user.rb:17-23 | if `a` did not follow `b`, the row `follow` creates is the only row `unfollow` can find; deleting it restores the original table, and `following?` is false again |
| `GraphLemmas.FollowingDelete` | app/models/user.rb:21-23 | deleting one `a`->`b` row takes `b` out of `a.following` iff it was the last such row |
| `GraphLemmas.FeedIsOwnAndFollowedImages` | app/models/user.rb:13-15 | the feed contains all of `u`'s own images and all images of anyone `u` follows, and no image of another user `u` does not follow |
| `GraphLemmas.FeedAfterFollow` | app/models/user.rb:13-19 | after `follow(a, b)`, `a`'s feed is the old feed plus `b`'s images; every other user's feed is unchanged |
| `GraphLemmas.FeedAfterUnfollow` | app/models/user.rb:13-23 | after `unfollow(a, b)`, `a`'s feed loses `b`'s images iff that was the last `a`->`b` row and `b` is not `a`; otherwise the feed is unchanged |
| `GraphLemmas.CascadeRemovesTouchingRows` | app/models/user.rb:8-9 | the cascade keeps exactly the rows in which `u` is neither follower nor followed, each unchanged |
| `GraphLemmas.CascadeAssociations` | app/models/user.rb:8-11 | after the cascade, `u` follows nobody and has no followers; every other user only loses `u` from its `following` and `followers` |
| `GraphLemmas.FeedAfterCascade` | app/models/user.rb:6-15 | after the cascade, every other user's feed loses exactly `u`'s images, and `u`'s feed is just its own images |
| `GraphLemmas.ActiveDrained` | app/models/user.rb:8 | destroying active rows of `u` one at a time, until none is left, ends at the table minus all active rows of `u` |
| `GraphLemmas.PassiveDrained` | app/models/user.rb:9 | destroying passive rows of `u` one at a time, until none is left, ends at the table minus all passive rows of `u` |
| `GraphLemmas.IntactAfterFollow` | app/models/user.rb:17-19 | a follow between existing users keeps every row pointing at existing users |
| `GraphLemmas.IntactAfterCascade` | app/models/user.rb:8-9 | after the cascade and removal of `u`, every row still points at existing users |
| `Store.Database.Follow` | app/models/user.rb:17-19 | inserts exactly one row `a`->`b` under the next autoincrement id, with no uniqueness check, and changes nothing else; afterwards `a.following?(b)` holds and the `a`->`b` count has gone up by one |
| `Store.Database.Unfollow` | app/models/user.rb:21-23 | with an `a`->`b` row, destroys exactly one such row and changes nothing else; with none, returns the nil path (`NilRelationship`) and changes nothing |
| `Store.Database.DestroyUser` | app/models/user.rb:8-9 | removes the user and exactly the relationship rows that touch it; keeps the images and referential integrity |
| `Store.Database.DestroyActiveRelationships` | app/models/user.rb:8 | `dependent: :destroy` on `active_relationships`: destroys row by row exactly the rows whose follower is `u` |
| `Store.Database.DestroyPassiveRelationships` | app/models/user.rb:9 | `dependent: :destroy` on `passive_relationships`: destroys row by row exactly the rows whose followed user is `u` |

## Left out

- Password hashing and `authenticate` (`has_secure_password`, app/models/user.rb:2): these belong to a foreign hashing library.
- Avatar and image attachments, style geometries and content-type validation (app/models/user.rb:3-4, app/models/image.rb:4-5): image processing done by a gem. For the same reason, images keep only their owner column; title, caption and attachment do not affect the core.
- All controllers, config/routes.rb and the migration: HTTP parameters, sessions, redirects and declarative configuration. Creating users and uploading images happen there, so the `Database` constructor receives the users and images tables as given.
- Albums (app/models/album.rb, `has_many :albums`): associations only, with no logic.
- app/models/relationship.rb is not part of this model. Its validations are unknown, so `Follow` requires both ids to be existing users, as they are when `follow` is called on two User records.
- Store.Database.Follow: the row `create` returns is represented only by its id. A failed `create` (a validation error) is not modelled, since the Relationship model is not available.
- UserQueries.Following: gives the set of followed ids. The Rails through-association lists a user once per duplicate row. That multiplicity is modelled separately as `EdgeCount`.
- UserQueries.Followers: gives the set of follower ids. The Rails through-association lists a user once per duplicate row. That multiplicity is `EdgeCount` with the pair read the other way round.
- Feed ordering: the SQL has no `ORDER BY`, so `Feed` returns a table restriction with no order.
- Store.Database.Unfollow: does not say which `a`->`b` row `find_by` returns when there are several, because the query does not fix the order.
- Concurrent `follow` calls on the same pair: a concurrency concern, outside this sequential model.
