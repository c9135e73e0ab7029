/** The database the User model works on, and the three operations of
    app/models/user.rb that change it: `follow`, `unfollow` and destroying a
    user (with `dependent: :destroy` on both relationship associations). */
module Store {
  import opened Schema
  import opened UserQueries
  import GraphLemmas

  /** What `unfollow` comes to: the row it destroyed, or the nil that
      `find_by` returned when there was none (on which `destroy` raises). */
  datatype UnfollowResult = Unfollowed(id: RowId, row: Relationship) | NilRelationship

  class Database {
    var users: set<UserId>
    var relationships: RelationshipTable
    var images: ImageTable
    /** The relationships table's autoincrement counter: the next row id. */
    var nextRelationshipId: RowId

    /** Row ids come from the counter, and every row references existing
        users at both ends. */
    ghost predicate Valid()
      reads this
    {
      && (forall k | k in relationships :: k < nextRelationshipId)
      && Intact(users, relationships)
    }

    /** A database with the given users and images and no relationships. */
    constructor (users: set<UserId>, images: ImageTable)
      ensures Valid()
      ensures this.users == users && this.images == images
      ensures relationships == map[] && nextRelationshipId == 0
    {
      this.users := users;
      this.images := images;
      relationships := map[];
      nextRelationshipId := 0;
    }

    /** `a` follows `b` (user.rb:17-19): creates one active relationship of
        `a` towards `b`, that is, inserts one row `a`->`b` under the next id,
        without checking for an existing one; every other row and table is
        unchanged. */
    method Follow(a: UserId, b: UserId) returns (id: RowId)
      requires Valid() && a in users && b in users
      modifies this
      ensures Valid()
      ensures id == old(nextRelationshipId) && id !in old(relationships)
      ensures relationships == old(relationships)[id := Relationship(a, b)]
      ensures nextRelationshipId == old(nextRelationshipId) + 1
      ensures users == old(users) && images == old(images)
      ensures IsFollowing(relationships, a, b)
      ensures EdgeCount(relationships, a, b) == old(EdgeCount(relationships, a, b)) + 1
    {
      id := nextRelationshipId;
      GraphLemmas.IntactAfterFollow(users, relationships, id, a, b);
      GraphLemmas.FollowAddsEdge(relationships, id, a, b);
      GraphLemmas.FollowAddsDuplicate(relationships, id, a, b, a, b);
      relationships := relationships[id := Relationship(a, b)];
      nextRelationshipId := nextRelationshipId + 1;
    }

    /** `a` unfollows `b` (user.rb:21-23): looks up one active relationship
        of `a` towards `b` and destroys it. With an `a`->`b` row, destroys one
        of them (the lookup fixes no order, so which one is left open) and
        nothing else; with none, the lookup yields nil, the call fails, and
        nothing is changed. */
    method Unfollow(a: UserId, b: UserId) returns (result: UnfollowResult)
      requires Valid()
      modifies this
      ensures Valid()
      ensures result.NilRelationship? <==> !old(IsFollowing(relationships, a, b))
      ensures result.Unfollowed? ==>
                && result.id in old(relationships)
                && result.row == old(relationships)[result.id] == Relationship(a, b)
                && relationships == old(relationships) - {result.id}
                && EdgeCount(relationships, a, b) == old(EdgeCount(relationships, a, b)) - 1
      ensures result.NilRelationship? ==> relationships == old(relationships)
      ensures users == old(users) && images == old(images)
      ensures nextRelationshipId == old(nextRelationshipId)
    {
      if k :| k in relationships && relationships[k] == Relationship(a, b) {
        GraphLemmas.UnfollowRemovesOneRow(relationships, k, a, b, a, b);
        result := Unfollowed(k, relationships[k]);
        relationships := relationships - {k};
      } else {
        result := NilRelationship;
      }
    }

    /** `u.destroy`: `dependent: :destroy` destroys `u`'s active
        relationships, then its passive ones, then the user row. The images
        of `u` stay (`has_many :images` has no `dependent` option). */
    method DestroyUser(u: UserId)
      requires Valid() && u in users
      modifies this
      ensures Valid()
      ensures users == old(users) - {u}
      ensures relationships == WithoutUser(old(relationships), u)
      ensures images == old(images) && nextRelationshipId == old(nextRelationshipId)
    {
      DestroyActiveRelationships(u);
      DestroyPassiveRelationships(u);
      GraphLemmas.IntactAfterCascade(users, old(relationships), u);
      users := users - {u};
    }

    /** `dependent: :destroy` on `active_relationships`: destroys, one row at
        a time, every row whose follower is `u`, and nothing else. */
    method DestroyActiveRelationships(u: UserId)
      requires Valid()
      modifies this
      ensures Valid()
      ensures relationships == old(relationships) - ActiveRelationships(old(relationships), u).Keys
      ensures users == old(users) && images == old(images)
      ensures nextRelationshipId == old(nextRelationshipId)
    {
      while ActiveRelationships(relationships, u) != map[]
        invariant Valid()
        invariant users == old(users) && images == old(images)
        invariant nextRelationshipId == old(nextRelationshipId)
        invariant SubTable(relationships, old(relationships))
        invariant forall k | k in old(relationships) && k !in relationships ::
                    old(relationships)[k].followerId == u
        decreases |relationships|
      {
        var k :| k in ActiveRelationships(relationships, u);
        relationships := relationships - {k};
      }
      GraphLemmas.ActiveDrained(relationships, old(relationships), u);
    }

    /** `dependent: :destroy` on `passive_relationships`: destroys, one row
        at a time, every row whose followed user is `u`, and nothing else. */
    method DestroyPassiveRelationships(u: UserId)
      requires Valid()
      modifies this
      ensures Valid()
      ensures relationships == old(relationships) - PassiveRelationships(old(relationships), u).Keys
      ensures users == old(users) && images == old(images)
      ensures nextRelationshipId == old(nextRelationshipId)
    {
      while PassiveRelationships(relationships, u) != map[]
        invariant Valid()
        invariant users == old(users) && images == old(images)
        invariant nextRelationshipId == old(nextRelationshipId)
        invariant SubTable(relationships, old(relationships))
        invariant forall k | k in old(relationships) && k !in relationships ::
                    old(relationships)[k].followedId == u
        decreases |relationships|
      {
        var k :| k in PassiveRelationships(relationships, u);
        relationships := relationships - {k};
      }
      GraphLemmas.PassiveDrained(relationships, old(relationships), u);
    }
  }
}
