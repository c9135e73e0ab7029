/** What the queries of the User model promise, and how `follow`, `unfollow`
    and the destroy cascade move them. The table updates here are the ones the
    methods of `Store.Database` perform: `follow` inserts a row under a fresh
    key, `unfollow` removes one key, destroying a user keeps `WithoutUser`. */
module GraphLemmas {
  import opened Schema
  import opened UserQueries

  // ---------------------------------------------------------------------------
  // The associations agree with each other

  /** `b` is in `a.following` iff `a` is in `b.followers` iff `a.following?(b)`. */
  lemma FollowingIffFollowers(rels: RelationshipTable, a: UserId, b: UserId)
    ensures b in Following(rels, a) <==> a in Followers(rels, b)
    ensures b in Following(rels, a) <==> IsFollowing(rels, a, b)
  {
    if b in Following(rels, a) {
      var k :| k in ActiveRelationships(rels, a) && ActiveRelationships(rels, a)[k].followedId == b;
      assert k in PassiveRelationships(rels, b);
    }
    if a in Followers(rels, b) {
      var k :| k in PassiveRelationships(rels, b) && PassiveRelationships(rels, b)[k].followerId == a;
      assert k in ActiveRelationships(rels, a);
    }
  }

  /** `following?` holds exactly when `b` occurs at least once in `a.following`. */
  lemma IsFollowingIffEdgeCount(rels: RelationshipTable, a: UserId, b: UserId)
    ensures IsFollowing(rels, a, b) <==> EdgeCount(rels, a, b) > 0
  {
    if IsFollowing(rels, a, b) {
      var k :| k in rels && rels[k] == Relationship(a, b);
      assert k in EdgeKeys(rels, a, b);
    }
    if EdgeCount(rels, a, b) > 0 {
      var k :| k in EdgeKeys(rels, a, b);
    }
  }

  /** With every row referencing existing users, the through-associations
      only ever return existing users. */
  lemma AssociationsAreUsers(users: set<UserId>, rels: RelationshipTable, u: UserId)
    requires Intact(users, rels)
    ensures Following(rels, u) <= users
    ensures Followers(rels, u) <= users
  {
  }

  // ---------------------------------------------------------------------------
  // follow: insert one row under a fresh key

  /** After `follow(a, b)`, `a.following?(b)` holds, `b` joins `a.following`,
      `a` joins `b.followers`, and nobody else's associations move. */
  lemma FollowAddsEdge(rels: RelationshipTable, k: RowId, a: UserId, b: UserId)
    requires k !in rels
    ensures IsFollowing(rels[k := Relationship(a, b)], a, b)
    ensures Following(rels[k := Relationship(a, b)], a) == Following(rels, a) + {b}
    ensures Followers(rels[k := Relationship(a, b)], b) == Followers(rels, b) + {a}
    ensures forall v | v != a :: Following(rels[k := Relationship(a, b)], v) == Following(rels, v)
    ensures forall v | v != b :: Followers(rels[k := Relationship(a, b)], v) == Followers(rels, v)
  {
    var after := rels[k := Relationship(a, b)];
    assert after[k] == Relationship(a, b);
    FollowingInsert(rels, k, a, b, a);
    FollowersInsert(rels, k, a, b, b);
    forall v | v != a
      ensures Following(after, v) == Following(rels, v)
    {
      FollowingInsert(rels, k, a, b, v);
    }
    forall v | v != b
      ensures Followers(after, v) == Followers(rels, v)
    {
      FollowersInsert(rels, k, a, b, v);
    }
  }

  /** A row `v`->`x` puts `x` in `v.following` and `v` in `x.followers`. */
  lemma RowWitness(rels: RelationshipTable, j: RowId, v: UserId, x: UserId)
    requires j in rels && rels[j] == Relationship(v, x)
    ensures x in Following(rels, v) && v in Followers(rels, x)
  {
    assert j in ActiveRelationships(rels, v);
    assert j in PassiveRelationships(rels, x);
  }

  /** Keeping only some of the rows can only shrink the associations. */
  lemma SubTableAssociations(t: RelationshipTable, s: RelationshipTable, v: UserId)
    requires SubTable(t, s)
    ensures Following(t, v) <= Following(s, v)
    ensures Followers(t, v) <= Followers(s, v)
  {
    forall x | x in Following(t, v) ensures x in Following(s, v) {
      FollowingIffFollowers(t, v, x);
      var j :| j in t && t[j] == Relationship(v, x);
      RowWitness(s, j, v, x);
    }
    forall x | x in Followers(t, v) ensures x in Followers(s, v) {
      FollowingIffFollowers(t, x, v);
      var j :| j in t && t[j] == Relationship(x, v);
      RowWitness(s, j, x, v);
    }
  }

  lemma FollowingInsert(rels: RelationshipTable, k: RowId, a: UserId, b: UserId, v: UserId)
    requires k !in rels
    ensures Following(rels[k := Relationship(a, b)], v)
         == if v == a then Following(rels, v) + {b} else Following(rels, v)
  {
    var after := rels[k := Relationship(a, b)];
    var expected := if v == a then Following(rels, v) + {b} else Following(rels, v);
    assert SubTable(rels, after);
    SubTableAssociations(rels, after, v);
    if v == a {
      RowWitness(after, k, a, b);
    }
    forall x | x in Following(after, v) ensures x in expected {
      FollowingIffFollowers(after, v, x);
      var j :| j in after && after[j] == Relationship(v, x);
      if j != k {
        RowWitness(rels, j, v, x);
      }
    }
  }

  lemma FollowersInsert(rels: RelationshipTable, k: RowId, a: UserId, b: UserId, v: UserId)
    requires k !in rels
    ensures Followers(rels[k := Relationship(a, b)], v)
         == if v == b then Followers(rels, v) + {a} else Followers(rels, v)
  {
    var after := rels[k := Relationship(a, b)];
    var expected := if v == b then Followers(rels, v) + {a} else Followers(rels, v);
    assert SubTable(rels, after);
    SubTableAssociations(rels, after, v);
    if v == b {
      RowWitness(after, k, a, b);
    }
    forall x | x in Followers(after, v) ensures x in expected {
      FollowingIffFollowers(after, x, v);
      var j :| j in after && after[j] == Relationship(x, v);
      if j != k {
        RowWitness(rels, j, x, v);
      }
    }
  }

  /** `follow` does not check for an existing row: every call adds one more
      `a`->`b` row, so a repeated call makes `b` appear twice in `a.following`.
      The multiplicity of every other pair is unchanged. */
  lemma {:induction false} FollowAddsDuplicate(rels: RelationshipTable, k: RowId, a: UserId, b: UserId,
                                               x: UserId, y: UserId)
    requires k !in rels
    ensures EdgeCount(rels[k := Relationship(a, b)], x, y)
         == if (x, y) == (a, b) then EdgeCount(rels, x, y) + 1 else EdgeCount(rels, x, y)
  {
    var after := rels[k := Relationship(a, b)];
    if (x, y) == (a, b) {
      assert EdgeKeys(after, x, y) == EdgeKeys(rels, x, y) + {k};
    } else {
      assert EdgeKeys(after, x, y) == EdgeKeys(rels, x, y);
    }
  }

  // ---------------------------------------------------------------------------
  // unfollow: delete one a->b row

  /** Deleting one `a`->`b` row lowers that pair's multiplicity by one, so
      `a.following?(b)` survives exactly when there was a duplicate row.
      Every other pair keeps its multiplicity. */
  lemma {:induction false} UnfollowRemovesOneRow(rels: RelationshipTable, k: RowId, a: UserId, b: UserId,
                                                 x: UserId, y: UserId)
    requires k in rels && rels[k] == Relationship(a, b)
    ensures EdgeCount(rels - {k}, x, y)
         == if (x, y) == (a, b) then EdgeCount(rels, x, y) - 1 else EdgeCount(rels, x, y)
  {
    if (x, y) == (a, b) {
      assert EdgeKeys(rels - {k}, x, y) == EdgeKeys(rels, x, y) - {k};
    } else {
      assert EdgeKeys(rels - {k}, x, y) == EdgeKeys(rels, x, y);
    }
  }

  /** After deleting one `a`->`b` row, `a.following?(b)` holds iff there were
      at least two such rows. */
  lemma UnfollowLastRow(rels: RelationshipTable, k: RowId, a: UserId, b: UserId)
    requires k in rels && rels[k] == Relationship(a, b)
    ensures IsFollowing(rels - {k}, a, b) <==> EdgeCount(rels, a, b) > 1
  {
    UnfollowRemovesOneRow(rels, k, a, b, a, b);
    IsFollowingIffEdgeCount(rels - {k}, a, b);
  }

  /** When `a` did not follow `b`, `follow(a, b)` creates the only `a`->`b`
      row, so the row `unfollow(a, b)` finds is that one, deleting it restores
      the original table, and `a.following?(b)` is false again. */
  lemma FollowThenUnfollow(rels: RelationshipTable, k: RowId, a: UserId, b: UserId)
    requires k !in rels && !IsFollowing(rels, a, b)
    ensures EdgeKeys(rels[k := Relationship(a, b)], a, b) == {k}
    ensures rels[k := Relationship(a, b)] - {k} == rels
    ensures !IsFollowing(rels[k := Relationship(a, b)] - {k}, a, b)
  {
  }

  /** Because `follow` keeps no uniqueness: following `b` twice, from any
      table, and then destroying either of the `a`->`b` rows leaves `a`
      still following `b`. */
  lemma DoubleFollowSurvivesOneUnfollow(rels: RelationshipTable, k1: RowId, k2: RowId, j: RowId,
                                        a: UserId, b: UserId)
    requires k1 !in rels && k2 !in rels && k1 != k2
    requires j in EdgeKeys(rels[k1 := Relationship(a, b)][k2 := Relationship(a, b)], a, b)
    ensures IsFollowing(rels[k1 := Relationship(a, b)][k2 := Relationship(a, b)] - {j}, a, b)
  {
    var left := rels[k1 := Relationship(a, b)][k2 := Relationship(a, b)] - {j};
    var survivor := if j == k1 then k2 else k1;
    assert survivor in left && left[survivor] == Relationship(a, b);
  }

  // ---------------------------------------------------------------------------
  // feed

  /** The feed contains every image of `u` and of each user `u` follows, and
      nothing owned by anyone else. */
  lemma FeedIsOwnAndFollowedImages(images: ImageTable, rels: RelationshipTable, u: UserId, v: UserId)
    ensures Images(images, u).Keys <= Feed(images, rels, u).Keys
    ensures IsFollowing(rels, u, v) ==> Images(images, v).Keys <= Feed(images, rels, u).Keys
    ensures v != u && !IsFollowing(rels, u, v) ==> Images(images, v).Keys !! Feed(images, rels, u).Keys
  {
  }

  /** Two relationship tables that give `u` the same following set give it
      the same feed. */
  lemma FeedOfSameFollowing(images: ImageTable, r1: RelationshipTable, r2: RelationshipTable, u: UserId)
    requires Following(r1, u) == Following(r2, u)
    ensures Feed(images, r1, u) == Feed(images, r2, u)
  {
  }

  /** Adding `b` to `u.following` adds exactly `b`'s images to `u`'s feed. */
  lemma FeedOfAddedFollowing(images: ImageTable, r1: RelationshipTable, r2: RelationshipTable,
                             u: UserId, b: UserId)
    requires Following(r2, u) == Following(r1, u) + {b}
    ensures Feed(images, r2, u) == Feed(images, r1, u) + Images(images, b)
  {
  }

  /** After `follow(a, b)`, `a`'s feed gains exactly the images of `b`; every
      other user's feed is unchanged. */
  lemma FeedAfterFollow(images: ImageTable, rels: RelationshipTable, k: RowId, a: UserId, b: UserId)
    requires k !in rels
    ensures Feed(images, rels[k := Relationship(a, b)], a) == Feed(images, rels, a) + Images(images, b)
    ensures forall v | v != a :: Feed(images, rels[k := Relationship(a, b)], v) == Feed(images, rels, v)
  {
    var after := rels[k := Relationship(a, b)];
    FollowingInsert(rels, k, a, b, a);
    FeedOfAddedFollowing(images, rels, after, a, b);
    forall v | v != a ensures Feed(images, after, v) == Feed(images, rels, v) {
      FollowingInsert(rels, k, a, b, v);
      FeedOfSameFollowing(images, after, rels, v);
    }
  }

  /** Deleting one `a`->`b` row takes `b` out of `a.following` iff it was the
      last such row. */
  lemma FollowingDelete(rels: RelationshipTable, k: RowId, a: UserId, b: UserId)
    requires k in rels && rels[k] == Relationship(a, b)
    ensures Following(rels - {k}, a)
         == if EdgeCount(rels, a, b) == 1 then Following(rels, a) - {b} else Following(rels, a)
  {
    var after := rels - {k};
    assert SubTable(after, rels);
    SubTableAssociations(after, rels, a);
    UnfollowLastRow(rels, k, a, b);
    FollowingIffFollowers(after, a, b);
    FollowingIffFollowers(rels, a, b);
    RowWitness(rels, k, a, b);
    forall x | x in Following(rels, a) && x != b ensures x in Following(after, a) {
      FollowingIffFollowers(rels, a, x);
      var j :| j in rels && rels[j] == Relationship(a, x);
      RowWitness(after, j, a, x);
    }
    if EdgeCount(rels, a, b) == 1 {
      assert b !in Following(after, a);
      assert Following(after, a) == Following(rels, a) - {b};
    } else {
      assert k in EdgeKeys(rels, a, b);
      assert b in Following(after, a);
      assert Following(after, a) == Following(rels, a);
    }
  }

  /** Taking `b` (not `u` itself) out of `u.following` removes exactly `b`'s
      images from `u`'s feed. */
  lemma FeedOfRemovedFollowing(images: ImageTable, r1: RelationshipTable, r2: RelationshipTable,
                               u: UserId, b: UserId)
    requires b != u && Following(r2, u) == Following(r1, u) - {b}
    ensures Feed(images, r2, u) == Feed(images, r1, u) - Images(images, b).Keys
  {
  }

  /** After `unfollow(a, b)` deletes the last `a`->`b` row, `a`'s feed loses
      the images of `b` (unless `b` is `a` itself); with a duplicate row left
      behind, the feed stays as it was. */
  lemma FeedAfterUnfollow(images: ImageTable, rels: RelationshipTable, k: RowId, a: UserId, b: UserId)
    requires k in rels && rels[k] == Relationship(a, b)
    ensures Feed(images, rels - {k}, a)
         == if EdgeCount(rels, a, b) == 1 && a != b then Feed(images, rels, a) - Images(images, b).Keys
            else Feed(images, rels, a)
  {
    FollowingDelete(rels, k, a, b);
    if EdgeCount(rels, a, b) == 1 && a != b {
      FeedOfRemovedFollowing(images, rels, rels - {k}, a, b);
    } else if EdgeCount(rels, a, b) == 1 {
      var lhs := Feed(images, rels - {k}, a);
      var rhs := Feed(images, rels, a);
      assert lhs.Keys == rhs.Keys;
    } else {
      FeedOfSameFollowing(images, rels - {k}, rels, a);
    }
  }

  // ---------------------------------------------------------------------------
  // destroying a user: dependent: :destroy on both associations

  /** The cascade removes exactly the rows that touch `u` and leaves every
      other row as it was. */
  lemma CascadeRemovesTouchingRows(rels: RelationshipTable, u: UserId)
    ensures SubTable(WithoutUser(rels, u), rels)
    ensures forall k | k in rels ::
              k in WithoutUser(rels, u) <==> rels[k].followerId != u && rels[k].followedId != u
  {
  }

  /** After the cascade nobody follows `u` and `u` follows nobody; every
      other user just loses `u` from both associations. */
  lemma CascadeAssociations(rels: RelationshipTable, u: UserId)
    ensures Following(WithoutUser(rels, u), u) == {}
    ensures Followers(WithoutUser(rels, u), u) == {}
    ensures forall v | v != u :: Following(WithoutUser(rels, u), v) == Following(rels, v) - {u}
    ensures forall v | v != u :: Followers(WithoutUser(rels, u), v) == Followers(rels, v) - {u}
  {
    var w := WithoutUser(rels, u);
    assert SubTable(w, rels);
    forall x | x in Following(w, u) ensures false {
      FollowingIffFollowers(w, u, x);
    }
    forall x | x in Followers(w, u) ensures false {
      FollowingIffFollowers(w, x, u);
    }
    forall v | v != u ensures Following(w, v) == Following(rels, v) - {u} {
      SubTableAssociations(w, rels, v);
      forall x | x in Following(w, v) ensures x != u {
        FollowingIffFollowers(w, v, x);
      }
      forall x | x in Following(rels, v) - {u} ensures x in Following(w, v) {
        FollowingIffFollowers(rels, v, x);
        var j :| j in rels && rels[j] == Relationship(v, x);
        RowWitness(w, j, v, x);
      }
    }
    forall v | v != u ensures Followers(w, v) == Followers(rels, v) - {u} {
      SubTableAssociations(w, rels, v);
      forall x | x in Followers(w, v) ensures x != u {
        FollowingIffFollowers(w, x, v);
      }
      forall x | x in Followers(rels, v) - {u} ensures x in Followers(w, v) {
        FollowingIffFollowers(rels, x, v);
        var j :| j in rels && rels[j] == Relationship(x, v);
        RowWitness(w, j, x, v);
      }
    }
  }

  /** After the cascade, the feed of every other user loses `u`'s images,
      and `u`'s own feed is just its own images (which the cascade keeps:
      `has_many :images` has no `dependent` option). */
  lemma FeedAfterCascade(images: ImageTable, rels: RelationshipTable, u: UserId)
    ensures Feed(images, WithoutUser(rels, u), u) == Images(images, u)
    ensures forall v | v != u ::
              Feed(images, WithoutUser(rels, u), v) == Feed(images, rels, v) - Images(images, u).Keys
  {
    CascadeAssociations(rels, u);
  }

  /** Destroying rows of `s` one at a time, each with follower `u`, until no
      such row is left, ends exactly at `s` without its active rows for `u`. */
  lemma ActiveDrained(t: RelationshipTable, s: RelationshipTable, u: UserId)
    requires SubTable(t, s)
    requires forall k | k in s && k !in t :: s[k].followerId == u
    requires ActiveRelationships(t, u) == map[]
    ensures t == s - ActiveRelationships(s, u).Keys
  {
    forall k | k in t ensures t[k].followerId != u {
      assert k !in ActiveRelationships(t, u);
    }
    assert t.Keys == s.Keys - ActiveRelationships(s, u).Keys;
  }

  /** The same for the passive rows of `u`. */
  lemma PassiveDrained(t: RelationshipTable, s: RelationshipTable, u: UserId)
    requires SubTable(t, s)
    requires forall k | k in s && k !in t :: s[k].followedId == u
    requires PassiveRelationships(t, u) == map[]
    ensures t == s - PassiveRelationships(s, u).Keys
  {
    forall k | k in t ensures t[k].followedId != u {
      assert k !in PassiveRelationships(t, u);
    }
    assert t.Keys == s.Keys - PassiveRelationships(s, u).Keys;
  }

  /** Referential integrity: `follow` between existing users and the
      cascade on destroy both keep every row pointing at existing users. */
  lemma IntactAfterFollow(users: set<UserId>, rels: RelationshipTable, k: RowId, a: UserId, b: UserId)
    requires Intact(users, rels) && a in users && b in users
    ensures Intact(users, rels[k := Relationship(a, b)])
  {
  }

  lemma IntactAfterCascade(users: set<UserId>, rels: RelationshipTable, u: UserId)
    requires Intact(users, rels)
    ensures Intact(users - {u}, WithoutUser(rels, u))
  {
  }
}
