/** The side-effect-free queries of the User model (app/models/user.rb):
    the two relationship associations, the images association, the two
    through-associations, `following?`, `feed`, and the rows that destroying
    a user removes. Each is a function of the tables; none can change them. */
module UserQueries {
  import opened Schema

  /** The active relationships of `u` (user.rb:8): the rows whose follower
      is `u`. */
  function ActiveRelationships(rels: RelationshipTable, u: UserId): (r: RelationshipTable)
  {
    map k | k in rels && rels[k].followerId == u :: rels[k]
  }

  /** The passive relationships of `u` (user.rb:9): the rows whose followed
      user is `u`. */
  function PassiveRelationships(rels: RelationshipTable, u: UserId): (r: RelationshipTable)
  {
    map k | k in rels && rels[k].followedId == u :: rels[k]
  }

  /** The images of `u` (user.rb:6): the rows of the images table that `u`
      owns. */
  function Images(images: ImageTable, u: UserId): (r: ImageTable)
  {
    map k | k in images && images[k].userId == u :: images[k]
  }

  /** The users `u` follows (user.rb:10): the followed end of each active
      relationship of `u`, as a set. The association itself lists a user
      once per duplicate row; that multiplicity is `EdgeCount`. */
  function Following(rels: RelationshipTable, u: UserId): (r: set<UserId>)
  {
    set k | k in ActiveRelationships(rels, u) :: ActiveRelationships(rels, u)[k].followedId
  }

  /** The users who follow `u` (user.rb:11): the follower end of each
      passive relationship of `u`, as a set. */
  function Followers(rels: RelationshipTable, u: UserId): (r: set<UserId>)
  {
    set k | k in PassiveRelationships(rels, u) :: PassiveRelationships(rels, u)[k].followerId
  }

  /** Whether `a` follows `b` (user.rb:25-27): `b` is among the users `a`
      follows. It holds exactly when some row links `a` to `b`. */
  predicate IsFollowing(rels: RelationshipTable, a: UserId, b: UserId)
    ensures IsFollowing(rels, a, b) <==> exists k :: k in rels && rels[k] == Relationship(a, b)
  {
    var active := ActiveRelationships(rels, a);
    assert forall k | k in active :: active[k] == rels[k];
    b in Following(rels, a)
  }

  /** The keys of the rows from `a` to `b`. */
  function EdgeKeys(rels: RelationshipTable, a: UserId, b: UserId): (r: set<RowId>)
  {
    set k | k in rels && rels[k] == Relationship(a, b)
  }

  /** How many times `b` occurs in `a.following` (one per `a`->`b` row). */
  function EdgeCount(rels: RelationshipTable, a: UserId, b: UserId): (r: nat)
  {
    |EdgeKeys(rels, a, b)|
  }

  /** The condition of the feed query (user.rb:14): the image's owner is
      one of the users `u` follows, or `u` itself. */
  predicate InFeed(rels: RelationshipTable, u: UserId, img: Image)
  {
    img.userId in Following(rels, u) || img.userId == u
  }

  /** The feed of `u` (user.rb:13-15): the images owned by `u` or by anyone
      `u` follows, as a restriction of the images table. The query fixes no
      order, so the result carries none. */
  function Feed(images: ImageTable, rels: RelationshipTable, u: UserId): (r: ImageTable)
    ensures SubTable(r, images)
    ensures forall k | k in images ::
              k in r <==> images[k].userId == u || IsFollowing(rels, u, images[k].userId)
  {
    map k | k in images && InFeed(rels, u, images[k]) :: images[k]
  }

  /** The relationships table once destroying `u` has removed its active
      rows and then its passive rows (user.rb:8-9). */
  function WithoutUser(rels: RelationshipTable, u: UserId): (r: RelationshipTable)
  {
    rels - ActiveRelationships(rels, u).Keys - PassiveRelationships(rels, u).Keys
  }

  /** Every relationship row references existing users at both ends. */
  ghost predicate Intact(users: set<UserId>, rels: RelationshipTable)
  {
    forall k | k in rels :: rels[k].followerId in users && rels[k].followedId in users
  }
}
