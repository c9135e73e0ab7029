/** The three tables the social graph lives in, as rows keyed by primary key.
    Keying every table by its id makes "a row appears at most once" structural:
    a query that returns a restriction of a table cannot repeat a row. */
module Schema {

  /** Primary keys of users, relationships and images (Rails integer ids). */
  type UserId = nat
  type RowId = nat

  /** A row of the relationships table: a directed follow link. */
  datatype Relationship = Relationship(followerId: UserId, followedId: UserId)

  /** A row of the images table; only the owner column matters to the feed. */
  datatype Image = Image(userId: UserId)

  type RelationshipTable = map<RowId, Relationship>
  type ImageTable = map<RowId, Image>

  /** `t` keeps only rows of `s`, each one unchanged. */
  ghost predicate SubTable<R>(t: map<RowId, R>, s: map<RowId, R>)
  {
    t.Keys <= s.Keys && forall k | k in t :: t[k] == s[k]
  }
}
