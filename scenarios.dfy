/** A client of `Store.Database` that uses only the methods' contracts:
    alice (id 1) follows bob (id 2), who owns image 10, which then shows in
    her feed; alice unfollows bob twice, and the second time there is no row
    left to destroy; finally bob is destroyed, which leaves no relationship
    rows but keeps his image. */
module Scenarios {
  import opened Schema
  import opened UserQueries
  import opened Store
  import GraphLemmas

  method AliceFollowsBob()
  {
    var db := new Database({1, 2}, map[10 := Image(2)]);
    var id := db.Follow(1, 2);
    assert 10 in Feed(db.images, db.relationships, 1);

    var first := db.Unfollow(1, 2);
    assert first.Unfollowed? && first.id == id;
    GraphLemmas.IsFollowingIffEdgeCount(db.relationships, 1, 2);
    assert !IsFollowing(db.relationships, 1, 2);
    assert 10 !in Feed(db.images, db.relationships, 1);

    var second := db.Unfollow(1, 2);
    assert second.NilRelationship?;

    db.DestroyUser(2);
    assert db.relationships == map[] && 10 in db.images;
  }
}
