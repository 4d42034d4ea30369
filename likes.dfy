/** The handlers of convex/likes.ts over the `likes` table. */
module Likes {
  import opened Wrappers
  import opened Schema

  /** The liked pairs after `toggleLike` for `p`: `p` flips, every other pair stays. */
  function Toggled(pairs: set<Like>, p: Like): (t: set<Like>)
    ensures p in t <==> p !in pairs
    ensures forall q :: q != p ==> (q in t <==> q in pairs)
  {
    if p in pairs then pairs - {p} else pairs + {p}
  }

  /** Toggling the same pair twice restores the original set. */
  lemma ToggledTwice(pairs: set<Like>, p: Like)
    ensures Toggled(Toggled(pairs, p), p) == pairs
  {
  }

  /**
   * `isLiked`: false with nobody signed in, otherwise whether the caller's row for
   * the image exists.
   */
  function IsLiked(likes: map<LikeId, Like>, caller: Option<UserId>, imageId: ImageId): (r: bool)
    ensures r <==> caller.Some? && Like(caller.value, imageId) in Pairs(likes)
  {
    match caller
    case None => false
    case Some(u) => exists k :: k in likes && likes[k] == Like(u, imageId)
  }

  /** The rows of the `by_image` index for one image. */
  function RowsFor(likes: map<LikeId, Like>, imageId: ImageId): set<LikeId>
  {
    set k | k in likes && likes[k].imageId == imageId
  }

  /** `likes.length` for an image: the number of rows that reference it. */
  function LikeCount(likes: map<LikeId, Like>, imageId: ImageId): nat
  {
    |RowsFor(likes, imageId)|
  }

  /** Inserting a row with a new id adds one to its image's count and to no other. */
  lemma LikeCountInsert(likes: map<LikeId, Like>, k: LikeId, p: Like, imageId: ImageId)
    requires k !in likes
    ensures LikeCount(likes[k := p], imageId) == LikeCount(likes, imageId) + (if p.imageId == imageId then 1 else 0)
  {
    if p.imageId == imageId {
      assert RowsFor(likes[k := p], imageId) == RowsFor(likes, imageId) + {k};
    } else {
      assert RowsFor(likes[k := p], imageId) == RowsFor(likes, imageId);
    }
  }

  /** Deleting a row takes one from its image's count and from no other. */
  lemma LikeCountRemove(likes: map<LikeId, Like>, k: LikeId, imageId: ImageId)
    requires k in likes
    ensures LikeCount(likes - {k}, imageId) + (if likes[k].imageId == imageId then 1 else 0) == LikeCount(likes, imageId)
  {
    if likes[k].imageId == imageId {
      assert RowsFor(likes, imageId) == RowsFor(likes - {k}, imageId) + {k};
    } else {
      assert RowsFor(likes - {k}, imageId) == RowsFor(likes, imageId);
    }
  }

  /** Deleting a row removes its pair from the liked pairs, and with one row per pair no copy of it remains. */
  lemma RemoveRowValues(likes: map<LikeId, Like>, k: LikeId)
    requires k in likes
    ensures likes.Values == (likes - {k}).Values + {likes[k]}
    ensures UniquePairs(likes) ==> likes[k] !in (likes - {k}).Values && UniquePairs(likes - {k})
  {
    var rest := likes - {k};
    forall v | v in likes.Values ensures v in rest.Values + {likes[k]} {
      var j :| j in likes && likes[j] == v;
      if j != k {
        assert rest[j] == v;
      }
    }
    forall v | v in rest.Values ensures v in likes.Values {
      var j :| j in rest && rest[j] == v;
      assert likes[j] == v;
    }
  }

  /** Inserting a row under a new id adds exactly its pair to the liked pairs. */
  lemma InsertRowValues(likes: map<LikeId, Like>, k: LikeId, p: Like)
    requires k !in likes
    ensures likes[k := p].Values == likes.Values + {p}
  {
    var grown := likes[k := p];
    forall v | v in likes.Values ensures v in grown.Values {
      var j :| j in likes && likes[j] == v;
      assert grown[j] == v;
    }
    assert grown[k] == p;
  }

  /** The users who liked an image. */
  function Likers(likes: map<LikeId, Like>, imageId: ImageId): set<UserId>
  {
    set l | l in likes.Values && l.imageId == imageId :: l.userId
  }

  /** With one row per pair, the like count is the number of distinct users who liked the image. */
  lemma {:induction false} LikeCountIsLikers(likes: map<LikeId, Like>, imageId: ImageId)
    requires UniquePairs(likes)
    ensures LikeCount(likes, imageId) == |Likers(likes, imageId)|
    decreases |likes|
  {
    if likes != map[] {
      var k :| k in likes;
      var rest := likes - {k};
      assert UniquePairs(rest);
      LikeCountIsLikers(rest, imageId);
      LikeCountRemove(likes, k, imageId);
      var l := likes[k];
      RemoveRowValues(likes, k);
      if l.imageId == imageId {
        assert Likers(likes, imageId) == Likers(rest, imageId) + {l.userId};
        assert l.userId !in Likers(rest, imageId);
      } else {
        assert Likers(likes, imageId) == Likers(rest, imageId);
      }
    }
  }

  /**
   * The `.unique()` lookup on `by_user_and_image`: the one row for the pair, when
   * there is one.
   */
  method FindLike(db: Database, p: Like) returns (found: Option<LikeId>)
    requires db.Valid()
    ensures found.Some? <==> p in Pairs(db.likes)
    ensures found.Some? ==> found.value in db.likes && db.likes[found.value] == p
    ensures found.Some? ==> forall k :: k in db.likes && db.likes[k] == p ==> k == found.value
  {
    if p in db.likes.Values {
      var k :| k in db.likes && db.likes[k] == p;
      found := Some(k);
    } else {
      found := None;
    }
  }

  /**
   * `toggleLike`: with a signed-in caller, delete the caller's row for the image if it
   * exists and insert one otherwise; with nobody signed in, throw and change nothing.
   */
  method ToggleLike(db: Database, caller: Option<UserId>, imageId: ImageId) returns (r: Result<()>)
    requires db.Valid()
    modifies db
    ensures db.Valid()
    ensures caller.None? ==> r == Err(PleaseLogIn) && unchanged(db)
    ensures caller.Some? ==> r == Ok(())
    ensures caller.Some? ==> Pairs(db.likes) == Toggled(old(Pairs(db.likes)), Like(caller.value, imageId))
    ensures caller.Some? ==> IsLiked(db.likes, caller, imageId) == !old(IsLiked(db.likes, caller, imageId))
    ensures caller.Some? && old(IsLiked(db.likes, caller, imageId)) ==>
      exists k :: k in old(db.likes) && old(db.likes)[k] == Like(caller.value, imageId) && db.likes == old(db.likes) - {k}
    ensures caller.Some? && !old(IsLiked(db.likes, caller, imageId)) ==>
      db.likes == old(db.likes)[LikeId(old(db.nextId)) := Like(caller.value, imageId)]
    ensures caller.Some? ==> forall i :: i != imageId ==> LikeCount(db.likes, i) == old(LikeCount(db.likes, i))
    ensures caller.Some? ==>
      LikeCount(db.likes, imageId) + (if old(IsLiked(db.likes, caller, imageId)) then 1 else 0) ==
      old(LikeCount(db.likes, imageId)) + (if old(IsLiked(db.likes, caller, imageId)) then 0 else 1)
    ensures db.images == old(db.images) && db.storage == old(db.storage)
  {
    if caller.None? {
      return Err(PleaseLogIn);
    }
    var p := Like(caller.value, imageId);
    var existing := FindLike(db, p);
    match existing {
      case Some(k) =>
        forall i ensures LikeCount(db.likes - {k}, i) + (if i == imageId then 1 else 0) == LikeCount(db.likes, i) {
          LikeCountRemove(db.likes, k, i);
        }
        RemoveRowValues(db.likes, k);
        db.likes := db.likes - {k};
      case None =>
        var k := LikeId(db.nextId);
        forall i ensures LikeCount(db.likes[k := p], i) == LikeCount(db.likes, i) + (if i == imageId then 1 else 0) {
          LikeCountInsert(db.likes, k, p, i);
        }
        InsertRowValues(db.likes, k, p);
        db.likes := db.likes[k := p];
        db.nextId := db.nextId + 1;
    }
    return Ok(());
  }
}
