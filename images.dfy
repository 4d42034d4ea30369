/** The handlers of convex/images.ts over the `images` table, the `likes` table and file storage. */
module Images {
  import opened Wrappers
  import opened Schema
  import opened Likes

  /** The message `deleteImage` throws for a missing image or one owned by someone else. */
  const NotAuthorized: string := "Not authorized to delete this image"

  /** An image as the list queries return it: the record and its like count (the URL is left out). */
  datatype ImageView = ImageView(doc: ImageDoc, likeCount: nat)

  /**
   * `generateUploadUrl`: a signed-in caller gets the URL the storage issues (`issued`);
   * anybody else gets the log-in error. No table is touched either way.
   */
  function GenerateUploadUrl(caller: Option<UserId>, issued: string): (r: Result<string>)
    ensures r.Ok? <==> caller.Some?
    ensures r.Ok? ==> r.value == issued
    ensures r.Err? ==> r.message == PleaseLogIn
  {
    if caller.None? then Err(PleaseLogIn) else Ok(issued)
  }

  /** The position of the record with the given id (`ctx.db.get`), if any. */
  function IndexOf(images: seq<ImageDoc>, id: ImageId): (r: Option<nat>)
    ensures r.Some? ==> r.value < |images| && images[r.value].id == id
    ensures r.None? ==> forall k :: 0 <= k < |images| ==> images[k].id != id
    ensures r.Some? ==> forall k :: 0 <= k < r.value ==> images[k].id != id
  {
    if images == [] then None
    else if images[0].id == id then Some(0)
    else match IndexOf(images[1..], id)
      case None => None
      case Some(k) => Some(k + 1)
  }

  /** `ctx.db.get(id)`: the record with that id, or null. */
  function Lookup(images: seq<ImageDoc>, id: ImageId): (r: Option<ImageDoc>)
    ensures r.Some? ==> r.value in images && r.value.id == id
    ensures r.None? ==> forall d :: d in images ==> d.id != id
  {
    match IndexOf(images, id)
    case None => None
    case Some(k) => Some(images[k])
  }

  /** `.order('desc')`: the records newest first, creation order being the order of the table. */
  function NewestFirst(docs: seq<ImageDoc>): (r: seq<ImageDoc>)
    ensures |r| == |docs|
    ensures forall k :: 0 <= k < |r| ==> r[k] == docs[|docs| - 1 - k]
    decreases |docs|
  {
    if docs == [] then [] else [docs[|docs| - 1]] + NewestFirst(docs[..|docs| - 1])
  }

  /** The `images.map(...)` step: each record paired with the length of its `by_image` likes. */
  function WithLikeCounts(docs: seq<ImageDoc>, likes: map<LikeId, Like>): (r: seq<ImageView>)
    ensures |r| == |docs|
    ensures forall k :: 0 <= k < |r| ==> r[k].doc == docs[k] && r[k].likeCount == LikeCount(likes, docs[k].id)
  {
    if docs == [] then [] else [ImageView(docs[0], LikeCount(likes, docs[0].id))] + WithLikeCounts(docs[1..], likes)
  }

  /** The `by_user` index: the records of one uploader, in creation order. */
  function OwnedBy(docs: seq<ImageDoc>, u: UserId): (r: seq<ImageDoc>)
    ensures forall d :: d in r <==> d in docs && d.userId == u
    ensures |r| <= |docs|
    ensures CreationOrdered(docs) ==> CreationOrdered(r)
    decreases |docs|
  {
    if docs == [] then []
    else
      var last := docs[|docs| - 1];
      OwnedBy(docs[..|docs| - 1], u) + (if last.userId == u then [last] else [])
  }

  /** `listImages`: every image, newest first, with its like count. */
  function ListImages(images: seq<ImageDoc>, likes: map<LikeId, Like>): (r: seq<ImageView>)
    ensures |r| == |images|
    ensures forall k :: 0 <= k < |r| ==>
      r[k].doc == images[|images| - 1 - k] && r[k].likeCount == LikeCount(likes, r[k].doc.id)
  {
    WithLikeCounts(NewestFirst(images), likes)
  }

  /** `listMyImages`: nothing for an anonymous caller, otherwise the caller's images, newest first. */
  function ListMyImages(images: seq<ImageDoc>, likes: map<LikeId, Like>, caller: Option<UserId>): (r: seq<ImageView>)
    ensures caller.None? ==> r == []
    ensures caller.Some? ==> forall v :: v in r ==>
      v.doc in images && v.doc.userId == caller.value && v.likeCount == LikeCount(likes, v.doc.id)
    ensures caller.Some? ==> forall d :: d in images && d.userId == caller.value ==>
      ImageView(d, LikeCount(likes, d.id)) in r
  {
    match caller
    case None => []
    case Some(u) =>
      MyFeedMembers(images, likes, u);
      MyFeed(images, likes, u)
  }

  /** The `by_user` query of `listMyImages`, ordered and counted. */
  function MyFeed(images: seq<ImageDoc>, likes: map<LikeId, Like>, u: UserId): seq<ImageView>
  {
    WithLikeCounts(NewestFirst(OwnedBy(images, u)), likes)
  }

  lemma MyFeedMembers(images: seq<ImageDoc>, likes: map<LikeId, Like>, u: UserId)
    ensures forall v :: v in MyFeed(images, likes, u) ==>
      v.doc in images && v.doc.userId == u && v.likeCount == LikeCount(likes, v.doc.id)
    ensures forall d :: d in images && d.userId == u ==> ImageView(d, LikeCount(likes, d.id)) in MyFeed(images, likes, u)
  {
    var owned := OwnedBy(images, u);
    var mine := NewestFirst(owned);
    var r := MyFeed(images, likes, u);
    forall v | v in r ensures v.doc in images && v.doc.userId == u && v.likeCount == LikeCount(likes, v.doc.id) {
      var j :| 0 <= j < |r| && r[j] == v;
      assert mine[j] in owned;
    }
    forall d | d in images && d.userId == u ensures ImageView(d, LikeCount(likes, d.id)) in r {
      var j :| 0 <= j < |owned| && owned[j] == d;
      assert mine[|mine| - 1 - j] == d;
      assert r[|mine| - 1 - j] == ImageView(d, LikeCount(likes, d.id));
    }
  }

  /** The views of one uploader's images, in the order given. */
  function ViewsOwnedBy(views: seq<ImageView>, u: UserId): (r: seq<ImageView>)
    ensures forall v :: v in r <==> v in views && v.doc.userId == u
  {
    if views == [] then []
    else (if views[0].doc.userId == u then [views[0]] else []) + ViewsOwnedBy(views[1..], u)
  }

  /**
   * `listMyImages` for a signed-in caller is the global feed restricted to the caller's
   * images: the same records, in the same newest-first order, with the same counts.
   */
  lemma MyImagesAreFeedFiltered(images: seq<ImageDoc>, likes: map<LikeId, Like>, u: UserId)
    ensures ListMyImages(images, likes, Some(u)) == ViewsOwnedBy(ListImages(images, likes), u)
  {
    MyFeedIsFeedFiltered(images, likes, u);
  }

  lemma {:induction false} MyFeedIsFeedFiltered(images: seq<ImageDoc>, likes: map<LikeId, Like>, u: UserId)
    ensures MyFeed(images, likes, u) == ViewsOwnedBy(ListImages(images, likes), u)
    decreases |images|
  {
    if images != [] {
      var init, last := images[..|images| - 1], images[|images| - 1];
      var v := ImageView(last, LikeCount(likes, last.id));
      var mine := if last.userId == u then [v] else [];
      calc {
        MyFeed(images, likes, u);
        { MyFeedLast(images, likes, u); }
        mine + MyFeed(init, likes, u);
        { MyFeedIsFeedFiltered(init, likes, u); }
        mine + ViewsOwnedBy(ListImages(init, likes), u);
        { ViewsOwnedByCons(v, ListImages(init, likes), u); }
        ViewsOwnedBy([v] + ListImages(init, likes), u);
        { FeedLast(images, likes); }
        ViewsOwnedBy(ListImages(images, likes), u);
      }
    }
  }

  /** The newest record heads the feed. */
  lemma FeedLast(docs: seq<ImageDoc>, likes: map<LikeId, Like>)
    requires docs != []
    ensures var x := docs[|docs| - 1];
      ListImages(docs, likes) == [ImageView(x, LikeCount(likes, x.id))] + ListImages(docs[..|docs| - 1], likes)
  {
    var x := docs[|docs| - 1];
    WithLikeCountsCons(x, NewestFirst(docs[..|docs| - 1]), likes);
  }

  /** The newest record heads its uploader's feed and no one else's. */
  lemma MyFeedLast(docs: seq<ImageDoc>, likes: map<LikeId, Like>, u: UserId)
    requires docs != []
    ensures var x := docs[|docs| - 1];
      MyFeed(docs, likes, u) ==
      (if x.userId == u then [ImageView(x, LikeCount(likes, x.id))] else []) + MyFeed(docs[..|docs| - 1], likes, u)
  {
    var x, init := docs[|docs| - 1], docs[..|docs| - 1];
    var owned := OwnedBy(init, u);
    if x.userId == u {
      assert OwnedBy(docs, u) == owned + [x];
      NewestFirstSnoc(owned, x);
      WithLikeCountsCons(x, NewestFirst(owned), likes);
    } else {
      assert OwnedBy(docs, u) == owned;
    }
  }

  /** A new record heads the feed. */
  lemma FeedSnoc(docs: seq<ImageDoc>, x: ImageDoc, likes: map<LikeId, Like>)
    ensures ListImages(docs + [x], likes) == [ImageView(x, LikeCount(likes, x.id))] + ListImages(docs, likes)
  {
    assert (docs + [x])[..|docs|] == docs;
    FeedLast(docs + [x], likes);
  }

  lemma NewestFirstSnoc(docs: seq<ImageDoc>, x: ImageDoc)
    ensures NewestFirst(docs + [x]) == [x] + NewestFirst(docs)
  {
    assert (docs + [x])[..|docs|] == docs;
  }

  lemma WithLikeCountsCons(x: ImageDoc, docs: seq<ImageDoc>, likes: map<LikeId, Like>)
    ensures WithLikeCounts([x] + docs, likes) == [ImageView(x, LikeCount(likes, x.id))] + WithLikeCounts(docs, likes)
  {
    assert ([x] + docs)[1..] == docs;
  }

  lemma ViewsOwnedByCons(v: ImageView, views: seq<ImageView>, u: UserId)
    ensures ViewsOwnedBy([v] + views, u) == (if v.doc.userId == u then [v] else []) + ViewsOwnedBy(views, u)
  {
    assert ([v] + views)[1..] == views;
  }

  /** Newest first: under creation order, ids strictly decrease along the feed. */
  lemma FeedIdsDescending(images: seq<ImageDoc>, likes: map<LikeId, Like>)
    requires CreationOrdered(images)
    ensures var r := ListImages(images, likes);
      forall i, j :: 0 <= i < j < |r| ==> r[i].doc.id.n > r[j].doc.id.n
  {
  }

  /** The caller's images are newest first too: under creation order, ids strictly decrease. */
  lemma MyImagesIdsDescending(images: seq<ImageDoc>, likes: map<LikeId, Like>, u: UserId)
    requires CreationOrdered(images)
    ensures var r := ListMyImages(images, likes, Some(u));
      forall i, j :: 0 <= i < j < |r| ==> r[i].doc.id.n > r[j].doc.id.n
  {
  }

  /**
   * `processAndStoreImage`: a signed-in caller's record is appended with a new id; the
   * likes and the storage are untouched. With nobody signed in, nothing changes.
   */
  method ProcessAndStoreImage(db: Database, caller: Option<UserId>, storageId: StorageId, description: Option<string>)
    returns (r: Result<ImageId>)
    requires db.Valid()
    modifies db
    ensures db.Valid()
    ensures caller.None? ==> r == Err(PleaseLogIn) && unchanged(db)
    ensures caller.Some? ==> r == Ok(ImageId(old(db.nextId)))
    ensures caller.Some? ==> Lookup(old(db.images), r.value) == None
    ensures caller.Some? ==> db.images == old(db.images) + [ImageDoc(r.value, storageId, caller.value, description)]
    ensures caller.Some? ==>
      ListImages(db.images, db.likes) ==
      [ImageView(ImageDoc(r.value, storageId, caller.value, description), LikeCount(db.likes, r.value))] + ListImages(old(db.images), db.likes)
    ensures db.likes == old(db.likes) && db.storage == old(db.storage)
  {
    if caller.None? {
      return Err(PleaseLogIn);
    }
    var id := ImageId(db.nextId);
    var doc := ImageDoc(id, storageId, caller.value, description);
    db.images := db.images + [doc];
    db.nextId := db.nextId + 1;
    r := Ok(id);
    FeedSnoc(old(db.images), doc, db.likes);
  }

  /**
   * `deleteImage`: only the signed-in owner of an existing image may delete it; then
   * its blob leaves storage and its record leaves the table. Likes are not touched, so
   * rows that reference the deleted image remain.
   */
  method DeleteImage(db: Database, caller: Option<UserId>, imageId: ImageId) returns (r: Result<()>)
    requires db.Valid()
    modifies db
    ensures db.Valid()
    ensures caller.None? ==> r == Err(PleaseLogIn) && unchanged(db)
    ensures caller.Some? && (Lookup(old(db.images), imageId).None? || Lookup(old(db.images), imageId).value.userId != caller.value) ==>
      r == Err(NotAuthorized) && unchanged(db)
    ensures r.Ok? <==>
      caller.Some? && Lookup(old(db.images), imageId).Some? && Lookup(old(db.images), imageId).value.userId == caller.value
    ensures r.Ok? ==>
      var d := Lookup(old(db.images), imageId).value;
      && db.storage == old(db.storage) - {d.storageId}
      && exists k :: 0 <= k < |old(db.images)| && old(db.images)[k] == d && db.images == old(db.images)[..k] + old(db.images)[k + 1..]
    ensures r.Ok? ==> forall d :: d in db.images <==> d in old(db.images) && d.id != imageId
    ensures db.likes == old(db.likes) && db.nextId == old(db.nextId)
  {
    if caller.None? {
      return Err(PleaseLogIn);
    }
    var found := IndexOf(db.images, imageId);
    if found.None? || db.images[found.value].userId != caller.value {
      return Err(NotAuthorized);
    }
    var k := found.value;
    var image := db.images[k];
    assert Lookup(db.images, imageId) == Some(image);
    var before := db.images;
    RemoveAtKeepsOthers(before, k, db.nextId);
    db.storage := db.storage - {image.storageId};
    db.images := before[..k] + before[k + 1..];
    r := Ok(());
  }

  /**
   * Removing the record at position k of a creation-ordered table keeps it ordered and
   * removes exactly the records with that id.
   */
  lemma RemoveAtKeepsOthers(images: seq<ImageDoc>, k: nat, bound: nat)
    requires CreationOrdered(images) && k < |images|
    requires forall i :: 0 <= i < |images| ==> images[i].id.n < bound
    ensures var rest := images[..k] + images[k + 1..];
      && CreationOrdered(rest)
      && (forall d :: d in rest <==> d in images && d.id != images[k].id)
      && (forall i :: 0 <= i < |rest| ==> rest[i].id.n < bound)
  {
    var rest := images[..k] + images[k + 1..];
    assert forall j :: 0 <= j < |rest| ==> rest[j] == images[if j < k then j else j + 1];
    forall d | d in images && d.id != images[k].id ensures d in rest {
      var j :| 0 <= j < |images| && images[j] == d;
      assert rest[if j < k then j else j - 1] == d;
    }
  }
}
