/**
 * The application tables of convex/schema.ts and the state the handlers work on:
 * the `images` table in creation order, the `likes` table as rows keyed by their
 * document id, and the set of live blobs in file storage.
 */
module Schema {
  import opened Wrappers

  /** Document and storage ids are opaque to the application; they only need to be told apart. */
  datatype UserId = UserId(n: nat)
  datatype ImageId = ImageId(n: nat)
  datatype LikeId = LikeId(n: nat)
  datatype StorageId = StorageId(n: nat)

  /** A row of `images`: its id, the stored blob, the uploader and an optional caption. */
  datatype ImageDoc = ImageDoc(id: ImageId, storageId: StorageId, userId: UserId, description: Option<string>)

  /** A row of `likes`, without its own id: who liked which image. */
  datatype Like = Like(userId: UserId, imageId: ImageId)

  /** The message every handler throws when no user is signed in. */
  const PleaseLogIn: string := "Please log in"

  /** Images are kept in creation order, and ids are issued in increasing order. */
  predicate CreationOrdered(images: seq<ImageDoc>)
  {
    forall i, j :: 0 <= i < j < |images| ==> images[i].id.n < images[j].id.n
  }

  /**
   * At most one row per (user, image) pair, as the `by_user_and_image` index with
   * `.unique()` expects.
   */
  predicate UniquePairs(likes: map<LikeId, Like>)
  {
    forall a, b :: a in likes && b in likes && likes[a] == likes[b] ==> a == b
  }

  /** The pairs that are liked, forgetting the rows' ids. */
  function Pairs(likes: map<LikeId, Like>): set<Like>
  {
    likes.Values
  }

  /** The database a Convex handler sees through `ctx.db` and `ctx.storage`. */
  class Database {
    var images: seq<ImageDoc>
    var likes: map<LikeId, Like>
    var storage: set<StorageId>
    /** The next document id the platform will issue. */
    var nextId: nat

    ghost predicate Valid()
      reads this
    {
      && CreationOrdered(images)
      && (forall i :: 0 <= i < |images| ==> images[i].id.n < nextId)
      && UniquePairs(likes)
      && (forall k :: k in likes ==> k.n < nextId)
    }

    /** An empty database over the blobs already in file storage. */
    constructor (blobs: set<StorageId>)
      ensures Valid()
      ensures images == [] && likes == map[] && storage == blobs
    {
      images, likes, storage, nextId := [], map[], blobs, 0;
    }
  }
}
