/** Posts: creation (at least one uploaded image), the caller's own posts, the friends feed, delete
    (owner only) and update (caption plus kept and newly uploaded images). */
module PostController {
  import opened Wrappers
  import opened Store
  import Seqs
  import Sorting
  import Json
  import UserController

  /** The sort key of `.sort({ createdAt: -1 })`: ascending on it is newest first. */
  function NewestFirstKey(p: Post): int { 0 - p.createdAt as int }

  predicate NewestFirst(s: seq<Post>) {
    forall i, j :: 0 <= i < j < |s| ==> s[i].createdAt >= s[j].createdAt
  }

  /** The posts that pass `p`, newest first: each as often as it is stored, and no other. */
  function Query(posts: seq<Post>, p: Post -> bool): (r: seq<Post>)
    ensures NewestFirst(r)
    ensures forall x :: x in r <==> x in posts && p(x)
    ensures forall x :: multiset(r)[x] == if p(x) then multiset(posts)[x] else 0
  {
    Sorting.SelectSorted(posts, p, NewestFirstKey);
    Sorting.SortBy(Seqs.Filter(posts, p), NewestFirstKey)
  }

  /** A `required: true` string field of the post schema accepts the value (present, not empty). */
  predicate Provided(v: Option<string>) {
    v.Some? && v.value != ""
  }

  /** `createPost`: 400 and nothing stored without image paths; the schema rejects a missing or
      empty caption or privacy (500, nothing stored); otherwise one post by the caller holding the
      paths in order is stored and 201 returned. */
  method CreatePost(db: Database, userId: UserId, caption: Option<string>, privacy: Option<string>,
    imagePaths: Option<seq<string>>) returns (status: int)
    requires db.Valid()
    modifies db`posts, db`nextId
    ensures db.Valid()
    ensures imagePaths.None? || imagePaths.value == [] ==>
      status == 400 && db.posts == old(db.posts) && db.nextId == old(db.nextId)
    ensures imagePaths.Some? && imagePaths.value != [] && !(Provided(caption) && Provided(privacy)) ==>
      status == 500 && db.posts == old(db.posts) && db.nextId == old(db.nextId)
    ensures imagePaths.Some? && imagePaths.value != [] && Provided(caption) && Provided(privacy) ==>
      && status == 201
      && db.posts == old(db.posts) + [Post(old(db.nextId), userId, imagePaths.value, caption.value,
                                           privacy.value, old(db.nextId))]
      && db.nextId == old(db.nextId) + 1
  {
    if imagePaths.None? || imagePaths.value == [] {
      return 400;
    }
    if !Provided(caption) || !Provided(privacy) {
      return 500;
    }
    var post := Post(db.nextId, userId, imagePaths.value, caption.value, privacy.value, db.nextId);
    IdsBelowAppend(db.posts, PostId, db.nextId, post);
    db.posts := db.posts + [post];
    db.nextId := db.nextId + 1;
    status := 201;
  }

  /** `getPost`: exactly the caller's posts, newest first, each once per stored copy. */
  function GetPost(posts: seq<Post>, userId: UserId): (r: seq<Post>)
    ensures NewestFirst(r)
    ensures forall p :: p in r <==> p in posts && p.userId == userId
    ensures forall p :: multiset(r)[p] == if p.userId == userId then multiset(posts)[p] else 0
  {
    Query(posts, (p: Post) => p.userId == userId)
  }

  /** `getPosts`, the friends feed: exactly the posts whose author is linked to the caller by an
      accepted request, newest first, each once per stored copy. */
  function GetPosts(requests: seq<FriendRequest>, posts: seq<Post>, userId: UserId): (r: seq<Post>)
    ensures NewestFirst(r)
    ensures forall p :: p in r <==> p in posts && UserController.IsFriendBy(requests, userId, p.userId)
    ensures forall p :: multiset(r)[p]
                        == (if UserController.IsFriendBy(requests, userId, p.userId) then multiset(posts)[p] else 0)
  {
    var friendIds := UserController.GetFriendList(requests, userId);
    Query(posts, (p: Post) => p.userId in friendIds)
  }

  /** A post the caller just created shows in the caller's own list. */
  lemma CreatedPostListed(posts: seq<Post>, post: Post)
    ensures post in GetPost(posts + [post], post.userId)
  {
    assert (posts + [post])[|posts|] == post;
  }

  /** `Post.findById(id)`. */
  function FindPost(posts: seq<Post>, id: DocId): (r: Option<nat>)
    ensures r.Some? ==> r.value < |posts| && posts[r.value].id == id
    ensures r.None? ==> forall i :: 0 <= i < |posts| ==> posts[i].id != id
  {
    Seqs.FirstIndex(posts, (p: Post) => p.id == id)
  }

  /** `deletePost`: 404 for an unknown post, 403 unless the caller owns it, both without change;
      otherwise that post, and no other, is removed. */
  method DeletePost(db: Database, postId: DocId, caller: UserId) returns (status: int)
    requires db.Valid()
    modifies db`posts
    ensures db.Valid()
    ensures FindPost(old(db.posts), postId).None? ==> status == 404 && db.posts == old(db.posts)
    ensures FindPost(old(db.posts), postId).Some? ==>
      var k := FindPost(old(db.posts), postId).value;
      if old(db.posts)[k].userId != caller then status == 403 && db.posts == old(db.posts)
      else
        && status == 200
        && db.posts == Seqs.RemoveAt(old(db.posts), k)
        && (forall i :: 0 <= i < |db.posts| ==> db.posts[i].id != postId)
        && multiset(db.posts) + multiset{old(db.posts)[k]} == multiset(old(db.posts))
  {
    var found := FindPost(db.posts, postId);
    if found.None? {
      return 404;
    }
    var k := found.value;
    if db.posts[k].userId != caller {
      return 403;
    }
    IdsBelowRemove(db.posts, PostId, db.nextId, k);
    db.posts := Seqs.RemoveAt(db.posts, k);
    forall i | 0 <= i < |db.posts| ensures db.posts[i].id != postId {
      var i' := if i < k then i else i + 1;
      assert db.posts[i] == old(db.posts)[i'];
    }
    status := 200;
  }

  /** The kept image paths of an update: none when the field is absent or empty (falsy), else
      `JSON.parse` of it, which fails (None) on anything but an array of strings. */
  function ExistingImages(imagePaths: Option<string>): (r: Option<seq<string>>)
    ensures imagePaths.None? || imagePaths.value == [] ==> r == Some([])
  {
    if imagePaths.None? || imagePaths.value == [] then Some([])
    else Json.ParseStringArray(imagePaths.value)
  }

  /** What the edit page sends as `imagePaths` comes back as the same list. */
  lemma ExistingImagesOfStringify(kept: seq<string>)
    ensures ExistingImages(Some(Json.Stringify(kept))) == Some(kept)
  {
    Json.ParseStringify(kept);
  }

  /** `updatePost`: 400 without a post id or with unreadable `imagePaths`, 404 for an unknown post,
      all without change; otherwise the post's caption becomes the given one ("" when absent) and
      its images the kept paths followed by the new uploads, in order; id, author, privacy and
      creation time stay. The caller's ownership is not checked. */
  method UpdatePost(db: Database, postId: Option<DocId>, caption: Option<string>,
    imagePaths: Option<string>, uploaded: seq<string>) returns (status: int)
    requires db.Valid()
    modifies db`posts
    ensures db.Valid()
    ensures postId.None? ==> status == 400 && db.posts == old(db.posts)
    ensures postId.Some? && ExistingImages(imagePaths).None? ==>
      status == 400 && db.posts == old(db.posts)
    ensures postId.Some? && ExistingImages(imagePaths).Some? ==>
      match FindPost(old(db.posts), postId.value)
      case None => status == 404 && db.posts == old(db.posts)
      case Some(k) =>
        && status == 200
        && |db.posts| == |old(db.posts)|
        && db.posts[k] == old(db.posts)[k].(caption := caption.GetOr(""),
                                            images := ExistingImages(imagePaths).value + uploaded)
        && (forall i :: 0 <= i < |db.posts| && i != k ==> db.posts[i] == old(db.posts)[i])
  {
    if postId.None? {
      return 400;
    }
    var existing := ExistingImages(imagePaths);
    if existing.None? {
      return 400;
    }
    var found := FindPost(db.posts, postId.value);
    if found.None? {
      return 404;
    }
    var k := found.value;
    var post := db.posts[k].(caption := caption.GetOr(""), images := existing.value + uploaded);
    IdsBelowUpdate(db.posts, PostId, db.nextId, k, post);
    db.posts := db.posts[k := post];
    status := 200;
  }
}
