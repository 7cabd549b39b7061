/** Likes and comments on posts: toggling the caller's like, adding a comment, and reading a post's
    comments together with whether the caller likes it. */
module PostInteractionController {
  import opened Wrappers
  import opened Store
  import Seqs
  import Sorting

  /** The (user, post) pairs that have a like. */
  function Pairs(likes: seq<Like>): set<(UserId, DocId)> {
    set i | 0 <= i < |likes| :: (likes[i].user, likes[i].post)
  }

  /** `Like.findOne({ user, post })`. */
  function FindLike(likes: seq<Like>, user: UserId, post: DocId): (r: Option<nat>)
    ensures r.Some? ==> r.value < |likes| && likes[r.value].user == user && likes[r.value].post == post
    ensures r.None? <==> (user, post) !in Pairs(likes)
  {
    var r := Seqs.FirstIndex(likes, (l: Like) => l.user == user && l.post == post);
    assert r.Some? ==> (likes[r.value].user, likes[r.value].post) in Pairs(likes);
    r
  }

  /** The like table after `toggleLike`: the existing like of the pair is deleted, or else a like
      with id `freshId` is created. */
  function ToggleLikes(likes: seq<Like>, user: UserId, post: DocId, freshId: DocId): seq<Like> {
    match FindLike(likes, user, post)
    case Some(k) => Seqs.RemoveAt(likes, k)
    case None => likes + [Like(freshId, user, post)]
  }

  lemma PairsAppend(likes: seq<Like>, l: Like)
    ensures Pairs(likes + [l]) == Pairs(likes) + {(l.user, l.post)}
  {
    var s := likes + [l];
    forall x | x in Pairs(likes) ensures x in Pairs(s) {
      var i :| 0 <= i < |likes| && x == (likes[i].user, likes[i].post);
      assert s[i] == likes[i];
    }
    assert s[|likes|] == l;
  }

  lemma PairsRemove(likes: seq<Like>, k: nat)
    requires LikeUnique(likes) && k < |likes|
    ensures Pairs(Seqs.RemoveAt(likes, k)) == Pairs(likes) - {(likes[k].user, likes[k].post)}
  {
    var r := Seqs.RemoveAt(likes, k);
    forall x | x in Pairs(r) ensures x in Pairs(likes) && x != (likes[k].user, likes[k].post) {
      var i :| 0 <= i < |r| && x == (r[i].user, r[i].post);
      var i' := if i < k then i else i + 1;
      assert r[i] == likes[i'];
    }
    forall x | x in Pairs(likes) && x != (likes[k].user, likes[k].post) ensures x in Pairs(r) {
      var i :| 0 <= i < |likes| && x == (likes[i].user, likes[i].post);
      assert i != k;
      var j := if i < k then i else i - 1;
      assert r[j] == likes[i];
    }
  }

  /** Toggling flips the pair and only the pair: it leaves the like table with at most one like per
      user and post, and with the pair's like removed if it had one and added otherwise. */
  lemma ToggleFlipsPair(likes: seq<Like>, user: UserId, post: DocId, freshId: DocId)
    requires LikeUnique(likes)
    ensures LikeUnique(ToggleLikes(likes, user, post, freshId))
    ensures (user, post) in Pairs(likes) ==>
      Pairs(ToggleLikes(likes, user, post, freshId)) == Pairs(likes) - {(user, post)}
    ensures (user, post) !in Pairs(likes) ==>
      Pairs(ToggleLikes(likes, user, post, freshId)) == Pairs(likes) + {(user, post)}
  {
    match FindLike(likes, user, post)
    case Some(k) =>
      PairsRemove(likes, k);
      var r := Seqs.RemoveAt(likes, k);
      forall i, j | 0 <= i < j < |r| ensures r[i].user != r[j].user || r[i].post != r[j].post {
        var i' := if i < k then i else i + 1;
        var j' := if j < k then j else j + 1;
        assert r[i] == likes[i'] && r[j] == likes[j'];
      }
    case None =>
      PairsAppend(likes, Like(freshId, user, post));
      var r := likes + [Like(freshId, user, post)];
      forall i | 0 <= i < |likes| ensures likes[i].user != user || likes[i].post != post {
        assert (likes[i].user, likes[i].post) in Pairs(likes);
      }
  }

  /** Toggling twice restores the set of liked pairs. */
  lemma ToggleTwice(likes: seq<Like>, user: UserId, post: DocId, id1: DocId, id2: DocId)
    requires LikeUnique(likes)
    ensures Pairs(ToggleLikes(ToggleLikes(likes, user, post, id1), user, post, id2)) == Pairs(likes)
  {
    ToggleFlipsPair(likes, user, post, id1);
    ToggleFlipsPair(ToggleLikes(likes, user, post, id1), user, post, id2);
  }

  /** `toggleLike`: deletes the caller's like of the post and answers `liked: false` (200), or
      creates one and answers `liked: true` (201). */
  method ToggleLike(db: Database, userId: UserId, postId: DocId) returns (status: int, liked: bool)
    requires db.Valid()
    modifies db`likes, db`nextId
    ensures db.Valid()
    ensures db.likes == ToggleLikes(old(db.likes), userId, postId, old(db.nextId))
    ensures liked <==> (userId, postId) in Pairs(db.likes)
    ensures liked <==> (userId, postId) !in Pairs(old(db.likes))
    ensures status == (if liked then 201 else 200)
    ensures db.nextId == old(db.nextId) + (if liked then 1 else 0)
  {
    ToggleFlipsPair(db.likes, userId, postId, db.nextId);
    var existing := FindLike(db.likes, userId, postId);
    if existing.Some? {
      IdsBelowRemove(db.likes, LikeId, db.nextId, existing.value);
      db.likes := Seqs.RemoveAt(db.likes, existing.value);
      return 200, false;
    }
    var like := Like(db.nextId, userId, postId);
    IdsBelowAppend(db.likes, LikeId, db.nextId, like);
    db.likes := db.likes + [like];
    db.nextId := db.nextId + 1;
    status, liked := 201, true;
  }

  /** `addComment`: one comment by the caller on the post, with the given text, is stored (201). */
  method AddComment(db: Database, userId: UserId, postId: DocId, text: string) returns (status: int)
    requires db.Valid()
    modifies db`comments, db`nextId
    ensures db.Valid()
    ensures status == 201
    ensures db.comments == old(db.comments) + [Comment(old(db.nextId), userId, postId, text, old(db.nextId))]
    ensures db.nextId == old(db.nextId) + 1
  {
    var comment := Comment(db.nextId, userId, postId, text, db.nextId);
    IdsBelowAppend(db.comments, CommentId, db.nextId, comment);
    db.comments := db.comments + [comment];
    db.nextId := db.nextId + 1;
    status := 201;
  }

  function NewestFirstKey(c: Comment): int { 0 - c.createdAt as int }

  datatype Interactions = Interactions(isLiked: bool, comments: seq<Comment>)

  /** `getPostInteractions`: whether the caller likes the post, and exactly the post's comments,
      newest first, each as often as it is stored. */
  function GetPostInteractions(likes: seq<Like>, comments: seq<Comment>, userId: UserId, postId: DocId)
    : (r: Interactions)
    ensures r.isLiked <==> (userId, postId) in Pairs(likes)
    ensures forall c :: c in r.comments <==> c in comments && c.post == postId
    ensures forall c :: multiset(r.comments)[c] == if c.post == postId then multiset(comments)[c] else 0
    ensures forall i, j :: 0 <= i < j < |r.comments| ==> r.comments[i].createdAt >= r.comments[j].createdAt
  {
    var ofPost := (c: Comment) => c.post == postId;
    Sorting.SelectSorted(comments, ofPost, NewestFirstKey);
    Interactions(FindLike(likes, userId, postId).Some?, Sorting.SortBy(Seqs.Filter(comments, ofPost), NewestFirstKey))
  }

  /** Right after a toggle, the post's interactions report the new like state. */
  lemma ToggleShowsInInteractions(likes: seq<Like>, comments: seq<Comment>, user: UserId, post: DocId,
    freshId: DocId)
    requires LikeUnique(likes)
    ensures GetPostInteractions(ToggleLikes(likes, user, post, freshId), comments, user, post).isLiked
      == !GetPostInteractions(likes, comments, user, post).isLiked
  {
    ToggleFlipsPair(likes, user, post, freshId);
  }
}
