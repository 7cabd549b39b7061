/** The document store behind the controllers: one sequence per Mongo collection, in natural
    (insertion) order, plus the log of events the realtime server is asked to emit. Documents the
    controllers create get their `_id` and their creation time from one counter, `nextId`. */
module Store {
  import opened Wrappers
  import opened MessageStatus
  import Seqs

  /** A user's `_id` as the authentication middleware hands it over (`req.userId`). */
  type UserId = string

  /** The `_id` of a document the store created. */
  type DocId = nat

  datatype User = User(
    id: UserId, firstName: string, lastName: string, email: string, isOnline: bool,
    friends: seq<UserId>)

  datatype RequestStatus = Pending | Accepted | Declined

  datatype FriendRequest = FriendRequest(
    id: DocId, sender: UserId, receiver: UserId, status: RequestStatus)

  /** The `type` enum of the notification schema. */
  datatype NotificationKind = LikeKind | CommentKind | FriendRequestKind | FriendAcceptKind

  datatype Notification = Notification(
    id: DocId, recipient: UserId, kind: NotificationKind, message: string,
    requestId: Option<DocId>, isRead: bool, createdAt: nat)

  datatype Post = Post(
    id: DocId, userId: UserId, images: seq<string>, caption: string, privacy: string,
    createdAt: nat)

  datatype Like = Like(id: DocId, user: UserId, post: DocId)

  datatype Comment = Comment(id: DocId, user: UserId, post: DocId, text: string, createdAt: nat)

  datatype Profile = Profile(id: DocId, userId: UserId, bio: string, image: string)

  datatype StoredMessage = StoredMessage(
    sender: UserId, receiver: UserId, text: string, status: Status, createdAt: int)

  /** What a controller asks the realtime server to send to a user's room. */
  datatype ServerEvent =
    | ReceiveNotification(notification: Notification)
    | RemoveNotification(requestId: DocId, kind: NotificationKind)

  datatype Emit = Emit(room: UserId, event: ServerEvent)

  // ---- invariants of single tables ----

  predicate NoDuplicates<T(==)>(s: seq<T>) {
    forall i, j :: 0 <= i < j < |s| ==> s[i] != s[j]
  }

  /** Every id was handed out before `bound`, and no two documents share one. */
  predicate IdsBelow<T>(s: seq<T>, id: T -> DocId, bound: nat) {
    (forall i :: 0 <= i < |s| ==> id(s[i]) < bound)
    && (forall i, j :: 0 <= i < j < |s| ==> id(s[i]) != id(s[j]))
  }

  function RequestId(r: FriendRequest): DocId { r.id }
  function NotificationId(n: Notification): DocId { n.id }
  function PostId(p: Post): DocId { p.id }
  function LikeId(l: Like): DocId { l.id }
  function CommentId(c: Comment): DocId { c.id }
  function ProfileId(p: Profile): DocId { p.id }

  /** The friends relation is symmetric among stored users, and no list repeats a friend. */
  predicate UsersOk(users: seq<User>) {
    && (forall i, j :: 0 <= i < j < |users| ==> users[i].id != users[j].id)
    && (forall i, j :: 0 <= i < |users| && 0 <= j < |users| ==>
          (users[j].id in users[i].friends <==> users[i].id in users[j].friends))
    && (forall i :: 0 <= i < |users| ==> NoDuplicates(users[i].friends))
  }

  /** The two requests link the same two users, in either direction. */
  predicate SamePair(a: FriendRequest, b: FriendRequest) {
    (a.sender == b.sender && a.receiver == b.receiver)
    || (a.sender == b.receiver && a.receiver == b.sender)
  }

  /** At most one pending request links any two users. */
  predicate PendingUnique(requests: seq<FriendRequest>) {
    forall i, j ::
      (0 <= i < j < |requests| && requests[i].status == Pending && requests[j].status == Pending)
      ==> !SamePair(requests[i], requests[j])
  }

  /** At most one `friend_accept` notification per request and recipient. */
  predicate AcceptNoticeUnique(ns: seq<Notification>) {
    forall i, j ::
      (0 <= i < j < |ns| && ns[i].kind == FriendAcceptKind && ns[j].kind == FriendAcceptKind
       && ns[i].recipient == ns[j].recipient)
      ==> ns[i].requestId != ns[j].requestId
  }

  /** At most one like per user and post. */
  predicate LikeUnique(likes: seq<Like>) {
    forall i, j :: 0 <= i < j < |likes| ==>
      likes[i].user != likes[j].user || likes[i].post != likes[j].post
  }

  /** At most one profile per user. */
  predicate ProfileUnique(profiles: seq<Profile>) {
    forall i, j :: 0 <= i < j < |profiles| ==> profiles[i].userId != profiles[j].userId
  }

  // ---- lookups ----

  /** `User.findById(id)`. */
  function FindUser(users: seq<User>, id: UserId): (r: Option<nat>)
    ensures r.Some? ==> r.value < |users| && users[r.value].id == id
    ensures r.None? ==> forall i :: 0 <= i < |users| ==> users[i].id != id
  {
    Seqs.FirstIndex(users, (u: User) => u.id == id)
  }

  /** `FriendRequest.findById(id)`. */
  function FindRequest(requests: seq<FriendRequest>, id: DocId): (r: Option<nat>)
    ensures r.Some? ==> r.value < |requests| && requests[r.value].id == id
    ensures r.None? ==> forall i :: 0 <= i < |requests| ==> requests[i].id != id
  {
    Seqs.FirstIndex(requests, (q: FriendRequest) => q.id == id)
  }

  // ---- facts about fresh ids ----

  /** Appending a document that carries the next id keeps ids below the advanced counter and distinct. */
  lemma IdsBelowAppend<T>(s: seq<T>, id: T -> DocId, bound: nat, x: T)
    requires IdsBelow(s, id, bound)
    requires id(x) == bound
    ensures IdsBelow(s + [x], id, bound + 1)
  {
  }

  lemma IdsBelowGrow<T>(s: seq<T>, id: T -> DocId, bound: nat, bound': nat)
    requires IdsBelow(s, id, bound) && bound <= bound'
    ensures IdsBelow(s, id, bound')
  {
  }

  /** Advancing the id counter keeps the ids of the tables a request or a notification does not
      touch below it. */
  lemma OtherTablesGrow(posts: seq<Post>, likes: seq<Like>, comments: seq<Comment>, profiles: seq<Profile>,
                        bound: nat, bound': nat)
    requires IdsBelow(posts, PostId, bound) && IdsBelow(likes, LikeId, bound)
    requires IdsBelow(comments, CommentId, bound) && IdsBelow(profiles, ProfileId, bound)
    requires bound <= bound'
    ensures IdsBelow(posts, PostId, bound') && IdsBelow(likes, LikeId, bound')
    ensures IdsBelow(comments, CommentId, bound') && IdsBelow(profiles, ProfileId, bound')
  {
    IdsBelowGrow(posts, PostId, bound, bound');
    IdsBelowGrow(likes, LikeId, bound, bound');
    IdsBelowGrow(comments, CommentId, bound, bound');
    IdsBelowGrow(profiles, ProfileId, bound, bound');
  }

  lemma IdsBelowRemove<T>(s: seq<T>, id: T -> DocId, bound: nat, k: nat)
    requires IdsBelow(s, id, bound) && k < |s|
    ensures IdsBelow(Seqs.RemoveAt(s, k), id, bound)
  {
    var r := Seqs.RemoveAt(s, k);
    forall i, j | 0 <= i < j < |r| ensures id(r[i]) != id(r[j]) {
      var i' := if i < k then i else i + 1;
      var j' := if j < k then j else j + 1;
      assert r[i] == s[i'] && r[j] == s[j'];
    }
  }

  /** Ids are distinct, so removing the document with an id leaves none with it. */
  lemma RemovedIdGone<T>(s: seq<T>, id: T -> DocId, bound: nat, k: nat)
    requires IdsBelow(s, id, bound) && k < |s|
    ensures forall i :: 0 <= i < |Seqs.RemoveAt(s, k)| ==> id(Seqs.RemoveAt(s, k)[i]) != id(s[k])
  {
    var r := Seqs.RemoveAt(s, k);
    forall i | 0 <= i < |r| ensures id(r[i]) != id(s[k]) {
      var i' := if i < k then i else i + 1;
      assert r[i] == s[i'];
    }
  }

  lemma IdsBelowUpdate<T>(s: seq<T>, id: T -> DocId, bound: nat, k: nat, x: T)
    requires IdsBelow(s, id, bound) && k < |s| && id(x) == id(s[k])
    ensures IdsBelow(s[k := x], id, bound)
  {
  }

  class Database {
    var users: seq<User>
    var requests: seq<FriendRequest>
    var notifications: seq<Notification>
    var posts: seq<Post>
    var likes: seq<Like>
    var comments: seq<Comment>
    var profiles: seq<Profile>
    var messages: seq<StoredMessage>
    var emitted: seq<Emit>
    var nextId: nat

    /** The uniqueness conjuncts hold because every handler is one atomic step: the handlers check,
        then create, and nothing in the tables forbids a duplicate when two of them interleave. */
    ghost predicate Valid()
      reads this
    {
      && UsersOk(users)
      && IdsBelow(requests, RequestId, nextId) && PendingUnique(requests)
      && IdsBelow(notifications, NotificationId, nextId) && AcceptNoticeUnique(notifications)
      && IdsBelow(posts, PostId, nextId)
      && IdsBelow(likes, LikeId, nextId) && LikeUnique(likes)
      && IdsBelow(comments, CommentId, nextId)
      && IdsBelow(profiles, ProfileId, nextId) && ProfileUnique(profiles)
    }

    /** A store holding the registered users and the chat history, and nothing else yet. */
    constructor (accounts: seq<User>, history: seq<StoredMessage>)
      requires UsersOk(accounts)
      ensures Valid()
      ensures users == accounts && messages == history
      ensures requests == [] && notifications == [] && posts == [] && likes == []
      ensures comments == [] && profiles == [] && emitted == [] && nextId == 0
    {
      users, messages := accounts, history;
      requests, notifications, posts, likes, comments, profiles := [], [], [], [], [], [];
      emitted, nextId := [], 0;
    }

    /** Stores a request under the next id. */
    method AddRequest(r: FriendRequest)
      requires Valid() && r.id == nextId && PendingUnique(requests + [r])
      modifies this`requests, this`nextId
      ensures Valid()
      ensures requests == old(requests) + [r] && nextId == old(nextId) + 1
    {
      IdsBelowAppend(requests, RequestId, nextId, r);
      IdsBelowGrow(notifications, NotificationId, nextId, nextId + 1);
      OtherTablesGrow(posts, likes, comments, profiles, nextId, nextId + 1);
      requests := requests + [r];
      nextId := nextId + 1;
    }

    /** `deleteOne` on the request at position `k`. */
    method DeleteRequest(k: nat)
      requires Valid() && k < |requests| && PendingUnique(Seqs.RemoveAt(requests, k))
      modifies this`requests
      ensures Valid()
      ensures requests == Seqs.RemoveAt(old(requests), k)
    {
      IdsBelowRemove(requests, RequestId, nextId, k);
      requests := Seqs.RemoveAt(requests, k);
    }

    /** `deleteOne` on the notification at position `k`. */
    method DeleteNotification(k: nat)
      requires Valid() && k < |notifications| && AcceptNoticeUnique(Seqs.RemoveAt(notifications, k))
      modifies this`notifications
      ensures Valid()
      ensures notifications == Seqs.RemoveAt(old(notifications), k)
    {
      IdsBelowRemove(notifications, NotificationId, nextId, k);
      notifications := Seqs.RemoveAt(notifications, k);
    }

    /** Stores a notification under the next id and pushes it to its recipient's room. */
    method Notify(n: Notification)
      requires Valid() && n.id == nextId && AcceptNoticeUnique(notifications + [n])
      modifies this`notifications, this`nextId, this`emitted
      ensures Valid()
      ensures notifications == old(notifications) + [n] && nextId == old(nextId) + 1
      ensures emitted == old(emitted) + [Emit(n.recipient, ReceiveNotification(n))]
    {
      IdsBelowAppend(notifications, NotificationId, nextId, n);
      IdsBelowGrow(requests, RequestId, nextId, nextId + 1);
      OtherTablesGrow(posts, likes, comments, profiles, nextId, nextId + 1);
      notifications := notifications + [n];
      nextId := nextId + 1;
      emitted := emitted + [Emit(n.recipient, ReceiveNotification(n))];
    }
  }
}
