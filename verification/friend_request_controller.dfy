/** The friend-request endpoints: send, list, respond (accept or decline) and cancel. Each handler
    reads and writes the store step by step, in the order the controller issues its queries, and
    returns the HTTP status code it answers with. */
module FriendRequestController {
  import opened Wrappers
  import opened Store
  import Seqs

  /** `r` is a pending request between `a` and `b`, in either direction. */
  predicate IsPendingBetween(r: FriendRequest, a: UserId, b: UserId) {
    r.status == Pending
    && ((r.sender == a && r.receiver == b) || (r.sender == b && r.receiver == a))
  }

  predicate HasPendingBetween(requests: seq<FriendRequest>, a: UserId, b: UserId) {
    exists i :: 0 <= i < |requests| && IsPendingBetween(requests[i], a, b)
  }

  function RequestMessage(sender: User): string {
    sender.firstName + " " + sender.lastName + " sent you a friend request."
  }

  function AcceptMessage(receiver: User): string {
    "You are now friends with " + receiver.firstName + " " + receiver.lastName + "."
  }

  /** The status a response stores: "accepted" exactly for the action "accept". */
  function ResponseStatus(action: string): (s: RequestStatus)
    ensures s == Accepted <==> action == "accept"
    ensures s != Pending
  {
    if action == "accept" then Accepted else Declined
  }

  /** Appending a new pending request keeps one pending request per pair when none linked the pair. */
  lemma PendingUniqueAppend(requests: seq<FriendRequest>, r: FriendRequest)
    requires PendingUnique(requests)
    requires !HasPendingBetween(requests, r.sender, r.receiver)
    ensures PendingUnique(requests + [r])
  {
    var s := requests + [r];
    forall i, j | 0 <= i < j < |s| && s[i].status == Pending && s[j].status == Pending
      ensures !SamePair(s[i], s[j])
    {
      if j == |requests| {
        assert s[i] == requests[i];
        assert !IsPendingBetween(requests[i], r.sender, r.receiver);
      }
    }
  }

  /** Answering a request never creates a pending one, so it keeps one pending request per pair. */
  lemma PendingUniqueRespond(requests: seq<FriendRequest>, k: nat, s: RequestStatus)
    requires PendingUnique(requests) && k < |requests| && s != Pending
    ensures PendingUnique(requests[k := requests[k].(status := s)])
  {
  }

  /** Removing a request keeps one pending request per pair. */
  lemma PendingUniqueRemove(requests: seq<FriendRequest>, k: nat)
    requires PendingUnique(requests) && k < |requests|
    ensures PendingUnique(Seqs.RemoveAt(requests, k))
  {
    var r := Seqs.RemoveAt(requests, k);
    forall i, j | 0 <= i < j < |r| && r[i].status == Pending && r[j].status == Pending
      ensures !SamePair(r[i], r[j])
    {
      var i' := if i < k then i else i + 1;
      var j' := if j < k then j else j + 1;
      assert r[i] == requests[i'] && r[j] == requests[j'];
    }
  }

  /** Adds `friendId` to the friends of user `k` unless it is already there
      (`if (!user.friends.includes(id)) user.friends.push(id)`). */
  function AddFriend(users: seq<User>, k: nat, friendId: UserId): (r: seq<User>)
    requires k < |users|
    ensures |r| == |users|
    ensures friendId in r[k].friends
    ensures forall i :: 0 <= i < |users| && i != k ==> r[i] == users[i]
    ensures r[k].id == users[k].id
  {
    var u := users[k];
    if friendId in u.friends then users
    else users[k := u.(friends := u.friends + [friendId])]
  }

  /** `AddFriend` keeps every id and every friend list free of repeats, and adds exactly
      `friendId` to the friends of user `k`. */
  lemma AddFriendSpec(users: seq<User>, k: nat, friendId: UserId)
    requires k < |users| && forall p :: 0 <= p < |users| ==> NoDuplicates(users[p].friends)
    ensures var r := AddFriend(users, k, friendId);
      forall p :: 0 <= p < |users| ==> r[p].id == users[p].id && NoDuplicates(r[p].friends)
    ensures var r := AddFriend(users, k, friendId);
      forall p, x :: 0 <= p < |users| ==>
        (x in r[p].friends <==> x in users[p].friends || (p == k && x == friendId))
  {
    var u := users[k];
    if friendId !in u.friends {
      var fs := u.friends + [friendId];
      forall a, b | 0 <= a < b < |fs| ensures fs[a] != fs[b] {
        if b == |u.friends| {
          assert fs[a] == u.friends[a];
        }
      }
    }
  }

  /** Accepting a request between the stored users at `i` and `j` makes each a friend of the other,
      keeps the friends relation symmetric and free of repeats, and changes no other user. */
  lemma BefriendKeepsUsersOk(users: seq<User>, i: nat, j: nat)
    requires UsersOk(users) && i < |users| && j < |users|
    ensures var r := AddFriend(AddFriend(users, i, users[j].id), j, users[i].id);
      && UsersOk(r)
      && users[j].id in r[i].friends && users[i].id in r[j].friends
      && (forall k :: 0 <= k < |users| && k != i && k != j ==> r[k] == users[k])
  {
    var a, b := users[i].id, users[j].id;
    var m := AddFriend(users, i, b);
    AddFriendSpec(users, i, b);
    var r := AddFriend(m, j, a);
    AddFriendSpec(m, j, a);
    forall p, q | 0 <= p < |r| && 0 <= q < |r|
      ensures r[q].id in r[p].friends <==> r[p].id in r[q].friends
    {
      // An id names one user, so the two new links are exactly the pair (i, j) both ways.
      assert r[q].id == b <==> q == j;
      assert r[p].id == b <==> p == j;
      assert r[q].id == a <==> q == i;
      assert r[p].id == a <==> p == i;
    }
  }

  /** The two pushes as the handler performs them: both user documents are loaded before either is
      saved, so each `includes` test reads the friends list as it was loaded, and each save appends
      its new id to the stored list (Mongoose saves a `push` as `$push`). */
  function BefriendAsWritten(users: seq<User>, i: nat, j: nat): (r: seq<User>)
    requires i < |users| && j < |users|
    ensures |r| == |users|
    ensures forall k :: 0 <= k < |users| ==> r[k].id == users[k].id
  {
    var a, b := users[i].id, users[j].id;
    var m := if b in users[i].friends then users else users[i := users[i].(friends := users[i].friends + [b])];
    if a in users[j].friends then m else m[j := m[j].(friends := m[j].friends + [a])]
  }

  /** For two different users the stale copies do not matter: the pushes as written are the two
      `AddFriend` steps. */
  lemma BefriendAsWrittenAgrees(users: seq<User>, i: nat, j: nat)
    requires i < |users| && j < |users| && i != j
    ensures BefriendAsWritten(users, i, j) == AddFriend(AddFriend(users, i, users[j].id), j, users[i].id)
  {
    var m := AddFriend(users, i, users[j].id);
    assert m[j] == users[j];
  }

  /** A request a user sent to themselves (nothing refuses one) has the same document as sender and
      receiver; accepting it stores that user's own id twice in their friends list, whereas the
      intended step, `AddFriend` twice, stores it once. */
  lemma SelfRequestRepeatsFriend()
    ensures var users := [User("u", "A", "B", "a@b.c", false, [])];
      && BefriendAsWritten(users, 0, 0)[0].friends == ["u", "u"]
      && !NoDuplicates(BefriendAsWritten(users, 0, 0)[0].friends)
      && AddFriend(AddFriend(users, 0, "u"), 0, "u")[0].friends == ["u"]
  {
    var users := [User("u", "A", "B", "a@b.c", false, [])];
    var r := BefriendAsWritten(users, 0, 0);
    assert r[0].friends == ["u", "u"];
    assert r[0].friends[0] == r[0].friends[1];
  }

  /** Appending an acceptance notification for which none exists keeps them unique. */
  lemma AcceptNoticeAppend(ns: seq<Notification>, n: Notification)
    requires AcceptNoticeUnique(ns)
    requires forall i :: 0 <= i < |ns| ==>
      !(ns[i].recipient == n.recipient && ns[i].kind == FriendAcceptKind && ns[i].requestId == n.requestId)
    ensures AcceptNoticeUnique(ns + [n])
  {
  }

  /** Appending a notification of another kind keeps acceptance notifications unique. */
  lemma AcceptNoticeAppendOther(ns: seq<Notification>, n: Notification)
    requires AcceptNoticeUnique(ns) && n.kind != FriendAcceptKind
    ensures AcceptNoticeUnique(ns + [n])
  {
  }

  lemma AcceptNoticeRemove(ns: seq<Notification>, k: nat)
    requires AcceptNoticeUnique(ns) && k < |ns|
    ensures AcceptNoticeUnique(Seqs.RemoveAt(ns, k))
  {
    var r := Seqs.RemoveAt(ns, k);
    forall i, j | 0 <= i < j < |r| && r[i].kind == FriendAcceptKind && r[j].kind == FriendAcceptKind
      && r[i].recipient == r[j].recipient
      ensures r[i].requestId != r[j].requestId
    {
      var i' := if i < k then i else i + 1;
      var j' := if j < k then j else j + 1;
      assert r[i] == ns[i'] && r[j] == ns[j'];
    }
  }

  /** `sendFriendRequest`: 400 when a pending request already links the two users; otherwise the
      request is stored first, then 404 if the sender is unknown (the request stays), else one
      `friend_request` notification for the receiver is stored and pushed to the receiver's room. */
  method SendFriendRequest(db: Database, sender: UserId, receiver: UserId) returns (status: int)
    requires db.Valid()
    modifies db`requests, db`notifications, db`emitted, db`nextId
    ensures db.Valid()
    ensures HasPendingBetween(old(db.requests), sender, receiver) ==>
      && status == 400 && db.requests == old(db.requests)
      && db.notifications == old(db.notifications) && db.emitted == old(db.emitted)
      && db.nextId == old(db.nextId)
    ensures !HasPendingBetween(old(db.requests), sender, receiver) ==>
      var request := FriendRequest(old(db.nextId), sender, receiver, Pending);
      && db.requests == old(db.requests) + [request]
      && match FindUser(db.users, sender)
         case None =>
           && status == 404 && db.notifications == old(db.notifications)
           && db.emitted == old(db.emitted) && db.nextId == old(db.nextId) + 1
         case Some(k) =>
           var note := Notification(old(db.nextId) + 1, receiver, FriendRequestKind,
             RequestMessage(db.users[k]), Some(request.id), false, old(db.nextId) + 1);
           && status == 201
           && db.notifications == old(db.notifications) + [note]
           && db.emitted == old(db.emitted) + [Emit(receiver, ReceiveNotification(note))]
           && db.nextId == old(db.nextId) + 2
  {
    var pending := Seqs.FirstIndex(db.requests, (r: FriendRequest) => IsPendingBetween(r, sender, receiver));
    if pending.Some? {
      return 400;
    }
    assert !HasPendingBetween(db.requests, sender, receiver);
    var request := FriendRequest(db.nextId, sender, receiver, Pending);
    PendingUniqueAppend(db.requests, request);
    db.AddRequest(request);

    var senderIndex := FindUser(db.users, sender);
    if senderIndex.None? {
      return 404;
    }
    var note := Notification(db.nextId, receiver, FriendRequestKind,
      RequestMessage(db.users[senderIndex.value]), Some(request.id), false, db.nextId);
    AcceptNoticeAppendOther(db.notifications, note);
    db.Notify(note);
    status := 201;
  }

  /** `getMyRequests`: every request the user sent or received, in store order (the query has no
      sort), each as often as it is stored. */
  function GetMyRequests(requests: seq<FriendRequest>, userId: UserId): (r: seq<FriendRequest>)
    ensures forall q :: q in r <==> q in requests && (q.sender == userId || q.receiver == userId)
    ensures forall q :: multiset(r)[q] ==
                        if q.sender == userId || q.receiver == userId then multiset(requests)[q] else 0
    ensures r == Seqs.Filter(requests, (q: FriendRequest) => q.sender == userId || q.receiver == userId)
  {
    var involves := (q: FriendRequest) => q.sender == userId || q.receiver == userId;
    var out := Seqs.Filter(requests, involves);
    forall q ensures multiset(out)[q] == if involves(q) then multiset(requests)[q] else 0 {
      Seqs.FilterCount(requests, involves, q);
    }
    forall q ensures q in out <==> q in requests && involves(q) {
      assert q in out <==> q in multiset(out);
      assert q in requests <==> q in multiset(requests);
    }
    out
  }

  /** The user's notification that acceptance of `request` was announced, if one is stored. */
  function FindAcceptNotice(ns: seq<Notification>, request: FriendRequest): (r: Option<nat>)
    ensures r.Some? ==> r.value < |ns|
    ensures r.None? ==> forall i :: 0 <= i < |ns| ==>
      !(ns[i].recipient == request.sender && ns[i].kind == FriendAcceptKind
        && ns[i].requestId == Some(request.id))
  {
    Seqs.FirstIndex(ns, (n: Notification) =>
      n.recipient == request.sender && n.kind == FriendAcceptKind && n.requestId == Some(request.id))
  }

  /** `respondToFriendRequest`: 404 for an unknown request. The request is loaded with both users
      populated, so a request whose receiver no longer exists fails with 500 when its `_id` is read,
      before anything changes; 403 unless the caller received it, also without change. Otherwise the
      status becomes "accepted" for the action "accept" and "declined" for any other and is saved;
      on accept a missing sender fails with 500 the same way (the status stays saved), else the two
      become friends and the sender is told once per request. */
  method RespondToFriendRequest(db: Database, requestId: DocId, action: string, caller: UserId)
    returns (status: int)
    requires db.Valid()
    modifies db`requests, db`users, db`notifications, db`emitted, db`nextId
    ensures db.Valid()
    ensures FindRequest(old(db.requests), requestId).None? ==>
      status == 404 && db.requests == old(db.requests) && db.users == old(db.users)
      && db.notifications == old(db.notifications) && db.emitted == old(db.emitted)
      && db.nextId == old(db.nextId)
    ensures FindRequest(old(db.requests), requestId).Some? ==>
      var k := FindRequest(old(db.requests), requestId).value;
      var request := old(db.requests)[k];
      if FindUser(old(db.users), request.receiver).None? || request.receiver != caller then
        && status == (if FindUser(old(db.users), request.receiver).None? then 500 else 403)
        && db.requests == old(db.requests) && db.users == old(db.users)
        && db.notifications == old(db.notifications) && db.emitted == old(db.emitted)
        && db.nextId == old(db.nextId)
      else
        && db.requests == old(db.requests)[k := request.(status := ResponseStatus(action))]
        && (action != "accept" ==>
              status == 200 && db.users == old(db.users)
              && db.notifications == old(db.notifications) && db.emitted == old(db.emitted)
              && db.nextId == old(db.nextId))
        && (action == "accept" ==> AcceptOutcome(old(db.users), old(db.notifications), old(db.nextId),
              request, status, db.users, db.notifications, db.emitted, old(db.emitted), db.nextId))
  {
    var found := FindRequest(db.requests, requestId);
    if found.None? {
      return 404;
    }
    var k := found.value;
    var request := db.requests[k];
    if FindUser(db.users, request.receiver).None? {
      return 500;
    }
    if request.receiver != caller {
      return 403;
    }
    var newStatus := ResponseStatus(action);
    PendingUniqueRespond(db.requests, k, newStatus);
    IdsBelowUpdate(db.requests, RequestId, db.nextId, k, request.(status := newStatus));
    db.requests := db.requests[k := request.(status := newStatus)];
    if action != "accept" {
      return 200;
    }
    status := Befriend(db, request);
  }

  /** What accepting `request` does to the users and notifications: 500 when the sender is gone;
      otherwise each user is added to the other's friends unless already there, and the sender gets
      a `friend_accept` notification, stored and pushed, only when none exists for the request. */
  ghost predicate AcceptOutcome(users: seq<User>, ns: seq<Notification>, nextId: nat,
    request: FriendRequest, status: int, users': seq<User>, ns': seq<Notification>,
    emitted': seq<Emit>, emitted: seq<Emit>, nextId': nat)
    requires FindUser(users, request.receiver).Some?
  {
    var si, ri := FindUser(users, request.sender), FindUser(users, request.receiver);
    if si.None? then
      status == 500 && users' == users && ns' == ns && emitted' == emitted && nextId' == nextId
    else
      && status == 200
      && users' == AddFriend(AddFriend(users, si.value, request.receiver), ri.value, request.sender)
      && (FindAcceptNotice(ns, request).Some? ==>
            ns' == ns && emitted' == emitted && nextId' == nextId)
      && (FindAcceptNotice(ns, request).None? ==>
            var note := Notification(nextId, request.sender, FriendAcceptKind,
              AcceptMessage(users[ri.value]), Some(request.id), false, nextId);
            ns' == ns + [note]
            && emitted' == emitted + [Emit(request.sender, ReceiveNotification(note))]
            && nextId' == nextId + 1)
  }

  /** The accepting half of `respondToFriendRequest`, once the request is saved as accepted; the
      two users end up friends of each other. */
  method Befriend(db: Database, request: FriendRequest) returns (status: int)
    requires db.Valid()
    requires FindUser(db.users, request.receiver).Some?
    modifies db`users, db`notifications, db`emitted, db`nextId
    ensures db.Valid()
    ensures AcceptOutcome(old(db.users), old(db.notifications), old(db.nextId), request, status,
      db.users, db.notifications, db.emitted, old(db.emitted), db.nextId)
    ensures status == 200 ==>
      exists i, j :: 0 <= i < |db.users| && 0 <= j < |db.users|
        && db.users[i].id == request.sender && db.users[j].id == request.receiver
        && request.receiver in db.users[i].friends && request.sender in db.users[j].friends
  {
    var si := FindUser(db.users, request.sender);
    var ri := FindUser(db.users, request.receiver);
    if si.None? {
      return 500;
    }
    var receiverUser := db.users[ri.value];
    BefriendKeepsUsersOk(db.users, si.value, ri.value);
    db.users := AddFriend(AddFriend(db.users, si.value, request.receiver), ri.value, request.sender);
    status := 200;
    AnnounceAcceptance(db, request, receiverUser);
  }

  /** Stores and pushes the sender's `friend_accept` notification unless one exists for the request. */
  method AnnounceAcceptance(db: Database, request: FriendRequest, receiverUser: User)
    requires db.Valid()
    modifies db`notifications, db`emitted, db`nextId
    ensures db.Valid()
    ensures FindAcceptNotice(old(db.notifications), request).Some? ==>
      db.notifications == old(db.notifications) && db.emitted == old(db.emitted)
      && db.nextId == old(db.nextId)
    ensures FindAcceptNotice(old(db.notifications), request).None? ==>
      var note := Notification(old(db.nextId), request.sender, FriendAcceptKind,
        AcceptMessage(receiverUser), Some(request.id), false, old(db.nextId));
      db.notifications == old(db.notifications) + [note]
      && db.emitted == old(db.emitted) + [Emit(request.sender, ReceiveNotification(note))]
      && db.nextId == old(db.nextId) + 1
  {
    var existing := FindAcceptNotice(db.notifications, request);
    if existing.None? {
      var note := Notification(db.nextId, request.sender, FriendAcceptKind,
        AcceptMessage(receiverUser), Some(request.id), false, db.nextId);
      AcceptNoticeAppend(db.notifications, note);
      db.Notify(note);
    }
  }

  /** The notifications once the request's `friend_request` notification, if any, is deleted. */
  function WithoutRequestNotice(ns: seq<Notification>, requestId: DocId): seq<Notification> {
    match FindRequestNotice(ns, requestId)
    case None => ns
    case Some(j) => Seqs.RemoveAt(ns, j)
  }

  /** The request's `friend_request` notification that `cancelRequest` deletes (`deleteOne`). */
  function FindRequestNotice(ns: seq<Notification>, requestId: DocId): (r: Option<nat>)
    ensures r.Some? ==>
      r.value < |ns| && ns[r.value].requestId == Some(requestId) && ns[r.value].kind == FriendRequestKind
    ensures r.None? ==> forall i :: 0 <= i < |ns| ==>
      !(ns[i].requestId == Some(requestId) && ns[i].kind == FriendRequestKind)
  {
    Seqs.FirstIndex(ns, (n: Notification) => n.requestId == Some(requestId) && n.kind == FriendRequestKind)
  }

  /** `cancelRequest`: 404 for an unknown request and 403 unless the caller sent it, both without
      change; otherwise the first `friend_request` notification of the request is deleted, the
      receiver's room is told to drop it, and the request itself is deleted. */
  method CancelRequest(db: Database, id: DocId, caller: UserId) returns (status: int)
    requires db.Valid()
    modifies db`requests, db`notifications, db`emitted
    ensures db.Valid()
    ensures status == 404 <==> FindRequest(old(db.requests), id).None?
    ensures status == 403 <==>
      (FindRequest(old(db.requests), id).Some?
       && old(db.requests)[FindRequest(old(db.requests), id).value].sender != caller)
    ensures status == 404 || status == 403 || status == 200
    ensures status != 200 ==>
      db.requests == old(db.requests) && db.notifications == old(db.notifications)
      && db.emitted == old(db.emitted)
    ensures status == 200 ==>
      var k := FindRequest(old(db.requests), id).value;
      && db.requests == Seqs.RemoveAt(old(db.requests), k)
      && (forall i :: 0 <= i < |db.requests| ==> db.requests[i].id != id)
      && db.notifications == WithoutRequestNotice(old(db.notifications), id)
      && db.emitted == old(db.emitted)
           + [Emit(old(db.requests)[k].receiver, RemoveNotification(id, FriendRequestKind))]
  {
    var found := FindRequest(db.requests, id);
    if found.None? {
      return 404;
    }
    var k := found.value;
    var request := db.requests[k];
    if request.sender != caller {
      return 403;
    }
    WithdrawRequest(db, k);
    status := 200;
  }

  /** The deletions of a cancelled request: its `friend_request` notification, if any, the
      `remove_notification` event to the receiver, and the request itself. */
  method WithdrawRequest(db: Database, k: nat)
    requires db.Valid() && k < |db.requests|
    modifies db`requests, db`notifications, db`emitted
    ensures db.Valid()
    ensures db.requests == Seqs.RemoveAt(old(db.requests), k)
    ensures forall i :: 0 <= i < |db.requests| ==> db.requests[i].id != old(db.requests)[k].id
    ensures db.notifications == WithoutRequestNotice(old(db.notifications), old(db.requests)[k].id)
    ensures db.emitted == old(db.emitted)
      + [Emit(old(db.requests)[k].receiver, RemoveNotification(old(db.requests)[k].id, FriendRequestKind))]
  {
    var request := db.requests[k];
    var notice := FindRequestNotice(db.notifications, request.id);
    if notice.Some? {
      AcceptNoticeRemove(db.notifications, notice.value);
      db.DeleteNotification(notice.value);
    }
    db.emitted := db.emitted + [Emit(request.receiver, RemoveNotification(request.id, FriendRequestKind))];
    PendingUniqueRemove(db.requests, k);
    RemovedIdGone(db.requests, RequestId, db.nextId, k);
    db.DeleteRequest(k);
  }
}
