/** The user directory (`getAllUsers`), which tags every other user with the pending friend request
    between them and the caller, and the friend list (`getFriendList`), which reads the accepted
    requests. Both only read the store, so they are functions of its tables. */
module UserController {
  import opened Wrappers
  import opened Store
  import Seqs

  /** `friendRequestStatus`, `requestDirection` and `requestId` of one directory entry: all null, or
      "pending" with direction "sent" or "received" and the request's id. */
  datatype RequestLink = NoRequest | SentPending(requestId: DocId) | ReceivedPending(requestId: DocId)

  datatype EnrichedUser = EnrichedUser(
    id: UserId, firstName: string, lastName: string, email: string, isOnline: bool,
    link: RequestLink)

  /** Some request from `from` to `to` is pending and has id `id`. */
  predicate PendingFromTo(requests: seq<FriendRequest>, from: UserId, to: UserId, id: DocId) {
    exists i :: 0 <= i < |requests| && requests[i] == FriendRequest(id, from, to, Pending)
  }

  predicate AnyPendingFromTo(requests: seq<FriendRequest>, from: UserId, to: UserId) {
    exists i :: 0 <= i < |requests| && requests[i].sender == from && requests[i].receiver == to
      && requests[i].status == Pending
  }

  /** `FriendRequest.findOne({ sender: from, receiver: to })`: the first request from `from` to
      `to`, whatever its status. */
  function FirstFromTo(requests: seq<FriendRequest>, from: UserId, to: UserId): (r: Option<nat>)
    ensures r.Some? ==> (r.value < |requests|
      && requests[r.value].sender == from && requests[r.value].receiver == to)
    ensures r.None? ==> forall i :: 0 <= i < |requests| ==>
      !(requests[i].sender == from && requests[i].receiver == to)
  {
    Seqs.FirstIndex(requests, (q: FriendRequest) => q.sender == from && q.receiver == to)
  }

  /** The link `getAllUsers` reports between the caller `me` and `other`, as written: it looks at
      the FIRST request in each direction and reports it only if that one is pending. */
  function LinkAsWritten(requests: seq<FriendRequest>, me: UserId, other: UserId): (r: RequestLink)
    ensures r.SentPending? ==> PendingFromTo(requests, me, other, r.requestId)
    ensures r.ReceivedPending? ==> PendingFromTo(requests, other, me, r.requestId)
    ensures !AnyPendingFromTo(requests, me, other) && !AnyPendingFromTo(requests, other, me)
      ==> r == NoRequest
  {
    var sent := FirstFromTo(requests, me, other);
    var received := FirstFromTo(requests, other, me);
    if sent.Some? && requests[sent.value].status == Pending then
      SentPending(requests[sent.value].id)
    else if received.Some? && requests[received.value].status == Pending then
      ReceivedPending(requests[received.value].id)
    else NoRequest
  }

  /** The first pending request from `from` to `to`. */
  function FirstPendingFromTo(requests: seq<FriendRequest>, from: UserId, to: UserId): (r: Option<nat>)
    ensures r.Some? ==> (r.value < |requests|
      && requests[r.value].sender == from && requests[r.value].receiver == to
      && requests[r.value].status == Pending)
    ensures r.None? <==> !AnyPendingFromTo(requests, from, to)
  {
    Seqs.FirstIndex(requests, (q: FriendRequest) => q.sender == from && q.receiver == to && q.status == Pending)
  }

  /** The link the directory is meant to show: the pending request between the two users if there
      is one, a request the caller sent taking precedence. */
  function Link(requests: seq<FriendRequest>, me: UserId, other: UserId): (r: RequestLink)
    ensures r.SentPending? <==> AnyPendingFromTo(requests, me, other)
    ensures r.ReceivedPending? <==>
      !AnyPendingFromTo(requests, me, other) && AnyPendingFromTo(requests, other, me)
    ensures r == NoRequest <==>
      !AnyPendingFromTo(requests, me, other) && !AnyPendingFromTo(requests, other, me)
    ensures r.SentPending? ==> PendingFromTo(requests, me, other, r.requestId)
    ensures r.ReceivedPending? ==> PendingFromTo(requests, other, me, r.requestId)
  {
    var sent := FirstPendingFromTo(requests, me, other);
    var received := FirstPendingFromTo(requests, other, me);
    if sent.Some? then SentPending(requests[sent.value].id)
    else if received.Some? then ReceivedPending(requests[received.value].id)
    else NoRequest
  }

  /** Whenever the directory as written reports a request, it reports the one that is meant, as
      long as at most one request per pair is pending (which sending guarantees). */
  lemma LinkAsWrittenReportsIntended(requests: seq<FriendRequest>, me: UserId, other: UserId)
    requires PendingUnique(requests)
    requires LinkAsWritten(requests, me, other) != NoRequest
    ensures LinkAsWritten(requests, me, other) == Link(requests, me, other)
  {
    var sent := FirstFromTo(requests, me, other);
    var pendingSent := FirstPendingFromTo(requests, me, other);
    var pendingReceived := FirstPendingFromTo(requests, other, me);
    if sent.Some? && requests[sent.value].status == Pending {
      // The first sent request is pending, so it is also the first pending one.
      assert pendingSent.Some?;
      assert pendingSent.value == sent.value;
    } else {
      var received := FirstFromTo(requests, other, me);
      assert received.Some? && requests[received.value].status == Pending;
      assert pendingReceived.Some? && pendingReceived.value == received.value;
      // A pending request the other way would share its pair with the pending received one.
      var b := received.value;
      assert forall a :: 0 <= a < |requests| && a != b && requests[a].status == Pending ==>
                           !SamePair(requests[a], requests[b]);
      assert me == other ==> sent == received;
      assert !AnyPendingFromTo(requests, me, other);
    }
  }

  /** An older answered request hides a newer pending one: two requests the caller sent, the first
      declined and the second pending (one pending per pair, so the store allows it), make the
      directory as written show no request where the pending one is meant. */
  lemma LinkAsWrittenMissesPending()
    ensures var requests := [FriendRequest(0, "a", "b", Declined), FriendRequest(1, "a", "b", Pending)];
      && PendingUnique(requests)
      && LinkAsWritten(requests, "a", "b") == NoRequest
      && Link(requests, "a", "b") == SentPending(1)
  {
    var requests := [FriendRequest(0, "a", "b", Declined), FriendRequest(1, "a", "b", Pending)];
    assert FirstFromTo(requests, "a", "b") == Some(0);
    assert FirstFromTo(requests, "b", "a") == None;
    assert FirstPendingFromTo(requests, "a", "b") == Some(1);
  }

  function Others(users: seq<User>, me: UserId): seq<User> {
    Seqs.Filter(users, (u: User) => u.id != me)
  }

  function Enrich(u: User, link: RequestLink): EnrichedUser {
    EnrichedUser(u.id, u.firstName, u.lastName, u.email, u.isOnline, link)
  }

  /** `getAllUsers` as written: every user but the caller, in store order, with the user's public
      fields and the link computed from the first request in each direction. */
  function GetAllUsersAsWritten(users: seq<User>, requests: seq<FriendRequest>, me: UserId)
    : (r: seq<EnrichedUser>)
    ensures |r| == |Others(users, me)|
    ensures forall i :: 0 <= i < |r| ==>
      r[i] == Enrich(Others(users, me)[i], LinkAsWritten(requests, me, r[i].id))
  {
    var others := Others(users, me);
    seq(|others|, i requires 0 <= i < |others| => Enrich(others[i], LinkAsWritten(requests, me, others[i].id)))
  }

  /** `getAllUsers` with the pending request looked up as meant. */
  function GetAllUsers(users: seq<User>, requests: seq<FriendRequest>, me: UserId)
    : (r: seq<EnrichedUser>)
    ensures |r| == |Others(users, me)|
    ensures forall i :: 0 <= i < |r| ==>
      r[i] == Enrich(Others(users, me)[i], Link(requests, me, r[i].id))
  {
    var others := Others(users, me);
    seq(|others|, i requires 0 <= i < |others| => Enrich(others[i], Link(requests, me, others[i].id)))
  }

  /** The caller never appears in the directory, every other stored user does, and each entry
      copies a stored user's public fields. */
  lemma DirectoryMembers(users: seq<User>, requests: seq<FriendRequest>, me: UserId)
    ensures forall i :: 0 <= i < |GetAllUsers(users, requests, me)| ==>
      GetAllUsers(users, requests, me)[i].id != me
    ensures forall j :: 0 <= j < |users| && users[j].id != me ==>
      exists i :: 0 <= i < |GetAllUsers(users, requests, me)|
        && GetAllUsers(users, requests, me)[i] == Enrich(users[j], Link(requests, me, users[j].id))
    ensures forall i :: 0 <= i < |GetAllUsers(users, requests, me)| ==>
      exists j :: 0 <= j < |users|
        && GetAllUsers(users, requests, me)[i] == Enrich(users[j], Link(requests, me, users[j].id))
  {
    var r, others := GetAllUsers(users, requests, me), Others(users, me);
    forall i | 0 <= i < |r| ensures r[i].id != me {
      assert r[i].id == others[i].id;
    }
    DirectoryHasEveryOther(users, requests, me);
    DirectoryEntriesStored(users, requests, me);
  }

  /** A list that maps each user other than `me` through `f`, in order, holds `f` of each of them. */
  lemma OthersCovered(users: seq<User>, me: UserId, r: seq<EnrichedUser>, f: User -> EnrichedUser)
    requires |r| == |Others(users, me)|
    requires forall i :: 0 <= i < |r| ==> r[i] == f(Others(users, me)[i])
    ensures forall j :: 0 <= j < |users| && users[j].id != me ==> exists i :: 0 <= i < |r| && r[i] == f(users[j])
  {
    var others := Others(users, me);
    forall j | 0 <= j < |users| && users[j].id != me ensures exists i :: 0 <= i < |r| && r[i] == f(users[j]) {
      var i :| 0 <= i < |others| && others[i] == users[j];
      assert r[i] == f(users[j]);
    }
  }

  lemma DirectoryHasEveryOther(users: seq<User>, requests: seq<FriendRequest>, me: UserId)
    ensures forall j :: 0 <= j < |users| && users[j].id != me ==>
      exists i :: 0 <= i < |GetAllUsers(users, requests, me)|
        && GetAllUsers(users, requests, me)[i] == Enrich(users[j], Link(requests, me, users[j].id))
  {
    var r := GetAllUsers(users, requests, me);
    var f := (u: User) => Enrich(u, Link(requests, me, u.id));
    forall i | 0 <= i < |r| ensures r[i] == f(Others(users, me)[i]) {
      assert r[i].id == Others(users, me)[i].id;
    }
    OthersCovered(users, me, r, f);
  }

  lemma DirectoryEntriesStored(users: seq<User>, requests: seq<FriendRequest>, me: UserId)
    ensures forall i :: 0 <= i < |GetAllUsers(users, requests, me)| ==>
      exists j :: 0 <= j < |users|
        && GetAllUsers(users, requests, me)[i] == Enrich(users[j], Link(requests, me, users[j].id))
  {
    var r := GetAllUsers(users, requests, me);
    var others := Others(users, me);
    forall i | 0 <= i < |r|
      ensures exists j :: 0 <= j < |users| && r[i] == Enrich(users[j], Link(requests, me, users[j].id))
    {
      var j :| 0 <= j < |users| && users[j] == others[i];
    }
  }

  /** The accepted requests that involve the user. */
  function AcceptedOf(requests: seq<FriendRequest>, userId: UserId): seq<FriendRequest> {
    Seqs.Filter(requests, (q: FriendRequest) =>
      q.status == Accepted && (q.sender == userId || q.receiver == userId))
  }

  /** The party of `q` that is not `userId`. */
  function OtherParty(q: FriendRequest, userId: UserId): UserId {
    if q.sender == userId then q.receiver else q.sender
  }

  /** Some accepted request links `userId` and `friend`. */
  predicate IsFriendBy(requests: seq<FriendRequest>, userId: UserId, friend: UserId) {
    exists j :: 0 <= j < |requests| && requests[j].status == Accepted
      && ((requests[j].sender == userId && requests[j].receiver == friend)
          || (requests[j].receiver == userId && requests[j].sender == friend))
  }

  /** `getFriendList`: for each accepted request that involves the caller, in store order, the
      other party. */
  function GetFriendList(requests: seq<FriendRequest>, userId: UserId): (r: seq<UserId>)
    ensures |r| == |AcceptedOf(requests, userId)|
    ensures forall i :: 0 <= i < |r| ==> r[i] == OtherParty(AcceptedOf(requests, userId)[i], userId)
    ensures forall i :: 0 <= i < |r| ==> IsFriendBy(requests, userId, r[i])
    ensures forall f :: IsFriendBy(requests, userId, f) ==> f in r
  {
    var accepted := AcceptedOf(requests, userId);
    OtherPartiesAreFriends(requests, userId);
    seq(|accepted|, i requires 0 <= i < |accepted| => OtherParty(accepted[i], userId))
  }

  /** The other parties of the caller's accepted requests are exactly the caller's friends. */
  lemma OtherPartiesAreFriends(requests: seq<FriendRequest>, userId: UserId)
    ensures var accepted := AcceptedOf(requests, userId);
      forall i :: 0 <= i < |accepted| ==> IsFriendBy(requests, userId, OtherParty(accepted[i], userId))
    ensures var accepted := AcceptedOf(requests, userId);
      forall f :: IsFriendBy(requests, userId, f) ==>
        exists i :: 0 <= i < |accepted| && OtherParty(accepted[i], userId) == f
  {
    var accepted := AcceptedOf(requests, userId);
    forall i | 0 <= i < |accepted| ensures IsFriendBy(requests, userId, OtherParty(accepted[i], userId)) {
      OtherPartyIsFriend(requests, userId, i);
    }
    forall f | IsFriendBy(requests, userId, f)
      ensures exists i :: 0 <= i < |accepted| && OtherParty(accepted[i], userId) == f
    {
      FriendIsOtherParty(requests, userId, f);
    }
  }

  /** The other party of an accepted request of the caller is a friend. */
  lemma OtherPartyIsFriend(requests: seq<FriendRequest>, userId: UserId, i: nat)
    requires i < |AcceptedOf(requests, userId)|
    ensures IsFriendBy(requests, userId, OtherParty(AcceptedOf(requests, userId)[i], userId))
  {
    var q := AcceptedOf(requests, userId)[i];
    assert q.status == Accepted && (q.sender == userId || q.receiver == userId);
    var j :| 0 <= j < |requests| && requests[j] == q;
  }

  /** Every friend is the other party of one of the caller's accepted requests. */
  lemma FriendIsOtherParty(requests: seq<FriendRequest>, userId: UserId, f: UserId)
    requires IsFriendBy(requests, userId, f)
    ensures exists i :: 0 <= i < |AcceptedOf(requests, userId)| && OtherParty(AcceptedOf(requests, userId)[i], userId) == f
  {
    var accepted := AcceptedOf(requests, userId);
    var j :| 0 <= j < |requests| && requests[j].status == Accepted
      && ((requests[j].sender == userId && requests[j].receiver == f)
          || (requests[j].receiver == userId && requests[j].sender == f));
    assert requests[j] in accepted;
    var i :| 0 <= i < |accepted| && accepted[i] == requests[j];
    assert OtherParty(accepted[i], userId) == f;
  }

  /** Both parties of an accepted request see each other in their friend lists. */
  lemma {:induction false} AcceptedRequestListsBoth(requests: seq<FriendRequest>, k: nat)
    requires k < |requests| && requests[k].status == Accepted
    ensures requests[k].receiver in GetFriendList(requests, requests[k].sender)
    ensures requests[k].sender in GetFriendList(requests, requests[k].receiver)
  {
    var q := requests[k];
    var bySender := AcceptedOf(requests, q.sender);
    var byReceiver := AcceptedOf(requests, q.receiver);
    var i :| 0 <= i < |bySender| && bySender[i] == q;
    assert GetFriendList(requests, q.sender)[i] == OtherParty(q, q.sender);
    var j :| 0 <= j < |byReceiver| && byReceiver[j] == q;
    assert GetFriendList(requests, q.receiver)[j] == OtherParty(q, q.receiver);
  }
}
