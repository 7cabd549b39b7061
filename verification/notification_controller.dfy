/** Reading the caller's notifications, each friend-request notification enriched with the status of
    its request, and marking a notification as read. */
module NotificationController {
  import opened Wrappers
  import opened Store
  import Seqs
  import Sorting

  /** The `responded` field of an enriched notification: absent (not a friend-request notification
      with a request id), null (the request is gone), or the request's status. */
  datatype Responded = NoField | Null | Answer(status: RequestStatus)

  datatype EnrichedNotification = EnrichedNotification(notification: Notification, responded: Responded)

  function NewestFirstKey(n: Notification): int { 0 - n.createdAt as int }

  /** The enrichment of one notification. */
  function Enrich(n: Notification, requests: seq<FriendRequest>): (r: EnrichedNotification)
    ensures r.notification == n
    ensures !(n.requestId.Some? && n.kind == FriendRequestKind) <==> r.responded == NoField
    ensures n.requestId.Some? && n.kind == FriendRequestKind ==>
      (r.responded == Null <==> forall i :: 0 <= i < |requests| ==> requests[i].id != n.requestId.value)
    ensures r.responded.Answer? ==>
      exists i :: 0 <= i < |requests| && requests[i].id == n.requestId.value
                  && requests[i].status == r.responded.status
  {
    if n.requestId.Some? && n.kind == FriendRequestKind then
      match FindRequest(requests, n.requestId.value)
      case None => EnrichedNotification(n, Null)
      case Some(k) => EnrichedNotification(n, Answer(requests[k].status))
    else EnrichedNotification(n, NoField)
  }

  /** The caller's notifications, newest first: each as often as it is stored, and no other. */
  function Inbox(ns: seq<Notification>, userId: UserId): (r: seq<Notification>)
    ensures forall n :: n in r <==> n in ns && n.recipient == userId
    ensures forall n :: multiset(r)[n] == if n.recipient == userId then multiset(ns)[n] else 0
    ensures forall i, j :: 0 <= i < j < |r| ==> r[i].createdAt >= r[j].createdAt
  {
    var mine := (n: Notification) => n.recipient == userId;
    Sorting.SelectSorted(ns, mine, NewestFirstKey);
    Sorting.SortBy(Seqs.Filter(ns, mine), NewestFirstKey)
  }

  /** `getNotifications`: the inbox in the same order, each entry enriched. */
  function GetNotifications(ns: seq<Notification>, requests: seq<FriendRequest>, userId: UserId)
    : (r: seq<EnrichedNotification>)
    ensures |r| == |Inbox(ns, userId)|
    ensures forall i :: 0 <= i < |r| ==> r[i] == Enrich(Inbox(ns, userId)[i], requests)
    ensures forall i :: 0 <= i < |r| ==> r[i].notification in ns && r[i].notification.recipient == userId
  {
    var inbox := Inbox(ns, userId);
    seq(|inbox|, i requires 0 <= i < |inbox| => Enrich(inbox[i], requests))
  }

  /** `Notification.findById(id)`. */
  function FindNotification(ns: seq<Notification>, id: DocId): (r: Option<nat>)
    ensures r.Some? ==> r.value < |ns| && ns[r.value].id == id
    ensures r.None? ==> forall i :: 0 <= i < |ns| ==> ns[i].id != id
  {
    Seqs.FirstIndex(ns, (n: Notification) => n.id == id)
  }

  /** The table after `markAsRead(id)`: that notification is read, nothing else changes. */
  function MarkRead(ns: seq<Notification>, id: DocId): (r: seq<Notification>)
    ensures |r| == |ns|
    ensures forall i :: 0 <= i < |ns| && ns[i].id == id && FindNotification(ns, id) == Some(i) ==>
      r[i] == ns[i].(isRead := true)
    ensures forall i :: 0 <= i < |ns| && FindNotification(ns, id) != Some(i) ==> r[i] == ns[i]
  {
    match FindNotification(ns, id)
    case None => ns
    case Some(k) => ns[k := ns[k].(isRead := true)]
  }

  /** Marking as read twice is marking once. */
  lemma MarkReadIdempotent(ns: seq<Notification>, id: DocId)
    ensures MarkRead(MarkRead(ns, id), id) == MarkRead(ns, id)
  {
    match FindNotification(ns, id)
    case None =>
    case Some(k) =>
      var r := MarkRead(ns, id);
      assert forall i :: 0 <= i < |r| ==> r[i].id == ns[i].id;
      assert FindNotification(r, id) == Some(k) by {
        assert forall i :: 0 <= i < k ==> r[i].id != id;
      }
  }

  /** `markAsRead`: 404 for an unknown id without change, otherwise that notification is read (200).
      The recipient is not checked against the caller. */
  method MarkAsRead(db: Database, id: DocId) returns (status: int)
    requires db.Valid()
    modifies db`notifications
    ensures db.Valid()
    ensures db.notifications == MarkRead(old(db.notifications), id)
    ensures status == (if FindNotification(old(db.notifications), id).None? then 404 else 200)
    ensures status == 200 ==>
      exists i :: 0 <= i < |db.notifications| && db.notifications[i].id == id
                  && db.notifications[i].isRead
  {
    var found := FindNotification(db.notifications, id);
    if found.None? {
      return 404;
    }
    var k := found.value;
    var read := db.notifications[k].(isRead := true);
    IdsBelowUpdate(db.notifications, NotificationId, db.nextId, k, read);
    db.notifications := db.notifications[k := read];
    assert db.notifications[k].id == id;
    status := 200;
  }
}
