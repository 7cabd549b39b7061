/** The client-side notification list: prepending, recording the answer to a friend request, the
    realtime `receive_notification` handler (only for the signed-in recipient) and the
    `remove_notification` handler (retraction by request id and type). */
module NotificationStore {
  import opened Wrappers
  import Seqs

  /** A notification as the client holds it; ids are strings once serialised. */
  datatype ClientNotification = ClientNotification(
    id: string, recipient: string, kind: string, requestId: Option<string>, responded: Option<string>)

  /** `pushNotification`: the new notification first, the old ones after it in order. */
  function Push(ns: seq<ClientNotification>, n: ClientNotification): (r: seq<ClientNotification>)
    ensures |r| == |ns| + 1 && r[0] == n && r[1..] == ns
  {
    [n] + ns
  }

  /** `updateNotificationResponse(id, status)`: `responded` becomes `status` on the notifications
      with that id; nothing else changes. */
  function UpdateResponse(ns: seq<ClientNotification>, id: string, status: string): (r: seq<ClientNotification>)
    ensures |r| == |ns|
    ensures forall i :: 0 <= i < |ns| && ns[i].id == id ==> r[i] == ns[i].(responded := Some(status))
    ensures forall i :: 0 <= i < |ns| && ns[i].id != id ==> r[i] == ns[i]
  {
    seq(|ns|, i requires 0 <= i < |ns| => if ns[i].id == id then ns[i].(responded := Some(status)) else ns[i])
  }

  /** The `receive_notification` handler as written: it reads `useAuthStore`, which the store never
      imports, so the handler throws before it updates anything. */
  function ReceiveAsWritten(ns: seq<ClientNotification>, user: Option<string>, n: ClientNotification)
    : seq<ClientNotification>
  {
    ns
  }

  /** The handler as meant: the notification is prepended only for the signed-in recipient. */
  function Receive(ns: seq<ClientNotification>, user: Option<string>, n: ClientNotification)
    : (r: seq<ClientNotification>)
    ensures user == Some(n.recipient) ==> r == Push(ns, n)
    ensures user != Some(n.recipient) ==> r == ns
  {
    if user.None? || user.value != n.recipient then ns else Push(ns, n)
  }

  /** As written, even the signed-in recipient never sees a realtime notification. */
  lemma ReceiveAsWrittenDropsOwn()
    ensures var n := ClientNotification("n1", "u", "friend_request", Some("r1"), None);
      && ReceiveAsWritten([], Some("u"), n) == []
      && Receive([], Some("u"), n) == [n]
  {
  }

  predicate Retracted(n: ClientNotification, requestId: string, kind: string) {
    n.requestId == Some(requestId) && n.kind == kind
  }

  /** `remove_notification { requestId, type }`: exactly the notifications of that request and type
      are dropped; the rest keep their order. */
  function Retract(ns: seq<ClientNotification>, requestId: string, kind: string): (r: seq<ClientNotification>)
    ensures forall i :: 0 <= i < |r| ==> !Retracted(r[i], requestId, kind)
    ensures forall n :: n in r <==> n in ns && !Retracted(n, requestId, kind)
    ensures |r| <= |ns|
  {
    var r := Seqs.Filter(ns, (n: ClientNotification) => !Retracted(n, requestId, kind));
    assert forall n :: n in ns && !Retracted(n, requestId, kind) ==> n in r by {
      forall n | n in ns && !Retracted(n, requestId, kind) ensures n in r {
        var i :| 0 <= i < |ns| && ns[i] == n;
      }
    }
    assert forall n :: n in r ==> n in ns && !Retracted(n, requestId, kind) by {
      forall n | n in r ensures n in ns && !Retracted(n, requestId, kind) {
        var i :| 0 <= i < |r| && r[i] == n;
      }
    }
    r
  }

  /** Retracting twice is retracting once. */
  lemma RetractIdempotent(ns: seq<ClientNotification>, requestId: string, kind: string)
    ensures Retract(Retract(ns, requestId, kind), requestId, kind) == Retract(ns, requestId, kind)
  {
    Seqs.FilterIdempotent(ns, (n: ClientNotification) => !Retracted(n, requestId, kind));
  }

  /** Retraction keeps the order of what stays: it distributes over a split of the list. */
  lemma RetractAppend(a: seq<ClientNotification>, b: seq<ClientNotification>, requestId: string, kind: string)
    ensures Retract(a + b, requestId, kind) == Retract(a, requestId, kind) + Retract(b, requestId, kind)
  {
    Seqs.FilterAppend(a, b, (n: ClientNotification) => !Retracted(n, requestId, kind));
  }

  /** A notification that arrives and is then retracted leaves the list as it was, as long as no
      older notification was of that request and type. */
  lemma ReceiveThenRetract(ns: seq<ClientNotification>, user: Option<string>, n: ClientNotification,
    requestId: string)
    requires n.requestId == Some(requestId)
    requires forall i :: 0 <= i < |ns| ==> !Retracted(ns[i], requestId, n.kind)
    ensures Retract(Receive(ns, user, n), requestId, n.kind) == ns
  {
    var p := (m: ClientNotification) => !Retracted(m, requestId, n.kind);
    Seqs.FilterKeepsAll(ns, p);
    Seqs.FilterAppend([n], ns, p);
  }

  class NotificationList {
    var notifications: seq<ClientNotification>
    var user: Option<string>

    constructor (user: Option<string>)
      ensures notifications == [] && this.user == user
    {
      notifications, this.user := [], user;
    }

    method PushNotification(n: ClientNotification)
      modifies this`notifications
      ensures notifications == Push(old(notifications), n)
    {
      notifications := [n] + notifications;
    }

    method UpdateNotificationResponse(id: string, status: string)
      modifies this`notifications
      ensures notifications == UpdateResponse(old(notifications), id, status)
    {
      notifications := UpdateResponse(notifications, id, status);
    }

    /** The realtime handler with the recipient check as meant. */
    method OnReceiveNotification(n: ClientNotification)
      modifies this`notifications
      ensures notifications == Receive(old(notifications), user, n)
    {
      if user.None? || user.value != n.recipient {
        return;
      }
      notifications := [n] + notifications;
    }

    method OnRemoveNotification(requestId: string, kind: string)
      modifies this`notifications
      ensures notifications == Retract(old(notifications), requestId, kind)
    {
      notifications := Retract(notifications, requestId, kind);
    }
  }
}
