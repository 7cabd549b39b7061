/** The delivery state of a chat message, shared by the server's message table and the chat page. */
module MessageStatus {

  /** "sent", "delivered", "seen", or any other string the client may hold; `Unknown` is meant
      for names other than the three (see `WellFormed` and `FromName`). */
  datatype Status = Sent | Delivered | Seen | Unknown(name: string)

  /** An `Unknown` status never carries one of the three recognised names. */
  predicate WellFormed(s: Status) {
    s.Unknown? ==> s.name != "sent" && s.name != "delivered" && s.name != "seen"
  }

  /** The status a stored or received status string stands for. */
  function FromName(name: string): (r: Status)
    ensures WellFormed(r)
    ensures r.Unknown? ==> r.name == name
    ensures r == Sent <==> name == "sent"
  {
    if name == "sent" then Sent
    else if name == "delivered" then Delivered
    else if name == "seen" then Seen
    else Unknown(name)
  }

  /** The forward order sent < delivered < seen; an unrecognised status ranks with "sent". */
  function Rank(s: Status): nat {
    match s
    case Sent => 0
    case Delivered => 1
    case Seen => 2
    case Unknown(_) => 0
  }
}
