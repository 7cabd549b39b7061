/** The chat page: the open conversation's message list, kept up to date from realtime events
    (a new message, "seen" and "delivered" receipts), the label under the last message I sent,
    and sending. Events the page sends to the server are recorded in `emitted`. */
module MessagePage {
  import opened Wrappers
  import opened MessageStatus
  import Text

  /** A message's `sender`/`receiver`: a bare user id, or a user object with `_id` (as the chat
      endpoint returns them populated). */
  datatype Party = Raw(id: string) | Populated(id: string, firstName: string, lastName: string)

  datatype ChatMessage = ChatMessage(id: string, sender: Party, receiver: Party, text: string, status: Status)

  /** `p._id || p`: the user id, whichever form the party has. */
  function PartyId(p: Party): string { p.id }

  /** `p === chatId`: only a bare id can equal the selected chat's id. */
  predicate IsChat(p: Party, chatId: Option<string>) {
    p.Raw? && chatId.Some? && p.id == chatId.value
  }

  predicate HasId(ms: seq<ChatMessage>, id: string) {
    exists i :: 0 <= i < |ms| && ms[i].id == id
  }

  predicate UniqueIds(ms: seq<ChatMessage>) {
    forall i, j :: 0 <= i < j < |ms| ==> ms[i].id != ms[j].id
  }

  /** The list after `receive_message`: the message is appended when it belongs to the open chat
      and no message with its `_id` is shown yet; otherwise the list is unchanged. */
  function OnReceive(ms: seq<ChatMessage>, msg: ChatMessage, chatId: Option<string>): (r: seq<ChatMessage>)
    ensures !(IsChat(msg.sender, chatId) || IsChat(msg.receiver, chatId)) ==> r == ms
    ensures HasId(ms, msg.id) ==> r == ms
    ensures (IsChat(msg.sender, chatId) || IsChat(msg.receiver, chatId)) && !HasId(ms, msg.id) ==>
      r == ms + [msg]
  {
    if !(IsChat(msg.sender, chatId) || IsChat(msg.receiver, chatId)) then ms
    else if HasId(ms, msg.id) then ms
    else ms + [msg]
  }

  /** Receiving the same message twice is receiving it once, and distinct ids stay distinct. */
  lemma OnReceiveIdempotent(ms: seq<ChatMessage>, msg: ChatMessage, chatId: Option<string>)
    ensures OnReceive(OnReceive(ms, msg, chatId), msg, chatId) == OnReceive(ms, msg, chatId)
    ensures UniqueIds(ms) ==> UniqueIds(OnReceive(ms, msg, chatId))
  {
    var r := OnReceive(ms, msg, chatId);
    if r != ms {
      assert r[|ms|] == msg;
      assert HasId(r, msg.id);
    }
  }

  /** My message to `other` that the `messages_seen` receipt from `other` marks as seen. */
  predicate SeenTarget(m: ChatMessage, me: string, other: string) {
    PartyId(m.sender) == me && PartyId(m.receiver) == other && m.status != Seen
  }

  /** My message to `other` that the `message_delivered` receipt moves from sent to delivered. */
  predicate DeliveredTarget(m: ChatMessage, me: string, other: string) {
    PartyId(m.sender) == me && PartyId(m.receiver) == other && m.status == Sent
  }

  /** The list after `messages_seen { from }`: only the status of the targeted messages changes. */
  function OnSeen(ms: seq<ChatMessage>, me: string, from: string): (r: seq<ChatMessage>)
    ensures |r| == |ms|
    ensures forall i :: 0 <= i < |ms| ==> r[i] == ms[i].(status := r[i].status)
    ensures forall i :: 0 <= i < |ms| ==> (r[i] != ms[i] <==> SeenTarget(ms[i], me, from))
    ensures forall i :: 0 <= i < |ms| && SeenTarget(ms[i], me, from) ==> r[i].status == Seen
  {
    seq(|ms|, i requires 0 <= i < |ms| =>
      if SeenTarget(ms[i], me, from) then ms[i].(status := Seen) else ms[i])
  }

  /** The list after `message_delivered { to }`: only sent messages become delivered. */
  function OnDelivered(ms: seq<ChatMessage>, me: string, to: string): (r: seq<ChatMessage>)
    ensures |r| == |ms|
    ensures forall i :: 0 <= i < |ms| ==> r[i] == ms[i].(status := r[i].status)
    ensures forall i :: 0 <= i < |ms| ==> (r[i] != ms[i] <==> DeliveredTarget(ms[i], me, to))
    ensures forall i :: 0 <= i < |ms| && DeliveredTarget(ms[i], me, to) ==> r[i].status == Delivered
  {
    seq(|ms|, i requires 0 <= i < |ms| =>
      if DeliveredTarget(ms[i], me, to) then ms[i].(status := Delivered) else ms[i])
  }

  /** Neither receipt moves a status backwards: sent < delivered < seen. A delivered receipt that
      arrives after the seen one leaves the message seen. */
  lemma ReceiptsMonotone(ms: seq<ChatMessage>, me: string, other: string)
    ensures forall i :: 0 <= i < |ms| ==> Rank(ms[i].status) <= Rank(OnSeen(ms, me, other)[i].status)
    ensures forall i :: 0 <= i < |ms| ==> Rank(ms[i].status) <= Rank(OnDelivered(ms, me, other)[i].status)
    ensures OnDelivered(OnSeen(ms, me, other), me, other) == OnSeen(ms, me, other)
  {
    var s := OnSeen(ms, me, other);
    var d := OnDelivered(s, me, other);
    assert forall i :: 0 <= i < |s| ==> d[i] == s[i];
  }

  /** The index of the last message I sent, as `messages.slice().reverse().find(...)` finds it. */
  function LastSentIndex(ms: seq<ChatMessage>, me: string): (r: Option<nat>)
    ensures r.Some? ==> r.value < |ms| && PartyId(ms[r.value].sender) == me
    ensures r.Some? ==> forall j :: r.value < j < |ms| ==> PartyId(ms[j].sender) != me
    ensures r.None? ==> forall j :: 0 <= j < |ms| ==> PartyId(ms[j].sender) != me
    decreases |ms|
  {
    if ms == [] then None
    else if PartyId(ms[|ms| - 1].sender) == me then Some(|ms| - 1)
    else LastSentIndex(ms[..|ms| - 1], me)
  }

  /** `isLastSentByMe` for the message at `i`: I sent it, and it has the `_id` of the last message
      I sent. */
  predicate IsLastSentByMe(ms: seq<ChatMessage>, me: string, i: nat)
    requires i < |ms|
  {
    var last := LastSentIndex(ms, me);
    PartyId(ms[i].sender) == me && last.Some? && ms[last.value].id == ms[i].id
  }

  /** With distinct ids the label shows under exactly one message, the last one I sent, or under
      none when I sent nothing. */
  lemma LastSentUnique(ms: seq<ChatMessage>, me: string, i: nat)
    requires UniqueIds(ms) && i < |ms|
    ensures IsLastSentByMe(ms, me, i) <==> LastSentIndex(ms, me) == Some(i)
  {
  }

  /** The text under the last message I sent. */
  function StatusLabel(s: Status): (r: string)
    ensures r == "Seen" <==> s == Seen
    ensures r == "Delivered" <==> s == Delivered
    ensures r == "Seen" || r == "Delivered" || r == "Sent"
  {
    if s == Seen then "Seen" else if s == Delivered then "Delivered" else "Sent"
  }

  /** The label read off the status string a message carries, as the page compares it. */
  lemma StatusLabelOfName(name: string)
    ensures StatusLabel(FromName(name)) ==
      if name == "seen" then "Seen" else if name == "delivered" then "Delivered" else "Sent"
  {
  }

  /** What the page sends to the realtime server. */
  datatype ClientEvent =
    | Join(userId: string)
    | SeenMessages(sender: string, receiver: string)
    | SendMessage(sender: string, receiver: string, message: string)

  class ChatPage {
    const me: string
    var selected: Option<string>
    var messages: seq<ChatMessage>
    var draft: string
    var emitted: seq<ClientEvent>

    ghost predicate Valid()
      reads this
    {
      UniqueIds(messages)
    }

    /** Mounting the page with a signed-in user and a connected socket: the listener effect joins
        my room; no chat is open yet. */
    constructor (me: string)
      ensures Valid()
      ensures this.me == me && selected == None && messages == [] && draft == ""
      ensures emitted == [Join(me)]
    {
      this.me := me;
      selected, messages, draft := None, [], "";
      emitted := [Join(me)];
    }

    /** Clicking a chat in the sidebar. Clicking the chat already open sets the same state again,
        so no effect runs and nothing changes. Another chat makes the listener effect run again and
        re-join my room; the fetched conversation then replaces the list and the partner's messages
        are reported seen. */
    method SelectChat(chatId: string, fetched: seq<ChatMessage>)
      requires Valid() && UniqueIds(fetched)
      modifies this
      ensures Valid()
      ensures selected == Some(chatId) && draft == old(draft)
      ensures old(selected) == Some(chatId) ==> messages == old(messages) && emitted == old(emitted)
      ensures old(selected) != Some(chatId) ==>
        messages == fetched && emitted == old(emitted) + [Join(me), SeenMessages(chatId, me)]
    {
      if selected == Some(chatId) {
        return;
      }
      selected := Some(chatId);
      emitted := emitted + [Join(me)];
      messages := fetched;
      emitted := emitted + [SeenMessages(chatId, me)];
    }

    /** `receive_message`: the list takes the message as `OnReceive` says; when it comes from the
        open chat's partner, the page reports it seen (even when it was a duplicate). */
    method ReceiveMessage(msg: ChatMessage)
      requires Valid()
      modifies this`messages, this`emitted
      ensures Valid()
      ensures messages == OnReceive(old(messages), msg, selected)
      ensures IsChat(msg.sender, selected) ==> emitted == old(emitted) + [SeenMessages(selected.value, me)]
      ensures !IsChat(msg.sender, selected) ==> emitted == old(emitted)
    {
      OnReceiveIdempotent(messages, msg, selected);
      if IsChat(msg.sender, selected) || IsChat(msg.receiver, selected) {
        messages := OnReceive(messages, msg, selected);
        if IsChat(msg.sender, selected) {
          emitted := emitted + [SeenMessages(selected.value, me)];
        }
      }
    }

    /** `messages_seen { from }`. */
    method MessagesSeen(from: string)
      requires Valid()
      modifies this`messages
      ensures Valid()
      ensures messages == OnSeen(old(messages), me, from)
    {
      messages := OnSeen(messages, me, from);
      assert forall i :: 0 <= i < |messages| ==> messages[i].id == old(messages)[i].id;
    }

    /** `message_delivered { to }`. */
    method MessageDelivered(to: string)
      requires Valid()
      modifies this`messages
      ensures Valid()
      ensures messages == OnDelivered(old(messages), me, to)
    {
      messages := OnDelivered(messages, me, to);
      assert forall i :: 0 <= i < |messages| ==> messages[i].id == old(messages)[i].id;
    }

    method Type(text: string)
      modifies this`draft
      ensures draft == text
    {
      draft := text;
    }

    /** `handleSendMessage`: nothing happens when the draft is blank or no chat is open; otherwise
        the draft, untrimmed, is sent to the open chat and the input is cleared. */
    method Send()
      modifies this`draft, this`emitted
      ensures Text.IsBlank(old(draft)) || selected.None? ==>
        draft == old(draft) && emitted == old(emitted)
      ensures !Text.IsBlank(old(draft)) && selected.Some? ==>
        draft == "" && emitted == old(emitted) + [SendMessage(me, selected.value, old(draft))]
    {
      if Text.IsBlank(draft) || selected.None? {
        return;
      }
      emitted := emitted + [SendMessage(me, selected.value, draft)];
      draft := "";
    }
  }
}
