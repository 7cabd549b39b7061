/** Loading a conversation (`getMessages`): validate both ids, mark the unread messages of the
    conversation as seen, then return every message between the two users, oldest first. */
module ChatController {
  import opened MessageStatus
  import opened Store
  import Seqs
  import Sorting

  predicate IsHexDigit(c: char) {
    '0' <= c <= '9' || 'a' <= c <= 'f' || 'A' <= c <= 'F'
  }

  /** `mongoose.Types.ObjectId.isValid` on a string: exactly 24 hexadecimal digits. */
  predicate IsValidObjectId(s: string) {
    |s| == 24 && forall i :: 0 <= i < |s| ==> IsHexDigit(s[i])
  }

  /** The message matches the `updateMany` filter `{ sender: from, receiver: to, status: { $ne: "seen" } }`. */
  predicate Unseen(m: StoredMessage, from: UserId, to: UserId) {
    m.sender == from && m.receiver == to && m.status != Seen
  }

  /** `Message.updateMany(filter, { $set: { status: "seen" } })`: every message from `from` to `to`
      not yet seen becomes seen; the others, and the order, are untouched. */
  function MarkSeen(msgs: seq<StoredMessage>, from: UserId, to: UserId): (r: seq<StoredMessage>)
    ensures |r| == |msgs|
    ensures forall i :: 0 <= i < |msgs| ==>
      r[i] == (if Unseen(msgs[i], from, to) then msgs[i].(status := Seen) else msgs[i])
  {
    seq(|msgs|, i requires 0 <= i < |msgs| =>
      if Unseen(msgs[i], from, to) then msgs[i].(status := Seen) else msgs[i])
  }

  /** After the update no message from `from` to `to` is left unseen, and no status moves backwards. */
  lemma MarkSeenEffect(msgs: seq<StoredMessage>, from: UserId, to: UserId)
    ensures forall i :: 0 <= i < |msgs| ==> !Unseen(MarkSeen(msgs, from, to)[i], from, to)
    ensures forall i :: 0 <= i < |msgs| ==> Rank(msgs[i].status) <= Rank(MarkSeen(msgs, from, to)[i].status)
  {
  }

  /** Messages of any other sender and receiver are untouched, and so are text, parties and time. */
  lemma MarkSeenFrames(msgs: seq<StoredMessage>, from: UserId, to: UserId)
    ensures forall i :: 0 <= i < |msgs| && !(msgs[i].sender == from && msgs[i].receiver == to) ==>
      MarkSeen(msgs, from, to)[i] == msgs[i]
    ensures forall i :: 0 <= i < |msgs| ==>
      MarkSeen(msgs, from, to)[i] == msgs[i].(status := MarkSeen(msgs, from, to)[i].status)
  {
  }

  /** Marking twice is marking once. */
  lemma MarkSeenIdempotent(msgs: seq<StoredMessage>, from: UserId, to: UserId)
    ensures MarkSeen(MarkSeen(msgs, from, to), from, to) == MarkSeen(msgs, from, to)
  {
  }

  /** The update `getMessages` runs as written: the filter names the caller as SENDER, so it marks
      the caller's own messages to the other user as seen. */
  function SeenUpdateAsWritten(msgs: seq<StoredMessage>, myId: UserId, userId: UserId): seq<StoredMessage> {
    MarkSeen(msgs, myId, userId)
  }

  /** The update that is meant (the commented-out filter beside it): the messages the other user
      sent to the caller, who is now reading them, become seen. */
  function SeenUpdate(msgs: seq<StoredMessage>, myId: UserId, userId: UserId): seq<StoredMessage> {
    MarkSeen(msgs, userId, myId)
  }

  /** As written, opening a chat leaves the incoming message unread and marks the caller's own
      outgoing message as seen although its receiver never opened the chat. */
  lemma SeenUpdateAsWrittenMarksWrongSide()
    ensures var msgs := [StoredMessage("u", "me", "hi", Sent, 0), StoredMessage("me", "u", "yo", Sent, 1)];
      && SeenUpdateAsWritten(msgs, "me", "u")[0].status == Sent
      && SeenUpdateAsWritten(msgs, "me", "u")[1].status == Seen
      && SeenUpdate(msgs, "me", "u")[0].status == Seen
      && SeenUpdate(msgs, "me", "u")[1].status == Sent
  {
  }

  /** The message belongs to the conversation of `a` and `b` (either direction). */
  predicate Between(m: StoredMessage, a: UserId, b: UserId) {
    (m.sender == a && m.receiver == b) || (m.sender == b && m.receiver == a)
  }

  function CreatedAt(m: StoredMessage): int { m.createdAt }

  /** `Message.find({ $or: [...] }).sort({ createdAt: 1 })`: the messages between the two users,
      oldest first, each as often as it is stored, and no other. */
  function Conversation(msgs: seq<StoredMessage>, a: UserId, b: UserId): (r: seq<StoredMessage>)
    ensures Sorting.SortedBy(r, CreatedAt)
    ensures forall m :: m in r <==> m in msgs && Between(m, a, b)
    ensures forall m :: multiset(r)[m] == if Between(m, a, b) then multiset(msgs)[m] else 0
  {
    var between := (m: StoredMessage) => Between(m, a, b);
    Sorting.SelectSorted(msgs, between, CreatedAt);
    Sorting.SortBy(Seqs.Filter(msgs, between), CreatedAt)
  }

  /** The conversation is the same from either side. */
  lemma ConversationSymmetric(msgs: seq<StoredMessage>, a: UserId, b: UserId)
    ensures Conversation(msgs, a, b) == Conversation(msgs, b, a)
  {
    Seqs.FilterCongruent(msgs, (m: StoredMessage) => Between(m, a, b), (m: StoredMessage) => Between(m, b, a));
  }

  /** `getMessages` (with the seen-update that is meant): 400 without any change unless both ids
      are well-formed object ids; otherwise the messages `userId` sent to the caller become seen
      and the whole conversation is returned, oldest first, with none of them left unread. */
  method GetMessages(db: Database, myId: UserId, userId: UserId)
    returns (status: int, conversation: seq<StoredMessage>)
    modifies db`messages
    ensures !(IsValidObjectId(myId) && IsValidObjectId(userId)) ==>
      status == 400 && conversation == [] && db.messages == old(db.messages)
    ensures IsValidObjectId(myId) && IsValidObjectId(userId) ==>
      && status == 200
      && db.messages == SeenUpdate(old(db.messages), myId, userId)
      && conversation == Conversation(db.messages, myId, userId)
      && Sorting.SortedBy(conversation, CreatedAt)
      && (forall m :: m in conversation ==> !Unseen(m, userId, myId))
  {
    if !IsValidObjectId(myId) || !IsValidObjectId(userId) {
      return 400, [];
    }
    MarkSeenEffect(db.messages, userId, myId);
    db.messages := SeenUpdate(db.messages, myId, userId);
    conversation := Conversation(db.messages, myId, userId);
    status := 200;
  }
}
