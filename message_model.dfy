/** The message record and the message collection the controllers query and
    update: sender, receiver, optional text and image, and a `seen` flag that
    starts false. The collection keeps creation order; ids come from a
    counter, so they increase along the collection. */
module MessageModel {
  import opened Common

  type MessageId = nat

  datatype Message = Message(
    id: MessageId,
    senderId: UserId,
    receiverId: UserId,
    text: Option<string>,
    image: Option<string>,
    seen: bool)

  // ---------------------------------------------------------------------
  // Queries over a collection

  /** `m` was sent by `a` to `b` or by `b` to `a`. */
  predicate Between(m: Message, a: UserId, b: UserId)
  {
    (m.senderId == a && m.receiverId == b) || (m.senderId == b && m.receiverId == a)
  }

  /** The `$or` query of the thread fetch, in collection order. */
  function Thread(msgs: seq<Message>, a: UserId, b: UserId): seq<Message>
  {
    if msgs == [] then []
    else
      var rest := Thread(msgs[..|msgs| - 1], a, b);
      if Between(msgs[|msgs| - 1], a, b) then rest + [msgs[|msgs| - 1]] else rest
  }

  /** `m` is an unseen message from `sender` to `receiver`. */
  predicate UnseenFrom(m: Message, sender: UserId, receiver: UserId)
  {
    m.senderId == sender && m.receiverId == receiver && !m.seen
  }

  /** How many unseen messages `sender` has sent to `receiver`. */
  function CountUnseen(msgs: seq<Message>, sender: UserId, receiver: UserId): nat
  {
    if msgs == [] then 0
    else CountUnseen(msgs[..|msgs| - 1], sender, receiver)
         + (if UnseenFrom(msgs[|msgs| - 1], sender, receiver) then 1 else 0)
  }

  /** How many unseen messages are addressed to `receiver`, from anyone. */
  function UnseenTo(msgs: seq<Message>, receiver: UserId): nat
  {
    if msgs == [] then 0
    else UnseenTo(msgs[..|msgs| - 1], receiver)
         + (if msgs[|msgs| - 1].receiverId == receiver && !msgs[|msgs| - 1].seen then 1 else 0)
  }

  /** The unseen-count table a requester should see: one entry per sender
      with at least one unseen message to `receiver`, holding that count. */
  function UnseenMap(msgs: seq<Message>, receiver: UserId): map<UserId, nat>
  {
    map s | s in Senders(msgs) && CountUnseen(msgs, s, receiver) >= 1 :: CountUnseen(msgs, s, receiver)
  }

  function Senders(msgs: seq<Message>): set<UserId>
  {
    set i | 0 <= i < |msgs| :: msgs[i].senderId
  }

  /** `updateMany({senderId: sender, receiverId: receiver}, {seen: true})`. */
  function MarkSeenFrom(msgs: seq<Message>, sender: UserId, receiver: UserId): (r: seq<Message>)
    ensures |r| == |msgs|
  {
    seq(|msgs|, i requires 0 <= i < |msgs| =>
      if msgs[i].senderId == sender && msgs[i].receiverId == receiver
      then msgs[i].(seen := true) else msgs[i])
  }

  /** `findByIdAndUpdate(id, {seen: true})` on the collection. */
  function MarkOneSeen(msgs: seq<Message>, id: MessageId): (r: seq<Message>)
    ensures |r| == |msgs|
  {
    seq(|msgs|, i requires 0 <= i < |msgs| =>
      if msgs[i].id == id then msgs[i].(seen := true) else msgs[i])
  }

  /** Ids strictly increase along the collection, so each id is unique. */
  predicate IdsIncreasing(msgs: seq<Message>)
  {
    forall i, j :: 0 <= i < j < |msgs| ==> msgs[i].id < msgs[j].id
  }

  // ---------------------------------------------------------------------
  // Properties of the queries

  /** The thread holds exactly the collection's messages between the two
      users, in either direction. */
  lemma {:induction false} ThreadMembers(msgs: seq<Message>, a: UserId, b: UserId)
    ensures forall m :: m in Thread(msgs, a, b) <==> m in msgs && Between(m, a, b)
  {
    if msgs != [] {
      var init := msgs[..|msgs| - 1];
      ThreadMembers(init, a, b);
      assert msgs == init + [msgs[|msgs| - 1]];
    }
  }

  /** The thread keeps the collection's order: its ids still increase. */
  lemma {:induction false} ThreadOrdered(msgs: seq<Message>, a: UserId, b: UserId)
    requires IdsIncreasing(msgs)
    ensures IdsIncreasing(Thread(msgs, a, b))
  {
    if msgs != [] {
      var init := msgs[..|msgs| - 1];
      var last := msgs[|msgs| - 1];
      ThreadOrdered(init, a, b);
      ThreadMembers(init, a, b);
      var t := Thread(init, a, b);
      if Between(last, a, b) {
        forall i | 0 <= i < |t| ensures t[i].id < last.id {
          assert t[i] in init;
        }
      }
    }
  }

  /** Either direction names the same thread. */
  lemma {:induction false} ThreadSymmetric(msgs: seq<Message>, a: UserId, b: UserId)
    ensures Thread(msgs, a, b) == Thread(msgs, b, a)
  {
    if msgs != [] {
      ThreadSymmetric(msgs[..|msgs| - 1], a, b);
    }
  }

  /** The bulk update flips exactly the `sender` to `receiver` messages to
      seen; every other field and every other message stays as it was. */
  lemma MarkSeenFromEffect(msgs: seq<Message>, sender: UserId, receiver: UserId, i: nat)
    requires i < |msgs|
    ensures MarkSeenFrom(msgs, sender, receiver)[i].(seen := msgs[i].seen) == msgs[i]
    ensures MarkSeenFrom(msgs, sender, receiver)[i].seen
            <==> msgs[i].seen || (msgs[i].senderId == sender && msgs[i].receiverId == receiver)
  {
  }

  lemma {:induction false} CountUnseenPrefix(msgs: seq<Message>, sender: UserId, receiver: UserId)
    ensures CountUnseen(msgs, sender, receiver) == 0
            <==> forall i :: 0 <= i < |msgs| ==> !UnseenFrom(msgs[i], sender, receiver)
  {
    if msgs != [] {
      var init := msgs[..|msgs| - 1];
      CountUnseenPrefix(init, sender, receiver);
      assert forall i :: 0 <= i < |init| ==> init[i] == msgs[i];
    }
  }

  /** After the bulk update nothing from `sender` to `receiver` is unseen,
      and the unseen counts of every other pair are unchanged. */
  lemma MarkSeenFromClears(msgs: seq<Message>, sender: UserId, receiver: UserId)
    ensures CountUnseen(MarkSeenFrom(msgs, sender, receiver), sender, receiver) == 0
    ensures forall s, r :: (s != sender || r != receiver)
              ==> CountUnseen(MarkSeenFrom(msgs, sender, receiver), s, r) == CountUnseen(msgs, s, r)
  {
    var after := MarkSeenFrom(msgs, sender, receiver);
    CountUnseenPrefix(after, sender, receiver);
    forall s, r | s != sender || r != receiver
      ensures CountUnseen(after, s, r) == CountUnseen(msgs, s, r)
    {
      CountUnseenOtherPair(msgs, sender, receiver, s, r);
    }
  }

  lemma {:induction false} CountUnseenOtherPair(msgs: seq<Message>, sender: UserId, receiver: UserId, s: UserId, r: UserId)
    requires s != sender || r != receiver
    ensures CountUnseen(MarkSeenFrom(msgs, sender, receiver), s, r) == CountUnseen(msgs, s, r)
  {
    if msgs != [] {
      var init := msgs[..|msgs| - 1];
      CountUnseenOtherPair(init, sender, receiver, s, r);
      assert MarkSeenFrom(msgs, sender, receiver)[..|msgs| - 1] == MarkSeenFrom(init, sender, receiver);
    }
  }

  /** Marking one message: the message with that id (if any) becomes seen,
      every other message is unchanged, an unknown id changes nothing, and a
      second mark changes nothing more. */
  lemma MarkOneSeenEffect(msgs: seq<Message>, id: MessageId)
    ensures forall i :: 0 <= i < |msgs| && msgs[i].id != id ==> MarkOneSeen(msgs, id)[i] == msgs[i]
    ensures forall i :: 0 <= i < |msgs| && msgs[i].id == id ==> MarkOneSeen(msgs, id)[i] == msgs[i].(seen := true)
    ensures (forall i :: 0 <= i < |msgs| ==> msgs[i].id != id) ==> MarkOneSeen(msgs, id) == msgs
    ensures MarkOneSeen(MarkOneSeen(msgs, id), id) == MarkOneSeen(msgs, id)
  {
  }

  /** The bulk update is idempotent. */
  lemma MarkSeenFromIdempotent(msgs: seq<Message>, sender: UserId, receiver: UserId)
    ensures MarkSeenFrom(MarkSeenFrom(msgs, sender, receiver), sender, receiver) == MarkSeenFrom(msgs, sender, receiver)
  {
  }

  /** Neither update changes any id, so the collection stays well ordered. */
  lemma UpdatesKeepIds(msgs: seq<Message>, sender: UserId, receiver: UserId, id: MessageId)
    requires IdsIncreasing(msgs)
    ensures IdsIncreasing(MarkSeenFrom(msgs, sender, receiver))
    ensures IdsIncreasing(MarkOneSeen(msgs, id))
  {
  }

  /** The unseen table has a key exactly for the senders with unseen
      messages to the receiver, every value is at least one, and a sender's
      value is its unseen count. */
  lemma UnseenMapSpec(msgs: seq<Message>, receiver: UserId, s: UserId)
    ensures s in UnseenMap(msgs, receiver) <==> CountUnseen(msgs, s, receiver) >= 1
    ensures s in UnseenMap(msgs, receiver) ==> UnseenMap(msgs, receiver)[s] == CountUnseen(msgs, s, receiver)
  {
    if CountUnseen(msgs, s, receiver) >= 1 {
      CountUnseenPrefix(msgs, s, receiver);
      var i :| 0 <= i < |msgs| && UnseenFrom(msgs[i], s, receiver);
      assert s in Senders(msgs);
    }
  }

  // ---------------------------------------------------------------------
  // The collection

  class MessageStore {
    var messages: seq<Message>
    var nextId: nat

    ghost predicate Valid()
      reads this
    {
      IdsIncreasing(messages)
      && forall i :: 0 <= i < |messages| ==> messages[i].id < nextId
    }

    constructor ()
      ensures Valid() && messages == [] && nextId == 0
    {
      messages := [];
      nextId := 0;
    }

    /** `Message.create`: append one message, unseen, under a fresh id. */
    method Create(senderId: UserId, receiverId: UserId, text: Option<string>, image: Option<string>)
      returns (m: Message)
      requires Valid()
      modifies this
      ensures Valid()
      ensures m == Message(old(nextId), senderId, receiverId, text, image, false)
      ensures messages == old(messages) + [m]
      ensures forall i :: 0 <= i < |old(messages)| ==> old(messages)[i].id != m.id
    {
      m := Message(nextId, senderId, receiverId, text, image, false);
      messages := messages + [m];
      nextId := nextId + 1;
    }

    /** `updateMany({senderId, receiverId}, {seen: true})`, one document at
        a time. */
    method UpdateManySeen(senderId: UserId, receiverId: UserId)
      requires Valid()
      modifies this
      ensures Valid() && nextId == old(nextId)
      ensures messages == MarkSeenFrom(old(messages), senderId, receiverId)
    {
      var i := 0;
      while i < |messages|
        invariant 0 <= i <= |messages| == |old(messages)|
        invariant nextId == old(nextId)
        invariant forall k :: 0 <= k < i ==> messages[k] == MarkSeenFrom(old(messages), senderId, receiverId)[k]
        invariant forall k :: i <= k < |messages| ==> messages[k] == old(messages)[k]
      {
        if messages[i].senderId == senderId && messages[i].receiverId == receiverId {
          messages := messages[i := messages[i].(seen := true)];
        }
        i := i + 1;
      }
      UpdatesKeepIds(old(messages), senderId, receiverId, 0);
    }

    /** `findByIdAndUpdate(id, {seen: true}, {new: true})`: the updated
        message, or None when no message has that id. */
    method FindByIdAndMarkSeen(id: MessageId) returns (r: Option<Message>)
      requires Valid()
      modifies this
      ensures Valid() && nextId == old(nextId)
      ensures messages == MarkOneSeen(old(messages), id)
      ensures r.None? <==> forall i :: 0 <= i < |old(messages)| ==> old(messages)[i].id != id
      ensures r.Some? ==> r.value.id == id && r.value.seen && r.value in messages
                          && exists i :: 0 <= i < |old(messages)| && r.value == old(messages)[i].(seen := true)
    {
      var i := 0;
      while i < |messages| && messages[i].id != id
        invariant 0 <= i <= |messages|
        invariant forall k :: 0 <= k < i ==> messages[k].id != id
      {
        i := i + 1;
      }
      if i == |messages| {
        r := None;
        MarkOneSeenEffect(messages, id);
      } else {
        var updated := messages[i].(seen := true);
        messages := messages[i := updated];
        r := Some(updated);
        assert messages[i] == updated;
        assert messages == MarkOneSeen(old(messages), id) by {
          forall k | 0 <= k < |messages|
            ensures messages[k] == MarkOneSeen(old(messages), id)[k]
          {
            if k != i {
              assert old(messages)[k].id != id by {
                if k < i {} else { assert old(messages)[i].id < old(messages)[k].id; }
              }
            }
          }
        }
        UpdatesKeepIds(old(messages), "", "", id);
      }
    }
  }
}
