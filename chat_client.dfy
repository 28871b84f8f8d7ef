/** The browser side of the chat: the chat context's state (message list,
    roster, selected user, unseen counts) and how fetched replies and
    pushed `newMessage` events change it. Requests the client sends are
    logged instead of being sent. */
module ChatClient {
  import opened Common
  import opened MessageModel
  import opened UserModel

  /** `[...prevMessages, message]`: the existing messages, in order, then
      the new one. */
  function AppendMessage(prev: seq<Message>, message: Message): (r: seq<Message>)
    ensures |r| == |prev| + 1 && r[..|prev|] == prev && r[|prev|] == message
  {
    prev + [message]
  }

  /** `{...prev, [sender]: prev[sender] ? prev[sender] + 1 : 1}`. */
  function BumpUnseen(prev: map<UserId, nat>, sender: UserId): map<UserId, nat>
  {
    prev[sender := if sender in prev && prev[sender] != 0 then prev[sender] + 1 else 1]
  }

  /** The sender's count goes up by one (from 0 when absent), every other
      sender keeps its count, and no other key appears. */
  lemma BumpUnseenEffect(prev: map<UserId, nat>, sender: UserId)
    ensures BumpUnseen(prev, sender).Keys == prev.Keys + {sender}
    ensures BumpUnseen(prev, sender)[sender] == (if sender in prev then prev[sender] else 0) + 1
    ensures forall k :: k in prev && k != sender ==> BumpUnseen(prev, sender)[k] == prev[k]
  {
  }

  /** The client's increment mirrors the server: bumping the table the
      server computed gives the table of the store with the new unseen
      message added. */
  lemma BumpMirrorsServer(msgs: seq<Message>, me: UserId, m: Message)
    requires m.receiverId == me && !m.seen
    ensures BumpUnseen(UnseenMap(msgs, me), m.senderId) == UnseenMap(msgs + [m], me)
  {
    var after := msgs + [m];
    assert after[..|after| - 1] == msgs;
    forall s ensures s in BumpUnseen(UnseenMap(msgs, me), m.senderId) <==> s in UnseenMap(after, me) {
      UnseenMapSpec(msgs, me, s);
      UnseenMapSpec(after, me, s);
    }
    forall s | s in UnseenMap(after, me)
      ensures BumpUnseen(UnseenMap(msgs, me), m.senderId)[s] == UnseenMap(after, me)[s]
    {
      UnseenMapSpec(msgs, me, s);
      UnseenMapSpec(after, me, s);
    }
  }

  /** When the sender is on screen, the mark request the client issues for
      the pushed message leaves the server's table as it was before the
      message arrived. */
  lemma MarkKeepsServerTable(msgs: seq<Message>, me: UserId, m: Message)
    requires forall i :: 0 <= i < |msgs| ==> msgs[i].id != m.id
    ensures UnseenMap(MarkOneSeen(msgs + [m], m.id), me) == UnseenMap(msgs, me)
  {
    var marked := MarkOneSeen(msgs + [m], m.id);
    assert marked == msgs + [m.(seen := true)];
    assert marked[..|marked| - 1] == msgs;
    forall s ensures s in UnseenMap(marked, me) <==> s in UnseenMap(msgs, me) {
      UnseenMapSpec(msgs, me, s);
      UnseenMapSpec(marked, me, s);
    }
    forall s | s in UnseenMap(msgs, me) ensures UnseenMap(marked, me)[s] == UnseenMap(msgs, me)[s] {
      UnseenMapSpec(msgs, me, s);
      UnseenMapSpec(marked, me, s);
    }
  }

  /** The roster reply of `GET /api/messages/users`. */
  datatype RosterReply = RosterReply(users: seq<PublicUser>, unseenMessages: map<UserId, nat>)

  /** The chat context. `hasSocket` says whether the auth context holds a
      socket; `listening` whether a `newMessage` handler is registered on
      it; `handlerSelection` is the selected user that handler closed over;
      `markRequests` logs the ids sent to `PUT /api/messages/mark/:id`. */
  class ChatState {
    var messages: seq<Message>
    var users: seq<PublicUser>
    var selectedUser: Option<PublicUser>
    var unseenMessages: map<UserId, nat>
    var hasSocket: bool
    var listening: bool
    var handlerSelection: Option<PublicUser>
    var markRequests: seq<MessageId>

    /** A registered handler sees the current selection, and only a
        present socket can hold one. */
    ghost predicate Valid()
      reads this
    {
      listening ==> hasSocket && handlerSelection == selectedUser
    }

    constructor (hasSocket: bool)
      ensures Valid()
      ensures messages == [] && users == [] && selectedUser == None && unseenMessages == map[]
      ensures this.hasSocket == hasSocket && !listening && markRequests == []
    {
      messages := [];
      users := [];
      selectedUser := None;
      unseenMessages := map[];
      this.hasSocket := hasSocket;
      listening := false;
      handlerSelection := None;
      markRequests := [];
    }

    /** `subscribeToMessages`: without a socket nothing is registered;
        otherwise a handler closing over the current selection is. */
    method SubscribeToMessages()
      modifies this`listening, this`handlerSelection
      ensures !hasSocket ==> listening == old(listening) && handlerSelection == old(handlerSelection)
      ensures hasSocket ==> listening && handlerSelection == selectedUser
    {
      if !hasSocket {
        return;
      }
      listening := true;
      handlerSelection := selectedUser;
    }

    /** `unsubscribeFromMessages`: `socket.off("newMessage")` when there is
        a socket. */
    method UnsubscribeFromMessages()
      modifies this`listening
      ensures listening == (old(listening) && !hasSocket)
    {
      if hasSocket {
        listening := false;
      }
    }

    /** The auth context's socket changing (opened after login, or dropped):
        the effect's clean-up unsubscribes from the old socket, then the
        effect subscribes on the new one with the current selection. */
    method SetSocket(present: bool)
      requires Valid()
      modifies this`hasSocket, this`listening, this`handlerSelection
      ensures Valid()
      ensures hasSocket == present && listening == present
      ensures present ==> handlerSelection == selectedUser
    {
      UnsubscribeFromMessages();
      hasSocket := present;
      SubscribeToMessages();
    }

    /** `setSelectedUser`, followed by the effect that depends on it: the
        old handler is removed and a new one closes over the new user. */
    method SelectUser(user: Option<PublicUser>)
      requires Valid()
      modifies this`selectedUser, this`listening, this`handlerSelection
      ensures Valid()
      ensures selectedUser == user
      ensures listening == (old(listening) || hasSocket)
    {
      UnsubscribeFromMessages();
      selectedUser := user;
      SubscribeToMessages();
    }

    /** The `newMessage` handler: a message from the user on screen is
        appended as seen and a mark request is sent for it; any other
        message, also when nobody is selected, bumps its sender's count. */
    method OnNewMessage(newMessage: Message)
      modifies this`messages, this`unseenMessages, this`markRequests
      ensures handlerSelection.Some? && newMessage.senderId == handlerSelection.value.id ==>
                && messages == AppendMessage(old(messages), newMessage.(seen := true))
                && markRequests == old(markRequests) + [newMessage.id]
                && unseenMessages == old(unseenMessages)
      ensures !(handlerSelection.Some? && newMessage.senderId == handlerSelection.value.id) ==>
                && messages == old(messages)
                && unseenMessages == BumpUnseen(old(unseenMessages), newMessage.senderId)
                && markRequests == old(markRequests)
    {
      if handlerSelection.Some? && newMessage.senderId == handlerSelection.value.id {
        var shown := newMessage.(seen := true);
        messages := AppendMessage(messages, shown);
        markRequests := markRequests + [newMessage.id];
      } else {
        unseenMessages := BumpUnseen(unseenMessages, newMessage.senderId);
      }
    }

    /** The socket delivering a `newMessage` event: it reaches the handler
        only when one is registered. */
    method Deliver(newMessage: Message)
      requires Valid()
      modifies this`messages, this`unseenMessages, this`markRequests
      ensures Valid()
      ensures !listening ==> messages == old(messages) && unseenMessages == old(unseenMessages)
                             && markRequests == old(markRequests)
      ensures listening && selectedUser.Some? && newMessage.senderId == selectedUser.value.id ==>
                && messages == AppendMessage(old(messages), newMessage.(seen := true))
                && markRequests == old(markRequests) + [newMessage.id]
                && unseenMessages == old(unseenMessages)
      ensures listening && !(selectedUser.Some? && newMessage.senderId == selectedUser.value.id) ==>
                && messages == old(messages)
                && unseenMessages == BumpUnseen(old(unseenMessages), newMessage.senderId)
                && markRequests == old(markRequests)
    {
      if listening {
        OnNewMessage(newMessage);
      }
    }

    /** `getUsers`: a reply replaces the roster and the unseen table
        wholesale; a failed request changes nothing. */
    method GetUsers(reply: Option<RosterReply>)
      modifies this`users, this`unseenMessages
      ensures reply.Some? ==> users == reply.value.users && unseenMessages == reply.value.unseenMessages
      ensures reply.None? ==> users == old(users) && unseenMessages == old(unseenMessages)
    {
      if reply.Some? {
        users := reply.value.users;
        unseenMessages := reply.value.unseenMessages;
      }
    }

    /** `getMessages`: a reply replaces the message list wholesale. */
    method GetMessages(reply: Option<seq<Message>>)
      modifies this`messages
      ensures messages == if reply.Some? then reply.value else old(messages)
    {
      if reply.Some? {
        messages := reply.value;
      }
    }

    /** `sendMessage`: with a user selected and a reply, the server's
        message goes after all existing ones; with nobody selected the
        request is never made, and a failed request changes nothing. */
    method SendMessage(reply: Option<Message>)
      modifies this`messages
      ensures selectedUser.Some? && reply.Some? ==> messages == AppendMessage(old(messages), reply.value)
      ensures !(selectedUser.Some? && reply.Some?) ==> messages == old(messages)
    {
      if selectedUser.None? {
        return;
      }
      if reply.Some? {
        messages := AppendMessage(messages, reply.value);
      }
    }
  }

  /** A client without a socket never registers a handler, so pushed
      messages leave its state alone. */
  method NoSocketIgnoresPushes(pushes: seq<Message>, user: Option<PublicUser>) returns (state: ChatState)
    ensures state.messages == [] && state.unseenMessages == map[] && state.markRequests == []
    ensures !state.listening
  {
    state := new ChatState(false);
    state.SubscribeToMessages();
    state.SelectUser(user);
    var i := 0;
    while i < |pushes|
      invariant 0 <= i <= |pushes|
      invariant state.Valid() && !state.hasSocket && !state.listening
      invariant state.messages == [] && state.unseenMessages == map[] && state.markRequests == []
    {
      state.Deliver(pushes[i]);
      i := i + 1;
    }
  }
}
