/** The four message handlers of the chat server, run against the message
    and user collections and the socket server: the sidebar roster with
    unseen counts, the thread fetch that marks a peer's messages seen, the
    single-message mark, and sending. */
module MessageControllers {
  import opened Common
  import opened MessageModel
  import opened UserModel
  import opened Presence

  // ---------------------------------------------------------------------
  // The unseen-count aggregation

  /** One row of the aggregation's output: `{_id: senderId, count}`. */
  datatype Group = Group(id: UserId, count: nat)

  /** `$group` adding one message of `sender`: its row's count goes up by
      one, or a new row with count 1 is added at the end. */
  function Tally(groups: seq<Group>, sender: UserId): seq<Group>
  {
    if groups == [] then [Group(sender, 1)]
    else if groups[0].id == sender then [Group(sender, groups[0].count + 1)] + groups[1..]
    else [groups[0]] + Tally(groups[1..], sender)
  }

  /** The `$match {receiverId, seen: false}` and `$group by senderId`
      pipeline, rows in order of each sender's first unseen message. */
  function AggregateUnseen(msgs: seq<Message>, receiver: UserId): seq<Group>
  {
    if msgs == [] then []
    else
      var groups := AggregateUnseen(msgs[..|msgs| - 1], receiver);
      var m := msgs[|msgs| - 1];
      if m.receiverId == receiver && !m.seen then Tally(groups, m.senderId) else groups
  }

  /** The senders of the rows, in row order. */
  function GroupIds(groups: seq<Group>): seq<UserId>
  {
    seq(|groups|, i requires 0 <= i < |groups| => groups[i].id)
  }

  /** The count of the first row for `k`, or 0 when there is none. */
  function CountIn(groups: seq<Group>, k: UserId): nat
  {
    if groups == [] then 0
    else if groups[0].id == k then groups[0].count
    else CountIn(groups[1..], k)
  }

  function SumCounts(groups: seq<Group>): nat
  {
    if groups == [] then 0 else groups[0].count + SumCounts(groups[1..])
  }

  /** Rows with distinct senders and positive counts. */
  predicate WellFormed(groups: seq<Group>)
  {
    NoDup(GroupIds(groups)) && forall i :: 0 <= i < |groups| ==> groups[i].count >= 1
  }

  /** Tallying keeps the rows well formed; the sender has a row afterwards
      and no other id gains one. */
  lemma {:induction false} TallyRows(groups: seq<Group>, sender: UserId)
    requires WellFormed(groups)
    ensures WellFormed(Tally(groups, sender))
    ensures forall k :: k in GroupIds(Tally(groups, sender)) <==> k in GroupIds(groups) || k == sender
  {
    if groups != [] {
      var t := Tally(groups, sender);
      var rest := groups[1..];
      IdsCons(groups[0], rest);
      assert groups == [groups[0]] + rest;
      if groups[0].id == sender {
        IdsCons(Group(sender, groups[0].count + 1), rest);
        assert GroupIds(t) == GroupIds(groups);
      } else {
        forall i, j | 0 <= i < j < |rest| ensures GroupIds(rest)[i] != GroupIds(rest)[j] {
          assert GroupIds(groups)[i + 1] != GroupIds(groups)[j + 1];
        }
        forall i | 0 <= i < |rest| ensures GroupIds(rest)[i] != groups[0].id {
          assert GroupIds(groups)[0] != GroupIds(groups)[i + 1];
        }
        TallyRows(rest, sender);
        IdsCons(groups[0], Tally(rest, sender));
        NoDupPrepend(groups[0].id, GroupIds(Tally(rest, sender)));
      }
    } else {
      assert GroupIds(Tally(groups, sender)) == [sender];
    }
  }

  lemma IdsCons(g: Group, rest: seq<Group>)
    ensures GroupIds([g] + rest) == [g.id] + GroupIds(rest)
  {
  }

  /** Tallying adds one to the sender's count, to no other count, and one
      to the total. */
  lemma {:induction false} TallyCounts(groups: seq<Group>, sender: UserId)
    ensures forall k :: CountIn(Tally(groups, sender), k) == CountIn(groups, k) + (if k == sender then 1 else 0)
    ensures SumCounts(Tally(groups, sender)) == SumCounts(groups) + 1
  {
    if groups != [] && groups[0].id != sender {
      TallyCounts(groups[1..], sender);
    }
  }

  /** The aggregation yields one row per sender with unseen messages to the
      receiver, holding that sender's unseen count, and the counts add up to
      the receiver's unseen total. */
  lemma {:induction false} AggregateUnseenSpec(msgs: seq<Message>, receiver: UserId)
    ensures WellFormed(AggregateUnseen(msgs, receiver))
    ensures forall k :: CountIn(AggregateUnseen(msgs, receiver), k) == CountUnseen(msgs, k, receiver)
    ensures forall k :: k in GroupIds(AggregateUnseen(msgs, receiver)) <==> CountUnseen(msgs, k, receiver) >= 1
    ensures SumCounts(AggregateUnseen(msgs, receiver)) == UnseenTo(msgs, receiver)
  {
    if msgs != [] {
      var init := msgs[..|msgs| - 1];
      var m := msgs[|msgs| - 1];
      AggregateUnseenSpec(init, receiver);
      if m.receiverId == receiver && !m.seen {
        TallyRows(AggregateUnseen(init, receiver), m.senderId);
        TallyCounts(AggregateUnseen(init, receiver), m.senderId);
      }
    }
  }

  /** The table the `forEach` fills: row by row, each row's count is written
      under its sender, so a later row for the same sender wins. */
  function RowsTable(groups: seq<Group>): map<UserId, nat>
  {
    if groups == [] then map[]
    else
      var last := groups[|groups| - 1];
      RowsTable(groups[..|groups| - 1])[last.id := last.count]
  }

  /** `unseenMessagesCount.forEach(item => unseenMap[item._id] = item.count)`. */
  method BuildUnseenMap(groups: seq<Group>) returns (unseenMap: map<UserId, nat>)
    ensures unseenMap == RowsTable(groups)
  {
    unseenMap := map[];
    var i := 0;
    while i < |groups|
      invariant 0 <= i <= |groups|
      invariant unseenMap == RowsTable(groups[..i])
    {
      assert groups[..i + 1][..i] == groups[..i];
      unseenMap := unseenMap[groups[i].id := groups[i].count];
      i := i + 1;
    }
    assert groups[..i] == groups;
  }

  /** CountIn reports the first row for a sender, so a row appended at the
      end only counts for a sender without an earlier row. */
  lemma {:induction false} CountInAppend(groups: seq<Group>, g: Group, k: UserId)
    ensures CountIn(groups + [g], k)
            == if k in GroupIds(groups) then CountIn(groups, k) else if g.id == k then g.count else 0
  {
    if groups != [] {
      assert (groups + [g])[1..] == groups[1..] + [g];
      assert GroupIds(groups) == [groups[0].id] + GroupIds(groups[1..]);
      CountInAppend(groups[1..], g, k);
    }
  }

  lemma {:induction false} SumCountsAppend(groups: seq<Group>, g: Group)
    ensures SumCounts(groups + [g]) == SumCounts(groups) + g.count
  {
    if groups != [] {
      assert (groups + [g])[1..] == groups[1..] + [g];
      SumCountsAppend(groups[1..], g);
    }
  }

  /** The sum of a table's values. */
  ghost function MapSum(m: map<UserId, nat>): nat
    decreases |m|
  {
    if m == map[] then 0
    else
      var k :| k in m;
      assert |m - {k}| < |m| by { assert (m - {k}).Keys < m.Keys; }
      m[k] + MapSum(m - {k})
  }

  /** The sum does not depend on which key is taken out first. */
  lemma {:induction false} MapSumRemove(m: map<UserId, nat>, k: UserId)
    requires k in m
    ensures MapSum(m) == m[k] + MapSum(m - {k})
    decreases |m|
  {
    var j :| j in m && MapSum(m) == m[j] + MapSum(m - {j});
    if j != k {
      assert (m - {k}).Keys < m.Keys && (m - {j}).Keys < m.Keys;
      MapSumRemove(m - {j}, k);
      MapSumRemove(m - {k}, j);
      assert m - {j} - {k} == m - {k} - {j};
    }
  }

  /** Splitting off the last row of duplicate-free rows: the earlier rows
      stay duplicate-free and none of them has the last row's sender. */
  lemma LastRow(groups: seq<Group>)
    requires groups != [] && NoDup(GroupIds(groups))
    ensures var n := |groups| - 1;
      && groups == groups[..n] + [groups[n]]
      && GroupIds(groups) == GroupIds(groups[..n]) + [groups[n].id]
      && NoDup(GroupIds(groups[..n]))
      && groups[n].id !in GroupIds(groups[..n])
  {
    var n := |groups| - 1;
    var ids := GroupIds(groups);
    assert GroupIds(groups[..n]) == ids[..n];
    forall i | 0 <= i < n ensures GroupIds(groups[..n])[i] != groups[n].id {
      assert ids[i] != ids[n];
    }
  }

  /** For rows with distinct senders, the table has a key exactly for each
      row's sender, holding that sender's count. */
  lemma {:induction false} RowsTableSpec(groups: seq<Group>)
    requires NoDup(GroupIds(groups))
    ensures forall k :: k in RowsTable(groups) <==> k in GroupIds(groups)
    ensures forall k :: k in RowsTable(groups) ==> RowsTable(groups)[k] == CountIn(groups, k)
  {
    if groups != [] {
      var n := |groups| - 1;
      var init := groups[..n];
      var g := groups[n];
      LastRow(groups);
      RowsTableSpec(init);
      forall k ensures CountIn(groups, k)
                       == if k in GroupIds(init) then CountIn(init, k) else if g.id == k then g.count else 0 {
        CountInAppend(init, g, k);
      }
    }
  }

  /** For rows with distinct senders, the table's values add up to the
      rows' total. */
  lemma {:induction false} RowsTableSum(groups: seq<Group>)
    requires NoDup(GroupIds(groups))
    ensures MapSum(RowsTable(groups)) == SumCounts(groups)
  {
    if groups != [] {
      var n := |groups| - 1;
      var init := groups[..n];
      var g := groups[n];
      LastRow(groups);
      RowsTableSpec(init);
      RowsTableSum(init);
      var t := RowsTable(init);
      MapSumRemove(t[g.id := g.count], g.id);
      assert t[g.id := g.count] - {g.id} == t;
      SumCountsAppend(init, g);
    }
  }

  // ---------------------------------------------------------------------
  // getUsersForSideBar

  datatype Sidebar = Sidebar(users: seq<PublicUser>, unseenMessages: map<UserId, nat>)

  /** `User.find({_id: {$ne: userId}}).select("-password")`. */
  function OtherUsers(users: seq<User>, userId: UserId): seq<PublicUser>
  {
    if users == [] then []
    else
      var rest := OtherUsers(users[1..], userId);
      if users[0].id == userId then rest else [Public(users[0])] + rest
  }

  /** The roster is every user but the requester, without passwords, in
      collection order. */
  lemma {:induction false} OtherUsersMembers(users: seq<User>, userId: UserId)
    ensures forall i :: 0 <= i < |users| && users[i].id != userId ==> Public(users[i]) in OtherUsers(users, userId)
    ensures forall p :: p in OtherUsers(users, userId)
              ==> p.id != userId && exists i :: 0 <= i < |users| && p == Public(users[i])
  {
    if users != [] {
      var rest := users[1..];
      OtherUsersMembers(rest, userId);
      forall i | 0 < i < |users| ensures users[i] == rest[i - 1] {}
      forall p | p in OtherUsers(rest, userId) ensures exists i :: 0 <= i < |users| && p == Public(users[i]) {
        var i :| 0 <= i < |rest| && p == Public(rest[i]);
        assert p == Public(users[i + 1]);
      }
    }
  }

  /** `getUsersForSideBar`: the other users, and the unseen table: one key
      per sender with unseen messages to the requester, valued at that count,
      all values adding up to the requester's unseen total. */
  method GetUsersForSideBar(userStore: UserStore, store: MessageStore, userId: UserId)
    returns (r: Result<Sidebar>)
    ensures userId == "" ==> r == Err(ApiError(400, "Bad Request"))
    ensures userId != "" ==> r.Ok? && r.status == 200
    ensures r.Ok? ==> r.value.users == OtherUsers(userStore.users, userId)
    ensures r.Ok? ==> forall s :: s in r.value.unseenMessages <==> CountUnseen(store.messages, s, userId) >= 1
    ensures r.Ok? ==> forall s :: s in r.value.unseenMessages
                         ==> r.value.unseenMessages[s] == CountUnseen(store.messages, s, userId)
    ensures r.Ok? ==> MapSum(r.value.unseenMessages) == UnseenTo(store.messages, userId)
  {
    if userId == "" {
      return Err(ApiError(400, "Bad Request"));
    }
    var filteredUsers := OtherUsers(userStore.users, userId);
    var groups := AggregateUnseen(store.messages, userId);
    AggregateUnseenSpec(store.messages, userId);
    var unseenMap := BuildUnseenMap(groups);
    RowsTableSpec(groups);
    RowsTableSum(groups);
    r := Ok(200, Sidebar(filteredUsers, unseenMap));
  }

  /** The table the sidebar returns is the receiver's unseen table. */
  lemma SidebarTableIsUnseenMap(msgs: seq<Message>, userId: UserId, t: map<UserId, nat>)
    requires forall s :: s in t <==> CountUnseen(msgs, s, userId) >= 1
    requires forall s :: s in t ==> t[s] == CountUnseen(msgs, s, userId)
    ensures t == UnseenMap(msgs, userId)
  {
    forall s ensures s in t <==> s in UnseenMap(msgs, userId) {
      UnseenMapSpec(msgs, userId, s);
    }
    forall s | s in t ensures t[s] == UnseenMap(msgs, userId)[s] {
      UnseenMapSpec(msgs, userId, s);
    }
  }

  // ---------------------------------------------------------------------
  // getMessages

  /** `getMessages`: reads the thread between the requester and the selected
      user, then marks every message the selected user sent the requester as
      seen. The answer is the thread as it was read, before the update. A
      missing id throws (the handler's own 400 path refers to an unbound
      name). */
  method GetMessages(store: MessageStore, myId: UserId, selectedUserId: UserId)
    returns (r: Result<seq<Message>>)
    requires store.Valid()
    modifies store
    ensures store.Valid() && store.nextId == old(store.nextId)
    ensures (selectedUserId == "" || myId == "") ==>
              r == Err(Thrown) && store.messages == old(store.messages)
    ensures selectedUserId != "" && myId != "" ==>
              && r == Ok(200, Thread(old(store.messages), myId, selectedUserId))
              && store.messages == MarkSeenFrom(old(store.messages), selectedUserId, myId)
  {
    if selectedUserId == "" || myId == "" {
      return Err(Thrown);
    }
    var messages := Thread(store.messages, myId, selectedUserId);
    store.UpdateManySeen(selectedUserId, myId);
    r := Ok(200, messages);
  }

  /** The returned thread still shows as unseen every message the selected
      user had sent unseen, although the store no longer has any. */
  lemma {:induction false} ThreadShowsPreUpdateFlags(msgs: seq<Message>, me: UserId, peer: UserId)
    ensures CountUnseen(Thread(msgs, me, peer), peer, me) == CountUnseen(msgs, peer, me)
    ensures CountUnseen(MarkSeenFrom(msgs, peer, me), peer, me) == 0
  {
    if msgs != [] {
      ThreadShowsPreUpdateFlags(msgs[..|msgs| - 1], me, peer);
    }
    MarkSeenFromClears(msgs, peer, me);
  }

  // ---------------------------------------------------------------------
  // markMessageAsSeen

  /** `markMessageAsSeen`: sets `seen` on the message with that id and
      answers it, or answers null with status 200 for an unknown id. */
  method MarkMessageAsSeen(store: MessageStore, id: Option<MessageId>)
    returns (r: Result<Option<Message>>)
    requires store.Valid()
    modifies store
    ensures store.Valid() && store.nextId == old(store.nextId)
    ensures id.None? ==> r == Err(ApiError(400, "Bad Request")) && store.messages == old(store.messages)
    ensures id.Some? ==> r.Ok? && r.status == 200 && store.messages == MarkOneSeen(old(store.messages), id.value)
    ensures id.Some? ==> (r.value.None? <==> forall i :: 0 <= i < |old(store.messages)| ==> old(store.messages)[i].id != id.value)
    ensures id.Some? && r.value.Some? ==> r.value.value.id == id.value && r.value.value.seen
                                          && r.value.value in store.messages
                                          && exists i :: 0 <= i < |old(store.messages)|
                                                         && r.value.value == old(store.messages)[i].(seen := true)
  {
    if id.None? {
      return Err(ApiError(400, "Bad Request"));
    }
    var updatedMessage := store.FindByIdAndMarkSeen(id.value);
    r := Ok(200, updatedMessage);
  }

  // ---------------------------------------------------------------------
  // sendMessage

  /** The guards of `sendMessage`, in order: sender, receiver, content. */
  function SendCheck(senderId: UserId, receiverId: UserId, text: Option<string>, image: Option<string>)
    : Option<Failure>
  {
    if senderId == "" then Some(ApiError(400, "User not authenticated"))
    else if receiverId == "" then Some(ApiError(400, "Receiver ID is required"))
    else if !Truthy(text) && !Truthy(image) then Some(ApiError(400, "Message must contain text or image"))
    else None
  }

  /** A send passes iff sender and receiver are known and there is some
      text or image; each failure is a 400 and the first failing guard
      names it. */
  lemma SendCheckOrder(senderId: UserId, receiverId: UserId, text: Option<string>, image: Option<string>)
    ensures SendCheck(senderId, receiverId, text, image).None?
            <==> senderId != "" && receiverId != "" && (Truthy(text) || Truthy(image))
    ensures SendCheck(senderId, receiverId, text, image).Some? ==> SendCheck(senderId, receiverId, text, image).value.status == 400
    ensures senderId == "" ==> SendCheck(senderId, receiverId, text, image) == Some(ApiError(400, "User not authenticated"))
    ensures senderId != "" && receiverId == ""
            ==> SendCheck(senderId, receiverId, text, image) == Some(ApiError(400, "Receiver ID is required"))
  {
  }

  /** `userSocketMap[receiverId]` is truthy. */
  predicate Online(rt: Realtime, receiverId: UserId)
    reads rt
  {
    rt.SocketOf(receiverId).Some? && rt.SocketOf(receiverId).value != ""
  }

  /** `sendMessage`: after the guards, an image is uploaded and its URL
      stored; exactly one unseen message is appended; a `newMessage` event
      goes to the receiver's socket iff the receiver has a truthy entry. A
      refused or failed send stores nothing and emits nothing. */
  method SendMessage(store: MessageStore, rt: Realtime, senderId: UserId, receiverId: UserId,
                     text: Option<string>, image: Option<string>, upload: string -> UploadOutcome)
    returns (r: Result<Message>)
    requires store.Valid() && rt.Valid()
    modifies store, rt`emitted
    ensures store.Valid() && rt.Valid()
    ensures SendCheck(senderId, receiverId, text, image).Some? ==>
              && r == Err(SendCheck(senderId, receiverId, text, image).value)
              && store.messages == old(store.messages) && rt.emitted == old(rt.emitted)
    ensures SendCheck(senderId, receiverId, text, image).None? && Truthy(image)
            && upload(image.value).UploadFailed? ==>
              r == Err(Thrown) && store.messages == old(store.messages) && rt.emitted == old(rt.emitted)
    ensures SendCheck(senderId, receiverId, text, image).None?
            && !(Truthy(image) && upload(image.value).UploadFailed?) ==>
              var imageUrl := if Truthy(image) then Some(upload(image.value).secureUrl) else None;
              var m := Message(old(store.nextId), senderId, receiverId, text, imageUrl, false);
              && r == Ok(201, m)
              && store.messages == old(store.messages) + [m]
              && rt.emitted == old(rt.emitted)
                 + (if Online(rt, receiverId) then [NewMessage(rt.userSocketMap[receiverId], m)] else [])
  {
    var failure := SendCheck(senderId, receiverId, text, image);
    if failure.Some? {
      return Err(failure.value);
    }
    var imageUrl: Option<string> := None;
    if Truthy(image) {
      var uploadResponse := upload(image.value);
      if uploadResponse.UploadFailed? {
        return Err(Thrown);
      }
      imageUrl := Some(uploadResponse.secureUrl);
    }
    var newMessage := store.Create(senderId, receiverId, text, imageUrl);
    var receiverSocketId := rt.SocketOf(receiverId);
    if receiverSocketId.Some? && receiverSocketId.value != "" {
      rt.EmitNewMessage(receiverSocketId.value, newMessage);
    }
    r := Ok(201, newMessage);
  }

  /** A stored message always has a non-empty text or image: the content
      guard and the upload's URL see to it when the host returns one. */
  lemma SentMessageHasContent(senderId: UserId, receiverId: UserId, text: Option<string>,
                              image: Option<string>, upload: string -> UploadOutcome)
    requires SendCheck(senderId, receiverId, text, image).None?
    requires Truthy(image) ==> upload(image.value).Uploaded? && upload(image.value).secureUrl != ""
    ensures Truthy(text) || Truthy(if Truthy(image) then Some(upload(image.value).secureUrl) else None)
  {
  }
}
