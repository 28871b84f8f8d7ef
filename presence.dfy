/** The socket side of the chat server: `userSocketMap`, the process-wide
    table from user id to socket id, updated by the connection and
    disconnect handlers, and the events the server emits. Emitted events are
    appended to a log instead of being sent. */
module Presence {
  import opened Common
  import opened MessageModel

  /** What the server emits: the roster broadcast `getOnlineUsers`, sent to
      every open socket, and `newMessage`, sent to one socket. */
  datatype Event =
    | GetOnlineUsers(recipients: set<SocketId>, userIds: seq<UserId>)
    | NewMessage(recipient: SocketId, message: Message)

  /** A connection-lifecycle event as the handlers see it. `handshake` is
      the `userId` query value of the connection (None when absent); the
      disconnect handler closes over the same value. */
  datatype Lifecycle =
    | Connected(handshake: Option<UserId>, socketId: SocketId)
    | Disconnected(handshake: Option<UserId>)

  /** The property key `userSocketMap[userId]` uses: an absent id is the
      value `undefined`, whose key is the string "undefined". */
  function PropertyKey(handshake: Option<UserId>): UserId
  {
    if handshake.Some? then handshake.value else "undefined"
  }

  /** Whether `userSocketMap[userId] = socket.id` creates or overwrites an
      own property: the id must be truthy, and must not be "__proto__",
      whose assignment reaches the inherited `Object.prototype` accessor,
      which ignores a string and leaves the object's keys unchanged. */
  predicate Stores(handshake: Option<UserId>)
  {
    Truthy(handshake) && handshake.value != "__proto__"
  }

  /** What one handler does to the table. */
  function Step(m: map<UserId, SocketId>, e: Lifecycle): map<UserId, SocketId>
  {
    match e
    case Connected(h, sid) => if Stores(h) then m[h.value := sid] else m
    case Disconnected(h) => m - {PropertyKey(h)}
  }

  /** The table after a history of lifecycle events, starting empty. */
  function Replay(events: seq<Lifecycle>): map<UserId, SocketId>
  {
    if events == [] then map[]
    else Step(Replay(events[..|events| - 1]), events[|events| - 1])
  }

  /** Event `e` writes or deletes the entry of `u`. */
  predicate Touches(e: Lifecycle, u: UserId)
  {
    match e
    case Connected(h, _) => Stores(h) && h.value == u
    case Disconnected(h) => PropertyKey(h) == u
  }

  /** Event `i` is a connect of `u` and no later event touches `u`. */
  ghost predicate LastConnectAt(events: seq<Lifecycle>, u: UserId, i: int)
  {
    0 <= i < |events| && events[i].Connected? && Touches(events[i], u)
    && forall j :: i < j < |events| ==> !Touches(events[j], u)
  }

  /** A connect with a storable id sets that id's entry and nothing else; any
      other connect leaves the table alone; a disconnect deletes the key of
      its handshake id, present or not, and nothing else. */
  lemma StepFrame(m: map<UserId, SocketId>, e: Lifecycle, u: UserId)
    ensures !Touches(e, u) ==> (u in Step(m, e) <==> u in m)
    ensures !Touches(e, u) && u in m ==> Step(m, e)[u] == m[u]
    ensures Touches(e, u) && e.Connected? ==> u in Step(m, e) && Step(m, e)[u] == e.socketId
    ensures Touches(e, u) && e.Disconnected? ==> u !in Step(m, e)
    ensures e.Connected? && !Stores(e.handshake) ==> Step(m, e) == m
  {
  }

  /** For any history, `u` has an entry iff some connect of `u` is not
      followed by a connect or disconnect of `u`, and the entry is the socket
      of that last connect. */
  lemma {:induction false} ReplayLookup(events: seq<Lifecycle>, u: UserId)
    ensures u in Replay(events) <==> exists i :: LastConnectAt(events, u, i)
    ensures forall i :: LastConnectAt(events, u, i) ==> Replay(events)[u] == events[i].socketId
  {
    if events != [] {
      var n := |events| - 1;
      var init := events[..n];
      var e := events[n];
      ReplayLookup(init, u);
      StepFrame(Replay(init), e, u);
      if Touches(e, u) {
        if e.Connected? {
          assert LastConnectAt(events, u, n);
        }
        forall i | LastConnectAt(events, u, i) ensures i == n {
        }
      } else {
        forall i ensures LastConnectAt(events, u, i) <==> LastConnectAt(init, u, i) {
          if 0 <= i < n {
            assert events[i] == init[i];
            assert (forall j :: i < j < |events| ==> !Touches(events[j], u))
                   <==> (forall j :: i < j < |init| ==> !Touches(init[j], u)) by {
              forall j | i < j < |init| ensures events[j] == init[j] {}
            }
          }
        }
      }
    }
  }

  /** No history gives the table a "__proto__" entry: the connect handler's
      assignment never creates one, so `Object.keys` never lists it. */
  lemma {:induction false} ProtoNeverStored(events: seq<Lifecycle>)
    ensures "__proto__" !in Replay(events)
  {
    if events != [] {
      ProtoNeverStored(events[..|events| - 1]);
    }
  }

  /** A stale socket's disconnect removes the entry even after a newer
      socket of the same user has replaced it. */
  lemma StaleDisconnectRemoves(u: UserId, older: SocketId, newer: SocketId)
    requires u != ""
    ensures u !in Replay([Connected(Some(u), older), Connected(Some(u), newer), Disconnected(Some(u))])
  {
    var h := [Connected(Some(u), older), Connected(Some(u), newer), Disconnected(Some(u))];
    ReplayLookup(h, u);
  }

  /** `keys` without `k`, in the same order. */
  function Without(keys: seq<UserId>, k: UserId): (r: seq<UserId>)
    ensures k !in keys ==> r == keys
  {
    if keys == [] then []
    else
      assert keys == [keys[0]] + keys[1..];
      if keys[0] == k then Without(keys[1..], k) else [keys[0]] + Without(keys[1..], k)
  }

  /** Deleting a key removes it from the key order, keeps every other key,
      and keeps the order duplicate-free. */
  lemma {:induction false} WithoutKeeps(keys: seq<UserId>, k: UserId)
    ensures Elems(Without(keys, k)) == Elems(keys) - {k}
    ensures NoDup(keys) ==> NoDup(Without(keys, k))
  {
    if keys != [] {
      var rest := Without(keys[1..], k);
      WithoutKeeps(keys[1..], k);
      assert keys == [keys[0]] + keys[1..];
      assert NoDup(keys) ==> NoDup(keys[1..]) && keys[0] !in keys[1..];
      NoDupPrepend(keys[0], rest);
    }
  }

  /** Deleting a key that sits at position `i` of a duplicate-free key
      order leaves the keys before it and the keys after it, each in their
      order: what `Object.keys` lists after `delete`. */
  lemma {:induction false} WithoutSplice(keys: seq<UserId>, k: UserId, i: nat)
    requires NoDup(keys) && i < |keys| && keys[i] == k
    ensures Without(keys, k) == keys[..i] + keys[i + 1..]
  {
    var before, after := keys[..i], keys[i + 1..];
    assert keys == before + ([k] + after);
    assert k !in before by {
      forall j | 0 <= j < |before| ensures before[j] != k {
        assert before[j] == keys[j];
      }
    }
    assert k !in after by {
      forall j | 0 <= j < |after| ensures after[j] != k {
        assert after[j] == keys[i + 1 + j];
      }
    }
    WithoutConcat(before, [k] + after, k);
    assert ([k] + after)[1..] == after;
  }

  /** Deleting distributes over concatenation of key orders. */
  lemma {:induction false} WithoutConcat(a: seq<UserId>, b: seq<UserId>, k: UserId)
    ensures Without(a + b, k) == Without(a, k) + Without(b, k)
  {
    if a != [] {
      var ab := a + b;
      assert ab[0] == a[0] && ab[1..] == a[1..] + b;
      WithoutConcat(a[1..], b, k);
      var head := if a[0] == k then [] else [a[0]];
      assert Without(ab, k) == head + Without(a[1..] + b, k);
      assert Without(a, k) == head + Without(a[1..], k);
    } else {
      assert a + b == b;
    }
  }

  /** Replaying one more event applies its step to the table so far. */
  lemma ReplayAppend(events: seq<Lifecycle>, e: Lifecycle)
    ensures Replay(events + [e]) == Step(Replay(events), e)
  {
    assert (events + [e])[..|events|] == events;
  }

  /** A connect on a fresh socket keeps every entry pointing at an open
      socket that its own user opened. */
  lemma ConnectKeepsOwners(m: map<UserId, SocketId>, conns: map<SocketId, Option<UserId>>,
                           handshake: Option<UserId>, socketId: SocketId)
    requires socketId !in conns
    requires forall u :: u in m ==> m[u] in conns && conns[m[u]] == Some(u)
    ensures var after := Step(m, Connected(handshake, socketId));
            forall u :: u in after ==> after[u] in conns[socketId := handshake]
                                       && conns[socketId := handshake][after[u]] == Some(u)
  {
    var after := Step(m, Connected(handshake, socketId));
    forall u | u in after
      ensures after[u] in conns[socketId := handshake] && conns[socketId := handshake][after[u]] == Some(u)
    {
      if !(Stores(handshake) && u == handshake.value) {
        assert after[u] == m[u] && m[u] != socketId;
      }
    }
  }

  /** Writing a key keeps the key order in step with the table: a new key
      goes at the end, an existing one keeps its place. */
  lemma KeyOrderInsert(keys: seq<UserId>, m: map<UserId, SocketId>, u: UserId, socketId: SocketId)
    requires NoDup(keys) && Elems(keys) == m.Keys
    ensures var after := if u in m then keys else keys + [u];
            NoDup(after) && Elems(after) == m[u := socketId].Keys
  {
    if u !in m {
      assert u !in keys;
      forall i, j | 0 <= i < j < |keys| + 1 ensures (keys + [u])[i] != (keys + [u])[j] {
        if j == |keys| { assert keys[i] in keys; }
      }
    }
  }

  /** The socket server: `userSocketMap`, the order `Object.keys` reports its
      keys in, the open sockets with the handshake id each one's disconnect
      handler captured, and the log of emitted events. */
  class Realtime {
    var userSocketMap: map<UserId, SocketId>
    var keyOrder: seq<UserId>
    var connections: map<SocketId, Option<UserId>>
    var emitted: seq<Event>
    ghost var history: seq<Lifecycle>

    /** The key order lists each key of the table once; the table is what
        the history of handlers produced; and every entry names an open
        socket that was opened with that user's id. */
    ghost predicate Valid()
      reads this
    {
      NoDup(keyOrder) && Elems(keyOrder) == userSocketMap.Keys
      && userSocketMap == Replay(history)
      && forall u :: u in userSocketMap ==>
           userSocketMap[u] in connections && connections[userSocketMap[u]] == Some(u)
    }

    constructor ()
      ensures Valid()
      ensures userSocketMap == map[] && keyOrder == [] && connections == map[]
      ensures emitted == [] && history == []
    {
      userSocketMap := map[];
      keyOrder := [];
      connections := map[];
      emitted := [];
      history := [];
    }

    /** The `connection` handler: a truthy handshake id other than
        "__proto__" gets (or replaces) its entry, then the key list is
        broadcast to every open socket. */
    method OnConnection(handshake: Option<UserId>, socketId: SocketId)
      requires Valid()
      requires socketId !in connections
      modifies this
      ensures Valid()
      ensures history == old(history) + [Connected(handshake, socketId)]
      ensures userSocketMap == Step(old(userSocketMap), Connected(handshake, socketId))
      ensures keyOrder == if Stores(handshake) && handshake.value !in old(userSocketMap)
                          then old(keyOrder) + [handshake.value] else old(keyOrder)
      ensures connections == old(connections)[socketId := handshake]
      ensures emitted == old(emitted) + [GetOnlineUsers(connections.Keys, keyOrder)]
    {
      var e := Connected(handshake, socketId);
      var table := Step(userSocketMap, e);
      var keys := if Stores(handshake) && handshake.value !in userSocketMap
                  then keyOrder + [handshake.value] else keyOrder;
      ReplayAppend(history, e);
      ConnectKeepsOwners(userSocketMap, connections, handshake, socketId);
      if Stores(handshake) {
        KeyOrderInsert(keyOrder, userSocketMap, handshake.value, socketId);
      }
      connections := connections[socketId := handshake];
      keyOrder := keys;
      userSocketMap := table;
      history := history + [e];
      emitted := emitted + [GetOnlineUsers(connections.Keys, keyOrder)];
    }

    /** The `disconnect` handler of socket `socketId`: deletes the entry of
        the id its handshake carried, whichever socket the entry names, then
        broadcasts the key list to the sockets still open. */
    method OnDisconnect(socketId: SocketId)
      requires Valid()
      requires socketId in connections
      modifies this
      ensures Valid()
      ensures history == old(history) + [Disconnected(old(connections)[socketId])]
      ensures userSocketMap == old(userSocketMap) - {PropertyKey(old(connections)[socketId])}
      ensures keyOrder == Without(old(keyOrder), PropertyKey(old(connections)[socketId]))
      ensures connections == old(connections) - {socketId}
      ensures emitted == old(emitted) + [GetOnlineUsers(connections.Keys, keyOrder)]
    {
      var handshake := connections[socketId];
      connections := connections - {socketId};
      var key := PropertyKey(handshake);
      WithoutKeeps(keyOrder, key);
      keyOrder := Without(keyOrder, key);
      userSocketMap := userSocketMap - {key};
      history := history + [Disconnected(handshake)];
      assert history[..|history| - 1] == old(history);
      emitted := emitted + [GetOnlineUsers(connections.Keys, keyOrder)];
    }

    /** `userSocketMap[userId]`, as the send path reads it. */
    function SocketOf(userId: UserId): (r: Option<SocketId>)
      reads this
      ensures r.Some? <==> userId in userSocketMap
      ensures r.Some? ==> r.value == userSocketMap[userId]
    {
      if userId in userSocketMap then Some(userSocketMap[userId]) else None
    }

    /** `io.to(socketId).emit("newMessage", message)`. */
    method EmitNewMessage(socketId: SocketId, message: Message)
      requires Valid()
      modifies this`emitted
      ensures Valid()
      ensures emitted == old(emitted) + [NewMessage(socketId, message)]
    {
      emitted := emitted + [NewMessage(socketId, message)];
    }
  }

  /** Whatever handlers ran, a user is listed iff its last connect was not
      followed by a disconnect of the same id, and its entry is that
      connect's socket, which is still open. "__proto__" is never listed,
      so no broadcast carries it. */
  lemma LookupIsLastConnect(rt: Realtime, u: UserId)
    requires rt.Valid()
    ensures rt.SocketOf(u).Some? <==> exists i :: LastConnectAt(rt.history, u, i)
    ensures forall i :: LastConnectAt(rt.history, u, i) ==> rt.SocketOf(u) == Some(rt.history[i].socketId)
    ensures rt.SocketOf(u).Some? ==> rt.SocketOf(u).value in rt.connections
    ensures "__proto__" !in rt.keyOrder
  {
    ReplayLookup(rt.history, u);
    ProtoNeverStored(rt.history);
    assert "__proto__" !in Elems(rt.keyOrder);
  }
}
