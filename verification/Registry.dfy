/** One replica's registry of WebSocket connections, and delivery to the sockets in it. */
module Registry {
  import opened Domain

  datatype Socket = Socket(id: int)

  datatype User = User(id: int)

  /** An event as it travels on the channel: for one user, or for everyone. */
  datatype Message = Message(user: Option<User>, payload: string)

  /** User to the sockets registered for that user on this replica. */
  type Registered = map<User, seq<Socket>>

  /** What each socket has received so far. */
  type Inboxes = map<Socket, seq<string>>

  function SocketsOf(conns: Registered, user: User): seq<Socket> {
    if user in conns then conns[user] else []
  }

  function InboxOf(inbox: Inboxes, s: Socket): seq<string> {
    if s in inbox then inbox[s] else []
  }

  ghost predicate NoRepeats(s: seq<Socket>) {
    forall i, j :: 0 <= i < j < |s| ==> s[i] != s[j]
  }

  /** No user maps to an empty list, no list repeats a socket, and no socket is listed for two users. */
  ghost predicate WellKept(conns: Registered) {
    && (forall u :: u in conns ==> conns[u] != [] && NoRepeats(conns[u]))
    && (forall u, v, s :: u in conns && v in conns && s in conns[u] && s in conns[v] ==> u == v)
  }

  function Without(list: seq<Socket>, s: Socket): seq<Socket> {
    if list == [] then [] else if list[0] == s then list[1..] else [list[0]] + Without(list[1..], s)
  }

  /** The list put back under the user; an empty list takes the user out. */
  function WithList(conns: Registered, user: User, list: seq<Socket>): Registered {
    if list == [] then conns - {user} else conns[user := list]
  }

  function Removed(conns: Registered, user: User, s: Socket): Registered {
    WithList(conns, user, Without(SocketsOf(conns, user), s))
  }

  function Added(conns: Registered, user: User, s: Socket): Registered {
    conns[user := SocketsOf(conns, user) + [s]]
  }

  // ---------------------------------------------------------------- delivery, said at once

  function Survivors(list: seq<Socket>, fails: set<Socket>): seq<Socket> {
    if list == [] then []
    else if list[0] in fails then Survivors(list[1..], fails)
    else [list[0]] + Survivors(list[1..], fails)
  }

  predicate Addressed(m: Message, user: User) {
    m.user.Some? ==> m.user.value == user
  }

  /** The registry after a delivery: a user it was addressed to keeps the sockets that took the
      message, and leaves the registry if none did; everyone else keeps what was there. */
  function AfterDelivery(conns: Registered, m: Message, fails: set<Socket>): Registered {
    map u | u in conns && (Addressed(m, u) ==> Survivors(conns[u], fails) != []) ::
      if Addressed(m, u) then Survivors(conns[u], fails) else conns[u]
  }

  /** The same, list by list. */
  ghost predicate Pruned(conns: Registered, conns': Registered, m: Message, fails: set<Socket>) {
    forall u :: SocketsOf(conns', u) == (if Addressed(m, u) then Survivors(SocketsOf(conns, u), fails) else SocketsOf(conns, u))
  }

  ghost predicate Takes(conns: Registered, m: Message, fails: set<Socket>, s: Socket) {
    s !in fails && exists u :: u in conns && Addressed(m, u) && s in conns[u]
  }

  /** The sockets that take the message get it once, at the end; no other inbox changes. */
  ghost predicate ReceivedBy(conns: Registered, inbox: Inboxes, inbox': Inboxes, m: Message, fails: set<Socket>) {
    forall s :: InboxOf(inbox', s) == InboxOf(inbox, s) + if Takes(conns, m, fails, s) then [m.payload] else []
  }

  lemma PrunedIsAfterDelivery(conns: Registered, conns': Registered, m: Message, fails: set<Socket>)
    requires WellKept(conns) && WellKept(conns')
    ensures Pruned(conns, conns', m, fails) <==> conns' == AfterDelivery(conns, m, fails)
  {
    var after := AfterDelivery(conns, m, fails);
    if Pruned(conns, conns', m, fails) {
      forall u ensures u in conns' <==> u in after {
        assert SocketsOf(conns', u) == if Addressed(m, u) then Survivors(SocketsOf(conns, u), fails) else SocketsOf(conns, u);
        if u in conns' { assert conns'[u] != []; }
        if u in conns { assert conns[u] != []; }
      }
      assert conns'.Keys == after.Keys;
      forall u | u in conns' ensures conns'[u] == after[u] {
        assert SocketsOf(conns', u) == if Addressed(m, u) then Survivors(SocketsOf(conns, u), fails) else SocketsOf(conns, u);
      }
      assert conns' == after;
    }
  }

  lemma DeliveryKeepsWellKept(conns: Registered, m: Message, fails: set<Socket>)
    requires WellKept(conns)
    ensures WellKept(AfterDelivery(conns, m, fails))
    ensures forall u, s :: s in SocketsOf(AfterDelivery(conns, m, fails), u) <==>
              s in SocketsOf(conns, u) && (Addressed(m, u) ==> s !in fails)
  {
    forall u | u in conns
      ensures NoRepeats(Survivors(conns[u], fails))
      ensures forall x :: x in Survivors(conns[u], fails) <==> x in conns[u] && x !in fails
    {
      SurvivorsAreExact(conns[u], fails);
    }
  }

  // ---------------------------------------------------------------- lists

  lemma {:induction false} WithoutIsExact(list: seq<Socket>, s: Socket)
    requires NoRepeats(list)
    ensures NoRepeats(Without(list, s))
    ensures forall x :: x in Without(list, s) <==> x in list && x != s
  {
    if list != [] && list[0] != s {
      WithoutIsExact(list[1..], s);
      assert list == [list[0]] + list[1..];
      assert list[0] !in list[1..];
    } else if list != [] {
      assert list == [list[0]] + list[1..];
      assert s !in list[1..];
    }
  }

  lemma {:induction false} SurvivorsAreExact(list: seq<Socket>, fails: set<Socket>)
    requires NoRepeats(list)
    ensures NoRepeats(Survivors(list, fails))
    ensures forall x :: x in Survivors(list, fails) <==> x in list && x !in fails
  {
    if list == [] {
    } else {
      SurvivorsAreExact(list[1..], fails);
      assert list == [list[0]] + list[1..];
      assert list[0] !in list[1..];
    }
  }

  /** Removing the failed sockets one by one leaves the survivors. */
  lemma {:induction false} RemoveOneMore(list: seq<Socket>, fails: set<Socket>, s: Socket)
    requires NoRepeats(list)
    ensures Without(Survivors(list, fails), s) == Survivors(list, fails + {s})
  {
    if list == [] {
    } else {
      RemoveOneMore(list[1..], fails, s);
      assert list == [list[0]] + list[1..];
      var rest := Survivors(list[1..], fails);
      if list[0] !in fails {
        assert ([list[0]] + rest)[1..] == rest;
        if list[0] == s {
          SurvivorsAreExact(list[1..], fails);
          assert s !in list[1..];
          NothingToRemove(rest, s);
        }
      }
    }
  }

  lemma {:induction false} NothingToRemove(list: seq<Socket>, s: Socket)
    requires s !in list
    ensures Without(list, s) == list
  {
    if list == [] {
    } else {
      NothingToRemove(list[1..], s);
    }
  }

  lemma {:induction false} NoneFail(list: seq<Socket>, fails: set<Socket>)
    requires forall x :: x in list ==> x !in fails
    ensures Survivors(list, fails) == list
  {
    if list == [] {
    } else {
      assert list == [list[0]] + list[1..] && list[0] in list;
      NoneFail(list[1..], fails);
    }
  }

  lemma {:induction false} SameFailsSameSurvivors(list: seq<Socket>, fails: set<Socket>, fails': set<Socket>)
    requires forall x :: x in list ==> (x in fails <==> x in fails')
    ensures Survivors(list, fails) == Survivors(list, fails')
  {
    if list == [] {
    } else {
      assert list == [list[0]] + list[1..] && list[0] in list;
      SameFailsSameSurvivors(list[1..], fails, fails');
    }
  }

  // ---------------------------------------------------------------- the registry in place

  function AsSet(list: seq<Socket>): set<Socket> {
    set s | s in list
  }

  /** Each socket of the list that does not fail has received the payload once more. */
  ghost predicate SentAlong(inbox: Inboxes, inbox': Inboxes, list: seq<Socket>, payload: string, fails: set<Socket>) {
    forall s :: InboxOf(inbox', s) == InboxOf(inbox, s) + if s in list && s !in fails then [payload] else []
  }

  /** The sockets of the list that fail, in order. */
  function Failing(list: seq<Socket>, fails: set<Socket>): seq<Socket> {
    if list == [] then []
    else
      var last := |list| - 1;
      Failing(list[..last], fails) + if list[last] in fails then [list[last]] else []
  }

  lemma {:induction false} FailingIsExact(list: seq<Socket>, fails: set<Socket>)
    ensures forall s :: s in Failing(list, fails) <==> s in list && s in fails
  {
    if list == [] {
    } else {
      FailingIsExact(list[..|list| - 1], fails);
      assert list == list[..|list| - 1] + [list[|list| - 1]];
    }
  }

  lemma PrefixHasNoRepeats(list: seq<Socket>, i: nat)
    requires NoRepeats(list) && i < |list|
    ensures list[..i + 1] == list[..i] + [list[i]] && NoRepeats(list[..i] + [list[i]])
  {
  }

  lemma OneMoreSend(inbox: Inboxes, inbox': Inboxes, inbox'': Inboxes, list: seq<Socket>, x: Socket, payload: string, fails: set<Socket>)
    requires SentAlong(inbox, inbox', list, payload, fails) && NoRepeats(list + [x])
    requires inbox'' == if x in fails then inbox' else inbox'[x := InboxOf(inbox', x) + [payload]]
    ensures SentAlong(inbox, inbox'', list + [x], payload, fails)
    ensures Failing(list + [x], fails) == Failing(list, fails) + if x in fails then [x] else []
  {
    assert (list + [x])[..|list|] == list;
    forall i | 0 <= i < |list| ensures list[i] != x {
      assert (list + [x])[i] != (list + [x])[|list|];
    }
    forall s ensures InboxOf(inbox'', s) == InboxOf(inbox, s) + if s in list + [x] && s !in fails then [payload] else [] {
      assert s in list + [x] <==> s in list || s == x;
      assert InboxOf(inbox', s) == InboxOf(inbox, s) + if s in list && s !in fails then [payload] else [];
    }
  }

  class ConnectionManager {
    var connections: Registered
    var inbox: Inboxes

    constructor ()
      ensures connections == map[] && inbox == map[]
    {
      connections, inbox := map[], map[];
    }

    /** The endpoint connects each socket once. */
    method Connect(user: User, socket: Socket)
      requires WellKept(connections) && forall u :: u in connections ==> socket !in connections[u]
      modifies this`connections
      ensures connections == Added(old(connections), user, socket)
      ensures WellKept(connections)
    {
      var list := if user in connections then connections[user] else [];
      connections := connections[user := list + [socket]];
    }

    method Disconnect(user: User, socket: Socket)
      requires WellKept(connections)
      modifies this`connections
      ensures connections == Removed(old(connections), user, socket)
      ensures WellKept(connections)
      ensures socket !in SocketsOf(connections, user)
    {
      Remove(user, socket);
    }

    method Remove(user: User, socket: Socket)
      requires WellKept(connections)
      modifies this`connections
      ensures connections == Removed(old(connections), user, socket)
      ensures WellKept(connections)
      ensures socket !in SocketsOf(connections, user)
    {
      var conns := SocketsOf(connections, user);
      WithoutIsExact(conns, socket);
      conns := Without(conns, socket);
      if conns == [] {
        connections := connections - {user};
      } else {
        connections := connections[user := conns];
      }
    }

    /** The number of users with at least one registered socket. */
    method ConnectedUsers() returns (n: nat)
      requires WellKept(connections)
      ensures n == |connections| == |connections.Keys|
      ensures forall u :: u in connections.Keys <==> exists s :: s in SocketsOf(connections, u)
    {
      n := |connections|;
      forall u ensures u in connections.Keys <==> exists s :: s in SocketsOf(connections, u) {
        if u in connections {
          assert connections[u] != [] && connections[u][0] in SocketsOf(connections, u);
        } else {
          assert SocketsOf(connections, u) == [];
        }
      }
    }

    /** Sends the payload to a list of sockets; returns those whose send failed. */
    method SendEach(list: seq<Socket>, payload: string, fails: set<Socket>) returns (dead: seq<Socket>)
      requires NoRepeats(list)
      modifies this`inbox
      ensures SentAlong(old(inbox), inbox, list, payload, fails)
      ensures dead == Failing(list, fails)
    {
      dead := [];
      for i := 0 to |list|
        invariant SentAlong(old(inbox), inbox, list[..i], payload, fails)
        invariant dead == Failing(list[..i], fails)
      {
        ghost var before := inbox;
        if list[i] in fails {
          dead := dead + [list[i]];
        } else {
          inbox := inbox[list[i] := InboxOf(inbox, list[i]) + [payload]];
        }
        PrefixHasNoRepeats(list, i);
        OneMoreSend(old(inbox), before, inbox, list[..i], list[i], payload, fails);
      }
      assert list[..|list|] == list;
    }

    method RemoveEach(user: User, dead: seq<Socket>)
      requires WellKept(connections)
      modifies this`connections
      ensures WellKept(connections)
      ensures forall u :: SocketsOf(connections, u) ==
                if u == user then Survivors(SocketsOf(old(connections), u), AsSet(dead)) else SocketsOf(old(connections), u)
    {
      ghost var list := SocketsOf(connections, user);
      NoneFail(list, {});
      assert AsSet(dead[..0]) == {};
      for i := 0 to |dead|
        invariant WellKept(connections)
        invariant SocketsOf(connections, user) == Survivors(list, AsSet(dead[..i]))
        invariant forall u :: u != user ==> SocketsOf(connections, u) == SocketsOf(old(connections), u)
      {
        RemoveOneMore(list, AsSet(dead[..i]), dead[i]);
        assert AsSet(dead[..i + 1]) == AsSet(dead[..i]) + {dead[i]};
        Remove(user, dead[i]);
      }
      assert dead[..|dead|] == dead;
    }

    method SendToUser(user: User, payload: string, fails: set<Socket>)
      requires WellKept(connections)
      modifies this
      ensures WellKept(connections)
      ensures SweptFor(old(connections), {user}, connections, fails)
      ensures SentAlong(old(inbox), inbox, SocketsOf(old(connections), user), payload, fails)
    {
      var list := SocketsOf(connections, user);
      var dead := SendEach(list, payload, fails);
      RemoveEach(user, dead);
      FailingIsExact(list, fails);
      SameFailsSameSurvivors(list, AsSet(dead), fails);
    }

    /** Every registered socket of the user gets the payload once, and those that fail are dropped. */
    method LocalSend(user: User, payload: string, fails: set<Socket>)
      requires WellKept(connections)
      modifies this
      ensures WellKept(connections)
      ensures connections == AfterDelivery(old(connections), Message(Some(user), payload), fails)
      ensures ReceivedBy(old(connections), old(inbox), inbox, Message(Some(user), payload), fails)
    {
      SendToUser(user, payload, fails);
      SweptUserIsPruned(old(connections), user, connections, payload, fails);
      OneUser(old(connections), user, old(inbox), inbox, payload, fails);
    }

    /** The same for every registered socket of every user. */
    method LocalBroadcast(payload: string, fails: set<Socket>)
      requires WellKept(connections)
      modifies this
      ensures WellKept(connections)
      ensures connections == AfterDelivery(old(connections), Message(None, payload), fails)
      ensures ReceivedBy(old(connections), old(inbox), inbox, Message(None, payload), fails)
    {
      ghost var before, received := connections, inbox;
      var todo := connections.Keys;
      ghost var done: set<User> := {};
      while todo != {}
        invariant done + todo == before.Keys && done !! todo && WellKept(connections)
        invariant SweptFor(before, done, connections, fails)
        invariant SentTo(before, done, received, inbox, payload, fails)
        decreases todo
      {
        var user := PickOne(todo);
        ghost var swept, halfway := connections, inbox;
        SendToUser(user, payload, fails);
        OneMoreSwept(before, done, user, swept, connections, fails);
        OneMoreUser(before, done, user, received, halfway, inbox, payload, fails);
        todo := todo - {user};
        done := done + {user};
      }
      EveryUser(before, done, connections, received, inbox, payload, fails);
    }

    /** What the listener does with one message from the channel. */
    method Deliver(m: Message, fails: set<Socket>)
      requires WellKept(connections)
      modifies this
      ensures WellKept(connections)
      ensures connections == AfterDelivery(old(connections), m, fails)
      ensures ReceivedBy(old(connections), old(inbox), inbox, m, fails)
    {
      match m.user
      case Some(user) =>
        LocalSend(user, m.payload, fails);
        assert m == Message(Some(user), m.payload);
      case None =>
        LocalBroadcast(m.payload, fails);
        assert m == Message(None, m.payload);
    }
  }

  /** The socket is registered for one of these users. */
  ghost predicate Reached(conns: Registered, users: set<User>, s: Socket) {
    exists u :: u in users && u in conns && s in conns[u]
  }

  /** The users done so far keep only the sockets that did not fail. */
  ghost predicate SweptFor(conns: Registered, users: set<User>, conns': Registered, fails: set<Socket>) {
    forall u :: SocketsOf(conns', u) == if u in users then Survivors(SocketsOf(conns, u), fails) else SocketsOf(conns, u)
  }

  lemma OneMoreSwept(conns: Registered, users: set<User>, user: User, conns': Registered, conns'': Registered, fails: set<Socket>)
    requires SweptFor(conns, users, conns', fails) && SweptFor(conns', {user}, conns'', fails) && user !in users
    ensures SweptFor(conns, users + {user}, conns'', fails)
  {
    forall u ensures SocketsOf(conns'', u) == if u in users + {user} then Survivors(SocketsOf(conns, u), fails) else SocketsOf(conns, u) {
      assert SocketsOf(conns', u) == if u in users then Survivors(SocketsOf(conns, u), fails) else SocketsOf(conns, u);
      assert SocketsOf(conns'', u) == if u in {user} then Survivors(SocketsOf(conns', u), fails) else SocketsOf(conns', u);
    }
  }

  lemma SweptUserIsPruned(conns: Registered, user: User, conns': Registered, payload: string, fails: set<Socket>)
    requires WellKept(conns) && WellKept(conns') && SweptFor(conns, {user}, conns', fails)
    ensures conns' == AfterDelivery(conns, Message(Some(user), payload), fails)
  {
    PrunedIsAfterDelivery(conns, conns', Message(Some(user), payload), fails);
  }

  ghost predicate SentTo(conns: Registered, users: set<User>, inbox: Inboxes, inbox': Inboxes, payload: string, fails: set<Socket>) {
    forall s :: InboxOf(inbox', s) == InboxOf(inbox, s) + if s !in fails && Reached(conns, users, s) then [payload] else []
  }

  lemma OneUser(conns: Registered, user: User, inbox: Inboxes, inbox': Inboxes, payload: string, fails: set<Socket>)
    requires SentAlong(inbox, inbox', SocketsOf(conns, user), payload, fails)
    ensures ReceivedBy(conns, inbox, inbox', Message(Some(user), payload), fails)
  {
    forall s ensures Takes(conns, Message(Some(user), payload), fails, s) <==> s in SocketsOf(conns, user) && s !in fails {
    }
  }

  lemma ReachedOneMore(conns: Registered, users: set<User>, user: User, s: Socket)
    requires WellKept(conns) && user in conns && user !in users
    ensures Reached(conns, users + {user}, s) <==> Reached(conns, users, s) || s in conns[user]
    ensures Reached(conns, users, s) ==> s !in conns[user]
  {
    if s in conns[user] {
      assert user in users + {user};
    }
    if Reached(conns, users, s) {
      var u :| u in users && u in conns && s in conns[u];
      assert u in users + {user};
    }
  }

  lemma OneMoreUserFor(conns: Registered, users: set<User>, user: User, inbox: Inboxes, inbox': Inboxes, inbox'': Inboxes,
                       payload: string, fails: set<Socket>, s: Socket)
    requires WellKept(conns) && user in conns && user !in users
    requires InboxOf(inbox', s) == InboxOf(inbox, s) + if s !in fails && Reached(conns, users, s) then [payload] else []
    requires InboxOf(inbox'', s) == InboxOf(inbox', s) + if s in conns[user] && s !in fails then [payload] else []
    ensures InboxOf(inbox'', s) == InboxOf(inbox, s) + if s !in fails && Reached(conns, users + {user}, s) then [payload] else []
  {
    ReachedOneMore(conns, users, user, s);
  }

  lemma OneMoreUser(conns: Registered, users: set<User>, user: User, inbox: Inboxes, inbox': Inboxes, inbox'': Inboxes,
                    payload: string, fails: set<Socket>)
    requires WellKept(conns) && user in conns && user !in users
    requires SentTo(conns, users, inbox, inbox', payload, fails)
    requires SentAlong(inbox', inbox'', SocketsOf(conns, user), payload, fails)
    ensures SentTo(conns, users + {user}, inbox, inbox'', payload, fails)
  {
    forall s
      ensures InboxOf(inbox'', s) == InboxOf(inbox, s) + if s !in fails && Reached(conns, users + {user}, s) then [payload] else []
    {
      OneMoreUserFor(conns, users, user, inbox, inbox', inbox'', payload, fails, s);
    }
  }

  lemma EveryUser(conns: Registered, users: set<User>, conns': Registered, inbox: Inboxes, inbox': Inboxes, payload: string, fails: set<Socket>)
    requires users == conns.Keys && SentTo(conns, users, inbox, inbox', payload, fails)
    requires WellKept(conns) && WellKept(conns') && SweptFor(conns, users, conns', fails)
    ensures conns' == AfterDelivery(conns, Message(None, payload), fails)
    ensures ReceivedBy(conns, inbox, inbox', Message(None, payload), fails)
  {
    PrunedIsAfterDelivery(conns, conns', Message(None, payload), fails);
    forall s ensures Takes(conns, Message(None, payload), fails, s) <==> s !in fails && Reached(conns, users, s) {
    }
  }
}
