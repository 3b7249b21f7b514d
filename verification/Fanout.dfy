/** Cross-replica delivery: one shared channel, one listener per replica, sockets that come, go and die.
    The channel is a log, and each replica's listener a cursor into it. */
module Fanout {
  import opened Registry

  datatype Replica = Replica(conns: Registered, cursor: nat)

  /** Where, for whom, and at which position of its replica's listener a socket was registered. */
  datatype Joined = Joined(replica: nat, user: User, from: nat)

  /** `joined` only records history; no event reads it except to know that a socket is new. */
  datatype Sys = Sys(log: seq<Message>, replicas: seq<Replica>, inbox: Inboxes, joined: map<Socket, Joined>)

  datatype Event =
    | StartReplica
    | Connect(replica: nat, user: User, socket: Socket)
    | Disconnect(replica: nat, user: User, socket: Socket)
    | Publish(message: Message)
    | Listen(replica: nat, fails: set<Socket>)

  function WithConns(s: Sys, r: nat, conns: Registered): seq<Replica>
    requires r < |s.replicas|
  {
    s.replicas[r := s.replicas[r].(conns := conns)]
  }

  /** One event. A replica starts listening at the end of the log; a listener takes the next
      message and delivers it to the sockets registered on its replica. */
  ghost predicate Next(s: Sys, e: Event, s': Sys) {
    match e
    case StartReplica =>
      s' == s.(replicas := s.replicas + [Replica(map[], |s.log|)])
    case Connect(r, user, socket) =>
      && r < |s.replicas| && socket !in s.joined
      && s' == s.(replicas := WithConns(s, r, Added(s.replicas[r].conns, user, socket)),
                  joined := s.joined[socket := Joined(r, user, s.replicas[r].cursor)])
    case Disconnect(r, user, socket) =>
      && r < |s.replicas|
      && s' == s.(replicas := WithConns(s, r, Removed(s.replicas[r].conns, user, socket)))
    case Publish(m) =>
      s' == s.(log := s.log + [m])
    case Listen(r, fails) =>
      && r < |s.replicas| && s.replicas[r].cursor < |s.log|
      && var m := s.log[s.replicas[r].cursor];
      && s' == s.(replicas := s.replicas[r := Replica(AfterDelivery(s.replicas[r].conns, m, fails), s.replicas[r].cursor + 1)],
                  inbox := s'.inbox)
      && ReceivedBy(s.replicas[r].conns, s.inbox, s'.inbox, m, fails)
  }

  ghost predicate Behavior(states: seq<Sys>, events: seq<Event>) {
    && |states| == |events| + 1
    && states[0] == Sys([], [], map[], map[])
    && forall i :: 0 <= i < |events| ==> Next(states[i], events[i], states[i + 1])
  }

  // ---------------------------------------------------------------- what a socket should have

  /** The payloads of the log entries `from, …, till - 1` that are for the user or for everyone, in order. */
  function EventsFor(log: seq<Message>, user: User, from: nat, till: nat): seq<string>
    requires from <= till <= |log|
    decreases till
  {
    if from == till then []
    else EventsFor(log, user, from, till - 1) + if Addressed(log[till - 1], user) then [log[till - 1].payload] else []
  }

  lemma {:induction false} LogOnlyGrows(log: seq<Message>, m: Message, user: User, from: nat, till: nat)
    requires from <= till <= |log|
    ensures EventsFor(log + [m], user, from, till) == EventsFor(log, user, from, till)
    decreases till
  {
    if from == till {
    } else {
      LogOnlyGrows(log, m, user, from, till - 1);
    }
  }

  /** A registered socket has received exactly the events for its user, from its registration up to
      its replica's cursor. */
  ghost predicate UpToDate(s: Sys, r: nat, user: User, k: Socket)
    requires r < |s.replicas|
  {
    && k in s.joined && s.joined[k].replica == r && s.joined[k].user == user
    && s.joined[k].from <= s.replicas[r].cursor <= |s.log|
    && InboxOf(s.inbox, k) == EventsFor(s.log, user, s.joined[k].from, s.replicas[r].cursor)
  }

  ghost predicate RegisteredUpToDate(s: Sys) {
    forall r: nat, user, k :: r < |s.replicas| && k in SocketsOf(s.replicas[r].conns, user) ==> UpToDate(s, r, user, k)
  }

  /** A socket that was ever registered, dead or alive, has received an unbroken stretch of the
      events for its user, from its registration on. */
  ghost predicate Unbroken(s: Sys, k: Socket)
    requires k in s.joined
  {
    exists till :: s.joined[k].from <= till <= |s.log| && InboxOf(s.inbox, k) == EventsFor(s.log, s.joined[k].user, s.joined[k].from, till)
  }

  ghost predicate Inv(s: Sys) {
    && (forall r :: 0 <= r < |s.replicas| ==> s.replicas[r].cursor <= |s.log| && WellKept(s.replicas[r].conns))
    && RegisteredUpToDate(s)
    && (forall k :: k in s.joined ==> Unbroken(s, k))
    && (forall k :: k !in s.joined ==> InboxOf(s.inbox, k) == [])
  }

  // ---------------------------------------------------------------- every event keeps it

  lemma NewSocketIsNowhere(s: Sys, k: Socket)
    requires RegisteredUpToDate(s) && k !in s.joined
    ensures forall q: nat, u :: q < |s.replicas| ==> k !in SocketsOf(s.replicas[q].conns, u)
  {
    forall q: nat, u | q < |s.replicas| ensures k !in SocketsOf(s.replicas[q].conns, u) {
      assert k in SocketsOf(s.replicas[q].conns, u) ==> UpToDate(s, q, u, k);
    }
  }

  lemma ConnectKeepsUpToDate(s: Sys, r: nat, user: User, socket: Socket, s': Sys, q: nat, u: User, k: Socket)
    requires Inv(s) && Next(s, Connect(r, user, socket), s')
    requires q < |s'.replicas| && k in SocketsOf(s'.replicas[q].conns, u)
    ensures UpToDate(s', q, u, k)
  {
    NewSocketIsNowhere(s, socket);
    AddKeepsWellKept(s.replicas[r].conns, user, socket);
    if k != socket {
      assert k in SocketsOf(s.replicas[q].conns, u);
      assert UpToDate(s, q, u, k);
    }
  }

  lemma ConnectKeepsUnbroken(s: Sys, r: nat, user: User, socket: Socket, s': Sys, k: Socket)
    requires Inv(s) && Next(s, Connect(r, user, socket), s') && k in s'.joined
    ensures Unbroken(s', k)
  {
    if k == socket {
      assert InboxOf(s'.inbox, k) == EventsFor(s'.log, user, s'.joined[k].from, s'.joined[k].from);
    } else {
      assert Unbroken(s, k);
    }
  }

  lemma ConnectKeeps(s: Sys, r: nat, user: User, socket: Socket, s': Sys)
    requires Inv(s) && Next(s, Connect(r, user, socket), s')
    ensures Inv(s')
  {
    NewSocketIsNowhere(s, socket);
    AddKeepsWellKept(s.replicas[r].conns, user, socket);
    forall q: nat, u, k | q < |s'.replicas| && k in SocketsOf(s'.replicas[q].conns, u) ensures UpToDate(s', q, u, k) {
      ConnectKeepsUpToDate(s, r, user, socket, s', q, u, k);
    }
    forall k | k in s'.joined ensures Unbroken(s', k) { ConnectKeepsUnbroken(s, r, user, socket, s', k); }
  }

  lemma AddKeepsWellKept(conns: Registered, user: User, socket: Socket)
    requires WellKept(conns) && forall u :: socket !in SocketsOf(conns, u)
    ensures WellKept(Added(conns, user, socket))
    ensures forall u, k :: k in SocketsOf(Added(conns, user, socket), u) <==>
              k in SocketsOf(conns, u) || (u == user && k == socket)
  {
    var list := SocketsOf(conns, user);
    assert forall k :: k in list + [socket] <==> k in list || k == socket;
    assert forall u :: u in conns ==> SocketsOf(conns, u) == conns[u];
  }

  lemma DisconnectKeeps(s: Sys, r: nat, user: User, socket: Socket, s': Sys)
    requires Inv(s) && Next(s, Disconnect(r, user, socket), s')
    ensures Inv(s')
  {
    var conns := s.replicas[r].conns;
    WithoutIsExact(SocketsOf(conns, user), socket);
    forall q: nat, u, k | q < |s'.replicas| && k in SocketsOf(s'.replicas[q].conns, u) ensures UpToDate(s', q, u, k) {
      assert k in SocketsOf(s.replicas[q].conns, u);
      assert UpToDate(s, q, u, k);
    }
    forall k | k in s'.joined ensures Unbroken(s', k) { assert Unbroken(s, k); }
  }

  lemma PublishKeeps(s: Sys, m: Message, s': Sys)
    requires Inv(s) && Next(s, Publish(m), s')
    ensures Inv(s')
  {
    forall q: nat, u, k | q < |s'.replicas| && k in SocketsOf(s'.replicas[q].conns, u) ensures UpToDate(s', q, u, k) {
      assert UpToDate(s, q, u, k);
      LogOnlyGrows(s.log, m, u, s.joined[k].from, s.replicas[q].cursor);
    }
    forall k | k in s'.joined ensures Unbroken(s', k) {
      assert Unbroken(s, k);
      var till :| s.joined[k].from <= till <= |s.log| && InboxOf(s.inbox, k) == EventsFor(s.log, s.joined[k].user, s.joined[k].from, till);
      LogOnlyGrows(s.log, m, s.joined[k].user, s.joined[k].from, till);
    }
  }

  /** A socket takes the message if and only if it is registered here, addressed, and does not fail. */
  lemma TakesHere(s: Sys, r: nat, m: Message, fails: set<Socket>, k: Socket)
    requires Inv(s) && r < |s.replicas|
    ensures Takes(s.replicas[r].conns, m, fails, k) <==>
            k !in fails && k in s.joined && Addressed(m, s.joined[k].user)
            && k in SocketsOf(s.replicas[r].conns, s.joined[k].user)
  {
    var conns := s.replicas[r].conns;
    if Takes(conns, m, fails, k) {
      var u :| u in conns && Addressed(m, u) && k in conns[u];
      assert k in SocketsOf(conns, u) && UpToDate(s, r, u, k);
    }
  }

  lemma ListenKeepsUpToDate(s: Sys, r: nat, fails: set<Socket>, s': Sys, q: nat, u: User, k: Socket)
    requires Inv(s) && Next(s, Listen(r, fails), s')
    requires q < |s'.replicas| && k in SocketsOf(s'.replicas[q].conns, u)
    ensures UpToDate(s', q, u, k)
  {
    var m := s.log[s.replicas[r].cursor];
    DeliveryKeepsWellKept(s.replicas[r].conns, m, fails);
    assert k in SocketsOf(s.replicas[q].conns, u);
    assert UpToDate(s, q, u, k);
    WhatItTakes(s, r, m, fails, s', q, u, k);
    CaughtUp(s, r, m, s', q, u, k);
  }

  lemma CaughtUp(s: Sys, r: nat, m: Message, s': Sys, q: nat, u: User, k: Socket)
    requires r < |s.replicas| == |s'.replicas| && q < |s.replicas| && UpToDate(s, q, u, k)
    requires s.replicas[r].cursor < |s.log| && m == s.log[s.replicas[r].cursor]
    requires s'.log == s.log && s'.joined == s.joined
    requires s'.replicas[q].cursor == s.replicas[q].cursor + if q == r then 1 else 0
    requires InboxOf(s'.inbox, k) == InboxOf(s.inbox, k) + if q == r && Addressed(m, u) then [m.payload] else []
    ensures UpToDate(s', q, u, k)
  {
  }

  /** A socket that stays registered takes the message if it is on this replica and addressed. */
  lemma WhatItTakes(s: Sys, r: nat, m: Message, fails: set<Socket>, s': Sys, q: nat, u: User, k: Socket)
    requires Inv(s) && r < |s.replicas| && q < |s.replicas| && k in SocketsOf(s.replicas[q].conns, u)
    requires ReceivedBy(s.replicas[r].conns, s.inbox, s'.inbox, m, fails)
    requires q == r && Addressed(m, u) ==> k !in fails
    ensures InboxOf(s'.inbox, k) == InboxOf(s.inbox, k) + if q == r && Addressed(m, u) then [m.payload] else []
  {
    assert UpToDate(s, q, u, k);
    TakesHere(s, r, m, fails, k);
    if q != r { NotTwice(s, r, q, u, k); }
  }

  lemma NotTwice(s: Sys, r: nat, q: nat, u: User, k: Socket)
    requires Inv(s) && r < |s.replicas| && q < |s.replicas| && q != r && k in SocketsOf(s.replicas[q].conns, u)
    ensures k !in SocketsOf(s.replicas[r].conns, u)
  {
    assert UpToDate(s, q, u, k);
    assert k in SocketsOf(s.replicas[r].conns, u) ==> UpToDate(s, r, u, k);
  }

  /** A socket that was up to date and takes the next message has an unbroken stretch still. */
  lemma OneMoreEvent(s: Sys, r: nat, m: Message, s': Sys, k: Socket)
    requires k in s.joined && r < |s.replicas| && UpToDate(s, r, s.joined[k].user, k)
    requires s.replicas[r].cursor < |s.log| && m == s.log[s.replicas[r].cursor] && Addressed(m, s.joined[k].user)
    requires s'.log == s.log && s'.joined == s.joined && InboxOf(s'.inbox, k) == InboxOf(s.inbox, k) + [m.payload]
    ensures Unbroken(s', k)
  {
    var u, from, cursor := s.joined[k].user, s.joined[k].from, s.replicas[r].cursor;
    assert EventsFor(s.log, u, from, cursor + 1) == EventsFor(s.log, u, from, cursor) + [m.payload];
    assert InboxOf(s'.inbox, k) == EventsFor(s'.log, u, from, cursor + 1);
  }

  lemma ListenKeepsUnbroken(s: Sys, r: nat, fails: set<Socket>, s': Sys, k: Socket)
    requires Inv(s) && Next(s, Listen(r, fails), s') && k in s'.joined
    ensures Unbroken(s', k)
  {
    var m := s.log[s.replicas[r].cursor];
    TakesHere(s, r, m, fails, k);
    if Takes(s.replicas[r].conns, m, fails, k) {
      assert UpToDate(s, r, s.joined[k].user, k);
      OneMoreEvent(s, r, m, s', k);
    } else {
      assert Unbroken(s, k);
    }
  }

  lemma ListenKeeps(s: Sys, r: nat, fails: set<Socket>, s': Sys)
    requires Inv(s) && Next(s, Listen(r, fails), s')
    ensures Inv(s')
  {
    var m := s.log[s.replicas[r].cursor];
    DeliveryKeepsWellKept(s.replicas[r].conns, m, fails);
    forall q: nat, u, k | q < |s'.replicas| && k in SocketsOf(s'.replicas[q].conns, u) ensures UpToDate(s', q, u, k) {
      ListenKeepsUpToDate(s, r, fails, s', q, u, k);
    }
    forall k | k in s'.joined ensures Unbroken(s', k) { ListenKeepsUnbroken(s, r, fails, s', k); }
    forall k | k !in s'.joined ensures InboxOf(s'.inbox, k) == [] { TakesHere(s, r, m, fails, k); }
  }

  lemma StartKeeps(s: Sys, s': Sys)
    requires Inv(s) && Next(s, StartReplica, s')
    ensures Inv(s')
  {
    forall q: nat, u, k | q < |s'.replicas| && k in SocketsOf(s'.replicas[q].conns, u) ensures UpToDate(s', q, u, k) {
      assert UpToDate(s, q, u, k);
    }
    forall k | k in s'.joined ensures Unbroken(s', k) { assert Unbroken(s, k); }
  }

  lemma NextKeeps(s: Sys, e: Event, s': Sys)
    requires Inv(s) && Next(s, e, s')
    ensures Inv(s')
  {
    match e
    case StartReplica => StartKeeps(s, s');
    case Connect(r, user, socket) => ConnectKeeps(s, r, user, socket, s');
    case Disconnect(r, user, socket) => DisconnectKeeps(s, r, user, socket, s');
    case Publish(m) => PublishKeeps(s, m, s');
    case Listen(r, fails) => ListenKeeps(s, r, fails, s');
  }

  lemma {:induction false} BehaviorKeeps(states: seq<Sys>, events: seq<Event>, i: nat)
    requires Behavior(states, events) && i < |states|
    ensures Inv(states[i])
  {
    if i == 0 {
    } else {
      BehaviorKeeps(states, events, i - 1);
      NextKeeps(states[i - 1], events[i - 1], states[i]);
    }
  }

  // ---------------------------------------------------------------- main results

  /** For any number of replicas and any interleaving: every registered socket has received, in
      order and once each, exactly the channel events for its user or for everyone, from where its
      replica's listener stood at registration up to where it stands now. */
  lemma ExactlyOnceInOrder(states: seq<Sys>, events: seq<Event>, i: nat, r: nat, user: User, k: Socket)
    requires Behavior(states, events) && i < |states|
    requires r < |states[i].replicas| && k in SocketsOf(states[i].replicas[r].conns, user)
    ensures k in states[i].joined && states[i].joined[k].replica == r && states[i].joined[k].user == user
    ensures states[i].joined[k].from <= states[i].replicas[r].cursor <= |states[i].log|
    ensures InboxOf(states[i].inbox, k) == EventsFor(states[i].log, user, states[i].joined[k].from, states[i].replicas[r].cursor)
  {
    BehaviorKeeps(states, events, i);
    assert UpToDate(states[i], r, user, k);
  }

  /** Every socket that was ever registered, dead or alive, has received an unbroken stretch of the
      events for its user, in order and once each, from its registration on. */
  lemma NothingBreaks(states: seq<Sys>, events: seq<Event>, i: nat, k: Socket)
    requires Behavior(states, events) && i < |states| && k in states[i].joined
    ensures Unbroken(states[i], k)
  {
    BehaviorKeeps(states, events, i);
  }

  /** A socket is registered in at most one place of the whole system. */
  lemma OnePlaceEach(states: seq<Sys>, events: seq<Event>, i: nat, r: nat, r': nat, u: User, u': User, k: Socket)
    requires Behavior(states, events) && i < |states|
    requires r < |states[i].replicas| && k in SocketsOf(states[i].replicas[r].conns, u)
    requires r' < |states[i].replicas| && k in SocketsOf(states[i].replicas[r'].conns, u')
    ensures r == r' && u == u'
  {
    ExactlyOnceInOrder(states, events, i, r, u, k);
    ExactlyOnceInOrder(states, events, i, r', u', k);
  }

  /** When every listener has caught up, two sockets of one user that joined at the same position
      have received the same, on whichever replicas they are. */
  lemma ReplicasAgree(states: seq<Sys>, events: seq<Event>, i: nat, r: nat, r': nat, user: User, k: Socket, k': Socket)
    requires Behavior(states, events) && i < |states|
    requires forall q :: 0 <= q < |states[i].replicas| ==> states[i].replicas[q].cursor == |states[i].log|
    requires r < |states[i].replicas| && k in SocketsOf(states[i].replicas[r].conns, user)
    requires r' < |states[i].replicas| && k' in SocketsOf(states[i].replicas[r'].conns, user)
    requires k in states[i].joined && k' in states[i].joined
    requires states[i].joined[k].from == states[i].joined[k'].from
    ensures InboxOf(states[i].inbox, k) == InboxOf(states[i].inbox, k')
  {
    ExactlyOnceInOrder(states, events, i, r, user, k);
    ExactlyOnceInOrder(states, events, i, r', user, k');
  }

  // ---------------------------------------------------------------- joining, staying and leaving

  /** Everything on replica `r` counts from position `from` of the log on. */
  ghost predicate SinceStart(s: Sys, r: nat, from: nat) {
    && r < |s.replicas| && from <= s.replicas[r].cursor
    && forall k :: k in s.joined && s.joined[k].replica == r ==> from <= s.joined[k].from
  }

  ghost predicate JoinedExist(s: Sys) {
    forall k :: k in s.joined ==> s.joined[k].replica < |s.replicas|
  }

  lemma {:induction false} JoinedSomewhere(states: seq<Sys>, events: seq<Event>, i: nat)
    requires Behavior(states, events) && i < |states|
    ensures JoinedExist(states[i])
  {
    if i == 0 {
    } else {
      JoinedSomewhere(states, events, i - 1);
      assert Next(states[i - 1], events[i - 1], states[i]);
    }
  }

  lemma NextKeepsSinceStart(s: Sys, e: Event, s': Sys, r: nat, from: nat)
    requires SinceStart(s, r, from) && Next(s, e, s')
    ensures SinceStart(s', r, from)
  {
  }

  lemma {:induction false} SinceItStarted(states: seq<Sys>, events: seq<Event>, i: nat, j: nat)
    requires Behavior(states, events) && i < j < |states| && events[i].StartReplica?
    ensures SinceStart(states[j], |states[i].replicas|, |states[i].log|)
  {
    if j == i + 1 {
      JoinedSomewhere(states, events, i);
      assert Next(states[i], events[i], states[j]);
    } else {
      SinceItStarted(states, events, i, j - 1);
      assert Next(states[j - 1], events[j - 1], states[j]);
      NextKeepsSinceStart(states[j - 1], events[j - 1], states[j], |states[i].replicas|, |states[i].log|);
    }
  }

  /** A replica begins with what is published after it subscribed: whatever a socket that ever joined it
      has received is a stretch of the log from there on. */
  lemma NothingFromBefore(states: seq<Sys>, events: seq<Event>, i: nat, j: nat, k: Socket) returns (till: nat)
    requires Behavior(states, events) && i < j < |states| && events[i].StartReplica?
    requires k in states[j].joined && states[j].joined[k].replica == |states[i].replicas|
    ensures |states[i].log| <= states[j].joined[k].from <= till <= |states[j].log|
    ensures InboxOf(states[j].inbox, k) == EventsFor(states[j].log, states[j].joined[k].user, states[j].joined[k].from, till)
  {
    SinceItStarted(states, events, i, j);
    NothingBreaks(states, events, j, k);
    till :| states[j].joined[k].from <= till <= |states[j].log|
            && InboxOf(states[j].inbox, k) == EventsFor(states[j].log, states[j].joined[k].user, states[j].joined[k].from, till);
  }

  /** How many messages replica `r` has taken in the events `i, …, n - 1`. */
  function Taken(events: seq<Event>, r: nat, i: nat, n: nat): nat
    requires i <= n <= |events|
    decreases n - i
  {
    if i == n then 0
    else Taken(events, r, i, n - 1) + if events[n - 1].Listen? && events[n - 1].replica == r then 1 else 0
  }

  /** A listener starts at the end of the log and moves on by one message at a time. */
  lemma {:induction false} CursorCountsListens(states: seq<Sys>, events: seq<Event>, i: nat, j: nat)
    requires Behavior(states, events) && i < j < |states| && events[i].StartReplica?
    ensures |states[i].replicas| < |states[j].replicas|
    ensures states[j].replicas[|states[i].replicas|].cursor == |states[i].log| + Taken(events, |states[i].replicas|, i, j)
  {
    assert Next(states[j - 1], events[j - 1], states[j]);
    if j == i + 1 {
      assert Taken(events, |states[i].replicas|, i, i) == 0;
    } else {
      CursorCountsListens(states, events, i, j - 1);
    }
  }

  /** The log is what was published, in that order. */
  lemma {:induction false} LogIsPublished(states: seq<Sys>, events: seq<Event>, n: nat)
    requires Behavior(states, events) && n <= |events|
    ensures states[n].log == Published(events, n)
  {
    if n == 0 {
    } else {
      LogIsPublished(states, events, n - 1);
      assert Next(states[n - 1], events[n - 1], states[n]);
    }
  }

  /** Connecting registers the socket, and where and from which position it joined is never rewritten. */
  lemma {:induction false} ConnectedOnce(states: seq<Sys>, events: seq<Event>, i: nat, j: nat, r: nat, user: User, k: Socket)
    requires Behavior(states, events) && i < j < |states| && events[i] == Connect(r, user, k)
    ensures r < |states[i].replicas| && k !in states[i].joined
    ensures k in states[j].joined && states[j].joined[k] == Joined(r, user, states[i].replicas[r].cursor)
    ensures k in SocketsOf(states[i + 1].replicas[r].conns, user)
  {
    assert Next(states[i], events[i], states[i + 1]);
    if j == i + 1 {
    } else {
      ConnectedOnce(states, events, i, j - 1, r, user, k);
      assert Next(states[j - 1], events[j - 1], states[j]);
    }
  }

  /** The event takes the socket off its replica: its own disconnect, or a message for its user that
      it fails to take. */
  ghost predicate TakesOff(s: Sys, e: Event, r: nat, user: User, k: Socket)
    requires r < |s.replicas|
  {
    || e == Disconnect(r, user, k)
    || (e.Listen? && e.replica == r && k in e.fails && s.replicas[r].cursor < |s.log| && Addressed(s.log[s.replicas[r].cursor], user))
  }

  lemma StaysUnlessRemoved(s: Sys, q: nat, u: User, socket: Socket, s': Sys, r: nat, user: User, k: Socket)
    requires Inv(s) && Next(s, Disconnect(q, u, socket), s') && r < |s.replicas| && k in SocketsOf(s.replicas[r].conns, user)
    ensures r < |s'.replicas| && (k in SocketsOf(s'.replicas[r].conns, user) <==> !(q == r && u == user && socket == k))
  {
    WithoutIsExact(SocketsOf(s.replicas[q].conns, u), socket);
  }

  lemma StaysUnlessFailed(s: Sys, q: nat, fails: set<Socket>, s': Sys, r: nat, user: User, k: Socket)
    requires Inv(s) && Next(s, Listen(q, fails), s') && r < |s.replicas| && k in SocketsOf(s.replicas[r].conns, user)
    ensures r < |s'.replicas| && s.replicas[q].cursor < |s.log|
    ensures k in SocketsOf(s'.replicas[r].conns, user) <==>
            !(q == r && k in fails && Addressed(s.log[s.replicas[q].cursor], user))
  {
    DeliveryKeepsWellKept(s.replicas[q].conns, s.log[s.replicas[q].cursor], fails);
  }

  lemma StaysUnlessStep(s: Sys, e: Event, s': Sys, r: nat, user: User, k: Socket)
    requires Inv(s) && Next(s, e, s') && r < |s.replicas| && k in SocketsOf(s.replicas[r].conns, user)
    ensures r < |s'.replicas| && (k in SocketsOf(s'.replicas[r].conns, user) <==> !TakesOff(s, e, r, user, k))
  {
    match e
    case Disconnect(q, u, socket) => StaysUnlessRemoved(s, q, u, socket, s', r, user, k);
    case Listen(q, fails) => StaysUnlessFailed(s, q, fails, s', r, user, k);
    case Connect(q, u, socket) => AddedStays(s, q, u, socket, s', r, user, k);
    case Publish(m) =>
    case StartReplica =>
  }

  lemma AddedStays(s: Sys, q: nat, u: User, socket: Socket, s': Sys, r: nat, user: User, k: Socket)
    requires Next(s, Connect(q, u, socket), s') && r < |s.replicas| && k in SocketsOf(s.replicas[r].conns, user)
    ensures r < |s'.replicas| && k in SocketsOf(s'.replicas[r].conns, user)
  {
    if q == r && u == user {
      assert SocketsOf(s'.replicas[r].conns, user) == SocketsOf(s.replicas[r].conns, user) + [socket];
    }
  }

  /** A registered socket stays registered until it disconnects or fails to take a message. */
  lemma StaysUntilTakenOff(states: seq<Sys>, events: seq<Event>, i: nat, r: nat, user: User, k: Socket)
    requires Behavior(states, events) && i < |events|
    requires r < |states[i].replicas| && k in SocketsOf(states[i].replicas[r].conns, user)
    ensures r < |states[i + 1].replicas|
    ensures k in SocketsOf(states[i + 1].replicas[r].conns, user) <==> !TakesOff(states[i], events[i], r, user, k)
  {
    BehaviorKeeps(states, events, i);
    StaysUnlessStep(states[i], events[i], states[i + 1], r, user, k);
  }

  ghost predicate Nowhere(s: Sys, k: Socket) {
    forall r: nat, u :: r < |s.replicas| ==> k !in SocketsOf(s.replicas[r].conns, u)
  }

  lemma NextKeepsGone(s: Sys, e: Event, s': Sys, k: Socket)
    requires Inv(s) && Next(s, e, s') && k in s.joined && Nowhere(s, k)
    ensures k in s'.joined && Nowhere(s', k) && InboxOf(s'.inbox, k) == InboxOf(s.inbox, k)
  {
    forall q: nat, u | q < |s'.replicas| ensures k !in SocketsOf(s'.replicas[q].conns, u) {
      if k in SocketsOf(s'.replicas[q].conns, u) { NextAddsNoOld(s, e, s', k, q, u); }
    }
    if e.Listen? { TakesHere(s, e.replica, s.log[s.replicas[e.replica].cursor], e.fails, k); }
  }

  /** No event registers a socket that was registered before. */
  lemma NextAddsNoOld(s: Sys, e: Event, s': Sys, k: Socket, q: nat, u: User)
    requires Inv(s) && Next(s, e, s') && k in s.joined && q < |s'.replicas| && k in SocketsOf(s'.replicas[q].conns, u)
    ensures q < |s.replicas| && k in SocketsOf(s.replicas[q].conns, u)
  {
    match e
    case Connect(r, user, socket) =>
      NewSocketIsNowhere(s, socket);
      AddKeepsWellKept(s.replicas[r].conns, user, socket);
    case Disconnect(r, user, socket) =>
      WithoutIsExact(SocketsOf(s.replicas[r].conns, user), socket);
    case Listen(r, fails) =>
      DeliveryKeepsWellKept(s.replicas[r].conns, s.log[s.replicas[r].cursor], fails);
    case _ =>
  }

  /** A socket that has left receives nothing more. */
  lemma {:induction false} GoneForGood(states: seq<Sys>, events: seq<Event>, i: nat, j: nat, k: Socket)
    requires Behavior(states, events) && i <= j < |states| && k in states[i].joined && Nowhere(states[i], k)
    ensures k in states[j].joined && Nowhere(states[j], k)
    ensures InboxOf(states[j].inbox, k) == InboxOf(states[i].inbox, k)
  {
    if j == i {
    } else {
      GoneForGood(states, events, i, j - 1, k);
      BehaviorKeeps(states, events, j - 1);
      NextKeepsGone(states[j - 1], events[j - 1], states[j], k);
    }
  }

  /** Taken off its replica, a socket is registered nowhere. */
  lemma TakenOffIsGone(states: seq<Sys>, events: seq<Event>, i: nat, r: nat, user: User, k: Socket)
    requires Behavior(states, events) && i < |events|
    requires r < |states[i].replicas| && k in SocketsOf(states[i].replicas[r].conns, user)
    requires TakesOff(states[i], events[i], r, user, k)
    ensures k in states[i + 1].joined && Nowhere(states[i + 1], k)
  {
    StaysUntilTakenOff(states, events, i, r, user, k);
    ExactlyOnceInOrder(states, events, i, r, user, k);
    var after := states[i + 1];
    assert Next(states[i], events[i], after);
    forall q: nat, u | q < |after.replicas| ensures k !in SocketsOf(after.replicas[q].conns, u) {
      if k in SocketsOf(after.replicas[q].conns, u) {
        ExactlyOnceInOrder(states, events, i + 1, q, u, k);
      }
    }
  }

  // ---------------------------------------------------------------- one replica: publishing is local delivery

  /** Delivering `messages` directly, one after the other, with the sockets in `fails[i]` dead for the i-th. */
  function DirectConns(conns: Registered, messages: seq<Message>, fails: seq<set<Socket>>, n: nat): Registered
    requires n <= |messages| == |fails|
  {
    if n == 0 then conns
    else AfterDelivery(DirectConns(conns, messages, fails, n - 1), messages[n - 1], fails[n - 1])
  }

  /** `inboxes` are the inboxes after `0, …, n` of these deliveries. */
  ghost predicate DirectInboxes(conns: Registered, messages: seq<Message>, fails: seq<set<Socket>>, inboxes: seq<Inboxes>, n: nat) {
    && n <= |messages| == |fails| == |inboxes| - 1
    && (n == 0 || (&& DirectInboxes(conns, messages, fails, inboxes, n - 1)
                   && ReceivedBy(DirectConns(conns, messages, fails, n - 1), inboxes[n - 1], inboxes[n], messages[n - 1], fails[n - 1])))
  }

  /** What the first `n` events publish, in order. */
  function Published(events: seq<Event>, n: nat): seq<Message>
    requires n <= |events|
  {
    if n == 0 then []
    else Published(events, n - 1) + if events[n - 1].Publish? then [events[n - 1].message] else []
  }

  /** The sockets that fail, delivery by delivery, over the first `n` events. */
  function FailsOf(events: seq<Event>, n: nat): seq<set<Socket>>
    requires n <= |events|
  {
    if n == 0 then []
    else FailsOf(events, n - 1) + if events[n - 1].Listen? then [events[n - 1].fails] else []
  }

  lemma {:induction false} Prefixes(events: seq<Event>, i: nat, n: nat)
    requires i <= n <= |events|
    ensures Published(events, i) <= Published(events, n) && FailsOf(events, i) <= FailsOf(events, n)
    decreases n - i
  {
    if i == n {
    } else {
      Prefixes(events, i, n - 1);
    }
  }

  /** A message is published, or the first replica takes one. */
  ghost predicate PublishOrListen(s: Sys, e: Event, s': Sys) {
    Next(s, e, s') && (e.Publish? || (e.Listen? && e.replica == 0))
  }

  /** Publishing and listening on a single replica, in any order, from drained to drained. */
  ghost predicate PublishAndDrain(states: seq<Sys>, events: seq<Event>) {
    && |states| == |events| + 1
    && (forall i :: 0 <= i < |events| ==> PublishOrListen(states[i], events[i], states[i + 1]))
    && |states[0].replicas| == 1 && states[0].replicas[0].cursor == |states[0].log|
    && |states[|events|].replicas| == 1 && states[|events|].replicas[0].cursor == |states[|events|].log|
  }

  /** The state of the only replica after some of `messages` were published and some of those delivered. */
  ghost predicate DrainedTo(s: Sys, start: Sys, published: seq<Message>, messages: seq<Message>, fails: seq<set<Socket>>, n: nat)
    requires |start.replicas| == 1
  {
    && n <= |messages| == |fails|
    && s.log == start.log + published && |s.replicas| == 1
    && s.replicas[0] == Replica(DirectConns(start.replicas[0].conns, messages, fails, n), |start.log| + n)
  }

  /** One listener's step on the only replica. */
  lemma ListenAlone(s: Sys, fails: set<Socket>, s': Sys, m: Message)
    requires |s.replicas| == 1 && Next(s, Listen(0, fails), s')
    requires m == s.log[s.replicas[0].cursor]
    ensures s'.log == s.log && |s'.replicas| == 1
    ensures s'.replicas[0] == Replica(AfterDelivery(s.replicas[0].conns, m, fails), s.replicas[0].cursor + 1)
    ensures ReceivedBy(s.replicas[0].conns, s.inbox, s'.inbox, m, fails)
  {
  }

  lemma DrainStep(s: Sys, s': Sys, start: Sys, published: seq<Message>, messages: seq<Message>, fails: seq<set<Socket>>, n: nat)
    requires |start.replicas| == 1 && DrainedTo(s, start, published, messages, fails, n) && n < |messages|
    requires published <= messages && Next(s, Listen(0, fails[n]), s')
    ensures DrainedTo(s', start, published, messages, fails, n + 1)
    ensures ReceivedBy(DirectConns(start.replicas[0].conns, messages, fails, n), s.inbox, s'.inbox, messages[n], fails[n])
  {
    assert (start.log + published)[|start.log| + n] == published[n] == messages[n];
    ListenAlone(s, fails[n], s', messages[n]);
  }

  /** The log and the cursor count publications and deliveries; a run that ends drained has as many of each. */
  lemma {:induction false} CursorCounts(states: seq<Sys>, events: seq<Event>, n: nat)
    requires PublishAndDrain(states, events) && n <= |events|
    ensures |states[n].replicas| == 1
    ensures |states[n].log| == |states[0].log| + |Published(events, n)|
    ensures states[n].replicas[0].cursor == |states[0].log| + |FailsOf(events, n)|
  {
    if n == 0 {
    } else {
      CursorCounts(states, events, n - 1);
      assert PublishOrListen(states[n - 1], events[n - 1], states[n]);
    }
  }

  /** After `n` deliveries the only replica holds what direct delivery of the same messages leaves. */
  ghost predicate LikeDirect(s: Sys, start: Sys, published: seq<Message>, messages: seq<Message>, fails: seq<set<Socket>>,
                             inboxes: seq<Inboxes>, n: nat)
    requires |start.replicas| == 1
  {
    && DrainedTo(s, start, published, messages, fails, n)
    && n < |inboxes| && forall k :: InboxOf(s.inbox, k) == InboxOf(inboxes[n], k)
  }

  lemma PublishStaysLikeDirect(s: Sys, s': Sys, m: Message, start: Sys, published: seq<Message>,
                               messages: seq<Message>, fails: seq<set<Socket>>, inboxes: seq<Inboxes>, n: nat)
    requires |start.replicas| == 1 && LikeDirect(s, start, published, messages, fails, inboxes, n)
    requires Next(s, Publish(m), s')
    ensures LikeDirect(s', start, published + [m], messages, fails, inboxes, n)
  {
    assert s'.log == start.log + (published + [m]);
  }

  lemma ListenStaysLikeDirect(s: Sys, s': Sys, start: Sys, published: seq<Message>,
                              messages: seq<Message>, fails: seq<set<Socket>>, inboxes: seq<Inboxes>, n: nat)
    requires |start.replicas| == 1 && LikeDirect(s, start, published, messages, fails, inboxes, n)
    requires n < |messages| && published <= messages && Next(s, Listen(0, fails[n]), s')
    requires DirectInboxes(start.replicas[0].conns, messages, fails, inboxes, |messages|)
    ensures LikeDirect(s', start, published, messages, fails, inboxes, n + 1)
  {
    DrainStep(s, s', start, published, messages, fails, n);
    forall k ensures InboxOf(s'.inbox, k) == InboxOf(inboxes[n + 1], k) {
      DirectStep(start.replicas[0].conns, messages, fails, inboxes, |messages|, n, k);
      assert InboxOf(s'.inbox, k) == InboxOf(s.inbox, k) +
        if Takes(DirectConns(start.replicas[0].conns, messages, fails, n), messages[n], fails[n], k) then [messages[n].payload] else [];
    }
  }

  lemma LastDirect(conns: Registered, messages: seq<Message>, fails: seq<set<Socket>>, inboxes: seq<Inboxes>, n: nat, k: Socket)
    requires DirectInboxes(conns, messages, fails, inboxes, n) && n > 0
    ensures DirectInboxes(conns, messages, fails, inboxes, n - 1)
    ensures InboxOf(inboxes[n], k) == InboxOf(inboxes[n - 1], k) +
            if Takes(DirectConns(conns, messages, fails, n - 1), messages[n - 1], fails[n - 1], k) then [messages[n - 1].payload] else []
  {
  }

  /** What a socket receives from the `i`-th of the direct deliveries. */
  lemma {:induction false} DirectStep(conns: Registered, messages: seq<Message>, fails: seq<set<Socket>>, inboxes: seq<Inboxes>,
                                      n: nat, i: nat, k: Socket)
    requires DirectInboxes(conns, messages, fails, inboxes, n) && i < n
    ensures InboxOf(inboxes[i + 1], k) == InboxOf(inboxes[i], k) +
            if Takes(DirectConns(conns, messages, fails, i), messages[i], fails[i], k) then [messages[i].payload] else []
    decreases n
  {
    LastDirect(conns, messages, fails, inboxes, n, k);
    if i == n - 1 {
    } else {
      DirectStep(conns, messages, fails, inboxes, n - 1, i, k);
    }
  }

  lemma EventStaysLikeDirect(s: Sys, e: Event, s': Sys, start: Sys, published: seq<Message>, published': seq<Message>,
                             messages: seq<Message>, fails: seq<set<Socket>>, inboxes: seq<Inboxes>, n: nat, n': nat)
    requires |start.replicas| == 1 && LikeDirect(s, start, published, messages, fails, inboxes, n)
    requires DirectInboxes(start.replicas[0].conns, messages, fails, inboxes, |messages|)
    requires PublishOrListen(s, e, s')
    requires published' == published + (if e.Publish? then [e.message] else []) && published' <= messages
    requires if e.Publish? then n' == n else n' == n + 1 <= |fails| && fails[n] == e.fails
    ensures LikeDirect(s', start, published', messages, fails, inboxes, n')
  {
    if e.Publish? {
      assert e == Publish(e.message);
      PublishStaysLikeDirect(s, s', e.message, start, published, messages, fails, inboxes, n);
    } else {
      assert e == Listen(0, fails[n]) && published' == published;
      ListenStaysLikeDirect(s, s', start, published, messages, fails, inboxes, n);
    }
  }

  /** Where the `n`-th event stands among the deliveries. */
  lemma FailsAt(events: seq<Event>, n: nat, fails: seq<set<Socket>>)
    requires 0 < n <= |events| && fails == FailsOf(events, |events|)
    ensures |FailsOf(events, n)| == |FailsOf(events, n - 1)| + if events[n - 1].Listen? then 1 else 0
    ensures events[n - 1].Listen? ==>
              |FailsOf(events, n - 1)| < |fails| && fails[|FailsOf(events, n - 1)|] == events[n - 1].fails
    ensures Published(events, n) == Published(events, n - 1) + if events[n - 1].Publish? then [events[n - 1].message] else []
    ensures Published(events, n) <= Published(events, |events|)
  {
    Prefixes(events, n, |events|);
  }

  /** The state after the first `n` events is like direct delivery of what was published for them. */
  ghost predicate LikeDirectAt(states: seq<Sys>, events: seq<Event>, messages: seq<Message>, fails: seq<set<Socket>>,
                               inboxes: seq<Inboxes>, n: nat)
    requires n <= |events| < |states| && |states[0].replicas| == 1
  {
    LikeDirect(states[n], states[0], Published(events, n), messages, fails, inboxes, |FailsOf(events, n)|)
  }

  lemma NextIsLikeDirect(states: seq<Sys>, events: seq<Event>, messages: seq<Message>, fails: seq<set<Socket>>,
                         inboxes: seq<Inboxes>, n: nat)
    requires 0 < n <= |events| < |states| && |states[0].replicas| == 1
    requires PublishOrListen(states[n - 1], events[n - 1], states[n])
    requires messages == Published(events, |events|) && fails == FailsOf(events, |events|)
    requires DirectInboxes(states[0].replicas[0].conns, messages, fails, inboxes, |messages|)
    requires LikeDirectAt(states, events, messages, fails, inboxes, n - 1)
    ensures LikeDirectAt(states, events, messages, fails, inboxes, n)
  {
    FailsAt(events, n, fails);
    EventStaysLikeDirect(states[n - 1], events[n - 1], states[n], states[0], Published(events, n - 1), Published(events, n),
                         messages, fails, inboxes, |FailsOf(events, n - 1)|, |FailsOf(events, n)|);
  }

  lemma StartsLikeDirect(states: seq<Sys>, events: seq<Event>, messages: seq<Message>, fails: seq<set<Socket>>, inboxes: seq<Inboxes>)
    requires |events| < |states| && |states[0].replicas| == 1 && states[0].replicas[0].cursor == |states[0].log|
    requires |messages| == |fails| && inboxes != [] && inboxes[0] == states[0].inbox
    ensures LikeDirectAt(states, events, messages, fails, inboxes, 0)
  {
    assert states[0].log + [] == states[0].log;
    assert Published(events, 0) == [] && FailsOf(events, 0) == [];
  }

  lemma EventAt(states: seq<Sys>, events: seq<Event>, n: nat)
    requires PublishAndDrain(states, events) && n < |events|
    ensures PublishOrListen(states[n], events[n], states[n + 1])
  {
  }

  lemma DrainsDirectly(states: seq<Sys>, events: seq<Event>, messages: seq<Message>, fails: seq<set<Socket>>, inboxes: seq<Inboxes>)
    requires PublishAndDrain(states, events)
    requires messages == Published(events, |events|) && fails == FailsOf(events, |events|)
    requires DirectInboxes(states[0].replicas[0].conns, messages, fails, inboxes, |messages|) && inboxes[0] == states[0].inbox
    ensures LikeDirectAt(states, events, messages, fails, inboxes, |events|)
  {
    StartsLikeDirect(states, events, messages, fails, inboxes);
    for n := 0 to |events|
      invariant LikeDirectAt(states, events, messages, fails, inboxes, n)
    {
      EventAt(states, events, n);
      NextIsLikeDirect(states, events, messages, fails, inboxes, n + 1);
    }
  }

  /** With one replica, publishing messages and draining the channel, in any interleaving that ends
      drained, leaves exactly the registry and the inboxes that delivering them locally, in the order
      of publication, would leave. */
  lemma OneReplicaPublishesLocally(states: seq<Sys>, events: seq<Event>, messages: seq<Message>, fails: seq<set<Socket>>,
                                   inboxes: seq<Inboxes>, last: Sys)
    requires PublishAndDrain(states, events) && last == states[|events|]
    requires messages == Published(events, |events|) && fails == FailsOf(events, |events|)
    requires DirectInboxes(states[0].replicas[0].conns, messages, fails, inboxes, |messages|) && inboxes[0] == states[0].inbox
    ensures |last.replicas| == 1
    ensures last.replicas[0].conns == DirectConns(states[0].replicas[0].conns, messages, fails, |messages|)
    ensures forall s :: InboxOf(last.inbox, s) == InboxOf(inboxes[|messages|], s)
  {
    CursorCounts(states, events, |events|);
    DrainsDirectly(states, events, messages, fails, inboxes);
  }
}
