/** The WebSocket hub: one connection per user, and the discipline of closing each Send channel at most once. */
module WebSocketHub {

  const SEND_BUFFER := 256

  type UserId = int
  type ClientId = nat
  type Message = string

  /** `buffer` holds what the write pump has not taken yet; `closes` counts close(Send), of which a second panics. */
  datatype Conn = Conn(user: UserId, buffer: seq<Message>, closes: nat, registered: bool)

  /** `removals` are the clients a broadcast found full and has handed to unregisterClient. */
  datatype Hub = Hub(clients: map<UserId, ClientId>, conns: seq<Conn>, removals: multiset<ClientId>, sentOnClosed: bool)

  datatype Step =
    | Connect(user: UserId)
    | Register(c: ClientId)
    | Unregister(c: ClientId)
    | Broadcast(data: Message)
    | RemoveFull(c: ClientId)
    | Drain(c: ClientId)

  function Closed(h: Hub, c: ClientId): Hub
    requires c < |h.conns|
  {
    h.(conns := h.conns[c := h.conns[c].(closes := h.conns[c].closes + 1)])
  }

  predicate InMap(h: Hub, c: ClientId)
    requires c < |h.conns|
  {
    h.conns[c].user in h.clients && h.clients[h.conns[c].user] == c
  }

  /** A connection is registered once, by the handler that opened it; the event loop may see its
      unregistration first, and any number of times. */
  ghost predicate Enabled(h: Hub, step: Step) {
    match step
    case Connect(_) => true
    case Register(c) =>
      c < |h.conns| && !h.conns[c].registered
      && (h.conns[c].user in h.clients ==> h.clients[h.conns[c].user] < |h.conns|)
    case Unregister(c) => c < |h.conns|
    case Broadcast(_) => forall user :: user in h.clients ==> h.clients[user] < |h.conns|
    case RemoveFull(c) => c < |h.conns| && c in h.removals
    case Drain(c) => c < |h.conns| && h.conns[c].buffer != []
  }

  /** A user's old connection is closed when a new one registers. */
  function RegisterEffect(h: Hub, c: ClientId): Hub
    requires Enabled(h, Register(c))
  {
    var user := h.conns[c].user;
    var kicked := if user in h.clients then Closed(h, h.clients[user]) else h;
    kicked.(clients := h.clients[user := c], conns := kicked.conns[c := kicked.conns[c].(registered := true)])
  }

  /** Both ways of removing a client check that the map still leads to it. */
  function RemoveEffect(h: Hub, c: ClientId): Hub
    requires c < |h.conns|
  {
    if InMap(h, c) then Closed(h, c).(clients := h.clients - {h.conns[c].user}) else h
  }

  predicate Full(conn: Conn) {
    |conn.buffer| >= SEND_BUFFER
  }

  /** Every client in the map gets the message or, if its buffer is full, is handed over for removal. */
  function BroadcastEffect(h: Hub, data: Message): Hub
    requires forall user :: user in h.clients ==> h.clients[user] < |h.conns|
  {
    h.(conns := seq(|h.conns|, (c: nat) requires c < |h.conns| =>
                  if InMap(h, c) && !Full(h.conns[c]) then h.conns[c].(buffer := h.conns[c].buffer + [data]) else h.conns[c]),
       removals := h.removals + multiset(set c | 0 <= c < |h.conns| && InMap(h, c) && Full(h.conns[c])),
       sentOnClosed := h.sentOnClosed || exists c :: 0 <= c < |h.conns| && InMap(h, c) && h.conns[c].closes > 0)
  }

  function Apply(h: Hub, step: Step): Hub
    requires Enabled(h, step)
  {
    match step
    case Connect(user) => h.(conns := h.conns + [Conn(user, [], 0, false)])
    case Register(c) => RegisterEffect(h, c)
    case Unregister(c) => RemoveEffect(h, c)
    case Broadcast(data) => BroadcastEffect(h, data)
    case RemoveFull(c) => RemoveEffect(h, c).(removals := h.removals - multiset{c})
    case Drain(c) => h.(conns := h.conns[c := h.conns[c].(buffer := h.conns[c].buffer[1..])])
  }

  /** The map leads each user to one registered connection of that user whose channel is open; every channel is
      closed at most once, and exactly when its client was registered and has left the map. */
  ghost predicate Inv(h: Hub) {
    && (forall user :: user in h.clients ==> h.clients[user] < |h.conns| && h.conns[h.clients[user]].user == user)
    && (forall c :: 0 <= c < |h.conns| ==> Disciplined(h, c))
    && !h.sentOnClosed
  }

  ghost predicate Disciplined(h: Hub, c: ClientId)
    requires c < |h.conns|
  {
    && (InMap(h, c) ==> h.conns[c].registered)
    && h.conns[c].closes == (if h.conns[c].registered && !InMap(h, c) then 1 else 0)
    && |h.conns[c].buffer| <= SEND_BUFFER
  }

  function Empty(): Hub {
    Hub(map[], [], multiset{}, false)
  }

  lemma RegisterKeepsInv(h: Hub, c: ClientId)
    requires Inv(h) && Enabled(h, Register(c))
    ensures Inv(RegisterEffect(h, c))
  {
    var h' := RegisterEffect(h, c);
    forall d | 0 <= d < |h'.conns| ensures Disciplined(h', d) {
      assert Disciplined(h, d);
    }
  }

  lemma RemoveKeepsInv(h: Hub, c: ClientId)
    requires Inv(h) && c < |h.conns|
    ensures Inv(RemoveEffect(h, c))
  {
    var h' := RemoveEffect(h, c);
    forall d | 0 <= d < |h'.conns| ensures Disciplined(h', d) {
      assert Disciplined(h, d);
    }
  }

  lemma BroadcastKeepsInv(h: Hub, data: Message)
    requires Inv(h)
    ensures Inv(BroadcastEffect(h, data))
  {
    var h' := BroadcastEffect(h, data);
    forall c | 0 <= c < |h.conns| && InMap(h, c) ensures h.conns[c].closes == 0 {
      assert Disciplined(h, c);
    }
    forall d | 0 <= d < |h'.conns| ensures Disciplined(h', d) {
      assert Disciplined(h, d);
      assert InMap(h', d) == InMap(h, d);
    }
  }

  lemma DrainKeepsInv(h: Hub, c: ClientId)
    requires Inv(h) && Enabled(h, Drain(c))
    ensures Inv(Apply(h, Drain(c)))
  {
    var h' := Apply(h, Drain(c));
    forall d | 0 <= d < |h'.conns| ensures Disciplined(h', d) {
      assert Disciplined(h, d);
    }
  }

  lemma ConnectKeepsInv(h: Hub, user: UserId)
    requires Inv(h)
    ensures Inv(Apply(h, Connect(user)))
  {
    var h' := Apply(h, Connect(user));
    forall d | 0 <= d < |h'.conns| ensures Disciplined(h', d) {
      if d < |h.conns| { assert Disciplined(h, d); }
    }
  }

  /** The invariant does not look at the pending removals. */
  lemma RemovalsDoNotMatter(h: Hub, removals: multiset<ClientId>)
    requires Inv(h)
    ensures Inv(h.(removals := removals))
  {
    var h' := h.(removals := removals);
    forall d | 0 <= d < |h'.conns| ensures Disciplined(h', d) {
      assert Disciplined(h, d);
    }
  }

  lemma StepKeepsInv(h: Hub, step: Step)
    requires Inv(h) && Enabled(h, step)
    ensures Inv(Apply(h, step))
  {
    match step
    case Connect(user) => ConnectKeepsInv(h, user);
    case Register(c) => RegisterKeepsInv(h, c);
    case Unregister(c) => RemoveKeepsInv(h, c);
    case Broadcast(data) => BroadcastKeepsInv(h, data);
    case RemoveFull(c) =>
      RemoveKeepsInv(h, c);
      RemovalsDoNotMatter(RemoveEffect(h, c), h.removals - multiset{c});
    case Drain(c) => DrainKeepsInv(h, c);
  }

  ghost predicate Runs(h: Hub, steps: seq<Step>)
    decreases |steps|
  {
    steps == [] || (Enabled(h, steps[0]) && Runs(Apply(h, steps[0]), steps[1..]))
  }

  ghost function Final(h: Hub, steps: seq<Step>): Hub
    requires Runs(h, steps)
    decreases |steps|
  {
    if steps == [] then h else Final(Apply(h, steps[0]), steps[1..])
  }

  lemma {:induction false} RunKeepsInv(h: Hub, steps: seq<Step>)
    requires Inv(h) && Runs(h, steps)
    ensures Inv(Final(h, steps))
    decreases |steps|
  {
    if steps != [] {
      StepKeepsInv(h, steps[0]);
      RunKeepsInv(Apply(h, steps[0]), steps[1..]);
    }
  }

  /** For every order of connections, registrations, unregistrations, broadcasts and asynchronous removals. */
  lemma {:induction false} NoPanic(steps: seq<Step>)
    requires Runs(Empty(), steps)
    ensures var h := Final(Empty(), steps);
      && (forall c :: 0 <= c < |h.conns| ==> h.conns[c].closes <= 1)
      && (forall user :: user in h.clients ==>
            h.clients[user] < |h.conns| && h.conns[h.clients[user]].user == user && h.conns[h.clients[user]].closes == 0)
      && !h.sentOnClosed
  {
    RunKeepsInv(Empty(), steps);
    var h := Final(Empty(), steps);
    forall c | 0 <= c < |h.conns| ensures h.conns[c].closes <= 1 {
      assert Disciplined(h, c);
    }
    forall user | user in h.clients ensures h.conns[h.clients[user]].closes == 0 {
      assert Disciplined(h, h.clients[user]);
    }
  }

  /** A broadcast reaches exactly the clients of the map: each gets the message last in its buffer or is marked for
      removal, and nobody else's buffer changes. */
  lemma BroadcastReaches(h: Hub, data: Message, c: ClientId)
    requires Inv(h) && c < |h.conns|
    ensures var h' := BroadcastEffect(h, data);
      && h'.conns[c].buffer == (if InMap(h, c) && !Full(h.conns[c]) then h.conns[c].buffer + [data] else h.conns[c].buffer)
      && (InMap(h, c) && Full(h.conns[c]) ==> h'.removals[c] == h.removals[c] + 1)
      && (!InMap(h, c) || !Full(h.conns[c]) ==> h'.removals[c] == h.removals[c])
      && h'.clients == h.clients
  {
  }

  /** What the write pump takes out of a client's buffer along a run, and what broadcasts put in. */
  ghost function Drained(h: Hub, steps: seq<Step>, c: ClientId): seq<Message>
    requires Runs(h, steps)
    decreases |steps|
  {
    if steps == [] then []
    else
      (if steps[0] == Drain(c) then [h.conns[c].buffer[0]] else []) + Drained(Apply(h, steps[0]), steps[1..], c)
  }

  ghost function Accepted(h: Hub, steps: seq<Step>, c: ClientId): seq<Message>
    requires Runs(h, steps)
    decreases |steps|
  {
    if steps == [] then []
    else
      (if c < |h.conns| then CameIn(h, steps[0], c) else [])
      + Accepted(Apply(h, steps[0]), steps[1..], c)
  }

  /** What one step puts into a buffer and takes out of it. */
  function CameIn(h: Hub, step: Step, c: ClientId): seq<Message>
    requires c < |h.conns|
  {
    if step.Broadcast? && InMap(h, c) && !Full(h.conns[c]) then [step.data] else []
  }

  lemma BufferStep(h: Hub, step: Step, c: ClientId)
    requires Enabled(h, step) && c < |h.conns|
    ensures c < |Apply(h, step).conns|
    ensures step == Drain(c) ==> h.conns[c].buffer == [h.conns[c].buffer[0]] + Apply(h, step).conns[c].buffer
    ensures step != Drain(c) ==> Apply(h, step).conns[c].buffer == h.conns[c].buffer + CameIn(h, step, c)
  {
  }

  lemma TakenFirst(taken: seq<Message>, buffer: seq<Message>, more: seq<Message>, out: seq<Message>, left: seq<Message>)
    requires buffer + more == out + left
    ensures (taken + buffer) + more == (taken + out) + left
    ensures [] + more == more
  {
    assert (taken + buffer) + more == taken + (buffer + more);
    assert taken + (out + left) == (taken + out) + left;
  }

  /** Messages leave each buffer in the order in which they came, none lost and none twice. */
  lemma {:induction false} FirstInFirstOut(h: Hub, steps: seq<Step>, c: ClientId)
    requires Runs(h, steps) && c < |h.conns|
    ensures c < |Final(h, steps).conns|
    ensures h.conns[c].buffer + Accepted(h, steps, c) == Drained(h, steps, c) + Final(h, steps).conns[c].buffer
    decreases |steps|
  {
    if steps != [] {
      var h' := Apply(h, steps[0]);
      BufferStep(h, steps[0], c);
      FirstInFirstOut(h', steps[1..], c);
      if steps[0] == Drain(c) {
        TakenFirst([h.conns[c].buffer[0]], h'.conns[c].buffer, Accepted(h', steps[1..], c),
                   Drained(h', steps[1..], c), Final(h', steps[1..]).conns[c].buffer);
      } else {
        AddedLast(h.conns[c].buffer, CameIn(h, steps[0], c), Accepted(h', steps[1..], c), Drained(h', steps[1..], c));
      }
    }
  }

  lemma AddedLast(buffer: seq<Message>, came: seq<Message>, more: seq<Message>, out: seq<Message>)
    ensures buffer + (came + more) == (buffer + came) + more && [] + out == out
  {
  }

  /** A buffer is full at 256 messages and never holds more. */
  lemma FullExactly(h: Hub, c: ClientId)
    requires Inv(h) && c < |h.conns|
    ensures |h.conns[c].buffer| <= 256 && (Full(h.conns[c]) <==> |h.conns[c].buffer| == 256)
  {
    assert Disciplined(h, c);
  }

  /** A new connection has an open channel with nothing in it, and is not in the map before it registers. */
  lemma ConnectMeans(h: Hub, user: UserId)
    requires Inv(h)
    ensures var h' := Apply(h, Connect(user)); var c := |h.conns|;
      && |h'.conns| == c + 1 && h'.conns[c].user == user && h'.conns[c].buffer == [] && h'.conns[c].closes == 0
      && !InMap(h', c) && Enabled(h', Register(c))
      && h'.clients == h.clients && forall d :: 0 <= d < c ==> h'.conns[d] == h.conns[d]
  {
  }

  /** The newcomer takes the user's place with an open channel, the connection it replaces is closed, and nobody else is
      touched. */
  lemma RegisterMeans(h: Hub, c: ClientId)
    requires Inv(h) && Enabled(h, Register(c))
    ensures var h' := RegisterEffect(h, c); var user := h.conns[c].user;
      && user in h'.clients && h'.clients[user] == c && h'.conns[c].closes == 0 && h'.conns[c].registered
      && (user in h.clients ==> h.clients[user] != c && h'.conns[h.clients[user]].closes == 1)
      && (forall other :: other in h.clients && other != user ==> other in h'.clients && h'.clients[other] == h.clients[other])
      && (forall d :: 0 <= d < |h.conns| && d != c && !InMap(h, d) ==> h'.conns[d] == h.conns[d])
      && (forall d :: 0 <= d < |h.conns| && h.conns[d].user != user ==> h'.conns[d] == h.conns[d])
  {
    assert Disciplined(h, c);
    if h.conns[c].user in h.clients {
      assert Disciplined(h, h.clients[h.conns[c].user]);
    }
  }

  /** Afterwards the client is not in the map; if it was, its channel is closed and its user has no connection. Nobody
      else is touched. */
  lemma RemoveMeans(h: Hub, c: ClientId)
    requires Inv(h) && c < |h.conns|
    ensures var h' := RemoveEffect(h, c); var user := h.conns[c].user;
      && |h'.conns| == |h.conns| && !InMap(h', c)
      && (InMap(h, c) ==> user !in h'.clients && h'.conns[c].closes == 1)
      && (!InMap(h, c) ==> h' == h)
      && (forall other :: other != user ==> (other in h'.clients <==> other in h.clients))
      && (forall other :: other in h.clients && other != user ==> h'.clients[other] == h.clients[other])
      && (forall d :: 0 <= d < |h.conns| && d != c ==> h'.conns[d] == h.conns[d])
  {
    assert Disciplined(h, c);
  }

  /** Registering a connection a second time closes its own channel while it stays in the map. */
  lemma SecondRegistrationBreaks(h: Hub, c: ClientId)
    requires Inv(h) && c < |h.conns| && InMap(h, c)
    ensures var again := RegisterEffect(h.(conns := h.conns[c := h.conns[c].(registered := false)]), c);
      InMap(again, c) && again.conns[c].closes == 1
  {
    assert Disciplined(h, c);
  }

  // ---------------------------------------------------------------------------------------------
  // The event loop's object
  // ---------------------------------------------------------------------------------------------

  class EventLoop {
    var clients: map<UserId, ClientId>
    var conns: seq<Conn>
    var removals: multiset<ClientId>

    /** The object can only be used without panics, so nothing is ever sent on a closed channel. */
    ghost function View(): Hub
      reads this
    {
      Hub(clients, conns, removals, false)
    }

    constructor ()
      ensures View() == Empty() && Inv(View())
    {
      clients, conns, removals := map[], [], multiset{};
    }

    /** close(Send); requires an open channel, as the runtime does. */
    method CloseSend(c: ClientId)
      requires c < |conns| && conns[c].closes == 0
      modifies this`conns
      ensures conns == old(conns)[c := old(conns)[c].(closes := 1)]
    {
      conns := conns[c := conns[c].(closes := 1)];
    }

    method OnRegister(c: ClientId)
      requires Inv(View()) && Enabled(View(), Register(c))
      modifies this
      ensures Inv(View()) && View() == RegisterEffect(old(View()), c)
    {
      ghost var h := View();
      RegisterKeepsInv(h, c);
      var user := conns[c].user;
      if user in clients {
        assert Disciplined(h, clients[user]);
        CloseSend(clients[user]);
      }
      clients := clients[user := c];
      conns := conns[c := conns[c].(registered := true)];
    }

    method OnUnregister(c: ClientId)
      requires Inv(View()) && c < |conns|
      modifies this
      ensures Inv(View()) && View() == RemoveEffect(old(View()), c)
    {
      RemoveKeepsInv(View(), c);
      assert Disciplined(View(), c);
      if conns[c].user in clients && clients[conns[c].user] == c {
        clients := clients - {conns[c].user};
        CloseSend(c);
      }
    }

    /** The goroutine spawned for a client whose buffer was full. */
    method UnregisterClient(c: ClientId)
      requires Inv(View()) && Enabled(View(), RemoveFull(c))
      modifies this
      ensures Inv(View()) && View() == Apply(old(View()), RemoveFull(c))
    {
      StepKeepsInv(View(), RemoveFull(c));
      OnUnregister(c);
      removals := removals - multiset{c};
    }

    /** A non-blocking send; requires an open channel, as the runtime does. */
    method TrySend(c: ClientId, data: Message) returns (sent: bool)
      requires c < |conns| && conns[c].closes == 0
      modifies this`conns
      ensures sent <==> !Full(old(conns)[c])
      ensures conns == if sent then old(conns)[c := old(conns)[c].(buffer := old(conns)[c].buffer + [data])] else old(conns)
    {
      sent := |conns[c].buffer| < SEND_BUFFER;
      if sent {
        conns := conns[c := conns[c].(buffer := conns[c].buffer + [data])];
      }
    }

    method OnBroadcast(data: Message)
      requires Inv(View())
      modifies this
      ensures Inv(View()) && View() == BroadcastEffect(old(View()), data)
    {
      ghost var h := View();
      BroadcastKeepsInv(h, data);
      var rest := clients.Keys;
      CastingStarts(h, data);
      while rest != {}
        invariant clients == h.clients && Casting(h, data, rest, conns, removals)
        decreases |rest|
      {
        var user :| user in rest;
        var c := clients[user];
        CastingContinues(h, data, rest, user, conns, removals);
        var sent := TrySend(c, data);
        if !sent {
          removals := removals + multiset{c};
        }
        rest := rest - {user};
      }
      CastingEnds(h, data, conns, removals);
    }
  }

  function FullClients(h: Hub, rest: set<UserId>): set<ClientId> {
    set c | 0 <= c < |h.conns| && InMap(h, c) && Full(h.conns[c]) && h.conns[c].user !in rest
  }

  function Delivered(h: Hub, c: ClientId, data: Message, rest: set<UserId>): Conn
    requires c < |h.conns|
  {
    if InMap(h, c) && !Full(h.conns[c]) && h.conns[c].user !in rest
    then h.conns[c].(buffer := h.conns[c].buffer + [data]) else h.conns[c]
  }

  /** A broadcast in progress, with the users of `rest` still to be served. */
  ghost predicate Casting(h: Hub, data: Message, rest: set<UserId>, conns: seq<Conn>, removals: multiset<ClientId>) {
    && rest <= h.clients.Keys && |conns| == |h.conns|
    && (forall c :: 0 <= c < |conns| ==> conns[c] == Delivered(h, c, data, rest))
    && removals == h.removals + multiset(FullClients(h, rest))
  }

  lemma CastingStarts(h: Hub, data: Message)
    requires Inv(h)
    ensures Casting(h, data, h.clients.Keys, h.conns, h.removals)
  {
  }

  lemma CastingSkips(h: Hub, data: Message, rest: set<UserId>, user: UserId, conns: seq<Conn>, removals: multiset<ClientId>)
    requires Casting(h, data, rest, conns, removals) && user in rest
    requires h.clients[user] < |h.conns| && h.conns[h.clients[user]].user == user && Full(h.conns[h.clients[user]])
    ensures Casting(h, data, rest - {user}, conns, removals + multiset{h.clients[user]})
  {
  }

  lemma CastingSends(h: Hub, data: Message, rest: set<UserId>, user: UserId, conns: seq<Conn>, removals: multiset<ClientId>)
    requires Casting(h, data, rest, conns, removals) && user in rest
    requires h.clients[user] < |h.conns| && h.conns[h.clients[user]].user == user && !Full(h.conns[h.clients[user]])
    ensures var c := h.clients[user];
      Casting(h, data, rest - {user}, conns[c := conns[c].(buffer := conns[c].buffer + [data])], removals)
  {
  }

  lemma CastingContinues(h: Hub, data: Message, rest: set<UserId>, user: UserId, conns: seq<Conn>, removals: multiset<ClientId>)
    requires Inv(h) && Casting(h, data, rest, conns, removals) && user in rest
    ensures var c := h.clients[user];
      && c < |conns| && conns[c].closes == 0
      && (if Full(conns[c]) then Casting(h, data, rest - {user}, conns, removals + multiset{c})
          else Casting(h, data, rest - {user}, conns[c := conns[c].(buffer := conns[c].buffer + [data])], removals))
  {
    var c := h.clients[user];
    assert Disciplined(h, c) && InMap(h, c);
    assert conns[c] == h.conns[c];
    if Full(conns[c]) {
      CastingSkips(h, data, rest, user, conns, removals);
    } else {
      CastingSends(h, data, rest, user, conns, removals);
    }
  }

  lemma CastingEnds(h: Hub, data: Message, conns: seq<Conn>, removals: multiset<ClientId>)
    requires Inv(h) && Casting(h, data, {}, conns, removals)
    ensures h.(conns := conns, removals := removals) == BroadcastEffect(h, data)
  {
    var expected := BroadcastEffect(h, data);
    assert conns == expected.conns;
    assert FullClients(h, {}) == set c | 0 <= c < |h.conns| && InMap(h, c) && Full(h.conns[c]);
    forall c | 0 <= c < |h.conns| && InMap(h, c) ensures h.conns[c].closes == 0 {
      assert Disciplined(h, c);
    }
  }
}
