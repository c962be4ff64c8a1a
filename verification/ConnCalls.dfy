/** What the calls of the connection protocol do, in every interleaving: whom they write to, poll and read. */
module ConnCalls {
  import opened Basics
  import opened ConnLocks

  // is_connected after a step: a failed write or read clears it, a reconnect sets it, nothing else touches it.
  lemma ConnectedChanges(s: State, t: nat, c: Choice, x: nat)
    requires t < |s.pcs| && Known(s.pcs[t], s.clients) && x in s.clients
    ensures Step(s, t, c).clients.Keys == s.clients.Keys
    ensures
      var before, after := s.clients[x].connected, Step(s, t, c).clients[x].connected;
      match s.pcs[t]
      case SendWrite(_, id) => after == (before && (id != x || c.ok))
      case ReUpdate(id) => after == (before || id == x)
      case FetchRead(id, _) => after == (before && (id != x || c.ok))
      case _ => after == before
  {
  }

  // ---- What a thread goes through ----

  // A step of a thread: the state it was taken in, what the environment decided, and the state it led to.
  datatype Turn = Turn(s: State, c: Choice, after: State)

  // The steps of thread t in a run.
  function Turns(s: State, actions: seq<Action>, t: nat): seq<Turn>
    decreases |actions|
  {
    if actions == [] || !Possible(s, actions[0]) then []
    else
      var a, s1 := actions[0], Perform(s, actions[0]);
      (if a.Act? && a.t == t then [Turn(s, a.choice, s1)] else []) + Turns(s1, actions[1..], t)
  }

  // What thread t has done to descriptors.
  function LogBy(log: seq<Entry>, t: nat): seq<Io> {
    if log == [] then []
    else
      var e := log[|log| - 1];
      LogBy(log[..|log| - 1], t) + if e.thread == t then [e.io] else []
  }

  // Thread t has not moved from s to u, and the clients whose mutex it holds are as they were.
  ghost predicate Still(s: State, u: State, t: nat) {
    && t < |s.pcs| == |u.pcs| && u.pcs[t] == s.pcs[t]
    && LogBy(u.log, t) == LogBy(s.log, t) && u.clients.Keys == s.clients.Keys
    && forall x :: x in s.clients && s.clients[x].owner == Some(t) ==> u.clients[x] == s.clients[x]
  }

  // Thread t has gone on to `next`, and has done `ios` to descriptors.
  ghost predicate Took(s: State, s1: State, t: nat, next: Pc, ios: seq<Io>) {
    && t < |s.pcs| == |s1.pcs| && s1.pcs[t] == next && s1.clients.Keys == s.clients.Keys
    && LogBy(s1.log, t) == LogBy(s.log, t) + ios
  }

  ghost predicate Gained(s: State, s': State, t: nat, ios: seq<Io>) {
    LogBy(s'.log, t) == LogBy(s.log, t) + ios
  }

  // The turn is a possible step of thread t.
  ghost predicate Legal(turn: Turn, t: nat) {
    && Inv(turn.s) && t < |turn.s.pcs| && Known(turn.s.pcs[t], turn.s.clients)
    && Enabled(turn.s, turn.s.pcs[t]) && Suits(turn.s, turn.s.pcs[t], turn.c) && turn.after == Step(turn.s, t, turn.c)
  }

  ghost predicate AllLegal(turns: seq<Turn>, t: nat) {
    forall i :: 0 <= i < |turns| ==> Legal(turns[i], t)
  }

  // The turns lead thread t from s to s'.
  ghost predicate Chain(s: State, turns: seq<Turn>, s': State, t: nat)
    decreases |turns|
  {
    if turns == [] then Still(s, s', t)
    else Still(s, turns[0].s, t) && Chain(turns[0].after, turns[1..], s', t)
  }

  lemma LogMore(log: seq<Entry>, e: Entry, t: nat)
    ensures LogBy(log + [e], t) == LogBy(log, t) + if e.thread == t then [e.io] else []
  {
    assert (log + [e])[..|log|] == log;
  }

  // Another thread's step does not concern t, nor a client whose mutex t holds.
  lemma OtherStep(s: State, a: Action, t: nat)
    requires Inv(s) && t < |s.pcs| && Possible(s, a) && a.t != t
    ensures Still(s, Perform(s, a), t)
  {
    if a.Act? {
      PlanSound(s, s.pcs[a.t], a.choice);
      var mv := Plan(s, s.pcs[a.t], a.choice);
      if mv.io.Some? {
        LogMore(s.log, Entry(a.t, mv.io.value), t);
      }
    }
  }

  lemma StillThen(s: State, u: State, turns: seq<Turn>, s': State, t: nat)
    requires Still(s, u, t) && Chain(u, turns, s', t)
    ensures Chain(s, turns, s', t)
  {
  }

  lemma OwnThen(turn: Turn, rest: seq<Turn>, s': State, t: nat)
    requires Chain(turn.after, rest, s', t) && t < |turn.s.pcs|
    ensures Chain(turn.s, [turn] + rest, s', t)
  {
    assert ([turn] + rest)[1..] == rest;
  }

  lemma TurnsMore(s: State, actions: seq<Action>, t: nat, s1: State, rest: seq<Turn>)
    requires actions != [] && Possible(s, actions[0]) && s1 == Perform(s, actions[0])
    requires rest == Turns(s1, actions[1..], t)
    ensures Turns(s, actions, t)
         == if actions[0].Act? && actions[0].t == t then [Turn(s, actions[0].choice, s1)] + rest else rest
  {
  }

  // In every run in which thread t begins no call, its turns lead it from the first state to the last.
  lemma {:induction false} TurnsLead(s: State, actions: seq<Action>, s': State, t: nat)
    requires Inv(s) && t < |s.pcs| && Runs(s, actions, s')
    requires forall a :: a in actions ==> !(a.Begin? && a.t == t)
    ensures Chain(s, Turns(s, actions, t), s', t) && AllLegal(Turns(s, actions, t), t)
    decreases |actions|
  {
    if actions != [] {
      var a, s1 := actions[0], Perform(s, actions[0]);
      assert a in actions && forall b :: b in actions[1..] ==> b in actions;
      PerformKeepsInv(s, a);
      var rest := Turns(s1, actions[1..], t);
      TurnsLead(s1, actions[1..], s', t);
      TurnsMore(s, actions, t, s1, rest);
      if a.t != t {
        OtherStep(s, a, t);
        StillThen(s, s1, rest, s', t);
      } else {
        OwnThen(Turn(s, a.choice, s1), rest, s', t);
      }
    }
  }

  function Ios(io: Option<Io>): seq<Io> {
    if io.Some? then [io.value] else []
  }

  // A turn does what was planned.
  lemma OwnStep(turn: Turn, t: nat, mv: Move)
    requires Legal(turn, t) && mv == Plan(turn.s, turn.s.pcs[t], turn.c)
    ensures Took(turn.s, turn.after, t, mv.next, Ios(mv.io))
  {
    if mv.io.Some? {
      LogMore(turn.s.log, Entry(t, mv.io.value), t);
    } else {
      assert LogBy(turn.s.log, t) + [] == LogBy(turn.s.log, t);
    }
  }

  lemma Held(s: State, t: nat, x: nat)
    requires Inv(s) && t < |s.pcs| && x in Holds(s.pcs[t]) && x in s.clients
    ensures s.clients[x].owner == Some(t)
  {
  }

  lemma SilentGain(s: State, turn: Turn, next: Pc, ios: seq<Io>, s': State, t: nat)
    requires Still(s, turn.s, t) && Took(turn.s, turn.after, t, next, []) && Gained(turn.after, s', t, ios)
    ensures Gained(s, s', t, ios)
  {
  }

  // A thread between calls takes no turn.
  lemma NoMore(s: State, turns: seq<Turn>, s': State, t: nat)
    requires Chain(s, turns, s', t) && t < |s.pcs| && s.pcs[t] == Idle
    requires forall i :: 0 <= i < |turns| ==> t < |turns[i].s.pcs| && turns[i].s.pcs[t] != Idle
    ensures turns == [] && Gained(s, s', t, [])
  {
  }

  predicate Stands(turn: Turn, t: nat, pc: Pc) {
    t < |turn.s.pcs| && turn.s.pcs[t] == pc
  }

  // ---- send_response and send_notification ----

  // What the write step of a send does: a notification is not written to a client that is not connected.
  function SendIo(k: Kind, id: nat, s: State, ok: bool): seq<Io>
    requires id in s.clients
  {
    if k == Notification && !s.clients[id].connected then [] else [Write(k, id, ok)]
  }

  // A turn of a send call to a client.
  ghost predicate SendMove(turn: Turn, t: nat, k: Kind, id: nat) {
    && t < |turn.s.pcs| && turn.s.pcs[t] != Idle
    && match turn.s.pcs[t]
       case SendLock(_, _) => turn.s.pcs[t] == SendLock(k, id) ==> Took(turn.s, turn.after, t, SendFind(k, id), [])
       case SendFind(_, _) =>
         turn.s.pcs[t] == SendFind(k, id) ==>
         Took(turn.s, turn.after, t, if id in turn.s.clients then SendClient(k, id) else SendMissing, [])
       case SendMissing => Took(turn.s, turn.after, t, Idle, [])
       case SendClient(_, _) =>
         turn.s.pcs[t] == SendClient(k, id) ==> Took(turn.s, turn.after, t, SendRelease(k, id), [])
       case SendRelease(_, _) =>
         turn.s.pcs[t] == SendRelease(k, id) ==> Took(turn.s, turn.after, t, SendWrite(k, id), [])
       case SendWrite(_, _) =>
         turn.s.pcs[t] == SendWrite(k, id) ==>
         && id in turn.s.clients && turn.s.clients[id].owner == Some(t)
         && Took(turn.s, turn.after, t, SendDone(id), SendIo(k, id, turn.s, turn.c.ok))
       case SendDone(_) => Took(turn.s, turn.after, t, Idle, [])
       case _ => true
  }

  ghost predicate SendMoves(turns: seq<Turn>, t: nat, k: Kind, id: nat) {
    forall i :: 0 <= i < |turns| ==> SendMove(turns[i], t, k, id)
  }

  lemma LegalSendTurn(turn: Turn, t: nat, k: Kind, id: nat)
    requires Legal(turn, t)
    ensures SendMove(turn, t, k, id)
  {
    OwnStep(turn, t, Plan(turn.s, turn.s.pcs[t], turn.c));
    if turn.s.pcs[t] == SendWrite(k, id) {
      WriterHolds(turn.s, t, k, id);
    }
  }

  lemma LegalSend(turns: seq<Turn>, t: nat, k: Kind, id: nat)
    requires AllLegal(turns, t)
    ensures SendMoves(turns, t, k, id)
  {
    forall i | 0 <= i < |turns|
      ensures SendMove(turns[i], t, k, id)
    {
      LegalSendTurn(turns[i], t, k, id);
    }
  }

  lemma WriterHolds(s: State, t: nat, k: Kind, id: nat)
    requires Inv(s) && t < |s.pcs| && s.pcs[t] == SendWrite(k, id)
    ensures id in s.clients && s.clients[id].owner == Some(t)
  {
    assert Known(s.pcs[t], s.clients);
    Held(s, t, id);
  }

  // How many turns a send is before its write.
  function BeforeWrite(pc: Pc): nat {
    match pc
    case SendLock(_, _) => 4
    case SendFind(_, _) => 3
    case SendClient(_, _) => 2
    case SendRelease(_, _) => 1
    case _ => 0
  }

  predicate OnTheWay(pc: Pc, k: Kind, id: nat, known: bool) {
    || pc == SendLock(k, id) || pc == SendFind(k, id)
    || (known && (pc == SendClient(k, id) || pc == SendRelease(k, id) || pc == SendWrite(k, id)))
    || (!known && pc == SendMissing)
  }

  // What the turns of a send do from s on: the write and then the return, or the return alone.
  ghost predicate SendRest(s: State, turns: seq<Turn>, s': State, t: nat, k: Kind, id: nat)
    requires t < |s.pcs|
  {
    if id in s.clients then
      var w := BeforeWrite(s.pcs[t]);
      && |turns| == w + 2 && Stands(turns[w], t, SendWrite(k, id)) && Stands(turns[w + 1], t, SendDone(id))
      && (forall i :: 0 <= i < |turns| ==> !Stands(turns[i], t, SendMissing))
      && id in turns[w].s.clients && turns[w].s.clients[id].owner == Some(t)
      && Gained(s, s', t, SendIo(k, id, turns[w].s, turns[w].c.ok))
    else turns != [] && Stands(turns[|turns| - 1], t, SendMissing) && Gained(s, s', t, [])
  }

  // A turn before the write, or before the return of a send to an unknown client.
  ghost predicate SendOn(s: State, turn: Turn, t: nat, k: Kind, id: nat) {
    && t < |s.pcs| && t < |turn.after.pcs| && s.pcs[t] != SendMissing
    && Took(turn.s, turn.after, t, turn.after.pcs[t], [])
    && (id in s.clients <==> id in turn.after.clients)
    && (id in s.clients ==> BeforeWrite(s.pcs[t]) == BeforeWrite(turn.after.pcs[t]) + 1)
    && OnTheWay(turn.after.pcs[t], k, id, id in s.clients)
  }

  lemma SendNext(s: State, turn: Turn, t: nat, k: Kind, id: nat)
    requires Still(s, turn.s, t) && SendMove(turn, t, k, id) && OnTheWay(s.pcs[t], k, id, id in s.clients)
    requires s.pcs[t] != SendMissing && s.pcs[t] != SendWrite(k, id)
    ensures SendOn(s, turn, t, k, id)
  {
  }

  lemma SendSilent(s: State, turns: seq<Turn>, s': State, t: nat, k: Kind, id: nat)
    requires turns != [] && Still(s, turns[0].s, t) && SendOn(s, turns[0], t, k, id)
    requires SendRest(turns[0].after, turns[1..], s', t, k, id)
    ensures SendRest(s, turns, s', t, k, id)
  {
    assert forall i :: 1 <= i < |turns| ==> turns[i] == turns[1..][i - 1];
  }

  lemma SendEnds(s: State, turns: seq<Turn>, s': State, t: nat, k: Kind, id: nat, pc: Pc)
    requires Chain(s, turns, s', t) && SendMoves(turns, t, k, id) && t < |s.pcs| && t < |s'.pcs|
    requires s.pcs[t] == pc && (pc == SendMissing || pc.SendDone?) && s'.pcs[t] == Idle
    ensures |turns| == 1 && Stands(turns[0], t, pc) && Gained(s, s', t, [])
  {
    NoMore(turns[0].after, turns[1..], s', t);
  }

  lemma SendWrites(s: State, turns: seq<Turn>, s': State, t: nat, k: Kind, id: nat)
    requires Chain(s, turns, s', t) && SendMoves(turns, t, k, id) && t < |s.pcs| && t < |s'.pcs|
    requires s.pcs[t] == SendWrite(k, id) && id in s.clients && s'.pcs[t] == Idle
    ensures SendRest(s, turns, s', t, k, id)
  {
    SendEnds(turns[0].after, turns[1..], s', t, k, id, SendDone(id));
    assert turns[1] == turns[1..][0];
  }

  lemma {:induction false} SendFollows(s: State, turns: seq<Turn>, s': State, t: nat, k: Kind, id: nat)
    requires Chain(s, turns, s', t) && SendMoves(turns, t, k, id) && t < |s.pcs| && t < |s'.pcs| && s'.pcs[t] == Idle
    requires OnTheWay(s.pcs[t], k, id, id in s.clients)
    ensures SendRest(s, turns, s', t, k, id)
    decreases |turns|
  {
    if s.pcs[t] == SendMissing {
      SendEnds(s, turns, s', t, k, id, SendMissing);
    } else if s.pcs[t] == SendWrite(k, id) {
      SendWrites(s, turns, s', t, k, id);
    } else {
      SendNext(s, turns[0], t, k, id);
      SendFollows(turns[0].after, turns[1..], s', t, k, id);
      SendSilent(s, turns, s', t, k, id);
    }
  }

  // From one turn to the next.
  lemma {:induction false} ChainAt(s: State, turns: seq<Turn>, s': State, t: nat, i: nat)
    requires Chain(s, turns, s', t) && i + 1 < |turns|
    ensures Still(turns[i].after, turns[i + 1].s, t)
    decreases i
  {
    if i > 0 {
      ChainAt(turns[0].after, turns[1..], s', t, i - 1);
    }
  }

  // The client as t finds it again in its next turn, having kept its mutex.
  lemma ClientKept(turn: Turn, w: State, t: nat, x: nat)
    requires Legal(turn, t) && Still(turn.after, w, t) && x in turn.s.clients
    requires t < |turn.after.pcs| && x in Holds(turn.after.pcs[t])
    ensures x in turn.after.clients && x in w.clients && w.clients[x] == turn.after.clients[x]
    ensures w.clients[x].owner == Some(t)
  {
    ConnectedChanges(turn.s, t, turn.c, x);
    StepKeepsInv(turn.s, t, turn.c);
    Held(turn.after, t, x);
  }

  // A run of thread t from the beginning of a call to its return.
  ghost predicate CallRun(s: State, actions: seq<Action>, s': State, t: nat) {
    && Inv(s) && t < |s.pcs| && t < |s'.pcs| && s'.pcs[t] == Idle && Runs(s, actions, s')
    && forall a :: a in actions ==> !(a.Begin? && a.t == t)
  }

  // Whatever the other threads do, a send call reports a missing client exactly when the client is not in the map, and
  // then does nothing. Otherwise it writes once, under the client's mutex, except that a notification is not written to
  // a client that is not connected; and it leaves the client connected if it was and the write did not fail.
  lemma SendCall(s: State, actions: seq<Action>, s': State, t: nat, k: Kind, id: nat)
    requires CallRun(s, actions, s', t) && s.pcs[t] == SendLock(k, id)
    ensures
      var turns := Turns(s, actions, t);
      && (id !in s.clients <==> exists turn :: turn in turns && Stands(turn, t, SendMissing))
      && (id !in s.clients ==> LogBy(s'.log, t) == LogBy(s.log, t))
      && (id in s.clients ==>
          && |turns| == 6 && Stands(turns[4], t, SendWrite(k, id)) && Stands(turns[5], t, SendDone(id))
          && id in turns[4].s.clients && id in turns[5].s.clients
          && var before, after, ok := turns[4].s.clients[id], turns[5].s.clients[id], turns[4].c.ok;
          && before.owner == Some(t) && after.owner == Some(t)
          && after.connected == (before.connected && ok)
          && LogBy(s'.log, t) == LogBy(s.log, t)
             + if k == Notification && !before.connected then [] else [Write(k, id, ok)])
  {
    var turns := Turns(s, actions, t);
    TurnsLead(s, actions, s', t);
    LegalSend(turns, t, k, id);
    SendFollows(s, turns, s', t, k, id);
    if id in s.clients {
      SendLeaves(s, turns, s', t, k, id);
    }
  }

  lemma SendLeaves(s: State, turns: seq<Turn>, s': State, t: nat, k: Kind, id: nat)
    requires Chain(s, turns, s', t) && AllLegal(turns, t) && id in s.clients
    requires t < |s.pcs| && s.pcs[t] == SendLock(k, id) && SendRest(s, turns, s', t, k, id)
    ensures id in turns[5].s.clients && turns[5].s.clients[id].owner == Some(t)
    ensures turns[5].s.clients[id].connected == (turns[4].s.clients[id].connected && turns[4].c.ok)
  {
    ChainAt(s, turns, s', t, 4);
    WriteLeaves(turns[4], turns[5].s, t, k, id);
  }

  lemma WriteLeaves(turn: Turn, w: State, t: nat, k: Kind, id: nat)
    requires Legal(turn, t) && turn.s.pcs[t] == SendWrite(k, id) && Still(turn.after, w, t) && w.pcs[t] == SendDone(id)
    ensures id in w.clients && w.clients[id].owner == Some(t)
    ensures w.clients[id].connected == (turn.s.clients[id].connected && turn.c.ok)
  {
    ClientKept(turn, w, t, id);
    ConnectedChanges(turn.s, t, turn.c, id);
  }

  // ---- handle_reconnecting_client ----

  ghost predicate ReconnectMove(turn: Turn, t: nat, id: nat) {
    && t < |turn.s.pcs| && turn.s.pcs[t] != Idle
    && (turn.s.pcs[t] == ReLock(id) ==> Took(turn.s, turn.after, t, ReUpdate(id), []))
    && (turn.s.pcs[t] == ReUpdate(id) ==>
        && id in turn.s.clients
        && Took(turn.s, turn.after, t, ReDone(id), [if turn.s.clients[id].connected then Reject(id) else Adopt(id)]))
    && (turn.s.pcs[t] == ReDone(id) ==> Took(turn.s, turn.after, t, Idle, []))
  }

  lemma ReconnectStep(turn: Turn, t: nat, id: nat)
    requires Legal(turn, t)
    ensures ReconnectMove(turn, t, id)
  {
    OwnStep(turn, t, Plan(turn.s, turn.s.pcs[t], turn.c));
  }

  ghost predicate ReconnectMoves(turns: seq<Turn>, t: nat, id: nat) {
    forall i :: 0 <= i < |turns| ==> ReconnectMove(turns[i], t, id)
  }

  lemma LegalReconnect(turns: seq<Turn>, t: nat, id: nat)
    requires AllLegal(turns, t)
    ensures ReconnectMoves(turns, t, id)
  {
    forall i | 0 <= i < |turns|
      ensures ReconnectMove(turns[i], t, id)
    {
      ReconnectStep(turns[i], t, id);
    }
  }

  lemma ReconnectLeaves(turn: Turn, w: State, t: nat, id: nat)
    requires Legal(turn, t) && turn.s.pcs[t] == ReUpdate(id) && Still(turn.after, w, t) && w.pcs[t] == ReDone(id)
    ensures id in turn.s.clients && turn.s.clients[id].owner == Some(t)
    ensures id in w.clients && w.clients[id] == Client(Some(t), true)
  {
    Held(turn.s, t, id);
    ClientKept(turn, w, t, id);
    ConnectedChanges(turn.s, t, turn.c, id);
  }

  // A reconnect takes over the new descriptors if the client is not connected when it has the client's mutex, and
  // closes them if it is; in both cases the client is connected when the mutex is given up.
  lemma ReconnectCall(s: State, actions: seq<Action>, s': State, t: nat, id: nat)
    requires CallRun(s, actions, s', t) && s.pcs[t] == ReLock(id)
    ensures
      var turns := Turns(s, actions, t);
      && |turns| == 3 && Stands(turns[1], t, ReUpdate(id)) && Stands(turns[2], t, ReDone(id))
      && id in turns[1].s.clients && id in turns[2].s.clients
      && turns[1].s.clients[id].owner == Some(t) && turns[2].s.clients[id] == Client(Some(t), true)
      && LogBy(s'.log, t) == LogBy(s.log, t) + [if turns[1].s.clients[id].connected then Reject(id) else Adopt(id)]
  {
    var turns := Turns(s, actions, t);
    TurnsLead(s, actions, s', t);
    LegalReconnect(turns, t, id);
    ReconnectFollows(s, turns, s', t, id);
    ChainAt(s, turns, s', t, 1);
    ReconnectLeaves(turns[1], turns[2].s, t, id);
  }

  lemma ReconnectEnds(s: State, turns: seq<Turn>, s': State, t: nat, id: nat)
    requires Chain(s, turns, s', t) && ReconnectMoves(turns, t, id) && t < |s.pcs| && t < |s'.pcs|
    requires s.pcs[t] == ReDone(id) && s'.pcs[t] == Idle
    ensures |turns| == 1 && Stands(turns[0], t, ReDone(id)) && Gained(s, s', t, [])
  {
    NoMore(turns[0].after, turns[1..], s', t);
  }

  lemma ReconnectUpdates(s: State, turns: seq<Turn>, s': State, t: nat, id: nat)
    requires Chain(s, turns, s', t) && ReconnectMoves(turns, t, id) && t < |s.pcs| && t < |s'.pcs|
    requires s.pcs[t] == ReUpdate(id) && s'.pcs[t] == Idle
    ensures |turns| == 2 && Stands(turns[0], t, ReUpdate(id)) && Stands(turns[1], t, ReDone(id))
    ensures id in turns[0].s.clients
    ensures Gained(s, s', t, [if turns[0].s.clients[id].connected then Reject(id) else Adopt(id)])
  {
    ReconnectEnds(turns[0].after, turns[1..], s', t, id);
    assert turns[1] == turns[1..][0];
  }

  lemma ReconnectFollows(s: State, turns: seq<Turn>, s': State, t: nat, id: nat)
    requires Chain(s, turns, s', t) && ReconnectMoves(turns, t, id) && t < |s.pcs| && t < |s'.pcs|
    requires s.pcs[t] == ReLock(id) && s'.pcs[t] == Idle
    ensures |turns| == 3 && Stands(turns[1], t, ReUpdate(id)) && Stands(turns[2], t, ReDone(id))
    ensures id in turns[1].s.clients
    ensures Gained(s, s', t, [if turns[1].s.clients[id].connected then Reject(id) else Adopt(id)])
  {
    ReconnectUpdates(turns[0].after, turns[1..], s', t, id);
    assert turns[1] == turns[1..][0] && turns[2] == turns[1..][1];
    var io := if turns[1].s.clients[id].connected then Reject(id) else Adopt(id);
    SilentGain(s, turns[0], ReUpdate(id), [io], s', t);
  }

  // ---- fetch_requests ----

  function Collect<T>(turns: seq<Turn>, f: Turn -> seq<T>): seq<T> {
    if turns == [] then [] else f(turns[0]) + Collect(turns[1..], f)
  }

  // The client a try_lock of the collecting loop, or of the reading loop, is for.
  function Tried(t: nat): Turn -> seq<nat> {
    (turn: Turn) =>
      if t < |turn.s.pcs| && turn.s.pcs[t].FetchTry? && turn.s.pcs[t].todo != [] then [turn.s.pcs[t].todo[0]] else []
  }

  function TriedToRead(t: nat): Turn -> seq<nat> {
    (turn: Turn) =>
      if t < |turn.s.pcs| && turn.s.pcs[t].FetchTryRead? && turn.s.pcs[t].todo != [] then [turn.s.pcs[t].todo[0]]
      else []
  }

  predicate Free(turn: Turn, ids: seq<nat>) {
    ids != [] && ids[0] in turn.s.clients && turn.s.clients[ids[0]].owner == None
  }

  // The same, if the mutex was free and the client connected at that moment.
  function Available(t: nat): Turn -> seq<nat> {
    (turn: Turn) =>
      var ids := Tried(t)(turn);
      if Free(turn, ids) && turn.s.clients[ids[0]].connected then ids else []
  }

  // The same in the reading loop, if the mutex was free.
  function FreeToRead(t: nat): Turn -> seq<nat> {
    (turn: Turn) =>
      var ids := TriedToRead(t)(turn);
      if Free(turn, ids) then ids else []
  }

  // The clients poll reports readable; none if it fails.
  function Readable(t: nat): Turn -> seq<nat> {
    (turn: Turn) => if t < |turn.s.pcs| && turn.s.pcs[t].FetchPoll? && turn.c.ok then turn.c.ready else []
  }

  function ReadOf(t: nat): Turn -> seq<Io> {
    (turn: Turn) =>
      if t < |turn.s.pcs| && turn.s.pcs[t].FetchRead? then [Read(turn.s.pcs[t].c, turn.c.ok)] else []
  }

  lemma GainedMore(s: State, turn: Turn, next: Pc, ios: seq<Io>, rest: seq<Io>, s': State, t: nat)
    requires Still(s, turn.s, t) && Took(turn.s, turn.after, t, next, ios) && Gained(turn.after, s', t, rest)
    ensures Gained(s, s', t, ios + rest)
  {
  }

  // One poll on the collected clients, then what was read; nothing if there are none.
  function PollAndRead(ids: seq<nat>, done: seq<Io>): seq<Io> {
    if ids == [] then [] else [Poll(ids)] + done
  }

  // What a fetch call does from where it stands, given what its turns try, find available and read.
  ghost predicate FetchRest(s: State, s': State, t: nat, tried: seq<nat>, avail: seq<nat>, done: seq<Io>)
    requires t < |s.pcs|
  {
    match s.pcs[t]
    case FetchLock =>
      Distinct(tried) && (forall x :: x in tried <==> x in s.clients) && Gained(s, s', t, PollAndRead(avail, done))
    case FetchTry(todo, got) => tried == todo && Gained(s, s', t, PollAndRead(got + avail, done))
    case FetchCheck(x, todo, got) =>
      var kept := if x in s.clients && s.clients[x].connected then [x] else [];
      tried == todo && Gained(s, s', t, PollAndRead(got + kept + avail, done))
    case FetchDrop(_, todo, got) => tried == todo && Gained(s, s', t, PollAndRead(got + avail, done))
    case FetchNone => tried == [] && avail == [] && Gained(s, s', t, [])
    case FetchUnlock(_, got) => tried == [] && avail == [] && Gained(s, s', t, [Poll(got)] + done)
    case FetchRelease(got) => tried == [] && avail == [] && Gained(s, s', t, [Poll(got)] + done)
    case FetchPoll(got) => tried == [] && avail == [] && Gained(s, s', t, [Poll(got)] + done)
    case Idle => tried == [] && avail == [] && done == [] && Gained(s, s', t, [])
    case _ => tried == [] && avail == [] && Gained(s, s', t, done)
  }

  predicate Collecting(pc: Pc) {
    || pc.FetchLock? || pc.FetchTry? || pc.FetchCheck? || pc.FetchDrop? || pc.FetchNone? || pc.FetchUnlock?
    || pc.FetchRelease?
  }

  predicate Reading(pc: Pc) {
    pc.FetchPoll? || pc.FetchTryRead? || pc.FetchRead? || pc.FetchReadDone?
  }

  // A turn of the collecting part of fetch_requests; it does nothing to descriptors.
  ghost predicate CollectMove(turn: Turn, t: nat, pc: Pc, next: Pc) {
    && Took(turn.s, turn.after, t, next, [])
    && match pc
       case FetchLock =>
         next.FetchTry? && next.got == [] && Distinct(next.todo) && forall x :: x in next.todo <==> x in turn.s.clients
       case FetchTry(todo, got) =>
         if todo == [] then next == if got == [] then FetchNone else FetchUnlock(got, got)
         else if Free(turn, todo) then
           && next == FetchCheck(todo[0], todo[1..], got)
           && turn.after.clients[todo[0]] == Client(Some(t), turn.s.clients[todo[0]].connected)
         else next == FetchTry(todo[1..], got)
       case FetchCheck(x, todo, got) =>
         && x in turn.s.clients
         && next == if turn.s.clients[x].connected then FetchTry(todo, got + [x]) else FetchDrop(x, todo, got)
       case FetchDrop(_, todo, got) => next == FetchTry(todo, got)
       case FetchNone => next == Idle
       case FetchUnlock(_, got) => next == FetchRelease(got) || (next.FetchUnlock? && next.got == got)
       case FetchRelease(got) => next == FetchPoll(got)
       case _ => true
  }

  // A turn of the reading part.
  ghost predicate ReadMove(turn: Turn, t: nat, pc: Pc, next: Pc) {
    match pc
    case FetchPoll(got) =>
      next == (if turn.c.ok then FetchTryRead(turn.c.ready) else Idle) && Took(turn.s, turn.after, t, next, [Poll(got)])
    case FetchTryRead(todo) =>
      && Took(turn.s, turn.after, t, next, [])
      && next == if todo == [] then Idle
                 else if Free(turn, todo) then FetchRead(todo[0], todo[1..]) else FetchTryRead(todo[1..])
    case FetchRead(x, todo) =>
      next == FetchReadDone(x, todo) && Took(turn.s, turn.after, t, next, [Read(x, turn.c.ok)])
    case FetchReadDone(_, todo) => next == FetchTryRead(todo) && Took(turn.s, turn.after, t, next, [])
    case _ => true
  }

  lemma CollectStep(turn: Turn, t: nat)
    requires Legal(turn, t) && Collecting(turn.s.pcs[t])
    ensures t < |turn.after.pcs| && CollectMove(turn, t, turn.s.pcs[t], turn.after.pcs[t])
  {
    OwnStep(turn, t, Plan(turn.s, turn.s.pcs[t], turn.c));
  }

  lemma ReadStep(turn: Turn, t: nat)
    requires Legal(turn, t) && Reading(turn.s.pcs[t])
    ensures t < |turn.after.pcs| && ReadMove(turn, t, turn.s.pcs[t], turn.after.pcs[t])
  {
    OwnStep(turn, t, Plan(turn.s, turn.s.pcs[t], turn.c));
  }

  // The turns of a fetch call.
  ghost predicate FetchMove(turn: Turn, t: nat) {
    && t < |turn.s.pcs| == |turn.after.pcs| && turn.s.pcs[t] != Idle
    && (Collecting(turn.s.pcs[t]) ==> CollectMove(turn, t, turn.s.pcs[t], turn.after.pcs[t]))
    && (Reading(turn.s.pcs[t]) ==> ReadMove(turn, t, turn.s.pcs[t], turn.after.pcs[t]))
  }

  ghost predicate FetchMoves(turns: seq<Turn>, t: nat) {
    forall i :: 0 <= i < |turns| ==> FetchMove(turns[i], t)
  }

  lemma LegalFetch(turns: seq<Turn>, t: nat)
    requires AllLegal(turns, t)
    ensures FetchMoves(turns, t)
  {
    forall i | 0 <= i < |turns|
      ensures FetchMove(turns[i], t)
    {
      assert Legal(turns[i], t);
      if Collecting(turns[i].s.pcs[t]) {
        CollectStep(turns[i], t);
      } else if Reading(turns[i].s.pcs[t]) {
        ReadStep(turns[i], t);
      }
    }
  }

  // A thread that is about to check a client has its mutex.
  predicate CheckerHolds(s: State, t: nat)
    requires t < |s.pcs|
  {
    s.pcs[t].FetchCheck? ==> s.pcs[t].c in s.clients && s.clients[s.pcs[t].c].owner == Some(t)
  }

  // A turn that does nothing to descriptors.
  lemma Silent(s: State, turn: Turn, next: Pc, s': State, t: nat)
    requires Still(s, turn.s, t) && Took(turn.s, turn.after, t, next, [])
    ensures forall ios :: Gained(turn.after, s', t, ios) ==> Gained(s, s', t, ios)
  {
  }

  // A turn in front of the rest of a fetch call.
  ghost predicate FetchTurn(s: State, turn: Turn, s': State, t: nat, tried: seq<nat>, avail: seq<nat>, done: seq<Io>) {
    && Still(s, turn.s, t) && FetchMove(turn, t) && CheckerHolds(s, t)
    && FetchRest(turn.after, s', t, tried, avail, done)
  }

  lemma TryEnds(s: State, turn: Turn, s': State, t: nat, tried: seq<nat>, avail: seq<nat>, done: seq<Io>)
    requires FetchTurn(s, turn, s', t, tried, avail, done) && s.pcs[t].FetchTry? && s.pcs[t].todo == []
    ensures FetchRest(s, s', t, tried, avail, done) && Tried(t)(turn) == [] && Available(t)(turn) == []
  {
    Silent(s, turn, turn.after.pcs[t], s', t);
    assert avail == [] && s.pcs[t].got + avail == s.pcs[t].got;
  }

  // A client that is available when it is tried is collected, and no other.
  lemma TryOne(s: State, turn: Turn, s': State, t: nat, tried: seq<nat>, avail: seq<nat>, done: seq<Io>, x: nat)
    requires FetchTurn(s, turn, s', t, tried, avail, done) && s.pcs[t].FetchTry?
    requires s.pcs[t].todo != [] && s.pcs[t].todo[0] == x
    ensures FetchRest(s, s', t, [x] + tried, Available(t)(turn) + avail, done) && Tried(t)(turn) == [x]
  {
    var todo, got := s.pcs[t].todo, s.pcs[t].got;
    TryHead(turn, t, todo, got);
    TryGain(turn, s', t, todo, got, tried, avail, done);
    TryEffect(s, turn, turn.after.pcs[t], s', t, todo, got, Available(t)(turn), avail, done);
  }

  lemma TryEffect(s: State, turn: Turn, next: Pc, s': State, t: nat, todo: seq<nat>, got: seq<nat>, kept: seq<nat>,
                  avail: seq<nat>, done: seq<Io>)
    requires Still(s, turn.s, t) && s.pcs[t] == FetchTry(todo, got) && todo != []
    requires Took(turn.s, turn.after, t, next, [])
    requires Gained(turn.after, s', t, PollAndRead(got + kept + avail, done))
    ensures FetchRest(s, s', t, [todo[0]] + todo[1..], kept + avail, done)
  {
    assert todo == [todo[0]] + todo[1..];
    assert got + (kept + avail) == got + kept + avail;
    SilentGain(s, turn, next, PollAndRead(got + kept + avail, done), s', t);
  }

  lemma TryGain(turn: Turn, s': State, t: nat, todo: seq<nat>, got: seq<nat>, tried: seq<nat>, avail: seq<nat>,
                done: seq<Io>)
    requires FetchMove(turn, t) && turn.s.pcs[t] == FetchTry(todo, got) && todo != []
    requires FetchRest(turn.after, s', t, tried, avail, done)
    ensures tried == todo[1..] && Gained(turn.after, s', t, PollAndRead(got + Available(t)(turn) + avail, done))
  {
    TryHead(turn, t, todo, got);
    if !Free(turn, todo) {
      assert got + [] + avail == got + avail;
    }
  }

  lemma TryHead(turn: Turn, t: nat, todo: seq<nat>, got: seq<nat>)
    requires FetchMove(turn, t) && turn.s.pcs[t] == FetchTry(todo, got) && todo != []
    ensures Tried(t)(turn) == [todo[0]]
    ensures Available(t)(turn) == if Free(turn, todo) && turn.s.clients[todo[0]].connected then [todo[0]] else []
    ensures Took(turn.s, turn.after, t, turn.after.pcs[t], [])
    ensures
      if Free(turn, todo) then
        && turn.after.pcs[t] == FetchCheck(todo[0], todo[1..], got)
        && todo[0] in turn.after.clients
        && turn.after.clients[todo[0]].connected == turn.s.clients[todo[0]].connected
      else turn.after.pcs[t] == FetchTry(todo[1..], got)
  {
    assert Free(turn, [todo[0]]) <==> Free(turn, todo);
  }

  lemma CollectTurn(s: State, turn: Turn, s': State, t: nat, tried: seq<nat>, avail: seq<nat>, done: seq<Io>)
    requires FetchTurn(s, turn, s', t, tried, avail, done) && Collecting(s.pcs[t]) && !s.pcs[t].FetchTry?
    ensures FetchRest(s, s', t, tried, avail, done)
  {
    Silent(s, turn, turn.after.pcs[t], s', t);
    match s.pcs[t]
    case FetchCheck(x, _, got) => assert got + [] == got;
    case FetchLock => assert [] + avail == avail;
    case _ =>
  }

  lemma ReadTurn(s: State, turn: Turn, s': State, t: nat, tried: seq<nat>, avail: seq<nat>, done: seq<Io>)
    requires FetchTurn(s, turn, s', t, tried, avail, done) && Reading(s.pcs[t])
    ensures FetchRest(s, s', t, tried, avail, ReadOf(t)(turn) + done)
  {
    var next := turn.after.pcs[t];
    assert [] + done == done;
    if s.pcs[t].FetchPoll? {
      GainedMore(s, turn, next, [Poll(s.pcs[t].got)], done, s', t);
    } else if s.pcs[t].FetchRead? {
      GainedMore(s, turn, next, [Read(s.pcs[t].c, turn.c.ok)], done, s', t);
    } else {
      Silent(s, turn, next, s', t);
    }
  }

  lemma {:induction false} FetchFollows(s: State, turns: seq<Turn>, s': State, t: nat)
    requires Chain(s, turns, s', t) && FetchMoves(turns, t) && t < |s.pcs| && t < |s'.pcs| && s'.pcs[t] == Idle
    requires (Collecting(s.pcs[t]) || Reading(s.pcs[t]) || s.pcs[t] == Idle) && CheckerHolds(s, t)
    ensures FetchRest(s, s', t, Collect(turns, Tried(t)), Collect(turns, Available(t)), Collect(turns, ReadOf(t)))
    decreases |turns|
  {
    if turns != [] {
      var turn, rest := turns[0], turns[1..];
      FetchNext(s, turn, t);
      FetchFollows(turn.after, rest, s', t);
      var tried, avail, done := Collect(rest, Tried(t)), Collect(rest, Available(t)), Collect(rest, ReadOf(t));
      FetchCons(s, turn, s', t, tried, avail, done);
    }
  }

  lemma FetchNext(s: State, turn: Turn, t: nat)
    requires Still(s, turn.s, t) && FetchMove(turn, t)
    requires Collecting(s.pcs[t]) || Reading(s.pcs[t]) || s.pcs[t] == Idle
    ensures s.pcs[t] != Idle && CheckerHolds(turn.after, t)
    ensures var next := turn.after.pcs[t]; Collecting(next) || Reading(next) || next == Idle
  {
  }

  lemma FetchCons(s: State, turn: Turn, s': State, t: nat, tried: seq<nat>, avail: seq<nat>, done: seq<Io>)
    requires FetchTurn(s, turn, s', t, tried, avail, done) && (Collecting(s.pcs[t]) || Reading(s.pcs[t]))
    ensures FetchRest(s, s', t, Tried(t)(turn) + tried, Available(t)(turn) + avail, ReadOf(t)(turn) + done)
  {
    assert [] + tried == tried && [] + avail == avail && [] + done == done;
    if s.pcs[t].FetchTry? {
      if s.pcs[t].todo == [] {
        TryEnds(s, turn, s', t, tried, avail, done);
      } else {
        TryOne(s, turn, s', t, tried, avail, done, s.pcs[t].todo[0]);
      }
    } else if Collecting(s.pcs[t]) {
      CollectTurn(s, turn, s', t, tried, avail, done);
    } else {
      ReadTurn(s, turn, s', t, tried, avail, done);
    }
  }

  // ---- The reading loop ----

  function ReadId(t: nat): Turn -> seq<nat> {
    (turn: Turn) => if t < |turn.s.pcs| && turn.s.pcs[t].FetchRead? then [turn.s.pcs[t].c] else []
  }

  // The clients tried in the reading loop are those poll reported, and those read from are the free ones among them.
  predicate ReadsRest(pc: Pc, tried: seq<nat>, readable: seq<nat>, free: seq<nat>, done: seq<nat>) {
    match pc
    case FetchTryRead(todo) => tried == todo && readable == [] && done == free
    case FetchRead(x, todo) => tried == todo && readable == [] && done == [x] + free
    case FetchReadDone(_, todo) => tried == todo && readable == [] && done == free
    case Idle => tried == [] && readable == [] && done == [] && free == []
    case _ => tried == readable && done == free
  }

  lemma ReadTried(turn: Turn, t: nat, todo: seq<nat>)
    requires FetchMove(turn, t) && turn.s.pcs[t] == FetchTryRead(todo) && todo != []
    ensures TriedToRead(t)(turn) == [todo[0]] && Readable(t)(turn) == [] && ReadId(t)(turn) == []
    ensures FreeToRead(t)(turn) == if Free(turn, todo) then [todo[0]] else []
    ensures turn.after.pcs[t] == if Free(turn, todo) then FetchRead(todo[0], todo[1..]) else FetchTryRead(todo[1..])
  {
    assert Free(turn, [todo[0]]) <==> Free(turn, todo);
  }

  lemma CollectReadsNothing(turn: Turn, t: nat, tried: seq<nat>, readable: seq<nat>, free: seq<nat>, done: seq<nat>)
    requires FetchMove(turn, t) && Collecting(turn.s.pcs[t])
    requires ReadsRest(turn.after.pcs[t], tried, readable, free, done)
    ensures ReadsRest(turn.s.pcs[t], tried, readable, free, done)
    ensures TriedToRead(t)(turn) == [] && Readable(t)(turn) == [] && FreeToRead(t)(turn) == [] && ReadId(t)(turn) == []
  {
  }

  lemma ReadsCons(turn: Turn, t: nat, tried: seq<nat>, readable: seq<nat>, free: seq<nat>, done: seq<nat>)
    requires FetchMove(turn, t) && (Collecting(turn.s.pcs[t]) || Reading(turn.s.pcs[t]))
    requires ReadsRest(turn.after.pcs[t], tried, readable, free, done)
    ensures ReadsRest(turn.s.pcs[t], TriedToRead(t)(turn) + tried, Readable(t)(turn) + readable,
                      FreeToRead(t)(turn) + free, ReadId(t)(turn) + done)
  {
    var pc := turn.s.pcs[t];
    assert [] + tried == tried && [] + readable == readable && [] + free == free && [] + done == done;
    if Collecting(pc) {
      CollectReadsNothing(turn, t, tried, readable, free, done);
    } else if pc.FetchTryRead? && pc.todo != [] {
      ReadTried(turn, t, pc.todo);
      assert pc.todo == [pc.todo[0]] + pc.todo[1..];
    } else if pc.FetchPoll? {
      assert turn.c.ready + [] == turn.c.ready;
    }
  }

  lemma {:induction false} ReadsFollow(s: State, turns: seq<Turn>, s': State, t: nat)
    requires Chain(s, turns, s', t) && FetchMoves(turns, t) && t < |s.pcs| && t < |s'.pcs| && s'.pcs[t] == Idle
    requires Collecting(s.pcs[t]) || Reading(s.pcs[t]) || s.pcs[t] == Idle
    ensures ReadsRest(s.pcs[t], Collect(turns, TriedToRead(t)), Collect(turns, Readable(t)),
                      Collect(turns, FreeToRead(t)), Collect(turns, ReadId(t)))
    decreases |turns|
  {
    if turns != [] {
      var turn, rest := turns[0], turns[1..];
      FetchNext(s, turn, t);
      ReadsFollow(turn.after, rest, s', t);
      ReadsCons(turn, t, Collect(rest, TriedToRead(t)), Collect(rest, Readable(t)),
                Collect(rest, FreeToRead(t)), Collect(rest, ReadId(t)));
    }
  }

  // Whatever the other threads do, a fetch call tries the mutex of every client exactly once, polls exactly the clients
  // whose mutex was free and that were connected at that moment, returning at once if there are none, then tries those
  // poll reported, in order, and reads from exactly those whose mutex is free. It does nothing else.
  lemma FetchCall(s: State, actions: seq<Action>, s': State, t: nat)
    requires CallRun(s, actions, s', t) && s.pcs[t] == FetchLock
    ensures
      var turns := Turns(s, actions, t);
      var tried, polled, done := Collect(turns, Tried(t)), Collect(turns, Available(t)), Collect(turns, ReadOf(t));
      && Distinct(tried) && (forall x :: x in tried <==> x in s.clients)
      && LogBy(s'.log, t) == LogBy(s.log, t) + (if polled == [] then [] else [Poll(polled)] + done)
      && Collect(turns, TriedToRead(t)) == Collect(turns, Readable(t))
      && Collect(turns, ReadId(t)) == Collect(turns, FreeToRead(t))
  {
    var turns := Turns(s, actions, t);
    TurnsLead(s, actions, s', t);
    LegalFetch(turns, t);
    FetchFollows(s, turns, s', t);
    ReadsFollow(s, turns, s', t);
  }
}
