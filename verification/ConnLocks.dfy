/** Vunmo's connection locking: one mutex for the client map, one mutex per client, blocking and non-blocking takers. */
module ConnLocks {
  import opened Basics

  datatype Kind = Response | Notification

  // The next action of a thread inside one of the four server functions. Lists are clients still to be handled.
  datatype Pc =
    | Idle
    // send_response, send_notification
    | SendLock(kind: Kind, id: nat)         // client_conns_mtx.lock()
    | SendFind(kind: Kind, id: nat)         // client_conns.find(id)
    | SendMissing                           // not found: client_conns_mtx.unlock(), return
    | SendClient(kind: Kind, id: nat)       // client->mtx.lock()
    | SendRelease(kind: Kind, id: nat)      // client_conns_mtx.unlock()
    | SendWrite(kind: Kind, id: nat)        // write, disconnect on failure
    | SendDone(id: nat)                     // client->mtx.unlock(), return
    // handle_reconnecting_client
    | ReLock(id: nat)                       // existing_client->mtx.lock()
    | ReUpdate(id: nat)                     // reject, or take over the descriptors
    | ReDone(id: nat)                       // existing_client->mtx.unlock(), return
    // fetch_requests
    | FetchLock                             // client_conns_mtx.lock()
    | FetchTry(todo: seq<nat>, got: seq<nat>)              // client->mtx.try_lock() in the collecting loop
    | FetchCheck(c: nat, todo: seq<nat>, got: seq<nat>)    // is_connected ?
    | FetchDrop(c: nat, todo: seq<nat>, got: seq<nat>)     // client->mtx.unlock() of a disconnected client
    | FetchNone                             // nothing available: client_conns_mtx.unlock(), return
    | FetchUnlock(todo: seq<nat>, got: seq<nat>)           // client->mtx.unlock() while filling poll_fds
    | FetchRelease(got: seq<nat>)           // client_conns_mtx.unlock()
    | FetchPoll(got: seq<nat>)              // poll
    | FetchTryRead(todo: seq<nat>)          // client->mtx.try_lock() in the reading loop
    | FetchRead(c: nat, todo: seq<nat>)     // read_request
    | FetchReadDone(c: nat, todo: seq<nat>) // client->mtx.unlock()

  datatype Client = Client(owner: Option<nat>, connected: bool)

  // What a call does to its descriptors.
  datatype Io =
    | Write(kind: Kind, id: nat, ok: bool)  // a response or notification is written to the client
    | Adopt(id: nat)                        // the client takes over the new connection's descriptors
    | Reject(id: nat)                       // the new connection's descriptors are closed
    | Poll(ids: seq<nat>)                   // poll on these clients
    | Read(id: nat, ok: bool)               // a request is read from the client

  datatype Entry = Entry(thread: nat, io: Io)

  datatype State = State(conns: Option<nat>, clients: map<nat, Client>, pcs: seq<Pc>, log: seq<Entry>)

  // What the environment decides: the iteration order of the map, the outcome of I/O, the clients poll reports.
  datatype Choice = Choice(order: seq<nat>, ok: bool, ready: seq<nat>)

  predicate Apart(a: seq<nat>, b: seq<nat>) {
    Distinct(a) && Distinct(b) && forall c :: c in a ==> c !in b
  }

  predicate Subset(s: seq<nat>, clients: map<nat, Client>) {
    forall c :: c in s ==> c in clients
  }

  // ---- Steps ----

  // Which clients a program counter refers to.
  predicate Known(pc: Pc, clients: map<nat, Client>) {
    match pc
    case SendClient(_, id) => id in clients
    case SendRelease(_, id) => id in clients
    case SendWrite(_, id) => id in clients
    case SendDone(id) => id in clients
    case ReLock(id) => id in clients
    case ReUpdate(id) => id in clients
    case ReDone(id) => id in clients
    case FetchTry(todo, got) => Subset(todo, clients) && Subset(got, clients)
    case FetchCheck(c, todo, got) => c in clients && Subset(todo, clients) && Subset(got, clients)
    case FetchDrop(c, todo, got) => c in clients && Subset(todo, clients) && Subset(got, clients)
    case FetchUnlock(todo, got) => Subset(todo, clients) && Subset(got, clients)
    case FetchRelease(got) => Subset(got, clients)
    case FetchPoll(got) => Subset(got, clients)
    case FetchTryRead(todo) => Subset(todo, clients)
    case FetchRead(c, todo) => c in clients && Subset(todo, clients)
    case FetchReadDone(c, todo) => c in clients && Subset(todo, clients)
    case _ => true
  }

  // Only lock() can block; try_lock() and everything else always returns.
  predicate Enabled(s: State, pc: Pc)
    requires Known(pc, s.clients)
  {
    match pc
    case Idle => false
    case SendLock(_, _) => s.conns == None
    case FetchLock => s.conns == None
    case SendClient(_, id) => s.clients[id].owner == None
    case ReLock(id) => s.clients[id].owner == None
    case _ => true
  }

  // The environment's choice is a possible one.
  predicate Suits(s: State, pc: Pc, c: Choice) {
    match pc
    case FetchLock => Distinct(c.order) && (set x | x in c.order) == s.clients.Keys && |c.order| == |s.clients|
    case FetchPoll(got) => Distinct(c.ready) && (forall x :: x in c.ready ==> x in got) && |c.ready| <= |got|
    case _ => true
  }

  // What one action does: the next program counter, at most one mutex operation, at most one write to is_connected and
  // at most one operation on descriptors.
  datatype Effect = Keep | Lock | Unlock
  datatype Move = Move(next: Pc, conns: Effect, client: nat, mutex: Effect, connected: Option<bool>, io: Option<Io>)

  function Go(next: Pc): Move { Move(next, Keep, 0, Keep, None, None) }
  function Conns(e: Effect, next: Pc): Move { Move(next, e, 0, Keep, None, None) }
  function Mutex(e: Effect, c: nat, next: Pc): Move { Move(next, Keep, c, e, None, None) }
  function Do(io: Io, next: Pc): Move { Move(next, Keep, 0, Keep, None, Some(io)) }
  function DoConnect(io: Io, c: nat, connected: bool, next: Pc): Move {
    Move(next, Keep, c, Keep, Some(connected), Some(io))
  }

  function Plan(s: State, pc: Pc, c: Choice): Move
    requires Known(pc, s.clients)
  {
    match pc
    case Idle => Go(Idle)
    case SendLock(k, id) => Conns(Lock, SendFind(k, id))
    case SendFind(k, id) => Go(if id in s.clients then SendClient(k, id) else SendMissing)
    case SendMissing => Conns(Unlock, Idle)
    case SendClient(k, id) => Mutex(Lock, id, SendRelease(k, id))
    case SendRelease(k, id) => Conns(Unlock, SendWrite(k, id))
    case SendWrite(k, id) =>
      if k == Notification && !s.clients[id].connected then Go(SendDone(id))
      else if c.ok then Do(Write(k, id, true), SendDone(id))
      else DoConnect(Write(k, id, false), id, false, SendDone(id))
    case SendDone(id) => Mutex(Unlock, id, Idle)
    case ReLock(id) => Mutex(Lock, id, ReUpdate(id))
    case ReUpdate(id) =>
      if s.clients[id].connected then Do(Reject(id), ReDone(id)) else DoConnect(Adopt(id), id, true, ReDone(id))
    case ReDone(id) => Mutex(Unlock, id, Idle)
    case FetchLock => Conns(Lock, FetchTry(c.order, []))
    case FetchTry(todo, got) =>
      if todo == [] then Go(if got == [] then FetchNone else FetchUnlock(got, got))
      else if s.clients[todo[0]].owner == None then Mutex(Lock, todo[0], FetchCheck(todo[0], todo[1..], got))
      else Go(FetchTry(todo[1..], got))
    case FetchCheck(x, todo, got) =>
      Go(if s.clients[x].connected then FetchTry(todo, got + [x]) else FetchDrop(x, todo, got))
    case FetchDrop(x, todo, got) => Mutex(Unlock, x, FetchTry(todo, got))
    case FetchNone => Conns(Unlock, Idle)
    case FetchUnlock(todo, got) =>
      if todo == [] then Go(FetchRelease(got)) else Mutex(Unlock, todo[0], FetchUnlock(todo[1..], got))
    case FetchRelease(got) => Conns(Unlock, FetchPoll(got))
    case FetchPoll(got) => Do(Poll(got), if c.ok then FetchTryRead(c.ready) else Idle)
    case FetchTryRead(todo) =>
      if todo == [] then Go(Idle)
      else if s.clients[todo[0]].owner == None then Mutex(Lock, todo[0], FetchRead(todo[0], todo[1..]))
      else Go(FetchTryRead(todo[1..]))
    case FetchRead(x, todo) =>
      if c.ok then Do(Read(x, true), FetchReadDone(x, todo))
      else DoConnect(Read(x, false), x, false, FetchReadDone(x, todo))
    case FetchReadDone(x, todo) => Mutex(Unlock, x, FetchTryRead(todo))
  }

  function After(owner: Option<nat>, t: nat, e: Effect): Option<nat> {
    match e case Keep => owner case Lock => Some(t) case Unlock => None
  }

  function Apply(s: State, t: nat, mv: Move): State
    requires t < |s.pcs|
  {
    var clients :=
      if mv.client !in s.clients then s.clients
      else
        var cl := s.clients[mv.client];
        s.clients[mv.client := Client(After(cl.owner, t, mv.mutex),
                                      if mv.connected.Some? then mv.connected.value else cl.connected)];
    var log := if mv.io.Some? then s.log + [Entry(t, mv.io.value)] else s.log;
    State(After(s.conns, t, mv.conns), clients, s.pcs[t := mv.next], log)
  }

  function Step(s: State, t: nat, c: Choice): State
    requires t < |s.pcs| && Known(s.pcs[t], s.clients)
  {
    Apply(s, t, Plan(s, s.pcs[t], c))
  }

  // An idle thread calls one of the functions. The existing client passed to a reconnect is one of the map.
  predicate Call(pc: Pc, clients: map<nat, Client>) {
    pc.SendLock? || pc.FetchLock? || (pc.ReLock? && pc.id in clients)
  }

  // ---- Who holds what ----

  predicate HoldsConns(pc: Pc) {
    match pc
    case SendFind(_, _) => true
    case SendMissing => true
    case SendClient(_, _) => true
    case SendRelease(_, _) => true
    case FetchTry(_, _) => true
    case FetchCheck(_, _, _) => true
    case FetchDrop(_, _, _) => true
    case FetchNone => true
    case FetchUnlock(_, _) => true
    case FetchRelease(_) => true
    case _ => false
  }

  // The client mutexes held at a program counter.
  function Holds(pc: Pc): seq<nat> {
    match pc
    case SendRelease(_, id) => [id]
    case SendWrite(_, id) => [id]
    case SendDone(id) => [id]
    case ReUpdate(id) => [id]
    case ReDone(id) => [id]
    case FetchTry(_, got) => got
    case FetchCheck(c, _, got) => got + [c]
    case FetchDrop(c, _, got) => got + [c]
    case FetchUnlock(todo, _) => todo
    case FetchRead(c, _) => [c]
    case FetchReadDone(c, _) => [c]
    case _ => []
  }

  // No list names a client twice, so try_lock is never applied to a mutex its caller holds.
  predicate NoRepeats(pc: Pc) {
    match pc
    case FetchTry(todo, got) => Apart(todo, got)
    case FetchCheck(c, todo, got) => c !in todo && c !in got && Apart(todo, got)
    case FetchDrop(c, todo, got) => c !in todo && c !in got && Apart(todo, got)
    case FetchUnlock(todo, got) => Distinct(todo)
    case _ => true
  }

  // A mutex is owned by t exactly when t's program counter says so.
  predicate Inv(s: State) {
    && (forall t :: 0 <= t < |s.pcs| ==> Known(s.pcs[t], s.clients) && NoRepeats(s.pcs[t]))
    && (forall t :: 0 <= t < |s.pcs| ==> (HoldsConns(s.pcs[t]) <==> s.conns == Some(t)))
    && (s.conns.Some? ==> s.conns.value < |s.pcs|)
    && (forall c, t :: c in s.clients && 0 <= t < |s.pcs| ==> (c in Holds(s.pcs[t]) <==> s.clients[c].owner == Some(t)))
    && (forall c :: c in s.clients && s.clients[c].owner.Some? ==> s.clients[c].owner.value < |s.pcs|)
  }

  // A move takes only free mutexes and gives up only mutexes the thread holds, and the next program counter says so.
  predicate Sound(s: State, pc: Pc, mv: Move) {
    && Known(mv.next, s.clients) && NoRepeats(mv.next)
    && (match mv.conns
        case Keep => HoldsConns(mv.next) == HoldsConns(pc)
        case Lock => s.conns == None && HoldsConns(mv.next)
        case Unlock => HoldsConns(pc) && !HoldsConns(mv.next))
    && (mv.mutex == Lock ==> mv.client in s.clients && s.clients[mv.client].owner == None)
    && (mv.mutex == Unlock ==> mv.client in Holds(pc) && mv.client in s.clients)
    && (mv.connected.Some? ==> mv.client in Holds(pc) && mv.client in s.clients)
    && (forall x :: x in Holds(mv.next) ==>
          (x in Holds(pc) && !(mv.mutex == Unlock && x == mv.client)) || (mv.mutex == Lock && x == mv.client))
    && (forall x :: x in Holds(pc) ==> x in Holds(mv.next) || (mv.mutex == Unlock && x == mv.client))
    && (mv.mutex == Lock ==> mv.client in Holds(mv.next))
  }

  lemma PlanSound(s: State, pc: Pc, c: Choice)
    requires Known(pc, s.clients) && NoRepeats(pc) && Enabled(s, pc) && Suits(s, pc, c)
    ensures Sound(s, pc, Plan(s, pc, c))
  {
    match pc
    case FetchTry(todo, got) => TrySound(s, todo, got, c);
    case FetchUnlock(todo, got) => UnlockSound(s, todo, got, c);
    case FetchTryRead(todo) => TryReadSound(s, todo, c);
    case FetchLock => CollectSound(s, pc, c);
    case FetchCheck(_, _, _) => CollectSound(s, pc, c);
    case FetchDrop(_, _, _) => CollectSound(s, pc, c);
    case FetchNone => CollectSound(s, pc, c);
    case FetchRelease(_) => ReadSound(s, pc, c);
    case FetchPoll(_) => ReadSound(s, pc, c);
    case FetchRead(_, _) => ReadSound(s, pc, c);
    case FetchReadDone(_, _) => ReadSound(s, pc, c);
    case ReLock(_) => ReconnectSound(s, pc, c);
    case ReUpdate(_) => ReconnectSound(s, pc, c);
    case ReDone(_) => ReconnectSound(s, pc, c);
    case _ => SendSound(s, pc, c);
  }

  lemma CollectSound(s: State, pc: Pc, c: Choice)
    requires pc.FetchLock? || pc.FetchCheck? || pc.FetchDrop? || pc.FetchNone?
    requires Known(pc, s.clients) && NoRepeats(pc) && Enabled(s, pc) && Suits(s, pc, c)
    ensures Sound(s, pc, Plan(s, pc, c))
  {
  }

  lemma ReadSound(s: State, pc: Pc, c: Choice)
    requires pc.FetchRelease? || pc.FetchPoll? || pc.FetchRead? || pc.FetchReadDone?
    requires Known(pc, s.clients) && NoRepeats(pc) && Enabled(s, pc) && Suits(s, pc, c)
    ensures Sound(s, pc, Plan(s, pc, c))
  {
  }

  lemma ReconnectSound(s: State, pc: Pc, c: Choice)
    requires pc.ReLock? || pc.ReUpdate? || pc.ReDone?
    requires Known(pc, s.clients) && NoRepeats(pc) && Enabled(s, pc) && Suits(s, pc, c)
    ensures Sound(s, pc, Plan(s, pc, c))
  {
  }

  lemma SendSound(s: State, pc: Pc, c: Choice)
    requires pc.Idle? || pc.SendLock? || pc.SendFind? || pc.SendMissing? || pc.SendClient? || pc.SendRelease?
          || pc.SendWrite? || pc.SendDone?
    requires Known(pc, s.clients) && NoRepeats(pc) && Enabled(s, pc) && Suits(s, pc, c)
    ensures Sound(s, pc, Plan(s, pc, c))
  {
  }

  lemma TrySound(s: State, todo: seq<nat>, got: seq<nat>, c: Choice)
    requires Known(FetchTry(todo, got), s.clients) && NoRepeats(FetchTry(todo, got))
    ensures Sound(s, FetchTry(todo, got), Plan(s, FetchTry(todo, got), c))
  {
    if todo != [] {
      assert forall x :: x in todo[1..] ==> x in todo;
      assert todo[0] in todo;
    }
  }

  lemma UnlockSound(s: State, todo: seq<nat>, got: seq<nat>, c: Choice)
    requires Known(FetchUnlock(todo, got), s.clients) && NoRepeats(FetchUnlock(todo, got))
    ensures Sound(s, FetchUnlock(todo, got), Plan(s, FetchUnlock(todo, got), c))
  {
    if todo != [] {
      assert forall x :: x in todo <==> x == todo[0] || x in todo[1..];
      assert todo[0] !in todo[1..];
    }
  }

  lemma TryReadSound(s: State, todo: seq<nat>, c: Choice)
    requires Known(FetchTryRead(todo), s.clients)
    ensures Sound(s, FetchTryRead(todo), Plan(s, FetchTryRead(todo), c))
  {
    if todo != [] {
      assert forall x :: x in todo[1..] ==> x in todo;
      assert todo[0] in todo;
    }
  }

  lemma SoundKeepsClients(s: State, t: nat, mv: Move, x: nat)
    requires Inv(s) && t < |s.pcs| && Sound(s, s.pcs[t], mv) && x in s.clients
    ensures
      var s' := Apply(s, t, mv);
      && (forall u :: 0 <= u < |s'.pcs| ==> (x in Holds(s'.pcs[u]) <==> s'.clients[x].owner == Some(u)))
      && (s'.clients[x].owner.Some? ==> s'.clients[x].owner.value < |s'.pcs|)
  {
    var s' := Apply(s, t, mv);
    forall u | 0 <= u < |s'.pcs|
      ensures x in Holds(s'.pcs[u]) <==> s'.clients[x].owner == Some(u)
    {
      assert x in Holds(s.pcs[u]) <==> s.clients[x].owner == Some(u);
      assert x in Holds(s.pcs[t]) <==> s.clients[x].owner == Some(t);
    }
  }

  lemma SoundKeepsInv(s: State, t: nat, mv: Move)
    requires Inv(s) && t < |s.pcs| && Sound(s, s.pcs[t], mv)
    ensures Inv(Apply(s, t, mv))
  {
    var s' := Apply(s, t, mv);
    assert s'.clients.Keys == s.clients.Keys;
    forall x | x in s.clients {
      SoundKeepsClients(s, t, mv, x);
    }
    forall u | 0 <= u < |s'.pcs|
      ensures Known(s'.pcs[u], s'.clients) && NoRepeats(s'.pcs[u])
    {
      KnownByKeys(s'.pcs[u], s.clients, s'.clients);
      if u != t {
        assert Known(s.pcs[u], s.clients);
      }
    }
  }

  lemma KnownByKeys(pc: Pc, clients: map<nat, Client>, clients': map<nat, Client>)
    requires clients.Keys == clients'.Keys
    ensures Known(pc, clients) <==> Known(pc, clients')
  {
    assert forall x :: x in clients <==> x in clients';
  }

  lemma StepKeepsInv(s: State, t: nat, c: Choice)
    requires Inv(s) && t < |s.pcs| && Enabled(s, s.pcs[t]) && Suits(s, s.pcs[t], c)
    ensures Inv(Step(s, t, c))
  {
    PlanSound(s, s.pcs[t], c);
    SoundKeepsInv(s, t, Plan(s, s.pcs[t], c));
  }

  // ---- No deadlock ----

  // The owner of a client mutex never waits.
  lemma HolderRuns(s: State, c: nat)
    requires Inv(s) && c in s.clients && s.clients[c].owner.Some?
    ensures
      var u := s.clients[c].owner.value;
      u < |s.pcs| && s.pcs[u] != Idle && Enabled(s, s.pcs[u])
  {
    var u := s.clients[c].owner.value;
    assert c in Holds(s.pcs[u]);
  }

  // The owner of the map's mutex runs, or waits for a client mutex whose owner runs.
  lemma ConnsHolderRuns(s: State) returns (u: nat)
    requires Inv(s) && s.conns.Some?
    ensures u < |s.pcs| && s.pcs[u] != Idle && Enabled(s, s.pcs[u])
  {
    u := s.conns.value;
    assert HoldsConns(s.pcs[u]);
    if !Enabled(s, s.pcs[u]) {
      var id := s.pcs[u].id;
      HolderRuns(s, id);
      u := s.clients[id].owner.value;
    }
  }

  // Whenever a call is in progress, some call can take a step.
  lemma NoDeadlock(s: State, t: nat) returns (u: nat)
    requires Inv(s) && t < |s.pcs| && s.pcs[t] != Idle
    ensures u < |s.pcs| && s.pcs[u] != Idle && Enabled(s, s.pcs[u])
  {
    var pc := s.pcs[t];
    if Enabled(s, pc) {
      u := t;
    } else if pc.SendLock? || pc.FetchLock? {
      u := ConnsHolderRuns(s);
    } else {
      HolderRuns(s, pc.id);
      u := s.clients[pc.id].owner.value;
    }
  }

  // When every call has returned, every mutex is free.
  lemma IdleHoldsNothing(s: State)
    requires Inv(s) && forall t :: 0 <= t < |s.pcs| ==> s.pcs[t] == Idle
    ensures s.conns == None && forall c :: c in s.clients ==> s.clients[c].owner == None
  {
    if s.conns.Some? {
      var u := ConnsHolderRuns(s);
      assert false;
    }
    forall c | c in s.clients
      ensures s.clients[c].owner == None
    {
      if s.clients[c].owner.Some? {
        HolderRuns(s, c);
        assert false;
      }
    }
  }

  // is_connected is written only by the owner of the client's mutex.
  lemma WritesAreGuarded(s: State, t: nat, c: Choice, x: nat)
    requires Inv(s) && t < |s.pcs| && Enabled(s, s.pcs[t]) && Suits(s, s.pcs[t], c) && x in s.clients
    requires Step(s, t, c).clients[x].connected != s.clients[x].connected
    ensures s.clients[x].owner == Some(t)
  {
    PlanSound(s, s.pcs[t], c);
  }

  // ---- Every call returns ----

  // A bound on the actions left before the call returns, with `n` clients in the map.
  function Work(pc: Pc, n: nat): nat {
    match pc
    case Idle => 0
    case SendLock(_, _) => 7
    case SendFind(_, _) => 6
    case SendMissing => 1
    case SendClient(_, _) => 5
    case SendRelease(_, _) => 4
    case SendWrite(_, _) => 3
    case SendDone(_) => 2
    case ReLock(_) => 3
    case ReUpdate(_) => 2
    case ReDone(_) => 1
    case FetchLock => 10 * n + 11
    case FetchTry(todo, got) => 10 * |todo| + 4 * |got| + 10
    case FetchCheck(_, todo, got) => 10 * |todo| + 4 * |got| + 19
    case FetchDrop(_, todo, got) => 10 * |todo| + 4 * |got| + 15
    case FetchNone => 1
    case FetchUnlock(todo, got) => |todo| + 3 * |got| + 5
    case FetchRelease(got) => 3 * |got| + 4
    case FetchPoll(got) => 3 * |got| + 3
    case FetchTryRead(todo) => 3 * |todo| + 2
    case FetchRead(_, todo) => 3 * |todo| + 4
    case FetchReadDone(_, todo) => 3 * |todo| + 3
  }

  lemma PlanWorks(s: State, pc: Pc, c: Choice)
    requires Known(pc, s.clients) && Suits(s, pc, c) && pc != Idle
    ensures Work(Plan(s, pc, c).next, |s.clients|) < Work(pc, |s.clients|)
  {
  }

  function TotalWork(pcs: seq<Pc>, n: nat): nat {
    if pcs == [] then 0 else Work(pcs[0], n) + TotalWork(pcs[1..], n)
  }

  lemma {:induction false} TotalWorkUpdate(pcs: seq<Pc>, t: nat, pc: Pc, n: nat)
    requires t < |pcs|
    ensures TotalWork(pcs[t := pc], n) == TotalWork(pcs, n) - Work(pcs[t], n) + Work(pc, n)
  {
    if t == 0 {
      assert pcs[t := pc][1..] == pcs[1..];
    } else {
      assert pcs[t := pc][1..] == pcs[1..][t - 1 := pc];
      TotalWorkUpdate(pcs[1..], t - 1, pc, n);
    }
  }

  lemma StepWorks(s: State, t: nat, c: Choice)
    requires Inv(s) && t < |s.pcs| && Enabled(s, s.pcs[t]) && Suits(s, s.pcs[t], c)
    ensures Step(s, t, c).clients.Keys == s.clients.Keys
    ensures TotalWork(Step(s, t, c).pcs, |s.clients|) < TotalWork(s.pcs, |s.clients|)
  {
    PlanWorks(s, s.pcs[t], c);
    TotalWorkUpdate(s.pcs, t, Plan(s, s.pcs[t], c).next, |s.clients|);
  }

  // ---- Runs ----

  datatype Action = Begin(t: nat, pc: Pc) | Act(t: nat, choice: Choice)

  predicate Possible(s: State, a: Action) {
    && a.t < |s.pcs|
    && (match a
        case Begin(t, pc) => s.pcs[t] == Idle && Call(pc, s.clients)
        case Act(t, c) => Known(s.pcs[t], s.clients) && Enabled(s, s.pcs[t]) && Suits(s, s.pcs[t], c))
  }

  function Perform(s: State, a: Action): State
    requires Possible(s, a)
  {
    match a
    case Begin(t, pc) => s.(pcs := s.pcs[t := pc])
    case Act(t, c) => Step(s, t, c)
  }

  predicate Initial(s: State) {
    && s.conns == None && (forall c :: c in s.clients ==> s.clients[c].owner == None)
    && forall t :: 0 <= t < |s.pcs| ==> s.pcs[t] == Idle
  }

  // s' is reached from s by performing the actions in order.
  ghost predicate Runs(s: State, actions: seq<Action>, s': State)
    decreases |actions|
  {
    if actions == [] then s' == s
    else Possible(s, actions[0]) && Runs(Perform(s, actions[0]), actions[1..], s')
  }

  lemma PerformKeepsInv(s: State, a: Action)
    requires Inv(s) && Possible(s, a)
    ensures Inv(Perform(s, a))
  {
    match a
    case Begin(t, pc) => SoundKeepsInv(s, t, Go(pc)); assert Apply(s, t, Go(pc)).pcs == Perform(s, a).pcs;
    case Act(t, c) => StepKeepsInv(s, t, c);
  }

  lemma {:induction false} RunKeepsInv(s: State, actions: seq<Action>, s': State)
    requires Inv(s) && Runs(s, actions, s')
    ensures Inv(s')
    decreases |actions|
  {
    if actions != [] {
      PerformKeepsInv(s, actions[0]);
      RunKeepsInv(Perform(s, actions[0]), actions[1..], s');
    }
  }

  // Without new calls, every run is short; and where it cannot go on, all calls have returned.
  lemma {:induction false} RunsAreShort(s: State, actions: seq<Action>, s': State)
    requires Inv(s) && Runs(s, actions, s') && forall a :: a in actions ==> a.Act?
    ensures |actions| + TotalWork(s'.pcs, |s.clients|) <= TotalWork(s.pcs, |s.clients|)
    decreases |actions|
  {
    if actions != [] {
      var a := actions[0];
      assert a in actions;
      PerformKeepsInv(s, a);
      StepWorks(s, a.t, a.choice);
      assert forall x :: x in actions[1..] ==> x in actions;
      assert |Perform(s, a).clients| == |s.clients| by {
        assert Perform(s, a).clients.Keys == s.clients.Keys;
        assert |Perform(s, a).clients.Keys| == |Perform(s, a).clients| && |s.clients.Keys| == |s.clients|;
      }
      RunsAreShort(Perform(s, a), actions[1..], s');
    }
  }

  // In every reachable state no call is stuck: some call in progress can move, and once none is in progress
  // all mutexes are free.
  lemma ReachableIsLive(s: State, actions: seq<Action>, s': State)
    requires Initial(s) && Runs(s, actions, s')
    ensures Inv(s')
    ensures (exists t :: 0 <= t < |s'.pcs| && s'.pcs[t] != Idle) ==>
      exists u :: 0 <= u < |s'.pcs| && s'.pcs[u] != Idle && Enabled(s', s'.pcs[u])
    ensures (forall t :: 0 <= t < |s'.pcs| ==> s'.pcs[t] == Idle) ==>
      s'.conns == None && forall c :: c in s'.clients ==> s'.clients[c].owner == None
    ensures forall t :: 0 <= t < |s'.pcs| && s'.pcs[t] == Idle ==>
      s'.conns != Some(t) && forall c :: c in s'.clients ==> s'.clients[c].owner != Some(t)
  {
    RunKeepsInv(s, actions, s');
    if t :| 0 <= t < |s'.pcs| && s'.pcs[t] != Idle {
      var u := NoDeadlock(s', t);
    } else {
      IdleHoldsNothing(s');
    }
  }

  // A finite set can be listed.
  lemma {:induction false} Enumerate(keys: set<nat>) returns (order: seq<nat>)
    ensures Distinct(order) && |order| == |keys| && forall x :: x in order <==> x in keys
    decreases |keys|
  {
    if keys == {} {
      order := [];
    } else {
      var k :| k in keys;
      var rest := Enumerate(keys - {k});
      order := rest + [k];
      assert forall x :: x in order <==> x in rest || x == k;
    }
  }

  // An enabled action always has a possible outcome.
  lemma SomeChoice(s: State, pc: Pc) returns (c: Choice)
    ensures Suits(s, pc, c)
  {
    var order := Enumerate(s.clients.Keys);
    assert |s.clients.Keys| == |s.clients|;
    assert (set x | x in order) == s.clients.Keys;
    c := Choice(order, true, []);
  }

  // From every state that keeps the invariant the calls in progress can be run to completion.
  lemma {:induction false} CallsReturn(s: State) returns (actions: seq<Action>, s': State)
    requires Inv(s)
    ensures Runs(s, actions, s') && (forall a :: a in actions ==> a.Act?)
    ensures forall t :: 0 <= t < |s'.pcs| ==> s'.pcs[t] == Idle
    decreases TotalWork(s.pcs, |s.clients|)
  {
    if t :| 0 <= t < |s.pcs| && s.pcs[t] != Idle {
      var u := NoDeadlock(s, t);
      var c := SomeChoice(s, s.pcs[u]);
      var a := Act(u, c);
      StepKeepsInv(s, u, c);
      StepWorks(s, u, c);
      assert |Perform(s, a).clients.Keys| == |Perform(s, a).clients| && |s.clients.Keys| == |s.clients|;
      var rest;
      rest, s' := CallsReturn(Perform(s, a));
      actions := [a] + rest;
      assert actions[1..] == rest;
    } else {
      actions, s' := [], s;
    }
  }
}
