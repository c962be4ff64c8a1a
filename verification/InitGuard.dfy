/** The one-time-initialisation guard as steps of any number of threads over one shared byte. */
module InitGuard {

  // Where a caller stands. Load and Exchange are the two atomic reads of acquire.
  datatype Pc =
    | Load          // about to load the guard
    | Exchange      // about to exchange 1 into the guard
    | Restore       // exchanged 1 and got 2: about to exchange 2 back
    | Init          // acquire returned 1: initialising, then release
    | Got0          // acquire returned 0
    | Released      // release is done

  // guard is the shared byte; `winners` counts the acquire calls that have returned 1.
  datatype State = State(guard: nat, pcs: seq<Pc>, winners: nat)

  predicate Initial(s: State) {
    s.guard == 0 && s.winners == 0 && forall t :: 0 <= t < |s.pcs| ==> s.pcs[t] == Load
  }

  function Goto(s: State, t: nat, pc: Pc): State
    requires t < |s.pcs|
  {
    s.(pcs := s.pcs[t := pc])
  }

  // One atomic action of thread t.
  function Step(s: State, t: nat): (s': State)
    requires t < |s.pcs|
    ensures |s'.pcs| == |s.pcs|
  {
    match s.pcs[t]
    case Load => if s.guard == 2 then Goto(s, t, Got0) else Goto(s, t, Exchange)
    case Exchange =>
      var x := s.(guard := 1);
      if s.guard == 2 then Goto(x, t, Restore)
      else if s.guard == 1 then Goto(x, t, Exchange)
      else Goto(x, t, Init).(winners := s.winners + 1)
    case Restore => Goto(s.(guard := 2), t, Got0)
    case Init => Goto(s.(guard := 2), t, Released)
    case Got0 => Goto(s, t, Load)
    case Released => Goto(s, t, Load)
  }

  // A schedule for n threads.
  predicate Threads(n: nat, schedule: seq<nat>) {
    forall i :: 0 <= i < |schedule| ==> schedule[i] < n
  }

  // A run executes the threads in any order; callers may return and call again for ever.
  function Run(s: State, schedule: seq<nat>): (r: State)
    requires Threads(|s.pcs|, schedule)
    ensures |r.pcs| == |s.pcs|
    decreases |schedule|
  {
    if schedule == [] then s
    else Step(Run(s, schedule[..|schedule| - 1]), schedule[|schedule| - 1])
  }

  // ---- Counting threads ----

  function Count(pcs: seq<Pc>, pc: Pc): nat {
    if pcs == [] then 0 else (if pcs[0] == pc then 1 else 0) + Count(pcs[1..], pc)
  }

  lemma {:induction false} CountUpdate(pcs: seq<Pc>, t: nat, next: Pc, pc: Pc)
    requires t < |pcs|
    ensures Count(pcs[t := next], pc)
         == Count(pcs, pc) - (if pcs[t] == pc then 1 else 0) + (if next == pc then 1 else 0)
  {
    if t > 0 {
      assert pcs[t := next][1..] == pcs[1..][t - 1 := next];
      CountUpdate(pcs[1..], t - 1, next, pc);
    } else {
      assert pcs[t := next][1..] == pcs[1..];
    }
  }

  lemma {:induction false} CountZero(pcs: seq<Pc>, pc: Pc)
    ensures Count(pcs, pc) == 0 <==> forall t :: 0 <= t < |pcs| ==> pcs[t] != pc
  {
    if pcs != [] {
      CountZero(pcs[1..], pc);
      assert (forall t :: 0 <= t < |pcs| ==> pcs[t] != pc) <==>
        pcs[0] != pc && forall t :: 0 <= t < |pcs[1..]| ==> pcs[1..][t] != pc;
    }
  }

  // ---- The abstract latch ----

  datatype Phase = Fresh | Running | Done

  function PhaseOf(s: State): Phase {
    if s.winners == 0 then Fresh else if Count(s.pcs, Init) > 0 then Running else Done
  }

  // In words: before the first winner the byte is 0 and nobody has been let through; while the winner initialises the
  // byte is 1; afterwards it is 2, or it is 1 and exactly one caller is about to put the 2 back.
  predicate Inv(s: State) {
    match PhaseOf(s)
    case Fresh =>
      && s.guard == 0 && Count(s.pcs, Init) == 0
      && Count(s.pcs, Restore) == Count(s.pcs, Got0) == Count(s.pcs, Released) == 0
    case Running =>
      && s.guard == 1 && s.winners == 1 && Count(s.pcs, Init) == 1
      && Count(s.pcs, Restore) == Count(s.pcs, Got0) == Count(s.pcs, Released) == 0
    case Done =>
      && s.winners == 1
      && if s.guard == 2 then Count(s.pcs, Restore) == 0 else s.guard == 1 && Count(s.pcs, Restore) == 1
  }

  lemma InitialInv(s: State)
    requires Initial(s)
    ensures Inv(s) && PhaseOf(s) == Fresh
  {
    CountZero(s.pcs, Init);
    CountZero(s.pcs, Restore);
    CountZero(s.pcs, Got0);
    CountZero(s.pcs, Released);
  }

  // Each step keeps the invariant and is a step of the abstract latch: a caller gets 1 exactly when the latch
  // leaves Fresh, gets 0 only when it is Done, and release is what makes it Done.
  lemma StepRefines(s: State, t: nat)
    requires Inv(s) && t < |s.pcs|
    ensures
      var s' := Step(s, t);
      && Inv(s')
      && (s'.pcs[t] == Init <==> PhaseOf(s) == Fresh && PhaseOf(s') == Running)
      && (s'.pcs[t] == Got0 ==> PhaseOf(s) == Done)
      && (s.pcs[t] == Init <==> PhaseOf(s) == Running && PhaseOf(s') == Done)
      && (PhaseOf(s) == Done ==> PhaseOf(s') == Done)
      && (PhaseOf(s) == Running && s.pcs[t] != Init ==> PhaseOf(s') == Running)
  {
    var s' := Step(s, t);
    var pc := s'.pcs[t];
    CountZero(s.pcs, s.pcs[t]);
    forall p: Pc
      ensures Count(s'.pcs, p) == Count(s.pcs, p) - (if s.pcs[t] == p then 1 else 0) + (if pc == p then 1 else 0)
    {
      CountUpdate(s.pcs, t, pc, p);
    }
  }

  // Every reachable state satisfies the invariant.
  lemma {:induction false} RunInv(s: State, schedule: seq<nat>)
    requires Initial(s) && Threads(|s.pcs|, schedule)
    ensures Inv(Run(s, schedule))
    decreases |schedule|
  {
    InitialInv(s);
    if schedule != [] {
      var n := |schedule| - 1;
      RunInv(s, schedule[..n]);
      StepRefines(Run(s, schedule[..n]), schedule[n]);
    }
  }

  // For every number of threads and every interleaving: at most one call ever returns 1; nobody is past acquire with 0
  // before release; and after release the 2 is in the byte or in the hands of exactly one caller.
  lemma GuardTheorem(s: State, schedule: seq<nat>)
    requires Initial(s) && Threads(|s.pcs|, schedule)
    ensures
      var r := Run(s, schedule);
      && r.winners <= 1
      && ((exists t :: 0 <= t < |r.pcs| && r.pcs[t] == Got0) ==> PhaseOf(r) == Done)
      && (PhaseOf(r) == Done ==>
          (r.guard == 2 && Count(r.pcs, Restore) == 0) || (r.guard == 1 && Count(r.pcs, Restore) == 1))
  {
    RunInv(s, schedule);
    CountZero(Run(s, schedule).pcs, Got0);
  }

  lemma {:induction false} FindOne(pcs: seq<Pc>, pc: Pc) returns (t: nat)
    requires Count(pcs, pc) > 0
    ensures t < |pcs| && pcs[t] == pc
  {
    if pcs[0] == pc {
      t := 0;
    } else {
      t := FindOne(pcs[1..], pc);
      t := t + 1;
    }
  }

  // After release some continuation of at most three steps, one of another thread and two of its own, lets a spinning
  // caller return 0.
  lemma SpinnerReturns(s: State, t: nat) returns (schedule: seq<nat>)
    requires Inv(s) && PhaseOf(s) == Done && t < |s.pcs| && s.pcs[t] == Exchange
    ensures |schedule| <= 3 && Threads(|s.pcs|, schedule)
    ensures Run(s, schedule).pcs[t] == Got0 && Run(s, schedule).guard == 2
  {
    if s.guard == 2 {
      schedule := [t, t];
      assert schedule[..1] == [t] && [t][..0] == [];
      assert Run(s, [t]) == Step(s, t);
      assert Run(s, schedule) == Step(Step(s, t), t);
    } else {
      var u := FindOne(s.pcs, Restore);
      schedule := [u, t, t];
      assert schedule[..2] == [u, t] && [u, t][..1] == [u] && [u][..0] == [];
      assert Run(s, [u]) == Step(s, u);
      assert Run(s, [u, t]) == Step(Step(s, u), t);
      assert Run(s, schedule) == Step(Step(Step(s, u), t), t);
    }
  }

  lemma DoneStays(s: State, u: nat, t: nat)
    requires Inv(s) && PhaseOf(s) == Done && u < |s.pcs| && t < |s.pcs| && s.pcs[t] != Init
    ensures
      var s' := Step(s, u);
      Inv(s') && PhaseOf(s') == Done && s'.pcs[t] != Init && s'.winners == s.winners
  {
    StepRefines(s, u);
  }

  // After release a call never returns 1 again, in whatever run; it returns 0 or is still in progress.
  lemma {:induction false} AfterRelease(s: State, schedule: seq<nat>, t: nat)
    requires Inv(s) && PhaseOf(s) == Done && Threads(|s.pcs|, schedule) && t < |s.pcs| && s.pcs[t] != Init
    ensures Inv(Run(s, schedule)) && PhaseOf(Run(s, schedule)) == Done && Run(s, schedule).pcs[t] != Init
    ensures Run(s, schedule).winners == s.winners
    decreases |schedule|
  {
    if schedule != [] {
      var n := |schedule| - 1;
      AfterRelease(s, schedule[..n], t);
      DoneStays(Run(s, schedule[..n]), schedule[n], t);
    }
  }

  // When the byte is 2 a new call returns 0 at once and leaves the byte alone.
  lemma FastPath(s: State, t: nat)
    requires t < |s.pcs| && s.pcs[t] == Load
    ensures Step(s, t).guard == s.guard
    ensures Step(s, t).pcs[t] == Got0 <==> s.guard == 2
  {
  }

  // ---- Every fair run without new calls ----

  // A thread whose call has returned.
  predicate Returned(pc: Pc) {
    pc == Got0 || pc == Released
  }

  // One step of a run in which no thread that has returned calls again.
  function QuietStep(s: State, t: nat): (s': State)
    requires t < |s.pcs|
    ensures |s'.pcs| == |s.pcs|
  {
    if Returned(s.pcs[t]) then s else Step(s, t)
  }

  function QuietRun(s: State, schedule: seq<nat>): (r: State)
    requires Threads(|s.pcs|, schedule)
    ensures |r.pcs| == |s.pcs|
    decreases |schedule|
  {
    if schedule == [] then s else QuietRun(QuietStep(s, schedule[0]), schedule[1..])
  }

  // How many effective steps a thread has before it at most.
  function Weight(pc: Pc): nat {
    match pc
    case Load => 3
    case Exchange => 2
    case Restore => 1
    case Init => 1
    case Got0 => 0
    case Released => 0
  }

  function Work(pcs: seq<Pc>): nat {
    if pcs == [] then 0 else Weight(pcs[0]) + Work(pcs[1..])
  }

  lemma {:induction false} WorkUpdate(pcs: seq<Pc>, t: nat, next: Pc)
    requires t < |pcs|
    ensures Work(pcs[t := next]) == Work(pcs) - Weight(pcs[t]) + Weight(next)
  {
    if t > 0 {
      assert pcs[t := next][1..] == pcs[1..][t - 1 := next];
      WorkUpdate(pcs[1..], t - 1, next);
    } else {
      assert pcs[t := next][1..] == pcs[1..];
    }
  }

  lemma {:induction false} WorkBounds(pcs: seq<Pc>)
    ensures Work(pcs) <= 3 * |pcs|
    ensures Work(pcs) == 0 <==> forall t :: 0 <= t < |pcs| ==> Returned(pcs[t])
  {
    if pcs != [] {
      WorkBounds(pcs[1..]);
      assert (forall t :: 0 <= t < |pcs| ==> Returned(pcs[t])) <==>
        Returned(pcs[0]) && forall t :: 0 <= t < |pcs[1..]| ==> Returned(pcs[1..][t]);
    }
  }

  // A caller that exchanges 1 for 1 while another one holds the guard.
  predicate Spins(s: State, t: nat)
    requires t < |s.pcs|
  {
    s.pcs[t] == Exchange && s.guard == 1
  }

  // Every step of a call in progress lowers the work left, except a spin, which changes nothing at all.
  lemma QuietStepWorks(s: State, t: nat)
    requires Inv(s) && t < |s.pcs|
    ensures Inv(QuietStep(s, t))
    ensures if Returned(s.pcs[t]) || Spins(s, t) then QuietStep(s, t) == s else Work(QuietStep(s, t).pcs) < Work(s.pcs)
  {
    StepRefines(s, t);
    WorkUpdate(s.pcs, t, Step(s, t).pcs[t]);
    assert s.pcs[t := s.pcs[t]] == s.pcs;
  }

  // While a call is in progress, one that does not spin is in progress: the holder of the guard, if it is held.
  lemma SomeoneWorks(s: State) returns (t: nat)
    requires Inv(s) && Work(s.pcs) > 0
    ensures t < |s.pcs| && !Returned(s.pcs[t]) && !Spins(s, t)
  {
    WorkBounds(s.pcs);
    if s.guard == 1 {
      t := FindOne(s.pcs, if PhaseOf(s) == Running then Init else Restore);
    } else {
      t :| 0 <= t < |s.pcs| && !Returned(s.pcs[t]);
    }
  }

  lemma {:induction false} QuietRunWorks(s: State, schedule: seq<nat>)
    requires Inv(s) && Threads(|s.pcs|, schedule)
    ensures Inv(QuietRun(s, schedule)) && Work(QuietRun(s, schedule).pcs) <= Work(s.pcs)
    ensures (exists i :: 0 <= i < |schedule| && !Returned(s.pcs[schedule[i]]) && !Spins(s, schedule[i])) ==>
      Work(QuietRun(s, schedule).pcs) < Work(s.pcs)
    decreases |schedule|
  {
    if schedule != [] {
      QuietStepWorks(s, schedule[0]);
      QuietRunWorks(QuietStep(s, schedule[0]), schedule[1..]);
      assert forall i :: 1 <= i < |schedule| ==> schedule[i] == schedule[1..][i - 1];
    }
  }

  // A round gives every thread at least one step.
  predicate Round(n: nat, round: seq<nat>) {
    Threads(n, round) && forall t: nat :: t < n ==> t in round
  }

  // Rounds one after the other.
  function QuietRounds(s: State, rounds: seq<seq<nat>>): (r: State)
    requires forall i :: 0 <= i < |rounds| ==> Round(|s.pcs|, rounds[i])
    ensures |r.pcs| == |s.pcs|
    decreases |rounds|
  {
    if rounds == [] then s
    else
      assert Round(|s.pcs|, rounds[0]);
      QuietRounds(QuietRun(s, rounds[0]), rounds[1..])
  }

  // From every reachable state, every fair run without new calls lets all callers return: as many rounds as there is
  // work left, and three per thread at most, are always enough, in whatever order the threads take their steps.
  lemma {:induction false} FairRunsReturn(s: State, rounds: seq<seq<nat>>)
    requires Inv(s) && |rounds| >= Work(s.pcs) && forall i :: 0 <= i < |rounds| ==> Round(|s.pcs|, rounds[i])
    ensures Inv(QuietRounds(s, rounds))
    ensures forall t :: 0 <= t < |s.pcs| ==> Returned(QuietRounds(s, rounds).pcs[t])
    decreases |rounds|
  {
    WorkBounds(s.pcs);
    if rounds != [] {
      var s' := QuietRun(s, rounds[0]);
      QuietRunWorks(s, rounds[0]);
      if Work(s.pcs) > 0 {
        var t := SomeoneWorks(s);
        assert t in rounds[0];
      }
      FairRunsReturn(s', rounds[1..]);
    }
  }

  // ---- New calls can starve a spinner ----

  // A run that goes on with one more step.
  lemma Then(s: State, a: seq<nat>, t: nat) returns (b: seq<nat>)
    requires Threads(|s.pcs|, a) && t < |s.pcs|
    ensures Threads(|s.pcs|, b) && Run(s, b) == Step(Run(s, a), t) && multiset(b) == multiset(a) + multiset{t}
  {
    b := a + [t];
    assert b[..|a|] == a;
  }

  lemma {:induction false} RunConcat(s: State, a: seq<nat>, b: seq<nat>)
    requires Threads(|s.pcs|, a) && Threads(|s.pcs|, b)
    ensures Threads(|s.pcs|, a + b) && Run(s, a + b) == Run(Run(s, a), b)
    decreases |b|
  {
    if b == [] {
      assert a + b == a;
    } else {
      var n := |b| - 1;
      RunConcat(s, a, b[..n]);
      var c := a + b;
      assert c[..|c| - 1] == a + b[..n] && c[|c| - 1] == b[n] && |c| > 0;
    }
  }

  // Thread t spins while u is about to restore the 2 and v is about to exchange.
  predicate Contended(s: State, t: nat, u: nat, v: nat) {
    && t < |s.pcs| && u < |s.pcs| && v < |s.pcs| && t != u && t != v && u != v
    && s.guard == 1 && s.pcs[t] == Exchange && s.pcs[u] == Restore && s.pcs[v] == Exchange
  }

  // t spins once; u restores the 2, v takes it away again, and u returns, calls again and is about to exchange.
  lemma HandOver(s: State, t: nat, u: nat, v: nat) returns (schedule: seq<nat>)
    requires Contended(s, t, u, v)
    ensures Threads(|s.pcs|, schedule) && multiset(schedule)[t] == 1
    ensures Run(s, schedule) == s.(pcs := s.pcs[u := Exchange][v := Restore])
  {
    schedule := Then(s, [], t);
    assert s.pcs[t := Exchange] == s.pcs;
    schedule := Then(s, schedule, u);
    schedule := Then(s, schedule, v);
    schedule := Then(s, schedule, u);
    schedule := Then(s, schedule, u);
    assert s.pcs[u := Got0][v := Restore][u := Load][u := Exchange] == s.pcs[u := Exchange][v := Restore];
  }

  // While u and v keep calling, t can exchange 2 * n times, for every n, and everything be as it was.
  lemma {:induction false} SpinnerCanStarve(s: State, t: nat, u: nat, v: nat, n: nat) returns (schedule: seq<nat>)
    requires Contended(s, t, u, v)
    ensures Threads(|s.pcs|, schedule) && multiset(schedule)[t] == 2 * n && Run(s, schedule) == s
  {
    if n == 0 {
      schedule := [];
    } else {
      var s' := s.(pcs := s.pcs[u := Exchange][v := Restore]);
      var first := HandOver(s, t, u, v);
      var second := HandOver(s', t, v, u);
      assert s'.pcs[v := Exchange][u := Restore] == s.pcs;
      RunConcat(s, first, second);
      var rest := SpinnerCanStarve(s, t, u, v, n - 1);
      RunConcat(s, first + second, rest);
      schedule := first + second + rest;
    }
  }

  // Three threads that call for the first time can get there: thread 2 initialises while the others wait to exchange,
  // thread 1 takes the 2 away, and thread 2 calls again.
  lemma ContendedIsReachable(s: State) returns (schedule: seq<nat>)
    requires Initial(s) && |s.pcs| == 3
    ensures Threads(3, schedule) && Contended(Run(s, schedule), 0, 1, 2)
  {
    schedule := Then(s, [], 0);
    schedule := Then(s, schedule, 1);
    schedule := Then(s, schedule, 2);
    schedule := Then(s, schedule, 2);
    schedule := Then(s, schedule, 2);
    assert Run(s, schedule) == Goto(Goto(Goto(State(2, s.pcs, 1), 0, Exchange), 1, Exchange), 2, Released);
    schedule := Then(s, schedule, 1);
    schedule := Then(s, schedule, 2);
    schedule := Then(s, schedule, 2);
  }
}
