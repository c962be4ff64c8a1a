/** The kernel's round-robin scheduler, for a process table of any size. */
module Scheduler {
  import opened Basics

  datatype ProcState = FREE | RUNNABLE | BLOCKED | BROKEN

  // How many probes lead from process `cur` to process `p` in a table of n entries: 1 .. n.
  function Distance(cur: nat, p: nat, n: nat): (d: nat)
    requires cur < n && p < n
    ensures 1 <= d <= n
  {
    if p > cur then p - cur else p + n - cur
  }

  // q is what schedule() picks after `cur`: the runnable process met first.
  ghost predicate IsPick(table: seq<ProcState>, cur: nat, q: nat) {
    && cur < |table| && q < |table| && table[q] == RUNNABLE
    && forall p :: 0 <= p < |table| && table[p] == RUNNABLE ==> Distance(cur, q, |table|) <= Distance(cur, p, |table|)
  }

  // The j-th process probed after cur: each probe goes on to (pid + 1) % n.
  function Probed(cur: nat, j: nat, n: nat): (pid: nat)
    requires cur < n
    ensures pid < n
  {
    if j == 0 then cur else (Probed(cur, j - 1, n) + 1) % n
  }

  lemma {:induction false} ProbedAt(cur: nat, j: nat, n: nat)
    requires cur < n && j <= n
    ensures Probed(cur, j, n) == if cur + j < n then cur + j else cur + j - n
    decreases j
  {
    if j > 0 {
      ProbedAt(cur, j - 1, n);
      Cycle(Probed(cur, j - 1, n), n);
    }
  }

  lemma Cycle(pid: nat, n: nat)
    requires pid < n
    ensures (pid + 1) % n == if pid + 1 == n then 0 else pid + 1
  {
  }

  // The distance is the number of the probe that meets the process.
  lemma DistanceCountsProbes(cur: nat, p: nat, n: nat, j: nat)
    requires cur < n && p < n && 1 <= j <= n
    ensures Probed(cur, j, n) == p <==> Distance(cur, p, n) == j
  {
    ProbedAt(cur, j, n);
  }

  // The pick is the first runnable process probed: none probed before it is runnable.
  lemma PickIsFirst(table: seq<ProcState>, cur: nat, q: nat)
    requires IsPick(table, cur, q)
    ensures
      var n, d := |table|, Distance(cur, q, |table|);
      && 1 <= d <= n && Probed(cur, d, n) == q
      && forall j: nat :: 1 <= j < d ==> table[Probed(cur, j, n)] != RUNNABLE
  {
    var n, d := |table|, Distance(cur, q, |table|);
    DistanceCountsProbes(cur, q, n, d);
    forall j: nat | 1 <= j < d
      ensures table[Probed(cur, j, n)] != RUNNABLE
    {
      DistanceCountsProbes(cur, Probed(cur, j, n), n, j);
    }
  }

  // (pid + 1) % NPROC
  method NextPid(pid: nat, n: nat) returns (r: nat)
    requires pid < n
    ensures r == if pid + 1 == n then 0 else pid + 1
  {
    r := (pid + 1) % n;
  }

  class Kernel {
    const ptable: array<ProcState>
    var current: nat

    constructor (ptable: array<ProcState>, current: nat)
      requires current < ptable.Length
      ensures this.ptable == ptable && this.current == current
    {
      this.ptable, this.current := ptable, current;
    }

    // run(p): p is runnable and becomes current.
    method Run(p: nat)
      requires p < ptable.Length && ptable[p] == RUNNABLE
      modifies this`current
      ensures current == p
    {
      current := p;
    }

    // The first `limit` probes of schedule(), which probes for ever. The result is the number of probes made before
    // a process is run; n probes are enough whenever there is a runnable process, and none ever is otherwise.
    method Schedule(limit: nat) returns (probes: Option<nat>)
      requires current < ptable.Length
      modifies this`current
      ensures probes.Some? ==>
        && IsPick(ptable[..], old(current), current)
        && probes.value == Distance(old(current), current, ptable.Length) <= limit
      ensures probes.None? ==> current == old(current)
      ensures probes.None? <==> forall p :: 0 <= p < ptable.Length && ptable[p] == RUNNABLE ==>
        limit < Distance(old(current), p, ptable.Length)
    {
      var pid: nat := current;
      var spins: nat := 0;
      while spins < limit
        invariant 0 <= spins <= limit && pid < ptable.Length && current == old(current)
        invariant spins == 0 ==> pid == current
        invariant 0 < spins <= ptable.Length ==> Distance(current, pid, ptable.Length) == spins
        invariant forall p :: 0 <= p < ptable.Length && ptable[p] == RUNNABLE ==>
          spins < Distance(current, p, ptable.Length)
      {
        pid := NextPid(pid, ptable.Length);
        spins := spins + 1;
        if ptable[pid] == RUNNABLE {
          Run(pid);
          return Some(spins);
        }
      }
      return None;
    }
  }

  // ---- Fairness ----

  // Each schedule() that picks another process brings a runnable process strictly closer.
  lemma PickCloser(table: seq<ProcState>, cur: nat, q: nat, p: nat)
    requires IsPick(table, cur, q) && p < |table| && table[p] == RUNNABLE && q != p
    ensures Distance(q, p, |table|) < Distance(cur, p, |table|)
  {
  }

  // Consecutive schedule() calls: call i sees tables[i] and picks picks[i], which is current for the next call.
  ghost predicate IsRun(tables: seq<seq<ProcState>>, cur: nat, picks: seq<nat>, n: nat)
    decreases |tables|
  {
    && |picks| == |tables|
    && (tables != [] ==>
        && |tables[0]| == n && IsPick(tables[0], cur, picks[0])
        && IsRun(tables[1..], picks[0], picks[1..], n))
  }

  // A process that stays runnable is picked within as many calls as its distance.
  lemma {:induction false} PickedWithinDistance(tables: seq<seq<ProcState>>, cur: nat, picks: seq<nat>, n: nat, p: nat)
    requires IsRun(tables, cur, picks, n) && cur < n && p < n && Distance(cur, p, n) <= |tables|
    requires forall i :: 0 <= i < |tables| ==> p < |tables[i]| && tables[i][p] == RUNNABLE
    ensures p in picks[..Distance(cur, p, n)]
    decreases |tables|
  {
    if picks[0] != p {
      PickCloser(tables[0], cur, picks[0], p);
      PickedWithinDistance(tables[1..], picks[0], picks[1..], n, p);
      var d := Distance(picks[0], p, n);
      var i :| 0 <= i < d && picks[1..][..d][i] == p;
      assert picks[i + 1] == p;
      assert picks[..Distance(cur, p, n)][i + 1] == p;
    } else {
      assert picks[..Distance(cur, p, n)][0] == p;
    }
  }

  // Bounded waiting: whatever the other processes do, n consecutive calls are enough.
  lemma BoundedWaiting(tables: seq<seq<ProcState>>, cur: nat, picks: seq<nat>, n: nat, p: nat)
    requires IsRun(tables, cur, picks, n) && cur < n && p < n && |tables| >= n
    requires forall i :: 0 <= i < |tables| ==> p < |tables[i]| && tables[i][p] == RUNNABLE
    ensures p in picks[..n]
  {
    PickedWithinDistance(tables, cur, picks, n, p);
    var d := Distance(cur, p, n);
    var i :| 0 <= i < d && picks[..d][i] == p;
    assert picks[..n][i] == p;
  }
}
