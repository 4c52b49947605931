/** Workers, heartbeats, reapers and crashes as steps of one system, and the two
    guarantees of the protocol: exclusion under lease timing, and retry chains under
    no timing assumption at all. */
module LeaseProtocol {
  import opened Prelude
  import opened RunTable

  /** `seen` is the clock reading behind the worker's last successful claim or renewal. */
  datatype Worker =
    | Idle
    | Starting(run: nat, seen: int)
    | Executing(run: nat, seen: int, attempt: int)
    | Retrying(run: nat, attempt: int)

  datatype System = System(table: Table, workers: seq<Worker>, clock: int)

  /** How a repository call ends for its caller: answered, failed before taking
      effect, or failed after taking effect. */
  datatype Reply = Answered | LostBefore | LostAfter

  datatype Action =
    | Tick(to: int)
    | ClaimRun(w: nat, r: nat, readAt: int, reply: Reply)
    | LearnAttempt(w: nat, ok: bool)
    | Heartbeat(w: nat, readAt: int, reply: Reply)
    | Finish(w: nat, succeeded: bool, reply: Reply)
    | Retry(w: nat, readAt: int, reply: Reply)
    | Crash(w: nat)
    | Reap(r: nat, readAt: int, seenEnabled: bool)
    | BootReap(r: nat, seenEnabled: bool)
    | UserCancel(r: nat)
    | NewRun(automation: nat, at: int)
    | Toggle(automation: nat, on: bool)

  /** A worker that may be executing its run. */
  predicate Engaged(w: Worker) {
    w.Starting? || w.Executing?
  }

  predicate Guard(s: System, a: Action) {
    match a
    case Tick(to) => s.clock <= to
    case ClaimRun(w, r, readAt, _) =>
      w < |s.workers| && s.workers[w].Idle? && readAt <= s.clock && OldestDue(s.table, r, readAt)
    case LearnAttempt(w, _) => w < |s.workers| && s.workers[w].Starting?
    case Heartbeat(w, readAt, _) =>
      w < |s.workers| && s.workers[w].Executing? && s.workers[w].seen <= readAt <= s.clock
    case Finish(w, _, _) => w < |s.workers| && s.workers[w].Executing?
    case Retry(w, readAt, _) => w < |s.workers| && s.workers[w].Retrying? && readAt <= s.clock
    case Crash(w) => w < |s.workers|
    case Reap(_, readAt, _) => readAt <= s.clock
    case BootReap(_, _) => true
    case UserCancel(_) => true
    case NewRun(_, _) => true
    case Toggle(_, _) => true
  }

  function Set(s: System, t: Table, w: nat, worker: Worker): System
    requires w < |s.workers|
  {
    s.(table := t, workers := s.workers[w := worker])
  }

  /** The attempt number a worker reads after its claim. */
  ghost function AttemptOf(t: Table, r: nat): int {
    if Linked(t) && r in t.runs then Depth(t, r) else 1
  }

  ghost function Next(s: System, a: Action): System
    requires Guard(s, a)
  {
    var t := s.table;
    match a
    case Tick(to) => s.(clock := to)
    case ClaimRun(w, r, readAt, reply) =>
      if reply.LostBefore? then s
      else Set(s, Claim(t, r, readAt + LEASE), w, if reply.Answered? then Starting(r, readAt) else Idle)
    case LearnAttempt(w, ok) =>
      var me := s.workers[w];
      Set(s, t, w, if ok then Executing(me.run, me.seen, AttemptOf(t, me.run)) else Idle)
    case Heartbeat(w, readAt, reply) =>
      var me := s.workers[w];
      var t' := if reply.LostBefore? then t else Renew(t, me.run, readAt + LEASE);
      var worker :=
        if !reply.Answered? then me
        else if Is(t, me.run, Running) then Executing(me.run, readAt, me.attempt)
        else Idle;
      Set(s, t', w, worker)
    case Finish(w, succeeded, reply) =>
      var me := s.workers[w];
      var t' := if reply.LostBefore? then t else Finalize(t, me.run, if succeeded then Succeeded else Failed);
      var again := reply.Answered? && Is(t, me.run, Running) && !succeeded && RetryBackoff(me.attempt).Some?;
      Set(s, t', w, if again then Retrying(me.run, me.attempt) else Idle)
    case Retry(w, readAt, reply) =>
      var me := s.workers[w];
      var backoff := RetryBackoff(me.attempt);
      var t' :=
        if reply.LostBefore? || me.run !in t.runs || backoff.None? then t
        else Create(t, t.runs[me.run].automation, readAt + backoff.value, Some(me.run));
      Set(s, t', w, Idle)
    case Crash(w) => Set(s, t, w, Idle)
    case Reap(r, readAt, seenEnabled) => s.(table := ReapRow(t, r, readAt, seenEnabled))
    case BootReap(r, seenEnabled) => s.(table := BootReapRow(t, r, seenEnabled))
    case UserCancel(r) => s.(table := Cancel(t, r))
    case NewRun(automation, at) => s.(table := Create(t, automation, at, None))
    case Toggle(automation, on) => s.(table := SetEnabled(t, automation, on))
  }

  // ------------------------------------------------------------- exclusion

  /** No run is in the hands of two workers. */
  ghost predicate Exclusive(s: System) {
    forall i, j :: 0 <= i < j < |s.workers| && Engaged(s.workers[i]) && Engaged(s.workers[j]) ==>
      s.workers[i].run != s.workers[j].run
  }

  /** The row of an engaged worker is not up for grabs, and while it is running its
      lease reaches at least one lease length beyond the worker's last reading. */
  predicate Covered(t: Table, w: Worker, clock: int)
    requires Engaged(w)
  {
    && w.seen <= clock && w.run in t.runs && t.runs[w.run].status != Queued
    && (t.runs[w.run].status == Running ==>
          t.runs[w.run].leaseUntil.Some? && t.runs[w.run].leaseUntil.value >= w.seen + LEASE)
  }

  /** Ids in use stay below the next fresh id. */
  predicate Bounded(t: Table) {
    forall r <- t.runs :: r < t.next
  }

  ghost predicate LeaseInv(s: System) {
    && Bounded(s.table)
    && Exclusive(s)
    && forall i :: 0 <= i < |s.workers| && Engaged(s.workers[i]) ==> Covered(s.table, s.workers[i], s.clock)
  }

  /** A run in the hands of some worker. */
  ghost predicate Held(s: System, r: nat) {
    exists i :: 0 <= i < |s.workers| && Engaged(s.workers[i]) && s.workers[i].run == r
  }

  /** A step that requeues no run from under a worker; only the reapers can. */
  ghost predicate Harmless(s: System, a: Action) {
    match a
    case Reap(r, readAt, seenEnabled) => !(LeaseExpired(s.table, r, readAt) && seenEnabled && Held(s, r))
    case BootReap(r, seenEnabled) => !(Is(s.table, r, Running) && seenEnabled && Held(s, r))
    case _ => true
  }

  predicate NoneEngaged(s: System) {
    forall i :: 0 <= i < |s.workers| ==> !Engaged(s.workers[i])
  }

  lemma WorkerStep(s: System, t: Table, w: nat, worker: Worker)
    requires LeaseInv(s) && w < |s.workers| && Bounded(t)
    requires forall i :: 0 <= i < |s.workers| && i != w && Engaged(s.workers[i]) ==>
               Covered(t, s.workers[i], s.clock)
    requires Engaged(worker) ==> Covered(t, worker, s.clock)
    requires Engaged(worker) ==>
               (Engaged(s.workers[w]) && s.workers[w].run == worker.run)
               || forall i :: 0 <= i < |s.workers| && i != w && Engaged(s.workers[i]) ==> s.workers[i].run != worker.run
    ensures LeaseInv(Set(s, t, w, worker))
  {
  }

  /** A change to the table alone. */
  lemma TableStep(s: System, t: Table)
    requires LeaseInv(s) && Bounded(t)
    requires forall i :: 0 <= i < |s.workers| && Engaged(s.workers[i]) ==> Covered(t, s.workers[i], s.clock)
    ensures LeaseInv(s.(table := t))
  {
  }

  /** Two engaged workers hold different runs, whichever comes first. */
  lemma OthersHoldOthers(s: System, w: nat)
    requires Exclusive(s) && w < |s.workers| && Engaged(s.workers[w])
    ensures forall i :: 0 <= i < |s.workers| && i != w && Engaged(s.workers[i]) ==> s.workers[i].run != s.workers[w].run
  {
  }

  lemma ClaimKeepsLease(s: System, w: nat, r: nat, readAt: int, reply: Reply)
    requires LeaseInv(s) && Guard(s, ClaimRun(w, r, readAt, reply))
    ensures LeaseInv(Next(s, ClaimRun(w, r, readAt, reply)))
  {
    if !reply.LostBefore? {
      assert forall i :: 0 <= i < |s.workers| && Engaged(s.workers[i]) ==> s.workers[i].run != r;
      WorkerStep(s, Claim(s.table, r, readAt + LEASE), w, if reply.Answered? then Starting(r, readAt) else Idle);
    }
  }

  lemma HeartbeatKeepsLease(s: System, w: nat, readAt: int, reply: Reply)
    requires LeaseInv(s) && Guard(s, Heartbeat(w, readAt, reply))
    ensures LeaseInv(Next(s, Heartbeat(w, readAt, reply)))
  {
    var me := s.workers[w];
    OthersHoldOthers(s, w);
    var t := if reply.LostBefore? then s.table else Renew(s.table, me.run, readAt + LEASE);
    assert forall r <- s.table.runs :: r != me.run ==> t.runs[r] == s.table.runs[r];
    assert Covered(t, me, s.clock);
    WorkerStep(s, t, w, Next(s, Heartbeat(w, readAt, reply)).workers[w]);
  }

  lemma FinishKeepsLease(s: System, w: nat, succeeded: bool, reply: Reply)
    requires LeaseInv(s) && Guard(s, Finish(w, succeeded, reply))
    ensures LeaseInv(Next(s, Finish(w, succeeded, reply)))
  {
    var me := s.workers[w];
    var t := Next(s, Finish(w, succeeded, reply)).table;
    assert forall r <- s.table.runs :: r != me.run ==> t.runs[r] == s.table.runs[r];
    OthersHoldOthers(s, w);
    WorkerStep(s, t, w, Next(s, Finish(w, succeeded, reply)).workers[w]);
  }

  lemma RetryKeepsLease(s: System, w: nat, readAt: int, reply: Reply)
    requires LeaseInv(s) && Guard(s, Retry(w, readAt, reply))
    ensures LeaseInv(Next(s, Retry(w, readAt, reply)))
  {
    var t := Next(s, Retry(w, readAt, reply)).table;
    assert forall r <- s.table.runs :: r in t.runs && t.runs[r] == s.table.runs[r];
    assert Bounded(t);
    WorkerStep(s, t, w, Idle);
  }

  /** A row that is requeued, cancelled, or left alone by either reaper. */
  lemma ReapedRow(s: System, r: nat, t: Table, seenEnabled: bool)
    requires LeaseInv(s) && r in s.table.runs && t == Put(s.table, r, Requeued(s.table.runs[r], seenEnabled))
    ensures LeaseInv(s.(table := t)) <==> !(seenEnabled && Held(s, r))
  {
    if seenEnabled && Held(s, r) {
      var i :| 0 <= i < |s.workers| && Engaged(s.workers[i]) && s.workers[i].run == r;
      assert !Covered(t, s.workers[i], s.clock);
      assert s.(table := t).workers[i] == s.workers[i];
    } else {
      forall i | 0 <= i < |s.workers| && Engaged(s.workers[i])
        ensures Covered(t, s.workers[i], s.clock)
      {
        assert seenEnabled ==> s.workers[i].run != r;
      }
      TableStep(s, t);
    }
  }

  /** Rows kept, or ended: the users' actions. */
  lemma UserKeepsLease(s: System, t: Table)
    requires LeaseInv(s) && Bounded(t)
    requires forall r <- s.table.runs :: r in t.runs && (t.runs[r] == s.table.runs[r] || Terminal(t.runs[r].status))
    ensures LeaseInv(s.(table := t))
  {
    TableStep(s, t);
  }

  /** The condition per step: the invariant survives a step exactly when the step is
      harmless. */
  lemma StepExact(s: System, a: Action)
    requires LeaseInv(s) && Guard(s, a)
    ensures LeaseInv(Next(s, a)) <==> Harmless(s, a)
  {
    var t := s.table;
    match a
    case Tick(to) =>
    case ClaimRun(w, r, readAt, reply) => ClaimKeepsLease(s, w, r, readAt, reply);
    case LearnAttempt(w, ok) =>
      var me := s.workers[w];
      WorkerStep(s, t, w, if ok then Executing(me.run, me.seen, AttemptOf(t, me.run)) else Idle);
    case Heartbeat(w, readAt, reply) => HeartbeatKeepsLease(s, w, readAt, reply);
    case Finish(w, succeeded, reply) => FinishKeepsLease(s, w, succeeded, reply);
    case Retry(w, readAt, reply) => RetryKeepsLease(s, w, readAt, reply);
    case Crash(w) => WorkerStep(s, t, w, Idle);
    case Reap(r, readAt, seenEnabled) =>
      if LeaseExpired(t, r, readAt) {
        ReapedRow(s, r, ReapRow(t, r, readAt, seenEnabled), seenEnabled);
      }
    case BootReap(r, seenEnabled) =>
      if Is(t, r, Running) {
        ReapedRow(s, r, BootReapRow(t, r, seenEnabled), seenEnabled);
      }
    case UserCancel(r) => UserKeepsLease(s, Cancel(t, r));
    case NewRun(automation, at) => UserKeepsLease(s, Create(t, automation, at, None));
    case Toggle(automation, on) => UserKeepsLease(s, SetEnabled(t, automation, on));
  }

  /** A sequence of steps, all of them harmless. */
  ghost predicate HarmlessRun(s: System, actions: seq<Action>)
    decreases |actions|
  {
    actions == []
    || (Guard(s, actions[0]) && Harmless(s, actions[0]) && HarmlessRun(Next(s, actions[0]), actions[1..]))
  }

  ghost predicate GuardedRun(s: System, actions: seq<Action>)
    decreases |actions|
  {
    actions == [] || (Guard(s, actions[0]) && GuardedRun(Next(s, actions[0]), actions[1..]))
  }

  ghost function After(s: System, actions: seq<Action>): System
    requires GuardedRun(s, actions)
    decreases |actions|
  {
    if actions == [] then s else After(Next(s, actions[0]), actions[1..])
  }

  /** Mutual exclusion: from any table with no worker engaged, across claims, lost
      answers, missed heartbeats, crashes, reaps and cancellations in any order, no two
      workers ever hold the same run, as long as no reaper takes one from under a
      worker. */
  lemma {:induction false} MutualExclusion(s: System, actions: seq<Action>)
    requires LeaseInv(s) && HarmlessRun(s, actions)
    ensures GuardedRun(s, actions) && LeaseInv(After(s, actions)) && Exclusive(After(s, actions))
    decreases |actions|
  {
    if actions != [] {
      StepExact(s, actions[0]);
      MutualExclusion(Next(s, actions[0]), actions[1..]);
    }
  }

  lemma StartsExclusive(s: System)
    requires Bounded(s.table) && NoneEngaged(s)
    ensures LeaseInv(s)
  {
  }

  lemma SharedRun(s: System, i: nat, j: nat)
    requires i < |s.workers| && j < |s.workers| && i != j
    requires Engaged(s.workers[i]) && Engaged(s.workers[j]) && s.workers[i].run == s.workers[j].run
    ensures !Exclusive(s)
  {
    if i < j {
    } else {
      assert j < i;
    }
  }

  lemma RunStep(s: System, actions: seq<Action>, k: nat, end: System)
    requires k < |actions| && Guard(s, actions[k])
    requires GuardedRun(Next(s, actions[k]), actions[k + 1..]) && After(Next(s, actions[k]), actions[k + 1..]) == end
    ensures GuardedRun(s, actions[k..]) && After(s, actions[k..]) == end
  {
    assert actions[k..][1..] == actions[k + 1..];
  }

  /** One run after another. */
  lemma {:induction false} RunConcat(s: System, a: seq<Action>, b: seq<Action>)
    requires GuardedRun(s, a) && GuardedRun(After(s, a), b)
    ensures GuardedRun(s, a + b) && After(s, a + b) == After(After(s, a), b)
    decreases |a|
  {
    if a == [] {
      assert a + b == b;
    } else {
      assert (a + b)[1..] == a[1..] + b;
      RunConcat(Next(s, a[0]), a[1..], b);
    }
  }

  // ------------------------------------------------ what a harmful step leads to

  /** Steps that no reaper takes. */
  predicate NoReaps(actions: seq<Action>) {
    forall i :: 0 <= i < |actions| ==> !actions[i].Reap? && !actions[i].BootReap?
  }

  lemma {:induction false} NoReapsHarmless(s: System, actions: seq<Action>)
    requires GuardedRun(s, actions) && NoReaps(actions)
    ensures HarmlessRun(s, actions)
    decreases |actions|
  {
    if actions != [] {
      NoReapsHarmless(Next(s, actions[0]), actions[1..]);
    }
  }

  /** Users can cancel every run of a set. */
  lemma {:induction false} CancelAll(s: System, ids: set<nat>) returns (actions: seq<Action>)
    ensures GuardedRun(s, actions) && NoReaps(actions)
    ensures
      var s' := After(s, actions);
      && s'.workers == s.workers && s'.clock == s.clock && s'.table.enabled == s.table.enabled
      && (forall r :: r !in ids && r in s.table.runs ==> r in s'.table.runs && s'.table.runs[r] == s.table.runs[r])
      && (forall r :: Is(s'.table, r, Queued) ==> r !in ids && Is(s.table, r, Queued))
    decreases ids
  {
    actions := [];
    if ids != {} {
      var r :| r in ids;
      var more := CancelAll(Next(s, UserCancel(r)), ids - {r});
      actions := [UserCancel(r)] + more;
      assert actions[1..] == more;
    }
  }

  /** The only queued run of an enabled automation can be claimed in its time. */
  lemma ClaimOnly(s: System, r: nat, j: nat) returns (actions: seq<Action>)
    requires Is(s.table, r, Queued) && s.table.runs[r].automation in s.table.enabled
    requires forall q :: Is(s.table, q, Queued) ==> q == r
    requires j < |s.workers| && s.workers[j].Idle?
    ensures GuardedRun(s, actions) && NoReaps(actions)
    ensures exists seen :: After(s, actions).workers == s.workers[j := Starting(r, seen)]
  {
    var at := s.table.runs[r].scheduledFor;
    var now := if at < s.clock then s.clock else at;
    var s1 := Next(s, Tick(now));
    var claim := ClaimRun(j, r, now, Answered);
    var s2 := Next(s1, claim);
    actions := [Tick(now), claim];
    assert GuardedRun(s2, actions[2..]) && After(s2, actions[2..]) == s2;
    RunStep(s1, actions, 1, s2);
    RunStep(s, actions, 0, s2);
    assert actions[0..] == actions;
    assert s2.workers == s.workers[j := Starting(r, now)];
  }

  /** A queued run can be brought to the head of the queue and claimed. */
  lemma ClaimQueued(s: System, r: nat, j: nat) returns (actions: seq<Action>)
    requires Is(s.table, r, Queued) && j < |s.workers| && s.workers[j].Idle?
    ensures GuardedRun(s, actions) && NoReaps(actions)
    ensures exists seen :: After(s, actions).workers == s.workers[j := Starting(r, seen)]
  {
    var a := s.table.runs[r].automation;
    var s1 := Next(s, Toggle(a, true));
    var cancels := CancelAll(s1, s1.table.runs.Keys - {r});
    var s2 := After(s1, cancels);
    var last := ClaimOnly(s2, r, j);
    RunConcat(s1, cancels, last);
    actions := [Toggle(a, true)] + (cancels + last);
    assert actions[1..] == cancels + last;
  }

  /** The condition is the weakest there is: after any step that is not harmless, in
      any system of two workers or more, harmless steps alone put one run into two
      hands. */
  lemma HarmBreaksExclusion(s: System, a: Action) returns (more: seq<Action>)
    requires LeaseInv(s) && Guard(s, a) && !Harmless(s, a) && |s.workers| >= 2
    ensures HarmlessRun(Next(s, a), more) && GuardedRun(Next(s, a), more) && !Exclusive(After(Next(s, a), more))
  {
    var r := a.r;
    var i: nat :| i < |s.workers| && Engaged(s.workers[i]) && s.workers[i].run == r;
    var s1 := Next(s, a);
    assert Is(s1.table, r, Queued);
    var j := if i == 0 then 1 else 0;
    var s2 := Next(s1, Crash(j));
    var claim := ClaimQueued(s2, r, j);
    more := [Crash(j)] + claim;
    assert more[1..] == claim;
    SharedRun(After(s2, claim), i, j);
    NoReapsHarmless(s1, more);
  }
}
