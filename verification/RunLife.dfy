/** What becomes of a run: tried again until the attempts are used up, and let go by
    its worker once it has ended. */
module RunLife {
  import opened Prelude
  import opened RunTable
  import opened LeaseProtocol
  import opened RetryChains

  // --------------------------------------------------------- failing runs go on

  /** A finalize ends a running run as the agent ended. The worker goes on to retry
      exactly when it was answered, the agent had failed and attempts are left. */
  lemma RetriesExactly(s: System, w: nat, succeeded: bool, reply: Reply)
    requires ChainInv(s) && Guard(s, Finish(w, succeeded, reply))
    ensures
      var r := s.workers[w].run;
      && r in s.table.runs
      && (!reply.LostBefore? && s.table.runs[r].status == Running ==>
            Is(Next(s, Finish(w, succeeded, reply)).table, r, if succeeded then Succeeded else Failed))
      && (Next(s, Finish(w, succeeded, reply)).workers[w].Retrying? <==>
            reply.Answered? && !succeeded && s.table.runs[r].status == Running && Depth(s.table, r) < 3)
  {
    assert MemoryOk(s.table, s.workers[w]);
  }

  /** Its retry leaves a successor exactly when the automation is enabled and the call
      took effect. */
  lemma RetryLeavesSuccessor(s: System, w: nat, readAt: int, reply: Reply)
    requires ChainInv(s) && Guard(s, Retry(w, readAt, reply))
    ensures
      var r := s.workers[w].run;
      && r in s.table.runs
      && ((exists q :: Succeeds(Next(s, Retry(w, readAt, reply)).table, q, r)) <==>
            !reply.LostBefore? && s.table.runs[r].automation in s.table.enabled)
  {
    assert MemoryOk(s.table, s.workers[w]);
    var r := s.workers[w].run;
    var t' := Next(s, Retry(w, readAt, reply)).table;
    if !reply.LostBefore? && s.table.runs[r].automation in s.table.enabled {
      assert Succeeds(t', s.table.next, r);
    } else {
      assert t' == s.table;
    }
  }

  /** One step before a run. */
  lemma Prepend(s: System, a: Action, rest: seq<Action>)
    requires Guard(s, a) && GuardedRun(Next(s, a), rest)
    ensures GuardedRun(s, [a] + rest) && After(s, [a] + rest) == After(Next(s, a), rest)
  {
    assert ([a] + rest)[1..] == rest;
  }

  lemma Stay(s: System)
    ensures GuardedRun(s, []) && After(s, []) == s
  {
  }

  /** The run is the only one in the queue, and its automation is enabled. */
  ghost predicate OnlyQueued(t: Table, r: nat) {
    Is(t, r, Queued) && t.runs[r].automation in t.enabled && forall q :: Is(t, q, Queued) ==> q == r
  }

  /** A worker of an idle system takes up the run. */
  lemma TakenUp(s: System, r: nat, j: nat) returns (actions: seq<Action>, s': System)
    requires ChainInv(s) && OnlyQueued(s.table, r) && j < |s.workers| && s.workers[j].Idle?
    ensures GuardedRun(s, actions) && After(s, actions) == s' && ChainInv(s') && |s'.workers| == |s.workers|
    ensures Is(s'.table, r, Running) && s'.table.runs[r].automation in s'.table.enabled
    ensures s'.workers[j].Starting? && s'.workers[j].run == r
    ensures Depth(s'.table, r) == Depth(s.table, r) && forall q :: !Is(s'.table, q, Queued)
  {
    var at := s.table.runs[r].scheduledFor;
    var now := if at < s.clock then s.clock else at;
    var s1 := Next(s, Tick(now));
    var claim := ClaimRun(j, r, now, Answered);
    s' := Next(s1, claim);
    StepKeepsChains(s, Tick(now));
    StepKeepsChains(s1, claim);
    StepGrows(s1, claim);
    DepthStable(s1.table, s'.table, r);
    forall q
      ensures !Is(s'.table, q, Queued)
    {
      assert Is(s.table, q, Queued) ==> q == r;
    }
    hide ChainInv, Depth;
    Stay(s');
    Prepend(s1, claim, []);
    Prepend(s, Tick(now), [claim] + []);
    actions := [Tick(now)] + ([claim] + []);
  }

  /** And its agent fails. */
  lemma AgentFails(s: System, r: nat, j: nat) returns (actions: seq<Action>, s': System)
    requires ChainInv(s) && j < |s.workers| && s.workers[j].Starting? && s.workers[j].run == r
    requires Is(s.table, r, Running) && forall q :: !Is(s.table, q, Queued)
    ensures GuardedRun(s, actions) && After(s, actions) == s' && ChainInv(s') && |s'.workers| == |s.workers|
    ensures Is(s'.table, r, Failed) && s'.table.enabled == s.table.enabled
    ensures s'.table.runs[r].automation == s.table.runs[r].automation
    ensures Depth(s'.table, r) == Depth(s.table, r) && forall q :: !Is(s'.table, q, Queued)
    ensures s'.workers[j] == if Depth(s.table, r) < MAX_ATTEMPTS then Retrying(r, Depth(s.table, r)) else Idle
  {
    var learn, finish := LearnAttempt(j, true), Finish(j, false, Answered);
    var s1 := Next(s, learn);
    s' := Next(s1, finish);
    StepKeepsChains(s, learn);
    StepKeepsChains(s1, finish);
    StepGrows(s1, finish);
    DepthStable(s1.table, s'.table, r);
    forall q
      ensures !Is(s'.table, q, Queued)
    {
      assert !Is(s.table, q, Queued);
    }
    Stay(s');
    hide ChainInv;
    Prepend(s1, finish, []);
    Prepend(s, learn, [finish] + []);
    actions := [learn] + ([finish] + []);
  }

  /** A worker takes the run, and the agent fails. */
  lemma FailingTurn(s: System, r: nat, j: nat) returns (actions: seq<Action>, s': System)
    requires ChainInv(s) && OnlyQueued(s.table, r) && j < |s.workers| && s.workers[j].Idle?
    ensures GuardedRun(s, actions) && After(s, actions) == s' && ChainInv(s')
    ensures |s'.workers| == |s.workers| && r in s'.table.runs && Depth(s'.table, r) == Depth(s.table, r)
    ensures Is(s'.table, r, Failed) && s'.table.runs[r].automation in s'.table.enabled
    ensures forall q :: !Is(s'.table, q, Queued)
    ensures s'.workers[j] == if Depth(s.table, r) < MAX_ATTEMPTS then Retrying(r, Depth(s.table, r)) else Idle
  {
    var first, mid := TakenUp(s, r, j);
    var fails;
    fails, s' := AgentFails(mid, r, j);
    RunConcat(s, first, fails);
    actions := first + fails;
    hide ChainInv, GuardedRun, Guard, Next;
  }

  /** The retry puts one successor in the queue. */
  lemma RetryTurn(s: System, r: nat, j: nat) returns (s': System, next: nat)
    requires ChainInv(s) && j < |s.workers| && s.workers[j].Retrying? && s.workers[j].run == r
    requires r in s.table.runs && s.table.runs[r].automation in s.table.enabled
    requires forall q :: !Is(s.table, q, Queued)
    ensures Guard(s, Retry(j, s.clock, Answered)) && s' == Next(s, Retry(j, s.clock, Answered)) && ChainInv(s')
    ensures |s'.workers| == |s.workers| && s'.workers[j].Idle?
    ensures OnlyQueued(s'.table, next) && Succeeds(s'.table, next, r)
    ensures Depth(s'.table, next) == Depth(s.table, r) + 1
  {
    assert MemoryOk(s.table, s.workers[j]);
    s' := Next(s, Retry(j, s.clock, Answered));
    StepKeepsChains(s, Retry(j, s.clock, Answered));
    next := s.table.next;
    DepthStable(s.table, s'.table, r);
    forall q | Is(s'.table, q, Queued)
      ensures q == next
    {
      assert !Is(s.table, q, Queued);
    }
  }

  /** `last` ends a chain that `r` is part of. */
  ghost predicate Continues(t: Table, r: nat, last: nat) {
    Linked(t) && last in t.runs && r in Chain(t, last)
  }

  lemma ChainGoesOn(t: Table, r: nat, next: nat, last: nat)
    requires Continues(t, next, last) && Succeeds(t, next, r)
    ensures Continues(t, r, last)
    decreases last
  {
    var p := t.runs[last].previous;
    if next != last {
      ChainGoesOn(t, r, next, p.value);
    } else {
      assert Chain(t, last) == [last] + Chain(t, r);
      assert Chain(t, last)[1] == r;
    }
  }

  /** The whole budget is used: from any table, a queued run of an enabled automation
      whose agent fails every time is tried until its chain has three rows, and then no
      more. */
  lemma ChainFills(s: System, r: nat, j: nat) returns (actions: seq<Action>, last: nat)
    requires ChainInv(s) && OnlyQueued(s.table, r) && j < |s.workers| && s.workers[j].Idle?
    ensures GuardedRun(s, actions)
    ensures
      var t := After(s, actions).table;
      && Continues(t, r, last) && |Chain(t, last)| == 3 && Is(t, last, Failed)
      && forall q :: !Is(t, q, Queued) && !Succeeds(t, q, last)
    decreases MAX_ATTEMPTS - Depth(s.table, r)
  {
    var turn, s1 := FailingTurn(s, r, j);
    if Depth(s.table, r) < MAX_ATTEMPTS {
      var s2, next := RetryTurn(s1, r, j);
      var more;
      more, last := ChainFills(s2, next, j);
      Prepend(s1, Retry(j, s1.clock, Answered), more);
      RunConcat(s, turn, [Retry(j, s1.clock, Answered)] + more);
      actions := turn + ([Retry(j, s1.clock, Answered)] + more);
      TerminalForever(s2, more);
      ChainsStayShort(s2, more);
      ChainGoesOn(After(s2, more).table, r, next, last);
    } else {
      actions, last := turn, r;
      assert Chain(s1.table, r)[0] == r;
    }
  }

  // -------------------------------------------------------- ended runs are let go

  predicate Holds(w: Worker, r: nat) {
    Engaged(w) && w.run == r
  }

  /** What an answered heartbeat does: it moves the lease of a running row, and tells the
      worker of any other row to stop. */
  lemma HeartbeatTells(s: System, w: nat, readAt: int)
    requires Guard(s, Heartbeat(w, readAt, Answered))
    ensures
      var r, s' := s.workers[w].run, Next(s, Heartbeat(w, readAt, Answered));
      if Is(s.table, r, Running) then
        s'.table.runs[r].leaseUntil == Some(readAt + LEASE) && Holds(s'.workers[w], r) && s'.workers[w].seen == readAt
      else s'.workers[w].Idle? && s'.table == s.table
  {
  }

  /** A worker that crashes, cannot learn its attempt, or is done, holds nothing. */
  lemma LetsGo(s: System, a: Action)
    requires Guard(s, a) && (a.Crash? || (a.LearnAttempt? && !a.ok) || a.Finish? || a.Retry?)
    ensures !Engaged(Next(s, a).workers[a.w]) && (a.Crash? || a.LearnAttempt? ==> Next(s, a).table == s.table)
  {
  }

  /** A new run goes to the queue exactly when its automation is enabled. */
  lemma NewRunQueued(s: System, automation: nat, at: int)
    requires Bounded(s.table)
    ensures
      var t, t' := s.table, Next(s, NewRun(automation, at)).table;
      if automation in t.enabled then
        && t'.runs.Keys == t.runs.Keys + {t.next} && t.next !in t.runs
        && t'.runs[t.next] == Run(automation, Queued, at, None, None)
        && forall q <- t.runs :: t'.runs[q] == t.runs[q]
      else t' == t
  {
  }

  /** A repository call that a worker makes, with another way for it to end. */
  predicate Calls(a: Action) {
    a.ClaimRun? || a.Heartbeat? || a.Finish? || a.Retry?
  }

  /** What a lost answer means. A call that failed before it took effect changes nothing
      in the table; one that failed after changes it just as an answered call does, and
      the worker learns nothing of it: it holds no run it claimed, keeps what it had for a
      heartbeat, and goes idle after a finalize or a retry. */
  lemma LostAnswers(s: System, a: Action)
    requires Guard(s, a) && Calls(a) && !a.reply.Answered?
    ensures Guard(s, a.(reply := Answered))
    ensures Next(s, a).table == if a.reply.LostBefore? then s.table else Next(s, a.(reply := Answered)).table
    ensures Next(s, a).workers[a.w] == if a.Heartbeat? then s.workers[a.w] else Idle
  {
  }

  /** Nobody takes up a run that has ended. */
  lemma {:induction false} StaysAway(s: System, r: nat, w: nat, actions: seq<Action>)
    requires Bounded(s.table) && r in s.table.runs && Terminal(s.table.runs[r].status)
    requires w < |s.workers| && !Holds(s.workers[w], r) && GuardedRun(s, actions)
    ensures |After(s, actions).workers| == |s.workers| && !Holds(After(s, actions).workers[w], r)
    decreases |actions|
  {
    if actions != [] {
      StepGrows(s, actions[0]);
      StaysAway(Next(s, actions[0]), r, w, actions[1..]);
    }
  }

  /** A run that was cancelled, or has ended otherwise, is let go by whoever held it at
      the next heartbeat that is answered, and never taken up by that worker again. */
  lemma {:induction false} EndedRunLetGo(s: System, r: nat, w: nat, actions: seq<Action>, k: nat)
    requires Bounded(s.table) && r in s.table.runs && Terminal(s.table.runs[r].status)
    requires w < |s.workers| && GuardedRun(s, actions) && k < |actions|
    requires actions[k].Heartbeat? && actions[k].w == w && actions[k].reply.Answered?
    ensures |After(s, actions).workers| == |s.workers| && !Holds(After(s, actions).workers[w], r)
    decreases |actions|
  {
    var s1 := Next(s, actions[0]);
    StepGrows(s, actions[0]);
    if k == 0 {
      StaysAway(s1, r, w, actions[1..]);
    } else {
      EndedRunLetGo(s1, r, w, actions[1..], k - 1);
    }
  }
}
