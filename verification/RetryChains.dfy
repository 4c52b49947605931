/** Retry chains, with no timing assumption: two workers may even execute one run, and
    still each run ends once, has at most one successor, and no chain outgrows the
    retry budget. */
module RetryChains {
  import opened Prelude
  import opened RunTable
  import opened LeaseProtocol

  /** No row disappears, no link changes, and an ended run stays exactly as it is. */
  ghost predicate Grows(t: Table, t': Table) {
    && t.next <= t'.next
    && forall r <- t.runs ::
         && r in t'.runs
         && t'.runs[r].previous == t.runs[r].previous
         && (Terminal(t.runs[r].status) ==> t'.runs[r] == t.runs[r])
  }

  lemma StepGrows(s: System, a: Action)
    requires Bounded(s.table) && Guard(s, a)
    ensures Grows(s.table, Next(s, a).table) && Bounded(Next(s, a).table)
  {
  }

  /** An ended run keeps its status, whatever happens afterwards and however late. */
  lemma {:induction false} TerminalForever(s: System, actions: seq<Action>)
    requires Bounded(s.table) && GuardedRun(s, actions)
    ensures Grows(s.table, After(s, actions).table) && Bounded(After(s, actions).table)
    decreases |actions|
  {
    if actions != [] {
      StepGrows(s, actions[0]);
      TerminalForever(Next(s, actions[0]), actions[1..]);
    }
  }

  /** Attempt numbers never change: they depend on the links alone. */
  lemma DepthStable(t: Table, t': Table, r: nat)
    requires Linked(t) && Linked(t') && Grows(t, t') && r in t.runs
    ensures Depth(t', r) == Depth(t, r)
  {
    DepthKept(t, t', r);
  }

  // ------------------------------------------------------------- invariant

  ghost predicate Succeeds(t: Table, r: nat, p: nat) {
    r in t.runs && t.runs[r].previous == Some(p)
  }

  /** Predecessors have failed, successors are unique, chains are short. */
  ghost predicate ChainsOk(t: Table) {
    && Linked(t)
    && (forall r, p :: Succeeds(t, r, p) ==> Is(t, p, Failed))
    && (forall q, r, p :: Succeeds(t, q, p) && Succeeds(t, r, p) ==> q == r)
    && (forall r <- t.runs :: Depth(t, r) <= MAX_ATTEMPTS)
  }

  /** A worker's memory agrees with the table; one about to retry is the only one
      entitled to, and nobody has yet. */
  ghost predicate MemoryOk(t: Table, w: Worker)
    requires Linked(t)
  {
    match w
    case Idle => true
    case Starting(r, _) => r in t.runs
    case Executing(r, _, attempt) => r in t.runs && attempt == Depth(t, r)
    case Retrying(r, attempt) =>
      Is(t, r, Failed) && attempt == Depth(t, r) < MAX_ATTEMPTS && forall q :: !Succeeds(t, q, r)
  }

  ghost predicate RetriesApart(ws: seq<Worker>) {
    forall i, j :: 0 <= i < j < |ws| && ws[i].Retrying? && ws[j].Retrying? ==> ws[i].run != ws[j].run
  }

  ghost predicate ChainInv(s: System) {
    ChainsOk(s.table) && RetriesApart(s.workers) && forall w :: 0 <= w < |s.workers| ==> MemoryOk(s.table, s.workers[w])
  }

  lemma StartsChained(s: System)
    requires Bounded(s.table) && (forall r <- s.table.runs :: s.table.runs[r].previous.None?)
    requires forall w :: 0 <= w < |s.workers| ==> s.workers[w].Idle?
    ensures ChainInv(s)
  {
  }

  // -------------------------------------------------- statements of the table

  /** A statement that adds no row and no link. */
  ghost predicate Updates(t: Table, t': Table) {
    Grows(t, t') && t'.runs.Keys == t.runs.Keys
  }

  lemma UpdateKeepsChains(t: Table, t': Table)
    requires ChainsOk(t) && Updates(t, t')
    ensures ChainsOk(t')
  {
    assert Linked(t');
    forall r | r in t'.runs
      ensures Depth(t', r) <= MAX_ATTEMPTS
    {
      DepthStable(t, t', r);
    }
    forall r, p | Succeeds(t', r, p)
      ensures Is(t', p, Failed) && Succeeds(t, r, p)
    {
      assert Succeeds(t, r, p) && Is(t, p, Failed);
    }
  }

  lemma UpdateKeepsMemory(t: Table, t': Table, w: Worker)
    requires ChainsOk(t) && ChainsOk(t') && Updates(t, t') && MemoryOk(t, w)
    ensures MemoryOk(t', w)
  {
    if !w.Idle? {
      DepthStable(t, t', w.run);
    }
    if w.Retrying? {
      forall q
        ensures !Succeeds(t', q, w.run)
      {
        assert !Succeeds(t, q, w.run);
      }
    }
  }

  /** A new row at the end of a chain that may still grow. */
  lemma CreateKeepsChains(t: Table, automation: nat, at: int, previous: Option<nat>)
    requires ChainsOk(t)
    requires previous.Some? ==>
               Is(t, previous.value, Failed) && Depth(t, previous.value) < MAX_ATTEMPTS
               && forall q :: !Succeeds(t, q, previous.value)
    ensures ChainsOk(Create(t, automation, at, previous))
    ensures Grows(t, Create(t, automation, at, previous))
  {
    var t' := Create(t, automation, at, previous);
    if automation in t.enabled {
      assert Linked(t');
      forall r | r in t'.runs
        ensures Depth(t', r) <= MAX_ATTEMPTS
      {
        if r != t.next {
          DepthStable(t, t', r);
        } else if previous.Some? {
          DepthStable(t, t', previous.value);
        }
      }
      forall r, p | Succeeds(t', r, p)
        ensures Is(t', p, Failed)
      {
        assert r != t.next ==> Succeeds(t, r, p);
      }
      forall q, r, p | Succeeds(t', q, p) && Succeeds(t', r, p)
        ensures q == r
      {
        assert q != t.next ==> Succeeds(t, q, p);
        assert r != t.next ==> Succeeds(t, r, p);
      }
    }
  }

  lemma CreateKeepsMemory(t: Table, automation: nat, at: int, previous: Option<nat>, w: Worker)
    requires ChainsOk(t) && ChainsOk(Create(t, automation, at, previous))
    requires Grows(t, Create(t, automation, at, previous)) && MemoryOk(t, w)
    requires w.Retrying? ==> previous != Some(w.run)
    ensures MemoryOk(Create(t, automation, at, previous), w)
  {
    var t' := Create(t, automation, at, previous);
    if !w.Idle? {
      DepthStable(t, t', w.run);
    }
    if w.Retrying? {
      forall q
        ensures !Succeeds(t', q, w.run)
      {
        assert !Succeeds(t, q, w.run);
      }
    }
  }

  // ------------------------------------------------------------------ steps

  /** One worker's step over a table that gained no row. */
  lemma UpdateStep(s: System, t: Table, w: nat, worker: Worker)
    requires ChainInv(s) && Updates(s.table, t) && w < |s.workers|
    requires MemoryOk(s.table, worker) || (Linked(t) && MemoryOk(t, worker))
    requires worker.Retrying? ==>
               forall i :: 0 <= i < |s.workers| && i != w && s.workers[i].Retrying? ==> s.workers[i].run != worker.run
    ensures ChainInv(Set(s, t, w, worker))
  {
    UpdateKeepsChains(s.table, t);
    var ws := s.workers[w := worker];
    forall i | 0 <= i < |ws|
      ensures MemoryOk(t, ws[i])
    {
      if i != w || MemoryOk(s.table, worker) {
        UpdateKeepsMemory(s.table, t, ws[i]);
      }
    }
  }

  lemma TableUpdateStep(s: System, t: Table)
    requires ChainInv(s) && Updates(s.table, t)
    ensures ChainInv(s.(table := t))
  {
    UpdateKeepsChains(s.table, t);
    forall i | 0 <= i < |s.workers|
      ensures MemoryOk(t, s.workers[i])
    {
      UpdateKeepsMemory(s.table, t, s.workers[i]);
    }
  }

  lemma FinishStep(s: System, w: nat, succeeded: bool, reply: Reply)
    requires ChainInv(s) && Guard(s, Finish(w, succeeded, reply))
    ensures ChainInv(Next(s, Finish(w, succeeded, reply)))
  {
    var s' := Next(s, Finish(w, succeeded, reply));
    var me := s.workers[w];
    var worker := s'.workers[w];
    assert MemoryOk(s.table, me);
    assert Updates(s.table, s'.table);
    UpdateKeepsChains(s.table, s'.table);
    if worker.Retrying? {
      DepthStable(s.table, s'.table, me.run);
      forall q
        ensures !Succeeds(s'.table, q, me.run)
      {
        assert Succeeds(s.table, q, me.run) ==> Is(s.table, me.run, Failed);
      }
      forall i | 0 <= i < |s.workers| && i != w && s.workers[i].Retrying?
        ensures s.workers[i].run != me.run
      {
        assert MemoryOk(s.table, s.workers[i]);
      }
    }
    UpdateStep(s, s'.table, w, worker);
  }

  lemma RetryStep(s: System, w: nat, readAt: int, reply: Reply)
    requires ChainInv(s) && Guard(s, Retry(w, readAt, reply))
    ensures ChainInv(Next(s, Retry(w, readAt, reply)))
  {
    var t := s.table;
    var me := s.workers[w];
    assert MemoryOk(t, me);
    if reply.LostBefore? {
      UpdateStep(s, t, w, Idle);
    } else {
      var a := t.runs[me.run].automation;
      var at := readAt + RetryBackoff(me.attempt).value;
      CreateKeepsChains(t, a, at, Some(me.run));
      var s' := Next(s, Retry(w, readAt, reply));
      forall i | 0 <= i < |s'.workers|
        ensures MemoryOk(s'.table, s'.workers[i])
      {
        if i != w {
          CreateKeepsMemory(t, a, at, Some(me.run), s.workers[i]);
        }
      }
    }
  }

  lemma NewRunStep(s: System, automation: nat, at: int)
    requires ChainInv(s)
    ensures ChainInv(Next(s, NewRun(automation, at)))
  {
    CreateKeepsChains(s.table, automation, at, None);
    var s' := Next(s, NewRun(automation, at));
    forall i | 0 <= i < |s'.workers|
      ensures MemoryOk(s'.table, s'.workers[i])
    {
      CreateKeepsMemory(s.table, automation, at, None, s.workers[i]);
    }
  }

  lemma StepKeepsChains(s: System, a: Action)
    requires ChainInv(s) && Guard(s, a)
    ensures ChainInv(Next(s, a))
  {
    var t := s.table;
    StepGrows(s, a);
    match a
    case Tick(to) =>
    case ClaimRun(w, r, readAt, reply) =>
      UpdateStep(s, Next(s, a).table, w, if reply.Answered? then Starting(r, readAt) else Idle);
    case LearnAttempt(w, ok) => UpdateStep(s, t, w, Next(s, a).workers[w]);
    case Heartbeat(w, readAt, reply) => UpdateStep(s, Next(s, a).table, w, Next(s, a).workers[w]);
    case Finish(w, succeeded, reply) => FinishStep(s, w, succeeded, reply);
    case Retry(w, readAt, reply) => RetryStep(s, w, readAt, reply);
    case Crash(w) => UpdateStep(s, t, w, Idle);
    case Reap(r, readAt, seenEnabled) => TableUpdateStep(s, Next(s, a).table);
    case BootReap(r, seenEnabled) => TableUpdateStep(s, Next(s, a).table);
    case UserCancel(r) => TableUpdateStep(s, Next(s, a).table);
    case NewRun(automation, at) => NewRunStep(s, automation, at);
    case Toggle(automation, on) => TableUpdateStep(s, Next(s, a).table);
  }

  // ------------------------------------------------------------------- runs

  lemma {:induction false} ChainsStayShort(s: System, actions: seq<Action>)
    requires ChainInv(s) && GuardedRun(s, actions)
    ensures ChainInv(After(s, actions))
    decreases |actions|
  {
    if actions != [] {
      StepKeepsChains(s, actions[0]);
      ChainsStayShort(Next(s, actions[0]), actions[1..]);
    }
  }

  /** What that says of one chain: within budget, every row but the newest failed, and
      each earlier row is continued by the chain's next row and by no other. */
  lemma {:induction false} ChainShape(t: Table, r: nat, k: nat)
    requires ChainsOk(t) && r in t.runs && k < |Chain(t, r)|
    ensures |Chain(t, r)| <= MAX_ATTEMPTS
    ensures Chain(t, r)[k] in t.runs
    ensures k > 0 ==>
              Is(t, Chain(t, r)[k], Failed) && forall q :: Succeeds(t, q, Chain(t, r)[k]) <==> q == Chain(t, r)[k - 1]
    decreases r
  {
    var p := t.runs[r].previous;
    if p.Some? && k > 0 {
      assert Chain(t, r)[k] == Chain(t, p.value)[k - 1];
      ChainShape(t, p.value, k - 1);
      if k == 1 {
        assert Succeeds(t, r, p.value);
      } else {
        assert Chain(t, r)[k - 1] == Chain(t, p.value)[k - 2];
      }
    }
  }

  /** A worker comes to retry in one way only: its own finalize found the run running,
      ended it as failed, and the answer arrived. */
  lemma RetryOrigin(s: System, a: Action, w: nat)
    requires ChainInv(s) && Guard(s, a) && w < |s.workers|
    requires Next(s, a).workers[w].Retrying? && Next(s, a).workers[w] != s.workers[w]
    ensures a == Finish(w, false, Answered)
    ensures var r := Next(s, a).workers[w].run;
            && s.workers[w] == Executing(r, s.workers[w].seen, Depth(s.table, r))
            && Is(s.table, r, Running) && Is(Next(s, a).table, r, Failed)
            && Depth(s.table, r) < MAX_ATTEMPTS
  {
    assert MemoryOk(s.table, s.workers[w]);
  }

  /** A successor comes into being in one way only: through the one worker entitled to
      retry its predecessor. */
  lemma SuccessorOrigin(s: System, a: Action, r: nat, p: nat)
    requires ChainInv(s) && Guard(s, a)
    requires Succeeds(Next(s, a).table, r, p) && !Succeeds(s.table, r, p)
    ensures a.Retry? && s.workers[a.w].Retrying? && s.workers[a.w].run == p && r == s.table.next
    ensures !Next(s, a).workers[a.w].Retrying?
    ensures
      var run := Next(s, a).table.runs[r];
      && p in s.table.runs && run.status == Queued && run.automation == s.table.runs[p].automation
      && run.scheduledFor == a.readAt + if Depth(s.table, p) == 1 then 30_000 else 120_000
  {
    StepGrows(s, a);
    if a.Retry? {
      assert MemoryOk(s.table, s.workers[a.w]);
    }
  }
}
