/** Why no reaper takes a run from under a worker: heartbeats come in time. */
module LeaseTiming {
  import opened Prelude
  import opened RunTable
  import opened LeaseProtocol

  /** No engaged worker's row has an expired lease. */
  ghost predicate Unexpired(s: System) {
    forall i :: 0 <= i < |s.workers| && Engaged(s.workers[i]) ==> !LeaseExpired(s.table, s.workers[i].run, s.clock)
  }

  /** No engaged worker lives beyond the lease length since the reading behind its last
      successful claim or renewal. */
  ghost predicate Timely(s: System) {
    forall i :: 0 <= i < |s.workers| && Engaged(s.workers[i]) ==> s.clock <= s.workers[i].seen + LEASE
  }

  /** The lease reaper is harmless, whatever row it takes and whenever it read the
      clock, exactly while no engaged worker's lease has expired. */
  lemma UnexpiredExact(s: System)
    ensures Unexpired(s) <==> forall r, readAt :: readAt <= s.clock ==> Harmless(s, Reap(r, readAt, true))
  {
    if Unexpired(s) {
      forall r: nat, readAt: int | readAt <= s.clock && LeaseExpired(s.table, r, readAt)
        ensures !Held(s, r)
      {
        assert LeaseExpired(s.table, r, s.clock);
      }
    } else {
      var i :| 0 <= i < |s.workers| && Engaged(s.workers[i]) && LeaseExpired(s.table, s.workers[i].run, s.clock);
      assert Held(s, s.workers[i].run);
      assert !Harmless(s, Reap(s.workers[i].run, s.clock, true));
    }
  }

  /** A lease may outlast what its worker knows of, so timeliness is enough. */
  lemma TimelyUnexpired(s: System)
    requires LeaseInv(s) && Timely(s)
    ensures Unexpired(s)
  {
  }

  // ------------------------------------------------------------- heartbeats

  /** What is known of a worker's heartbeats: the reading of the latest one, and how
      many in a row were not answered. The claim counts as the first. */
  datatype Pace = Pace(last: int, misses: nat)

  /** A system whose heartbeats read the clock at most `gap` apart, take effect within
      `latency` of their readings, and never go unanswered more than `tolerated` times
      in a row. The clock does not pass the moment by which a worker's next heartbeat
      must have taken effect, and a boot reap meets none of the workers' runs. */
  ghost predicate PacedStep(s: System, ps: seq<Pace>, a: Action, gap: int, latency: int, tolerated: nat)
    requires |ps| == |s.workers|
  {
    && Guard(s, a)
    && match a
       case Tick(to) =>
         forall w :: 0 <= w < |ps| && Engaged(s.workers[w]) ==> to <= ps[w].last + gap + latency
       case ClaimRun(_, _, readAt, _) => s.clock <= readAt + latency
       case Heartbeat(w, readAt, reply) =>
         && readAt <= ps[w].last + gap && s.clock <= readAt + latency
         && (!reply.Answered? ==> ps[w].misses < tolerated)
       case BootReap(_, _) => Harmless(s, a)
       case _ => true
  }

  function Observe(ps: seq<Pace>, a: Action): seq<Pace>
    requires a.ClaimRun? || a.Heartbeat? ==> a.w < |ps|
  {
    match a
    case ClaimRun(w, _, readAt, _) => ps[w := Pace(readAt, 0)]
    case Heartbeat(w, readAt, reply) => ps[w := Pace(readAt, if reply.Answered? then 0 else ps[w].misses + 1)]
    case _ => ps
  }

  ghost predicate PacedRun(s: System, ps: seq<Pace>, actions: seq<Action>, gap: int, latency: int, tolerated: nat)
    requires |ps| == |s.workers|
    decreases |actions|
  {
    actions == []
    || (PacedStep(s, ps, actions[0], gap, latency, tolerated)
        && PacedRun(Next(s, actions[0]), Observe(ps, actions[0]), actions[1..], gap, latency, tolerated))
  }

  /** The latest heartbeat is as far from the last success as the misses allow, and the
      next one is not overdue. */
  predicate OnPace(w: Worker, p: Pace, clock: int, gap: int, latency: int, tolerated: nat)
    requires Engaged(w)
  {
    p.misses <= tolerated && p.last <= w.seen + p.misses * gap && clock <= p.last + gap + latency
  }

  ghost predicate PaceInv(s: System, ps: seq<Pace>, gap: int, latency: int, tolerated: nat) {
    && |ps| == |s.workers|
    && forall w :: 0 <= w < |ps| && Engaged(s.workers[w]) ==>
         OnPace(s.workers[w], ps[w], s.clock, gap, latency, tolerated)
  }

  /** Enough heartbeats within a lease keep every worker timely. */
  lemma PaceTimely(s: System, ps: seq<Pace>, gap: int, latency: int, tolerated: nat)
    requires PaceInv(s, ps, gap, latency, tolerated) && gap >= 0 && (tolerated + 1) * gap + latency <= LEASE
    ensures Timely(s)
  {
    forall w | 0 <= w < |ps| && Engaged(s.workers[w])
      ensures s.clock <= s.workers[w].seen + LEASE
    {
      assert OnPace(s.workers[w], ps[w], s.clock, gap, latency, tolerated);
      MissesBounded(ps[w].misses, tolerated, gap);
    }
  }

  lemma MissesBounded(misses: nat, tolerated: nat, gap: int)
    requires misses <= tolerated && gap >= 0
    ensures misses * gap + gap <= (tolerated + 1) * gap
  {
    assert (tolerated - misses) * gap >= 0;
    assert (tolerated + 1) * gap == misses * gap + (tolerated - misses) * gap + gap;
  }

  lemma StepKeepsPace(s: System, ps: seq<Pace>, a: Action, gap: int, latency: int, tolerated: nat)
    requires PaceInv(s, ps, gap, latency, tolerated) && PacedStep(s, ps, a, gap, latency, tolerated)
    requires gap >= 0 && latency >= 0
    ensures PaceInv(Next(s, a), Observe(ps, a), gap, latency, tolerated)
  {
    if a.Heartbeat? {
      var p := ps[a.w];
      assert OnPace(s.workers[a.w], p, s.clock, gap, latency, tolerated);
      assert (p.misses + 1) * gap == p.misses * gap + gap;
    }
  }

  /** Exclusion from heartbeats alone: when `tolerated` misses in a row, each followed by
      a heartbeat on time, fit into a lease, no two workers ever hold the same run. */
  lemma {:induction false} PacedExclusion(s: System, ps: seq<Pace>, actions: seq<Action>, gap: int, latency: int,
                                          tolerated: nat)
    requires LeaseInv(s) && PaceInv(s, ps, gap, latency, tolerated)
    requires PacedRun(s, ps, actions, gap, latency, tolerated)
    requires gap >= 0 && latency >= 0 && (tolerated + 1) * gap + latency <= LEASE
    ensures HarmlessRun(s, actions) && GuardedRun(s, actions) && Exclusive(After(s, actions))
    decreases |actions|
  {
    if actions != [] {
      var a := actions[0];
      PaceTimely(s, ps, gap, latency, tolerated);
      PacedHarmless(s, ps, a, gap, latency, tolerated);
      StepExact(s, a);
      StepKeepsPace(s, ps, a, gap, latency, tolerated);
      PacedExclusion(Next(s, a), Observe(ps, a), actions[1..], gap, latency, tolerated);
    }
  }

  lemma PacedHarmless(s: System, ps: seq<Pace>, a: Action, gap: int, latency: int, tolerated: nat)
    requires LeaseInv(s) && Timely(s) && |ps| == |s.workers| && PacedStep(s, ps, a, gap, latency, tolerated)
    ensures Guard(s, a) && Harmless(s, a)
  {
    TimelyUnexpired(s);
    UnexpiredExact(s);
    if a.Reap? {
      assert Harmless(s, Reap(a.r, a.readAt, true));
    }
  }

  /** The constants of the worker: four heartbeats in a row may fail while each comes
      within 35 seconds of the one before, five more than the worker waits, and takes
      effect within five. */
  lemma FourMisses(s: System, ps: seq<Pace>, actions: seq<Action>)
    requires Bounded(s.table) && NoneEngaged(s) && |ps| == |s.workers|
    requires PacedRun(s, ps, actions, 35_000, 5_000, 4)
    ensures GuardedRun(s, actions) && Exclusive(After(s, actions))
  {
    StartsExclusive(s);
    PacedExclusion(s, ps, actions, 35_000, 5_000, 4);
  }

  // -------------------------------------------------------------- too few

  /** Two workers, the first executing run 0 since the clock read 0. */
  ghost function Running0(lease: int, clock: int): System {
    System(Table(map[0 := Run(0, Running, 0, Some(lease), None)], {0}, 1), [Executing(0, 0, 1), Idle], clock)
  }

  ghost predicate PacedTo(s: System, ps: seq<Pace>, actions: seq<Action>, gap: int, latency: int, n: nat) {
    |ps| == |s.workers| && PacedRun(s, ps, actions, gap, latency, n) && GuardedRun(s, actions)
    && !Exclusive(After(s, actions))
  }

  lemma PacedPrepend(s: System, ps: seq<Pace>, a: Action, more: seq<Action>, gap: int, latency: int, n: nat)
    requires |ps| == |s.workers| && PacedStep(s, ps, a, gap, latency, n)
    requires PacedTo(Next(s, a), Observe(ps, a), more, gap, latency, n)
    ensures PacedTo(s, ps, [a] + more, gap, latency, n)
  {
    assert ([a] + more)[1..] == more;
  }

  /** After its last tolerated miss the first worker is overdue when its lease ends. */
  lemma OverdueShares(ps: seq<Pace>, gap: int, latency: int, n: nat, clock: int) returns (actions: seq<Action>)
    requires |ps| == 2 && ps[0].last + gap + latency > LEASE && ps[0].last + gap + latency >= clock && latency >= 0
    ensures PacedTo(Running0(LEASE, clock), ps, actions, gap, latency, n)
  {
    var late := ps[0].last + gap + latency;
    var s0 := Running0(LEASE, clock);
    var a0, a1, a2 := Tick(late), Reap(0, late, true), ClaimRun(1, 0, late, Answered);
    var s1 := Next(s0, a0);
    var s2 := Next(s1, a1);
    var s3 := Next(s2, a2);
    SharedRun(s3, 0, 1);
    PacedEnd(s3, Observe(ps, a2), gap, latency, n);
    PacedPrepend(s2, ps, a2, [], gap, latency, n);
    PacedPrepend(s1, ps, a1, [a2] + [], gap, latency, n);
    PacedPrepend(s0, ps, a0, [a1] + ([a2] + []), gap, latency, n);
    actions := [a0] + ([a1] + ([a2] + []));
  }

  lemma PacedEnd(s: System, ps: seq<Pace>, gap: int, latency: int, n: nat)
    requires |ps| == |s.workers| && !Exclusive(s)
    ensures PacedTo(s, ps, [], gap, latency, n)
  {
  }

  /** The misses that are left, each at the end of its gap. */
  lemma {:induction false} MissesShare(gap: int, latency: int, n: nat, misses: nat) returns (actions: seq<Action>)
    requires gap >= 0 && latency >= 0 && misses <= n && (n + 1) * gap + latency > LEASE
    ensures PacedTo(Running0(LEASE, misses * gap), [Pace(misses * gap, misses), Pace(0, 0)], actions, gap, latency, n)
    decreases n - misses
  {
    var at := misses * gap;
    var ps := [Pace(at, misses), Pace(0, 0)];
    assert (misses + 1) * gap == at + gap;
    if misses == n {
      actions := OverdueShares(ps, gap, latency, n, at);
    } else {
      var more := MissesShare(gap, latency, n, misses + 1);
      var s0 := Running0(LEASE, at);
      var a0, a1 := Tick(at + gap), Heartbeat(0, at + gap, LostBefore);
      var s1 := Next(s0, a0);
      assert at + gap >= 0 by {
        assert (misses + 1) * gap >= 0;
      }
      assert Next(s1, a1) == Running0(LEASE, at + gap);
      assert Observe(ps, a1) == [Pace(at + gap, misses + 1), Pace(0, 0)];
      PacedPrepend(s1, ps, a1, more, gap, latency, n);
      PacedPrepend(s0, ps, a0, [a1] + more, gap, latency, n);
      actions := [a0] + ([a1] + more);
    }
  }

  /** And when they do not fit, a system exactly as well paced can share a run: it is
      the length of the lease that decides. */
  lemma TooFewHeartbeats(gap: int, latency: int, n: nat)
      returns (s: System, ps: seq<Pace>, actions: seq<Action>)
    requires gap >= 0 && latency >= 0 && (n + 1) * gap + latency > LEASE
    ensures LeaseInv(s) && NoneEngaged(s) && PacedTo(s, ps, actions, gap, latency, n)
  {
    s := System(Table(map[0 := Run(0, Queued, 0, None, None)], {0}, 1), [Idle, Idle], 0);
    ps := [Pace(0, 0), Pace(0, 0)];
    var a0, a1 := ClaimRun(0, 0, 0, Answered), LearnAttempt(0, true);
    var s1 := Next(s, a0);
    var s2 := Next(s1, a1);
    assert AttemptOf(s1.table, 0) == 1;
    assert 0 * gap == 0;
    assert s2 == Running0(LEASE, 0);
    var more := MissesShare(gap, latency, n, 0);
    assert Observe(ps, a0) == ps;
    PacedPrepend(s1, ps, a1, more, gap, latency, n);
    PacedPrepend(s, ps, a0, [a1] + more, gap, latency, n);
    actions := [a0] + ([a1] + more);
  }

  /** So four misses in a row are tolerated at 35 seconds, and not at a millisecond more. */
  lemma FourMissesTight() returns (s: System, ps: seq<Pace>, actions: seq<Action>)
    ensures LeaseInv(s) && NoneEngaged(s) && PacedTo(s, ps, actions, 35_001, 5_000, 4)
  {
    s, ps, actions := TooFewHeartbeats(35_001, 5_000, 4);
  }
}
