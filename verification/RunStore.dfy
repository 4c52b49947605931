/** The repository object: each method runs one statement group over the table. */
module RunStore {
  import opened Prelude
  import opened RunTable

  /** At most row `r` changed: no other row, no row added or removed, nothing enabled or
      disabled. */
  ghost predicate OnlyRow(t: Table, t': Table, r: nat) {
    && t'.enabled == t.enabled && t'.next == t.next && t'.runs.Keys == t.runs.Keys
    && forall q <- t.runs :: q != r ==> t'.runs[q] == t.runs[q]
  }

  /** A row keeps what is not its status or its lease. */
  predicate SameRun(a: Run, b: Run) {
    a.automation == b.automation && a.scheduledFor == b.scheduledFor && a.previous == b.previous
  }

  /** No row was added, removed or moved to another automation, chain or time, and
      nothing was enabled or disabled. */
  ghost predicate SameRows(t: Table, t': Table) {
    && t'.enabled == t.enabled && t'.next == t.next && t'.runs.Keys == t.runs.Keys
    && forall r <- t.runs :: SameRun(t'.runs[r], t.runs[r])
  }

  /** Back in the queue, or cancelled if its automation is disabled. */
  predicate PutBack(run: Run, enabled: bool) {
    run.leaseUntil.None? && run.status == if enabled then Queued else Cancelled
  }

  class Store {
    var table: Table

    constructor (table: Table)
      ensures this.table == table
    {
      this.table := table;
    }

    /** Takes the oldest due run, if there is one, and marks it running. */
    method ClaimDueRun(now: int, leaseUntil: int) returns (claimed: Option<nat>)
      modifies this
      ensures claimed.None? ==>
                && table == old(table)
                && forall r <- old(table).runs ::
                     var run := old(table).runs[r];
                     !(run.status == Queued && run.scheduledFor <= now && run.automation in old(table).enabled)
      ensures claimed.Some? ==>
                && claimed.value in old(table).runs && OnlyRow(old(table), table, claimed.value)
                && var run, run' := old(table).runs[claimed.value], table.runs[claimed.value];
                   && run.status == Queued && run.scheduledFor <= now && run.automation in old(table).enabled
                   && SameRun(run', run) && run'.status == Running && run'.leaseUntil == Some(leaseUntil)
                   && forall q <- old(table).runs ::
                        var other := old(table).runs[q];
                        other.status == Queued && other.automation in old(table).enabled ==>
                          run.scheduledFor <= other.scheduledFor
      ensures claimed.Some? ==>
                OldestDue(old(table), claimed.value, now) && table == Claim(old(table), claimed.value, leaseUntil)
    {
      claimed := None;
      var left := table.runs.Keys;
      while left != {}
        invariant table == old(table) && left <= table.runs.Keys
        invariant claimed.None? ==> forall r <- table.runs :: Due(table, r, now) ==> r in left
        invariant claimed.Some? ==> Due(table, claimed.value, now)
        invariant claimed.Some? ==> forall r <- table.runs :: Due(table, r, now) && r !in left ==>
                    table.runs[claimed.value].scheduledFor <= table.runs[r].scheduledFor
      {
        var r :| r in left;
        left := left - {r};
        if Due(table, r, now)
           && (claimed.None? || table.runs[r].scheduledFor < table.runs[claimed.value].scheduledFor) {
          claimed := Some(r);
        }
      }
      if claimed.Some? {
        table := Claim(table, claimed.value, leaseUntil);
      }
    }

    /** A running row's lease is moved and nothing else; false, and no change, when the
        row is no longer running. */
    method RenewLease(r: nat, leaseUntil: int) returns (ours: bool)
      modifies this
      ensures ours <==> Is(old(table), r, Running)
      ensures !ours ==> table == old(table)
      ensures ours ==> OnlyRow(old(table), table, r) && SameRun(table.runs[r], old(table).runs[r])
      ensures ours ==> table.runs[r].status == Running && table.runs[r].leaseUntil == Some(leaseUntil)
      ensures table == Renew(old(table), r, leaseUntil)
    {
      ours := r in table.runs && table.runs[r].status == Running;
      if ours {
        table := table.(runs := table.runs[r := table.runs[r].(leaseUntil := Some(leaseUntil))]);
      }
    }

    /** A running row ends and holds no lease any more; false, and no change, when it was
        not running, so a run is ended once. */
    method FinalizeRun(r: nat, s: Status) returns (owned: bool)
      requires s == Succeeded || s == Failed
      modifies this
      ensures owned <==> Is(old(table), r, Running)
      ensures !owned ==> table == old(table)
      ensures owned ==> OnlyRow(old(table), table, r) && SameRun(table.runs[r], old(table).runs[r])
      ensures owned ==> table.runs[r].status == s && table.runs[r].leaseUntil.None?
      ensures table == Finalize(old(table), r, s)
    {
      owned := r in table.runs && table.runs[r].status == Running;
      if owned {
        table := table.(runs := table.runs[r := table.runs[r].(status := s, leaseUntil := None)]);
      }
    }

    /** A run that has not ended is cancelled; false, and no change, when it had. */
    method CancelRun(r: nat) returns (cancelled: bool)
      modifies this
      ensures cancelled <==> r in old(table).runs && !Terminal(old(table).runs[r].status)
      ensures !cancelled ==> table == old(table)
      ensures cancelled ==> OnlyRow(old(table), table, r) && SameRun(table.runs[r], old(table).runs[r])
      ensures cancelled ==> table.runs[r].status == Cancelled && table.runs[r].leaseUntil.None?
      ensures table == Cancel(old(table), r)
    {
      cancelled := r in table.runs && (table.runs[r].status == Queued || table.runs[r].status == Running);
      if cancelled {
        table := table.(runs := table.runs[r := table.runs[r].(status := Cancelled, leaseUntil := None)]);
      }
    }

    /** Lists the running rows whose lease ended before `now`, then puts them back one by
        one under the same guard; every other row is as it was. */
    method ReapExpiredLeases(now: int) returns (reaped: seq<nat>)
      modifies this
      ensures SameRows(old(table), table)
      ensures forall r <- old(table).runs ::
                var run := old(table).runs[r];
                if run.status == Running && run.leaseUntil.Some? && run.leaseUntil.value < now
                then r in reaped && PutBack(table.runs[r], run.automation in table.enabled)
                else r !in reaped && table.runs[r] == run
      ensures forall i, j :: 0 <= i < j < |reaped| ==> reaped[i] != reaped[j]
      ensures forall r <- reaped :: r in old(table).runs
    {
      reaped := [];
      var left := set r | r in table.runs && LeaseExpired(table, r, now);
      while left != {}
        invariant table.enabled == old(table).enabled && table.next == old(table).next
        invariant table.runs.Keys == old(table).runs.Keys
        invariant forall r <- table.runs :: table.runs[r] ==
                    if r in reaped then Requeued(old(table).runs[r], old(table).runs[r].automation in table.enabled)
                    else old(table).runs[r]
        invariant forall r :: LeaseExpired(old(table), r, now) <==> r in left || r in reaped
        invariant forall r <- reaped :: r !in left
        invariant forall i, j :: 0 <= i < j < |reaped| ==> reaped[i] != reaped[j]
      {
        var r :| r in left;
        left := left - {r};
        assert LeaseExpired(old(table), r, now) && r !in reaped;
        table := ReapRow(table, r, now, table.runs[r].automation in table.enabled);
        reaped := reaped + [r];
      }
    }

    /** The boot reap: every running row, whatever its lease. */
    method ReapAllRunning() returns (reaped: seq<nat>)
      modifies this
      ensures SameRows(old(table), table)
      ensures forall r <- old(table).runs ::
                var run := old(table).runs[r];
                if run.status == Running then r in reaped && PutBack(table.runs[r], run.automation in table.enabled)
                else r !in reaped && table.runs[r] == run
      ensures forall i, j :: 0 <= i < j < |reaped| ==> reaped[i] != reaped[j]
      ensures forall r <- reaped :: r in old(table).runs
    {
      reaped := [];
      var left := set r | r in table.runs && table.runs[r].status == Running;
      while left != {}
        invariant table.enabled == old(table).enabled && table.next == old(table).next
        invariant table.runs.Keys == old(table).runs.Keys
        invariant forall r <- table.runs :: table.runs[r] ==
                    if r in reaped then Requeued(old(table).runs[r], old(table).runs[r].automation in table.enabled)
                    else old(table).runs[r]
        invariant forall r :: Is(old(table), r, Running) <==> r in left || r in reaped
        invariant forall r <- reaped :: r !in left
        invariant forall i, j :: 0 <= i < j < |reaped| ==> reaped[i] != reaped[j]
      {
        var r :| r in left;
        left := left - {r};
        assert Is(old(table), r, Running) && r !in reaped;
        table := BootReapRow(table, r, table.runs[r].automation in table.enabled);
        reaped := reaped + [r];
      }
    }

    /** Turns an automation on or off. Turning it off cancels its queued runs and no
        other; one that runs goes on. */
    method SetAutomation(a: nat, on: bool)
      modifies this
      ensures table.enabled == (if on then old(table).enabled + {a} else old(table).enabled - {a})
      ensures table.next == old(table).next && table.runs.Keys == old(table).runs.Keys
      ensures forall r <- old(table).runs ::
                var run, run' := old(table).runs[r], table.runs[r];
                if !on && a in old(table).enabled && run.automation == a && run.status == Queued
                then SameRun(run', run) && run'.status == Cancelled && run'.leaseUntil.None?
                else run' == run
      ensures table == SetEnabled(old(table), a, on)
    {
      var disabling := a in table.enabled && !on;
      if on {
        table := table.(enabled := table.enabled + {a});
      } else {
        table := table.(enabled := table.enabled - {a});
      }
      if disabling {
        var was := table.runs;
        table := table.(runs := map r | r in was ::
          if was[r].automation == a && was[r].status == Queued
          then was[r].(status := Cancelled, leaseUntil := None) else was[r]);
      }
      assert table.runs == SetEnabled(old(table), a, on).runs;
    }

    /** The attempt number, by walking the previous-run chain. */
    method ComputeRunAttempt(r: nat) returns (depth: int)
      requires Linked(table) && r in table.runs
      ensures depth == Depth(table, r)
    {
      depth := 1;
      var at := r;
      while table.runs[at].previous.Some?
        invariant at in table.runs
        invariant Depth(table, r) == depth - 1 + Depth(table, at)
        decreases at
      {
        at := table.runs[at].previous.value;
        depth := depth + 1;
      }
    }

    /** One new queued run of the same automation, linked to the failed one and one deeper
        in its chain; none, and no change, when the automation is disabled. */
    method ScheduleRetry(previous: nat, at: int) returns (retry: Option<nat>)
      requires previous in table.runs
      modifies this
      ensures retry.None? <==> old(table).runs[previous].automation !in old(table).enabled
      ensures retry.None? ==> table == old(table)
      ensures retry.Some? && (forall q <- old(table).runs :: q < old(table).next) ==>
                && retry.value !in old(table).runs && table.runs.Keys == old(table).runs.Keys + {retry.value}
                && forall q <- old(table).runs :: table.runs[q] == old(table).runs[q]
      ensures retry.Some? ==>
                && retry.value in table.runs && table.next > retry.value && table.enabled == old(table).enabled
                && var run := table.runs[retry.value];
                   && run.status == Queued && run.scheduledFor == at && run.leaseUntil.None?
                   && run.previous == Some(previous) && run.automation == old(table).runs[previous].automation
      ensures retry.Some? && Linked(old(table)) && Linked(table) ==>
                Depth(table, retry.value) == Depth(old(table), previous) + 1
      ensures table == Create(old(table), old(table).runs[previous].automation, at, Some(previous))
    {
      var a := table.runs[previous].automation;
      if a !in table.enabled {
        return None;
      }
      ghost var was := table;
      var id := table.next;
      table := table.(runs := table.runs[id := Run(a, Queued, at, None, Some(previous))], next := id + 1);
      if Linked(was) && Linked(table) {
        DepthKept(was, table, previous);
      }
      return Some(id);
    }

    /** The end of a worker's turn: finalize, then chain a retry exactly when this
        worker's own finalize ended the run as failed, attempts are left and the
        automation is enabled. The wait is 30 seconds after the first attempt and two
        minutes after the second. */
    method Settle(r: nat, attempt: int, succeeded: bool, now: int) returns (retry: Option<nat>)
      requires r in table.runs
      modifies this
      ensures retry.Some? <==>
                old(table).runs[r].status == Running && !succeeded && attempt < 3
                && old(table).runs[r].automation in old(table).enabled
      ensures retry.Some? ==>
                && retry.value in table.runs && var next := table.runs[retry.value];
                   && next.status == Queued && next.previous == Some(r) && next.leaseUntil.None?
                   && next.automation == old(table).runs[r].automation
                   && next.scheduledFor == now + if attempt <= 1 then 30_000 else 120_000
      ensures
        (forall q <- old(table).runs :: q < old(table).next) ==>
          && (old(table).runs[r].status == Running ==>
                r in table.runs && table.runs[r].status == (if succeeded then Succeeded else Failed))
          && (retry.Some? ==> retry.value !in old(table).runs)
          && table.runs.Keys == old(table).runs.Keys + (if retry.Some? then {retry.value} else {})
          && forall q <- old(table).runs ::
               q != r || old(table).runs[r].status != Running ==> table.runs[q] == old(table).runs[q]
      ensures
        var done := Finalize(old(table), r, if succeeded then Succeeded else Failed);
        var again := Is(old(table), r, Running) && !succeeded && RetryBackoff(attempt).Some?;
        table == if again then Create(done, done.runs[r].automation, now + RetryBackoff(attempt).value, Some(r))
                 else done
    {
      retry := None;
      var status := if succeeded then Succeeded else Failed;
      var owned := FinalizeRun(r, status);
      var backoff := RetryBackoff(attempt);
      if owned && status == Failed && backoff.Some? {
        retry := ScheduleRetry(r, now + backoff.value);
      }
    }
  }
}
