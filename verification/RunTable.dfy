/** The table of automation runs and what each statement of the repository does to it.
    Instants are milliseconds; run ids are allocated in increasing order. */
module RunTable {
  import opened Prelude

  const LEASE: int := 180_000
  const MAX_ATTEMPTS: int := 3

  datatype Status = Queued | Running | Succeeded | Failed | Cancelled

  predicate Terminal(s: Status) {
    s.Succeeded? || s.Failed? || s.Cancelled?
  }

  datatype Run = Run(automation: nat, status: Status, scheduledFor: int, leaseUntil: Option<int>, previous: Option<nat>)

  /** `next` bounds the ids in use; `enabled` holds the enabled automations. */
  datatype Table = Table(runs: map<nat, Run>, enabled: set<nat>, next: nat)

  predicate Is(t: Table, r: nat, s: Status) {
    r in t.runs && t.runs[r].status == s
  }

  function Put(t: Table, r: nat, run: Run): Table {
    t.(runs := t.runs[r := run])
  }

  /** A queued run of an enabled automation whose time has come. */
  predicate Due(t: Table, r: nat, now: int) {
    Is(t, r, Queued) && t.runs[r].scheduledFor <= now && t.runs[r].automation in t.enabled
  }

  /** A due run that no other due run precedes. */
  predicate OldestDue(t: Table, r: nat, now: int) {
    Due(t, r, now) && forall q <- t.runs :: Due(t, q, now) ==> t.runs[r].scheduledFor <= t.runs[q].scheduledFor
  }

  function Claim(t: Table, r: nat, lease: int): Table
    requires r in t.runs
  {
    Put(t, r, t.runs[r].(status := Running, leaseUntil := Some(lease)))
  }

  function Renew(t: Table, r: nat, lease: int): Table {
    if Is(t, r, Running) then Put(t, r, t.runs[r].(leaseUntil := Some(lease))) else t
  }

  function Finalize(t: Table, r: nat, s: Status): Table {
    if Is(t, r, Running) then Put(t, r, t.runs[r].(status := s, leaseUntil := None)) else t
  }

  /** What a reaped row becomes, given whether its automation was seen enabled. */
  function Requeued(run: Run, seenEnabled: bool): Run {
    run.(status := if seenEnabled then Queued else Cancelled, leaseUntil := None)
  }

  predicate LeaseExpired(t: Table, r: nat, now: int) {
    Is(t, r, Running) && t.runs[r].leaseUntil.Some? && t.runs[r].leaseUntil.value < now
  }

  /** The reaper's guarded update of one row. */
  function ReapRow(t: Table, r: nat, now: int, seenEnabled: bool): Table {
    if LeaseExpired(t, r, now) then Put(t, r, Requeued(t.runs[r], seenEnabled)) else t
  }

  /** The boot reap of one row: no lease is looked at. */
  function BootReapRow(t: Table, r: nat, seenEnabled: bool): Table {
    if Is(t, r, Running) then Put(t, r, Requeued(t.runs[r], seenEnabled)) else t
  }

  function Cancel(t: Table, r: nat): Table {
    if Is(t, r, Queued) || Is(t, r, Running) then
      Put(t, r, t.runs[r].(status := Cancelled, leaseUntil := None))
    else t
  }

  /** Enqueues a fresh run of an enabled automation. */
  function Create(t: Table, automation: nat, at: int, previous: Option<nat>): Table {
    if automation in t.enabled then
      Put(t, t.next, Run(automation, Queued, at, None, previous)).(next := t.next + 1)
    else t
  }

  /** Disabling an automation also cancels its queued runs. */
  function SetEnabled(t: Table, a: nat, on: bool): Table {
    if on then t.(enabled := t.enabled + {a})
    else
      var runs := map r | r in t.runs ::
        (var run := t.runs[r];
         if a in t.enabled && run.automation == a && run.status == Queued
         then run.(status := Cancelled, leaseUntil := None) else run);
      t.(runs := runs, enabled := t.enabled - {a})
  }

  // ----------------------------------------------------------- retry chains

  /** Every row's predecessor is an older row, and ids stay below `next`. */
  predicate Linked(t: Table) {
    forall r <- t.runs :: r < t.next &&
      (t.runs[r].previous.Some? ==> t.runs[r].previous.value < r && t.runs[r].previous.value in t.runs)
  }

  /** Number of rows on the previous-run chain that ends at `r`: its attempt number. */
  function Depth(t: Table, r: nat): (d: nat)
    requires Linked(t) && r in t.runs
    ensures d >= 1
    decreases r
  {
    var p := t.runs[r].previous;
    if p.None? then 1 else Depth(t, p.value) + 1
  }

  /** Depth depends on the links alone, so new rows leave that of the old ones as it was. */
  lemma {:induction false} DepthKept(t: Table, t': Table, r: nat)
    requires Linked(t) && Linked(t') && r in t.runs
    requires forall q <- t.runs :: q in t'.runs && t'.runs[q].previous == t.runs[q].previous
    ensures Depth(t', r) == Depth(t, r)
    decreases r
  {
    var p := t.runs[r].previous;
    if p.Some? {
      DepthKept(t, t', p.value);
    }
  }

  /** The rows of that chain, newest first. */
  function Chain(t: Table, r: nat): (c: seq<nat>)
    requires Linked(t) && r in t.runs
    ensures |c| == Depth(t, r) && c[0] == r
    decreases r
  {
    var p := t.runs[r].previous;
    if p.None? then [r] else [r] + Chain(t, p.value)
  }

  /** The wait before the next attempt, none once the attempts are used up. */
  function RetryBackoff(attempt: int): Option<int> {
    if attempt >= MAX_ATTEMPTS then None
    else
      var index := if attempt - 1 > 0 then attempt - 1 else 0;
      if index == 0 then Some(30_000) else if index == 1 then Some(120_000) else None
  }
}
