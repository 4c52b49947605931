/** One tick of the cron worker over the trigger table. */
module TriggerStore {
  import opened Prelude
  import opened Cron
  import opened CronTicker

  /** What the due list selects. */
  predicate Due(s: State, id: nat, now: int) {
    id in s.triggers && Listed(s.triggers[id], now) && s.triggers[id].automation in s.live
  }

  /** The due triggers, each once, in the order of their next fires. */
  ghost predicate DueList(s: State, now: int, ids: seq<nat>) {
    && (forall id :: Due(s, id, now) <==> id in ids)
    && (forall i, j :: 0 <= i < j < |ids| ==> ids[i] != ids[j])
    && forall i, j :: 0 <= i < j < |ids| ==>
         ids[i] in s.triggers && ids[j] in s.triggers
         && Before(s.triggers[ids[i]].nextFire, s.triggers[ids[j]].nextFire)
  }

  predicate Before(a: Option<int>, b: Option<int>) {
    a.Some? && b.Some? && a.value <= b.value
  }

  /** No trigger of the set fires before this one. */
  ghost predicate NoneBefore(s: State, first: nat, ids: set<nat>)
    requires first in s.triggers
  {
    forall id <- ids :: id in s.triggers && Before(s.triggers[first].nextFire, s.triggers[id].nextFire)
  }

  /** A trigger after its firing. */
  function Advanced(t: Trigger, now: int): Trigger {
    var next := t.spec.find(now, false);
    if next.None? then t else t.(nextFire := next)
  }

  /** Triggers of the table that have a next fire. */
  predicate Timed(s: State, ids: seq<nat>) {
    forall i :: 0 <= i < |ids| ==> ids[i] in s.triggers && s.triggers[ids[i]].nextFire.Some?
  }

  /** The runs queued for a list of triggers: one for each whose schedule goes on. */
  function Runs(s: State, ids: seq<nat>, now: int): seq<Firing>
    requires Timed(s, ids)
  {
    if ids == [] then []
    else
      var last := ids[|ids| - 1];
      var t := s.triggers[last];
      Runs(s, ids[..|ids| - 1], now)
      + if t.spec.find(now, false).None? then [] else [Firing(last, t.nextFire.value, now, t.spec)]
  }

  /** The state after a list of triggers was fired. */
  function FiredAll(s: State, ids: seq<nat>, now: int): State
    requires Timed(s, ids)
  {
    s.(log := s.log + Runs(s, ids, now),
       triggers := map id | id in s.triggers :: if id in ids then Advanced(s.triggers[id], now) else s.triggers[id])
  }

  /** Firing the next trigger of the list. */
  lemma FiredOne(s: State, ids: seq<nat>, i: nat, now: int)
    requires i < |ids| && DueList(s, now, ids) && Timed(s, ids)
    ensures Timed(s, ids[..i]) && Timed(s, ids[..i + 1]) && ids[i] in FiredAll(s, ids[..i], now).triggers
    ensures Fired(FiredAll(s, ids[..i], now), ids[i], s.triggers[ids[i]], now) == FiredAll(s, ids[..i + 1], now)
  {
    DueRows(s, now, ids);
    OneMore(s, ids, i, now);
  }

  lemma OneMore(s: State, ids: seq<nat>, i: nat, now: int)
    requires i < |ids| && Timed(s, ids) && forall k :: 0 <= k < |ids| ==> Due(s, ids[k], now)
    requires forall j, k :: 0 <= j < k < |ids| ==> ids[j] != ids[k]
    ensures Fired(FiredAll(s, ids[..i], now), ids[i], s.triggers[ids[i]], now) == FiredAll(s, ids[..i + 1], now)
  {
    var id := ids[i];
    var s1 := FiredAll(s, ids[..i], now);
    var s2 := FiredAll(s, ids[..i + 1], now);
    assert Due(s, id, now);
    assert id !in ids[..i];
    RunsGrow(s, ids, i, now);
    var t := s.triggers[id];
    assert forall k :: k in ids[..i + 1] <==> k in ids[..i] || k == id;
    hide Runs;
    var s3 := Fired(s1, id, t, now);
    assert s1.triggers[id] == t;
    assert s3.triggers.Keys == s2.triggers.Keys;
    assert s3.triggers == s2.triggers;
  }

  lemma RunsGrow(s: State, ids: seq<nat>, i: nat, now: int)
    requires i < |ids| && Timed(s, ids) && forall k :: 0 <= k < |ids| ==> Due(s, ids[k], now)
    ensures
      var t := s.triggers[ids[i]];
      s.log + Runs(s, ids[..i + 1], now) ==
      s.log + Runs(s, ids[..i], now)
      + (if t.spec.find(now, false).None? then [] else [Firing(ids[i], t.nextFire.value, now, t.spec)])
  {
    assert ids[..i + 1][..i] == ids[..i];
  }

  /** One run was added at the end of the log, and of all rows only its trigger's next
      fire was written. */
  ghost predicate Queued(s: State, s': State, run: Firing) {
    && s'.log == s.log + [run]
    && s'.live == s.live && s'.clock == s.clock && s'.tick == s.tick && s'.triggers.Keys == s.triggers.Keys
    && forall id <- s.triggers ::
         var t, t' := s.triggers[id], s'.triggers[id];
         && t'.spec == t.spec && t'.automation == t.automation && t'.enabled == t.enabled
         && (id != run.trigger ==> t'.nextFire == t.nextFire)
  }

  /** The trigger's next fire is the first instant of the schedule after the reading. */
  ghost predicate MovedPast(s: State, id: nat, spec: Schedule, now: int) {
    && id in s.triggers && s.triggers[id].nextFire.Some?
    && var next := s.triggers[id].nextFire.value;
       now < next && spec.occurs(next) && forall u: int :: Past(now, false, u) && spec.occurs(u) ==> next <= u
  }

  class Store {
    var state: State

    constructor (state: State)
      ensures this.state == state
    {
      this.state := state;
    }

    /** The due triggers in the order of their next fires. */
    method ListDue(now: int) returns (due: seq<nat>)
      ensures forall id :: id in due <==>
                && id in state.triggers && var t := state.triggers[id];
                   t.enabled && t.automation in state.live && t.nextFire.Some? && t.nextFire.value <= now
      ensures forall i, j :: 0 <= i < j < |due| ==> due[i] != due[j]
      ensures forall i, j :: 0 <= i < j < |due| ==>
                state.triggers[due[i]].nextFire.value <= state.triggers[due[j]].nextFire.value
      ensures DueList(state, now, due)
    {
      due := [];
      var left := set id | id in state.triggers && Due(state, id, now);
      while left != {}
        invariant forall id :: Due(state, id, now) <==> id in left || id in due
        invariant forall id <- due :: id !in left
        invariant forall i, j :: 0 <= i < j < |due| ==> due[i] != due[j]
        invariant forall i, j :: 0 <= i < j < |due| ==>
                    due[i] in state.triggers && due[j] in state.triggers
                    && Before(state.triggers[due[i]].nextFire, state.triggers[due[j]].nextFire)
        invariant forall i :: 0 <= i < |due| ==> due[i] in state.triggers && NoneBefore(state, due[i], left)
      {
        var first := Earliest(left, now);
        left := left - {first};
        due := due + [first];
      }
    }

    method Earliest(ids: set<nat>, now: int) returns (first: nat)
      requires ids != {} && forall id <- ids :: Due(state, id, now)
      ensures first in ids && first in state.triggers && NoneBefore(state, first, ids)
    {
      first :| first in ids;
      var left := ids - {first};
      while left != {}
        invariant first in ids && left <= ids
        invariant forall id <- ids :: Due(state, id, now)
        invariant forall id <- ids :: id !in left ==>
                    Before(state.triggers[first].nextFire, state.triggers[id].nextFire)
      {
        var id :| id in left;
        left := left - {id};
        if state.triggers[id].nextFire.value < state.triggers[first].nextFire.value {
          first := id;
        }
      }
    }

    /** One run queued, for the instant that was listed, and the trigger moved past the
        clock reading, both or neither: neither when the automation is disabled or the
        schedule has no further instant. */
    method FireCronTrigger(id: nat, listed: Trigger, now: int) returns (ok: bool)
      requires id in state.triggers && listed.nextFire.Some?
      modifies this
      ensures ok <==> listed.spec.find(now, false).Some? && listed.automation in old(state).live
      ensures !ok ==> state == old(state)
      ensures ok ==> Queued(old(state), state, Firing(id, listed.nextFire.value, now, listed.spec))
      ensures ok && Oracle(listed.spec) ==> MovedPast(state, id, listed.spec, now)
      ensures state == Fired(old(state), id, listed, now)
    {
      var next := listed.spec.find(now, false);
      ok := next.Some? && listed.automation in state.live;
      if ok {
        var run := Firing(id, listed.nextFire.value, now, listed.spec);
        var row := state.triggers[id].(nextFire := next);
        state := state.(log := state.log + [run], triggers := state.triggers[id := row]);
      }
    }

    /** Fires each due trigger once. */
    method CronTickOnce(now: int) returns (due: seq<nat>)
      modifies this
      ensures DueList(old(state), now, due) && Timed(old(state), due)
      ensures state == FiredAll(old(state), due, now)
      ensures |old(state).log| <= |state.log| && state.log[..|old(state).log|] == old(state).log
      ensures forall i :: |old(state).log| <= i < |state.log| ==> Rightly(old(state), state.log[i], now)
    {
      hide *;
      due := ListDue(now);
      var listed := state.triggers;
      ghost var s := state;
      DueRows(s, now, due);
      FiredNone(s, now);
      assert due[..0] == [];
      for i := 0 to |due|
        invariant s == old(state) && listed == s.triggers && DueList(s, now, due) && Timed(s, due)
        invariant Timed(s, due[..i]) && state == FiredAll(s, due[..i], now)
      {
        FiredOne(s, due, i, now);
        RowAt(s, due, i);
        var ok := FireCronTrigger(due[i], listed[due[i]], now);
      }
      assert due[..|due|] == due;
      LogGrows(s, due, now);
    }

    /** A new trigger, enabled or not, with the first instant after the reading for its
        next fire; none when the schedule has no such instant. */
    method AddTrigger(id: nat, automation: nat, enabled: bool, spec: Schedule, now: int) returns (ok: bool)
      requires id !in state.triggers
      modifies this
      ensures ok <==> spec.find(now, false).Some?
      ensures !ok ==> state == old(state)
      ensures ok ==>
                && state.triggers.Keys == old(state).triggers.Keys + {id}
                && state.log == old(state).log && state.live == old(state).live
                && (forall k <- old(state).triggers :: state.triggers[k] == old(state).triggers[k])
                && var t := state.triggers[id]; t.automation == automation && t.enabled == enabled && t.spec == spec
      ensures ok && Oracle(spec) ==> MovedPast(state, id, spec, now)
      ensures state == Next(old(state), Add(id, automation, enabled, spec, now))
    {
      var nextFire := spec.find(now, false);
      ok := nextFire.Some?;
      if ok {
        state := state.(triggers := state.triggers[id := Trigger(automation, enabled, spec, nextFire)]);
      }
    }

    /** The edit of a trigger, over what was read of its row before: with a new
        expression its next fire is the first instant after the reading, and the edit
        fails when there is none; without one the next fire stays as it was read. */
    method UpdateTrigger(id: nat, seen: Trigger, newSpec: Option<Schedule>, newEnabled: Option<bool>, now: int)
      returns (ok: bool)
      requires id in state.triggers && seen.automation == state.triggers[id].automation
      modifies this
      ensures ok <==> newSpec.None? || newSpec.value.find(now, false).Some?
      ensures !ok ==> state == old(state)
      ensures ok ==> OnlyTrigger(old(state), state, id)
      ensures ok ==>
                var t := state.triggers[id];
                && t.automation == old(state).triggers[id].automation
                && t.enabled == (if newEnabled.Some? then newEnabled.value else seen.enabled)
                && t.spec == (if newSpec.Some? then newSpec.value else seen.spec)
                && (newSpec.None? ==> t.nextFire == seen.nextFire)
      ensures ok && newSpec.Some? && Oracle(newSpec.value) ==> MovedPast(state, id, newSpec.value, now)
      ensures state == Next(old(state), Patch(id, seen, newSpec, newEnabled, now))
    {
      var nextFire := seen.nextFire;
      if newSpec.Some? {
        nextFire := newSpec.value.find(now, false);
        if nextFire.None? {
          return false;
        }
      }
      var spec := if newSpec.Some? then newSpec.value else seen.spec;
      var enabled := if newEnabled.Some? then newEnabled.value else seen.enabled;
      state := state.(triggers := state.triggers[id := Trigger(seen.automation, enabled, spec, nextFire)]);
      return true;
    }

    /** Turns an automation off: that alone is written. */
    method DisableAutomation(automation: nat)
      modifies this
      ensures state.live == old(state).live - {automation}
      ensures state.triggers == old(state).triggers && state.log == old(state).log
      ensures state == Next(old(state), Disable(automation))
    {
      state := state.(live := state.live - {automation});
    }

    /** Turns an automation on. The next fires of its enabled cron triggers move past the
        reading, so that none left over from the time it was off is fired; no other
        row changes. Nothing is written when one of those schedules has ended. */
    method EnableAutomation(automation: nat, now: int) returns (ok: bool)
      requires automation !in state.live
      modifies this
      ensures ok <==> forall id <- old(state).triggers ::
                        Refreshes(old(state).triggers[id], automation) ==>
                          old(state).triggers[id].spec.find(now, false).Some?
      ensures !ok ==> state == old(state)
      ensures ok ==> state.live == old(state).live + {automation} && state.log == old(state).log
      ensures ok ==> state.triggers.Keys == old(state).triggers.Keys
      ensures ok ==> forall id <- old(state).triggers ::
                       var t, t' := old(state).triggers[id], state.triggers[id];
                       if Refreshes(t, automation) then
                         && t' == t.(nextFire := t'.nextFire)
                         && (Oracle(t.spec) ==> MovedPast(state, id, t.spec, now))
                       else t' == t
      ensures state == Next(old(state), Enable(automation, now))
    {
      var left := state.triggers.Keys;
      var rows := state.triggers;
      while left != {}
        invariant left <= state.triggers.Keys && rows.Keys == state.triggers.Keys && state == old(state)
        invariant forall id <- state.triggers :: id in left ==> rows[id] == state.triggers[id]
        invariant forall id <- state.triggers :: id !in left ==>
                    && rows[id] == Refreshed(state.triggers[id], automation, now)
                    && (Refreshes(state.triggers[id], automation) ==> state.triggers[id].spec.find(now, false).Some?)
      {
        var id :| id in left;
        left := left - {id};
        var t := state.triggers[id];
        if Refreshes(t, automation) {
          var next := t.spec.find(now, false);
          if next.None? {
            assert Refreshed(t, automation, now).nextFire.None?;
            return false;
          }
          rows := rows[id := t.(nextFire := next)];
        }
      }
      assert rows == map id | id in state.triggers :: Refreshed(state.triggers[id], automation, now);
      state := state.(live := state.live + {automation}, triggers := rows);
      return true;
    }
  }

  /** A cron trigger that re-enabling its automation looks at. */
  predicate Refreshes(t: Trigger, automation: nat) {
    t.automation == automation && t.enabled && t.nextFire.Some?
  }

  /** No row but one, and nothing else, was written. */
  ghost predicate OnlyTrigger(s: State, s': State, id: nat) {
    && s'.log == s.log && s'.live == s.live && s'.clock == s.clock && s'.tick == s.tick
    && s'.triggers.Keys == s.triggers.Keys && forall k <- s.triggers :: k != id ==> s'.triggers[k] == s.triggers[k]
  }

  /** A run queued by a tick: its trigger and the automation were enabled, and the run
      stands for the trigger's next fire, which had come. */
  ghost predicate Rightly(s: State, run: Firing, now: int) {
    && run.trigger in s.triggers && run.at == now
    && var t := s.triggers[run.trigger];
       && t.enabled && t.automation in s.live
       && t.nextFire == Some(run.scheduled) && run.scheduled <= now && run.spec == t.spec
  }

  lemma {:induction false} RunsRightly(s: State, ids: seq<nat>, now: int)
    requires Timed(s, ids) && forall i :: 0 <= i < |ids| ==> Due(s, ids[i], now)
    ensures forall run <- Runs(s, ids, now) :: Rightly(s, run, now)
  {
    if ids != [] {
      RunsRightly(s, ids[..|ids| - 1], now);
      assert Due(s, ids[|ids| - 1], now);
    }
  }

  lemma LogGrows(s: State, due: seq<nat>, now: int)
    requires DueList(s, now, due) && Timed(s, due)
    ensures
      var s' := FiredAll(s, due, now);
      && |s.log| <= |s'.log| && s'.log[..|s.log|] == s.log
      && forall i :: |s.log| <= i < |s'.log| ==> Rightly(s, s'.log[i], now)
  {
    DueRows(s, now, due);
    RunsRightly(s, due, now);
    hide Runs, Rightly;
    var runs := Runs(s, due, now);
    assert forall i :: 0 <= i < |runs| ==> runs[i] in runs;
    Halves(s.log, runs);
  }

  lemma RowAt(s: State, ids: seq<nat>, i: nat)
    requires Timed(s, ids) && i < |ids|
    ensures ids[i] in s.triggers && s.triggers[ids[i]].nextFire.Some?
  {
  }

  lemma DueRows(s: State, now: int, due: seq<nat>)
    requires DueList(s, now, due)
    ensures Timed(s, due) && Timed(s, [])
    ensures forall i :: 0 <= i < |due| ==>
              due[i] in s.triggers && s.triggers[due[i]].nextFire.Some? && Due(s, due[i], now)
  {
    assert forall i :: 0 <= i < |due| ==> Due(s, due[i], now);
  }

  lemma FiredNone(s: State, now: int)
    ensures FiredAll(s, [], now) == s
  {
    assert s.log + [] == s.log;
    assert (map id | id in s.triggers :: s.triggers[id]) == s.triggers;
  }

  /** After a tick: an enabled trigger of an enabled automation whose next fire had come
      has exactly one new run, for that instant, whatever number of instants had piled
      up, and is not due any more, unless its schedule has ended; every other trigger is
      as it was and has none. */
  lemma TickSettles(s: State, due: seq<nat>, now: int, id: nat)
    requires Inv(s) && s.tick <= now && DueList(s, now, due) && id in s.triggers
    ensures Timed(s, due)
    ensures
      var t := s.triggers[id];
      var s' := FiredAll(s, due, now);
      var t' := s'.triggers[id];
      if t.enabled && t.automation in s.live && t.nextFire.Some? && t.nextFire.value <= now
         && t.spec.find(now, false).Some? then
        && QueuedFor(Runs(s, due, now), id) == [t.nextFire.value]
        && t' == t.(nextFire := t'.nextFire) && t'.nextFire.Some? && now < t'.nextFire.value
      else QueuedFor(Runs(s, due, now), id) == [] && t' == t
  {
    assert TriggerOk(s.log, id, s.triggers[id]);
    assert forall k :: 0 <= k < |due| ==> Due(s, due[k], now);
    CountRuns(s, due, now, id);
    assert Due(s, id, now) <==> id in due;
  }

  /** The instants of one trigger among the runs. */
  function QueuedFor(runs: seq<Firing>, id: nat): seq<int> {
    if runs == [] then []
    else
      var last := runs[|runs| - 1];
      QueuedFor(runs[..|runs| - 1], id) + if last.trigger == id then [last.scheduled] else []
  }

  lemma {:induction false} CountRuns(s: State, ids: seq<nat>, now: int, id: nat)
    requires Timed(s, ids)
    requires forall i, j :: 0 <= i < j < |ids| ==> ids[i] != ids[j]
    ensures QueuedFor(Runs(s, ids, now), id) ==
            if id in ids && s.triggers[id].spec.find(now, false).Some? then [s.triggers[id].nextFire.value] else []
    decreases |ids|
  {
    if ids != [] {
      var init, last := ids[..|ids| - 1], ids[|ids| - 1];
      CountRuns(s, init, now, id);
      assert ids == init + [last];
      assert last !in init;
      var t := s.triggers[last];
      var runs := Runs(s, init, now);
      if t.spec.find(now, false).Some? {
        assert (runs + [Firing(last, t.nextFire.value, now, t.spec)])[..|runs|] == runs;
      } else {
        assert runs + [] == runs;
      }
    }
  }
}
