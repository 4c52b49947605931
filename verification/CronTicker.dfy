/** The cron ticker and the edits that go on beside it. */
module CronTicker {
  import opened Prelude
  import opened Cron

  datatype Trigger = Trigger(automation: nat, enabled: bool, spec: Schedule, nextFire: Option<int>)

  /** One queued run of a trigger: the instant it stands for, the tick's reading of the
      clock, and the schedule it was fired under. */
  datatype Firing = Firing(trigger: nat, scheduled: int, at: int, spec: Schedule)

  /** `live` holds the enabled automations, `tick` the reading of the latest tick. */
  datatype State = State(triggers: map<nat, Trigger>, live: set<nat>, log: seq<Firing>, clock: int, tick: int)

  datatype Action =
    | Advance(clock: int)
    | BeginTick(now: int)
    | Fire(id: nat, listed: Trigger, ok: bool)
    | Patch(id: nat, seen: Trigger, newSpec: Option<Schedule>, newEnabled: Option<bool>, now: int)
    | Enable(automation: nat, now: int)
    | Disable(automation: nat)
    | Add(id: nat, automation: nat, enabled: bool, spec: Schedule, now: int)
    | Delete(id: nat)

  /** What the due list selects by the trigger itself. */
  predicate Listed(t: Trigger, now: int) {
    t.enabled && t.nextFire.Some? && t.nextFire.value <= now
  }

  /** `listed` and `seen` are rows that were read earlier, from any state of the table. */
  ghost predicate Guard(s: State, a: Action) {
    match a
    case Advance(clock) => s.clock <= clock
    case BeginTick(now) => s.tick <= now <= s.clock
    case Fire(id, listed, _) =>
      && id in s.triggers && Listed(listed, s.tick) && listed.automation == s.triggers[id].automation
      && Oracle(listed.spec)
    case Patch(id, seen, spec, _, now) =>
      && id in s.triggers && now <= s.clock && seen.automation == s.triggers[id].automation
      && Oracle(seen.spec) && (spec.Some? ==> Oracle(spec.value))
    case Enable(automation, now) => automation !in s.live && now <= s.clock
    case Disable(_) => true
    case Add(id, _, _, spec, now) =>
      id !in s.triggers && now <= s.clock && Oracle(spec) && forall f <- s.log :: f.trigger != id
    case Delete(_) => true
  }

  /** Queues the run and advances the trigger in one transaction, unless the automation
      is no longer enabled or the expression has no further instant. */
  function Fired(s: State, id: nat, listed: Trigger, now: int): State
    requires id in s.triggers && listed.nextFire.Some?
  {
    var next := listed.spec.find(now, false);
    if next.None? || listed.automation !in s.live then s
    else
      s.(log := s.log + [Firing(id, listed.nextFire.value, now, listed.spec)],
         triggers := s.triggers[id := s.triggers[id].(nextFire := next)])
  }

  /** Writes the whole row back, from what was read of it before. */
  function Patched(seen: Trigger, spec: Option<Schedule>, enabled: Option<bool>, now: int): Trigger {
    seen.(spec := if spec.Some? then spec.value else seen.spec,
          enabled := if enabled.Some? then enabled.value else seen.enabled,
          nextFire := if spec.Some? then spec.value.find(now, false) else seen.nextFire)
  }

  /** The trigger of an automation that is enabled again; only cron triggers have a next
      fire. */
  function Refreshed(t: Trigger, automation: nat, now: int): Trigger {
    if t.automation == automation && t.enabled && t.nextFire.Some? then t.(nextFire := t.spec.find(now, false)) else t
  }

  /** Enabling fails as a whole when one trigger's schedule has no further instant. */
  predicate Refused(s: State, automation: nat, now: int) {
    exists id <- s.triggers ::
      s.triggers[id].nextFire.Some? && Refreshed(s.triggers[id], automation, now).nextFire.None?
  }

  function Next(s: State, a: Action): State
    requires a.Fire? ==> a.id in s.triggers && a.listed.nextFire.Some?
  {
    match a
    case Advance(clock) => s.(clock := clock)
    case BeginTick(now) => s.(tick := now)
    case Fire(id, listed, ok) => if ok then Fired(s, id, listed, s.tick) else s
    case Patch(id, seen, spec, enabled, now) =>
      if spec.Some? && spec.value.find(now, false).None? then s
      else s.(triggers := s.triggers[id := Patched(seen, spec, enabled, now)])
    case Enable(automation, now) =>
      if Refused(s, automation, now) then s
      else
        s.(live := s.live + {automation},
           triggers := map id | id in s.triggers :: Refreshed(s.triggers[id], automation, now))
    case Disable(automation) => s.(live := s.live - {automation})
    case Add(id, automation, enabled, spec, now) =>
      if spec.find(now, false).None? then s
      else s.(triggers := s.triggers[id := Trigger(automation, enabled, spec, spec.find(now, false))])
    case Delete(id) => s.(triggers := s.triggers - {id})
  }

  // -------------------------------------------------------------- invariant

  /** An instant of the schedule, after every tick that already fired the trigger. */
  ghost predicate Ahead(log: seq<Firing>, id: nat, spec: Schedule, n: int) {
    spec.occurs(n) && forall i :: 0 <= i < |log| && log[i].trigger == id ==> log[i].at < n
  }

  ghost predicate TriggerOk(log: seq<Firing>, id: nat, t: Trigger) {
    Oracle(t.spec) && (t.nextFire.Some? ==> Ahead(log, id, t.spec, t.nextFire.value))
  }

  /** What a reader of the runs sees: each stands for an instant of the schedule it was
      fired under, not later than the tick, and the next run of the same trigger for one
      after that tick. */
  ghost predicate LogOk(log: seq<Firing>, tick: int) {
    && (forall i :: 0 <= i < |log| ==> log[i].scheduled <= log[i].at <= tick && log[i].spec.occurs(log[i].scheduled))
    && forall i, j :: 0 <= i < j < |log| && log[i].trigger == log[j].trigger ==> log[i].at < log[j].scheduled
  }

  ghost predicate Inv(s: State) {
    s.tick <= s.clock && LogOk(s.log, s.tick) && forall id <- s.triggers :: TriggerOk(s.log, id, s.triggers[id])
  }

  /** The condition per step. A run is queued for an instant ahead of the log; a next
      fire that is written is an instant of the expression that stays in the row, ahead
      of the log. Steps that are turned down write nothing. */
  ghost predicate Harmless(s: State, a: Action)
    requires Guard(s, a)
  {
    match a
    case Fire(id, listed, ok) =>
      var next := listed.spec.find(s.tick, false);
      ok && next.Some? && listed.automation in s.live ==>
        Ahead(s.log, id, listed.spec, listed.nextFire.value) && s.triggers[id].spec.occurs(next.value)
    case Patch(id, seen, None, _, now) =>
      seen.nextFire.Some? ==> Ahead(s.log, id, seen.spec, seen.nextFire.value)
    case Patch(id, seen, Some(spec), _, now) =>
      spec.find(now, false).Some? ==> Ahead(s.log, id, spec, spec.find(now, false).value)
    case Enable(automation, now) =>
      !Refused(s, automation, now) ==>
        forall id <- s.triggers :: TriggerOk(s.log, id, Refreshed(s.triggers[id], automation, now))
    case _ => true
  }

  lemma AppendAhead(log: seq<Firing>, f: Firing, id: nat, spec: Schedule, n: int)
    ensures Ahead(log + [f], id, spec, n) <==> Ahead(log, id, spec, n) && (f.trigger == id ==> f.at < n)
  {
    assert (log + [f])[|log|] == f;
    assert forall i :: 0 <= i < |log| ==> (log + [f])[i] == log[i];
  }

  lemma AppendLog(log: seq<Firing>, f: Firing, tick: int)
    requires LogOk(log, tick) && f.scheduled <= f.at == tick
    ensures LogOk(log + [f], tick) <==> Ahead(log, f.trigger, f.spec, f.scheduled)
  {
    var more := log + [f];
    assert more[|log|] == f;
    assert forall i :: 0 <= i < |log| ==> more[i] == log[i];
  }

  lemma FireExact(s: State, id: nat, listed: Trigger)
    requires Inv(s) && Guard(s, Fire(id, listed, true))
    ensures Inv(Fired(s, id, listed, s.tick)) <==> Harmless(s, Fire(id, listed, true))
  {
    var next := listed.spec.find(s.tick, false);
    if next.Some? && listed.automation in s.live {
      var f := Firing(id, listed.nextFire.value, s.tick, listed.spec);
      var s' := Fired(s, id, listed, s.tick);
      assert TriggerOk(s.log, id, s.triggers[id]);
      AppendLog(s.log, f, s.tick);
      forall k, spec, n
        ensures Ahead(s.log + [f], k, spec, n) <==> Ahead(s.log, k, spec, n) && (k == id ==> s.tick < n)
      {
        AppendAhead(s.log, f, k, spec, n);
      }
      hide LogOk, Ahead;
      FiredRows(s, id, listed);
      assert forall k :: k in s.triggers && k != id ==> TriggerOk(s.log, k, s.triggers[k]);
      AheadOf(s.log, s.triggers[id].spec, id, next.value, s.tick);
      assert Inv(s') <==> LogOk(s'.log, s.tick) && TriggerOk(s'.log, id, s'.triggers[id]);
    }
  }

  lemma FiredRows(s: State, id: nat, listed: Trigger)
    requires id in s.triggers && listed.nextFire.Some? && listed.spec.find(s.tick, false).Some?
    requires listed.automation in s.live
    ensures
      var s' := Fired(s, id, listed, s.tick);
      && s'.log == s.log + [Firing(id, listed.nextFire.value, s.tick, listed.spec)]
      && s'.tick == s.tick && s'.clock == s.clock && s'.triggers.Keys == s.triggers.Keys
      && s'.triggers[id] == s.triggers[id].(nextFire := listed.spec.find(s.tick, false))
      && forall k <- s.triggers :: k != id ==> s'.triggers[k] == s.triggers[k]
  {
  }

  lemma AheadOf(log: seq<Firing>, spec: Schedule, id: nat, n: int, tick: int)
    requires LogOk(log, tick) && tick < n
    ensures Ahead(log, id, spec, n) <==> spec.occurs(n)
  {
  }

  /** The invariant survives a step exactly when the step is harmless. */
  lemma StepExact(s: State, a: Action)
    requires Inv(s) && Guard(s, a)
    ensures Inv(Next(s, a)) <==> Harmless(s, a)
  {
    match a
    case Fire(id, listed, ok) =>
      if ok {
        FireExact(s, id, listed);
      }
    case Patch(id, seen, spec, enabled, now) =>
      var row := Patched(seen, spec, enabled, now);
      var s' := s.(triggers := s.triggers[id := row]);
      hide Ahead, LogOk;
      assert Inv(s') <==> TriggerOk(s.log, id, row) by {
        assert s'.triggers[id] == row;
        assert forall k :: k in s.triggers && k != id ==> s'.triggers[k] == s.triggers[k];
      }
    case Enable(automation, now) =>
      hide Ahead, LogOk;
      if !Refused(s, automation, now) {
        var s' := Next(s, a);
        assert forall k <- s.triggers :: s'.triggers[k] == Refreshed(s.triggers[k], automation, now);
      }
    case Add(id, automation, enabled, spec, now) =>
    case _ =>
  }

  // ------------------------------------------------------------------- runs

  ghost predicate HarmlessRun(s: State, actions: seq<Action>)
    decreases |actions|
  {
    actions == []
    || (Guard(s, actions[0]) && Harmless(s, actions[0]) && HarmlessRun(Next(s, actions[0]), actions[1..]))
  }

  ghost predicate GuardedRun(s: State, actions: seq<Action>)
    decreases |actions|
  {
    actions == [] || (Guard(s, actions[0]) && GuardedRun(Next(s, actions[0]), actions[1..]))
  }

  ghost function After(s: State, actions: seq<Action>): State
    requires GuardedRun(s, actions)
    decreases |actions|
  {
    if actions == [] then s else After(Next(s, actions[0]), actions[1..])
  }

  lemma {:induction false} RunKeeps(s: State, actions: seq<Action>)
    requires Inv(s) && HarmlessRun(s, actions)
    ensures GuardedRun(s, actions) && Inv(After(s, actions)) && s.log <= After(s, actions).log
    decreases |actions|
  {
    if actions != [] {
      StepExact(s, actions[0]);
      RunKeeps(Next(s, actions[0]), actions[1..]);
    }
  }

  /** Whatever the ticks, failures and edits, as long as each is harmless: a trigger's
      instants strictly increase, and of the instants that piled up before a tick only
      the run's own is ever queued. */
  lemma NeverRepeats(s: State, actions: seq<Action>, i: nat, j: nat)
    requires Inv(s) && HarmlessRun(s, actions)
    requires GuardedRun(s, actions)
    requires
      var log := After(s, actions).log;
      i < |log| && j < |log| && i != j && log[i].trigger == log[j].trigger
    ensures
      var log := After(s, actions).log;
      && log[i].spec.occurs(log[i].scheduled)
      && (i < j ==> log[i].scheduled < log[j].scheduled)
      && !(log[i].scheduled <= log[j].scheduled <= log[i].at)
  {
    RunKeeps(s, actions);
  }

  /** No edit of a trigger falls between the ticker's listing and its firing, none
      between a patch's reading and its writing, and no tick inside an edit. */
  ghost predicate Undisturbed(s: State, a: Action) {
    match a
    case Fire(id, listed, _) => id in s.triggers && listed == s.triggers[id]
    case Patch(id, seen, _, _, now) => id in s.triggers && seen == s.triggers[id] && s.tick <= now
    case Enable(_, now) => s.tick <= now
    case _ => true
  }

  /** That is enough: steps that do not overlap are harmless. */
  lemma UndisturbedHarmless(s: State, a: Action)
    requires Inv(s) && Guard(s, a) && Undisturbed(s, a)
    ensures Harmless(s, a)
  {
    match a
    case Fire(id, listed, ok) => assert TriggerOk(s.log, id, s.triggers[id]);
    case Patch(id, seen, spec, enabled, now) => assert TriggerOk(s.log, id, s.triggers[id]);
    case Enable(automation, now) =>
      forall k | k in s.triggers
        ensures TriggerOk(s.log, k, Refreshed(s.triggers[k], automation, now))
      {
        assert TriggerOk(s.log, k, s.triggers[k]);
      }
    case _ =>
  }

  /** So is a patch with a new expression that read the clock no earlier than any tick
      that fired the trigger. */
  lemma FreshClockHarmless(s: State, id: nat, seen: Trigger, spec: Schedule, enabled: Option<bool>, now: int)
    requires Guard(s, Patch(id, seen, Some(spec), enabled, now))
    requires forall i :: 0 <= i < |s.log| && s.log[i].trigger == id ==> s.log[i].at <= now
    ensures Harmless(s, Patch(id, seen, Some(spec), enabled, now))
  {
  }

  // ---------------------------------------------------------------- silence

  /** A trigger that must not fire: it is gone or disabled, or its automation is. */
  ghost predicate Off(s: State, id: nat) {
    id in s.triggers ==> !s.triggers[id].enabled || s.triggers[id].automation !in s.live
  }

  /** A step that may end that: an edit that enables the trigger or its automation, or a
      new trigger in its place. */
  predicate TurnsOn(s: State, a: Action, id: nat) {
    match a
    case Patch(k, _, _, enabled, _) => k == id && enabled == Some(true)
    case Enable(automation, _) => id in s.triggers && s.triggers[id].automation == automation
    case Add(k, _, _, _, _) => k == id
    case _ => false
  }

  /** Steps that do not overlap, none of which turns the trigger on. */
  ghost predicate LeavesOff(s: State, actions: seq<Action>, id: nat)
    decreases |actions|
  {
    actions == []
    || (&& Guard(s, actions[0]) && Undisturbed(s, actions[0]) && !TurnsOn(s, actions[0], id)
        && LeavesOff(Next(s, actions[0]), actions[1..], id))
  }

  lemma StepStaysOff(s: State, a: Action, id: nat)
    requires Guard(s, a) && Undisturbed(s, a) && Off(s, id) && !TurnsOn(s, a, id)
    ensures Off(Next(s, a), id) && s.log <= Next(s, a).log
    ensures forall i :: |s.log| <= i < |Next(s, a).log| ==> Next(s, a).log[i].trigger != id
  {
  }

  /** A trigger that is off is silent: until an edit turns it on again, no run is ever
      queued for it, whatever its next fire says. */
  lemma {:induction false} OffStaysSilent(s: State, actions: seq<Action>, id: nat)
    requires Off(s, id) && LeavesOff(s, actions, id)
    ensures GuardedRun(s, actions) && s.log <= After(s, actions).log
    ensures forall i :: |s.log| <= i < |After(s, actions).log| ==> After(s, actions).log[i].trigger != id
    decreases |actions|
  {
    if actions != [] {
      StepStaysOff(s, actions[0], id);
      OffStaysSilent(Next(s, actions[0]), actions[1..], id);
    }
  }

  /** A disabled automation is silent even when edits and ticks overlap: a firing that
      was listed before is turned down when it writes. */
  lemma DisabledTurnsDown(s: State, id: nat, listed: Trigger, ok: bool)
    requires Guard(s, Fire(id, listed, ok)) && s.triggers[id].automation !in s.live
    ensures Next(s, Fire(id, listed, ok)) == s
  {
  }

  /** A trigger that was fired is not due again at that tick: its next fire is the first
      instant after the clock reading. */
  lemma FireAdvances(s: State, id: nat)
    requires Inv(s) && id in s.triggers && Listed(s.triggers[id], s.tick)
    ensures
      var s' := Fired(s, id, s.triggers[id], s.tick);
      s'.log != s.log ==>
        && s'.triggers[id].nextFire.Some? && !Listed(s'.triggers[id], s.tick)
        && s'.triggers[id].spec == s.triggers[id].spec
        && s.triggers[id].spec.occurs(s'.triggers[id].nextFire.value)
        && forall u :: s.tick < u < s'.triggers[id].nextFire.value ==> !s.triggers[id].spec.occurs(u)
  {
    assert TriggerOk(s.log, id, s.triggers[id]);
    var spec := s.triggers[id].spec;
    forall u | spec.find(s.tick, false).Some? && s.tick < u < spec.find(s.tick, false).value
      ensures !spec.occurs(u)
    {
      assert Past(s.tick, false, u);
    }
  }
}
