/** What edits that overlap a tick can do to the runs of a trigger. */
module TickerRaces {
  import opened Prelude
  import opened Cron
  import opened CronTicker

  /** Steps that do not overlap each other. */
  ghost predicate QuietRun(s: State, actions: seq<Action>)
    decreases |actions|
  {
    actions == []
    || (Guard(s, actions[0]) && Undisturbed(s, actions[0]) && QuietRun(Next(s, actions[0]), actions[1..]))
  }

  /** A way of quiet steps from one state to another. */
  ghost predicate Leads(s: State, actions: seq<Action>, end: State) {
    QuietRun(s, actions) && GuardedRun(s, actions) && After(s, actions) == end
  }

  lemma LeadsFirst(s: State, a: Action, more: seq<Action>, end: State)
    requires Guard(s, a) && Undisturbed(s, a) && Leads(Next(s, a), more, end)
    ensures Leads(s, [a] + more, end)
  {
    assert ([a] + more)[1..] == more;
  }

  lemma {:induction false} LeadsOn(s: State, a: seq<Action>, mid: State, b: seq<Action>, end: State)
    requires Leads(s, a, mid) && Leads(mid, b, end)
    ensures Leads(s, a + b, end)
    decreases |a|
  {
    if a == [] {
      assert a + b == b;
    } else {
      LeadsOn(Next(s, a[0]), a[1..], mid, b, end);
      assert a + b == [a[0]] + (a[1..] + b);
      LeadsFirst(s, a[0], a[1..] + b, end);
    }
  }

  /** Users can delete every trigger of a set. */
  lemma {:induction false} DeleteAll(s: State, ids: set<nat>) returns (actions: seq<Action>)
    ensures Leads(s, actions, s.(triggers := s.triggers - ids))
    decreases ids
  {
    actions := [];
    if ids == {} {
      assert s.triggers - ids == s.triggers;
    } else {
      var id :| id in ids;
      var s1 := Next(s, Delete(id));
      var more := DeleteAll(s1, ids - {id});
      assert s.triggers - {id} - (ids - {id}) == s.triggers - ids;
      LeadsFirst(s, Delete(id), more, s.(triggers := s.triggers - ids));
      actions := [Delete(id)] + more;
    }
  }

  function Switched(s: State, id: nat, on: bool): State
    requires id in s.triggers
  {
    s.(triggers := s.triggers[id := s.triggers[id].(enabled := on)])
  }

  lemma Switch(s: State, id: nat, on: bool) returns (actions: seq<Action>)
    requires id in s.triggers && Oracle(s.triggers[id].spec) && s.tick <= s.clock
    ensures Leads(s, actions, Switched(s, id, on))
  {
    var a := Patch(id, s.triggers[id], None, Some(on), s.clock);
    assert Next(s, a) == Switched(s, id, on);
    LeadsFirst(s, a, [], Switched(s, id, on));
    actions := [a] + [];
  }

  /** A trigger that is off keeps its next fire while its automation is enabled. */
  lemma Revive(s: State, id: nat) returns (actions: seq<Action>, end: State)
    requires id in s.triggers && Oracle(s.triggers[id].spec) && s.tick <= s.clock
    requires s.triggers[id].nextFire.Some? && s.triggers[id].automation !in s.live
    ensures Leads(s, actions, end)
    ensures end.log == s.log && end.tick == s.tick && end.clock == s.clock
    ensures id in end.triggers && end.triggers[id] == s.triggers[id].(enabled := false)
    ensures end.triggers[id].automation in end.live
  {
    var off := Switch(s, id, false);
    var s1 := Switched(s, id, false);
    var others := s1.triggers.Keys - {id};
    var deletes := DeleteAll(s1, others);
    var s2 := s1.(triggers := s1.triggers - others);
    LeadsOn(s, off, s1, deletes, s2);
    var a := Enable(s2.triggers[id].automation, s2.clock);
    assert s2.triggers.Keys == {id};
    assert !Refused(s2, s2.triggers[id].automation, s2.clock);
    end := Next(s2, a);
    LeadsFirst(s2, a, [], end);
    LeadsOn(s, off + deletes, s2, [a] + [], end);
    actions := off + deletes + ([a] + []);
  }

  /** Every trigger with a next fire can be switched on, its automation with it. */
  lemma MakeLive(s: State, id: nat) returns (actions: seq<Action>, end: State)
    requires id in s.triggers && Oracle(s.triggers[id].spec) && s.tick <= s.clock && s.triggers[id].nextFire.Some?
    ensures Leads(s, actions, end)
    ensures end.log == s.log && end.tick == s.tick && end.clock == s.clock
    ensures id in end.triggers && end.triggers[id] == s.triggers[id].(enabled := true)
    ensures end.triggers[id].automation in end.live
  {
    var first, mid := [], s;
    if s.triggers[id].automation !in s.live {
      first, mid := Revive(s, id);
    }
    var on := Switch(mid, id, true);
    end := Switched(mid, id, true);
    LeadsOn(s, first, mid, on, end);
    actions := first + on;
  }

  /** The schedule never ends. */
  ghost predicate Endless(spec: Schedule) {
    forall t: int :: spec.find(t, false).Some?
  }

  /** A next fire that is not ahead of the log, or not an instant of the row's own
      expression, ends up in the log. */
  lemma BadRowShows(s: State, id: nat) returns (actions: seq<Action>, end: State)
    requires id in s.triggers && Oracle(s.triggers[id].spec) && Endless(s.triggers[id].spec)
    requires s.tick <= s.clock && LogOk(s.log, s.tick)
    requires s.triggers[id].nextFire.Some? && !Ahead(s.log, id, s.triggers[id].spec, s.triggers[id].nextFire.value)
    ensures Leads(s, actions, end) && !LogOk(end.log, end.tick)
  {
    var first, s0 := MakeLive(s, id);
    var t := s0.triggers[id];
    var n := t.nextFire.value;
    var now := if n < s0.clock then s0.clock else n;
    var s1 := Next(s0, Advance(now));
    var s2 := Next(s1, BeginTick(now));
    var fire := Fire(id, t, true);
    end := Next(s2, fire);
    AppendLog(s.log, Firing(id, n, now, t.spec), now);
    LeadsFirst(s2, fire, [], end);
    LeadsFirst(s1, BeginTick(now), [fire] + [], end);
    LeadsFirst(s0, Advance(now), [BeginTick(now)] + ([fire] + []), end);
    var last := [Advance(now)] + ([BeginTick(now)] + ([fire] + []));
    LeadsOn(s, first, s0, last, end);
    actions := first + last;
  }

  /** The condition is the weakest there is: after any step that is not harmless, steps
      that do not even overlap make the log go wrong. A run is queued for an instant at
      or before the tick of an earlier one, or for no instant of its expression. */
  lemma HarmShows(s: State, a: Action) returns (more: seq<Action>, end: State)
    requires Inv(s) && Guard(s, a) && !Harmless(s, a)
    requires forall id <- Next(s, a).triggers :: Endless(Next(s, a).triggers[id].spec)
    ensures Leads(Next(s, a), more, end) && !LogOk(end.log, end.tick)
  {
    var s1 := Next(s, a);
    StepExact(s, a);
    RowsStaySound(s, a);
    if LogOk(s1.log, s1.tick) {
      var id: nat :| id in s1.triggers && !TriggerOk(s1.log, id, s1.triggers[id]);
      more, end := BadRowShows(s1, id);
    } else {
      more, end := [], s1;
    }
  }

  lemma RowsStaySound(s: State, a: Action)
    requires Inv(s) && Guard(s, a)
    ensures Next(s, a).tick <= Next(s, a).clock
    ensures forall id <- Next(s, a).triggers :: Oracle(Next(s, a).triggers[id].spec)
  {
    assert forall id <- s.triggers :: TriggerOk(s.log, id, s.triggers[id]);
    hide Oracle, LogOk, Ahead;
  }

  /** One such step: switching a trigger on or off while it fires can bring its old next
      fire back, and the same instant is queued twice. */
  lemma LostUpdateRepeats(s: State, id: nat, enabled: Option<bool>, now: int)
    requires Inv(s) && id in s.triggers && Listed(s.triggers[id], s.tick) && s.triggers[id].automation in s.live
    requires s.triggers[id].spec.find(s.tick, false).Some? && enabled != Some(false)
    ensures
      var seen := s.triggers[id];
      var s1 := Next(s, Fire(id, seen, true));
      var s2 := Next(s1, Patch(id, seen, None, enabled, now));
      && Listed(s2.triggers[id], s2.tick)
      && var log := Next(s2, Fire(id, s2.triggers[id], true)).log;
         |log| == |s.log| + 2 && log[|s.log|] == log[|s.log| + 1]
  {
  }

  /** Another: an edit that read the clock before the tick brings back an instant that
      the tick fired, even when the expression is the same. */
  lemma ResubmittedRepeats(s: State, id: nat, now: int)
    requires Inv(s) && id in s.triggers && Listed(s.triggers[id], s.tick) && s.triggers[id].automation in s.live
    requires s.triggers[id].spec.find(s.tick, false).Some?
    requires s.triggers[id].spec.find(now, false) == s.triggers[id].nextFire
    ensures
      var t := s.triggers[id];
      var s1 := Next(s, Fire(id, t, true));
      var s2 := Next(s1, Patch(id, s1.triggers[id], Some(t.spec), None, now));
      && Listed(s2.triggers[id], s2.tick)
      && var log := Next(s2, Fire(id, s2.triggers[id], true)).log;
         |log| == |s.log| + 2 && log[|s.log|] == log[|s.log| + 1]
  {
  }
}
