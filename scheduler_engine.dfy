/**
 * The browser-side schedule registry and trigger engine: the ordered list of
 * schedules with its add, remove and toggle operations, and the per-tick
 * check that starts the schedules due now and stops the scheduled
 * recordings whose time is up.
 */
module SchedulerEngine {
  import opened Common
  import opened Strings

  /**
   * A schedule id. Generated ids are strings; ids from saved data or from
   * the caller may be numbers. Strict equality and the Map of active
   * recordings tell the two kinds apart; `toString` does not.
   */
  datatype Id = NumId(n: int) | StrId(s: string)

  /** `id.toString()`. */
  function IdString(id: Id): string {
    match id
    case NumId(n) => IntToString(n)
    case StrId(s) => s
  }

  /**
   * A schedule as kept in the list. An absent `time` or `cronExpression` is
   * "", an absent `duration` is 0 (the falsy values the engine tests for),
   * and an absent `days` is `None`.
   */
  datatype Schedule = Schedule(
    id: Id, name: string, stationId: string, time: string, days: Option<seq<int>>,
    duration: int, cronExpression: string, isLocked: bool, enabled: bool, createdAt: string)

  /** The object handed to `addSchedule`; an `id` in it wins over the generated one. */
  datatype ScheduleFields = ScheduleFields(
    id: Option<Id>, name: string, stationId: string, time: string, days: Option<seq<int>>,
    duration: int, cronExpression: string, isLocked: bool)

  /** An entry of `activeRecordings`: `startTime` in epoch milliseconds, `duration` in seconds. */
  datatype Recording = Recording(startTime: int, duration: int, stationId: string, scheduleId: Id)

  /**
   * One call of a callback. `onRecordingStop` receives only the station id;
   * the log also notes the schedule id of the recording that was stopped.
   */
  datatype Event = Started(schedule: Schedule) | Stopped(scheduleId: Id, stationId: string)

  /**
   * The entry `addSchedule` builds: the generated id `Date.now().toString()`
   * unless the fields carry an id, the fields, then `enabled` and `createdAt`.
   */
  function NewSchedule(fields: ScheduleFields, nowMs: int, createdAt: string): Schedule {
    Schedule(fields.id.GetOr(StrId(IntToString(nowMs))), fields.name, fields.stationId, fields.time,
      fields.days, fields.duration, fields.cronExpression, fields.isLocked, true, createdAt)
  }

  // ---------------------------------------------------------------- trigger

  /**
   * `shouldRecordNow` without its cron arithmetic: `cronDue` holds the cron
   * expressions whose previous occurrence lies within a minute of `now`.
   * Otherwise a schedule with a time is due when both fields of the time,
   * read with `parseInt`, equal the current hour and minute and `days` is
   * absent or lists the current weekday; a schedule with neither is never due.
   */
  function ShouldRecordNow(s: Schedule, now: Clock, cronDue: set<string>): (due: bool)
    ensures s.cronExpression == "" && s.time == "" ==> !due
    ensures due && s.cronExpression == "" ==> s.days.None? || now.weekday in s.days.value
  {
    if s.cronExpression != "" then
      s.cronExpression in cronDue
    else if s.time != "" then
      var f := Split(s.time, ':');
      && ParseInt(f[0]) == Some(now.hour)
      && |f| >= 2 && ParseInt(f[1]) == Some(now.minute)
      && (s.days.None? || now.weekday in s.days.value)
    else
      false
  }

  /**
   * For a schedule without a cron expression whose time is two runs of
   * digits joined by ':', the schedule is due exactly at that hour and
   * minute, on a listed weekday or on every weekday when no days are given.
   */
  lemma TimeTrigger(s: Schedule, hh: string, mm: string, now: Clock, cronDue: set<string>)
    requires s.cronExpression == ""
    requires 1 <= |hh| && AllDigits(hh) && 1 <= |mm| && AllDigits(mm)
    requires s.time == hh + ":" + mm
    ensures ShouldRecordNow(s, now, cronDue) <==>
      now.hour == DigitsValue(hh) && now.minute == DigitsValue(mm) && (s.days.None? || now.weekday in s.days.value)
  {
    DigitsHaveNoColon(hh);
    DigitsHaveNoColon(mm);
    SplitTime(hh, mm);
    ParseIntOfDigits(hh);
    ParseIntOfDigits(mm);
  }

  /** `parseInt("")` is NaN, so a time with an empty minute field, such as "09:", is never due. */
  lemma EmptyMinuteFieldNeverDue(s: Schedule, hh: string, now: Clock, cronDue: set<string>)
    requires s.cronExpression == ""
    requires 1 <= |hh| && AllDigits(hh)
    requires s.time == hh + ":"
    ensures !ShouldRecordNow(s, now, cronDue)
  {
    DigitsHaveNoColon(hh);
    assert s.time == hh + ":" + "";
    SplitTime(hh, "");
  }

  // ---------------------------------------------------------------- the schedule list

  /** `schedules.filter(s => s.id !== id && s.id.toString() !== id.toString())`. */
  function Removed(ss: seq<Schedule>, id: Id): seq<Schedule> {
    if ss == [] then []
    else
      var rest := Removed(ss[1..], id);
      if ss[0].id != id && IdString(ss[0].id) != IdString(id) then [ss[0]] + rest else rest
  }

  /**
   * An entry survives removal exactly when its id differs from `id` once
   * both are written as strings; `isLocked` plays no part.
   */
  lemma {:induction false} RemovedMembers(ss: seq<Schedule>, id: Id, s: Schedule)
    ensures s in Removed(ss, id) <==> s in ss && IdString(s.id) != IdString(id)
  {
    if ss != [] {
      RemovedMembers(ss[1..], id, s);
      assert ss == [ss[0]] + ss[1..];
    }
  }

  /** Removal works entry by entry and keeps the survivors in their order. */
  lemma {:induction false} RemovedAppend(a: seq<Schedule>, b: seq<Schedule>, id: Id)
    ensures Removed(a + b, id) == Removed(a, id) + Removed(b, id)
  {
    if a == [] {
      assert a + b == b;
    } else {
      var ab := a + b;
      assert ab[0] == a[0] && ab[1..] == a[1..] + b;
      RemovedAppend(a[1..], b, id);
      var s := a[0];
      if s.id != id && IdString(s.id) != IdString(id) {
        calc {
          Removed(ab, id);
          [s] + Removed(a[1..] + b, id);
          [s] + (Removed(a[1..], id) + Removed(b, id));
          ([s] + Removed(a[1..], id)) + Removed(b, id);
        }
      }
    }
  }

  /** Removing twice is removing once. */
  lemma {:induction false} RemovedIdempotent(ss: seq<Schedule>, id: Id)
    ensures Removed(Removed(ss, id), id) == Removed(ss, id)
  {
    if ss != [] {
      RemovedIdempotent(ss[1..], id);
      var rest := Removed(ss[1..], id);
      if ss[0].id != id && IdString(ss[0].id) != IdString(id) {
        assert ([ss[0]] + rest)[1..] == rest;
      }
    }
  }

  /** A numeric id and its decimal string name the same schedule for removal. */
  lemma RemoveAcrossIdKinds(s: Schedule, n: nat)
    requires s.id == NumId(n)
    ensures Removed([s], StrId(NatToString(n))) == []
  {
    assert [s][1..] == [];
  }

  /** The index of the first schedule whose id is strictly equal to `id`, or `|ss|` when there is none. */
  function FindId(ss: seq<Schedule>, id: Id): (i: nat)
    ensures i <= |ss|
    ensures i < |ss| ==> ss[i].id == id
    ensures forall j :: 0 <= j < i ==> ss[j].id != id
  {
    if ss == [] then 0 else if ss[0].id == id then 0 else 1 + FindId(ss[1..], id)
  }

  function Flip(s: Schedule): Schedule {
    s.(enabled := !s.enabled)
  }

  /** `toggleSchedule`: the first schedule with a strictly equal id has its `enabled` flag flipped. */
  function Toggled(ss: seq<Schedule>, id: Id): seq<Schedule> {
    var i := FindId(ss, id);
    if i < |ss| then ss[i := Flip(ss[i])] else ss
  }

  /**
   * Toggling changes only the first entry with a strictly equal id, and only
   * its `enabled` flag; an unknown id changes nothing.
   */
  lemma ToggledChangesFirstMatchOnly(ss: seq<Schedule>, id: Id)
    ensures |Toggled(ss, id)| == |ss|
    ensures forall k :: 0 <= k < |ss| && ss[k].id != id ==> Toggled(ss, id)[k] == ss[k]
    ensures forall k :: 0 <= k < |ss| && ss[k].id == id ==>
      if k == FindId(ss, id) then
        Toggled(ss, id)[k].enabled == !ss[k].enabled && Toggled(ss, id)[k].(enabled := ss[k].enabled) == ss[k]
      else Toggled(ss, id)[k] == ss[k]
    ensures (forall s :: s in ss ==> s.id != id) ==> Toggled(ss, id) == ss
  {
    if (forall s :: s in ss ==> s.id != id) {
      assert FindId(ss, id) == |ss|;
    }
  }

  /** Toggling the same id twice restores the list. */
  lemma ToggleTwice(ss: seq<Schedule>, id: Id)
    ensures Toggled(Toggled(ss, id), id) == ss
  {
    var i := FindId(ss, id);
    if i < |ss| {
      var t := Toggled(ss, id);
      assert forall j :: 0 <= j < i ==> t[j] == ss[j];
      assert FindId(t, id) == i;
      assert t[i := Flip(t[i])] == ss;
    }
  }

  // ---------------------------------------------------------------- active recordings

  /** The schedule ids with an active recording: the keys of the Map. */
  function ActiveIds(rs: seq<Recording>): set<Id> {
    if rs == [] then {} else {rs[0].scheduleId} + ActiveIds(rs[1..])
  }

  /** An id is active exactly when some recording carries it. */
  lemma {:induction false} ActiveIdsMembers(rs: seq<Recording>, id: Id)
    ensures id in ActiveIds(rs) <==> exists r :: r in rs && r.scheduleId == id
  {
    if rs != [] {
      ActiveIdsMembers(rs[1..], id);
      assert forall r :: r in rs <==> r == rs[0] || r in rs[1..];
    }
  }

  lemma {:induction false} ActiveIdsAppend(a: seq<Recording>, b: seq<Recording>)
    ensures ActiveIds(a + b) == ActiveIds(a) + ActiveIds(b)
  {
    if a == [] {
      assert a + b == b;
    } else {
      ActiveIdsAppend(a[1..], b);
      assert (a + b)[0] == a[0] && (a + b)[1..] == a[1..] + b;
    }
  }

  /** At most one active recording per schedule id. */
  predicate DistinctIds(rs: seq<Recording>) {
    rs == [] || (rs[0].scheduleId !in ActiveIds(rs[1..]) && DistinctIds(rs[1..]))
  }

  /** No two positions of a list with distinct ids carry the same id. */
  lemma {:induction false} DistinctIdsPairwise(rs: seq<Recording>)
    requires DistinctIds(rs)
    ensures forall i, j :: 0 <= i < j < |rs| ==> rs[i].scheduleId != rs[j].scheduleId
  {
    if rs != [] {
      DistinctIdsPairwise(rs[1..]);
      forall i, j | 0 <= i < j < |rs| ensures rs[i].scheduleId != rs[j].scheduleId {
        if i == 0 {
          assert rs[j] in rs[1..];
          ActiveIdsMembers(rs[1..], rs[j].scheduleId);
        } else {
          assert rs[i] == rs[1..][i - 1] && rs[j] == rs[1..][j - 1];
        }
      }
    }
  }

  /** `activeRecordings.get(id)`. */
  function Lookup(rs: seq<Recording>, id: Id): (found: Option<Recording>)
    ensures found.Some? ==> found.value in rs && found.value.scheduleId == id
    ensures found.None? <==> id !in ActiveIds(rs)
  {
    if rs == [] then None
    else if rs[0].scheduleId == id then Some(rs[0])
    else
      var found := Lookup(rs[1..], id);
      assert found.Some? ==> found.value in rs;
      found
  }

  /** `activeRecordings.delete(id)`. */
  function RemoveId(rs: seq<Recording>, id: Id): seq<Recording> {
    if rs == [] then []
    else if rs[0].scheduleId == id then RemoveId(rs[1..], id)
    else [rs[0]] + RemoveId(rs[1..], id)
  }

  lemma {:induction false} RemoveIdMembers(rs: seq<Recording>, id: Id, r: Recording)
    ensures r in RemoveId(rs, id) <==> r in rs && r.scheduleId != id
  {
    if rs != [] {
      RemoveIdMembers(rs[1..], id, r);
      assert rs == [rs[0]] + rs[1..];
    }
  }

  lemma DistinctCons(r: Recording, rs: seq<Recording>)
    ensures DistinctIds([r] + rs) <==> r.scheduleId !in ActiveIds(rs) && DistinctIds(rs)
  {
    assert ([r] + rs)[0] == r && ([r] + rs)[1..] == rs;
  }

  /** Deleting a key keeps the other keys distinct and removes exactly that key. */
  lemma {:induction false} RemoveIdKeepsDistinct(rs: seq<Recording>, id: Id)
    requires DistinctIds(rs)
    ensures DistinctIds(RemoveId(rs, id))
    ensures ActiveIds(RemoveId(rs, id)) == ActiveIds(rs) - {id}
  {
    if rs != [] {
      RemoveIdKeepsDistinct(rs[1..], id);
      var rest := RemoveId(rs[1..], id);
      if rs[0].scheduleId != id {
        DistinctCons(rs[0], rest);
        ActiveIdsCons(rs[0], rest);
      }
    }
  }

  lemma ActiveIdsCons(r: Recording, rs: seq<Recording>)
    ensures ActiveIds([r] + rs) == {r.scheduleId} + ActiveIds(rs)
  {
    assert ([r] + rs)[0] == r && ([r] + rs)[1..] == rs;
  }

  /** Appending a recording for an id that is not active keeps the ids distinct. */
  lemma {:induction false} DistinctAppend(rs: seq<Recording>, r: Recording)
    requires DistinctIds(rs) && r.scheduleId !in ActiveIds(rs)
    ensures DistinctIds(rs + [r])
    ensures ActiveIds(rs + [r]) == ActiveIds(rs) + {r.scheduleId}
  {
    ActiveIdsAppend(rs, [r]);
    assert ActiveIds([r]) == {r.scheduleId} by {
      assert [r][1..] == [];
    }
    if rs != [] {
      var t := rs + [r];
      assert t[0] == rs[0] && t[1..] == rs[1..] + [r];
      DistinctAppend(rs[1..], r);
    }
  }

  /** `schedule.duration || 1800`: a missing duration means thirty minutes. */
  function EffectiveDuration(duration: int): (d: int)
    ensures d != 0
    ensures duration != 0 ==> d == duration
  {
    if duration == 0 then 1800 else duration
  }

  /** The entry `startScheduledRecording` stores for a schedule started at `startMs`, its own reading of the clock. */
  function NewRecording(s: Schedule, startMs: int): Recording {
    Recording(startMs, EffectiveDuration(s.duration), s.stationId, s.id)
  }

  /** `(now - recording.startTime) / 1000 >= recording.duration`, in exact arithmetic. */
  predicate Expired(r: Recording, nowMs: int) {
    nowMs - r.startTime >= 1000 * r.duration
  }

  /**
   * A recording started during the tick whose clock reads `nowMs`, at the
   * same instant or later, has a non-positive elapsed time in that tick's
   * stop loop. So that loop ends it exactly when a stop callback is
   * installed, its schedule's duration is negative, and the start came at
   * most that many seconds after the tick's reading; otherwise it is kept.
   * A schedule with a positive or missing duration is never stopped in the
   * tick that starts it.
   */
  lemma JustStartedStoppedIff(s: Schedule, canStop: bool, nowMs: int, startMs: int)
    requires nowMs <= startMs
    ensures var r := NewRecording(s, startMs);
      && (Expiring([r], canStop, nowMs) == [r] <==> canStop && s.duration < 0 && startMs - nowMs <= -1000 * s.duration)
      && (Kept([r], canStop, nowMs) == [r] <==> !(canStop && s.duration < 0 && startMs - nowMs <= -1000 * s.duration))
  {
    var r := NewRecording(s, startMs);
    assert [r][..0] == [];
  }

  /**
   * The start of a recording is read after the tick's clock, so it can lag
   * it. With the minute tick, a one-minute recording started one millisecond
   * after its tick's reading has elapsed just under a minute at the next
   * tick and is kept; the tick after that stops it.
   */
  lemma LateStartStopsOneTickLater(s: Schedule, tickMs: int)
    requires s.duration == 60
    ensures var r := NewRecording(s, tickMs + 1);
      && !Expired(r, tickMs + 60_000)
      && Expired(r, tickMs + 120_000)
  {
  }

  // ---------------------------------------------------------------- the tick

  /** The state the start phase builds: the active recordings and the schedules started, in order. */
  datatype Phase = Phase(active: seq<Recording>, started: seq<Schedule>)

  /** The test the start loop applies to one schedule. */
  predicate Eligible(s: Schedule, active: seq<Recording>, now: Clock, cronDue: set<string>) {
    s.enabled && ShouldRecordNow(s, now, cronDue) && s.id !in ActiveIds(active)
  }

  /**
   * The first loop of `checkSchedules` over the schedules `ss`: every enabled
   * due schedule whose id is not yet active is started, which registers a
   * recording, started at `startMs`, only when a start callback is
   * installed (`canStart`).
   */
  function StartPhase(ss: seq<Schedule>, active: seq<Recording>, canStart: bool, now: Clock, startMs: int, cronDue: set<string>): Phase {
    if ss == [] then Phase(active, [])
    else
      var p := StartPhase(ss[..|ss| - 1], active, canStart, now, startMs, cronDue);
      var s := ss[|ss| - 1];
      if canStart && Eligible(s, p.active, now, cronDue) then
        Phase(p.active + [NewRecording(s, startMs)], p.started + [s])
      else p
  }

  lemma StartPhaseStep(ss: seq<Schedule>, i: nat, active: seq<Recording>, canStart: bool, now: Clock, startMs: int, cronDue: set<string>)
    requires i < |ss|
    ensures var p := StartPhase(ss[..i], active, canStart, now, startMs, cronDue);
      StartPhase(ss[..i + 1], active, canStart, now, startMs, cronDue) ==
        if canStart && Eligible(ss[i], p.active, now, cronDue) then
          Phase(p.active + [NewRecording(ss[i], startMs)], p.started + [ss[i]])
        else p
  {
    assert ss[..i + 1][..i] == ss[..i];
  }

  /**
   * The start phase leaves the recordings already active as they were and
   * appends one new recording, started now, per schedule it starts.
   */
  lemma {:induction false} StartPhaseAppends(ss: seq<Schedule>, active: seq<Recording>, canStart: bool, now: Clock, startMs: int, cronDue: set<string>)
    ensures var p := StartPhase(ss, active, canStart, now, startMs, cronDue);
      && |p.active| == |active| + |p.started|
      && p.active[..|active|] == active
      && forall j :: 0 <= j < |p.started| ==> p.active[|active| + j] == NewRecording(p.started[j], startMs)
  {
    if ss != [] {
      StartPhaseAppends(ss[..|ss| - 1], active, canStart, now, startMs, cronDue);
    }
  }

  /**
   * The start phase starts only schedules of the list that are enabled and
   * due now, only when a start callback is installed, never a schedule whose
   * id was already active, and never two with the same id; the ids stay
   * distinct.
   */
  lemma {:induction false} StartPhaseStartsOnlyEligible(ss: seq<Schedule>, active: seq<Recording>, canStart: bool, now: Clock, startMs: int, cronDue: set<string>)
    requires DistinctIds(active)
    ensures var p := StartPhase(ss, active, canStart, now, startMs, cronDue);
      && DistinctIds(p.active)
      && ActiveIds(p.active) == ActiveIds(active) + (set s | s in p.started :: s.id)
      && forall s :: s in p.started ==>
           && s in ss && canStart && s.enabled && ShouldRecordNow(s, now, cronDue)
           && s.id !in ActiveIds(active)
  {
    if ss != [] {
      var front := ss[..|ss| - 1];
      var s := ss[|ss| - 1];
      StartPhaseStartsOnlyEligible(front, active, canStart, now, startMs, cronDue);
      var p := StartPhase(front, active, canStart, now, startMs, cronDue);
      assert forall x :: x in front ==> x in ss;
      if canStart && Eligible(s, p.active, now, cronDue) {
        DistinctAppend(p.active, NewRecording(s, startMs));
        assert forall x :: x in p.started + [s] ==> x in p.started || x == s;
      }
    }
  }

  /**
   * With a start callback installed, after the start phase every enabled
   * schedule of the list that is due now has an active recording.
   */
  lemma {:induction false} StartPhaseComplete(ss: seq<Schedule>, active: seq<Recording>, now: Clock, startMs: int, cronDue: set<string>)
    ensures var p := StartPhase(ss, active, true, now, startMs, cronDue);
      forall s :: s in ss && s.enabled && ShouldRecordNow(s, now, cronDue) ==> s.id in ActiveIds(p.active)
  {
    if ss != [] {
      var front := ss[..|ss| - 1];
      var last := ss[|ss| - 1];
      StartPhaseComplete(front, active, now, startMs, cronDue);
      var p := StartPhase(front, active, true, now, startMs, cronDue);
      if Eligible(last, p.active, now, cronDue) {
        var r := NewRecording(last, startMs);
        ActiveIdsAppend(p.active, [r]);
        assert [r][1..] == [];
      }
      assert forall x :: x in ss ==> x in front || x == last;
    }
  }

  /** The recordings the stop phase keeps: those not expired, or all when no stop callback is installed. */
  function Kept(rs: seq<Recording>, canStop: bool, nowMs: int): seq<Recording> {
    if rs == [] then []
    else
      var r := rs[|rs| - 1];
      Kept(rs[..|rs| - 1], canStop, nowMs) + (if canStop && Expired(r, nowMs) then [] else [r])
  }

  /** The recordings the stop phase ends, in the Map's order. */
  function Expiring(rs: seq<Recording>, canStop: bool, nowMs: int): seq<Recording> {
    if rs == [] then []
    else
      var r := rs[|rs| - 1];
      Expiring(rs[..|rs| - 1], canStop, nowMs) + (if canStop && Expired(r, nowMs) then [r] else [])
  }

  /**
   * The stop phase splits the active recordings: a recording is ended
   * exactly when its elapsed time has reached its duration and a stop
   * callback is installed; every other recording is kept unchanged.
   */
  lemma {:induction false} StopPhaseSplits(rs: seq<Recording>, canStop: bool, nowMs: int, r: Recording)
    ensures r in Kept(rs, canStop, nowMs) <==> r in rs && !(canStop && Expired(r, nowMs))
    ensures r in Expiring(rs, canStop, nowMs) <==> r in rs && canStop && Expired(r, nowMs)
    ensures |Kept(rs, canStop, nowMs)| + |Expiring(rs, canStop, nowMs)| == |rs|
  {
    if rs != [] {
      var front := rs[..|rs| - 1];
      StopPhaseSplits(front, canStop, nowMs, r);
      assert rs == front + [rs[|rs| - 1]];
    }
  }

  /** The log entries of the start callbacks for `ss`. */
  function StartEvents(ss: seq<Schedule>): (es: seq<Event>)
    ensures |es| == |ss|
  {
    if ss == [] then [] else StartEvents(ss[..|ss| - 1]) + [Started(ss[|ss| - 1])]
  }

  /** The log entries of the stop callbacks for `rs`. */
  function StopEvents(rs: seq<Recording>): (es: seq<Event>)
    ensures |es| == |rs|
  {
    if rs == [] then [] else StopEvents(rs[..|rs| - 1]) + [Stopped(rs[|rs| - 1].scheduleId, rs[|rs| - 1].stationId)]
  }

  lemma StartEventsAppend(ss: seq<Schedule>, s: Schedule)
    ensures StartEvents(ss + [s]) == StartEvents(ss) + [Started(s)]
  {
    assert (ss + [s])[..|ss|] == ss;
  }

  lemma StopEventsAppend(rs: seq<Recording>, r: Recording)
    ensures StopEvents(rs + [r]) == StopEvents(rs) + [Stopped(r.scheduleId, r.stationId)]
  {
    assert (rs + [r])[..|rs|] == rs;
  }

  lemma KeptAppend(rs: seq<Recording>, r: Recording, canStop: bool, nowMs: int)
    ensures Kept(rs + [r], canStop, nowMs) == Kept(rs, canStop, nowMs) + (if canStop && Expired(r, nowMs) then [] else [r])
    ensures Expiring(rs + [r], canStop, nowMs) == Expiring(rs, canStop, nowMs) + (if canStop && Expired(r, nowMs) then [r] else [])
  {
    assert (rs + [r])[..|rs|] == rs;
  }

  /** An entry of a list with distinct ids carries an id that no entry before or after it carries. */
  lemma {:induction false} UniqueEntry(a: seq<Recording>, r: Recording, b: seq<Recording>)
    requires DistinctIds(a + ([r] + b))
    ensures r.scheduleId !in ActiveIds(a) && r.scheduleId !in ActiveIds(b)
  {
    var t := [r] + b;
    if a == [] {
      assert a + t == t;
      DistinctCons(r, b);
    } else {
      assert (a + t)[0] == a[0] && (a + t)[1..] == a[1..] + t;
      UniqueEntry(a[1..], r, b);
      ActiveIdsAppend(a[1..], t);
      ActiveIdsCons(r, b);
    }
  }

  /**
   * In a list with distinct ids, the Map's `get` under an entry's id finds
   * that entry, and `delete` under it removes just that entry.
   */
  lemma EntryFoundAndRemoved(a: seq<Recording>, r: Recording, b: seq<Recording>)
    requires DistinctIds(a + ([r] + b))
    ensures Lookup(a + ([r] + b), r.scheduleId) == Some(r)
    ensures RemoveId(a + ([r] + b), r.scheduleId) == a + b
  {
    UniqueEntry(a, r, b);
    LookupAppend(a, [r] + b, r.scheduleId);
    RemoveIdDropsUnique(a, r, b);
  }

  /** Deleting the key of an entry that no other entry carries removes just that entry. */
  lemma RemoveIdDropsUnique(a: seq<Recording>, r: Recording, b: seq<Recording>)
    requires r.scheduleId !in ActiveIds(a) && r.scheduleId !in ActiveIds(b)
    ensures RemoveId(a + ([r] + b), r.scheduleId) == a + b
  {
    var tail := [r] + b;
    assert tail[0] == r && tail[1..] == b;
    calc {
      RemoveId(a + tail, r.scheduleId);
      { RemoveIdAppend(a, tail, r.scheduleId); }
      RemoveId(a, r.scheduleId) + RemoveId(tail, r.scheduleId);
      { RemoveIdAbsent(a, r.scheduleId); }
      a + RemoveId(tail, r.scheduleId);
      a + RemoveId(b, r.scheduleId);
      { RemoveIdAbsent(b, r.scheduleId); }
      a + b;
    }
  }

  lemma {:induction false} LookupAppend(a: seq<Recording>, b: seq<Recording>, id: Id)
    requires id !in ActiveIds(a)
    ensures Lookup(a + b, id) == Lookup(b, id)
  {
    if a == [] {
      assert a + b == b;
    } else {
      LookupAppend(a[1..], b, id);
      assert (a + b)[1..] == a[1..] + b;
    }
  }

  lemma {:induction false} RemoveIdAppend(a: seq<Recording>, b: seq<Recording>, id: Id)
    ensures RemoveId(a + b, id) == RemoveId(a, id) + RemoveId(b, id)
  {
    if a == [] {
      assert a + b == b;
    } else {
      RemoveIdAppend(a[1..], b, id);
      assert (a + b)[1..] == a[1..] + b;
    }
  }

  lemma {:induction false} RemoveIdAbsent(a: seq<Recording>, id: Id)
    requires id !in ActiveIds(a)
    ensures RemoveId(a, id) == a
  {
    if a != [] {
      RemoveIdAbsent(a[1..], id);
      assert a == [a[0]] + a[1..];
    }
  }

  // ---------------------------------------------------------------- the event log

  /** The schedule ids whose recording was started and not yet stopped, according to the log. */
  function LiveAfter(events: seq<Event>): set<Id> {
    if events == [] then {}
    else
      var live := LiveAfter(events[..|events| - 1]);
      match events[|events| - 1]
      case Started(s) => live + {s.id}
      case Stopped(id, _) => live - {id}
  }

  /** Starts and stops alternate per schedule id: no second start while live, no stop unless live. */
  predicate Alternates(events: seq<Event>) {
    if events == [] then true
    else
      var front := events[..|events| - 1];
      && Alternates(front)
      && match events[|events| - 1]
         case Started(s) => s.id !in LiveAfter(front)
         case Stopped(id, _) => id in LiveAfter(front)
  }

  function StartCount(events: seq<Event>, id: Id): nat {
    if events == [] then 0
    else StartCount(events[..|events| - 1], id) + (if events[|events| - 1].Started? && events[|events| - 1].schedule.id == id then 1 else 0)
  }

  function StopCount(events: seq<Event>, id: Id): nat {
    if events == [] then 0
    else StopCount(events[..|events| - 1], id) + (if events[|events| - 1].Stopped? && events[|events| - 1].scheduleId == id then 1 else 0)
  }

  /**
   * In an alternating log, the starts of a schedule id outnumber its stops
   * by one while a recording of it is live and by none otherwise: at most
   * one scheduled recording per id at any time.
   */
  lemma {:induction false} StartsMinusStops(events: seq<Event>, id: Id)
    requires Alternates(events)
    ensures StartCount(events, id) == StopCount(events, id) + (if id in LiveAfter(events) then 1 else 0)
  {
    if events != [] {
      StartsMinusStops(events[..|events| - 1], id);
    }
  }

  lemma ActiveIdsSnoc(rs: seq<Recording>, r: Recording)
    ensures ActiveIds(rs + [r]) == ActiveIds(rs) + {r.scheduleId}
  {
    ActiveIdsAppend(rs, [r]);
    assert [r][1..] == [];
  }

  /** A list with distinct ids ending in `r`: the entries before `r` have distinct ids, none of them `r`'s. */
  lemma {:induction false} DistinctFront(rs: seq<Recording>, r: Recording)
    requires DistinctIds(rs + [r])
    ensures DistinctIds(rs) && r.scheduleId !in ActiveIds(rs)
  {
    assert rs + ([r] + []) == rs + [r];
    UniqueEntry(rs, r, []);
    if rs != [] {
      var t := rs + [r];
      assert t[0] == rs[0] && t[1..] == rs[1..] + [r];
      DistinctFront(rs[1..], r);
      ActiveIdsSnoc(rs[1..], r);
    }
  }

  lemma LogStop(events: seq<Event>, id: Id, stationId: string)
    ensures var log := events + [Stopped(id, stationId)];
      && (Alternates(log) <==> Alternates(events) && id in LiveAfter(events))
      && LiveAfter(log) == LiveAfter(events) - {id}
  {
    assert (events + [Stopped(id, stationId)])[..|events|] == events;
  }

  /** The ids the stop phase keeps and the ids it ends are, together, the ids it was given. */
  lemma {:induction false} StopPhaseCoversIds(rs: seq<Recording>, canStop: bool, nowMs: int)
    ensures ActiveIds(Kept(rs, canStop, nowMs)) + ActiveIds(Expiring(rs, canStop, nowMs)) == ActiveIds(rs)
    decreases |rs|
  {
    if rs != [] {
      var front, r := rs[..|rs| - 1], rs[|rs| - 1];
      assert rs == front + [r];
      ActiveIdsSnoc(front, r);
      StopPhaseCoversIds(front, canStop, nowMs);
      KeptAppend(front, r, canStop, nowMs);
      var kept, ending := Kept(front, canStop, nowMs), Expiring(front, canStop, nowMs);
      if canStop && Expired(r, nowMs) {
        assert Kept(rs, canStop, nowMs) == kept;
        ActiveIdsSnoc(ending, r);
      } else {
        assert Expiring(rs, canStop, nowMs) == ending;
        ActiveIdsSnoc(kept, r);
      }
    }
  }

  lemma StopPhaseDistinctStep(front: seq<Recording>, r: Recording, canStop: bool, nowMs: int)
    requires DistinctIds(Kept(front, canStop, nowMs)) && DistinctIds(Expiring(front, canStop, nowMs))
    requires r.scheduleId !in ActiveIds(Kept(front, canStop, nowMs)) + ActiveIds(Expiring(front, canStop, nowMs))
    ensures DistinctIds(Kept(front + [r], canStop, nowMs)) && DistinctIds(Expiring(front + [r], canStop, nowMs))
  {
    KeptAppend(front, r, canStop, nowMs);
    var kept, ending := Kept(front, canStop, nowMs), Expiring(front, canStop, nowMs);
    if canStop && Expired(r, nowMs) {
      assert Kept(front + [r], canStop, nowMs) == kept;
      DistinctAppend(ending, r);
    } else {
      assert Expiring(front + [r], canStop, nowMs) == ending;
      DistinctAppend(kept, r);
    }
  }

  /** On a list with distinct ids, the recordings the stop phase keeps, like those it ends, have distinct ids. */
  lemma {:induction false} StopPhaseDistinct(rs: seq<Recording>, canStop: bool, nowMs: int)
    requires DistinctIds(rs)
    ensures DistinctIds(Kept(rs, canStop, nowMs)) && DistinctIds(Expiring(rs, canStop, nowMs))
    decreases |rs|
  {
    if rs != [] {
      var front, r := rs[..|rs| - 1], rs[|rs| - 1];
      assert rs == front + [r];
      DistinctFront(front, r);
      StopPhaseDistinct(front, canStop, nowMs);
      StopPhaseCoversIds(front, canStop, nowMs);
      StopPhaseDistinctStep(front, r, canStop, nowMs);
    }
  }

  lemma StopPhaseSeparatesStep(front: seq<Recording>, r: Recording, canStop: bool, nowMs: int)
    requires forall id :: id in ActiveIds(Kept(front, canStop, nowMs)) ==> id !in ActiveIds(Expiring(front, canStop, nowMs))
    requires r.scheduleId !in ActiveIds(Kept(front, canStop, nowMs)) + ActiveIds(Expiring(front, canStop, nowMs))
    ensures forall id :: id in ActiveIds(Kept(front + [r], canStop, nowMs)) ==> id !in ActiveIds(Expiring(front + [r], canStop, nowMs))
  {
    KeptAppend(front, r, canStop, nowMs);
    var kept, ending := Kept(front, canStop, nowMs), Expiring(front, canStop, nowMs);
    if canStop && Expired(r, nowMs) {
      assert Kept(front + [r], canStop, nowMs) == kept;
      ActiveIdsSnoc(ending, r);
    } else {
      assert Expiring(front + [r], canStop, nowMs) == ending;
      ActiveIdsSnoc(kept, r);
    }
  }

  /** On a list with distinct ids, no id is both kept and ended by the stop phase. */
  lemma {:induction false} StopPhaseSeparatesIds(rs: seq<Recording>, canStop: bool, nowMs: int)
    requires DistinctIds(rs)
    ensures forall id :: id in ActiveIds(Kept(rs, canStop, nowMs)) ==> id !in ActiveIds(Expiring(rs, canStop, nowMs))
    decreases |rs|
  {
    if rs != [] {
      var front, r := rs[..|rs| - 1], rs[|rs| - 1];
      assert rs == front + [r];
      DistinctFront(front, r);
      StopPhaseSeparatesIds(front, canStop, nowMs);
      StopPhaseCoversIds(front, canStop, nowMs);
      StopPhaseSeparatesStep(front, r, canStop, nowMs);
    }
  }

  /** Logging the stop of one more live recording. */
  lemma StopLogStep(events: seq<Event>, ending: seq<Recording>, r: Recording)
    requires Alternates(events + StopEvents(ending)) && r.scheduleId in LiveAfter(events + StopEvents(ending))
    ensures Alternates(events + StopEvents(ending + [r]))
    ensures LiveAfter(events + StopEvents(ending + [r])) == LiveAfter(events + StopEvents(ending)) - {r.scheduleId}
  {
    var log := events + StopEvents(ending);
    StopEventsAppend(ending, r);
    assert events + StopEvents(ending + [r]) == log + [Stopped(r.scheduleId, r.stationId)];
    LogStop(log, r.scheduleId, r.stationId);
  }

  /**
   * Logging a stop for each recording of a list with distinct ids, all of
   * them live, keeps starts and stops alternating and leaves live exactly
   * the ids that were live before minus the list's.
   */
  lemma {:induction false} StopsLogged(events: seq<Event>, ending: seq<Recording>)
    requires Alternates(events) && DistinctIds(ending) && ActiveIds(ending) <= LiveAfter(events)
    ensures Alternates(events + StopEvents(ending))
    ensures LiveAfter(events + StopEvents(ending)) == LiveAfter(events) - ActiveIds(ending)
    decreases |ending|
  {
    if ending == [] {
      assert events + StopEvents(ending) == events;
    } else {
      var front, r := ending[..|ending| - 1], ending[|ending| - 1];
      assert ending == front + [r];
      DistinctFront(front, r);
      ActiveIdsSnoc(front, r);
      StopsLogged(events, front);
      StopLogStep(events, front, r);
    }
  }

  /**
   * The stop phase keeps the engine's invariant: from distinct ids whose
   * set is exactly the live set of an alternating log, the kept recordings
   * and the log extended by the stops again have distinct ids, alternate,
   * and agree.
   */
  lemma StopPhaseKeepsInvariant(rs: seq<Recording>, events: seq<Event>, canStop: bool, nowMs: int)
    requires DistinctIds(rs) && Alternates(events) && LiveAfter(events) == ActiveIds(rs)
    ensures var log := events + StopEvents(Expiring(rs, canStop, nowMs));
      && DistinctIds(Kept(rs, canStop, nowMs))
      && Alternates(log)
      && LiveAfter(log) == ActiveIds(Kept(rs, canStop, nowMs))
  {
    StopPhaseCoversIds(rs, canStop, nowMs);
    StopPhaseSeparatesIds(rs, canStop, nowMs);
    StopPhaseDistinct(rs, canStop, nowMs);
    StopsLogged(events, Expiring(rs, canStop, nowMs));
  }

  lemma ShiftOne<T>(a: seq<T>, x: T, b: seq<T>)
    ensures (a + [x]) + b == a + ([x] + b)
  {
  }

  lemma AppendOne<T>(a: seq<T>, b: seq<T>, x: T)
    ensures a + (b + [x]) == (a + b) + [x]
  {
  }

  // ---------------------------------------------------------------- the engine

  class Engine {
    var schedules: seq<Schedule>
    /** `activeRecordings`, in the Map's insertion order. */
    var activeRecordings: seq<Recording>
    /** Whether `start` installed a start callback. */
    var onStartInstalled: bool
    /** Whether `start` installed a stop callback. */
    var onStopInstalled: bool
    /** Every callback call so far, in order. */
    ghost var events: seq<Event>

    ghost predicate Valid()
      reads this
    {
      && DistinctIds(activeRecordings)
      && Alternates(events)
      && LiveAfter(events) == ActiveIds(activeRecordings)
    }

    /** The engine over the saved list (`None` when nothing is saved), with nothing active. */
    constructor(saved: Option<seq<Schedule>>)
      ensures Valid()
      ensures schedules == saved.GetOr([]) && activeRecordings == [] && events == []
      ensures !onStartInstalled && !onStopInstalled
    {
      schedules := saved.GetOr([]);
      activeRecordings := [];
      onStartInstalled := false;
      onStopInstalled := false;
      events := [];
    }

    /**
     * `addSchedule`: appends one enabled entry built from the fields and
     * returns it; the id is the caller's when given, else the time in
     * milliseconds as a string.
     */
    method AddSchedule(fields: ScheduleFields, nowMs: int, createdAt: string) returns (added: Schedule)
      requires Valid()
      modifies this
      ensures Valid()
      ensures schedules == old(schedules) + [added]
      ensures added == NewSchedule(fields, nowMs, createdAt)
      ensures added.enabled && added.createdAt == createdAt
      ensures fields.id.Some? ==> added.id == fields.id.value
      ensures fields.id.None? ==> added.id == StrId(IntToString(nowMs))
      ensures activeRecordings == old(activeRecordings) && events == old(events)
      ensures onStartInstalled == old(onStartInstalled) && onStopInstalled == old(onStopInstalled)
    {
      added := NewSchedule(fields, nowMs, createdAt);
      schedules := schedules + [added];
    }

    /** `removeSchedule`: drops every entry whose id matches `id` as a string. */
    method RemoveSchedule(id: Id)
      requires Valid()
      modifies this
      ensures Valid()
      ensures schedules == Removed(old(schedules), id)
      ensures activeRecordings == old(activeRecordings) && events == old(events)
      ensures onStartInstalled == old(onStartInstalled) && onStopInstalled == old(onStopInstalled)
    {
      schedules := Removed(schedules, id);
    }

    /** `toggleSchedule`: finds the first entry with a strictly equal id and flips its `enabled` flag. */
    method ToggleSchedule(id: Id)
      requires Valid()
      modifies this
      ensures Valid()
      ensures schedules == Toggled(old(schedules), id)
      ensures activeRecordings == old(activeRecordings) && events == old(events)
      ensures onStartInstalled == old(onStartInstalled) && onStopInstalled == old(onStopInstalled)
    {
      var i := 0;
      while i < |schedules| && schedules[i].id != id
        invariant i <= |schedules|
        invariant forall j :: 0 <= j < i ==> schedules[j].id != id
      {
        i := i + 1;
      }
      assert i == FindId(schedules, id);
      if i < |schedules| {
        schedules := schedules[i := Flip(schedules[i])];
      }
    }

    /** `getSchedules`: the list itself. */
    method GetSchedules() returns (r: seq<Schedule>)
      ensures r == schedules
    {
      r := schedules;
    }

    /**
     * `startScheduledRecording`: with a start callback installed, registers
     * a recording started now under the schedule's id and calls the callback;
     * without one, does nothing. Its one caller starts only ids that are not
     * active.
     */
    method StartScheduledRecording(schedule: Schedule, nowMs: int)
      requires Valid() && schedule.id !in ActiveIds(activeRecordings)
      modifies this
      ensures Valid()
      ensures onStartInstalled ==>
        activeRecordings == old(activeRecordings) + [NewRecording(schedule, nowMs)] && events == old(events) + [Started(schedule)]
      ensures !onStartInstalled ==> activeRecordings == old(activeRecordings) && events == old(events)
      ensures schedules == old(schedules)
      ensures onStartInstalled == old(onStartInstalled) && onStopInstalled == old(onStopInstalled)
    {
      if onStartInstalled {
        var recording := NewRecording(schedule, nowMs);
        DistinctAppend(activeRecordings, recording);
        activeRecordings := activeRecordings + [recording];
        events := events + [Started(schedule)];
        assert events[..|events| - 1] == old(events);
      }
    }

    /**
     * `stopScheduledRecording`: when the id has an active recording and a
     * stop callback is installed, calls the callback with the recording's
     * station and deletes the entry; otherwise does nothing.
     */
    method StopScheduledRecording(scheduleId: Id)
      requires DistinctIds(activeRecordings)
      modifies this
      ensures DistinctIds(activeRecordings)
      ensures old(Valid()) ==> Valid()
      ensures var found := Lookup(old(activeRecordings), scheduleId);
        if found.Some? && onStopInstalled then
          && activeRecordings == RemoveId(old(activeRecordings), scheduleId)
          && events == old(events) + [Stopped(scheduleId, found.value.stationId)]
        else
          activeRecordings == old(activeRecordings) && events == old(events)
      ensures schedules == old(schedules)
      ensures onStartInstalled == old(onStartInstalled) && onStopInstalled == old(onStopInstalled)
    {
      var recording := Lookup(activeRecordings, scheduleId);
      if recording.Some? && onStopInstalled {
        RemoveIdKeepsDistinct(activeRecordings, scheduleId);
        events := events + [Stopped(scheduleId, recording.value.stationId)];
        assert events[..|events| - 1] == old(events);
        activeRecordings := RemoveId(activeRecordings, scheduleId);
      }
    }

    /**
     * The first loop of `checkSchedules`: every enabled schedule that is due
     * now and whose id is not active is handed to `startScheduledRecording`,
     * which reads the clock as `startMs`.
     */
    method StartDue(now: Clock, startMs: int, cronDue: set<string>)
      requires Valid()
      modifies this
      ensures Valid()
      ensures var p := StartPhase(old(schedules), old(activeRecordings), onStartInstalled, now, startMs, cronDue);
        activeRecordings == p.active && events == old(events) + StartEvents(p.started)
      ensures schedules == old(schedules)
      ensures onStartInstalled == old(onStartInstalled) && onStopInstalled == old(onStopInstalled)
    {
      var i := 0;
      while i < |schedules|
        invariant Valid()
        invariant i <= |schedules|
        invariant schedules == old(schedules)
        invariant onStartInstalled == old(onStartInstalled) && onStopInstalled == old(onStopInstalled)
        invariant var p := StartPhase(schedules[..i], old(activeRecordings), onStartInstalled, now, startMs, cronDue);
          activeRecordings == p.active && events == old(events) + StartEvents(p.started)
      {
        var schedule := schedules[i];
        ghost var p := StartPhase(schedules[..i], old(activeRecordings), onStartInstalled, now, startMs, cronDue);
        StartPhaseStep(schedules, i, old(activeRecordings), onStartInstalled, now, startMs, cronDue);
        if schedule.enabled {
          var shouldRecord := ShouldRecordNow(schedule, now, cronDue);
          if shouldRecord && schedule.id !in ActiveIds(activeRecordings) {
            StartScheduledRecording(schedule, startMs);
            StartEventsAppend(p.started, schedule);
          }
        }
        i := i + 1;
      }
      assert schedules[..i] == schedules;
    }

    /**
     * The second loop of `checkSchedules`: each active recording, in the
     * Map's order, whose elapsed seconds have reached its duration is handed
     * to `stopScheduledRecording`.
     */
    method StopExpired(nowMs: int)
      requires Valid()
      modifies this
      ensures Valid()
      ensures activeRecordings == Kept(old(activeRecordings), onStopInstalled, nowMs)
      ensures events == old(events) + StopEvents(Expiring(old(activeRecordings), onStopInstalled, nowMs))
      ensures schedules == old(schedules)
      ensures onStartInstalled == old(onStartInstalled) && onStopInstalled == old(onStopInstalled)
    {
      var todo := activeRecordings;
      ghost var done: seq<Recording> := [];
      ghost var kept: seq<Recording> := [];
      ghost var ending: seq<Recording> := [];
      while todo != []
        invariant DistinctIds(activeRecordings)
        invariant schedules == old(schedules)
        invariant onStartInstalled == old(onStartInstalled) && onStopInstalled == old(onStopInstalled)
        invariant done + todo == old(activeRecordings)
        invariant kept == Kept(done, onStopInstalled, nowMs) && ending == Expiring(done, onStopInstalled, nowMs)
        invariant activeRecordings == kept + todo
        invariant events == old(events) + StopEvents(ending)
        decreases |todo|
      {
        var recording := todo[0];
        ghost var rest := todo[1..];
        assert todo == [recording] + rest;
        StopIfExpired(recording, nowMs, kept, rest);
        KeptAppend(done, recording, onStopInstalled, nowMs);
        ShiftOne(done, recording, rest);
        if onStopInstalled && Expired(recording, nowMs) {
          StopEventsAppend(ending, recording);
          AppendOne(old(events), StopEvents(ending), Stopped(recording.scheduleId, recording.stationId));
          ending := ending + [recording];
        } else {
          ShiftOne(kept, recording, rest);
          kept := kept + [recording];
        }
        done := done + [recording];
        todo := todo[1..];
      }
      assert done == old(activeRecordings) && activeRecordings == kept;
      StopPhaseKeepsInvariant(done, old(events), onStopInstalled, nowMs);
    }

    /**
     * The body of the stop loop for one active recording, found between the
     * entries `kept` and `rest`: when its elapsed seconds have reached its
     * duration, `stopScheduledRecording` is called with its schedule id.
     */
    method StopIfExpired(recording: Recording, nowMs: int, ghost kept: seq<Recording>, ghost rest: seq<Recording>)
      requires DistinctIds(activeRecordings) && activeRecordings == kept + ([recording] + rest)
      modifies this
      ensures DistinctIds(activeRecordings)
      ensures onStopInstalled && Expired(recording, nowMs) ==>
        && activeRecordings == kept + rest
        && events == old(events) + [Stopped(recording.scheduleId, recording.stationId)]
      ensures !(onStopInstalled && Expired(recording, nowMs)) ==>
        activeRecordings == old(activeRecordings) && events == old(events)
      ensures schedules == old(schedules)
      ensures onStartInstalled == old(onStartInstalled) && onStopInstalled == old(onStopInstalled)
    {
      if Expired(recording, nowMs) {
        EntryFoundAndRemoved(kept, recording, rest);
        StopScheduledRecording(recording.scheduleId);
      }
    }

    /**
     * `checkSchedules` at the instant `now`: the start phase over the
     * schedules, each recording it registers started at `startMs` (the
     * clock as `startScheduledRecording` reads it), then the stop phase at
     * `now` over the active recordings as they stand after it.
     */
    method CheckSchedules(now: Clock, startMs: int, cronDue: set<string>)
      requires Valid()
      modifies this
      ensures Valid()
      ensures var p := StartPhase(old(schedules), old(activeRecordings), onStartInstalled, now, startMs, cronDue);
        && activeRecordings == Kept(p.active, onStopInstalled, now.ms)
        && events == old(events) + StartEvents(p.started) + StopEvents(Expiring(p.active, onStopInstalled, now.ms))
      ensures schedules == old(schedules)
      ensures onStartInstalled == old(onStartInstalled) && onStopInstalled == old(onStopInstalled)
    {
      StartDue(now, startMs, cronDue);
      StopExpired(now.ms);
    }

    /**
     * `start`: installs the callbacks (`hasStart`, `hasStop` say whether
     * each is given) and checks the schedules at once.
     */
    method Start(hasStart: bool, hasStop: bool, now: Clock, startMs: int, cronDue: set<string>)
      requires Valid()
      modifies this
      ensures Valid()
      ensures onStartInstalled == hasStart && onStopInstalled == hasStop
      ensures var p := StartPhase(old(schedules), old(activeRecordings), hasStart, now, startMs, cronDue);
        && activeRecordings == Kept(p.active, hasStop, now.ms)
        && events == old(events) + StartEvents(p.started) + StopEvents(Expiring(p.active, hasStop, now.ms))
      ensures schedules == old(schedules)
    {
      onStartInstalled := hasStart;
      onStopInstalled := hasStop;
      CheckSchedules(now, startMs, cronDue);
    }
  }
}
