/** The background scheduler: one promotion-schedule pass (switch on what
    is due to start, switch off what has ended, at most 100 of each per
    pass), the 90-day log clean-up, and the time-of-day gates of its loop.
    The loop itself, its sleeps and the report's counting are not modelled. */
module Scheduler {
  import opened Common
  import opened Promotions
  import opened Arith

  /** At most this many promotions are read per phase. */
  const Cap: nat := 100

  /** Switched off, but `now` is inside the closed window: switching it on
      makes it live. */
  predicate StartDue(p: Promotion, now: int)
    ensures StartDue(p, now) <==> !p.isActive && IsLive(p.(isActive := true), now)
  {
    !p.isActive && p.startDate <= now && now <= p.endDate
  }

  /** Switched on, but the window ended before `now`: it is not live, and
      a promotion due to end is never also due to start. */
  predicate EndDue(p: Promotion, now: int)
    ensures EndDue(p, now) ==> p.isActive && !IsLive(p, now) && !StartDue(p, now)
  {
    p.isActive && p.endDate < now
  }

  function StartDueAt(now: int): Promotion -> bool
  {
    (p: Promotion) => StartDue(p, now)
  }

  function EndDueAt(now: int): Promotion -> bool
  {
    (p: Promotion) => EndDue(p, now)
  }

  /** The first `Cap` promotions of the collection matching `due`. */
  function Batch(s: Store, due: Promotion -> bool): (b: seq<Promotion>)
    ensures |b| <= Cap
    ensures |Filter(s, due)| <= Cap ==> b == Filter(s, due)
    ensures forall p :: p in b ==> p in Filter(s, due)
  {
    ToList(Filter(s, due), Cap)
  }

  /** The ids of a batch, in order. */
  function Ids(ps: seq<Promotion>): (r: seq<string>)
    ensures |r| == |ps|
    ensures forall k :: 0 <= k < |ps| ==> r[k] == ps[k].id
  {
    if |ps| == 0 then [] else [ps[0].id] + Ids(ps[1..])
  }

  /** One phase: when the batch is not empty, one `update_many` over its
      ids. The promotions of the batch get the flag, every other one is
      left as it was, and an empty batch changes nothing. */
  function RunPhase(s: Store, b: seq<Promotion>, flag: bool, now: int): (r: BulkOutcome)
    ensures |r.store| == |s|
    ensures forall i :: 0 <= i < |s| && s[i].id in Ids(b) ==> r.store[i] == s[i].(isActive := flag, updatedAt := now)
    ensures forall i :: 0 <= i < |s| && s[i].id !in Ids(b) ==> r.store[i] == s[i]
    ensures |b| == 0 ==> r == BulkOutcome(s, 0)
  {
    if |b| > 0 then BulkSetActive(s, Ids(b), flag, now) else BulkOutcome(s, 0)
  }

  /** An audit-log record. */
  datatype AdminLog = AdminLog(username: string, action: string, resourceId: string, timestamp: int)

  /** One log record per promotion of a batch, written by "system". */
  function ActionLogs(b: seq<Promotion>, action: string, now: int): (r: seq<AdminLog>)
    ensures |r| == |b|
    ensures forall k :: 0 <= k < |b| ==> r[k] == AdminLog("system", action, b[k].id, now)
  {
    if |b| == 0 then [] else [AdminLog("system", action, b[0].id, now)] + ActionLogs(b[1..], action, now)
  }

  /** What a pass did: the collection afterwards, the modified count, the
      ids of each phase and the log records written. */
  datatype Pass = Pass(store: Store, updated: nat, activated: seq<string>,
                       deactivated: seq<string>, logs: seq<AdminLog>)

  /** The collection after the activation phase. */
  function AfterActivation(s: Store, now: int): Store
  {
    RunPhase(s, Batch(s, StartDueAt(now)), true, now).store
  }

  /** One schedule check at `now`. */
  function CheckSchedules(s: Store, now: int): (r: Pass)
    ensures |r.store| == |s|
    ensures |r.activated| <= Cap && |r.deactivated| <= Cap
    ensures |r.logs| == |r.activated| + |r.deactivated|
  {
    var b1 := Batch(s, StartDueAt(now));
    var r1 := RunPhase(s, b1, true, now);
    var b2 := Batch(r1.store, EndDueAt(now));
    var r2 := RunPhase(r1.store, b2, false, now);
    Pass(r2.store, r1.modified + r2.modified, Ids(b1), Ids(b2),
         ActionLogs(b1, "auto_activate_promotion", now)
         + ActionLogs(b2, "auto_deactivate_promotion", now))
  }

  /** What one phase does to position `i` of a collection with unique ids:
      a listed promotion was due and gets the flag and `now`; any other is
      left alone; and when no more than `Cap` are due, every due one is listed. */
  lemma {:induction false} PhaseAt(s: Store, due: Promotion -> bool, flag: bool, now: int, i: int)
    requires IdsUnique(s) && 0 <= i < |s|
    ensures var b := Batch(s, due);
      var r := RunPhase(s, b, flag, now).store;
      |r| == |s|
      && (s[i].id in Ids(b) ==> due(s[i]) && r[i] == s[i].(isActive := flag, updatedAt := now))
      && (s[i].id !in Ids(b) ==> r[i] == s[i])
      && (|Filter(s, due)| <= Cap && due(s[i]) ==> s[i].id in Ids(b))
  {
    var b := Batch(s, due);
    var ids := Ids(b);
    if s[i].id in ids {
      var k :| 0 <= k < |ids| && ids[k] == s[i].id;
      assert b[k] in b;
      FilterMembers(s, due, b[k]);
      var j :| 0 <= j < |s| && s[j] == b[k];
      assert j == i;
    }
    if |Filter(s, due)| <= Cap && due(s[i]) {
      FilterMembers(s, due, s[i]);
      var k :| 0 <= k < |b| && b[k] == s[i];
      assert ids[k] == s[i].id;
    }
  }

  /** A pass changes `is_active` and `updated_at` and nothing else. */
  lemma OnlyFlagAndTimeChange(s: Store, now: int, i: int)
    requires 0 <= i < |s|
    ensures var r := CheckSchedules(s, now).store;
      r[i] == s[i].(isActive := r[i].isActive, updatedAt := r[i].updatedAt)
  {
    var s1 := AfterActivation(s, now);
    assert s1[i] == s[i].(isActive := s1[i].isActive, updatedAt := s1[i].updatedAt);
  }

  /** A phase keeps every id and window. */
  lemma PhaseKeepsIdsAndWindows(s: Store, b: seq<Promotion>, flag: bool, now: int)
    ensures var r := RunPhase(s, b, flag, now).store;
      |r| == |s|
      && (forall k :: 0 <= k < |r| ==> r[k].id == s[k].id)
      && (forall k :: 0 <= k < |r| ==>
            r[k].startDate == s[k].startDate && r[k].endDate == s[k].endDate)
  {
  }

  /** No id is both switched on and switched off in one pass: a promotion
      switched on has not ended. */
  lemma PhasesAreDisjoint(s: Store, now: int, id: string)
    requires IdsUnique(s)
    ensures var r := CheckSchedules(s, now);
      !(id in r.activated && id in r.deactivated)
  {
    var r := CheckSchedules(s, now);
    var b1 := Batch(s, StartDueAt(now));
    var s1 := AfterActivation(s, now);
    assert r.activated == Ids(b1) && r.deactivated == Ids(Batch(s1, EndDueAt(now)));
    if id in r.activated && id in r.deactivated {
      var k :| 0 <= k < |b1| && Ids(b1)[k] == id;
      var i := ActivatedPosition(s, now, k);
      assert IdsUnique(s1) && s1[i].id == id by {
        PhaseKeepsIdsAndWindows(s, b1, true, now);
      }
      PhaseAt(s1, EndDueAt(now), false, now, i);
      assert false;
    }
  }

  /** Entry `k` of the activation batch sits at some position `i` of the
      collection, which the activation phase leaves switched on inside its
      window, so not ended. */
  lemma ActivatedPosition(s: Store, now: int, k: nat) returns (i: nat)
    requires IdsUnique(s) && k < |Batch(s, StartDueAt(now))|
    ensures i < |s| && s[i] == Batch(s, StartDueAt(now))[k]
    ensures i < |AfterActivation(s, now)| && !EndDue(AfterActivation(s, now)[i], now)
  {
    var b1 := Batch(s, StartDueAt(now));
    FilterMembers(s, StartDueAt(now), b1[k]);
    i :| 0 <= i < |s| && s[i] == b1[k];
    assert s[i].id in Ids(b1) by {
      assert Ids(b1)[k] == s[i].id;
    }
    PhaseAt(s, StartDueAt(now), true, now, i);
  }

  /** The activation phase does not change which promotions have ended
      while switched on. */
  lemma ActivationKeepsEndDue(s: Store, now: int, i: int)
    requires IdsUnique(s) && 0 <= i < |s|
    ensures |AfterActivation(s, now)| == |s|
    ensures EndDue(AfterActivation(s, now)[i], now) <==> EndDue(s[i], now)
  {
    PhaseAt(s, StartDueAt(now), true, now, i);
  }

  /** When neither phase hits the cap, a pass leaves no promotion switched
      off inside its window and none switched on after its end; this
      includes promotions an administrator switched off by hand. */
  lemma SettledUnderCap(s: Store, now: int, i: int)
    requires IdsUnique(s) && 0 <= i < |s|
    requires |Filter(s, StartDueAt(now))| <= Cap
    requires |Filter(s, EndDueAt(now))| <= Cap
    ensures var r := CheckSchedules(s, now).store;
      !StartDue(r[i], now) && !EndDue(r[i], now)
  {
    var b1 := Batch(s, StartDueAt(now));
    var s1 := AfterActivation(s, now);
    PhaseKeepsIdsAndWindows(s, b1, true, now);
    forall k | 0 <= k < |s|
      ensures EndDueAt(now)(s[k]) <==> EndDueAt(now)(s1[k])
    {
      ActivationKeepsEndDue(s, now, k);
    }
    FilterLengthPointwise(s, s1, EndDueAt(now), EndDueAt(now));
    PhaseAt(s, StartDueAt(now), true, now, i);
    PhaseAt(s1, EndDueAt(now), false, now, i);
  }

  /** A pass switches a promotion on only if it was due to start, and off
      only if it had ended while switched on. */
  lemma ChangesOnlyDue(s: Store, now: int, i: int)
    requires IdsUnique(s) && 0 <= i < |s|
    ensures var r := CheckSchedules(s, now).store;
      (r[i].isActive && !s[i].isActive ==> StartDue(s[i], now))
      && (!r[i].isActive && s[i].isActive ==> EndDue(s[i], now))
  {
    var b1 := Batch(s, StartDueAt(now));
    var s1 := AfterActivation(s, now);
    PhaseKeepsIdsAndWindows(s, b1, true, now);
    PhaseAt(s, StartDueAt(now), true, now, i);
    PhaseAt(s1, EndDueAt(now), false, now, i);
  }

  // ---------------------------------------------------------------------
  // Log clean-up

  const RetentionDays: nat := 90

  /** Logs stamped before this instant are deleted. */
  function Cutoff(now: int): int
  {
    now - RetentionDays * MicrosPerDay
  }

  function KeptAt(cutoff: int): AdminLog -> bool
  {
    (l: AdminLog) => !(l.timestamp < cutoff)
  }

  datatype Cleaned = Cleaned(logs: seq<AdminLog>, deleted: nat)

  /** `delete_many({"timestamp": {"$lt": cutoff}})` on the log collection. */
  function CleanupExpired(logs: seq<AdminLog>, now: int): (r: Cleaned)
    ensures |r.logs| + r.deleted == |logs|
  {
    var kept := Filter(logs, KeptAt(Cutoff(now)));
    Cleaned(kept, |logs| - |kept|)
  }

  /** A log survives exactly when it is no older than 90 days. */
  lemma CleanupKeepsExactlyRecent(logs: seq<AdminLog>, now: int, l: AdminLog)
    ensures l in CleanupExpired(logs, now).logs
        <==> l in logs && l.timestamp >= now - 90 * MicrosPerDay
  {
    FilterMembers(logs, KeptAt(Cutoff(now)), l);
  }

  // ---------------------------------------------------------------------
  // Time-of-day gates of the loop

  /** UTC hour and minute of an instant. */
  function HourOf(t: int): int
  {
    (t / MicrosPerHour) % 24
  }

  function MinuteOf(t: int): int
  {
    (t / MicrosPerMinute) % 60
  }

  predicate CleanupDue(t: int)
  {
    HourOf(t) == 2 && MinuteOf(t) < 5
  }

  predicate ReportDue(t: int)
  {
    HourOf(t) == 1 && MinuteOf(t) < 5
  }

  /** What one iteration of the loop runs at `t`. */
  datatype Tick = Tick(checkSchedules: bool, cleanup: bool, report: bool)

  function TickAt(t: int): (r: Tick)
    ensures r.checkSchedules
    ensures !(r.cleanup && r.report)
  {
    Tick(true, CleanupDue(t), ReportDue(t))
  }

  /** The clean-up runs in the first five minutes after 02:00 UTC and the
      report in the first five minutes after 01:00 UTC, every day. */
  lemma GateWindows(t: int)
    ensures TickAt(t).cleanup
        <==> 2 * MicrosPerHour <= t % MicrosPerDay < 2 * MicrosPerHour + 5 * MicrosPerMinute
    ensures TickAt(t).report
        <==> MicrosPerHour <= t % MicrosPerDay < MicrosPerHour + 5 * MicrosPerMinute
  {
    var day := t % MicrosPerDay;
    DivMod(t, MicrosPerHour, 24);
    DivMod(t, MicrosPerMinute, 60);
    DivMod(t, MicrosPerMinute, 24 * 60);
    assert HourOf(t) == day / MicrosPerHour;
    assert MinuteOf(t) == (t % MicrosPerHour) / MicrosPerMinute;
    DivMod(day, MicrosPerMinute, 60);
    assert t % MicrosPerHour == day % MicrosPerHour by {
      ModMod(t, MicrosPerHour, 24);
    }
  }
}
