/** The scheduler's tick: which jobs start at a tick, with the per-minute marks that are pruned and
    the set of running jobs; and the runs themselves, bounded by a semaphore. */
module TickEngine {
  import opened Strings
  import opened Cron
  import opened NextRun

  datatype Job = Job(id: string, cronExpr: string, enabled: bool)

  /** The time of a tick: the minute in UTC, which keys the marks, and the zone's offset. */
  datatype Instant = Instant(utc: nat, local: nat)

  predicate Due(j: Job, now: Instant) { j.enabled && Fires(j.cronExpr, now.local) }

  /** What the engine's mutex guards: the minute each job was last marked at, and the jobs running. */
  datatype Core = Core(last: map<string, nat>, running: set<string>)

  function Prune(c: Core, minute: nat): Core {
    c.(last := map id | id in c.last && c.last[id] == minute :: c.last[id])
  }

  predicate Marked(c: Core, id: string, minute: nat) { id in c.last && c.last[id] == minute }

  /** One turn of the loop over the jobs: the state after it, and whether the job starts. */
  function TickJob(c: Core, j: Job, now: Instant): (Core, bool) {
    if !Due(j, now) || Marked(c, j.id, now.utc) then (c, false)
    else
      var c' := c.(last := c.last[j.id := now.utc]);
      if j.id in c.running then (c', false) else (c'.(running := c'.running + {j.id}), true)
  }

  function TickJobs(c: Core, jobs: seq<Job>, now: Instant): (Core, seq<string>) {
    if jobs == [] then (c, [])
    else
      var (c', started) := TickJobs(c, jobs[..|jobs| - 1], now);
      var (c'', starts) := TickJob(c', jobs[|jobs| - 1], now);
      (c'', if starts then started + [jobs[|jobs| - 1].id] else started)
  }

  lemma TickJobsNext(c: Core, jobs: seq<Job>, i: nat, now: Instant)
    requires i < |jobs|
    ensures var (c', started) := TickJobs(c, jobs[..i], now); var (c'', starts) := TickJob(c', jobs[i], now);
      TickJobs(c, jobs[..i + 1], now) == (c'', if starts then started + [jobs[i].id] else started)
  {
    hide TickJob;
    assert jobs[..i + 1][..i] == jobs[..i];
  }

  function AfterTick(c: Core, jobs: seq<Job>, now: Instant): (Core, seq<string>) {
    TickJobs(Prune(c, now.utc), jobs, now)
  }

  // ----- what a tick starts

  /** The job may start at this tick: it is enabled, its expression matches the local minute, it was not
      marked for this minute and is not running. */
  predicate CanStart(c: Core, j: Job, id: string, now: Instant) {
    && j.id == id && j.enabled && CronMatches(j.cronExpr, CivilAt(now.local))
    && !Marked(c, id, now.utc) && id !in c.running
  }

  ghost predicate SomeCanStart(c: Core, jobs: seq<Job>, id: string, now: Instant) {
    exists i :: 0 <= i < |jobs| && CanStart(c, jobs[i], id, now)
  }

  /** Some job of the list has this id, is enabled, and matches the local minute. */
  ghost predicate SomeMatches(jobs: seq<Job>, id: string, now: Instant) {
    exists i :: 0 <= i < |jobs| && jobs[i].id == id && jobs[i].enabled && CronMatches(jobs[i].cronExpr, CivilAt(now.local))
  }

  lemma SnocMatches(c: Core, jobs: seq<Job>, j: Job, id: string, now: Instant)
    ensures SomeCanStart(c, jobs + [j], id, now) <==> SomeCanStart(c, jobs, id, now) || CanStart(c, j, id, now)
    ensures SomeMatches(jobs + [j], id, now) <==>
      SomeMatches(jobs, id, now) || (j.id == id && j.enabled && CronMatches(j.cronExpr, CivilAt(now.local)))
  {
    hide CronMatches, CivilAt;
    var all := jobs + [j];
    assert all[|jobs|] == j;
    if SomeCanStart(c, jobs, id, now) {
      var i :| 0 <= i < |jobs| && CanStart(c, jobs[i], id, now);
      assert CanStart(c, all[i], id, now);
    }
    if SomeMatches(jobs, id, now) {
      var i :| 0 <= i < |jobs| && jobs[i].id == id && jobs[i].enabled && CronMatches(jobs[i].cronExpr, CivilAt(now.local));
      assert all[i] == jobs[i];
    }
    if i :| 0 <= i < |all| && CanStart(c, all[i], id, now) { assert i < |jobs| ==> all[i] == jobs[i]; }
    if i :| 0 <= i < |all| && all[i].id == id && all[i].enabled && CronMatches(all[i].cronExpr, CivilAt(now.local)) {
      assert i < |jobs| ==> all[i] == jobs[i];
    }
  }

  /** The turns of the loop start exactly the ids of which some job may start, repeated ids included, and
      mark exactly those that match. */
  lemma {:induction false} TurnsStartExactly(c: Core, jobs: seq<Job>, now: Instant, id: string)
    ensures var (c', started) := TickJobs(c, jobs, now);
      && (id in started <==> SomeCanStart(c, jobs, id, now))
      && (id in c'.running <==> id in c.running || id in started)
      && (Marked(c', id, now.utc) <==> Marked(c, id, now.utc) || SomeMatches(jobs, id, now))
      && (id in c'.last <==> id in c.last || SomeMatches(jobs, id, now))
      && (id in c'.last && id in c.last && c'.last[id] != now.utc ==> c'.last[id] == c.last[id])
  {
    hide CronMatches, CivilAt;
    if jobs != [] {
      var n := |jobs| - 1;
      assert jobs == jobs[..n] + [jobs[n]];
      TurnsStartExactly(c, jobs[..n], now, id);
      SnocMatches(c, jobs[..n], jobs[n], id, now);
      hide SomeCanStart, SomeMatches;
      StartNeedsMatch(c, jobs[..n], id, now);
    }
  }

  lemma StartNeedsMatch(c: Core, jobs: seq<Job>, id: string, now: Instant)
    ensures SomeCanStart(c, jobs, id, now) <==> SomeMatches(jobs, id, now) && !Marked(c, id, now.utc) && id !in c.running
  {
    hide CronMatches, CivilAt;
    if SomeCanStart(c, jobs, id, now) {
      var i :| 0 <= i < |jobs| && CanStart(c, jobs[i], id, now);
    }
    if SomeMatches(jobs, id, now) {
      var i :| 0 <= i < |jobs| && jobs[i].id == id && jobs[i].enabled && CronMatches(jobs[i].cronExpr, CivilAt(now.local));
      assert !Marked(c, id, now.utc) && id !in c.running ==> CanStart(c, jobs[i], id, now);
    }
  }

  /** A tick starts exactly the jobs that are enabled and match the local minute, that were not marked for
      this minute and were not running. Afterwards these are running too, and all that match are marked
      for this minute, which is the only minute that marks are left for. */
  lemma {:induction false} TickStartsExactly(c: Core, jobs: seq<Job>, now: Instant, id: string)
    ensures var (c', started) := AfterTick(c, jobs, now);
      && (id in started <==> SomeCanStart(c, jobs, id, now))
      && (id in c'.running <==> id in c.running || id in started)
      && (id in c'.last <==> Marked(c, id, now.utc) || SomeMatches(jobs, id, now))
      && (id in c'.last ==> c'.last[id] == now.utc)
  {
    hide CronMatches, CivilAt, TickJobs, SomeCanStart, SomeMatches;
    var p := Prune(c, now.utc);
    TurnsStartExactly(p, jobs, now, id);
    StartNeedsMatch(c, jobs, id, now);
    StartNeedsMatch(p, jobs, id, now);
  }

  // ----- the engine

  class Engine {
    var lastRunKey: map<string, nat>
    var running: map<string, bool>

    ghost predicate Valid()
      reads this
    {
      forall id :: id in running ==> running[id]
    }

    ghost function View(): Core
      reads this
    {
      Core(lastRunKey, running.Keys)
    }

    constructor ()
      ensures Valid() && View() == Core(map[], {})
    {
      lastRunKey, running := map[], map[];
    }

    method MarkDue(id: string, now: Instant) returns (due: bool)
      modifies this`lastRunKey
      ensures due == !Marked(old(View()), id, now.utc)
      ensures lastRunKey == if due then old(lastRunKey)[id := now.utc] else old(lastRunKey)
    {
      if id in lastRunKey && lastRunKey[id] == now.utc {
        return false;
      }
      lastRunKey := lastRunKey[id := now.utc];
      due := true;
    }

    method PruneLastRun(now: Instant)
      modifies this`lastRunKey
      ensures View() == Prune(old(View()), now.utc)
    {
      ghost var before := lastRunKey;
      var ids := lastRunKey.Keys;
      while ids != {}
        invariant ids <= before.Keys
        invariant lastRunKey == map id | id in before && (id in ids || before[id] == now.utc) :: before[id]
        decreases ids
      {
        var id :| id in ids;
        ids := ids - {id};
        if lastRunKey[id] != now.utc {
          lastRunKey := lastRunKey - {id};
        }
      }
    }

    method TryStart(id: string) returns (ok: bool)
      requires Valid()
      modifies this`running
      ensures Valid() && ok == (id !in old(running)) && running == if ok then old(running)[id := true] else old(running)
      ensures running.Keys == old(running.Keys) + {id}
    {
      if id in running && running[id] {
        return false;
      }
      running := running[id := true];
      ok := true;
    }

    method FinishStart(id: string)
      requires Valid()
      modifies this`running
      ensures Valid() && running.Keys == old(running.Keys) - {id}
    {
      running := running - {id};
    }

    /** `tick`, without the daily purge: the jobs whose run it starts. */
    method Tick(jobs: seq<Job>, now: Instant) returns (started: seq<string>)
      requires Valid()
      modifies this
      ensures Valid()
      ensures (View(), started) == AfterTick(old(View()), jobs, now)
      // only enabled jobs that match the local minute start, and of these all that may
      ensures forall id :: id in started ==>
        exists j :: j in jobs && j.id == id && j.enabled && CronMatches(j.cronExpr, CivilAt(now.local))
      ensures forall j :: j in jobs && j.enabled && CronMatches(j.cronExpr, CivilAt(now.local)) ==>
        (j.id in started <==> !Marked(old(View()), j.id, now.utc) && j.id !in old(running))
      ensures running.Keys == old(running.Keys) + set id | id in started
      ensures forall id :: id in lastRunKey ==> lastRunKey[id] == now.utc
    {
      hide Fires, CronMatches, CivilAt;
      PruneLastRun(now);
      ghost var pruned := View();
      started := [];
      for i := 0 to |jobs|
        invariant Valid() && (View(), started) == TickJobs(pruned, jobs[..i], now)
      {
        var j := jobs[i];
        TickJobsNext(pruned, jobs, i, now);
        if !j.enabled || !Fires(j.cronExpr, now.local) {
          continue;
        }
        var due := MarkDue(j.id, now);
        if !due {
          continue;
        }
        var ok := TryStart(j.id);
        if !ok {
          continue;
        }
        started := started + [j.id];
      }
      assert jobs[..|jobs|] == jobs;
      TickMeans(old(View()), jobs, now);
    }
  }

  lemma {:induction false} TickMeans(c: Core, jobs: seq<Job>, now: Instant)
    ensures var (c', started) := AfterTick(c, jobs, now);
      && (forall id :: id in started ==>
           exists j :: j in jobs && j.id == id && j.enabled && CronMatches(j.cronExpr, CivilAt(now.local)))
      && (forall j :: j in jobs && j.enabled && CronMatches(j.cronExpr, CivilAt(now.local)) ==>
           (j.id in started <==> !Marked(c, j.id, now.utc) && j.id !in c.running))
      && c'.running == c.running + (set id | id in started)
      && (forall id :: id in c'.last ==> c'.last[id] == now.utc)
  {
    hide CronMatches, CivilAt, AfterTick;
    var (c', started) := AfterTick(c, jobs, now);
    forall id | id in started
      ensures exists j :: j in jobs && j.id == id && j.enabled && CronMatches(j.cronExpr, CivilAt(now.local))
    {
      TickStartsExactly(c, jobs, now, id);
      var i :| 0 <= i < |jobs| && CanStart(c, jobs[i], id, now);
      assert jobs[i] in jobs;
    }
    forall j | j in jobs && j.enabled && CronMatches(j.cronExpr, CivilAt(now.local))
      ensures j.id in started <==> !Marked(c, j.id, now.utc) && j.id !in c.running
    {
      TickStartsExactly(c, jobs, now, j.id);
      StartNeedsMatch(c, jobs, j.id, now);
      var i :| 0 <= i < |jobs| && jobs[i] == j;
      assert SomeMatches(jobs, j.id, now);
    }
    forall id ensures id in c'.running <==> id in c.running + (set id | id in started) { TickStartsExactly(c, jobs, now, id); }
    forall id | id in c'.last ensures c'.last[id] == now.utc { TickStartsExactly(c, jobs, now, id); }
  }
}
