/** Whole runs of the scheduler: the sections of its ticks, and the goroutines that the ticks start, in
    any interleaving and with any clock. */
module TickRuns {
  import opened Strings
  import opened Cron
  import opened NextRun
  import opened TickEngine

  /** The semaphore's capacity. */
  const SLOTS: nat := 4

  /** Where the ticking goroutine stands: between ticks, or in the loop over the jobs with `next` to be
      looked at; `marked` between `markDue` and `tryStart`. */
  datatype Phase = Idle | Looking(jobs: seq<Job>, now: Instant, next: nat, marked: bool)

  /** Everything but the marks: the loop, the running jobs, and where the goroutines stand that run
      them: before the semaphore, inside it, and after it but before `finishStart`. `log` holds every
      start with its minute. */
  datatype World = World(phase: Phase, running: set<string>, waiting: multiset<string>, executing: multiset<string>,
                         finishing: multiset<string>, log: seq<(string, nat)>)

  /** One section under the mutex, or one move of a goroutine: a tick begins with the pruning of the
      marks, then takes the mutex for each job's `markDue` and `tryStart`. */
  datatype Event =
    | Begin(jobs: seq<Job>, now: Instant)
    | Mark
    | Start
    | End
    | Enter(id: string)
    | Leave(id: string)
    | Finish(id: string)

  predicate Enabled(w: World, e: Event) {
    match e
    case Begin(_, _) => w.phase.Idle?
    case Mark => w.phase.Looking? && !w.phase.marked && w.phase.next < |w.phase.jobs|
    case Start => w.phase.Looking? && w.phase.marked && w.phase.next < |w.phase.jobs|
    case End => w.phase.Looking? && !w.phase.marked && w.phase.next >= |w.phase.jobs|
    case Enter(id) => id in w.waiting && |w.executing| < SLOTS
    case Leave(id) => id in w.executing
    case Finish(id) => id in w.finishing
  }

  /** The loop has come to a job that is due, and asks for its mark. */
  predicate Asks(w: World) {
    Enabled(w, Mark) && Due(w.phase.jobs[w.phase.next], w.phase.now)
  }

  function Asked(w: World): (string, nat)
    requires w.phase.Looking? && w.phase.next < |w.phase.jobs|
  {
    (w.phase.jobs[w.phase.next].id, w.phase.now.utc)
  }

  /** What an event does, given whether the mark that is asked for is there. */
  function Next(w: World, e: Event, known: bool): World
    requires Enabled(w, e)
  {
    match e
    case Begin(jobs, now) => w.(phase := Looking(jobs, now, 0, false))
    case Mark =>
      w.(phase := if Asks(w) && !known then w.phase.(marked := true) else w.phase.(next := w.phase.next + 1))
    case Start =>
      var after := w.(phase := w.phase.(next := w.phase.next + 1, marked := false));
      var id := Asked(w).0;
      if id in w.running then after
      else after.(running := w.running + {id}, waiting := w.waiting + multiset{id}, log := w.log + [Asked(w)])
    case End => w.(phase := Idle)
    case Enter(id) => w.(waiting := w.waiting - multiset{id}, executing := w.executing + multiset{id})
    case Leave(id) => w.(executing := w.executing - multiset{id}, finishing := w.finishing + multiset{id})
    case Finish(id) => w.(finishing := w.finishing - multiset{id}, running := w.running - {id})
  }

  const START := World(Idle, {}, multiset{}, multiset{}, multiset{}, [])

  // ----- the engine, with its pruned marks

  datatype State = State(last: map<string, nat>, w: World)
  {
    function Core(): Core { TickEngine.Core.Core(last, w.running) }

    predicate Known() { Asks(w) && Marked(Core(), Asked(w).0, Asked(w).1) }
  }

  function Apply(s: State, e: Event): State
    requires Enabled(s.w, e)
  {
    var last :=
      if e.Begin? then Prune(s.Core(), e.now.utc).last
      else if e.Mark? && Asks(s.w) && !s.Known() then s.last[Asked(s.w).0 := Asked(s.w).1]
      else s.last;
    State(last, Next(s.w, e, s.Known()))
  }

  function Play(s: State, events: seq<Event>): State {
    if events == [] then s
    else
      var before := Play(s, events[..|events| - 1]);
      if Enabled(before.w, events[|events| - 1]) then Apply(before, events[|events| - 1]) else before
  }

  /** Each event is possible when it comes. */
  predicate Playable(s: State, events: seq<Event>) {
    events == [] ||
    (Playable(s, events[..|events| - 1]) && Enabled(Play(s, events[..|events| - 1]).w, events[|events| - 1]))
  }

  function After(events: seq<Event>): State { Play(State(map[], START), events) }

  predicate Possible(events: seq<Event>) { Playable(State(map[], START), events) }

  lemma PlaySnoc(s: State, events: seq<Event>, e: Event)
    requires Playable(s, events) && Enabled(Play(s, events).w, e)
    ensures Playable(s, events + [e]) && Play(s, events + [e]) == Apply(Play(s, events), e)
  {
    hide Apply, Enabled;
    assert (events + [e])[..|events|] == events;
  }

  /** The minutes of the ticks, in order. */
  function Minutes(events: seq<Event>): seq<nat> {
    if events == [] then []
    else
      var n := |events| - 1;
      if events[n].Begin? then Minutes(events[..n]) + [events[n].now.utc] else Minutes(events[..n])
  }

  lemma MinutesSnoc(events: seq<Event>, e: Event)
    ensures Minutes(events + [e]) == if e.Begin? then Minutes(events) + [e.now.utc] else Minutes(events)
  {
    assert (events + [e])[..|events|] == events;
  }

  /** No minute is ticked again after a tick in a different minute. */
  ghost predicate NoReturn(minutes: seq<nat>) {
    forall i, j, k :: 0 <= i < j < k < |minutes| && minutes[i] == minutes[k] ==> minutes[j] == minutes[i]
  }

  // ----- the engine that never forgets a mark

  datatype Historic = Historic(ever: set<(string, nat)>, w: World)
  {
    predicate Known() { Asks(w) && Asked(w) in ever }
  }

  function ApplyHistoric(h: Historic, e: Event): Historic
    requires Enabled(h.w, e)
  {
    Historic(if e.Mark? && Asks(h.w) then h.ever + {Asked(h.w)} else h.ever, Next(h.w, e, h.Known()))
  }

  function Remembering(events: seq<Event>): Historic {
    if events == [] then Historic({}, START)
    else
      var before := Remembering(events[..|events| - 1]);
      if Enabled(before.w, events[|events| - 1]) then ApplyHistoric(before, events[|events| - 1]) else before
  }

  /** The pruned map agrees with the history about the minute of the last tick. */
  ghost predicate Agree(s: State, h: Historic, minutes: seq<nat>) {
    && s.w == h.w
    && (forall p :: p in h.ever ==> p.1 in minutes)
    && (if minutes == [] then s.last == map[] && s.w.phase.Idle?
        else
          var m := minutes[|minutes| - 1];
          && (forall id :: (id, m) in h.ever <==> Marked(s.Core(), id, m))
          && (forall id :: id in s.last ==> s.last[id] == m)
          && (s.w.phase.Looking? ==> s.w.phase.now.utc == m))
  }

  lemma NewMinute(minutes: seq<nat>, m: nat)
    requires NoReturn(minutes + [m]) && minutes != [] && minutes[|minutes| - 1] != m
    ensures m !in minutes
  {
    var n, all := |minutes| - 1, minutes + [m];
    forall i | 0 <= i < n ensures minutes[i] != m {
      var a, b, c := all[i], all[n], all[n + 1];
      assert a == c ==> b == a;
    }
  }

  lemma BeginAgrees(s: State, h: Historic, minutes: seq<nat>, e: Event)
    requires Agree(s, h, minutes) && e.Begin? && Enabled(s.w, e) && NoReturn(minutes + [e.now.utc])
    ensures Agree(Apply(s, e), ApplyHistoric(h, e), minutes + [e.now.utc])
  {
    hide Due;
    var m := e.now.utc;
    var n := |minutes| - 1;
    if minutes != [] && minutes[n] != m {
      NewMinute(minutes, m);
    }
    forall id ensures (id, m) in h.ever <==> Marked(Apply(s, e).Core(), id, m) {
      if (id, m) in h.ever {
        assert (id, m).1 in minutes;
      }
      assert minutes != [] && minutes[n] == m ==> ((id, m) in h.ever <==> Marked(s.Core(), id, m));
    }
  }

  lemma StepAgrees(s: State, h: Historic, minutes: seq<nat>, e: Event)
    requires Agree(s, h, minutes) && !e.Begin? && Enabled(s.w, e)
    ensures Agree(Apply(s, e), ApplyHistoric(h, e), minutes)
  {
    hide Due;
    if e.Mark? {
      MarkAgrees(s, h, minutes);
    } else {
      OthersKeepMarks(s, h, e);
    }
  }

  lemma OthersKeepMarks(s: State, h: Historic, e: Event)
    requires s.w == h.w && Enabled(s.w, e) && !e.Begin? && !e.Mark?
    ensures var s', h' := Apply(s, e), ApplyHistoric(h, e);
      s'.w == h'.w && s'.last == s.last && h'.ever == h.ever &&
      (s'.w.phase.Looking? ==> s.w.phase.Looking? && s'.w.phase.now == s.w.phase.now)
  {
    hide Due;
  }

  lemma MarkAgrees(s: State, h: Historic, minutes: seq<nat>)
    requires Agree(s, h, minutes) && Enabled(s.w, Mark)
    ensures Agree(Apply(s, Mark), ApplyHistoric(h, Mark), minutes)
  {
    hide Due;
    var m := minutes[|minutes| - 1];
    if Asks(s.w) {
      assert Asked(s.w) == (s.w.phase.jobs[s.w.phase.next].id, m);
      assert s.Known() == h.Known();
    }
  }

  lemma NoReturnBefore(minutes: seq<nat>, m: nat)
    requires NoReturn(minutes + [m])
    ensures NoReturn(minutes)
  {
    var all := minutes + [m];
    forall i, j, k | 0 <= i < j < k < |minutes| && minutes[i] == minutes[k] ensures minutes[j] == minutes[i] {
      assert all[i] == all[k] && all[j] == minutes[j];
    }
  }

  lemma {:induction false} AlwaysAgree(events: seq<Event>)
    requires Possible(events) && NoReturn(Minutes(events))
    ensures Agree(After(events), Remembering(events), Minutes(events))
  {
    hide NoReturn;
    if events != [] {
      var n := |events| - 1;
      var init, e := events[..n], events[n];
      assert events == init + [e];
      MinutesSnoc(init, e);
      if e.Begin? {
        NoReturnBefore(Minutes(init), e.now.utc);
      }
      hide Minutes, Agree, Apply, ApplyHistoric;
      AlwaysAgree(init);
      assert After(init).w == Remembering(init).w by { AgreeOnWorld(After(init), Remembering(init), Minutes(init)); }
      if e.Begin? {
        BeginAgrees(After(init), Remembering(init), Minutes(init), e);
      } else {
        StepAgrees(After(init), Remembering(init), Minutes(init), e);
      }
    }
  }

  lemma AgreeOnWorld(s: State, h: Historic, minutes: seq<nat>)
    requires Agree(s, h, minutes)
    ensures s.w == h.w
  {
  }

  /** Pruning changes nothing that can be seen: in every interleaving in which no minute is ticked again
      after another one, the engine does what an engine does that never forgets a mark. */
  lemma {:induction false} PruningIsInvisible(events: seq<Event>)
    requires Possible(events) && NoReturn(Minutes(events))
    ensures After(events).w == Remembering(events).w
  {
    hide Agree, Possible, After, Remembering, Minutes, NoReturn;
    AlwaysAgree(events);
    AgreeOnWorld(After(events), Remembering(events), Minutes(events));
  }

  // ----- one run at a time

  function Runs(w: World, id: string): nat { (w.waiting + w.executing + w.finishing)[id] }

  ghost predicate RunsOk(w: World) {
    (forall id :: Runs(w, id) == if id in w.running then 1 else 0) && |w.executing| <= SLOTS
  }

  lemma NextKeepsRuns(w: World, e: Event, known: bool)
    requires RunsOk(w) && Enabled(w, e)
    ensures RunsOk(Next(w, e, known))
    ensures forall id :: Runs(Next(w, e, known), id) > Runs(w, id) ==> Runs(w, id) == 0
  {
    match e {
      case Start => StartKeepsRuns(w, known);
      case Finish(id) => FinishKeepsRuns(w, id, known);
      case Enter(_) => MoveKeepsRuns(w, e, known);
      case Leave(_) => MoveKeepsRuns(w, e, known);
      case _ => LookingKeepsRuns(w, e, known);
    }
  }

  lemma LookingKeepsRuns(w: World, e: Event, known: bool)
    requires RunsOk(w) && Enabled(w, e) && (e.Begin? || e.Mark? || e.End?)
    ensures RunsOk(Next(w, e, known)) && forall id :: Runs(Next(w, e, known), id) == Runs(w, id)
  {
    hide Asks;
    var w' := Next(w, e, known);
    assert w' == w.(phase := w'.phase);
    forall id ensures Runs(w', id) == Runs(w, id) {}
  }

  lemma MoveKeepsRuns(w: World, e: Event, known: bool)
    requires RunsOk(w) && Enabled(w, e) && (e.Enter? || e.Leave?)
    ensures RunsOk(Next(w, e, known)) && forall id :: Runs(Next(w, e, known), id) == Runs(w, id)
  {
    var w' := Next(w, e, known);
    assert w'.waiting + w'.executing + w'.finishing == w.waiting + w.executing + w.finishing;
    forall id ensures Runs(w', id) == Runs(w, id) {}
    assert w'.running == w.running;
  }

  lemma StartKeepsRuns(w: World, known: bool)
    requires RunsOk(w) && Enabled(w, Start)
    ensures RunsOk(Next(w, Start, known))
    ensures forall id :: Runs(Next(w, Start, known), id) > Runs(w, id) ==> Runs(w, id) == 0
  {
    var w', job := Next(w, Start, known), Asked(w).0;
    forall id ensures Runs(w', id) == if job !in w.running && id == job then 1 else Runs(w, id) {
      assert Runs(w, id) == if id in w.running then 1 else 0;
    }
  }

  lemma FinishKeepsRuns(w: World, job: string, known: bool)
    requires RunsOk(w) && Enabled(w, Finish(job))
    ensures RunsOk(Next(w, Finish(job), known))
    ensures forall id :: Runs(Next(w, Finish(job), known), id) <= Runs(w, id)
  {
    var w' := Next(w, Finish(job), known);
    forall id ensures Runs(w', id) == if id == job then 0 else Runs(w, id) {
      assert Runs(w, id) == if id in w.running then 1 else 0;
    }
  }

  /** With any clock and in every interleaving: a job has at most one run, at most four runs execute, and
      no event starts a run of a job whose previous one is in progress. */
  lemma {:induction false} OneRunAtATime(events: seq<Event>)
    requires Possible(events)
    ensures RunsOk(After(events).w) && |After(events).w.executing| <= 4
    ensures forall id :: Runs(After(events).w, id) <= 1
    ensures forall e, id | Enabled(After(events).w, e) ::
      Runs(After(events).w, id) < Runs(Apply(After(events), e).w, id) ==> Runs(After(events).w, id) == 0
  {
    hide RunsOk, Next, Due;
    if events == [] {
      StartIsOk();
    } else {
      var n := |events| - 1;
      OneRunAtATime(events[..n]);
      var before := After(events[..n]);
      NextKeepsRuns(before.w, events[n], before.Known());
    }
    var s := After(events);
    assert RunsOk(s.w);
    forall id ensures Runs(s.w, id) <= 1 { AtMostOne(s.w, id); }
    forall e, id | Enabled(s.w, e) && Runs(Apply(s, e).w, id) > Runs(s.w, id) ensures Runs(s.w, id) == 0 {
      NextKeepsRuns(s.w, e, s.Known());
    }
  }

  lemma StartIsOk()
    ensures RunsOk(START)
  {
  }

  lemma AtMostOne(w: World, id: string)
    requires RunsOk(w)
    ensures Runs(w, id) <= 1
  {
  }

  // ----- at most one start a minute

  ghost predicate Distinct<T>(s: seq<T>) {
    forall i, j :: 0 <= i < j < |s| ==> s[i] != s[j]
  }

  /** Every start was marked before, and the job that is marked now has not started in this minute. */
  ghost predicate LogOk(h: Historic) {
    && Distinct(h.w.log)
    && (forall p :: p in h.w.log ==> p in h.ever)
    && (h.w.phase.Looking? && h.w.phase.marked ==>
          h.w.phase.next < |h.w.phase.jobs| && Asked(h.w) in h.ever && Asked(h.w) !in h.w.log)
  }

  lemma DistinctSnoc<T>(s: seq<T>, x: T)
    requires Distinct(s) && x !in s
    ensures Distinct(s + [x])
  {
    forall i, j | 0 <= i < j < |s| + 1 ensures (s + [x])[i] != (s + [x])[j] {
      assert s[i] in s;
    }
  }

  lemma NextKeepsLog(h: Historic, e: Event)
    requires LogOk(h) && Enabled(h.w, e)
    ensures LogOk(ApplyHistoric(h, e))
  {
    hide Due, Distinct;
    if e.Start? {
      DistinctSnoc(h.w.log, Asked(h.w));
    } else {
      assert ApplyHistoric(h, e).w.log == h.w.log;
    }
  }

  lemma {:induction false} LogStaysOk(events: seq<Event>)
    ensures LogOk(Remembering(events))
  {
    hide LogOk, ApplyHistoric;
    if events == [] {
      NothingLogged();
    } else {
      var n := |events| - 1;
      LogStaysOk(events[..n]);
      if Enabled(Remembering(events[..n]).w, events[n]) {
        NextKeepsLog(Remembering(events[..n]), events[n]);
      }
    }
  }

  lemma NothingLogged()
    ensures LogOk(Historic({}, START))
  {
  }

  /** When no minute is ticked again after another one, no job starts twice in a minute. */
  lemma {:induction false} AtMostOncePerMinute(events: seq<Event>)
    requires Possible(events) && NoReturn(Minutes(events))
    ensures Distinct(After(events).w.log)
  {
    hide Possible, After, Remembering, Minutes, NoReturn;
    PruningIsInvisible(events);
    LogStaysOk(events);
  }

  // ----- and only then

  /** The minutes without immediate repetitions. */
  function Changes(minutes: seq<nat>): seq<nat> {
    if minutes == [] then []
    else
      var n := |minutes| - 1;
      if n > 0 && minutes[n] == minutes[n - 1] then Changes(minutes[..n]) else Changes(minutes[..n]) + [minutes[n]]
  }

  lemma {:induction false} ChangesHold(minutes: seq<nat>, m: nat)
    requires m in minutes
    ensures m in Changes(minutes)
  {
    var n := |minutes| - 1;
    assert minutes == minutes[..n] + [minutes[n]];
    assert n > 0 ==> minutes[..n][n - 1] == minutes[n - 1];
    if m in minutes[..n] {
      ChangesHold(minutes[..n], m);
    }
  }

  lemma {:induction false} ReturnRepeats(minutes: seq<nat>)
    requires !NoReturn(minutes)
    ensures !Distinct(Changes(minutes))
  {
    var n := |minutes| - 1;
    var init := minutes[..n];
    var i, j, k :| 0 <= i < j < k < |minutes| && minutes[i] == minutes[k] && minutes[j] != minutes[i];
    var c := Changes(init);
    if k < n || minutes[n] == minutes[n - 1] {
      var l := if k < n then k else n - 1;
      assert init[i] == init[l] && init[j] != init[i];
      ReturnRepeats(init);
      var x, y :| 0 <= x < y < |c| && c[x] == c[y];
      assert Changes(minutes)[x] == Changes(minutes)[y];
    } else {
      assert init[i] == minutes[n];
      ChangesHold(init, minutes[n]);
      var x :| 0 <= x < |c| && c[x] == minutes[n];
      assert Changes(minutes)[x] == Changes(minutes)[|c|];
    }
  }

  /** A job that is due at every minute. */
  const ALWAYS := Job("j", EVERY_MINUTE, true)

  function At(m: nat): Instant { Instant(m, m) }

  function Starts(minutes: seq<nat>): seq<(string, nat)> {
    seq(|minutes|, i requires 0 <= i < |minutes| => (ALWAYS.id, minutes[i]))
  }

  /** Between ticks, with nothing running, after starts in `changes`. */
  function Rest(last: map<string, nat>, changes: seq<nat>): State {
    State(last, World(Idle, {}, multiset{}, multiset{}, multiset{}, Starts(changes)))
  }

  function MarksOf(minutes: seq<nat>): map<string, nat> {
    if minutes == [] then map[] else map[ALWAYS.id := minutes[|minutes| - 1]]
  }

  lemma AlwaysDue(m: nat)
    ensures Due(ALWAYS, At(m))
  {
    hide Fires;
    EveryMinuteFires(m);
  }

  /** A tick in the minute of the last one: the mark is found. */
  lemma QuietTick(events: seq<Event>, m: nat, changes: seq<nat>) returns (more: seq<Event>)
    requires Possible(events) && After(events) == Rest(map[ALWAYS.id := m], changes)
    ensures Possible(more) && Minutes(more) == Minutes(events) + [m]
    ensures After(more) == Rest(map[ALWAYS.id := m], changes)
  {
    hide Due, Play, Playable, Minutes, Starts;
    AlwaysDue(m);
    var start, rest := State(map[], START), Rest(map[ALWAYS.id := m], changes);
    var begin := Begin([ALWAYS], At(m));
    PlaySnoc(start, events, begin);
    MinutesSnoc(events, begin);
    var e1 := events + [begin];
    assert After(e1) == rest.(w := rest.w.(phase := Looking([ALWAYS], At(m), 0, false)));
    PlaySnoc(start, e1, Mark);
    MinutesSnoc(e1, Mark);
    var e2 := e1 + [Mark];
    assert After(e2) == rest.(w := rest.w.(phase := Looking([ALWAYS], At(m), 1, false)));
    PlaySnoc(start, e2, End);
    MinutesSnoc(e2, End);
    more := e2 + [End];
  }

  /** A tick in another minute: the job starts, and its run goes through the semaphore and finishes. */
  lemma StartingTick(events: seq<Event>, last: map<string, nat>, m: nat, changes: seq<nat>) returns (more: seq<Event>)
    requires Possible(events) && After(events) == Rest(last, changes) && last.Keys <= {ALWAYS.id}
    requires ALWAYS.id in last ==> last[ALWAYS.id] != m
    ensures Possible(more) && Minutes(more) == Minutes(events) + [m]
    ensures After(more) == Rest(map[ALWAYS.id := m], changes + [m])
  {
    hide Due, Play, Playable, Minutes, Starts;
    AlwaysDue(m);
    var start, id, marks := State(map[], START), ALWAYS.id, map[ALWAYS.id := m];
    var begin, log := Begin([ALWAYS], At(m)), Starts(changes);
    PlaySnoc(start, events, begin);
    MinutesSnoc(events, begin);
    var e1 := events + [begin];
    assert After(e1) == State(map[], World(Looking([ALWAYS], At(m), 0, false), {}, multiset{}, multiset{}, multiset{}, log));
    PlaySnoc(start, e1, Mark);
    MinutesSnoc(e1, Mark);
    var e2 := e1 + [Mark];
    assert After(e2) == State(marks, World(Looking([ALWAYS], At(m), 0, true), {}, multiset{}, multiset{}, multiset{}, log));
    PlaySnoc(start, e2, Start);
    MinutesSnoc(e2, Start);
    var e3 := e2 + [Start];
    var log' := log + [(id, m)];
    assert After(e3) == State(marks, World(Looking([ALWAYS], At(m), 1, false), {id}, multiset{id}, multiset{}, multiset{}, log'));
    PlaySnoc(start, e3, End);
    MinutesSnoc(e3, End);
    var e4 := e3 + [End];
    assert After(e4) == State(marks, World(Idle, {id}, multiset{id}, multiset{}, multiset{}, log'));
    more := RunThrough(e4, marks, log');
    StartsSnoc(changes, m);
  }

  lemma StartsSnoc(changes: seq<nat>, m: nat)
    ensures Starts(changes + [m]) == Starts(changes) + [(ALWAYS.id, m)]
  {
  }

  lemma RunThrough(events: seq<Event>, marks: map<string, nat>, log: seq<(string, nat)>) returns (more: seq<Event>)
    requires Possible(events)
    requires After(events) == State(marks, World(Idle, {ALWAYS.id}, multiset{ALWAYS.id}, multiset{}, multiset{}, log))
    ensures Possible(more) && Minutes(more) == Minutes(events)
    ensures After(more) == State(marks, World(Idle, {}, multiset{}, multiset{}, multiset{}, log))
  {
    hide Play, Playable, Minutes;
    var start, id := State(map[], START), ALWAYS.id;
    PlaySnoc(start, events, Enter(id));
    MinutesSnoc(events, Enter(id));
    var e1 := events + [Enter(id)];
    assert After(e1) == State(marks, World(Idle, {id}, multiset{}, multiset{id}, multiset{}, log));
    PlaySnoc(start, e1, Leave(id));
    MinutesSnoc(e1, Leave(id));
    var e2 := e1 + [Leave(id)];
    assert After(e2) == State(marks, World(Idle, {id}, multiset{}, multiset{}, multiset{id}, log));
    PlaySnoc(start, e2, Finish(id));
    MinutesSnoc(e2, Finish(id));
    more := e2 + [Finish(id)];
    assert After(more) == State(marks, World(Idle, {}, multiset{}, multiset{}, multiset{}, log));
  }

  /** A run that ticks in the given minutes and starts the job whenever the minute changes. */
  lemma {:induction false} RunOf(minutes: seq<nat>) returns (events: seq<Event>)
    ensures Possible(events) && Minutes(events) == minutes
    ensures After(events) == Rest(MarksOf(minutes), Changes(minutes))
  {
    if minutes == [] {
      events := [];
      assert Starts([]) == [];
    } else {
      hide Possible, After, Minutes, Rest;
      var n := |minutes| - 1;
      var init, m := minutes[..n], minutes[n];
      assert minutes == init + [m] && (n > 0 ==> init[n - 1] == minutes[n - 1]);
      events := RunOf(init);
      if n > 0 && m == minutes[n - 1] {
        assert MarksOf(init) == map[ALWAYS.id := m] && Changes(minutes) == Changes(init);
        hide Changes, MarksOf;
        events := QuietTick(events, m, Changes(init));
      } else {
        assert Changes(minutes) == Changes(init) + [m];
        hide Changes;
        events := StartingTick(events, MarksOf(init), m, Changes(init));
      }
    }
  }

  lemma StartsDistinct(changes: seq<nat>)
    requires Distinct(Starts(changes))
    ensures Distinct(changes)
  {
    forall i, j | 0 <= i < j < |changes| ensures changes[i] != changes[j] {
      assert Starts(changes)[i] != Starts(changes)[j];
    }
  }

  ghost predicate NeverTwice(minutes: seq<nat>) {
    forall events :: Possible(events) && Minutes(events) == minutes ==> Distinct(After(events).w.log)
  }

  /** For every sequence of tick minutes: no job list and no interleaving makes a job start twice in a
      minute if and only if no minute is ticked again after a tick in a different minute. */
  lemma {:induction false} TwiceExactlyWhen(minutes: seq<nat>)
    ensures NeverTwice(minutes) <==> NoReturn(minutes)
  {
    hide Possible, After, Minutes, NoReturn, Distinct;
    if NoReturn(minutes) {
      forall events | Possible(events) && Minutes(events) == minutes ensures Distinct(After(events).w.log) {
        AtMostOncePerMinute(events);
      }
    } else {
      ReturnRepeats(minutes);
      var events := RunOf(minutes);
      if Distinct(Starts(Changes(minutes))) {
        StartsDistinct(Changes(minutes));
      }
      assert !Distinct(After(events).w.log);
    }
  }

  // ----- a tick that nothing interrupts

  function AtMinute(ids: seq<string>, minute: nat): (r: seq<(string, nat)>)
    ensures |r| == |ids| && forall i :: 0 <= i < |ids| ==> r[i] == (ids[i], minute)
  {
    seq(|ids|, i requires 0 <= i < |ids| => (ids[i], minute))
  }

  /** `s` after the first `i` turns of the loop, as `TickJobs` computes them. */
  function Turned(s: State, jobs: seq<Job>, now: Instant, i: nat): State
    requires i <= |jobs|
  {
    var (c, started) := TickJobs(Prune(s.Core(), now.utc), jobs[..i], now);
    State(c.last, s.w.(phase := Looking(jobs, now, i, false), running := c.running,
                       waiting := s.w.waiting + multiset(started), log := s.w.log + AtMinute(started, now.utc)))
  }

  lemma MarkedEnablesStart(t: State)
    requires Enabled(t.w, Mark)
    ensures Apply(t, Mark).w.phase.Looking?
    ensures Apply(t, Mark).w.phase.marked ==> Enabled(Apply(t, Mark).w, Start)
  {
    hide Due;
  }

  /** `t` after `markDue`, and `tryStart` when that says so. */
  function AfterTurn(t: State): State
    requires Enabled(t.w, Mark)
  {
    MarkedEnablesStart(t);
    var marked := Apply(t, Mark);
    if marked.w.phase.marked then Apply(marked, Start) else marked
  }

  /** `t` after a turn of the method's loop. */
  function AfterTickJob(t: State): State
    requires Enabled(t.w, Mark)
  {
    var p := t.w.phase;
    var (c, starts) := TickJob(t.Core(), p.jobs[p.next], p.now);
    State(c.last, t.w.(phase := p.(next := p.next + 1), running := c.running,
      waiting := if starts then t.w.waiting + multiset{p.jobs[p.next].id} else t.w.waiting,
      log := if starts then t.w.log + [Asked(t.w)] else t.w.log))
  }

  lemma TurnIsTickJob(t: State)
    requires Enabled(t.w, Mark)
    ensures AfterTurn(t) == AfterTickJob(t)
  {
    hide Due;
  }

  lemma TurnedNext(s: State, jobs: seq<Job>, now: Instant, i: nat)
    requires s.w.phase.Idle? && i < |jobs|
    ensures Turned(s, jobs, now, i + 1) == AfterTickJob(Turned(s, jobs, now, i))
  {
    hide TickJobs, TickJob, Prune;
    var p := Prune(s.Core(), now.utc);
    TickJobsNext(p, jobs, i, now);
    var (c, started) := TickJobs(p, jobs[..i], now);
    assert Turned(s, jobs, now, i).Core() == c;
    assert AtMinute(started + [jobs[i].id], now.utc) == AtMinute(started, now.utc) + [(jobs[i].id, now.utc)];
    assert multiset(started + [jobs[i].id]) == multiset(started) + multiset{jobs[i].id};
  }

  lemma {:induction false} UndisturbedTurns(s: State, jobs: seq<Job>, now: Instant, i: nat) returns (events: seq<Event>)
    requires s.w.phase.Idle? && i <= |jobs|
    ensures Playable(s, events) && Play(s, events) == Turned(s, jobs, now, i)
  {
    if i == 0 {
      hide Due;
      events := [Begin(jobs, now)];
      assert [Begin(jobs, now)][..0] == [] && jobs[..0] == [];
      assert s.w.waiting + multiset([]) == s.w.waiting && AtMinute([], now.utc) == [];
    } else {
      events := UndisturbedTurns(s, jobs, now, i - 1);
      var t := Turned(s, jobs, now, i - 1);
      assert t.w.phase == Looking(jobs, now, i - 1, false);
      TurnIsTickJob(t);
      TurnedNext(s, jobs, now, i - 1);
      MarkedEnablesStart(t);
      hide Play, Playable, AfterTickJob, Turned, Apply;
      PlaySnoc(s, events, Mark);
      events := events + [Mark];
      if Apply(t, Mark).w.phase.marked {
        PlaySnoc(s, events, Start);
        events := events + [Start];
      }
    }
  }

  /** The loop of `tick` is a run of these events: when nothing comes in between, its effect and its
      starts are those that the method's contract names. */
  lemma UndisturbedTick(s: State, jobs: seq<Job>, now: Instant) returns (events: seq<Event>)
    requires s.w.phase.Idle?
    ensures Playable(s, events)
    ensures var (c, started) := AfterTick(s.Core(), jobs, now); var t := Play(s, events);
      t.Core() == c && t.w.phase.Idle? && t.w.log == s.w.log + AtMinute(started, now.utc)
  {
    hide Due, Play, Playable, TickJobs, Prune;
    var turns := UndisturbedTurns(s, jobs, now, |jobs|);
    assert jobs[..|jobs|] == jobs;
    PlaySnoc(s, turns, End);
    events := turns + [End];
  }

  // ----- where the starts come from

  /** Event `k` began the tick that is on before event `n`. */
  ghost predicate TickOf(events: seq<Event>, k: nat, n: nat) {
    k < n <= |events| && events[k].Begin? && forall j :: k < j < n ==> !events[j].Begin?
  }

  /** The job is of that tick's list, is enabled, and matches the tick's local minute. */
  ghost predicate TickHas(tick: Event, j: Job, p: (string, nat)) {
    tick.Begin? && j in tick.jobs && j.id == p.0 && tick.now.utc == p.1 && j.enabled &&
    CronMatches(j.cronExpr, CivilAt(tick.now.local))
  }

  /** The phase is that of the tick `tick`; the job that it has marked is one that the tick has. */
  ghost predicate LoopOf(tick: Event, phase: Phase) {
    && tick.Begin? && phase.Looking? && tick.jobs == phase.jobs && tick.now == phase.now
    && (phase.marked ==> phase.next < |phase.jobs| && HasNext(tick, phase))
  }

  ghost predicate HasNext(tick: Event, phase: Phase)
    requires phase.Looking? && phase.next < |phase.jobs|
  {
    TickHas(tick, phase.jobs[phase.next], (phase.jobs[phase.next].id, phase.now.utc))
  }

  /** Between ticks, or in the loop of the tick that is on. */
  ghost predicate PhaseFrom(events: seq<Event>, phase: Phase) {
    phase.Looking? ==> exists k: nat :: TickOf(events, k, |events|) && LoopOf(events[k], phase)
  }

  lemma TickStaysOn(events: seq<Event>, k: nat, e: Event)
    requires TickOf(events, k, |events|) && !e.Begin?
    ensures TickOf(events + [e], k, |events| + 1) && (events + [e])[k] == events[k]
  {
  }

  lemma StepInLoop(tick: Event, s: State, e: Event)
    requires Enabled(s.w, e) && !e.Begin? && LoopOf(tick, s.w.phase)
    ensures Apply(s, e).w.phase.Looking? ==> LoopOf(tick, Apply(s, e).w.phase)
  {
    hide CronMatches, CivilAt;
  }

  lemma IdleStays(s: State, e: Event)
    requires Enabled(s.w, e) && s.w.phase.Idle?
    ensures if e.Begin? then LoopOf(e, Apply(s, e).w.phase) else Apply(s, e).w.phase.Idle?
  {
    hide CronMatches, CivilAt;
  }

  lemma EventKeepsPhase(events: seq<Event>, s: State, e: Event)
    requires Enabled(s.w, e) && PhaseFrom(events, s.w.phase)
    ensures PhaseFrom(events + [e], Apply(s, e).w.phase)
  {
    var after, next := events + [e], Apply(s, e).w.phase;
    BeginsIdle(s, e);
    hide LoopOf, Apply, Enabled;
    if s.w.phase.Idle? {
      IdleStays(s, e);
      if e.Begin? { assert TickOf(after, |events|, |after|) && after[|events|] == e; }
    } else {
      var k: nat :| TickOf(events, k, |events|) && LoopOf(events[k], s.w.phase);
      StepInLoop(events[k], s, e);
      TickStaysOn(events, k, e);
    }
  }

  lemma BeginsIdle(s: State, e: Event)
    requires Enabled(s.w, e)
    ensures e.Begin? ==> s.w.phase.Idle?
  {
  }

  lemma {:induction false} PhaseIsOfATick(events: seq<Event>)
    requires Possible(events)
    ensures PhaseFrom(events, After(events).w.phase)
  {
    hide PhaseFrom, Apply, Enabled;
    if events == [] {
      IdleFrom([]);
    } else {
      var n := |events| - 1;
      PhaseIsOfATick(events[..n]);
      EventKeepsPhase(events[..n], After(events[..n]), events[n]);
      assert events == events[..n] + [events[n]];
    }
  }

  lemma IdleFrom(events: seq<Event>)
    ensures PhaseFrom(events, Idle)
  {
  }

  /** Event `n` made the start that is entry `l` of the log. */
  ghost predicate MadeBy(events: seq<Event>, l: nat, n: nat) {
    n < |events| && events[n].Start? && l == |After(events[..n]).w.log| < |After(events[..n + 1]).w.log|
  }

  lemma LogGrowsAtStart(s: State, e: Event)
    requires Enabled(s.w, e)
    ensures Apply(s, e).w.log == s.w.log ||
            (e.Start? && s.w.phase.Looking? && s.w.phase.marked && s.w.phase.next < |s.w.phase.jobs| &&
             Apply(s, e).w.log == s.w.log + [Asked(s.w)])
  {
    hide Due;
  }

  /** Entry `p` comes from event `n`, and from a job that the tick of that event has. */
  ghost predicate FromTick(events: seq<Event>, l: nat, p: (string, nat)) {
    exists n: nat, k: nat, j :: MadeBy(events, l, n) && TickOf(events, k, n) && TickHas(events[k], j, p)
  }

  lemma FromTickLater(events: seq<Event>, e: Event, l: nat, p: (string, nat))
    requires FromTick(events, l, p)
    ensures FromTick(events + [e], l, p)
  {
    hide CronMatches, CivilAt, After, TickHas;
    var n: nat, k: nat, j :| MadeBy(events, l, n) && TickOf(events, k, n) && TickHas(events[k], j, p);
    var all := events + [e];
    assert all[..n] == events[..n] && all[..n + 1] == events[..n + 1];
    assert MadeBy(all, l, n) && TickOf(all, k, n) && TickHas(all[k], j, p);
  }

  lemma MadeByLast(events: seq<Event>, e: Event)
    requires e.Start? && |After(events + [e]).w.log| > |After(events).w.log|
    ensures MadeBy(events + [e], |After(events).w.log|, |events|)
  {
    hide After;
    var all, n := events + [e], |events|;
    assert all[..n] == events && all[..n + 1] == all;
  }

  lemma NewEntryFromTick(events: seq<Event>, e: Event, s: State)
    requires s == After(events) && Enabled(s.w, e) && PhaseFrom(events, s.w.phase)
    requires After(events + [e]) == Apply(s, e) && Apply(s, e).w.log != s.w.log
    ensures |Apply(s, e).w.log| == |s.w.log| + 1
    ensures FromTick(events + [e], |s.w.log|, Apply(s, e).w.log[|s.w.log|])
  {
    LogGrowsAtStart(s, e);
    hide After, Apply, Enabled, TickHas, LoopOf, MadeBy;
    var phase := s.w.phase;
    var k: nat :| TickOf(events, k, |events|) && LoopOf(events[k], phase);
    MarkedIsHad(events[k], s.w);
    MadeByLast(events, e);
    TickBefore(events, k, e);
    assert TickHas((events + [e])[k], phase.jobs[phase.next], Asked(s.w));
  }

  lemma TickBefore(events: seq<Event>, k: nat, e: Event)
    requires TickOf(events, k, |events|)
    ensures TickOf(events + [e], k, |events|) && (events + [e])[k] == events[k]
  {
  }

  lemma MarkedIsHad(tick: Event, w: World)
    requires LoopOf(tick, w.phase) && w.phase.marked
    ensures w.phase.next < |w.phase.jobs| && TickHas(tick, w.phase.jobs[w.phase.next], Asked(w))
  {
    hide CronMatches, CivilAt;
  }

  /** Every start of every run comes from the tick that is on: its job is in that tick's list, is enabled, and
      matches the tick's local minute. */
  lemma {:induction false} StartsAreDue(events: seq<Event>, l: nat)
    requires Possible(events) && l < |After(events).w.log|
    ensures FromTick(events, l, After(events).w.log[l])
  {
    hide Apply, Enabled, FromTick, PhaseFrom, CronMatches, CivilAt;
    if events != [] {
      var m := |events| - 1;
      var init, e := events[..m], events[m];
      var before := After(init);
      assert events == init + [e];
      LogGrowsAtStart(before, e);
      PhaseIsOfATick(init);
      if Apply(before, e).w.log != before.w.log {
        NewEntryFromTick(init, e, before);
      }
      if l < |before.w.log| {
        StartsAreDue(init, l);
        FromTickLater(init, e, l, before.w.log[l]);
      }
    }
  }
}
