/** Grouping notifications: each event restarts a quiet timer, and a batch goes out when the timer of
    its last event fires. A timer that was stopped too late still fires; generations tell it apart. */
module Coalescer {
  import opened Strings
  import opened Digests

  /** A timer that has not fired and was not stopped. */
  datatype Armed = Armed(gen: nat, due: int)

  /** What the coalescer's mutex guards, with the batch as the events it was built from. */
  datatype Core = Core(batch: Option<seq<Event>>, first: int, gen: nat, timer: Option<Armed>)

  datatype Limits = Limits(quiet: int, maxHold: int)

  function Min(a: int, b: int): int { if b < a then b else a }

  function Max(a: int, b: int): int { if a < b then b else a }

  /** How long after an event at `now` its timer runs, in a batch that began at `first`. */
  function Wait(l: Limits, first: int, now: int): int {
    Max(0, Min(l.quiet, l.maxHold - (now - first)))
  }

  function AfterAdd(c: Core, l: Limits, e: Event, now: int): Core {
    var first := if c.batch.None? then now else c.first;
    var events := if c.batch.None? then [] else c.batch.value;
    Core(Some(events + [e]), first, c.gen + 1, Some(Armed(c.gen + 1, now + Wait(l, first, now))))
  }

  /** `fire`: the new state and the batch to hand to `flush`, if any. */
  function AfterFire(c: Core, gen: nat): (Core, Option<seq<Event>>) {
    if gen != c.gen || c.batch.None? then (c, None)
    else (c.(batch := None, timer := None), c.batch)
  }

  class Timer {
    const gen: nat
    const due: int
    var armed: bool

    constructor (gen: nat, due: int)
      ensures this.gen == gen && this.due == due && armed
    {
      this.gen, this.due, armed := gen, due, true;
    }

    /** No effect once the timer has fired. */
    method Stop()
      modifies this
      ensures !armed
    {
      armed := false;
    }
  }

  class Coalescer {
    const limits: Limits
    var cur: Option<Digest>
    var first: int
    var gen: nat
    var timer: Timer?
    ghost var batch: Option<seq<Event>>

    ghost predicate Valid()
      reads this, timer
    {
      && (cur.Some? <==> batch.Some?) && (cur.Some? ==> cur.value == Built(batch.value))
    }

    ghost function View(): Core
      reads this, timer
    {
      Core(batch, first, gen, if timer != null && timer.armed then Some(Armed(timer.gen, timer.due)) else None)
    }

    constructor (limits: Limits)
      ensures Valid() && View() == Core(None, 0, 0, None) && this.limits == limits
    {
      this.limits := limits;
      cur, first, gen, timer, batch := None, 0, 0, null, None;
    }

    method Add(e: Event, now: int)
      requires Valid()
      modifies this, timer
      ensures Valid() && View() == AfterAdd(old(View()), limits, e, now)
      ensures timer != null && fresh(timer)
    {
      if cur.None? {
        cur, first, batch := Some(EMPTY), now, Some([]);
      }
      assert (batch.value + [e])[..|batch.value|] == batch.value;
      cur, batch := Some(AddEvent(cur.value, e)), Some(batch.value + [e]);
      var wait := limits.quiet;
      var rem := limits.maxHold - (now - first);
      if rem < wait {
        wait := rem;
      }
      if wait < 0 {
        wait := 0;
      }
      if timer != null {
        timer.Stop();
      }
      gen := gen + 1;
      timer := new Timer(gen, now + wait);
    }

    /** The timer's callback; the digest it returns goes to `flush` after the lock is released. */
    method Fire(g: nat) returns (d: Option<Digest>)
      requires Valid()
      modifies this
      ensures Valid()
      ensures View() == AfterFire(old(View()), g).0
      ensures d == match AfterFire(old(View()), g).1 { case None => None case Some(events) => Some(Built(events)) }
    {
      if g != gen || cur.None? {
        return None;
      }
      d := cur;
      cur, timer, batch := None, null, None;
    }
  }

  // ----- all interleavings

  /** The coalescer with its environment: callbacks that have started but wait for the lock, the
      batches handed to `flush`, and everything that was added. `due` belongs to generation
      `core.gen`, also while its callback waits. `begun` and `lastAdd` are the times of the first event
      since the last flush and of the last event. */
  datatype State = State(core: Core, callbacks: set<nat>, clock: int, added: seq<Event>,
                         flushed: seq<seq<Event>>, begun: int, lastAdd: int, due: int)

  datatype Step = DoAdd(e: Event, now: int) | Elapse(now: int) | DoFire(gen: nat, now: int)

  predicate Enabled(s: State, step: Step) {
    match step
    case DoAdd(_, now) => s.clock <= now
    case Elapse(now) => s.clock <= now && s.core.timer.Some? && s.core.timer.value.due <= now
    case DoFire(gen, now) => s.clock <= now && gen in s.callbacks
  }

  function Apply(s: State, l: Limits, step: Step): State {
    match step
    case DoAdd(e, now) =>
      var core := AfterAdd(s.core, l, e, now);
      var begun := if s.added == Concat(s.flushed) then now else s.begun;
      State(core, s.callbacks, now, s.added + [e], s.flushed, begun, now, core.timer.value.due)
    case Elapse(now) =>
      if s.core.timer.None? then s
      else s.(core := s.core.(timer := None), callbacks := s.callbacks + {s.core.timer.value.gen}, clock := now)
    case DoFire(gen, now) =>
      var (core, out) := AfterFire(s.core, gen);
      s.(core := core, callbacks := s.callbacks - {gen}, clock := now,
         flushed := if out.Some? then s.flushed + [out.value] else s.flushed)
  }

  function Concat(batches: seq<seq<Event>>): seq<Event> {
    if batches == [] then [] else Concat(batches[..|batches| - 1]) + batches[|batches| - 1]
  }

  function Current(c: Core): seq<Event> { if c.batch.Some? then c.batch.value else [] }

  /** Every event is in exactly one batch, in order, and no batch is empty. */
  ghost predicate Conserved(s: State) {
    && s.added == Concat(s.flushed) + Current(s.core)
    && [] !in s.flushed
    && s.core.batch != Some([])
  }

  /** An open batch has exactly one timer of the current generation, armed or with its callback on the
      way, and its deadline is what the last event set; without an open batch there is neither. */
  ghost predicate Timed(s: State, l: Limits) {
    && (forall g :: g in s.callbacks ==> g <= s.core.gen)
    && (s.core.timer.Some? ==> s.core.timer.value == Armed(s.core.gen, s.due))
    && (s.core.gen in s.callbacks ==> s.due <= s.clock)
    && if s.core.batch.Some? then
         && (s.core.timer.Some? <==> s.core.gen !in s.callbacks)
         && s.core.first == s.begun <= s.lastAdd <= s.clock
         && s.due == s.lastAdd + Wait(l, s.core.first, s.lastAdd)
       else s.core.timer.None? && s.core.gen !in s.callbacks
  }

  ghost predicate Inv(s: State, l: Limits) {
    Conserved(s) && Timed(s, l)
  }

  ghost predicate Reaches(l: Limits, steps: seq<Step>, s: State) {
    if steps == [] then s == State(Core(None, 0, 0, None), {}, s.clock, [], [], 0, 0, 0)
    else
      var n := |steps| - 1;
      exists before :: Reaches(l, steps[..n], before) && Enabled(before, steps[n]) && s == Apply(before, l, steps[n])
  }

  lemma StepConserves(s: State, l: Limits, step: Step)
    requires Conserved(s)
    ensures Conserved(Apply(s, l, step))
  {
    hide Wait, Concat;
    match step {
      case DoAdd(e, now) =>
        assert Concat(s.flushed) + Current(s.core) + [e] == Concat(s.flushed) + (Current(s.core) + [e]);
      case Elapse(now) =>
      case DoFire(gen, now) =>
        if s.core.batch.Some? && gen == s.core.gen {
          ConcatSnoc(s.flushed, s.core.batch.value);
        }
    }
  }

  lemma ConcatSnoc(batches: seq<seq<Event>>, last: seq<Event>)
    ensures Concat(batches + [last]) == Concat(batches) + last + []
  {
    assert (batches + [last])[..|batches|] == batches;
  }

  lemma StepKeepsTimed(s: State, l: Limits, step: Step)
    requires Conserved(s) && Timed(s, l) && Enabled(s, step)
    ensures Timed(Apply(s, l, step), l)
  {
    NothingOpen(s);
    hide Wait, Concat;
  }

  /** Everything was flushed exactly when no batch is open. */
  lemma NothingOpen(s: State)
    requires Conserved(s)
    ensures s.added == Concat(s.flushed) <==> s.core.batch.None?
  {
    hide Concat;
    assert |s.added| == |Concat(s.flushed)| + |Current(s.core)|;
  }

  lemma {:induction false} ReachableInv(l: Limits, steps: seq<Step>, s: State)
    requires Reaches(l, steps, s)
    ensures Inv(s, l)
  {
    hide Enabled, Apply;
    if steps != [] {
      var n := |steps| - 1;
      var before :| Reaches(l, steps[..n], before) && Enabled(before, steps[n]) && s == Apply(before, l, steps[n]);
      hide Conserved, Timed;
      ReachableInv(l, steps[..n], before);
      StepConserves(before, l, steps[n]);
      StepKeepsTimed(before, l, steps[n]);
    }
  }

  /** Conservation and deadline, in every interleaving of events and of timers, stale ones included:
      the flushed batches followed by the open one are all events, once each and in order. An open batch
      has one timer of its own. It is due when the quiet time after its last event is over, or `maxHold`
      after its first event, whichever comes first, but not before its last event. */
  lemma {:induction false} ConservedAndTimely(l: Limits, steps: seq<Step>, s: State)
    requires Reaches(l, steps, s)
    ensures s.added == Concat(s.flushed) + Current(s.core)
    ensures s.core.batch.Some? ==>
      && s.core.batch.value != []
      && (s.core.timer == Some(Armed(s.core.gen, s.due)) || (s.core.timer.None? && s.core.gen in s.callbacks))
      && s.lastAdd <= s.due
      && (s.due <= s.lastAdd + l.quiet || s.due == s.lastAdd)
      && (s.due <= s.begun + l.maxHold || s.due == s.lastAdd)
      && (s.due >= s.lastAdd + l.quiet || s.due >= s.begun + l.maxHold)
    ensures s.core.batch.None? ==> s.core.timer.None? && s.core.gen !in s.callbacks
  {
    ReachableInv(l, steps, s);
  }

  /** When the callback of the current generation gets the lock, the whole open batch goes out, not
      before its deadline; any other callback changes nothing. */
  lemma {:induction false} FireFlushesAll(l: Limits, steps: seq<Step>, s: State, gen: nat, now: int)
    requires Reaches(l, steps, s) && Enabled(s, DoFire(gen, now))
    ensures var s' := Apply(s, l, DoFire(gen, now));
      if gen == s.core.gen then
        s.core.batch.Some? && s'.flushed == s.flushed + [s.core.batch.value] && s'.core.batch.None? && s.due <= now
      else s'.core == s.core && s'.flushed == s.flushed
  {
    ReachableInv(l, steps, s);
  }
}
