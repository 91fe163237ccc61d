/** Throttling logins with a sliding window: the pruned lists have to decide as the whole history of
    failures since the last reset would. */
module LoginLimiter {
  import opened Strings

  /** Nanoseconds in a second; all times are nanoseconds. */
  const SECOND: int := 1_000_000_000

  /** `prune`: the failures after the cutoff, in order. */
  function Window(times: seq<int>, cutoff: int): seq<int> {
    if times == [] then []
    else
      var n := |times| - 1;
      if times[n] > cutoff then Window(times[..n], cutoff) + [times[n]] else Window(times[..n], cutoff)
  }

  datatype Event = Failure(key: string, at: int) | Cleared(key: string)

  /** All failures of a key since its last reset. */
  function Failures(history: seq<Event>, key: string): seq<int> {
    if history == [] then []
    else
      var n := |history| - 1;
      var before := Failures(history[..n], key);
      match history[n]
      case Failure(k, at) => if k == key then before + [at] else before
      case Cleared(k) => if k == key then [] else before
  }

  ghost predicate Sorted(times: seq<int>) {
    forall i, j :: 0 <= i < j < |times| ==> times[i] <= times[j]
  }

  lemma {:induction false} WindowOfWindow(times: seq<int>, c: int, d: int)
    requires c <= d
    ensures Window(Window(times, c), d) == Window(times, d)
  {
    if times != [] {
      var n := |times| - 1;
      var w := Window(times[..n], c);
      WindowOfWindow(times[..n], c, d);
      if times[n] > c {
        assert (w + [times[n]])[..|w|] == w;
      }
    }
  }

  /** `list` is what pruning has left of a key's failures, all of them made by `clock`. */
  ghost predicate Tracks(list: seq<int>, full: seq<int>, clock: int, window: int) {
    && Sorted(full) && (forall t :: t in full ==> t <= clock)
    && exists c :: c <= clock - window && list == Window(full, c)
  }

  /** Pruning the list now leaves what pruning the whole history would. */
  lemma PruningLosesNothing(list: seq<int>, full: seq<int>, clock: int, window: int, now: int)
    requires Tracks(list, full, clock, window) && clock <= now
    ensures Window(list, now - window) == Window(full, now - window)
    ensures Tracks(Window(full, now - window), full, now, window)
    ensures Tracks(list, full, now, window)
  {
    var c :| c <= clock - window && list == Window(full, c);
    WindowOfWindow(full, c, now - window);
    hide Window;
  }

  lemma NewFailureTracked(list: seq<int>, full: seq<int>, clock: int, window: int, now: int)
    requires Tracks(list, full, clock, window) && clock <= now && window > 0
    ensures Tracks(Window(full, now - window) + [now], full + [now], now, window)
  {
    hide Window;
    WindowSnoc(full, now, now - window);
    forall i, j | 0 <= i < j < |full| + 1 ensures (full + [now])[i] <= (full + [now])[j] {
      assert full[i] in full;
    }
  }

  lemma WindowSnoc(times: seq<int>, t: int, cutoff: int)
    ensures Window(times + [t], cutoff) == if t > cutoff then Window(times, cutoff) + [t] else Window(times, cutoff)
  {
    assert (times + [t])[..|times|] == times;
  }

  lemma NothingToTrack(clock: int, window: int)
    ensures Tracks([], [], clock, window)
  {
    assert Window([], clock - window) == [];
  }

  lemma FailuresSnoc(history: seq<Event>, e: Event, key: string)
    ensures Failures(history + [e], key) ==
      if e.key != key then Failures(history, key) else if e.Failure? then Failures(history, key) + [e.at] else []
  {
    assert (history + [e])[..|history|] == history;
  }

  /** In a sorted list the window holds the last `m` entries exactly when it holds the first of them. */
  lemma {:induction false} WindowHolds(times: seq<int>, cutoff: int, m: nat)
    requires Sorted(times) && 1 <= m <= |times|
    ensures |Window(times, cutoff)| >= m <==> times[|times| - m] > cutoff
  {
    var n := |times| - 1;
    var init := times[..n];
    if times[n] > cutoff {
      if m > 1 {
        WindowHolds(init, cutoff, m - 1);
      }
    } else if n > 0 {
      WindowHolds(init, cutoff, 1);
    }
  }

  lemma {:induction false} WindowIsSuffix(times: seq<int>, cutoff: int)
    requires Sorted(times)
    ensures |Window(times, cutoff)| <= |times|
    ensures forall i :: 0 <= i < |Window(times, cutoff)| ==>
      Window(times, cutoff)[i] == times[|times| - |Window(times, cutoff)| + i]
  {
    if times != [] {
      hide Sorted;
      var n := |times| - 1;
      var init, last := times[..n], times[n];
      SortedInit(times);
      WindowIsSuffix(init, cutoff);
      var w := Window(init, cutoff);
      if last > cutoff {
        assert Window(times, cutoff) == w + [last];
      } else {
        assert Window(times, cutoff) == w;
        if n > 0 {
          WindowHolds(init, cutoff, 1);
        }
      }
    }
  }

  lemma SortedInit(times: seq<int>)
    requires Sorted(times) && times != []
    ensures Sorted(times[..|times| - 1])
    ensures |times| > 1 ==> times[|times| - 2] <= times[|times| - 1]
  {
  }

  lemma WindowTail(times: seq<int>, cutoff: int, m: nat)
    requires Sorted(times) && m >= 1
    ensures var w := Window(times, cutoff);
      && (|w| >= m <==> |times| >= m && times[|times| - m] > cutoff)
      && (|w| >= m ==> w[|w| - m] == times[|times| - m])
  {
    hide Window;
    WindowIsSuffix(times, cutoff);
    if |times| >= m {
      WindowHolds(times, cutoff, m);
    }
  }

  lemma {:induction false} InWindow(times: seq<int>, cutoff: int)
    ensures Window(times, cutoff) != [] ==> Window(times, cutoff)[0] > cutoff
  {
    if times != [] {
      InWindow(times[..|times| - 1], cutoff);
    }
  }

  // ----- attempts as steps

  /** What happens to one key. `Try` and `Refused` are the two answers of `Allowed`. An attempt that was
      allowed ends in `Fail`, which is `RecordFailure`, in `Succeed`, which is `Reset`, or in `GiveUp`,
      which calls nothing: a malformed body, a missing second factor, an unreadable database. */
  datatype Step = Try(now: int) | Refused(now: int) | Fail(now: int) | Succeed | GiveUp

  /** The limiter may take the step on a key with this list. */
  predicate Admits(list: seq<int>, clock: int, step: Step, max: int, window: int) {
    match step
    case Try(now) => clock <= now && |Window(list, now - window)| < max
    case Refused(now) => clock <= now && |Window(list, now - window)| >= max
    case Fail(now) => clock <= now
    case Succeed => true
    case GiveUp => true
  }

  /** The key's list after the step. */
  function NextList(list: seq<int>, step: Step, window: int): seq<int> {
    match step
    case Try(now) => Window(list, now - window)
    case Refused(now) => Window(list, now - window)
    case Fail(now) => Window(list, now - window) + [now]
    case Succeed => []
    case GiveUp => list
  }

  class Limiter {
    const maxFailures: int
    const window: int
    var failures: map<string, seq<int>>
    ghost var history: seq<Event>
    ghost var clock: int

    ghost predicate KeyOk(key: string)
      reads this
    {
      Tracks(List(key), Failures(history, key), clock, window)
    }

    ghost predicate Valid()
      reads this
    {
      && maxFailures >= 1 && window > 0
      && (forall key :: KeyOk(key))
      && (forall key :: key in failures ==> failures[key] != [])
    }

    /** A missing entry reads as the empty list. */
    function List(key: string): seq<int>
      reads this
    {
      if key in failures then failures[key] else []
    }

    /** The failures of the whole history that count at `now`. */
    ghost function Counting(key: string, now: int): seq<int>
      reads this
    {
      Window(Failures(history, key), now - window)
    }

    /** The single caller passes 8 failures and 15 minutes. */
    constructor (maxFailures: int, window: int)
      requires maxFailures >= 1 && window > 0
      ensures Valid() && history == [] && this.maxFailures == maxFailures && this.window == window
    {
      this.maxFailures, this.window := maxFailures, window;
      failures, history, clock := map[], [], 0;
      NothingToTrack(0, window);
    }

    method Prune(key: string, now: int) returns (out: seq<int>)
      modifies this`failures
      ensures out == Window(old(List(key)), now - window)
      ensures failures == if out == [] then old(failures) - {key} else old(failures)[key := out]
    {
      var cutoff := now - window;
      var times := List(key);
      out := [];
      for i := 0 to |times|
        invariant out == Window(times[..i], cutoff) && failures == old(failures)
      {
        assert times[..i + 1][..i] == times[..i];
        if times[i] > cutoff {
          out := out + [times[i]];
        }
      }
      assert times[..|times|] == times;
      if |out| == 0 {
        failures := failures - {key};
      } else {
        failures := failures[key := out];
      }
    }

    method Allowed(key: string, now: int) returns (ok: bool, secs: int)
      requires Valid() && clock <= now
      modifies this
      ensures Valid() && history == old(history) && clock == now
      ensures List(key) == Counting(key, now)
      ensures forall k :: k != key ==> List(k) == old(List(k))
      ensures ok <==> |Counting(key, now)| < maxFailures
      ensures !ok ==> secs == RetryAfter(window, Counting(key, now), now)
      ensures var step := if ok then Try(now) else Refused(now);
        Admits(old(List(key)), old(clock), step, maxFailures, window) && List(key) == NextList(old(List(key)), step, window)
    {
      hide Tracks, Window, Failures;
      forall k ensures Tracks(List(k), Failures(history, k), now, window) {
        assert KeyOk(k);
        PruningLosesNothing(List(k), Failures(history, k), clock, window, now);
      }
      assert KeyOk(key);
      PruningLosesNothing(List(key), Failures(history, key), clock, window, now);
      var times := Prune(key, now);
      clock := now;
      if |times| >= maxFailures {
        var remaining := window - (now - times[0]);
        InWindow(Failures(history, key), now - window);
        secs := remaining / SECOND + 1;
        if secs < 1 {
          secs := 1;
        }
        return false, secs;
      }
      return true, 0;
    }

    method RecordFailure(key: string, now: int)
      requires Valid() && clock <= now
      modifies this
      ensures Valid() && history == old(history) + [Failure(key, now)] && clock == now
      ensures List(key) == old(Counting(key, now)) + [now]
      ensures Admits(old(List(key)), old(clock), Fail(now), maxFailures, window)
      ensures List(key) == NextList(old(List(key)), Fail(now), window)
      ensures forall k :: k != key ==> List(k) == old(List(k))
    {
      hide Tracks, Window, Failures;
      forall k ensures Tracks(List(k), Failures(history, k), now, window) {
        assert KeyOk(k);
        PruningLosesNothing(List(k), Failures(history, k), clock, window, now);
      }
      assert KeyOk(key);
      PruningLosesNothing(List(key), Failures(history, key), clock, window, now);
      NewFailureTracked(List(key), Failures(history, key), clock, window, now);
      var times := Prune(key, now);
      forall k ensures Failures(history + [Failure(key, now)], k) ==
        if k == key then Failures(history, k) + [now] else Failures(history, k)
      {
        FailuresSnoc(history, Failure(key, now), k);
      }
      failures := failures[key := times + [now]];
      history := history + [Failure(key, now)];
      clock := now;
    }

    method Reset(key: string)
      requires Valid()
      modifies this
      ensures Valid() && history == old(history) + [Cleared(key)] && clock == old(clock)
      ensures failures == old(failures) - {key} && List(key) == NextList(old(List(key)), Succeed, window)
    {
      hide Tracks, Window, Failures;
      assert forall k :: KeyOk(k) ==> Tracks(List(k), Failures(history, k), clock, window);
      NothingToTrack(clock, window);
      forall k ensures Failures(history + [Cleared(key)], k) == if k == key then [] else Failures(history, k) {
        FailuresSnoc(history, Cleared(key), k);
      }
      failures := failures - {key};
      history := history + [Cleared(key)];
    }
  }

  // ----- waiting

  /** The seconds a refused caller is told to wait; `counting` are the failures in the window. */
  function RetryAfter(window: int, counting: seq<int>, now: int): int {
    if counting == [] then 1 else (window - (now - counting[0])) / SECOND + 1
  }

  /** Without new failures the key is allowed later exactly when enough of the failures that count now
      have left the window: all but `max - 1` of them. */
  lemma AllowedLaterExactly(full: seq<int>, window: int, max: int, now: int, later: int)
    requires Sorted(full) && max >= 1 && now <= later
    ensures var w := Window(full, now - window);
      |Window(full, later - window)| < max <==> |w| < max || w[|w| - max] <= later - window
  {
    hide Window, Sorted;
    WindowTail(full, now - window, max);
    WindowTail(full, later - window, max);
  }

  /** A refused caller who waits as told, with no new failure, is allowed when no more than `max`
      failures counted, and is refused again until at most a second before; with more than `max` it
      depends on a later failure. */
  lemma WaitingHelpsExactly(full: seq<int>, window: int, max: int, now: int, wait: int)
    requires Sorted(full) && max >= 1 && wait >= 0
    requires |Window(full, now - window)| >= max
    ensures var w := Window(full, now - window); var secs := RetryAfter(window, w, now);
      && secs >= 1
      && (wait >= secs * SECOND ==>
           (|Window(full, now + wait - window)| < max <==> w[|w| - max] <= now + wait - window))
      && (wait >= secs * SECOND && |w| == max ==> |Window(full, now + wait - window)| < max)
      && (wait < (secs - 1) * SECOND ==> |Window(full, now + wait - window)| >= max)
  {
    var w := Window(full, now - window);
    WindowIsSuffix(full, now - window);
    InWindow(full, now - window);
    AllowedLaterExactly(full, window, max, now, now + wait);
    var remaining := window - (now - w[0]);
    assert remaining / SECOND * SECOND <= remaining < (remaining / SECOND + 1) * SECOND;
    assert w[0] == full[|full| - |w|] && full[|full| - max] == w[|w| - max];
  }

  // ----- logins in flight

  /** One key's list, the attempts that were allowed and have not ended yet, and the clock. */
  datatype Logins = Logins(list: seq<int>, open: nat, clock: int)

  /** The limiter admits the step, and it fits the attempts in flight, of which there are at most `limit`. */
  predicate Enabled(s: Logins, step: Step, max: int, window: int, limit: nat) {
    Admits(s.list, s.clock, step, max, window) &&
    match step
    case Try(_) => s.open < limit
    case Refused(_) => true
    case Fail(_) => s.open > 0
    case Succeed => s.open > 0
    case GiveUp => s.open > 0
  }

  function Next(s: Logins, step: Step, window: int): Logins
    requires s.open > 0 || step.Try? || step.Refused?
  {
    Logins(NextList(s.list, step, window),
           if step.Try? then s.open + 1 else if step.Refused? then s.open else s.open - 1,
           if step.Succeed? || step.GiveUp? then s.clock else step.now)
  }

  ghost predicate Reaches(max: int, window: int, limit: nat, steps: seq<Step>, s: Logins) {
    if steps == [] then s == Logins([], 0, s.clock)
    else
      var n := |steps| - 1;
      exists before :: Reaches(max, window, limit, steps[..n], before) && Enabled(before, steps[n], max, window, limit) &&
        s == Next(before, steps[n], window)
  }

  lemma {:induction false} WindowIsShorter(times: seq<int>, cutoff: int)
    ensures |Window(times, cutoff)| <= |times|
  {
    if times != [] {
      WindowIsShorter(times[..|times| - 1], cutoff);
    }
  }

  predicate Bounded(s: Logins, max: int, limit: nat) {
    |s.list| + s.open <= max - 1 + limit && s.open <= limit
  }

  lemma {:induction false} StepKeepsBound(s: Logins, step: Step, max: int, window: int, limit: nat)
    requires max >= 1 && Bounded(s, max, limit) && Enabled(s, step, max, window, limit)
    ensures Bounded(Next(s, step, window), max, limit)
  {
    if !step.Succeed? && !step.GiveUp? {
      WindowIsShorter(s.list, step.now - window);
    }
    hide Window;
  }

  /** With at most `limit` attempts in flight for a key, its list never holds more than
      `max - 1 + limit` failures: with one at a time, never more than `max`. */
  lemma {:induction false} ListIsBounded(max: int, window: int, limit: nat, steps: seq<Step>, s: Logins)
    requires Reaches(max, window, limit, steps, s) && max >= 1
    ensures |s.list| + s.open <= max - 1 + limit
    ensures s.open <= limit
  {
    hide Admits, Next, Window;
    if steps != [] {
      var n := |steps| - 1;
      var before :| Reaches(max, window, limit, steps[..n], before) &&
        Enabled(before, steps[n], max, window, limit) && s == Next(before, steps[n], window);
      ListIsBounded(max, window, limit, steps[..n], before);
      StepKeepsBound(before, steps[n], max, window, limit);
    }
  }

  function Same(n: nat): (s: seq<int>)
    ensures |s| == n
  {
    seq(n, _ => 0)
  }

  lemma SameSnoc(n: nat)
    ensures Same(n + 1) == Same(n) + [0]
  {
  }

  lemma {:induction false} SameStays(n: nat, window: int)
    requires window > 0
    ensures Window(Same(n), 0 - window) == Same(n)
  {
    if n > 0 {
      hide Same;
      SameStays(n - 1, window);
      SameSnoc(n - 1);
      WindowSnoc(Same(n - 1), 0, 0 - window);
    }
  }

  /** `step` leads from `s` to `t`, so a run to `s` goes on to `t`. */
  lemma Extend(max: int, window: int, limit: nat, steps: seq<Step>, s: Logins, step: Step, t: Logins)
    requires Reaches(max, window, limit, steps, s) && Enabled(s, step, max, window, limit) && t == Next(s, step, window)
    ensures Reaches(max, window, limit, steps + [step], t)
  {
    assert (steps + [step])[..|steps|] == steps;
  }

  lemma TryAtZero(max: int, window: int, limit: nat, steps: seq<Step>, n: nat, k: nat)
    requires Reaches(max, window, limit, steps, Logins(Same(n), k, 0)) && window > 0 && n < max && k < limit
    ensures Reaches(max, window, limit, steps + [Try(0)], Logins(Same(n), k + 1, 0))
  {
    hide Same, Window, Reaches;
    SameStays(n, window);
    Extend(max, window, limit, steps, Logins(Same(n), k, 0), Try(0), Logins(Same(n), k + 1, 0));
  }

  lemma FailAtZero(max: int, window: int, limit: nat, steps: seq<Step>, n: nat, k: nat)
    requires Reaches(max, window, limit, steps, Logins(Same(n), k + 1, 0)) && window > 0
    ensures Reaches(max, window, limit, steps + [Fail(0)], Logins(Same(n + 1), k, 0))
  {
    hide Same, Window, Reaches;
    SameSnoc(n);
    SameStays(n, window);
    Extend(max, window, limit, steps, Logins(Same(n), k + 1, 0), Fail(0), Logins(Same(n + 1), k, 0));
  }

  /** `n` attempts, one after the other, that all fail. */
  lemma {:induction false} OneByOne(max: int, window: int, limit: nat, n: nat) returns (steps: seq<Step>)
    requires window > 0 && n < max && limit >= 1
    ensures Reaches(max, window, limit, steps, Logins(Same(n), 0, 0))
  {
    if n == 0 {
      steps := [];
      assert Same(0) == [];
    } else {
      hide Reaches;
      steps := OneByOne(max, window, limit, n - 1);
      TryAtZero(max, window, limit, steps, n - 1, 0);
      FailAtZero(max, window, limit, steps + [Try(0)], n - 1, 0);
      steps := steps + [Try(0)] + [Fail(0)];
    }
  }

  /** Then `k` attempts at once. */
  lemma {:induction false} AtOnce(max: int, window: int, limit: nat, n: nat, k: nat) returns (steps: seq<Step>)
    requires window > 0 && n < max && k <= limit && limit >= 1
    ensures Reaches(max, window, limit, steps, Logins(Same(n), k, 0))
  {
    hide Reaches;
    if k == 0 {
      steps := OneByOne(max, window, limit, n);
    } else {
      steps := AtOnce(max, window, limit, n, k - 1);
      TryAtZero(max, window, limit, steps, n, k - 1);
      steps := steps + [Try(0)];
    }
  }

  /** Then `f` of these fail. */
  lemma {:induction false} AllFail(max: int, window: int, limit: nat, n: nat, f: nat) returns (steps: seq<Step>)
    requires window > 0 && n < max && f <= limit && limit >= 1
    ensures Reaches(max, window, limit, steps, Logins(Same(n + f), limit - f, 0))
  {
    hide Reaches;
    if f == 0 {
      steps := AtOnce(max, window, limit, n, limit);
    } else {
      steps := AllFail(max, window, limit, n, f - 1);
      FailAtZero(max, window, limit, steps, n + f - 1, limit - f);
      steps := steps + [Fail(0)];
    }
  }

  /** The bound is reached: attempts that run at the same time get past the limit. */
  lemma BoundIsReached(max: int, window: int, limit: nat)
    requires window > 0 && max >= 1 && limit >= 1
    ensures exists steps, s :: Reaches(max, window, limit, steps, s) && |s.list| == max - 1 + limit
  {
    var steps := AllFail(max, window, limit, max - 1, limit);
    var s := Logins(Same(max - 1 + limit), 0, 0);
    assert Reaches(max, window, limit, steps, s);
  }

  // ----- waiting in vain

  /** One failure at time 0 and `n` two seconds later. */
  function Late(n: nat): (s: seq<int>)
    ensures |s| == n + 1
  {
    [0] + seq(n, _ => 2 * SECOND)
  }

  lemma {:induction false} LateWindow(n: nat, cutoff: int)
    requires cutoff < 2 * SECOND
    ensures |Window(Late(n), cutoff)| >= n
    ensures cutoff < 0 ==> Window(Late(n), cutoff) == Late(n)
  {
    if n == 0 {
      assert Late(0) == [0] && [0][..0] == [];
    } else {
      hide Late, Window;
      LateWindow(n - 1, cutoff);
      LateSnoc(n);
      WindowSnoc(Late(n - 1), 2 * SECOND, cutoff);
    }
  }

  /** Two attempts at time 0 of which one fails and one stays open; two seconds later, `n` more that fail. */
  lemma {:induction false} OneStaysOpen(max: int, window: int, limit: nat, n: nat)
    returns (steps: seq<Step>, clock: int)
    requires window > 2 * SECOND && n < max && limit >= 2
    ensures 0 <= clock <= 2 * SECOND && Reaches(max, window, limit, steps, Logins(Late(n), 1, clock))
  {
    if n == 0 {
      steps := AtOnce(max, window, limit, 0, 2);
      clock := 0;
      FailAtZero(max, window, limit, steps, 0, 1);
      steps := steps + [Fail(0)];
      assert Same(1) == Late(0);
    } else {
      hide Reaches, Window, Late;
      steps, clock := OneStaysOpen(max, window, limit, n - 1);
      LateWindow(n - 1, 2 * SECOND - window);
      var t := 2 * SECOND;
      Extend(max, window, limit, steps, Logins(Late(n - 1), 1, clock), Try(t), Logins(Late(n - 1), 2, t));
      LateSnoc(n);
      Extend(max, window, limit, steps + [Try(t)], Logins(Late(n - 1), 2, t), Fail(t), Logins(Late(n), 1, t));
      steps, clock := steps + [Try(t)] + [Fail(t)], t;
    }
  }

  lemma LateSnoc(n: nat)
    requires n > 0
    ensures Late(n) == Late(n - 1) + [2 * SECOND]
  {
  }

  /** The key is refused at `now`, and still refused after the seconds that the caller is told to wait. */
  predicate RefusedAgain(list: seq<int>, now: int, max: int, window: int) {
    var w := Window(list, now - window);
    |w| >= max && |Window(list, now + RetryAfter(window, w, now) * SECOND - window)| >= max
  }

  /** With two attempts in flight the promise fails for every limit: of one failure too many, the oldest
      leaves the window and the key stays refused. */
  lemma WaitingInVain(max: int, window: int, limit: nat)
    requires max >= 1 && limit >= 2 && window > 2 * SECOND
    ensures exists steps, s :: Reaches(max, window, limit, steps, s) && RefusedAgain(s.list, s.clock, max, window)
  {
    hide Reaches, Window, Late;
    var t := 2 * SECOND;
    var steps, clock := OneStaysOpen(max, window, limit, max - 1);
    LateWindow(max - 1, t - window);
    LateSnoc(max);
    var s := Logins(Late(max), 0, t);
    Extend(max, window, limit, steps, Logins(Late(max - 1), 1, clock), Fail(t), s);
    LateWindow(max, t - window);
    LateStartsAtZero(max);
    var secs := RetryAfter(window, Late(max), t);
    assert secs * SECOND <= window - t + SECOND;
    LateWindow(max, t + secs * SECOND - window);
    assert Reaches(max, window, limit, steps + [Fail(t)], s);
  }

  lemma LateStartsAtZero(n: nat)
    ensures Late(n)[0] == 0
  {
  }
}
