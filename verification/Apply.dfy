/** The detached upgrade: the host runs it on its own and appends to a log, the client follows the
    log over a link that may drop at any moment and resumes at the next line it has not seen. */
module Apply {
  import opened Strings
  import opened Lines

  // ----- the host and the link

  /** An exit status as the shell's `$?` gives it. */
  type ExitStatus = n: nat | n < 256

  datatype Host =
    | NotStarted
    | Running(log: seq<string>)
    | Done(log: seq<string>, rc: ExitStatus)
    | Killed(log: seq<string>)
    | Gone // its run directory was removed
  {
    predicate HasLog() { Running? || Done? || Killed? }

    function Log(): seq<string> { if HasLog() then log else [] }
  }

  /** What a host may become while nobody sends it the start script again. A start script that lost its
      session may still launch the upgrade later. */
  predicate Evolves(h: Host, h': Host) {
    match h
    case NotStarted => true
    case Running(log) => h' == Gone || (h'.HasLog() && log <= h'.log)
    case Done(_, _) => h' == Gone || h' == h
    case Killed(_) => h' == Gone || h' == h
    case Gone => h' == Gone
  }

  const RC_PREFIX := "__PD_APPLY_RC__="
  const COUNT_PREFIX := "__PD_SETUP_COUNT__="
  const REBOOT := "__REBOOT__"
  const LOST := "__PD_APPLY_LOST__"
  const NOTFOUND := "__PD_APPLY_NOTFOUND__"
  const SETUP := "Setting up "

  /** `grep -c '^Setting up '`: the lines that start with the words. */
  function SetupLines(log: seq<string>): nat {
    if log == [] then 0 else (if SETUP <= log[0] then 1 else 0) + SetupLines(log[1..])
  }

  function Suffix(log: seq<string>, from: nat): seq<string> {
    if 1 <= from <= |log| + 1 then log[from - 1..] else []
  }

  datatype Script = Start | Follow(from: nat) {
    function From(): nat { if Start? then 1 else from }
  }

  datatype Error = Error(connectionLost: bool, text: string)

  /** One pass of the retry loop as the environment plays it: the host when the follow ends, how
      many lines of its output the link let through, the session's error, whether the caller had
      cancelled, and the three clock readings of the pass (nanoseconds). `late` is set when the upgrade
      has left no process id after the follow's ten seconds: the script then does not wait for the upgrade
      but prints the lines that are there, which are the first `late` ones. */
  datatype Pass = Pass(host: Host, reboot: bool, late: Option<nat>, cut: nat, err: Option<Error>,
                       cancelled: bool, cancelledInPause: bool, tDrop: int, tWindow: int, tTotal: int)
  {
    /** The part of the log that the script reads. */
    function Read(): seq<string> {
      if late.Some? && late.value <= |host.Log()| then host.Log()[..late.value] else host.Log()
    }
  }

  /** Everything the follow script prints when it is left to finish: the log from line `from`, and
      the exit status after that. A run that goes on prints no verdict, unless the process id is late. */
  function Stdout(p: Pass, from: nat): seq<string> {
    match p.host
    case NotStarted => [NOTFOUND]
    case Gone => [NOTFOUND]
    case Running(_) => if p.late.Some? then Suffix(p.Read(), from) + [LOST] else Suffix(p.Read(), from)
    case Done(log, rc) =>
      Suffix(p.Read(), from)
      + [RC_PREFIX + DigitsOf(rc), COUNT_PREFIX + DigitsOf(SetupLines(log))]
      + if p.reboot then [REBOOT] else []
    case Killed(_) => Suffix(p.Read(), from) + [LOST]
  }

  function Delivered(p: Pass, script: Script): seq<string> {
    var out := Stdout(p, script.From());
    if p.cut <= |out| then out[..p.cut] else out
  }

  /** The limits: `applyMaxDuration`, `applyReconnectWindow` and `applyRetryDelay`. */
  datatype Limits = Limits(maxDuration: int, window: int, delay: int)

  /** The readings of pass `k` are in order, and the pause of at least `delay` follows them. */
  ghost predicate TicksAt(env: nat -> Pass, delay: int, k: nat) {
    env(k).tDrop <= env(k).tWindow <= env(k).tTotal && env(k).tTotal + delay <= env(k + 1).tDrop
  }

  /** The monotonic clock. */
  ghost predicate Clock(env: nat -> Pass, start: int, delay: int) {
    start <= env(0).tDrop && forall k: nat :: TicksAt(env, delay, k)
  }

  ghost predicate EvolvesAt(env: nat -> Pass, k: nat) { Evolves(env(k).host, env(k + 1).host) }

  ghost predicate HostEvolves(env: nat -> Pass) {
    forall k: nat :: EvolvesAt(env, k)
  }

  // ----- reading the follow's output

  predicate Hidden(line: string) { "__PD_" <= line || line == REBOOT }

  /** The lines `emit` hands on. */
  function Emitted(lines: seq<string>): seq<string> {
    if lines == [] then []
    else if Hidden(lines[0]) then Emitted(lines[1..])
    else [lines[0]] + Emitted(lines[1..])
  }

  function Out(lines: seq<string>): string { TrimSpace(Render(lines)) }

  function LeadingDigits(s: string): (d: string)
    ensures AllDigits(d) && d <= s
    ensures |d| < |s| ==> !IsDigit(s[|d|])
  {
    if s != "" && IsDigit(s[0]) then [s[0]] + LeadingDigits(s[1..]) else ""
  }

  predicate AllSpace(s: string) { forall i :: 0 <= i < |s| ==> s[i] in " \t\n\U{0C}\r" }

  /** The number in one line that matches `^prefix(\d+)\s*$`; `strconv.Atoi` saturates. */
  function Marker(line: string, prefix: string): Option<nat> {
    if !(prefix <= line) then None
    else
      var rest := line[|prefix|..];
      var d := LeadingDigits(rest);
      if d == "" || !AllSpace(rest[|d|..]) then None
      else Some(if ValueOf(d) <= MaxInt then ValueOf(d) else MaxInt)
  }

  function FirstMarker(lines: seq<string>, prefix: string): Option<nat> {
    if lines == [] then None
    else if Marker(lines[0], prefix).Some? then Marker(lines[0], prefix)
    else FirstMarker(lines[1..], prefix)
  }

  function FindMarker(out: string, prefix: string): Option<nat> {
    FirstMarker(Split(out, '\n'), prefix)
  }

  datatype ApplyResult = ApplyResult(changed: nat, raw: string, needsReboot: bool)

  /** `finishApply`, without the text of the error it makes from a non-zero exit status. */
  function Finish(out: string, log: string): ApplyResult {
    var counted := FindMarker(out, COUNT_PREFIX);
    ApplyResult(if counted.Some? then counted.value else Count(log, SETUP), log, Contains(out, REBOOT))
  }

  const RETRYABLE := ["timed out", "Connection refused", "unreachable", "Host not found", "SSH session error",
                      "SSH handshake failed", "Connection reset", "SSH error: EOF"]

  /** `retryableApplyErr`. */
  predicate Retryable(e: Error) {
    e.connectionLost || exists i :: 0 <= i < |RETRYABLE| && Contains(e.text, RETRYABLE[i])
  }

  const NO_RESULT := Error(false, "the upgrade's output ended without a result")

  // ----- the client

  datatype Event = Line(text: string) | Note

  function Texts(events: seq<Event>): seq<string> {
    if events == [] then []
    else if events[0].Line? then [events[0].text] + Texts(events[1..])
    else Texts(events[1..])
  }

  datatype Cause = HostStopped | LogGone | CannotReattach(err: Error)

  datatype Outcome =
    | Finished(res: ApplyResult, exit: nat)
    | Interrupted(cause: Cause, changedSoFar: nat, dpkgStarted: bool)
    | CouldNotStart
    | Failed(err: Error)
    | Cancelled

  function Got(env: nat -> Pass, sent: seq<Script>, k: nat): seq<string>
    requires k < |sent|
  {
    Delivered(env(k), sent[k])
  }

  /** The upgrade lines handed on by the first `k` passes. */
  function Seen(env: nat -> Pass, sent: seq<Script>, k: nat): seq<string>
    requires k <= |sent|
  {
    if k == 0 then [] else Seen(env, sent, k - 1) + Emitted(Got(env, sent, k - 1))
  }

  /** The scripts of a run: the start script once, first; then only follows, each from the line
      after the last one seen. */
  ghost predicate Transcript(env: nat -> Pass, sent: seq<Script>) {
    sent != [] && forall k: nat :: k < |sent| ==> RightScript(env, sent, k)
  }

  ghost predicate RightScript(env: nat -> Pass, sent: seq<Script>, k: nat)
    requires k < |sent|
  {
    sent[k] == if k == 0 then Start else Follow(|Seen(env, sent, k)| + 1)
  }

  lemma {:induction false} SeenOfPrefix(env: nat -> Pass, sent: seq<Script>, more: seq<Script>, k: nat)
    requires k <= |sent| && sent <= more
    ensures Seen(env, sent, k) == Seen(env, more, k)
  {
    hide Emitted, Delivered;
    if k > 0 { SeenOfPrefix(env, sent, more, k - 1); }
  }

  lemma {:induction false} EmittedSnoc(lines: seq<string>, l: string)
    ensures Emitted(lines + [l]) == if Hidden(l) then Emitted(lines) else Emitted(lines) + [l]
  {
    if lines == [] {
      assert lines + [l] == [l];
    } else {
      EmittedSnoc(lines[1..], l);
      assert (lines + [l])[1..] == lines[1..] + [l];
    }
  }

  lemma {:induction false} TextsAppend(a: seq<Event>, b: seq<Event>)
    ensures Texts(a + b) == Texts(a) + Texts(b)
  {
    if a == [] {
      assert a + b == b;
    } else {
      TextsAppend(a[1..], b);
      assert (a + b)[1..] == a[1..] + b;
    }
  }

  /** The `switch` on what a pass printed. */
  function Verdict(out: string, log: string, attempt: nat): Option<Outcome> {
    var rc := FindMarker(out, RC_PREFIX);
    if rc.Some? then Some(Finished(Finish(out, log), rc.value))
    else if Contains(out, LOST) then Some(Interrupted(HostStopped, Count(log, SETUP), true))
    else if Contains(out, NOTFOUND) then Some(if attempt == 0 then CouldNotStart else Interrupted(LogGone, 0, false))
    else None
  }

  function PassError(p: Pass): Error { if p.err.Some? then p.err.value else NO_RESULT }

  /** From the end of pass `j` to the end of pass `k` no line came through. */
  ghost predicate Silent(env: nat -> Pass, sent: seq<Script>, j: nat, k: nat)
    requires j <= k < |sent|
  {
    Seen(env, sent, j + 1) == Seen(env, sent, k + 1)
  }

  /** The reconnect window is over in pass `k`: the link has been silent since a drop that is too long ago. */
  ghost predicate WindowOver(env: nat -> Pass, sent: seq<Script>, window: int, k: nat)
    requires k < |sent|
  {
    exists j: nat | j <= k :: Silent(env, sent, j, k) && env(k).tWindow - env(j).tDrop > window
  }

  /** The time for reattaching is used up in pass `k`. */
  ghost predicate TimeOver(env: nat -> Pass, sent: seq<Script>, start: int, limits: Limits, k: nat)
    requires k < |sent|
  {
    WindowOver(env, sent, limits.window, k) || env(k).tTotal - start > limits.maxDuration
  }

  /** Pass `k` ended with an error that reattaching does not help. In the first pass a line of the
      upgrade is enough to go on whatever the error. */
  predicate Hopeless(env: nat -> Pass, sent: seq<Script>, k: nat)
    requires k < |sent|
  {
    !Retryable(PassError(env(k))) && (k > 0 || Seen(env, sent, 1) == [])
  }

  /** Why a run that saw no verdict ends in its last pass, and with what. */
  ghost predicate EndsOpen(env: nat -> Pass, sent: seq<Script>, start: int, limits: Limits, o: Outcome)
    requires sent != []
  {
    var k := |sent| - 1;
    var seen, last := Seen(env, sent, |sent|), env(k);
    match o
    case Failed(e) => e == PassError(last) && Hopeless(env, sent, k) && (k == 0 || !last.cancelled)
    case Interrupted(CannotReattach(e), changed, started) =>
      && !Hopeless(env, sent, k) && !last.cancelled && TimeOver(env, sent, start, limits, k)
      && e == PassError(last) && changed == Count(Render(seen), SETUP) && (started <==> seen != [])
    case Cancelled =>
      if last.cancelled then k > 0 || !Hopeless(env, sent, k)
      else last.cancelledInPause && !Hopeless(env, sent, k) && !TimeOver(env, sent, start, limits, k)
    case _ => false
  }

  function VerdictAt(env: nat -> Pass, sent: seq<Script>, k: nat): Option<Outcome>
    requires k < |sent|
  {
    Verdict(Out(Got(env, sent, k)), Render(Seen(env, sent, k + 1)), k)
  }

  /** Pass `k` left the run open: no verdict, and no reason to give up. */
  ghost predicate GoesOn(env: nat -> Pass, sent: seq<Script>, start: int, limits: Limits, k: nat)
    requires k < |sent|
  {
    && VerdictAt(env, sent, k).None?
    && !Hopeless(env, sent, k) && !env(k).cancelled && !env(k).cancelledInPause
    && !TimeOver(env, sent, start, limits, k)
  }

  // ----- what the listener hears

  function LinesOf(texts: seq<string>): (r: seq<Event>)
    ensures |r| == |texts|
  {
    seq(|texts|, i requires 0 <= i < |texts| => Line(texts[i]))
  }

  /** Pass `k` is the first one of a silence: its drop is a new one. */
  predicate NewDrop(env: nat -> Pass, sent: seq<Script>, k: nat)
    requires k < |sent|
  {
    k == 0 || Emitted(Got(env, sent, k)) != []
  }

  /** What the first `k` passes tell the listener, all of which went on: the lines of each, and a note about
      each new drop. */
  function Heard(env: nat -> Pass, sent: seq<Script>, k: nat): seq<Event>
    requires k <= |sent|
  {
    if k == 0 then []
    else
      var before := Heard(env, sent, k - 1) + LinesOf(Emitted(Got(env, sent, k - 1)));
      if NewDrop(env, sent, k - 1) then before + [Note] else before
  }

  /** The same for a run, whose last pass has a note only if the run got as far as looking at its time. */
  function HeardInAll(env: nat -> Pass, sent: seq<Script>, noted: bool): seq<Event>
    requires sent != []
  {
    if noted then Heard(env, sent, |sent|)
    else Heard(env, sent, |sent| - 1) + LinesOf(Emitted(Got(env, sent, |sent| - 1)))
  }

  lemma {:induction false} TextsOfLines(texts: seq<string>)
    ensures Texts(LinesOf(texts)) == texts
  {
    if texts != [] {
      var n := |texts| - 1;
      TextsOfLines(texts[..n]);
      assert LinesOf(texts) == LinesOf(texts[..n]) + [Line(texts[n])];
      TextsOfLine(LinesOf(texts[..n]), texts[n]);
    }
  }

  /** The lines that are heard are the lines that were handed on. */
  lemma {:induction false} HeardIsSeen(env: nat -> Pass, sent: seq<Script>, k: nat)
    requires k <= |sent|
    ensures Texts(Heard(env, sent, k)) == Seen(env, sent, k)
  {
    hide Emitted, LinesOf, Texts, Delivered;
    if k > 0 {
      HeardIsSeen(env, sent, k - 1);
      var lines := Emitted(Got(env, sent, k - 1));
      TextsOfLines(lines);
      TextsAppend(Heard(env, sent, k - 1), LinesOf(lines));
      TextsOfNote(Heard(env, sent, k - 1) + LinesOf(lines));
    } else {
      assert Texts([]) == [] by { NoTexts(); }
    }
  }

  lemma NoTexts()
    ensures Texts([]) == []
  {
  }

  lemma TextsOfNote(events: seq<Event>)
    ensures Texts(events + [Note]) == Texts(events)
  {
    TextsAppend(events, [Note]);
    assert [Note][1..] == [] && Texts([Note]) == [];
  }

  lemma LogGrows(log0: string, lines: seq<string>, l: string)
    ensures log0 + Render(lines + [l]) == log0 + Render(lines) + l + "\n"
  {
    RenderAppend(lines, [l]);
    assert Render([l]) == l + "\n" + Render([l][1..]) == l + "\n";
  }

  lemma TextsOfLine(events: seq<Event>, l: string)
    ensures Texts(events + [Line(l)]) == Texts(events) + [l]
  {
    TextsAppend(events, [Line(l)]);
    assert [Line(l)][1..] == [] && Texts([]) == [];
    assert Texts([Line(l)]) == [l];
  }

  lemma LinesOfSnoc(texts: seq<string>, l: string)
    ensures LinesOf(texts + [l]) == LinesOf(texts) + [Line(l)]
  {
  }

  /** The `emit` callback, once for each line of a pass. */
  method EmitAll(lines: seq<string>, log0: string, seen0: nat, passed0: seq<Event>, listening: bool)
    returns (log: string, seen: nat, passed: seq<Event>)
    ensures log == log0 + Render(Emitted(lines))
    ensures seen == seen0 + |Emitted(lines)|
    ensures passed == if listening then passed0 + LinesOf(Emitted(lines)) else passed0
  {
    log, seen, passed := log0, seen0, passed0;
    assert Emitted(lines[..0]) == [] && Render([]) == "";
    hide Emitted, Render, Hidden;
    for i := 0 to |lines|
      invariant log == log0 + Render(Emitted(lines[..i]))
      invariant seen == seen0 + |Emitted(lines[..i])|
      invariant passed == if listening then passed0 + LinesOf(Emitted(lines[..i])) else passed0
    {
      EmittedSnoc(lines[..i], lines[i]);
      assert lines[..i + 1] == lines[..i] + [lines[i]];
      if !Hidden(lines[i]) {
        LogGrows(log0, Emitted(lines[..i]), lines[i]);
        seen := seen + 1;
        log := log + lines[i] + "\n";
        if listening {
          LinesOfSnoc(Emitted(lines[..i]), lines[i]);
          passed := passed + [Line(lines[i])];
        }
      }
    }
    assert lines[..|lines|] == lines;
  }

  /** The client's variables agree with the passes so far. */
  ghost predicate Tracks(env: nat -> Pass, sent: seq<Script>, seen: nat, log: string) {
    var texts := Seen(env, sent, |sent|);
    seen == |texts| && log == Render(texts)
  }

  /** The first `count` passes left the run open. */
  ghost predicate StillOpen(env: nat -> Pass, sent: seq<Script>, start: int, limits: Limits, count: nat)
    requires count <= |sent|
  {
    forall k: nat :: k < count ==> GoesOn(env, sent, start, limits, k)
  }

  ghost predicate Told(passed: seq<Event>, listening: bool, events: seq<Event>) {
    passed == if listening then events else []
  }

  /** A run that may go on: the right scripts, right variables, and every pass left it open. */
  ghost predicate OpenRun(env: nat -> Pass, sent: seq<Script>, start: int, limits: Limits,
                          seen: nat, log: string, passed: seq<Event>, listening: bool) {
    && (sent != [] ==> Transcript(env, sent)) && Tracks(env, sent, seen, log)
    && Told(passed, listening, Heard(env, sent, |sent|)) && StillOpen(env, sent, start, limits, |sent|)
  }

  /** The same right after a pass, whose output has not been looked at. */
  ghost predicate AfterPass(env: nat -> Pass, sent: seq<Script>, start: int, limits: Limits, seen: nat, log: string) {
    sent != [] && Transcript(env, sent) && Tracks(env, sent, seen, log) && StillOpen(env, sent, start, limits, |sent| - 1)
  }

  lemma RunBegins(env: nat -> Pass, start: int, limits: Limits, listening: bool)
    ensures OpenRun(env, [], start, limits, 0, "", [], listening)
  {
  }

  lemma {:induction false} RunGoesOn(env: nat -> Pass, sent: seq<Script>, start: int, limits: Limits, seen: nat, log: string,
                                     passed: seq<Event>, listening: bool)
    requires AfterPass(env, sent, start, limits, seen, log) && GoesOn(env, sent, start, limits, |sent| - 1)
    requires Told(passed, listening, HeardInAll(env, sent, true))
    ensures OpenRun(env, sent, start, limits, seen, log, passed, listening)
  {
    hide VerdictAt, Transcript, Tracks, Heard;
  }

  // ----- the recorded drop

  ghost predicate SilentSince(env: nat -> Pass, sent: seq<Script>, j: nat)
    requires j < |sent|
  {
    Silent(env, sent, j, |sent| - 1)
  }

  /** Pass `d` is the first one since which the link is silent. */
  ghost predicate FirstOfSilence(env: nat -> Pass, sent: seq<Script>, d: nat) {
    d < |sent| && SilentSince(env, sent, d) && forall j: nat | j < d :: !SilentSince(env, sent, j)
  }

  /** Between two passes the recorded drop is that of the first silent pass. */
  ghost predicate DropKnown(env: nat -> Pass, sent: seq<Script>, dropSince: Option<int>, d: nat) {
    if sent == [] then dropSince.None? else FirstOfSilence(env, sent, d) && dropSince == Some(env(d).tDrop)
  }

  /** Right after a pass no drop is recorded exactly when this pass begins a new one. */
  ghost predicate DropChecked(env: nat -> Pass, sent: seq<Script>, dropSince: Option<int>, d: nat)
    requires sent != []
  {
    if NewDrop(env, sent, |sent| - 1) then dropSince.None? else DropKnown(env, sent, dropSince, d)
  }

  lemma {:induction false} SeenGrows(env: nat -> Pass, sent: seq<Script>, j: nat, k: nat)
    requires j <= k <= |sent|
    ensures |Seen(env, sent, j)| <= |Seen(env, sent, k)|
  {
    hide Emitted, Delivered;
    if j < k { SeenGrows(env, sent, j, k - 1); }
  }

  lemma {:induction false} NewDropIsFirst(env: nat -> Pass, sent: seq<Script>)
    requires sent != [] && NewDrop(env, sent, |sent| - 1)
    ensures FirstOfSilence(env, sent, |sent| - 1)
  {
    hide Emitted, Delivered;
    var k := |sent| - 1;
    forall j: nat | j < k ensures !SilentSince(env, sent, j) { SeenGrows(env, sent, j + 1, k); }
  }

  lemma {:induction false} SilenceGoesOn(env: nat -> Pass, sent: seq<Script>, script: Script, d: nat)
    requires sent != [] && FirstOfSilence(env, sent, d) && Emitted(Delivered(env(|sent|), script)) == []
    ensures FirstOfSilence(env, sent + [script], d)
  {
    hide Emitted, Delivered;
    var more := sent + [script];
    SeenOfPrefixAll(env, sent, more);
    assert Seen(env, more, |more|) == Seen(env, sent, |sent|) by { LastPass(env, more); }
    hide Seen;
    assert forall j: nat | j < |sent| :: SilentSince(env, more, j) == SilentSince(env, sent, j);
  }

  /** `j` came before `k`. */
  lemma {:induction false} DropsInOrder(env: nat -> Pass, start: int, delay: int, j: nat, k: nat)
    requires delay > 0 && Clock(env, start, delay) && j <= k
    ensures env(j).tDrop <= env(k).tDrop
  {
    if j < k {
      DropsInOrder(env, start, delay, j, k - 1);
      assert TicksAt(env, delay, k - 1);
    }
  }

  /** The recorded drop decides whether the window is over. */
  lemma {:induction false} DropDecides(env: nat -> Pass, sent: seq<Script>, start: int, limits: Limits, d: nat)
    requires limits.delay > 0 && Clock(env, start, limits.delay) && FirstOfSilence(env, sent, d)
    ensures var k := |sent| - 1; WindowOver(env, sent, limits.window, k) <==> env(k).tWindow - env(d).tDrop > limits.window
  {
    hide Silent, Clock;
    var k := |sent| - 1;
    if j: nat :| j <= k && Silent(env, sent, j, k) && env(k).tWindow - env(j).tDrop > limits.window {
      assert SilentSince(env, sent, j);
      DropsInOrder(env, start, limits.delay, d, j);
    }
  }

  /** One follow session: run the script, hand on what it prints, look for a verdict. */
  method FollowOnce(env: nat -> Pass, ghost sent: seq<Script>, ghost start: int, ghost limits: Limits, script: Script,
                    attempt: nat, seen: nat, log: string, passed: seq<Event>, listening: bool,
                    dropSince: Option<int>, ghost dropPass: nat)
    returns (seen': nat, log': string, passed': seq<Event>, dropSince': Option<int>, verdict: Option<Outcome>)
    requires attempt == |sent| && OpenRun(env, sent, start, limits, seen, log, passed, listening)
    requires script == if sent == [] then Start else Follow(seen + 1)
    requires DropKnown(env, sent, dropSince, dropPass)
    ensures AfterPass(env, sent + [script], start, limits, seen', log')
    ensures Told(passed', listening, HeardInAll(env, sent + [script], false))
    ensures DropChecked(env, sent + [script], dropSince', dropPass)
    ensures verdict == VerdictAt(env, sent + [script], attempt)
  {
    hide Verdict, GoesOn, Emitted, Out, Render, Delivered, RightScript, FirstOfSilence;
    ExtendRun(env, sent, start, limits, script);
    var lines := Delivered(env(attempt), script);
    RenderAppend(Seen(env, sent, attempt), Emitted(lines));
    log', seen', passed' := EmitAll(lines, log, seen, passed, listening);
    HeardBefore(env, sent, script);
    if sent != [] && Emitted(lines) == [] { SilenceGoesOn(env, sent, script, dropPass); }
    // a delivered line ends the recorded drop; the next drop is timed from its own start
    dropSince' := if seen' > seen then None else dropSince;
    verdict := Verdict(Out(lines), log', attempt);
  }

  lemma {:induction false} HeardOfPrefix(env: nat -> Pass, sent: seq<Script>, more: seq<Script>, k: nat)
    requires k <= |sent| && sent <= more
    ensures Heard(env, sent, k) == Heard(env, more, k)
  {
    hide Emitted, Delivered, LinesOf;
    if k > 0 { HeardOfPrefix(env, sent, more, k - 1); }
  }

  lemma HeardBefore(env: nat -> Pass, sent: seq<Script>, script: Script)
    ensures HeardInAll(env, sent + [script], false)
         == Heard(env, sent, |sent|) + LinesOf(Emitted(Delivered(env(|sent|), script)))
  {
    hide Emitted, Delivered, LinesOf, Heard;
    HeardOfPrefix(env, sent, sent + [script], |sent|);
  }

  lemma HeardOnce(env: nat -> Pass, sent: seq<Script>)
    requires sent != []
    ensures HeardInAll(env, sent, true)
         == HeardInAll(env, sent, false) + if NewDrop(env, sent, |sent| - 1) then [Note] else []
  {
    hide Emitted, Delivered, LinesOf;
  }

  /** What the loop does after a pass without a verdict: give up, or record the drop and go on. */
  method Reconsider(env: nat -> Pass, ghost sent: seq<Script>, start: int, limits: Limits, attempt: nat, seen: nat,
                    log: string, passed: seq<Event>, listening: bool, dropSince: Option<int>, ghost dropPass: nat)
    returns (stop: Option<Outcome>, passed': seq<Event>, dropSince': Option<int>, ghost dropPass': nat)
    requires |sent| == attempt + 1 && AfterPass(env, sent, start, limits, seen, log)
    requires limits.delay > 0 && Clock(env, start, limits.delay)
    requires Told(passed, listening, HeardInAll(env, sent, false))
    requires DropChecked(env, sent, dropSince, dropPass)
    requires VerdictAt(env, sent, attempt).None?
    ensures stop.Some? ==> EndsOpen(env, sent, start, limits, stop.value)
    ensures stop.None? ==> GoesOn(env, sent, start, limits, attempt) && DropKnown(env, sent, dropSince', dropPass')
    ensures Told(passed', listening, HeardInAll(env, sent, stop.None? || LooksAtTime(env, stop.value, attempt)))
  {
    hide Transcript, StillOpen, Retryable, Render, Count, Seen, Silent, Clock, FirstOfSilence, NewDrop, WindowOver, HeardInAll, VerdictAt;
    var pass := env(attempt);
    var err := PassError(pass);
    stop, passed', dropSince', dropPass' := None, passed, dropSince, dropPass;
    SeenNothing(env, sent, attempt);
    if attempt == 0 && seen == 0 && !Retryable(err) {
      stop := Some(Failed(err));
    } else if pass.cancelled {
      stop := Some(Cancelled);
    } else if !Retryable(err) && attempt > 0 {
      stop := Some(Failed(err));
    } else {
      HeardOnce(env, sent);
      if dropSince.None? {
        NewDropIsFirst(env, sent);
        dropSince', dropPass' := Some(pass.tDrop), attempt;
        if listening {
          passed' := passed + [Note];
        }
      }
      DropDecides(env, sent, start, limits, dropPass');
      if pass.tWindow - dropSince'.value > limits.window || pass.tTotal - start > limits.maxDuration {
        stop := Some(Interrupted(CannotReattach(err), Count(log, SETUP), seen > 0));
      } else if pass.cancelledInPause {
        stop := Some(Cancelled);
      }
    }
  }

  lemma SeenNothing(env: nat -> Pass, sent: seq<Script>, k: nat)
    requires k < |sent|
    ensures k == 0 ==> |Seen(env, sent, k + 1)| == |Seen(env, sent, 1)|
  {
  }

  /** A run that ends so, without a verdict, has looked at its time in its last pass. */
  predicate LooksAtTime(env: nat -> Pass, o: Outcome, k: nat) {
    (o.Interrupted? && o.cause.CannotReattach?) || (o.Cancelled? && !env(k).cancelled)
  }

  /** `applyDetached`. `env(k)` is what the environment does in pass `k`; `sent` are the scripts the
      host was asked to run and `passed` is what `onLine` received. */
  method ApplyDetached(env: nat -> Pass, start: int, limits: Limits, listening: bool)
    returns (o: Outcome, passed: seq<Event>, sent: seq<Script>)
    requires limits.delay > 0 && limits.maxDuration >= 0
    requires Clock(env, start, limits.delay)
    // the upgrade is launched by the first script and by no other; the attempts are bounded
    ensures Transcript(env, sent)
    ensures |sent| <= limits.maxDuration / limits.delay + 2
    // what the listener hears: the lines handed on, and a note about each new drop
    ensures Texts(passed) == if listening then Seen(env, sent, |sent|) else []
    ensures Told(passed, listening, HeardInAll(env, sent, VerdictAt(env, sent, |sent| - 1).None? && LooksAtTime(env, o, |sent| - 1)))
    // no pass before the last one had a verdict or a reason to give up
    ensures StillOpen(env, sent, start, limits, |sent| - 1)
    ensures forall k: nat, j: nat :: k < |sent| - 1 && j <= k && Seen(env, sent, j + 1) == Seen(env, sent, k + 1) ==>
      env(k).tWindow - env(j).tDrop <= limits.window
    // the last one had
    ensures var verdict := VerdictAt(env, sent, |sent| - 1);
      if verdict.Some? then o == verdict.value else EndsOpen(env, sent, start, limits, o)
    ensures o.Failed? ==> !o.err.connectionLost
  {
    hide Transcript, StillOpen, Seen, Texts, Render, Verdict, VerdictAt, EndsOpen, OpenRun, DropKnown, Clock, HeardInAll,
         DropChecked, GoesOn, AfterPass;
    var logBuf, seen, attempt, script := "", 0, 0, Start;
    var dropSince: Option<int> := None;
    ghost var dropPass: nat := 0;
    passed, sent := [], [];
    RunBegins(env, start, limits, listening);
    NothingDropped(env);
    while true
      invariant attempt == |sent| && script == if sent == [] then Start else Follow(seen + 1)
      invariant OpenRun(env, sent, start, limits, seen, logBuf, passed, listening)
      invariant DropKnown(env, sent, dropSince, dropPass)
      invariant attempt <= limits.maxDuration / limits.delay + 1
      decreases limits.maxDuration / limits.delay + 2 - attempt
    {
      var verdict: Option<Outcome>, stop: Option<Outcome>;
      seen, logBuf, passed, dropSince, verdict :=
        FollowOnce(env, sent, start, limits, script, attempt, seen, logBuf, passed, listening, dropSince, dropPass);
      sent := sent + [script];
      if verdict.Some? {
        o := verdict.value;
        EndOfRun(env, sent, start, limits, seen, logBuf, passed, listening, false, o);
        return;
      }
      stop, passed, dropSince, dropPass :=
        Reconsider(env, sent, start, limits, attempt, seen, logBuf, passed, listening, dropSince, dropPass);
      if stop.Some? {
        o := stop.value;
        EndOfRun(env, sent, start, limits, seen, logBuf, passed, listening, LooksAtTime(env, o, attempt), o);
        return;
      }
      RunGoesOn(env, sent, start, limits, seen, logBuf, passed, listening);
      Elapsed(env, start, limits.delay, attempt);
      WithinTotal(env, sent, start, limits, attempt);
      AttemptBound(attempt, limits.delay, limits.maxDuration);
      script := Follow(seen + 1);
      attempt := attempt + 1;
    }
  }

  lemma WithinTotal(env: nat -> Pass, sent: seq<Script>, start: int, limits: Limits, k: nat)
    requires k < |sent| && GoesOn(env, sent, start, limits, k)
    ensures env(k).tTotal - start <= limits.maxDuration
  {
    hide VerdictAt, Hopeless, WindowOver;
  }

  /** What the contract of `ApplyDetached` says at the end of a run. */
  lemma {:induction false} EndOfRun(env: nat -> Pass, sent: seq<Script>, start: int, limits: Limits, seen: nat, log: string,
                                    passed: seq<Event>, listening: bool, noted: bool, o: Outcome)
    requires AfterPass(env, sent, start, limits, seen, log) && Told(passed, listening, HeardInAll(env, sent, noted))
    requires var verdict := VerdictAt(env, sent, |sent| - 1);
      if verdict.Some? then o == verdict.value else EndsOpen(env, sent, start, limits, o)
    ensures Transcript(env, sent) && StillOpen(env, sent, start, limits, |sent| - 1)
    ensures Texts(passed) == if listening then Seen(env, sent, |sent|) else []
    ensures forall k: nat, j: nat :: k < |sent| - 1 && j <= k && Seen(env, sent, j + 1) == Seen(env, sent, k + 1) ==>
      env(k).tWindow - env(j).tDrop <= limits.window
    ensures o.Failed? ==> !o.err.connectionLost
  {
    hide Seen, Heard, HeardInAll, Texts, Transcript, VerdictAt, EndsOpen, StillOpen, Tracks;
    HeardTexts(env, sent, noted);
    NoTexts();
    FailedIsNotLost(env, sent, start, limits, o);
    forall k: nat, j: nat | k < |sent| - 1 && j <= k && Seen(env, sent, j + 1) == Seen(env, sent, k + 1)
      ensures env(k).tWindow - env(j).tDrop <= limits.window
    {
      WindowKept(env, sent, start, limits, k, j);
    }
  }

  /** A lost connection is never why a run fails: after one the client reattaches. */
  lemma FailedIsNotLost(env: nat -> Pass, sent: seq<Script>, start: int, limits: Limits, o: Outcome)
    requires sent != []
    requires var verdict := VerdictAt(env, sent, |sent| - 1);
      if verdict.Some? then o == verdict.value else EndsOpen(env, sent, start, limits, o)
    ensures o.Failed? ==> !o.err.connectionLost
  {
    hide Seen, Count, Contains, FindMarker, Out, Finish, Delivered, Render, TimeOver;
  }

  lemma HeardTexts(env: nat -> Pass, sent: seq<Script>, noted: bool)
    requires sent != []
    ensures Texts(HeardInAll(env, sent, noted)) == Seen(env, sent, |sent|)
  {
    hide Emitted, Delivered, Texts, LinesOf, Heard;
    HeardIsSeen(env, sent, |sent|);
    HeardIsSeen(env, sent, |sent| - 1);
    var lines := Emitted(Got(env, sent, |sent| - 1));
    TextsOfLines(lines);
    TextsAppend(Heard(env, sent, |sent| - 1), LinesOf(lines));
  }

  /** A pass that went on was within the window of every drop since which the link was silent. */
  lemma WindowKept(env: nat -> Pass, sent: seq<Script>, start: int, limits: Limits, k: nat, j: nat)
    requires j <= k < |sent| - 1 && StillOpen(env, sent, start, limits, |sent| - 1)
    requires Seen(env, sent, j + 1) == Seen(env, sent, k + 1)
    ensures env(k).tWindow - env(j).tDrop <= limits.window
  {
    hide Seen, VerdictAt, Hopeless;
    assert GoesOn(env, sent, start, limits, k);
    assert Silent(env, sent, j, k);
  }

  lemma NothingDropped(env: nat -> Pass)
    ensures DropKnown(env, [], None, 0)
  {
  }

  /** One more script leaves what the earlier passes did as it was. */
  lemma {:induction false} ExtendRun(env: nat -> Pass, sent: seq<Script>, start: int, limits: Limits, script: Script)
    requires sent != [] ==> Transcript(env, sent)
    requires script == if sent == [] then Start else Follow(|Seen(env, sent, |sent|)| + 1)
    ensures var more := sent + [script];
      && Transcript(env, more)
      && Got(env, more, |sent|) == Delivered(env(|sent|), script)
      && Seen(env, more, |more|) == Seen(env, sent, |sent|) + Emitted(Delivered(env(|sent|), script))
      && (forall k: nat :: k <= |sent| ==> Seen(env, more, k) == Seen(env, sent, k))
      && (forall k: nat :: k < |sent| && GoesOn(env, sent, start, limits, k) ==> GoesOn(env, more, start, limits, k))
  {
    var more := sent + [script];
    SeenOfPrefixAll(env, sent, more);
    LastPass(env, more);
    hide Seen, Emitted, Delivered, GoesOn;
    forall k: nat | k < |more| ensures RightScript(env, more, k) {
      assert k < |sent| ==> RightScript(env, sent, k);
    }
    forall k: nat | k < |sent| && GoesOn(env, sent, start, limits, k) ensures GoesOn(env, more, start, limits, k) {
      GoesOnLater(env, sent, more, start, limits, k);
    }
  }

  lemma LastPass(env: nat -> Pass, sent: seq<Script>)
    requires sent != []
    ensures var n := |sent| - 1; Seen(env, sent, |sent|) == Seen(env, sent, n) + Emitted(Got(env, sent, n))
  {
    hide Emitted, Delivered;
  }

  lemma GoesOnLater(env: nat -> Pass, sent: seq<Script>, more: seq<Script>, start: int, limits: Limits, k: nat)
    requires sent <= more && k < |sent| && GoesOn(env, sent, start, limits, k)
    ensures GoesOn(env, more, start, limits, k)
  {
    SeenOfPrefixAll(env, sent, more);
    hide Seen, Delivered, Verdict, Retryable;
    assert more[k] == sent[k];
    assert forall j: nat | j <= k :: Silent(env, more, j, k) == Silent(env, sent, j, k);
  }

  lemma SeenOfPrefixAll(env: nat -> Pass, sent: seq<Script>, more: seq<Script>)
    requires sent <= more
    ensures forall k: nat :: k <= |sent| ==> Seen(env, sent, k) == Seen(env, more, k)
  {
    forall k: nat | k <= |sent| ensures Seen(env, sent, k) == Seen(env, more, k) {
      SeenOfPrefix(env, sent, more, k);
    }
  }

  /** `k` pauses have gone by before pass `k` looks at the clock. */
  lemma {:induction false} Elapsed(env: nat -> Pass, start: int, delay: int, k: nat)
    requires delay > 0 && Clock(env, start, delay)
    ensures k * delay <= env(k).tDrop - start && env(k).tDrop <= env(k).tTotal
  {
    assert TicksAt(env, delay, k);
    if k > 0 {
      Elapsed(env, start, delay, k - 1);
      assert TicksAt(env, delay, k - 1);
      assert k * delay == (k - 1) * delay + delay;
    }
  }

  lemma PositiveFactor(a: int, d: int)
    requires d > 0 && a * d > 0
    ensures a > 0
  {
  }

  lemma AttemptBound(k: nat, delay: int, max: int)
    requires delay > 0 && k * delay <= max
    ensures k <= max / delay
  {
    var q := max / delay;
    assert max == q * delay + max % delay;
    assert (q + 1 - k) * delay == q * delay + delay - k * delay;
    PositiveFactor(q + 1 - k, delay);
  }

  /** The errors after which the client reattaches: a lost connection, and the texts of a link that broke or
      cannot be made again. */
  lemma RetryableMeans(e: Error)
    ensures Retryable(e) <==>
      || e.connectionLost
      || Contains(e.text, "timed out") || Contains(e.text, "Connection refused") || Contains(e.text, "unreachable")
      || Contains(e.text, "Host not found") || Contains(e.text, "SSH session error")
      || Contains(e.text, "SSH handshake failed") || Contains(e.text, "Connection reset") || Contains(e.text, "SSH error: EOF")
  {
    hide Contains;
    var r := RETRYABLE;
    assert |r| == 8;
    assert r[0] == "timed out" && r[1] == "Connection refused" && r[2] == "unreachable" && r[3] == "Host not found"
      && r[4] == "SSH session error" && r[5] == "SSH handshake failed" && r[6] == "Connection reset" && r[7] == "SSH error: EOF";
    assert forall i :: 0 <= i < 8 ==> (Contains(e.text, r[i]) ==> Retryable(e));
  }
}
