/** What a run of the detached upgrade tells about the host: exactly-once delivery of its log, and
    when the verdict, the exit status, the count and the reboot flag are the host's own. */
module ApplyTruth {
  import opened Strings
  import opened Lines
  import opened Apply

  /** A log line that none of the client's patterns can take for one of the scripts' own markers. */
  ghost predicate CleanLine(l: string) {
    !("__PD_" <= TrimLeft(l)) && l != REBOOT && Free(l, '\n')
  }

  ghost predicate CleanLog(log: seq<string>) {
    forall i :: 0 <= i < |log| ==> CleanLine(log[i])
  }

  ghost predicate CleanAt(env: nat -> Pass, k: nat) { CleanLog(env(k).host.Log()) }

  ghost predicate CleanHost(env: nat -> Pass) {
    forall k: nat :: CleanAt(env, k)
  }

  /** The host's log when it was last there. */
  function LatestLog(env: nat -> Pass, k: nat): seq<string> {
    if env(k).host.HasLog() || k == 0 then env(k).host.Log() else LatestLog(env, k - 1)
  }

  lemma LatestLogIs(env: nat -> Pass, k: nat)
    ensures env(k).host.HasLog() ==> LatestLog(env, k) == env(k).host.Log()
    ensures !env(k).host.HasLog() ==> env(k).host.Log() == []
  {
  }

  lemma LatestLogGrows(env: nat -> Pass, k: nat)
    requires HostEvolves(env)
    ensures LatestLog(env, k) <= LatestLog(env, k + 1)
  {
    assert EvolvesAt(env, k);
    NoLogYet(env, k);
  }

  /** A host that has not launched has shown no log so far. */
  lemma {:induction false} NoLogYet(env: nat -> Pass, k: nat)
    requires HostEvolves(env)
    ensures env(k).host.NotStarted? ==> LatestLog(env, k) == []
  {
    if k > 0 {
      assert EvolvesAt(env, k - 1);
      NoLogYet(env, k - 1);
    }
  }

  lemma EmittedCons(x: string, rest: seq<string>)
    ensures Emitted([x] + rest) == if Hidden(x) then Emitted(rest) else [x] + Emitted(rest)
  {
    hide Hidden;
    assert ([x] + rest)[1..] == rest;
  }

  lemma {:induction false} EmittedAppend(a: seq<string>, b: seq<string>)
    ensures Emitted(a + b) == Emitted(a) + Emitted(b)
  {
    hide Hidden;
    if a == [] {
      assert a + b == b && [] + Emitted(b) == Emitted(b);
    } else {
      var t := a[1..];
      EmittedAppend(t, b);
      hide Emitted;
      assert a == [a[0]] + t && a + b == [a[0]] + (t + b);
      EmittedCons(a[0], t);
      EmittedCons(a[0], t + b);
      assert ([a[0]] + Emitted(t)) + Emitted(b) == [a[0]] + (Emitted(t) + Emitted(b));
    }
  }

  /** `emit` hands on every line of a log exactly when no line of it is hidden. */
  lemma {:induction false} EmittedWhole(log: seq<string>)
    ensures |Emitted(log)| <= |log|
    ensures Emitted(log) == log <==> forall i :: 0 <= i < |log| ==> !Hidden(log[i])
  {
    if log != [] {
      EmittedWhole(log[1..]);
      if Hidden(log[0]) {
        assert |Emitted(log)| < |log|;
      } else {
        assert Emitted(log)[1..] == Emitted(log[1..]);
        assert log == [log[0]] + log[1..];
        assert forall i :: 0 < i < |log| ==> log[i] == log[1..][i - 1];
        assert forall i :: 0 <= i < |log[1..]| ==> log[1..][i] == log[i + 1];
      }
    }
  }

  lemma {:induction false} EmittedNone(lines: seq<string>)
    requires forall i :: 0 <= i < |lines| ==> Hidden(lines[i])
    ensures Emitted(lines) == []
  {
    if lines != [] { EmittedNone(lines[1..]); }
  }

  lemma NoLeadingSpace(l: string)
    requires l != "" && !IsSpace(l[0])
    ensures TrimLeft(l) == l
  {
  }

  lemma MarkedIsTrimmed(l: string)
    ensures "__PD_" <= l ==> TrimLeft(l) == l
  {
    if "__PD_" <= l {
      assert l[0] == "__PD_"[0];
      NoLeadingSpace(l);
    }
  }

  lemma CleanIsShown(l: string)
    requires CleanLine(l)
    ensures !Hidden(l)
  {
    MarkedIsTrimmed(l);
  }

  /** The lines a script prints after the log. */
  function Tail(p: Pass): seq<string> {
    match p.host
    case NotStarted => [NOTFOUND]
    case Gone => [NOTFOUND]
    case Running(_) => if p.late.Some? then [LOST] else []
    case Done(log, rc) => [RC_PREFIX + DigitsOf(rc), COUNT_PREFIX + DigitsOf(SetupLines(log))] + if p.reboot then [REBOOT] else []
    case Killed(_) => [LOST]
  }

  /** A pass delivers part of the log that was read and nothing more, or all of it and part of the tail. */
  lemma DeliveredShape(p: Pass, script: Script)
    ensures var part := Suffix(p.Read(), script.From()); var got := Delivered(p, script);
      && (|got| <= |part| ==> got == part[..|got|])
      && (|got| > |part| ==> |got| - |part| <= |Tail(p)| && got == part + Tail(p)[..|got| - |part|])
  {
    hide Stdout, Tail, Suffix;
    StdoutShape(p, script.From());
    Taken(Suffix(p.Read(), script.From()), Tail(p), p.cut);
  }

  lemma StdoutShape(p: Pass, from: nat)
    ensures Stdout(p, from) == Suffix(p.Read(), from) + Tail(p)
  {
    hide Suffix, DigitsOf, SetupLines;
    match p.host {
      case NotStarted | Gone =>
        assert Suffix([], from) == [] by { EmptySuffix(from); }
        assert p.Read() == [];
      case Done(log, rc) =>
        assert Suffix(p.Read(), from) + Tail(p) == Stdout(p, from);
      case _ =>
    }
  }

  lemma EmptySuffix(from: nat)
    ensures Suffix([], from) == []
  {
  }

  lemma Taken(part: seq<string>, tail: seq<string>, cut: nat)
    ensures var all := part + tail; var got := if cut <= |all| then all[..cut] else all;
      && (|got| <= |part| ==> got == part[..|got|])
      && (|got| > |part| ==> |got| - |part| <= |tail| && got == part + tail[..|got| - |part|])
  {
  }

  lemma TailIsHidden(p: Pass)
    ensures forall i :: 0 <= i < |Tail(p)| ==> Hidden(Tail(p)[i])
  {
  }

  lemma ReadIsPrefix(p: Pass)
    ensures p.Read() <= p.host.Log()
  {
  }

  /** Whatever the drops, a pass hands on the next part of the log, and when it prints anything
      after the log, all that was left of what it read. */
  lemma PassHandsOn(p: Pass, script: Script)
    requires CleanLog(p.host.Log())
    ensures var part := Suffix(p.Read(), script.From()); var got := Delivered(p, script);
      Emitted(got) == if |got| <= |part| then part[..|got|] else part
  {
    var part := Suffix(p.Read(), script.From());
    var got := Delivered(p, script);
    ReadIsPrefix(p);
    forall i | 0 <= i < |part| ensures !Hidden(part[i]) { CleanIsShown(part[i]); }
    hide Delivered, Stdout, Tail, Suffix, Emitted, Hidden, CleanLine, Pass.Read;
    DeliveredShape(p, script);
    if |got| <= |part| {
      assert forall i :: 0 <= i < |got| ==> got[i] == part[i];
      EmittedWhole(got);
    } else {
      var rest := Tail(p)[..|got| - |part|];
      TailIsHidden(p);
      assert forall i :: 0 <= i < |rest| ==> rest[i] == Tail(p)[i];
      EmittedWhole(part);
      EmittedNone(rest);
      EmittedAppend(part, rest);
      assert part + [] == part;
    }
  }

  /** A prefix of a log, and the next part of what was read of the log. */
  lemma NextPart(seen: seq<string>, read: seq<string>, log: seq<string>, n: nat)
    requires seen <= log && read <= log
    ensures var part := Suffix(read, |seen| + 1);
      && seen + part == (if |seen| <= |read| then read else seen)
      && (n <= |part| ==> seen + part[..n] <= log) && seen + part <= log
  {
    var part := Suffix(read, |seen| + 1);
    if |seen| <= |read| {
      assert seen == read[..|seen|];
      assert seen + part == read;
    }
  }

  /** What pass `k` adds to a prefix of the host's log is still a prefix of it. */
  lemma {:induction false} PassKeepsPrefix(env: nat -> Pass, sent: seq<Script>, k: nat)
    requires k < |sent| && RightScript(env, sent, k) && CleanLog(env(k).host.Log())
    requires Seen(env, sent, k) <= LatestLog(env, k)
    ensures Seen(env, sent, k + 1) <= LatestLog(env, k)
    ensures env(k).host.HasLog() ==> Seen(env, sent, k) + Suffix(env(k).Read(), sent[k].From()) == Reached(env, sent, k)
  {
    hide Emitted, Delivered, CleanLog, Suffix, Pass.Read;
    var seen := Seen(env, sent, k);
    var got := Got(env, sent, k);
    LatestLogIs(env, k);
    PassHandsOn(env(k), sent[k]);
    ReadIsPrefix(env(k));
    if env(k).host.HasLog() {
      NextPart(seen, env(k).Read(), env(k).host.Log(), |got|);
    } else {
      EmptySuffix(sent[k].From());
      assert Emitted(got) == [];
    }
  }

  /** How far the log is handed on when all that pass `k` reads gets through. */
  function Reached(env: nat -> Pass, sent: seq<Script>, k: nat): seq<string>
    requires k < |sent|
  {
    if |Seen(env, sent, k)| <= |env(k).Read()| then env(k).Read() else Seen(env, sent, k)
  }

  /** Exactly once, in order: after any pass of any run, what was handed on is a prefix of the
      host's log. */
  lemma {:induction false} PrefixOfLog(env: nat -> Pass, sent: seq<Script>, k: nat)
    requires Transcript(env, sent) && HostEvolves(env) && CleanHost(env) && k < |sent|
    ensures Seen(env, sent, k) <= LatestLog(env, k)
    ensures Seen(env, sent, k + 1) <= LatestLog(env, k)
    ensures env(k).host.HasLog() ==> Seen(env, sent, k) + Suffix(env(k).Read(), sent[k].From()) == Reached(env, sent, k)
  {
    hide RightScript, CleanLog, LatestLog, Suffix, Reached;
    if k > 0 {
      PrefixOfLog(env, sent, k - 1);
      LatestLogGrows(env, k - 1);
    }
    assert CleanAt(env, k) && RightScript(env, sent, k);
    PassKeepsPrefix(env, sent, k);
  }

  /** The upgrade is launched by the first script of a run and by no other. */
  lemma {:induction false} LaunchedOnce(env: nat -> Pass, sent: seq<Script>)
    requires Transcript(env, sent)
    ensures forall k :: 0 <= k < |sent| ==> (sent[k].Start? <==> k == 0)
  {
    forall k: nat | k < |sent| ensures sent[k].Start? <==> k == 0 {
      assert RightScript(env, sent, k);
    }
  }

  // ----- the markers

  lemma {:induction false} DigitsLead(d: string)
    requires AllDigits(d)
    ensures LeadingDigits(d) == d
  {
    if d != "" {
      assert forall i :: 0 <= i < |d[1..]| ==> d[1..][i] == d[i + 1];
      DigitsLead(d[1..]);
    }
  }

  /** The line `echo` prints for a marker is read back as its number. */
  lemma MarkerOfLine(prefix: string, n: nat)
    requires n <= MaxInt
    ensures Marker(prefix + DigitsOf(n), prefix) == Some(n)
  {
    var line := prefix + DigitsOf(n);
    assert line[|prefix|..] == DigitsOf(n);
    DigitsLead(DigitsOf(n));
    ValueOfDigits(n);
  }

  lemma {:induction false} FirstMarkerAmong(lines: seq<string>, prefix: string, marker: string)
    requires forall l :: l in lines && Marker(l, prefix).Some? ==> l == marker
    ensures FirstMarker(lines, prefix) == if marker in lines then Marker(marker, prefix) else None
  {
    if lines != [] {
      FirstMarkerAmong(lines[1..], prefix, marker);
    }
  }

  lemma NoSpaceAtEnds(prefix: string, n: nat)
    requires prefix != "" && !IsSpace(prefix[0])
    ensures var l := prefix + DigitsOf(n); TrimLeft(l) == TrimRight(l) == TrimSpace(l) == l
  {
    var l := prefix + DigitsOf(n);
    assert l[|l| - 1] == DigitsOf(n)[|DigitsOf(n)| - 1];
  }

  /** A trimmed form that starts with a marker's prefix comes from a line that does. */
  lemma TrimmedFormStarts(form: string, line: string, prefix: string)
    requires TrimmedForm(form, line) && prefix != "" && !IsSpace(prefix[0]) && prefix <= form
    ensures prefix <= TrimLeft(line)
  {
    TrimRightIsPrefix(line);
    TrimRightIsPrefix(TrimLeft(line));
    assert form[0] == prefix[0];
    if form == line || form == TrimRight(line) {
      assert line[0] == prefix[0];
      NoLeadingSpace(line);
    }
  }

  /** When only the script's own line can match, the search over the trimmed output finds its
      number exactly when that line was delivered. */
  lemma MarkerFound(lines: seq<string>, prefix: string, n: nat)
    requires NewlineFree(lines) && n <= MaxInt
    requires prefix != "" && !IsSpace(prefix[0]) && Free(prefix, '\n')
    requires forall l :: l in lines && prefix <= TrimLeft(l) ==> l == prefix + DigitsOf(n)
    ensures FindMarker(Out(lines), prefix) == if prefix + DigitsOf(n) in lines then Some(n) else None
  {
    hide Marker, DigitsOf, TrimSpace, TrimLeft, TrimRight, Split, Render, Join, TrimLines;
    var marker := prefix + DigitsOf(n);
    var all := lines + [""];
    RenderIsJoin(lines);
    SplitTrimmed(all);
    TrimLinesKeeps(all);
    NoSpaceAtEnds(prefix, n);
    EmptyHasNoPrefix(prefix);
    forall l | l in TrimLines(all) && Marker(l, prefix).Some? ensures l == marker && marker in lines {
      var i :| 0 <= i < |all| && TrimmedForm(l, all[i]);
      MarkerNeedsPrefix(l, prefix);
      TrimmedFormStarts(l, all[i], prefix);
      assert all[i] in lines;
    }
    FirstMarkerAmong(TrimLines(all), prefix, marker);
    MarkerOfLine(prefix, n);
    assert marker in lines ==> marker in all;
    assert marker in TrimLines(all) ==> Marker(marker, prefix).Some?;
  }

  lemma MarkerNeedsPrefix(l: string, prefix: string)
    requires Marker(l, prefix).Some?
    ensures prefix <= l
  {
  }

  lemma EmptyHasNoPrefix(prefix: string)
    requires prefix != ""
    ensures !(prefix <= TrimLeft(""))
  {
  }

  function RcLine(rc: ExitStatus): string { RC_PREFIX + DigitsOf(rc) }

  function CountLine(log: seq<string>): string { COUNT_PREFIX + DigitsOf(SetupLines(log)) }

  lemma PrefixesDiffer(l: string)
    requires RC_PREFIX <= l || COUNT_PREFIX <= l || l in {REBOOT, LOST, NOTFOUND}
    ensures TrimLeft(l) == l
    ensures RC_PREFIX <= l ==> !(COUNT_PREFIX <= l)
    ensures l in {REBOOT, LOST, NOTFOUND} ==> !(RC_PREFIX <= l) && !(COUNT_PREFIX <= l)
  {
    assert RC_PREFIX[5] == 'A' && COUNT_PREFIX[5] == 'S' && RC_PREFIX[11] == 'R' && REBOOT[2] == 'R' && COUNT_PREFIX[2] == 'P';
    assert LOST[11] == 'L' && NOTFOUND[11] == 'N' && LOST[5] == 'A' && NOTFOUND[5] == 'A' && RC_PREFIX[2] == 'P';
  }

  /** The script prints the marker: the upgrade stopped, or it goes on without its process id. */
  predicate SaysLost(p: Pass) { p.host.Killed? || (p.host.Running? && p.late.Some?) }

  lemma TailLine(p: Pass, l: string)
    requires l in Tail(p)
    ensures l in {REBOOT, LOST, NOTFOUND} || (p.host.Done? && (l == RcLine(p.host.rc) || l == CountLine(p.host.log)))
    ensures l == REBOOT ==> p.reboot
    ensures l == LOST ==> SaysLost(p)
    ensures l == NOTFOUND ==> p.host.NotStarted? || p.host.Gone?
  {
    if p.host.Done? {
      var t := [RcLine(p.host.rc), CountLine(p.host.log)];
      assert Tail(p) == t + if p.reboot then [REBOOT] else [];
      assert l in t ==> l == t[0] || l == t[1];
      PrefixesDiffer(RcLine(p.host.rc));
      PrefixesDiffer(CountLine(p.host.log));
    }
  }

  /** A delivered line is one of the log or one of the tail. */
  lemma GotLine(p: Pass, script: Script, l: string)
    requires l in Delivered(p, script)
    ensures l in p.host.Log() || l in Tail(p)
  {
    hide Delivered, Tail, Suffix;
    var got := Delivered(p, script);
    var i: nat :| i < |got| && got[i] == l;
    var part := Suffix(p.Read(), script.From());
    LineAt(p, script, i);
    if i < |part| {
      assert l in part;
      SuffixIsIn(p.Read(), script.From(), l);
      ReadIsPrefix(p);
    } else {
      assert Tail(p)[i - |part|] == l;
    }
  }

  lemma LineAt(p: Pass, script: Script, i: nat)
    requires i < |Delivered(p, script)|
    ensures var part := Suffix(p.Read(), script.From());
      if i < |part| then Delivered(p, script)[i] == part[i]
      else i - |part| < |Tail(p)| && Delivered(p, script)[i] == Tail(p)[i - |part|]
  {
    hide Delivered, Tail, Suffix;
    DeliveredShape(p, script);
  }

  lemma SuffixIsIn(log: seq<string>, from: nat, l: string)
    requires l in Suffix(log, from)
    ensures l in log
  {
  }

  lemma NoNewlineInDigits(prefix: string, n: nat)
    requires Free(prefix, '\n')
    ensures Free(prefix + DigitsOf(n), '\n')
  {
    var d := DigitsOf(n);
    forall i | 0 <= i < |prefix + d| ensures (prefix + d)[i] != '\n' {
      if i >= |prefix| { assert IsDigit(d[i - |prefix|]); }
    }
  }

  lemma GotNewlineFree(p: Pass, script: Script)
    requires CleanLog(p.host.Log())
    ensures NewlineFree(Delivered(p, script))
  {
    hide Delivered, Tail;
    var got := Delivered(p, script);
    forall i | 0 <= i < |got| ensures Free(got[i], '\n') {
      GotLine(p, script, got[i]);
      if got[i] in Tail(p) {
        TailLine(p, got[i]);
        if p.host.Done? {
          NoNewlineInDigits(RC_PREFIX, p.host.rc);
          NoNewlineInDigits(COUNT_PREFIX, SetupLines(p.host.log));
        }
      }
    }
  }

  lemma CleanHasNoPrefix(l: string, prefix: string)
    requires CleanLine(l) && "__PD_" <= prefix
    ensures !(prefix <= TrimLeft(l))
  {
    ShorterPrefix("__PD_", prefix, TrimLeft(l));
  }

  lemma ShorterPrefix(p: string, q: string, s: string)
    requires p <= q
    ensures q <= s ==> p <= s
  {
    if q <= s {
      assert s[..|p|] == q[..|p|];
    }
  }

  /** The exit status is found exactly when the host is done and its line got through, and it is
      the host's. */
  lemma {:induction false} ExitStatusFound(p: Pass, script: Script)
    requires CleanLog(p.host.Log())
    ensures FindMarker(Out(Delivered(p, script)), RC_PREFIX)
         == if p.host.Done? && RcLine(p.host.rc) in Delivered(p, script) then Some(p.host.rc) else None
  {
    hide Delivered, Tail, FindMarker, Out, DigitsOf;
    var got := Delivered(p, script);
    var n := if p.host.Done? then p.host.rc else 0;
    GotNewlineFree(p, script);
    forall l | l in got && RC_PREFIX <= TrimLeft(l) ensures p.host.Done? && l == RC_PREFIX + DigitsOf(n) {
      GotLine(p, script, l);
      if l in p.host.Log() {
        CleanHasNoPrefix(l, RC_PREFIX);
      } else {
        TailLine(p, l);
        PrefixesDiffer(l);
      }
    }
    MarkerFound(got, RC_PREFIX, n);
    assert RC_PREFIX[0] == '_' && Free(RC_PREFIX, '\n');
    NoSpaceAtEnds(RC_PREFIX, n);
    assert RC_PREFIX <= RC_PREFIX + DigitsOf(n);
  }

  /** The same for the number of packages, which counts the whole log. */
  lemma {:induction false} CountFound(p: Pass, script: Script)
    requires CleanLog(p.host.Log()) && p.host.Done? && |p.host.log| <= MaxInt
    ensures FindMarker(Out(Delivered(p, script)), COUNT_PREFIX)
         == if CountLine(p.host.log) in Delivered(p, script) then Some(SetupLines(p.host.log)) else None
  {
    hide Delivered, Tail, FindMarker, Out, DigitsOf;
    var got := Delivered(p, script);
    var n := SetupLines(p.host.log);
    SetupLinesBound(p.host.log);
    GotNewlineFree(p, script);
    forall l | l in got && COUNT_PREFIX <= TrimLeft(l) ensures l == COUNT_PREFIX + DigitsOf(n) {
      GotLine(p, script, l);
      if l in p.host.Log() {
        CleanHasNoPrefix(l, COUNT_PREFIX);
      } else {
        TailLine(p, l);
        PrefixesDiffer(l);
      }
    }
    assert COUNT_PREFIX[0] == '_' && Free(COUNT_PREFIX, '\n');
    MarkerFound(got, COUNT_PREFIX, n);
  }

  lemma {:induction false} SetupLinesBound(log: seq<string>)
    ensures SetupLines(log) <= |log|
  {
    if log != [] { SetupLinesBound(log[1..]); }
  }

  /** The words occur in a line only where `grep '^Setting up '` looks for them. */
  ghost predicate WordsOnlyAtStart(l: string) {
    Count(l, SETUP) == if SETUP <= l then 1 else 0
  }

  /** The fallback count over the collected text is the host's count exactly when no line of the
      log holds the words anywhere but once at its start. */
  lemma {:induction false} FallbackCount(log: seq<string>)
    requires CleanLog(log)
    ensures Count(Render(log), SETUP) >= SetupLines(log)
    ensures Count(Render(log), SETUP) == SetupLines(log) <==> forall i :: 0 <= i < |log| ==> WordsOnlyAtStart(log[i])
  {
    if log != [] {
      var rest := log[1..];
      assert forall i :: 0 <= i < |rest| ==> rest[i] == log[i + 1];
      FallbackCount(rest);
      assert CleanLine(log[0]);
      CountAcrossNewline(log[0], Render(rest), SETUP);
      assert Count(Render(log), SETUP) == Count(log[0], SETUP) + Count(Render(rest), SETUP);
      assert Count(log[0], SETUP) >= if SETUP <= log[0] then 1 else 0;
      assert forall i :: 0 < i < |log| ==> log[i] == rest[i - 1];
    }
  }

  lemma {:induction false} ContainsNeeds(s: string, sub: string, c: char)
    requires c in sub && Contains(s, sub)
    ensures c in s
  {
    if sub <= s {
      var i :| 0 <= i < |sub| && sub[i] == c;
      assert s[i] == c;
    } else {
      ContainsNeeds(s[1..], sub, c);
    }
  }

  lemma NotInMarker(prefix: string, n: nat, sub: string, c: char)
    requires c in sub && c !in prefix && !IsDigit(c)
    ensures !Contains(prefix + DigitsOf(n), sub)
  {
    if Contains(prefix + DigitsOf(n), sub) {
      ContainsNeeds(prefix + DigitsOf(n), sub, c);
    }
  }

  lemma NumbersHoldNoWord(p: Pass, word: string)
    requires p.host.Done? && word in {REBOOT, LOST, NOTFOUND}
    ensures !Contains(RcLine(p.host.rc), word) && !Contains(CountLine(p.host.log), word)
  {
    hide DigitsOf, Contains, SetupLines;
    if word == REBOOT {
      assert word[4] == 'B';
      NotInMarker(RC_PREFIX, p.host.rc, word, 'B');
      NotInMarker(COUNT_PREFIX, SetupLines(p.host.log), word, 'B');
    } else if word == LOST {
      assert word[13] == 'S' && word[5] == 'A';
      NotInMarker(RC_PREFIX, p.host.rc, word, 'S');
      NotInMarker(COUNT_PREFIX, SetupLines(p.host.log), word, 'A');
    } else {
      assert word[14] == 'F';
      NotInMarker(RC_PREFIX, p.host.rc, word, 'F');
      NotInMarker(COUNT_PREFIX, SetupLines(p.host.log), word, 'F');
    }
  }

  lemma ContainsItself(s: string)
    ensures Contains(s, s)
  {
  }

  lemma {:induction false} WordsDiffer(l: string, word: string)
    requires l in {REBOOT, LOST, NOTFOUND} && word in {REBOOT, LOST, NOTFOUND}
    ensures Contains(l, word) <==> l == word
  {
    ContainsItself(l);
    hide Contains;
    assert REBOOT[4] == 'B' && LOST[13] == 'S' && NOTFOUND[14] == 'F';
    if l != word && Contains(l, word) {
      ContainsNeeds(l, word, if word == REBOOT then 'B' else if word == LOST then 'S' else 'F');
    }
  }

  lemma {:induction false} TailContains(p: Pass, l: string, word: string)
    requires l in Tail(p) && word in {REBOOT, LOST, NOTFOUND}
    ensures Contains(l, word) <==> l == word
  {
    hide Tail, Contains, RcLine, CountLine;
    TailLine(p, l);
    if l in {REBOOT, LOST, NOTFOUND} {
      WordsDiffer(l, word);
    } else {
      NumbersHoldNoWord(p, word);
      ContainsItself(l);
    }
  }

  /** Where a word that the client searches for can come from. */
  ghost predicate InLogLine(p: Pass, script: Script, word: string) {
    exists l :: l in Delivered(p, script) && l in p.host.Log() && Contains(l, word)
  }

  /** The search for a word in the trimmed output finds the script's own line, or a log line that
      holds the word. */
  lemma {:induction false} WordFound(p: Pass, script: Script, word: string)
    requires CleanLog(p.host.Log()) && word in {REBOOT, LOST, NOTFOUND}
    ensures Contains(Out(Delivered(p, script)), word)
       <==> (word in Tail(p) && word in Delivered(p, script)) || InLogLine(p, script, word)
  {
    hide Delivered, Tail, Contains;
    var got := Delivered(p, script);
    GotNewlineFree(p, script);
    assert word[0] == word[|word| - 1] == '_';
    ContainsTrimmedRender(got, word);
    ContainsItself(word);
    forall l | l in got ensures l in p.host.Log() || l in Tail(p)
      ensures l in Tail(p) ==> (Contains(l, word) <==> l == word)
    {
      GotLine(p, script, l);
      if l in Tail(p) { TailContains(p, l, word); }
    }
    if i :| 0 <= i < |got| && Contains(got[i], word) {
      assert got[i] in got;
    }
    if word in got {
      var i :| 0 <= i < |got| && got[i] == word;
      assert Contains(got[i], word);
    }
    if InLogLine(p, script, word) {
      var l :| l in got && l in p.host.Log() && Contains(l, word);
      var i :| 0 <= i < |got| && got[i] == l;
      assert Contains(got[i], word);
    }
  }

  /** The result that a pass ended the run with, against the host's state: `before` and `seen` are what
      was handed on before the pass and after it. The exit status is the host's. What was handed on is the
      log as far as it was read. The number of packages is the host's when its line got through; without
      the line, and with the whole log, when the words occur only where the host counts them. The reboot
      flag is the host's, or a log line holds its text. */
  ghost predicate HostsOwn(p: Pass, script: Script, before: seq<string>, seen: seq<string>, res: ApplyResult, exit: nat) {
    var got := Delivered(p, script);
    && p.host.Done? && exit == p.host.rc
    && seen <= p.host.log && res.raw == Render(seen)
    && (seen == p.host.log <==> p.Read() == p.host.log || before == p.host.log)
    && (CountLine(p.host.log) in got ==> res.changed == SetupLines(p.host.log))
    && (seen == p.host.log ==> (res.changed == SetupLines(p.host.log) <==>
         CountLine(p.host.log) in got || forall i :: 0 <= i < |p.host.log| ==> WordsOnlyAtStart(p.host.log[i])))
    && (res.needsReboot <==> (p.reboot && REBOOT in got) || InLogLine(p, script, REBOOT))
  }

  /** Whatever the drops, every part of a finished run's result is the host's own, as far as named there. */
  lemma {:induction false} FinishedIsTrue(env: nat -> Pass, sent: seq<Script>, res: ApplyResult, exit: nat)
    requires Transcript(env, sent) && HostEvolves(env) && CleanHost(env)
    requires VerdictAt(env, sent, |sent| - 1) == Some(Finished(res, exit))
    requires |env(|sent| - 1).host.Log()| <= MaxInt
    ensures var k := |sent| - 1;
      HostsOwn(env(k), sent[k], Seen(env, sent, k), Seen(env, sent, k + 1), res, exit)
  {
    assert sent != [];
    hide Delivered, Tail, FindMarker, Out, Contains, DigitsOf, Count, CleanLog, Emitted, SetupLines, Transcript, LatestLog, Suffix,
         HostEvolves, CleanHost, WordsOnlyAtStart, Render, Pass.Read, Seen;
    var k := |sent| - 1;
    var p := env(k);
    var got := Got(env, sent, k);
    CleanOf(env, k);
    ExitStatusFound(p, sent[k]);
    CountFound(p, sent[k]);
    WordFound(p, sent[k], REBOOT);
    RebootInTail(p);
    WholeLogHandedOn(env, sent, k);
    FallbackCount(p.host.log);
  }

  lemma CleanOf(env: nat -> Pass, k: nat)
    requires CleanHost(env)
    ensures CleanLog(env(k).host.Log())
  {
    assert CleanAt(env, k);
  }

  lemma RebootInTail(p: Pass)
    requires p.host.Done?
    ensures REBOOT in Tail(p) <==> p.reboot
  {
    var t := [RcLine(p.host.rc), CountLine(p.host.log)];
    assert Tail(p) == t + if p.reboot then [REBOOT] else [];
    assert p.reboot ==> Tail(p)[2] == REBOOT;
    if REBOOT in Tail(p) { TailLine(p, REBOOT); }
  }

  /** Once the line with the exit status is through, all that was read of the log is: the whole log,
      unless the process id was late. */
  lemma {:induction false} WholeLogHandedOn(env: nat -> Pass, sent: seq<Script>, k: nat)
    requires Transcript(env, sent) && HostEvolves(env) && CleanHost(env) && k < |sent|
    requires env(k).host.Done? && RcLine(env(k).host.rc) in Got(env, sent, k)
    ensures Seen(env, sent, k + 1) <= env(k).host.log
    ensures Seen(env, sent, k + 1) == env(k).host.log <==>
      env(k).Read() == env(k).host.log || Seen(env, sent, k) == env(k).host.log
    ensures env(k).late.None? ==> Seen(env, sent, k + 1) == env(k).host.log
  {
    assert sent != [];
    ReadIsPrefix(env(k));
    if env(k).late.None? { ReadsAllInTime(env(k)); }
    hide Delivered, Tail, DigitsOf, Emitted, CleanLog, Transcript, LatestLog, HostEvolves, CleanHost, Suffix, Pass.Read;
    var p := env(k);
    var rcLine := RcLine(p.host.rc);
    var part := Suffix(p.Read(), sent[k].From());
    CleanOf(env, k);
    PrefixOfLog(env, sent, k);
    LatestLogIs(env, k);
    PassHandsOn(p, sent[k]);
    DeliveredShape(p, sent[k]);
    if |Got(env, sent, k)| <= |part| {
      assert rcLine in part;
      SuffixIsIn(p.Read(), sent[k].From(), rcLine);
      assert rcLine in p.host.log;
      RcLineIsNotClean(p.host.log, rcLine);
    }
    assert Seen(env, sent, k + 1) == Reached(env, sent, k);
  }

  lemma ReadsAllInTime(p: Pass)
    requires p.late.None?
    ensures p.Read() == p.host.Log()
  {
  }

  lemma RcLineIsNotClean(log: seq<string>, l: string)
    requires CleanLog(log) && RC_PREFIX <= l
    ensures l !in log
  {
    PrefixesDiffer(l);
    if l in log { CleanHasNoPrefix(l, RC_PREFIX); }
  }

  /** When all that a host that is done has to say gets through, the run finishes. */
  lemma {:induction false} DoneIsNoticed(env: nat -> Pass, sent: seq<Script>, k: nat)
    requires k < |sent| && env(k).host.Done? && CleanLog(env(k).host.log)
    requires env(k).cut >= |Stdout(env(k), sent[k].From())|
    ensures VerdictAt(env, sent, k).Some? && VerdictAt(env, sent, k).value.Finished?
    ensures VerdictAt(env, sent, k).value.exit == env(k).host.rc
  {
    hide FindMarker, Out, Contains, DigitsOf, Count, CleanLog;
    var p := env(k);
    var out := Stdout(p, sent[k].From());
    StdoutShape(p, sent[k].From());
    assert Got(env, sent, k) == out by { assert out[..|out|] == out; }
    assert out[|Suffix(p.Read(), sent[k].From())|] == RcLine(p.host.rc);
    ExitStatusFound(p, sent[k]);
  }

  /** The marker came through, on its own line or inside a log line. */
  ghost predicate Through(p: Pass, script: Script, word: string, said: bool) {
    (said && word in Delivered(p, script)) || InLogLine(p, script, word)
  }

  /** A run is reported as stopped exactly when its exit status did not come through and the host said
      that it was killed, or that it runs without having left its process id in time, or a line of the log
      holds the marker's text. The report counts the packages in all that was handed on. */
  lemma {:induction false} StoppedExactly(env: nat -> Pass, sent: seq<Script>)
    requires sent != [] && CleanHost(env)
    ensures var p, got := env(|sent| - 1), Got(env, sent, |sent| - 1);
      var v := VerdictAt(env, sent, |sent| - 1);
      var stopped := !(p.host.Done? && RcLine(p.host.rc) in got) && Through(p, sent[|sent| - 1], LOST, SaysLost(p));
      && (v.Some? && v.value.Interrupted? && v.value.cause == HostStopped <==> stopped)
      && (stopped ==> v.value == Interrupted(HostStopped, Count(Render(Seen(env, sent, |sent|)), SETUP), true))
  {
    hide Delivered, Tail, FindMarker, Out, Contains, Count, CleanLog, DigitsOf, Render, Seen;
    var k := |sent| - 1;
    CleanOf(env, k);
    ExitStatusFound(env(k), sent[k]);
    WordFound(env(k), sent[k], LOST);
    LostInTail(env(k));
  }

  /** A run ends for want of a log exactly when neither an exit status nor the other marker came through and
      the host said that it has no log, or a line of the log holds that text. In the first pass this
      means that the upgrade could not be started, later that its log is gone. */
  lemma {:induction false} NoLogExactly(env: nat -> Pass, sent: seq<Script>)
    requires sent != [] && CleanHost(env)
    ensures var p, got := env(|sent| - 1), Got(env, sent, |sent| - 1);
      VerdictAt(env, sent, |sent| - 1) == Some(if |sent| == 1 then CouldNotStart else Interrupted(LogGone, 0, false)) <==>
        && !(p.host.Done? && RcLine(p.host.rc) in got) && !Through(p, sent[|sent| - 1], LOST, SaysLost(p))
        && Through(p, sent[|sent| - 1], NOTFOUND, !p.host.HasLog())
  {
    hide Delivered, Tail, FindMarker, Out, Contains, Count, CleanLog, DigitsOf, Render, Seen;
    var k := |sent| - 1;
    CleanOf(env, k);
    ExitStatusFound(env(k), sent[k]);
    WordFound(env(k), sent[k], LOST);
    WordFound(env(k), sent[k], NOTFOUND);
    LostInTail(env(k));
    NotFoundInTail(env(k));
  }

  lemma NotFoundInTail(p: Pass)
    ensures NOTFOUND in Tail(p) <==> !p.host.HasLog()
  {
    if NOTFOUND in Tail(p) {
      TailLine(p, NOTFOUND);
    }
    if !p.host.HasLog() {
      assert Tail(p)[0] == NOTFOUND;
    }
  }

  lemma LostInTail(p: Pass)
    ensures LOST in Tail(p) <==> SaysLost(p)
  {
    if LOST in Tail(p) {
      TailLine(p, LOST);
    }
    if SaysLost(p) {
      assert Tail(p)[0] == LOST;
    }
  }

  /** The assumption on the log cannot be dropped: a run without any drop hands on the whole log
      exactly when no line of it is one that `emit` hides. */
  lemma {:induction false} HiddenLineIsLost(env: nat -> Pass)
    requires env(0).host.Done? && env(0).late.None? && env(0).cut >= |Stdout(env(0), 1)|
    ensures Seen(env, [Start], 1) == env(0).host.log <==> forall i :: 0 <= i < |env(0).host.log| ==> !Hidden(env(0).host.log[i])
  {
    hide Emitted, Tail, Stdout;
    var p := env(0);
    var out := Stdout(p, 1);
    StdoutShape(p, 1);
    assert Suffix(p.host.log, 1) == p.host.log;
    assert out[..|out|] == out;
    assert Got(env, [Start], 0) == p.host.log + Tail(p);
    EmittedAppend(p.host.log, Tail(p));
    TailIsHidden(p);
    EmittedNone(Tail(p));
    EmittedWhole(p.host.log);
    assert Seen(env, [Start], 1) == Seen(env, [Start], 0) + Emitted(p.host.log);
  }
}
