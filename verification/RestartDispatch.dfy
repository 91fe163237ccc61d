/** Restarting a list of units: the ordinary ones in one batch, the risky ones one by one, and a report
    that has to account for each of them. */
module RestartDispatch {
  import opened Strings
  import opened RestartPolicy
  import opened RestartBatch
  import Lines

  const HANDLER_ABSENT: string := "__NR_HANDLER_ABSENT__"

  /** The error of a privileged command: a changed host key, a lost connection, or anything else. */
  datatype RunError = HostKey(text: string) | Lost(text: string) | Other(text: string)

  datatype Reply = Reply(out: string, err: Option<RunError>)
  {
    predicate HostKeyError() { err.Some? && err.value.HostKey? }

    predicate ConnectionLost() { err.Some? && err.value.Lost? }

    function ErrText(): string { if err.Some? then err.value.text else "" }
  }

  datatype Kind = Sent | Refused | NeedsReboot | NotLoaded

  /** A line of the report. */
  datatype Line = Line(svc: string, kind: Kind, reason: string)

  // ----- what a reply means for a unit

  function StripOnce(s: string): string { TrimSpace(if "Password:" <= s then s[9..] else s) }

  lemma {:induction false} TrimShortens(s: string)
    ensures |TrimLeft(s)| <= |s| && |TrimRight(s)| <= |s|
    decreases |s|
  {
    if s != "" {
      TrimShortens(s[1..]);
      TrimShortens(s[..|s| - 1]);
    }
  }

  lemma StripShortens(s: string)
    ensures StripOnce(s) != s && TrimSpace(s) == s ==> |StripOnce(s)| < |s|
  {
    if "Password:" <= s {
      TrimShortens(s[9..]);
      TrimShortens(TrimLeft(s[9..]));
    }
  }

  /** `stripAuthPromptNoise`: the trimmed text without any prompts in front. */
  method StripAuthPromptNoise(text: string) returns (s: string)
    ensures s == Stripped(TrimSpace(text))
    ensures TrimSpace(s) == s && !("Password:" <= s)
  {
    s := TrimSpace(text);
    TrimTwice(text);
    while true
      invariant TrimSpace(s) == s && Stripped(s) == Stripped(TrimSpace(text))
      decreases |s|
    {
      var next := StripOnce(s);
      StripShortens(s);
      TrimTwice(if "Password:" <= s then s[9..] else s);
      if next == s {
        if "Password:" <= s {
          TrimShortens(s[9..]);
          TrimShortens(TrimLeft(s[9..]));
        }
        return s;
      }
      s := next;
    }
  }

  function Stripped(s: string): string
    decreases |s|
  {
    var next := StripOnce(s);
    if |next| >= |s| then s else Stripped(next)
  }

  predicate IsUnitNotFoundText(s: string) {
    var m := ToLower(s);
    Contains(m, "not found") || Contains(m, "not loaded") || Contains(m, "no such")
  }

  function Reason(text: string): string { Stripped(TrimSpace(text)) }

  function BatchLine(svc: string, parsed: Results, batch: Reply): Line {
    if parsed == map[] && batch.err.Some? then Line(svc, Refused, Reason(batch.ErrText()))
    else if svc !in parsed then
      if batch.ConnectionLost() then Line(svc, Sent, "") else Line(svc, Refused, "no result (restart may not have run)")
    else
      var r := parsed[svc];
      if r.rc == 0 then Line(svc, Sent, "")
      else if IsUnitNotFoundText(r.out) then Line(svc, NotLoaded, "")
      else Line(svc, Refused, if Reason(r.out) == "" then "exit " + Itoa(r.rc) else Reason(r.out))
  }

  function SpecialLine(svc: string, reply: Reply): Line {
    if Contains(reply.out, HANDLER_ABSENT) then Line(svc, NeedsReboot, "")
    else if reply.err.None? || reply.ConnectionLost() then Line(svc, Sent, "")
    else Line(svc, Refused, Reason(reply.ErrText()))
  }

  /** The reason is the trimmed text behind all prompts in front of it. */
  lemma {:induction false} PromptsAreNoReason(text: string)
    ensures Reason("Password:" + text) == Reason(text)
    ensures !("Password:" <= TrimSpace(text)) ==> Reason(text) == TrimSpace(text)
  {
    var prompt := "Password:";
    var s := prompt + text;
    TrimTwice(text);
    assert s[0] == 'P';
    Lines.TrimRightAppend(prompt, text);
    assert TrimRight(prompt) == prompt && TrimLeft(s) == s;
    TrimSides(text);
    var t := TrimSpace(s);
    assert t == prompt + TrimRight(text) by {
      if TrimRight(text) == "" { assert prompt + "" == prompt; }
    }
    assert t[9..] == TrimRight(text);
    TrimShortens(text);
    TrimShortens(TrimRight(text));
    TrimShortens(TrimLeft(TrimRight(text)));
    assert StripOnce(t) == TrimSpace(text);
  }

  // ----- the whole request

  function Risky(services: seq<string>, risky: bool): seq<string> {
    if services == [] then []
    else
      var n := |services| - 1;
      if IsRisky(services[n]) == risky then Risky(services[..n], risky) + [services[n]] else Risky(services[..n], risky)
  }

  method SplitRestartBatch(services: seq<string>) returns (batchable: seq<string>, special: seq<string>)
    ensures batchable == Risky(services, false) && special == Risky(services, true)
  {
    batchable, special := [], [];
    for i := 0 to |services|
      invariant batchable == Risky(services[..i], false) && special == Risky(services[..i], true)
    {
      assert services[..i + 1][..i] == services[..i];
      if IsRisky(services[i]) {
        special := special + [services[i]];
        continue;
      }
      batchable := batchable + [services[i]];
    }
    assert services[..|services|] == services;
  }

  /** The lines in the order in which the units are handled. */
  function Handled(batchable: seq<string>, parsed: Results, batch: Reply, special: seq<string>, replies: seq<Reply>): seq<Line>
    requires |replies| == |special|
  {
    seq(|batchable|, i requires 0 <= i < |batchable| => BatchLine(batchable[i], parsed, batch)) +
    seq(|special|, i requires 0 <= i < |special| => SpecialLine(special[i], replies[i]))
  }

  function Report(services: seq<string>, batch: Reply, replies: seq<Reply>): seq<Line>
    requires |replies| == |Risky(services, true)|
  {
    Handled(Risky(services, false), Entries(Split(batch.out, '\n')), batch, Risky(services, true), replies)
  }

  /** The units with a line of the kind, in order. */
  function Named(lines: seq<Line>, kind: Kind): seq<string> {
    if lines == [] then []
    else
      var n := |lines| - 1;
      if lines[n].kind == kind then Named(lines[..n], kind) + [lines[n].svc] else Named(lines[..n], kind)
  }

  /** `done`: the last line of each unit. */
  function Done(lines: seq<Line>): map<string, Line> {
    if lines == [] then map[] else Done(lines[..|lines| - 1])[lines[|lines| - 1].svc := lines[|lines| - 1]]
  }

  datatype RestartResult = RestartResult(services: seq<string>, success: bool, lines: seq<Line>,
                                         rebootRequired: seq<string>, dispatched: seq<string>, failed: seq<string>)

  const NO_RESULT := RestartResult([], false, [], [], [], [])

  /** The variables that the closures `ok` and `fail`, and the loops, write. */
  class Progress {
    var done: map<string, Line>
    var dispatched: seq<string>
    var failed: seq<string>
    var rebootRequired: seq<string>
    ghost var lines: seq<Line>

    ghost predicate Valid()
      reads this
    {
      && done == Done(lines)
      && dispatched == Named(lines, Sent) && failed == Named(lines, Refused) && rebootRequired == Named(lines, NeedsReboot)
    }

    constructor ()
      ensures Valid() && lines == []
    {
      done, dispatched, failed, rebootRequired, lines := map[], [], [], [], [];
    }

    method Note(l: Line)
      requires Valid()
      modifies this
      ensures Valid() && lines == old(lines) + [l]
    {
      done := done[l.svc := l];
      match l.kind {
        case Sent => dispatched := dispatched + [l.svc];
        case Refused => failed := failed + [l.svc];
        case NeedsReboot => rebootRequired := rebootRequired + [l.svc];
        case NotLoaded =>
      }
      lines := lines + [l];
      assert lines[..|lines| - 1] == old(lines);
    }
  }

  /** Some command of the request meets a changed host key. */
  predicate KeyChanged(services: seq<string>, batch: Reply, replies: seq<Reply>) {
    (Risky(services, false) != [] && batch.HostKeyError()) || exists i :: 0 <= i < |replies| && replies[i].HostKeyError()
  }

  /** `RestartDeferredDetached`. `batch` is the reply to the batched script, `replies` are those to the
      risky units' commands. */
  method RestartDeferredDetached(services: seq<string>, batch: Reply, replies: seq<Reply>)
    returns (res: RestartResult, hostKey: bool)
    requires |replies| == |Risky(services, true)|
    ensures hostKey <==> KeyChanged(services, batch, replies)
    ensures hostKey ==> res == NO_RESULT
    ensures !hostKey && services != [] ==>
      var lines := Report(services, batch, replies);
      && res.services == services
      && res.dispatched == Named(lines, Sent) && res.failed == Named(lines, Refused)
      && res.rebootRequired == Named(lines, NeedsReboot)
      && (res.success <==> res.failed == [])
      && |res.lines| == |services| && forall i :: 0 <= i < |services| ==>
           services[i] in Done(lines) && res.lines[i] == Done(lines)[services[i]]
    ensures services == [] ==> res == RestartResult([], true, [], [], [], [])
  {
    if |services| == 0 {
      return RestartResult([], true, [], [], [], []), false;
    }
    var batchable, special := SplitRestartBatch(services);
    hide Handled, Named, Done, Entries, Split, Risky, BatchLine, SpecialLine, IsRisky, BatchLines, SpecialLines;
    ghost var parsed := Entries(Split(batch.out, '\n'));
    var progress := new Progress();
    if |batchable| > 0 {
      if batch.HostKeyError() {
        return NO_RESULT, true;
      }
      RunBatch(progress, batchable, batch);
    }
    NothingBatched(parsed, batch);
    var changed := RunSpecial(progress, special, replies);
    if changed {
      return NO_RESULT, true;
    }
    ghost var all := Report(services, batch, replies);
    HandledIs(batchable, parsed, batch, special, replies);
    assert progress.lines == all;
    AllHandled(services, batch, replies);
    var lines := Reassemble(services, progress.done);
    res := RestartResult(services, |progress.failed| == 0, lines, progress.rebootRequired, progress.dispatched, progress.failed);
    hostKey := false;
  }

  function BatchLines(batchable: seq<string>, parsed: Results, batch: Reply): seq<Line> {
    seq(|batchable|, i requires 0 <= i < |batchable| => BatchLine(batchable[i], parsed, batch))
  }

  function SpecialLines(special: seq<string>, replies: seq<Reply>): seq<Line>
    requires |replies| == |special|
  {
    seq(|special|, i requires 0 <= i < |special| => SpecialLine(special[i], replies[i]))
  }

  lemma HandledIs(batchable: seq<string>, parsed: Results, batch: Reply, special: seq<string>, replies: seq<Reply>)
    requires |replies| == |special|
    ensures Handled(batchable, parsed, batch, special, replies) == BatchLines(batchable, parsed, batch) + SpecialLines(special, replies)
  {
  }

  lemma NothingBatched(parsed: Results, batch: Reply)
    ensures BatchLines([], parsed, batch) == []
  {
  }

  /** The lines in the order of the request; a unit without a line would be passed over. */
  method Reassemble(services: seq<string>, done: map<string, Line>) returns (lines: seq<Line>)
    ensures (forall svc :: svc in services ==> svc in done) ==>
      |lines| == |services| && forall i :: 0 <= i < |services| ==> lines[i] == done[services[i]]
  {
    lines := [];
    for i := 0 to |services|
      invariant (forall svc :: svc in services ==> svc in done) ==>
        |lines| == i && forall j :: 0 <= j < i ==> lines[j] == done[services[j]]
    {
      if services[i] in done {
        lines := lines + [done[services[i]]];
      }
    }
  }

  /** The first loop, on the output of the batch. */
  method RunBatch(progress: Progress, batchable: seq<string>, batch: Reply)
    requires progress.Valid() && progress.lines == []
    modifies progress
    ensures progress.Valid() && progress.lines == BatchLines(batchable, Entries(Split(batch.out, '\n')), batch)
  {
    var parsed := ParseRestartBatch(batch.out);
    hide BatchLine, Entries, Split, Named, Done;
    for i := 0 to |batchable|
      invariant progress.Valid() && progress.lines == BatchLines(batchable, parsed, batch)[..i]
    {
      var l := HandleBatchable(batchable[i], parsed, batch);
      progress.Note(l);
    }
  }

  /** The second loop; it stops at a changed host key. */
  method RunSpecial(progress: Progress, special: seq<string>, replies: seq<Reply>) returns (changed: bool)
    requires progress.Valid() && |replies| == |special|
    modifies progress
    ensures changed <==> exists i :: 0 <= i < |replies| && replies[i].HostKeyError()
    ensures !changed ==> progress.Valid() && progress.lines == old(progress.lines) + SpecialLines(special, replies)
  {
    hide SpecialLine, Named, Done;
    for i := 0 to |special|
      invariant progress.Valid() && progress.lines == old(progress.lines) + SpecialLines(special, replies)[..i]
      invariant forall j :: 0 <= j < i ==> !replies[j].HostKeyError()
    {
      if replies[i].HostKeyError() {
        return true;
      }
      var l := HandleSpecial(special[i], replies[i]);
      progress.Note(l);
    }
    return false;
  }

  /** The switch of the first loop. */
  method HandleBatchable(svc: string, parsed: Results, batch: Reply) returns (l: Line)
    ensures l == BatchLine(svc, parsed, batch)
  {
    hide Stripped, TrimSpace;
    var escalationFailed := |parsed| == 0 && batch.err.Some?;
    if escalationFailed {
      var why := StripAuthPromptNoise(batch.err.value.text);
      return Line(svc, Refused, why);
    }
    var seen := svc in parsed;
    if !seen && batch.ConnectionLost() {
      return Line(svc, Sent, "");
    }
    if !seen {
      return Line(svc, Refused, "no result (restart may not have run)");
    }
    var r := parsed[svc];
    if r.rc == 0 {
      return Line(svc, Sent, "");
    }
    if IsUnitNotFoundText(r.out) {
      return Line(svc, NotLoaded, "");
    }
    var why := StripAuthPromptNoise(r.out);
    if why == "" {
      why := "exit " + Itoa(r.rc);
    }
    return Line(svc, Refused, why);
  }

  /** The switch of the second loop. */
  method HandleSpecial(svc: string, reply: Reply) returns (l: Line)
    ensures l == SpecialLine(svc, reply)
  {
    hide Stripped, TrimSpace, Contains;
    if Contains(reply.out, HANDLER_ABSENT) {
      return Line(svc, NeedsReboot, "");
    }
    if reply.err.None? || reply.err.value.Lost? {
      return Line(svc, Sent, "");
    }
    var why := StripAuthPromptNoise(reply.err.value.text);
    return Line(svc, Refused, why);
  }

  // ----- every unit is accounted for

  lemma {:induction false} RiskyHolds(services: seq<string>, risky: bool, svc: string)
    ensures svc in Risky(services, risky) <==> svc in services && IsRisky(svc) == risky
  {
    hide IsRisky;
    if services != [] {
      var n := |services| - 1;
      var init, last := services[..n], services[n];
      assert services == init + [last];
      RiskyHolds(init, risky, svc);
    }
  }

  /** How often a unit is requested. */
  function Times(list: seq<string>, svc: string): nat {
    if list == [] then 0 else Times(list[..|list| - 1], svc) + (if list[|list| - 1] == svc then 1 else 0)
  }

  lemma {:induction false} TimesRisky(services: seq<string>, risky: bool, svc: string)
    requires IsRisky(svc) == risky
    ensures Times(Risky(services, risky), svc) == Times(services, svc)
  {
    hide IsRisky;
    if services != [] {
      var n := |services| - 1;
      TimesRisky(services[..n], risky, svc);
      var r := Risky(services[..n], risky);
      assert (r + [services[n]])[..|r|] == r;
    }
  }

  /** A unit that is there once has one place, and one that is there more often has two. */
  lemma {:induction false} TimesHold(list: seq<string>, svc: string)
    ensures svc in list <==> Times(list, svc) >= 1
    ensures Times(list, svc) >= 2 <==> exists i, j :: 0 <= i < j < |list| && list[i] == svc && list[j] == svc
  {
    if list != [] {
      var n := |list| - 1;
      var init := list[..n];
      assert list == init + [list[n]];
      TimesHold(init, svc);
      if i, j :| 0 <= i < j < |list| && list[i] == svc && list[j] == svc {
        assert init[i] == svc;
        assert j < n ==> init[j] == svc;
      }
      if i, j :| 0 <= i < j < |init| && init[i] == svc && init[j] == svc {
        assert list[i] == svc && list[j] == svc;
      }
      if svc in init && list[n] == svc {
        var i :| 0 <= i < n && init[i] == svc;
        assert list[i] == svc && list[n] == svc;
      }
    }
  }

  /** Each requested unit has a line of its own. */
  lemma AllHandled(services: seq<string>, batch: Reply, replies: seq<Reply>)
    requires |replies| == |Risky(services, true)|
    ensures forall svc :: svc in services ==> svc in Done(Report(services, batch, replies))
  {
    hide Report, Done;
    forall svc | svc in services ensures svc in Done(Report(services, batch, replies)) {
      IsHandled(services, batch, replies, svc);
    }
  }

  lemma IsHandled(services: seq<string>, batch: Reply, replies: seq<Reply>, svc: string)
    requires |replies| == |Risky(services, true)| && svc in services
    ensures svc in Done(Report(services, batch, replies))
  {
    var b, sp := Risky(services, false), Risky(services, true);
    var parsed := Entries(Split(batch.out, '\n'));
    var lines := Handled(b, parsed, batch, sp, replies);
    assert lines == Report(services, batch, replies);
    hide *;
    RiskyHolds(services, true, svc);
    RiskyHolds(services, false, svc);
    if svc in sp {
      var i :| 0 <= i < |sp| && sp[i] == svc;
      LineNames(b, sp, batch, replies, parsed, |b| + i);
      DoneHolds(lines, |b| + i);
    } else {
      var i :| 0 <= i < |b| && b[i] == svc;
      LineNames(b, sp, batch, replies, parsed, i);
      DoneHolds(lines, i);
    }
  }

  /** Each line is made from one unit: an ordinary one and the batch, or a risky one and its own reply. */
  lemma LineNames(b: seq<string>, sp: seq<string>, batch: Reply, replies: seq<Reply>, parsed: Results, i: nat)
    requires |replies| == |sp| && i < |b| + |sp|
    ensures |Handled(b, parsed, batch, sp, replies)| == |b| + |sp|
    ensures Handled(b, parsed, batch, sp, replies)[i].svc == if i < |b| then b[i] else sp[i - |b|]
    ensures Handled(b, parsed, batch, sp, replies)[i] ==
      if i < |b| then BatchLine(b[i], parsed, batch) else SpecialLine(sp[i - |b|], replies[i - |b|])
  {
    if i < |b| {
      BatchLineNames(b[i], parsed, batch);
    }
    hide BatchLine, SpecialLine;
    assert i >= |b| ==> SpecialLine(sp[i - |b|], replies[i - |b|]).svc == sp[i - |b|] by {
      if i >= |b| { SpecialLineNames(sp[i - |b|], replies[i - |b|]); }
    }
  }

  lemma BatchLineNames(svc: string, parsed: Results, batch: Reply)
    ensures BatchLine(svc, parsed, batch).svc == svc
  {
  }

  lemma SpecialLineNames(svc: string, reply: Reply)
    ensures SpecialLine(svc, reply).svc == svc
  {
  }

  lemma {:induction false} DoneHolds(lines: seq<Line>, i: nat)
    requires i < |lines|
    ensures lines[i].svc in Done(lines)
  {
    var n := |lines| - 1;
    if i < n {
      DoneHolds(lines[..n], i);
    }
  }

  lemma {:induction false} NamedHolds(lines: seq<Line>, kind: Kind, svc: string)
    ensures svc in Named(lines, kind) <==> exists i :: 0 <= i < |lines| && lines[i].svc == svc && lines[i].kind == kind
  {
    if lines != [] {
      var n := |lines| - 1;
      var init, last := lines[..n], lines[n];
      NamedHolds(init, kind, svc);
      if i :| 0 <= i < |lines| && lines[i].svc == svc && lines[i].kind == kind {
        if i < n {
          assert init[i] == lines[i];
        }
      }
      if i :| 0 <= i < |init| && init[i].svc == svc && init[i].kind == kind {
        assert lines[i] == init[i];
      }
    }
  }

  /** The line that stands for a unit is its last one. */
  lemma {:induction false} Position(lines: seq<Line>, svc: string) returns (i: nat)
    requires svc in Done(lines)
    ensures i < |lines| && lines[i].svc == svc && Done(lines)[svc] == lines[i]
    ensures forall j :: i < j < |lines| ==> lines[j].svc != svc
  {
    var n := |lines| - 1;
    if lines[n].svc == svc {
      i := n;
    } else {
      i := Position(lines[..n], svc);
    }
  }

  /** All lines of the unit are the same. */
  ghost predicate Agreed(lines: seq<Line>, svc: string) {
    forall i: nat, j: nat :: i < |lines| && j < |lines| && lines[i].svc == svc && lines[j].svc == svc ==> lines[i] == lines[j]
  }

  /** The unit's lines, one by one: repeated lines of an ordinary unit come from the same batch. */
  lemma LinesAgree(services: seq<string>, batch: Reply, replies: seq<Reply>, svc: string)
    requires |replies| == |Risky(services, true)| && (!IsRisky(svc) || Times(services, svc) <= 1)
    ensures Agreed(Report(services, batch, replies), svc)
  {
    var b, sp := Risky(services, false), Risky(services, true);
    var parsed := Entries(Split(batch.out, '\n'));
    var lines := Handled(b, parsed, batch, sp, replies);
    assert lines == Report(services, batch, replies);
    RiskyHolds(services, true, svc);
    RiskyHolds(services, false, svc);
    if IsRisky(svc) {
      TimesRisky(services, true, svc);
      TimesHold(sp, svc);
    }
    hide Handled, Report, Risky, IsRisky, Entries, Split, Times, BatchLine, SpecialLine;
    SizeOfHandled(b, sp, batch, replies, parsed);
    forall i: nat, j: nat | i < |lines| && j < |lines| && lines[i].svc == svc && lines[j].svc == svc
      ensures lines[i] == lines[j]
    {
      SameLine(b, sp, batch, replies, parsed, svc, i, j);
    }
  }

  lemma SameLine(b: seq<string>, sp: seq<string>, batch: Reply, replies: seq<Reply>, parsed: Results, svc: string, i: nat, j: nat)
    requires |replies| == |sp| && i < |b| + |sp| && j < |b| + |sp|
    requires svc in sp ==> svc !in b && !exists x, y :: 0 <= x < y < |sp| && sp[x] == svc && sp[y] == svc
    requires |Handled(b, parsed, batch, sp, replies)| == |b| + |sp|
    requires Handled(b, parsed, batch, sp, replies)[i].svc == svc && Handled(b, parsed, batch, sp, replies)[j].svc == svc
    ensures Handled(b, parsed, batch, sp, replies)[i] == Handled(b, parsed, batch, sp, replies)[j]
  {
    hide *;
    LineNames(b, sp, batch, replies, parsed, i);
    LineNames(b, sp, batch, replies, parsed, j);
    if i >= |b| && j >= |b| {
      var x, y := i - |b|, j - |b|;
      assert sp[x] == svc && sp[y] == svc && svc in sp;
      assert x == y;
    } else {
      assert i < |b| ==> b[i] in b;
      assert j < |b| ==> b[j] in b;
    }
  }

  lemma SizeOfHandled(b: seq<string>, sp: seq<string>, batch: Reply, replies: seq<Reply>, parsed: Results)
    requires |replies| == |sp|
    ensures |Handled(b, parsed, batch, sp, replies)| == |b| + |sp|
  {
  }

  /** The unit is in one list, the one of the kind that its line in the report has. */
  ghost predicate OneKind(lines: seq<Line>, svc: string) {
    svc in Done(lines) && forall kind :: svc in Named(lines, kind) <==> Done(lines)[svc].kind == kind
  }

  /** An ordinary unit, repeated or not, and a risky unit that is requested once: it is dispatched,
      failed, in need of a reboot, or skipped, and only one of these, and its line says which. */
  lemma {:induction false} EachUnitOnce(services: seq<string>, batch: Reply, replies: seq<Reply>, svc: string)
    requires |replies| == |Risky(services, true)| && svc in services
    requires !IsRisky(svc) || Times(services, svc) == 1
    ensures OneKind(Report(services, batch, replies), svc)
  {
    hide IsRisky, Report, Named, Done;
    var lines := Report(services, batch, replies);
    AllHandled(services, batch, replies);
    LinesAgree(services, batch, replies, svc);
    var p := Position(lines, svc);
    forall kind ensures svc in Named(lines, kind) <==> Done(lines)[svc].kind == kind {
      NamedHolds(lines, kind, svc);
    }
  }

  ghost predicate AlwaysOneKind(services: seq<string>, svc: string) {
    forall batch, replies | |replies| == |Risky(services, true)| && !KeyChanged(services, batch, replies) ::
      OneKind(Report(services, batch, replies), svc)
  }

  /** Replies that accept a risky unit everywhere but at one place. */
  function Mixed(n: nat, at: nat): seq<Reply> {
    seq(n, k => if k == at then Reply("", Some(Other(""))) else Reply("", None))
  }

  lemma TwoKinds(services: seq<string>, svc: string, i: nat, j: nat)
    requires var sp := Risky(services, true); i < j < |sp| && sp[i] == sp[j] == svc
    ensures var batch, replies := Reply("", None), Mixed(|Risky(services, true)|, i);
      !KeyChanged(services, batch, replies) && !OneKind(Report(services, batch, replies), svc)
  {
    hide IsRisky, Stripped, TrimSpace, Entries, Split, Risky, BatchLine, Named, Done;
    var b, sp := Risky(services, false), Risky(services, true);
    var batch, replies := Reply("", None), Mixed(|sp|, i);
    var parsed := Entries(Split(batch.out, '\n'));
    var lines := Report(services, batch, replies);
    LineNames(b, sp, batch, replies, parsed, |b| + i);
    LineNames(b, sp, batch, replies, parsed, |b| + j);
    assert !Contains("", HANDLER_ABSENT);
    assert lines[|b| + i].kind == Refused && lines[|b| + j].kind == Sent;
    NamedHolds(lines, Refused, svc);
    NamedHolds(lines, Sent, svc);
  }

  /** For every requested unit: whatever the replies are, the report knows exactly one outcome of it, if
      and only if the unit is not risky or is requested once. */
  lemma {:induction false} OneKindExactly(services: seq<string>, svc: string)
    requires svc in services
    ensures AlwaysOneKind(services, svc) <==> !IsRisky(svc) || Times(services, svc) == 1
  {
    hide IsRisky, Report, OneKind, Risky, KeyChanged;
    TimesHold(services, svc);
    if !IsRisky(svc) || Times(services, svc) == 1 {
      forall batch, replies | |replies| == |Risky(services, true)| && !KeyChanged(services, batch, replies)
        ensures OneKind(Report(services, batch, replies), svc)
      {
        EachUnitOnce(services, batch, replies, svc);
      }
    } else {
      var sp := Risky(services, true);
      TimesRisky(services, true, svc);
      TimesHold(sp, svc);
      var i, j :| 0 <= i < j < |sp| && sp[i] == svc && sp[j] == svc;
      TwoKinds(services, svc, i, j);
    }
  }

  // ----- what a unit's line says

  lemma BatchLineOf(services: seq<string>, batch: Reply, replies: seq<Reply>, svc: string)
    requires |replies| == |Risky(services, true)| && svc in services && !IsRisky(svc)
    ensures var lines := Report(services, batch, replies);
      svc in Done(lines) && Done(lines)[svc] == BatchLine(svc, Entries(Split(batch.out, '\n')), batch)
  {
    var b, sp := Risky(services, false), Risky(services, true);
    var parsed := Entries(Split(batch.out, '\n'));
    var lines := Handled(b, parsed, batch, sp, replies);
    assert lines == Report(services, batch, replies);
    RiskyHolds(services, true, svc);
    AllHandled(services, batch, replies);
    hide *;
    var i := Position(lines, svc);
    SizeOfHandled(b, sp, batch, replies, parsed);
    LineNames(b, sp, batch, replies, parsed, i);
  }

  lemma SpecialLineOf(services: seq<string>, batch: Reply, replies: seq<Reply>, i: nat)
    requires |replies| == |Risky(services, true)| && i < |replies| && Times(services, Risky(services, true)[i]) == 1
    ensures var svc := Risky(services, true)[i]; var lines := Report(services, batch, replies);
      svc in Done(lines) && Done(lines)[svc] == SpecialLine(svc, replies[i])
  {
    var b, sp := Risky(services, false), Risky(services, true);
    var svc, parsed := sp[i], Entries(Split(batch.out, '\n'));
    var lines := Handled(b, parsed, batch, sp, replies);
    assert lines == Report(services, batch, replies);
    assert svc in sp;
    RiskyHolds(services, true, svc);
    RiskyHolds(services, false, svc);
    TimesRisky(services, true, svc);
    TimesHold(sp, svc);
    AllHandled(services, batch, replies);
    hide *;
    var p := Position(lines, svc);
    SizeOfHandled(b, sp, batch, replies, parsed);
    LineNames(b, sp, batch, replies, parsed, p);
  }

  /** The line that a unit's own restart calls for. */
  function OwnLine(svc: string, rc: int, out: string): Line {
    var text := TrimSpace(Flatten(out));
    if rc == 0 then Line(svc, Sent, "")
    else if IsUnitNotFoundText(text) then Line(svc, NotLoaded, "")
    else if Reason(text) != "" then Line(svc, Refused, Reason(text))
    else Line(svc, Refused, "exit " + Itoa(rc))
  }

  /** From the host to the report: the script's session, with any other lines in it, trimmed and parsed,
      gives each ordinary unit the line that its own exit code and output call for. */
  lemma {:induction false} JudgedByItsOwnResult(services: seq<string>, batch: Reply, replies: seq<Reply>,
                                                session: seq<RestartBatch.Line>, k: nat)
    requires |replies| == |Risky(services, true)|
    requires forall i :: 0 <= i < |session| ==> session[i].Proper()
    requires batch.out == TrimSpace(Lines.Render(Texts(session)))
    requires k < |session| && session[k].Unit? && session[k].svc in services && !IsRisky(session[k].svc)
    requires forall j :: k < j < |session| && session[j].Unit? ==> session[j].svc != session[k].svc
    ensures var lines, svc := Report(services, batch, replies), session[k].svc;
      svc in Done(lines) && Done(lines)[svc] == OwnLine(svc, session[k].rc, session[k].out)
  {
    hide Entries, Split, TrimSpace, Flatten, IsUnitNotFoundText, Reason, Report, Meanings, Texts, Risky,
         RestartBatch.Line.Proper, Lines.Render;
    BatchLineOf(services, batch, replies, session[k].svc);
    BatchRoundTrip(session);
    LaterMeaning(session, k);
  }

  /** Which list a unit goes to: with exit code 0 it is dispatched; with another one it is skipped as not
      loaded exactly when its output says so in one of three phrases, in any case of letters; otherwise
      it has failed, and so has the request. */
  lemma {:induction false} SkippedExactly(services: seq<string>, batch: Reply, replies: seq<Reply>,
                                          session: seq<RestartBatch.Line>, k: nat)
    requires |replies| == |Risky(services, true)|
    requires forall i :: 0 <= i < |session| ==> session[i].Proper()
    requires batch.out == TrimSpace(Lines.Render(Texts(session)))
    requires k < |session| && session[k].Unit? && session[k].svc in services && !IsRisky(session[k].svc)
    requires forall j :: k < j < |session| && session[j].Unit? ==> session[j].svc != session[k].svc
    ensures var lines, svc, rc := Report(services, batch, replies), session[k].svc, session[k].rc;
      var said := ToLower(TrimSpace(Flatten(session[k].out)));
      var notThere := Contains(said, "not found") || Contains(said, "not loaded") || Contains(said, "no such");
      && (svc in Named(lines, Sent) <==> rc == 0)
      && (svc in Named(lines, NotLoaded) <==> rc != 0 && notThere)
      && (svc in Named(lines, Refused) <==> rc != 0 && !notThere)
      && svc !in Named(lines, NeedsReboot)
      && (rc != 0 && !notThere ==> Named(lines, Refused) != [])
  {
    hide Entries, Split, TrimSpace, Flatten, Reason, Report, Texts, Risky, Named, Done, Contains, ToLower, IsRisky,
         RestartBatch.Line.Proper, Lines.Render;
    JudgedByItsOwnResult(services, batch, replies, session, k);
    EachUnitOnce(services, batch, replies, session[k].svc);
  }

  lemma NamedSnoc(lines: seq<Line>, l: Line, kind: Kind)
    ensures Named(lines + [l], kind) == if l.kind == kind then Named(lines, kind) + [l.svc] else Named(lines, kind)
  {
    assert (lines + [l])[..|lines|] == lines;
  }

  /** The units of a kind are listed in the order in which they were handled. */
  lemma {:induction false} NamedInOrder(a: seq<Line>, b: seq<Line>, kind: Kind)
    ensures Named(a + b, kind) == Named(a, kind) + Named(b, kind)
  {
    if b == [] {
      assert a + b == a;
    } else {
      hide Named;
      var init, last := b[..|b| - 1], b[|b| - 1];
      NamedInOrder(a, init, kind);
      NamedSnoc(a + init, last, kind);
      NamedSnoc(init, last, kind);
      assert a + b == (a + init) + [last] && b == init + [last];
    }
  }

  lemma {:induction false} OnlyUnitsMean(session: seq<RestartBatch.Line>, svc: string)
    ensures svc in Meanings(session) <==> exists k :: 0 <= k < |session| && session[k].Unit? && session[k].svc == svc
  {
    hide TrimSpace, Flatten;
    if session != [] {
      var n := |session| - 1;
      var init := session[..n];
      OnlyUnitsMean(init, svc);
      if k :| 0 <= k < |session| && session[k].Unit? && session[k].svc == svc {
        assert k < n ==> init[k] == session[k];
      }
      if k :| 0 <= k < |init| && init[k].Unit? && init[k].svc == svc {
        assert session[k] == init[k];
      }
    }
  }

  /** No line came through at all, and the batch has an error: then this is why each unit has failed. */
  ghost function ReasonWithoutResult(session: seq<RestartBatch.Line>, batch: Reply): string {
    if batch.err.Some? && forall k :: 0 <= k < |session| ==> !session[k].Unit? then Reason(batch.err.value.text)
    else "no result (restart may not have run)"
  }

  /** A unit whose line did not come through counts as dispatched exactly when the connection was lost
      and some other unit's line did come through; otherwise it has failed. */
  lemma {:induction false} JudgedWithoutAResult(services: seq<string>, batch: Reply, replies: seq<Reply>,
                                                session: seq<RestartBatch.Line>, svc: string)
    requires |replies| == |Risky(services, true)| && svc in services && !IsRisky(svc)
    requires forall i :: 0 <= i < |session| ==> session[i].Proper()
    requires batch.out == TrimSpace(Lines.Render(Texts(session)))
    requires forall k :: 0 <= k < |session| && session[k].Unit? ==> session[k].svc != svc
    ensures var lines := Report(services, batch, replies);
      && svc in Done(lines) && Done(lines)[svc].kind in {Sent, Refused}
      && (Done(lines)[svc].kind == Sent <==>
            batch.ConnectionLost() && exists k :: 0 <= k < |session| && session[k].Unit?)
      && (Done(lines)[svc].kind == Refused ==> Done(lines)[svc].reason == ReasonWithoutResult(session, batch))
  {
    hide Entries, Split, TrimSpace, Flatten, IsUnitNotFoundText, Reason, Report, Texts, Risky,
         RestartBatch.Line.Proper, Lines.Render;
    BatchLineOf(services, batch, replies, svc);
    BatchRoundTrip(session);
    OnlyUnitsMean(session, svc);
    hide Meanings;
    if k :| 0 <= k < |session| && session[k].Unit? {
      OnlyUnitsMean(session, session[k].svc);
    } else if name :| name in Meanings(session) {
      OnlyUnitsMean(session, name);
    }
  }

  /** What the command of a risky unit does on its host: it runs the unit's needrestart handler if there
      is one; without one it restarts the unit detached, except for the bus, where it only says so. */
  datatype RiskyRun = RiskyRun(handler: bool, ran: Reply)
  {
    predicate Absent(svc: string) { IsDbusFamily(svc) && !handler }

    function Heard(svc: string): Reply {
      if Absent(svc) then Reply(HANDLER_ABSENT, None) else ran
    }
  }

  /** A risky unit that is requested once needs a reboot exactly when it is the bus and its host has no
      handler; otherwise a command that ended well, or lost its connection, counts as dispatched, and
      any other failure is reported with its reason. */
  lemma JudgedByItsHandler(services: seq<string>, batch: Reply, replies: seq<Reply>, i: nat, run: RiskyRun)
    requires |replies| == |Risky(services, true)| && i < |replies| && Times(services, Risky(services, true)[i]) == 1
    requires replies[i] == run.Heard(Risky(services, true)[i]) && !Contains(run.ran.out, HANDLER_ABSENT)
    requires !run.ran.HostKeyError()
    ensures var svc := Risky(services, true)[i]; var lines := Report(services, batch, replies);
      svc in Done(lines) && Done(lines)[svc] ==
        if run.Absent(svc) then Line(svc, NeedsReboot, "")
        else match run.ran.err
          case None => Line(svc, Sent, "")
          case Some(Lost(_)) => Line(svc, Sent, "")
          case Some(e) => Line(svc, Refused, Reason(e.text))
  {
    hide IsDbusFamily, Reason, Report, Risky, Contains;
    SpecialLineOf(services, batch, replies, i);
    MarkerIsThere();
  }

  lemma MarkerIsThere()
    ensures Contains(HANDLER_ABSENT, HANDLER_ABSENT)
  {
  }

  /** A tab behind a name can hide a failure: with both names in the request, the unit that failed is
      reported as dispatched. */
  lemma {:induction false} FailureIsHidden(name: string, rc: int, out: string, rc': int, out': string, batch: Reply)
    requires RestartBatch.Unit(name, rc, out).Proper() && -MaxInt - 1 <= rc' <= MaxInt
    requires !IsRisky(name) && !IsRisky(name + "\t")
    requires var session := [RestartBatch.Unit(name, rc, out), RestartBatch.Unit(name + "\t", rc', out')];
      batch.out == TrimSpace(Lines.Render(Texts(session)))
    ensures Risky([name, name + "\t"], true) == []
    ensures var lines := Report([name, name + "\t"], batch, []);
      name in Done(lines) && Done(lines)[name].kind == Sent
  {
    assert Free(name, '\t') && Free(name, '\n');
    hide Entry, Entries, Split, TrimSpace, TrimLeft, TrimRight, Flatten, IsUnitNotFoundText, Reason, Report, IsRisky,
         Lines.Render, RestartBatch.Line.Text, RestartBatch.Line.Proper, Marker;
    var services := [name, name + "\t"];
    var first, second := RestartBatch.Unit(name, rc, out), RestartBatch.Unit(name + "\t", rc', out');
    var texts := [first.Text(), second.Text()];
    NoneRisky(name, name + "\t");
    assert Texts([first, second]) == texts;
    UnitIsSteady(first);
    TabCountsAsSuccess(name, rc', out');
    TextIsOneLine(first);
    TabTextIsOneLine(name, rc', out');
    SteadyOutput(texts);
    assert texts == [texts[0]] + [texts[1]];
    EntriesAppend([texts[0]], [texts[1]]);
    OneEntry(texts[0]);
    OneEntry(texts[1]);
    BatchLineOf(services, batch, [], name);
  }

  lemma NoneRisky(a: string, b: string)
    requires !IsRisky(a) && !IsRisky(b)
    ensures Risky([a, b], true) == []
  {
    hide IsRisky;
    assert [a, b][..1] == [a] && [a][..0] == [];
    assert Risky([a], true) == [];
  }
}
