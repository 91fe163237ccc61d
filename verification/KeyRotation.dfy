/** Rotating the SSH key without locking a host out: the check in front of a promotion, and every run
    of the server, its crashes and the hosts' authorized keys. */
module KeyRotation {
  import opened Strings
  import opened KeyStore

  /** A host's record, with the keys that its machine accepts. */
  datatype Host = Host(name: string, appKey: bool, trusted: set<nat>)

  datatype KeyCheck = KeyCheck(name: string, ok: bool)

  // ----- the check in front of a promotion

  function AppKeyHosts(all: seq<Host>): seq<Host> {
    if all == [] then []
    else
      var n := |all| - 1;
      if all[n].appKey then AppKeyHosts(all[..n]) + [all[n]] else AppKeyHosts(all[..n])
  }

  lemma {:induction false} AppKeyHostsAre(all: seq<Host>, h: Host)
    ensures h in AppKeyHosts(all) <==> h in all && h.appKey
  {
    if all != [] {
      var n := |all| - 1;
      var init, last := all[..n], all[n];
      AppKeyHostsAre(init, h);
      assert all == init + [last];
    }
  }

  /** The hosts that log in with Patchdeck's key; `loaded` is None when the host list cannot be read,
      which the code takes for an empty list. */
  method ListAppKeyHosts(loaded: Option<seq<Host>>) returns (out: seq<Host>)
    ensures out == AppKeyHosts(if loaded.Some? then loaded.value else [])
  {
    var all := if loaded.Some? then loaded.value else [];
    out := [];
    for i := 0 to |all|
      invariant out == AppKeyHosts(all[..i])
    {
      assert all[..i + 1][..i] == all[..i];
      if all[i].appKey {
        out := out + [all[i]];
      }
    }
    assert all[..|all|] == all;
  }

  function Checks(hosts: seq<Host>, answers: seq<bool>): seq<KeyCheck>
    requires |answers| == |hosts|
  {
    seq(|hosts|, i requires 0 <= i < |hosts| => KeyCheck(hosts[i].name, answers[i]))
  }

  /** Logs into each host with the new key alone. `answers` is what the hosts say, `order` the order
      in which the goroutines finish. */
  method CheckHosts(hosts: seq<Host>, answers: seq<bool>, order: seq<nat>) returns (out: array<KeyCheck>)
    requires |answers| == |hosts|
    requires forall i :: i in order <==> 0 <= i < |hosts|
    ensures fresh(out) && out[..] == Checks(hosts, answers)
  {
    out := new KeyCheck[|hosts|](_ => KeyCheck("", false));
    for k := 0 to |order|
      invariant fresh(out) && out.Length == |hosts|
      invariant forall j :: 0 <= j < k && order[j] < |hosts| ==> out[order[j]] == KeyCheck(hosts[order[j]].name, answers[order[j]])
    {
      var i := order[k];
      assert i in order;
      out[i] := KeyCheck(hosts[i].name, true);
      if !answers[i] {
        out[i] := KeyCheck(hosts[i].name, false);
      }
    }
    forall i | 0 <= i < |hosts| ensures out[i] == KeyCheck(hosts[i].name, answers[i]) {
      assert i in order;
      var j :| 0 <= j < |order| && order[j] == i;
      assert out[order[j]] == KeyCheck(hosts[i].name, answers[i]);
    }
  }

  method AllOK(checks: seq<KeyCheck>) returns (ok: bool)
    ensures ok <==> forall i :: 0 <= i < |checks| ==> checks[i].ok
  {
    for i := 0 to |checks|
      invariant forall j :: 0 <= j < i ==> checks[j].ok
    {
      if !checks[i].ok {
        return false;
      }
    }
    return true;
  }

  /** The gate opens: it is forced, or every host that was listed took the new key. */
  predicate GateOpen(force: bool, answers: seq<bool>) {
    force || forall i :: 0 <= i < |answers| ==> answers[i]
  }

  function AfterGate(c: Codec, mem: Memory, m: Settings, force: bool, answers: seq<bool>, f: Faults): Effect {
    if mem.next.Some? && !GateOpen(force, answers) then (mem, m, Failed(NotReady)) else AfterFinish(c, mem, m, f)
  }

  method FinishRotation(store: Store, force: bool, loaded: Option<seq<Host>>, answers: seq<bool>, order: seq<nat>, f: Faults)
    returns (checks: seq<KeyCheck>, error: Option<KeyError>)
    requires store.Valid()
    requires var hosts := AppKeyHosts(if loaded.Some? then loaded.value else []);
      |answers| == |hosts| && forall i :: i in order <==> 0 <= i < |hosts|
    modifies store, store.disk
    ensures store.Valid()
    ensures var (mem, m, r) := AfterGate(store.codec, old(store.View()), old(store.disk.settings), force, answers, f);
      store.View() == mem && store.disk.settings == m && error == if r.Done? then None else Some(r.error)
    // without force, a next key is promoted exactly when every answer is yes and nothing fails
    ensures old(store.next).Some? && f.ReadsFine() && f.WritesFine() ==>
      if force || forall i :: 0 <= i < |answers| ==> answers[i]
      then store.View() == Memory(old(store.next).value, None) && error == None
      else store.View() == old(store.View()) && store.disk.settings == old(store.disk.settings) && error == Some(NotReady)
    ensures !(f.ReadsFine() && f.WritesFine()) || old(store.next).None? ==>
      store.View() == old(store.View()) && store.disk.settings == old(store.disk.settings) && error.Some?
    ensures old(store.next).None? <==> error == Some(NotRotating)
    ensures !force && old(store.next).Some? ==>
      checks == Checks(AppKeyHosts(if loaded.Some? then loaded.value else []), answers)
  {
    checks := [];
    if !force {
      if store.next.None? {
        return [], Some(NotRotating);
      }
      var hosts := ListAppKeyHosts(loaded);
      var out := CheckHosts(hosts, answers, order);
      checks := out[..];
      assert forall i :: 0 <= i < |checks| ==> checks[i].ok == answers[i];
      var ok := AllOK(checks);
      if !ok {
        return checks, Some(NotReady);
      }
    }
    var r := store.FinishRotation(f);
    error := if r.Done? then None else Some(r.error);
  }

  // ----- the server, its crashes and the hosts

  /** `used`: every key ever drawn. `gone`: every key that was held once and is not any more. */
  datatype State = State(mem: Memory, settings: Settings, hosts: seq<Host>, used: set<nat>, gone: set<nat>)

  /** `listed` says whether the host list loads. */
  datatype Op =
    | Start(draw: Fresh, f: Faults)
    | Cancel(f: Faults)
    | Finish(force: bool, listed: bool, answers: seq<bool>, f: Faults)

  /** `Crash` ends the process in the middle of an operation, before or after its transaction
      committed, and starts it again. The other steps are the operators of the hosts. */
  datatype Step =
    | Do(op: Op)
    | Crash(op: Op, committed: bool)
    | Install(i: nat, key: nat)
    | Remove(i: nat, key: nat)
    | Onboard(host: Host)
    | Change(i: nat, host: Host)
    | Delete(i: nat)

  function Effects(c: Codec, s: State, op: Op): Effect {
    match op
    case Start(draw, f) => AfterStart(c, s.mem, s.settings, draw, f)
    case Cancel(f) => AfterCancel(c, s.mem, s.settings, f)
    case Finish(force, _, answers, f) => AfterGate(c, s.mem, s.settings, force, answers, f)
  }

  /** The hosts that the check of a `Finish` asks. */
  function Asked(s: State, listed: bool): seq<Host> { AppKeyHosts(if listed then s.hosts else []) }

  predicate TrustsCurrent(mem: Memory, h: Host) { h.appKey ==> mem.cur.id in h.trusted }

  /** A drawn key is new, and a host that says yes to the next key accepts it. */
  predicate OpEnabled(s: State, op: Op) {
    match op
    case Start(draw, _) => draw.id !in s.used
    case Cancel(_) => true
    case Finish(force, listed, answers, _) =>
      |answers| == |Asked(s, listed)| &&
      forall i :: 0 <= i < |answers| && answers[i] && s.mem.next.Some? ==> s.mem.next.value.id in Asked(s, listed)[i].trusted
  }

  /** A host may drop any key but the current one, and starts to log in with Patchdeck's key only
      when it accepts the current one. */
  predicate Enabled(s: State, step: Step) {
    match step
    case Do(op) => OpEnabled(s, op)
    case Crash(op, _) => OpEnabled(s, op)
    case Install(i, _) => i < |s.hosts|
    case Remove(i, key) => i < |s.hosts| && key != s.mem.cur.id
    case Onboard(host) => TrustsCurrent(s.mem, host)
    case Change(i, host) => i < |s.hosts| && TrustsCurrent(s.mem, host)
    case Delete(i) => i < |s.hosts|
  }

  ghost function Drawn(s: State, op: Op): set<nat> {
    s.used + if op.Start? then {op.draw.id} else {}
  }

  ghost function Apply(c: Codec, s: State, step: Step): State
    requires Enabled(s, step)
  {
    match step
    case Do(op) =>
      var (mem, m, _) := Effects(c, s, op);
      State(mem, m, s.hosts, Drawn(s, op), s.gone + (s.mem.Ids() - mem.Ids()))
    case Crash(op, committed) =>
      var m := if committed then Effects(c, s, op).1 else s.settings;
      var mem := if Reopened(c, m).Some? then Reopened(c, m).value else s.mem;
      State(mem, m, s.hosts, Drawn(s, op), s.gone + (s.mem.Ids() - mem.Ids()))
    case Install(i, key) => s.(hosts := s.hosts[i := s.hosts[i].(trusted := s.hosts[i].trusted + {key})])
    case Remove(i, key) => s.(hosts := s.hosts[i := s.hosts[i].(trusted := s.hosts[i].trusted - {key})])
    case Onboard(host) => s.(hosts := s.hosts + [host])
    case Change(i, host) => s.(hosts := s.hosts[i := host])
    case Delete(i) => s.(hosts := s.hosts[..i] + s.hosts[i + 1..])
  }

  ghost predicate Inv(c: Codec, s: State) {
    && c.Sound()
    && Agree(c, s.mem, s.settings)
    && s.mem.Ids() <= s.used && s.gone <= s.used
    && s.gone !! s.mem.Ids()
    && (s.mem.next.Some? ==> s.mem.next.value.id != s.mem.cur.id)
  }

  /** No host that logs in with Patchdeck's key has lost the current one. */
  ghost predicate NoLockout(s: State) {
    forall i :: 0 <= i < |s.hosts| ==> TrustsCurrent(s.mem, s.hosts[i])
  }

  ghost predicate AllTrustNext(s: State) {
    s.mem.next.Some? && forall i :: 0 <= i < |s.hosts| && s.hosts[i].appKey ==> s.mem.next.value.id in s.hosts[i].trusted
  }

  /** The operation promotes the next key. */
  predicate Promotes(s: State, op: Op) {
    op.Finish? && s.mem.next.Some? && GateOpen(op.force, op.answers) && op.f.ReadsFine() && op.f.WritesFine()
  }

  predicate StepPromotes(s: State, step: Step) {
    (step.Do? && Promotes(s, step.op)) || (step.Crash? && step.committed && Promotes(s, step.op))
  }

  lemma EffectsAgree(c: Codec, s: State, op: Op)
    requires c.Sound() && Agree(c, s.mem, s.settings)
    ensures Agree(c, Effects(c, s, op).0, Effects(c, s, op).1)
    ensures Effects(c, s, op).2.Failed? ==> Effects(c, s, op).0 == s.mem && Effects(c, s, op).1 == s.settings
    ensures Effects(c, s, op).0.cur == (if Promotes(s, op) then s.mem.next.value else s.mem.cur)
    ensures Effects(c, s, op).0.Ids() <= s.mem.Ids() + (if op.Start? then {op.draw.id} else {})
    ensures Effects(c, s, op).0.next.Some? ==>
      (Effects(c, s, op).0.next == s.mem.next && !Promotes(s, op)) || (op.Start? && Effects(c, s, op).0.next.value.id == op.draw.id)
  {
    hide Agree, Save, StateOf;
    match op {
      case Start(draw, f) => StartAgrees(c, s.mem, s.settings, draw, f);
      case Cancel(f) => CancelAgrees(c, s.mem, s.settings, f);
      case Finish(force, _, answers, f) => FinishAgrees(c, s.mem, s.settings, f);
    }
  }

  /** A crash at any point of an operation leaves exactly the state before it or the state after it. */
  lemma CrashIsBeforeOrAfter(c: Codec, s: State, op: Op, committed: bool)
    requires Inv(c, s) && OpEnabled(s, op)
    ensures var t := Apply(c, s, Crash(op, committed));
      if committed then t == Apply(c, s, Do(op)) else t.mem == s.mem && t.settings == s.settings && t.gone == s.gone
  {
    hide Effects, Save, StateOf, Reopened;
    EffectsAgree(c, s, op);
  }

  lemma OpKeepsInv(c: Codec, s: State, op: Op)
    requires Inv(c, s) && OpEnabled(s, op)
    ensures Inv(c, Apply(c, s, Do(op)))
    ensures Apply(c, s, Do(op)).mem.cur == (if Promotes(s, op) then s.mem.next.value else s.mem.cur)
  {
    hide Effects, Save, StateOf, Reopened, Agree;
    EffectsAgree(c, s, op);
  }

  lemma StepKeepsInv(c: Codec, s: State, step: Step)
    requires Inv(c, s) && Enabled(s, step)
    ensures Inv(c, Apply(c, s, step))
    ensures Apply(c, s, step).mem.cur == (if StepPromotes(s, step) then s.mem.next.value else s.mem.cur)
  {
    hide Agree, Promotes, Save, StateOf, Effects;
    match step {
      case Do(op) => OpKeepsInv(c, s, op);
      case Crash(op, committed) =>
        OpKeepsInv(c, s, op);
        CrashIsBeforeOrAfter(c, s, op, committed);
      case _ =>
    }
  }

  /** A step leaves a host locked out exactly when it promotes a key that some host does not accept. */
  lemma LocksOutExactlyWhen(c: Codec, s: State, step: Step)
    requires Inv(c, s) && Enabled(s, step) && NoLockout(s)
    ensures NoLockout(Apply(c, s, step)) <==> (StepPromotes(s, step) ==> AllTrustNext(s))
  {
    var t := Apply(c, s, step);
    StepKeepsInv(c, s, step);
    hide Agree, Promotes, Save, StateOf, Effects, Inv;
    if step.Do? || step.Crash? {
      assert t.hosts == s.hosts;
      if StepPromotes(s, step) && NoLockout(t) {
        assert forall i :: 0 <= i < |s.hosts| && s.hosts[i].appKey ==> TrustsCurrent(t.mem, s.hosts[i]);
      }
    }
  }

  /** A promotion that is not forced and whose host list loaded is one that every host accepts. */
  lemma CheckedPromotion(s: State, op: Op)
    requires OpEnabled(s, op) && Promotes(s, op) && !op.force && op.listed
    ensures AllTrustNext(s)
  {
    var asked := Asked(s, true);
    forall i | 0 <= i < |s.hosts| && s.hosts[i].appKey ensures s.mem.next.value.id in s.hosts[i].trusted {
      AppKeyHostsAre(s.hosts, s.hosts[i]);
      var k :| 0 <= k < |asked| && asked[k] == s.hosts[i];
      assert op.answers[k];
    }
  }

  // ----- whole runs

  ghost predicate Run(c: Codec, states: seq<State>, steps: seq<Step>) {
    |states| == |steps| + 1 &&
    forall i :: 0 <= i < |steps| ==> Enabled(states[i], steps[i]) && states[i + 1] == Apply(c, states[i], steps[i])
  }

  /** Every finish of the run asks the hosts first. */
  predicate Careful(step: Step) {
    (step.Do? || step.Crash?) && step.op.Finish? ==> !step.op.force && step.op.listed
  }

  lemma {:induction false} RunKeepsInv(c: Codec, states: seq<State>, steps: seq<Step>, n: nat)
    requires Run(c, states, steps) && n < |states| && Inv(c, states[0])
    ensures Inv(c, states[n])
  {
    hide Inv, Enabled, Apply;
    if n > 0 {
      RunKeepsInv(c, states, steps, n - 1);
      assert Enabled(states[n - 1], steps[n - 1]) && states[n] == Apply(c, states[n - 1], steps[n - 1]);
      StepKeepsInv(c, states[n - 1], steps[n - 1]);
    }
  }

  /** Whatever is started, cancelled, finished after a check, crashed, installed and removed, no host
      loses the current key. */
  lemma {:induction false} NeverLockedOut(c: Codec, states: seq<State>, steps: seq<Step>, n: nat)
    requires Run(c, states, steps) && n < |states|
    requires Inv(c, states[0]) && NoLockout(states[0])
    requires forall i :: 0 <= i < |steps| ==> Careful(steps[i])
    ensures NoLockout(states[n])
  {
    hide Inv, Apply, NoLockout;
    if n > 0 {
      var s, step := states[n - 1], steps[n - 1];
      NeverLockedOut(c, states, steps, n - 1);
      RunKeepsInv(c, states, steps, n - 1);
      assert Enabled(s, step) && states[n] == Apply(c, s, step);
      LocksOutExactlyWhen(c, s, step);
      assert Careful(step);
      if StepPromotes(s, step) {
        CheckedPromotion(s, step.op);
      }
    }
  }

  /** In all these runs a host can log in: a key that it accepts is among those it is offered. */
  lemma {:induction false} AlwaysOfferedAKeyItTrusts(c: Codec, states: seq<State>, steps: seq<Step>, n: nat, i: nat)
    requires Run(c, states, steps) && n < |states|
    requires Inv(c, states[0]) && NoLockout(states[0])
    requires forall i :: 0 <= i < |steps| ==> Careful(steps[i])
    requires i < |states[n].hosts| && states[n].hosts[i].appKey
    ensures exists k :: k in states[n].mem.Offered() && k.id in states[n].hosts[i].trusted
  {
    NeverLockedOut(c, states, steps, n);
    assert TrustsCurrent(states[n].mem, states[n].hosts[i]);
    assert states[n].mem.cur in states[n].mem.Offered();
  }

  /** Memory and disk agree in every state, and a key that was retired or discarded is never offered
      again. */
  lemma {:induction false} GoneForGood(c: Codec, states: seq<State>, steps: seq<Step>, m: nat, n: nat, id: nat)
    requires Run(c, states, steps) && m <= n < |states| && Inv(c, states[0]) && id in states[m].gone
    ensures Agree(c, states[n].mem, states[n].settings)
    ensures id in states[n].gone && forall k :: k in states[n].mem.Offered() ==> k.id != id
  {
    hide *;
    StaysGone(c, states, steps, m, n, id);
    RunKeepsInv(c, states, steps, n);
    NeverOffered(c, states[n], id);
  }

  lemma {:induction false} StaysGone(c: Codec, states: seq<State>, steps: seq<Step>, m: nat, n: nat, id: nat)
    requires Run(c, states, steps) && m <= n < |states| && Inv(c, states[0]) && id in states[m].gone
    ensures id in states[n].gone
  {
    hide Inv, Enabled, Apply;
    if m < n {
      StaysGone(c, states, steps, m, n - 1, id);
      RunKeepsInv(c, states, steps, n - 1);
      assert Enabled(states[n - 1], steps[n - 1]) && states[n] == Apply(c, states[n - 1], steps[n - 1]);
      GoneGrows(c, states[n - 1], steps[n - 1]);
    }
  }

  lemma GoneGrows(c: Codec, s: State, step: Step)
    requires Enabled(s, step)
    ensures s.gone <= Apply(c, s, step).gone
  {
    hide Effects, Reopened;
  }

  lemma NeverOffered(c: Codec, s: State, id: nat)
    requires Inv(c, s)
    ensures Agree(c, s.mem, s.settings)
    ensures id in s.gone ==> forall k :: k in s.mem.Offered() ==> k.id != id
  {
    hide Agree;
  }

  /** A promotion retires the old key; with the lemma above, no later connection is offered it. */
  lemma PromotionRetires(c: Codec, s: State, op: Op)
    requires Inv(c, s) && OpEnabled(s, op) && Promotes(s, op)
    ensures s.mem.cur.id in Apply(c, s, Do(op)).gone
  {
    hide Agree, Save, StateOf;
  }

  /** When every host accepts the next key they can all say so, and then the finish promotes the key without
      force, retires the old one and locks nobody out. */
  lemma AllAcceptPromotes(c: Codec, states: seq<State>, steps: seq<Step>, n: nat, f: Faults)
    requires Run(c, states, steps) && n < |states| && Inv(c, states[0])
    requires AllTrustNext(states[n]) && f.ReadsFine() && f.WritesFine()
    ensures var s := states[n]; var answers := seq(|Asked(s, true)|, _ => true);
      var step := Do(Finish(false, true, answers, f));
      && Enabled(s, step)
      && Apply(c, s, step).mem == Memory(s.mem.next.value, None)
      && s.mem.cur.id in Apply(c, s, step).gone && NoLockout(Apply(c, s, step))
  {
    var s := states[n];
    RunKeepsInv(c, states, steps, n);
    var op := Finish(false, true, seq(|Asked(s, true)|, _ => true), f);
    forall i | 0 <= i < |op.answers| ensures s.mem.next.value.id in Asked(s, true)[i].trusted {
      AppKeyHostsAre(s.hosts, Asked(s, true)[i]);
    }
    hide Agree, Save, StateOf, AppKeyHosts, Run;
    StepKeepsInv(c, s, Do(op));
    Promoted(c, s, op);
  }

  lemma Promoted(c: Codec, s: State, op: Op)
    requires Inv(c, s) && OpEnabled(s, op) && op.Finish? && !op.force && s.mem.next.Some?
    requires forall i :: 0 <= i < |op.answers| ==> op.answers[i]
    requires op.f.ReadsFine() && op.f.WritesFine()
    ensures Apply(c, s, Do(op)).mem == Memory(s.mem.next.value, None) && s.mem.cur.id in Apply(c, s, Do(op)).gone
  {
    hide Agree, Save, StateOf, AppKeyHosts;
  }

  /** One host that says no, or a fault, and the unforced finish changes nothing. */
  lemma OneRefusalKeepsAll(c: Codec, s: State, op: Op)
    requires OpEnabled(s, op) && op.Finish? && !op.force
    requires (exists i :: 0 <= i < |op.answers| && !op.answers[i]) || !op.f.ReadsFine() || !op.f.WritesFine()
    ensures Apply(c, s, Do(op)) == s
  {
    hide Save, StateOf, AppKeyHosts;
  }

  /** A rotation that starts without a fault adds the drawn key to what is offered; the current key stays. */
  lemma StartOffersBoth(c: Codec, s: State, draw: Fresh, f: Faults)
    requires OpEnabled(s, Start(draw, f))
    ensures var t := Apply(c, s, Do(Start(draw, f)));
      if s.mem.next.None? && f.ReadsFine() && !f.generate && f.WritesFine()
      then t.mem.Offered() == s.mem.Offered() + [Key(draw.id, draw.now)]
      else t.mem == s.mem && t.settings == s.settings
  {
    hide Save, StateOf;
  }

  // ----- what the check does not catch

  const FINE := Faults(4, false, 6)

  /** When the host list does not load, the check asks nobody and the promotion goes through. */
  lemma UnreadableListLocksOut(c: Codec, s: State)
    requires Inv(c, s) && NoLockout(s) && s.mem.next.Some? && !AllTrustNext(s)
    ensures var step := Do(Finish(false, false, [], FINE)); Enabled(s, step) && !NoLockout(Apply(c, s, step))
  {
    hide Agree, Save, StateOf;
    LocksOutExactlyWhen(c, s, Do(Finish(false, false, [], FINE)));
  }

  // ----- a check, and a promotion later

  /** The second call of a finish, without the check. */
  function Promotion(f: Faults): Op { Finish(true, false, [], f) }

  /** What a passed check promises of `key`: it is the next key, and every host accepts it. */
  ghost predicate Promised(s: State, key: nat) {
    AllTrustNext(s) && s.mem.next.value.id == key
  }

  lemma CheckPromises(s: State, answers: seq<bool>, f: Faults)
    requires OpEnabled(s, Finish(false, true, answers, f)) && s.mem.next.Some? && GateOpen(false, answers)
    ensures Promised(s, s.mem.next.value.id)
  {
    CheckedPromotion(s, Finish(false, true, answers, FINE));
  }

  /** The operation takes the next key away: it is discarded or promoted. */
  predicate TakesNext(s: State, op: Op) {
    s.mem.next.Some? && !op.Start? && op.f.ReadsFine() && op.f.WritesFine() &&
    (op.Finish? ==> GateOpen(op.force, op.answers))
  }

  /** The steps that break the promise: the next key goes, a host drops it, or a host that does not
      accept it comes in. */
  predicate Breaks(s: State, step: Step, key: nat) {
    match step
    case Do(op) => TakesNext(s, op)
    case Crash(op, committed) => committed && TakesNext(s, op)
    case Install(_, _) => false
    case Remove(i, k) => i < |s.hosts| && s.hosts[i].appKey && k == key
    case Onboard(host) => host.appKey && key !in host.trusted
    case Change(_, host) => host.appKey && key !in host.trusted
    case Delete(_) => false
  }

  lemma OpKeepsNext(c: Codec, s: State, op: Op)
    requires s.mem.next.Some?
    ensures TakesNext(s, op) ==> Effects(c, s, op).0.next.None?
    ensures !TakesNext(s, op) ==> Effects(c, s, op).0 == s.mem
  {
    hide Save, StateOf;
  }

  lemma OpKeepsPromise(c: Codec, s: State, op: Op, key: nat)
    requires Inv(c, s) && OpEnabled(s, op) && Promised(s, key)
    ensures Promised(Apply(c, s, Do(op)), key) <==> !TakesNext(s, op)
  {
    hide Agree, Effects, TakesNext;
    OpKeepsNext(c, s, op);
  }

  lemma HostsKeepPromise(c: Codec, s: State, step: Step, key: nat)
    requires Enabled(s, step) && !step.Do? && !step.Crash? && Promised(s, key)
    ensures Promised(Apply(c, s, step), key) <==> !Breaks(s, step, key)
  {
    var t := Apply(c, s, step);
    hide Effects, Reopened;
    match step {
      case Install(i, k) => assert t.hosts[i].trusted == s.hosts[i].trusted + {k};
      case Remove(i, k) => assert t.hosts[i].trusted == s.hosts[i].trusted - {k};
      case Onboard(host) => assert t.hosts[|s.hosts|] == host;
      case Change(i, host) => assert t.hosts[i] == host;
      case Delete(i) =>
    }
  }

  /** A step between the check and the promotion breaks the promise exactly when it is one of these. */
  lemma PromiseBrokenExactly(c: Codec, s: State, step: Step, key: nat)
    requires Inv(c, s) && Enabled(s, step) && Promised(s, key)
    ensures Promised(Apply(c, s, step), key) <==> !Breaks(s, step, key)
  {
    hide Inv, Promised, TakesNext, Effects;
    match step {
      case Do(op) => OpKeepsPromise(c, s, op, key);
      case Crash(op, committed) =>
        OpKeepsPromise(c, s, op, key);
        CrashIsBeforeOrAfter(c, s, op, committed);
        if !committed {
          CrashKeepsHosts(c, s, op, committed, key);
        }
      case _ => HostsKeepPromise(c, s, step, key);
    }
  }

  lemma CrashKeepsHosts(c: Codec, s: State, op: Op, committed: bool, key: nat)
    requires OpEnabled(s, op) && Apply(c, s, Crash(op, committed)).mem == s.mem
    ensures Promised(Apply(c, s, Crash(op, committed)), key) <==> Promised(s, key)
  {
    hide Effects, Reopened;
  }

  /** A check that passed, any steps that do not break its promise, crashes included, and then the
      promotion: no host is locked out. */
  lemma {:induction false} PromotedAfterCheck(c: Codec, states: seq<State>, steps: seq<Step>, m: nat, n: nat,
                                              answers: seq<bool>, f: Faults)
    requires Run(c, states, steps) && m <= n < |states| && Inv(c, states[0]) && NoLockout(states[n])
    requires OpEnabled(states[m], Finish(false, true, answers, f)) && states[m].mem.next.Some? && GateOpen(false, answers)
    requires forall j :: m <= j < n ==> !Breaks(states[j], steps[j], states[m].mem.next.value.id)
    ensures OpEnabled(states[n], Promotion(f)) && NoLockout(Apply(c, states[n], Do(Promotion(f))))
  {
    CheckPromises(states[m], answers, f);
    hide Inv, Promised, Breaks, Apply, NoLockout;
    PromiseStays(c, states, steps, m, n, states[m].mem.next.value.id);
    RunKeepsInv(c, states, steps, n);
    PromisedTrust(states[n], states[m].mem.next.value.id);
    LocksOutExactlyWhen(c, states[n], Do(Promotion(f)));
  }

  lemma PromisedTrust(s: State, key: nat)
    requires Promised(s, key)
    ensures AllTrustNext(s)
  {
  }

  lemma {:induction false} PromiseStays(c: Codec, states: seq<State>, steps: seq<Step>, m: nat, n: nat, key: nat)
    requires Run(c, states, steps) && m <= n < |states| && Inv(c, states[0]) && Promised(states[m], key)
    requires forall j :: m <= j < n ==> !Breaks(states[j], steps[j], key)
    ensures Promised(states[n], key)
  {
    hide Inv, Enabled, Apply, Promised, Breaks;
    if m < n {
      PromiseStays(c, states, steps, m, n - 1, key);
      RunKeepsInv(c, states, steps, n - 1);
      assert Enabled(states[n - 1], steps[n - 1]) && states[n] == Apply(c, states[n - 1], steps[n - 1]);
      PromiseBrokenExactly(c, states[n - 1], steps[n - 1], key);
    }
  }

  /** With a cancel and a start in between, the promotion takes a key that no host was asked about. */
  lemma {:induction false} StaleCheckLocksOut(c: Codec, s: State, i: nat, draw: Fresh)
    requires Inv(c, s) && AllTrustNext(s) && NoLockout(s) && i < |s.hosts| && s.hosts[i].appKey
    requires draw.id !in s.used && draw.id !in s.hosts[i].trusted
    ensures var s1 := Apply(c, s, Do(Cancel(FINE))); var s2 := Apply(c, s1, Do(Start(draw, FINE)));
      !NoLockout(Apply(c, s2, Do(Promotion(FINE))))
  {
    hide Agree, Save, StateOf;
    var s1 := Apply(c, s, Do(Cancel(FINE)));
    var s2 := Apply(c, s1, Do(Start(draw, FINE)));
    assert !TrustsCurrent(Apply(c, s2, Do(Promotion(FINE))).mem, s2.hosts[i]);
  }

  /** So does a host that drops the next key after it was asked. */
  lemma DroppedAfterCheckLocksOut(c: Codec, s: State, i: nat)
    requires Inv(c, s) && AllTrustNext(s) && NoLockout(s) && i < |s.hosts| && s.hosts[i].appKey
    ensures var step := Remove(i, s.mem.next.value.id);
      Enabled(s, step) && !NoLockout(Apply(c, Apply(c, s, step), Do(Promotion(FINE))))
  {
    hide Agree, Save, StateOf;
    var t := Apply(c, s, Remove(i, s.mem.next.value.id));
    assert !TrustsCurrent(Apply(c, t, Do(Promotion(FINE))).mem, t.hosts[i]);
  }
}
