/** The digest that collects host outcomes, and what a list of events makes of it. */
module Digests {
  import opened Strings

  datatype PendingHost = PendingHost(name: string, packages: nat, security: nat, isNew: bool, reboot: bool, restarts: nat)
  datatype AppliedHost = AppliedHost(name: string, changed: nat, reboot: bool, interrupted: bool)
  datatype FailedHost = FailedHost(name: string, phase: string, err: string)

  datatype Digest = Digest(pending: seq<PendingHost>, applied: seq<AppliedHost>, failed: seq<FailedHost>, upToDate: nat)

  const EMPTY := Digest([], [], [], 0)

  /** What a caller adds to a digest. */
  datatype Event = APending(p: PendingHost) | AnApply(a: AppliedHost) | AFailure(f: FailedHost)

  function Without(pending: seq<PendingHost>, name: string): seq<PendingHost> {
    if pending == [] then []
    else
      var n := |pending| - 1;
      var kept := Without(pending[..n], name);
      if pending[n].name == name then kept else kept + [pending[n]]
  }

  lemma WithoutSnoc(pending: seq<PendingHost>, i: nat, name: string)
    requires i < |pending|
    ensures var kept := Without(pending[..i], name);
      Without(pending[..i + 1], name) == if pending[i].name == name then kept else kept + [pending[i]]
  {
    assert pending[..i + 1][..i] == pending[..i];
  }

  function AfterApply(d: Digest, a: AppliedHost): Digest {
    var kept := d.(pending := Without(d.pending, a.name));
    if a.changed == 0 && !a.interrupted then kept.(upToDate := d.upToDate + 1) else kept.(applied := d.applied + [a])
  }

  function AddEvent(d: Digest, e: Event): Digest {
    match e
    case APending(p) => d.(pending := d.pending + [p])
    case AnApply(a) => AfterApply(d, a)
    case AFailure(f) => d.(failed := d.failed + [f])
  }

  function Built(events: seq<Event>): Digest {
    if events == [] then EMPTY else AddEvent(Built(events[..|events| - 1]), events[|events| - 1])
  }

  /** The loop of `AddApplied`: the kept entries move to the front of the same buffer. */
  method FilterInPlace(buffer: array<PendingHost>, count: nat, name: string) returns (kept: nat)
    requires count <= buffer.Length
    modifies buffer
    ensures kept <= count && buffer[..kept] == Without(old(buffer[..count]), name)
  {
    kept := 0;
    ghost var before := buffer[..count];
    for i := 0 to count
      invariant kept <= i
      invariant forall j :: i <= j < count ==> buffer[j] == before[j]
      invariant buffer[..kept] == Without(before[..i], name)
    {
      hide Without;
      WithoutSnoc(before, i, name);
      ghost var done := buffer[..kept];
      if buffer[i].name != name {
        buffer[kept] := buffer[i];
        kept := kept + 1;
        assert buffer[..kept] == done + [before[i]];
      }
    }
    assert before[..count] == before;
  }

  /** The digest while it is being filled: the pending hosts sit in a buffer that is filtered in
      place. */
  class Collector {
    var buffer: array<PendingHost>
    var count: nat
    var applied: seq<AppliedHost>
    var failed: seq<FailedHost>
    var upToDate: nat

    ghost predicate Valid()
      reads this
    {
      count <= buffer.Length
    }

    ghost function View(): Digest
      reads this, buffer
      requires Valid()
    {
      Digest(buffer[..count], applied, failed, upToDate)
    }

    method AddApplied(a: AppliedHost)
      requires Valid()
      modifies this, buffer
      ensures Valid() && buffer == old(buffer)
      ensures View() == AfterApply(old(View()), a)
    {
      var kept := FilterInPlace(buffer, count, a.name);
      count := kept;
      if a.changed == 0 && !a.interrupted {
        upToDate := upToDate + 1;
      } else {
        applied := applied + [a];
      }
    }
  }

  // ----- what the digest says about its events

  /** Event `i` is a pending host that no later apply took off the list. */
  ghost predicate StillPending(events: seq<Event>, i: nat) {
    i < |events| && events[i].APending? &&
    forall j :: i < j < |events| && events[j].AnApply? ==> events[j].a.name != events[i].p.name
  }

  /** The hosts of the first `n` events that are still pending at the end, in order. */
  ghost function Listed(events: seq<Event>, n: nat): seq<PendingHost>
    requires n <= |events|
  {
    if n == 0 then []
    else if StillPending(events, n - 1) then Listed(events, n - 1) + [events[n - 1].p]
    else Listed(events, n - 1)
  }

  lemma {:induction false} ListedAfter(events: seq<Event>, e: Event, n: nat)
    requires n <= |events|
    ensures Listed(events + [e], n) == if e.AnApply? then Without(Listed(events, n), e.a.name) else Listed(events, n)
  {
    if n > 0 {
      ListedAfter(events, e, n - 1);
      var all := events + [e];
      assert StillPending(all, n - 1) <==>
        StillPending(events, n - 1) && !(e.AnApply? && e.a.name == events[n - 1].p.name)
      by {
        assert all[n - 1] == events[n - 1] && all[|events|] == e;
        assert forall j :: n - 1 < j < |events| ==> all[j] == events[j];
      }
      var l := Listed(events, n - 1);
      if StillPending(events, n - 1) {
        assert (l + [events[n - 1].p])[..|l|] == l;
      }
    }
  }

  /** The applies that changed something or were cut off, in order. */
  function Shown(events: seq<Event>): seq<AppliedHost> {
    if events == [] then []
    else
      var n := |events| - 1;
      var e := events[n];
      if e.AnApply? && (e.a.changed > 0 || e.a.interrupted) then Shown(events[..n]) + [e.a] else Shown(events[..n])
  }

  function Failures(events: seq<Event>): seq<FailedHost> {
    if events == [] then []
    else
      var n := |events| - 1;
      if events[n].AFailure? then Failures(events[..n]) + [events[n].f] else Failures(events[..n])
  }

  function Applies(events: seq<Event>): nat {
    if events == [] then 0
    else Applies(events[..|events| - 1]) + (if events[|events| - 1].AnApply? then 1 else 0)
  }

  /** A host is listed as pending exactly when no apply of it came later; an apply is listed if it did
      something or was cut off and is counted as up to date otherwise; every failure is listed. */
  lemma {:induction false} DigestOfEvents(events: seq<Event>)
    ensures var d := Built(events);
      && d.pending == Listed(events, |events|)
      && d.applied == Shown(events)
      && d.upToDate == Applies(events) - |Shown(events)|
      && d.failed == Failures(events)
  {
    if events != [] {
      var init, e := events[..|events| - 1], events[|events| - 1];
      assert events == init + [e];
      DigestOfEvents(init);
      ListedAfter(init, e, |init|);
      assert StillPending(events, |init|) <==> e.APending?;
    }
  }
}
