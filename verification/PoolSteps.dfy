/** What each critical section of the pool does in a state that some run reaches, told by who has a live
    connection, who leases it, and who may still get it. */
module PoolSteps {
  import opened Strings
  import opened PoolKey
  import opened PoolProtocol

  ghost predicate Reachable(s: State) {
    exists states, steps, i: nat :: Run(states, steps) && i < |states| && states[i] == s
  }

  lemma ReachableInv(s: State)
    requires Reachable(s)
    ensures Inv(s)
  {
    hide Run, Inv;
    var states, steps, i: nat :| Run(states, steps) && i < |states| && states[i] == s;
    RunKeepsInv(states, steps, i);
  }

  /** A live connection that a request with this key may share. */
  ghost predicate Shareable(s: State, id: Id, key: string) {
    s.sh.LivePooled(id) && s.sh.recs[id].key == key
  }

  lemma ShareableInMap(s: State, id: Id, key: string)
    requires Inv(s) && s.sh.Linked()
    ensures Shareable(s, id, key) <==> key in s.sh.conns && s.sh.conns[key] == id && !s.sh.recs[id].dead
  {
    hide Inv;
    InvAt(s, id, key);
    if key in s.sh.conns && s.sh.conns[key] == id {
      assert EntryOk(s.sh, key);
    }
    if Shareable(s, id, key) { assert IdOk(s, id); }
  }

  lemma IsLinked(s: State)
    requires Inv(s)
    ensures s.sh.Linked()
  {
    forall k | k in s.sh.conns ensures s.sh.conns[k] in s.sh.recs { assert EntryOk(s.sh, k); }
  }

  lemma InvAt(s: State, id: Id, key: string)
    requires Inv(s)
    ensures IdOk(s, id) && EntryOk(s.sh, key)
  {
  }

  /** A caller that asks while there is a live pooled connection with its key gets that connection: one
      more user, used last now, and nothing else is touched. */
  lemma AcquireReuses(s: State, t: nat, now: int, id: Id)
    requires Reachable(s) && t in s.callers && s.callers[t].Acquiring?
    requires Shareable(s, id, s.callers[t].request.Key())
    ensures Enabled(s, Reuse(t, now))
    ensures var c, rec, s' := s.callers[t], s.sh.recs[id], Apply(s, Reuse(t, now));
      && s'.callers == s.callers[t := Opening(c.request, c.retried, id, true)]
      && s'.sh == Shared(s.sh.conns, s.sh.recs[id := rec.(users := rec.users + 1, last := now)])
      && s' == s.(callers := s'.callers, sh := s'.sh)
  {
    hide Inv, Reachable;
    ReachableInv(s);
    IsLinked(s);
    ShareableInMap(s, id, s.callers[t].request.Key());
  }

  /** Without one it goes on to dial, and the pool is as it was. */
  lemma AcquireDials(s: State, t: nat, now: int)
    requires Reachable(s) && t in s.callers && s.callers[t].Acquiring?
    requires forall id :: !Shareable(s, id, s.callers[t].request.Key())
    ensures Enabled(s, Reuse(t, now))
    ensures var c := s.callers[t];
      Apply(s, Reuse(t, now)) == s.(callers := s.callers[t := Dialing(c.request, c.retried)])
  {
    hide Inv, Reachable, Shareable;
    ReachableInv(s);
    IsLinked(s);
    var key := s.callers[t].request.Key();
    if key in s.sh.conns { ShareableInMap(s, s.sh.conns[key], key); }
  }

  /** A fresh connection is pooled exactly when no live one with its key is, and then it is the one that
      the next caller gets; its caller leases it alone. */
  lemma PublishPools(s: State, t: nat, now: int)
    requires Reachable(s) && Enabled(s, Publish(t, now))
    ensures var c, s' := s.callers[t], Apply(s, Publish(t, now)); var key := c.request.Key();
      && s'.callers == s.callers[t := Opening(c.request, c.retried, c.id, false)]
      && c.id in s'.sh.recs && s'.sh.recs == s.sh.recs[c.id := s'.sh.recs[c.id]]
      && s'.sh.recs[c.id] == Conn(c.request, key, 1, now, false, s'.sh.recs[c.id].pooled)
      && (s'.sh.recs[c.id].pooled <==> forall id :: !Shareable(s, id, key))
      && (s'.sh.recs[c.id].pooled ==> Shareable(s', c.id, key))
      && (forall id :: id != c.id ==> (Shareable(s', id, key) <==> Shareable(s, id, key)))
  {
    hide Inv, Reachable;
    ReachableInv(s);
    var c, s' := s.callers[t], Apply(s, Publish(t, now));
    var key := c.request.Key();
    assert IdOk(s, c.id) && CallerOk(s, t) by { NotPublished(s, t); }
    forall id ensures Shareable(s, id, key) <==> key in s.sh.conns && s.sh.conns[key] == id && !s.sh.recs[id].dead {
      ShareableInMap(s, id, key);
    }
  }

  lemma NotPublished(s: State, t: nat)
    requires Inv(s)
    ensures CallerOk(s, t)
    ensures t in s.callers && s.callers[t].Dialed? ==> IdOk(s, s.callers[t].id)
  {
  }

  /** What happens to the pool when connection `id` is found to be of no more use. */
  ghost predicate GivenUp(s: State, s': State, id: Id) {
    && id in s.sh.recs && s'.sh.recs == s.sh.recs[id := s.sh.recs[id].(dead := true)]
    && (forall other, key :: Shareable(s', other, key) <==> other != id && Shareable(s, other, key))
  }

  lemma EvictGivesUp(s: State, id: Id, s': State)
    requires Inv(s) && id in s.sh.recs && s'.sh == EvictSection(s.sh, id)
    ensures GivenUp(s, s', id)
  {
    hide Inv;
    forall other, key ensures Shareable(s', other, key) <==> other != id && Shareable(s, other, key) {
    }
  }

  /** After an abort, a timeout or a drop that was noticed, nobody gets the connection any more, and all
      others stay as available as they were. */
  lemma EvictedIsGone(s: State, step: Step)
    requires Reachable(s) && Enabled(s, step) && (step.Abort? || step.SessionTimesOut? || step.Notice?)
    ensures var id := if step.Notice? then step.id else s.callers[step.t].id;
      var s' := Apply(s, step);
      && GivenUp(s, s', id)
      && s'.callers == (if step.SessionTimesOut? then s.callers[step.t := Failed(s.callers[step.t])] else s.callers)
      && (step.Notice? || id in s'.forced)
      && s'.quiet == s.quiet && s'.open == s.open
  {
    hide Inv, Reachable, GivenUp, EvictSection;
    ReachableInv(s);
    EvictGivesUp(s, if step.Notice? then step.id else s.callers[step.t].id, Apply(s, step));
  }

  /** Where a caller goes whose session could not be opened: once more to the pool, with the keys of now, if
      the connection was a reused one and this was the first attempt. */
  function AfterFailure(c: Caller, again: Request): Caller
    requires c.OpenFailed?
  {
    if c.cached && !c.retried then Acquiring(again, true) else Idle
  }

  /** A caller hands its connection back. The connection has one user less and was used last now; when it is
      broken nobody gets it any more. It is to be closed exactly when nobody leases it and nobody can
      get it. */
  lemma HandedBack(s: State, step: Step)
    requires Reachable(s) && Enabled(s, step) && (step.End? || step.ReleaseFailed?)
    ensures var id := s.callers[step.t].id; var broken := step.ReleaseFailed? || step.broken;
      var s' := Apply(s, step);
      && id in s'.sh.recs && s'.sh.recs == s.sh.recs[id := s'.sh.recs[id]]
      && s'.sh.recs[id] == s.sh.recs[id].(users := s.sh.recs[id].users - 1, last := step.now, dead := s.sh.recs[id].dead || broken)
      && (forall other, key :: Shareable(s', other, key) <==> Shareable(s, other, key) && !(broken && other == id))
      && (id in s'.quiet <==> id in s.quiet || (LeaseCount(s'.callers, id) == 0 && !s'.sh.LivePooled(id)))
      && s'.callers == s.callers[step.t := if step.End? then Idle else AfterFailure(s.callers[step.t], step.again)]
  {
    hide Inv, Reachable;
    ReachableInv(s);
    var c := s.callers[step.t];
    var id, s' := c.id, Apply(s, step);
    InvAt(s, id, s.sh.recs[id].key);
    LeaseCountAfter(s.callers, step.t, s'.callers[step.t], id);
    LeaseIsCounted(s.callers, step.t, id);
  }

  /** The reaper gives up, and goes on to close, exactly the pooled connections that nobody leases and that
      were used last more than 20 seconds ago. */
  ghost predicate Stale(s: State, id: Id, now: int) {
    s.sh.LivePooled(id) && LeaseCount(s.callers, id) == 0 && now - s.sh.recs[id].last > 20_000_000_000
  }

  lemma ReapedExactly(s: State, now: int, id: Id)
    requires Reachable(s) && Enabled(s, Reap(now))
    ensures var s' := Apply(s, Reap(now));
      && s'.callers == s.callers && (id in s'.sh.recs <==> id in s.sh.recs)
      && (id in s.sh.recs ==> s'.sh.recs[id] == s.sh.recs[id].(dead := s.sh.recs[id].dead || Stale(s, id, now)))
      && (id in s'.quiet <==> id in s.quiet || Stale(s, id, now))
      && (forall key :: Shareable(s', id, key) <==> Shareable(s, id, key) && !Stale(s, id, now))
  {
    hide Inv, Reachable, Shareable;
    ReachableInv(s);
    var s' := Apply(s, Reap(now));
    var idle := ReapSection(s.sh, now).1;
    InvAt(s, id, "");
    if id in s.sh.recs {
      var key := s.sh.recs[id].key;
      InvAt(s, id, key);
      assert Stale(s, id, now) ==> key in s.sh.conns && s.sh.conns[key] == id;
      if id in idle {
        var k :| k in s.sh.conns && IdleTooLong(s.sh.recs[s.sh.conns[k]], now) && s.sh.conns[k] == id;
        InvAt(s, id, k);
      }
    }
    assert id in idle <==> Stale(s, id, now);
    StillShareable(s, s', id, now);
  }

  lemma StillShareable(s: State, s': State, id: Id, now: int)
    requires (id in s'.sh.recs <==> id in s.sh.recs)
    requires id in s.sh.recs ==> s'.sh.recs[id] == s.sh.recs[id].(dead := s.sh.recs[id].dead || Stale(s, id, now))
    ensures forall key :: Shareable(s', id, key) <==> Shareable(s, id, key) && !Stale(s, id, now)
  {
    hide LeaseCount;
  }
}
