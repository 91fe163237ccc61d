/** The SSH connection pool as a protocol: every critical section is one atomic step, and sections
    of any number of callers, of the waiter goroutines and of the reaper interleave in any order
    with dials, closes and drops of the transports. */
module PoolProtocol {
  import opened Strings
  import opened PoolKey

  /** `poolIdle`, in nanoseconds. */
  const POOL_IDLE: int := 20_000_000_000

  type Id = nat

  datatype Conn = Conn(request: Request, key: string, users: int, last: int, dead: bool, pooled: bool)

  /** What the pool's mutex guards: the map from keys, and the records that it leads to. */
  datatype Shared = Shared(conns: map<string, Id>, recs: map<Id, Conn>)
  {
    /** the entries of the map lead to records. */
    ghost predicate Linked() {
      forall k :: k in conns ==> conns[k] in recs
    }

    predicate LivePooled(id: Id) {
      id in recs && !recs[id].dead && recs[id].pooled
    }

    predicate InMap(id: Id) {
      id in recs && recs[id].key in conns && conns[recs[id].key] == id
    }
  }

  // ----- the critical sections

  /** `acquire`, first section: take a live pooled connection. */
  function ReuseSection(sh: Shared, key: string, now: int): (Shared, Option<Id>)
    requires sh.Linked()
  {
    if key in sh.conns && !sh.recs[sh.conns[key]].dead then
      var id := sh.conns[key];
      var c := sh.recs[id];
      (sh.(recs := sh.recs[id := c.(users := c.users + 1, last := now)]), Some(id))
    else (sh, None)
  }

  /** `acquire`, second section: a fresh connection enters the map unless a live one is there. */
  function PublishSection(sh: Shared, id: Id, request: Request, now: int): Shared
    requires sh.Linked()
  {
    var key := request.Key();
    var free := key !in sh.conns || sh.recs[sh.conns[key]].dead;
    Shared(if free then sh.conns[key := id] else sh.conns, sh.recs[id := Conn(request, key, 1, now, false, free)])
  }

  function DropFromMap(conns: map<string, Id>, key: string, id: Id): map<string, Id> {
    if key in conns && conns[key] == id then conns - {key} else conns
  }

  /** `abort`, and the waiter goroutine: mark the connection dead and take it out of the map. */
  function EvictSection(sh: Shared, id: Id): Shared
    requires id in sh.recs
  {
    var c := sh.recs[id];
    Shared(DropFromMap(sh.conns, c.key, id), sh.recs[id := c.(dead := true)])
  }

  /** `release`: the new state, and whether the caller must close the transport. */
  function ReleaseSection(sh: Shared, id: Id, broken: bool, now: int): (Shared, bool)
    requires id in sh.recs
  {
    var c := sh.recs[id].(users := sh.recs[id].users - 1, last := now);
    var c' := if broken then c.(dead := true) else c;
    var conns := if broken then DropFromMap(sh.conns, c.key, id) else sh.conns;
    (Shared(conns, sh.recs[id := c']), (c'.dead || !c'.pooled) && c'.users <= 0)
  }

  predicate IdleTooLong(c: Conn, now: int) { c.users <= 0 && now - c.last > POOL_IDLE }

  /** `closeIdle`: the new state, and the transports the reaper goes on to close. */
  function ReapSection(sh: Shared, now: int): (Shared, set<Id>)
    requires sh.Linked()
  {
    var idle := set k | k in sh.conns && IdleTooLong(sh.recs[sh.conns[k]], now) :: sh.conns[k];
    (Shared(map k | k in sh.conns && !IdleTooLong(sh.recs[sh.conns[k]], now) :: sh.conns[k],
            map id | id in sh.recs :: if id in idle then sh.recs[id].(dead := true) else sh.recs[id]),
     idle)
  }

  // ----- callers and transports

  /** Where a caller of `openSession` is. `retried` is `attempt > 0`. */
  datatype Caller =
    | Idle
    | Acquiring(request: Request, retried: bool)
    | Dialing(request: Request, retried: bool)
    | Dialed(request: Request, retried: bool, id: Id)
    | Opening(request: Request, retried: bool, id: Id, cached: bool)
    | OpenFailed(request: Request, retried: bool, id: Id, cached: bool)
    | InSession(id: Id)
  {
    /** A lease: an acquired connection that was not released yet. */
    predicate Leases(c: Id) {
      (Opening? && id == c) || (OpenFailed? && id == c) || (InSession? && id == c)
    }
  }

  /** `waiters`: connections whose waiter goroutine has not run its section yet. `quiet` and
      `forced`: transports that a step has committed to close, after a release or the reaper, and
      after an abort. The close itself is a later step. */
  datatype State = State(sh: Shared, callers: map<nat, Caller>, issued: set<Id>, open: set<Id>,
                         waiters: set<Id>, quiet: set<Id>, forced: set<Id>)

  datatype Step =
    | Begin(t: nat, request: Request)
    | Reuse(t: nat, now: int)
    | DialFails(t: nat)
    | DialWorks(t: nat, id: Id)
    | Publish(t: nat, now: int)
    | SessionOpens(t: nat)
    | SessionFails(t: nat)
    | SessionTimesOut(t: nat)
    | ReleaseFailed(t: nat, now: int, again: Request)
    | Abort(t: nat)
    | End(t: nat, broken: bool, now: int)
    | PeerCloses(id: Id)
    | CloseQuiet(id: Id)
    | CloseForced(id: Id)
    | Notice(id: Id)
    | Reap(now: int)

  predicate At(s: State, t: nat) { t in s.callers }

  ghost predicate Enabled(s: State, step: Step) {
    s.sh.Linked() &&
    match step
    case Begin(t, _) => At(s, t) && s.callers[t].Idle?
    case Reuse(t, _) => At(s, t) && s.callers[t].Acquiring?
    case DialFails(t) => At(s, t) && s.callers[t].Dialing?
    case DialWorks(t, id) => At(s, t) && s.callers[t].Dialing? && id !in s.issued
    case Publish(t, _) => At(s, t) && s.callers[t].Dialed?
    case SessionOpens(t) => At(s, t) && s.callers[t].Opening?
    case SessionFails(t) => At(s, t) && s.callers[t].Opening?
    case SessionTimesOut(t) => At(s, t) && s.callers[t].Opening? && s.callers[t].id in s.sh.recs
    case ReleaseFailed(t, _, again) =>
      At(s, t) && s.callers[t].OpenFailed? && s.callers[t].id in s.sh.recs && again.host == s.callers[t].request.host
    case Abort(t) => At(s, t) && s.callers[t].InSession? && s.callers[t].id in s.sh.recs
    case End(t, _, _) => At(s, t) && s.callers[t].InSession? && s.callers[t].id in s.sh.recs
    case PeerCloses(id) => id in s.open
    case CloseQuiet(id) => id in s.quiet
    case CloseForced(id) => id in s.forced
    case Notice(id) => id in s.waiters && id !in s.open && id in s.sh.recs
    case Reap(_) => true
  }

  function Goto(s: State, t: nat, c: Caller): State {
    s.(callers := s.callers[t := c])
  }

  function Apply(s: State, step: Step): State
    requires Enabled(s, step)
  {
    match step
    case Begin(t, request) => Goto(s, t, Acquiring(request, false))
    case Reuse(t, now) =>
      var c := s.callers[t];
      var (sh, found) := ReuseSection(s.sh, c.request.Key(), now);
      Goto(s.(sh := sh), t,
           if found.Some? then Opening(c.request, c.retried, found.value, true) else Dialing(c.request, c.retried))
    case DialFails(t) => Goto(s, t, Idle)
    case DialWorks(t, id) =>
      Goto(s.(issued := s.issued + {id}, open := s.open + {id}), t, Dialed(s.callers[t].request, s.callers[t].retried, id))
    case Publish(t, now) =>
      var c := s.callers[t];
      Goto(s.(sh := PublishSection(s.sh, c.id, c.request, now), waiters := s.waiters + {c.id}), t,
           Opening(c.request, c.retried, c.id, false))
    case SessionOpens(t) => Goto(s, t, InSession(s.callers[t].id))
    case SessionFails(t) => Goto(s, t, Failed(s.callers[t]))
    case SessionTimesOut(t) =>
      var c := s.callers[t];
      Goto(s.(sh := EvictSection(s.sh, c.id), forced := s.forced + {c.id}), t, Failed(c))
    case ReleaseFailed(t, now, again) =>
      var c := s.callers[t];
      var (sh, closeNow) := ReleaseSection(s.sh, c.id, true, now);
      Goto(s.(sh := sh, quiet := if closeNow then s.quiet + {c.id} else s.quiet), t,
           if !c.cached || c.retried then Idle else Acquiring(again, true))
    case Abort(t) =>
      var c := s.callers[t];
      s.(sh := EvictSection(s.sh, c.id), forced := s.forced + {c.id})
    case End(t, broken, now) =>
      var c := s.callers[t];
      var (sh, closeNow) := ReleaseSection(s.sh, c.id, broken, now);
      Goto(s.(sh := sh, quiet := if closeNow then s.quiet + {c.id} else s.quiet), t, Idle)
    case PeerCloses(id) => s.(open := s.open - {id})
    case CloseQuiet(id) => s.(open := s.open - {id}, quiet := s.quiet - {id})
    case CloseForced(id) => s.(open := s.open - {id}, forced := s.forced - {id})
    case Notice(id) => s.(sh := EvictSection(s.sh, id), waiters := s.waiters - {id})
    case Reap(now) =>
      var (sh, idle) := ReapSection(s.sh, now);
      s.(sh := sh, quiet := s.quiet + idle)
  }

  function Failed(c: Caller): Caller
    requires c.Opening?
  {
    OpenFailed(c.request, c.retried, c.id, c.cached)
  }

  // ----- counting leases

  function Holders(callers: map<nat, Caller>, id: Id): set<nat> {
    set t | t in callers && callers[t].Leases(id)
  }

  function LeaseCount(callers: map<nat, Caller>, id: Id): nat { |Holders(callers, id)| }

  function One(b: bool): nat { if b then 1 else 0 }

  lemma LeaseCountAfter(callers: map<nat, Caller>, t: nat, c: Caller, id: Id)
    requires t in callers
    ensures LeaseCount(callers[t := c], id) == LeaseCount(callers, id) - One(callers[t].Leases(id)) + One(c.Leases(id))
  {
    var others := Holders(callers, id) - {t};
    assert Holders(callers, id) == if callers[t].Leases(id) then others + {t} else others;
    assert Holders(callers[t := c], id) == if c.Leases(id) then others + {t} else others;
  }

  lemma LeaseIsCounted(callers: map<nat, Caller>, t: nat, id: Id)
    requires t in callers && callers[t].Leases(id)
    ensures LeaseCount(callers, id) >= 1
  {
    assert t in Holders(callers, id);
  }

  // ----- the invariant

  /** The map holds only live connections, under their own key. */
  ghost predicate EntryOk(sh: Shared, k: string) {
    k in sh.conns ==>
      sh.conns[k] in sh.recs && sh.recs[sh.conns[k]].key == k && !sh.recs[sh.conns[k]].dead && sh.recs[sh.conns[k]].pooled
  }

  /** What holds of every connection record. */
  ghost predicate RecOk(s: State, id: Id)
    requires id in s.sh.recs
  {
    var c := s.sh.recs[id];
    && c.key == c.request.Key()
    // every live pooled connection is the one in the map for its key
    && (!c.dead && c.pooled ==> s.sh.InMap(id))
    // `users` is the number of outstanding leases
    && c.users == LeaseCount(s.callers, id)
    // a live connection has its waiter, so a drop will be noticed
    && (!c.dead ==> id in s.waiters)
    // a release or the reaper closes only what nobody uses and nobody can get any more
    && (id in s.quiet ==> c.users == 0 && (c.dead || !c.pooled))
    && id in s.issued
  }

  ghost predicate OwnedByDialer(s: State, id: Id) {
    exists t :: t in s.callers && s.callers[t].Dialed? && s.callers[t].id == id
  }

  /** What holds of every transport: none that is open is forgotten. */
  ghost predicate IdOk(s: State, id: Id) {
    && (id in s.sh.recs ==> RecOk(s, id))
    && (id in s.waiters || id in s.quiet || id in s.forced ==> id in s.sh.recs)
    && (id in s.open ==>
          id in s.issued &&
          if id in s.sh.recs then s.sh.InMap(id) || s.sh.recs[id].users > 0 || id in s.quiet || id in s.forced
          else OwnedByDialer(s, id))
  }

  /** What holds of every caller. */
  ghost predicate CallerOk(s: State, t: nat) {
    t in s.callers ==>
      match s.callers[t]
      case Dialed(_, _, id) => id in s.issued && id !in s.sh.recs
      case Opening(request, _, id, _) => id in s.sh.recs && s.sh.recs[id].key == request.Key()
      case OpenFailed(_, _, id, _) => id in s.sh.recs
      case InSession(id) => id in s.sh.recs
      case _ => true
  }

  /** Two dials never give the same transport. */
  ghost predicate Apart(s: State, t: nat, u: nat) {
    t in s.callers && u in s.callers && s.callers[t].Dialed? && s.callers[u].Dialed? && t != u ==>
      s.callers[t].id != s.callers[u].id
  }

  ghost predicate Inv(s: State) {
    && (forall k :: EntryOk(s.sh, k))
    && (forall id: Id :: IdOk(s, id))
    && (forall t: nat :: CallerOk(s, t))
    && (forall t: nat, u: nat :: Apart(s, t, u))
  }

  ghost predicate Init(s: State) {
    s.sh == Shared(map[], map[]) && (forall t :: t in s.callers ==> s.callers[t].Idle?) &&
    s.issued == {} && s.open == {} && s.waiters == {} && s.quiet == {} && s.forced == {}
  }

  lemma InitInv(s: State)
    requires Init(s)
    ensures Inv(s)
  {
  }

  /** A caller moves and leases, or returns, connection `c`; the records change at `c` only, and the
      map at `c`'s key only. */
  lemma ReuseKeepsInv(s: State, t: nat, now: int)
    requires Inv(s) && Enabled(s, Reuse(t, now))
    ensures Inv(Apply(s, Reuse(t, now)))
  {
    var s' := Apply(s, Reuse(t, now));
    var key := s.callers[t].request.Key();
    assert EntryOk(s.sh, key);
    if key in s.sh.conns { assert IdOk(s, s.sh.conns[key]); }
    forall k ensures EntryOk(s'.sh, k) { assert EntryOk(s.sh, k); }
    forall id: Id ensures IdOk(s', id) {
      assert IdOk(s, id);
      LeaseCountAfter(s.callers, t, s'.callers[t], id);
      DialersStay(s, s', id, t);
    }
    forall u: nat ensures CallerOk(s', u) { assert CallerOk(s, u); }
    forall u: nat, v: nat ensures Apart(s', u, v) { assert Apart(s, u, v); }
  }

  lemma DialersStay(s: State, s': State, id: Id, t: nat)
    requires t in s.callers && t in s'.callers && s'.callers == s.callers[t := s'.callers[t]]
    requires s.callers[t].Dialed? && s.callers[t].id == id ==> s'.callers[t].Dialed? && s'.callers[t].id == id
    ensures OwnedByDialer(s, id) ==> OwnedByDialer(s', id)
  {
    if OwnedByDialer(s, id) {
      var u :| u in s.callers && s.callers[u].Dialed? && s.callers[u].id == id;
      assert u in s'.callers && s'.callers[u].Dialed? && s'.callers[u].id == id;
    }
  }

  lemma DialKeepsInv(s: State, t: nat, id: Id)
    requires Inv(s) && Enabled(s, DialWorks(t, id))
    ensures Inv(Apply(s, DialWorks(t, id)))
  {
    var s' := Apply(s, DialWorks(t, id));
    assert IdOk(s, id);
    forall k ensures EntryOk(s'.sh, k) { assert EntryOk(s.sh, k); }
    forall c: Id ensures IdOk(s', c) {
      assert IdOk(s, c);
      LeaseCountAfter(s.callers, t, s'.callers[t], c);
      DialersStay(s, s', c, t);
      assert s'.callers[t].Dialed? && s'.callers[t].id == id;
    }
    forall u: nat ensures CallerOk(s', u) { assert CallerOk(s, u); }
    forall u: nat, v: nat ensures Apart(s', u, v) { assert Apart(s, u, v) && CallerOk(s, u) && CallerOk(s, v); }
  }

  lemma PublishKeepsInv(s: State, t: nat, now: int)
    requires Inv(s) && Enabled(s, Publish(t, now))
    ensures Inv(Apply(s, Publish(t, now)))
  {
    var s' := Apply(s, Publish(t, now));
    var c := s.callers[t];
    var key := c.request.Key();
    assert EntryOk(s.sh, key) && CallerOk(s, t) && IdOk(s, c.id);
    forall k ensures EntryOk(s'.sh, k) { assert EntryOk(s.sh, k); }
    forall id: Id ensures IdOk(s', id) {
      assert IdOk(s, id);
      LeaseCountAfter(s.callers, t, s'.callers[t], id);
      if id != c.id {
        DialersStay(s, s', id, t);
      } else {
        NobodyLeases(s, id);
      }
    }
    forall u: nat ensures CallerOk(s', u) { assert CallerOk(s, u) && Apart(s, u, t); }
    forall u: nat, v: nat ensures Apart(s', u, v) { assert Apart(s, u, v); }
  }

  /** A transport without a record has no lease. */
  lemma NobodyLeases(s: State, id: Id)
    requires Inv(s) && id !in s.sh.recs
    ensures LeaseCount(s.callers, id) == 0
  {
    forall t | t in s.callers ensures !s.callers[t].Leases(id) { assert CallerOk(s, t); }
    assert Holders(s.callers, id) == {};
  }

  /** Evicting a connection, by an abort that commits to closing it or by its own waiter. */
  lemma EvictKeepsInv(s: State, s': State, c: Id)
    requires Inv(s) && c in s.sh.recs
    requires s' == s.(sh := EvictSection(s.sh, c), forced := s.forced + {c})
          || (c !in s.open && s' == s.(sh := EvictSection(s.sh, c), waiters := s.waiters - {c}))
    ensures Inv(s')
  {
    assert IdOk(s, c) && EntryOk(s.sh, s.sh.recs[c].key);
    forall k ensures EntryOk(s'.sh, k) { assert EntryOk(s.sh, k); }
    forall id: Id ensures IdOk(s', id) {
      assert IdOk(s, id);
      if OwnedByDialer(s, id) {
        var u :| u in s.callers && s.callers[u].Dialed? && s.callers[u].id == id;
        assert u in s'.callers && s'.callers[u].Dialed?;
      }
    }
    forall u: nat ensures CallerOk(s', u) { assert CallerOk(s, u); }
    forall u: nat, v: nat ensures Apart(s', u, v) { assert Apart(s, u, v); }
  }

  /** A caller goes on, with the same lease or without any before and after. */
  lemma MoveKeepsInv(s: State, t: nat, c: Caller)
    requires Inv(s) && t in s.callers && !s.callers[t].Dialed? && !c.Dialed?
    requires forall id: Id :: s.callers[t].Leases(id) == c.Leases(id)
    requires c.Opening? ==> s.callers[t].Opening? && c.request == s.callers[t].request
    ensures Inv(Goto(s, t, c))
  {
    var s' := Goto(s, t, c);
    forall id: Id ensures IdOk(s', id) {
      assert IdOk(s, id);
      LeaseCountAfter(s.callers, t, c, id);
      DialersStay(s, s', id, t);
    }
    assert CallerOk(s, t);
    forall u: nat ensures CallerOk(s', u) {
      assert CallerOk(s, u);
      if c.OpenFailed? || c.InSession? || c.Opening? {
        assert c.Leases(c.id);
        assert s.callers[t].Leases(c.id);
      }
    }
    forall u: nat, v: nat ensures Apart(s', u, v) { assert Apart(s, u, v); }
  }

  /** The state after a release: the lease is gone, and the transport is committed to be closed when
      it was the last one of a connection nobody else can get. */
  function Released(s: State, t: nat, id: Id, broken: bool, now: int, next: Caller): State
    requires id in s.sh.recs
  {
    var (sh, closeNow) := ReleaseSection(s.sh, id, broken, now);
    Goto(s.(sh := sh, quiet := if closeNow then s.quiet + {id} else s.quiet), t, next)
  }

  lemma ReleaseKeepsInv(s: State, t: nat, c: Id, broken: bool, now: int, next: Caller)
    requires Inv(s) && t in s.callers && s.callers[t].Leases(c) && c in s.sh.recs
    requires next.Idle? || next.Acquiring?
    ensures Inv(Released(s, t, c, broken, now, next))
  {
    var s' := Released(s, t, c, broken, now, next);
    assert IdOk(s, c) && EntryOk(s.sh, s.sh.recs[c].key);
    LeaseIsCounted(s.callers, t, c);
    forall k ensures EntryOk(s'.sh, k) { assert EntryOk(s.sh, k); }
    forall id: Id ensures IdOk(s', id) {
      assert IdOk(s, id);
      LeaseCountAfter(s.callers, t, next, id);
      DialersStay(s, s', id, t);
    }
    forall u: nat ensures CallerOk(s', u) { assert CallerOk(s, u); }
    forall u: nat, v: nat ensures Apart(s', u, v) { assert Apart(s, u, v); }
  }

  lemma ReapKeepsInv(s: State, now: int)
    requires Inv(s) && Enabled(s, Reap(now))
    ensures Inv(Apply(s, Reap(now)))
  {
    var s' := Apply(s, Reap(now));
    var idle := ReapSection(s.sh, now).1;
    forall id | id in idle ensures id in s.sh.recs && s.sh.InMap(id) && s.sh.recs[id].users == 0 {
      var k :| k in s.sh.conns && IdleTooLong(s.sh.recs[s.sh.conns[k]], now) && s.sh.conns[k] == id;
      assert EntryOk(s.sh, k) && IdOk(s, id);
    }
    forall k ensures EntryOk(s'.sh, k) { assert EntryOk(s.sh, k); }
    forall id: Id ensures IdOk(s', id) {
      assert IdOk(s, id);
      if id in s.sh.recs { assert EntryOk(s.sh, s.sh.recs[id].key); }
      if OwnedByDialer(s, id) {
        var u :| u in s.callers && s.callers[u].Dialed? && s.callers[u].id == id;
        assert u in s'.callers && s'.callers[u].Dialed?;
      }
    }
    forall u: nat ensures CallerOk(s', u) { assert CallerOk(s, u); }
    forall u: nat, v: nat ensures Apart(s', u, v) { assert Apart(s, u, v); }
  }

  /** A transport closes: at the peer, or by the step that committed to it. */
  lemma CloseKeepsInv(s: State, s': State, c: Id)
    requires Inv(s)
    requires s' == s.(open := s.open - {c}) || s' == s.(open := s.open - {c}, quiet := s.quiet - {c})
          || s' == s.(open := s.open - {c}, forced := s.forced - {c})
    ensures Inv(s')
  {
    forall id: Id ensures IdOk(s', id) {
      assert IdOk(s, id);
      if OwnedByDialer(s, id) {
        var u :| u in s.callers && s.callers[u].Dialed? && s.callers[u].id == id;
        assert u in s'.callers && s'.callers[u].Dialed?;
      }
    }
    forall u: nat ensures CallerOk(s', u) { assert CallerOk(s, u); }
    forall u: nat, v: nat ensures Apart(s', u, v) { assert Apart(s, u, v); }
  }

  /** Every step of every caller, waiter, reaper and transport keeps the invariant. */
  lemma StepKeepsInv(s: State, step: Step)
    requires Inv(s) && Enabled(s, step)
    ensures Inv(Apply(s, step))
  {
    hide Inv, EvictSection, ReleaseSection, ReuseSection, PublishSection, ReapSection;
    var s' := Apply(s, step);
    match step {
      case Begin(t, request) => MoveKeepsInv(s, t, Acquiring(request, false));
      case Reuse(t, now) => ReuseKeepsInv(s, t, now);
      case DialFails(t) => MoveKeepsInv(s, t, Idle);
      case DialWorks(t, id) => DialKeepsInv(s, t, id);
      case Publish(t, now) => PublishKeepsInv(s, t, now);
      case SessionOpens(t) => MoveKeepsInv(s, t, InSession(s.callers[t].id));
      case SessionFails(t) => MoveKeepsInv(s, t, Failed(s.callers[t]));
      case SessionTimesOut(t) =>
        var c := s.callers[t];
        var mid := s.(sh := EvictSection(s.sh, c.id), forced := s.forced + {c.id});
        EvictKeepsInv(s, mid, c.id);
        MoveKeepsInv(mid, t, Failed(c));
      case ReleaseFailed(t, now, _) => ReleaseKeepsInv(s, t, s.callers[t].id, true, now, s'.callers[t]);
      case Abort(t) => EvictKeepsInv(s, s', s.callers[t].id);
      case End(t, broken, now) => ReleaseKeepsInv(s, t, s.callers[t].id, broken, now, Idle);
      case PeerCloses(id) => CloseKeepsInv(s, s', id);
      case CloseQuiet(id) => CloseKeepsInv(s, s', id);
      case CloseForced(id) => CloseKeepsInv(s, s', id);
      case Notice(id) => EvictKeepsInv(s, s', id);
      case Reap(now) => ReapKeepsInv(s, now);
    }
  }

  // ----- what the invariant means

  /** A finite run: states joined by enabled steps. */
  ghost predicate Run(states: seq<State>, steps: seq<Step>) {
    |states| == |steps| + 1 && Init(states[0]) &&
    forall i :: 0 <= i < |steps| ==> Enabled(states[i], steps[i]) && states[i + 1] == Apply(states[i], steps[i])
  }

  lemma {:induction false} RunKeepsInv(states: seq<State>, steps: seq<Step>, i: nat)
    requires Run(states, steps) && i < |states|
    ensures Inv(states[i])
  {
    hide Inv, Enabled, Apply;
    if i == 0 {
      InitInv(states[0]);
    } else {
      RunKeepsInv(states, steps, i - 1);
      StepKeepsInv(states[i - 1], steps[i - 1]);
      assert states[i - 1 + 1] == Apply(states[i - 1], steps[i - 1]);
    }
  }

  /** In every state of every run: the map holds only live pooled connections under their own key,
      every live pooled connection is the one in the map for its key, and `users` counts the leases. */
  lemma {:induction false} MapAndUsers(states: seq<State>, steps: seq<Step>, i: nat)
    requires Run(states, steps) && i < |states|
    ensures var s := states[i];
      && (forall k :: k in s.sh.conns ==> s.sh.LivePooled(s.sh.conns[k]) && s.sh.recs[s.sh.conns[k]].key == k)
      && (forall id :: id in s.sh.recs ==> s.sh.recs[id].users == LeaseCount(s.callers, id))
      && (forall id :: s.sh.LivePooled(id) ==> s.sh.InMap(id))
  {
    var s := states[i];
    RunKeepsInv(states, steps, i);
    forall k | k in s.sh.conns ensures s.sh.LivePooled(s.sh.conns[k]) && s.sh.recs[s.sh.conns[k]].key == k {
      assert EntryOk(s.sh, k);
    }
    forall id | id in s.sh.recs ensures s.sh.recs[id].users == LeaseCount(s.callers, id) { assert IdOk(s, id); }
    forall id | s.sh.LivePooled(id) ensures s.sh.InMap(id) { assert IdOk(s, id); }
  }

  /** `openSession` leaves one lease behind when it succeeds and none when it fails: besides the
      leases of the others, the caller holds one in a session and none when it is idle. */
  lemma {:induction false} LeaseOfCaller(states: seq<State>, steps: seq<Step>, i: nat, t: nat, id: Id)
    requires Run(states, steps) && i < |states| && t in states[i].callers && id in states[i].sh.recs
    ensures var s := states[i]; var others := |Holders(s.callers, id) - {t}|;
      && (s.callers[t] == InSession(id) ==> s.sh.recs[id].users == others + 1)
      && (s.callers[t].Idle? ==> s.sh.recs[id].users == others)
  {
    var s := states[i];
    RunKeepsInv(states, steps, i);
    assert IdOk(s, id);
    var h := Holders(s.callers, id);
    assert s.callers[t] == InSession(id) ==> t in h && h == h - {t} + {t};
    assert s.callers[t].Idle? ==> h - {t} == h;
  }

  /** No leak: every open transport is in the map, leased, committed to be closed, or owned by a
      caller between its dial and its second section; with all callers idle, it is in the map or
      about to be closed. */
  lemma {:induction false} NothingLeaks(states: seq<State>, steps: seq<Step>, i: nat, id: Id)
    requires Run(states, steps) && i < |states| && id in states[i].open
    ensures var s := states[i];
      && (s.sh.InMap(id) || LeaseCount(s.callers, id) > 0 || id in s.quiet || id in s.forced || OwnedByDialer(s, id))
      && ((forall t :: t in s.callers ==> s.callers[t].Idle?) ==> s.sh.InMap(id) || id in s.quiet || id in s.forced)
  {
    var s := states[i];
    RunKeepsInv(states, steps, i);
    assert IdOk(s, id);
    if forall t :: t in s.callers ==> s.callers[t].Idle? {
      assert Holders(s.callers, id) == {};
      assert !OwnedByDialer(s, id);
    }
  }

  /** A release or the reaper never closes a transport that somebody leases: only the peer, or the
      close that an abort committed to, can do that. */
  lemma {:induction false} NeverClosedUnderALease(states: seq<State>, steps: seq<Step>, i: nat, id: Id)
    requires Run(states, steps) && i < |steps|
    requires id in states[i].open && id !in states[i + 1].open && LeaseCount(states[i].callers, id) > 0
    ensures steps[i] == PeerCloses(id) || (steps[i] == CloseForced(id) && id in states[i].forced)
  {
    RunKeepsInv(states, steps, i);
    var s := states[i];
    assert Enabled(s, steps[i]) && states[i + 1] == Apply(s, steps[i]);
    assert IdOk(s, id);
  }

  // ----- reuse means the same request

  /** Step `step` asks the pool with `r`: at the start of an operation, or again after a stale
      connection, when the keys to offer are read anew. */
  predicate Asks(step: Step, r: Request) {
    (step.Begin? && step.request == r) || (step.ReleaseFailed? && step.again == r)
  }

  ghost predicate Asked(steps: seq<Step>, r: Request) {
    exists j :: 0 <= j < |steps| && Asks(steps[j], r)
  }

  /** Every request in the state, of a caller or of a connection, was asked with. */
  ghost predicate AllAsked(s: State, steps: seq<Step>) {
    && (forall t :: t in s.callers ==> CallerAsked(s.callers[t], steps))
    && (forall id :: id in s.sh.recs ==> Asked(steps, s.sh.recs[id].request))
  }

  ghost predicate CallerAsked(c: Caller, steps: seq<Step>) {
    c.Idle? || c.InSession? || Asked(steps, c.request)
  }

  /** A step leaves a record's request alone, or makes the record for a caller between dial and lease. */
  lemma RecordsRequest(s: State, step: Step, id: Id)
    requires Enabled(s, step) && id in Apply(s, step).sh.recs
    ensures var r := Apply(s, step).sh.recs[id].request;
      (id in s.sh.recs && r == s.sh.recs[id].request) ||
      (step.Publish? && r == s.callers[step.t].request && s.callers[step.t].Dialed?)
  {
    hide Request.Key;
  }

  /** A caller goes on with its request, or with the one that the step asks with. */
  lemma CallersRequest(s: State, step: Step, t: nat)
    requires Enabled(s, step) && t in Apply(s, step).callers
    ensures t in s.callers
    ensures var c, d := s.callers[t], Apply(s, step).callers[t];
      d.Idle? || d.InSession? || Asks(step, d.request) || (!c.Idle? && !c.InSession? && d.request == c.request)
  {
    hide Request.Key, ReuseSection, PublishSection, EvictSection, ReleaseSection, ReapSection;
  }

  lemma {:induction false} StepKeepsAsked(s: State, steps: seq<Step>, j: nat)
    requires j < |steps| && Enabled(s, steps[j]) && AllAsked(s, steps)
    ensures AllAsked(Apply(s, steps[j]), steps)
  {
    var s' := Apply(s, steps[j]);
    forall t | t in s'.callers ensures CallerAsked(s'.callers[t], steps) {
      hide Apply, Enabled;
      CallersRequest(s, steps[j], t);
    }
    forall id | id in s'.sh.recs ensures Asked(steps, s'.sh.recs[id].request) {
      RecordsRequest(s, steps[j], id);
      hide Apply, Asked;
    }
  }

  lemma {:induction false} RunIsAsked(states: seq<State>, steps: seq<Step>, i: nat)
    requires Run(states, steps) && i < |states|
    ensures AllAsked(states[i], steps)
  {
    hide Enabled, Apply, Asked;
    if i > 0 {
      RunIsAsked(states, steps, i - 1);
      hide AllAsked;
      StepKeepsAsked(states[i - 1], steps, i - 1);
      assert states[i - 1 + 1] == Apply(states[i - 1], steps[i - 1]);
    }
  }

  /** A caller has a connection that was asked for with a request of the same key. */
  lemma {:induction false} ReusedUnderOneKey(states: seq<State>, steps: seq<Step>, i: nat, t: nat)
    requires Run(states, steps) && i < |states| && t in states[i].callers && states[i].callers[t].Opening?
    ensures var s := states[i]; var c := s.callers[t];
      && c.id in s.sh.recs && s.sh.recs[c.id].request.Key() == c.request.Key()
      && Asked(steps, c.request) && Asked(steps, s.sh.recs[c.id].request)
  {
    RunKeepsInv(states, steps, i);
    RunIsAsked(states, steps, i);
    assert CallerOk(states[i], t);
    assert IdOk(states[i], states[i].callers[t].id);
  }

  /** When no caller asks with a NUL: a reused connection was dialled for the same host fields with the
      same keys offered, so never with a key that is no longer offered. */
  lemma {:induction false} ReusedForTheSameRequest(states: seq<State>, steps: seq<Step>, i: nat, t: nat)
    requires Run(states, steps) && i < |states| && t in states[i].callers && states[i].callers[t].Opening?
    requires forall r :: Asked(steps, r) ==> r.NulFree()
    ensures var s := states[i]; var c := s.callers[t];
      && c.id in s.sh.recs && s.sh.recs[c.id].request == c.request
      && (forall retired :: retired !in c.request.offered ==> retired !in s.sh.recs[c.id].request.offered)
  {
    hide Run, Request.Key, Request.NulFree, Asked;
    ReusedUnderOneKey(states, steps, i, t);
    KeyIdentifies(states[i].callers[t].request, states[i].sh.recs[states[i].callers[t].id].request);
  }
}
