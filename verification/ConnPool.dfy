/** The pool as the program holds it: mutable connection objects behind one map. Each method is one
    critical section and is proved to do exactly what the protocol's step does. */
module ConnPool {
  import opened Strings
  import opened PoolKey
  import opened PoolProtocol

  class PooledConn {
    const id: Id // stands for the transport
    const request: Request
    const key: string
    var users: int // how many callers hold a lease on it
    var last: int
    var dead: bool
    var pooled: bool // false: another live connection already held the key when this one was ready

    constructor (id: Id, request: Request, now: int)
      ensures this.id == id && this.request == request && key == request.Key()
      ensures users == 1 && last == now && !dead && !pooled
    {
      this.id, this.request, this.key := id, request, request.Key();
      users, last, dead, pooled := 1, now, false, false;
    }

    ghost function Rec(): Conn
      reads this
    {
      Conn(request, key, users, last, dead, pooled)
    }
  }

  class Pool {
    var conns: map<string, PooledConn>
    ghost var all: map<Id, PooledConn> // every connection that was ever published
    ghost var view: Shared // what the protocol sees

    ghost var repr: set<PooledConn>

    ghost predicate IdOk(id: Id)
      reads this, repr
    {
      && (id in all <==> id in view.recs)
      && (id in all ==> all[id] in repr && all[id].id == id && view.recs[id] == all[id].Rec())
    }

    ghost predicate KeyOk(k: string)
      reads this
    {
      && (k in conns <==> k in view.conns)
      && (k in conns ==> Has(conns[k]) && view.conns[k] == conns[k].id)
    }

    ghost predicate Valid()
      reads this, repr
    {
      (forall id: Id :: IdOk(id)) && (forall k: string :: KeyOk(k))
    }

    ghost predicate Has(pc: PooledConn)
      reads this
    {
      pc.id in all && all[pc.id] == pc
    }

    constructor ()
      ensures Valid() && view == Shared(map[], map[]) && repr == {}
    {
      conns, all, view, repr := map[], map[], Shared(map[], map[]), {};
    }

    lemma ValidIsLinked()
      requires Valid()
      ensures view.Linked()
    {
      forall k | k in view.conns ensures view.conns[k] in view.recs { assert KeyOk(k) && IdOk(view.conns[k]); }
    }

    /** `acquire`, first section. */
    method Reuse(key: string, now: int) returns (pc: PooledConn?)
      requires Valid()
      modifies this`view, repr
      ensures Valid() && all == old(all) && (pc != null ==> Has(pc))
      ensures old(view).Linked()
      ensures (view, if pc == null then None else Some(pc.id)) == ReuseSection(old(view), key, now)
    {
      ValidIsLinked();
      pc := null;
      assert KeyOk(key);
      if key in conns && !conns[key].dead {
        pc := conns[key];
        assert IdOk(pc.id);
        pc.users := pc.users + 1;
        pc.last := now;
      } else if key in conns {
        assert IdOk(conns[key].id);
      }
      view := ReuseSection(view, key, now).0;
      forall id: Id ensures IdOk(id) { assert old(IdOk(id)); }
      forall k: string ensures KeyOk(k) { assert old(KeyOk(k)); }
    }

    /** `acquire`, second section: publish a freshly dialled connection. */
    method Publish(id: Id, request: Request, now: int) returns (pc: PooledConn)
      requires Valid() && id !in all
      modifies this
      ensures fresh(pc) && all == old(all)[id := pc] && repr == old(repr) + {pc} && Valid() && Has(pc)
      ensures old(view).Linked()
      ensures view == PublishSection(old(view), id, request, now)
    {
      ValidIsLinked();
      pc := new PooledConn(id, request, now);
      var key := request.Key();
      assert KeyOk(key);
      if key in conns { assert IdOk(conns[key].id); }
      if key !in conns || conns[key].dead {
        pc.pooled := true;
        conns := conns[key := pc];
      }
      all, repr := all[id := pc], repr + {pc};
      view := PublishSection(view, id, request, now);
      forall i: Id ensures IdOk(i) { assert old(IdOk(i)); }
      forall k: string ensures KeyOk(k) {
        assert old(KeyOk(k));
        if k in old(conns) { assert old(Has(conns[k])); }
      }
    }

    /** `abort`, and what the waiter goroutine does once the transport is gone. */
    method Evict(pc: PooledConn)
      requires Valid() && Has(pc)
      modifies this`conns, this`view, pc`dead
      ensures Valid() && Has(pc)
      ensures pc.id in old(view).recs && view == EvictSection(old(view), pc.id)
    {
      assert IdOk(pc.id) && KeyOk(pc.key);
      pc.dead := true;
      if pc.key in conns && conns[pc.key] == pc {
        conns := conns - {pc.key};
      }
      view := EvictSection(view, pc.id);
      forall id: Id ensures IdOk(id) { assert old(IdOk(id)); }
      forall k: string ensures KeyOk(k) { assert old(KeyOk(k)); }
    }

    method Release(pc: PooledConn, broken: bool, now: int) returns (closeNow: bool)
      requires Valid() && Has(pc)
      modifies this`conns, this`view, pc
      ensures Valid() && Has(pc)
      ensures pc.id in old(view).recs && (view, closeNow) == ReleaseSection(old(view), pc.id, broken, now)
    {
      assert IdOk(pc.id) && KeyOk(pc.key);
      pc.users := pc.users - 1;
      pc.last := now;
      if broken {
        pc.dead := true;
        if pc.key in conns && conns[pc.key] == pc {
          conns := conns - {pc.key};
        }
      }
      closeNow := (pc.dead || !pc.pooled) && pc.users <= 0;
      view := ReleaseSection(view, pc.id, broken, now).0;
      forall id: Id ensures IdOk(id) { assert old(IdOk(id)); }
      forall k: string ensures KeyOk(k) { assert old(KeyOk(k)); }
    }

    /** `closeIdle`: the connections it returns are closed after the lock is released. */
    method CloseIdle(now: int) returns (idle: set<PooledConn>)
      requires Valid()
      modifies this`conns, this`view, repr
      ensures Valid() && all == old(all)
      ensures old(view).Linked()
      ensures (view, set pc | pc in idle :: pc.id) == ReapSection(old(view), now)
    {
      ValidIsLinked();
      ghost var view0, conns0 := view, conns;
      var keys := conns.Keys;
      idle := {};
      forall k: string ensures KeyDone(conns0, view0, keys, idle, now, k) {
        assert KeyOk(k);
        if k in conns { assert IdOk(conns[k].id); }
      }
      forall id: Id ensures RecDone(view0, idle, id) { assert IdOk(id); }
      while keys != {}
        invariant keys <= conns0.Keys && keys <= conns.Keys && view == view0
        invariant forall k: string :: KeyDone(conns0, view0, keys, idle, now, k)
        invariant forall id: Id :: RecDone(view0, idle, id)
        invariant forall pc :: pc in idle ==> Has(pc) && exists k :: WasIdle(view0, k, now, pc.id)
        decreases keys
      {
        label turn:
        var k :| k in keys;
        var pc := conns[k];
        assert KeyDone(conns0, view0, keys, idle, now, k);
        assert old(KeyOk(k) && IdOk(conns[k].id)) && RecDone(view0, idle, pc.id);
        ghost var keys0, idle0 := keys, idle;
        keys := keys - {k};
        if pc.users <= 0 && now - pc.last > POOL_IDLE {
          conns := conns - {k};
          pc.dead := true;
          idle := idle + {pc};
          assert WasIdle(view0, k, now, pc.id);
        }
        forall x: string ensures KeyDone(conns0, view0, keys, idle, now, x) {
          assert old@turn(KeyDone(conns0, view0, keys0, idle0, now, x));
        }
        forall id: Id ensures RecDone(view0, idle, id) {
          assert old@turn(RecDone(view0, idle0, id)) && old(IdOk(id));
        }
      }
      label visited:
      view := ReapSection(view, now).0;
      forall k: string ensures KeyOk(k) { assert old@visited(KeyDone(conns0, view0, keys, idle, now, k)) && old(KeyOk(k)); }
      ghost var got, ids := set pc | pc in idle :: pc.id, ReapSection(view0, now).1;
      forall id | id in ids ensures id in got {
        var k :| k in view0.conns && IdleTooLong(view0.recs[view0.conns[k]], now) && view0.conns[k] == id;
        assert old@visited(KeyDone(conns0, view0, keys, idle, now, k)) && old(KeyOk(k));
      }
      forall pc | pc in idle ensures pc.id in ids {
        var k :| WasIdle(view0, k, now, pc.id);
        assert view0.conns[k] == pc.id;
      }
      assert got == ids;
      forall id: Id ensures IdOk(id) {
        assert old@visited(RecDone(view0, idle, id)) && old(IdOk(id));
        if id in all { Identified(idle, all, id); }
      }
    }

    lemma Identified(idle: set<PooledConn>, known: map<Id, PooledConn>, id: Id)
      requires id in known && known[id].id == id
      requires forall pc :: pc in idle ==> pc.id in known && known[pc.id] == pc
      ensures known[id] in idle <==> id in set pc | pc in idle :: pc.id
    {
    }

    /** Where the loop over the map stands for key `k`, with `keys` still to visit. */
    ghost predicate KeyDone(conns0: map<string, PooledConn>, view0: Shared, keys: set<string>, idle: set<PooledConn>, now: int, k: string)
      reads this
    {
      if k !in conns0 then k !in conns else
        && k in view0.conns && view0.conns[k] in view0.recs
        && (k in conns <==> k in keys || !IdleTooLong(view0.recs[view0.conns[k]], now))
        && (k in conns ==> conns[k] == conns0[k])
        && (k !in keys && IdleTooLong(view0.recs[view0.conns[k]], now) ==> conns0[k] in idle)
    }

    /** Where it stands for connection `id`. */
    ghost predicate RecDone(view0: Shared, idle: set<PooledConn>, id: Id)
      reads this, repr
    {
      id in all && id in view0.recs ==>
        all[id] in repr && all[id].Rec() == view0.recs[id].(dead := view0.recs[id].dead || all[id] in idle)
    }
  }

  /** Key `k` led to connection `id`, which was idle for too long. */
  ghost predicate WasIdle(view: Shared, k: string, now: int, id: Id) {
    k in view.conns && view.conns[k] == id && id in view.recs && IdleTooLong(view.recs[id], now)
  }

}
