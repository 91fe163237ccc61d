/** The pool and the key rotation together: a key that is gone is gone from the connections too. */
module PoolAfterRotation {
  import opened KeyStore
  import KeyRotation
  import PoolProtocol
  import PoolVersions

  /** Different keys have different fingerprints. */
  ghost predicate Injective(fingerprint: nat -> string) {
    forall a: nat, b: nat :: fingerprint(a) == fingerprint(b) ==> a == b
  }

  /** The fingerprints of what an "app_key" host is offered, as the pool's key lists them. */
  function Fingerprints(fingerprint: nat -> string, mem: Memory): seq<string> {
    seq(|mem.Offered()|, i requires 0 <= i < |mem.Offered()| => fingerprint(mem.Offered()[i].id))
  }

  /** After any run of rotations that retired or discarded the key `id`, and in any run of the pool: a
      caller that asks with the keys offered now never gets a connection that was offered `id`. */
  lemma {:induction false} RetiredKeyIsNotReused(fingerprint: nat -> string, c: Codec,
                              states: seq<KeyRotation.State>, steps: seq<KeyRotation.Step>, m: nat, n: nat, id: nat,
                              pools: seq<PoolProtocol.State>, moves: seq<PoolProtocol.Step>, i: nat, t: nat,
                              hosts: set<PoolVersions.History>)
    requires Injective(fingerprint)
    requires KeyRotation.Run(c, states, steps) && m <= n < |states| && KeyRotation.Inv(c, states[0]) && id in states[m].gone
    requires PoolProtocol.Run(pools, moves) && i < |pools| && t in pools[i].callers && pools[i].callers[t].Opening?
    requires PoolVersions.VersionsAsked(hosts, moves)
    requires pools[i].callers[t].request.offered == Fingerprints(fingerprint, states[n].mem)
    ensures var conn := pools[i].callers[t].id;
      conn in pools[i].sh.recs && fingerprint(id) !in pools[i].sh.recs[conn].request.offered
  {
    hide KeyRotation.Run, KeyRotation.Inv, PoolProtocol.Run, PoolVersions.VersionsAsked, Agree;
    KeyRotation.GoneForGood(c, states, steps, m, n, id);
    PoolVersions.ReusedForTheSameVersion(hosts, pools, moves, i, t);
    var mem := states[n].mem;
    forall k | 0 <= k < |mem.Offered()| ensures Fingerprints(fingerprint, mem)[k] != fingerprint(id) {
      assert mem.Offered()[k] in mem.Offered();
    }
  }
}
