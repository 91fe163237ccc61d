/** The text that identifies "the same connection": the fields and key fingerprints that are
    hashed, each ended by a NUL. The hash itself is taken as injective. */
module PoolKey {
  import opened Strings

  const NUL: char := '\0'

  /** The fields of a host that decide how a connection to it is authenticated and verified. */
  datatype Host = Host(id: string, address: string, port: int, user: string, authType: string, secretCipher: string,
                       trustMode: string, pinned: string, trusted: string)
  {
    function Fields(): (f: seq<string>)
      ensures |f| == 9
    {
      [id, address, Itoa(port), user, authType, secretCipher, trustMode, pinned, trusted]
    }
  }

  /** What a command asks the pool for: the host, and the fingerprints of the keys it offers. */
  datatype Request = Request(host: Host, offered: seq<string>)
  {
    function Parts(): seq<string> { host.Fields() + offered }

    function Key(): string { Terminated(Parts()) }

    /** No field and no fingerprint holds the terminator. */
    predicate NulFree() { forall i :: 0 <= i < |Parts()| ==> Free(Parts()[i], NUL) }
  }

  function Terminated(parts: seq<string>): string {
    if parts == [] then "" else parts[0] + [NUL] + Terminated(parts[1..])
  }

  lemma {:induction false} SameHead(a: string, restA: string, b: string, restB: string)
    requires Free(a, NUL) && Free(b, NUL) && a + [NUL] + restA == b + [NUL] + restB
    ensures a == b && restA == restB
  {
    var s, t := a + [NUL] + restA, b + [NUL] + restB;
    assert s[|a|] == NUL && t[|b|] == NUL;
    assert forall i :: 0 <= i < |b| ==> t[i] == b[i] != NUL;
    assert forall i :: 0 <= i < |a| ==> s[i] == a[i] != NUL;
    assert a == s[..|a|] && b == t[..|b|];
    assert restA == s[|a| + 1..] && restB == t[|b| + 1..];
  }

  lemma {:induction false} TerminatedInjective(a: seq<string>, b: seq<string>)
    requires forall i :: 0 <= i < |a| ==> Free(a[i], NUL)
    requires forall i :: 0 <= i < |b| ==> Free(b[i], NUL)
    requires Terminated(a) == Terminated(b)
    ensures a == b
  {
    if a != [] && b != [] {
      SameHead(a[0], Terminated(a[1..]), b[0], Terminated(b[1..]));
      TerminatedInjective(a[1..], b[1..]);
      assert a == [a[0]] + a[1..] && b == [b[0]] + b[1..];
    }
  }

  /** Two requests with the same key ask for the same host, verified the same way, with the same
      keys offered. */
  lemma KeyIdentifies(r: Request, q: Request)
    requires r.NulFree() && q.NulFree() && r.Key() == q.Key()
    ensures r == q
  {
    TerminatedInjective(r.Parts(), q.Parts());
    PartsIdentify(r, q);
  }

  lemma PartsIdentify(r: Request, q: Request)
    requires r.Parts() == q.Parts()
    ensures r == q
  {
    var f, g := r.host.Fields(), q.host.Fields();
    assert f == r.Parts()[..9] && g == q.Parts()[..9];
    assert r.offered == r.Parts()[9..] && q.offered == q.Parts()[9..];
    assert f[0] == g[0] && f[1] == g[1] && f[2] == g[2] && f[3] == g[3] && f[4] == g[4];
    assert f[5] == g[5] && f[6] == g[6] && f[7] == g[7] && f[8] == g[8];
    ItoaInjective(r.host.port, q.host.port);
  }

  /** Whatever the other fields hold, requests for different hosts never share a key. */
  lemma OtherHostOtherKey(r: Request, q: Request)
    requires Free(r.host.id, NUL) && Free(q.host.id, NUL) && r.Key() == q.Key()
    ensures r.host.id == q.host.id
  {
    var a, b := r.Parts(), q.Parts();
    assert a[0] == r.host.id && b[0] == q.host.id;
    SameHead(a[0], Terminated(a[1..]), b[0], Terminated(b[1..]));
  }
}
