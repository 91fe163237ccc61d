/** The pool's key on the requests the server makes. A host's address, user and pinned fingerprint
    are free text that may hold a NUL; the key still tells the versions of a host apart, because
    every save draws a new ciphertext. */
module PoolVersions {
  import opened Strings
  import opened PoolKey
  import PoolProtocol

  // ----- the fields that are not free text

  predicate Base64(c: char) {
    'A' <= c <= 'Z' || 'a' <= c <= 'z' || IsDigit(c) || c == '+' || c == '/' || c == '='
  }

  predicate IsBase64(s: string) { forall i :: 0 <= i < |s| ==> Base64(s[i]) }

  /** A sealed secret: at least a nonce of 12 bytes and a tag of 16, in base64. */
  predicate Ciphertext(s: string) { |s| >= 40 && IsBase64(s) }

  const SHA256: string := "SHA256:"

  predicate Fingerprint(s: string) { SHA256 <= s && IsBase64(s[|SHA256|..]) }

  lemma PlainTexts(s: string)
    ensures Ciphertext(s) ==> Free(s, NUL) && !Fingerprint(s)
    ensures Fingerprint(s) ==> Free(s, NUL)
  {
    if Ciphertext(s) {
      assert SHA256[6] == ':';
      assert Base64(s[6]);
    } else if Fingerprint(s) {
      forall i | 0 <= i < |s| ensures s[i] != NUL {
        assert s[i] == if i < |SHA256| then SHA256[i] else s[|SHA256|..][i - |SHA256|];
      }
    }
  }

  /** A row of the host table, with everything but its free texts as the server stores it. */
  predicate RowOk(h: Host) {
    && Free(h.id, NUL) && 1 <= h.port <= 65535 && Ciphertext(h.secretCipher)
    && h.authType in {"password", "key", "app_key"} && h.trustMode in {"tofu", "pinned"}
    && (h.trusted == "" || Fingerprint(h.trusted))
  }

  /** A request for a row: only an "app_key" host is offered keys, the present one and perhaps the next. */
  predicate Version(r: Request) {
    && RowOk(r.host) && (r.host.authType == "app_key" <==> r.offered != []) && |r.offered| <= 2
    && forall i :: 0 <= i < |r.offered| ==> Fingerprint(r.offered[i])
  }

  /** Neither host presents a key that the other is offered for the login. */
  predicate Apart(r: Request, q: Request) {
    r.host.trusted !in q.offered && q.host.trusted !in r.offered
  }

  // ----- a text as the pieces between its NULs

  lemma {:induction false} JoinSplit(s: string, sep: char)
    ensures Join(Split(s, sep), [sep]) == s
  {
    if s != "" {
      var rest := Split(s[1..], sep);
      JoinSplit(s[1..], sep);
      assert s == [s[0]] + s[1..];
      if s[0] == sep {
        assert ([""] + rest)[1..] == rest;
      } else if |rest| > 1 {
        assert ([[s[0]] + rest[0]] + rest[1..])[1..] == rest[1..];
      }
    }
  }

  /** The pieces of all parts, in order. */
  function Pieces(parts: seq<string>): (r: seq<string>)
    ensures forall i :: 0 <= i < |r| ==> Free(r[i], NUL)
  {
    if parts == [] then [] else Split(parts[0], NUL) + Pieces(parts[1..])
  }

  lemma {:induction false} TerminatedAppend(a: seq<string>, b: seq<string>)
    ensures Terminated(a + b) == Terminated(a) + Terminated(b)
  {
    if a == [] {
      assert a + b == b;
    } else {
      TerminatedAppend(a[1..], b);
      assert (a + b)[1..] == a[1..] + b;
    }
  }

  lemma {:induction false} TerminatedJoin(parts: seq<string>)
    requires parts != []
    ensures Terminated(parts) == Join(parts, [NUL]) + [NUL]
  {
    if |parts| > 1 {
      TerminatedJoin(parts[1..]);
    } else {
      assert parts[1..] == [];
    }
  }

  lemma {:induction false} TerminatedPieces(parts: seq<string>)
    ensures Terminated(parts) == Terminated(Pieces(parts))
  {
    if parts != [] {
      var head := Split(parts[0], NUL);
      JoinSplit(parts[0], NUL);
      TerminatedJoin(head);
      TerminatedPieces(parts[1..]);
      TerminatedAppend(head, Pieces(parts[1..]));
    }
  }

  lemma {:induction false} PiecesAppend(a: seq<string>, b: seq<string>)
    ensures Pieces(a + b) == Pieces(a) + Pieces(b)
  {
    if a == [] {
      assert a + b == b;
    } else {
      PiecesAppend(a[1..], b);
      assert (a + b)[1..] == a[1..] + b;
    }
  }

  lemma {:induction false} PiecesOfPlain(parts: seq<string>)
    requires forall i :: 0 <= i < |parts| ==> Free(parts[i], NUL)
    ensures Pieces(parts) == parts
  {
    if parts != [] {
      SplitFirst(parts[0], "", NUL);
      PiecesOfPlain(parts[1..]);
    }
  }

  /** What a request's key has before its ciphertext, and after it. */
  function Front(r: Request): seq<string> {
    [r.host.id] + Split(r.host.address, NUL) + [Itoa(r.host.port)] + Split(r.host.user, NUL) + [r.host.authType]
  }

  function Back(r: Request): seq<string> {
    [r.host.trustMode] + Split(r.host.pinned, NUL) + [r.host.trusted] + r.offered
  }

  function Trace(r: Request): seq<string> { Front(r) + [r.host.secretCipher] + Back(r) }

  lemma PiecesOfFirst(s: string, rest: seq<string>)
    ensures Pieces([s] + rest) == Split(s, NUL) + Pieces(rest)
    ensures Free(s, NUL) ==> Pieces([s] + rest) == [s] + Pieces(rest)
  {
    assert ([s] + rest)[1..] == rest;
    if Free(s, NUL) { SplitFirst(s, "", NUL); }
  }

  lemma FieldsArePlain(r: Request)
    requires Version(r)
    ensures var h := r.host;
      Free(h.id, NUL) && Free(Itoa(h.port), NUL) && Free(h.authType, NUL) && Free(h.secretCipher, NUL) &&
      Free(h.trustMode, NUL) && Free(h.trusted, NUL) && forall i :: 0 <= i < |r.offered| ==> Free(r.offered[i], NUL)
  {
    hide Ciphertext, Fingerprint;
    PlainTexts(r.host.secretCipher);
    PlainTexts(r.host.trusted);
    forall i | 0 <= i < |r.offered| ensures Free(r.offered[i], NUL) { PlainTexts(r.offered[i]); }
  }

  lemma Regroup(a: seq<string>, b: seq<string>, c: seq<string>, d: seq<string>)
    ensures a + (b + (c + d)) == a + b + c + d
  {
  }

  lemma PiecesOfBack(r: Request)
    requires Free(r.host.trustMode, NUL) && Free(r.host.trusted, NUL)
    requires forall i :: 0 <= i < |r.offered| ==> Free(r.offered[i], NUL)
    ensures Pieces([r.host.trustMode] + ([r.host.pinned] + ([r.host.trusted] + r.offered))) == Back(r)
  {
    hide Pieces, Split, Free;
    var h := r.host;
    PiecesOfPlain(r.offered);
    PiecesOfFirst(h.trusted, r.offered);
    PiecesOfFirst(h.pinned, [h.trusted] + r.offered);
    PiecesOfFirst(h.trustMode, [h.pinned] + ([h.trusted] + r.offered));
    Regroup([h.trustMode], Split(h.pinned, NUL), [h.trusted], r.offered);
  }

  lemma PiecesOfFront(h: Host, rest: seq<string>)
    requires Free(h.id, NUL) && Free(Itoa(h.port), NUL) && Free(h.authType, NUL)
    ensures Pieces([h.id, h.address, Itoa(h.port), h.user, h.authType] + rest)
         == [h.id] + Split(h.address, NUL) + [Itoa(h.port)] + Split(h.user, NUL) + [h.authType] + Pieces(rest)
  {
    hide Pieces, Split, Itoa, Free;
    var f4 := [h.authType] + rest;
    var f3 := [h.user] + f4;
    var f2 := [Itoa(h.port)] + f3;
    var f1 := [h.address] + f2;
    PiecesOfFirst(h.authType, rest);
    PiecesOfFirst(h.user, f4);
    PiecesOfFirst(Itoa(h.port), f3);
    PiecesOfFirst(h.address, f2);
    PiecesOfFirst(h.id, f1);
    assert [h.id, h.address, Itoa(h.port), h.user, h.authType] + rest == [h.id] + f1;
  }

  /** A version's key is that of its pieces, which hold no NUL. */
  lemma KeyIsTrace(r: Request)
    requires Version(r)
    ensures r.Key() == Terminated(Trace(r)) && forall i :: 0 <= i < |Trace(r)| ==> Free(Trace(r)[i], NUL)
  {
    FieldsArePlain(r);
    hide Pieces, Terminated, Free, Version, Itoa, Split, Front, Back, Request.Parts;
    var h := r.host;
    var back := [h.trustMode] + ([h.pinned] + ([h.trusted] + r.offered));
    PiecesOfBack(r);
    PiecesOfFirst(h.secretCipher, back);
    PiecesOfFront(h, [h.secretCipher] + back);
    PartsInTwo(r);
    JoinedTrace(r);
    TerminatedPieces(r.Parts());
  }

  lemma PartsInTwo(r: Request)
    ensures var h := r.host;
      r.Parts() == [h.id, h.address, Itoa(h.port), h.user, h.authType]
                   + ([h.secretCipher] + ([h.trustMode] + ([h.pinned] + ([h.trusted] + r.offered))))
  {
    hide Itoa;
  }

  lemma JoinedTrace(r: Request)
    ensures Trace(r) == Front(r) + ([r.host.secretCipher] + Back(r))
    ensures Front(r) == [r.host.id] + Split(r.host.address, NUL) + [Itoa(r.host.port)] + Split(r.host.user, NUL) + [r.host.authType]
  {
    hide Split, Itoa, Back;
  }

  // ----- two versions with one key

  /** One of the row's free texts for the login holds `c` as a whole piece. */
  predicate QuotesInLogin(h: Host, c: string) { c in Split(h.address, NUL) || c in Split(h.user, NUL) }

  predicate QuotesInPin(h: Host, c: string) { c in Split(h.pinned, NUL) }

  predicate Quotes(h: Host, c: string) { QuotesInLogin(h, c) || QuotesInPin(h, c) }

  /** Each row quotes the other's ciphertext, one behind it and one in front of it. */
  predicate Crossed(h: Host, g: Host) {
    QuotesInPin(h, g.secretCipher) && QuotesInLogin(g, h.secretCipher)
  }

  predicate SameLogin(h: Host, g: Host) {
    h.id == g.id && h.address == g.address && h.port == g.port && h.user == g.user && h.authType == g.authType &&
    h.secretCipher == g.secretCipher
  }

  lemma SplitInjective(s: string, t: string)
    requires Split(s, NUL) == Split(t, NUL)
    ensures s == t
  {
    JoinSplit(s, NUL);
    JoinSplit(t, NUL);
  }

  lemma SameBack(r: Request, q: Request)
    requires SameLogin(r.host, q.host) && Trace(r) == Trace(q)
    ensures Back(r) == Back(q)
  {
    hide Split, Itoa, Back;
    var front := Front(r) + [r.host.secretCipher];
    assert Trace(r) == front + Back(r) && Trace(q) == front + Back(q);
    assert Back(r) == Trace(r)[|front|..] && Back(q) == Trace(q)[|front|..];
  }

  lemma LastButOne(r: Request, q: Request)
    requires Back(r) == Back(q) && |r.offered| == 1 && |q.offered| == 2
    ensures r.host.trusted == q.offered[0]
  {
    hide Split;
    var b, c := Back(r), Back(q);
    assert b[|b| - 2] == r.host.trusted && c[|c| - 2] == q.offered[0];
  }

  /** A key that is offered to one host only would take the place of the other's trusted fingerprint. */
  lemma SameCount(r: Request, q: Request)
    requires Back(r) == Back(q) && Apart(r, q) && |q.offered| <= 2 && (r.offered == [] <==> q.offered == [])
    ensures |r.offered| >= |q.offered|
  {
    hide Back;
    if |r.offered| == 1 && |q.offered| == 2 { LastButOne(r, q); }
  }

  lemma SameLoginSameKey(r: Request, q: Request)
    requires Version(r) && Version(q) && SameLogin(r.host, q.host) && Apart(r, q) && Trace(r) == Trace(q)
    ensures r == q
  {
    hide Split, RowOk;
    SameBack(r, q);
    SameCount(r, q);
    SameCount(q, r);
    var b, c, n := Back(r), Back(q), |r.offered|;
    var p, o := Split(r.host.pinned, NUL), Split(q.host.pinned, NUL);
    assert b[0] == r.host.trustMode && c[0] == q.host.trustMode;
    assert b[|b| - n - 1] == r.host.trusted && c[|c| - n - 1] == q.host.trusted;
    assert p == b[1..|b| - n - 1] && o == c[1..|c| - n - 1];
    SplitInjective(r.host.pinned, q.host.pinned);
    assert r.offered == b[|b| - n..] && q.offered == c[|c| - n..];
  }

  function Tens(k: nat): nat { if k == 0 then 1 else 10 * Tens(k - 1) }

  lemma {:induction false} ShortDigits(n: nat, k: nat)
    requires k >= 1 && n < Tens(k)
    ensures |DigitsOf(n)| <= k
  {
    if n >= 10 { ShortDigits(n / 10, k - 1); }
  }

  lemma ShortPort(n: int)
    requires 1 <= n <= 65535
    ensures |Itoa(n)| <= 5
  {
    assert Tens(5) == 100_000 by { assert Tens(3) == 1_000; }
    ShortDigits(n, 5);
  }

  lemma FrontAt(r: Request, k: nat)
    requires 1 <= k < |Front(r)|
    ensures var h := r.host; var c := Front(r)[k];
      QuotesInLogin(h, c) || c == Itoa(h.port) || c == h.authType
  {
    hide Split, Itoa;
    var h := r.host;
    var a, u := Split(h.address, NUL), Split(h.user, NUL);
    if k < 1 + |a| {
      assert Front(r)[k] == a[k - 1];
    } else if 1 + |a| < k < 2 + |a| + |u| {
      assert Front(r)[k] == u[k - 2 - |a|];
    }
  }

  lemma BackAt(r: Request, k: nat)
    requires k < |Back(r)|
    ensures var h := r.host; var c := Back(r)[k];
      QuotesInPin(h, c) || c == h.trustMode || c == h.trusted || c in r.offered
  {
    hide Split;
    var p := Split(r.host.pinned, NUL);
    if 1 <= k < 1 + |p| {
      assert Back(r)[k] == p[k - 1];
    } else if k >= 2 + |p| {
      assert Back(r)[k] == r.offered[k - 2 - |p|];
    }
  }

  /** A ciphertext in front of the row's own is in a free text there, and so is one behind it. */
  lemma QuotedInFront(r: Request, c: string, k: nat)
    requires Version(r) && Ciphertext(c) && 1 <= k < |Front(r)| && Front(r)[k] == c
    ensures QuotesInLogin(r.host, c)
  {
    hide Split, Itoa;
    FrontAt(r, k);
    ShortPort(r.host.port);
  }

  lemma QuotedBehind(r: Request, c: string, k: nat)
    requires Version(r) && Ciphertext(c) && k < |Back(r)| && Back(r)[k] == c
    ensures QuotesInPin(r.host, c)
  {
    hide Split;
    BackAt(r, k);
    PlainTexts(c);
  }

  lemma ShorterFrontCrosses(r: Request, q: Request)
    requires Version(r) && Version(q) && Trace(r) == Trace(q) && |Front(r)| < |Front(q)|
    ensures Crossed(r.host, q.host)
  {
    var n, m := |Front(r)|, |Front(q)|;
    assert Trace(r)[n] == r.host.secretCipher && Trace(q)[n] == Front(q)[n];
    assert Trace(q)[m] == q.host.secretCipher && Trace(r)[m] == Back(r)[m - n - 1];
    QuotedInFront(q, r.host.secretCipher, n);
    QuotedBehind(r, q.host.secretCipher, m - n - 1);
  }

  /** Two versions with one key are one and the same, unless their ciphertexts differ and each quotes the
      other's: one in its pinned fingerprint, the other in its address or user. */
  lemma SharedKey(r: Request, q: Request)
    requires Version(r) && Version(q) && Apart(r, q) && r.Key() == q.Key()
    requires r.host.secretCipher == q.host.secretCipher ==> SameLogin(r.host, q.host)
    ensures r == q || (r.host.secretCipher != q.host.secretCipher && (Crossed(r.host, q.host) || Crossed(q.host, r.host)))
  {
    hide Version, Trace, Terminated;
    KeyIsTrace(r);
    KeyIsTrace(q);
    TerminatedInjective(Trace(r), Trace(q));
    SharedTrace(r, q);
  }

  lemma SharedTrace(r: Request, q: Request)
    requires Version(r) && Version(q) && Apart(r, q) && Trace(r) == Trace(q)
    requires r.host.secretCipher == q.host.secretCipher ==> SameLogin(r.host, q.host)
    ensures r == q || (r.host.secretCipher != q.host.secretCipher && (Crossed(r.host, q.host) || Crossed(q.host, r.host)))
  {
    hide Version, Crossed, Trace, Front;
    if |Front(r)| == |Front(q)| { SameFrontSameCipher(r, q); }
    if r.host.secretCipher == q.host.secretCipher {
      SameLoginSameKey(r, q);
    } else if |Front(r)| < |Front(q)| {
      ShorterFrontCrosses(r, q);
    } else if |Front(q)| < |Front(r)| {
      ShorterFrontCrosses(q, r);
    }
  }

  lemma SameFrontSameCipher(r: Request, q: Request)
    requires Trace(r) == Trace(q) && |Front(r)| == |Front(q)|
    ensures r.host.secretCipher == q.host.secretCipher
  {
    hide Front, Back;
    assert Trace(r)[|Front(r)|] == r.host.secretCipher && Trace(q)[|Front(q)|] == q.host.secretCipher;
  }

  // ----- the history of a row

  /** What changes the fields in the key: a save of the host, the host-key policy, an operator's
      approval of a presented fingerprint, and a first or repeated trust. */
  datatype Edit =
    | Save(address: string, port: int, user: string, authType: string, cipher: string)
    | Policy(trustMode: string, pinned: string)
    | Approve(fingerprint: string)
    | Trust(fingerprint: string)

  predicate EditOk(e: Edit) {
    match e
    case Save(_, port, _, authType, cipher) =>
      1 <= port <= 65535 && authType in {"password", "key", "app_key"} && Ciphertext(cipher)
    case Policy(trustMode, _) => trustMode in {"tofu", "pinned"}
    case Approve(fingerprint) => Fingerprint(fingerprint)
    case Trust(fingerprint) => Fingerprint(fingerprint)
  }

  function Edited(h: Host, e: Edit): Host {
    match e
    case Save(address, port, user, authType, cipher) =>
      h.(address := address, port := port, user := user, authType := authType, secretCipher := cipher)
    case Policy(trustMode, pinned) => h.(trustMode := trustMode, pinned := pinned)
    case Approve(fingerprint) =>
      h.(trusted := fingerprint, pinned := if h.trustMode == "pinned" then fingerprint else h.pinned)
    case Trust(fingerprint) => h.(trusted := fingerprint)
  }

  /** A row as it was created, and everything that was done to it. */
  datatype History = History(first: Host, edits: seq<Edit>)
  {
    function Row(n: nat): Host
      requires n <= |edits|
    {
      if n == 0 then first else Edited(Row(n - 1), edits[n - 1])
    }

    predicate Valid() { RowOk(first) && forall i :: 0 <= i < |edits| ==> EditOk(edits[i]) }

    /** The ciphertext that save `k` draws was in no earlier row: neither as its ciphertext, nor typed
        into a free text. */
    ghost predicate FreshDraw(k: nat)
      requires k < |edits|
    {
      edits[k].Save? ==>
        forall i: nat :: i <= k ==> Row(i).secretCipher != edits[k].cipher && !Quotes(Row(i), edits[k].cipher)
    }

    ghost predicate Fresh() { forall k: nat :: k < |edits| ==> FreshDraw(k) }
  }

  lemma {:induction false} RowsAreOk(h: History, n: nat)
    requires h.Valid() && n <= |h.edits|
    ensures RowOk(h.Row(n)) && h.Row(n).id == h.first.id
  {
    if n > 0 {
      RowsAreOk(h, n - 1);
      assert EditOk(h.edits[n - 1]);
    }
  }

  /** Between two versions either nothing was saved, or the later one has a ciphertext drawn since. */
  lemma {:induction false} SavedBetween(h: History, i: nat, j: nat)
    requires i <= j <= |h.edits|
    ensures SameLogin(h.Row(i), h.Row(j)) ||
            exists k: nat :: i <= k < j && h.edits[k].Save? && h.Row(j).secretCipher == h.edits[k].cipher
    decreases j
  {
    if i < j {
      SavedBetween(h, i, j - 1);
      if h.edits[j - 1].Save? {
        assert h.Row(j).secretCipher == h.edits[j - 1].cipher;
      } else {
        assert h.Row(j) == Edited(h.Row(j - 1), h.edits[j - 1]);
      }
    }
  }

  /** Over the whole history of a host, whatever was typed into its free texts: requests with the same
      key ask for the same version with the same keys offered. */
  lemma {:induction false} VersionsToldApart(h: History, i: nat, j: nat, r: Request, q: Request)
    requires h.Valid() && h.Fresh() && i <= |h.edits| && j <= |h.edits|
    requires r.host == h.Row(i) && q.host == h.Row(j) && Version(r) && Version(q) && Apart(r, q)
    requires r.Key() == q.Key()
    ensures r == q
    decreases j < i
  {
    hide Version, Quotes, QuotesInPin, QuotesInLogin, Request.Key, History.Valid, History.Row;
    if j < i {
      VersionsToldApart(h, j, i, q, r);
    } else {
      SavedBetween(h, i, j);
      if k: nat :| i <= k < j && h.edits[k].Save? && h.Row(j).secretCipher == h.edits[k].cipher {
        assert h.FreshDraw(k);
        NoQuoteNoCross(r.host, q.host);
      }
      SharedKey(r, q);
    }
  }

  lemma NoQuoteNoCross(h: Host, g: Host)
    requires !Quotes(h, g.secretCipher)
    ensures !Crossed(h, g) && !Crossed(g, h)
  {
  }

  // ----- the pool

  /** The request asks for some version of some host. */
  ghost predicate AsksVersion(hosts: set<History>, r: Request) {
    Version(r) && exists h, i: nat :: h in hosts && i <= |h.edits| && r.host == h.Row(i)
  }

  /** The histories of all hosts there ever were, each under its own id. */
  ghost predicate HostsOk(hosts: set<History>) {
    && (forall h :: h in hosts ==> h.Valid() && h.Fresh())
    && (forall h, g :: h in hosts && g in hosts && h.first.id == g.first.id ==> h == g)
  }

  /** Everything that is asked of the pool is a version of one of the hosts, and no host presents a key
      that the server offers for its own logins. */
  ghost predicate VersionsAsked(hosts: set<History>, steps: seq<PoolProtocol.Step>) {
    && HostsOk(hosts)
    && (forall r :: PoolProtocol.Asked(steps, r) ==> AsksVersion(hosts, r))
    && (forall r, q :: PoolProtocol.Asked(steps, r) && PoolProtocol.Asked(steps, q) ==> Apart(r, q))
  }

  lemma {:induction false} HostsToldApart(hosts: set<History>, r: Request, q: Request)
    requires HostsOk(hosts) && AsksVersion(hosts, r) && AsksVersion(hosts, q) && Apart(r, q) && r.Key() == q.Key()
    ensures r == q
  {
    hide RowOk, Request.Key, History.Row, History.Valid, History.Fresh;
    var h, i: nat :| h in hosts && i <= |h.edits| && r.host == h.Row(i);
    var g, j: nat :| g in hosts && j <= |g.edits| && q.host == g.Row(j);
    RowsAreOk(h, i);
    RowsAreOk(g, j);
    FieldsArePlain(r);
    FieldsArePlain(q);
    OtherHostOtherKey(r, q);
    VersionsToldApart(h, i, j, r, q);
  }

  /** In any run of the pool, over any histories of any hosts: a reused connection was dialled for the very
      version of the host that is asked for now, with the same keys offered. */
  lemma {:induction false} ReusedForTheSameVersion(hosts: set<History>, states: seq<PoolProtocol.State>,
                                                   steps: seq<PoolProtocol.Step>, i: nat, t: nat)
    requires PoolProtocol.Run(states, steps) && i < |states|
    requires t in states[i].callers && states[i].callers[t].Opening?
    requires VersionsAsked(hosts, steps)
    ensures var s := states[i]; var c := s.callers[t];
      c.id in s.sh.recs && s.sh.recs[c.id].request == c.request
  {
    hide PoolProtocol.Run, PoolProtocol.Asked, Request.Key, HostsOk, AsksVersion, Apart;
    PoolProtocol.ReusedUnderOneKey(states, steps, i, t);
    HostsToldApart(hosts, states[i].callers[t].request, states[i].sh.recs[states[i].callers[t].id].request);
  }

  // ----- a text that names a ciphertext before it is drawn

  lemma MovedPieces(pre: seq<string>, x: seq<string>, y: seq<string>, post: seq<string>)
    requires x != []
    ensures Terminated(pre + [Join(x, [NUL])] + y + post) == Terminated(pre + x + y + post)
  {
    hide Terminated, Join;
    TerminatedJoin(x);
    TerminatedJoin([Join(x, [NUL])]);
    Alone(Join(x, [NUL]));
    TerminatedAppend(pre, [Join(x, [NUL])]);
    TerminatedAppend(pre, x);
    TerminatedAppend(pre + [Join(x, [NUL])], y);
    TerminatedAppend(pre + x, y);
    TerminatedAppend(pre + [Join(x, [NUL])] + y, post);
    TerminatedAppend(pre + x + y, post);
  }

  lemma Alone(s: string)
    ensures Join([s], [NUL]) == s
  {
  }

  /** Without fresh ciphertexts the key would not do: a pinned text that names the ciphertext `d`
      before the save that draws it, and a user name that names `c` afterwards. */
  lemma ForeseenDrawShares(id: string, c: string, d: string) returns (h: History, r: Request, q: Request)
    requires Free(id, NUL) && Ciphertext(c) && Ciphertext(d) && c != d
    ensures h.Valid() && |h.edits| == 2 && !h.Fresh()
    ensures r.host == h.Row(0) && q.host == h.Row(2) && Version(r) && Version(q) && Apart(r, q)
    ensures r.Key() == q.Key() && r != q
  {
    hide Terminated, Join, Itoa, Ciphertext, Split;
    var pin := ["x", "key", d, "tofu", "p"];
    var user := ["u", "key", c, "tofu", "x"];
    var first := Host(id, "a", 22, "u", "key", c, "tofu", Join(pin, [NUL]), "");
    h := History(first, [Save("a", 22, Join(user, [NUL]), "key", d), Policy("tofu", "p")]);
    assert h.Row(1) == Edited(first, h.edits[0]);
    assert h.Row(2) == Edited(h.Row(1), h.edits[1]);
    r, q := Request(first, []), Request(h.Row(2), []);
    SharedPieces(id, c, d);
    assert r.Parts() == [id, "a", Itoa(22), "u", "key", c, "tofu", Join(pin, [NUL]), ""];
    assert q.Parts() == [id, "a", Itoa(22), Join(user, [NUL]), "key", d, "tofu", "p", ""];
    PinNames(d);
    assert !h.FreshDraw(0) by { assert QuotesInPin(h.Row(0), d); }
  }

  lemma PinNames(d: string)
    requires Ciphertext(d)
    ensures d in Split(Join(["x", "key", d, "tofu", "p"], [NUL]), NUL)
  {
    PlainTexts(d);
    hide Join, Split;
    SplitJoin(["x", "key", d, "tofu", "p"], NUL);
    assert ["x", "key", d, "tofu", "p"][2] == d;
  }

  lemma SharedPieces(id: string, c: string, d: string)
    ensures Terminated([id, "a", Itoa(22), "u", "key", c, "tofu", Join(["x", "key", d, "tofu", "p"], [NUL]), ""])
         == Terminated([id, "a", Itoa(22), Join(["u", "key", c, "tofu", "x"], [NUL]), "key", d, "tofu", "p", ""])
  {
    hide Terminated, Join, Itoa;
    var pin := ["x", "key", d, "tofu", "p"];
    var user := ["u", "key", c, "tofu", "x"];
    var pre := [id, "a", Itoa(22)];
    MovedPieces(pre + ["u", "key", c, "tofu"], pin, [], [""]);
    MovedPieces(pre, user, ["key", d, "tofu", "p"], [""]);
    assert pre + ["u", "key", c, "tofu"] + [Join(pin, [NUL])] + [] + [""]
        == [id, "a", Itoa(22), "u", "key", c, "tofu", Join(pin, [NUL]), ""];
    assert pre + [Join(user, [NUL])] + ["key", d, "tofu", "p"] + [""]
        == [id, "a", Itoa(22), Join(user, [NUL]), "key", d, "tofu", "p", ""];
    assert pre + ["u", "key", c, "tofu"] + pin + [] + [""] == pre + user + ["key", d, "tofu", "p"] + [""];
  }
}
