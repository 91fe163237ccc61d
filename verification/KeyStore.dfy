/** Patchdeck's own SSH keypair: the four settings rows that hold it, encrypted, and the store whose
    memory has to agree with them after every operation, failed ones included. */
module KeyStore {
  import opened Strings

  /** A keypair: who it is (the private half decides the public half), and when it was made, in
      seconds. */
  datatype Key = Key(id: nat, created: int)

  /** Cryptography and text formats: `seal` marshals and encrypts a private key with a nonce, `unseal`
      decrypts and parses it, `format` and `parse` write and read a time. */
  datatype Codec = Codec(seal: (nat, int, nat) -> string, unseal: string -> Option<nat>,
                         format: int -> string, parse: string -> Option<int>)
  {
    ghost predicate Sound() {
      && (forall id: nat, created: int, nonce: nat :: seal(id, created, nonce) != "" && unseal(seal(id, created, nonce)) == Some(id))
      && (forall t :: format(t) != "" && parse(format(t)) == Some(t))
    }
  }

  // ----- the settings rows

  type Settings = map<string, string>

  const SETTINGS: seq<string> := ["ssh_key_current", "ssh_key_current_created", "ssh_key_next", "ssh_key_next_created"]

  datatype KeyState = KeyState(curCipher: string, curCreated: string, nextCipher: string, nextCreated: string)
  {
    function Values(): (v: seq<string>)
      ensures |v| == |SETTINGS|
    {
      [curCipher, curCreated, nextCipher, nextCreated]
    }
  }

  /** A missing row reads as the empty string. */
  function Setting(m: Settings, key: string): string {
    if key in m then m[key] else ""
  }

  function StateOf(m: Settings): KeyState {
    KeyState(Setting(m, SETTINGS[0]), Setting(m, SETTINGS[1]), Setting(m, SETTINGS[2]), Setting(m, SETTINGS[3]))
  }

  /** The table after the first `n` statements of a write. An empty value deletes its row. */
  function Written(m: Settings, st: KeyState, n: nat): Settings
    requires n <= |SETTINGS|
  {
    if n == 0 then m
    else
      var w := Written(m, st, n - 1);
      if st.Values()[n - 1] == "" then w - {SETTINGS[n - 1]} else w[SETTINGS[n - 1] := st.Values()[n - 1]]
  }

  function Save(m: Settings, st: KeyState): Settings { Written(m, st, |SETTINGS|) }

  lemma {:induction false} OtherRow(m: Settings, st: KeyState, n: nat, k: string)
    requires n <= |SETTINGS| && forall i :: 0 <= i < n ==> SETTINGS[i] != k
    ensures k in Written(m, st, n) <==> k in m
    ensures k in m ==> Written(m, st, n)[k] == m[k]
  {
    hide KeyState.Values;
    if n > 0 {
      OtherRow(m, st, n - 1, k);
    }
  }

  lemma {:induction false} WrittenRow(m: Settings, st: KeyState, n: nat, i: nat)
    requires i < n <= |SETTINGS|
    ensures Setting(Written(m, st, n), SETTINGS[i]) == st.Values()[i]
  {
    hide KeyState.Values;
    NamesDiffer();
    if i < n - 1 {
      WrittenRow(m, st, n - 1, i);
      assert SETTINGS[i] != SETTINGS[n - 1];
    }
  }

  lemma NamesDiffer()
    ensures |SETTINGS| == 4 && forall i, j :: 0 <= i < j < 4 ==> SETTINGS[i] != SETTINGS[j]
  {
    assert |SETTINGS[0]| == 15 && |SETTINGS[1]| == 23 && |SETTINGS[2]| == 12 && |SETTINGS[3]| == 20;
  }

  /** Reading after a write gives back what was written, and no other row changed. */
  lemma SaveThenRead(m: Settings, st: KeyState)
    ensures StateOf(Save(m, st)) == st
    ensures forall k :: k !in SETTINGS ==> (k in Save(m, st) <==> k in m)
    ensures forall k :: k !in SETTINGS && k in m ==> Save(m, st)[k] == m[k]
  {
    hide Written;
    forall k | k !in SETTINGS
      ensures (k in Save(m, st) <==> k in m) && (k in m ==> Save(m, st)[k] == m[k])
    {
      OtherRow(m, st, |SETTINGS|, k);
    }
    WrittenRow(m, st, 4, 0);
    WrittenRow(m, st, 4, 1);
    WrittenRow(m, st, 4, 2);
    WrittenRow(m, st, 4, 3);
  }

  class Disk {
    var settings: Settings

    constructor (m: Settings)
      ensures settings == m
    {
      settings := m;
    }

    /** Query number `fail` fails; none does when `fail` is past the last. */
    method GetAppKeyState(fail: nat) returns (st: Option<KeyState>)
      ensures st == if fail < |SETTINGS| then None else Some(StateOf(settings))
    {
      var v := ["", "", "", ""];
      for i := 0 to |SETTINGS|
        invariant |v| == 4 && i <= fail
        invariant forall j :: 0 <= j < i ==> v[j] == Setting(settings, SETTINGS[j])
      {
        if i == fail {
          return None;
        }
        v := v[i := Setting(settings, SETTINGS[i])];
      }
      return Some(KeyState(v[0], v[1], v[2], v[3]));
    }

    /** `fail` is 0 when the transaction cannot begin, `i` when statement `i` fails, and one more than
        the number of statements when the commit fails. */
    method PutAppKeyState(st: KeyState, fail: nat) returns (ok: bool)
      modifies this
      ensures ok <==> fail > |SETTINGS| + 1
      ensures settings == if ok then Save(old(settings), st) else old(settings)
      ensures ok ==> StateOf(settings) == st
    {
      if fail == 0 {
        return false;
      }
      var tx := settings;
      for i := 0 to |SETTINGS|
        invariant tx == Written(settings, st, i) && settings == old(settings) && i < fail
      {
        if fail == i + 1 {
          return false;
        }
        tx := if st.Values()[i] == "" then tx - {SETTINGS[i]} else tx[SETTINGS[i] := st.Values()[i]];
      }
      if fail == |SETTINGS| + 1 {
        return false;
      }
      SaveThenRead(settings, st);
      settings := tx;
      return true;
    }
  }

  // ----- the store

  datatype Memory = Memory(cur: Key, next: Option<Key>)
  {
    /** `Signers`: what an "app_key" host is offered. */
    function Offered(): seq<Key> { if next.Some? then [cur, next.value] else [cur] }

    ghost function Ids(): set<nat> { {cur.id} + if next.Some? then {next.value.id} else {} }
  }

  /** Go's zero time, in Unix seconds. */
  const ZERO_TIME: int := -62135596800

  function LoadKey(c: Codec, cipher: string, created: string): Option<Key> {
    match c.unseal(cipher)
    case None => None
    case Some(id) =>
      var t := c.parse(created);
      Some(Key(id, if t.Some? then t.value else ZERO_TIME))
  }

  /** What a process that starts now reads from the table, if there is a keypair and it loads. */
  function Reopened(c: Codec, m: Settings): Option<Memory> {
    var st := StateOf(m);
    if st.curCipher == "" then None
    else match LoadKey(c, st.curCipher, st.curCreated)
      case None => None
      case Some(cur) =>
        if st.nextCipher == "" then Some(Memory(cur, None))
        else match LoadKey(c, st.nextCipher, st.nextCreated)
          case None => None
          case Some(next) => Some(Memory(cur, Some(next)))
  }

  /** A restart would find exactly what is in memory. */
  predicate Agree(c: Codec, mem: Memory, m: Settings) {
    Reopened(c, m) == Some(mem)
  }

  /** What `generate` draws: a new key, the cipher's nonce, and the time. */
  datatype Fresh = Fresh(id: nat, nonce: nat, now: int)

  /** Which query, key generation, or statement of the write goes wrong. */
  datatype Faults = Faults(read: nat, generate: bool, write: nat)
  {
    predicate ReadsFine() { read >= |SETTINGS| }

    predicate WritesFine() { write > |SETTINGS| + 1 }
  }

  /** `NotReady` is the answer of the check in front of a promotion. */
  datatype KeyError = Rotating | NotRotating | ReadFailed | GenerateFailed | WriteFailed | LoadFailed | NotReady

  datatype Outcome = Done(key: Key) | Failed(error: KeyError)

  function StateToSave(c: Codec, cur: Key, curCipher: string, next: Option<Key>, nextCipher: string): KeyState {
    if next.Some? then KeyState(curCipher, c.format(cur.created), nextCipher, c.format(next.value.created))
    else KeyState(curCipher, c.format(cur.created), "", "")
  }

  type Effect = (Memory, Settings, Outcome)

  function AfterStart(c: Codec, mem: Memory, m: Settings, draw: Fresh, f: Faults): Effect {
    if mem.next.Some? then (mem, m, Failed(Rotating))
    else if !f.ReadsFine() then (mem, m, Failed(ReadFailed))
    else if f.generate then (mem, m, Failed(GenerateFailed))
    else if !f.WritesFine() then (mem, m, Failed(WriteFailed))
    else
      var k := Key(draw.id, draw.now);
      var cipher := c.seal(draw.id, draw.now, draw.nonce);
      (mem.(next := Some(k)), Save(m, StateToSave(c, mem.cur, StateOf(m).curCipher, Some(k), cipher)), Done(k))
  }

  function AfterFinish(c: Codec, mem: Memory, m: Settings, f: Faults): Effect {
    if mem.next.None? then (mem, m, Failed(NotRotating))
    else if !f.ReadsFine() then (mem, m, Failed(ReadFailed))
    else if !f.WritesFine() then (mem, m, Failed(WriteFailed))
    else
      (Memory(mem.next.value, None),
       Save(m, StateToSave(c, mem.next.value, StateOf(m).nextCipher, None, "")), Done(mem.cur))
  }

  function AfterCancel(c: Codec, mem: Memory, m: Settings, f: Faults): Effect {
    if mem.next.None? then (mem, m, Failed(NotRotating))
    else if !f.ReadsFine() then (mem, m, Failed(ReadFailed))
    else if !f.WritesFine() then (mem, m, Failed(WriteFailed))
    else
      (mem.(next := None),
       Save(m, StateToSave(c, mem.cur, StateOf(m).curCipher, None, "")), Done(mem.next.value))
  }

  /** The ciphertext of the next key on disk opens to the next key in memory. */
  lemma NextCipherOpens(c: Codec, mem: Memory, m: Settings)
    requires Agree(c, mem, m) && mem.next.Some?
    ensures StateOf(m).nextCipher != "" && c.unseal(StateOf(m).nextCipher) == Some(mem.next.value.id)
  {
    hide StateOf;
  }

  /** A write that pairs each key with a ciphertext of it is read back as those keys. */
  lemma SavedAgrees(c: Codec, m: Settings, cur: Key, curCipher: string, next: Option<Key>, nextCipher: string)
    requires c.Sound()
    requires curCipher != "" && c.unseal(curCipher) == Some(cur.id)
    requires next.Some? ==> nextCipher != "" && c.unseal(nextCipher) == Some(next.value.id)
    ensures Agree(c, Memory(cur, next), Save(m, StateToSave(c, cur, curCipher, next, nextCipher)))
  {
    hide StateOf, Save;
    SaveThenRead(m, StateToSave(c, cur, curCipher, next, nextCipher));
  }

  /** Every operation keeps memory and disk in agreement, whatever fails. */
  lemma StartAgrees(c: Codec, mem: Memory, m: Settings, draw: Fresh, f: Faults)
    requires c.Sound() && Agree(c, mem, m)
    ensures var (mem', m', r) := AfterStart(c, mem, m, draw, f);
      Agree(c, mem', m') && (r.Failed? ==> mem' == mem && m' == m)
  {
    hide StateOf, Save;
    SavedAgrees(c, m, mem.cur, StateOf(m).curCipher, Some(Key(draw.id, draw.now)), c.seal(draw.id, draw.now, draw.nonce));
  }

  lemma FinishAgrees(c: Codec, mem: Memory, m: Settings, f: Faults)
    requires c.Sound() && Agree(c, mem, m)
    ensures var (mem', m', r) := AfterFinish(c, mem, m, f);
      Agree(c, mem', m') && (r.Failed? ==> mem' == mem && m' == m)
  {
    if mem.next.Some? {
      NextCipherOpens(c, mem, m);
      SavedAgrees(c, m, mem.next.value, StateOf(m).nextCipher, None, "");
    }
  }

  lemma CancelAgrees(c: Codec, mem: Memory, m: Settings, f: Faults)
    requires c.Sound() && Agree(c, mem, m)
    ensures var (mem', m', r) := AfterCancel(c, mem, m, f);
      Agree(c, mem', m') && (r.Failed? ==> mem' == mem && m' == m)
  {
    hide StateOf, Save;
    SavedAgrees(c, m, mem.cur, StateOf(m).curCipher, None, "");
  }

  class Store {
    const codec: Codec
    const disk: Disk
    var cur: Key
    var next: Option<Key>

    ghost predicate Valid()
      reads this, disk
    {
      codec.Sound() && Agree(codec, View(), disk.settings)
    }

    function View(): Memory
      reads this
    {
      Memory(cur, next)
    }

    constructor (codec: Codec, disk: Disk, cur: Key, next: Option<Key>)
      ensures this.codec == codec && this.disk == disk && View() == Memory(cur, next)
    {
      this.codec, this.disk, this.cur, this.next := codec, disk, cur, next;
    }

    /** `Open`: loads the keypair, or makes the first one. */
    static method Open(codec: Codec, disk: Disk, draw: Fresh, f: Faults)
      returns (s: Store?, generated: bool, error: Option<KeyError>)
      requires codec.Sound()
      modifies disk
      ensures s != null ==> fresh(s) && s.codec == codec && s.disk == disk && s.Valid()
      ensures s == null <==> error.Some?
      ensures !generated ==> disk.settings == old(disk.settings)
      ensures s != null && !generated ==> Some(s.View()) == Reopened(codec, old(disk.settings))
      ensures generated ==>
        s != null && StateOf(old(disk.settings)).curCipher == "" && s.View() == Memory(Key(draw.id, draw.now), None)
      ensures s != null <==>
        f.ReadsFine() && if StateOf(old(disk.settings)).curCipher == "" then !f.generate && f.WritesFine()
                         else Reopened(codec, old(disk.settings)).Some?
    {
      s, generated, error := null, false, None;
      var got := disk.GetAppKeyState(f.read);
      if got.None? {
        return null, false, Some(ReadFailed);
      }
      var st := got.value;
      if st.curCipher == "" {
        if f.generate {
          return null, false, Some(GenerateFailed);
        }
        var k, cipher := Key(draw.id, draw.now), codec.seal(draw.id, draw.now, draw.nonce);
        SavedAgrees(codec, disk.settings, k, cipher, None, "");
        var ok := disk.PutAppKeyState(StateToSave(codec, k, cipher, None, ""), f.write);
        if !ok {
          return null, false, Some(WriteFailed);
        }
        s := new Store(codec, disk, k, None);
        return s, true, None;
      }
      var cur := LoadKey(codec, st.curCipher, st.curCreated);
      if cur.None? {
        return null, false, Some(LoadFailed);
      }
      var next := None;
      if st.nextCipher != "" {
        next := LoadKey(codec, st.nextCipher, st.nextCreated);
        if next.None? {
          return null, false, Some(LoadFailed);
        }
      }
      s := new Store(codec, disk, cur.value, next);
    }

    method StartRotation(draw: Fresh, f: Faults) returns (r: Outcome)
      requires Valid()
      modifies this, disk
      ensures Valid()
      ensures (View(), disk.settings, r) == AfterStart(codec, old(View()), old(disk.settings), draw, f)
      // it succeeds exactly when no rotation is on and nothing fails; the drawn key is then the next one
      ensures r.Done? <==> old(next).None? && f.ReadsFine() && !f.generate && f.WritesFine()
      ensures r.Done? ==> View() == Memory(old(cur), Some(Key(draw.id, draw.now))) && r.key == Key(draw.id, draw.now)
      ensures r.Failed? ==> View() == old(View()) && disk.settings == old(disk.settings)
      ensures r == Failed(Rotating) <==> old(next).Some?
    {
      StartAgrees(codec, View(), disk.settings, draw, f);
      hide StateOf, Save, Agree;
      if next.Some? {
        return Failed(Rotating);
      }
      var st := disk.GetAppKeyState(f.read);
      if st.None? {
        return Failed(ReadFailed);
      }
      if f.generate {
        return Failed(GenerateFailed);
      }
      var n, cipher := Key(draw.id, draw.now), codec.seal(draw.id, draw.now, draw.nonce);
      var ok := disk.PutAppKeyState(StateToSave(codec, cur, st.value.curCipher, Some(n), cipher), f.write);
      if !ok {
        return Failed(WriteFailed);
      }
      next := Some(n);
      return Done(n);
    }

    method FinishRotation(f: Faults) returns (r: Outcome)
      requires Valid()
      modifies this, disk
      ensures Valid()
      ensures (View(), disk.settings, r) == AfterFinish(codec, old(View()), old(disk.settings), f)
      // it succeeds exactly when a rotation is on and nothing fails; the next key is then the current one
      ensures r.Done? <==> old(next).Some? && f.ReadsFine() && f.WritesFine()
      ensures r.Done? ==> View() == Memory(old(next).value, None) && r.key == old(cur)
      ensures r.Failed? ==> View() == old(View()) && disk.settings == old(disk.settings)
      ensures r == Failed(NotRotating) <==> old(next).None?
    {
      FinishAgrees(codec, View(), disk.settings, f);
      hide StateOf, Save, Agree;
      if next.None? {
        return Failed(NotRotating);
      }
      var st := disk.GetAppKeyState(f.read);
      if st.None? {
        return Failed(ReadFailed);
      }
      var ok := disk.PutAppKeyState(StateToSave(codec, next.value, st.value.nextCipher, None, ""), f.write);
      if !ok {
        return Failed(WriteFailed);
      }
      r := Done(cur);
      cur, next := next.value, None;
    }

    method CancelRotation(f: Faults) returns (r: Outcome)
      requires Valid()
      modifies this, disk
      ensures Valid()
      ensures (View(), disk.settings, r) == AfterCancel(codec, old(View()), old(disk.settings), f)
      // it succeeds exactly when a rotation is on and nothing fails; the next key is then forgotten
      ensures r.Done? <==> old(next).Some? && f.ReadsFine() && f.WritesFine()
      ensures r.Done? ==> View() == Memory(old(cur), None) && r.key == old(next).value
      ensures r.Failed? ==> View() == old(View()) && disk.settings == old(disk.settings)
      ensures r == Failed(NotRotating) <==> old(next).None?
    {
      CancelAgrees(codec, View(), disk.settings, f);
      hide StateOf, Save, Agree;
      if next.None? {
        return Failed(NotRotating);
      }
      var st := disk.GetAppKeyState(f.read);
      if st.None? {
        return Failed(ReadFailed);
      }
      var ok := disk.PutAppKeyState(StateToSave(codec, cur, st.value.curCipher, None, ""), f.write);
      if !ok {
        return Failed(WriteFailed);
      }
      r := Done(next.value);
      next := None;
    }
  }
}
