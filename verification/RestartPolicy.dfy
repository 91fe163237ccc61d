/** Which units a restart can help and which need a reboot. */
module RestartPolicy {
  import opened Strings

  function Norm(s: string): string { ToLower(TrimSpace(s)) }

  predicate IsDbusFamily(svc: string) {
    Norm(svc) in {"dbus", "dbus.service", "dbus.socket", "dbus-broker", "dbus-broker.service"}
  }

  predicate IsKnownRebootOnly(svc: string) {
    Norm(svc) in {"containerd", "containerd.service"}
  }

  predicate IsRisky(svc: string) {
    IsDbusFamily(svc) || Norm(svc) in {"systemd-logind", "systemd-logind.service"}
  }

  /** Only a reboot clears the unit, on a host with these needrestart handlers. */
  predicate RebootOnly(svc: string, handlers: set<string>, resistant: set<string>) {
    svc in resistant || ((IsDbusFamily(svc) || IsKnownRebootOnly(svc)) && svc !in handlers)
  }

  /** The names of the message bus, of the login daemon and of the container runtime count in any case of
      letters and with blanks around them; they are apart from each other. */
  lemma FamiliesAreKnown(svc: string, name: string)
    requires Norm(svc) == name
    ensures name in {"dbus", "dbus.service", "dbus.socket", "dbus-broker", "dbus-broker.service"} ==>
      IsDbusFamily(svc) && IsRisky(svc) && !IsKnownRebootOnly(svc)
    ensures name in {"systemd-logind", "systemd-logind.service"} ==> IsRisky(svc) && !IsDbusFamily(svc) && !IsKnownRebootOnly(svc)
    ensures name in {"containerd", "containerd.service"} ==> IsKnownRebootOnly(svc) && !IsRisky(svc)
    ensures
      var bus, rest := {"dbus", "dbus.service", "dbus.socket", "dbus-broker", "dbus-broker.service"},
                       {"systemd-logind", "systemd-logind.service", "containerd", "containerd.service"};
      name !in bus + rest ==> !IsRisky(svc) && !IsKnownRebootOnly(svc)
  {
    hide Norm;
    assert |"dbus"| == 4 && |"dbus.service"| == 12 && |"dbus.socket"| == 11 && |"dbus-broker"| == 11;
    assert |"dbus-broker.service"| == 19 && |"systemd-logind"| == 14 && |"systemd-logind.service"| == 22;
    assert |"containerd"| == 10 && |"containerd.service"| == 18;
  }

  /** `whole` is `a` and `b` put together, with the order inside each one kept. */
  ghost predicate Merges(a: seq<string>, b: seq<string>, whole: seq<string>) {
    if whole == [] then a == [] && b == []
    else
      var n := |whole| - 1;
      || (a != [] && a[|a| - 1] == whole[n] && Merges(a[..|a| - 1], b, whole[..n]))
      || (b != [] && b[|b| - 1] == whole[n] && Merges(a, b[..|b| - 1], whole[..n]))
  }

  /** Splits a scan's list: each flagged unit goes to one of the two lists, in the order of the scan. */
  method Classify(needsRestart: seq<string>, handlers: set<string>, resistant: set<string>)
    returns (restartable: seq<string>, rebootOnly: seq<string>)
    ensures Merges(restartable, rebootOnly, needsRestart)
    ensures forall s :: s in rebootOnly ==> RebootOnly(s, handlers, resistant)
    ensures forall s :: s in restartable ==> !RebootOnly(s, handlers, resistant)
  {
    hide IsDbusFamily, IsKnownRebootOnly;
    restartable, rebootOnly := [], [];
    for i := 0 to |needsRestart|
      invariant Merges(restartable, rebootOnly, needsRestart[..i])
      invariant forall s :: s in rebootOnly ==> RebootOnly(s, handlers, resistant)
      invariant forall s :: s in restartable ==> !RebootOnly(s, handlers, resistant)
    {
      var s := needsRestart[i];
      assert needsRestart[..i + 1][..i] == needsRestart[..i];
      assert (rebootOnly + [s])[..|rebootOnly|] == rebootOnly;
      assert (restartable + [s])[..|restartable|] == restartable;
      if s in resistant {
        rebootOnly := rebootOnly + [s];
      } else if (IsDbusFamily(s) || IsKnownRebootOnly(s)) && s !in handlers {
        rebootOnly := rebootOnly + [s];
      } else {
        restartable := restartable + [s];
      }
    }
    assert needsRestart[..|needsRestart|] == needsRestart;
  }

  /** The two lists hold exactly the flagged units, as often as they were flagged. */
  lemma {:induction false} MergedUnits(a: seq<string>, b: seq<string>, whole: seq<string>)
    requires Merges(a, b, whole)
    ensures multiset(a) + multiset(b) == multiset(whole)
    ensures forall s :: s in whole <==> s in a || s in b
  {
    if whole != [] {
      var n := |whole| - 1;
      if a != [] && a[|a| - 1] == whole[n] && Merges(a[..|a| - 1], b, whole[..n]) {
        MergedUnits(a[..|a| - 1], b, whole[..n]);
        OneMoreUnit(a, b, whole);
      } else {
        MergedUnits(a, b[..|b| - 1], whole[..n]);
        OneMoreUnit(b, a, whole);
      }
    }
  }

  /** `a` ends as `whole` does; without that, `whole` has what `a` and `b` have. */
  lemma OneMoreUnit(a: seq<string>, b: seq<string>, whole: seq<string>)
    requires a != [] && whole != [] && a[|a| - 1] == whole[|whole| - 1]
    requires multiset(a[..|a| - 1]) + multiset(b) == multiset(whole[..|whole| - 1])
    ensures multiset(a) + multiset(b) == multiset(whole)
    ensures forall s :: s in whole <==> s in a || s in b
  {
    assert a == a[..|a| - 1] + [a[|a| - 1]] && whole == whole[..|whole| - 1] + [whole[|whole| - 1]];
    forall s ensures s in whole <==> s in a || s in b {
      assert s in multiset(whole) <==> s in multiset(a) || s in multiset(b);
    }
  }

  ghost predicate SplitBy(a: seq<string>, b: seq<string>, p: string -> bool) {
    (forall s :: s in b ==> p(s)) && forall s :: s in a ==> !p(s)
  }

  /** The contract of `Classify` leaves one answer. */
  lemma {:induction false} OneSplit(a: seq<string>, b: seq<string>, a': seq<string>, b': seq<string>, whole: seq<string>, p: string -> bool)
    requires Merges(a, b, whole) && Merges(a', b', whole)
    requires SplitBy(a, b, p) && SplitBy(a', b', p)
    ensures a == a' && b == b'
    decreases |whole|
  {
    if whole != [] {
      var n := |whole| - 1;
      if p(whole[n]) {
        assert a != [] ==> a[|a| - 1] in a;
        assert a' != [] ==> a'[|a'| - 1] in a';
        assert b == b[..|b| - 1] + [b[|b| - 1]] && b' == b'[..|b'| - 1] + [b'[|b'| - 1]];
        OneSplit(a, b[..|b| - 1], a', b'[..|b'| - 1], whole[..n], p);
      } else {
        assert b != [] ==> b[|b| - 1] in b;
        assert b' != [] ==> b'[|b'| - 1] in b';
        assert a == a[..|a| - 1] + [a[|a| - 1]] && a' == a'[..|a'| - 1] + [a'[|a'| - 1]];
        OneSplit(a[..|a| - 1], b, a'[..|a'| - 1], b', whole[..n], p);
      }
    }
  }
}
