/** Learning which units resist a restart: a small table of marks that has to say the same as the
    whole history of restarts, scans, boots and host deletions. */
module RestartMarks {
  import opened Strings
  import opened RestartPolicy

  /** The primary key of `restart_marks`: host and unit. */
  type Place = (string, string)

  type Marks = map<Place, string>

  /** What a scan reports. `unread`: the query for the marks fails; `stuck`: the units whose DELETE
      fails, which the code ignores. */
  datatype Report = Report(needsRestart: seq<string>, bootID: string, unread: bool, stuck: set<string>)
  {
    function Boot(): string { TrimSpace(bootID) }

    /** The scan confirms a mark made on `boot`: flagged again, and not rebooted since. */
    predicate Confirms(svc: string, boot: string) {
      svc in needsRestart && TrimSpace(boot) == Boot() && Boot() != ""
    }

    /** The scan leaves such a mark in the table. */
    predicate Leaves(svc: string, boot: string) {
      unread || Confirms(svc, boot) || svc in stuck
    }
  }

  function Pruned(marks: Marks, host: string, r: Report): Marks {
    map p | p in marks && (p.0 == host ==> r.Leaves(p.1, marks[p])) :: marks[p]
  }

  function Resistant(marks: Marks, host: string, r: Report): set<string> {
    if r.unread then {} else set s | s in r.needsRestart && (host, s) in marks && r.Confirms(s, marks[(host, s)])
  }

  /** What a scan makes of the marks. A failing query changes and teaches nothing, and no mark is made up or
      taken from another host. Of the host's own marks exactly those teach something that were made on
      the boot that the scan reports, of units that it flags; these stay, and those that cannot be
      deleted. */
  ghost predicate ScanMeans(marks: Marks, host: string, r: Report, marks': Marks, resistant: set<string>) {
    && (r.unread ==> marks' == marks && resistant == {})
    && (forall p :: p in marks' ==> p in marks && marks'[p] == marks[p])
    && (forall p :: p in marks && p.0 != host ==> p in marks')
    && (forall svc :: svc in resistant ==> (host, svc) in marks)
    && (!r.unread ==> forall svc :: (host, svc) in marks ==>
          var boot := TrimSpace(marks[(host, svc)]);
          var confirmed := svc in r.needsRestart && boot == TrimSpace(r.bootID) && boot != "";
          (svc in resistant <==> confirmed) && ((host, svc) in marks' <==> confirmed || svc in r.stuck))
  }

  lemma PrunedMeans(marks: Marks, host: string, r: Report)
    ensures ScanMeans(marks, host, r, Pruned(marks, host, r), Resistant(marks, host, r))
  {
    hide TrimSpace;
  }

  /** The table when the rows of the units in `todo` are still to be looked at. */
  ghost function WithoutLost(marks: Marks, host: string, r: Report, todo: set<string>): Marks {
    map p | p in marks && (p.0 == host && p.1 !in todo ==> r.Leaves(p.1, marks[p])) :: marks[p]
  }

  ghost function Confirmed(marks: Marks, host: string, r: Report, todo: set<string>): set<string> {
    set s | s in r.needsRestart && s !in todo && (host, s) in marks && r.Confirms(s, marks[(host, s)])
  }

  lemma OneMore(marks: Marks, host: string, r: Report, todo: set<string>, svc: string)
    requires svc in todo && (host, svc) in marks && !r.unread
    ensures var now, next := WithoutLost(marks, host, r, todo), WithoutLost(marks, host, r, todo - {svc});
      next == if r.Leaves(svc, marks[(host, svc)]) then now else now - {(host, svc)}
    ensures var now, next := Confirmed(marks, host, r, todo), Confirmed(marks, host, r, todo - {svc});
      next == if r.Confirms(svc, marks[(host, svc)]) then now + {svc} else now
  {
    hide TrimSpace;
  }

  lemma FirstAndLast(marks: Marks, host: string, r: Report, all: set<string>)
    requires !r.unread && forall s :: (host, s) in marks ==> s in all
    ensures WithoutLost(marks, host, r, all) == marks && Confirmed(marks, host, r, all) == {}
    ensures WithoutLost(marks, host, r, {}) == Pruned(marks, host, r) && Confirmed(marks, host, r, {}) == Resistant(marks, host, r)
  {
    hide TrimSpace, Report.Leaves, Report.Confirms;
    forall p | p in marks && p.0 == host ensures p.1 in all {
      assert p == (host, p.1);
    }
  }

  class MarkTable {
    var marks: Marks
    /** Everything that happened. */
    ghost var history: seq<Event>

    ghost predicate Valid()
      reads this
    {
      marks == Table(history)
    }

    constructor ()
      ensures Valid() && history == []
    {
      marks, history := map[], [];
    }

    /** From now on, a scan that flags the unit counts it as learned exactly when the host reports the
        boot of this restart; what is learned of the others stays. */
    method SetRestartMark(host: string, svc: string, bootID: string)
      requires Valid()
      modifies this
      ensures Valid() && history == old(history) + [Restarted(host, svc, bootID)]
      ensures forall r: Report :: svc in r.needsRestart && !r.unread ==>
        (svc in Resistant(marks, host, r) <==> r.Boot() == TrimSpace(bootID) && r.Boot() != "")
      ensures forall p :: p != (host, svc) ==> (p in marks <==> p in old(marks)) && (p in marks ==> marks[p] == old(marks)[p])
    {
      TableSnoc(history, Restarted(host, svc, bootID));
      TrimTwice(bootID);
      marks := marks[(host, svc) := TrimSpace(bootID)];
      history := history + [Restarted(host, svc, bootID)];
    }

    /** The last part of `DeleteHost`: nothing is known of the host any more, and everything of the
        others. */
    method DeleteHost(host: string)
      requires Valid()
      modifies this
      ensures Valid() && history == old(history) + [Deleted(host)]
      ensures forall r: Report :: Resistant(marks, host, r) == {}
      ensures forall h, r: Report :: h != host ==> Resistant(marks, h, r) == Resistant(old(marks), h, r)
    {
      TableSnoc(history, Deleted(host));
      marks := map p | p in marks && p.0 != host :: marks[p];
      history := history + [Deleted(host)];
    }

    /** `reconcileRestartMarks`; the rows come in any order. */
    method Reconcile(host: string, r: Report) returns (resistant: set<string>)
      requires Valid()
      modifies this
      ensures Valid() && history == old(history) + [Scanned(host, r)]
      ensures resistant == Resistant(old(marks), host, r)
      ensures marks == Pruned(old(marks), host, r)
      ensures ScanMeans(old(marks), host, r, marks, resistant)
    {
      TableSnoc(history, Scanned(host, r));
      PrunedMeans(marks, host, r);
      history := history + [Scanned(host, r)];
      if r.unread {
        return {};
      }
      hide Table, ScanMeans;
      var cur := TrimSpace(r.bootID);
      hide TrimSpace;
      ghost var before := marks;
      var rows := map p | p in marks && p.0 == host :: p.1 := marks[p];
      var todo := rows.Keys;
      resistant := {};
      FirstAndLast(marks, host, r, todo);
      hide WithoutLost, Confirmed, Pruned, Resistant;
      while todo != {}
        invariant todo <= rows.Keys && history == old(history) + [Scanned(host, r)]
        invariant marks == WithoutLost(before, host, r, todo)
        invariant resistant == Confirmed(before, host, r, todo)
        decreases |todo|
      {
        var svc :| svc in todo;
        assert (host, svc) in before && rows[svc] == before[(host, svc)];
        OneMore(before, host, r, todo, svc);
        todo := todo - {svc};
        if svc !in r.needsRestart || TrimSpace(rows[svc]) != cur || cur == "" {
          if svc !in r.stuck {
            marks := marks - {(host, svc)};
          }
          continue;
        }
        resistant := resistant + {svc};
      }
    }

    /** The part of `UpsertScanResult` that classifies the flagged units. */
    method Scan(host: string, r: Report, handlers: set<string>) returns (restartable: seq<string>, rebootOnly: seq<string>)
      requires Valid()
      modifies this
      ensures Valid() && history == old(history) + [Scanned(host, r)]
      ensures marks == Pruned(old(marks), host, r)
      ensures Merges(restartable, rebootOnly, r.needsRestart)
      ensures forall s :: s in rebootOnly ==> RebootOnly(s, handlers, Resistant(old(marks), host, r))
      ensures forall s :: s in restartable ==> !RebootOnly(s, handlers, Resistant(old(marks), host, r))
    {
      var resistant := Reconcile(host, r);
      restartable, rebootOnly := Classify(r.needsRestart, handlers, resistant);
    }
  }

  // ----- the history

  datatype Event =
    | Restarted(host: string, svc: string, bootID: string)
    | Scanned(host: string, r: Report)
    | Deleted(host: string)

  function After(marks: Marks, e: Event): Marks {
    match e
    case Restarted(host, svc, bootID) => marks[(host, svc) := TrimSpace(bootID)]
    case Scanned(host, r) => Pruned(marks, host, r)
    case Deleted(host) => map p | p in marks && p.0 != host :: marks[p]
  }

  function Table(history: seq<Event>): Marks {
    if history == [] then map[] else After(Table(history[..|history| - 1]), history[|history| - 1])
  }

  lemma TableSnoc(history: seq<Event>, e: Event)
    ensures Table(history + [e]) == After(Table(history), e)
  {
    assert (history + [e])[..|history|] == history;
  }

  /** The event does not end what a restart of the unit on `boot` taught. */
  predicate Spares(e: Event, host: string, svc: string, boot: string) {
    match e
    case Restarted(h, s, _) => h != host || s != svc
    case Scanned(h, r) => h == host ==> r.Leaves(svc, boot)
    case Deleted(h) => h != host
  }

  /** Event `k` is the latest restart of the unit, on `boot`, and nothing has ended its lesson since. */
  ghost predicate Lesson(history: seq<Event>, k: nat, host: string, svc: string, boot: string) {
    && k < |history|
    && history[k].Restarted? && history[k].host == host && history[k].svc == svc && TrimSpace(history[k].bootID) == boot
    && forall j :: k < j < |history| ==> Spares(history[j], host, svc, boot)
  }

  /** The table is the history: a unit has a mark exactly when its latest restart still teaches
      something, and the mark is the boot of that restart. */
  lemma {:induction false} TableIsHistory(history: seq<Event>, host: string, svc: string, boot: string)
    ensures (host, svc) in Table(history) && Table(history)[(host, svc)] == boot
       <==> exists k: nat :: Lesson(history, k, host, svc, boot)
  {
    hide TrimSpace;
    if history != [] {
      var n := |history| - 1;
      var init, e := history[..n], history[n];
      TableIsHistory(init, host, svc, boot);
      if k: nat :| Lesson(init, k, host, svc, boot) {
        if Spares(e, host, svc, boot) {
          assert Lesson(history, k, host, svc, boot) by {
            assert forall j :: k < j < n ==> history[j] == init[j];
          }
        }
      }
      if k: nat :| Lesson(history, k, host, svc, boot) {
        if k < n {
          assert Lesson(init, k, host, svc, boot) by {
            assert forall j :: k < j < n ==> history[j] == init[j];
          }
          assert Spares(e, host, svc, boot);
        }
      }
      if e.Restarted? && e.host == host && e.svc == svc && TrimSpace(e.bootID) == boot {
        assert Lesson(history, n, host, svc, boot);
      }
    }
  }

  lemma MarksAreTrimmed(history: seq<Event>, p: Place)
    requires p in Table(history)
    ensures TrimSpace(Table(history)[p]) == Table(history)[p]
  {
    var boot := Table(history)[p];
    TableIsHistory(history, p.0, p.1, boot);
    var k: nat :| Lesson(history, k, p.0, p.1, boot);
    TrimTwice(history[k].bootID);
  }

  /** After any history, a scan counts a flagged unit as learned exactly when its latest restart was
      on the boot that the scan reports and every event since has left that standing. */
  lemma {:induction false} LearnedExactly(history: seq<Event>, host: string, r: Report, svc: string)
    requires svc in r.needsRestart
    ensures svc in Resistant(Table(history), host, r) <==>
      !r.unread && r.Boot() != "" && exists k: nat :: Lesson(history, k, host, svc, r.Boot())
  {
    hide TrimSpace, Table;
    var marks := Table(history);
    TableIsHistory(history, host, svc, r.Boot());
    if (host, svc) in marks {
      MarksAreTrimmed(history, (host, svc));
    }
  }

  /** No query or deletion for the unit fails in a scan of the host after event `k`. */
  ghost predicate Faultless(history: seq<Event>, k: nat, host: string, svc: string) {
    forall j :: k < j < |history| && history[j].Scanned? && history[j].host == host ==>
      !history[j].r.unread && svc !in history[j].r.stuck
  }

  /** The event says nothing against a restart of the unit on `boot`: it is no later restart of it and
      no deletion of its host, and if it is a scan of the host, it flagged the unit on that boot. */
  predicate Repeats(e: Event, host: string, svc: string, boot: string) {
    match e
    case Restarted(h, s, _) => !(h == host && s == svc)
    case Scanned(h, r) => h == host ==> svc in r.needsRestart && r.Boot() == boot && boot != ""
    case Deleted(h) => h != host
  }

  /** Without database errors a restart still teaches something if and only if it is the unit's latest,
      the host was not deleted since, and every scan of the host since then flagged the unit on the
      non-empty boot of the restart. */
  lemma {:induction false} LessonOfScans(history: seq<Event>, k: nat, host: string, svc: string, boot: string)
    requires k < |history| && Faultless(history, k, host, svc)
    requires history[k].Restarted? && history[k].host == host && history[k].svc == svc && TrimSpace(history[k].bootID) == boot
    ensures Lesson(history, k, host, svc, boot) <==> forall j :: k < j < |history| ==> Repeats(history[j], host, svc, boot)
  {
    hide TrimSpace;
    TrimTwice(history[k].bootID);
    forall j | k < j < |history| ensures Spares(history[j], host, svc, boot) <==> Repeats(history[j], host, svc, boot) {
    }
  }

  /** What a scan puts in its two lists is a statement about the history alone. */
  lemma {:induction false} ClassifiedByHistory(history: seq<Event>, host: string, r: Report, handlers: set<string>,
                            restartable: seq<string>, rebootOnly: seq<string>, svc: string)
    requires Merges(restartable, rebootOnly, r.needsRestart)
    requires forall s :: s in rebootOnly ==> RebootOnly(s, handlers, Resistant(Table(history), host, r))
    requires forall s :: s in restartable ==> !RebootOnly(s, handlers, Resistant(Table(history), host, r))
    requires svc in r.needsRestart
    ensures svc in restartable <==> svc !in rebootOnly
    ensures svc in rebootOnly <==>
      || ((IsDbusFamily(svc) || IsKnownRebootOnly(svc)) && svc !in handlers)
      || (!r.unread && r.Boot() != "" && exists k: nat :: Lesson(history, k, host, svc, r.Boot()))
  {
    hide Norm, IsDbusFamily, IsKnownRebootOnly, Lesson, TrimSpace, Table, Resistant;
    MergedUnits(restartable, rebootOnly, r.needsRestart);
    LearnedExactly(history, host, r, svc);
  }
}
