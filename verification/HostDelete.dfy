/** Deleting a host: what becomes of the jobs that target it, against what the scheduler resolves a
    job's targets to. */
module HostDelete {
  import opened Strings

  datatype Host = Host(id: string, name: string, tags: seq<string>)

  /** A row of `jobs`: the legacy primary host, the list of hosts, and the tag. */
  datatype Job = Job(primary: string, hosts: seq<string>, tag: string)
  {
    predicate IsTagJob() { TrimSpace(tag) != "" }

    /** The ids as `CreateJob`'s callers pass them: trimmed, and none empty in the list. */
    predicate Clean() {
      TrimSpace(primary) == primary && forall x :: x in hosts ==> x != "" && TrimSpace(x) == x
    }

    /** The primary host is one of the list, or there is no list. */
    predicate Consistent() { hosts == [] || primary in hosts }

    /** The hosts that a job without a tag means, by id. */
    function Targets(): set<string> {
      if hosts != [] then set x | x in hosts :: TrimSpace(x)
      else if TrimSpace(primary) != "" then {primary}
      else {}
    }

    predicate Mentions(id: string) { id in hosts || primary == id }
  }

  datatype Run = Run(id: string, job: string)

  // ----- creating a job

  function AfterCreate(j: Job): Job {
    var primary := TrimSpace(j.primary);
    Job(if primary == "" && j.hosts != [] then j.hosts[0] else primary, j.hosts, TrimSpace(j.tag))
  }

  /** A new job's primary host is one of its list exactly when none was given, or one from the list;
      the callers do not check that. */
  lemma CreatedConsistent(j: Job)
    requires j.Clean()
    ensures AfterCreate(j).Clean()
    ensures AfterCreate(j).Consistent() <==> j.hosts == [] || j.primary == "" || j.primary in j.hosts
    ensures AfterCreate(j).hosts == j.hosts && (j.primary != "" ==> AfterCreate(j).primary == j.primary)
    ensures j.primary == "" && j.hosts != [] ==> AfterCreate(j).primary == j.hosts[0]
  {
    TrimTwice(j.primary);
  }

  // ----- resolving a job's hosts

  /** Tags are compared without case and outer blanks. */
  function NormTag(tag: string): string { TrimSpace(ToLower(tag)) }

  predicate HasTag(h: Host, tag: string) {
    exists i :: 0 <= i < |h.tags| && NormTag(h.tags[i]) == NormTag(tag)
  }

  predicate Selected(h: Host, j: Job) {
    if j.IsTagJob() then HasTag(h, j.tag) else h.id in j.Targets()
  }

  /** The hosts of the table that the job selects, in the order of the table. */
  function Resolved(table: seq<Host>, j: Job): seq<Host> {
    if table == [] then []
    else
      var n := |table| - 1;
      if Selected(table[n], j) then Resolved(table[..n], j) + [table[n]] else Resolved(table[..n], j)
  }

  method ListHostsByTag(table: seq<Host>, j: Job) returns (out: seq<Host>)
    requires j.IsTagJob()
    ensures out == Resolved(table, j)
  {
    var tag := NormTag(j.tag);
    out := [];
    for i := 0 to |table|
      invariant out == Resolved(table[..i], j)
    {
      assert table[..i + 1][..i] == table[..i];
      var h := table[i];
      var k := 0;
      var found := false;
      while k < |h.tags|
        invariant 0 <= k <= |h.tags|
        invariant !found ==> forall m :: 0 <= m < k ==> NormTag(h.tags[m]) != tag
        invariant found ==> HasTag(h, j.tag)
      {
        if NormTag(h.tags[k]) == tag {
          found := true;
          break;
        }
        k := k + 1;
      }
      if found {
        out := out + [h];
      }
    }
    assert table[..|table|] == table;
  }

  method ListHostsByIDs(table: seq<Host>, j: Job) returns (out: seq<Host>)
    requires !j.IsTagJob() && j.hosts != []
    ensures out == Resolved(table, j)
  {
    var idSet := set x | x in j.hosts :: TrimSpace(x);
    out := [];
    for i := 0 to |table|
      invariant out == Resolved(table[..i], j)
    {
      assert table[..i + 1][..i] == table[..i];
      if table[i].id in idSet {
        out := out + [table[i]];
      }
    }
    assert table[..|table|] == table;
  }

  /** Whom the scheduler runs a job for: with a tag the hosts that have it, without regard to case and outer
      blanks; with a list the hosts of the list; with neither the primary host. */
  lemma {:induction false} ResolvedExactly(table: seq<Host>, j: Job, h: Host)
    ensures TrimSpace(j.tag) != "" ==>
      (h in Resolved(table, j) <==>
        h in table && exists i :: 0 <= i < |h.tags| && TrimSpace(ToLower(h.tags[i])) == TrimSpace(ToLower(j.tag)))
    ensures TrimSpace(j.tag) == "" && j.hosts != [] ==>
      (h in Resolved(table, j) <==> h in table && exists i :: 0 <= i < |j.hosts| && TrimSpace(j.hosts[i]) == h.id)
    ensures TrimSpace(j.tag) == "" && j.hosts == [] ==>
      (h in Resolved(table, j) <==> h in table && h.id == j.primary && TrimSpace(j.primary) != "")
  {
    ResolvedHolds(table, j, h);
    hide TrimSpace, ToLower, Resolved;
    if j.hosts != [] && h.id in j.Targets() {
      var x :| x in j.hosts && TrimSpace(x) == h.id;
      var i :| 0 <= i < |j.hosts| && j.hosts[i] == x;
    }
  }

  lemma {:induction false} ResolvedHolds(table: seq<Host>, j: Job, h: Host)
    ensures h in Resolved(table, j) <==> h in table && Selected(h, j)
  {
    hide Selected;
    if table != [] {
      var n := |table| - 1;
      assert table == table[..n] + [table[n]];
      ResolvedHolds(table[..n], j, h);
    }
  }

  ghost predicate UniqueIds(table: seq<Host>) {
    forall i, j :: 0 <= i < j < |table| ==> table[i].id != table[j].id
  }

  lemma {:induction false} NoneSelected(table: seq<Host>, j: Job)
    requires forall i :: 0 <= i < |table| ==> !Selected(table[i], j)
    ensures Resolved(table, j) == []
  {
    if table != [] {
      NoneSelected(table[..|table| - 1], j);
    }
  }

  lemma {:induction false} OneSelected(table: seq<Host>, j: Job, i: nat)
    requires i < |table| && Selected(table[i], j) && forall k :: 0 <= k < |table| && k != i ==> !Selected(table[k], j)
    ensures Resolved(table, j) == [table[i]]
  {
    var n := |table| - 1;
    if i == n {
      NoneSelected(table[..n], j);
    } else {
      OneSelected(table[..n], j, i);
    }
  }

  /** `resolveJobHosts`: None when the one host of a job cannot be loaded. */
  method ResolveJobHosts(table: seq<Host>, j: Job) returns (out: Option<seq<Host>>)
    requires UniqueIds(table)
    ensures out.Some? ==> out.value == Resolved(table, j)
    ensures out.None? <==> !j.IsTagJob() && j.hosts == [] && j.Targets() != {} && Resolved(table, j) == []
  {
    if j.IsTagJob() {
      var hs := ListHostsByTag(table, j);
      return Some(hs);
    }
    if |j.hosts| > 0 {
      var hs := ListHostsByIDs(table, j);
      return Some(hs);
    }
    if TrimSpace(j.primary) != "" {
      for i := 0 to |table|
        invariant forall k :: 0 <= k < i ==> table[k].id != j.primary
      {
        if table[i].id == j.primary {
          OneSelected(table, j, i);
          return Some([table[i]]);
        }
      }
      NoneSelected(table, j);
      assert j.primary in j.Targets();
      return None;
    }
    NoneSelected(table, j);
    return Some([]);
  }

  // ----- deleting a host

  function Without(list: seq<string>, id: string): seq<string> {
    if list == [] then []
    else
      var n := |list| - 1;
      if list[n] != id then Without(list[..n], id) + [list[n]] else Without(list[..n], id)
  }

  lemma {:induction false} WithoutHolds(list: seq<string>, id: string)
    ensures forall x :: x in Without(list, id) <==> x in list && x != id
    ensures |Without(list, id)| <= |list|
    ensures |Without(list, id)| == |list| <==> id !in list
    ensures id !in list ==> Without(list, id) == list
  {
    if list != [] {
      var n := |list| - 1;
      var init, last := list[..n], list[n];
      assert list == init + [last];
      WithoutHolds(init, id);
    }
  }

  lemma WithoutSnoc(list: seq<string>, x: string, id: string)
    ensures Without(list + [x], id) == if x != id then Without(list, id) + [x] else Without(list, id)
  {
    assert (list + [x])[..|list|] == list;
  }

  lemma LastApart(a: seq<string>, b: seq<string>)
    requires b != []
    ensures a + b == a + b[..|b| - 1] + [b[|b| - 1]] && b == b[..|b| - 1] + [b[|b| - 1]]
  {
  }

  /** The other entries stay, each as often as it was there, in their order. */
  lemma {:induction false} WithoutInOrder(a: seq<string>, b: seq<string>, id: string)
    ensures Without(a + b, id) == Without(a, id) + Without(b, id)
  {
    if b == [] {
      assert a + b == a;
    } else {
      hide *;
      var init, last := b[..|b| - 1], b[|b| - 1];
      WithoutInOrder(a, init, id);
      WithoutSnoc(a + init, last, id);
      WithoutSnoc(init, last, id);
      LastApart(a, b);
      if last != id { assert Without(a + b, id) == Without(a, id) + (Without(init, id) + [last]); }
    }
  }

  /** What reconciliation makes of one job; None when the job is deleted. */
  function AfterDelete(j: Job, id: string): Option<Job> {
    var remaining := Without(j.hosts, id);
    if j.IsTagJob() || (|remaining| == |j.hosts| && j.primary != id) then Some(j)
    else
      var primary := if j.primary != id then j.primary else if remaining != [] then remaining[0] else "";
      if remaining == [] && primary == "" then None else Some(j.(primary := primary, hosts := remaining))
  }

  type Jobs = map<string, Job>

  /** The tables while the rows in `todo` are still to be looked at. */
  ghost function JobsLeft(jobs: Jobs, id: string, todo: set<string>): Jobs {
    map k | k in jobs && (k in todo || AfterDelete(jobs[k], id).Some?) ::
      if k in todo then jobs[k] else AfterDelete(jobs[k], id).value
  }

  ghost function RunsLeft(runs: set<Run>, jobs: Jobs, id: string, todo: set<string>): set<Run> {
    set r | r in runs && (r.job in jobs && r.job !in todo ==> AfterDelete(jobs[r.job], id).Some?)
  }

  lemma OneMore(jobs: Jobs, runs: set<Run>, id: string, todo: set<string>, k: string)
    requires k in todo && k in jobs
    ensures var now, next := JobsLeft(jobs, id, todo), JobsLeft(jobs, id, todo - {k});
      next == match AfterDelete(jobs[k], id) { case None => now - {k} case Some(j) => now[k := j] }
    ensures var now, next := RunsLeft(runs, jobs, id, todo), RunsLeft(runs, jobs, id, todo - {k});
      next == if AfterDelete(jobs[k], id).None? then set r | r in now && r.job != k else now
    ensures k in JobsLeft(jobs, id, todo) && JobsLeft(jobs, id, todo)[k] == jobs[k]
  {
    hide AfterDelete;
  }

  lemma FirstTodo(jobs: Jobs, runs: set<Run>, id: string)
    ensures JobsLeft(jobs, id, jobs.Keys) == jobs && RunsLeft(runs, jobs, id, jobs.Keys) == runs
  {
  }

  datatype DeleteResult = Deleted | NotFound | Broken

  function HostsLeft(table: seq<Host>, id: string): seq<Host> {
    if table == [] then []
    else
      var n := |table| - 1;
      if table[n].id != id then HostsLeft(table[..n], id) + [table[n]] else HostsLeft(table[..n], id)
  }

  lemma {:induction false} HostsLeftHolds(table: seq<Host>, id: string)
    ensures forall h :: h in HostsLeft(table, id) <==> h in table && h.id != id
  {
    if table != [] {
      var n := |table| - 1;
      assert table == table[..n] + [table[n]];
      HostsLeftHolds(table[..n], id);
    }
  }

  /** The loop over a job's list. */
  method DropFromList(list: seq<string>, id: string) returns (remaining: seq<string>)
    ensures remaining == Without(list, id)
  {
    remaining := [];
    for i := 0 to |list|
      invariant remaining == Without(list[..i], id)
    {
      assert list[..i + 1][..i] == list[..i];
      if list[i] != id {
        remaining := remaining + [list[i]];
      }
    }
    assert list[..|list|] == list;
  }

  /** `reconcileJobsAfterHostDelete` on the transaction's tables; the rows come in any order, and write
      number `fault` fails. */
  method ReconcileJobs(jobs: Jobs, runs: set<Run>, id: string, fault: nat)
    returns (ok: bool, jobs': Jobs, runs': set<Run>)
    ensures ok ==> jobs' == JobsLeft(jobs, id, {}) && runs' == RunsLeft(runs, jobs, id, {})
    ensures fault >= 2 * |jobs| ==> ok
  {
    FirstTodo(jobs, runs, id);
    ok, jobs', runs' := true, jobs, runs;
    var todo := jobs.Keys;
    var writes := 0;
    hide JobsLeft, RunsLeft;
    while todo != {}
      invariant todo <= jobs.Keys && ok
      invariant jobs' == JobsLeft(jobs, id, todo) && runs' == RunsLeft(runs, jobs, id, todo)
      invariant writes + 2 * |todo| <= 2 * |jobs|
      decreases |todo|
    {
      var k :| k in todo;
      OneMore(jobs, runs, id, todo, k);
      todo := todo - {k};
      var j := jobs[k];
      if TrimSpace(j.tag) != "" {
        assert jobs'[k := j] == jobs';
        continue;
      }
      var remaining := DropFromList(j.hosts, id);
      var inList := |remaining| != |j.hosts|;
      var asPrimary := j.primary == id;
      if !inList && !asPrimary {
        assert jobs'[k := j] == jobs';
        continue;
      }
      var primary := j.primary;
      if asPrimary {
        primary := "";
        if |remaining| > 0 {
          primary := remaining[0];
        }
      }
      if |remaining| == 0 && primary == "" {
        if writes == fault || writes + 1 == fault {
          return false, jobs', runs';
        }
        runs' := set r | r in runs' && r.job != k;
        jobs' := jobs' - {k};
        writes := writes + 2;
        continue;
      }
      if writes == fault {
        return false, jobs', runs';
      }
      jobs' := jobs'[k := j.(primary := primary, hosts := remaining)];
      writes := writes + 1;
    }
  }

  class Database {
    var hosts: seq<Host>
    var jobs: Jobs
    var runs: set<Run>

    /** `DeleteHost`: one transaction. `fault` is the first write of the reconciliation that fails;
        `noStart` and `noEnd` say that the transaction cannot begin, or that another statement after
        the first or the commit fails. */
    method DeleteHost(id: string, fault: nat, noStart: bool, noEnd: bool) returns (r: DeleteResult)
      modifies this
      ensures r != Deleted ==> hosts == old(hosts) && jobs == old(jobs) && runs == old(runs)
      ensures r == Deleted ==>
        && hosts == HostsLeft(old(hosts), id) && (forall h :: h in hosts <==> h in old(hosts) && h.id != id)
        && jobs == JobsLeft(old(jobs), id, {}) && runs == RunsLeft(old(runs), old(jobs), id, {})
      ensures r == NotFound <==> !noStart && forall h :: h in old(hosts) ==> h.id != id
      ensures !noStart && !noEnd && fault >= 2 * |old(jobs)| ==> r != Broken
    {
      if noStart {
        return Broken;
      }
      var left := [];
      for i := 0 to |hosts|
        invariant left == HostsLeft(hosts[..i], id) && |left| <= i
        invariant |left| == i <==> forall k :: 0 <= k < i ==> hosts[k].id != id
      {
        assert hosts[..i + 1][..i] == hosts[..i];
        if hosts[i].id != id {
          left := left + [hosts[i]];
        }
      }
      assert hosts[..|hosts|] == hosts;
      if |left| == |hosts| {
        return NotFound;
      }
      var ok, jobs', runs' := ReconcileJobs(jobs, runs, id, fault);
      if !ok || noEnd {
        return Broken;
      }
      HostsLeftHolds(hosts, id);
      hosts, jobs, runs := left, jobs', runs';
      return Deleted;
    }
  }

  // ----- what reconciliation gets right

  /** Every entry of the list is the host, but the primary host is another one. */
  predicate Stray(j: Job, id: string) {
    j.hosts != [] && (forall x :: x in j.hosts ==> x == id) && j.primary != id && j.primary != ""
  }

  /** The job goes exactly when its last target does; otherwise its targets are the old ones without
      the host. */
  predicate Retargeted(j: Job, id: string) {
    var left := j.Targets() - {id};
    match AfterDelete(j, id)
    case None => id in j.Targets() && left == {}
    case Some(j') => j'.Targets() == left && !(id in j.Targets() && left == {})
  }

  lemma {:induction false} RetargetedExactly(j: Job, id: string)
    requires !j.IsTagJob() && j.Clean() && id != "" && TrimSpace(id) == id
    ensures Retargeted(j, id) <==> !Stray(j, id)
  {
    hide Without, TrimSpace;
    WithoutHolds(j.hosts, id);
    var remaining := Without(j.hosts, id);
    assert TrimSpace("") == "" by { Blank(); }
    if j.hosts != [] {
      CleanTargets(j);
      if remaining == [] {
        assert j.Targets() == {id} by {
          assert forall x :: x in j.hosts ==> x == id;
          assert j.hosts[0] in j.hosts;
        }
      } else {
        assert remaining[0] in remaining;
        CleanTargets(j.(hosts := remaining));
        CleanTargets(j.(primary := remaining[0], hosts := remaining));
        assert (set x | x in remaining) == j.Targets() - {id};
        assert remaining[0] in j.Targets() - {id};
      }
    }
  }

  /** The host's place in front of its list: the first other entry. */
  ghost predicate FirstOther(list: seq<string>, id: string, x: string) {
    exists i :: 0 <= i < |list| && list[i] == x != id && forall k :: 0 <= k < i ==> list[k] == id
  }

  lemma {:induction false} WithoutStarts(list: seq<string>, id: string)
    ensures Without(list, id) != [] ==> FirstOther(list, id, Without(list, id)[0])
  {
    if list != [] {
      var n := |list| - 1;
      var init := list[..n];
      WithoutStarts(init, id);
      WithoutHolds(init, id);
      if Without(init, id) != [] {
        var i :| 0 <= i < n && init[i] == Without(init, id)[0] != id && forall k :: 0 <= k < i ==> init[k] == id;
        assert list[i] == init[i] && forall k :: 0 <= k < i ==> list[k] == init[k];
      } else {
        assert forall k :: 0 <= k < n ==> init[k] in init;
        assert forall k :: 0 <= k < n ==> list[k] == init[k] == id;
      }
    }
  }

  /** Reconciliation touches nothing else. A job with a tag, and a job that does not mention the host, stays as
      it is. Of a job that does, the list loses the host, and the primary host changes only if it was the
      host: to the first other entry of the list. */
  lemma {:induction false} TouchesOnlyTheHost(j: Job, id: string)
    ensures j.IsTagJob() || !j.Mentions(id) ==> AfterDelete(j, id) == Some(j)
    ensures AfterDelete(j, id).Some? && !j.IsTagJob() ==>
      var j' := AfterDelete(j, id).value;
      && j'.tag == j.tag && j'.hosts == Without(j.hosts, id)
      && (j.primary != id ==> j'.primary == j.primary)
      && (j.primary == id && id != "" ==> FirstOther(j.hosts, id, j'.primary))
  {
    hide Without, TrimSpace;
    WithoutHolds(j.hosts, id);
    WithoutStarts(j.hosts, id);
  }

  lemma Blank()
    ensures TrimSpace("") == ""
  {
  }

  lemma CleanTargets(j: Job)
    requires j.hosts != [] && forall x :: x in j.hosts ==> TrimSpace(x) == x
    ensures j.Targets() == set x | x in j.hosts
  {
    hide TrimSpace;
    forall x | x in j.hosts ensures x in j.Targets() {
      assert TrimSpace(x) in j.Targets();
    }
  }

  /** A primary host from the list keeps a job from going stray, and stays in the list; no reference is left. */
  lemma {:induction false} DeletionKeepsConsistent(j: Job, id: string)
    requires !j.IsTagJob() && j.Clean() && id != ""
    ensures j.Consistent() ==> !Stray(j, id)
    ensures AfterDelete(j, id).Some? ==>
      var j' := AfterDelete(j, id).value;
      !j'.IsTagJob() && j'.Clean() && !j'.Mentions(id) && (j.Consistent() ==> j'.Consistent())
  {
    hide Without, TrimSpace;
    WithoutHolds(j.hosts, id);
    var remaining := Without(j.hosts, id);
    assert TrimSpace("") == "" by { Blank(); }
    if remaining != [] {
      assert remaining[0] in remaining;
    }
  }

  lemma {:induction false} ResolvedElsewhere(table: seq<Host>, j: Job, j': Job, id: string)
    requires forall i :: 0 <= i < |table| && table[i].id != id ==> Selected(table[i], j) == Selected(table[i], j')
    ensures Resolved(HostsLeft(table, id), j') == HostsLeft(Resolved(table, j), id)
  {
    hide Selected;
    if table == [] {
    } else {
      var n := |table| - 1;
      var init, last := table[..n], table[n];
      assert table == init + [last];
      hide Resolved, HostsLeft;
      ResolvedElsewhere(init, j, j', id);
      ResolvedSnoc(init, last, j);
      HostsLeftSnoc(init, last, id);
      ResolvedSnoc(HostsLeft(init, id), last, j');
      HostsLeftSnoc(Resolved(init, j), last, id);
    }
  }

  lemma ResolvedSnoc(table: seq<Host>, h: Host, j: Job)
    ensures Resolved(table + [h], j) == if Selected(h, j) then Resolved(table, j) + [h] else Resolved(table, j)
  {
    assert (table + [h])[..|table|] == table;
  }

  lemma HostsLeftSnoc(table: seq<Host>, h: Host, id: string)
    ensures HostsLeft(table + [h], id) == if h.id != id then HostsLeft(table, id) + [h] else HostsLeft(table, id)
  {
    assert (table + [h])[..|table|] == table;
  }

  /** The tables after a deletion. Tag jobs are as they were. A job without a tag is gone exactly when
      the host was its last target; otherwise its targets are the old ones without the host, and
      nothing refers to the host. Runs go exactly with their job. What the scheduler resolves for a
      job is what it resolved before without the host, in the same order. */
  lemma {:induction false} DeletionIsExact(jobs: Jobs, runs: set<Run>, table: seq<Host>, id: string, k: string)
    requires id != "" && TrimSpace(id) == id
    requires k in jobs && (!jobs[k].IsTagJob() ==> jobs[k].Clean() && jobs[k].Consistent())
    ensures var j := jobs[k]; var jobs', runs' := JobsLeft(jobs, id, {}), RunsLeft(runs, jobs, id, {});
      && (j.IsTagJob() ==> k in jobs' && jobs'[k] == j)
      && (!j.IsTagJob() ==>
           && (k !in jobs' <==> id in j.Targets() && j.Targets() - {id} == {})
           && (k in jobs' ==>
                && jobs'[k].Targets() == j.Targets() - {id} && !jobs'[k].Mentions(id)
                && jobs'[k].Clean() && jobs'[k].Consistent()))
      && (forall r :: r in runs && r.job == k ==> (r in runs' <==> k in jobs'))
      && runs' <= runs && (forall r :: r in runs && r.job !in jobs ==> r in runs')
      && (k in jobs' ==> Resolved(HostsLeft(table, id), jobs'[k]) == HostsLeft(Resolved(table, j), id))
  {
    hide TrimSpace, Without, Resolved, HostsLeft, HasTag;
    var j := jobs[k];
    if !j.IsTagJob() {
      RetargetedExactly(j, id);
      DeletionKeepsConsistent(j, id);
    }
    var after := AfterDelete(j, id);
    if after.Some? {
      hide AfterDelete, Job.Targets;
      assert after.value.tag == j.tag by { TagStays(j, id); }
      ResolvedElsewhere(table, j, after.value, id);
    }
  }

  lemma TagStays(j: Job, id: string)
    ensures AfterDelete(j, id).Some? ==> AfterDelete(j, id).value.tag == j.tag
  {
  }

  /** A job whose list is one host and whose primary is another, which the callers of `CreateJob` allow,
      survives the deletion of its only target and goes on with a host it never targeted. */
  lemma StrayGetsANewTarget(primary: string, id: string, name: string)
    requires primary != "" && TrimSpace(primary) == primary && id != "" && TrimSpace(id) == id && primary != id
    ensures var j := AfterCreate(Job(primary, [id], ""));
      && j.Targets() == {id}
      && AfterDelete(j, id).Some? && AfterDelete(j, id).value.Targets() == {primary}
  {
    assert TrimSpace("") == "";
    var j := AfterCreate(Job(primary, [id], ""));
    CleanTargets(j);
    assert [id][..0] == [];
    assert Without([id], id) == [];
  }
}
