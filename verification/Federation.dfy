/**
 Federation: several watchers send their updates, each its own in order, through one channel. Whatever the
 interleaving, the cache ends up the same, and each cluster's part is what its own watcher alone would give.
 */
module Federation {
  import opened Basics
  import opened Tables
  import opened Caches
  import opened Builders
  import opened Watchers

  // ---------- One cluster's part of a run of updates ----------

  /** What an update makes of the view of its own cluster. */
  function ViewAfter(view: Option<Jobs>, u: Update): Jobs {
    match u
    case Replace(_, jobs) => jobs
    case Set(_, job, ips) => Put(view.GetOr([]), job, ips)
  }

  /** The view of cluster `k` after the updates, from what it was before. */
  function Part(view: Option<Jobs>, us: seq<Update>, k: Text): Option<Jobs>
    decreases |us|
  {
    if us == [] then view
    else Part(if us[0].cluster == k then Some(ViewAfter(view, us[0])) else view, us[1..], k)
  }

  function Project(us: seq<Update>, k: Text): seq<Update> {
    if us == [] then [] else (if us[0].cluster == k then [us[0]] else []) + Project(us[1..], k)
  }

  lemma {:induction false} PartOfApply(c: Clusters, us: seq<Update>, k: Text)
    ensures Get(ApplyAll(c, us), k) == Part(Get(c, k), us, k)
    decreases |us|
  {
    if us != [] {
      var u := us[0];
      GetPut(c, u.cluster, ViewAfter(Get(c, u.cluster), u), k);
      PartOfApply(ApplyTo(c, u), us[1..], k);
    }
  }

  lemma {:induction false} PartOfProject(view: Option<Jobs>, us: seq<Update>, k: Text)
    ensures Part(view, us, k) == Part(view, Project(us, k), k)
    decreases |us|
  {
    if us != [] {
      if us[0].cluster == k {
        assert Project(us, k)[1..] == Project(us[1..], k);
        PartOfProject(Some(ViewAfter(view, us[0])), us[1..], k);
      } else {
        assert Project(us, k) == Project(us[1..], k);
        PartOfProject(view, us[1..], k);
      }
    }
  }

  lemma {:induction false} ApplyKeepsSorted(c: Clusters, us: seq<Update>)
    requires WellSorted(c) && forall i :: 0 <= i < |us| ==> GoodUpdate(us[i])
    ensures WellSorted(ApplyAll(c, us))
    decreases |us|
  {
    if us != [] {
      match us[0]
      case Replace(cluster, view) =>
        PutWellSorted(c, cluster, view);
        ApplyKeepsSorted(ApplyTo(c, us[0]), us[1..]);
      case Set(cluster, job, ips) =>
        SetWellSorted(c, cluster, job, ips);
        ApplyKeepsSorted(ApplyTo(c, us[0]), us[1..]);
    }
  }

  // ---------- Interleavings ----------

  /** `t` takes from the queues one by one, each queue from its front, until all are empty. */
  ghost predicate IsInterleaving(t: seq<Update>, queues: seq<seq<Update>>)
    decreases |t|
  {
    if t == [] then forall i :: 0 <= i < |queues| ==> queues[i] == []
    else exists i :: 0 <= i < |queues| && Takes(t, queues, i)
  }

  ghost predicate Takes(t: seq<Update>, queues: seq<seq<Update>>, i: nat)
    requires t != [] && i < |queues|
    decreases |t|, 0
  {
    queues[i] != [] && queues[i][0] == t[0] && IsInterleaving(t[1..], queues[i := queues[i][1..]])
  }

  /** Every queue holds the updates of one cluster, and no two queues those of the same. */
  ghost predicate Owned(queues: seq<seq<Update>>, names: seq<Text>) {
    && |queues| == |names| && NoDup(names)
    && forall i, k :: 0 <= i < |queues| && 0 <= k < |queues[i]| ==> queues[i][k].cluster == names[i]
  }

  lemma {:induction false} InterleavingProjects(t: seq<Update>, queues: seq<seq<Update>>, names: seq<Text>, k: Text)
    requires Owned(queues, names) && IsInterleaving(t, queues)
    ensures forall i :: 0 <= i < |names| && names[i] == k ==> Project(t, k) == queues[i]
    ensures k !in names ==> Project(t, k) == []
    decreases |t|
  {
    if t != [] {
      var j :| 0 <= j < |queues| && Takes(t, queues, j);
      var rest := queues[j := queues[j][1..]];
      assert Owned(rest, names);
      InterleavingProjects(t[1..], rest, names, k);
      assert t[0].cluster == names[j];
      forall i | 0 <= i < |names| && names[i] == k ensures Project(t, k) == queues[i] {
        assert rest[i] == if i == j then queues[j][1..] else queues[i];
        if i == j {
          assert queues[j] == [queues[j][0]] + queues[j][1..];
        } else {
          assert names[Min(i, j)] != names[Max(i, j)];
        }
      }
    }
  }

  /** Each cluster's part of the cache is what its own watcher's updates alone would give. */
  lemma OwnPart(c: Clusters, t: seq<Update>, queues: seq<seq<Update>>, names: seq<Text>, i: nat)
    requires Owned(queues, names) && IsInterleaving(t, queues) && i < |names|
    ensures Get(ApplyAll(c, t), names[i]) == Get(ApplyAll(c, queues[i]), names[i])
  {
    InterleavingProjects(t, queues, names, names[i]);
    PartOfApply(c, t, names[i]);
    PartOfProject(Get(c, names[i]), t, names[i]);
    PartOfApply(c, queues[i], names[i]);
  }

  /** Any two interleavings end in the same cache, row for row. */
  lemma Confluence(c: Clusters, t: seq<Update>, t': seq<Update>, queues: seq<seq<Update>>, names: seq<Text>)
    requires Owned(queues, names) && IsInterleaving(t, queues) && IsInterleaving(t', queues)
    requires WellSorted(c)
    requires forall i :: 0 <= i < |t| ==> GoodUpdate(t[i])
    requires forall i :: 0 <= i < |t'| ==> GoodUpdate(t'[i])
    ensures ApplyAll(c, t) == ApplyAll(c, t')
  {
    ApplyKeepsSorted(c, t);
    ApplyKeepsSorted(c, t');
    forall k ensures Get(ApplyAll(c, t), k) == Get(ApplyAll(c, t'), k) {
      InterleavingProjects(t, queues, names, k);
      InterleavingProjects(t', queues, names, k);
      assert Project(t, k) == Project(t', k) by {
        if k in names {
          var i :| 0 <= i < |names| && names[i] == k;
          assert Project(t, k) == queues[i];
        }
      }
      PartOfApply(c, t, k);
      PartOfApply(c, t', k);
      PartOfProject(Get(c, k), t, k);
      PartOfProject(Get(c, k), t', k);
    }
    Canonical(ApplyAll(c, t), ApplyAll(c, t'));
  }

  // ---------- What the watchers never send ----------

  /** An update whose lists name no address twice, as every update of a watcher. */
  ghost predicate CleanUpdate(u: Update) {
    match u
    case Replace(_, view) => Sorted(view) && forall j :: Get(view, j).Some? ==> NoDup(Get(view, j).value)
    case Set(_, _, ips) => NoDup(ips)
  }

  ghost predicate CleanCache(c: Clusters) {
    WellSorted(c) && NoRepeats(c)
  }

  /** Every update that a watcher makes of a cluster's state is clean. */
  lemma WatcherUpdatesAreClean(s: State, w: World, job: Text, agents: seq<AgentInfo>, tasks: seq<AgentTasks>)
    ensures FullUpdate(s, w, agents, tasks).Ok? ==> CleanUpdate(FullUpdate(s, w, agents, tasks).value)
    ensures JobUpdate(s, w, job, agents, tasks).Ok? ==> CleanUpdate(JobUpdate(s, w, job, agents, tasks).value)
  {
    forall j ensures Sorted(JobsView(w, agents, tasks)) && var list := Get(JobsView(w, agents, tasks), j);
                     list.Some? ==> NoDup(list.value) {
      BuiltListsMeaning(w, agents, tasks, j);
    }
    BuiltListsMeaning(w, agents, tasks, job);
  }

  lemma CleanStep(c: Clusters, u: Update, k: Text, j: Text)
    requires CleanCache(c) && CleanUpdate(u)
    ensures GetCluster(ApplyTo(c, u), k, j).Some? ==> NoDup(GetCluster(ApplyTo(c, u), k, j).value)
  {
    hide Put, Get;
    var _ := GetCluster(c, k, j);
    match u
    case Replace(cluster, view) => GetPut(c, cluster, view, k);
    case Set(cluster, job, ips) => GetAfterSet(c, cluster, job, ips, k, j);
  }

  /** A cache that only clean updates have changed names no address twice in any list. */
  lemma {:induction false} CleanUpdatesKeepClean(c: Clusters, us: seq<Update>)
    requires CleanCache(c) && forall i :: 0 <= i < |us| ==> CleanUpdate(us[i])
    ensures CleanCache(ApplyAll(c, us))
    decreases |us|
  {
    if us != [] {
      var u := us[0];
      ApplyKeepsSorted(c, [u]);
      assert ApplyAll(c, [u]) == ApplyTo(c, u);
      forall k, j {
        CleanStep(c, u, k, j);
      }
      CleanUpdatesKeepClean(ApplyTo(c, u), us[1..]);
    }
  }

  /** An update that some watcher makes of some state of a cluster. */
  ghost predicate FromWatcher(u: Update) {
    || (exists s, w, agents, tasks :: FullUpdate(s, w, agents, tasks) == Ok(u))
    || (exists s, w, job, agents, tasks :: JobUpdate(s, w, job, agents, tasks) == Ok(u))
  }

  /** A cache built by watchers, whatever they saw and in whatever order they sent it. */
  lemma BuiltCachesAreClean(us: seq<Update>)
    requires forall i :: 0 <= i < |us| ==> FromWatcher(us[i])
    ensures CleanCache(ApplyAll([], us))
  {
    forall i | 0 <= i < |us| ensures CleanUpdate(us[i]) {
      assert FromWatcher(us[i]);
      if s, w, agents, tasks :| FullUpdate(s, w, agents, tasks) == Ok(us[i]) {
        WatcherUpdatesAreClean(s, w, [], agents, tasks);
      } else {
        var s, w, job, agents, tasks :| JobUpdate(s, w, job, agents, tasks) == Ok(us[i]);
        WatcherUpdatesAreClean(s, w, job, agents, tasks);
      }
    }
    CleanUpdatesKeepClean([], us);
  }
}
