/**
 The cache, after src/cache.rs: per cluster, per job name, the addresses of the running tasks.
 The functions give the meaning of a list of cluster rows; the class `Cache` changes its table in place.
 */
module Caches {
  import opened Basics
  import opened Tables

  /** The view of one cluster: job name to addresses. */
  type Jobs = Rows<seq<Ip>>
  /** Cluster name to its view. */
  type Clusters = Rows<Jobs>

  function GetCluster(c: Clusters, cluster: Text, job: Text): Option<seq<Ip>> {
    Get(JobsOf(c, cluster), job)
  }

  function JobsOf(c: Clusters, cluster: Text): Jobs {
    Get(c, cluster).GetOr([])
  }

  /** The address lists of `job`, one per cluster that knows it, in cluster order. */
  function Merged(c: Clusters, job: Text): seq<seq<Ip>> {
    if c == [] then []
    else
      (match Get(c[0].val, job)
       case None => []
       case Some(ips) => [ips]) + Merged(c[1..], job)
  }

  function Flatten(lists: seq<seq<Ip>>): seq<Ip> {
    if lists == [] then [] else lists[0] + Flatten(lists[1..])
  }

  /** The federated answer: every address of `job`, once, in order of first occurrence. */
  function GetMerged(c: Clusters, job: Text): seq<Ip> {
    Uniq([], Flatten(Merged(c, job)))
  }

  predicate HasJob(c: Clusters, job: Text) {
    Merged(c, job) != []
  }

  predicate HasCluster(c: Clusters, cluster: Text) {
    Get(c, cluster).Some?
  }

  function SetJob(c: Clusters, cluster: Text, job: Text, ips: seq<Ip>): Clusters {
    Put(c, cluster, Put(JobsOf(c, cluster), job, ips))
  }

  /** Every list names each address once; the updates of the watchers keep it so. */
  ghost predicate NoRepeats(c: Clusters) {
    forall k, j :: GetCluster(c, k, j).Some? ==> NoDup(GetCluster(c, k, j).value)
  }

  ghost predicate WellSorted(c: Clusters) {
    Sorted(c) && forall i :: 0 <= i < |c| ==> Sorted(c[i].val)
  }

  // ---------- What the reads mean ----------

  /** `Merged` lists exactly what some cluster holds for the job. */
  lemma {:induction false} MergedMeaning(c: Clusters, job: Text, ips: seq<Ip>)
    requires Sorted(c)
    ensures ips in Merged(c, job) <==> exists k :: GetCluster(c, k, job) == Some(ips)
  {
    MergedRows(c, job, ips);
    if i: nat :| i < |c| && Get(c[i].val, job) == Some(ips) {
      GetOfRow(c, i);
      assert GetCluster(c, c[i].key, job) == Some(ips);
    }
    if k :| GetCluster(c, k, job) == Some(ips) {
      GetFinds(c, k);
    }
  }

  lemma {:induction false} MergedRows(c: Clusters, job: Text, ips: seq<Ip>)
    ensures ips in Merged(c, job) <==> exists i :: 0 <= i < |c| && Get(c[i].val, job) == Some(ips)
    decreases |c|
  {
    if c != [] {
      MergedRows(c[1..], job, ips);
      assert forall i :: 1 <= i < |c| ==> c[i] == c[1..][i - 1];
    }
  }

  lemma {:induction false} FlattenMeaning(lists: seq<seq<Ip>>, ip: Ip)
    ensures ip in Flatten(lists) <==> exists l :: l in lists && ip in l
    decreases |lists|
  {
    if lists != [] {
      FlattenMeaning(lists[1..], ip);
    }
  }

  /** The merged answer has an address exactly when some cluster lists it for the job, and never twice. */
  lemma GetMergedMeaning(c: Clusters, job: Text, ip: Ip)
    requires Sorted(c)
    ensures NoDup(GetMerged(c, job))
    ensures ip in GetMerged(c, job)
            <==> exists k :: GetCluster(c, k, job).Some? && ip in GetCluster(c, k, job).value
  {
    UniqMeaning([], Flatten(Merged(c, job)));
    FlattenMeaning(Merged(c, job), ip);
    if l :| l in Merged(c, job) && ip in l {
      MergedMeaning(c, job, l);
    }
    if k :| GetCluster(c, k, job).Some? && ip in GetCluster(c, k, job).value {
      MergedMeaning(c, job, GetCluster(c, k, job).value);
    }
  }

  lemma {:induction false} FlattenConcat(a: seq<seq<Ip>>, b: seq<seq<Ip>>)
    ensures Flatten(a + b) == Flatten(a) + Flatten(b)
    ensures forall l :: Flatten([l]) == l
    decreases |a|
  {
    if a == [] {
      assert a + b == b;
    } else {
      assert (a + b)[1..] == a[1..] + b;
      FlattenConcat(a[1..], b);
    }
  }

  /** The names of the clusters that know a job, each once, from the least to the greatest. */
  ghost predicate Knowing(c: Clusters, job: Text, ks: seq<Text>) {
    && (forall i, j :: 0 <= i < j < |ks| ==> Less(ks[i], ks[j]))
    && forall k :: k in ks <==> GetCluster(c, k, job).Some?
  }

  /** The merged lists stand in the order of the names of their clusters. */
  lemma MergedOrder(c: Clusters, job: Text) returns (ks: seq<Text>)
    requires Sorted(c)
    ensures Knowing(c, job, ks) && |ks| == |Merged(c, job)|
    ensures forall i :: 0 <= i < |ks| ==> GetCluster(c, ks[i], job) == Some(Merged(c, job)[i])
  {
    var ps := KnowingRows(c, job);
    ks := seq(|ps|, i requires 0 <= i < |ps| => c[ps[i]].key);
    forall i | 0 <= i < |c| ensures GetCluster(c, c[i].key, job) == Get(c[i].val, job) {
      GetOfRow(c, i);
    }
    forall k ensures k in ks <==> GetCluster(c, k, job).Some? {
      GetFinds(c, k);
      if GetCluster(c, k, job).Some? {
        var i: nat :| i < |c| && c[i].key == k;
        assert i in ps;
        var j :| 0 <= j < |ps| && ps[j] == i;
        assert ks[j] == k;
      }
    }
  }

  lemma {:induction false} MergedConcat(a: Clusters, b: Clusters, job: Text)
    ensures Merged(a + b, job) == Merged(a, job) + Merged(b, job)
    decreases |a|
  {
    if a == [] {
      assert a + b == b;
    } else {
      assert (a + b)[1..] == a[1..] + b;
      MergedConcat(a[1..], b, job);
    }
  }

  lemma {:induction false} KnowingRows(c: Clusters, job: Text) returns (ps: seq<nat>)
    ensures |ps| == |Merged(c, job)| && forall i, j :: 0 <= i < j < |ps| ==> ps[i] < ps[j]
    ensures forall i :: 0 <= i < |ps| ==> ps[i] < |c| && Get(c[ps[i]].val, job) == Some(Merged(c, job)[i])
    ensures forall p: nat :: p < |c| && Get(c[p].val, job).Some? ==> p in ps
    decreases |c|
  {
    ps := [];
    if c != [] {
      var front, last := c[..|c| - 1], c[|c| - 1];
      ps := KnowingRows(front, job);
      assert c == front + [last];
      MergedConcat(front, [last], job);
      assert Merged([last][1..], job) == [];
      hide Get, Merged;
      if Get(last.val, job).Some? {
        ps := ps + [|front|];
      }
    }
  }

  lemma MergedFrom(c: Clusters, i: nat, job: Text)
    requires i < |c|
    ensures Merged(c[i..], job)
            == (match Get(c[i].val, job) case None => [] case Some(ips) => [ips]) + Merged(c[i + 1..], job)
  {
    assert c[i..][0] == c[i] && c[i..][1..] == c[i + 1..];
  }

  lemma NothingMerged(c: Clusters, job: Text)
    ensures [] + Merged(c[0..], job) == Merged(c, job) && Merged(c[|c|..], job) == []
  {
    assert c[0..] == c && c[|c|..] == [];
  }

  lemma HasJobMeaning(c: Clusters, job: Text)
    requires Sorted(c)
    ensures HasJob(c, job) <==> exists k :: GetCluster(c, k, job).Some?
  {
    if HasJob(c, job) {
      MergedMeaning(c, job, Merged(c, job)[0]);
    }
    if k :| GetCluster(c, k, job).Some? {
      MergedMeaning(c, job, GetCluster(c, k, job).value);
    }
  }

  // ---------- What the writes mean ----------

  lemma GetAfterSet(c: Clusters, cluster: Text, job: Text, ips: seq<Ip>, k: Text, j: Text)
    ensures GetCluster(SetJob(c, cluster, job, ips), k, j)
            == if k == cluster && j == job then Some(ips) else GetCluster(c, k, j)
  {
    GetPut(c, cluster, Put(JobsOf(c, cluster), job, ips), k);
    GetPut(JobsOf(c, cluster), job, ips, j);
  }

  lemma PutWellSorted(c: Clusters, cluster: Text, jobs: Jobs)
    requires WellSorted(c) && Sorted(jobs)
    ensures WellSorted(Put(c, cluster, jobs))
  {
    PutSorted(c, cluster, jobs);
    PutKeys(c, cluster, jobs);
    var put := Put(c, cluster, jobs);
    forall i | 0 <= i < |put| ensures Sorted(put[i].val) {
      assert put[i] in put;
    }
  }

  lemma SetWellSorted(c: Clusters, cluster: Text, job: Text, ips: seq<Ip>)
    requires WellSorted(c)
    ensures Sorted(JobsOf(c, cluster)) && WellSorted(SetJob(c, cluster, job, ips))
  {
    GetFinds(c, cluster);
    PutSorted(JobsOf(c, cluster), job, ips);
    PutWellSorted(c, cluster, Put(JobsOf(c, cluster), job, ips));
  }

  // ---------- Counting the distinct job names ----------

  function Keys(jobs: Jobs): set<Text> {
    set i | 0 <= i < |jobs| :: jobs[i].key
  }

  function JobNames(c: Clusters): set<Text> {
    set i, j | 0 <= i < |c| && 0 <= j < |c[i].val| :: c[i].val[j].key
  }

  // ---------- The cache that changes in place ----------

  class Cache {
    const clusters: Table<Jobs>

    ghost predicate Valid()
      reads this, clusters
    {
      WellSorted(clusters.rows)
    }

    constructor ()
      ensures Valid() && fresh(clusters) && clusters.rows == []
    {
      clusters := new Table<Jobs>();
    }

    /** Sets the addresses of one job of one cluster; a new cluster gets a view with only that job. */
    method Set(cluster: Text, job: Text, ips: seq<Ip>)
      requires Valid()
      modifies clusters
      ensures Valid() && clusters.rows == SetJob(old(clusters.rows), cluster, job, ips)
    {
      SetWellSorted(clusters.rows, cluster, job, ips);
      var found, i := clusters.Find(cluster);
      GetAt(clusters.rows, cluster, found, i);
      var jobs := new Table<seq<Ip>>();
      if found {
        jobs.rows := clusters.rows[i].val;
        var _ := jobs.Insert(job, ips);
        AtMeaning(clusters.rows, cluster, found, i, jobs.rows);
        clusters.rows := clusters.rows[i := Row(clusters.rows[i].key, jobs.rows)];
      } else {
        var _ := jobs.Insert(job, ips);
        var _ := clusters.Insert(cluster, jobs.rows);
      }
    }

    /** Replaces the whole view of a cluster; the previous view comes back. */
    method Replace(cluster: Text, jobs: Jobs) returns (was: Option<Jobs>)
      requires Valid() && Sorted(jobs)
      modifies clusters
      ensures Valid() && clusters.rows == Put(old(clusters.rows), cluster, jobs)
      ensures was == Get(old(clusters.rows), cluster)
    {
      PutWellSorted(clusters.rows, cluster, jobs);
      was := clusters.Insert(cluster, jobs);
    }

    method Clear(cluster: Text)
      requires Valid()
      modifies clusters
      ensures Valid() && clusters.rows == Without(old(clusters.rows), cluster)
      ensures forall k, j :: GetCluster(clusters.rows, k, j)
                             == if k == cluster then None else GetCluster(old(clusters.rows), k, j)
    {
      forall k ensures Get(Without(clusters.rows, cluster), k) == if k == cluster then None else Get(clusters.rows, k) {
        WithoutMeaning(clusters.rows, cluster, k);
      }
      forall r | r in Without(clusters.rows, cluster) ensures Sorted(r.val) {
        WithoutMeaning(clusters.rows, cluster, cluster);
      }
      var _ := clusters.Remove(cluster);
      assert forall i :: 0 <= i < |clusters.rows| ==> clusters.rows[i] in clusters.rows;
    }

    /** The addresses of a job in one cluster; none when the job, or the cluster, is not known. */
    method ReadCluster(cluster: Text, job: Text) returns (ips: Option<seq<Ip>>)
      requires Valid()
      ensures ips == GetCluster(clusters.rows, cluster, job)
    {
      GetFinds(clusters.rows, cluster);
      var jobs := clusters.Lookup(cluster);
      if jobs.None? {
        return None;
      }
      ips := LookupIn(jobs.value, job);
    }

    /** The address lists of a job, one per cluster that knows it. */
    method ReadMerged(job: Text) returns (lists: seq<seq<Ip>>)
      requires Valid()
      ensures lists == Merged(clusters.rows, job)
    {
      hide Get, Merged;
      var c := clusters.rows;
      lists := [];
      NothingMerged(c, job);
      for i := 0 to |c|
        invariant lists + Merged(c[i..], job) == Merged(c, job)
      {
        MergedFrom(c, i, job);
        var ips := LookupIn(c[i].val, job);
        if ips.Some? {
          Regroup(lists, [ips.value], Merged(c[i + 1..], job));
          lists := lists + [ips.value];
        } else {
          Regroup([], [], Merged(c[i + 1..], job));
        }
      }
    }

    method KnowsJob(job: Text) returns (known: bool)
      requires Valid()
      ensures known == HasJob(clusters.rows, job)
    {
      var lists := ReadMerged(job);
      known := lists != [];
    }

    method KnowsCluster(cluster: Text) returns (known: bool)
      requires Valid()
      ensures known == HasCluster(clusters.rows, cluster)
    {
      var jobs := clusters.Lookup(cluster);
      known := jobs.Some?;
    }

    method MergedOnce(job: Text) returns (out: seq<Ip>)
      requires Valid()
      ensures out == GetMerged(clusters.rows, job)
    {
      var lists := ReadMerged(job);
      out := [];
      for i := 0 to |lists|
        invariant Uniq(out, Flatten(lists[i..])) == GetMerged(clusters.rows, job)
      {
        assert Flatten(lists[i..]) == lists[i] + Flatten(lists[i + 1..]);
        UniqConcat(out, lists[i], Flatten(lists[i + 1..]));
        ghost var start := out;
        for k := 0 to |lists[i]|
          invariant Uniq(out, lists[i][k..]) == Uniq(start, lists[i])
        {
          if lists[i][k] !in out {
            out := out + [lists[i][k]];
          }
        }
      }
    }

    /** The number of different job names over all clusters. */
    method CountJobs() returns (n: nat)
      requires Valid()
      ensures n == |JobNames(clusters.rows)|
    {
      var c := clusters.rows;
      n := 0;
      for i := 0 to |c|
        invariant n == |JobNames(c[..i])|
      {
        var more := CountNew(c, i);
        n := n + more;
      }
      assert c[..|c|] == c;
    }
  }

  /** A name counts at the first cluster it occurs in. */
  method CountNew(c: Clusters, i: nat) returns (n: nat)
    requires WellSorted(c) && i < |c|
    ensures |JobNames(c[..i])| + n == |JobNames(c[..i + 1])|
  {
    hide JobNames, Keys, KnownBefore;
    ghost var earlier := JobNames(c[..i]);
    var jobs := c[i].val;
    n := 0;
    NoKeys(jobs);
    assert earlier + Keys(jobs[..0]) == earlier;
    for j := 0 to |jobs|
      invariant |earlier| + n == |earlier + Keys(jobs[..j])|
    {
      NewName(c, i, j);
      KeysGrow(jobs, j);
      assert earlier + Keys(jobs[..j + 1]) == earlier + Keys(jobs[..j]) + {jobs[j].key};
      if !KnownBefore(c, i, jobs[j].key) {
        n := n + 1;
      }
    }
    JobNamesGrow(c, i);
  }

  predicate KnownBefore(c: Clusters, i: nat, name: Text)
    requires i <= |c|
  {
    exists e :: 0 <= e < i && Get(c[e].val, name).Some?
  }

  lemma NoKeys(jobs: Jobs)
    ensures Keys(jobs[..0]) == {}
  {
  }

  lemma KeysGrow(jobs: Jobs, j: nat)
    requires j < |jobs|
    ensures Keys(jobs[..j + 1]) == Keys(jobs[..j]) + {jobs[j].key}
    ensures Keys(jobs[..|jobs|]) == Keys(jobs)
  {
    assert forall k :: 0 <= k < j ==> jobs[..j + 1][k] == jobs[..j][k];
    assert jobs[..j + 1][j].key in Keys(jobs[..j + 1]);
    assert jobs[..|jobs|] == jobs;
  }

  lemma JobNamesGrow(c: Clusters, i: nat)
    requires i < |c|
    ensures JobNames(c[..i + 1]) == JobNames(c[..i]) + Keys(c[i].val[..|c[i].val|])
  {
    assert c[i].val[..|c[i].val|] == c[i].val;
    var grown := c[..i + 1];
    assert forall e :: 0 <= e < i ==> grown[e] == c[..i][e];
    assert grown[i] == c[i];
    forall name | name in Keys(c[i].val) ensures name in JobNames(grown) {
      var j :| 0 <= j < |c[i].val| && c[i].val[j].key == name;
      assert grown[i].val[j].key == name;
    }
    forall name | name in JobNames(c[..i]) ensures name in JobNames(grown) {
      var e, j :| 0 <= e < i && 0 <= j < |c[..i][e].val| && c[..i][e].val[j].key == name;
      assert grown[e].val[j].key == name;
    }
  }

  lemma NewName(c: Clusters, i: nat, j: nat)
    requires WellSorted(c) && i < |c| && j < |c[i].val|
    ensures var name := c[i].val[j].key;
            name in JobNames(c[..i]) + Keys(c[i].val[..j]) <==> KnownBefore(c, i, name)
  {
    var name := c[i].val[j].key;
    LessIrreflexive(name);
    assert Sorted(c[i].val);
    forall e | 0 <= e < i
      ensures Get(c[e].val, name).Some? <==> exists k :: 0 <= k < |c[e].val| && c[e].val[k].key == name
    {
      GetFinds(c[e].val, name);
    }
  }
}
