/**
 All peers together: each has its cluster, stream and watcher, and all send into one queue that fills one cache.
 Seen from one peer this is a run of the protocol in which the others now and then send an update.
 */
module Peers {
  import opened Basics
  import opened Tables
  import opened Caches
  import opened Builders
  import opened Watchers
  import opened Federation
  import opened Protocol
  import opened NoMissedUpdate

  // ---------- The system ----------

  /** The peers share the queue, the cache and the clock. */
  ghost predicate Together(ss: seq<Sys>) {
    forall i, j :: 0 <= i < |ss| && 0 <= j < |ss| ==> SameShared(ss[i], ss[j])
  }

  predicate SameShared(s: Sys, s': Sys) {
    s.updates == s'.updates && s.cache == s'.cache && s.now == s'.now
  }

  function Names(ps: seq<Setup>): (names: seq<Text>)
    ensures |names| == |ps| && forall i :: 0 <= i < |ps| ==> names[i] == ClusterName(ps[i])
  {
    seq(|ps|, i requires 0 <= i < |ps| => ClusterName(ps[i]))
  }

  ghost predicate AllStart(ps: seq<Setup>, ss: seq<Sys>) {
    |ss| == |ps| && NoDup(Names(ps)) && Together(ss) && forall i :: 0 <= i < |ps| ==> Start(ps[i], ss[i])
  }

  /** Peer `i` makes a move; of the others only what they share with it can change. */
  ghost predicate Turn(ps: seq<Setup>, ss: seq<Sys>, ss': seq<Sys>, i: nat, m: Move) {
    && i < |ps| == |ss| == |ss'| && !m.OtherPeer?
    && Enabled(ps[i], ss[i], m) && ss'[i] == Exec(ps[i], ss[i], m)
    && forall j :: 0 <= j < |ss| && j != i
                   ==> ss'[j] == ss[j].(updates := ss'[i].updates, cache := ss'[i].cache, now := ss'[i].now)
  }

  ghost predicate IsJointRun(ps: seq<Setup>, trace: seq<seq<Sys>>, turns: seq<(nat, Move)>) {
    && |trace| == |turns| + 1 && AllStart(ps, trace[0])
    && forall t :: 0 <= t < |turns| ==> Turn(ps, trace[t], trace[t + 1], turns[t].0, turns[t].1)
  }

  // ---------- What one peer sees of the others ----------

  /** What a peer's move is for another peer: nothing, or a move of its own with an update that is not its own. */
  lemma SeenByOthers(p: Setup, s: Sys, m: Move, p': Setup, other: Sys) returns (seen: Option<Move>)
    requires Base(p, s) && Enabled(p, s, m) && !m.OtherPeer? && SameShared(s, other)
    requires ClusterName(p) != ClusterName(p')
    ensures var s' := Exec(p, s, m);
            var other' := other.(updates := s'.updates, cache := s'.cache, now := s'.now);
            match seen
            case None => other' == other
            case Some(m') => Enabled(p', other, m') && other' == Exec(p', other, m')
  {
    hide JobView, JobsView, ApplyTo, Reported, Events, Inv, WorkJobs, Reseeded, ClusterName;
    match m
    case Tick(_) => seen := Some(m);
    case Deliver => seen := Some(m);
    case Send => seen := Some(OtherPeer(Exec(p, s, m).updates[|s.updates|]));
    case _ => seen := None;
  }

  /** Every peer's invariants are kept, whoever moves. */
  lemma TurnKeeps(ps: seq<Setup>, ss: seq<Sys>, ss': seq<Sys>, i: nat, m: Move, j: nat, job: Text)
    requires NoDup(Names(ps)) && Together(ss) && Turn(ps, ss, ss', i, m) && j < |ps|
    requires Base(ps[i], ss[i]) && Base(ps[j], ss[j]) && Lower(job) == job && job != [] && Safe(ps[j], ss[j], job)
    ensures Base(ps[j], ss'[j]) && Safe(ps[j], ss'[j], job)
  {
    hide Base, Safe, Enabled, Exec, ClusterName;
    if i == j {
      StepKeepsBase(ps[i], ss[i], m);
      StepKeepsSafe(ps[i], ss[i], m, job);
    } else {
      assert Names(ps)[Min(i, j)] != Names(ps)[Max(i, j)];
      assert SameShared(ss[i], ss[j]);
      var seen := SeenByOthers(ps[i], ss[i], m, ps[j], ss[j]);
      if seen.Some? {
        StepKeepsBase(ps[j], ss[j], seen.value);
        StepKeepsSafe(ps[j], ss[j], seen.value, job);
      }
    }
  }

  lemma TurnKeepsTogether(ps: seq<Setup>, ss: seq<Sys>, ss': seq<Sys>, i: nat, m: Move)
    requires Turn(ps, ss, ss', i, m)
    ensures Together(ss')
  {
    hide Enabled, Exec;
  }

  lemma {:induction false} JointRunIsSafe(ps: seq<Setup>, trace: seq<seq<Sys>>, turns: seq<(nat, Move)>, t: nat,
                                          job: Text)
    requires IsJointRun(ps, trace, turns) && t < |trace| && Lower(job) == job && job != []
    ensures |trace[t]| == |ps| && Together(trace[t])
    ensures forall j :: 0 <= j < |ps| ==> Base(ps[j], trace[t][j]) && Safe(ps[j], trace[t][j], job)
    decreases t
  {
    hide Base, Safe, Enabled, Exec, Start, Together;
    if t == 0 {
      forall j | 0 <= j < |ps| ensures Base(ps[j], trace[0][j]) && Safe(ps[j], trace[0][j], job) {
        BaseAtStart(ps[j], trace[0][j], job);
      }
    } else {
      JointRunIsSafe(ps, trace, turns, t - 1, job);
      var (i, m) := turns[t - 1];
      assert Turn(ps, trace[t - 1], trace[t], i, m);
      TurnKeepsTogether(ps, trace[t - 1], trace[t], i, m);
      forall j | 0 <= j < |ps| ensures Base(ps[j], trace[t][j]) && Safe(ps[j], trace[t][j], job) {
        TurnKeeps(ps, trace[t - 1], trace[t], i, m, j, job);
      }
    }
  }

  /** No missed update, for all peers together: every job with a name is accounted for in every cluster. */
  lemma AllAccounted(ps: seq<Setup>, trace: seq<seq<Sys>>, turns: seq<(nat, Move)>, t: nat, j: nat, job: Text)
    requires IsJointRun(ps, trace, turns) && t < |trace| && j < |ps| && Lower(job) == job && job != []
    ensures |trace[t]| == |ps| && Accounted(ps[j], trace[t][j], job)
  {
    hide IsJointRun, Base, ApplyAll, JobView, Live;
    JointRunIsSafe(ps, trace, turns, t, job);
    assert Safe(ps[j], trace[t][j], job);
  }

  // ---------- Whose clusters are in the cache ----------

  /** The cache is sorted, and nothing in it or on its way belongs to a cluster that is none of the peers'. */
  ghost predicate Ours(ps: seq<Setup>, cache: Clusters, updates: seq<Update>) {
    && WellSorted(cache) && (forall k :: HasCluster(cache, k) ==> k in Names(ps))
    && forall n :: 0 <= n < |updates| ==> GoodUpdate(updates[n]) && updates[n].cluster in Names(ps)
  }

  lemma StepKeepsOurs(ps: seq<Setup>, i: nat, s: Sys, m: Move)
    requires i < |ps| && Base(ps[i], s) && Enabled(ps[i], s, m) && !m.OtherPeer? && Ours(ps, s.cache, s.updates)
    ensures var s' := Exec(ps[i], s, m); Ours(ps, s'.cache, s'.updates)
  {
    hide JobView, JobsView, Reported, Events, Inv, WorkJobs, Reseeded, ClusterName, Put, Get, Lower;
    match m
    case Deliver =>
      var u := s.updates[0];
      ApplyKeepsSorted(s.cache, [u]);
      assert ApplyAll(s.cache, [u]) == ApplyTo(s.cache, u);
      forall k | HasCluster(ApplyTo(s.cache, u), k) ensures k in Names(ps) {
        GetPut(s.cache, u.cluster, ViewAfter(Get(s.cache, u.cluster), u), k);
        var _ := HasCluster(s.cache, k);
      }
    case Send =>
      if s.work.FullRead? {
        BuiltListsMeaning(ps[i].world, s.work.agents, s.work.tasks, []);
      }
      assert Names(ps)[i] == ClusterName(ps[i]);
    case _ =>
  }

  lemma {:induction false} JointRunIsOurs(ps: seq<Setup>, trace: seq<seq<Sys>>, turns: seq<(nat, Move)>, t: nat, j: nat)
    requires IsJointRun(ps, trace, turns) && t < |trace| && j < |ps|
    ensures |trace[t]| == |ps| && Ours(ps, trace[t][j].cache, trace[t][j].updates)
    decreases t
  {
    hide Base, Safe, Enabled, Exec, Ours;
    if t == 0 {
      OursAtStart(ps, j, trace[0][j]);
    } else {
      var (i, m) := turns[t - 1];
      assert Turn(ps, trace[t - 1], trace[t], i, m);
      JointRunIsOurs(ps, trace, turns, t - 1, i);
      JointRunIsSafe(ps, trace, turns, t - 1, [0]);
      StepKeepsOurs(ps, i, trace[t - 1][i], m);
    }
  }

  lemma OursAtStart(ps: seq<Setup>, j: nat, s: Sys)
    requires j < |ps| && Start(ps[j], s)
    ensures Ours(ps, s.cache, s.updates)
  {
  }

  // ---------- Everybody at rest ----------

  /**
   With every peer at rest the cache is the truth about all of them: each cluster's list of a job has the addresses
   at which its tasks run, and the merged list has exactly the addresses at which tasks of the job run in any
   of the clusters, each once.
   */
  lemma AllAtRestTheCacheIsTrue(ps: seq<Setup>, trace: seq<seq<Sys>>, turns: seq<(nat, Move)>, t: nat, job: Text)
    requires IsJointRun(ps, trace, turns) && t < |trace| && Lower(job) == job && job != [] && ps != []
    requires forall j :: 0 <= j < |trace[t]| ==> AtRest(trace[t][j])
    ensures |trace[t]| == |ps|
    ensures var (ss, cache) := (trace[t], trace[t][0].cache);
            && (forall j :: 0 <= j < |ps|
                            ==> GetCluster(cache, ClusterName(ps[j]), job).GetOr([]) == Actual(ps[j], ss[j].truth, job))
            && NoDup(GetMerged(cache, job))
            && forall ip :: ip in GetMerged(cache, job)
                            <==> exists j :: 0 <= j < |ps| && ip in Actual(ps[j], ss[j].truth, job)
  {
    hide Base, Safe, AtRest, JobView, GetMerged, Get;
    JointRunIsSafe(ps, trace, turns, t, job);
    JointRunIsOurs(ps, trace, turns, t, 0);
    var (ss, cache) := (trace[t], trace[t][0].cache);
    GetMergedMeaning(cache, job, Ip(0, 0, 0, 0));
    forall j | 0 <= j < |ps|
      ensures GetCluster(cache, ClusterName(ps[j]), job).GetOr([]) == Actual(ps[j], ss[j].truth, job)
    {
      assert SameShared(ss[0], ss[j]);
      SafeAtRest(ps[j], ss[j], job);
    }
    forall ip
      ensures ip in GetMerged(cache, job) <==> exists j :: 0 <= j < |ps| && ip in Actual(ps[j], ss[j].truth, job)
    {
      GetMergedMeaning(cache, job, ip);
      if k :| GetCluster(cache, k, job).Some? && ip in GetCluster(cache, k, job).value {
        KnownIsHeld(cache, k, job);
        var j :| 0 <= j < |Names(ps)| && Names(ps)[j] == k;
        assert ip in Actual(ps[j], ss[j].truth, job);
      }
    }
  }

  lemma KnownIsHeld(c: Clusters, cluster: Text, job: Text)
    requires GetCluster(c, cluster, job).Some?
    ensures HasCluster(c, cluster)
  {
  }
}
