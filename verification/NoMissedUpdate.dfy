/**
 No change is ever silently missed: in every run, at every moment, for every job, either the cache has its
 actual addresses, or something that will refresh them is still there.
 */
module NoMissedUpdate {
  import opened Basics
  import opened Tables
  import opened Caches
  import opened Builders
  import opened Watchers
  import opened Protocol

  // ---------- What still covers a job ----------

  /** The stream covers the job: it waits for its next ping, or an event behind its last break covers the job. */
  predicate StreamCovers(s: Sys, job: Text) {
    !s.connected || Live(s.stream, job)
  }

  /** A pending refresh covers the job. */
  predicate Pending(s: Sys, job: Text) {
    s.w.full || job in s.w.jobs
  }

  /** The refresh in progress covers the job. */
  predicate WorkCovers(s: Sys, job: Text) {
    match s.work
    case Idle => false
    case JobBegun(jobs) => job in jobs
    case JobAgents(jobs, _) => job in jobs
    case JobRead(jobs, _, _) => job in jobs
    case _ => true
  }

  /** What the refresh in progress has read of the job is still so. */
  predicate WorkFresh(p: Setup, s: Sys, job: Text) {
    match s.work
    case FullAgents(agents) => agents == s.truth.agents
    case FullRead(agents, tasks) => JobView(p.world, agents, tasks, job) == Actual(p, s.truth, job)
    case JobAgents(_, agents) => agents == s.truth.agents
    case JobRead(jobs, agents, tasks) =>
      jobs != [] && jobs[0] == job ==> JobView(p.world, agents, tasks, job) == Actual(p, s.truth, job)
    case _ => true
  }

  // ---------- The invariant ----------

  predicate WorkJobs(work: Work) {
    match work
    case JobBegun(jobs) => jobs != [] && forall i :: 0 <= i < |jobs| ==> Lower(jobs[i]) == jobs[i]
    case JobAgents(jobs, _) => jobs != [] && forall i :: 0 <= i < |jobs| ==> Lower(jobs[i]) == jobs[i]
    case JobRead(jobs, _, _) => jobs != [] && forall i :: 0 <= i < |jobs| ==> Lower(jobs[i]) == jobs[i]
    case _ => true
  }

  /** What every step keeps, whatever the job. */
  ghost predicate Base(p: Setup, s: Sys) {
    && Inv(s.w) && WorkJobs(s.work)
    && (s.w.cluster.Some? ==> s.w.cluster.value == ClusterName(p))
    && (s.work != Idle ==> s.w.cluster.Some? && s.w.due == None && !s.w.full && s.w.jobs == [])
    && (s.connected && Broke in s.stream ==> Reseeded(s.stream))
  }

  /** What every step keeps of one job. */
  predicate Safe(p: Setup, s: Sys, job: Text) {
    && (Seen(p, s, job) == Actual(p, s.truth, job) || StreamCovers(s, job) || Pending(s, job) || WorkCovers(s, job))
    && (WorkFresh(p, s, job) || StreamCovers(s, job))
  }

  // ---------- The stream ----------

  lemma {:induction false} ReseededIsLive(stream: seq<Note>, job: Text)
    requires Reseeded(stream)
    ensures Live(stream, job)
    decreases |stream|
  {
    if !CoversAll(Classify(stream[|stream| - 1].topic)) {
      ReseededIsLive(stream[..|stream| - 1], job);
    }
  }

  /** Events behind the stream cover what one of them covers, and leave covered what was. */
  lemma {:induction false} EventsCover(stream: seq<Note>, topics: seq<Option<Topic>>, job: Text)
    ensures Live(stream + Events(topics), job)
            <==> Live(stream, job) || exists i :: 0 <= i < |topics| && Covers(Classify(topics[i]), job)
    ensures Reseeded(stream) ==> Reseeded(stream + Events(topics))
    ensures Broke in stream + Events(topics) ==> Broke in stream
    decreases |topics|
  {
    if topics == [] {
      assert stream + [] == stream;
    } else {
      var front, t := topics[..|topics| - 1], topics[|topics| - 1];
      EventsCover(stream, front, job);
      var all := stream + Events(topics);
      assert all == stream + Events(front) + [Event(t)];
      assert all[..|all| - 1] == stream + Events(front);
      assert forall i :: 0 <= i < |front| ==> front[i] == topics[i];
    }
  }

  /** What an event announces it covers, unless it names a job with the empty name: those events are ignored. */
  lemma AnnouncedIsCovered(topic: Option<Topic>, job: Text)
    ensures AnnouncesAll(topic) <==> CoversAll(Classify(topic))
    ensures Covers(Classify(topic), job) <==> Announces(topic, job) && (job != [] || AnnouncesAll(topic))
  {
  }

  lemma OneMore(stream: seq<Note>, t: Option<Topic>, job: Text)
    ensures Live(stream + [Event(t)], job) <==> Covers(Classify(t), job) || Live(stream, job)
    ensures Reseeded(stream + [Event(t)]) <==> CoversAll(Classify(t)) || Reseeded(stream)
    ensures Broke in stream + [Event(t)] <==> Broke in stream
  {
    assert (stream + [Event(t)])[..|stream|] == stream;
  }

  /** Taking the first note off: what it covered itself is lost to the stream, unless a break follows anyway. */
  lemma {:induction false} FirstOff(stream: seq<Note>, job: Text)
    requires stream != []
    ensures Live(stream, job)
            <==> Live(stream[1..], job)
                 || (Broke !in stream[1..] && stream[0].Event? && Covers(Classify(stream[0].topic), job))
    ensures Reseeded(stream)
            <==> Reseeded(stream[1..])
                 || (Broke !in stream[1..] && stream[0].Event? && CoversAll(Classify(stream[0].topic)))
    decreases |stream|
  {
    var n := |stream| - 1;
    if n > 0 {
      FirstOff(stream[..n], job);
      assert stream[1..][..n - 1] == stream[..n][1..];
      assert stream[1..] == stream[..n][1..] + [stream[n]];
    }
  }

  // ---------- The updates ----------

  lemma {:induction false} ApplyAllBehind(c: Clusters, us: seq<Update>, u: Update)
    ensures ApplyAll(c, us + [u]) == ApplyTo(ApplyAll(c, us), u)
    decreases |us|
  {
    if us != [] {
      assert (us + [u])[1..] == us[1..] + [u];
      ApplyAllBehind(ApplyTo(c, us[0]), us[1..], u);
    }
  }

  function SeenAfter(before: seq<Ip>, u: Update, job: Text): seq<Ip> {
    match u
    case Replace(_, view) => Get(view, job).GetOr([])
    case Set(_, name, ips) => if name == job then ips else before
  }

  /** What an update behind the others does to what the cache will say of a job of this cluster. */
  lemma SeenBehind(p: Setup, s: Sys, u: Update, job: Text)
    ensures Seen(p, s.(updates := s.updates + [u]), job)
            == if u.cluster != ClusterName(p) then Seen(p, s, job) else SeenAfter(Seen(p, s, job), u, job)
  {
    var c := ApplyAll(s.cache, s.updates);
    ApplyAllBehind(s.cache, s.updates, u);
    match u
    case Replace(cluster, view) => GetPut(c, cluster, view, ClusterName(p));
    case Set(cluster, name, ips) => GetAfterSet(c, cluster, name, ips, ClusterName(p), job);
  }

  // ---------- Every step keeps it ----------

  lemma BaseAtStart(p: Setup, s: Sys, job: Text)
    requires Start(p, s)
    ensures Base(p, s) && Safe(p, s, job)
  {
  }

  lemma HearKeepsBase(p: Setup, s: Sys)
    requires Base(p, s) && Enabled(p, s, Hear)
    ensures Base(p, Exec(p, s, Hear))
  {
    hide Live, Reseeded, Inv, WorkJobs;
    InvKept(s.w, s.now, if s.stream[0].Event? then Classify(s.stream[0].topic) else Seed, FullRefresh, p.name);
    FirstOff(s.stream, []);
    assert s.stream == [s.stream[0]] + s.stream[1..];
  }

  /** A move of the world around the driver. */
  predicate Outside(m: Move) {
    m.Tick? || m.Change? || m.Connect? || m.Break? || m.Overrun? || m.Chatter? || m.OtherPeer?
  }

  lemma StepKeepsBase(p: Setup, s: Sys, m: Move)
    requires Base(p, s) && Enabled(p, s, m)
    ensures Base(p, Exec(p, s, m))
  {
    hide Base, Enabled, Exec;
    if Outside(m) {
      OutsideKeepsBase(p, s, m);
    } else {
      DriverKeepsBase(p, s, m);
    }
  }

  lemma OutsideKeepsBase(p: Setup, s: Sys, m: Move)
    requires Base(p, s) && Enabled(p, s, m) && Outside(m)
    ensures Base(p, Exec(p, s, m))
  {
    hide Reported, Live, Reseeded, Events, Inv, WorkJobs, ClusterName;
    match m
    case Change(truth, events) => EventsCover(s.stream, events, []);
    case Connect => OneMore(s.stream, Some(Ping), []);
    case Overrun(keep) => OneMore(s.stream[..keep], Some(Status), []);
    case Chatter(topic) => OneMore(s.stream, topic, []);
    case _ =>
  }

  lemma DriverKeepsBase(p: Setup, s: Sys, m: Move)
    requires Base(p, s) && Enabled(p, s, m) && !Outside(m)
    ensures Base(p, Exec(p, s, m))
  {
    hide Reported, Live, Reseeded, JobView, JobsView, ApplyTo, Heard, Lower;
    match m
    case DiscoverFails => InvKept(s.w, s.now, Seed, FullRefresh, p.name);
    case DiscoverAnswers => InvKept(s.w, s.now, Seed, FullRefresh, p.name);
    case Hear => HearKeepsBase(p, s);
    case StartRefresh => InvKept(s.w, s.now, Seed, FullRefresh, p.name);
    case Fail(at) => InvKept(s.w, at, Seed, WorkRefresh(s.work), p.name);
    case _ =>
  }

  /** Hearing an event makes pending what it covered. */
  lemma HearKeepsSafe(p: Setup, s: Sys, job: Text)
    requires Base(p, s) && Safe(p, s, job) && Enabled(p, s, Hear) && Lower(job) == job
    ensures Safe(p, Exec(p, s, Hear), job)
  {
    hide Live, Reseeded, Actual, JobView, ApplyAll, GetCluster, WorkJobs, ClusterName, Trim, Lower, Inv;
    FirstOff(s.stream, job);
    if s.connected && Broke in s.stream {
      ReseededIsLive(s.stream, job);
    }
  }

  lemma ChangeKeepsSafe(p: Setup, s: Sys, truth: Truth, events: seq<Option<Topic>>, job: Text)
    requires job != [] && Safe(p, s, job) && Enabled(p, s, Change(truth, events)) && Lower(job) == job
    ensures Safe(p, Exec(p, s, Change(truth, events)), job)
  {
    hide Live, Reseeded, JobView, ApplyAll, GetCluster, Events, JobsView;
    EventsCover(s.stream, events, job);
    forall i | 0 <= i < |events| ensures Covers(Classify(events[i]), job) <==> Announces(events[i], job) {
      AnnouncedIsCovered(events[i], job);
    }
    if s.connected && s.truth.agents != truth.agents {
      var i :| 0 <= i < |events| && AnnouncesAll(events[i]);
      assert Announces(events[i], job);
    }
  }

  /** A full refresh sends what it read; where that is no longer so, the stream covers the job. */
  lemma SendFullKeepsSafe(p: Setup, s: Sys, job: Text)
    requires Base(p, s) && Safe(p, s, job) && Enabled(p, s, Send) && Lower(job) == job && s.work.FullRead?
    ensures Safe(p, Exec(p, s, Send), job)
  {
    hide Live, Reseeded, JobView, JobsView, ApplyAll, GetCluster, Get, Inv, Lower;
    var (agents, tasks) := (s.work.agents, s.work.tasks);
    SeenBehind(p, s, FullUpdate(s.w, p.world, agents, tasks).value, job);
    BuildsAgree(p.world, agents, tasks, job);
  }

  /** So does a job refresh, for its first job; the others are still to be read. */
  lemma SendJobKeepsSafe(p: Setup, s: Sys, job: Text)
    requires Base(p, s) && Safe(p, s, job) && Enabled(p, s, Send) && Lower(job) == job && s.work.JobRead?
    ensures Safe(p, Exec(p, s, Send), job)
  {
    hide Live, Reseeded, JobView, JobsView, ApplyAll, GetCluster, Get, Inv, Lower;
    var jobs := s.work.jobs;
    SeenBehind(p, s, JobUpdate(s.w, p.world, jobs[0], s.work.agents, s.work.tasks).value, job);
    assert jobs == [jobs[0]] + jobs[1..];
  }

  lemma StepKeepsSafe(p: Setup, s: Sys, m: Move, job: Text)
    requires Base(p, s) && Safe(p, s, job) && Enabled(p, s, m) && Lower(job) == job && job != []
    ensures Safe(p, Exec(p, s, m), job)
  {
    hide Base, Safe, Enabled, Exec, Lower;
    if Outside(m) {
      OutsideKeepsSafe(p, s, m, job);
    } else if m.Hear? {
      HearKeepsSafe(p, s, job);
    } else if m.Send? {
      SendKeepsSafe(p, s, job);
    } else {
      DriverKeepsSafe(p, s, m, job);
    }
  }

  lemma OutsideKeepsSafe(p: Setup, s: Sys, m: Move, job: Text)
    requires Safe(p, s, job) && Enabled(p, s, m) && Outside(m) && Lower(job) == job && job != []
    ensures Safe(p, Exec(p, s, m), job)
  {
    hide Live, Reseeded, JobView, Events, GetCluster, Reported, Lower;
    match m
    case Change(truth, events) => ChangeKeepsSafe(p, s, truth, events, job);
    case Connect => OneMore(s.stream, Some(Ping), job);
    case Overrun(keep) => OneMore(s.stream[..keep], Some(Status), job);
    case Chatter(topic) => OneMore(s.stream, topic, job);
    case OtherPeer(u) => SeenBehind(p, s, u, job);
    case _ =>
  }

  lemma SendKeepsSafe(p: Setup, s: Sys, job: Text)
    requires Base(p, s) && Safe(p, s, job) && Enabled(p, s, Send) && Lower(job) == job
    ensures Safe(p, Exec(p, s, Send), job)
  {
    hide Base, Safe, Exec, Lower;
    if s.work.FullRead? {
      SendFullKeepsSafe(p, s, job);
    } else {
      SendJobKeepsSafe(p, s, job);
    }
  }

  lemma DriverKeepsSafe(p: Setup, s: Sys, m: Move, job: Text)
    requires Base(p, s) && Safe(p, s, job) && Enabled(p, s, m) && !Outside(m) && !m.Hear? && !m.Send?
    ensures Safe(p, Exec(p, s, m), job)
  {
    hide Live, Reseeded, Inv, JobView, Base, GetCluster, Lower, Trim, ApplyTo, Reported, ClusterName;
    if m.Deliver? {
      assert s.updates == [s.updates[0]] + s.updates[1..];
    }
  }

  lemma {:induction false} RunKeepsBase(p: Setup, states: seq<Sys>, moves: seq<Move>, i: nat)
    requires IsRun(p, states, moves) && i < |states|
    ensures Base(p, states[i])
    decreases i
  {
    if i == 0 {
      BaseAtStart(p, states[0], []);
    } else {
      RunKeepsBase(p, states, moves, i - 1);
      StepKeepsBase(p, states[i - 1], moves[i - 1]);
    }
  }

  lemma {:induction false} RunIsSafe(p: Setup, states: seq<Sys>, moves: seq<Move>, i: nat, job: Text)
    requires IsRun(p, states, moves) && i < |states| && Lower(job) == job && job != []
    ensures Safe(p, states[i], job)
    decreases i
  {
    if i == 0 {
      BaseAtStart(p, states[0], job);
    } else {
      RunIsSafe(p, states, moves, i - 1, job);
      RunKeepsBase(p, states, moves, i - 1);
      StepKeepsSafe(p, states[i - 1], moves[i - 1], job);
    }
  }

  /**
   The job is not forgotten: what the cache says of it, once the updates on their way are in, is what it actually
   is; or a pending refresh covers it; or the refresh in progress does; or behind its last break the stream still
   holds an event or a ping that does; or the stream is between its start or a break and its next ping.
   */
  predicate Accounted(p: Setup, s: Sys, job: Text) {
    || GetCluster(ApplyAll(s.cache, s.updates), ClusterName(p), job).GetOr([])
       == JobView(p.world, s.truth.agents, s.truth.tasks, job)
    || s.w.full || job in s.w.jobs
    || WorkCovers(s, job)
    || Live(s.stream, job)
    || !s.connected
  }

  /** Connected, and nothing is unheard, pending, in progress or on its way. */
  predicate AtRest(s: Sys) {
    s.connected && s.stream == [] && s.w.due == None && s.work == Idle && s.updates == []
  }

  /**
   No missed update. In every run, at every moment, every job with a name is accounted for. A job with the empty
   name is not: its events are ignored (`Counterexamples.EmptyNameMissed`).
   */
  lemma NoMissedUpdate(p: Setup, states: seq<Sys>, moves: seq<Move>, i: nat, job: Text)
    requires IsRun(p, states, moves) && i < |states| && Lower(job) == job && job != []
    ensures Accounted(p, states[i], job)
  {
    RunIsSafe(p, states, moves, i, job);
  }

  /** At rest the cache is the truth. */
  lemma AtRestTheCacheIsTrue(p: Setup, states: seq<Sys>, moves: seq<Move>, i: nat, job: Text)
    requires IsRun(p, states, moves) && i < |states| && Lower(job) == job && job != []
    requires AtRest(states[i])
    ensures GetCluster(states[i].cache, ClusterName(p), job).GetOr([])
            == JobView(p.world, states[i].truth.agents, states[i].truth.tasks, job)
  {
    RunIsSafe(p, states, moves, i, job);
    RunKeepsBase(p, states, moves, i);
    SafeAtRest(p, states[i], job);
  }

  /** At rest nothing but the truth accounts for a job. */
  lemma SafeAtRest(p: Setup, s: Sys, job: Text)
    requires Base(p, s) && Safe(p, s, job) && AtRest(s)
    ensures GetCluster(s.cache, ClusterName(p), job).GetOr([]) == JobView(p.world, s.truth.agents, s.truth.tasks, job)
  {
  }

  /** The watcher's own invariant over whole runs; a busy driver has a discovered name. */
  lemma WatcherInvariantInRuns(p: Setup, states: seq<Sys>, moves: seq<Move>, i: nat)
    requires IsRun(p, states, moves) && i < |states|
    ensures Inv(states[i].w) && WorkJobs(states[i].work)
    ensures states[i].work != Idle ==> states[i].w.cluster == Some(ClusterName(p))
  {
    RunKeepsBase(p, states, moves, i);
  }
}
