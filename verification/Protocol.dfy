/**
 The protocol between a cluster and the cache, as a system of steps: the cluster changes and reports it on its
 event stream, the stream breaks and reconnects, the driver of src/host.rs acts on what its watcher says, and
 the owner of the cache takes in what the watchers send. A refresh reads the agents and the tasks at two
 different moments, and the cluster can change between them and before the result is sent.
 */
module Protocol {
  import opened Basics
  import opened Tables
  import opened Caches
  import opened Builders
  import opened Watchers

  /** What does not change in a run: how addresses are read, the name the cluster reports, the two waiting times. */
  datatype Setup = Setup(world: World, name: Text, interval: u64, debounce: u64)

  /** The actual state of the cluster. */
  datatype Truth = Truth(agents: seq<AgentInfo>, tasks: seq<AgentTasks>)

  /** What the reader hands to its watcher. */
  datatype Note = Event(topic: Option<Topic>) | Broke

  /** How far the refresh is that the driver is busy with; of several jobs the first is being read. */
  datatype Work =
    | Idle
    | FullBegun
    | FullAgents(agents: seq<AgentInfo>)
    | FullRead(agents: seq<AgentInfo>, tasks: seq<AgentTasks>)
    | JobBegun(jobs: seq<Text>)
    | JobAgents(jobs: seq<Text>, agents: seq<AgentInfo>)
    | JobRead(jobs: seq<Text>, agents: seq<AgentInfo>, tasks: seq<AgentTasks>)

  /** A refresh that began, whether it was a full one, and whether it failed in the end; or a ping that was heard. */
  datatype LogEntry = Refreshed(at: u64, full: bool, failed: bool) | Pinged(at: u64)

  /**
   `stream` holds what the cluster reported and the watcher did not hear yet, `connected` whether the present
   connection has opened with its ping, `began` when the refresh in progress began.
   */
  datatype Sys = Sys(truth: Truth, connected: bool, stream: seq<Note>, w: State, work: Work, began: u64,
                     updates: seq<Update>, cache: Clusters, now: u64, log: seq<LogEntry>)

  datatype Move =
    | Tick(now: u64)
    | Change(truth: Truth, events: seq<Option<Topic>>)
    | Connect
    | Break(keep: nat)
    | Overrun(keep: nat)
    | Chatter(topic: Option<Topic>)
    | DiscoverFails
    | DiscoverAnswers
    | Hear
    | StartRefresh
    | ReadAgents
    | ReadTasks
    | Send
    | Fail(at: u64)
    | Deliver
    | OtherPeer(u: Update)

  // ---------- What is true, what the cache says, what an event covers ----------

  function ClusterName(p: Setup): Text {
    Lower(Trim(p.name))
  }

  function Actual(p: Setup, t: Truth, job: Text): seq<Ip> {
    JobView(p.world, t.agents, t.tasks, job)
  }

  /** What the cache says of a job once the updates on their way are in; a missing list is an empty one. */
  function Seen(p: Setup, s: Sys, job: Text): seq<Ip> {
    GetCluster(ApplyAll(s.cache, s.updates), ClusterName(p), job).GetOr([])
  }

  predicate CoversAll(k: Kind) {
    k == Seed || k == Everything
  }

  predicate Covers(k: Kind, job: Text) {
    CoversAll(k) || (k.OneJob? && Lower(k.name) == job)
  }

  /** Behind the last break in the stream there is an event that covers the job. */
  predicate Live(stream: seq<Note>, job: Text) {
    stream != []
    && match stream[|stream| - 1]
       case Broke => false
       case Event(t) => Covers(Classify(t), job) || Live(stream[..|stream| - 1], job)
  }

  /** Behind the last break in the stream there is an event that covers every job. */
  predicate Reseeded(stream: seq<Note>) {
    stream != []
    && match stream[|stream| - 1]
       case Broke => false
       case Event(t) => CoversAll(Classify(t)) || Reseeded(stream[..|stream| - 1])
  }

  function Events(topics: seq<Option<Topic>>): seq<Note> {
    if topics == [] then [] else Events(topics[..|topics| - 1]) + [Event(topics[|topics| - 1])]
  }

  /** The event says that anything may have changed: also one that cannot be read. */
  predicate AnnouncesAll(topic: Option<Topic>) {
    match topic
    case None => true
    case Some(t) => t.Ping? || t.Status? || t.AgentChange?
  }

  /** The event says that the job may have changed. */
  predicate Announces(topic: Option<Topic>, job: Text) {
    AnnouncesAll(topic)
    || match topic.value
       case JobChange(name) => Lower(name) == job
       case TaskChange(name) => Lower(name) == job
       case _ => false
  }

  /**
   What the cluster promises of its stream while it is connected: a change of the agents is reported by an
   event that says that anything may have changed, and a change of a job's addresses by one that names the job.
   */
  ghost predicate Reported(p: Setup, t: Truth, t': Truth, events: seq<Option<Topic>>) {
    && (t.agents != t'.agents ==> exists i :: 0 <= i < |events| && AnnouncesAll(events[i]))
    && (forall job :: Lower(job) == job && Actual(p, t, job) != Actual(p, t', job)
                      ==> exists i :: 0 <= i < |events| && Announces(events[i], job))
  }

  // ---------- The steps ----------

  function WorkRefresh(work: Work): Refresh {
    match work
    case JobBegun(jobs) => JobsRefresh(jobs)
    case JobAgents(jobs, _) => JobsRefresh(jobs)
    case JobRead(jobs, _, _) => JobsRefresh(jobs)
    case _ => FullRefresh
  }

  /**
   When a move is possible. The driver reads the clock anew for every call, so what it decided to wait for may be
   overdue when it hears an event, and what it hears comes before what is due.
   */
  ghost predicate Enabled(p: Setup, s: Sys, m: Move) {
    match m
    case Tick(now) => s.now <= now
    case Change(truth, events) => if s.connected then Reported(p, s.truth, truth, events) else events == []
    case Connect => !s.connected
    case Break(keep) => keep <= |s.stream|
    case Overrun(keep) => s.connected && keep <= |s.stream| && Broke !in s.stream[keep..]
    case Chatter(_) => s.connected
    case DiscoverFails => s.work == Idle && Next(s.w, s.now).1.Discover?
    case DiscoverAnswers => s.work == Idle && Next(s.w, s.now).1.Discover?
    case Hear => s.work == Idle && s.stream != []
    case StartRefresh => s.work == Idle && Next(s.w, s.now).1.DoRefresh?
    case ReadAgents => s.work.FullBegun? || s.work.JobBegun?
    case ReadTasks => s.work.FullAgents? || s.work.JobAgents?
    case Send => (s.work.FullRead? || (s.work.JobRead? && s.work.jobs != [])) && s.w.cluster.Some?
    case Fail(at) => s.work != Idle && !s.work.FullRead? && s.began <= at <= s.now
    case Deliver => s.updates != []
    case OtherPeer(u) => u.cluster != ClusterName(p)
  }

  function LastFailed(log: seq<LogEntry>): seq<LogEntry> {
    if log != [] && log[|log| - 1].Refreshed? then log[|log| - 1 := log[|log| - 1].(failed := true)] else log
  }

  function Exec(p: Setup, s: Sys, m: Move): Sys {
    match m
    case Tick(now) => s.(now := now)
    case Change(truth, events) => s.(truth := truth, stream := s.stream + Events(events))
    case Connect => s.(connected := true, stream := s.stream + [Event(Some(Ping))])
    case Break(keep) => s.(connected := false, stream := s.stream[..Min(keep, |s.stream|)] + [Broke])
    case Overrun(keep) => s.(stream := s.stream[..Min(keep, |s.stream|)] + [Event(Some(Status))])
    case Chatter(topic) => s.(stream := s.stream + [Event(topic)])
    case DiscoverFails => s.(w := DiscoverFailed(s.w, s.now))
    case DiscoverAnswers => s.(w := Discovered(s.w, s.now, p.name).0)
    case Hear =>
      if s.stream == [] then s
      else
        (match s.stream[0]
         case Broke => s.(w := Lost(s.w), stream := s.stream[1..])
         case Event(t) =>
           s.(w := Heard(s.w, s.now, Classify(t)), stream := s.stream[1..],
              log := if t == Some(Ping) then s.log + [Pinged(s.now)] else s.log))
    case StartRefresh =>
      (match Next(s.w, s.now)
       case (w, DoRefresh(FullRefresh)) =>
         s.(w := w, work := FullBegun, began := s.now, log := s.log + [Refreshed(s.now, true, false)])
       case (w, DoRefresh(JobsRefresh(jobs))) =>
         s.(w := w, work := JobBegun(jobs), began := s.now, log := s.log + [Refreshed(s.now, false, false)])
       case _ => s)
    case ReadAgents =>
      (match s.work
       case FullBegun => s.(work := FullAgents(s.truth.agents))
       case JobBegun(jobs) => s.(work := JobAgents(jobs, s.truth.agents))
       case _ => s)
    case ReadTasks =>
      (match s.work
       case FullAgents(agents) => s.(work := FullRead(agents, s.truth.tasks))
       case JobAgents(jobs, agents) => s.(work := JobRead(jobs, agents, s.truth.tasks))
       case _ => s)
    case Send =>
      (match s.work
       case FullRead(agents, tasks) =>
         (match FullUpdate(s.w, p.world, agents, tasks)
          case Ok(u) => s.(updates := s.updates + [u], work := Idle)
          case Err(_) => s)
       case JobRead(jobs, agents, tasks) =>
         if jobs == [] then s
         else
           (match JobUpdate(s.w, p.world, jobs[0], agents, tasks)
            case Ok(u) => s.(updates := s.updates + [u], work := if |jobs| == 1 then Idle else JobBegun(jobs[1..]))
            case Err(_) => s)
       case _ => s)
    case Fail(at) => s.(w := RefreshFailed(s.w, at, WorkRefresh(s.work)), work := Idle, log := LastFailed(s.log))
    case Deliver =>
      if s.updates == [] then s else s.(cache := ApplyTo(s.cache, s.updates[0]), updates := s.updates[1..])
    case OtherPeer(u) => s.(updates := s.updates + [u])
  }

  ghost predicate Start(p: Setup, s: Sys) {
    && !s.connected && s.stream == [] && s.work == Idle && s.updates == [] && s.cache == [] && s.log == []
    && s.w == Initial(p.interval, p.debounce)
  }

  /** A run: the states, and the moves between them. */
  ghost predicate IsRun(p: Setup, states: seq<Sys>, moves: seq<Move>) {
    && |states| == |moves| + 1 && Start(p, states[0])
    && forall i :: 0 <= i < |moves| ==> Enabled(p, states[i], moves[i]) && states[i + 1] == Exec(p, states[i], moves[i])
  }
}
