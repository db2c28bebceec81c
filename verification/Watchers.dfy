/**
 The watcher of one peer as a state machine without input or output, after src/watcher.rs. The functions on
 `State` are what the methods of the class `Watcher` do to its fields.
 */
module Watchers {
  import opened Basics
  import opened Texts
  import opened Tables
  import opened Caches
  import opened Builders

  const U64_MAX := 0xFFFF_FFFF_FFFF_FFFF
  /** A clock in nanoseconds. */
  type u64 = x: int | 0 <= x <= U64_MAX

  const MAX_PENDING := 32

  function SatAdd(a: u64, b: u64): u64 {
    Min(U64_MAX, a + b)
  }

  datatype Topic = Ping | Status | AgentChange | JobChange(name: Text) | TaskChange(job: Text) | OtherTopic

  /** What an event means: everything at once, everything, one job, or nothing. */
  datatype Kind = Seed | Everything | OneJob(name: Text) | Ignore

  /** An event whose topic cannot be read still says that something changed. */
  function Classify(topic: Option<Topic>): Kind {
    match topic
    case None => Everything
    case Some(Ping) => Seed
    case Some(Status) => Everything
    case Some(AgentChange) => Everything
    case Some(JobChange(name)) => if name != [] then OneJob(name) else Ignore
    case Some(TaskChange(job)) => if job != [] then OneJob(job) else Ignore
    case Some(OtherTopic) => Ignore
  }

  datatype Refresh = FullRefresh | JobsRefresh(jobs: seq<Text>)
  datatype Action = Discover | DoRefresh(what: Refresh) | Wait(until: Option<u64>)

  /** A message to the owner of the cache. */
  datatype Update = Replace(cluster: Text, view: Jobs) | Set(cluster: Text, job: Text, ips: seq<Ip>)

  function ApplyTo(c: Clusters, u: Update): Clusters {
    match u
    case Replace(cluster, view) => Put(c, cluster, view)
    case Set(cluster, job, ips) => SetJob(c, cluster, job, ips)
  }

  function ApplyAll(c: Clusters, us: seq<Update>): Clusters
    decreases |us|
  {
    if us == [] then c else ApplyAll(ApplyTo(c, us[0]), us[1..])
  }

  /** An update that a watcher can send: its view is sorted. */
  ghost predicate GoodUpdate(u: Update) {
    u.Replace? ==> Sorted(u.view)
  }

  // ---------- The state and its transitions ----------

  datatype State = State(cluster: Option<Text>, retryAt: u64, due: Option<u64>, full: bool, jobs: seq<Text>,
                         interval: u64, debounce: u64)

  function Initial(interval: u64, debounce: u64): State {
    State(None, 0, None, false, [], interval, debounce)
  }

  function Next(s: State, now: u64): (State, Action) {
    if s.cluster.None? then (s, if now >= s.retryAt then Discover else Wait(Some(s.retryAt)))
    else if s.due.Some? && s.due.value <= now then
      (s.(due := None, full := false, jobs := []), DoRefresh(if s.full then FullRefresh else JobsRefresh(s.jobs)))
    else (s, Wait(s.due))
  }

  function DiscoverFailed(s: State, now: u64): State {
    s.(retryAt := SatAdd(now, s.interval))
  }

  function Discovered(s: State, now: u64, name: Text): (State, Result<()>) {
    if Trim(name) == [] then (DiscoverFailed(s, now), Err(NoClusterName))
    else (s.(cluster := Some(Lower(Trim(name)))), Ok(()))
  }

  /** The due time, or the moment the coalescing ends when there is none. */
  function DueOrDebounced(s: State, now: u64): Option<u64> {
    if s.due.Some? then s.due else Some(SatAdd(now, s.debounce))
  }

  function PendFull(s: State, now: u64): State {
    s.(full := true, jobs := [], due := DueOrDebounced(s, now))
  }

  function Heard(s: State, now: u64, kind: Kind): State {
    match kind
    case Seed => s.(full := true, jobs := [], due := Some(now))
    case Everything => PendFull(s, now)
    case OneJob(name) =>
      if s.full then s
      else if Lower(name) in s.jobs then s.(due := DueOrDebounced(s, now))
      else if |s.jobs| >= MAX_PENDING then PendFull(s, now)
      else s.(jobs := s.jobs + [Lower(name)], due := DueOrDebounced(s, now))
    case Ignore => s
  }

  function Lost(s: State): State {
    s.(due := None, full := false, jobs := [])
  }

  function RefreshFailed(s: State, now: u64, what: Refresh): State {
    var at := if what.FullRefresh? then SatAdd(now, s.interval) else now;
    s.(full := true, jobs := [], due := Some(if s.due.Some? then Min(s.due.value, at) else at))
  }

  function FullUpdate(s: State, w: World, agents: seq<AgentInfo>, tasks: seq<AgentTasks>): Result<Update> {
    match s.cluster
    case None => Err(NoClusterName)
    case Some(cluster) => Ok(Replace(cluster, JobsView(w, agents, tasks)))
  }

  function JobUpdate(s: State, w: World, job: Text, agents: seq<AgentInfo>, tasks: seq<AgentTasks>): Result<Update> {
    match s.cluster
    case None => Err(NoClusterName)
    case Some(cluster) => Ok(Set(cluster, Lower(job), JobView(w, agents, tasks, job)))
  }

  // ---------- The invariant of the watcher ----------

  /**
   A due time is set exactly when something is pending; a pending full refresh makes the list of jobs empty; the
   listed jobs are distinct, in lower case, and at most 32.
   */
  ghost predicate Inv(s: State) {
    && (s.due.Some? <==> s.full || s.jobs != [])
    && (s.full ==> s.jobs == [])
    && NoDup(s.jobs) && |s.jobs| <= MAX_PENDING
    && (forall i :: 0 <= i < |s.jobs| ==> Lower(s.jobs[i]) == s.jobs[i])
  }

  lemma InvKept(s: State, now: u64, kind: Kind, what: Refresh, name: Text)
    requires Inv(s)
    ensures Inv(Next(s, now).0) && Inv(DiscoverFailed(s, now)) && Inv(Discovered(s, now, name).0)
    ensures Inv(Heard(s, now, kind)) && Inv(Lost(s)) && Inv(RefreshFailed(s, now, what))
  {
    if kind.OneJob? {
      LowerTwice(kind.name);
    }
  }

  /** A job refresh has jobs, an untimed wait has nothing pending, and no refresh precedes discovery. */
  lemma NextMeaning(s: State, now: u64)
    requires Inv(s)
    ensures var (s', action) := Next(s, now);
            && (action.DoRefresh? ==> s.cluster.Some? && s'.due.None? && !s'.full && s'.jobs == [])
            && (action.DoRefresh? && action.what.JobsRefresh? ==> action.what.jobs != [])
            && (action == Wait(None) ==> s.cluster.Some? && !s.full && s.jobs == [])
            && (action.Wait? && action.until.Some? ==> action.until.value > now)
  {
  }

  /** While work is pending no event but a ping moves its due time, to the present; a failure only moves it earlier. */
  lemma DueNeverPostponed(s: State, now: u64, kind: Kind, what: Refresh)
    requires s.due.Some?
    ensures Heard(s, now, kind).due.Some? && Heard(s, now, kind).due.value <= Max(s.due.value, now)
    ensures kind != Seed ==> Heard(s, now, kind).due == s.due
    ensures RefreshFailed(s, now, what).due.Some? && RefreshFailed(s, now, what).due.value <= s.due.value
  {
  }

  // ---------- What the watcher does after each call ----------

  /** A new watcher asks for the name of its cluster at once, and has nothing pending. */
  lemma InitialMeaning(interval: u64, debounce: u64, now: u64)
    ensures var s := Initial(interval, debounce);
            && Next(s, now) == (s, Discover) && s.interval == interval && s.debounce == debounce
            && s.due == None && !s.full && s.jobs == []
  {
  }

  /** A failed discovery is tried again after the interval, and not before. */
  lemma RetryMeaning(s: State, now: u64, later: u64)
    requires s.cluster == None
    ensures var at := Min(now + s.interval, 0xFFFF_FFFF_FFFF_FFFF);
            Next(DiscoverFailed(s, now), later)
            == (s.(retryAt := at), if later >= at then Discover else Wait(Some(at)))
  {
  }

  /** The name of the cluster is taken in lower case, without white space around it; a blank one is a failure. */
  lemma DiscoveredMeaning(s: State, now: u64, name: Text, trimmed: Text)
    requires Trimmed(name, trimmed)
    ensures trimmed == [] ==> Discovered(s, now, name) == (DiscoverFailed(s, now), Err(NoClusterName))
    ensures trimmed != []
            ==> exists cluster :: && NoCapitals(cluster) && SameLetters(trimmed, cluster)
                                  && Discovered(s, now, name) == (s.(cluster := Some(cluster)), Ok(()))
  {
    hide Trimmed, Trim, Lower, SameLetters, NoCapitals;
    TrimMeaning(name, trimmed);
    LowerMeaning(trimmed, Lower(trimmed));
  }

  /** The state when an event names a job: the job joins the list, unless it is on it or everything is pending. */
  ghost predicate JobPends(s: State, s': State, name: Text, soon: Option<u64>) {
    if name == [] || s.full then s' == s
    else if exists i :: 0 <= i < |s.jobs| && SameLetters(name, s.jobs[i]) then s' == s.(due := soon)
    else if |s.jobs| == 32 then s' == s.(full := true, jobs := [], due := soon)
    else exists lower :: && NoCapitals(lower) && SameLetters(name, lower)
                         && s' == s.(jobs := s.jobs + [lower], due := soon)
  }

  /**
   What an event makes pending. A ping everything, at once; a status or agent event and one that cannot be read
   everything, and an event that names a job that job, both at the due time there was or else after the debounce.
   */
  lemma EventMeaning(s: State, now: u64, topic: Option<Topic>)
    requires Inv(s)
    ensures var soon := Some(if s.due.Some? then s.due.value else Min(now + s.debounce, 0xFFFF_FFFF_FFFF_FFFF));
            var s' := Heard(s, now, Classify(topic));
            if topic == Some(Ping) then s' == s.(full := true, jobs := [], due := Some(now))
            else if topic in {None, Some(Status), Some(AgentChange)} then
              s' == s.(full := true, jobs := [], due := soon)
            else if topic.value.JobChange? then JobPends(s, s', topic.value.name, soon)
            else if topic.value.TaskChange? then JobPends(s, s', topic.value.job, soon)
            else s' == s
  {
    if topic.Some? && (topic.value.JobChange? || topic.value.TaskChange?) {
      var name := if topic.value.JobChange? then topic.value.name else topic.value.job;
      if name != [] {
        NamedJobPends(s, now, name);
      }
    }
  }

  lemma NamedJobPends(s: State, now: u64, name: Text)
    requires Inv(s) && name != []
    ensures JobPends(s, Heard(s, now, OneJob(name)), name, DueOrDebounced(s, now))
  {
    hide Lower, SameLetters, NoCapitals, DueOrDebounced;
    LowerMeaning(name, Lower(name));
    assert Lower(name) in s.jobs <==> exists i :: 0 <= i < |s.jobs| && SameLetters(name, s.jobs[i]) by {
      forall i | 0 <= i < |s.jobs| ensures SameLetters(name, s.jobs[i]) <==> Lower(name) == s.jobs[i] {
        LowerMeaning(s.jobs[i], s.jobs[i]);
        LowerMeaning(name, s.jobs[i]);
      }
    }
  }

  /**
   A failed refresh is followed by a full one: at once behind a job refresh, after the interval behind a full one, and
   in either case no later than what was pending already.
   */
  lemma FallBack(s: State, now: u64, what: Refresh, later: u64)
    requires s.cluster.Some?
    ensures var wait := if what.JobsRefresh? then now else Min(now + s.interval, 0xFFFF_FFFF_FFFF_FFFF);
            var at := if s.due.Some? && s.due.value < wait then s.due.value else wait;
            Next(RefreshFailed(s, now, what), later)
            == if at <= later then (s.(due := None, full := false, jobs := []), DoRefresh(FullRefresh))
               else (s.(due := Some(at), full := true, jobs := []), Wait(Some(at)))
  {
  }

  /**
   What a finished refresh sends: nothing without a cluster name; else, once it is put into a cache, the cluster holds
   the jobs that have an address, under names without capitals, and nothing else.
   */
  lemma FullUpdateMeaning(s: State, w: World, agents: seq<AgentInfo>, tasks: seq<AgentTasks>, c: Clusters, name: Text,
                          ips: seq<Ip>)
    ensures match s.cluster
            case None => FullUpdate(s, w, agents, tasks) == Err(NoClusterName)
            case Some(cluster) =>
              && FullUpdate(s, w, agents, tasks).Ok?
              && var c' := ApplyTo(c, FullUpdate(s, w, agents, tasks).value);
              && (GetCluster(c', cluster, name) == Some(ips)
                  <==> NoCapitals(name) && ips != [] && ips == JobView(w, agents, tasks, name))
              && (forall k :: k != cluster ==> GetCluster(c', k, name) == GetCluster(c, k, name))
  {
    hide JobView, JobsView, Lower, NoCapitals, SameLetters, Get, Put;
    if s.cluster.Some? {
      var view := JobsView(w, agents, tasks);
      forall k ensures Get(Put(c, s.cluster.value, view), k) == if k == s.cluster.value then Some(view) else Get(c, k) {
        GetPut(c, s.cluster.value, view, k);
      }
      ViewNames(w, agents, tasks, name);
      BuildsAgree(w, agents, tasks, name);
      LowerMeaning(name, name);
      SameLettersAsItself(name);
    }
  }

  lemma SameLettersAsItself(name: Text)
    ensures SameLetters(name, name)
  {
  }

  /** The same for a job: its list alone is set, under its name without capitals. */
  lemma JobUpdateMeaning(s: State, w: World, job: Text, agents: seq<AgentInfo>, tasks: seq<AgentTasks>, c: Clusters,
                         lower: Text)
    requires NoCapitals(lower) && SameLetters(job, lower)
    ensures match s.cluster
            case None => JobUpdate(s, w, job, agents, tasks) == Err(NoClusterName)
            case Some(cluster) =>
              && JobUpdate(s, w, job, agents, tasks).Ok?
              && var c' := ApplyTo(c, JobUpdate(s, w, job, agents, tasks).value);
              && GetCluster(c', cluster, lower) == Some(JobView(w, agents, tasks, job))
              && (forall k, j :: k != cluster || j != lower ==> GetCluster(c', k, j) == GetCluster(c, k, j))
  {
    hide JobView, Lower, NoCapitals, SameLetters, GetCluster, SetJob;
    LowerMeaning(job, lower);
    if s.cluster.Some? {
      var ips := JobView(w, agents, tasks, job);
      forall k, j ensures GetCluster(SetJob(c, s.cluster.value, lower, ips), k, j)
                          == if k == s.cluster.value && j == lower then Some(ips) else GetCluster(c, k, j)
      {
        GetAfterSet(c, s.cluster.value, lower, ips, k, j);
      }
    }
  }

  /** After a break there is nothing to do until the next event. */
  lemma LostMeaning(s: State, later: u64)
    requires s.cluster.Some?
    ensures Next(Lost(s), later) == (s.(due := None, full := false, jobs := []), Wait(None))
  {
  }

  // ---------- The watcher that changes in place ----------

  class Watcher {
    var cluster: Option<Text>
    var retryAt: u64
    var due: Option<u64>
    var full: bool
    var jobs: seq<Text>
    var interval: u64
    var debounce: u64

    function Model(): State
      reads this
    {
      State(cluster, retryAt, due, full, jobs, interval, debounce)
    }

    ghost predicate Valid()
      reads this
    {
      Inv(Model())
    }

    constructor (interval: u64, debounce: u64)
      ensures Valid() && Model() == Initial(interval, debounce)
    {
      cluster, retryAt, due, full, jobs := None, 0, None, false, [];
      this.interval, this.debounce := interval, debounce;
    }

    method NextAction(now: u64) returns (action: Action)
      requires Valid()
      modifies this
      ensures Valid() && (Model(), action) == Next(old(Model()), now)
    {
      if cluster.None? {
        return if now >= retryAt then Discover else Wait(Some(retryAt));
      }
      if due.Some? && due.value <= now {
        due := None;
        var list, all := jobs, full;
        jobs, full := [], false;
        return DoRefresh(if all then FullRefresh else JobsRefresh(list));
      }
      return Wait(due);
    }

    method OnDiscoverFailed(now: u64)
      requires Valid()
      modifies this
      ensures Valid() && Model() == DiscoverFailed(old(Model()), now)
    {
      retryAt := SatAdd(now, interval);
    }

    method OnDiscovered(now: u64, name: Text) returns (r: Result<()>)
      requires Valid()
      modifies this
      ensures Valid() && (Model(), r) == Discovered(old(Model()), now, name)
    {
      var trimmed := Trim(name);
      if trimmed == [] {
        OnDiscoverFailed(now);
        return Err(NoClusterName);
      }
      cluster := Some(Lower(trimmed));
      return Ok(());
    }

    method OnEvent(now: u64, topic: Option<Topic>)
      requires Valid()
      modifies this
      ensures Valid() && Model() == Heard(old(Model()), now, Classify(topic))
    {
      match Classify(topic) {
        case Seed =>
          full, jobs, due := true, [], Some(now);
        case Everything =>
          PendAll(now);
        case OneJob(name) =>
          if full {
            return;
          }
          var lower := Lower(name);
          LowerTwice(name);
          if lower !in jobs {
            if |jobs| >= MAX_PENDING {
              PendAll(now);
              return;
            }
            jobs := jobs + [lower];
          }
          if due.None? {
            due := Some(SatAdd(now, debounce));
          }
        case Ignore =>
      }
    }

    method PendAll(now: u64)
      modifies this
      ensures Model() == PendFull(old(Model()), now)
    {
      full, jobs := true, [];
      if due.None? {
        due := Some(SatAdd(now, debounce));
      }
    }

    method OnLost()
      requires Valid()
      modifies this
      ensures Valid() && Model() == Lost(old(Model()))
    {
      due, full, jobs := None, false, [];
    }

    method OnRefreshFailed(now: u64, what: Refresh)
      requires Valid()
      modifies this
      ensures Valid() && Model() == RefreshFailed(old(Model()), now, what)
    {
      full, jobs := true, [];
      var at := match what case FullRefresh => SatAdd(now, interval) case JobsRefresh(_) => now;
      due := Some(if due.Some? then Min(due.value, at) else at);
    }

    method OnFullState(w: World, agents: seq<AgentInfo>, tasks: seq<AgentTasks>) returns (r: Result<Update>)
      requires Valid()
      ensures r == FullUpdate(Model(), w, agents, tasks) && (r.Ok? ==> GoodUpdate(r.value))
    {
      if cluster.None? {
        return Err(NoClusterName);
      }
      var view := BuildJobs(w, agents, tasks);
      return Ok(Replace(cluster.value, view.rows));
    }

    method OnJobState(w: World, job: Text, agents: seq<AgentInfo>, tasks: seq<AgentTasks>) returns (r: Result<Update>)
      requires Valid()
      ensures r == JobUpdate(Model(), w, job, agents, tasks)
    {
      if cluster.None? {
        return Err(NoClusterName);
      }
      var ips := BuildJob(w, agents, tasks, job);
      return Ok(Set(cluster.value, Lower(job), ips));
    }
  }

  // ---------- The owner of the cache ----------

  /** One message put into the cache. */
  method Apply(u: Update, cache: Cache)
    requires cache.Valid() && GoodUpdate(u)
    modifies cache.clusters
    ensures cache.Valid() && cache.clusters.rows == ApplyTo(old(cache.clusters.rows), u)
  {
    match u {
      case Replace(cluster, view) =>
        var _ := cache.Replace(cluster, view);
      case Set(cluster, job, ips) =>
        cache.Set(cluster, job, ips);
    }
  }

  /** The messages between the watchers and the owner of the cache, first in first out. */
  class Channel {
    var items: seq<Update>

    constructor ()
      ensures items == []
    {
      items := [];
    }

    method Send(u: Update)
      modifies this
      ensures items == old(items) + [u]
    {
      items := items + [u];
    }
  }

  /** Puts every waiting message into the cache (`drain` of src/host.rs). */
  method Drain(updates: Channel, cache: Cache)
    requires cache.Valid() && forall i :: 0 <= i < |updates.items| ==> GoodUpdate(updates.items[i])
    modifies updates, cache.clusters
    ensures updates.items == [] && cache.Valid()
    ensures cache.clusters.rows == ApplyAll(old(cache.clusters.rows), old(updates.items))
  {
    ghost var all, start := updates.items, cache.clusters.rows;
    while updates.items != []
      invariant cache.Valid() && forall i :: 0 <= i < |updates.items| ==> GoodUpdate(updates.items[i])
      invariant ApplyAll(cache.clusters.rows, updates.items) == ApplyAll(start, all)
      decreases |updates.items|
    {
      var u := updates.items[0];
      updates.items := updates.items[1..];
      Apply(u, cache);
    }
  }
}
