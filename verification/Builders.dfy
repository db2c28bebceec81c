/**
 The view of a cluster from its agents and their tasks (`build_jobs` and `build_job` of src/watcher.rs).
 How an address is read from an endpoint, and how a slot gets its address, are parameters.
 */
module Builders {
  import opened Basics
  import opened Texts
  import opened Tables
  import opened Caches

  datatype TaskState = Running | NotRunning

  datatype Task = Task(job: Text, state: TaskState, driver: Text, pid: int)
  datatype AgentInfo = AgentInfo(id: Text, endpoint: Text)
  /** `tasks` is missing for an agent that did not answer the leader. */
  datatype AgentTasks = AgentTasks(agent: Text, tasks: Option<seq<Task>>)

  /** The node of a resident itself: its tasks get the addresses of their slots. */
  datatype Local = Local(node: Text, slotIp: nat -> Ip)
  datatype World = World(extract: Text -> Option<Ip>, local: Option<Local>)

  const HOP: Text := [104, 111, 112]
  const SLOT_MAX := 255

  function AgentIp(w: World, agents: seq<AgentInfo>, id: Text): Option<Ip> {
    if agents == [] then None
    else if agents[0].id == id then w.extract(agents[0].endpoint)
    else AgentIp(w, agents[1..], id)
  }

  /** The address of a task on `agent`, if it runs. */
  function TaskIp(w: World, agent: Text, agentIp: Option<Ip>, task: Task): Option<Ip> {
    if task.state != Running then None
    else if w.local.Some? && w.local.value.node == agent && task.driver == HOP && 1 <= task.pid <= SLOT_MAX then
      Some(w.local.value.slotIp(task.pid))
    else agentIp
  }

  // ---------- The running tasks, as pairs of job name and address ----------

  function TaskPairs(w: World, agent: Text, agentIp: Option<Ip>, tasks: seq<Task>): seq<(Text, Ip)> {
    if tasks == [] then []
    else
      var task := tasks[|tasks| - 1];
      TaskPairs(w, agent, agentIp, tasks[..|tasks| - 1])
      + match TaskIp(w, agent, agentIp, task) case None => [] case Some(ip) => [(Lower(task.job), ip)]
  }

  function Pairs(w: World, agents: seq<AgentInfo>, tasks: seq<AgentTasks>): seq<(Text, Ip)> {
    if tasks == [] then []
    else
      var at := tasks[|tasks| - 1];
      Pairs(w, agents, tasks[..|tasks| - 1])
      + TaskPairs(w, at.agent, AgentIp(w, agents, at.agent), at.tasks.GetOr([]))
  }

  /** The addresses paired with `job`, in order, with repetitions. */
  function Of(pairs: seq<(Text, Ip)>, job: Text): seq<Ip> {
    if pairs == [] then []
    else
      var (name, ip) := pairs[|pairs| - 1];
      Of(pairs[..|pairs| - 1], job) + if name == job then [ip] else []
  }

  function AddTo(jobs: Jobs, name: Text, ip: Ip): Jobs {
    Put(jobs, name, PushUnique(Get(jobs, name).GetOr([]), ip))
  }

  function AddAll(jobs: Jobs, pairs: seq<(Text, Ip)>): Jobs {
    if pairs == [] then jobs
    else
      var (name, ip) := pairs[|pairs| - 1];
      AddTo(AddAll(jobs, pairs[..|pairs| - 1]), name, ip)
  }

  /** The whole view: per job the addresses of its running tasks, each once. */
  function JobsView(w: World, agents: seq<AgentInfo>, tasks: seq<AgentTasks>): Jobs {
    AddAll([], Pairs(w, agents, tasks))
  }

  /** The addresses of one job. */
  function JobView(w: World, agents: seq<AgentInfo>, tasks: seq<AgentTasks>, job: Text): seq<Ip> {
    Uniq([], Of(Pairs(w, agents, tasks), Lower(job)))
  }

  // ---------- The loops of the program ----------

  method BuildJobs(w: World, agents: seq<AgentInfo>, tasks: seq<AgentTasks>) returns (jobs: Table<seq<Ip>>)
    ensures fresh(jobs) && Sorted(jobs.rows) && jobs.rows == JobsView(w, agents, tasks)
  {
    hide Pairs, TaskPairs, TaskIp, AgentIp, PushUnique, Lower, Put, Get, AddAll;
    jobs := new Table<seq<Ip>>();
    NothingAdded(w, agents);
    for i := 0 to |tasks|
      invariant fresh(jobs) && Sorted(jobs.rows) && jobs.rows == AddAll([], Pairs(w, agents, tasks[..i]))
    {
      var at := tasks[i];
      var ip := AgentIp(w, agents, at.agent);
      var list := at.tasks.GetOr([]);
      ghost var before := Pairs(w, agents, tasks[..i]);
      PairsStep(w, agents, tasks, i);
      for k := 0 to |list|
        invariant fresh(jobs) && Sorted(jobs.rows)
        invariant jobs.rows == AddAll([], before + TaskPairs(w, at.agent, ip, list[..k]))
      {
        var addr := TaskIp(w, at.agent, ip, list[k]);
        ghost var done := before + TaskPairs(w, at.agent, ip, list[..k]);
        TaskPairsStep(w, at.agent, ip, list, k, before);
        if addr.Some? {
          var name := Lower(list[k].job);
          AddAllStep(done, name, addr.value);
          var had := jobs.Lookup(name);
          var _ := jobs.Insert(name, PushUnique(had.GetOr([]), addr.value));
        } else {
          assert done + [] == done;
        }
      }
      assert list[..|list|] == list;
    }
    assert tasks[..|tasks|] == tasks;
  }

  lemma NothingAdded(w: World, agents: seq<AgentInfo>)
    ensures AddAll([], Pairs(w, agents, [])) == []
  {
  }

  lemma AddAllStep(done: seq<(Text, Ip)>, name: Text, ip: Ip)
    ensures AddAll([], done + [(name, ip)]) == AddTo(AddAll([], done), name, ip)
  {
    assert (done + [(name, ip)])[..|done|] == done;
  }

  method BuildJob(w: World, agents: seq<AgentInfo>, tasks: seq<AgentTasks>, job: Text) returns (ips: seq<Ip>)
    ensures ips == JobView(w, agents, tasks, job)
  {
    hide Pairs, TaskPairs, TaskIp, AgentIp, Of, Uniq, PushUnique, Lower;
    ips := [];
    NoPairs(w, agents, Lower(job));
    for i := 0 to |tasks|
      invariant ips == JobView(w, agents, tasks[..i], job)
    {
      var at := tasks[i];
      var ip := AgentIp(w, agents, at.agent);
      var list := at.tasks.GetOr([]);
      ghost var before := Pairs(w, agents, tasks[..i]);
      PairsStep(w, agents, tasks, i);
      for k := 0 to |list|
        invariant ips == Uniq([], Of(before + TaskPairs(w, at.agent, ip, list[..k]), Lower(job)))
      {
        var addr := TaskIp(w, at.agent, ip, list[k]);
        ghost var done := before + TaskPairs(w, at.agent, ip, list[..k]);
        TaskPairsStep(w, at.agent, ip, list, k, before);
        if addr.Some? {
          OfStep(done, (Lower(list[k].job), addr.value), Lower(job));
        } else {
          assert done + [] == done;
        }
        if Lower(list[k].job) == Lower(job) && addr.Some? {
          ips := PushUnique(ips, addr.value);
        }
      }
      assert list[..|list|] == list;
    }
    assert tasks[..|tasks|] == tasks;
  }

  lemma NoPairs(w: World, agents: seq<AgentInfo>, job: Text)
    ensures Uniq([], Of(Pairs(w, agents, []), job)) == []
  {
  }

  lemma PairsStep(w: World, agents: seq<AgentInfo>, tasks: seq<AgentTasks>, i: nat)
    requires i < |tasks|
    ensures var (at, before) := (tasks[i], Pairs(w, agents, tasks[..i]));
            var ip := AgentIp(w, agents, at.agent);
            && before + TaskPairs(w, at.agent, ip, at.tasks.GetOr([])[..0]) == before
            && Pairs(w, agents, tasks[..i + 1]) == before + TaskPairs(w, at.agent, ip, at.tasks.GetOr([]))
  {
    assert tasks[..i + 1][..i] == tasks[..i];
  }

  lemma TaskPairsStep(w: World, agent: Text, ip: Option<Ip>, list: seq<Task>, k: nat, before: seq<(Text, Ip)>)
    requires k < |list|
    ensures before + TaskPairs(w, agent, ip, list[..k + 1])
            == before + TaskPairs(w, agent, ip, list[..k])
               + match TaskIp(w, agent, ip, list[k]) case None => [] case Some(a) => [(Lower(list[k].job), a)]
  {
    assert list[..k + 1][..k] == list[..k];
  }

  lemma OfStep(done: seq<(Text, Ip)>, pair: (Text, Ip), job: Text)
    ensures Uniq([], Of(done + [pair], job))
            == if pair.0 == job then PushUnique(Uniq([], Of(done, job)), pair.1) else Uniq([], Of(done, job))
  {
    assert (done + [pair])[..|done|] == done;
    UniqConcat([], Of(done, job), [pair.1]);
    assert Of(done, job) + [] == Of(done, job);
  }

  // ---------- One job and the whole cluster agree ----------

  lemma {:induction false} AddAllMeaning(pairs: seq<(Text, Ip)>, job: Text)
    ensures var list := Uniq([], Of(pairs, job));
            Get(AddAll([], pairs), job) == if list == [] then None else Some(list)
    ensures Sorted(AddAll([], pairs))
    decreases |pairs|
  {
    if pairs != [] {
      var front, pair := pairs[..|pairs| - 1], pairs[|pairs| - 1];
      assert front + [pair] == pairs;
      AddAllMeaning(front, job);
      AddAllMeaning(front, pair.0);
      OfStep(front, pair, job);
      var jobs := AddAll([], front);
      var list := PushUnique(Get(jobs, pair.0).GetOr([]), pair.1);
      GetPut(jobs, pair.0, list, job);
      PutSorted(jobs, pair.0, list);
    }
  }

  /** The whole-cluster build holds under a job exactly what the one-job build gives, and nothing for an empty one. */
  lemma BuildsAgree(w: World, agents: seq<AgentInfo>, tasks: seq<AgentTasks>, job: Text)
    ensures var list := JobView(w, agents, tasks, job);
            Get(JobsView(w, agents, tasks), Lower(job)) == if list == [] then None else Some(list)
  {
    AddAllMeaning(Pairs(w, agents, tasks), Lower(job));
  }

  /** Every list of the whole-cluster build is non-empty and free of repetitions; the rows are sorted by name. */
  lemma BuiltListsMeaning(w: World, agents: seq<AgentInfo>, tasks: seq<AgentTasks>, job: Text)
    ensures Sorted(JobsView(w, agents, tasks))
    ensures var list := Get(JobsView(w, agents, tasks), job);
            list.Some? ==> list.value != [] && NoDup(list.value)
    ensures NoDup(JobView(w, agents, tasks, job))
  {
    AddAllMeaning(Pairs(w, agents, tasks), job);
    UniqMeaning([], Of(Pairs(w, agents, tasks), job));
    UniqMeaning([], Of(Pairs(w, agents, tasks), Lower(job)));
  }

  lemma {:induction false} OfMeaning(pairs: seq<(Text, Ip)>, job: Text, ip: Ip)
    ensures ip in Of(pairs, job) <==> (job, ip) in pairs
    decreases |pairs|
  {
    if pairs != [] {
      var front, last := pairs[..|pairs| - 1], pairs[|pairs| - 1];
      OfMeaning(front, job, ip);
      assert pairs == front + [last];
      assert ip in Of(pairs, job) <==> ip in Of(front, job) || (last.0 == job && last.1 == ip);
    }
  }

  lemma {:induction false} TaskPairsMeaning(w: World, agent: Text, aip: Option<Ip>, tasks: seq<Task>, name: Text,
                                            ip: Ip)
    ensures (name, ip) in TaskPairs(w, agent, aip, tasks)
            <==> exists t :: t in tasks && Lower(t.job) == name && TaskIp(w, agent, aip, t) == Some(ip)
    decreases |tasks|
  {
    if tasks != [] {
      TaskPairsMeaning(w, agent, aip, tasks[..|tasks| - 1], name, ip);
      assert tasks == tasks[..|tasks| - 1] + [tasks[|tasks| - 1]];
      assert forall t :: t in tasks <==> t in tasks[..|tasks| - 1] || t == tasks[|tasks| - 1];
    }
  }

  lemma {:induction false} PairsMeaning(w: World, agents: seq<AgentInfo>, tasks: seq<AgentTasks>, name: Text, ip: Ip)
    ensures (name, ip) in Pairs(w, agents, tasks)
            <==> exists at, t :: at in tasks && t in at.tasks.GetOr([]) && Lower(t.job) == name
                                 && TaskIp(w, at.agent, AgentIp(w, agents, at.agent), t) == Some(ip)
    decreases |tasks|
  {
    if tasks != [] {
      var at := tasks[|tasks| - 1];
      PairsMeaning(w, agents, tasks[..|tasks| - 1], name, ip);
      TaskPairsMeaning(w, at.agent, AgentIp(w, agents, at.agent), at.tasks.GetOr([]), name, ip);
      assert forall a :: a in tasks <==> a in tasks[..|tasks| - 1] || a == at;
    }
  }

  // ---------- At which address a task runs ----------

  /** `i` is the first agent of the list with this id. */
  predicate FirstAgent(agents: seq<AgentInfo>, i: int, id: Text) {
    0 <= i < |agents| && agents[i].id == id && forall j :: 0 <= j < i ==> agents[j].id != id
  }

  /** The task has a slot on the node of the resident: the agent is that node, the driver is `hop`, the pid a slot. */
  predicate HasSlot(w: World, agent: Text, t: Task) {
    w.local.Some? && w.local.value.node == agent && t.driver == [104, 111, 112] && 1 <= t.pid <= 255
  }

  /** The task runs at `ip`: at the address of its slot when it has one, else at that of its agent's endpoint. */
  ghost predicate RunsAt(w: World, agents: seq<AgentInfo>, agent: Text, t: Task, ip: Ip) {
    && t.state == Running
    && if HasSlot(w, agent, t) then ip == w.local.value.slotIp(t.pid)
       else exists i :: FirstAgent(agents, i, agent) && w.extract(agents[i].endpoint) == Some(ip)
  }

  lemma {:induction false} AgentIpMeaning(w: World, agents: seq<AgentInfo>, id: Text)
    ensures forall i :: FirstAgent(agents, i, id) ==> AgentIp(w, agents, id) == w.extract(agents[i].endpoint)
    ensures (forall i :: !FirstAgent(agents, i, id)) ==> AgentIp(w, agents, id) == None
    decreases |agents|
  {
    if agents != [] {
      if agents[0].id == id {
        assert FirstAgent(agents, 0, id);
      } else {
        AgentIpMeaning(w, agents[1..], id);
        forall i ensures FirstAgent(agents[1..], i - 1, id) <==> FirstAgent(agents, i, id) {
          NotTheFirst(agents, i, id);
        }
        assert forall i :: FirstAgent(agents, i, id) ==> agents[i] == agents[1..][i - 1];
        forall k | FirstAgent(agents[1..], k, id) ensures FirstAgent(agents, k + 1, id) {
          NotTheFirst(agents, k + 1, id);
        }
      }
    }
  }

  lemma NotTheFirst(agents: seq<AgentInfo>, i: int, id: Text)
    requires agents != [] && agents[0].id != id
    ensures FirstAgent(agents[1..], i - 1, id) <==> FirstAgent(agents, i, id)
  {
    assert forall j :: 0 <= j < |agents[1..]| ==> agents[1..][j] == agents[j + 1];
    if FirstAgent(agents[1..], i - 1, id) {
      forall j | 0 <= j < i ensures agents[j].id != id {
        assert j > 0 ==> agents[j] == agents[1..][j - 1];
      }
    }
  }

  lemma TaskIpMeaning(w: World, agents: seq<AgentInfo>, agent: Text, t: Task, ip: Ip)
    ensures TaskIp(w, agent, AgentIp(w, agents, agent), t) == Some(ip) <==> RunsAt(w, agents, agent, t, ip)
  {
    hide AgentIp, FirstAgent;
    AgentIpMeaning(w, agents, agent);
  }

  /**
   An address is listed for a job exactly when some task of that name, in any letter case, is running there: at the
   address of its slot on the node of the resident, or else at that of the first agent with the id of its own.
   */
  lemma JobViewMeaning(w: World, agents: seq<AgentInfo>, tasks: seq<AgentTasks>, job: Text, ip: Ip)
    ensures ip in JobView(w, agents, tasks, job)
            <==> exists at, t :: && at in tasks && at.tasks.Some? && t in at.tasks.value && SameLetters(t.job, job)
                                 && RunsAt(w, agents, at.agent, t, ip)
  {
    hide TaskIp, AgentIp, RunsAt, Lower, SameLetters, Pairs, Of;
    UniqMeaning([], Of(Pairs(w, agents, tasks), Lower(job)));
    OfMeaning(Pairs(w, agents, tasks), Lower(job), ip);
    PairsMeaning(w, agents, tasks, Lower(job), ip);
    forall at: AgentTasks, t: Task
      ensures TaskIp(w, at.agent, AgentIp(w, agents, at.agent), t) == Some(ip) <==> RunsAt(w, agents, at.agent, t, ip)
      ensures Lower(t.job) == Lower(job) <==> SameLetters(t.job, job)
    {
      TaskIpMeaning(w, agents, at.agent, t, ip);
      SameLowerMeaning(t.job, job);
    }
  }

  /** The list with one more address, behind the others, unless it is there. */
  function Behind(list: seq<Ip>, ip: Ip): seq<Ip> {
    if ip in list then list else list + [ip]
  }

  /**
   The order of a list: one more task behind the others of the last agent adds its address behind the addresses
   there are, if it is a running task of the job and its address is not among them, and nothing otherwise.
   */
  lemma JobViewGrows(w: World, agents: seq<AgentInfo>, front: seq<AgentTasks>, agent: Text, ts: seq<Task>, t: Task,
                     job: Text)
    ensures var before := JobView(w, agents, front + [AgentTasks(agent, Some(ts))], job);
            var after := JobView(w, agents, front + [AgentTasks(agent, Some(ts + [t]))], job);
            && (forall ip :: SameLetters(t.job, job) && RunsAt(w, agents, agent, t, ip) ==> after == Behind(before, ip))
            && ((forall ip :: !(SameLetters(t.job, job) && RunsAt(w, agents, agent, t, ip))) ==> after == before)
  {
    hide TaskIp, AgentIp, RunsAt, Lower, SameLetters, Pairs, TaskPairs, Of, Uniq;
    var aip := AgentIp(w, agents, agent);
    var done := Pairs(w, agents, front) + TaskPairs(w, agent, aip, ts);
    PairsLast(w, agents, front, agent, ts);
    PairsLast(w, agents, front, agent, ts + [t]);
    TaskPairsLast(w, agent, aip, ts, t);
    SameLowerMeaning(t.job, job);
    match TaskIp(w, agent, aip, t) {
      case None =>
        Regroup(TaskPairs(w, agent, aip, ts), [], []);
        forall ip ensures !RunsAt(w, agents, agent, t, ip) {
          TaskIpMeaning(w, agents, agent, t, ip);
        }
      case Some(ip) =>
        Regroup(Pairs(w, agents, front), TaskPairs(w, agent, aip, ts), [(Lower(t.job), ip)]);
        OfStep(done, (Lower(t.job), ip), Lower(job));
        forall other ensures RunsAt(w, agents, agent, t, other) <==> other == ip {
          TaskIpMeaning(w, agents, agent, t, other);
        }
        assert RunsAt(w, agents, agent, t, ip);
    }
  }

  lemma PairsLast(w: World, agents: seq<AgentInfo>, front: seq<AgentTasks>, agent: Text, ts: seq<Task>)
    ensures Pairs(w, agents, front + [AgentTasks(agent, Some(ts))])
            == Pairs(w, agents, front) + TaskPairs(w, agent, AgentIp(w, agents, agent), ts)
  {
    assert (front + [AgentTasks(agent, Some(ts))])[..|front|] == front;
  }

  lemma TaskPairsLast(w: World, agent: Text, aip: Option<Ip>, ts: seq<Task>, t: Task)
    ensures TaskPairs(w, agent, aip, ts + [t])
            == TaskPairs(w, agent, aip, ts)
               + match TaskIp(w, agent, aip, t) case None => [] case Some(ip) => [(Lower(t.job), ip)]
  {
    assert (ts + [t])[..|ts|] == ts;
  }

  /** No agent gives an empty list, and an agent that did not answer, or has no task, adds nothing. */
  lemma JobViewStarts(w: World, agents: seq<AgentInfo>, front: seq<AgentTasks>, agent: Text, job: Text)
    ensures JobView(w, agents, [], job) == []
    ensures JobView(w, agents, front + [AgentTasks(agent, None)], job) == JobView(w, agents, front, job)
    ensures JobView(w, agents, front + [AgentTasks(agent, Some([]))], job) == JobView(w, agents, front, job)
  {
    var missing, idle := front + [AgentTasks(agent, None)], front + [AgentTasks(agent, Some([]))];
    assert missing[..|front|] == front && idle[..|front|] == front;
    assert Pairs(w, agents, front) + [] == Pairs(w, agents, front);
  }

  /** The names in the view are in lower case, and are those of the jobs with an address. */
  lemma ViewNames(w: World, agents: seq<AgentInfo>, tasks: seq<AgentTasks>, name: Text)
    ensures Get(JobsView(w, agents, tasks), name).Some? <==> NoCapitals(name) && JobView(w, agents, tasks, name) != []
  {
    var pairs := Pairs(w, agents, tasks);
    AddAllMeaning(pairs, name);
    LowerMeaning(name, name);
    if Lower(name) != name {
      NamesAreLower(w, agents, tasks, name);
    }
  }

  lemma NamesAreLower(w: World, agents: seq<AgentInfo>, tasks: seq<AgentTasks>, name: Text)
    requires Lower(name) != name
    ensures Of(Pairs(w, agents, tasks), name) == []
  {
    var ips := Of(Pairs(w, agents, tasks), name);
    if ips != [] {
      OfMeaning(Pairs(w, agents, tasks), name, ips[0]);
      PairsMeaning(w, agents, tasks, name, ips[0]);
      var at, t :| at in tasks && t in at.tasks.GetOr([]) && Lower(t.job) == name;
      LowerTwice(t.job);
    }
  }

  /** A job set behind a replacement from the same state changes no address; an empty list counts as none. */
  lemma SetAfterReplace(w: World, agents: seq<AgentInfo>, tasks: seq<AgentTasks>,
                        c: Clusters, cluster: Text, job: Text, k: Text, j: Text)
    ensures var replaced := Put(c, cluster, JobsView(w, agents, tasks));
            var both := SetJob(replaced, cluster, Lower(job), JobView(w, agents, tasks, job));
            GetCluster(both, k, j).GetOr([]) == GetCluster(replaced, k, j).GetOr([])
  {
    var replaced := Put(c, cluster, JobsView(w, agents, tasks));
    GetAfterSet(replaced, cluster, Lower(job), JobView(w, agents, tasks, job), k, j);
    GetPut(c, cluster, JobsView(w, agents, tasks), cluster);
    BuildsAgree(w, agents, tasks, job);
  }
}
