/** Runs of the protocol that show where its promises end. */
module Counterexamples {
  import opened Basics
  import opened Tables
  import opened Caches
  import opened Builders
  import opened Watchers
  import opened Protocol
  import opened NoMissedUpdate
  import opened Progress
  import opened Timing

  // ---------- A cluster whose first refresh is done ----------

  /** A cluster `c`, every endpoint of which has the same address; waiting times of 5 and 2. */
  const EXAMPLE := Setup(World(e => Some(Ip(10, 0, 0, 1)), None), [99], 5, 2)

  const AGENTS: seq<AgentInfo> := [AgentInfo([97], [120])]

  /** Its watcher while nothing is pending. */
  const CALM := State(Some([99]), 0, None, false, [], 5, 2)

  /** Discovered, connected, and the first refresh, which found no task, is in the cache. */
  const SEEDED := Sys(Truth(AGENTS, []), true, [], CALM, Idle, 0, [], [Row([99], [])], 0,
                      [Pinged(0), Refreshed(0, true, false)])

  function SeedMove(k: nat): Move {
    match k
    case 0 => DiscoverAnswers
    case 1 => Connect
    case 2 => Hear
    case 3 => StartRefresh
    case 4 => ReadAgents
    case 5 => ReadTasks
    case 6 => Send
    case _ => Deliver
  }

  function SeedState(k: nat): Sys {
    var began := SEEDED.(cache := []);
    match k
    case 0 => Sys(Truth(AGENTS, []), false, [], Initial(5, 2), Idle, 0, [], [], 0, [])
    case 1 => SeedState(0).(w := CALM)
    case 2 => SeedState(0).(w := CALM, connected := true, stream := [Event(Some(Ping))])
    case 3 => began.(w := CALM.(full := true, due := Some(0)), log := [Pinged(0)])
    case 4 => began.(work := FullBegun)
    case 5 => began.(work := FullAgents(AGENTS))
    case 6 => began.(work := FullRead(AGENTS, []))
    case 7 => began.(updates := [Replace([99], [])])
    case _ => SEEDED
  }

  lemma SeedDiscovery()
    ensures Enabled(EXAMPLE, SeedState(0), DiscoverAnswers)
    ensures SeedState(1) == Exec(EXAMPLE, SeedState(0), DiscoverAnswers)
  {
    hide ApplyAll, Live, Reseeded, Reported;
    assert Trim([99]) == [99] && Lower([99]) == [99];
  }

  lemma SeedSend()
    ensures Enabled(EXAMPLE, SeedState(6), Send) && SeedState(7) == Exec(EXAMPLE, SeedState(6), Send)
  {
    hide ApplyAll, Live, Reseeded, Reported, Pairs;
    NothingAdded(EXAMPLE.world, AGENTS);
  }

  lemma SeedStep(k: nat)
    requires k < 8
    ensures Enabled(EXAMPLE, SeedState(k), SeedMove(k))
    ensures SeedState(k + 1) == Exec(EXAMPLE, SeedState(k), SeedMove(k))
  {
    hide ApplyAll, Live, Reseeded, Reported, JobView, Trim, Lower, FullUpdate, JobUpdate;
    match k
    case 0 => SeedDiscovery();
    case 6 => SeedSend();
    case _ =>
  }

  lemma {:induction false} SeededRun(k: nat) returns (states: seq<Sys>, moves: seq<Move>)
    requires k <= 8
    ensures IsRun(EXAMPLE, states, moves) && states[|states| - 1] == SeedState(k)
    decreases k
  {
    hide Enabled, Exec;
    states, moves := [SeedState(0)], [];
    if k > 0 {
      states, moves := SeededRun(k - 1);
      SeedStep(k - 1);
      Longer(EXAMPLE, states, moves, SeedMove(k - 1), SeedState(k));
      states, moves := states + [SeedState(k)], moves + [SeedMove(k - 1)];
    }
  }

  // ---------- A job with the empty name is missed ----------

  /** A task of a job with the empty name runs. */
  const UNNAMED := Truth(AGENTS, [AgentTasks([97], Some([Task([], Running, [], 0)]))])

  lemma OnePair(name: Text, ip: Ip, job: Text)
    ensures Uniq([], Of([(name, ip)], job)) == if name == job then [ip] else []
  {
    OfStep([], (name, ip), job);
    assert [] + [(name, ip)] == [(name, ip)];
  }

  lemma UnnamedRuns(job: Text)
    requires Lower(job) == job
    ensures Actual(EXAMPLE, UNNAMED, job) == if job == [] then [Ip(10, 0, 0, 1)] else []
    ensures Actual(EXAMPLE, SEEDED.truth, job) == []
  {
    var w, at := EXAMPLE.world, UNNAMED.tasks[0];
    PairsStep(w, AGENTS, UNNAMED.tasks, 0);
    TaskPairsStep(w, [97], Some(Ip(10, 0, 0, 1)), at.tasks.value, 0, []);
    assert UNNAMED.tasks[..1] == UNNAMED.tasks && at.tasks.value[..1] == at.tasks.value;
    assert Pairs(w, AGENTS, UNNAMED.tasks) == [([], Ip(10, 0, 0, 1))];
    NoPairs(w, AGENTS, job);
    OnePair([], Ip(10, 0, 0, 1), job);
  }

  /**
   The task of a job with the empty name starts, and the cluster says so, naming the job. The event is ignored:
   the run comes to rest, and the cache does not have the address.
   */
  lemma EmptyNameMissed() returns (states: seq<Sys>, moves: seq<Move>)
    ensures IsRun(EXAMPLE, states, moves)
    ensures AtRest(states[|states| - 1]) && !Accounted(EXAMPLE, states[|states| - 1], [])
  {
    hide Exec, Enabled, JobView;
    states, moves := SeededRun(8);
    var change := Change(UNNAMED, [Some(TaskChange([]))]);
    var told := SEEDED.(truth := UNNAMED, stream := [Event(Some(TaskChange([])))]);
    UnnamedReported();
    Longer(EXAMPLE, states, moves, change, told);
    states, moves := states + [told], moves + [change];
    Longer(EXAMPLE, states, moves, Hear, SEEDED.(truth := UNNAMED));
    states, moves := states + [SEEDED.(truth := UNNAMED)], moves + [Hear];
    UnnamedRuns([]);
  }

  lemma UnnamedReported()
    ensures var change := Change(UNNAMED, [Some(TaskChange([]))]);
            var told := SEEDED.(truth := UNNAMED, stream := [Event(Some(TaskChange([])))]);
            && Enabled(EXAMPLE, SEEDED, change) && told == Exec(EXAMPLE, SEEDED, change)
            && Enabled(EXAMPLE, told, Hear) && SEEDED.(truth := UNNAMED) == Exec(EXAMPLE, told, Hear)
  {
    hide JobView, Live, Reseeded;
    var events: seq<Option<Topic>> := [Some(TaskChange([]))];
    forall job | Lower(job) == job && Actual(EXAMPLE, SEEDED.truth, job) != Actual(EXAMPLE, UNNAMED, job)
      ensures Announces(events[0], job)
    {
      UnnamedRuns(job);
    }
    assert events[..0] == [] && Events(events) == [Event(events[0])];
  }

  /** A job is accounted for in every run, at every moment, exactly when it has a name. */
  lemma AccountedExactly(job: Text)
    requires Lower(job) == job
    ensures (forall p, states, moves, i: nat ::
               IsRun(p, states, moves) && i < |states| ==> Accounted(p, states[i], job))
            <==> job != []
  {
    if job == [] {
      var states, moves := EmptyNameMissed();
      var i: nat := |states| - 1;
      assert IsRun(EXAMPLE, states, moves) && !Accounted(EXAMPLE, states[i], job);
    } else {
      forall p, states, moves, i: nat | IsRun(p, states, moves) && i < |states| ensures Accounted(p, states[i], job) {
        NoMissedUpdate.NoMissedUpdate(p, states, moves, i, job);
      }
    }
  }

  // ---------- Two refreshes at the same moment ----------

  function FallMove(k: nat): Move {
    match k
    case 0 => Chatter(Some(JobChange([106])))
    case 1 => Hear
    case 2 => Tick(2)
    case 3 => StartRefresh
    case 4 => Fail(2)
    case _ => StartRefresh
  }

  function FallState(k: nat): Sys {
    var begun := SEEDED.(now := 2, began := 2, log := SEEDED.log + [Refreshed(2, false, false)]);
    var failed := SEEDED.log + [Refreshed(2, false, true)];
    match k
    case 0 => SEEDED
    case 1 => SEEDED.(stream := [Event(Some(JobChange([106])))])
    case 2 => SEEDED.(w := CALM.(jobs := [[106]], due := Some(2)))
    case 3 => SEEDED.(w := CALM.(jobs := [[106]], due := Some(2)), now := 2)
    case 4 => begun.(work := JobBegun([[106]]))
    case 5 => begun.(w := CALM.(full := true, due := Some(2)), log := failed)
    case _ => begun.(work := FullBegun, log := failed + [Refreshed(2, true, false)])
  }

  lemma FallStep(k: nat)
    requires k < 6
    ensures Enabled(EXAMPLE, FallState(k), FallMove(k))
    ensures FallState(k + 1) == Exec(EXAMPLE, FallState(k), FallMove(k))
  {
    hide ApplyAll, Live, Reseeded, Reported, JobView, JobsView;
    if k == 1 {
      assert Lower([106]) == [106];
    }
  }

  lemma {:induction false} FallRun(k: nat) returns (states: seq<Sys>, moves: seq<Move>)
    requires k <= 6
    ensures IsRun(EXAMPLE, states, moves) && states[|states| - 1] == FallState(k)
    decreases k
  {
    hide Enabled, Exec;
    if k == 0 {
      states, moves := SeededRun(8);
    } else {
      states, moves := FallRun(k - 1);
      FallStep(k - 1);
      Longer(EXAMPLE, states, moves, FallMove(k - 1), FallState(k));
      states, moves := states + [FallState(k)], moves + [FallMove(k - 1)];
    }
  }

  /** A job refresh fails, and the full one begins at the same moment, though both waiting times are positive. */
  lemma TwoRefreshesAtOnce() returns (states: seq<Sys>, moves: seq<Move>, k: nat)
    ensures IsRun(EXAMPLE, states, moves) && EXAMPLE.interval > 0 && EXAMPLE.debounce > 0
    ensures var log := states[|states| - 1].log;
            && k + 1 < |log| && log[k].Refreshed? && log[k + 1].Refreshed?
            && log[k].at == log[k + 1].at && FellBack(log[k])
  {
    states, moves := FallRun(6);
    k := 2;
  }
}
