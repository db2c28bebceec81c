/**
 Rest can be reached: from every state of a run the driver, a new connection and the clock alone lead to a state in
 which nothing is left to do; and so for all peers together. The driver never gets stuck.
 */
module Progress {
  import opened Basics
  import opened Tables
  import opened Caches
  import opened Builders
  import opened Watchers
  import opened Federation
  import opened Protocol
  import opened NoMissedUpdate
  import opened Peers

  // ---------- Moves in a row ----------

  /** A move of the clock, the driver or the owner of the cache that goes well, or a connection that opens. */
  predicate Calm(m: Move) {
    || m.Tick? || m.Connect? || m.DiscoverAnswers? || m.Hear?
    || m.StartRefresh? || m.ReadAgents? || m.ReadTasks? || m.Send? || m.Deliver?
  }

  function After(p: Setup, s: Sys, ms: seq<Move>): Sys
    decreases |ms|
  {
    if ms == [] then s else After(p, Exec(p, s, ms[0]), ms[1..])
  }

  ghost predicate CanDo(p: Setup, s: Sys, ms: seq<Move>)
    decreases |ms|
  {
    ms == [] || (Calm(ms[0]) && Enabled(p, s, ms[0]) && CanDo(p, Exec(p, s, ms[0]), ms[1..]))
  }

  lemma {:induction false} Then(p: Setup, s: Sys, a: seq<Move>, b: seq<Move>)
    requires CanDo(p, s, a) && CanDo(p, After(p, s, a), b)
    ensures CanDo(p, s, a + b) && After(p, s, a + b) == After(p, After(p, s, a), b)
    decreases |a|
  {
    hide Enabled, Exec;
    if a == [] {
      assert a + b == b;
    } else {
      assert (a + b)[1..] == a[1..] + b;
      Then(p, Exec(p, s, a[0]), a[1..], b);
    }
  }

  lemma Once(p: Setup, s: Sys, m: Move, ms: seq<Move>)
    requires Calm(m) && Enabled(p, s, m) && CanDo(p, Exec(p, s, m), ms)
    ensures CanDo(p, s, [m] + ms) && After(p, s, [m] + ms) == After(p, Exec(p, s, m), ms)
  {
    hide Enabled, Exec;
    assert ([m] + ms)[1..] == ms;
  }

  lemma Twice(p: Setup, s: Sys, m: Move, m': Move)
    requires Calm(m) && Enabled(p, s, m) && Calm(m') && Enabled(p, Exec(p, s, m), m')
    ensures CanDo(p, s, [m, m']) && After(p, s, [m, m']) == Exec(p, Exec(p, s, m), m')
  {
    hide Enabled, Exec;
    var s' := Exec(p, s, m);
    assert [m'][1..] == [] && CanDo(p, Exec(p, s', m'), []);
    assert CanDo(p, s', [m']) && After(p, s', [m']) == Exec(p, s', m');
    Once(p, s, m, [m']);
    assert [m] + [m'] == [m, m'];
  }

  lemma {:induction false} CalmKeeps(p: Setup, s: Sys, ms: seq<Move>)
    requires Base(p, s) && CanDo(p, s, ms)
    ensures Base(p, After(p, s, ms)) && After(p, s, ms).truth == s.truth
    decreases |ms|
  {
    hide Enabled, Base;
    if ms != [] {
      StepKeepsBase(p, s, ms[0]);
      CalmKeeps(p, Exec(p, s, ms[0]), ms[1..]);
    }
  }

  // ---------- One peer ----------

  /** Nothing is left to do but to deliver. */
  predicate Quiet(s: Sys) {
    s.connected && s.stream == [] && s.w.due == None && s.work == Idle
  }

  /** What a refresh leaves as it was. */
  predicate SameOutside(s: Sys, s': Sys) {
    s.connected == s'.connected && s.stream == s'.stream && s.w == s'.w
  }

  function StepsLeft(work: Work): nat {
    match work
    case Idle => 0
    case FullBegun => 3
    case FullAgents(_) => 2
    case FullRead(_, _) => 1
    case JobBegun(jobs) => 3 * |jobs|
    case JobAgents(jobs, _) => Max(0, 3 * |jobs| - 1)
    case JobRead(jobs, _, _) => Max(0, 3 * |jobs| - 2)
  }

  function WorkMove(work: Work): Move {
    match work
    case FullBegun => ReadAgents
    case JobBegun(_) => ReadAgents
    case FullAgents(_) => ReadTasks
    case JobAgents(_, _) => ReadTasks
    case _ => Send
  }

  lemma WorkStep(p: Setup, s: Sys)
    requires Base(p, s) && s.work != Idle
    ensures var s' := Exec(p, s, WorkMove(s.work));
            Enabled(p, s, WorkMove(s.work)) && SameOutside(s, s') && StepsLeft(s'.work) < StepsLeft(s.work)
  {
    hide JobView, JobsView, Inv, Reseeded, Reported, ClusterName;
  }

  /** A refresh in progress can be brought to its end. */
  lemma {:induction false} FinishWork(p: Setup, s: Sys) returns (ms: seq<Move>)
    requires Base(p, s)
    ensures CanDo(p, s, ms) && After(p, s, ms).work == Idle && SameOutside(s, After(p, s, ms))
    decreases StepsLeft(s.work)
  {
    hide Base, Enabled, Exec;
    ms := [];
    if s.work != Idle {
      var m := WorkMove(s.work);
      WorkStep(p, s);
      StepKeepsBase(p, s, m);
      ms := FinishWork(p, Exec(p, s, m));
      Once(p, s, m, ms);
      ms := [m] + ms;
    }
  }

  lemma HearStep(p: Setup, s: Sys)
    requires s.work == Idle && s.stream != []
    ensures var s' := Exec(p, s, Hear);
            && Enabled(p, s, Hear) && s'.stream == s.stream[1..] && s'.connected == s.connected && s'.work == Idle
            && s'.w.cluster == s.w.cluster
  {
  }

  /** Everything in the stream can be heard. */
  lemma {:induction false} HearAll(p: Setup, s: Sys) returns (ms: seq<Move>)
    requires s.work == Idle
    ensures CanDo(p, s, ms)
    ensures var s' := After(p, s, ms);
            s'.stream == [] && s'.connected == s.connected && s'.work == Idle && s'.w.cluster == s.w.cluster
    decreases |s.stream|
  {
    hide Enabled, Exec;
    ms := [];
    if s.stream != [] {
      HearStep(p, s);
      ms := HearAll(p, Exec(p, s, Hear));
      Once(p, s, Hear, ms);
      ms := [Hear] + ms;
    }
  }

  /** A cluster with a name can be discovered, at the latest when the next try is due. */
  lemma Discover(p: Setup, s: Sys) returns (ms: seq<Move>)
    requires Base(p, s) && s.work == Idle && Trim(p.name) != []
    ensures CanDo(p, s, ms)
    ensures var s' := After(p, s, ms);
            && s'.w.cluster.Some? && s'.connected == s.connected && s'.stream == s.stream && s'.work == Idle
  {
    hide Base, JobView, JobsView, Reported, Trim, Lower;
    ms := [];
    if s.w.cluster == None {
      var m := Tick(Max(s.now, s.w.retryAt));
      ms := [m, DiscoverAnswers];
      Twice(p, s, m, DiscoverAnswers);
    }
  }

  lemma Connected(p: Setup, s: Sys) returns (ms: seq<Move>)
    ensures CanDo(p, s, ms)
    ensures var s' := After(p, s, ms); s'.connected && s'.work == s.work && s'.w == s.w
  {
    ms := if s.connected then [] else [Connect];
  }

  /** What is pending can be refreshed, at the latest when it is due. */
  lemma RefreshPending(p: Setup, s: Sys) returns (ms: seq<Move>)
    requires Base(p, s) && s.connected && s.stream == [] && s.work == Idle && s.w.cluster.Some?
    ensures CanDo(p, s, ms) && Quiet(After(p, s, ms))
  {
    hide Base, JobView, JobsView, Reported;
    ms := [];
    if s.w.due.Some? {
      var m := Tick(Max(s.now, s.w.due.value));
      var begin := [m, StartRefresh];
      Twice(p, s, m, StartRefresh);
      CalmKeeps(p, s, begin);
      var s' := After(p, s, begin);
      assert s'.connected && s'.stream == [] && s'.w.due == None;
      ms := FinishWork(p, s');
      Then(p, s, begin, ms);
      ms := begin + ms;
    }
  }

  lemma ReachQuiet(p: Setup, s: Sys) returns (ms: seq<Move>)
    requires Base(p, s) && Trim(p.name) != []
    ensures CanDo(p, s, ms) && Quiet(After(p, s, ms))
  {
    hide Base, CanDo, After, Trim;
    ms := FinishWork(p, s);
    var next := Connected(p, After(p, s, ms));
    Then(p, s, ms, next);
    ms := ms + next;
    CalmKeeps(p, s, ms);
    next := Discover(p, After(p, s, ms));
    Then(p, s, ms, next);
    ms := ms + next;
    next := HearAll(p, After(p, s, ms));
    Then(p, s, ms, next);
    ms := ms + next;
    CalmKeeps(p, s, ms);
    next := RefreshPending(p, After(p, s, ms));
    Then(p, s, ms, next);
    ms := ms + next;
  }

  lemma DeliverStep(p: Setup, s: Sys)
    requires s.updates != []
    ensures var s' := Exec(p, s, Deliver);
            Enabled(p, s, Deliver) && s'.updates == s.updates[1..] && (Quiet(s) ==> Quiet(s'))
  {
  }

  lemma {:induction false} DeliverAll(p: Setup, s: Sys) returns (ms: seq<Move>)
    ensures CanDo(p, s, ms) && After(p, s, ms).updates == [] && (Quiet(s) ==> Quiet(After(p, s, ms)))
    decreases |s.updates|
  {
    hide Enabled, Exec, Quiet;
    ms := [];
    if s.updates != [] {
      DeliverStep(p, s);
      ms := DeliverAll(p, Exec(p, s, Deliver));
      Once(p, s, Deliver, ms);
      ms := [Deliver] + ms;
    }
  }

  /**
   The driver never gets stuck. Every run of a cluster with a name can go on, by moves of the driver, the clock and
   a connection alone, to a state at rest, in which the cache has the actual addresses of every job with a name.
   */
  lemma RestIsReachable(p: Setup, states: seq<Sys>, moves: seq<Move>) returns (states': seq<Sys>, more: seq<Move>)
    requires IsRun(p, states, moves) && Trim(p.name) != []
    ensures IsRun(p, states', moves + more) && states <= states' && forall i :: 0 <= i < |more| ==> Calm(more[i])
    ensures var last := states'[|states'| - 1];
            && AtRest(last) && last.truth == states[|states| - 1].truth
            && forall job :: Lower(job) == job && job != []
                             ==> GetCluster(last.cache, ClusterName(p), job).GetOr([]) == Actual(p, last.truth, job)
  {
    hide Base, CanDo, After, Trim, JobView, ClusterName, Lower, GetCluster, Exec, Enabled, Start;
    var s := states[|states| - 1];
    RunKeepsBase(p, states, moves, |states| - 1);
    more := ReachQuiet(p, s);
    var rest := DeliverAll(p, After(p, s, more));
    Then(p, s, more, rest);
    more := more + rest;
    CalmKeeps(p, s, more);
    states' := RunOn(p, states, moves, more);
    var last := states'[|states'| - 1];
    forall job | Lower(job) == job && job != []
      ensures GetCluster(last.cache, ClusterName(p), job).GetOr([]) == Actual(p, last.truth, job)
    {
      AtRestTheCacheIsTrue(p, states', moves + more, |states'| - 1, job);
    }
  }

  lemma {:induction false} RunOn(p: Setup, states: seq<Sys>, moves: seq<Move>, more: seq<Move>)
    returns (states': seq<Sys>)
    requires IsRun(p, states, moves) && CanDo(p, states[|states| - 1], more)
    ensures IsRun(p, states', moves + more) && states <= states'
    ensures states'[|states'| - 1] == After(p, states[|states| - 1], more)
    ensures forall i :: 0 <= i < |more| ==> Calm(more[i])
    decreases |more|
  {
    hide Enabled, Exec, Start;
    if more == [] {
      assert moves + more == moves;
      states' := states;
    } else {
      var s := Exec(p, states[|states| - 1], more[0]);
      Longer(p, states, moves, more[0], s);
      states' := RunOn(p, states + [s], moves + [more[0]], more[1..]);
      assert moves + [more[0]] + more[1..] == moves + more;
    }
  }

  /** One more step makes a run one step longer. */
  lemma Longer(p: Setup, states: seq<Sys>, moves: seq<Move>, m: Move, s: Sys)
    requires IsRun(p, states, moves)
    requires Enabled(p, states[|states| - 1], m) && s == Exec(p, states[|states| - 1], m)
    ensures IsRun(p, states + [s], moves + [m])
  {
    hide Start, Enabled, Exec;
    var (states', moves') := (states + [s], moves + [m]);
    forall i | 0 <= i < |moves'|
      ensures Enabled(p, states'[i], moves'[i]) && states'[i + 1] == Exec(p, states'[i], moves'[i])
    {
      if i < |moves| {
        assert Enabled(p, states[i], moves[i]) && states[i + 1] == Exec(p, states[i], moves[i]);
      }
    }
  }

  // ---------- All peers ----------

  /** Peer `i` makes a move while the others stand by. */
  function Shared(ss: seq<Sys>, i: nat, s: Sys): (ss': seq<Sys>)
    requires i < |ss|
    ensures |ss'| == |ss| && ss'[i] == s
    ensures forall j :: 0 <= j < |ss| && j != i
                        ==> ss'[j] == ss[j].(updates := s.updates, cache := s.cache, now := s.now)
  {
    seq(|ss|, j requires 0 <= j < |ss| =>
      if j == i then s else ss[j].(updates := s.updates, cache := s.cache, now := s.now))
  }

  lemma JointLonger(ps: seq<Setup>, trace: seq<seq<Sys>>, turns: seq<(nat, Move)>, i: nat, m: Move)
    returns (trace': seq<seq<Sys>>, turns': seq<(nat, Move)>)
    requires IsJointRun(ps, trace, turns) && i < |ps| == |trace[|trace| - 1]| && !m.OtherPeer?
    requires Enabled(ps[i], trace[|trace| - 1][i], m)
    ensures IsJointRun(ps, trace', turns')
    ensures trace'[|trace'| - 1] == Shared(trace[|trace| - 1], i, Exec(ps[i], trace[|trace| - 1][i], m))
  {
    hide Enabled, Exec, AllStart, Turn;
    var ss := trace[|trace| - 1];
    var ss' := Shared(ss, i, Exec(ps[i], ss[i], m));
    TurnTaken(ps, ss, i, m);
    trace', turns' := trace + [ss'], turns + [(i, m)];
    forall t | 0 <= t < |turns'| ensures Turn(ps, trace'[t], trace'[t + 1], turns'[t].0, turns'[t].1) {
      if t < |turns| {
        assert Turn(ps, trace[t], trace[t + 1], turns[t].0, turns[t].1);
      }
    }
  }

  lemma TurnTaken(ps: seq<Setup>, ss: seq<Sys>, i: nat, m: Move)
    requires i < |ps| == |ss| && !m.OtherPeer? && Enabled(ps[i], ss[i], m)
    ensures Turn(ps, ss, Shared(ss, i, Exec(ps[i], ss[i], m)), i, m)
  {
    hide Enabled, Exec;
  }

  /** What one peer can do, it can do among the others. */
  lemma {:induction false} Drive(ps: seq<Setup>, trace: seq<seq<Sys>>, turns: seq<(nat, Move)>, i: nat, ms: seq<Move>)
    returns (trace': seq<seq<Sys>>, turns': seq<(nat, Move)>)
    requires IsJointRun(ps, trace, turns) && i < |ps| == |trace[|trace| - 1]|
    requires CanDo(ps[i], trace[|trace| - 1][i], ms)
    requires Together(trace[|trace| - 1])
    ensures IsJointRun(ps, trace', turns')
    ensures trace'[|trace'| - 1] == Shared(trace[|trace| - 1], i, After(ps[i], trace[|trace| - 1][i], ms))
    decreases |ms|
  {
    hide Enabled, Exec, AllStart, Turn, Together;
    var ss := trace[|trace| - 1];
    if ms == [] {
      trace', turns' := trace, turns;
      StandingBy(ss, i);
    } else {
      trace', turns' := JointLonger(ps, trace, turns, i, ms[0]);
      var ss' := trace'[|trace'| - 1];
      SharedIsTogether(ss, i, ss'[i]);
      trace', turns' := Drive(ps, trace', turns', i, ms[1..]);
      var s := After(ps[i], ss[i], ms);
      assert Shared(ss', i, s) == Shared(ss, i, s);
    }
  }

  lemma StandingBy(ss: seq<Sys>, i: nat)
    requires i < |ss| && Together(ss)
    ensures Shared(ss, i, ss[i]) == ss
  {
    forall j | 0 <= j < |ss| ensures ss[j] == Shared(ss, i, ss[i])[j] {
      assert SameShared(ss[i], ss[j]);
    }
  }

  lemma SharedIsTogether(ss: seq<Sys>, i: nat, s: Sys)
    requires i < |ss|
    ensures Together(Shared(ss, i, s))
  {
  }

  /** What the peers have in common at the end of a run. */
  lemma LastIsGood(ps: seq<Setup>, trace: seq<seq<Sys>>, turns: seq<(nat, Move)>)
    requires IsJointRun(ps, trace, turns)
    ensures var ss := trace[|trace| - 1];
            |ss| == |ps| && Together(ss) && forall j :: 0 <= j < |ps| ==> Base(ps[j], ss[j])
  {
    hide AllStart, Turn, Base, Safe, Lower;
    assert Lower([0]) == [0] by {
      LowerOfZero();
    }
    JointRunIsSafe(ps, trace, turns, |trace| - 1, [0]);
  }

  lemma LowerOfZero()
    ensures Lower([0]) == [0]
  {
  }

  lemma {:induction false} ReachAllQuiet(ps: seq<Setup>, trace: seq<seq<Sys>>, turns: seq<(nat, Move)>, n: nat)
    returns (trace': seq<seq<Sys>>, turns': seq<(nat, Move)>)
    requires IsJointRun(ps, trace, turns) && n <= |ps| && forall j :: 0 <= j < |ps| ==> Trim(ps[j].name) != []
    ensures IsJointRun(ps, trace', turns')
    ensures var (ss, ss') := (trace[|trace| - 1], trace'[|trace'| - 1]);
            && |ss| == |ss'| == |ps| && (forall j :: 0 <= j < n ==> Quiet(ss'[j]))
            && forall j :: 0 <= j < |ps| ==> ss'[j].truth == ss[j].truth
    decreases n
  {
    hide AllStart, Turn, Base, Trim, CanDo, After, Together;
    LastIsGood(ps, trace, turns);
    if n == 0 {
      trace', turns' := trace, turns;
    } else {
      trace', turns' := ReachAllQuiet(ps, trace, turns, n - 1);
      LastIsGood(ps, trace', turns');
      var ss := trace'[|trace'| - 1];
      var ms := ReachQuiet(ps[n - 1], ss[n - 1]);
      CalmKeeps(ps[n - 1], ss[n - 1], ms);
      trace', turns' := Drive(ps, trace', turns', n - 1, ms);
    }
  }

  /**
   All peers can come to rest. Every run of peers whose clusters have names can go on until every peer is at rest,
   with the clusters as they are.
   */
  lemma JointRestIsReachable(ps: seq<Setup>, trace: seq<seq<Sys>>, turns: seq<(nat, Move)>)
    returns (trace': seq<seq<Sys>>, turns': seq<(nat, Move)>)
    requires IsJointRun(ps, trace, turns) && ps != [] && forall j :: 0 <= j < |ps| ==> Trim(ps[j].name) != []
    ensures IsJointRun(ps, trace', turns')
    ensures var (ss, ss') := (trace[|trace| - 1], trace'[|trace'| - 1]);
            |ss| == |ss'| == |ps| && forall j :: 0 <= j < |ps| ==> AtRest(ss'[j]) && ss'[j].truth == ss[j].truth
  {
    hide AllStart, Turn, Base, Trim, CanDo, After, Together;
    trace', turns' := ReachAllQuiet(ps, trace, turns, |ps|);
    LastIsGood(ps, trace', turns');
    var ss := trace'[|trace'| - 1];
    var ms := DeliverAll(ps[0], ss[0]);
    CalmKeeps(ps[0], ss[0], ms);
    trace', turns' := Drive(ps, trace', turns', 0, ms);
  }

  /** There are such runs: any clusters with distinct names, in any state, and all their peers at rest. */
  lemma RestExists(ps: seq<Setup>, truths: seq<Truth>) returns (trace: seq<seq<Sys>>, turns: seq<(nat, Move)>)
    requires ps != [] && |truths| == |ps| && NoDup(Names(ps)) && forall j :: 0 <= j < |ps| ==> Trim(ps[j].name) != []
    ensures IsJointRun(ps, trace, turns)
    ensures var ss := trace[|trace| - 1];
            |ss| == |ps| && forall j :: 0 <= j < |ps| ==> AtRest(ss[j]) && ss[j].truth == truths[j]
  {
    var ss := seq(|ps|, j requires 0 <= j < |ps| =>
      Sys(truths[j], false, [], Initial(ps[j].interval, ps[j].debounce), Idle, 0, [], [], 0, []));
    trace, turns := [ss], [];
    assert AllStart(ps, ss);
    hide Trim;
    trace, turns := JointRestIsReachable(ps, trace, turns);
  }
}
