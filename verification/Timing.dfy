/** When the watcher refreshes, over whole runs of the protocol: never late, and never in a storm. */
module Timing {
  import opened Basics
  import opened Builders
  import opened Watchers
  import opened Protocol

  // ---------- The invariant ----------

  /** Two refreshes with no ping between: the shortest waiting time apart, or a full one behind a failed job refresh. */
  predicate Apart(p: Setup, a: LogEntry, b: LogEntry) {
    a.Refreshed? && b.Refreshed?
    ==> SatAdd(a.at, Min(p.interval, p.debounce)) <= b.at || (FellBack(a) && b.full && a.at <= b.at)
  }

  /** A job refresh that failed. */
  predicate FellBack(e: LogEntry) {
    e.Refreshed? && !e.full && e.failed
  }

  ghost predicate LogApart(p: Setup, log: seq<LogEntry>) {
    forall i :: 0 <= i < |log| - 1 ==> Apart(p, log[i], log[i + 1])
  }

  predicate InFull(work: Work) {
    work.FullBegun? || work.FullAgents? || work.FullRead?
  }

  /** What is pending behind the last refresh, when no ping came after it. */
  predicate PendingApart(p: Setup, s: Sys) {
    s.log != [] && s.log[|s.log| - 1].Refreshed?
    ==> var last := s.log[|s.log| - 1];
        if s.work != Idle then s.began == last.at && last.full == InFull(s.work) && !last.failed && s.w.due == None
        else
          s.w.due.Some?
          ==> || SatAdd(last.at, Min(p.interval, p.debounce)) <= s.w.due.value
              || (FellBack(last) && s.w.full && last.at <= s.w.due.value)
  }

  ghost predicate TimeInv(p: Setup, s: Sys) {
    && s.w.interval == p.interval && s.w.debounce == p.debounce
    && (s.log != [] ==> s.log[|s.log| - 1].at <= s.now)
    && (s.w.due.Some? ==> s.w.due.value <= SatAdd(s.now, Max(p.interval, p.debounce)))
    && (s.w.due.Some? <==> s.w.full || s.w.jobs != [])
    && (s.work != Idle ==> s.began <= s.now && s.log != [] && s.log[|s.log| - 1].Refreshed? && s.w.due == None)
    && LogApart(p, s.log) && PendingApart(p, s)
  }

  lemma LogGrows(p: Setup, log: seq<LogEntry>, e: LogEntry)
    requires LogApart(p, log) && (log != [] ==> Apart(p, log[|log| - 1], e))
    ensures LogApart(p, log + [e])
  {
    var longer := log + [e];
    forall i | 0 <= i < |longer| - 1 ensures Apart(p, longer[i], longer[i + 1]) {
      if i < |log| - 1 {
        assert Apart(p, log[i], log[i + 1]);
      }
    }
  }

  lemma HearKeepsTime(p: Setup, s: Sys)
    requires TimeInv(p, s) && Enabled(p, s, Hear)
    ensures TimeInv(p, Exec(p, s, Hear))
  {
    hide LogApart, Reported, Events, JobView, JobsView, ApplyTo, Lower;
    if s.stream[0] == Event(Some(Ping)) {
      LogGrows(p, s.log, Pinged(s.now));
    }
  }

  lemma RefreshKeepsTime(p: Setup, s: Sys)
    requires TimeInv(p, s) && Enabled(p, s, StartRefresh)
    ensures TimeInv(p, Exec(p, s, StartRefresh))
  {
    hide LogApart;
    LogGrows(p, s.log, Refreshed(s.now, s.w.full, false));
  }

  /** That the last refresh failed is noted in the log, which stays as spaced as it was. */
  lemma FailKeepsTime(p: Setup, s: Sys, at: u64)
    requires TimeInv(p, s) && Enabled(p, s, Fail(at))
    ensures TimeInv(p, Exec(p, s, Fail(at)))
  {
    hide Reported, Events, JobView, JobsView, ApplyTo;
    var log, log' := s.log, LastFailed(s.log);
    forall i | 0 <= i < |log'| - 1 ensures Apart(p, log'[i], log'[i + 1]) {
      assert Apart(p, log[i], log[i + 1]);
    }
  }

  lemma StepKeepsTime(p: Setup, s: Sys, m: Move)
    requires TimeInv(p, s) && Enabled(p, s, m)
    ensures TimeInv(p, Exec(p, s, m))
  {
    hide LogApart, Reported, Events, JobView, JobsView, ApplyTo;
    match m
    case Hear => HearKeepsTime(p, s);
    case StartRefresh => RefreshKeepsTime(p, s);
    case Fail(at) => FailKeepsTime(p, s, at);
    case _ =>
  }

  lemma {:induction false} RunKeepsTime(p: Setup, states: seq<Sys>, moves: seq<Move>, i: nat)
    requires IsRun(p, states, moves) && i < |states|
    ensures TimeInv(p, states[i])
    decreases i
  {
    if i > 0 {
      RunKeepsTime(p, states, moves, i - 1);
      StepKeepsTime(p, states[i - 1], moves[i - 1]);
    }
  }

  // ---------- What follows for every run ----------

  /** Never late: what is pending is due at most one waiting time from now, and there is a due time exactly then. */
  lemma DueSoon(p: Setup, states: seq<Sys>, moves: seq<Move>, i: nat)
    requires IsRun(p, states, moves) && i < |states|
    ensures var s := states[i];
            && (s.w.due.Some? <==> s.w.full || s.w.jobs != [])
            && (s.w.due.Some? ==> s.w.due.value <= s.now + Max(p.interval, p.debounce))
  {
    RunKeepsTime(p, states, moves, i);
  }

  /**
   No step of a run moves the due time of pending work later than the clock, unless it was already later. Only a
   ping that is heard when the work is overdue moves it later at all, to the present moment.
   */
  lemma NeverPostponed(p: Setup, states: seq<Sys>, moves: seq<Move>, i: nat)
    requires IsRun(p, states, moves) && i + 1 < |states|
    requires states[i].w.due.Some? && states[i + 1].w.due.Some?
    ensures states[i + 1].w.due.value <= Max(states[i].w.due.value, states[i].now)
    ensures states[i + 1].w.due.value > states[i].w.due.value
            ==> && moves[i] == Hear && states[i].stream[0] == Event(Some(Ping))
                && states[i].w.due.value < states[i].now == states[i + 1].w.due.value
  {
    hide Enabled, Exec, TimeInv;
    RunKeepsTime(p, states, moves, i);
    StepPostpones(p, states[i], moves[i]);
  }

  lemma StepPostpones(p: Setup, s: Sys, m: Move)
    requires TimeInv(p, s) && Enabled(p, s, m) && s.w.due.Some? && Exec(p, s, m).w.due.Some?
    ensures var due := Exec(p, s, m).w.due.value;
            && due <= Max(s.w.due.value, s.now)
            && (due > s.w.due.value
                ==> m == Hear && s.stream[0] == Event(Some(Ping)) && s.w.due.value < s.now == due)
  {
    hide Reported, Events, JobView, JobsView, ApplyTo, LogApart, PendingApart, Lower, FullUpdate, JobUpdate;
  }

  /**
   Two consecutive refreshes of a run with no ping between them are the shorter of the two waiting times apart,
   unless the first is a job refresh that failed; then the second is a full one, and may follow at once
   (`Counterexamples.TwoRefreshesAtOnce`). A clock at its last moment stands still.
   */
  lemma TwoRefreshesApart(p: Setup, states: seq<Sys>, moves: seq<Move>, i: nat, k: nat)
    requires IsRun(p, states, moves) && i < |states| && k + 1 < |states[i].log|
    requires states[i].log[k].Refreshed? && states[i].log[k + 1].Refreshed?
    ensures var (a, b) := (states[i].log[k], states[i].log[k + 1]);
            && a.at <= b.at
            && (a.at + Min(p.interval, p.debounce) <= b.at || b.at == 0xFFFF_FFFF_FFFF_FFFF
                || (!a.full && a.failed && b.full))
  {
    RunKeepsTime(p, states, moves, i);
    var log := states[i].log;
    assert Apart(p, log[k], log[k + 1]);
  }

  /**
   Never in a storm: any three consecutive refreshes of a run with no ping between them span at least the shorter
   of the two waiting times, unless the clock has come to its last moment.
   */
  lemma ThreeRefreshesSpan(p: Setup, states: seq<Sys>, moves: seq<Move>, i: nat, k: nat)
    requires IsRun(p, states, moves) && i < |states| && k + 2 < |states[i].log|
    requires states[i].log[k].Refreshed? && states[i].log[k + 1].Refreshed? && states[i].log[k + 2].Refreshed?
    ensures || states[i].log[k].at + Min(p.interval, p.debounce) <= states[i].log[k + 2].at
            || states[i].log[k + 2].at == 0xFFFF_FFFF_FFFF_FFFF
  {
    TwoRefreshesApart(p, states, moves, i, k);
    RunKeepsTime(p, states, moves, i);
    var log := states[i].log;
    assert Apart(p, log[k], log[k + 1]) && Apart(p, log[k + 1], log[k + 1 + 1]);
  }
}
