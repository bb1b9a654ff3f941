/** The coalescing worker that refreshes one game's announcement.

    Any number of callers ask for a refresh; at most one goroutine performs them.  What happens under
    the worker's mutex is modelled by the methods of `GameEditWorker`; around them, `Exec` interleaves
    callers and goroutines in every possible order. */
module EditWorker {

  // ---------------------------------------------------------------- under the mutex

  datatype Flags = Flags(running: bool, pending: bool)

  /** What a caller does under the mutex: remember the request, or start a goroutine. */
  function Request(f: Flags): Flags {
    if f.running then f.(pending := true) else f.(running := true)
  }

  /** What the goroutine does under the mutex after a run: go round again, or stop. */
  function Finish(f: Flags): Flags {
    if f.pending then f.(pending := false) else f.(running := false)
  }

  class GameEditWorker {
    var running: bool
    var pending: bool

    function State(): Flags
      reads this
    {
      Flags(running, pending)
    }

    constructor ()
      ensures State() == Flags(false, false)
    {
      running, pending := false, false;
    }

    /** The locked part of a request; `spawn` tells the caller to start the goroutine. */
    method Schedule() returns (spawn: bool)
      modifies this
      ensures State() == Request(old(State()))
      ensures spawn == !old(running)
    {
      if running {
        pending := true;
        return false;
      }
      running := true;
      spawn := true;
    }

    /** The locked part of the goroutine's loop; `again` tells it to run once more. */
    method AfterRun() returns (again: bool)
      modifies this
      ensures State() == Finish(old(State()))
      ensures again == old(pending)
    {
      if !pending {
        running := false;
        return false;
      }
      pending := false;
      again := true;
    }
  }

  // ---------------------------------------------------------------- all interleavings

  datatype Phase = AboutToRun | Running | Ran

  datatype Event = Requested | RunStarted(goroutine: nat) | RunEnded(goroutine: nat)

  /** The shared flags, the live goroutines, and everything that happened so far. */
  datatype State = State(flags: Flags, live: map<nat, Phase>, spawned: nat, history: seq<Event>)

  datatype Action = Schedule | Start(goroutine: nat) | End(goroutine: nat) | Check(goroutine: nat)

  const INITIAL := State(Flags(false, false), map[], 0, [])

  predicate Enabled(s: State, a: Action) {
    match a
    case Schedule => true
    case Start(g) => g in s.live && s.live[g] == AboutToRun
    case End(g) => g in s.live && s.live[g] == Running
    case Check(g) => g in s.live && s.live[g] == Ran
  }

  /** One step; an action that is not enabled changes nothing. */
  function Step(s: State, a: Action): State {
    if !Enabled(s, a) then s
    else match a
      case Schedule =>
        var spawn := !s.flags.running;
        State(Request(s.flags),
              if spawn then s.live[s.spawned := AboutToRun] else s.live,
              if spawn then s.spawned + 1 else s.spawned,
              s.history + [Requested])
      case Start(g) => s.(live := s.live[g := Running], history := s.history + [RunStarted(g)])
      case End(g) => s.(live := s.live[g := Ran], history := s.history + [RunEnded(g)])
      case Check(g) =>
        s.(flags := Finish(s.flags), live := if s.flags.pending then s.live[g := AboutToRun] else s.live - {g})
  }

  function Exec(s: State, actions: seq<Action>): State {
    if actions == [] then s else Step(Exec(s, actions[..|actions| - 1]), actions[|actions| - 1])
  }

  // ---------------------------------------------------------------- invariant

  /** A request at position `i` of the history is served by a run that starts and ends after it. */
  ghost predicate Served(history: seq<Event>, i: nat) {
    exists j, k :: i < j < k < |history| && history[j].RunStarted? && history[k] == RunEnded(history[j].goroutine)
  }

  ghost predicate StartedAfter(history: seq<Event>, i: nat) {
    exists j :: i < j < |history| && history[j].RunStarted?
  }

  /** Goroutine `g` has started a run and nothing but requests happened since. */
  ghost predicate OpenRun(history: seq<Event>, g: nat) {
    exists j :: 0 <= j < |history| && history[j] == RunStarted(g) && OnlyRequestsFrom(history, j + 1)
  }

  ghost predicate OnlyRequestsFrom(history: seq<Event>, from: int) {
    forall k :: from <= k < |history| && 0 <= k ==> history[k].Requested?
  }

  /** The goroutine started last is live and in this phase. */
  ghost predicate AtPhase(s: State, p: Phase) {
    s.spawned > 0 && s.spawned - 1 in s.live && s.live[s.spawned - 1] == p
  }

  /** A run that starts, or goes on, after the request at position `i` is still to come or to end. */
  ghost predicate Waiting(s: State, i: nat) {
    s.flags.pending || AtPhase(s, AboutToRun) || (AtPhase(s, Running) && StartedAfter(s.history, i))
  }

  /** Only the goroutine started last is live, and only while the flag says so. */
  ghost predicate OneWorker(s: State) {
    && (forall g :: g in s.live ==> g == s.spawned - 1)
    && (s.flags.running <==> s.spawned > 0 && s.spawned - 1 in s.live)
    && (s.flags.pending ==> s.flags.running)
  }

  ghost predicate NoneDropped(s: State) {
    forall i: nat :: i < |s.history| && s.history[i].Requested? ==> Served(s.history, i) || Waiting(s, i)
  }

  ghost predicate Inv(s: State) {
    && OneWorker(s)
    && (AtPhase(s, Running) ==> OpenRun(s.history, s.spawned - 1))
    && NoneDropped(s)
  }

  lemma HistoryGrows(history: seq<Event>, e: Event, i: nat)
    ensures Served(history, i) ==> Served(history + [e], i)
    ensures StartedAfter(history, i) ==> StartedAfter(history + [e], i)
  {
    var longer := history + [e];
    if Served(history, i) {
      var j, k :| i < j < k < |history| && history[j].RunStarted? && history[k] == RunEnded(history[j].goroutine);
      assert longer[j].RunStarted? && longer[k] == RunEnded(longer[j].goroutine);
    }
    if StartedAfter(history, i) {
      var j :| i < j < |history| && history[j].RunStarted?;
      assert longer[j].RunStarted?;
    }
  }

  lemma ScheduleKeeps(s: State)
    requires Inv(s)
    ensures Inv(Step(s, Schedule))
  {
    var s' := Step(s, Schedule);
    if AtPhase(s', Running) {
      assert AtPhase(s, Running);
      RequestExtendsRun(s.history, s.spawned - 1);
    }
    assert !s.flags.running ==> AtPhase(s', AboutToRun);
    forall i: nat | i < |s'.history| && s'.history[i].Requested? ensures Served(s'.history, i) || Waiting(s', i) {
      if i < |s.history| {
        HistoryGrows(s.history, Requested, i);
      }
    }
  }

  lemma RequestExtendsRun(history: seq<Event>, g: nat)
    requires OpenRun(history, g)
    ensures OpenRun(history + [Requested], g)
  {
    var j :| 0 <= j < |history| && history[j] == RunStarted(g) && OnlyRequestsFrom(history, j + 1);
    var longer := history + [Requested];
    assert longer[j] == RunStarted(g) && OnlyRequestsFrom(longer, j + 1);
  }

  lemma StartKeeps(s: State, g: nat)
    requires Inv(s) && Enabled(s, Start(g))
    ensures Inv(Step(s, Start(g)))
  {
    var s' := Step(s, Start(g));
    var n := |s.history|;
    assert s'.history[n] == RunStarted(g) && OnlyRequestsFrom(s'.history, n + 1);
    forall i: nat | i < n ensures StartedAfter(s'.history, i) {
      assert s'.history[n].RunStarted?;
    }
  }

  lemma EndKeeps(s: State, g: nat)
    requires Inv(s) && Enabled(s, End(g))
    ensures Inv(Step(s, End(g)))
  {
    var s' := Step(s, End(g));
    assert AtPhase(s, Running) && AtPhase(s', Ran);
    forall i: nat | i < |s'.history| && s'.history[i].Requested? ensures Served(s'.history, i) || Waiting(s', i) {
      assert s.history[i] == s'.history[i];
      HistoryGrows(s.history, RunEnded(g), i);
      if StartedAfter(s.history, i) {
        EndServes(s.history, g, i);
      }
    }
  }

  /** The run that ends started after every request that a start came after. */
  lemma EndServes(history: seq<Event>, g: nat, i: nat)
    requires OpenRun(history, g) && StartedAfter(history, i)
    ensures Served(history + [RunEnded(g)], i)
  {
    var n, longer := |history|, history + [RunEnded(g)];
    var j :| 0 <= j < n && history[j] == RunStarted(g) && OnlyRequestsFrom(history, j + 1);
    var m :| i < m < n && history[m].RunStarted?;
    assert m <= j;
    assert longer[j] == RunStarted(g) && longer[n] == RunEnded(g);
  }

  lemma CheckKeeps(s: State, g: nat)
    requires Inv(s) && Enabled(s, Check(g))
    ensures Inv(Step(s, Check(g)))
  {
    var s' := Step(s, Check(g));
    assert AtPhase(s, Ran) && !AtPhase(s, AboutToRun) && !AtPhase(s, Running);
    assert s.flags.pending ==> AtPhase(s', AboutToRun);
  }

  lemma {:induction false} ExecInv(actions: seq<Action>)
    ensures Inv(Exec(INITIAL, actions))
  {
    if actions != [] {
      var n := |actions| - 1;
      ExecInv(actions[..n]);
      var s := Exec(INITIAL, actions[..n]);
      match actions[n] {
        case Schedule => ScheduleKeeps(s);
        case Start(g) => if Enabled(s, Start(g)) { StartKeeps(s, g); }
        case End(g) => if Enabled(s, End(g)) { EndKeeps(s, g); }
        case Check(g) => if Enabled(s, Check(g)) { CheckKeeps(s, g); }
      }
    }
  }

  // ---------------------------------------------------------------- main results

  /** Mutual exclusion: in no interleaving do two runs execute at the same time. */
  lemma OneRunAtATime(actions: seq<Action>, g: nat, h: nat)
    ensures var s := Exec(INITIAL, actions);
            g in s.live && s.live[g] == Running && h in s.live && s.live[h] == Running ==> g == h
  {
    ExecInv(actions);
  }

  /** No lost edit: once no goroutine is left, every request so far was followed by a complete run
      that started after it. */
  lemma NoLostEdit(actions: seq<Action>)
    ensures var s := Exec(INITIAL, actions);
            s.live == map[] ==> forall i: nat :: i < |s.history| && s.history[i].Requested? ==> Served(s.history, i)
  {
    ExecInv(actions);
  }

  /** A request is never dropped while a goroutine is live either: a later run is still owed. */
  lemma EditStillOwed(actions: seq<Action>, i: nat)
    ensures var s := Exec(INITIAL, actions);
            i < |s.history| && s.history[i].Requested? ==> Served(s.history, i) || Waiting(s, i)
  {
    ExecInv(actions);
  }

  // ---------------------------------------------------------------- coalescing

  ghost function Starts(history: seq<Event>): nat {
    if history == [] then 0
    else Starts(history[..|history| - 1]) + (if history[|history| - 1].RunStarted? then 1 else 0)
  }

  ghost function Requests(history: seq<Event>): nat {
    if history == [] then 0
    else Requests(history[..|history| - 1]) + (if history[|history| - 1].Requested? then 1 else 0)
  }

  /** The runs that will start even if nobody asks again. */
  ghost function Owed(s: State): nat {
    (if AtPhase(s, AboutToRun) then 1 else 0) + (if s.flags.pending then 1 else 0)
  }

  lemma Snoc(history: seq<Event>, e: Event)
    ensures Starts(history + [e]) == Starts(history) + (if e.RunStarted? then 1 else 0)
    ensures Requests(history + [e]) == Requests(history) + (if e.Requested? then 1 else 0)
  {
    assert (history + [e])[..|history|] == history;
  }

  lemma RequestOwes(s: State)
    requires OneWorker(s)
    ensures Owed(Step(s, Schedule)) <= Owed(s) + 1
  {
    var s' := Step(s, Schedule);
    if s.flags.running {
      assert s'.spawned == s.spawned && s'.live == s.live;
      assert AtPhase(s', AboutToRun) == AtPhase(s, AboutToRun);
    } else {
      assert !s'.flags.pending;
    }
  }

  lemma RunCost(s: State, a: Action)
    requires OneWorker(s) && Enabled(s, a) && a != Schedule
    ensures var s' := Step(s, a);
            Requests(s'.history) == Requests(s.history) && Starts(s'.history) + Owed(s') == Starts(s.history) + Owed(s)
  {
    match a {
      case Start(g) => Snoc(s.history, RunStarted(g));
      case End(g) => Snoc(s.history, RunEnded(g));
      case Check(g) =>
    }
  }

  /** One step's effect on runs started and runs owed: only a request can raise their sum, by one. */
  lemma StepCost(s: State, a: Action)
    requires Inv(s)
    ensures var s' := Step(s, a);
            Starts(s'.history) + Owed(s') <= Starts(s.history) + Owed(s) + Requests(s'.history) - Requests(s.history)
    ensures a != Schedule ==> Requests(Step(s, a).history) == Requests(s.history)
  {
    if a == Schedule {
      Snoc(s.history, Requested);
      RequestOwes(s);
    } else if Enabled(s, a) {
      RunCost(s, a);
    }
  }

  /** There are never more runs than requests. */
  lemma {:induction false} RunsAtMostRequests(actions: seq<Action>)
    ensures var s := Exec(INITIAL, actions); Starts(s.history) + Owed(s) <= Requests(s.history)
  {
    if actions != [] {
      var n := |actions| - 1;
      RunsAtMostRequests(actions[..n]);
      ExecInv(actions[..n]);
      StepCost(Exec(INITIAL, actions[..n]), actions[n]);
    }
  }

  /** Coalescing: however many requests came before, without new ones at most two more runs start. */
  lemma {:induction false} QuietRunsAtMostTwo(before: seq<Action>, quiet: seq<Action>)
    requires Schedule !in quiet
    ensures var s, t := Exec(INITIAL, before), Exec(INITIAL, before + quiet);
            Starts(t.history) + Owed(t) <= Starts(s.history) + Owed(s) && Owed(s) <= 2
    decreases |quiet|
  {
    if quiet == [] {
      assert before + quiet == before;
    } else {
      var n := |quiet| - 1;
      QuietRunsAtMostTwo(before, quiet[..n]);
      var all := before + quiet;
      assert all[..|all| - 1] == before + quiet[..n] && all[|all| - 1] == quiet[n];
      ExecInv(before + quiet[..n]);
      StepCost(Exec(INITIAL, before + quiet[..n]), quiet[n]);
    }
  }
}
