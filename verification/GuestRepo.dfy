/** Adding guests to a game.  Every addition takes the game's advisory lock, counts, and inserts only
    if there is room; players joining and leaving, guests being removed and courts changing do not
    take that lock. */
module GuestRepo {

  import opened Basics

  /** What the count found: the free places, and the comings and goings so far. */
  datatype Counted = Counted(free: nat, drift: nat, relief: nat)

  datatype Phase = Waiting | Locked | WillInsert(seen: Counted) | Inserted(seen: Counted)

  /** The committed players, guests and places; the lock; the open additions; how many additions
      succeeded and how many were turned away; how many joins and lost places there have been (drift)
      and how many leaves, removed guests and gained places (relief). */
  datatype State = State(players: nat, guests: nat, capacity: nat, lock: Option<int>, txs: map<int, Phase>,
                         added: nat, turnedAway: nat, drift: nat, relief: nat)

  datatype Action = Join | Leave | RemoveGuest | SetCapacity(capacity: nat)
                  | Start(tx: int) | Lock(tx: int) | CountPlaces(tx: int)
                  | Insert(tx: int) | Commit(tx: int) | Abort(tx: int)

  ghost function Occupancy(st: State): nat {
    st.players + st.guests
  }

  ghost predicate InPhase(st: State, tx: int, phase: Phase) {
    tx in st.txs && st.txs[tx] == phase
  }

  ghost predicate Enabled(st: State, a: Action) {
    match a
    case Join => true
    case Leave => st.players > 0
    case RemoveGuest => st.guests > 0
    case SetCapacity(_) => true
    case Start(tx) => tx !in st.txs
    case Lock(tx) => InPhase(st, tx, Waiting) && st.lock.None?
    case CountPlaces(tx) => InPhase(st, tx, Locked)
    case Insert(tx) => tx in st.txs && st.txs[tx].WillInsert?
    case Commit(tx) => tx in st.txs && st.txs[tx].Inserted?
    case Abort(tx) => tx in st.txs
  }

  ghost function End(st: State, tx: int): State {
    st.(txs := st.txs - {tx}, lock := if st.lock == Some(tx) then None else st.lock)
  }

  ghost function Apply(st: State, a: Action): State
    requires Enabled(st, a)
  {
    match a
    case Join => st.(players := st.players + 1, drift := st.drift + 1)
    case Leave => st.(players := st.players - 1, relief := st.relief + 1)
    case RemoveGuest => st.(guests := st.guests - 1, relief := st.relief + 1)
    case SetCapacity(capacity) =>
      st.(capacity := capacity,
          drift := st.drift + Max(0, st.capacity - capacity),
          relief := st.relief + Max(0, capacity - st.capacity))
    case Start(tx) => st.(txs := st.txs[tx := Waiting])
    case Lock(tx) => st.(txs := st.txs[tx := Locked], lock := Some(tx))
    case CountPlaces(tx) =>
      if Occupancy(st) >= st.capacity then End(st, tx).(turnedAway := st.turnedAway + 1)
      else st.(txs := st.txs[tx := WillInsert(Counted(st.capacity - Occupancy(st), st.drift, st.relief))])
    case Insert(tx) => st.(txs := st.txs[tx := Inserted(st.txs[tx].seen)])
    case Commit(tx) => End(st, tx).(guests := st.guests + 1, added := st.added + 1)
    case Abort(tx) => End(st, tx)
  }

  /** Actions that are not enabled have no effect, so every sequence of actions is a run. */
  ghost function Exec(st: State, actions: seq<Action>): State {
    if actions == [] then st
    else
      var mid := Exec(st, actions[..|actions| - 1]);
      if Enabled(mid, actions[|actions| - 1]) then Apply(mid, actions[|actions| - 1]) else mid
  }

  ghost predicate Initial(st: State) {
    st.lock.None? && st.txs == map[] && st.added == 0 && st.turnedAway == 0 && st.drift == 0 && st.relief == 0
  }

  /** Places in deficit: the occupancy less the capacity. */
  ghost function Deficit(st: State): int {
    Occupancy(st) - st.capacity
  }

  /** Exactly the lock holder is past waiting. */
  ghost predicate LockFits(st: State) {
    && (st.lock.Some? ==> st.lock.value in st.txs)
    && (forall t :: t in st.txs ==> (!st.txs[t].Waiting? <==> st.lock == Some(t)))
  }

  ghost predicate HasCounted(phase: Phase) {
    phase.WillInsert? || phase.Inserted?
  }

  /** Only the lock holder is past waiting, and no guest is added between its count and its commit:
      the free places it found have changed only by the comings and goings since. */
  ghost predicate Inv(st: State, base: int) {
    && LockFits(st)
    && (forall t :: t in st.txs && HasCounted(st.txs[t]) ==> FreeSince(st, st.txs[t].seen))
    && Deficit(st) == base + st.added + st.drift - st.relief
    && Deficit(st) <= Max(0, base) + st.drift
  }

  ghost predicate FreeSince(st: State, seen: Counted) {
    && seen.free >= 1 && seen.drift <= st.drift && seen.relief <= st.relief
    && -Deficit(st) == seen.free - (st.drift - seen.drift) + (st.relief - seen.relief)
  }

  /** The bookkeeping holds after every step: drift and relief record what moved the deficit. */
  lemma StepCounts(st: State, a: Action, base: int)
    requires Inv(st, base) && Enabled(st, a)
    ensures var st' := Apply(st, a);
            Deficit(st') == base + st'.added + st'.drift - st'.relief && Deficit(st') <= Max(0, base) + st'.drift
  {
    if a.Commit? {
      assert FreeSince(st, st.txs[a.tx].seen);
    }
  }

  /** What an open addition counted stays true under every step but a commit. */
  lemma StepLeavesCount(st: State, a: Action, seen: Counted)
    requires Enabled(st, a) && !a.Commit? && FreeSince(st, seen)
    ensures FreeSince(Apply(st, a), seen)
  {
  }

  lemma StepKeepsCounts(st: State, a: Action, base: int, t: int)
    requires Inv(st, base) && Enabled(st, a) && t in Apply(st, a).txs
    ensures HasCounted(Apply(st, a).txs[t]) ==> FreeSince(Apply(st, a), Apply(st, a).txs[t].seen)
  {
    if t in st.txs && HasCounted(st.txs[t]) && HasCounted(Apply(st, a).txs[t]) && !a.Commit? {
      StepLeavesCount(st, a, st.txs[t].seen);
    }
  }

  lemma StepKeepsLock(st: State, a: Action, base: int)
    requires Inv(st, base) && Enabled(st, a)
    ensures LockFits(Apply(st, a))
  {
  }

  lemma StepKeeps(st: State, a: Action, base: int)
    requires Inv(st, base) && Enabled(st, a)
    ensures Inv(Apply(st, a), base)
  {
    var st' := Apply(st, a);
    StepKeepsLock(st, a, base);
    StepCounts(st, a, base);
    forall t | t in st'.txs && HasCounted(st'.txs[t]) ensures FreeSince(st', st'.txs[t].seen) {
      StepKeepsCounts(st, a, base, t);
    }
  }

  lemma {:induction false} InvHolds(st: State, actions: seq<Action>)
    requires Initial(st)
    ensures Inv(Exec(st, actions), Deficit(st))
  {
    if actions != [] {
      var front, last := actions[..|actions| - 1], actions[|actions| - 1];
      InvHolds(st, front);
      if Enabled(Exec(st, front), last) {
        StepKeeps(Exec(st, front), last, Deficit(st));
      }
    }
  }

  /** Over any interleaving, a game goes over its capacity by no more than the joins and lost places
      account for; without those, guests never fill it past capacity. */
  lemma {:induction false} GuestsNeverOverfill(st: State, actions: seq<Action>)
    requires Initial(st)
    ensures var end := Exec(st, actions);
            && Deficit(end) <= Max(0, Deficit(st)) + end.drift
            && (Deficit(st) <= 0 && end.drift == 0 ==> Occupancy(end) <= end.capacity)
  {
    InvHolds(st, actions);
  }

  /** Every successful addition is one guest more: none is lost and none is counted twice. */
  lemma {:induction false} AdditionsConserved(st: State, actions: seq<Action>)
    requires Initial(st)
    ensures var end := Exec(st, actions); Deficit(end) == Deficit(st) + end.added + end.drift - end.relief
  {
    InvHolds(st, actions);
  }

  /** The one gap: players join and courts go without the lock.  A commit overfills the game exactly
      when, since the count, these took all the free places it found and what was gained besides. */
  lemma CommitOverfillsIff(st: State, actions: seq<Action>, tx: int)
    requires Initial(st) && Enabled(Exec(st, actions), Commit(tx))
    ensures var mid := Exec(st, actions); var seen := mid.txs[tx].seen;
            Deficit(Apply(mid, Commit(tx))) > 0 <==> mid.drift - seen.drift >= seen.free + (mid.relief - seen.relief)
  {
    InvHolds(st, actions);
  }

  lemma ExecNext(st: State, actions: seq<Action>, mid: State, a: Action)
    requires Exec(st, actions) == mid && Enabled(mid, a)
    ensures Exec(st, actions + [a]) == Apply(mid, a)
  {
    assert (actions + [a])[..|actions|] == actions;
  }

  /** Such a run: one place left, a player joins between the count and the commit. */
  lemma JoinBesideAdditionOverfills(st: State) returns (actions: seq<Action>)
    requires Initial(st) && Deficit(st) == -1
    ensures Deficit(Exec(st, actions)) == 1
  {
    var s1 := Apply(st, Start(0));
    var s2 := Apply(s1, Lock(0));
    assert s2.txs[0] == Locked;
    var s3 := Apply(s2, CountPlaces(0));
    assert s3.txs[0] == WillInsert(Counted(1, 0, 0));
    var s4 := Apply(s3, Join);
    var s5 := Apply(s4, Insert(0));
    ExecNext(st, [], st, Start(0));
    actions := [Start(0)];
    ExecNext(st, actions, s1, Lock(0));
    actions := actions + [Lock(0)];
    ExecNext(st, actions, s2, CountPlaces(0));
    actions := actions + [CountPlaces(0)];
    ExecNext(st, actions, s3, Join);
    actions := actions + [Join];
    ExecNext(st, actions, s4, Insert(0));
    actions := actions + [Insert(0)];
    ExecNext(st, actions, s5, Commit(0));
    actions := actions + [Commit(0)];
  }

  /** In every state a run reaches, an addition is turned away if and only if it counts the places of a full game,
      and otherwise goes on to insert its guest. */
  lemma TurnedAwayIffFull(st: State, actions: seq<Action>, a: Action)
    requires Initial(st) && Enabled(Exec(st, actions), a)
    ensures var mid := Exec(st, actions); var next := Apply(mid, a);
            && (next.turnedAway > mid.turnedAway <==> a.CountPlaces? && mid.players + mid.guests >= mid.capacity)
            && (next.guests > mid.guests <==> a.Commit?) && (next.added > mid.added <==> a.Commit?)
            && (a.CountPlaces? && mid.players + mid.guests < mid.capacity ==>
                  next.lock == Some(a.tx) && Enabled(next, Insert(a.tx)))
  {
    InvHolds(st, actions);
  }

  /** Additions never block each other for good: an open one can always take its next step. */
  lemma SomeAdditionMoves(st: State, actions: seq<Action>, open: int) returns (next: Action)
    requires Initial(st) && open in Exec(st, actions).txs
    ensures Enabled(Exec(st, actions), next) && (next.Lock? || next.CountPlaces? || next.Insert? || next.Commit?)
  {
    InvHolds(st, actions);
    var mid := Exec(st, actions);
    var tx := if mid.lock.Some? then mid.lock.value else open;
    next := match mid.txs[tx] {
      case Waiting => Lock(tx)
      case Locked => CountPlaces(tx)
      case WillInsert(_) => Insert(tx)
      case Inserted(_) => Commit(tx)
    };
  }
}
