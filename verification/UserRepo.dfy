/** Server owners.  Grants are single statements; a revocation takes an advisory lock, checks that the
    user is an owner and not the last one, updates, and commits.  Statements of different calls
    interleave freely; each sees only committed rows. */
module ServerOwners {

  import opened Basics

  datatype Phase = Waiting | Holding | Checked | Counted | Updated

  datatype Revocation = Revocation(target: int, phase: Phase)

  datatype Outcome = Revoked | NoRows | LastServerOwner

  datatype State = State(users: set<int>, owners: set<int>, lock: Option<int>, txs: map<int, Revocation>,
        outcomes: map<int, Outcome>)

  datatype Action = AddUser(user: int) | Grant(user: int) | Start(tx: int, target: int) | Acquire(tx: int)
                  | Check(tx: int)
                  | CountOwners(tx: int) | Update(tx: int) | Commit(tx: int) | Abort(tx: int)

  // ---------------------------------------------------------------- one call at a time

  class UserRepo {
    var users: set<int>
    var owners: set<int>

    constructor ()
      ensures users == {} && owners == {}
    {
      users, owners := {}, {};
    }

    /** Without interference: grants always work on known users; a revocation works on every owner
        but the last. */
    method SetServerOwner(userID: int, enabled: bool) returns (outcome: Option<Outcome>)
      modifies this`owners
      ensures enabled ==> owners == old(owners) + (if userID in users then {userID} else {})
      ensures enabled ==> outcome == if userID in users then None else Some(NoRows)
      ensures !enabled ==> owners == if userID in users && old(owners) != {userID} then old(owners) - {userID}
          else old(owners)
      ensures !enabled ==> outcome == Some(if !(userID in users && userID in old(owners)) then NoRows
                                           else if old(owners) == {userID} then LastServerOwner else Revoked)
    {
      if enabled {
        if userID !in users {
          return Some(NoRows);
        }
        owners := owners + {userID};
        return None;
      }
      if userID !in users || userID !in owners {
        return Some(NoRows);
      }
      var ownerCount := |owners|;
      OnlyMember(owners, userID);
      if ownerCount <= 1 {
        return Some(LastServerOwner);
      }
      owners := owners - {userID};
      outcome := Some(Revoked);
    }
  }

  ghost predicate OthersThan(s: set<int>, x: int) {
    exists other :: other in s && other != x
  }

  lemma OnlyMember(s: set<int>, x: int)
    requires x in s
    ensures |s| <= 1 <==> s == {x}
    ensures s == {x} <==> !OthersThan(s, x)
  {
    assert |s - {x}| == |s| - 1;
    if !OthersThan(s, x) {
      forall y ensures y in s <==> y in {x} {
      }
      assert s == {x};
    }
    if |s| <= 1 {
      assert s - {x} == {};
      assert s == {x};
    }
  }

  // ---------------------------------------------------------------- interleaved calls

  /** A revocation that has written its row keeps the row locked until it ends. */
  ghost predicate RowLocked(st: State, user: int) {
    exists t :: t in st.txs && st.txs[t].phase == Updated && st.txs[t].target == user
  }

  ghost predicate InPhase(st: State, tx: int, phase: Phase) {
    tx in st.txs && st.txs[tx].phase == phase
  }

  ghost predicate Enabled(st: State, a: Action) {
    match a
    case AddUser(_) => true
    case Grant(user) => user in st.users && !RowLocked(st, user)
    case Start(tx, _) => tx !in st.txs && tx !in st.outcomes
    case Acquire(tx) => InPhase(st, tx, Waiting) && st.lock.None?
    case Check(tx) => InPhase(st, tx, Holding)
    case CountOwners(tx) => InPhase(st, tx, Checked)
    case Update(tx) => InPhase(st, tx, Counted)
    case Commit(tx) => InPhase(st, tx, Updated)
    case Abort(tx) => tx in st.txs
  }

  ghost function Goto(st: State, tx: int, phase: Phase): State
    requires tx in st.txs
  {
    st.(txs := st.txs[tx := Revocation(st.txs[tx].target, phase)])
  }

  /** The transaction ends: its lock, if it has it, is released. */
  ghost function End(st: State, tx: int): State
    requires tx in st.txs
  {
    st.(txs := st.txs - {tx}, lock := if st.lock == Some(tx) then None else st.lock)
  }

  ghost function Finish(st: State, tx: int, outcome: Outcome): State
    requires tx in st.txs
  {
    End(st, tx).(outcomes := st.outcomes[tx := outcome])
  }

  ghost function Apply(st: State, a: Action): State
    requires Enabled(st, a)
  {
    match a
    case AddUser(user) => st.(users := st.users + {user})
    case Grant(user) => st.(owners := st.owners + {user})
    case Start(tx, target) => st.(txs := st.txs[tx := Revocation(target, Waiting)])
    case Acquire(tx) => Goto(st, tx, Holding).(lock := Some(tx))
    case Check(tx) =>
      if st.txs[tx].target in st.users && st.txs[tx].target in st.owners then Goto(st, tx, Checked)
      else Finish(st, tx, NoRows)
    case CountOwners(tx) => if |st.owners| <= 1 then Finish(st, tx, LastServerOwner) else Goto(st, tx, Counted)
    case Update(tx) => Goto(st, tx, Updated)
    case Commit(tx) => Finish(st, tx, Revoked).(owners := st.owners - {st.txs[tx].target})
    case Abort(tx) => End(st, tx)
  }

  /** Actions that are not enabled have no effect, so every sequence of actions is a run. */
  ghost function Exec(st: State, actions: seq<Action>): State {
    if actions == [] then st
    else
      var mid := Exec(st, actions[..|actions| - 1]);
      if Enabled(mid, actions[|actions| - 1]) then Apply(mid, actions[|actions| - 1]) else mid
  }

  ghost predicate Initial(st: State) {
    st.owners <= st.users && st.lock.None? && st.txs == map[] && st.outcomes == map[]
  }

  ghost predicate Inv(st: State) {
    && st.owners <= st.users && st.txs.Keys !! st.outcomes.Keys
    && (st.lock.Some? ==> st.lock.value in st.txs)
    && (forall t :: t in st.txs ==> (st.txs[t].phase != Waiting <==> st.lock == Some(t)))
    && (forall t :: t in st.txs && st.txs[t].phase in {Checked, Counted, Updated} ==> st.txs[t].target in st.owners)
    && (forall t :: t in st.txs && st.txs[t].phase in {Counted, Updated} ==> OthersThan(st.owners, st.txs[t].target))
  }

  lemma GrowthKeeps(st: State, user: int)
    requires Inv(st) && user in st.users
    ensures Inv(st.(owners := st.owners + {user}))
  {
    forall t | t in st.txs && OthersThan(st.owners, st.txs[t].target)
      ensures OthersThan(st.owners + {user}, st.txs[t].target)
    {
      var other :| other in st.owners && other != st.txs[t].target;
      assert other in st.owners + {user};
    }
  }

  lemma CommitKeeps(st: State, tx: int)
    requires Inv(st) && InPhase(st, tx, Updated)
    ensures Inv(Apply(st, Commit(tx))) && Apply(st, Commit(tx)).owners != {}
  {
    var other :| other in st.owners && other != st.txs[tx].target;
    assert other in st.owners - {st.txs[tx].target};
  }

  lemma StepKeeps(st: State, a: Action)
    requires Inv(st) && Enabled(st, a)
    ensures Inv(Apply(st, a))
    ensures st.owners != {} ==> Apply(st, a).owners != {}
  {
    match a {
      case CountOwners(tx) => OnlyMember(st.owners, st.txs[tx].target);
      case Grant(user) => GrowthKeeps(st, user);
      case Commit(tx) => CommitKeeps(st, tx);
      case _ =>
    }
  }

  lemma {:induction false} InvHolds(st: State, actions: seq<Action>)
    requires Inv(st)
    ensures Inv(Exec(st, actions))
  {
    if actions != [] {
      var front, last := actions[..|actions| - 1], actions[|actions| - 1];
      InvHolds(st, front);
      if Enabled(Exec(st, front), last) {
        StepKeeps(Exec(st, front), last);
      }
    }
  }

  /** Under any interleaving of grants and revocations, once there is an owner there always is one. */
  lemma {:induction false} OwnersNeverVanish(st: State, actions: seq<Action>)
    requires Inv(st) && st.owners != {}
    ensures Exec(st, actions).owners != {}
  {
    if actions != [] {
      var front, last := actions[..|actions| - 1], actions[|actions| - 1];
      OwnersNeverVanish(st, front);
      InvHolds(st, front);
      if Enabled(Exec(st, front), last) {
        StepKeeps(Exec(st, front), last);
      }
    }
  }

  /** In every state a run reaches, grants make owners and committed revocations unmake them, and nothing else
      does either: a revocation that is over was carried out, or its target was no owner, or was the only one. */
  lemma OwnersChangeOnlySo(st: State, actions: seq<Action>, a: Action, user: int)
    requires Initial(st) && Enabled(Exec(st, actions), a)
    ensures var mid := Exec(st, actions); var next := Apply(mid, a);
            && (user !in mid.owners && user in next.owners <==> user !in mid.owners && a == Grant(user))
            && (user in mid.owners && user !in next.owners <==> a.Commit? && mid.txs[a.tx].target == user)
            && forall tx :: tx in next.outcomes && tx !in mid.outcomes ==>
                 && tx in mid.txs && tx !in next.txs
                 && match next.outcomes[tx]
                    case Revoked => a == Commit(tx)
                    case NoRows => a == Check(tx) && mid.txs[tx].target !in mid.owners
                    case LastServerOwner => a == CountOwners(tx) && mid.owners == {mid.txs[tx].target}
  {
    InvHolds(st, actions);
    var mid := Exec(st, actions);
    if a.CountOwners? {
      OnlyMember(mid.owners, mid.txs[a.tx].target);
    }
  }

  /** A revocation is refused for want of another owner only while its target is the one owner. */
  lemma RefusedOnlyForSoleOwner(st: State, actions: seq<Action>, tx: int)
    requires Initial(st) && Enabled(Exec(st, actions), CountOwners(tx))
    ensures var mid := Exec(st, actions);
            tx in Apply(mid, CountOwners(tx)).outcomes <==> mid.owners == {mid.txs[tx].target}
  {
    InvHolds(st, actions);
    var mid := Exec(st, actions);
    OnlyMember(mid.owners, mid.txs[tx].target);
  }

  /** Nothing waits for ever: while revocations are open one of them can take its next step. */
  lemma SomeRevocationMoves(st: State, actions: seq<Action>, open: int) returns (next: Action)
    requires Initial(st) && open in Exec(st, actions).txs
    ensures Enabled(Exec(st, actions), next)
        && (next.Acquire? || next.Check? || next.CountOwners? || next.Update? || next.Commit?)
  {
    InvHolds(st, actions);
    var mid := Exec(st, actions);
    var tx := if mid.lock.Some? then mid.lock.value else open;
    next := match mid.txs[tx].phase {
      case Waiting => Acquire(tx)
      case Holding => Check(tx)
      case Checked => CountOwners(tx)
      case Counted => Update(tx)
      case Updated => Commit(tx)
    };
  }
}

/** Identities.  The first time an identity turns up, a user and the identity row that points to it are
    inserted in one transaction.  Concurrent first appearances meet at the unique constraint on the
    identity: the later insert waits for the earlier transaction and fails if that one commits, and
    its caller starts over. */
module Identities {

  import opened Basics

  const MAX_ATTEMPTS := 3

  /** Provider and external id. */
  datatype Key = Key(provider: string, externalId: string)

  datatype Phase = Looking | Creating | UserInserted(user: nat) | RowInserted(user: nat) | Existing(user: nat)
                 | Done(user: nat) | Failed | Exhausted

  datatype Caller = Caller(key: Key, attempt: nat, phase: Phase)

  /** Committed users and identities, the next value of the user id sequence, and the callers. */
  datatype State = State(users: set<nat>, identities: map<Key, nat>, nextId: nat, callers: map<int, Caller>)

  datatype Action = Call(c: int, key: Key) | Look(c: int) | InsertUser(c: int) | InsertIdentity(c: int)
                  | Commit(c: int) | Fail(c: int)

  ghost predicate InPhase(st: State, c: int, phase: Phase) {
    c in st.callers && st.callers[c].phase == phase
  }

  /** Another transaction has inserted the identity and not ended yet. */
  ghost predicate KeyHeld(st: State, key: Key, c: int) {
    exists d :: d in st.callers && d != c && HoldsKey(st.callers[d], key)
  }

  ghost predicate Enabled(st: State, a: Action) {
    match a
    case Call(c, _) => c !in st.callers
    case Look(c) => InPhase(st, c, Looking)
    case InsertUser(c) => InPhase(st, c, Creating)
    case InsertIdentity(c) => c in st.callers && st.callers[c].phase.UserInserted? && !KeyHeld(st, st.callers[c].key, c)
    case Commit(c) => c in st.callers && (st.callers[c].phase.RowInserted? || st.callers[c].phase.Existing?)
    case Fail(c) => c in st.callers && !(st.callers[c].phase.Done? || st.callers[c].phase.Exhausted?)
  }

  ghost function Goto(st: State, c: int, phase: Phase): State
    requires c in st.callers
  {
    st.(callers := st.callers[c := st.callers[c].(phase := phase)])
  }

  /** The identity was there after all: roll back, which undoes the user, and start over. */
  ghost function Retry(st: State, c: int): State
    requires c in st.callers
  {
    var caller := st.callers[c];
    st.(callers := st.callers[c := caller.(attempt := caller.attempt + 1,
          phase := if caller.attempt + 1 < MAX_ATTEMPTS then Looking else Exhausted)])
  }

  ghost function Apply(st: State, a: Action): State
    requires Enabled(st, a)
  {
    match a
    case Call(c, key) => st.(callers := st.callers[c := Caller(key, 0, Looking)])
    case Look(c) =>
      var key := st.callers[c].key;
      Goto(st, c, if key in st.identities then Existing(st.identities[key]) else Creating)
    case InsertUser(c) => Goto(st, c, UserInserted(st.nextId)).(nextId := st.nextId + 1)
    case InsertIdentity(c) =>
      if st.callers[c].key in st.identities then Retry(st, c) else Goto(st, c, RowInserted(st.callers[c].phase.user))
    case Commit(c) =>
      var caller := st.callers[c];
      if caller.phase.Existing? then Goto(st, c, Done(caller.phase.user))
      else Goto(st, c, Done(caller.phase.user)).(users := st.users + {caller.phase.user},
            identities := st.identities[caller.key := caller.phase.user])
    case Fail(c) => Goto(st, c, Failed)
  }

  ghost function Exec(st: State, actions: seq<Action>): State {
    if actions == [] then st
    else
      var mid := Exec(st, actions[..|actions| - 1]);
      if Enabled(mid, actions[|actions| - 1]) then Apply(mid, actions[|actions| - 1]) else mid
  }

  /** No user without an identity, no two identities for one user, ids not yet handed out unused. */
  ghost predicate Consistent(st: State) {
    && (forall u :: u in st.users <==> exists key :: key in st.identities && st.identities[key] == u)
    && (forall k, l :: k in st.identities && l in st.identities && st.identities[k] == st.identities[l] ==> k == l)
    && (forall k :: k in st.identities ==> st.identities[k] < st.nextId)
  }

  ghost predicate EachSound(st: State) {
    forall c :: c in st.callers ==> CallerSound(st, st.callers[c])
  }

  /** Two callers have inserted different users, and identity rows for different identities. */
  ghost predicate Apart(a: Caller, b: Caller) {
    && (HasFreshUser(a) && HasFreshUser(b) ==> a.phase.user != b.phase.user)
    && (a.phase.RowInserted? && b.phase.RowInserted? ==> a.key != b.key)
  }

  ghost predicate CallersApart(callers: map<int, Caller>) {
    forall c, d :: c in callers && d in callers && c != d ==> Apart(callers[c], callers[d])
  }

  ghost predicate HoldsKey(caller: Caller, key: Key) {
    caller.phase.RowInserted? && caller.key == key
  }

  ghost predicate HasFreshUser(caller: Caller) {
    caller.phase.UserInserted? || caller.phase.RowInserted?
  }

  ghost predicate CallerSound(st: State, caller: Caller) {
    var known := caller.key in st.identities;
    && (caller.attempt > 0 ==> known)
    && caller.attempt <= 1
    && (caller.phase in {Creating} || HasFreshUser(caller) ==> caller.attempt == 0)
    && (HasFreshUser(caller) ==>
          caller.phase.user < st.nextId && forall k :: k in st.identities ==> st.identities[k] != caller.phase.user)
    && (caller.phase.RowInserted? ==> !known)
    && (caller.phase.Existing? || caller.phase.Done? ==> known && st.identities[caller.key] == caller.phase.user)
    && !caller.phase.Exhausted?
  }

  ghost predicate Inv(st: State) {
    Consistent(st) && EachSound(st) && CallersApart(st.callers)
  }

  ghost predicate Initial(st: State) {
    Consistent(st) && st.callers == map[]
  }

  // ---------------------------------------------------------------- every step keeps the invariant

  lemma SoundLater(st: State, caller: Caller, nextId: nat)
    requires CallerSound(st, caller) && st.nextId <= nextId
    ensures CallerSound(st.(nextId := nextId), caller)
  {
  }

  /** A caller that keeps its user, or takes the next id, stays apart from a sound one. */
  lemma MovedApart(st: State, c: int, next: Caller, d: int)
    requires EachSound(st) && CallersApart(st.callers) && d in st.callers && d != c
    requires HasFreshUser(next) ==> KeepsUser(st, c, next) || next.phase.user == st.nextId
    requires next.phase.RowInserted? ==> !KeyHeld(st, next.key, c)
    ensures Apart(next, st.callers[d]) && Apart(st.callers[d], next)
  {
    assert CallerSound(st, st.callers[d]);
    if c in st.callers {
      assert Apart(st.callers[c], st.callers[d]);
    }
    assert next.phase.RowInserted? ==> !HoldsKey(st.callers[d], next.key);
  }

  ghost predicate KeepsUser(st: State, c: int, next: Caller)
    requires HasFreshUser(next)
  {
    c in st.callers && HasFreshUser(st.callers[c]) && st.callers[c].phase.user == next.phase.user
  }

  lemma MoveKeepsApart(st: State, c: int, next: Caller)
    requires EachSound(st) && CallersApart(st.callers)
    requires HasFreshUser(next) ==> KeepsUser(st, c, next) || next.phase.user == st.nextId
    requires next.phase.RowInserted? ==> !KeyHeld(st, next.key, c)
    ensures CallersApart(st.callers[c := next])
  {
    var after := st.callers[c := next];
    forall d, e | d in after && e in after && d != e ensures Apart(after[d], after[e]) {
      if d == c {
        MovedApart(st, c, next, e);
      } else if e == c {
        MovedApart(st, c, next, d);
      }
    }
  }

  /** A step that changes nothing committed and moves one caller to a sound place. */
  lemma CallerMoves(st: State, c: int, next: Caller, nextId: nat)
    requires Inv(st) && st.nextId <= nextId
    requires CallerSound(st.(nextId := nextId), next)
    requires HasFreshUser(next) ==> KeepsUser(st, c, next) || next.phase.user == st.nextId
    requires next.phase.RowInserted? ==> !KeyHeld(st, next.key, c)
    ensures Inv(st.(callers := st.callers[c := next], nextId := nextId))
  {
    var st' := st.(callers := st.callers[c := next], nextId := nextId);
    MoveKeepsApart(st, c, next);
    forall d | d in st'.callers ensures CallerSound(st', st'.callers[d]) {
      if d != c {
        assert CallerSound(st, st.callers[d]);
        SoundLater(st, st.callers[d], nextId);
      }
    }
  }

  lemma CommitKeepsConsistent(st: State, c: int)
    requires Inv(st) && c in st.callers && st.callers[c].phase.RowInserted?
    ensures Consistent(Apply(st, Commit(c)))
  {
    var key, user := st.callers[c].key, st.callers[c].phase.user;
    var st' := Apply(st, Commit(c));
    assert CallerSound(st, st.callers[c]);
    assert st'.identities[key] == user;
    forall u ensures u in st'.users <==> exists k :: k in st'.identities && st'.identities[k] == u {
      if u in st.users {
        var k :| k in st.identities && st.identities[k] == u;
        assert k in st'.identities && st'.identities[k] == u;
      }
    }
  }

  lemma CommitLeavesOthersSound(st: State, c: int, d: int)
    requires Inv(st) && c in st.callers && st.callers[c].phase.RowInserted? && d in st.callers && d != c
    ensures CallerSound(Apply(st, Commit(c)), st.callers[d])
  {
    assert CallerSound(st, st.callers[c]) && CallerSound(st, st.callers[d]);
    assert Apart(st.callers[c], st.callers[d]);
  }

  lemma CommitKeeps(st: State, c: int)
    requires Inv(st) && c in st.callers && st.callers[c].phase.RowInserted?
    ensures Inv(Apply(st, Commit(c)))
  {
    var st' := Apply(st, Commit(c));
    assert CallerSound(st, st.callers[c]);
    CommitKeepsConsistent(st, c);
    MoveKeepsApart(st, c, st'.callers[c]);
    forall d | d in st'.callers ensures CallerSound(st', st'.callers[d]) {
      if d != c {
        CommitLeavesOthersSound(st, c, d);
      }
    }
  }

  lemma InsertIdentityKeeps(st: State, c: int)
    requires Inv(st) && Enabled(st, InsertIdentity(c))
    ensures Inv(Apply(st, InsertIdentity(c)))
  {
    assert CallerSound(st, st.callers[c]);
    CallerMoves(st, c, Apply(st, InsertIdentity(c)).callers[c], st.nextId);
  }

  lemma LookKeeps(st: State, c: int)
    requires Inv(st) && Enabled(st, Look(c))
    ensures Inv(Apply(st, Look(c)))
  {
    assert CallerSound(st, st.callers[c]);
    CallerMoves(st, c, Apply(st, Look(c)).callers[c], st.nextId);
  }

  lemma InsertUserKeeps(st: State, c: int)
    requires Inv(st) && Enabled(st, InsertUser(c))
    ensures Inv(Apply(st, InsertUser(c)))
  {
    assert CallerSound(st, st.callers[c]);
    CallerMoves(st, c, Apply(st, InsertUser(c)).callers[c], st.nextId + 1);
  }

  /** A call that starts, fails, or returns what it found. */
  lemma CallerStepKeeps(st: State, c: int, next: Caller)
    requires Inv(st) && (next.phase.Looking? || next.phase.Failed? || next.phase.Done?) && CallerSound(st, next)
    ensures Inv(st.(callers := st.callers[c := next]))
  {
    assert st.(nextId := st.nextId) == st;
    CallerMoves(st, c, next, st.nextId);
  }

  lemma StepKeeps(st: State, a: Action)
    requires Inv(st) && Enabled(st, a)
    ensures Inv(Apply(st, a))
  {
    match a {
      case Call(c, key) => CallerStepKeeps(st, c, Caller(key, 0, Looking));
      case Look(c) => LookKeeps(st, c);
      case InsertUser(c) => InsertUserKeeps(st, c);
      case InsertIdentity(c) => InsertIdentityKeeps(st, c);
      case Commit(c) =>
        assert CallerSound(st, st.callers[c]);
        if st.callers[c].phase.RowInserted? {
          CommitKeeps(st, c);
        } else {
          CallerStepKeeps(st, c, st.callers[c].(phase := Done(st.callers[c].phase.user)));
        }
      case Fail(c) =>
        assert CallerSound(st, st.callers[c]);
        CallerStepKeeps(st, c, st.callers[c].(phase := Failed));
    }
  }

  lemma {:induction false} InvHolds(st: State, actions: seq<Action>)
    requires Initial(st)
    ensures Inv(Exec(st, actions))
  {
    if actions != [] {
      var front, last := actions[..|actions| - 1], actions[|actions| - 1];
      InvHolds(st, front);
      if Enabled(Exec(st, front), last) {
        StepKeeps(Exec(st, front), last);
      }
    }
  }

  // ---------------------------------------------------------------- main results

  /** Under any interleaving of first appearances: every committed user belongs to exactly one
      identity and every identity to one user, and no call ever runs out of attempts. */
  lemma {:induction false} OneUserPerIdentity(st: State, actions: seq<Action>)
    requires Initial(st)
    ensures Consistent(Exec(st, actions))
    ensures var end := Exec(st, actions);
            forall c :: c in end.callers ==> !end.callers[c].phase.Exhausted? && end.callers[c].attempt <= 1
  {
    InvHolds(st, actions);
    var end := Exec(st, actions);
    forall c | c in end.callers ensures !end.callers[c].phase.Exhausted? && end.callers[c].attempt <= 1 {
      assert CallerSound(end, end.callers[c]);
    }
  }

  /** All calls that finish for one identity agree on its user. */
  lemma CallsAgree(st: State, actions: seq<Action>, c: int, d: int)
    requires Initial(st)
    requires var end := Exec(st, actions);
             c in end.callers && d in end.callers && end.callers[c].phase.Done? && end.callers[d].phase.Done?
             && end.callers[c].key == end.callers[d].key
    ensures var end := Exec(st, actions);
            end.callers[c].phase.user == end.callers[d].phase.user && end.callers[c].phase.user in end.users
  {
    InvHolds(st, actions);
    var end := Exec(st, actions);
    assert CallerSound(end, end.callers[c]) && CallerSound(end, end.callers[d]);
  }

  /** No call waits for ever: while one is open, it or the call that holds its identity can take its next step,
      without having to fail. */
  lemma SomeCallMoves(st: State, actions: seq<Action>, open: int) returns (next: Action)
    requires Initial(st)
    requires var end := Exec(st, actions);
             open in end.callers && !end.callers[open].phase.Done? && !end.callers[open].phase.Failed?
    ensures Enabled(Exec(st, actions), next)
        && (next.Look? || next.InsertUser? || next.InsertIdentity? || next.Commit?)
  {
    InvHolds(st, actions);
    var end := Exec(st, actions);
    var caller := end.callers[open];
    assert CallerSound(end, caller);
    match caller.phase {
      case Looking => next := Look(open);
      case Creating => next := InsertUser(open);
      case UserInserted(_) =>
        if KeyHeld(end, caller.key, open) {
          var holder :| holder in end.callers && holder != open && HoldsKey(end.callers[holder], caller.key);
          next := Commit(holder);
        } else {
          next := InsertIdentity(open);
        }
      case RowInserted(_) => next := Commit(open);
      case Existing(_) => next := Commit(open);
    }
  }

  /** A commit ends its call with the user the identity has from then on: a new one if the identity was new, and
      the one it had otherwise. */
  lemma CommitReturnsUser(st: State, actions: seq<Action>, c: int)
    requires Initial(st) && Enabled(Exec(st, actions), Commit(c))
    ensures var mid := Exec(st, actions); var end := Apply(mid, Commit(c));
            var key := mid.callers[c].key;
            && key in end.identities && end.callers[c].phase == Done(end.identities[key])
            && (if key in mid.identities then end.users == mid.users && end.identities == mid.identities
                else end.identities[key] !in mid.users && end.users == mid.users + {end.identities[key]})
  {
    InvHolds(st, actions);
    var mid := Exec(st, actions);
    assert CallerSound(mid, mid.callers[c]);
  }

  /** An identity, once committed, keeps its user. */
  lemma {:induction false} IdentitiesStay(st: State, actions: seq<Action>, more: seq<Action>, key: Key)
    requires Initial(st) && key in Exec(st, actions).identities
    ensures var end := Exec(st, actions + more);
            key in end.identities && end.identities[key] == Exec(st, actions).identities[key]
  {
    if more == [] {
      assert actions + more == actions;
    } else {
      var front, last := more[..|more| - 1], more[|more| - 1];
      IdentitiesStay(st, actions, front, key);
      assert (actions + more)[..|actions + more| - 1] == actions + front;
      InvHolds(st, actions + front);
      var mid := Exec(st, actions + front);
      if Enabled(mid, last) && last.Commit? {
        assert CallerSound(mid, mid.callers[last.c]);
      }
    }
  }

  /** A caller that lost the race finds the winner's identity at its next look. */
  lemma {:induction false} LoserFindsWinner(st: State, actions: seq<Action>, c: int)
    requires Initial(st)
    requires var mid := Exec(st, actions); InPhase(mid, c, Looking) && mid.callers[c].attempt > 0
    ensures var mid := Exec(st, actions); var key := mid.callers[c].key;
            key in mid.identities && Apply(mid, Look(c)).callers[c].phase == Existing(mid.identities[key])
  {
    InvHolds(st, actions);
    assert CallerSound(Exec(st, actions), Exec(st, actions).callers[c]);
  }
}
