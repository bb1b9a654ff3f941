/** Concurrent decisions about submitted game results.

    Approvals (by the opponent) and auto-approvals (by the scheduler) run as database transactions:
    flip the result row if it is still pending, lock the rating row of the lower player, then that
    of the higher player, update both ratings, commit.  Rejections and cancellations are single
    guarded statements.  Every transaction may stop and roll back at any point.

    The database is modelled at read-committed level: a statement sees committed data, row locks are
    exclusive and held to the end of the transaction, and an insert that meets an uncommitted row
    with the same key waits for it. */
module ResultDecisions {
  import opened Basics
  import opened Ratings

  // ---------------------------------------------------------------- state

  datatype Actor = Player(id: int) | Scheduler

  datatype Status = Approved | AutoApproved | Rejected | Canceled

  datatype Decision = Decision(status: Status, actor: Actor)

  datatype Row = ResultRow(id: int) | RatingRow(key: Key)

  datatype Phase = Deciding | SelectLow | InsertLow | ReselectLow | SelectHigh | InsertHigh | ReselectHigh | Ready

  /** An approving transaction: the result as loaded, where the transaction stands, and the two
      rating rows it has read so far. */
  datatype Tx = Tx(resultId: int, result: GameResult, decision: Decision, weight: real, phase: Phase,
        low: PlayerRating, high: PlayerRating)

  /** Committed data, running transactions, row locks, and the history of committed approvals.
      A result without an entry in `decisions` is pending. */
  datatype State = State(results: map<int, GameResult>, decisions: map<int, Decision>, ratings: Table,
        ledger: seq<RatingChange>, txs: map<int, Tx>, locks: map<Row, int>, log: seq<Commit>)

  datatype Action =
    | Submit(id: int, result: GameResult)
    | Begin(t: int, resultId: int, decision: Decision, weight: real)
    | Advance(t: int)
    | CommitTx(t: int)
    | Abort(t: int)
    | Settle(resultId: int, decision: Decision)

  const INITIAL := State(map[], map[], map[], [], map[], map[], [])

  // ---------------------------------------------------------------- steps

  /** Who may take which decision. */
  predicate Permitted(res: GameResult, d: Decision) {
    match d.status
    case Approved => d.actor == Player(res.opponent)
    case Rejected => d.actor == Player(res.opponent)
    case Canceled => d.actor == Player(res.author)
    case AutoApproved => d.actor == Scheduler
  }

  predicate Approving(d: Decision) {
    d.status.Approved? || d.status.AutoApproved?
  }

  /** The rating row the transaction deals with in its current phase. */
  function PhaseKey(res: GameResult, phase: Phase): Key {
    if phase.SelectLow? || phase.InsertLow? || phase.ReselectLow? then LowKey(res) else HighKey(res)
  }

  /** The row lock the next statement needs, if any.  A plain select of a missing row locks nothing,
      and neither does an insert that meets a committed row. */
  function Wants(s: State, tx: Tx): Option<Row> {
    var key := PhaseKey(tx.result, tx.phase);
    match tx.phase
    case Deciding => if tx.resultId in s.decisions then None else Some(ResultRow(tx.resultId))
    case SelectLow | SelectHigh => if key in s.ratings then Some(RatingRow(key)) else None
    case InsertLow | InsertHigh => if key in s.ratings then None else Some(RatingRow(key))
    case ReselectLow | ReselectHigh => Some(RatingRow(key))
    case Ready => None
  }

  predicate Free(s: State, row: Option<Row>) {
    row.Some? ==> row.value !in s.locks
  }

  predicate Enabled(s: State, a: Action) {
    match a
    case Submit(id, res) => id !in s.results && res.author != res.opponent
    case Begin(t, id, d, w) => t !in s.txs && id in s.results && Approving(d) && Permitted(s.results[id], d)
    case Advance(t) => t in s.txs && !s.txs[t].phase.Ready? && Free(s, Wants(s, s.txs[t]))
    case CommitTx(t) => t in s.txs && s.txs[t].phase.Ready?
    case Abort(t) => t in s.txs
    case Settle(id, d) => id in s.results && !Approving(d) && Permitted(s.results[id], d) && ResultRow(id) !in s.locks
  }

  function Release(s: State, t: int): State {
    s.(txs := s.txs - {t}, locks := map row | row in s.locks && s.locks[row] != t :: s.locks[row])
  }

  /** The transaction as its next statement leaves it: a select finds the row or not, an insert makes
      it or meets one already committed. */
  function Moved(s: State, tx: Tx): Tx {
    var key := PhaseKey(tx.result, tx.phase);
    var row := Current(s.ratings, key);
    match tx.phase
    case Deciding => tx.(phase := SelectLow)
    case SelectLow => if key in s.ratings then tx.(phase := SelectHigh, low := row) else tx.(phase := InsertLow)
    case InsertLow => if key in s.ratings then tx.(phase := ReselectLow) else tx.(phase := SelectHigh, low := DEFAULT)
    case ReselectLow => tx.(phase := SelectHigh, low := row)
    case SelectHigh => if key in s.ratings then tx.(phase := Ready, high := row) else tx.(phase := InsertHigh)
    case InsertHigh => if key in s.ratings then tx.(phase := ReselectHigh) else tx.(phase := Ready, high := DEFAULT)
    case ReselectHigh => tx.(phase := Ready, high := row)
    case Ready => tx
  }

  /** The locks after transaction `t` has taken the one it wants. */
  function Taken(locks: map<Row, int>, t: int, row: Option<Row>): map<Row, int> {
    if row.Some? then locks[row.value := t] else locks
  }

  /** A transaction that finds its result decided ends; any other takes the lock it wants and goes on. */
  function AdvanceTx(s: State, t: int): State
    requires Enabled(s, Advance(t))
  {
    var tx := s.txs[t];
    if tx.phase.Deciding? && tx.resultId in s.decisions then Release(s, t)
    else s.(txs := s.txs[t := Moved(s, tx)], locks := Taken(s.locks, t, Wants(s, tx)))
  }

  /** The author's and the opponent's rating as the transaction read them. */
  function ReadAuthor(tx: Tx): PlayerRating {
    if AuthorKey(tx.result) == LowKey(tx.result) then tx.low else tx.high
  }

  function ReadOpponent(tx: Tx): PlayerRating {
    if OpponentKey(tx.result) == LowKey(tx.result) then tx.low else tx.high
  }

  function Publish(glicko: Glicko, s: State, t: int): State
    requires Enabled(s, CommitTx(t))
  {
    var tx := s.txs[t];
    var res := tx.result;
    var a, o := ReadAuthor(tx), ReadOpponent(tx);
    Release(s, t).(
      decisions := s.decisions[tx.resultId := tx.decision],
      ratings := UpdatedTable(glicko, s.ratings, res, tx.weight, a, o),
      ledger := s.ledger + Changes(glicko, tx.resultId, res, tx.weight, a, o),
      log := s.log + [Commit(tx.resultId, res, tx.weight)])
  }

  /** One step; an action that is not enabled changes nothing. */
  function Step(glicko: Glicko, s: State, a: Action): State {
    if !Enabled(s, a) then s
    else match a
      case Submit(id, res) => s.(results := s.results[id := res])
      case Begin(t, id, d, w) => s.(txs := s.txs[t := Tx(id, s.results[id], d, w, Deciding, DEFAULT, DEFAULT)])
      case Advance(t) => AdvanceTx(s, t)
      case CommitTx(t) => Publish(glicko, s, t)
      case Abort(t) => Release(s, t)
      case Settle(id, d) => if id in s.decisions then s else s.(decisions := s.decisions[id := d])
  }

  /** The state after any interleaving of actions. */
  function Exec(glicko: Glicko, actions: seq<Action>): State {
    if actions == [] then INITIAL
    else Step(glicko, Exec(glicko, actions[..|actions| - 1]), actions[|actions| - 1])
  }

  // ---------------------------------------------------------------- invariant

  ghost predicate PastDeciding(phase: Phase) {
    !phase.Deciding?
  }

  ghost predicate HoldsLow(phase: Phase) {
    phase.SelectHigh? || phase.InsertHigh? || phase.ReselectHigh? || phase.Ready?
  }

  /** The rows a transaction must have locked, given its phase. */
  ghost predicate Holds(tx: Tx, row: Row) {
    || (PastDeciding(tx.phase) && row == ResultRow(tx.resultId))
    || (HoldsLow(tx.phase) && row == RatingRow(LowKey(tx.result)))
    || (tx.phase.Ready? && row == RatingRow(HighKey(tx.result)))
  }

  ghost predicate WellFormed(s: State) {
    && (forall id | id in s.results :: s.results[id].author != s.results[id].opponent)
    && (forall id | id in s.decisions :: id in s.results && Permitted(s.results[id], s.decisions[id]))
    && (forall t | t in s.txs :: TxFits(s, s.txs[t]))
  }

  ghost predicate TxFits(s: State, tx: Tx) {
    && tx.resultId in s.results && s.results[tx.resultId] == tx.result
    && Approving(tx.decision) && Permitted(tx.result, tx.decision)
  }

  /** Locks are held exactly by the transactions whose phase says so. */
  ghost predicate LocksMatch(s: State) {
    && (forall row | row in s.locks :: s.locks[row] in s.txs && Holds(s.txs[s.locks[row]], row))
    && (forall t, row | t in s.txs && Holds(s.txs[t], row) :: row in s.locks && s.locks[row] == t)
  }

  /** What a transaction has read is still what is committed. */
  ghost predicate ReadsCurrent(s: State) {
    forall t | t in s.txs :: TxCurrent(s, s.txs[t])
  }

  ghost predicate TxCurrent(s: State, tx: Tx) {
    && (PastDeciding(tx.phase) ==> tx.resultId !in s.decisions)
    && (HoldsLow(tx.phase) ==> tx.low == Current(s.ratings, LowKey(tx.result)))
    && (tx.phase.Ready? ==> tx.high == Current(s.ratings, HighKey(tx.result)))
  }

  ghost predicate CommitFits(s: State, c: Commit) {
    && c.resultId in s.results && s.results[c.resultId] == c.result
    && c.resultId in s.decisions && Approving(s.decisions[c.resultId])
  }

  /** The log lists the approved results, each once. */
  ghost predicate LogMatches(s: State) {
    && (forall i | 0 <= i < |s.log| :: CommitFits(s, s.log[i]))
    && (forall id | id in s.decisions && Approving(s.decisions[id]) ::
          exists i :: 0 <= i < |s.log| && s.log[i].resultId == id)
    && (forall i, j | 0 <= i < j < |s.log| :: s.log[i].resultId != s.log[j].resultId)
  }

  /** The transactions, their locks and what they have read fit together. */
  ghost predicate Safe(s: State) {
    WellFormed(s) && LocksMatch(s) && ReadsCurrent(s)
  }

  /** The committed tables are what the logged approvals produce one at a time. */
  ghost predicate Recorded(glicko: Glicko, s: State) {
    && LogMatches(s)
    && s.ratings == Replay(glicko, s.log)
    && s.ledger == ReplayLedger(glicko, s.log)
  }

  // ---------------------------------------------------------------- what a step keeps

  /** Every transaction but `t` is as it was. */
  ghost predicate OnlyTxMoved(s: State, s': State, t: int) {
    forall u | u in s'.txs && u != t :: u in s.txs && s'.txs[u] == s.txs[u]
  }

  /** A transaction that fits the committed data leaves the others fitting. */
  lemma TxsStay(s: State, s': State, t: int)
    requires WellFormed(s) && ReadsCurrent(s) && OnlyTxMoved(s, s', t)
    requires s'.results == s.results && s'.decisions == s.decisions && s'.ratings == s.ratings
    requires t in s'.txs ==> TxFits(s, s'.txs[t]) && TxCurrent(s, s'.txs[t])
    ensures WellFormed(s') && ReadsCurrent(s')
  {
    forall u | u in s'.txs ensures TxFits(s', s'.txs[u]) && TxCurrent(s', s'.txs[u]) {
      assert u != t ==> TxFits(s, s.txs[u]) && TxCurrent(s, s.txs[u]);
    }
  }

  /** A transaction that goes on with the rows it holds leaves the locks in order. */
  lemma LocksStay(s: State, s': State, t: int)
    requires LocksMatch(s) && OnlyTxMoved(s, s', t) && s'.locks == s.locks && s.txs.Keys <= s'.txs.Keys
    requires t in s'.txs && forall row :: Holds(s'.txs[t], row) <==> t in s.txs && Holds(s.txs[t], row)
    ensures LocksMatch(s')
  {
    forall row | row in s'.locks ensures s'.locks[row] in s'.txs && Holds(s'.txs[s'.locks[row]], row) {
      var holder := s.locks[row];
      assert Holds(s.txs[holder], row);
      assert holder in s'.txs && (holder != t ==> s'.txs[holder] == s.txs[holder]);
    }
    forall u, row | u in s'.txs && Holds(s'.txs[u], row) ensures row in s'.locks && s'.locks[row] == u {
      assert u in s.txs && Holds(s.txs[u], row);
    }
  }

  lemma LocksTaken(s: State, s': State, t: int, row: Row)
    requires LocksMatch(s) && OnlyTxMoved(s, s', t) && t in s.txs && row !in s.locks
    requires s'.txs.Keys == s.txs.Keys && s'.locks == s.locks[row := t]
    requires forall r :: Holds(s'.txs[t], r) <==> Holds(s.txs[t], r) || r == row
    ensures LocksMatch(s')
  {
    forall r | r in s'.locks ensures s'.locks[r] in s'.txs && Holds(s'.txs[s'.locks[r]], r) {
      if r != row {
        var holder := s.locks[r];
        assert Holds(s.txs[holder], r);
        assert holder in s'.txs && (holder != t ==> s'.txs[holder] == s.txs[holder]);
      }
    }
    forall u, r | u in s'.txs && Holds(s'.txs[u], r) ensures r in s'.locks && s'.locks[r] == u {
      if u != t || r != row {
        assert Holds(s.txs[u], r);
      }
    }
  }

  lemma LocksReleased(s: State, t: int)
    requires LocksMatch(s) && t in s.txs
    ensures LocksMatch(Release(s, t))
  {
    var s' := Release(s, t);
    forall row | row in s'.locks ensures s'.locks[row] in s'.txs && Holds(s'.txs[s'.locks[row]], row) {
      assert Holds(s.txs[s.locks[row]], row);
    }
    forall u, row | u in s'.txs && Holds(s'.txs[u], row) ensures row in s'.locks && s'.locks[row] == u {
      assert Holds(s.txs[u], row);
    }
  }

  lemma SubmitKeeps(glicko: Glicko, s: State, id: int, res: GameResult)
    requires Safe(s) && Enabled(s, Submit(id, res))
    ensures Safe(Step(glicko, s, Submit(id, res)))
  {
    var s' := Step(glicko, s, Submit(id, res));
    forall t | t in s'.txs ensures TxFits(s', s'.txs[t]) && TxCurrent(s', s'.txs[t]) {
      assert TxFits(s, s.txs[t]) && TxCurrent(s, s.txs[t]);
    }
    assert LocksMatch(s') by {
      LocksOf(s, s');
    }
  }

  lemma LocksOf(s: State, s': State)
    requires LocksMatch(s) && s'.txs == s.txs && s'.locks == s.locks
    ensures LocksMatch(s')
  {
  }

  lemma BeginKeeps(glicko: Glicko, s: State, a: Action)
    requires Safe(s) && a.Begin? && Enabled(s, a)
    ensures Safe(Step(glicko, s, a))
  {
    var s' := Step(glicko, s, a);
    LocksStay(s, s', a.t);
    TxsStay(s, s', a.t);
  }

  lemma SettleKeeps(glicko: Glicko, s: State, id: int, d: Decision)
    requires Safe(s) && Enabled(s, Settle(id, d))
    ensures Safe(Step(glicko, s, Settle(id, d)))
  {
    var s' := Step(glicko, s, Settle(id, d));
    LocksOf(s, s');
    forall t | t in s'.txs ensures TxFits(s', s'.txs[t]) && TxCurrent(s', s'.txs[t]) {
      SettleLeavesTx(glicko, s, id, d, t);
    }
  }

  lemma SettleLeavesTx(glicko: Glicko, s: State, id: int, d: Decision, t: int)
    requires Safe(s) && Enabled(s, Settle(id, d)) && t in s.txs
    ensures TxFits(Step(glicko, s, Settle(id, d)), s.txs[t]) && TxCurrent(Step(glicko, s, Settle(id, d)), s.txs[t])
  {
    var tx := s.txs[t];
    assert TxFits(s, tx) && TxCurrent(s, tx);
    assert PastDeciding(tx.phase) ==> Holds(tx, ResultRow(tx.resultId));
  }

  lemma ReleaseKeeps(s: State, t: int)
    requires Safe(s) && t in s.txs
    ensures Safe(Release(s, t))
  {
    LocksReleased(s, t);
    TxsStay(s, Release(s, t), t);
  }

  /** What the next statement reads is committed, and it changes the rows held by the one it wants. */
  lemma MovedFits(s: State, tx: Tx)
    requires TxFits(s, tx) && TxCurrent(s, tx) && !tx.phase.Ready?
    requires tx.phase.Deciding? ==> tx.resultId !in s.decisions
    ensures TxFits(s, Moved(s, tx)) && TxCurrent(s, Moved(s, tx))
  {
  }

  lemma MovedHolds(s: State, tx: Tx, row: Row)
    requires !tx.phase.Ready? && (tx.phase.Deciding? ==> tx.resultId !in s.decisions)
    ensures Holds(Moved(s, tx), row) <==> Holds(tx, row) || Wants(s, tx) == Some(row)
  {
  }

  lemma AdvanceKeeps(s: State, t: int)
    requires Safe(s) && Enabled(s, Advance(t))
    ensures Safe(AdvanceTx(s, t))
  {
    var s', tx := AdvanceTx(s, t), s.txs[t];
    assert TxFits(s, tx) && TxCurrent(s, tx);
    if tx.phase.Deciding? && tx.resultId in s.decisions {
      ReleaseKeeps(s, t);
    } else {
      MovedFits(s, tx);
      TxsStay(s, s', t);
      forall row ensures Holds(s'.txs[t], row) <==> Holds(tx, row) || Wants(s, tx) == Some(row) {
        MovedHolds(s, tx, row);
      }
      if Wants(s, tx).Some? {
        LocksTaken(s, s', t, Wants(s, tx).value);
      } else {
        LocksStay(s, s', t);
      }
    }
  }

  /** What a ready transaction publishes is one application of its result to the committed tables. */
  lemma PublishIsApply(glicko: Glicko, s: State, t: int)
    requires Safe(s) && Enabled(s, CommitTx(t))
    ensures var tx, s' := s.txs[t], Publish(glicko, s, t);
            && s'.ratings == ApplyResult(glicko, s.ratings, tx.result, tx.weight)
            && s'.ledger == s.ledger + LedgerOf(glicko, s.ratings, tx.resultId, tx.result, tx.weight)
            && s'.log == s.log + [Commit(tx.resultId, tx.result, tx.weight)]
  {
    var tx := s.txs[t];
    assert TxCurrent(s, tx);
    assert ReadAuthor(tx) == Current(s.ratings, AuthorKey(tx.result));
    assert ReadOpponent(tx) == Current(s.ratings, OpponentKey(tx.result));
  }

  /** A commit decides the result and rates its players as they played, by the ratings committed so far. */
  lemma CommitRates(glicko: Glicko, s: State, t: int)
    requires Safe(s) && Enabled(s, CommitTx(t))
    ensures var tx, s' := s.txs[t], Publish(glicko, s, t);
            && s'.decisions == s.decisions[tx.resultId := tx.decision]
            && s.ledger <= s'.ledger
            && RatedAsPlayed(glicko, s.ratings, s'.ratings, s'.ledger[|s.ledger|..], tx.resultId,
                 s.results[tx.resultId], tx.weight)
  {
    var tx := s.txs[t];
    assert TxFits(s, tx);
    PublishIsApply(glicko, s, t);
    ApplyRates(glicko, s.ratings, tx.resultId, tx.result, tx.weight);
  }

  /** Two transactions never hold the same row. */
  lemma HoldersDiffer(s: State, t: int, u: int, row: Row)
    requires LocksMatch(s) && t in s.txs && u in s.txs && t != u && Holds(s.txs[t], row)
    ensures !Holds(s.txs[u], row)
  {
    assert s.locks[row] == t;
  }

  /** A row that another transaction has read is not among those a commit writes. */
  lemma OthersUntouched(glicko: Glicko, s: State, t: int, u: int, key: Key)
    requires Safe(s) && Enabled(s, CommitTx(t)) && u in s.txs && u != t
    requires Holds(s.txs[u], RatingRow(key))
    ensures Current(Publish(glicko, s, t).ratings, key) == Current(s.ratings, key)
  {
    var res := s.txs[t].result;
    HoldersDiffer(s, t, u, RatingRow(LowKey(res)));
    HoldersDiffer(s, t, u, RatingRow(HighKey(res)));
    assert key != LowKey(res) && key != HighKey(res);
    assert key != AuthorKey(res) && key != OpponentKey(res);
  }

  lemma OthersStayCurrent(glicko: Glicko, s: State, t: int, u: int)
    requires Safe(s) && Enabled(s, CommitTx(t)) && u in s.txs && u != t
    ensures TxCurrent(Publish(glicko, s, t), s.txs[u])
  {
    var ux := s.txs[u];
    assert TxCurrent(s, ux);
    HoldersDiffer(s, t, u, ResultRow(s.txs[t].resultId));
    if HoldsLow(ux.phase) {
      OthersUntouched(glicko, s, t, u, LowKey(ux.result));
    }
    if ux.phase.Ready? {
      OthersUntouched(glicko, s, t, u, HighKey(ux.result));
    }
  }

  lemma CommitKeeps(glicko: Glicko, s: State, t: int)
    requires Safe(s) && Enabled(s, CommitTx(t))
    ensures Safe(Publish(glicko, s, t))
  {
    var s', tx := Publish(glicko, s, t), s.txs[t];
    assert TxFits(s, tx);
    LocksReleased(s, t);
    LocksOf(Release(s, t), s');
    forall u | u in s'.txs ensures TxCurrent(s', s'.txs[u]) && TxFits(s', s'.txs[u]) {
      OthersStayCurrent(glicko, s, t, u);
      assert TxFits(s, s.txs[u]);
    }
  }

  lemma ReplaySnoc(glicko: Glicko, log: seq<Commit>, c: Commit)
    ensures Replay(glicko, log + [c]) == ApplyResult(glicko, Replay(glicko, log), c.result, c.weight)
    ensures ReplayLedger(glicko, log + [c])
            == ReplayLedger(glicko, log) + LedgerOf(glicko, Replay(glicko, log), c.resultId, c.result, c.weight)
  {
    assert (log + [c])[..|log|] == log;
  }

  lemma CommitRecords(glicko: Glicko, s: State, t: int)
    requires Safe(s) && Recorded(glicko, s) && Enabled(s, CommitTx(t))
    ensures Recorded(glicko, Publish(glicko, s, t))
  {
    var tx := s.txs[t];
    assert TxFits(s, tx) && TxCurrent(s, tx);
    PublishIsApply(glicko, s, t);
    ReplaySnoc(glicko, s.log, Commit(tx.resultId, tx.result, tx.weight));
    LogGrows(s, Publish(glicko, s, t), t);
  }

  lemma LogGrows(s: State, s': State, t: int)
    requires LogMatches(s) && t in s.txs && TxFits(s, s.txs[t]) && s.txs[t].resultId !in s.decisions
    requires s'.results == s.results && s'.decisions == s.decisions[s.txs[t].resultId := s.txs[t].decision]
    requires s'.log == s.log + [Commit(s.txs[t].resultId, s.txs[t].result, s.txs[t].weight)]
    ensures LogMatches(s')
  {
    var n := |s.log|;
    forall id | id in s'.decisions && Approving(s'.decisions[id])
      ensures exists i :: 0 <= i < |s'.log| && s'.log[i].resultId == id
    {
      if id == s.txs[t].resultId {
        assert s'.log[n].resultId == id;
      } else {
        var i :| 0 <= i < n && s.log[i].resultId == id;
        assert s'.log[i].resultId == id;
      }
    }
    forall i | 0 <= i < |s'.log| ensures CommitFits(s', s'.log[i]) {
      if i < n {
        assert CommitFits(s, s.log[i]) && s'.log[i] == s.log[i];
      }
    }
    forall i, j | 0 <= i < j < |s'.log| ensures s'.log[i].resultId != s'.log[j].resultId {
      assert CommitFits(s, s.log[i]) && s'.log[i] == s.log[i];
    }
  }

  /** Same tables, same log, and the same approvals. */
  ghost predicate SameRecord(s: State, s': State) {
    && s'.log == s.log && s'.ratings == s.ratings && s'.ledger == s.ledger
    && (forall id | id in s.results :: id in s'.results && s'.results[id] == s.results[id])
    && (forall id | id in s.decisions :: id in s'.decisions && s'.decisions[id] == s.decisions[id])
    && (forall id | id in s'.decisions && Approving(s'.decisions[id]) :: id in s.decisions)
  }

  /** Steps other than commits touch neither the tables nor the approved results. */
  lemma OtherStepsSame(glicko: Glicko, s: State, a: Action)
    requires !a.CommitTx?
    ensures SameRecord(s, Step(glicko, s, a))
  {
  }

  lemma SameRecordRecords(glicko: Glicko, s: State, s': State)
    requires Recorded(glicko, s) && SameRecord(s, s')
    ensures Recorded(glicko, s')
  {
    forall i | 0 <= i < |s'.log| ensures CommitFits(s', s'.log[i]) {
      assert CommitFits(s, s.log[i]);
    }
    forall id | id in s'.decisions && Approving(s'.decisions[id])
      ensures exists i :: 0 <= i < |s'.log| && s'.log[i].resultId == id
    {
      var i :| 0 <= i < |s.log| && s.log[i].resultId == id;
      assert s'.log[i].resultId == id;
    }
  }

  lemma StepKeeps(glicko: Glicko, s: State, a: Action)
    requires Safe(s) && Recorded(glicko, s)
    ensures Safe(Step(glicko, s, a)) && Recorded(glicko, Step(glicko, s, a))
  {
    if Enabled(s, a) {
      if a.CommitTx? {
        CommitKeeps(glicko, s, a.t);
        CommitRecords(glicko, s, a.t);
      } else {
        OtherStepsKeep(glicko, s, a);
        OtherStepsSame(glicko, s, a);
        SameRecordRecords(glicko, s, Step(glicko, s, a));
      }
    }
  }

  lemma OtherStepsKeep(glicko: Glicko, s: State, a: Action)
    requires Safe(s) && Enabled(s, a) && !a.CommitTx?
    ensures Safe(Step(glicko, s, a))
  {
    match a {
      case Submit(id, res) => SubmitKeeps(glicko, s, id, res);
      case Begin(_, _, _, _) => BeginKeeps(glicko, s, a);
      case Advance(t) => AdvanceKeeps(s, t);
      case Abort(t) => ReleaseKeeps(s, t);
      case Settle(id, d) => SettleKeeps(glicko, s, id, d);
    }
  }

  lemma {:induction false} ExecSafe(glicko: Glicko, actions: seq<Action>)
    ensures Safe(Exec(glicko, actions)) && Recorded(glicko, Exec(glicko, actions))
  {
    if actions != [] {
      ExecSafe(glicko, actions[..|actions| - 1]);
      StepKeeps(glicko, Exec(glicko, actions[..|actions| - 1]), actions[|actions| - 1]);
    }
  }

  // ---------------------------------------------------------------- exactly once

  /** A decision, once taken, is never changed: a result leaves pending at most once. */
  lemma DecisionsAreFinal(glicko: Glicko, s: State, a: Action, id: int)
    requires Safe(s) && id in s.decisions
    ensures id in Step(glicko, s, a).decisions && Step(glicko, s, a).decisions[id] == s.decisions[id]
  {
    if a.CommitTx? && Enabled(s, a) {
      assert TxCurrent(s, s.txs[a.t]);
    } else if !a.CommitTx? {
      OtherStepsSame(glicko, s, a);
    }
  }

  /** A pending result is decided by the commit of a transaction that approves it and by a statement that rejects
      or cancels it, as they say, and by nothing else. */
  lemma DecidedByStep(glicko: Glicko, s: State, a: Action, id: int)
    requires Safe(s) && id !in s.decisions
    ensures var s' := Step(glicko, s, a);
            && (id in s'.decisions <==>
                  || (a.CommitTx? && Enabled(s, a) && s.txs[a.t].resultId == id)
                  || (a.Settle? && Enabled(s, a) && a.resultId == id))
            && (id in s'.decisions ==>
                  s'.decisions[id] == if a.CommitTx? then s.txs[a.t].decision else a.decision)
  {
    if !a.CommitTx? && !a.Settle? {
      OtherStepsSame(glicko, s, a);
    }
  }

  lemma {:induction false} DecisionsStay(glicko: Glicko, before: seq<Action>, after: seq<Action>, id: int)
    requires id in Exec(glicko, before).decisions
    ensures id in Exec(glicko, before + after).decisions
    ensures Exec(glicko, before + after).decisions[id] == Exec(glicko, before).decisions[id]
    decreases |after|
  {
    if after == [] {
      assert before + after == before;
    } else {
      var n := |after| - 1;
      DecisionsStay(glicko, before, after[..n], id);
      var all := before + after;
      assert all[..|all| - 1] == before + after[..n] && all[|all| - 1] == after[n];
      ExecSafe(glicko, before + after[..n]);
      DecisionsAreFinal(glicko, Exec(glicko, before + after[..n]), after[n], id);
    }
  }

  /** The approved results a player took part in. */
  ghost function ApprovedGames(s: State, key: Key): set<int> {
    set id | id in s.decisions && id in s.results && Approving(s.decisions[id]) && Involves(s.results[id], key)
  }

  ghost function LoggedGames(log: seq<Commit>, key: Key): set<int> {
    set i | 0 <= i < |log| && Involves(log[i].result, key) :: log[i].resultId
  }

  lemma LoggedGamesSnoc(log: seq<Commit>, c: Commit, key: Key)
    ensures LoggedGames(log + [c], key)
        == LoggedGames(log, key) + (if Involves(c.result, key) then {c.resultId} else {})
  {
    var all := log + [c];
    forall id | id in LoggedGames(all, key)
      ensures id in LoggedGames(log, key) + (if Involves(c.result, key) then {c.resultId} else {})
    {
      var i :| 0 <= i < |all| && Involves(all[i].result, key) && all[i].resultId == id;
      assert i < |log| ==> all[i] == log[i];
    }
    forall id | id in LoggedGames(log, key) ensures id in LoggedGames(all, key) {
      var i :| 0 <= i < |log| && Involves(log[i].result, key) && log[i].resultId == id;
      assert all[i] == log[i];
    }
    assert all[|log|] == c;
  }

  lemma NotLogged(log: seq<Commit>, id: int, key: Key)
    requires forall i | 0 <= i < |log| :: log[i].resultId != id
    ensures id !in LoggedGames(log, key)
  {
  }

  lemma {:induction false} LoggedGamesCount(log: seq<Commit>, key: Key)
    requires forall i, j | 0 <= i < j < |log| :: log[i].resultId != log[j].resultId
    ensures |LoggedGames(log, key)| == GamesOf(log, key)
  {
    if log != [] {
      var n := |log| - 1;
      LoggedGamesCount(log[..n], key);
      LoggedGamesSnoc(log[..n], log[n], key);
      NotLogged(log[..n], log[n].resultId, key);
      assert log == log[..n] + [log[n]];
    }
  }

  lemma LoggedAreApproved(s: State, key: Key)
    requires LogMatches(s)
    ensures LoggedGames(s.log, key) == ApprovedGames(s, key)
  {
    forall id | id in LoggedGames(s.log, key) ensures id in ApprovedGames(s, key) {
      var i :| 0 <= i < |s.log| && Involves(s.log[i].result, key) && s.log[i].resultId == id;
      assert CommitFits(s, s.log[i]);
    }
    forall id | id in ApprovedGames(s, key) ensures id in LoggedGames(s.log, key) {
      var i :| 0 <= i < |s.log| && s.log[i].resultId == id;
      assert CommitFits(s, s.log[i]);
    }
  }

  // ---------------------------------------------------------------- main results

  /** Serializability: after any interleaving of concurrent decisions the ratings, deviations,
      volatilities and game counts, and the ledger, are those of applying the committed approvals one
      at a time in commit order; the log holds exactly the approved results, each once. */
  lemma Serializable(glicko: Glicko, actions: seq<Action>)
    ensures var s := Exec(glicko, actions);
            && s.ratings == Replay(glicko, s.log)
            && s.ledger == ReplayLedger(glicko, s.log)
            && LogMatches(s)
  {
    ExecSafe(glicko, actions);
  }

  /** Exactly-once bookkeeping: in every reachable state a player's game count is the number of
      approved or auto-approved results the player took part in, and the rating is 1500 plus the sum
      of the player's ledger deltas. */
  lemma ExactlyOnceLedger(glicko: Glicko, actions: seq<Action>, key: Key)
    ensures var s := Exec(glicko, actions);
            && Current(s.ratings, key).games == |ApprovedGames(s, key)|
            && Current(s.ratings, key).rating.r - 1500.0 == DeltaSum(s.ledger, key)
  {
    var s := Exec(glicko, actions);
    ExecSafe(glicko, actions);
    forall i | 0 <= i < |s.log| ensures s.log[i].result.author != s.log[i].result.opponent {
      assert CommitFits(s, s.log[i]);
    }
    LedgerConservation(glicko, s.log, key);
    LoggedGamesCount(s.log, key);
    LoggedAreApproved(s, key);
  }

  /** Only the opponent approves or rejects, only the author cancels, and only the scheduler
      auto-approves. */
  lemma DecidedByTheRightParty(glicko: Glicko, actions: seq<Action>, id: int)
    ensures var s := Exec(glicko, actions);
            id in s.decisions ==>
              && id in s.results
              && s.decisions[id].actor
                 == match s.decisions[id].status
                    case Approved | Rejected => Player(s.results[id].opponent)
                    case Canceled => Player(s.results[id].author)
                    case AutoApproved => Scheduler
  {
    ExecSafe(glicko, actions);
  }

  // ---------------------------------------------------------------- deadlock freedom

  /** The row locks in the order every transaction takes them. */
  ghost predicate Below(a: Row, b: Row) {
    match (a, b)
    case (ResultRow(_), RatingRow(_)) => true
    case (RatingRow(j), RatingRow(k)) => j.group == k.group && j.player < k.player
    case (_, _) => false
  }

  /** Transaction `t` waits for a row that `u` holds. */
  ghost predicate WaitsFor(s: State, t: int, u: int) {
    && t in s.txs && u in s.txs
    && Wants(s, s.txs[t]).Some?
    && Holds(s.txs[u], Wants(s, s.txs[t]).value)
  }

  /** A transaction only ever waits for a row above all those it holds. */
  lemma WaitsUpwards(s: State, t: int, row: Row)
    requires Safe(s) && t in s.txs && Wants(s, s.txs[t]).Some? && Holds(s.txs[t], row)
    ensures Below(row, Wants(s, s.txs[t]).value)
  {
    assert TxFits(s, s.txs[t]);
  }

  /** Along a chain of waits the wanted rows climb, so no chain closes into a cycle. */
  ghost predicate WaitChain(s: State, chain: seq<int>) {
    && chain != []
    && forall i | 0 <= i < |chain| - 1 :: WaitsFor(s, chain[i], chain[i + 1])
  }

  lemma {:induction false} ChainClimbs(s: State, chain: seq<int>)
    requires Safe(s) && WaitChain(s, chain) && |chain| >= 2
    requires chain[0] in s.txs && Wants(s, s.txs[chain[0]]).Some?
    requires chain[|chain| - 1] in s.txs && Wants(s, s.txs[chain[|chain| - 1]]).Some?
    ensures Below(Wants(s, s.txs[chain[0]]).value, Wants(s, s.txs[chain[|chain| - 1]]).value)
    decreases |chain|
  {
    var n := |chain| - 1;
    assert WaitsFor(s, chain[n - 1], chain[n]);
    WaitsUpwards(s, chain[n], Wants(s, s.txs[chain[n - 1]]).value);
    if n > 1 {
      var front := chain[..n];
      assert forall i | 0 <= i < |front| - 1 :: WaitsFor(s, front[i], front[i + 1]) by {
        forall i | 0 <= i < |front| - 1 ensures WaitsFor(s, front[i], front[i + 1]) {
          assert WaitsFor(s, chain[i], chain[i + 1]);
        }
      }
      ChainClimbs(s, front);
    }
  }

  /** Row-lock deadlock freedom: the wait-for graph of every reachable state is acyclic. */
  lemma NoDeadlock(glicko: Glicko, actions: seq<Action>, chain: seq<int>)
    requires WaitChain(Exec(glicko, actions), chain) && |chain| >= 2
    ensures chain[0] != chain[|chain| - 1]
  {
    var s := Exec(glicko, actions);
    ExecSafe(glicko, actions);
    assert WaitsFor(s, chain[0], chain[1]);
    if chain[0] == chain[|chain| - 1] {
      ChainClimbs(s, chain);
    }
  }

  predicate CanMove(s: State, t: int) {
    Enabled(s, Advance(t)) || Enabled(s, CommitTx(t))
  }

  /** The transactions that wait for a row above `row`. */
  ghost function WaitersAbove(s: State, row: Row): set<int> {
    set t | t in s.txs && Wants(s, s.txs[t]).Some? && Below(row, Wants(s, s.txs[t]).value)
  }

  /** Following the waits from a blocked transaction leads to one that can move. */
  lemma {:induction false} SomeoneMoves(s: State, t: int) returns (u: int)
    requires Safe(s) && t in s.txs
    ensures u in s.txs && CanMove(s, u)
    decreases if Wants(s, s.txs[t]).Some? then 1 + |WaitersAbove(s, Wants(s, s.txs[t]).value)| else 0
  {
    if CanMove(s, t) {
      u := t;
    } else {
      var row := Wants(s, s.txs[t]).value;
      var holder := s.locks[row];
      assert Holds(s.txs[holder], row);
      if Wants(s, s.txs[holder]).Some? {
        var above := Wants(s, s.txs[holder]).value;
        WaitsUpwards(s, holder, row);
        forall v | v in WaitersAbove(s, above) ensures v in WaitersAbove(s, row) {
          assert Below(above, Wants(s, s.txs[v]).value);
        }
        assert holder in WaitersAbove(s, row) && holder !in WaitersAbove(s, above);
        ProperSubsetSmaller(WaitersAbove(s, above), WaitersAbove(s, row), holder);
      }
      u := SomeoneMoves(s, holder);
    }
  }

  lemma ProperSubsetSmaller(a: set<int>, b: set<int>, x: int)
    requires a <= b && x in b && x !in a
    ensures |a| < |b|
  {
    assert b == a + (b - a);
    assert x in b - a;
  }

  /** Progress: as long as some transaction is open, one of them is not blocked. */
  lemma SomeTransactionProceeds(glicko: Glicko, actions: seq<Action>)
    requires exists t :: t in Exec(glicko, actions).txs
    ensures exists t :: t in Exec(glicko, actions).txs && CanMove(Exec(glicko, actions), t)
  {
    var s := Exec(glicko, actions);
    ExecSafe(glicko, actions);
    var t :| t in s.txs;
    var u := SomeoneMoves(s, t);
  }
}
