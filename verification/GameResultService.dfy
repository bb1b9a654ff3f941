/** Submitting game results and deciding about them, one call at a time: what a call accepts, what it
    refuses and why, and what it leaves behind when something fails halfway. */
module GameResultService {

  import opened Basics
  import opened Ratings
  import opened ResultDecisions

  // ---------------------------------------------------------------- what a submission meets

  datatype Reply<+T> = NoRows | Broken | Found(value: T)

  datatype Participation = Participation(player: int, registered: bool)

  datatype GameInfo = GameInfo(group: int, playersPerCourt: int)

  datatype Error = BadScore | NotInGame | AuthorOptedOut | SamePlayer | GameNotFound | NotSupported | WindowClosed
                 | OpponentOptedOut | Internal | NotFound | Forbidden | NotPending

  /** The answers a submission gets on its way.  Without a user repository nobody has opted out. */
  datatype World = World(author: Reply<int>, authorOptedOut: Reply<bool>, game: Reply<GameInfo>, inWindow: Reply<bool>,
                         participations: Reply<seq<Participation>>, opponentKnown: Reply<bool>,
                         opponentOptedOut: Reply<bool>, userRepoWired: bool, scoreOk: bool, createOk: bool)

  datatype Submission = Submission(opponent: int, winner: Option<int>, scoreKindOk: bool)

  datatype Outcome = Ok(id: int) | Err(error: Error)

  // ---------------------------------------------------------------- the guards

  /** A condition that must hold, and the refusal when it does not. */
  datatype Guard = Guard(holds: bool, error: Error)

  ghost predicate Registered(world: World, player: int) {
    world.participations.Found? && Participation(player, true) in world.participations.value
  }

  ghost predicate BothIn(sub: Submission, world: World) {
    world.author.Found? && Registered(world, world.author.value) && Registered(world, sub.opponent)
  }

  ghost predicate SaysYes(reply: Reply<bool>) {
    reply.Found? && reply.value
  }

  /** The guards on the author, on the game and on both players, each in the order in which they refuse. */
  ghost function AuthorGuards(sub: Submission, world: World): seq<Guard> {
    [Guard(sub.scoreKindOk, BadScore),
     Guard(!world.author.NoRows?, NotInGame),
     Guard(!world.author.Broken?, Internal),
     Guard(world.userRepoWired ==> !world.authorOptedOut.Broken?, Internal),
     Guard(world.userRepoWired ==> !SaysYes(world.authorOptedOut), AuthorOptedOut),
     Guard(world.author != Found(sub.opponent), SamePlayer)]
  }

  ghost function GameGuards(world: World): seq<Guard> {
    [Guard(!world.game.NoRows?, GameNotFound),
     Guard(!world.game.Broken?, Internal),
     Guard(world.game.Found? ==> world.game.value.playersPerCourt == 2, NotSupported),
     Guard(!world.inWindow.NoRows?, GameNotFound),
     Guard(!world.inWindow.Broken?, Internal),
     Guard(SaysYes(world.inWindow), WindowClosed)]
  }

  ghost function PlayerGuards(sub: Submission, world: World): seq<Guard> {
    [Guard(world.participations.Found?, Internal),
     Guard(BothIn(sub, world), NotInGame),
     Guard(!world.opponentKnown.NoRows?, NotInGame),
     Guard(!world.opponentKnown.Broken?, Internal),
     Guard(world.userRepoWired ==> !world.opponentOptedOut.Broken?, Internal),
     Guard(world.userRepoWired ==> !SaysYes(world.opponentOptedOut), OpponentOptedOut),
     Guard(world.scoreOk, BadScore),
     Guard(world.createOk, Internal)]
  }

  /** The refusal of the first guard, from position `from` on, that fails. */
  ghost function FirstRefusal(guards: seq<Guard>, from: nat): Option<Error>
    requires from <= |guards|
    decreases |guards| - from
  {
    if from == |guards| then None
    else if !guards[from].holds then Some(guards[from].error)
    else FirstRefusal(guards, from + 1)
  }

  lemma {:induction false} RefusedAt(guards: seq<Guard>, from: nat, k: nat)
    requires from <= k < |guards| && !guards[k].holds
    requires forall i :: from <= i < k ==> guards[i].holds
    ensures FirstRefusal(guards, from) == Some(guards[k].error)
    decreases k - from
  {
    if from < k {
      RefusedAt(guards, from + 1, k);
    }
  }

  lemma {:induction false} RefusedIff(guards: seq<Guard>, from: nat)
    requires from <= |guards|
    ensures FirstRefusal(guards, from) == None <==> forall i :: from <= i < |guards| ==> guards[i].holds
    decreases |guards| - from
  {
    if from < |guards| {
      RefusedIff(guards, from + 1);
    }
  }

  ghost function Refusal(sub: Submission, world: World): Option<Error> {
    var author, game := FirstRefusal(AuthorGuards(sub, world), 0), FirstRefusal(GameGuards(world), 0);
    if author.Some? then author else if game.Some? then game else FirstRefusal(PlayerGuards(sub, world), 0)
  }

  // ---------------------------------------------------------------- what the guards amount to

  /** Two different players, both registered for a singles game in its window, neither opted out, and
      a score that makes sense; and every answer came. */
  ghost predicate Accepts(sub: Submission, world: World) {
    && sub.scoreKindOk && world.scoreOk && world.createOk
    && BothIn(sub, world) && world.author.value != sub.opponent && world.opponentKnown.Found?
    && world.game.Found? && world.game.value.playersPerCourt == 2 && SaysYes(world.inWindow)
    && (world.userRepoWired ==> TakesPart(world.authorOptedOut) && TakesPart(world.opponentOptedOut))
  }

  ghost predicate TakesPart(optedOut: Reply<bool>) {
    optedOut.NoRows? || (optedOut.Found? && !optedOut.value)
  }

  lemma AllHold(guards: seq<Guard>, n: nat)
    requires n <= |guards|
    ensures FirstRefusal(guards, n) == None ==> forall i :: n <= i < |guards| ==> guards[i].holds
    ensures FirstRefusal(guards, n).Some? ==> RefusedBy(guards, FirstRefusal(guards, n).value)
    decreases |guards| - n
  {
    if n < |guards| && guards[n].holds {
      AllHold(guards, n + 1);
    }
  }

  ghost predicate RefusedBy(guards: seq<Guard>, e: Error) {
    exists k :: 0 <= k < |guards| && !guards[k].holds && guards[k].error == e
  }

  lemma AuthorPasses(sub: Submission, world: World)
    ensures FirstRefusal(AuthorGuards(sub, world), 0) == None
            <==> sub.scoreKindOk && world.author.Found? && world.author.value != sub.opponent
                 && (world.userRepoWired ==> TakesPart(world.authorOptedOut))
  {
    var guards := AuthorGuards(sub, world);
    RefusedIff(guards, 0);
    if FirstRefusal(guards, 0) == None {
      assert guards[0].holds && guards[1].holds && guards[2].holds;
      assert guards[3].holds && guards[4].holds && guards[5].holds;
    } else {
      AllHold(guards, 0);
      var k :| 0 <= k < |guards| && !guards[k].holds;
      assert k in {0, 1, 2, 3, 4, 5};
    }
  }

  lemma GamePasses(world: World)
    ensures FirstRefusal(GameGuards(world), 0) == None
            <==> world.game.Found? && world.game.value.playersPerCourt == 2 && SaysYes(world.inWindow)
  {
    var guards := GameGuards(world);
    RefusedIff(guards, 0);
    if FirstRefusal(guards, 0) == None {
      assert guards[0].holds && guards[1].holds && guards[2].holds && guards[5].holds;
    }
  }

  lemma PlayersPass(sub: Submission, world: World)
    ensures FirstRefusal(PlayerGuards(sub, world), 0) == None
            <==> BothIn(sub, world) && world.opponentKnown.Found? && world.scoreOk && world.createOk
                 && (world.userRepoWired ==> TakesPart(world.opponentOptedOut))
  {
    var guards := PlayerGuards(sub, world);
    RefusedIff(guards, 0);
    if FirstRefusal(guards, 0) == None {
      assert guards[1].holds && guards[2].holds && guards[3].holds && guards[4].holds;
      assert guards[5].holds && guards[6].holds && guards[7].holds;
    } else {
      AllHold(guards, 0);
      var k :| 0 <= k < |guards| && !guards[k].holds;
      assert k in {0, 1, 2, 3, 4, 5, 6, 7};
    }
  }

  /** The guards together let through exactly the submissions that meet all the conditions. */
  lemma AcceptedIff(sub: Submission, world: World)
    ensures Refusal(sub, world) == None <==> Accepts(sub, world)
  {
    AuthorPasses(sub, world);
    GamePasses(world);
    PlayersPass(sub, world);
  }

  /** Some lookup or the insert failed. */
  ghost predicate Outage(world: World) {
    || world.author.Broken? || world.authorOptedOut.Broken? || world.game.Broken? || world.inWindow.Broken?
    || !world.participations.Found? || world.opponentKnown.Broken? || world.opponentOptedOut.Broken? || !world.createOk
  }

  /** What is wrong when a submission is refused with an error. */
  ghost predicate Cause(e: Error, sub: Submission, world: World) {
    match e
    case BadScore => !sub.scoreKindOk || !world.scoreOk
    case NotInGame => world.author.NoRows? || !BothIn(sub, world) || world.opponentKnown.NoRows?
    case AuthorOptedOut => world.userRepoWired && SaysYes(world.authorOptedOut)
    case SamePlayer => world.author == Found(sub.opponent)
    case GameNotFound => world.game.NoRows? || world.inWindow.NoRows?
    case NotSupported => world.game.Found? && world.game.value.playersPerCourt != 2
    case WindowClosed => !SaysYes(world.inWindow)
    case OpponentOptedOut => world.userRepoWired && SaysYes(world.opponentOptedOut)
    case Internal => Outage(world)
    case _ => false
  }

  lemma AuthorCause(sub: Submission, world: World, e: Error)
    requires FirstRefusal(AuthorGuards(sub, world), 0) == Some(e)
    ensures Cause(e, sub, world)
  {
    var guards := AuthorGuards(sub, world);
    AllHold(guards, 0);
    var k :| 0 <= k < |guards| && !guards[k].holds && guards[k].error == e;
    assert k in {0, 1, 2, 3, 4, 5};
  }

  lemma GameCause(sub: Submission, world: World, e: Error)
    requires FirstRefusal(GameGuards(world), 0) == Some(e)
    ensures Cause(e, sub, world)
  {
    var guards := GameGuards(world);
    AllHold(guards, 0);
    var k :| 0 <= k < |guards| && !guards[k].holds && guards[k].error == e;
    assert k in {0, 1, 2, 3, 4, 5};
  }

  lemma PlayerCause(sub: Submission, world: World, e: Error)
    requires FirstRefusal(PlayerGuards(sub, world), 0) == Some(e)
    ensures Cause(e, sub, world)
    ensures e == OpponentOptedOut ==> BothIn(sub, world)
  {
    var guards := PlayerGuards(sub, world);
    AllHold(guards, 0);
    var k :| 0 <= k < |guards| && !guards[k].holds && guards[k].error == e;
    assert k in {0, 1, 2, 3, 4, 5, 6, 7};
  }

  /** A refusal always names something that is wrong, an internal error only after some lookup or the
      insert failed; and that a player has opted out is told only to somebody registered for the same
      open game. */
  lemma RefusalHasCause(sub: Submission, world: World, e: Error)
    requires Refusal(sub, world) == Some(e)
    ensures Cause(e, sub, world)
    ensures e == OpponentOptedOut ==> BothIn(sub, world) && SaysYes(world.inWindow)
  {
    if FirstRefusal(AuthorGuards(sub, world), 0).Some? {
      AuthorCause(sub, world, e);
      NoOtherErrors(AuthorGuards(sub, world), e);
    } else if FirstRefusal(GameGuards(world), 0).Some? {
      GameCause(sub, world, e);
      NoOtherErrors(GameGuards(world), e);
    } else {
      GamePasses(world);
      PlayerCause(sub, world, e);
    }
  }

  lemma NoOtherErrors(guards: seq<Guard>, e: Error)
    requires FirstRefusal(guards, 0) == Some(e) && forall k :: 0 <= k < |guards| ==> guards[k].error != OpponentOptedOut
    ensures e != OpponentOptedOut
  {
    AllHold(guards, 0);
  }

  // ---------------------------------------------------------------- the service

  /** Where a decision may break off: opening the transaction, the status update, the rating update,
      the commit. */
  datatype Faults = Faults(beginOk: bool, decideOk: bool, applyOk: bool, commitOk: bool)

  datatype Settlement = Committed | AlreadyDecided | Faulted

  /** Everything stored: results, when they came in, decisions, ratings and the rating ledger. */
  datatype Db = Db(results: map<int, GameResult>, submittedAt: map<int, nat>, decisions: map<int, Decision>,
        ratings: Table, ledger: seq<RatingChange>)

  /** The stored data after a decision. */
  ghost function Decided(glicko: Glicko, db: Db, id: int, d: Decision, weight: real, ratingWired: bool): Db
    requires id in db.results
  {
    var flipped := db.(decisions := db.decisions[id := d]);
    if Approving(d) && ratingWired then
      flipped.(ratings := ApplyResult(glicko, db.ratings, db.results[id], weight),
               ledger := db.ledger + LedgerOf(glicko, db.ratings, id, db.results[id], weight))
    else flipped
  }

  /** What becomes of an attempt to decide. */
  ghost function SettlementOf(db: Db, id: int, d: Decision, faults: Faults, ratingWired: bool): Settlement {
    var inTx := Approving(d) && ratingWired;
    if !faults.decideOk || (inTx && !faults.beginOk) then Faulted
    else if id in db.decisions then AlreadyDecided
    else if inTx && !(faults.applyOk && faults.commitOk) then Faulted
    else Committed
  }

  ghost predicate Fine(faults: Faults, ratingWired: bool) {
    faults.decideOk && (ratingWired ==> faults.beginOk && faults.applyOk && faults.commitOk)
  }

  const AUTO := Decision(AutoApproved, Scheduler)

  // ---------------------------------------------------------------- what no call may do

  /** The players the ledger has entries for on account of one result, in ledger order. */
  ghost function EntriesFor(ledger: seq<RatingChange>, id: int): seq<Key> {
    if ledger == [] then []
    else
      var n := |ledger| - 1;
      EntriesFor(ledger[..n], id) + (if ledger[n].resultId == id then [ledger[n].key] else [])
  }

  /** What the ledger is to gain on account of a result: one entry for either player when it has come to be
      approved, by the opponent or by the scheduler, and ratings are kept. */
  ghost function NewEntries(db: Db, db': Db, id: int, wired: bool): seq<Key> {
    if id in db'.decisions && id !in db.decisions && id in db'.results && wired
        && (db'.decisions[id].status.Approved? || db'.decisions[id].status.AutoApproved?)
    then [Key(db'.results[id].group, db'.results[id].author), Key(db'.results[id].group, db'.results[id].opponent)]
    else []
  }

  /** From one state to the other no result was changed, no decision was changed or withdrawn, and the ledger
      only gained the entries of results newly approved. */
  ghost predicate Progressed(db: Db, db': Db, wired: bool) {
    && (forall id :: id in db.results ==> id in db'.results && db'.results[id] == db.results[id])
    && (forall id :: id in db.decisions ==> id in db'.decisions && db'.decisions[id] == db.decisions[id])
    && (forall id :: id in db'.decisions && id !in db.decisions ==> id in db'.results)
    && (forall id :: EntriesFor(db'.ledger, id) == EntriesFor(db.ledger, id) + NewEntries(db, db', id, wired))
  }

  lemma NothingDecided(db: Db, db': Db, wired: bool)
    requires db'.decisions == db.decisions && db'.ledger == db.ledger
    requires forall id :: id in db.results ==> id in db'.results && db'.results[id] == db.results[id]
    ensures Progressed(db, db', wired)
  {
    forall id ensures EntriesFor(db'.ledger, id) == EntriesFor(db.ledger, id) + NewEntries(db, db', id, wired) {
      assert NewEntries(db, db', id, wired) == [];
    }
  }

  lemma NothingDone(db: Db, wired: bool)
    ensures Progressed(db, db, wired)
  {
    NothingDecided(db, db, wired);
  }

  lemma EntriesJoin(a: Db, b: Db, c: Db, id: int, wired: bool)
    requires Progressed(a, b, wired) && Progressed(b, c, wired)
    ensures EntriesFor(c.ledger, id) == EntriesFor(a.ledger, id) + NewEntries(a, c, id, wired)
  {
    var old0 := EntriesFor(a.ledger, id);
    assert EntriesFor(c.ledger, id) == (old0 + NewEntries(a, b, id, wired)) + NewEntries(b, c, id, wired);
    if id in b.decisions {
      assert NewEntries(b, c, id, wired) == [];
      assert NewEntries(a, c, id, wired) == NewEntries(a, b, id, wired);
    } else {
      assert NewEntries(a, b, id, wired) == [];
    }
  }

  lemma ProgressJoins(a: Db, b: Db, c: Db, wired: bool)
    requires Progressed(a, b, wired) && Progressed(b, c, wired)
    ensures Progressed(a, c, wired)
  {
    forall id ensures EntriesFor(c.ledger, id) == EntriesFor(a.ledger, id) + NewEntries(a, c, id, wired) {
      EntriesJoin(a, b, c, id, wired);
    }
  }

  lemma EntriesOfTwo(ledger: seq<RatingChange>, x: RatingChange, y: RatingChange, id: int)
    ensures EntriesFor(ledger + [x, y], id)
            == EntriesFor(ledger, id) + (if x.resultId == id then [x.key] else [])
               + (if y.resultId == id then [y.key] else [])
  {
    var one, two := ledger + [x], ledger + [x, y];
    assert one[..|ledger|] == ledger && two[..|one|] == one;
  }

  /** Deciding a pending result is progress. */
  lemma DecidedProgresses(glicko: Glicko, db: Db, id: int, d: Decision, weight: real, wired: bool)
    requires id in db.results && id !in db.decisions
    ensures Progressed(db, Decided(glicko, db, id, d, weight, wired), wired)
  {
    var db' := Decided(glicko, db, id, d, weight, wired);
    var added := LedgerOf(glicko, db.ratings, id, db.results[id], weight);
    assert added == [added[0], added[1]];
    forall k ensures EntriesFor(db'.ledger, k) == EntriesFor(db.ledger, k) + NewEntries(db, db', k, wired) {
      EntriesOfTwo(db.ledger, added[0], added[1], k);
      var before := EntriesFor(db.ledger, k);
      assert before + [] == before;
    }
  }

  /** The stored data after the first n results of a pass. */
  ghost function AfterPass(glicko: Glicko, db: Db, pending: seq<int>, n: nat, weights: int -> real,
      faults: nat -> Faults, wired: bool): (end: Db)
    requires n <= |pending| && forall k :: 0 <= k < |pending| ==> pending[k] in db.results
    ensures end.results == db.results
  {
    if n == 0 then db
    else
      var before := AfterPass(glicko, db, pending, n - 1, weights, faults, wired);
      var id := pending[n - 1];
      if SettlementOf(before, id, AUTO, faults(n - 1), wired).Committed? then Decided(glicko, before, id, AUTO,
            weights(id), wired) else before
  }

  ghost predicate Sound(db: Db) {
    && db.decisions.Keys <= db.results.Keys == db.submittedAt.Keys
    && forall id :: id in db.results ==> db.results[id].author != db.results[id].opponent
  }

  /** Decisions are taken by those who may take them. */
  ghost predicate DecidedByTheRight(db: Db) {
    forall id :: id in db.decisions && id in db.results ==> Permitted(db.results[id], db.decisions[id])
  }

  class GameResultService {
    var results: map<int, GameResult>
    var submittedAt: map<int, nat>
    var decisions: map<int, Decision>
    var ratings: Table
    var ledger: seq<RatingChange>
    const ratingWired: bool

    constructor (ratingWired: bool)
      ensures State() == Db(map[], map[], map[], map[], []) && this.ratingWired == ratingWired
    {
      results, submittedAt, decisions, ratings, ledger := map[], map[], map[], map[], [];
      this.ratingWired := ratingWired;
    }

    ghost function State(): Db
      reads this
    {
      Db(results, submittedAt, decisions, ratings, ledger)
    }

    /** Whether both players are among the registered. */
    static method BothRegistered(parts: seq<Participation>, author: int, opponent: int) returns (both: bool)
      ensures both <==> Participation(author, true) in parts && Participation(opponent, true) in parts
    {
      var authorReg, oppReg := false, false;
      for i := 0 to |parts|
        invariant authorReg <==> Participation(author, true) in parts[..i]
        invariant oppReg <==> Participation(opponent, true) in parts[..i]
      {
        var p := parts[i];
        if !p.registered {
          continue;
        }
        if p.player == author {
          authorReg := true;
        }
        if p.player == opponent {
          oppReg := true;
        }
      }
      assert parts[..|parts|] == parts;
      both := authorReg && oppReg;
    }

    static method CheckAuthor(sub: Submission, world: World) returns (refusal: Option<Error>)
      ensures refusal == FirstRefusal(AuthorGuards(sub, world), 0)
      ensures refusal.None? ==> world.author.Found?
    {
      ghost var guards := AuthorGuards(sub, world);
      if !sub.scoreKindOk {
        RefusedAt(guards, 0, 0);
        return Some(BadScore);
      }
      if world.author.NoRows? {
        RefusedAt(guards, 0, 1);
        return Some(NotInGame);
      }
      if world.author.Broken? {
        RefusedAt(guards, 0, 2);
        return Some(Internal);
      }
      if world.userRepoWired {
        if world.authorOptedOut.Broken? {
          RefusedAt(guards, 0, 3);
          return Some(Internal);
        }
        if world.authorOptedOut.Found? && world.authorOptedOut.value {
          RefusedAt(guards, 0, 4);
          return Some(AuthorOptedOut);
        }
      }
      if world.author.value == sub.opponent {
        RefusedAt(guards, 0, 5);
        return Some(SamePlayer);
      }
      RefusedIff(guards, 0);
      refusal := None;
    }

    static method CheckGame(world: World) returns (refusal: Option<Error>)
      ensures refusal == FirstRefusal(GameGuards(world), 0)
    {
      ghost var guards := GameGuards(world);
      if !world.game.Found? {
        RefusedAt(guards, 0, if world.game.NoRows? then 0 else 1);
        return Some(if world.game.NoRows? then GameNotFound else Internal);
      }
      if world.game.value.playersPerCourt != 2 {
        RefusedAt(guards, 0, 2);
        return Some(NotSupported);
      }
      if !world.inWindow.Found? {
        RefusedAt(guards, 0, if world.inWindow.NoRows? then 3 else 4);
        return Some(if world.inWindow.NoRows? then GameNotFound else Internal);
      }
      if !world.inWindow.value {
        RefusedAt(guards, 0, 5);
        return Some(WindowClosed);
      }
      RefusedIff(guards, 0);
      refusal := None;
    }

    static method CheckPlayersAndScore(sub: Submission, world: World) returns (refusal: Option<Error>)
      requires world.author.Found?
      ensures refusal == FirstRefusal(PlayerGuards(sub, world), 0)
    {
      ghost var guards := PlayerGuards(sub, world);
      if !world.participations.Found? {
        RefusedAt(guards, 0, 0);
        return Some(Internal);
      }
      var both := BothRegistered(world.participations.value, world.author.value, sub.opponent);
      if !both {
        RefusedAt(guards, 0, 1);
        return Some(NotInGame);
      }
      if !world.opponentKnown.Found? {
        RefusedAt(guards, 0, if world.opponentKnown.NoRows? then 2 else 3);
        return Some(if world.opponentKnown.NoRows? then NotInGame else Internal);
      }
      if world.userRepoWired {
        if world.opponentOptedOut.Broken? {
          RefusedAt(guards, 0, 4);
          return Some(Internal);
        }
        if world.opponentOptedOut.Found? && world.opponentOptedOut.value {
          RefusedAt(guards, 0, 5);
          return Some(OpponentOptedOut);
        }
      }
      if !world.scoreOk {
        RefusedAt(guards, 0, 6);
        return Some(BadScore);
      }
      if !world.createOk {
        RefusedAt(guards, 0, 7);
        return Some(Internal);
      }
      RefusedIff(guards, 0);
      refusal := None;
    }

    /** Stores a pending result, or refuses with the first guard that fails and stores nothing. */
    method Submit(sub: Submission, world: World, now: nat, id: int) returns (outcome: Outcome)
      requires id !in results && Sound(State())
      modifies this`results, this`submittedAt
      ensures Sound(State())
      ensures Progressed(old(State()), State(), ratingWired)
      ensures match Refusal(sub, world)
              case Some(e) => outcome == Err(e) && State() == old(State())
              case None =>
                && outcome == Ok(id) && world.author.Found? && world.game.Found?
                && results == old(results)[id := GameResult(world.game.value.group, world.author.value, sub.opponent,
                     sub.winner)]
                && submittedAt == old(submittedAt)[id := now]
    {
      NothingDone(State(), ratingWired);
      ghost var before := State();
      var refusal := CheckAuthor(sub, world);
      if refusal.None? {
        refusal := CheckGame(world);
      }
      if refusal.None? {
        refusal := CheckPlayersAndScore(sub, world);
      }
      if refusal.Some? {
        return Err(refusal.value);
      }
      AcceptedIff(sub, world);
      results := results[id := GameResult(world.game.value.group, world.author.value, sub.opponent, sub.winner)];
      submittedAt := submittedAt[id := now];
      NothingDecided(before, State(), ratingWired);
      outcome := Ok(id);
    }

    /** Flips the status if the result is still pending.  For an approval with ratings wired, the flip
        and the rating update are one transaction: both are kept or neither is. */
    method CommitDecision(glicko: Glicko, id: int, d: Decision, weight: real, faults: Faults)
      returns (settlement: Settlement)
      requires id in results
      modifies this`decisions, this`ratings, this`ledger
      ensures settlement == SettlementOf(old(State()), id, d, faults, ratingWired)
      ensures State() == if settlement.Committed? then Decided(glicko, old(State()), id, d, weight, ratingWired)
          else old(State())
      // A result is decided once; then nothing can fail but the database.
      ensures id in old(decisions) ==> settlement in {AlreadyDecided, Faulted} && State() == old(State())
      ensures Fine(faults, ratingWired) ==> settlement == if id in old(decisions) then AlreadyDecided else Committed
      ensures settlement.Committed? ==> decisions == old(decisions)[id := d]
      ensures settlement.Committed? && ratingWired && (d.status.Approved? || d.status.AutoApproved?)
              && results[id].author != results[id].opponent ==>
                RatedAsPlayed(glicko, old(ratings), ratings, ledger[|old(ledger)|..], id, results[id], weight)
      ensures Progressed(old(State()), State(), ratingWired)
    {
      NothingDone(State(), ratingWired);
      if !Approving(d) || !ratingWired {
        if !faults.decideOk {
          return Faulted;
        }
        if id in decisions {
          return AlreadyDecided;
        }
        DecidedProgresses(glicko, State(), id, d, weight, ratingWired);
        decisions := decisions[id := d];
        return Committed;
      }
      if !faults.beginOk || !faults.decideOk {
        return Faulted;
      }
      if id in decisions {
        return AlreadyDecided;
      }
      var tx := new RatingTx(ratings, ledger);
      tx.ApplyInTx(glicko, id, results[id], weight);
      if !faults.applyOk || !faults.commitOk {
        return Faulted;
      }
      DecidedProgresses(glicko, State(), id, d, weight, ratingWired);
      decisions, ratings, ledger := decisions[id := d], tx.ratings, tx.ledger;
      settlement := Committed;
    }

    /** The caller is known and is the player who may take this decision. */
    ghost predicate MayDecide(id: int, actor: Reply<int>, status: ResultDecisions.Status)
      requires id in results
      reads this
    {
      actor.Found? && Permitted(results[id], Decision(status, Player(actor.value)))
    }

    /** A decision by a player.  Only the opponent may approve or reject and only the author may
        cancel; every refusal or failure leaves everything as it was. */
    method Decide(glicko: Glicko, id: int, loadOk: bool, actor: Reply<int>, status: ResultDecisions.Status,
        weight: real, faults: Faults)
      returns (outcome: Outcome)
      requires !status.AutoApproved? && Sound(State()) && DecidedByTheRight(State())
      modifies this`decisions, this`ratings, this`ledger
      ensures Sound(State()) && DecidedByTheRight(State())
      ensures outcome == Err(NotFound) <==> (loadOk && id !in results)
      ensures outcome == Err(Forbidden)
          <==> (loadOk && id in results && !actor.Broken? && !MayDecide(id, actor, status))
      ensures loadOk && id in results && MayDecide(id, actor, status) ==>
                outcome == match SettlementOf(old(State()), id, Decision(status, Player(actor.value)), faults,
                    ratingWired)
                           case Committed => Ok(id)
                           case AlreadyDecided => Err(NotPending)
                           case Faulted => Err(Internal)
      ensures outcome.Ok? ==> loadOk && id in results && MayDecide(id, actor, status)
      ensures outcome.Ok? ==> State() == Decided(glicko, old(State()), id, Decision(status, Player(actor.value)),
            weight, ratingWired)
      ensures outcome.Err? ==> State() == old(State())
      // Nobody decides a result twice; the opponent approves or rejects a pending one, the author cancels it.
      ensures id in old(decisions) ==> outcome.Err? && State() == old(State())
      ensures outcome.Ok? ==> actor == Found(if status.Canceled? then results[id].author else results[id].opponent)
      ensures outcome.Ok? ==> decisions == old(decisions)[id := Decision(status, Player(actor.value))]
      ensures loadOk && id in results && Fine(faults, ratingWired)
              && actor == Found(if status.Canceled? then results[id].author else results[id].opponent) ==>
                outcome == if id in old(decisions) then Err(NotPending) else Ok(id)
      ensures Progressed(old(State()), State(), ratingWired)
    {
      NothingDone(State(), ratingWired);
      if !loadOk {
        return Err(Internal);
      }
      if id !in results {
        return Err(NotFound);
      }
      if actor.NoRows? {
        return Err(Forbidden);
      }
      if actor.Broken? {
        return Err(Internal);
      }
      if status.Canceled? {
        if actor.value != results[id].author {
          return Err(Forbidden);
        }
      } else {
        if actor.value != results[id].opponent {
          return Err(Forbidden);
        }
      }
      var settlement := CommitDecision(glicko, id, Decision(status, Player(actor.value)), weight, faults);
      match settlement {
        case Committed => outcome := Ok(id);
        case AlreadyDecided => outcome := Err(NotPending);
        case Faulted => outcome := Err(Internal);
      }
    }

    /** The scheduler's pass over the results that have waited too long; one that fails is left for
        the next pass and does not stop the others. */
    method RunAutoApprove(glicko: Glicko, pending: seq<int>, weights: int -> real, faults: nat -> Faults)
      requires forall k :: 0 <= k < |pending| ==> pending[k] in results
      modifies this`decisions, this`ratings, this`ledger
      ensures State() == AfterPass(glicko, old(State()), pending, |pending|, weights, faults, ratingWired)
      ensures Progressed(old(State()), State(), ratingWired)
    {
      NothingDone(State(), ratingWired);
      for i := 0 to |pending|
        invariant results == old(results)
        invariant Progressed(old(State()), State(), ratingWired)
        invariant State() == AfterPass(glicko, old(State()), pending, i, weights, faults, ratingWired)
      {
        ghost var before := State();
        var settlement := CommitDecision(glicko, pending[i], AUTO, weights(pending[i]), faults(i));
        ProgressJoins(old(State()), before, State(), ratingWired);
      }
    }
  }

  // ---------------------------------------------------------------- passes and what they leave

  /** The states of the stored data over any sequence of submissions, decisions and passes, each as its call
      left it. */
  ghost predicate IsHistory(states: seq<Db>, wired: bool) {
    && states != []
    && states[0] == Db(map[], map[], map[], map[], [])
    && forall i :: 0 < i < |states| ==> Progressed(states[i - 1], states[i], wired)
  }

  lemma {:induction false} HistoryProgresses(states: seq<Db>, i: nat, j: nat, wired: bool)
    requires IsHistory(states, wired) && i <= j < |states|
    ensures Progressed(states[i], states[j], wired)
    decreases j - i
  {
    if i == j {
      NothingDone(states[i], wired);
    } else {
      HistoryProgresses(states, i, j - 1, wired);
      ProgressJoins(states[i], states[j - 1], states[j], wired);
    }
  }

  /** Over any sequence of calls a decision, once taken, stays as it is, and a result has one ledger entry for
      either player if it was approved with ratings kept, and none otherwise. */
  lemma DecidedOnceRatedOnce(states: seq<Db>, i: nat, j: nat, id: int, wired: bool)
    requires IsHistory(states, wired) && i <= j < |states|
    ensures id in states[i].decisions ==>
              id in states[j].decisions && states[j].decisions[id] == states[i].decisions[id]
    ensures id in states[j].decisions ==> id in states[j].results
    ensures EntriesFor(states[j].ledger, id)
            == if wired && id in states[j].decisions
                   && (states[j].decisions[id].status.Approved? || states[j].decisions[id].status.AutoApproved?)
               then [Key(states[j].results[id].group, states[j].results[id].author),
                     Key(states[j].results[id].group, states[j].results[id].opponent)]
               else []
  {
    HistoryProgresses(states, i, j, wired);
    HistoryProgresses(states, 0, j, wired);
    assert EntriesFor(states[0].ledger, id) == [];
  }

  ghost predicate IsPending(db: Db, id: int) {
    id in db.results && id !in db.decisions
  }

  /** The results the scheduler lists: those still pending that came in before the cutoff, each
      once, oldest first. */
  ghost predicate PendingOlderThan(db: Db, cutoff: nat, listed: seq<int>) {
    && db.results.Keys == db.submittedAt.Keys
    && Distinct(listed)
    && (forall id :: id in listed <==> IsPending(db, id) && db.submittedAt[id] < cutoff)
    && (forall i :: 0 <= i < |listed| ==> listed[i] in db.submittedAt)
    && forall i, j :: 0 <= i < j < |listed| ==> db.submittedAt[listed[i]] <= db.submittedAt[listed[j]]
  }

  /** Exactly the listed results whose own transaction went through are decided; a failure neither
      stops the later ones nor undoes the earlier ones. */
  lemma {:induction false} PassDecides(glicko: Glicko, db: Db, pending: seq<int>, n: nat, weights: int -> real,
      faults: nat -> Faults, wired: bool, k: nat)
    requires n <= |pending| && Distinct(pending)
    requires forall j :: 0 <= j < |pending| ==> pending[j] in db.results && pending[j] !in db.decisions
    requires k < |pending|
    ensures var end := AfterPass(glicko, db, pending, n, weights, faults, wired);
            && (pending[k] in end.decisions <==> k < n && Fine(faults(k), wired))
            && (pending[k] in end.decisions ==> end.decisions[pending[k]] == AUTO)
  {
    if n > 0 {
      PassDecides(glicko, db, pending, n - 1, weights, faults, wired, k);
      assert k != n - 1 ==> pending[k] != pending[n - 1];
    }
  }

  /** Every other result is as it was. */
  lemma {:induction false} PassLeavesOthers(glicko: Glicko, db: Db, pending: seq<int>, n: nat, weights: int -> real,
      faults: nat -> Faults, wired: bool, id: int)
    requires n <= |pending| && id !in pending && forall j :: 0 <= j < |pending| ==> pending[j] in db.results
    ensures var end := AfterPass(glicko, db, pending, n, weights, faults, wired);
            && end.submittedAt == db.submittedAt
            && (id in end.decisions <==> id in db.decisions)
            && (id in db.decisions ==> end.decisions[id] == db.decisions[id])
  {
    if n > 0 {
      PassLeavesOthers(glicko, db, pending, n - 1, weights, faults, wired, id);
      assert pending[n - 1] in pending;
    }
  }

  lemma ListedArePending(db: Db, cutoff: nat, listed: seq<int>, k: nat)
    requires PendingOlderThan(db, cutoff, listed) && k < |listed|
    ensures IsPending(db, listed[k])
  {
    assert listed[k] in listed;
  }

  /** After a pass in which nothing fails there is nothing left for another pass with the same
      cutoff. */
  lemma CleanPassClears(glicko: Glicko, db: Db, cutoff: nat, pending: seq<int>, weights: int -> real,
      faults: nat -> Faults, wired: bool, id: int)
    requires PendingOlderThan(db, cutoff, pending) && forall k: nat :: Fine(faults(k), wired)
    ensures var end := AfterPass(glicko, db, pending, |pending|, weights, faults, wired);
            IsPending(end, id) ==> id in db.submittedAt && db.submittedAt[id] >= cutoff
  {
    forall k: nat | k < |pending| ensures pending[k] in db.results && pending[k] !in db.decisions {
      ListedArePending(db, cutoff, pending, k);
    }
    if id in pending {
      var k :| 0 <= k < |pending| && pending[k] == id;
      PassDecides(glicko, db, pending, |pending|, weights, faults, wired, k);
      assert Fine(faults(k), wired);
    } else {
      PassLeavesOthers(glicko, db, pending, |pending|, weights, faults, wired, id);
      assert IsPending(db, id) ==> id in db.submittedAt;
    }
  }

  /** Ratings and ledger are the replay of some list of approvals. */
  ghost predicate Replayed(glicko: Glicko, db: Db, log: seq<Commit>) {
    db.ratings == Replay(glicko, log) && db.ledger == ReplayLedger(glicko, log)
  }

  /** The approvals of a pass over pending results, in the order of the list: those whose transaction went
      through, each with the weight of its own result. */
  ghost function PassLog(results: map<int, GameResult>, pending: seq<int>, n: nat, weights: int -> real,
      faults: nat -> Faults): seq<Commit>
    requires n <= |pending| && forall j :: 0 <= j < |pending| ==> pending[j] in results
  {
    if n == 0 then []
    else
      var id := pending[n - 1];
      PassLog(results, pending, n - 1, weights, faults)
      + (if Fine(faults(n - 1), true) then [Commit(id, results[id], weights(id))] else [])
  }

  /** A decision keeps ratings and ledger the replay of the approvals, this one included. */
  lemma DecisionReplays(glicko: Glicko, db: Db, log: seq<Commit>, id: int, d: Decision, weight: real, wired: bool)
    requires id in db.results && Replayed(glicko, db, log)
    ensures Replayed(glicko, Decided(glicko, db, id, d, weight, wired),
                     if Approving(d) && wired then log + [Commit(id, db.results[id], weight)] else log)
  {
    var longer := log + [Commit(id, db.results[id], weight)];
    assert longer[..|log|] == log;
  }

  /** One result of a pass adds its approval to what is replayed, or nothing. */
  lemma ReplayNext(glicko: Glicko, db: Db, log: seq<Commit>, more: seq<Commit>, id: int, weight: real, fine: bool)
    requires id in db.results && Replayed(glicko, db, log + more)
    ensures Replayed(glicko, if fine then Decided(glicko, db, id, AUTO, weight, true) else db,
              log + (more + (if fine then [Commit(id, db.results[id], weight)] else [])))
  {
    if fine {
      DecisionReplays(glicko, db, log + more, id, AUTO, weight, true);
      assert (log + more) + [Commit(id, db.results[id], weight)]
          == log + (more + [Commit(id, db.results[id], weight)]);
    } else {
      assert more + [] == more;
    }
  }

  lemma PassNext(glicko: Glicko, db: Db, pending: seq<int>, n: nat, weights: int -> real, faults: nat -> Faults)
    requires n < |pending| && Distinct(pending)
    requires forall j :: 0 <= j < |pending| ==> pending[j] in db.results && pending[j] !in db.decisions
    ensures var before := AfterPass(glicko, db, pending, n, weights, faults, true);
            AfterPass(glicko, db, pending, n + 1, weights, faults, true)
            == if Fine(faults(n), true) then Decided(glicko, before, pending[n], AUTO, weights(pending[n]), true)
               else before
  {
    PassDecides(glicko, db, pending, n, weights, faults, true, n);
  }

  /** After a pass ratings and ledger are the replay of the earlier approvals and those of the pass. */
  lemma {:induction false} PassReplays(glicko: Glicko, db: Db, log: seq<Commit>, pending: seq<int>, n: nat,
      weights: int -> real, faults: nat -> Faults)
    requires n <= |pending| && Distinct(pending) && Replayed(glicko, db, log)
    requires forall j :: 0 <= j < |pending| ==> pending[j] in db.results && pending[j] !in db.decisions
    ensures Replayed(glicko, AfterPass(glicko, db, pending, n, weights, faults, true),
              log + PassLog(db.results, pending, n, weights, faults))
  {
    if n == 0 {
      assert log + [] == log;
    } else {
      PassReplays(glicko, db, log, pending, n - 1, weights, faults);
      PassNext(glicko, db, pending, n - 1, weights, faults);
      ReplayNext(glicko, AfterPass(glicko, db, pending, n - 1, weights, faults, true), log,
          PassLog(db.results, pending, n - 1, weights, faults), pending[n - 1], weights(pending[n - 1]),
          Fine(faults(n - 1), true));
    }
  }
}
