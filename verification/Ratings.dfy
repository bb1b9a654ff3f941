/** Glicko ratings of a group: the update one approved result makes, written as the service writes
    it, and its meaning as a function of the rating table and the ledger.

    The Glicko-2 formula itself stays a parameter: `glicko(player, opponent, score, weight)`. */
module Ratings {

  import opened Basics

  datatype Rating = Rating(r: real, rd: real, sigma: real)

  datatype PlayerRating = PlayerRating(rating: Rating, games: nat)

  datatype Key = Key(group: int, player: int)

  datatype GameResult = GameResult(group: int, author: int, opponent: int, winner: Option<int>)

  datatype RatingChange = RatingChange(resultId: int, key: Key, oldRating: Rating, newRating: Rating, delta: real)

  type Glicko = (Rating, Rating, real, real) -> Rating

  type Table = map<Key, PlayerRating>

  const DEFAULT := PlayerRating(Rating(1500.0, 350.0, 0.06), 0)

  // ---------------------------------------------------------------- one result, as a function

  /** The rating a player has, or starts from. */
  function Current(table: Table, key: Key): PlayerRating {
    if key in table then table[key] else DEFAULT
  }

  function AuthorKey(res: GameResult): Key {
    Key(res.group, res.author)
  }

  function OpponentKey(res: GameResult): Key {
    Key(res.group, res.opponent)
  }

  function AuthorScore(res: GameResult): real {
    if res.winner.None? then 0.5 else if res.winner.value == res.author then 1.0 else 0.0
  }

  /** The player's rating after beating, losing to or drawing with `other`. */
  function Played(glicko: Glicko, own: PlayerRating, other: PlayerRating, score: real, weight: real): PlayerRating {
    PlayerRating(glicko(own.rating, other.rating, score, weight), own.games + 1)
  }

  function UpdatedTable(glicko: Glicko, table: Table, res: GameResult, weight: real, a: PlayerRating,
      o: PlayerRating): Table
  {
    table[AuthorKey(res) := Played(glicko, a, o, AuthorScore(res), weight)]
         [OpponentKey(res) := Played(glicko, o, a, 1.0 - AuthorScore(res), weight)]
  }

  function Change(resultId: int, key: Key, before: Rating, after: Rating): RatingChange {
    RatingChange(resultId, key, before, after, after.r - before.r)
  }

  /** The two ledger entries one approved result makes, the author's first. */
  function Changes(glicko: Glicko, resultId: int, res: GameResult, weight: real, a: PlayerRating,
      o: PlayerRating): seq<RatingChange>
  {
    var authorNew := glicko(a.rating, o.rating, AuthorScore(res), weight);
    var opponentNew := glicko(o.rating, a.rating, 1.0 - AuthorScore(res), weight);
    [Change(resultId, AuthorKey(res), a.rating, authorNew), Change(resultId, OpponentKey(res), o.rating, opponentNew)]
  }

  /** The rating table after one approved result. */
  function ApplyResult(glicko: Glicko, table: Table, res: GameResult, weight: real): Table {
    UpdatedTable(glicko, table, res, weight, Current(table, AuthorKey(res)), Current(table, OpponentKey(res)))
  }

  function LedgerOf(glicko: Glicko, table: Table, resultId: int, res: GameResult, weight: real): seq<RatingChange> {
    Changes(glicko, resultId, res, weight, Current(table, AuthorKey(res)), Current(table, OpponentKey(res)))
  }

  /** The player under `key` met the one under `rival`: the player's new row, and the player's one entry among
      those `added` to the ledger, hold the rating for that score against the rival's rating of before. */
  ghost predicate Rated(glicko: Glicko, before: Table, after: Table, added: seq<RatingChange>, resultId: int,
      key: Key, rival: Key, score: real, weight: real)
  {
    var beginner := PlayerRating(Rating(1500.0, 350.0, 0.06), 0);
    var own, other := if key in before then before[key] else beginner, if rival in before then before[rival]
        else beginner;
    var rating := glicko(own.rating, other.rating, score, weight);
    && key in after && after[key] == PlayerRating(rating, own.games + 1)
    && RatingChange(resultId, key, own.rating, rating, rating.r - own.rating.r) in added
    && forall change :: change in added && change.key == key ==> change.newRating == rating
  }

  /** The winner is rated for a win over the loser and the loser for a loss, whoever of the two submitted the
      result; after a draw both are rated for half a win.  Nobody else's row or ledger is touched. */
  ghost predicate RatedAsPlayed(glicko: Glicko, before: Table, after: Table, added: seq<RatingChange>, resultId: int,
      res: GameResult, weight: real)
  {
    var author, opponent := Key(res.group, res.author), Key(res.group, res.opponent);
    && |added| == 2
    && (forall key :: key != author && key != opponent ==>
          (key in after <==> key in before) && (key in before ==> after[key] == before[key]))
    && (res.winner == Some(res.author) ==>
          && Rated(glicko, before, after, added, resultId, author, opponent, 1.0, weight)
          && Rated(glicko, before, after, added, resultId, opponent, author, 0.0, weight))
    && (res.winner == Some(res.opponent) ==>
          && Rated(glicko, before, after, added, resultId, opponent, author, 1.0, weight)
          && Rated(glicko, before, after, added, resultId, author, opponent, 0.0, weight))
    && (res.winner == None ==>
          && Rated(glicko, before, after, added, resultId, author, opponent, 0.5, weight)
          && Rated(glicko, before, after, added, resultId, opponent, author, 0.5, weight))
  }

  lemma AuthorRated(glicko: Glicko, table: Table, resultId: int, res: GameResult, weight: real)
    requires res.author != res.opponent
    ensures Rated(glicko, table, ApplyResult(glicko, table, res, weight),
              LedgerOf(glicko, table, resultId, res, weight), resultId, AuthorKey(res), OpponentKey(res),
              AuthorScore(res), weight)
  {
    var added := LedgerOf(glicko, table, resultId, res, weight);
    assert added[0] in added && added[1].key != AuthorKey(res);
  }

  lemma OpponentRated(glicko: Glicko, table: Table, resultId: int, res: GameResult, weight: real)
    requires res.author != res.opponent
    ensures Rated(glicko, table, ApplyResult(glicko, table, res, weight),
              LedgerOf(glicko, table, resultId, res, weight), resultId, OpponentKey(res), AuthorKey(res),
              1.0 - AuthorScore(res), weight)
  {
    var added := LedgerOf(glicko, table, resultId, res, weight);
    assert added[1] in added && added[0].key != OpponentKey(res);
  }

  lemma ApplyRates(glicko: Glicko, table: Table, resultId: int, res: GameResult, weight: real)
    requires res.author != res.opponent
    ensures RatedAsPlayed(glicko, table, ApplyResult(glicko, table, res, weight),
              LedgerOf(glicko, table, resultId, res, weight), resultId, res, weight)
  {
    AuthorRated(glicko, table, resultId, res, weight);
    OpponentRated(glicko, table, resultId, res, weight);
  }

  /** Rows created with the starting values make no difference to the updated table. */
  lemma SameUpdate(glicko: Glicko, before: Table, after: Table, res: GameResult, weight: real, a: PlayerRating,
      o: PlayerRating)
    requires before.Keys <= after.Keys <= before.Keys + {AuthorKey(res), OpponentKey(res)}
    requires forall k :: k in after ==> after[k] == Current(before, k)
    ensures UpdatedTable(glicko, after, res, weight, a, o) == UpdatedTable(glicko, before, res, weight, a, o)
  {
  }

  /** The two rows one result locks, in locking order. */
  function LowKey(res: GameResult): Key {
    Key(res.group, if res.author > res.opponent then res.opponent else res.author)
  }

  function HighKey(res: GameResult): Key {
    Key(res.group, if res.author > res.opponent then res.author else res.opponent)
  }

  // ---------------------------------------------------------------- one result, as the service does it

  /** The rating tables as one transaction sees them. */
  class RatingTx {
    var ratings: Table
    var ledger: seq<RatingChange>
    /** The rating rows locked so far, in order. */
    var locked: seq<Key>

    constructor (ratings: Table, ledger: seq<RatingChange>)
      ensures this.ratings == ratings && this.ledger == ledger && locked == []
    {
      this.ratings, this.ledger, this.locked := ratings, ledger, [];
    }

    /** Locks the player's row, creating it with the starting values when there is none. */
    method GetOrInitForUpdate(key: Key) returns (pr: PlayerRating)
      modifies this`ratings, this`locked
      ensures pr == Current(old(ratings), key)
      ensures key !in old(ratings) ==> pr.rating == Rating(1500.0, 350.0, 0.06) && pr.games == 0
      ensures ratings == old(ratings)[key := pr]
      ensures locked == old(locked) + [key]
    {
      locked := locked + [key];
      if key !in ratings {
        ratings := ratings[key := DEFAULT];
      }
      pr := ratings[key];
      assert ratings == old(ratings)[key := pr];
    }

    method Upsert(key: Key, pr: PlayerRating)
      modifies this`ratings
      ensures ratings == old(ratings)[key := pr]
    {
      ratings := ratings[key := pr];
    }

    method InsertChange(change: RatingChange)
      modifies this`ledger
      ensures ledger == old(ledger) + [change]
    {
      ledger := ledger + [change];
    }

    /** Locks and loads both rows in the given order. */
    method LoadBoth(group: int, playerIDs: seq<int>) returns (loaded: map<int, PlayerRating>)
      requires |playerIDs| == 2
      modifies this`ratings, this`locked
      ensures forall p :: p in playerIDs ==> p in loaded && loaded[p] == Current(old(ratings), Key(group, p))
      ensures old(ratings).Keys <= ratings.Keys <= old(ratings).Keys + {Key(group, playerIDs[0]),
          Key(group, playerIDs[1])}
      ensures forall k :: k in ratings ==> ratings[k] == Current(old(ratings), k)
      ensures locked == old(locked) + [Key(group, playerIDs[0]), Key(group, playerIDs[1])]
    {
      loaded := map[];
      for i := 0 to 2
        invariant forall k :: 0 <= k < i ==> playerIDs[k] in loaded
        invariant forall p :: p in loaded ==> loaded[p] == Current(old(ratings), Key(group, p))
        invariant old(ratings).Keys <= ratings.Keys <= old(ratings).Keys + {Key(group, playerIDs[0]),
            Key(group, playerIDs[1])}
        invariant forall k :: k in ratings ==> ratings[k] == Current(old(ratings), k)
        invariant locked == old(locked) + [Key(group, playerIDs[0]), Key(group, playerIDs[1])][..i]
      {
        var pr := GetOrInitForUpdate(Key(group, playerIDs[i]));
        loaded := loaded[playerIDs[i] := pr];
      }
    }

    /** Both rows are locked before either is used; the table and the ledger move together. */
    method ApplyInTx(glicko: Glicko, resultId: int, result: GameResult, weight: real)
      modifies this
      ensures ratings == ApplyResult(glicko, old(ratings), result, weight)
      ensures ledger == old(ledger) + LedgerOf(glicko, old(ratings), resultId, result, weight)
      ensures locked == old(locked) + [LowKey(result), HighKey(result)]
      ensures result.author != result.opponent ==>
                RatedAsPlayed(glicko, old(ratings), ratings, ledger[|old(ledger)|..], resultId, result, weight)
    {
      var playerIDs := [result.author, result.opponent];
      if playerIDs[0] > playerIDs[1] {
        playerIDs := [playerIDs[1], playerIDs[0]];
      }
      assert result.author in playerIDs && result.opponent in playerIDs;
      var loaded := LoadBoth(result.group, playerIDs);
      var author, opponent := loaded[result.author], loaded[result.opponent];
      SameUpdate(glicko, old(ratings), ratings, result, weight, author, opponent);
      StoreBoth(glicko, resultId, result, weight, author, opponent);
      if result.author != result.opponent {
        ApplyRates(glicko, old(ratings), resultId, result, weight);
      }
    }

    /** Writes both new ratings and both ledger entries. */
    method StoreBoth(glicko: Glicko, resultId: int, result: GameResult, weight: real, author: PlayerRating,
        opponent: PlayerRating)
      modifies this`ratings, this`ledger
      ensures ratings == UpdatedTable(glicko, old(ratings), result, weight, author, opponent)
      ensures ledger == old(ledger) + Changes(glicko, resultId, result, weight, author, opponent)
    {
      var authorScore, opponentScore;
      if result.winner.None? {
        authorScore, opponentScore := 0.5, 0.5;
      } else if result.winner.value == result.author {
        authorScore, opponentScore := 1.0, 0.0;
      } else {
        authorScore, opponentScore := 0.0, 1.0;
      }
      var authorNew := glicko(author.rating, opponent.rating, authorScore, weight);
      var opponentNew := glicko(opponent.rating, author.rating, opponentScore, weight);
      Upsert(AuthorKey(result), PlayerRating(authorNew, author.games + 1));
      Upsert(OpponentKey(result), PlayerRating(opponentNew, opponent.games + 1));
      InsertChange(RatingChange(resultId, AuthorKey(result), author.rating, authorNew, authorNew.r - author.rating.r));
      InsertChange(RatingChange(resultId, OpponentKey(result), opponent.rating, opponentNew,
          opponentNew.r - opponent.rating.r));
    }
  }

  // ---------------------------------------------------------------- many results, one at a time

  /** A committed approval. */
  datatype Commit = Commit(resultId: int, result: GameResult, weight: real)

  ghost function Replay(glicko: Glicko, log: seq<Commit>): Table {
    if log == [] then map[]
    else
      var n := |log| - 1;
      ApplyResult(glicko, Replay(glicko, log[..n]), log[n].result, log[n].weight)
  }

  ghost function ReplayLedger(glicko: Glicko, log: seq<Commit>): seq<RatingChange> {
    if log == [] then []
    else
      var n := |log| - 1;
      ReplayLedger(glicko, log[..n]) + LedgerOf(glicko, Replay(glicko, log[..n]), log[n].resultId, log[n].result,
          log[n].weight)
  }

  predicate Involves(res: GameResult, key: Key) {
    AuthorKey(res) == key || OpponentKey(res) == key
  }

  /** The committed approvals that a player took part in. */
  ghost function GamesOf(log: seq<Commit>, key: Key): nat {
    if log == [] then 0
    else
      var n := |log| - 1;
      GamesOf(log[..n], key) + (if Involves(log[n].result, key) then 1 else 0)
  }

  ghost function DeltaSum(ledger: seq<RatingChange>, key: Key): real {
    if ledger == [] then 0.0
    else
      var n := |ledger| - 1;
      DeltaSum(ledger[..n], key) + (if ledger[n].key == key then ledger[n].delta else 0.0)
  }

  lemma DeltaSumTwo(ledger: seq<RatingChange>, a: RatingChange, b: RatingChange, key: Key)
    ensures DeltaSum(ledger + [a, b], key)
            == DeltaSum(ledger, key) + (if a.key == key then a.delta else 0.0) + (if b.key == key then b.delta else 0.0)
  {
    var one, two := ledger + [a], ledger + [a, b];
    assert one[..|ledger|] == ledger && two[..|one|] == one;
  }

  /** One approval adds one game and one delta to each of its players and leaves everyone else alone. */
  lemma ApplyConserves(glicko: Glicko, table: Table, id: int, res: GameResult, weight: real, key: Key)
    requires res.author != res.opponent
    ensures var was, now := Current(table, key), Current(ApplyResult(glicko, table, res, weight), key);
            var added := LedgerOf(glicko, table, id, res, weight);
            && now.games == was.games + (if Involves(res, key) then 1 else 0)
            && now.rating.r == was.rating.r + (if added[0].key == key then added[0].delta else 0.0)
                                            + (if added[1].key == key then added[1].delta else 0.0)
  {
    assert AuthorKey(res) != OpponentKey(res);
  }

  /** The ledger accounts for every rating: a player's games are the approvals the player took part
      in, and the rating is 1500 plus the recorded deltas. */
  lemma {:induction false} LedgerConservation(glicko: Glicko, log: seq<Commit>, key: Key)
    requires forall i :: 0 <= i < |log| ==> log[i].result.author != log[i].result.opponent
    ensures Current(Replay(glicko, log), key).games == GamesOf(log, key)
    ensures Current(Replay(glicko, log), key).rating.r == 1500.0 + DeltaSum(ReplayLedger(glicko, log), key)
  {
    if log != [] {
      var n := |log| - 1;
      LedgerConservation(glicko, log[..n], key);
      var table, c := Replay(glicko, log[..n]), log[n];
      var added := LedgerOf(glicko, table, c.resultId, c.result, c.weight);
      ApplyConserves(glicko, table, c.resultId, c.result, c.weight, key);
      assert added == [added[0], added[1]];
      DeltaSumTwo(ReplayLedger(glicko, log[..n]), added[0], added[1], key);
    }
  }
}
