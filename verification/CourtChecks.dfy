/** The checks that give back courts nobody needs: the halfway check, the reminder and the final
    check.  Each counts heads, asks for the surplus courts to be released, and reports. */
module CourtChecks {

  import opened Basics
  import opened CourtStrings
  import opened CourtSelection
  import opened CourtCancellation

  // ---------------------------------------------------------------- arithmetic

  function PerCourt(playersPerCourt: nat): (p: nat)
    ensures p > 0
  {
    if playersPerCourt == 0 then 2 else playersPerCourt
  }

  /** Courts that can be given up whole: what the reminder and the final check ask for. */
  function Surplus(courtsCount: nat, p: nat, heads: nat): (n: nat)
    requires p > 0
  {
    if heads < courtsCount * p then (courtsCount * p - heads) / p else 0
  }

  /** The fewest courts that hold the players. */
  function Needed(p: nat, heads: nat): nat
    requires p > 0
  {
    (heads + p - 1) / p
  }

  lemma MultipleAway(d: int, p: nat)
    ensures d >= 1 ==> d * p >= p
    ensures d <= -1 ==> d * p <= 0 - p
  {
    if d >= 1 {
      assert d * p == p + (d - 1) * p;
    } else if d <= -1 {
      assert (0 - d) * p == p + (0 - d - 1) * p;
    }
  }

  lemma DivUnique(a: int, q: int, r: int, p: nat)
    requires p > 0 && a == q * p + r && 0 <= r < p
    ensures a / p == q && a % p == r
  {
    var q', r' := a / p, a % p;
    assert a == q' * p + r';
    calc {
      (q - q') * p;
      q * p - q' * p;
      r' - r;
    }
    MultipleAway(q - q', p);
  }

  /** Giving up the whole surplus leaves exactly the courts needed. */
  lemma SurplusLeavesNeeded(courtsCount: nat, p: nat, heads: nat)
    requires p > 0 && heads <= courtsCount * p
    ensures Surplus(courtsCount, p, heads) <= courtsCount
    ensures courtsCount - Surplus(courtsCount, p, heads) == Needed(p, heads)
  {
    var spare := courtsCount * p - heads;
    var r, m := spare / p, spare % p;
    assert spare == r * p + m;
    assert heads + p - 1 == (courtsCount - r) * p + (p - 1 - m);
    DivUnique(heads + p - 1, courtsCount - r, p - 1 - m, p);
    assert (courtsCount - r) * p >= 0;
    assert heads == courtsCount * p ==> r == 0;
  }

  /** Multiplying by the court size keeps the order. */
  lemma ScaledOrder(a: int, b: int, p: nat)
    ensures a <= b ==> a * p <= b * p
  {
    if a <= b {
      calc {
        b * p - a * p;
        (b - a) * p;
      }
      assert 0 <= (b - a) * p;
    }
  }

  /** The courts needed are the least number of courts that hold the players. */
  lemma NeededBounds(p: nat, heads: nat)
    requires p > 0
    ensures heads <= Needed(p, heads) * p < heads + p
  {
    var n, m := Needed(p, heads), (heads + p - 1) % p;
    assert heads + p - 1 == n * p + m;
  }

  lemma NeededHolds(p: nat, heads: nat, courtsCount: nat)
    requires p > 0
    ensures heads <= courtsCount * p <==> Needed(p, heads) <= courtsCount
  {
    var n := Needed(p, heads);
    NeededBounds(p, heads);
    if n <= courtsCount {
      ScaledOrder(n, courtsCount, p);
    } else {
      ScaledOrder(courtsCount, n - 1, p);
      assert (n - 1) * p == n * p - p;
    }
  }

  // ---------------------------------------------------------------- what a check asks for

  datatype Check = Halfway | Reminder | Final

  function Requested(check: Check, courtsCount: nat, p: nat, heads: nat): nat
    requires p > 0
  {
    var surplus := Surplus(courtsCount, p, heads);
    if check.Halfway? then surplus / 2 else surplus
  }

  /** A release of at most the requested courts from a list that held everybody leaves a list that
      holds everybody. */
  lemma ReleaseNeverStrands(check: Check, before: nat, after: nat, p: nat, heads: nat)
    requires p > 0 && heads <= before * p && before - Requested(check, before, p, heads) <= after
    ensures heads <= after * p
  {
    SurplusLeavesNeeded(before, p, heads);
    NeededHolds(p, heads, after);
  }

  /** With no change in head-count, full releases end at the fewest courts that hold the players,
      whether or not the halfway check came first. */
  lemma FullReleasesReachNeeded(courtsCount: nat, p: nat, heads: nat)
    requires p > 0 && heads <= courtsCount * p
    ensures var direct := courtsCount - Requested(Final, courtsCount, p, heads);
            var half := courtsCount - Requested(Halfway, courtsCount, p, heads);
            && direct == Needed(p, heads)
            && half >= 0 && half - Requested(Reminder, half, p, heads) == Needed(p, heads)
            && Requested(Final, Needed(p, heads), p, heads) == 0
  {
    SurplusLeavesNeeded(courtsCount, p, heads);
    var half := courtsCount - Requested(Halfway, courtsCount, p, heads);
    NeededHolds(p, heads, half);
    SurplusLeavesNeeded(half, p, heads);
    NeededHolds(p, heads, Needed(p, heads));
    SurplusLeavesNeeded(Needed(p, heads), p, heads);
  }

  // ---------------------------------------------------------------- what a check is for

  /** So many courts hold the heads, `q` to a court, and one court fewer would not. */
  predicate JustHolds(courts: int, q: nat, heads: nat) {
    heads <= courts * q && (courts - 1) * q < heads
  }

  /** What a check is to leave of `listed` courts, `q` players to a court.  Whatever fails, there is room for
      the players it saw if there was; too few courts stay as they are.  When nothing fails the courts these
      players need stay and no more, or after a halfway check the larger half of the others as well. */
  ghost predicate LeavesRight(check: Check, listed: int, left: int, q: nat, heads: nat, nothingFailed: bool) {
    && (heads <= listed * q ==> heads <= left * q)
    && (heads > listed * q ==> left == listed)
    && (heads <= listed * q && nothingFailed ==>
          exists needed :: JustHolds(needed, q, heads)
                           && left == needed + (if check.Halfway? then (listed - needed + 1) / 2 else 0))
  }

  lemma NeededJustHolds(q: nat, heads: nat)
    requires q > 0
    ensures JustHolds(Needed(q, heads), q, heads)
  {
    var n := Needed(q, heads);
    NeededBounds(q, heads);
    assert (n - 1) * q == n * q - q;
  }

  lemma RequestWithin(check: Check, listed: nat, q: nat, heads: nat)
    requires q > 0
    ensures Requested(check, listed, q, heads) <= listed
  {
    if heads <= listed * q {
      SurplusLeavesNeeded(listed, q, heads);
    }
  }

  /** The request of a check, granted in part or in full. */
  lemma RequestLeavesRight(check: Check, listed: nat, left: nat, q: nat, heads: nat, nothingFailed: bool)
    requires q > 0 && listed - Requested(check, listed, q, heads) <= left <= listed
    requires nothingFailed ==> left == listed - Requested(check, listed, q, heads)
    ensures LeavesRight(check, listed, left, q, heads, nothingFailed)
  {
    if heads <= listed * q {
      ReleaseNeverStrands(check, listed, left, q, heads);
      SurplusLeavesNeeded(listed, q, heads);
      NeededJustHolds(q, heads);
    }
  }

  // ---------------------------------------------------------------- what a check announces

  datatype Scenario = AllCanceled | CanceledBalanced | OddCanceled | OddNoCancel | EvenNoCancel | AllGood

  function DetermineScenario(count: nat, newCourtsCount: nat, didCancel: bool, playersPerCourt: nat): Scenario
    requires playersPerCourt > 0
  {
    var newCapacity := newCourtsCount * playersPerCourt;
    var rem := count % playersPerCourt;
    if newCourtsCount == 0 then AllCanceled
    else if didCancel && count == newCapacity then CanceledBalanced
    else if count < newCapacity && rem != 0 && didCancel then OddCanceled
    else if count < newCapacity && rem != 0 then OddNoCancel
    else if count < newCapacity then EvenNoCancel
    else AllGood
  }

  /** The free places the odd announcement advertises. */
  function FreeSpots(count: nat, playersPerCourt: nat): int
    requires playersPerCourt > 0
  {
    playersPerCourt - count % playersPerCourt
  }

  /** How the courts needed split the head-count. */
  lemma NeededRemainder(p: nat, heads: nat)
    requires p > 0
    ensures heads % p == 0 ==> Needed(p, heads) * p == heads
    ensures heads % p != 0 ==> Needed(p, heads) * p == heads + FreeSpots(heads, p)
  {
    var q, r := heads / p, heads % p;
    assert heads == q * p + r;
    if r == 0 {
      DivUnique(heads + p - 1, q, p - 1, p);
    } else {
      assert heads + p - 1 == (q + 1) * p + (r - 1);
      DivUnique(heads + p - 1, q + 1, r - 1, p);
      assert (q + 1) * p == q * p + p;
    }
  }

  /** The capacity of at least the courts needed, against the head-count. */
  lemma CapacityBeyondNeed(left: nat, p: nat, heads: nat)
    requires p > 0 && left >= Needed(p, heads)
    ensures left == Needed(p, heads) <==> left * p < heads + p
    ensures heads % p == 0 ==> (left == Needed(p, heads) <==> left * p == heads)
    ensures heads % p != 0 ==>
              left * p > heads && (left == Needed(p, heads) <==> left * p == heads + FreeSpots(heads, p))
    ensures left * p >= heads && (left == 0 <==> left * p == 0)
  {
    var n := Needed(p, heads);
    NeededRemainder(p, heads);
    NeededBounds(p, heads);
    assert left * p == n * p + (left - n) * p;
    MultipleAway(left - n, p);
    MultipleAway(left, p);
  }

  /** The announcement of a release that left at least the courts needed. */
  lemma LeftScenario(left: nat, p: nat, heads: nat)
    requires p > 0 && left >= Needed(p, heads)
    ensures var scenario, n := DetermineScenario(heads, left, true, p), Needed(p, heads);
            && (scenario == AllCanceled <==> left == 0)
            && (scenario == CanceledBalanced <==> 0 < left == n && heads % p == 0)
            && (scenario == OddCanceled <==> heads % p != 0)
            && (scenario == EvenNoCancel <==> left > n && heads % p == 0)
            && (heads % p != 0 ==> (FreeSpots(heads, p) == left * p - heads <==> left == n))
  {
    CapacityBeyondNeed(left, p, heads);
  }

  /** When a check released `canceled` of the surplus, the announcement is one of the three about a
      release exactly when the release was complete or the last court is half-filled; and the
      advertised places are the free ones exactly when it was complete. */
  lemma AnnouncementTruth(courtsCount: nat, p: nat, heads: nat, canceled: nat)
    requires p > 0 && heads < courtsCount * p && 0 < canceled <= Surplus(courtsCount, p, heads)
        && canceled <= courtsCount
    ensures var left := courtsCount - canceled;
            var complete := canceled == Surplus(courtsCount, p, heads);
            var scenario := DetermineScenario(heads, left, true, p);
            && (complete ==> scenario in {AllCanceled, CanceledBalanced, OddCanceled})
            && (scenario == AllCanceled <==> complete && heads == 0)
            && (scenario == CanceledBalanced <==> complete && heads % p == 0 && heads > 0)
            && (scenario == OddCanceled <==> heads % p != 0)
            && (scenario == OddCanceled ==> (FreeSpots(heads, p) == left * p - heads <==> complete))
            && (scenario == EvenNoCancel <==> !complete && heads % p == 0)
  {
    var left := courtsCount - canceled;
    SurplusLeavesNeeded(courtsCount, p, heads);
    NeededHolds(p, heads, 0);
    LeftScenario(left, p, heads);
  }

  /** What each announcement says of the courts left, the courts the heads need at `q` to a court, and
      whether courts were released. */
  ghost predicate SaysWhatIs(scenario: Scenario, q: nat, heads: nat, left: int, released: bool) {
    exists needed :: JustHolds(needed, q, heads) &&
      match scenario
      case AllCanceled => left == 0
      case CanceledBalanced => released && 0 < left == needed && heads == needed * q
      case OddCanceled => released && 0 < left && needed <= left && heads < needed * q
      case OddNoCancel => !released && 0 < left && needed <= left && heads < needed * q
      case EvenNoCancel => needed < left && heads == needed * q
      case AllGood => 0 < left && (left < needed || (!released && left == needed && heads == needed * q))
  }

  lemma ScenarioSays(q: nat, heads: nat, left: nat, released: bool)
    requires q > 0
    ensures SaysWhatIs(DetermineScenario(heads, left, released, q), q, heads, left, released)
  {
    NeededJustHolds(q, heads);
    NeededHolds(q, heads, left);
    NeededRemainder(q, heads);
    if Needed(q, heads) <= left {
      CapacityBeyondNeed(left, q, heads);
    }
  }

  /** No two announcements fit the same courts, heads and release. */
  lemma ScenarioUnique(a: Scenario, b: Scenario, q: nat, heads: nat, left: int, released: bool)
    requires SaysWhatIs(a, q, heads, left, released) && SaysWhatIs(b, q, heads, left, released)
    ensures a == b
  {
    var m :| JustHolds(m, q, heads);
    forall n | JustHolds(n, q, heads) ensures n == m {
      ScaledOrder(m, n - 1, q);
      ScaledOrder(n, m - 1, q);
    }
  }

  /** The free places are those that fill the last court. */
  lemma FreeSpotsFill(heads: nat, q: nat)
    requires q > 0
    ensures 0 < FreeSpots(heads, q) <= q && (heads + FreeSpots(heads, q)) % q == 0
  {
    var k := heads / q;
    assert heads + FreeSpots(heads, q) == k * q + q == (k + 1) * q + 0;
    DivUnique(heads + FreeSpots(heads, q), k + 1, 0, q);
  }

  // ---------------------------------------------------------------- the jobs

  /** The capacity is a whole number of courts, so dividing it by the court count gives back the
      players per court. */
  lemma CapacityDivides(courtsCount: int, p: nat)
    requires courtsCount > 0
    ensures courtsCount * p / courtsCount == p
  {
    DivUnique(courtsCount * p, p, 0, courtsCount);
  }

  /** What a check reads and what its writes meet with: the head-count, whether the group's time zone
      is known, the booking records, the venue's preferences and all later answers. */
  datatype Input = Input(heads: Option<nat>, zoneKnown: bool, entries: EntriesReply, autoBookingCourts: string,
                         replies: nat -> CourtReply, persistOk: bool, sendOk: bool, markOk: bool)

  /** Skipped: the head-count could not be read.  Crashed: the division by the court count failed. */
  datatype Outcome = Skipped | Crashed | Quiet | Tried(release: CourtCancellation.Outcome)

  /** The halfway check only reports head-count, capacity and courts; the others classify the outcome
      and advertise free places. */
  datatype Announcement = Shrunk(count: nat, newCapacity: int, newCourtsCount: int)
                        | Classified(check: Check, scenario: Scenario, freeSpots: int, newCourtsCount: int)

  ghost function NoteFor(check: Check, heads: nat, p: nat, result: CancelResult): Announcement
    requires p > 0
  {
    var left := result.remainingCount;
    if check.Halfway? then Shrunk(heads, left * p, left)
    else Classified(check, DetermineScenario(heads, Max(0, left), result.canceledCourts != [], p),
        FreeSpots(heads, p), left)
  }

  /** What the canceler does when asked for `n` courts. */
  ghost predicate ReleaseStep(st: ReleaseState, st': ReleaseState, release: CourtCancellation.Outcome,
      selected: seq<int>, game: Game, input: Input, n: nat, bookingWired: bool, credWired: bool)
  {
    if !bookingWired || n == 0 then release == Done(NoOp(game, 0)) && selected == [] && st' == st
    else if !input.entries.Loaded? || input.entries.entries == [] then release == Failed(NoBookingRecords)
        && selected == [] && st' == st
    else ReleaseEffect(st, st', release, selected, game, input.entries.entries, input.autoBookingCourts, n,
          input.replies, credWired, input.persistOk)
  }

  // ---------------------------------------------------------------- what one check does to the stored list

  /** The stored row is the one the check was given, and its count is the length of its list. */
  ghost predicate InStep(st: ReleaseState, game: Game) {
    st.courts == game.courts && st.courtsCount == game.courtsCount == |CourtTokens(game.courts)|
  }

  /** Whatever fails, the stored list loses at most the courts asked for and stays counted. */
  lemma StepShrinks(st: ReleaseState, st': ReleaseState, release: CourtCancellation.Outcome, selected: seq<int>,
      game: Game, input: Input, n: nat, bookingWired: bool, credWired: bool)
    requires InStep(st, game) && ReleaseStep(st, st', release, selected, game, input, n, bookingWired, credWired)
    ensures st'.courtsCount == |CourtTokens(st'.courts)| && st.courtsCount - n <= st'.courtsCount <= st.courtsCount
    ensures release.Done? ==> release.result.remainingCount == st'.courtsCount
  {
    if bookingWired && n != 0 && input.entries.Loaded? && input.entries.entries != [] && release.Done? {
      ReleaseGuarantee(st, st', release.result, selected, game, input.entries.entries, input.autoBookingCourts, n,
            input.replies, credWired, input.persistOk);
      RemainingListLaw(game.courts, release.result.canceledCourts);
    }
  }

  /** The booking records name the listed courts, each once, and no court is preferred twice among them. */
  ghost predicate BookedAsListed(game: Game, entries: seq<CourtBooking>, autoBookingCourts: string) {
    && Distinct(NumericLabels(entries))
    && multiset(Itoas(NumericLabels(entries))) == multiset(CourtTokens(game.courts))
    && Distinct(Hits(CourtNumbers(autoBookingCourts), Elems(NumericLabels(entries))))
  }

  lemma SameLabels(labels: seq<int>, raw: seq<int>)
    requires multiset(labels) == multiset(raw)
    ensures Elems(labels) == Elems(raw) && |labels| == |raw|
  {
    forall x ensures x in labels <==> x in raw {
      assert x in multiset(labels) <==> x in multiset(raw);
    }
    assert |labels| == |multiset(labels)|;
  }

  lemma SameCount(texts: seq<string>, tokens: seq<string>)
    requires multiset(texts) == multiset(tokens)
    ensures |texts| == |tokens|
  {
    assert |texts| == |multiset(texts)|;
  }

  /** From the courts of the list as many are selected as asked for, none twice. */
  lemma SelectionOfListed(game: Game, entries: seq<CourtBooking>, autoBookingCourts: string, n: nat,
      selected: seq<int>)
    requires Selection(SortInts(NumericLabels(entries)), CourtNumbers(autoBookingCourts), n, selected)
    requires BookedAsListed(game, entries, autoBookingCourts) && n <= |CourtTokens(game.courts)|
    ensures Distinct(selected) && |selected| == n && forall x :: x in selected ==> x in NumericLabels(entries)
  {
    var raw, labels := NumericLabels(entries), SortInts(NumericLabels(entries));
    SameLabels(labels, raw);
    SubMultisetDistinct(labels, raw);
    SameCount(Itoas(raw), CourtTokens(game.courts));
    SelectionSize(labels, CourtNumbers(autoBookingCourts), n, selected);
    forall x | x in selected ensures x in raw {
      assert x in Elems(labels);
    }
  }

  lemma TextsDistinct(courts: seq<int>)
    requires Distinct(courts)
    ensures Distinct(Itoas(courts))
  {
    forall i, j | 0 <= i < j < |courts| ensures Itoas(courts)[i] != Itoas(courts)[j] {
      if Itoa(courts[i]) == Itoa(courts[j]) {
        ItoaInjective(courts[i], courts[j]);
      }
    }
  }

  /** Different courts out of the list's own are places of their own in it. */
  lemma TextsWithin(some: seq<int>, all: seq<int>)
    requires Distinct(some) && forall x :: x in some ==> x in all
    ensures multiset(Itoas(some)) <= multiset(Itoas(all))
  {
    var texts, whole := Itoas(some), Itoas(all);
    TextsDistinct(some);
    DistinctIffOnce(texts);
    forall t | t in multiset(texts) ensures multiset(texts)[t] <= multiset(whole)[t] {
      var i :| 0 <= i < |texts| && texts[i] == t;
      assert some[i] in all;
      var j :| 0 <= j < |all| && all[j] == some[i];
      assert whole[j] == t && t in multiset(whole);
    }
  }

  /** Taking courts of the list off it shortens it by as many. */
  lemma ListShortens(courts: seq<int>, tokens: seq<string>, gone: seq<int>, left: seq<string>)
    requires multiset(Itoas(courts)) == multiset(tokens)
    requires Distinct(gone) && forall x :: x in gone ==> x in courts
    requires multiset(left) == multiset(tokens) - multiset(Itoas(gone))
    ensures |left| == |tokens| - |gone|
  {
    TextsWithin(gone, courts);
    assert multiset(tokens) == multiset(left) + multiset(Itoas(gone));
    assert |multiset(tokens)| == |tokens| && |multiset(left)| == |left| && |multiset(Itoas(gone))| == |gone|;
  }

  /** A release that met no error takes all the courts asked for off the list. */
  lemma FullRelease(st: ReleaseState, st': ReleaseState, result: CancelResult, selected: seq<int>, game: Game,
      entries: seq<CourtBooking>, autoBookingCourts: string, n: nat, replies: nat -> CourtReply, credWired: bool,
      persistOk: bool)
    requires ReleaseEffect(st, st', Done(result), selected, game, entries, autoBookingCourts, n, replies, credWired,
          persistOk)
    requires BookedAsListed(game, entries, autoBookingCourts) && 0 < n <= |CourtTokens(game.courts)|
    requires result.cancelErrors == 0
    ensures st'.courtsCount == |CourtTokens(game.courts)| - n
  {
    SelectionOfListed(game, entries, autoBookingCourts, n, selected);
    ReleaseGuarantee(st, st', result, selected, game, entries, autoBookingCourts, n, replies, credWired, persistOk);
    SubMultisetDistinct(result.canceledCourts, selected);
    ListShortens(NumericLabels(entries), CourtTokens(game.courts), result.canceledCourts,
        CourtTokens(result.remainingCourts));
  }

  lemma FullStep(st: ReleaseState, st': ReleaseState, release: CourtCancellation.Outcome, selected: seq<int>,
      game: Game, input: Input, n: nat, credWired: bool)
    requires InStep(st, game) && ReleaseStep(st, st', release, selected, game, input, n, true, credWired)
    requires input.entries.Loaded? && BookedAsListed(game, input.entries.entries, input.autoBookingCourts)
    requires release.Done? && release.result.cancelErrors == 0 && n <= game.courtsCount
    ensures st'.courtsCount == game.courtsCount - n
  {
    if n != 0 {
      FullRelease(st, st', release.result, selected, game, input.entries.entries, input.autoBookingCourts, n,
          input.replies, credWired, input.persistOk);
    }
  }

  /** A check went through: there was nothing to ask for, or the listed courts are those on record and the
      release met no error. */
  ghost predicate NothingFailed(game: Game, input: Input, outcome: Outcome, bookingWired: bool) {
    && input.zoneKnown
    && (outcome.Quiet?
        || (&& bookingWired && input.entries.Loaded?
            && BookedAsListed(game, input.entries.entries, input.autoBookingCourts)
            && outcome.Tried? && outcome.release.Done? && outcome.release.result.cancelErrors == 0))
  }

  /** A check that asks for its courts leaves the right ones. */
  lemma CheckLeavesRight(check: Check, st: ReleaseState, st': ReleaseState, release: CourtCancellation.Outcome,
      selected: seq<int>, game: Game, input: Input, q: nat, heads: nat, bookingWired: bool, credWired: bool)
    requires q > 0 && InStep(st, game)
    requires ReleaseStep(st, st', release, selected, game, input, Requested(check, game.courtsCount, q, heads),
          bookingWired, credWired)
    ensures LeavesRight(check, game.courtsCount, st'.courtsCount, q, heads,
              NothingFailed(game, input, Tried(release), bookingWired))
    ensures 0 <= st'.courtsCount
            == if release.Done? then release.result.remainingCount else game.courtsCount
  {
    var n := Requested(check, game.courtsCount, q, heads);
    RequestWithin(check, game.courtsCount, q, heads);
    StepShrinks(st, st', release, selected, game, input, n, bookingWired, credWired);
    if NothingFailed(game, input, Tried(release), bookingWired) {
      FullStep(st, st', release, selected, game, input, n, credWired);
    }
    RequestLeavesRight(check, game.courtsCount, st'.courtsCount, q, heads,
        NothingFailed(game, input, Tried(release), bookingWired));
  }

  /** What an announcement says of a check that saw `heads` players and left `left` courts. */
  ghost predicate Tells(note: Announcement, check: Check, q: nat, heads: nat, left: int, released: bool)
    requires q > 0
  {
    match note
    case Shrunk(count, newCapacity, newCourtsCount) =>
      check.Halfway? && count == heads && newCourtsCount == left && newCapacity == left * q
    case Classified(kind, scenario, freeSpots, newCourtsCount) =>
      && !check.Halfway? && kind == check && newCourtsCount == left
      && 0 < freeSpots <= q && (heads + freeSpots) % q == 0
      && SaysWhatIs(scenario, q, heads, left, released)
  }

  lemma NoteTells(check: Check, heads: nat, q: nat, result: CancelResult)
    requires q > 0 && result.remainingCount >= 0
    ensures Tells(NoteFor(check, heads, q, result), check, q, heads, result.remainingCount,
              result.canceledCourts != [])
  {
    FreeSpotsFill(heads, q);
    ScenarioSays(q, heads, result.remainingCount, result.canceledCourts != []);
  }

  class CourtCheckJobs {
    const canceler: CancellationReminderJob
    var done: set<Check>
    var announced: seq<Announcement>

    constructor (canceler: CancellationReminderJob)
      ensures this.canceler == canceler && done == {} && announced == []
    {
      this.canceler := canceler;
      done, announced := {}, [];
    }

    /** The arithmetic all three checks begin with. */
    static method CourtsToCancel(check: Check, courtsCount: nat, playersPerCourt: nat, count: nat)
      returns (playersPerCourt': nat, courtsToCancel: nat)
      requires courtsCount > 0
      ensures playersPerCourt' == PerCourt(playersPerCourt)
      ensures courtsToCancel == Requested(check, courtsCount, PerCourt(playersPerCourt), count)
      ensures playersPerCourt' == if playersPerCourt == 0 then 2 else playersPerCourt
      ensures LeavesRight(check, courtsCount, courtsCount - courtsToCancel, playersPerCourt', count, true)
    {
      var capacity := courtsCount * PerCourt(playersPerCourt);
      CapacityDivides(courtsCount, PerCourt(playersPerCourt));
      playersPerCourt' := capacity / courtsCount;
      courtsToCancel := 0;
      if count < capacity {
        courtsToCancel := (capacity - count) / playersPerCourt';
      }
      if check.Halfway? {
        courtsToCancel := courtsToCancel / 2;
      }
      RequestWithin(check, courtsCount, playersPerCourt', count);
      RequestLeavesRight(check, courtsCount, courtsCount - courtsToCancel, playersPerCourt', count, true);
    }

    /** Hands the request to the canceler. */
    method Release(check: Check, game: Game, playersPerCourt: nat, courtsToCancel: nat, input: Input)
      returns (release: CourtCancellation.Outcome, selected: seq<int>)
      requires input.heads.Some? && playersPerCourt > 0 && game.courtsCount >= 0
      requires courtsToCancel == Requested(check, game.courtsCount, playersPerCourt, input.heads.value)
      modifies canceler
      ensures ReleaseStep(old(canceler.State()), canceler.State(), release, selected, game, input, courtsToCancel,
                          canceler.bookingClientWired, canceler.credServiceWired)
      ensures InStep(old(canceler.State()), game) ==>
                && LeavesRight(check, game.courtsCount, canceler.courtsCount, playersPerCourt, input.heads.value,
                     NothingFailed(game, input, Tried(release), canceler.bookingClientWired))
                && 0 <= canceler.courtsCount
                   == if release.Done? then release.result.remainingCount else game.courtsCount
    {
      release, selected := canceler.CancelUnusedCourts(game, input.entries, input.autoBookingCourts, courtsToCancel,
            input.replies, input.persistOk);
      if InStep(old(canceler.State()), game) {
        CheckLeavesRight(check, old(canceler.State()), canceler.State(), release, selected, game, input,
            playersPerCourt, input.heads.value, canceler.bookingClientWired, canceler.credServiceWired);
      }
    }

    /** The two checks that go quiet when nothing is to be done: halfway and final. */
    method ProcessQuietCheck(check: Check, game: Game, playersPerCourt: nat, input: Input)
      returns (outcome: Outcome, selected: seq<int>)
      requires !check.Reminder? && game.courtsCount >= 0
      modifies this, canceler
      ensures input.heads.None? ==> outcome == Skipped
      ensures input.heads.Some? ==> (outcome == Crashed <==> game.courtsCount == 0)
      ensures outcome in {Skipped, Crashed} ==>
                canceler.State() == old(canceler.State()) && done == old(done) && announced == old(announced)
      ensures outcome !in {Skipped, Crashed} ==>
                var p := PerCourt(playersPerCourt);
                var n := Requested(check, game.courtsCount, p, input.heads.value);
                && done == old(done) + (if input.markOk then {check} else {})
                && (n == 0 || !input.zoneKnown ==> outcome == Quiet && canceler.State() == old(canceler.State()))
                && (n > 0 && input.zoneKnown ==>
                      && outcome.Tried?
                      && ReleaseStep(old(canceler.State()), canceler.State(), outcome.release, selected, game, input, n,
                                 canceler.bookingClientWired, canceler.credServiceWired))
                && announced == old(announced) + (
                     if outcome.Tried? && outcome.release.Done? && outcome.release.result.canceledCourts != []
                         && input.sendOk
                     then [NoteFor(check, input.heads.value, p, outcome.release.result)]
                     else [])
      // What the check leaves and says, by the game's own number of players to a court.
      ensures outcome !in {Skipped, Crashed} && InStep(old(canceler.State()), game) ==>
                var q := if playersPerCourt == 0 then 2 else playersPerCourt;
                && LeavesRight(check, game.courtsCount, canceler.courtsCount, q, input.heads.value,
                     NothingFailed(game, input, outcome, canceler.bookingClientWired))
                && (announced != old(announced) ==>
                     Tells(announced[|announced| - 1], check, q, input.heads.value, canceler.courtsCount, true))
    {
      selected := [];
      if input.heads.None? {
        return Skipped, selected;
      }
      var count := input.heads.value;
      if game.courtsCount == 0 {
        return Crashed, selected;
      }
      var playersPerCourt', courtsToCancel := CourtsToCancel(check, game.courtsCount, playersPerCourt, count);
      if courtsToCancel == 0 || !input.zoneKnown {
        RequestLeavesRight(check, game.courtsCount, game.courtsCount, playersPerCourt', count, courtsToCancel == 0);
        MarkDone(check, input.markOk);
        return Quiet, selected;
      }
      var release;
      release, selected := Release(check, game, playersPerCourt', courtsToCancel, input);
      outcome := Tried(release);
      if release.Done? && release.result.canceledCourts != [] && input.sendOk {
        Announce(check, count, playersPerCourt', release.result);
      }
      MarkDone(check, input.markOk);
    }

    /** The message a check sends. */
    method Announce(check: Check, count: nat, playersPerCourt: nat, result: CancelResult)
      requires playersPerCourt > 0
      modifies this`announced
      ensures announced == old(announced) + [NoteFor(check, count, playersPerCourt, result)]
      ensures result.remainingCount >= 0 ==>
                Tells(announced[|announced| - 1], check, playersPerCourt, count, result.remainingCount,
                    result.canceledCourts != [])
    {
      var left := result.remainingCount;
      if check.Halfway? {
        announced := announced + [Shrunk(count, left * playersPerCourt, left)];
      } else {
        var scenario := DetermineScenario(count, Max(0, left), result.canceledCourts != [], playersPerCourt);
        announced := announced + [Classified(check, scenario, FreeSpots(count, playersPerCourt), left)];
      }
      if left >= 0 {
        NoteTells(check, count, playersPerCourt, result);
      }
    }

    method MarkDone(check: Check, markOk: bool)
      modifies this`done
      ensures done == old(done) + (if markOk then {check} else {})
    {
      if markOk {
        done := done + {check};
      }
    }

    /** The reminder: always announces the state of the game, and is done only once the announcement
        went out. */
    method ProcessCancellationReminder(game: Game, playersPerCourt: nat, input: Input) returns (outcome: Outcome,
        selected: seq<int>)
      requires game.courtsCount >= 0
      modifies this, canceler
      ensures input.heads.None? ==> outcome == Skipped
      ensures input.heads.Some? ==> (outcome == Crashed <==> game.courtsCount == 0)
      ensures outcome in {Skipped, Crashed} ==>
                canceler.State() == old(canceler.State()) && done == old(done) && announced == old(announced)
      ensures outcome !in {Skipped, Crashed} ==>
                var p := PerCourt(playersPerCourt);
                var n := Requested(Reminder, game.courtsCount, p, input.heads.value);
                var result := if outcome.Tried? && outcome.release.Done? then outcome.release.result else NoOp(game, 0);
                && (!input.zoneKnown ==> outcome == Quiet && canceler.State() == old(canceler.State()))
                && (input.zoneKnown ==>
                      && outcome.Tried?
                      && ReleaseStep(old(canceler.State()), canceler.State(), outcome.release, selected, game, input, n,
                                 canceler.bookingClientWired, canceler.credServiceWired))
                && announced == old(announced) + (
                     if input.sendOk
                     then [NoteFor(Reminder, input.heads.value, p, result)]
                     else [])
                && done == old(done) + (if input.sendOk && input.markOk then {Reminder} else {})
      // What the check leaves and says, by the game's own number of players to a court.
      ensures outcome !in {Skipped, Crashed} && InStep(old(canceler.State()), game) ==>
                var q := if playersPerCourt == 0 then 2 else playersPerCourt;
                && LeavesRight(Reminder, game.courtsCount, canceler.courtsCount, q, input.heads.value,
                     NothingFailed(game, input, outcome, canceler.bookingClientWired))
                && (announced != old(announced) ==>
                     Tells(announced[|announced| - 1], Reminder, q, input.heads.value, canceler.courtsCount,
                         outcome.Tried? && outcome.release.Done? && outcome.release.result.canceledCourts != []))
    {
      selected := [];
      if input.heads.None? {
        return Skipped, selected;
      }
      var count := input.heads.value;
      if game.courtsCount == 0 {
        return Crashed, selected;
      }
      var playersPerCourt', courtsToCancel := CourtsToCancel(Reminder, game.courtsCount, playersPerCourt, count);
      var result := NoOp(game, 0);
      outcome := Quiet;
      RequestLeavesRight(Reminder, game.courtsCount, game.courtsCount, playersPerCourt', count, courtsToCancel == 0);
      if input.zoneKnown {
        var release;
        release, selected := Release(Reminder, game, playersPerCourt', courtsToCancel, input);
        outcome := Tried(release);
        if release.Done? {
          result := release.result;
        }
      }
      if !input.sendOk {
        return;
      }
      Announce(Reminder, count, playersPerCourt', result);
      MarkDone(Reminder, input.markOk);
    }
  }

  // ---------------------------------------------------------------- what one check leaves

  /** A check that saw no more players than the listed courts hold leaves courts for all of them,
      whatever fails. */
  lemma CheckNeverStrands(check: Check, st: ReleaseState, st': ReleaseState, release: CourtCancellation.Outcome,
      selected: seq<int>, game: Game, input: Input, p: nat, heads: nat, bookingWired: bool, credWired: bool)
    requires p > 0 && InStep(st, game) && heads <= game.courtsCount * p
    requires ReleaseStep(st, st', release, selected, game, input, Requested(check, game.courtsCount, p, heads),
          bookingWired, credWired)
    ensures heads <= st'.courtsCount * p
  {
    StepShrinks(st, st', release, selected, game, input, Requested(check, game.courtsCount, p, heads), bookingWired,
        credWired);
    ReleaseNeverStrands(check, game.courtsCount, st'.courtsCount, p, heads);
  }

  /** A full release leaves the courts needed, none if and only if nobody is registered. */
  lemma FullReleaseLeavesNeeded(check: Check, courts: nat, p: nat, heads: nat)
    requires !check.Halfway? && p > 0 && heads <= courts * p
    ensures courts - Min(Requested(check, courts, p, heads), courts) == Needed(p, heads)
    ensures Needed(p, heads) == 0 <==> heads == 0
  {
    SurplusLeavesNeeded(courts, p, heads);
    NeededHolds(p, heads, 0);
  }

  // ---------------------------------------------------------------- after a lost write

  /** The courts asked for, where the listed ones hold everybody. */
  lemma RequestedFromNeeded(check: Check, listed: nat, p: nat, heads: nat)
    requires p > 0 && heads <= listed * p
    ensures var spare := listed - Needed(p, heads);
            spare >= 0 && Requested(check, listed, p, heads) == if check.Halfway? then spare / 2 else spare
  {
    SurplusLeavesNeeded(listed, p, heads);
  }

  predicate HoldsAfter(booked: nat, canceled: nat, p: nat, heads: nat) {
    heads <= (booked - canceled) * p
  }

  /** The list may show more courts than are booked once a write of it was lost.  A check is then sure
      to leave room for the players it saw exactly when nobody is registered or the courts it asks for
      are spare on the platform too. */
  lemma StaleListIsSafeIff(check: Check, listed: nat, booked: nat, p: nat, heads: nat)
    requires p > 0 && booked <= listed && heads <= booked * p
    ensures var spare, reallySpare := listed - Needed(p, heads), booked - Needed(p, heads);
            (forall canceled: nat :: canceled <= booked && canceled <= Requested(check, listed, p, heads) ==>
                HoldsAfter(booked, canceled, p, heads))
            <==> (heads == 0 || (if check.Halfway? then spare / 2 else spare) <= reallySpare)
  {
    var n, worst := Needed(p, heads), Min(Requested(check, listed, p, heads), booked);
    ScaledOrder(booked, listed, p);
    RequestedFromNeeded(check, listed, p, heads);
    NeededHolds(p, heads, 0);
    NeededHolds(p, heads, booked);
    NeededHolds(p, heads, booked - worst);
    if heads == 0 || worst <= booked - n {
      forall canceled: nat | canceled <= booked && canceled <= Requested(check, listed, p, heads)
        ensures HoldsAfter(booked, canceled, p, heads)
      {
        NeededHolds(p, heads, booked - canceled);
      }
    } else {
      assert !HoldsAfter(booked, worst, p, heads);
    }
  }

  /** A reminder or final check is then safe only if the list is right after all; a halfway check asks
      for half the spare courts and bears a list that is too long by up to half of them. */
  lemma StaleListByCheck(check: Check, listed: nat, booked: nat, p: nat, heads: nat)
    requires p > 0 && booked <= listed && 0 < heads <= booked * p
    ensures var spare, reallySpare := listed - Needed(p, heads), booked - Needed(p, heads);
            (if check.Halfway? then spare / 2 else spare) <= reallySpare
            <==> if check.Halfway? then listed - booked <= (spare + 1) / 2 else booked == listed
  {
  }
}
