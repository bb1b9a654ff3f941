/** A run in which one cancellation is carried out but answered with an error: every write succeeds, and
    still two registered players end up without a court. */
module LostAnswers {

  import opened Basics
  import opened CourtStrings
  import opened CourtSelection
  import opened CourtCancellation
  import opened CourtChecks
  import opened CourtRuns

  /** Two players per court, no preferred courts, everything wired. */
  ghost predicate PlainSetup(setup: Setup) {
    setup.p == 2 && setup.autoBookingCourts == "" && setup.bookingWired && setup.credWired
  }

  /** Records of three neighbouring courts, in order. */
  ghost predicate InARow(records: seq<Record>) {
    && Recorded(records) && |records| == 3
    && records[1].court == records[0].court + 1 && records[2].court == records[0].court + 2
    && forall r :: r in records ==> r.account.Some?
  }

  /** Two players, three neighbouring courts, each recorded and listed, no check made yet. */
  ghost predicate ThreeCourts(g: GameState) {
    && InARow(g.records) && Shown(g)
    && g.others == {} && g.st.released == [] && g.st.marked == []
    && g.heads == 2 && g.done == {} && g.counting.None?
  }

  /** The answers of a check: those to all attempts but the first are good. */
  ghost function Answers(setup: Setup, g: GameState, first: CancelReply): Input {
    Input(Some(g.seen), true, Loaded(Bookings(Except(g.records, g.st.marked))), setup.autoBookingCourts,
          (i: nat) => CourtReply(Found("login"), if i == 0 then first else Confirmed, true), true, true, true)
  }

  /** Every write of a check succeeds: the list and the marks on the records. */
  ghost predicate WritesKept(e: Event) {
    e.Finish? ==> e.input.persistOk && forall i: nat :: e.input.replies(i).markOk
  }

  lemma AnswersKeep(setup: Setup, g: GameState, first: CancelReply, e: Event)
    requires e.Finish? && e.input == Answers(setup, g, first)
    ensures WritesKept(e)
  {
  }

  // ---------------------------------------------------------------- what the two checks select

  lemma InsertLast(s: seq<int>, x: int)
    requires Sorted(s + [x])
    ensures Sorted(s) && InsertInt(s, x) == s + [x]
  {
    var all := s + [x];
    forall i, j | 0 <= i < j < |s| ensures s[i] <= s[j] {
      assert all[i] <= all[j];
    }
    if s != [] {
      assert all[|s| - 1] <= all[|s|];
    }
  }

  lemma {:induction false} SortedStays(s: seq<int>)
    requires Sorted(s)
    ensures SortInts(s) == s
  {
    if s != [] {
      var front, last := s[..|s| - 1], s[|s| - 1];
      assert s == front + [last];
      InsertLast(front, last);
      SortedStays(front);
    }
  }

  lemma NoPreference()
    ensures CourtNumbers("") == [] && forall booked: set<int> :: Hits([], booked) == []
  {
  }

  lemma {:induction false} ExcludingNone(s: seq<int>)
    ensures Excluding(s, {}) == s
  {
    if s != [] {
      ExcludingNone(s[..|s| - 1]);
      assert s == s[..|s| - 1] + [s[|s| - 1]];
    }
  }

  /** Without preferences the selection is the greedy drain of all labels. */
  lemma PlainSelection(labels: seq<int>, n: nat, selected: seq<int>)
    requires n > 0 && GreedySelection(labels, n, selected)
    ensures Selection(labels, CourtNumbers(""), n, selected)
  {
    NoPreference();
    assert Hits([], Elems(labels)) == [] && Elems<int>([]) == {};
    ExcludingNone(labels);
    assert selected[0..] == selected;
  }

  lemma OneRun(a: int, b: int, c: int)
    requires b == a + 1 && c == b + 1
    ensures AreRuns([[a, b, c]], [a, b, c])
  {
    var runs := [[a, b, c]];
    assert runs[..0] == [];
    assert Flatten(runs) == [] + [a, b, c];
  }

  lemma TwoRuns(a: int, c: int)
    requires c == a + 2
    ensures AreRuns([[a], [c]], [a, c])
  {
    var runs := [[a], [c]];
    assert runs[..1] == [[a]] && [[a]][..0] == [];
    assert Flatten([[a]]) == [] + [a];
    assert Flatten(runs) == [a] + [c];
  }

  lemma PickLast(runs: seq<seq<int>>, selected: seq<int>, front: seq<int>, last: int)
    requires Picks(runs, selected, [front + [last]])
    ensures Picks(runs, selected + [last], [front])
  {
    var groups := [front + [last]];
    assert IsBest(groups, 0);
    PicksStep(runs, selected, groups, 0);
    assert Last(groups[0]) == last && Init(groups[0]) == front;
    assert groups[0 := front] == [front];
  }

  lemma FirstPick(a: int, b: int, c: int)
    ensures Picks([[a, b, c]], [c], [[a, b]])
  {
    assert [a, b] + [c] == [a, b, c];
    PickLast([[a, b, c]], [], [a, b], c);
    assert [] + [c] == [c];
  }

  lemma SecondPick(runs: seq<seq<int>>, a: int, b: int, c: int)
    requires Picks(runs, [c], [[a, b]])
    ensures Picks(runs, [c, b], [[a]])
  {
    assert [a] + [b] == [a, b];
    PickLast(runs, [c], [a], b);
    assert [c] + [b] == [c, b];
  }

  lemma DrainFound(courts: seq<int>, selected: seq<int>, groups: seq<seq<int>>, rest: seq<seq<int>>)
    requires AreRuns(groups, courts) && Picks(groups, selected, rest) && 0 < |selected| <= |courts|
    ensures GreedySelection(courts, |selected|, selected)
  {
    assert GreedyDrain(courts, selected);
  }

  lemma FirstSelection(a: int, b: int, c: int)
    requires b == a + 1 && c == b + 1
    ensures GreedySelection([a, b, c], 2, [c, b])
  {
    OneRun(a, b, c);
    FirstPick(a, b, c);
    SecondPick([[a, b, c]], a, b, c);
    DrainFound([a, b, c], [c, b], [[a, b, c]], [[a]]);
  }

  lemma SecondSelection(a: int, c: int)
    requires c == a + 2
    ensures GreedySelection([a, c], 1, [a])
  {
    var runs := [[a], [c]];
    TwoRuns(a, c);
    assert Picks(runs, [], runs) && IsBest(runs, 0);
    PicksStep(runs, [], runs, 0);
    assert [] + [Last(runs[0])] == [a];
    assert GreedyDrain([a, c], [a]);
  }

  // ---------------------------------------------------------------- one check

  lemma SelectionOf(setup: Setup, g: GameState, courts: seq<int>, n: nat, selected: seq<int>)
    requires PlainSetup(setup) && Recorded(Except(g.records, g.st.marked))
    requires CourtsOf(Except(g.records, g.st.marked)) == courts
    requires Sorted(courts) && n > 0 && GreedySelection(courts, n, selected)
    ensures var entries := Bookings(Except(g.records, g.st.marked));
            && Selection(SortInts(NumericLabels(entries)), CourtNumbers(setup.autoBookingCourts), n, selected)
            && (forall i :: 0 <= i < |selected| ==> selected[i] in EntryByLabel(entries))
  {
    BookingsRead(Except(g.records, g.st.marked));
    SortedStays(courts);
    PlainSelection(courts, n, selected);
    SelectedAreBooked(courts, courts, CourtNumbers(setup.autoBookingCourts), n, selected);
  }

  /** A check with these answers and this selection. */
  lemma CheckWith(setup: Setup, g: GameState, courts: seq<int>, n: nat, first: CancelReply, selected: seq<int>)
    returns (e: Event, g': GameState)
    requires PlainSetup(setup) && g.counting.Some? && g.st.courtsCount > 0 && Demand(setup, g) == n > 0
    requires Recorded(Except(g.records, g.st.marked)) && CourtsOf(Except(g.records, g.st.marked)) == courts
    requires Sorted(courts) && courts != [] && GreedySelection(courts, n, selected)
    ensures e.Finish? && e.input == Answers(setup, g, first) && e.selected == selected && Moves(setup, g, e, g')
    ensures Acts(setup, g, e) && WritesKept(e)
  {
    var input := Answers(setup, g, first);
    SelectionOf(setup, g, courts, n, selected);
    var release, st' := EffectExists(g, input.entries.entries, n, selected, input, true);
    e, g' := Finish(input, selected, release), Finished(g, st', input);
    AnswersKeep(setup, g, first, e);
  }

  /** The court of a record is canceled through that record. */
  lemma EntryOf(open: seq<Record>, r: Record)
    requires Recorded(open) && r in open
    ensures r.court in EntryByLabel(Bookings(open))
    ensures EntryByLabel(Bookings(open))[r.court] == CourtBooking(Itoa(r.court), r.matchId, r.account)
  {
    BookingsRead(open);
    CourtListed(open, r);
    var i := EntryIsRecord(open, r.court);
    var k :| 0 <= k < |open| && open[k] == r;
    assert i == k;
  }

  /** What comes of trying two courts when only the second answer comes through. */
  lemma TwoAttempts(a: int, b: int, byLabel: map<int, CourtBooking>, replies: nat -> CourtReply)
    requires a in byLabel && b in byLabel && byLabel[a].credentialId.Some? && byLabel[b].credentialId.Some?
    requires replies(0) == CourtReply(Found("login"), Unheard, true)
    requires replies(1) == CourtReply(Found("login"), Confirmed, true)
    ensures Freed([a, b], byLabel, replies, true) == [a, b] && Canceled([a, b], byLabel, replies, true) == [b]
    ensures MarkedOf([a, b], 2, byLabel, replies, true) == [byLabel[b].matchId]
  {
    var selected := [a, b];
    FreedNext(selected, 0, byLabel, replies, true);
    FreedNext(selected, 1, byLabel, replies, true);
    CanceledNext(selected, 0, byLabel, replies, true);
    CanceledNext(selected, 1, byLabel, replies, true);
    assert [] + [a] + [b] == [a, b] && [] + [b] == [b];
    assert MarkedOf(selected, 1, byLabel, replies, true) == [];
  }

  /** What comes of trying one court when nothing fails. */
  lemma OneAttempt(a: int, byLabel: map<int, CourtBooking>, replies: nat -> CourtReply)
    requires a in byLabel && byLabel[a].credentialId.Some?
    requires replies(0) == CourtReply(Found("login"), Confirmed, true)
    ensures Freed([a], byLabel, replies, true) == [a]
  {
    FreedNext([a], 0, byLabel, replies, true);
    assert [] + [a] == [a];
  }

  lemma TriedTwo(setup: Setup, g: GameState, e: Event, last: Record, middle: Record)
    requires PlainSetup(setup) && Acts(setup, g, e) && e.selected == [last.court, middle.court]
    requires e.input == Answers(setup, g, Unheard) && last.account.Some? && middle.account.Some?
    requires var open := Except(g.records, g.st.marked); Recorded(open) && last in open && middle in open
    ensures Gone(setup, g, e) == [last.court, middle.court] && Dropped(setup, g, e) == [middle.court]
    ensures MarkedOf(e.selected, |e.selected|, EntryByLabel(Bookings(Except(g.records, g.st.marked))),
              e.input.replies, true) == [middle.matchId]
  {
    var open := Except(g.records, g.st.marked);
    EntryOf(open, last);
    EntryOf(open, middle);
    TwoAttempts(last.court, middle.court, EntryByLabel(Bookings(open)), e.input.replies);
  }

  lemma TriedOne(setup: Setup, g: GameState, e: Event, r: Record)
    requires PlainSetup(setup) && Acts(setup, g, e) && e.selected == [r.court] && r.account.Some?
    requires e.input == Answers(setup, g, Confirmed)
    requires var open := Except(g.records, g.st.marked); Recorded(open) && r in open
    ensures Gone(setup, g, e) == [r.court]
  {
    var open := Except(g.records, g.st.marked);
    EntryOf(open, r);
    OneAttempt(r.court, EntryByLabel(Bookings(open)), e.input.replies);
  }

  lemma MarksAfter(setup: Setup, g: GameState, e: Event, g': GameState)
    requires PlainSetup(setup) && e.Finish? && Moves(setup, g, e, g') && Acts(setup, g, e)
    ensures g'.st.marked == g.st.marked + MarkedOf(e.selected, |e.selected|,
              EntryByLabel(Bookings(Except(g.records, g.st.marked))), e.input.replies, true)
  {
    ActsEffect(setup, g, e, g');
  }

  lemma TextsLeft(all: seq<int>, gone: seq<int>, x: int)
    requires forall c | c in all :: c in gone || c == x
    ensures Texts(all) - Texts(gone) <= {Itoa(x)}
  {
    forall t | t in Texts(all) ensures t in Texts(gone) || t == Itoa(x) {
      var i :| 0 <= i < |all| && Itoas(all)[i] == t;
      TextIff(gone, all[i]);
    }
  }

  lemma TextsListed(all: seq<int>, gone: seq<int>)
    requires Distinct(all) && Distinct(gone) && forall c | c in gone :: c in all
    ensures |Texts(all) - Texts(gone)| == |all| - |gone|
  {
    TextsCard(all);
    TextsCard(gone);
    forall t | t in Texts(gone) ensures t in Texts(all) {
      var i :| 0 <= i < |gone| && Itoas(gone)[i] == t;
      TextIff(all, gone[i]);
    }
    assert Texts(gone) <= Texts(all) && |Texts(all) - Texts(gone)| == |Texts(all)| - |Texts(gone)|;
  }

  // ---------------------------------------------------------------- the reminder

  /** The courts the reminder tries. */
  ghost function LastTwo(records: seq<Record>): seq<int>
    requires |records| == 3
  {
    [records[2].court, records[1].court]
  }

  lemma CourtsInARow(records: seq<Record>)
    requires InARow(records)
    ensures CourtsOf(records) == [records[0].court, records[1].court, records[2].court]
    ensures Sorted(CourtsOf(records))
  {
  }

  /** The reminder may select the last two courts. */
  lemma ReminderSelects(records: seq<Record>)
    requires InARow(records)
    ensures GreedySelection(CourtsOf(records), 2, LastTwo(records))
  {
    CourtsInARow(records);
    FirstSelection(records[0].court, records[1].court, records[2].court);
  }

  lemma StartFacts(g: GameState)
    requires ThreeCourts(g)
    ensures Except(g.records, g.st.marked) == g.records && FullyRecorded(g)
    ensures Booked(g) == Texts(CourtsOf(g.records)) && g.st.courtsCount == 3
  {
    AllOpen(g.records);
    OpenAreBooked(g);
    ShownCount(g);
  }

  lemma StartReads(g: GameState) returns (open: seq<Record>)
    requires ThreeCourts(g)
    ensures open == Except(g.records, g.st.marked) && InARow(open) && LastTwo(open) == LastTwo(g.records)
    ensures g.st.courtsCount == 3
  {
    StartFacts(g);
    open := g.records;
  }

  /** The reminder of such a game: two courts are tried. */
  ghost predicate Reminds(setup: Setup, g: GameState, e: Event, mid: GameState)
    requires setup.p > 0 && |g.records| == 3
  {
    var c := Counted(g, Reminder);
    e.Finish? && Moves(setup, c, e, mid) && e.input == Answers(setup, c, Unheard) && e.selected == LastTwo(g.records)
  }

  lemma Demands(setup: Setup, g: GameState)
    requires PlainSetup(setup) && g.counting.Some? && g.seen == 2
    ensures g.counting == Some(Reminder) && g.st.courtsCount == 3 ==> Demand(setup, g) == 2
    ensures g.counting == Some(Final) && g.st.courtsCount == 2 ==> Demand(setup, g) == 1
  {
  }

  lemma ReminderExists(setup: Setup, g: GameState, open: seq<Record>) returns (e: Event, mid: GameState)
    requires PlainSetup(setup) && open == Except(g.records, g.st.marked) && InARow(open)
    requires |g.records| == 3 && LastTwo(open) == LastTwo(g.records) && g.heads == 2 && g.st.courtsCount == 3
    ensures Reminds(setup, g, e, mid) && Acts(setup, Counted(g, Reminder), e) && WritesKept(e)
  {
    var c := Counted(g, Reminder);
    CourtsInARow(open);
    Demands(setup, c);
    ReminderSelects(open);
    e, mid := CheckWith(setup, c, CourtsOf(open), 2, Unheard, LastTwo(open));
  }

  /** The reminder gives back two courts, and knows of one only. */
  lemma ReminderKnows(setup: Setup, g: GameState, e: Event, mid: GameState)
    requires PlainSetup(setup) && InARow(g.records) && Except(g.records, g.st.marked) == g.records
    requires Reminds(setup, g, e, mid) && Acts(setup, Counted(g, Reminder), e)
    ensures var c := Counted(g, Reminder);
            Gone(setup, c, e) == LastTwo(g.records) && Dropped(setup, c, e) == [g.records[1].court]
  {
    TriedTwo(setup, Counted(g, Reminder), e, g.records[2], g.records[1]);
  }

  lemma ReminderMarks(setup: Setup, g: GameState, e: Event, mid: GameState)
    requires PlainSetup(setup) && InARow(g.records) && Except(g.records, g.st.marked) == g.records
    requires Reminds(setup, g, e, mid) && Acts(setup, Counted(g, Reminder), e) && g.st.marked == []
    ensures mid.st.marked == [g.records[1].matchId]
  {
    TriedTwo(setup, Counted(g, Reminder), e, g.records[2], g.records[1]);
    MarksAfter(setup, Counted(g, Reminder), e, mid);
  }

  /** One of the three courts is not given back, and one is taken off the list. */
  lemma ReminderCovers(setup: Setup, g: GameState, e: Event, mid: GameState)
    requires PlainSetup(setup) && InARow(g.records) && Except(g.records, g.st.marked) == g.records
    requires Reminds(setup, g, e, mid) && Acts(setup, Counted(g, Reminder), e)
    ensures var c, all := Counted(g, Reminder), CourtsOf(g.records);
            && (forall l | l in all :: l in Gone(setup, c, e) || l == g.records[0].court)
            && Distinct(all) && Distinct(Dropped(setup, c, e)) && (forall l | l in Dropped(setup, c, e) :: l in all)
            && |all| - |Dropped(setup, c, e)| == 2
  {
    CourtsInARow(g.records);
    ReminderKnows(setup, g, e, mid);
  }

  /** What is left on the platform. */
  lemma ReminderLeaves(setup: Setup, g: GameState, e: Event, mid: GameState)
    requires PlainSetup(setup) && InARow(g.records) && Except(g.records, g.st.marked) == g.records
    requires Reminds(setup, g, e, mid) && Acts(setup, Counted(g, Reminder), e) && WellRecorded(g) && MarksSound(g)
    requires Booked(g) == Texts(CourtsOf(g.records))
    ensures Booked(mid) <= {Itoa(g.records[0].court)} && WellRecorded(mid) && MarksSound(mid)
  {
    var c := Counted(g, Reminder);
    assert Booked(c) == Booked(g);
    FinishFrees(setup, c, e, mid);
    FinishMarks(setup, c, e, mid);
    ReminderCovers(setup, g, e, mid);
    TextsLeft(CourtsOf(g.records), Gone(setup, c, e), g.records[0].court);
  }

  /** What the list shows. */
  lemma ReminderLists(setup: Setup, g: GameState, e: Event, mid: GameState)
    requires PlainSetup(setup) && InARow(g.records) && Except(g.records, g.st.marked) == g.records
    requires Reminds(setup, g, e, mid) && Acts(setup, Counted(g, Reminder), e) && Shown(g)
    requires Booked(g) == Texts(CourtsOf(g.records))
    ensures mid.st.courtsCount == 2
  {
    var c := Counted(g, Reminder);
    assert Booked(c) == Booked(g);
    FinishList(setup, c, e, mid);
    ElemsCard(CourtTokens(mid.st.courts));
    ReminderCovers(setup, g, e, mid);
    TextsListed(CourtsOf(g.records), Dropped(setup, c, e));
  }

  /** A game that was reminded: the list shows two courts, and at most one of the three is left. */
  ghost predicate OneLeft(mid: GameState)
    requires InARow(mid.records)
  {
    && WellRecorded(mid) && MarksSound(mid) && mid.st.courtsCount == 2
    && Booked(mid) <= {Itoa(mid.records[0].court)}
    && mid.st.marked == [mid.records[1].matchId]
  }

  lemma ReminderFrame(setup: Setup, g: GameState, e: Event, mid: GameState)
    requires setup.p > 0 && |g.records| == 3 && Reminds(setup, g, e, mid)
    ensures mid.records == g.records && mid.counting.None? && mid.heads == g.heads
    ensures mid.done == g.done + {Reminder}
  {
  }

  lemma ReminderEnds(setup: Setup, g: GameState, e: Event, mid: GameState)
    requires PlainSetup(setup) && InARow(g.records) && Except(g.records, g.st.marked) == g.records
    requires WellRecorded(g) && MarksSound(g) && Shown(g) && g.st.marked == []
    requires Booked(g) == Texts(CourtsOf(g.records))
    requires Reminds(setup, g, e, mid) && Acts(setup, Counted(g, Reminder), e)
    ensures mid.records == g.records && OneLeft(mid)
  {
    ReminderFrame(setup, g, e, mid);
    ReminderMarks(setup, g, e, mid);
    ReminderLeaves(setup, g, e, mid);
    ReminderLists(setup, g, e, mid);
  }

  lemma ReminderDone(setup: Setup, g: GameState, e: Event, mid: GameState)
    requires PlainSetup(setup) && ThreeCourts(g) && Reminds(setup, g, e, mid) && Acts(setup, Counted(g, Reminder), e)
    ensures mid.records == g.records && OneLeft(mid)
  {
    StartFacts(g);
    ReminderEnds(setup, g, e, mid);
  }

  lemma ReminderRuns(setup: Setup, g: GameState) returns (e: Event, mid: GameState)
    requires PlainSetup(setup) && ThreeCourts(g)
    ensures Moves(setup, Counted(g, Reminder), e, mid) && WritesKept(e)
    ensures mid.records == g.records && OneLeft(mid)
    ensures mid.counting.None? && mid.done == {Reminder} && mid.heads == 2
  {
    var open := StartReads(g);
    e, mid := ReminderExists(setup, g, open);
    ReminderFrame(setup, g, e, mid);
    ReminderDone(setup, g, e, mid);
  }

  // ---------------------------------------------------------------- the final check

  lemma LastReads(records: seq<Record>)
    requires InARow(records)
    ensures Except(records, [records[1].matchId]) == [records[0], records[2]]
  {
    var a, b, c := records[0], records[1], records[2];
    assert records == [a, b, c];
    assert [a, b, c][..2] == [a, b] && [a, b][..1] == [a] && [a][..0] == [];
    assert Except([a], [b.matchId]) == [a];
    assert Except([a, b], [b.matchId]) == [a] + [];
  }

  lemma LastRecorded(records: seq<Record>)
    requires InARow(records)
    ensures Recorded([records[0], records[2]])
    ensures CourtsOf([records[0], records[2]]) == [records[0].court, records[2].court]
  {
  }

  lemma LastExists(setup: Setup, mid: GameState) returns (f: Event, end: GameState)
    requires PlainSetup(setup) && InARow(mid.records) && mid.heads == 2
    requires mid.st.marked == [mid.records[1].matchId] && mid.st.courtsCount == 2
    ensures var c := Counted(mid, Final);
            && f.Finish? && Moves(setup, c, f, end) && Acts(setup, c, f) && f.selected == [mid.records[0].court]
            && f.input == Answers(setup, c, Confirmed) && WritesKept(f)
  {
    var a, b, c := mid.records[0].court, mid.records[2].court, Counted(mid, Final);
    LastReads(mid.records);
    LastRecorded(mid.records);
    Demands(setup, c);
    SecondSelection(a, b);
    f, end := CheckWith(setup, c, [a, b], 1, Confirmed, [a]);
  }

  lemma LastGone(setup: Setup, mid: GameState, f: Event)
    requires PlainSetup(setup) && InARow(mid.records) && mid.st.marked == [mid.records[1].matchId]
    requires var c := Counted(mid, Final);
             Acts(setup, c, f) && f.selected == [mid.records[0].court] && f.input == Answers(setup, c, Confirmed)
    ensures Gone(setup, Counted(mid, Final), f) == [mid.records[0].court]
  {
    LastReads(mid.records);
    LastRecorded(mid.records);
    TriedOne(setup, Counted(mid, Final), f, mid.records[0]);
  }

  lemma LastLeaves(setup: Setup, mid: GameState, f: Event, end: GameState)
    requires PlainSetup(setup) && InARow(mid.records) && OneLeft(mid)
    requires var c := Counted(mid, Final);
             && f.Finish? && Moves(setup, c, f, end) && Acts(setup, c, f) && f.selected == [mid.records[0].court]
             && f.input == Answers(setup, c, Confirmed)
    ensures Booked(end) == {}
  {
    var c := Counted(mid, Final);
    LastGone(setup, mid, f);
    assert Booked(c) == Booked(mid);
    FinishFrees(setup, c, f, end);
    TextIff([mid.records[0].court], mid.records[0].court);
  }

  /** The final check goes by the list, and gives back the court that was left. */
  lemma LastRuns(setup: Setup, mid: GameState) returns (f: Event, end: GameState)
    requires PlainSetup(setup) && InARow(mid.records) && OneLeft(mid) && mid.heads == 2
    ensures f.Finish? && Moves(setup, Counted(mid, Final), f, end) && WritesKept(f)
    ensures Booked(end) == {} && end.heads == 2
  {
    f, end := LastExists(setup, mid);
    LastLeaves(setup, mid, f, end);
  }

  // ---------------------------------------------------------------- the run

  /** From every such game there is a run of a reminder and a final check, with every write kept and one
      cancellation carried out but answered with an error, after which no court is left. */
  lemma LostAnswerRun(setup: Setup, g: GameState) returns (steps: seq<Step>)
    requires PlainSetup(setup) && ThreeCourts(g)
    ensures IsRun(setup, g, steps) && |steps| == 4
    ensures steps[0].event == CountHeads(Reminder, 2) && WritesKept(steps[1].event)
    ensures steps[2].event == CountHeads(Final, 2) && WritesKept(steps[3].event)
    ensures EndOf(g, steps).heads == 2 && Booked(EndOf(g, steps)) == {}
  {
    var e, mid := ReminderRuns(setup, g);
    var f, end := LastRuns(setup, mid);
    steps := TwoCheckRun(setup, g, Reminder, e, mid, Final, f, end);
  }

  /** Such a game is in order, and its courts hold the players. */
  lemma ThreeCourtsAreSound(setup: Setup, g: GameState)
    requires PlainSetup(setup) && ThreeCourts(g)
    ensures Sound(setup, g, 2)
  {
    StartFacts(g);
    ShownCount(g);
  }
}
