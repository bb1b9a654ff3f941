/** Whole runs of the court checks over one game's evening: the stored list, the booking records and
    the platform, while players join and leave and parts of each release fail. */
module CourtRuns {

  import opened Basics
  import opened CourtStrings
  import opened CourtSelection
  import opened CourtCancellation
  import opened CourtChecks

  // ---------------------------------------------------------------- booking records

  /** A stored booking of a numbered court. */
  datatype Record = Record(court: int, matchId: string, account: Option<int>)

  /** Records of different courts and different matches. */
  ghost predicate Recorded(records: seq<Record>) {
    && (forall i :: 0 <= i < |records| ==> INT_MIN <= records[i].court <= INT_MAX)
    && (forall i, j :: 0 <= i < j < |records| ==>
          records[i].court != records[j].court && records[i].matchId != records[j].matchId)
  }

  ghost function CourtsOf(records: seq<Record>): (courts: seq<int>)
    ensures |courts| == |records| && forall i :: 0 <= i < |records| ==> courts[i] == records[i].court
  {
    seq(|records|, i requires 0 <= i < |records| => records[i].court)
  }

  /** The records as the canceler reads them. */
  ghost function Bookings(records: seq<Record>): (entries: seq<CourtBooking>)
    ensures |entries| == |records|
    ensures forall i :: 0 <= i < |records| ==>
        entries[i] == CourtBooking(Itoa(records[i].court), records[i].matchId, records[i].account)
  {
    seq(|records|, i requires 0 <= i < |records| => CourtBooking(Itoa(records[i].court), records[i].matchId,
        records[i].account))
  }

  /** The records whose match is not among `gone`, in order. */
  ghost function Except(records: seq<Record>, gone: seq<string>): seq<Record> {
    if records == [] then []
    else
      var n := |records| - 1;
      Except(records[..n], gone) + (if records[n].matchId in gone then [] else [records[n]])
  }

  lemma {:induction false} ExceptIff(records: seq<Record>, gone: seq<string>)
    ensures forall r :: r in Except(records, gone) <==> r in records && r.matchId !in gone
  {
    if records != [] {
      var n := |records| - 1;
      ExceptIff(records[..n], gone);
      assert records == records[..n] + [records[n]];
    }
  }

  lemma RecordedSnoc(front: seq<Record>, last: Record)
    requires Recorded(front) && INT_MIN <= last.court <= INT_MAX
    requires forall r :: r in front ==> r.court != last.court && r.matchId != last.matchId
    ensures Recorded(front + [last])
  {
    forall i | 0 <= i < |front| ensures front[i].court != last.court && front[i].matchId != last.matchId {
      assert front[i] in front;
    }
  }

  lemma {:induction false} ExceptRecorded(records: seq<Record>, gone: seq<string>)
    requires Recorded(records)
    ensures Recorded(Except(records, gone))
  {
    if records != [] {
      var front, last := records[..|records| - 1], records[|records| - 1];
      ExceptRecorded(front, gone);
      ExceptIff(front, gone);
      if last.matchId !in gone {
        RecordedSnoc(Except(front, gone), last);
      }
    }
  }

  lemma {:induction false} LabelsRead(entries: seq<CourtBooking>, ids: seq<int>)
    requires |entries| == |ids| && forall i :: 0 <= i < |ids| ==> Atoi(entries[i].courtLabel) == Parsed(ids[i])
    ensures NumericLabels(entries) == ids
  {
    if ids != [] {
      var n := |ids| - 1;
      LabelsRead(entries[..n], ids[..n]);
      assert Atoi(entries[n].courtLabel) == Parsed(ids[n]);
      assert ids == ids[..n] + [ids[n]];
    }
  }

  /** The canceler reads the records' courts, and finds each court's own record. */
  lemma BookingsRead(records: seq<Record>)
    requires Recorded(records)
    ensures NumericLabels(Bookings(records)) == CourtsOf(records) && Distinct(CourtsOf(records))
  {
    forall i | 0 <= i < |records| ensures Atoi(Bookings(records)[i].courtLabel) == Parsed(CourtsOf(records)[i]) {
      AtoiItoa(records[i].court);
    }
    LabelsRead(Bookings(records), CourtsOf(records));
  }

  lemma EntryIsRecord(records: seq<Record>, l: int) returns (i: nat)
    requires Recorded(records) && l in EntryByLabel(Bookings(records))
    ensures i < |records| && records[i].court == l && EntryByLabel(Bookings(records))[l] == Bookings(records)[i]
  {
    var entries := Bookings(records);
    EntryByLabelSound(entries, l);
    i :| 0 <= i < |entries| && entries[i] == EntryByLabel(entries)[l];
    AtoiItoa(records[i].court);
  }

  // ---------------------------------------------------------------- the state of one game

  /** What stays fixed: players per court, the venue's preferences, and which services are wired. */
  datatype Setup = Setup(p: nat, autoBookingCourts: string, bookingWired: bool, credWired: bool)

  /** The release state, the booking records, further courts of the list without a record, the
      players, the checks marked done, and what the check under way has counted. */
  datatype GameState = GameState(st: ReleaseState, records: seq<Record>, others: set<string>, heads: nat,
                                 done: set<Check>, counting: Option<Check>, seen: nat)

  ghost function StillRecorded(records: seq<Record>, gone: seq<string>): set<string> {
    set r | r in records && r.matchId !in gone :: Itoa(r.court)
  }

  /** The labels of the courts still booked on the platform. */
  ghost function Booked(g: GameState): set<string> {
    g.others + StillRecorded(g.records, g.st.released)
  }

  /** The records are in order, and none is of a court booked otherwise. */
  ghost predicate WellRecorded(g: GameState) {
    Recorded(g.records) && forall r :: r in g.records ==> Itoa(r.court) !in g.others
  }

  /** The stored list names exactly the booked courts, each once, and its count is right. */
  ghost predicate Shown(g: GameState) {
    && g.st.courtsCount == |CourtTokens(g.st.courts)|
    && Distinct(CourtTokens(g.st.courts))
    && Elems(CourtTokens(g.st.courts)) == Booked(g)
  }

  /** Every match given back is marked. */
  ghost predicate MarksCurrent(g: GameState) {
    forall r :: r in g.records && r.matchId in g.st.released ==> r.matchId in g.st.marked
  }

  /** Only matches given back are marked. */
  ghost predicate MarksSound(g: GameState) {
    forall r :: r in g.records && r.matchId in g.st.marked ==> r.matchId in g.st.released
  }

  lemma ShownCount(g: GameState)
    requires Shown(g)
    ensures |Booked(g)| == g.st.courtsCount
  {
    ElemsCard(CourtTokens(g.st.courts));
  }

  // ---------------------------------------------------------------- events

  /** A check that is not marked done counts heads, and later finishes with a release or is given up
      without one.  Registered players and guests are counted by two statements, so `seen` may be a
      number that the game never had. */
  datatype Event = Join | Leave | CountHeads(check: Check, seen: nat)
                 | Finish(input: Input, selected: seq<int>, release: CourtCancellation.Outcome)
                 | GiveUp(marksDone: bool)

  /** The courts the check under way asks for. */
  ghost function Demand(setup: Setup, g: GameState): nat
    requires setup.p > 0 && g.counting.Some? && g.st.courtsCount >= 0
  {
    Requested(g.counting.value, g.st.courtsCount, setup.p, g.seen)
  }

  /** A release reads the stored row and the records not marked canceled. */
  ghost predicate Reads(setup: Setup, g: GameState, input: Input) {
    && input.autoBookingCourts == setup.autoBookingCourts
    && (input.entries.Loaded? ==> input.entries.entries == Bookings(Except(g.records, g.st.marked)))
  }

  ghost function RowOf(g: GameState): Game {
    Game(g.st.courts, g.st.courtsCount)
  }

  /** The reminder is marked done only once its announcement went out. */
  ghost function DoneAfter(done: set<Check>, check: Check, input: Input): set<Check> {
    if input.markOk && (check.Reminder? ==> input.sendOk) then done + {check} else done
  }

  ghost predicate Moves(setup: Setup, g: GameState, e: Event, g': GameState)
    requires setup.p > 0
  {
    match e
    case Join => g' == g.(heads := g.heads + 1)
    case Leave => g.heads > 0 && g' == g.(heads := g.heads - 1)
    case CountHeads(check, seen) =>
      g.counting.None? && check !in g.done && g' == g.(counting := Some(check), seen := seen)
    case GiveUp(marksDone) =>
      && g.counting.Some?
      && g' == g.(counting := None, done := if marksDone then g.done + {g.counting.value} else g.done)
    case Finish(input, selected, release) =>
      && g.counting.Some? && g.st.courtsCount > 0 && Reads(setup, g, input)
      && ReleaseStep(g.st, g'.st, release, selected, RowOf(g), input, Demand(setup, g), setup.bookingWired,
           setup.credWired)
      && g' == g.(st := g'.st, counting := None, done := DoneAfter(g.done, g.counting.value, input))
  }

  // ---------------------------------------------------------------- what a release gives back

  ghost function Texts(courts: seq<int>): set<string> {
    Elems(Itoas(courts))
  }

  lemma TextIff(courts: seq<int>, c: int)
    ensures Itoa(c) in Texts(courts) <==> c in courts
  {
    if Itoa(c) in Texts(courts) {
      var i :| 0 <= i < |courts| && Itoas(courts)[i] == Itoa(c);
      SameTextIff(courts[i], c);
    }
    if c in courts {
      var i :| 0 <= i < |courts| && courts[i] == c;
      assert Itoas(courts)[i] == Itoa(c);
    }
  }

  lemma {:induction false} MatchesIff(courts: seq<int>, byLabel: map<int, CourtBooking>, m: string)
    requires forall i :: 0 <= i < |courts| ==> courts[i] in byLabel
    ensures m in Matches(courts, byLabel) <==> exists i :: 0 <= i < |courts| && byLabel[courts[i]].matchId == m
  {
    if courts != [] {
      var n := |courts| - 1;
      MatchesIff(courts[..n], byLabel, m);
      assert Matches(courts, byLabel) == Matches(courts[..n], byLabel) + [byLabel[courts[n]].matchId];
      if i :| 0 <= i < n && byLabel[courts[i]].matchId == m {
        assert courts[..n][i] == courts[i];
      }
    }
  }

  /** Of the records a release reads, those of the courts given back are the ones whose match is. */
  lemma MatchGone(open: seq<Record>, gone: seq<int>, r: Record)
    requires Recorded(open) && r in open
    requires forall i :: 0 <= i < |gone| ==> gone[i] in EntryByLabel(Bookings(open))
    ensures r.matchId in Matches(gone, EntryByLabel(Bookings(open))) <==> r.court in gone
  {
    var byLabel := EntryByLabel(Bookings(open));
    MatchesIff(gone, byLabel, r.matchId);
    forall i | 0 <= i < |gone| ensures byLabel[gone[i]].matchId == r.matchId <==> gone[i] == r.court {
      var j := EntryIsRecord(open, gone[i]);
      var k :| 0 <= k < |open| && open[k] == r;
    }
  }

  lemma GoneAreOpen(open: seq<Record>, gone: seq<int>, l: int) returns (r: Record)
    requires Recorded(open) && l in gone
    requires forall i :: 0 <= i < |gone| ==> gone[i] in EntryByLabel(Bookings(open))
    ensures r in open && r.court == l
  {
    var i := EntryIsRecord(open, l);
    r := open[i];
  }

  /** Among all records, the matches given back are now the old ones and those of the courts gone. */
  lemma ReleasedIff(g: GameState, gone: seq<int>, r: Record)
    requires WellRecorded(g) && MarksSound(g) && r in g.records
    requires forall i :: 0 <= i < |gone| ==> gone[i] in EntryByLabel(Bookings(Except(g.records, g.st.marked)))
    ensures r.matchId in g.st.released + Matches(gone, EntryByLabel(Bookings(Except(g.records, g.st.marked))))
            <==> r.matchId in g.st.released || r.court in gone
  {
    var open := Except(g.records, g.st.marked);
    ExceptRecorded(g.records, g.st.marked);
    ExceptIff(g.records, g.st.marked);
    if r in open {
      MatchGone(open, gone, r);
    }
  }

  /** The courts of one record, before and after a release gave back `gone`. */
  lemma RecordAfter(g: GameState, gone: seq<int>, r: Record)
    requires WellRecorded(g) && MarksSound(g) && r in g.records
    requires forall i :: 0 <= i < |gone| ==> gone[i] in EntryByLabel(Bookings(Except(g.records, g.st.marked)))
    ensures r.matchId !in g.st.released + Matches(gone, EntryByLabel(Bookings(Except(g.records, g.st.marked))))
            <==> r.matchId !in g.st.released && Itoa(r.court) !in Texts(gone)
  {
    ReleasedIff(g, gone, r);
    TextIff(gone, r.court);
  }

  lemma StillRecordedAfter(records: seq<Record>, before: seq<string>, after: seq<string>, gone: set<string>)
    requires forall r :: r in records ==> (r.matchId !in after <==> r.matchId !in before && Itoa(r.court) !in gone)
    ensures StillRecorded(records, after) == StillRecorded(records, before) - gone
  {
  }

  lemma OthersKept(g: GameState, gone: seq<int>)
    requires WellRecorded(g)
    requires forall i :: 0 <= i < |gone| ==> gone[i] in EntryByLabel(Bookings(Except(g.records, g.st.marked)))
    ensures g.others - Texts(gone) == g.others
  {
    var open := Except(g.records, g.st.marked);
    ExceptRecorded(g.records, g.st.marked);
    forall t | t in Texts(gone) ensures t !in g.others {
      var i :| 0 <= i < |gone| && Itoas(gone)[i] == t;
      var r := GoneAreOpen(open, gone, gone[i]);
      ExceptIff(g.records, g.st.marked);
    }
  }

  lemma BookedAfter(g: GameState, g': GameState, gone: seq<int>)
    requires WellRecorded(g) && MarksSound(g) && g'.records == g.records && g'.others == g.others
    requires forall i :: 0 <= i < |gone| ==> gone[i] in EntryByLabel(Bookings(Except(g.records, g.st.marked)))
    requires g'.st.released == g.st.released + Matches(gone, EntryByLabel(Bookings(Except(g.records, g.st.marked))))
    ensures Booked(g') == Booked(g) - Texts(gone)
  {
    forall r | r in g.records
      ensures r.matchId !in g'.st.released <==> r.matchId !in g.st.released && Itoa(r.court) !in Texts(gone)
    {
      RecordAfter(g, gone, r);
    }
    StillRecordedAfter(g.records, g.st.released, g'.st.released, Texts(gone));
    OthersKept(g, gone);
  }

  /** Taking the courts off a list without repetition takes exactly their labels off it. */
  lemma ListAfter(courts: string, gone: seq<int>)
    requires Distinct(CourtTokens(courts))
    ensures var left := RemainingTokens(courts, gone);
            && CourtTokens(JoinCourts(left)) == left && Distinct(left)
            && Elems(left) == Elems(CourtTokens(courts)) - Texts(gone)
  {
    RemainingListLaw(courts, gone);
    SubtractDistinct(CourtTokens(courts), Itoas(gone), RemainingTokens(courts, gone));
  }

  lemma {:induction false} MarkedAreGone(selected: seq<int>, n: nat, byLabel: map<int, CourtBooking>,
      replies: nat -> CourtReply, wired: bool)
    requires n <= |selected| && forall i :: 0 <= i < |selected| ==> selected[i] in byLabel
    ensures forall m :: m in MarkedOf(selected, n, byLabel, replies, wired) ==>
        m in GivenOf(selected, n, byLabel, replies, wired)
  {
    if n > 0 {
      MarkedAreGone(selected, n - 1, byLabel, replies, wired);
    }
  }

  /** The event is a release that tries courts. */
  ghost predicate Acts(setup: Setup, g: GameState, e: Event)
    requires setup.p > 0
  {
    && e.Finish? && g.counting.Some? && g.st.courtsCount >= 0 && setup.bookingWired && Demand(setup, g) != 0
    && e.input.entries.Loaded? && e.input.entries.entries != []
    && forall i :: 0 <= i < |e.selected| ==> e.selected[i] in EntryByLabel(Bookings(Except(g.records, g.st.marked)))
  }

  /** The courts an event gives back on the platform. */
  ghost function Gone(setup: Setup, g: GameState, e: Event): seq<int>
    requires setup.p > 0
  {
    if Acts(setup, g, e)
    then Freed(e.selected, EntryByLabel(Bookings(Except(g.records, g.st.marked))), e.input.replies, setup.credWired)
    else []
  }

  /** The courts among them that the check knows of, and takes off the list. */
  ghost function Dropped(setup: Setup, g: GameState, e: Event): seq<int>
    requires setup.p > 0
  {
    if Acts(setup, g, e)
    then Canceled(e.selected, EntryByLabel(Bookings(Except(g.records, g.st.marked))), e.input.replies, setup.credWired)
    else []
  }

  /** Every cancellation that was carried out was also answered so. */
  ghost predicate AllHeard(e: Event) {
    e.Finish? ==> forall i: nat :: i < |e.selected| ==> !e.input.replies(i).cancel.Unheard?
  }

  lemma DroppedAreGone(setup: Setup, g: GameState, e: Event)
    requires setup.p > 0
    ensures |Dropped(setup, g, e)| <= |Gone(setup, g, e)|
    ensures forall c :: c in Dropped(setup, g, e) ==> c in Gone(setup, g, e)
    ensures AllHeard(e) ==> Gone(setup, g, e) == Dropped(setup, g, e)
  {
    if Acts(setup, g, e) {
      CanceledAreFreed(e.selected, |e.selected|, EntryByLabel(Bookings(Except(g.records, g.st.marked))),
        e.input.replies, setup.credWired);
    }
  }

  /** What the release effect says about one game. */
  lemma ActsEffect(setup: Setup, g: GameState, e: Event, g': GameState)
    requires setup.p > 0 && e.Finish? && Moves(setup, g, e, g')
    ensures !Acts(setup, g, e) ==> g'.st == g.st
    ensures Acts(setup, g, e) ==>
              var byLabel := EntryByLabel(Bookings(Except(g.records, g.st.marked)));
              var dropped, left := Dropped(setup, g, e), RemainingTokens(g.st.courts, Dropped(setup, g, e));
              var stored := dropped != [] && e.input.persistOk;
              && Selection(SortInts(NumericLabels(Bookings(Except(g.records, g.st.marked)))),
                   CourtNumbers(setup.autoBookingCourts), Demand(setup, g), e.selected)
              && g'.st == ReleaseState(
                   g.st.released + Matches(Gone(setup, g, e), byLabel),
                   g.st.marked + MarkedOf(e.selected, |e.selected|, byLabel, e.input.replies, setup.credWired),
                   if stored then JoinCourts(left) else g.st.courts,
                   if stored then |left| else g.st.courtsCount)
  {
  }

  lemma GoneBound(setup: Setup, g: GameState, e: Event, g': GameState)
    requires setup.p > 0 && e.Finish? && Moves(setup, g, e, g')
    ensures |Gone(setup, g, e)| <= Demand(setup, g)
    ensures forall i :: 0 <= i < |Gone(setup, g, e)| ==>
        Gone(setup, g, e)[i] in EntryByLabel(Bookings(Except(g.records, g.st.marked)))
  {
    ActsEffect(setup, g, e, g');
    if Acts(setup, g, e) {
      var labels := SortInts(NumericLabels(Bookings(Except(g.records, g.st.marked))));
      SelectionBounds(labels, CourtNumbers(setup.autoBookingCourts), Demand(setup, g), e.selected);
    }
  }

  /** A release frees exactly the booked courts among those it gives back, no more than it asked for,
      whatever fails. */
  lemma FinishFrees(setup: Setup, g: GameState, e: Event, g': GameState)
    requires setup.p > 0 && WellRecorded(g) && MarksSound(g) && e.Finish? && Moves(setup, g, e, g')
    ensures |Gone(setup, g, e)| <= Demand(setup, g)
    ensures Booked(g') == Booked(g) - Texts(Gone(setup, g, e))
  {
    ActsEffect(setup, g, e, g');
    GoneBound(setup, g, e, g');
    if Acts(setup, g, e) {
      BookedAfter(g, g', Gone(setup, g, e));
    } else {
      assert Texts([]) == {};
    }
  }

  /** A right list loses the labels of the courts the check knows of if it can be written, and stays as it
      is if not. */
  lemma FinishList(setup: Setup, g: GameState, e: Event, g': GameState)
    requires setup.p > 0 && Shown(g) && e.Finish? && Moves(setup, g, e, g')
    ensures var tokens := CourtTokens(g'.st.courts);
            && g'.st.courtsCount == |tokens| && Distinct(tokens)
            && Elems(tokens) == Booked(g) - (if e.input.persistOk then Texts(Dropped(setup, g, e)) else {})
    ensures !e.input.persistOk || Dropped(setup, g, e) == [] ==>
              g'.st.courts == g.st.courts && g'.st.courtsCount == g.st.courtsCount
  {
    ActsEffect(setup, g, e, g');
    if Dropped(setup, g, e) != [] && e.input.persistOk {
      ListAfter(g.st.courts, Dropped(setup, g, e));
    } else {
      assert Texts([]) == {};
    }
  }

  /** After a check that started from a right list the list is right again exactly when every booked court
      given back is one the check knows of and could take off the list: a lost write and a lost answer
      make it wrong alike. */
  lemma FinishShowsIff(setup: Setup, g: GameState, e: Event, g': GameState)
    requires setup.p > 0 && WellRecorded(g) && MarksSound(g) && Shown(g) && e.Finish? && Moves(setup, g, e, g')
    ensures Shown(g') <==> forall c | c in Gone(setup, g, e) && Itoa(c) in Booked(g) ::
              c in Dropped(setup, g, e) && e.input.persistOk
  {
    var gone, dropped := Gone(setup, g, e), Dropped(setup, g, e);
    FinishFrees(setup, g, e, g');
    FinishList(setup, g, e, g');
    DroppedAreGone(setup, g, e);
    RightAfterIff(Booked(g), gone, dropped, e.input.persistOk);
  }

  lemma RightAfterIff(booked: set<string>, gone: seq<int>, dropped: seq<int>, stored: bool)
    requires forall c | c in dropped :: c in gone
    ensures booked - (if stored then Texts(dropped) else {}) == booked - Texts(gone)
            <==> forall c | c in gone && Itoa(c) in booked :: c in dropped && stored
  {
    if booked - (if stored then Texts(dropped) else {}) == booked - Texts(gone) {
      forall c | c in gone && Itoa(c) in booked ensures c in dropped && stored {
        TextIff(gone, c);
        TextIff(dropped, c);
        assert Itoa(c) !in booked - Texts(gone);
      }
    }
    if forall c | c in gone && Itoa(c) in booked :: c in dropped && stored {
      KnownTexts(booked, gone, dropped, stored);
    }
  }

  lemma KnownTexts(booked: set<string>, gone: seq<int>, dropped: seq<int>, stored: bool)
    requires forall c | c in dropped :: c in gone
    requires forall c | c in gone && Itoa(c) in booked :: c in dropped && stored
    ensures booked - (if stored then Texts(dropped) else {}) == booked - Texts(gone)
  {
    forall t | t in booked && t in Texts(gone) ensures stored && t in Texts(dropped) {
      var i :| 0 <= i < |gone| && Itoas(gone)[i] == t;
      TextIff(dropped, gone[i]);
    }
    forall t | t in Texts(dropped) ensures t in Texts(gone) {
      var i :| 0 <= i < |dropped| && Itoas(dropped)[i] == t;
      TextIff(gone, dropped[i]);
    }
  }

  lemma FinishShows(setup: Setup, g: GameState, e: Event, g': GameState)
    requires setup.p > 0 && WellRecorded(g) && MarksSound(g) && Shown(g) && e.Finish? && Moves(setup, g, e, g')
    requires e.input.persistOk && Gone(setup, g, e) == Dropped(setup, g, e)
    ensures Shown(g')
  {
    FinishShowsIff(setup, g, e, g');
  }

  lemma FinishMarks(setup: Setup, g: GameState, e: Event, g': GameState)
    requires setup.p > 0 && WellRecorded(g) && MarksSound(g) && e.Finish? && Moves(setup, g, e, g')
    ensures WellRecorded(g') && MarksSound(g')
  {
    ActsEffect(setup, g, e, g');
    if Acts(setup, g, e) {
      var byLabel := EntryByLabel(Bookings(Except(g.records, g.st.marked)));
      MarkedAreGone(e.selected, |e.selected|, byLabel, e.input.replies, setup.credWired);
      GivenAreFreed(e.selected, |e.selected|, byLabel, e.input.replies, setup.credWired);
    }
  }

  // ---------------------------------------------------------------- no player is stranded

  /** The courts booked hold this many players. */
  ghost predicate Holds(setup: Setup, g: GameState, heads: nat) {
    heads <= |Booked(g)| * setup.p
  }

  lemma FreedCard(before: set<string>, gone: seq<int>)
    ensures |before - Texts(gone)| >= |before| - |gone|
  {
    ElemsCard(Itoas(gone));
    UnionCard(before, before - Texts(gone), Texts(gone));
  }

  /** A check that starts from a right list leaves courts on the platform for the players it saw,
      whatever fails, the write of the list included. */
  lemma CheckLeavesRoom(setup: Setup, g: GameState, e: Event, g': GameState)
    requires setup.p > 0 && WellRecorded(g) && MarksSound(g) && Shown(g) && e.Finish? && Moves(setup, g, e, g')
    ensures Holds(setup, g, g.seen) ==> Holds(setup, g', g.seen)
  {
    FinishFrees(setup, g, e, g');
    FreedCard(Booked(g), Gone(setup, g, e));
    ShownCount(g);
    if Holds(setup, g, g.seen) {
      ReleaseNeverStrands(g.counting.value, |Booked(g)|, |Booked(g')|, setup.p, g.seen);
    }
  }

  lemma TakenCard(before: set<string>, gone: set<string>)
    ensures |before - gone| == |before| - |before * gone|
  {
    assert before == (before - gone) + before * gone;
  }

  /** From any state, whatever the list shows and whatever fails: a check leaves courts for a number of
      players exactly when the booked courts among those it gives back are spare. */
  lemma CheckHoldsIff(setup: Setup, g: GameState, e: Event, g': GameState, heads: nat)
    requires setup.p > 0 && WellRecorded(g) && MarksSound(g) && e.Finish? && Moves(setup, g, e, g')
    ensures Holds(setup, g', heads)
            <==> |Booked(g) * Texts(Gone(setup, g, e))| <= |Booked(g)| - Needed(setup.p, heads)
  {
    FinishFrees(setup, g, e, g');
    TakenCard(Booked(g), Texts(Gone(setup, g, e)));
    NeededHolds(setup.p, heads, |Booked(g')|);
  }

  datatype Step = Step(event: Event, after: GameState)

  ghost predicate IsRun(setup: Setup, g: GameState, steps: seq<Step>)
    requires setup.p > 0
    decreases |steps|
  {
    steps == [] || (Moves(setup, g, steps[0].event, steps[0].after) && IsRun(setup, steps[0].after, steps[1..]))
  }

  ghost function EndOf(g: GameState, steps: seq<Step>): GameState {
    if steps == [] then g else steps[|steps| - 1].after
  }

  /** The smallest head-count any check of the run goes by, if it is below `bound`. */
  ghost function FewestSeen(steps: seq<Step>, bound: nat): nat
    decreases |steps|
  {
    if steps == [] then bound else FewestSeen(steps[1..], FloorAfter(steps[0].event, bound))
  }

  ghost function FloorAfter(e: Event, floor: nat): nat {
    if e.CountHeads? then Min(floor, e.seen) else floor
  }

  /** The records are in order, the list is right, and the booked courts hold `floor` players, no
      more than the check under way has seen. */
  ghost predicate Sound(setup: Setup, g: GameState, floor: nat) {
    && WellRecorded(g) && MarksSound(g) && Shown(g) && Holds(setup, g, floor)
    && (g.counting.Some? ==> floor <= g.seen)
  }

  /** The list could be written, and every cancellation carried out was answered so. */
  ghost predicate NothingLostIn(e: Event) {
    (e.Finish? ==> e.input.persistOk) && AllHeard(e)
  }

  lemma FinishKeepsFloor(setup: Setup, g: GameState, e: Event, g': GameState, floor: nat)
    requires setup.p > 0 && Sound(setup, g, floor) && e.Finish? && NothingLostIn(e) && Moves(setup, g, e, g')
    ensures Sound(setup, g', floor)
  {
    FinishFrees(setup, g, e, g');
    DroppedAreGone(setup, g, e);
    FinishShows(setup, g, e, g');
    FinishMarks(setup, g, e, g');
    if Holds(setup, g, g.seen) {
      CheckLeavesRoom(setup, g, e, g');
    } else {
      NoSurplus(setup, g);
      assert Texts([]) == {};
    }
  }

  /** A check that saw more players than the courts hold asks for nothing. */
  lemma NoSurplus(setup: Setup, g: GameState)
    requires setup.p > 0 && Shown(g) && g.counting.Some? && !Holds(setup, g, g.seen)
    ensures Demand(setup, g) == 0
  {
    ShownCount(g);
  }

  lemma MoveKeepsFloor(setup: Setup, g: GameState, e: Event, g': GameState, floor: nat)
    requires setup.p > 0 && Sound(setup, g, floor) && NothingLostIn(e) && Moves(setup, g, e, g')
    ensures Sound(setup, g', FloorAfter(e, floor))
  {
    if e.Finish? {
      FinishKeepsFloor(setup, g, e, g', floor);
    } else {
      assert Booked(g') == Booked(g);
    }
  }

  /** In the run no write of the shortened list is lost, and no answer to a cancellation. */
  ghost predicate NothingLost(steps: seq<Step>)
    decreases |steps|
  {
    steps == [] || (NothingLostIn(steps[0].event) && NothingLost(steps[1..]))
  }

  lemma RunTail(g: GameState, steps: seq<Step>, floor: nat)
    requires steps != []
    ensures EndOf(g, steps) == EndOf(steps[0].after, steps[1..])
    ensures FewestSeen(steps, floor) == FewestSeen(steps[1..], FloorAfter(steps[0].event, floor))
  {
  }

  /** Over every run of halfway checks, reminders and final checks with joins and leaves between any
      two steps, with any failures except a lost write of the list or a cancellation carried out but
      answered with an error, the list keeps naming exactly the booked courts, and these hold the
      smallest number of players a check went by, as far as they held it before. */
  lemma {:induction false} RunsNeverStrand(setup: Setup, g: GameState, steps: seq<Step>, floor: nat)
    requires setup.p > 0 && IsRun(setup, g, steps) && Sound(setup, g, floor) && NothingLost(steps)
    ensures Sound(setup, EndOf(g, steps), FewestSeen(steps, floor))
    decreases |steps|
  {
    if steps != [] {
      var e, next := steps[0].event, steps[0].after;
      MoveKeepsFloor(setup, g, e, next, floor);
      RunsNeverStrand(setup, next, steps[1..], FloorAfter(e, floor));
      RunTail(g, steps, floor);
    }
  }

  // ---------------------------------------------------------------- releases in which nothing fails

  /** Every attempt would go through and be marked, whichever record it is for. */
  ghost predicate Flawless(setup: Setup, g: GameState, input: Input) {
    && setup.bookingWired && input.entries.Loaded?
    && forall r, i: nat :: r in g.records ==>
         Succeeds(Bookings([r])[0], input.replies(i), setup.credWired) && input.replies(i).markOk
  }

  /** The records tell the whole truth: every court has one, and those given back are marked. */
  ghost predicate FullyRecorded(g: GameState) {
    WellRecorded(g) && MarksSound(g) && MarksCurrent(g) && g.others == {}
  }

  /** The venue's preferences name different courts. */
  ghost predicate DifferentPreferences(setup: Setup) {
    Distinct(CourtNumbers(setup.autoBookingCourts))
  }

  lemma {:induction false} HitsDistinct(preferred: seq<int>, booked: set<int>)
    requires Distinct(preferred)
    ensures Distinct(Hits(preferred, booked))
  {
    if preferred != [] {
      var n := |preferred| - 1;
      HitsDistinct(preferred[..n], booked);
      HitsAreBooked(preferred[..n], booked);
      assert preferred[n] !in preferred[..n];
    }
  }

  lemma CourtListed(records: seq<Record>, r: Record)
    requires r in records
    ensures r.court in CourtsOf(records)
  {
    var k :| 0 <= k < |records| && records[k] == r;
    assert CourtsOf(records)[k] == r.court;
  }

  /** A record not marked is of a court still booked, where every match given back is marked. */
  lemma OpenIffBooked(g: GameState, r: Record)
    requires MarksSound(g) && MarksCurrent(g)
    ensures r in Except(g.records, g.st.marked) <==> r in g.records && r.matchId !in g.st.released
  {
    ExceptIff(g.records, g.st.marked);
  }

  ghost function Labels(records: seq<Record>): set<string> {
    set r | r in records :: Itoa(r.court)
  }

  lemma LabelsAreTexts(records: seq<Record>)
    ensures Texts(CourtsOf(records)) == Labels(records)
  {
    forall r | r in records ensures Itoa(r.court) in Texts(CourtsOf(records)) {
      CourtListed(records, r);
      TextIff(CourtsOf(records), r.court);
    }
    forall t | t in Texts(CourtsOf(records)) ensures t in Labels(records) {
      var k :| 0 <= k < |records| && Itoas(CourtsOf(records))[k] == t;
      assert records[k] in records;
    }
  }

  lemma StillRecordedIs(records: seq<Record>, gone: seq<string>, open: seq<Record>)
    requires forall r :: r in open <==> r in records && r.matchId !in gone
    ensures StillRecorded(records, gone) == Labels(open)
  {
  }

  /** The records a release reads are those of the courts still booked. */
  lemma OpenAreBooked(g: GameState)
    requires FullyRecorded(g)
    ensures Booked(g) == Texts(CourtsOf(Except(g.records, g.st.marked)))
    ensures |Booked(g)| == |Except(g.records, g.st.marked)|
  {
    var open := Except(g.records, g.st.marked);
    forall r ensures r in open <==> r in g.records && r.matchId !in g.st.released {
      OpenIffBooked(g, r);
    }
    StillRecordedIs(g.records, g.st.released, open);
    LabelsAreTexts(open);
    ExceptRecorded(g.records, g.st.marked);
    OpenCard(open);
  }

  lemma OpenCard(open: seq<Record>)
    requires Recorded(open)
    ensures |Texts(CourtsOf(open))| == |open|
  {
    BookingsRead(open);
    TextsCard(CourtsOf(open));
  }

  lemma TextsCard(courts: seq<int>)
    requires Distinct(courts)
    ensures |Texts(courts)| == |courts|
  {
    var texts := Itoas(courts);
    forall i, j | 0 <= i < j < |texts| ensures texts[i] != texts[j] {
      SameTextIff(courts[i], courts[j]);
    }
    ElemsCard(texts);
  }

  lemma {:induction false} AllMarked(selected: seq<int>, n: nat, byLabel: map<int, CourtBooking>,
      replies: nat -> CourtReply, wired: bool)
    requires n <= |selected| && forall i :: 0 <= i < |selected| ==> selected[i] in byLabel
    requires forall i: nat :: i < n ==> replies(i).markOk
    ensures MarkedOf(selected, n, byLabel, replies, wired)
        == Matches(CanceledOf(selected, n, byLabel, replies, wired), byLabel)
  {
    if n > 0 {
      AllMarked(selected, n - 1, byLabel, replies, wired);
      var before, l := CanceledOf(selected, n - 1, byLabel, replies, wired), selected[n - 1];
      MatchesNext(before, l, byLabel);
      assert replies(n - 1).markOk;
      assert CanceledOf(selected, n, byLabel, replies, wired)
          == if Succeeds(byLabel[l], replies(n - 1), wired) then before + [l] else before;
    }
  }

  /** When nothing fails, the courts given back are different, open, and as many as asked for or as
      there are. */
  lemma FlawlessGone(setup: Setup, g: GameState, e: Event, g': GameState)
    requires setup.p > 0 && FullyRecorded(g) && DifferentPreferences(setup)
    requires e.Finish? && Moves(setup, g, e, g') && Flawless(setup, g, e.input)
    ensures var gone, open := Gone(setup, g, e), Except(g.records, g.st.marked);
            && Distinct(gone) && |gone| == Min(Demand(setup, g), |open|)
            && forall x :: x in gone ==> x in CourtsOf(open)
  {
    var open := Except(g.records, g.st.marked);
    ExceptRecorded(g.records, g.st.marked);
    ExceptIff(g.records, g.st.marked);
    BookingsRead(open);
    ActsEffect(setup, g, e, g');
    if Acts(setup, g, e) {
      var raw, labels := CourtsOf(open), SortInts(CourtsOf(open));
      SubMultisetDistinct(labels, raw);
      assert |labels| == |multiset(labels)| == |raw|;
      HitsDistinct(CourtNumbers(setup.autoBookingCourts), Elems(labels));
      SelectionSize(labels, CourtNumbers(setup.autoBookingCourts), Demand(setup, g), e.selected);
      EveryAttemptSucceeds(setup, g, e);
    }
  }

  lemma EveryAttemptSucceeds(setup: Setup, g: GameState, e: Event)
    requires setup.p > 0 && WellRecorded(g) && Acts(setup, g, e) && Flawless(setup, g, e.input)
    ensures Gone(setup, g, e) == Dropped(setup, g, e) == e.selected
  {
    var open := Except(g.records, g.st.marked);
    var byLabel := EntryByLabel(Bookings(open));
    ExceptRecorded(g.records, g.st.marked);
    ExceptIff(g.records, g.st.marked);
    forall i: nat | i < |e.selected| ensures Succeeds(byLabel[e.selected[i]], e.input.replies(i), setup.credWired) {
      var k := EntryIsRecord(open, e.selected[i]);
      assert open[k] in g.records;
      assert Bookings([open[k]])[0] == Bookings(open)[k];
    }
    CourtCancellation.AllCanceled(e.selected, |e.selected|, byLabel, e.input.replies, setup.credWired);
    assert e.selected[..|e.selected|] == e.selected;
    DroppedAreGone(setup, g, e);
  }

  lemma FlawlessKnows(setup: Setup, g: GameState, e: Event)
    requires setup.p > 0 && WellRecorded(g) && e.Finish? && Flawless(setup, g, e.input)
    ensures Gone(setup, g, e) == Dropped(setup, g, e)
  {
    if Acts(setup, g, e) {
      EveryAttemptSucceeds(setup, g, e);
    }
  }

  /** When nothing fails but perhaps the write of the list, as many courts go as asked for, or all. */
  lemma FlawlessFinish(setup: Setup, g: GameState, e: Event, g': GameState)
    requires setup.p > 0 && FullyRecorded(g) && DifferentPreferences(setup)
    requires e.Finish? && Moves(setup, g, e, g') && Flawless(setup, g, e.input)
    ensures |Booked(g')| == |Booked(g)| - Min(Demand(setup, g), |Booked(g)|)
    ensures FullyRecorded(g')
  {
    var gone, open := Gone(setup, g, e), Except(g.records, g.st.marked);
    FlawlessGone(setup, g, e, g');
    FinishFrees(setup, g, e, g');
    FinishMarks(setup, g, e, g');
    OpenAreBooked(g);
    TextsCard(gone);
    forall x | x in gone ensures Itoa(x) in Booked(g) {
      TextIff(CourtsOf(open), x);
    }
    assert Texts(gone) <= Booked(g);
    assert |Booked(g) - Texts(gone)| == |Booked(g)| - |Texts(gone)|;
    FlawlessMarks(setup, g, e, g');
  }

  lemma FlawlessMarks(setup: Setup, g: GameState, e: Event, g': GameState)
    requires setup.p > 0 && FullyRecorded(g) && e.Finish? && Moves(setup, g, e, g') && Flawless(setup, g, e.input)
    ensures MarksCurrent(g')
  {
    ActsEffect(setup, g, e, g');
    if Acts(setup, g, e) {
      var open := Except(g.records, g.st.marked);
      var byLabel := EntryByLabel(Bookings(open));
      ExceptIff(g.records, g.st.marked);
      assert open != [] && open[0] in g.records;
      forall i: nat ensures e.input.replies(i).markOk {
        assert Succeeds(Bookings([open[0]])[0], e.input.replies(i), setup.credWired);
      }
      AllMarked(e.selected, |e.selected|, byLabel, e.input.replies, setup.credWired);
      EveryAttemptSucceeds(setup, g, e);
    }
  }

  /** When nothing fails, a reminder or final check leaves exactly the courts the players need, none if
      and only if nobody is registered. */
  lemma FullCheckLeavesNeeded(setup: Setup, g: GameState, e: Event, g': GameState)
    requires setup.p > 0 && FullyRecorded(g) && Shown(g) && DifferentPreferences(setup) && Holds(setup, g, g.seen)
    requires e.Finish? && Moves(setup, g, e, g') && Flawless(setup, g, e.input) && !g.counting.value.Halfway?
    ensures |Booked(g')| == Needed(setup.p, g.seen)
    ensures Booked(g') == {} <==> g.seen == 0
  {
    ShownCount(g);
    FlawlessFinish(setup, g, e, g');
    FullReleaseLeavesNeeded(g.counting.value, |Booked(g)|, setup.p, g.seen);
  }

  /** With a constant head-count it makes no difference to where full releases end that the halfway
      check came first. */
  lemma HalfwayThenFullCheck(setup: Setup, g: GameState, half: Event, mid: GameState, check: Check, full: Event,
      end: GameState)
    requires setup.p > 0 && FullyRecorded(g) && Shown(g) && DifferentPreferences(setup)
    requires g.counting == Some(Halfway) && g.seen == g.heads && Holds(setup, g, g.heads)
    requires half.Finish? && half.input.persistOk && Moves(setup, g, half, mid) && Flawless(setup, g, half.input)
    requires !check.Halfway?
    requires var counted := mid.(counting := Some(check), seen := mid.heads);
             Moves(setup, mid, CountHeads(check, mid.heads), counted)
             && full.Finish? && Moves(setup, counted, full, end) && Flawless(setup, counted, full.input)
    ensures |Booked(end)| == Needed(setup.p, g.heads)
  {
    var counted := mid.(counting := Some(check), seen := mid.heads);
    FlawlessFinish(setup, g, half, mid);
    FlawlessKnows(setup, g, half);
    FinishShows(setup, g, half, mid);
    CheckLeavesRoom(setup, g, half, mid);
    assert Booked(counted) == Booked(mid);
    FullCheckLeavesNeeded(setup, counted, full, end);
  }

  // ---------------------------------------------------------------- lost marks and lost writes

  /** What a lost mark does: the records go on being true exactly as long as every court given back is
      marked.  One that is not stays among the records later checks read. */
  lemma LostMarkStaysOpen(setup: Setup, g: GameState, e: Event, g': GameState, r: Record)
    requires setup.p > 0 && WellRecorded(g) && MarksSound(g) && e.Finish? && Moves(setup, g, e, g') && r in g.records
    requires r.matchId !in g.st.released && r.matchId in g'.st.released
    ensures r.court in Gone(setup, g, e)
    ensures r in Except(g'.records, g'.st.marked) <==> r.matchId !in g'.st.marked
    ensures Itoa(r.court) !in Booked(g')
  {
    FinishFrees(setup, g, e, g');
    FinishMarks(setup, g, e, g');
    ExceptIff(g'.records, g'.st.marked);
    ActsEffect(setup, g, e, g');
    GoneBound(setup, g, e, g');
    ReleasedIff(g, Gone(setup, g, e), r);
    TextIff(Gone(setup, g, e), r.court);
  }

  /** Giving such a court back once more frees nothing and takes nothing off the list: it only uses up
      one of the courts the check asked for. */
  lemma GivingBackTwiceIsHarmless(g: GameState, gone: seq<int>, c: int)
    requires Shown(g) && Itoa(c) !in Booked(g)
    ensures Booked(g) - Texts(gone + [c]) == Booked(g) - Texts(gone)
    ensures Elems(RemainingTokens(g.st.courts, gone + [c])) == Elems(RemainingTokens(g.st.courts, gone))
  {
    assert Itoas(gone + [c]) == Itoas(gone) + [Itoa(c)];
    ListAfter(g.st.courts, gone);
    ListAfter(g.st.courts, gone + [c]);
  }

  /** What a lost write does: where a reminder or final check gives back all it asked for, the courts
      needed are left, but the list still shows the courts there were. */
  lemma LostWriteLeavesListStale(setup: Setup, g: GameState, e: Event, g': GameState)
    requires setup.p > 0 && FullyRecorded(g) && Shown(g) && DifferentPreferences(setup) && Holds(setup, g, g.seen)
    requires e.Finish? && !e.input.persistOk && Moves(setup, g, e, g') && Flawless(setup, g, e.input)
        && !g.counting.value.Halfway?
    ensures g'.st.courtsCount == |Booked(g)| && |Booked(g')| == Needed(setup.p, g.seen) && FullyRecorded(g')
  {
    ShownCount(g);
    FinishList(setup, g, e, g');
    FlawlessFinish(setup, g, e, g');
    FullReleaseLeavesNeeded(g.counting.value, |Booked(g)|, setup.p, g.seen);
  }

  /** A check that goes by such a list and gives back all it asks for, or all there is, leaves courts
      for the players it saw exactly when nobody is registered or the courts it asks for are spare on
      the platform too. */
  lemma StaleCheckStrandsIff(setup: Setup, g: GameState, e: Event, g': GameState)
    requires setup.p > 0 && FullyRecorded(g) && DifferentPreferences(setup) && Holds(setup, g, g.seen)
    requires e.Finish? && Moves(setup, g, e, g') && Flawless(setup, g, e.input) && |Booked(g)| <= g.st.courtsCount
    ensures Holds(setup, g', g.seen) <==> g.seen == 0 || Demand(setup, g) <= |Booked(g)| - Needed(setup.p, g.seen)
  {
    FlawlessFinish(setup, g, e, g');
    LeftHoldsIff(|Booked(g)|, Demand(setup, g), setup.p, g.seen);
  }

  /** Taking `n` courts, or all there are, leaves room exactly when nobody needs it or `n` are spare. */
  lemma LeftHoldsIff(booked: nat, n: nat, p: nat, heads: nat)
    requires p > 0 && heads <= booked * p
    ensures heads <= (booked - Min(n, booked)) * p <==> heads == 0 || n <= booked - Needed(p, heads)
  {
    NeededHolds(p, heads, booked - Min(n, booked));
    NeededHolds(p, heads, booked);
    NeededHolds(p, heads, 0);
  }

  // ---------------------------------------------------------------- such runs exist

  /** Answers under which nothing fails. */
  ghost function GoodInput(setup: Setup, g: GameState, persistOk: bool): Input {
    Input(Some(g.seen), true, Loaded(Bookings(Except(g.records, g.st.marked))), setup.autoBookingCourts,
          (i: nat) => CourtReply(Found("login"), Confirmed, true), persistOk, true, true)
  }

  ghost predicate AllAccounted(setup: Setup, g: GameState) {
    setup.bookingWired && setup.credWired && forall r :: r in g.records ==> r.account.Some?
  }

  lemma GoodInputIsFlawless(setup: Setup, g: GameState, persistOk: bool)
    requires AllAccounted(setup, g)
    ensures Flawless(setup, g, GoodInput(setup, g, persistOk))
  {
  }

  /** Every selection the canceler may make is a release with the given answers. */
  lemma EffectExists(g: GameState, entries: seq<CourtBooking>, n: nat, selected: seq<int>, input: Input, wired: bool)
    returns (release: CourtCancellation.Outcome, st': ReleaseState)
    requires Selection(SortInts(NumericLabels(entries)), CourtNumbers(input.autoBookingCourts), n, selected)
    requires forall i :: 0 <= i < |selected| ==> selected[i] in EntryByLabel(entries)
    ensures ReleaseEffect(g.st, st', release, selected, RowOf(g), entries, input.autoBookingCourts, n,
              input.replies, wired, input.persistOk)
  {
    var byLabel := EntryByLabel(entries);
    release := Report(RowOf(g), selected, Canceled(selected, byLabel, input.replies, wired), input.persistOk);
    st' := AfterRelease(g.st, RowOf(g), selected, byLabel, input.replies, wired, input.persistOk);
  }

  /** The state in which a check with these answers ends. */
  ghost function Finished(g: GameState, st': ReleaseState, input: Input): GameState
    requires g.counting.Some?
  {
    g.(st := st', counting := None, done := DoneAfter(g.done, g.counting.value, input))
  }

  /** From every state with a check under way some release goes through with good answers. */
  lemma ReleaseExists(setup: Setup, g: GameState, persistOk: bool) returns (e: Event, g': GameState)
    requires setup.p > 0 && WellRecorded(g) && g.counting.Some? && g.st.courtsCount > 0
    ensures e.Finish? && e.input == GoodInput(setup, g, persistOk) && Moves(setup, g, e, g')
  {
    var input := GoodInput(setup, g, persistOk);
    var entries := Bookings(Except(g.records, g.st.marked));
    var n := Demand(setup, g);
    if !setup.bookingWired || n == 0 {
      e, g' := Finish(input, [], Done(NoOp(RowOf(g), 0))), Finished(g, g.st, input);
    } else if entries == [] {
      e, g' := Finish(input, [], Failed(NoBookingRecords)), Finished(g, g.st, input);
    } else {
      var labels := SortInts(NumericLabels(entries));
      var selected := SelectionExists(labels, CourtNumbers(setup.autoBookingCourts), n);
      SelectedAreBooked(labels, NumericLabels(entries), CourtNumbers(setup.autoBookingCourts), n, selected);
      var release, st' := EffectExists(g, entries, n, selected, input, setup.credWired);
      e, g' := Finish(input, selected, release), Finished(g, st', input);
    }
  }

  lemma RunFrom(setup: Setup, g: GameState, e: Event, next: GameState, steps: seq<Step>)
    requires setup.p > 0 && Moves(setup, g, e, next) && IsRun(setup, next, steps)
    ensures IsRun(setup, g, [Step(e, next)] + steps)
    ensures EndOf(g, [Step(e, next)] + steps) == EndOf(next, steps)
  {
    assert ([Step(e, next)] + steps)[1..] == steps;
  }

  /** A check that counts everybody. */
  ghost function Counted(g: GameState, check: Check): GameState {
    g.(counting := Some(check), seen := g.heads)
  }

  /** The two steps of a check that counts everybody, followed by a run. */
  ghost function CheckSteps(g: GameState, check: Check, e: Event, next: GameState): seq<Step> {
    [Step(CountHeads(check, g.heads), Counted(g, check)), Step(e, next)]
  }

  lemma CheckRun(setup: Setup, g: GameState, check: Check, e: Event, next: GameState, rest: seq<Step>)
    requires setup.p > 0 && g.counting.None? && check !in g.done
    requires Moves(setup, Counted(g, check), e, next) && IsRun(setup, next, rest)
    ensures IsRun(setup, g, CheckSteps(g, check, e, next) + rest)
    ensures EndOf(g, CheckSteps(g, check, e, next) + rest) == EndOf(next, rest)
  {
    RunFrom(setup, Counted(g, check), e, next, rest);
    RunFrom(setup, g, CountHeads(check, g.heads), Counted(g, check), [Step(e, next)] + rest);
    assert CheckSteps(g, check, e, next) + rest
        == [Step(CountHeads(check, g.heads), Counted(g, check))] + ([Step(e, next)] + rest);
  }

  /** From a list that shows a court too many, a final check can strand the players. */
  lemma StrandingCheck(setup: Setup, g: GameState) returns (e: Event, end: GameState)
    requires setup.p > 0 && FullyRecorded(g) && DifferentPreferences(setup) && AllAccounted(setup, g)
    requires g.counting.None? && 0 < g.heads && |Booked(g)| == Needed(setup.p, g.heads) < g.st.courtsCount
    ensures e.Finish? && Moves(setup, Counted(g, Final), e, end)
    ensures end.heads == g.heads && !Holds(setup, end, g.heads)
  {
    var counted := Counted(g, Final);
    assert Booked(counted) == Booked(g);
    NeededBounds(setup.p, g.heads);
    ScaledOrder(|Booked(g)|, g.st.courtsCount, setup.p);
    RequestedFromNeeded(Final, g.st.courtsCount, setup.p, g.heads);
    GoodInputIsFlawless(setup, counted, true);
    e, end := ReleaseExists(setup, counted, true);
    StaleCheckStrandsIff(setup, counted, e, end);
  }

  /** A reminder whose write is lost, with all else going well. */
  lemma LostWriteStep(setup: Setup, counted: GameState) returns (e: Event, next: GameState)
    requires setup.p > 0 && FullyRecorded(counted) && Shown(counted) && DifferentPreferences(setup)
    requires AllAccounted(setup, counted) && counted.st.courtsCount > 0
    requires counted.counting == Some(Reminder) && Holds(setup, counted, counted.seen)
    ensures Moves(setup, counted, e, next) && e.Finish?
    ensures next.counting.None? && next.heads == counted.heads && next.records == counted.records
    ensures next.done == counted.done + {Reminder}
    ensures FullyRecorded(next) && next.st.courtsCount == |Booked(counted)|
        && |Booked(next)| == Needed(setup.p, counted.seen)
  {
    GoodInputIsFlawless(setup, counted, false);
    e, next := ReleaseExists(setup, counted, false);
    LostWriteLeavesListStale(setup, counted, e, next);
  }

  lemma TwoCheckRun(setup: Setup, g: GameState, first: Check, e: Event, mid: GameState, second: Check, f: Event,
      end: GameState) returns (steps: seq<Step>)
    requires setup.p > 0 && g.counting.None? && first !in g.done && mid.counting.None? && second !in mid.done
    requires Moves(setup, Counted(g, first), e, mid) && Moves(setup, Counted(mid, second), f, end)
    ensures IsRun(setup, g, steps) && EndOf(g, steps) == end
    ensures |steps| == 4 && steps[1].event == e && steps[3].event == f
    ensures steps[0].event == CountHeads(first, g.heads) && steps[2].event == CountHeads(second, mid.heads)
  {
    CheckRun(setup, mid, second, f, end, []);
    assert CheckSteps(mid, second, f, end) + [] == CheckSteps(mid, second, f, end);
    CheckRun(setup, g, first, e, mid, CheckSteps(mid, second, f, end));
    steps := CheckSteps(g, first, e, mid) + CheckSteps(mid, second, f, end);
  }

  lemma LostWriteChecks(setup: Setup, g: GameState) returns (e: Event, mid: GameState, f: Event, end: GameState)
    requires setup.p > 0 && FullyRecorded(g) && Shown(g) && DifferentPreferences(setup) && AllAccounted(setup, g)
    requires g.counting.None? && 0 < g.heads && Needed(setup.p, g.heads) < |Booked(g)|
    ensures Moves(setup, Counted(g, Reminder), e, mid) && e.Finish?
    ensures mid.counting.None? && mid.heads == g.heads && mid.done == g.done + {Reminder}
    ensures Moves(setup, Counted(mid, Final), f, end) && f.Finish?
    ensures end.heads == g.heads && !Holds(setup, end, g.heads)
  {
    var counted := Counted(g, Reminder);
    assert Booked(counted) == Booked(g);
    ShownCount(g);
    NeededHolds(setup.p, g.heads, |Booked(g)|);
    e, mid := LostWriteStep(setup, counted);
    f, end := StrandingCheck(setup, mid);
  }

  /** From every ordinary game with a court to spare there is a run of a reminder with a lost write and a
      final check after which the registered players have too few courts. */
  lemma LostWriteRun(setup: Setup, g: GameState) returns (steps: seq<Step>)
    requires setup.p > 0 && FullyRecorded(g) && Shown(g) && DifferentPreferences(setup) && AllAccounted(setup, g)
    requires g.counting.None? && Reminder !in g.done && Final !in g.done
    requires 0 < g.heads && Needed(setup.p, g.heads) < |Booked(g)|
    ensures IsRun(setup, g, steps) && |steps| == 4
    ensures steps[0].event == CountHeads(Reminder, g.heads) && steps[1].event.Finish?
    ensures steps[2].event == CountHeads(Final, g.heads) && steps[3].event.Finish?
    ensures EndOf(g, steps).heads == g.heads && !Holds(setup, EndOf(g, steps), g.heads)
  {
    var e, mid, f, end := LostWriteChecks(setup, g);
    steps := TwoCheckRun(setup, g, Reminder, e, mid, Final, f, end);
  }

  /** A game as booking leaves it: different courts, a record of each, and a list of them. */
  lemma BookedGameIsSound(setup: Setup, records: seq<Record>, heads: nat)
    requires setup.p > 0 && Recorded(records)
    ensures var texts := Itoas(CourtsOf(records));
            var g := GameState(ReleaseState([], [], JoinCourts(texts), |records|), records, {}, heads, {}, None, 0);
            FullyRecorded(g) && Shown(g) && |Booked(g)| == |records|
            && (heads <= |records| * setup.p ==> Sound(setup, g, heads))
  {
    var texts := Itoas(CourtsOf(records));
    var g := GameState(ReleaseState([], [], JoinCourts(texts), |records|), records, {}, heads, {}, None, 0);
    forall p | p in texts ensures IsLabel(p) {
      var i :| 0 <= i < |records| && texts[i] == p;
      ItoaIsLabel(records[i].court);
    }
    CourtListRoundTrip(texts);
    AllOpen(records);
    OpenAreBooked(g);
    BookingsRead(records);
    TextsCard(CourtsOf(records));
    ElemsCard(texts);
  }

  lemma {:induction false} AllOpen(records: seq<Record>)
    ensures Except(records, []) == records
  {
    if records != [] {
      var n := |records| - 1;
      AllOpen(records[..n]);
      assert records == records[..n] + [records[n]];
    }
  }
}
