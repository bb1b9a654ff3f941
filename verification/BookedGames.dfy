/** From a booking run to a game the checks can rely on: the courts a run reports, merged into the game's
    list, and the records it saved, are in order. */
module BookedGames {

  import opened Basics
  import opened CourtStrings
  import opened CourtFilter
  import opened CourtCancellation
  import opened CourtRuns
  import B = BookingCore
  import L = CourtLists

  // ---------------------------------------------------------------- the records of a run

  ghost function RecordLabels(records: seq<B.BookingRecord>): (labels: seq<string>)
    ensures |labels| == |records| && forall i :: 0 <= i < |records| ==> labels[i] == records[i].courtLabel
  {
    seq(|records|, i requires 0 <= i < |records| => records[i].courtLabel)
  }

  lemma RecordLabelsConcat(a: seq<B.BookingRecord>, b: seq<B.BookingRecord>)
    ensures RecordLabels(a + b) == RecordLabels(a) + RecordLabels(b)
  {
  }

  lemma EntryLabels(a: B.Attempt, credentialId: int, names: map<string, string>, reply: B.BookReply, saved: bool)
    ensures var entry := B.Entry(a, credentialId, names, reply, saved);
            multiset(RecordLabels(entry.records)) <= multiset(entry.labels)
  {
    var entry := B.Entry(a, credentialId, names, reply, saved);
    if entry.records != [] {
      assert RecordLabels(entry.records) == entry.labels;
    } else {
      assert RecordLabels(entry.records) == [];
    }
  }

  /** A record is saved only of a court that is reported, once per court. */
  lemma {:induction false} SavedAreReported(attempts: seq<B.Attempt>, tried: nat, job: B.Job)
    ensures var tally := B.TallyOf(attempts, tried, job);
            multiset(RecordLabels(tally.records)) <= multiset(tally.labels)
  {
    if attempts == [] || attempts[0].cred >= |job.creds| {
      assert RecordLabels([]) == [];
    } else {
      var entry := B.Entry(attempts[0], job.creds[attempts[0].cred].id, job.names, job.replies(tried),
          job.saves(tried));
      var rest := B.TallyOf(attempts[1..], tried + 1, job);
      SavedAreReported(attempts[1..], tried + 1, job);
      EntryLabels(attempts[0], job.creds[attempts[0].cred].id, job.names, job.replies(tried), job.saves(tried));
      RecordLabelsConcat(entry.records, rest.records);
    }
  }

  lemma ReportedLabels(job: B.Job)
    ensures multiset(RecordLabels(B.ReportOf(job).records)) <= multiset(B.ReportOf(job).labels)
  {
    var run := B.Rotation(job);
    SavedAreReported(run, 0, job);
    var tally := B.TallyOf(run, 0, job);
    assert tally.records + [] == tally.records && tally.labels + [] == tally.labels;
  }

  // ---------------------------------------------------------------- labels as court numbers

  function NumberOf(text: string): int {
    var n := Atoi(text);
    if n.Parsed? then n.value else 0
  }

  /** The label prints the number of a court. */
  ghost predicate IsCourt(text: string) {
    INT_MIN <= NumberOf(text) <= INT_MAX && Itoa(NumberOf(text)) == text && IsLabel(text)
  }

  lemma PrintedIsCourt(n: int)
    requires INT_MIN <= n <= INT_MAX
    ensures IsCourt(Itoa(n))
  {
    AtoiItoa(n);
    ItoaIsLabel(n);
  }

  /** Every chosen number is a 64-bit number. */
  lemma ChosenInRange(courts: seq<BookingCourt>, occupied: set<int>, venueCourts: set<int>, preferred: seq<int>, x: int)
    requires x in Chosen(Slots(courts, occupied), venueCourts, preferred)
    ensures 0 < x <= INT_MAX
  {
    var slots := Slots(courts, occupied);
    SlotsInOrder(courts, occupied);
    ChosenFromPool(slots, venueCourts, preferred, x);
    var k := SupplierOf(slots, |slots|, x);
    assert slots[k] == SlotOf(courts[k], occupied);
  }

  // ---------------------------------------------------------------- the game after the run

  ghost function RecordsOf(records: seq<B.BookingRecord>): (out: seq<Record>)
    ensures |out| == |records|
    ensures forall i :: 0 <= i < |records| ==>
              out[i] == Record(NumberOf(records[i].courtLabel), records[i].matchId, Some(records[i].credentialId))
  {
    seq(|records|, i requires 0 <= i < |records| =>
      Record(NumberOf(records[i].courtLabel), records[i].matchId, Some(records[i].credentialId)))
  }

  /** The game with its new list: the courts of the list without a saved record are booked otherwise. */
  ghost function GameAfter(courts: string, records: seq<B.BookingRecord>, heads: nat): GameState {
    var tokens := CourtTokens(courts);
    GameState(ReleaseState([], [], courts, |tokens|), RecordsOf(records),
              Elems(tokens) - Elems(RecordLabels(records)), heads, {}, None, 0)
  }

  ghost predicate DistinctMatches(records: seq<B.BookingRecord>) {
    forall i, j :: 0 <= i < j < |records| ==> records[i].matchId != records[j].matchId
  }

  lemma SavedRecorded(records: seq<B.BookingRecord>)
    requires DistinctMatches(records) && Distinct(RecordLabels(records))
    requires forall l | l in RecordLabels(records) :: IsCourt(l)
    ensures Recorded(RecordsOf(records))
  {
    var labels, out := RecordLabels(records), RecordsOf(records);
    forall i | 0 <= i < |out| ensures INT_MIN <= out[i].court <= INT_MAX && Itoa(out[i].court) == labels[i] {
      assert labels[i] in labels;
    }
  }

  lemma SavedTexts(records: seq<B.BookingRecord>)
    requires forall l | l in RecordLabels(records) :: IsCourt(l)
    ensures StillRecorded(RecordsOf(records), []) == Elems(RecordLabels(records))
  {
    var labels, out := RecordLabels(records), RecordsOf(records);
    forall i | 0 <= i < |out| ensures Itoa(out[i].court) == labels[i] {
      assert labels[i] in labels;
    }
    forall l | l in labels ensures l in StillRecorded(out, []) {
      var i :| 0 <= i < |labels| && labels[i] == l;
      assert out[i] in out;
    }
  }

  /** Merging two lists without repetition gives one. */
  lemma MergedOnce(first: seq<string>, added: seq<string>)
    requires Distinct(first) && Distinct(added)
    ensures Distinct(L.Merged(first, added)) && Elems(L.Merged(first, added)) == Elems(first) + Elems(added)
  {
    var all := L.Merged(first, added);
    L.MergeIsMaximum(first, added);
    DistinctIffOnce(first);
    DistinctIffOnce(added);
    forall x ensures multiset(all)[x] <= 1 && (x in all <==> x in first || x in added) {
      CountOnce(first, x);
      CountOnce(added, x);
      assert x in all <==> x in multiset(all);
    }
    forall x | x in all ensures multiset(all)[x] == 1 {
      assert x in multiset(all);
    }
    DistinctIffOnce(all);
  }

  lemma CountOnce(s: seq<string>, x: string)
    requires OnceEach(s)
    ensures multiset(s)[x] == if x in s then 1 else 0
  {
    assert x in s <==> x in multiset(s);
  }

  lemma GameIsShown(courts: string, records: seq<B.BookingRecord>, heads: nat)
    requires Distinct(CourtTokens(courts)) && Elems(RecordLabels(records)) <= Elems(CourtTokens(courts))
    requires DistinctMatches(records) && Distinct(RecordLabels(records))
    requires forall l | l in RecordLabels(records) :: IsCourt(l)
    ensures var g := GameAfter(courts, records, heads);
            WellRecorded(g) && MarksSound(g) && MarksCurrent(g) && Shown(g) && |Booked(g)| == |CourtTokens(courts)|
  {
    var g := GameAfter(courts, records, heads);
    SavedRecorded(records);
    SavedTexts(records);
    forall r | r in g.records ensures Itoa(r.court) !in g.others {
      assert Itoa(r.court) in StillRecorded(g.records, []);
    }
    ElemsCard(CourtTokens(courts));
  }

  /** After a booking run over courts with different UUIDs, where no court is handed out twice and the
      platform gave different matches, the game with the merged list is in order for the checks: the list
      names exactly the courts booked, old ones and new ones, and every record saved is of one of them. */
  lemma BookingLeavesSound(setup: Setup, job: B.Job, lookups: B.Lookups, venueCourts: string,
      autoBookingCourts: string, count: int, before: string, courts: string, heads: nat)
    requires lookups.creds.Answers? && lookups.courts.Answers? && lookups.occupied.Answers?
    requires B.JobFor(job, lookups, venueCourts, autoBookingCourts, count)
    requires var slots := Slots(lookups.courts.value, lookups.occupied.value);
             DistinctUUIDs(slots) && Distinct(Chosen(slots, B.NumbersIn(venueCourts), CourtNumbers(autoBookingCourts)))
    requires DistinctMatches(B.ReportOf(job).records) && Distinct(CourtTokens(before))
    requires CourtTokens(courts) == L.Merged(CourtTokens(before), B.ReportOf(job).labels)
    ensures var g := GameAfter(courts, B.ReportOf(job).records, heads);
            && Booked(g) == Elems(CourtTokens(before)) + Elems(B.ReportOf(job).labels)
            && (setup.p > 0 && heads <= |CourtTokens(courts)| * setup.p ==> Sound(setup, g, heads))
  {
    var report := B.ReportOf(job);
    LabelsInOrder(job, lookups, venueCourts, autoBookingCourts, count);
    ReportedLabels(job);
    SubMultisetDistinct(RecordLabels(report.records), report.labels);
    MergedOnce(CourtTokens(before), report.labels);
    GameIsShown(courts, report.records, heads);
  }

  /** The labels such a run reports are different court numbers. */
  lemma LabelsInOrder(job: B.Job, lookups: B.Lookups, venueCourts: string, autoBookingCourts: string, count: int)
    requires lookups.creds.Answers? && lookups.courts.Answers? && lookups.occupied.Answers?
    requires B.JobFor(job, lookups, venueCourts, autoBookingCourts, count)
    requires var slots := Slots(lookups.courts.value, lookups.occupied.value);
             DistinctUUIDs(slots) && Distinct(Chosen(slots, B.NumbersIn(venueCourts), CourtNumbers(autoBookingCourts)))
    ensures Distinct(B.ReportOf(job).labels) && forall l | l in B.ReportOf(job).labels :: IsCourt(l)
  {
    var slots := Slots(lookups.courts.value, lookups.occupied.value);
    var venue, preferred := B.NumbersIn(venueCourts), CourtNumbers(autoBookingCourts);
    var chosen, labels := Chosen(slots, venue, preferred), B.ReportOf(job).labels;
    B.LabelsAreChosenNumbers(job, lookups, venueCourts, autoBookingCourts, count);
    B.BookedLabelsDistinct(labels, chosen);
    forall l | l in labels ensures IsCourt(l) {
      var i :| 0 <= i < |labels| && labels[i] == l;
      assert l == Itoas(chosen)[i] == Itoa(chosen[i]) && chosen[i] in chosen;
      ChosenInRange(lookups.courts.value, lookups.occupied.value, venue, preferred, chosen[i]);
      PrintedIsCourt(chosen[i]);
    }
  }
}
