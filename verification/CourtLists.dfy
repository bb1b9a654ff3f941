/** Editing a game's court list by hand: adding booked courts to it, and taking courts off it.

    A label may occur several times in a list, so both operations count occurrences. */
module CourtLists {

  import opened Basics
  import opened CourtStrings
  import opened CourtCancellation

  // ---------------------------------------------------------------- merging

  /** The old list, followed by those booked labels it does not account for. */
  ghost function Merged(existing: seq<string>, booked: seq<string>): seq<string> {
    existing + Without(booked, multiset(existing))
  }

  method MergeLabels(existingCourts: seq<string>, bookedLabels: seq<string>) returns (allCourts: seq<string>)
    ensures allCourts == Merged(existingCourts, bookedLabels)
  {
    var existing: multiset<string> := multiset{};
    for i := 0 to |existingCourts|
      invariant existing == multiset(existingCourts[..i])
    {
      assert existingCourts[..i + 1] == existingCourts[..i] + [existingCourts[i]];
      existing := existing + multiset{existingCourts[i]};
    }
    assert existingCourts[..|existingCourts|] == existingCourts;
    allCourts := existingCourts;
    for i := 0 to |bookedLabels|
      invariant allCourts + Without(bookedLabels[i..], existing) == Merged(existingCourts, bookedLabels)
    {
      var bookedLabel := bookedLabels[i];
      assert bookedLabels[i..][1..] == bookedLabels[i + 1..];
      if existing[bookedLabel] > 0 {
        existing := existing - multiset{bookedLabel};
        continue;
      }
      allCourts := allCourts + [bookedLabel];
    }
  }

  /** Per label, the merged list has the larger of the two multiplicities; the old list stays in
      front, as it was. */
  lemma MergeIsMaximum(existing: seq<string>, booked: seq<string>)
    ensures existing <= Merged(existing, booked)
    ensures forall x :: multiset(Merged(existing, booked))[x] == Max(multiset(existing)[x], multiset(booked)[x])
  {
    WithoutIsSubtraction(booked, multiset(existing));
    assert multiset(Merged(existing, booked)) == multiset(existing) + multiset(Without(booked, multiset(existing)));
  }

  /** Reporting the same booked labels once more changes nothing. */
  lemma MergeIdempotent(existing: seq<string>, booked: seq<string>)
    ensures Merged(Merged(existing, booked), booked) == Merged(existing, booked)
  {
    var once := Merged(existing, booked);
    MergeIsMaximum(existing, booked);
    WithoutIsSubtraction(booked, multiset(once));
    forall x ensures multiset(Without(booked, multiset(once)))[x] == 0 {
      assert multiset(once)[x] >= multiset(booked)[x];
    }
    assert multiset(Without(booked, multiset(once))) == multiset{};
    assert |multiset(Without(booked, multiset(once)))| == 0;
  }

  /** New labels join in the order they were booked. */
  lemma MergeKeepsBookedOrder(existing: seq<string>, booked: seq<string>)
    ensures IsSubsequence(Merged(existing, booked)[|existing|..], booked)
  {
    WithoutKeepsOrder(booked, multiset(existing));
    assert Merged(existing, booked)[|existing|..] == Without(booked, multiset(existing));
  }

  // ---------------------------------------------------------------- what is taken off

  method RemovedLabels(current: seq<string>, incoming: seq<string>) returns (removed: seq<string>)
    ensures removed == Without(current, multiset(incoming))
  {
    var incomingCount: multiset<string> := multiset{};
    for i := 0 to |incoming|
      invariant incomingCount == multiset(incoming[..i])
    {
      assert incoming[..i + 1] == incoming[..i] + [incoming[i]];
      incomingCount := incomingCount + multiset{incoming[i]};
    }
    assert incoming[..|incoming|] == incoming;
    removed := [];
    for i := 0 to |current|
      invariant removed + Without(current[i..], incomingCount) == Without(current, multiset(incoming))
    {
      assert current[i..][1..] == current[i + 1..];
      if incomingCount[current[i]] > 0 {
        incomingCount := incomingCount - multiset{current[i]};
      } else {
        removed := removed + [current[i]];
      }
    }
  }

  // ---------------------------------------------------------------- which bookings are tried

  /** A booking tried, and what the outside world answered. */
  datatype Trial = Trial(entry: CourtBooking, reply: CourtReply)

  /** The bookings, from position `from` on, tried while the quota of their label lasts. */
  ghost function Trials(entries: seq<CourtBooking>, replies: nat -> CourtReply, quota: multiset<string>,
      from: nat): seq<Trial>
    requires from <= |entries|
    decreases |entries| - from
  {
    if from == |entries| then []
    else if entries[from].courtLabel in quota then
      [Trial(entries[from], replies(from))] + Trials(entries, replies, quota - multiset{entries[from].courtLabel},
          from + 1)
    else Trials(entries, replies, quota, from + 1)
  }

  ghost function TrialLabels(trials: seq<Trial>): multiset<string> {
    if trials == [] then multiset{} else multiset{trials[0].entry.courtLabel} + TrialLabels(trials[1..])
  }

  /** What may become of a booking tried: canceled as far as the service knows, reported as failed, and,
      besides, given back on the platform. */
  datatype Fate = Canceled | Reported | GivenBack

  predicate Meets(t: Trial, wired: bool, fate: Fate) {
    match fate
    case Canceled => Succeeds(t.entry, t.reply, wired)
    case Reported => !Succeeds(t.entry, t.reply, wired)
    case GivenBack => Frees(t.entry, t.reply, wired)
  }

  /** The labels, in order, of the trials that meet a fate. */
  ghost function Settled(trials: seq<Trial>, wired: bool, fate: Fate): seq<string> {
    if trials == [] then []
    else (if Meets(trials[0], wired, fate) then [trials[0].entry.courtLabel] else [])
         + Settled(trials[1..], wired, fate)
  }

  ghost function BookedFrom(entries: seq<CourtBooking>, from: nat): multiset<string>
    requires from <= |entries|
    decreases |entries| - from
  {
    if from == |entries| then multiset{} else multiset{entries[from].courtLabel} + BookedFrom(entries, from + 1)
  }

  lemma MinimumStep(booked: multiset<string>, quota: multiset<string>, l: string)
    ensures (multiset{l} + booked) * quota
            == if l in quota then multiset{l} + booked * (quota - multiset{l}) else booked * quota
  {
  }

  /** Per label, as many bookings are tried as there are, but no more than were taken off. */
  lemma {:induction false} TrialsAreMinimum(entries: seq<CourtBooking>, replies: nat -> CourtReply,
      quota: multiset<string>, from: nat)
    requires from <= |entries|
    ensures TrialLabels(Trials(entries, replies, quota, from)) == BookedFrom(entries, from) * quota
    decreases |entries| - from
  {
    if from < |entries| {
      var l := entries[from].courtLabel;
      var less := if l in quota then quota - multiset{l} else quota;
      TrialsAreMinimum(entries, replies, less, from + 1);
      MinimumStep(BookedFrom(entries, from + 1), quota, l);
      var rest := Trials(entries, replies, less, from + 1);
      assert ([Trial(entries[from], replies(from))] + rest)[1..] == rest;
    }
  }

  ghost function OneIf(taken: bool, l: string): multiset<string> {
    if taken then multiset{l} else multiset{}
  }

  lemma SettledCounts(trials: seq<Trial>, wired: bool, fate: Fate)
    requires trials != []
    ensures multiset(Settled(trials, wired, fate))
            == OneIf(Meets(trials[0], wired, fate), trials[0].entry.courtLabel)
               + multiset(Settled(trials[1..], wired, fate))
  {
  }

  /** Every booking tried is either canceled or reported, and nothing else is. */
  lemma {:induction false} SettledSplit(trials: seq<Trial>, wired: bool)
    ensures multiset(Settled(trials, wired, Canceled)) + multiset(Settled(trials, wired, Reported))
        == TrialLabels(trials)
  {
    if trials != [] {
      SettledSplit(trials[1..], wired);
      SettledCounts(trials, wired, Canceled);
      SettledCounts(trials, wired, Reported);
    }
  }

  /** What the service knows to be canceled is given back, and what is given back was tried. */
  lemma {:induction false} CanceledAreGivenBack(trials: seq<Trial>, wired: bool)
    ensures multiset(Settled(trials, wired, Canceled)) <= multiset(Settled(trials, wired, GivenBack))
    ensures multiset(Settled(trials, wired, GivenBack)) <= TrialLabels(trials)
  {
    if trials != [] {
      CanceledAreGivenBack(trials[1..], wired);
      SettledCounts(trials, wired, Canceled);
      SettledCounts(trials, wired, GivenBack);
    }
  }

  /** The service knows of everything given back unless an answer did not come through. */
  lemma {:induction false} AllHeard(trials: seq<Trial>, wired: bool)
    requires forall t | t in trials :: !t.reply.cancel.Unheard?
    ensures Settled(trials, wired, GivenBack) == Settled(trials, wired, Canceled)
  {
    if trials != [] {
      forall t | t in trials[1..] ensures !t.reply.cancel.Unheard? {
        assert t in trials;
      }
      AllHeard(trials[1..], wired);
      assert trials[0] in trials;
    }
  }

  /** What happened to a booking tried, told from its account and the answers. */
  ghost predicate Fares(t: Trial, wired: bool, fate: Fate) {
    var known := t.entry.credentialId.Some? && wired && t.reply.cred.Found? && t.reply.cred.login != "";
    match fate
    case Canceled => known && t.reply.cancel.Confirmed?
    case Reported => !known || t.reply.cancel.Refused? || t.reply.cancel.Unheard?
    case GivenBack => known && (t.reply.cancel.Confirmed? || t.reply.cancel.Unheard?)
  }

  ghost function FaringFrom(trials: seq<Trial>, from: nat, wired: bool, fate: Fate): set<int> {
    set k | from <= k < |trials| && Fares(trials[k], wired, fate)
  }

  ghost predicate LabelsAt(labels: seq<string>, trials: seq<Trial>, at: seq<int>) {
    |at| == |labels| && forall i :: 0 <= i < |at| ==>
      0 <= at[i] < |trials| && labels[i] == trials[at[i]].entry.courtLabel
  }

  lemma LabelInFront(labels: seq<string>, trials: seq<Trial>, at: seq<int>, first: nat)
    requires LabelsAt(labels, trials, at) && first < |trials|
    ensures LabelsAt([trials[first].entry.courtLabel] + labels, trials, [first] + at)
  {
  }

  lemma FaringNext(trials: seq<Trial>, from: nat, wired: bool, fate: Fate)
    requires from < |trials|
    ensures FaringFrom(trials, from, wired, fate)
            == (if Fares(trials[from], wired, fate) then {from as int} else {})
               + FaringFrom(trials, from + 1, wired, fate)
  {
  }

  lemma SettledFrom(trials: seq<Trial>, from: nat, wired: bool, fate: Fate)
    requires from < |trials|
    ensures Settled(trials[from..], wired, fate)
            == (if Fares(trials[from], wired, fate) then [trials[from].entry.courtLabel] else [])
               + Settled(trials[from + 1..], wired, fate)
  {
    assert trials[from..][1..] == trials[from + 1..];
  }

  /** The labels canceled are those, in order, of the bookings tried whose account was known and whose cancellation
      was confirmed; those reported, of all the others; those given back, of the bookings with a known account
      whose cancellation was not refused. */
  lemma {:induction false} SettledAre(trials: seq<Trial>, from: nat, wired: bool, fate: Fate) returns (at: seq<int>)
    requires from <= |trials|
    ensures InOrderFrom(at, from, |trials|, FaringFrom(trials, from, wired, fate))
    ensures LabelsAt(Settled(trials[from..], wired, fate), trials, at)
    decreases |trials| - from
  {
    at := [];
    if from < |trials| {
      at := SettledAre(trials, from + 1, wired, fate);
      SettledFrom(trials, from, wired, fate);
      FaringNext(trials, from, wired, fate);
      if Fares(trials[from], wired, fate) {
        FirstInOrder(from, at, |trials|, FaringFrom(trials, from + 1, wired, fate));
        LabelInFront(Settled(trials[from + 1..], wired, fate), trials, at, from);
        at := [from] + at;
      }
    }
  }

  ghost predicate TrialsAt(trials: seq<Trial>, entries: seq<CourtBooking>, replies: nat -> CourtReply, at: seq<int>) {
    |at| == |trials| && forall i :: 0 <= i < |at| ==>
      0 <= at[i] < |entries| && trials[i] == Trial(entries[at[i]], replies(at[i]))
  }

  /** The bookings tried are bookings of the game, in stored order, each with its own answer. */
  lemma {:induction false} TrialsAre(entries: seq<CourtBooking>, replies: nat -> CourtReply, quota: multiset<string>,
      from: nat)
      returns (at: seq<int>)
    requires from <= |entries|
    ensures InOrderFrom(at, from, |entries|, Elems(at))
    ensures TrialsAt(Trials(entries, replies, quota, from), entries, replies, at)
    decreases |entries| - from
  {
    at := [];
    if from < |entries| {
      var l := entries[from].courtLabel;
      at := TrialsAre(entries, replies, if l in quota then quota - multiset{l} else quota, from + 1);
      if l in quota {
        FirstInOrder(from, at, |entries|, Elems(at));
        TrialInFront(Trials(entries, replies, quota - multiset{l}, from + 1), entries, replies, at, from);
        at := [from] + at;
      }
    }
  }

  lemma TrialInFront(trials: seq<Trial>, entries: seq<CourtBooking>, replies: nat -> CourtReply, at: seq<int>,
      first: nat)
    requires TrialsAt(trials, entries, replies, at) && first < |entries|
    ensures TrialsAt([Trial(entries[first], replies(first))] + trials, entries, replies, [first] + at)
  {
  }

  /** The first bookings of a label are tried: once its quota is used up, no later one is. */
  lemma {:induction false} UsedUpForGood(entries: seq<CourtBooking>, replies: nat -> CourtReply,
      quota: multiset<string>, from: nat, t: Trial)
    requires from <= |entries| && t in Trials(entries, replies, quota, from)
    ensures t.entry.courtLabel in quota
    decreases |entries| - from
  {
    var l := entries[from].courtLabel;
    if l !in quota {
      UsedUpForGood(entries, replies, quota, from + 1, t);
    } else if t != Trial(entries[from], replies(from)) {
      UsedUpForGood(entries, replies, quota - multiset{l}, from + 1, t);
    }
  }

  /** What is settled so far, followed by what the open bookings will add, is the whole. */
  ghost predicate OnTrack(entries: seq<CourtBooking>, replies: nat -> CourtReply, wired: bool, fate: Fate,
      all: seq<Trial>, soFar: seq<string>, quota: multiset<string>, i: nat)
    requires i <= |entries|
  {
    soFar + Settled(Trials(entries, replies, quota, i), wired, fate) == Settled(all, wired, fate)
  }

  lemma SettledNext(soFar: seq<string>, t: Trial, rest: seq<Trial>, wired: bool, fate: Fate)
    ensures var longer := if Meets(t, wired, fate) then soFar + [t.entry.courtLabel] else soFar;
            soFar + Settled([t] + rest, wired, fate) == longer + Settled(rest, wired, fate)
  {
    assert ([t] + rest)[1..] == rest;
  }

  lemma TrackStep(entries: seq<CourtBooking>, replies: nat -> CourtReply, wired: bool, fate: Fate, all: seq<Trial>,
      soFar: seq<string>, quota: multiset<string>, i: nat)
    requires i < |entries| && OnTrack(entries, replies, wired, fate, all, soFar, quota, i)
    ensures var l := entries[i].courtLabel;
            var longer := if Meets(Trial(entries[i], replies(i)), wired, fate) then soFar + [l] else soFar;
            if l !in quota then OnTrack(entries, replies, wired, fate, all, soFar, quota, i + 1)
            else OnTrack(entries, replies, wired, fate, all, longer, quota - multiset{l}, i + 1)
  {
    var l := entries[i].courtLabel;
    if l in quota {
      var rest := Trials(entries, replies, quota - multiset{l}, i + 1);
      SettledNext(soFar, Trial(entries[i], replies(i)), rest, wired, fate);
    }
  }

  // ---------------------------------------------------------------- the service

  datatype EditResult = EditResult(canceledLabels: seq<string>, cancelErrors: seq<string>, failed: bool)

  class GameService {
    /** The stored court list and court count of the game. */
    var courts: string
    var courtsCount: int
    /** The labels of the bookings canceled on the platform, in order. */
    var released: seq<string>

    const bookingWired: bool
    const credServiceWired: bool

    constructor (courts: string, bookingWired: bool, credServiceWired: bool)
      ensures this.courts == courts && released == [] && Counted()
      ensures this.bookingWired == bookingWired && this.credServiceWired == credServiceWired
    {
      this.courts, released := courts, [];
      courtsCount := |CourtTokens(courts)|;
      this.bookingWired, this.credServiceWired := bookingWired, credServiceWired;
    }

    /** The stored count is the length of the stored list. */
    ghost predicate Counted()
      reads this
    {
      courtsCount == |CourtTokens(courts)|
    }

    /** Adds booked courts to the game.  When the write fails, they stay booked but are not listed. */
    method AddBookedCourts(bookedLabels: seq<string>, updateOk: bool) returns (ok: bool)
      requires forall l :: l in bookedLabels ==> IsLabel(l)
      modifies this`courts, this`courtsCount
      ensures ok <==> bookedLabels == [] || updateOk
      ensures CourtTokens(courts) ==
                if bookedLabels != [] && updateOk then Merged(CourtTokens(old(courts)), bookedLabels)
                                     else CourtTokens(old(courts))
      ensures bookedLabels == [] || !updateOk ==> courts == old(courts) && courtsCount == old(courtsCount)
      ensures old(Counted()) || (bookedLabels != [] && updateOk) ==> Counted()
    {
      if |bookedLabels| == 0 {
        return true;
      }
      var existingCourts := SplitCourts(courts);
      var allCourts := MergeLabels(existingCourts, bookedLabels);
      if !updateOk {
        return false;
      }
      MergedAreLabels(existingCourts, bookedLabels);
      CourtListRoundTrip(allCourts);
      courts, courtsCount := JoinCourts(allCourts), |allCourts|;
      ok := true;
    }

    /** One booking: the account that made it cancels it. */
    method TryCancel(entry: CourtBooking, reply: CourtReply) returns (ok: bool)
      modifies this`released
      ensures ok == Succeeds(entry, reply, credServiceWired)
      ensures released ==
                if Frees(entry, reply, credServiceWired) then old(released) + [entry.courtLabel] else old(released)
    {
      var login := "";
      if entry.credentialId.Some? && credServiceWired {
        if reply.cred.LookupFailed? {
          return false;
        }
        if reply.cred.Found? {
          login := reply.cred.login;
        }
      }
      if login == "" {
        return false;
      }
      if reply.cancel.Refused? {
        return false;
      }
      released := released + [entry.courtLabel];
      ok := reply.cancel.Confirmed?;
    }

    method CancelWithinQuota(entries: seq<CourtBooking>, removed: seq<string>, replies: nat -> CourtReply)
      returns (canceledLabels: seq<string>, cancelErrors: seq<string>)
      modifies this`released
      ensures var trials := Trials(entries, replies, multiset(removed), 0);
              && canceledLabels == Settled(trials, credServiceWired, Canceled)
              && cancelErrors == Settled(trials, credServiceWired, Reported)
              && released == old(released) + Settled(trials, credServiceWired, GivenBack)
    {
      var cancelQuota: multiset<string> := multiset(removed);
      canceledLabels, cancelErrors := [], [];
      ghost var all := Trials(entries, replies, multiset(removed), 0);
      ghost var given := [];
      for i := 0 to |entries|
        invariant OnTrack(entries, replies, credServiceWired, Canceled, all, canceledLabels, cancelQuota, i)
        invariant OnTrack(entries, replies, credServiceWired, Reported, all, cancelErrors, cancelQuota, i)
        invariant OnTrack(entries, replies, credServiceWired, GivenBack, all, given, cancelQuota, i)
        invariant released == old(released) + given
      {
        var entry := entries[i];
        TrackStep(entries, replies, credServiceWired, Canceled, all, canceledLabels, cancelQuota, i);
        TrackStep(entries, replies, credServiceWired, Reported, all, cancelErrors, cancelQuota, i);
        TrackStep(entries, replies, credServiceWired, GivenBack, all, given, cancelQuota, i);
        if cancelQuota[entry.courtLabel] <= 0 {
          continue;
        }
        cancelQuota := cancelQuota - multiset{entry.courtLabel};
        var ok := TryCancel(entry, replies(i));
        if Frees(entry, replies(i), credServiceWired) {
          given := given + [entry.courtLabel];
        }
        if !ok {
          cancelErrors := cancelErrors + [entry.courtLabel];
          continue;
        }
        canceledLabels := canceledLabels + [entry.courtLabel];
      }
    }

    /** Cancels the bookings of the courts taken off the list.  A failed look-up of the bookings ends the edit. */
    method CancelRemoved(removed: seq<string>, venueKnown: bool, entries: EntriesReply, replies: nat -> CourtReply)
      returns (canceledLabels: seq<string>, cancelErrors: seq<string>, lookedUp: bool)
      modifies this`released
      ensures var cancels := removed != [] && venueKnown && bookingWired;
              var trials := if cancels && entries.Loaded? then Trials(entries.entries, replies, multiset(removed), 0)
                  else [];
              && canceledLabels == Settled(trials, credServiceWired, Canceled)
              && cancelErrors == Settled(trials, credServiceWired, Reported)
              && released == old(released) + Settled(trials, credServiceWired, GivenBack)
              && (lookedUp <==> !(cancels && entries.LoadFailed?))
    {
      canceledLabels, cancelErrors, lookedUp := [], [], true;
      if |removed| == 0 || !venueKnown || !bookingWired {
        return;
      }
      if entries.LoadFailed? {
        return [], [], false;
      }
      if entries.Loaded? {
        canceledLabels, cancelErrors := CancelWithinQuota(entries.entries, removed, replies);
      }
    }

    /** Cancels the bookings of the courts taken off the list, then stores the new list whatever
        became of the cancellations.  A failed lookup of the bookings stores nothing. */
    method RemoveCourtsAndCancelBookings(newCourts: string, venueKnown: bool, entries: EntriesReply,
        replies: nat -> CourtReply, updateOk: bool) returns (result: EditResult)
      modifies this
      ensures var removed := Without(CourtTokens(old(courts)), multiset(CourtTokens(newCourts)));
              var cancels := removed != [] && venueKnown && bookingWired;
              var trials := if cancels && entries.Loaded? then Trials(entries.entries, replies, multiset(removed), 0)
                  else [];
              && result.canceledLabels == Settled(trials, credServiceWired, Canceled)
              && result.cancelErrors == Settled(trials, credServiceWired, Reported)
              && released == old(released) + Settled(trials, credServiceWired, GivenBack)
              && (result.failed <==> (cancels && entries.LoadFailed?) || !updateOk)
      ensures result.failed ==> courts == old(courts) && courtsCount == old(courtsCount)
      ensures !result.failed ==> courts == newCourts && Counted()
    {
      var current := SplitCourts(courts);
      var incoming := SplitCourts(newCourts);
      var removed := RemovedLabels(current, incoming);
      var canceledLabels, cancelErrors, lookedUp := CancelRemoved(removed, venueKnown, entries, replies);
      if !lookedUp || !updateOk {
        return EditResult(canceledLabels, cancelErrors, true);
      }
      courts, courtsCount := newCourts, |incoming|;
      result := EditResult(canceledLabels, cancelErrors, false);
    }
  }

  lemma MergedAreLabels(existing: seq<string>, booked: seq<string>)
    requires forall l :: l in existing ==> IsLabel(l)
    requires forall l :: l in booked ==> IsLabel(l)
    ensures forall l :: l in Merged(existing, booked) ==> IsLabel(l)
  {
    WithoutKeepsOrder(booked, multiset(existing));
  }

  // ---------------------------------------------------------------- what an edit can cancel

  /** Canceled and failed together, per label, are the smaller of the bookings found and the places
      the new list gives up. */
  lemma EditCancelsMinimum(current: seq<string>, incoming: seq<string>, entries: seq<CourtBooking>,
      replies: nat -> CourtReply, wired: bool, l: string)
    ensures var trials := Trials(entries, replies, multiset(Without(current, multiset(incoming))), 0);
            var held: int, kept: int := multiset(current)[l], multiset(incoming)[l];
            multiset(Settled(trials, wired, Canceled))[l] + multiset(Settled(trials, wired, Reported))[l]
            == Min(BookedFrom(entries, 0)[l], Max(0, held - kept))
  {
    var removed := Without(current, multiset(incoming));
    var trials := Trials(entries, replies, multiset(removed), 0);
    WithoutIsSubtraction(current, multiset(incoming));
    TrialsAreMinimum(entries, replies, multiset(removed), 0);
    SettledSplit(trials, wired);
    assert (multiset(Settled(trials, wired, Canceled)) + multiset(Settled(trials, wired, Reported)))[l]
        == TrialLabels(trials)[l];
  }

  /** A list that gives up no place cancels nothing. */
  lemma GrowingEditCancelsNothing(current: seq<string>, incoming: seq<string>)
    ensures Without(current, multiset(incoming)) == [] <==> multiset(current) <= multiset(incoming)
  {
    WithoutIsSubtraction(current, multiset(incoming));
    var removed := Without(current, multiset(incoming));
    assert removed == [] <==> |multiset(removed)| == 0;
    assert multiset(current) - multiset(incoming) == multiset{} <==> multiset(current) <= multiset(incoming) by {
      forall x
        ensures (multiset(current) - multiset(incoming))[x] == 0 <==> multiset(current)[x] <= multiset(incoming)[x]
      {
      }
    }
  }

  /** Adding booked courts and then going back to the old list cancels no more than what was added. */
  lemma MergeThenRevert(existing: seq<string>, booked: seq<string>)
    ensures var merged := Merged(existing, booked);
            multiset(Without(merged, multiset(existing))) == multiset(booked) - multiset(existing)
  {
    var merged := Merged(existing, booked);
    WithoutIsSubtraction(booked, multiset(existing));
    WithoutIsSubtraction(merged, multiset(existing));
    assert multiset(merged) == multiset(existing) + multiset(Without(booked, multiset(existing)));
  }
}
