/** The nightly booking pass over a venue's time slots.  A slot whose result is on record is skipped;
    the record is written after the courts are booked, and that write can fail. */
module AutoBooking {

  import opened Basics
  import opened CourtStrings

  /** A venue's slot: the day and the time as configured. */
  datatype Slot = Slot(venue: int, day: int, time: string)

  /** What one slot meets: the look-up of its record, the labels of the courts booked for it (none
      when booking fails or nothing is free), and the write of the record. */
  datatype SlotInput = SlotInput(lookupOk: bool, labels: seq<string>, saveOk: bool)

  /** A booking of courts for a slot, and whether it got on record. */
  datatype Booking = Booking(slot: Slot, labels: seq<string>, recorded: bool)

  datatype State = State(records: map<Slot, seq<string>>, bookings: seq<Booking>)

  datatype Venue = Venue(id: int, enabled: bool, sportsConfigured: bool, courtsCount: int, preferredTimes: string)

  // ---------------------------------------------------------------- one slot, one pass

  ghost function AfterSlot(st: State, slot: Slot, input: SlotInput): State {
    if !input.lookupOk || slot in st.records || input.labels == [] then st
    else State(if input.saveOk then st.records[slot := input.labels] else st.records,
               st.bookings + [Booking(slot, input.labels, input.saveOk)])
  }

  ghost function AfterSlots(st: State, venue: int, day: int, times: seq<string>, inputs: nat -> SlotInput,
      n: nat): State
    requires n <= |times|
  {
    if n == 0 then st
    else AfterSlot(AfterSlots(st, venue, day, times, inputs, n - 1), Slot(venue, day, times[n - 1]), inputs(n - 1))
  }

  ghost function AfterPass(st: State, venue: Venue, day: int, inputs: nat -> SlotInput): State {
    if !venue.enabled || !venue.sportsConfigured || venue.courtsCount == 0 then st
    else
      var times := CourtTokens(venue.preferredTimes);
      AfterSlots(st, venue.id, day, times, inputs, |times|)
  }

  class AutoBookingJob {
    var records: map<Slot, seq<string>>
    var bookings: seq<Booking>

    constructor ()
      ensures Now() == State(map[], [])
    {
      records, bookings := map[], [];
    }

    ghost function Now(): State
      reads this
    {
      State(records, bookings)
    }

    /** Returns whether courts were booked, on record or not. */
    method ProcessTimeSlot(slot: Slot, input: SlotInput) returns (booked: bool)
      requires input.lookupOk && slot !in records
      modifies this
      ensures Now() == AfterSlot(old(Now()), slot, input)
      ensures booked <==> input.labels != []
      ensures slot in records <==> booked && input.saveOk
      ensures booked ==> bookings == old(bookings) + [Booking(slot, input.labels, input.saveOk)]
      ensures booked && input.saveOk ==> slot in records && records[slot] == input.labels
      ensures forall other :: other != slot ==>
                (other in records <==> other in old(records))
                && (other in records ==> records[other] == old(records)[other])
      ensures !booked ==> bookings == old(bookings)
    {
      if |input.labels| == 0 {
        return false;
      }
      bookings := bookings + [Booking(slot, input.labels, input.saveOk)];
      if input.saveOk {
        records := records[slot := input.labels];
      }
      booked := true;
    }

    method ProcessAutoBookingForVenue(venue: Venue, day: int, inputs: nat -> SlotInput) returns (anyBooked: bool)
      modifies this
      ensures Now() == AfterPass(old(Now()), venue, day, inputs)
      ensures anyBooked <==> |bookings| > |old(bookings)|
    {
      anyBooked := false;
      if !venue.enabled || !venue.sportsConfigured || venue.courtsCount == 0 {
        return;
      }
      var times := SplitCourts(venue.preferredTimes);
      for i := 0 to |times|
        invariant Now() == AfterSlots(old(Now()), venue.id, day, times, inputs, i)
        invariant |bookings| >= |old(bookings)|
        invariant anyBooked <==> |bookings| > |old(bookings)|
      {
        var slot := Slot(venue.id, day, times[i]);
        if !inputs(i).lookupOk {
          continue;
        }
        if slot in records {
          continue;
        }
        var booked := ProcessTimeSlot(slot, inputs(i));
        if booked {
          anyBooked := true;
        }
      }
    }
  }

  // ---------------------------------------------------------------- many passes

  /** A pass of the job, or a record written by a booking made by hand. */
  datatype Event = Pass(venue: Venue, day: int, inputs: nat -> SlotInput)
                 | RecordedByHand(slot: Slot, labels: seq<string>)

  ghost function Exec(st: State, events: seq<Event>): State {
    if events == [] then st
    else
      var mid := Exec(st, events[..|events| - 1]);
      match events[|events| - 1]
      case Pass(venue, day, inputs) => AfterPass(mid, venue, day, inputs)
      case RecordedByHand(slot, labels) =>
        if slot in mid.records then mid else mid.(records := mid.records[slot := labels])
  }

  /** Recorded bookings are on record, and a slot is booked again only after a booking that is not. */
  ghost predicate Inv(st: State) {
    && (forall i :: 0 <= i < |st.bookings| && st.bookings[i].recorded ==> st.bookings[i].slot in st.records)
    && (forall i, j :: 0 <= i < j < |st.bookings| && st.bookings[i].slot == st.bookings[j].slot ==>
          !st.bookings[i].recorded)
  }

  lemma SlotKeeps(st: State, slot: Slot, input: SlotInput)
    requires Inv(st)
    ensures Inv(AfterSlot(st, slot, input))
  {
  }

  lemma {:induction false} SlotsKeep(st: State, venue: int, day: int, times: seq<string>, inputs: nat -> SlotInput,
      n: nat)
    requires n <= |times| && Inv(st)
    ensures Inv(AfterSlots(st, venue, day, times, inputs, n))
  {
    if n > 0 {
      SlotsKeep(st, venue, day, times, inputs, n - 1);
      SlotKeeps(AfterSlots(st, venue, day, times, inputs, n - 1), Slot(venue, day, times[n - 1]), inputs(n - 1));
    }
  }

  /** Over any number of passes and whatever fails, a slot is booked again only while every earlier
      booking of it failed to get on record; with no failed write, no slot is booked twice, even if it
      is configured twice. */
  lemma {:induction false} BookedOnceUnlessUnrecorded(events: seq<Event>)
    ensures Inv(Exec(State(map[], []), events))
  {
    if events != [] {
      var front, last := events[..|events| - 1], events[|events| - 1];
      BookedOnceUnlessUnrecorded(front);
      var mid := Exec(State(map[], []), front);
      if last.Pass? {
        var times := CourtTokens(last.venue.preferredTimes);
        SlotsKeep(mid, last.venue.id, last.day, times, last.inputs, |times|);
      }
    }
  }

  /** There is a booking of the slot in `after` that was not there before. */
  ghost predicate BookedSince(before: State, after: State, slot: Slot) {
    exists k :: |before.bookings| <= k < |after.bookings| && after.bookings[k].slot == slot
  }

  ghost predicate Lists(venue: int, day: int, times: seq<string>, n: nat, slot: Slot)
    requires n <= |times|
  {
    exists i :: 0 <= i < n && Slot(venue, day, times[i]) == slot
  }

  /** A pass books the slot of a listed time without a record, and no other; what gets on record has
      been booked. */
  lemma {:induction false} SlotsTouch(st: State, venue: int, day: int, times: seq<string>, inputs: nat -> SlotInput,
      n: nat, slot: Slot)
    requires n <= |times|
    ensures var after := AfterSlots(st, venue, day, times, inputs, n);
            && st.bookings <= after.bookings
            && (slot in st.records ==> slot in after.records)
            && (slot in after.records && slot !in st.records ==> BookedSince(st, after, slot))
            && (BookedSince(st, after, slot) ==> slot !in st.records && Lists(venue, day, times, n, slot))
  {
    if n > 0 {
      SlotsTouch(st, venue, day, times, inputs, n - 1, slot);
      var mid := AfterSlots(st, venue, day, times, inputs, n - 1);
      SlotTouches(st, mid, Slot(venue, day, times[n - 1]), inputs(n - 1), slot);
      assert Lists(venue, day, times, n - 1, slot) ==> Lists(venue, day, times, n, slot);
    }
  }

  lemma SlotTouches(st: State, mid: State, next: Slot, input: SlotInput, slot: Slot)
    requires st.bookings <= mid.bookings
    ensures var after := AfterSlot(mid, next, input);
            BookedSince(st, after, slot)
            <==>
              || BookedSince(st, mid, slot)
              || (slot == next && slot !in mid.records && input.lookupOk && input.labels != [])
  {
    var after := AfterSlot(mid, next, input);
    if BookedSince(st, mid, slot) {
      var k :| |st.bookings| <= k < |mid.bookings| && mid.bookings[k].slot == slot;
      assert after.bookings[k].slot == slot;
    }
    if slot == next && slot !in mid.records && input.lookupOk && input.labels != [] {
      assert after.bookings[|mid.bookings|].slot == slot;
    }
  }

  /** Some time of the list is the slot's, its look-up works and courts are booked for it. */
  ghost predicate ComesThrough(venue: int, day: int, times: seq<string>, inputs: nat -> SlotInput, n: nat, slot: Slot)
    requires n <= |times|
  {
    exists i: nat :: i < n && Slot(venue, day, times[i]) == slot && inputs(i).lookupOk && inputs(i).labels != []
  }

  lemma {:induction false} SlotsBookIff(st: State, venue: int, day: int, times: seq<string>, inputs: nat -> SlotInput,
      n: nat, slot: Slot)
    requires n <= |times|
    ensures BookedSince(st, AfterSlots(st, venue, day, times, inputs, n), slot)
            <==> slot !in st.records && ComesThrough(venue, day, times, inputs, n, slot)
  {
    if n > 0 {
      var mid := AfterSlots(st, venue, day, times, inputs, n - 1);
      SlotsBookIff(st, venue, day, times, inputs, n - 1, slot);
      SlotsTouch(st, venue, day, times, inputs, n - 1, slot);
      SlotTouches(st, mid, Slot(venue, day, times[n - 1]), inputs(n - 1), slot);
      ComesThroughNext(venue, day, times, inputs, n - 1, slot);
    }
  }

  lemma ComesThroughNext(venue: int, day: int, times: seq<string>, inputs: nat -> SlotInput, n: nat, slot: Slot)
    requires n < |times|
    ensures ComesThrough(venue, day, times, inputs, n + 1, slot)
            <==> ComesThrough(venue, day, times, inputs, n, slot)
                 || (Slot(venue, day, times[n]) == slot && inputs(n).lookupOk && inputs(n).labels != [])
  {
  }

  /** A pass books a slot if and only if the venue is set up for it, nothing is on record for it, and for one of
      the times that name it the look-up works and courts are booked: what fails for one slot does not keep the
      others from being booked. */
  lemma PassBooksExactly(st: State, venue: Venue, day: int, inputs: nat -> SlotInput, slot: Slot)
    ensures PassBooks(st, venue, day, inputs, slot)
            <==> && venue.enabled && venue.sportsConfigured && venue.courtsCount != 0 && slot !in st.records
                 && ComesThrough(venue.id, day, CourtTokens(venue.preferredTimes), inputs,
                      |CourtTokens(venue.preferredTimes)|, slot)
  {
    var times := CourtTokens(venue.preferredTimes);
    SlotsBookIff(st, venue.id, day, times, inputs, |times|, slot);
  }

  /** Where every look-up works and courts are free for every slot. */
  lemma {:induction false} FreeSlotsBooked(st: State, venue: int, day: int, times: seq<string>,
      inputs: nat -> SlotInput, n: nat, slot: Slot)
    requires n <= |times| && slot !in st.records && Lists(venue, day, times, n, slot)
    requires forall i: nat :: inputs(i).lookupOk && inputs(i).labels != []
    ensures BookedSince(st, AfterSlots(st, venue, day, times, inputs, n), slot)
  {
    var mid := AfterSlots(st, venue, day, times, inputs, n - 1);
    SlotsTouch(st, venue, day, times, inputs, n - 1, slot);
    SlotTouches(st, mid, Slot(venue, day, times[n - 1]), inputs(n - 1), slot);
    if Slot(venue, day, times[n - 1]) != slot {
      FreeSlotsBooked(st, venue, day, times, inputs, n - 1, slot);
    }
  }

  /** The venue's pass on that day comes to the slot. */
  ghost predicate Covers(venue: Venue, day: int, slot: Slot) {
    && venue.enabled && venue.sportsConfigured && venue.courtsCount != 0
    && slot.venue == venue.id && slot.day == day && slot.time in CourtTokens(venue.preferredTimes)
  }

  ghost predicate PassBooks(st: State, venue: Venue, day: int, inputs: nat -> SlotInput, slot: Slot) {
    BookedSince(st, AfterPass(st, venue, day, inputs), slot)
  }

  /** Some pass over a venue books a slot (again) exactly when the venue is set up for it, the slot is
      among its times for the day, and nothing is on record for it: bookings already made do not
      matter. */
  lemma PassBooksIff(st: State, venue: Venue, day: int, slot: Slot)
    ensures (exists inputs: nat -> SlotInput :: PassBooks(st, venue, day, inputs, slot))
            <==> Covers(venue, day, slot) && slot !in st.records
  {
    var times := CourtTokens(venue.preferredTimes);
    if inputs: nat -> SlotInput :| PassBooks(st, venue, day, inputs, slot) {
      SlotsTouch(st, venue.id, day, times, inputs, |times|, slot);
    }
    if Covers(venue, day, slot) && slot !in st.records {
      var i :| 0 <= i < |times| && times[i] == slot.time;
      assert Slot(venue.id, day, times[i]) == slot;
      var free: nat -> SlotInput := (n: nat) => SlotInput(true, ["1"], true);
      FreeSlotsBooked(st, venue.id, day, times, free, |times|, slot);
      assert PassBooks(st, venue, day, free, slot);
    }
  }
}
