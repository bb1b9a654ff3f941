/** Which free courts a booking run tries, and in which order.

    The platform knows a court by its own id and UUID; people know it by the number that ends its
    name.  Occupancy is decided by id, everything else by number. */
module CourtFilter {

  import opened Basics
  import opened CourtStrings

  datatype BookingCourt = BookingCourt(id: string, uuid: string, name: string)

  // ---------------------------------------------------------------- the number in a court's name

  /** The characters after the last white space. */
  function Ending(s: string): string {
    if s == [] || IsSpace(s[|s| - 1]) then [] else Ending(s[..|s| - 1]) + [s[|s| - 1]]
  }

  /** The last white-space-separated word, or nothing. */
  function LastWord(s: string): string {
    if s != [] && IsSpace(s[|s| - 1]) then LastWord(s[..|s| - 1]) else Ending(s)
  }

  function ExtractCourtNumber(name: string): (n: int)
    ensures n == -1 || 0 < n <= INT_MAX
  {
    var number := Atoi(LastWord(name));
    if number.Parsed? && number.value > 0 then number.value else -1
  }

  lemma {:induction false} EndingOf(prefix: string, word: string)
    requires prefix != [] ==> IsSpace(prefix[|prefix| - 1])
    requires forall i :: 0 <= i < |word| ==> !IsSpace(word[i])
    ensures Ending(prefix + word) == word
  {
    if word == [] {
      assert prefix + word == prefix;
    } else {
      var n := |word| - 1;
      EndingOf(prefix, word[..n]);
      assert (prefix + word)[..|prefix + word| - 1] == prefix + word[..n];
    }
  }

  /** A court whose name ends in a positive number is known by that number. */
  lemma CourtNumberRoundTrip(prefix: string, n: int)
    requires 0 < n <= INT_MAX
    requires prefix != [] ==> IsSpace(prefix[|prefix| - 1])
    ensures ExtractCourtNumber(prefix + Itoa(n)) == n
  {
    assert AllDigits(Itoa(n));
    EndingOf(prefix, Itoa(n));
    AtoiItoa(n);
  }

  ghost predicate NoSpace(s: string) {
    forall c :: c in s ==> !IsSpace(c)
  }

  lemma EndGrows(s: string, lead: string, ending: string, c: char)
    requires s == lead + ending
    ensures s + [c] == lead + (ending + [c])
  {
  }

  lemma {:induction false} EndingIs(s: string) returns (lead: string)
    ensures s == lead + Ending(s) && NoSpace(Ending(s)) && (lead != [] ==> IsSpace(lead[|lead| - 1]))
  {
    if s == [] || IsSpace(s[|s| - 1]) {
      lead := s;
      assert s + [] == s;
    } else {
      var front, c := s[..|s| - 1], s[|s| - 1];
      lead := EndingIs(front);
      EndGrows(front, lead, Ending(front), c);
      assert s == front + [c];
    }
  }

  lemma {:induction false} LastWordIs(s: string) returns (lead: string, trail: string)
    ensures s == lead + LastWord(s) + trail && NoSpace(LastWord(s)) && AllSpace(trail)
    ensures (lead != [] ==> IsSpace(lead[|lead| - 1])) && (LastWord(s) == [] ==> lead == [])
  {
    if s != [] && IsSpace(s[|s| - 1]) {
      var front, c := s[..|s| - 1], s[|s| - 1];
      lead, trail := LastWordIs(front);
      OneBehind(c, front, lead, LastWord(front), trail);
      trail := trail + [c];
      assert s == front + [c];
    } else {
      lead := EndingIs(s);
      trail := [];
      assert lead + Ending(s) == lead + Ending(s) + trail;
    }
  }

  /** A court is known by the last word of its name, white space behind it aside, if that reads as a positive
      number, and by no number otherwise. */
  lemma NumberOfName(name: string) returns (lead: string, word: string, trail: string)
    ensures name == lead + word + trail && NoSpace(word) && AllSpace(trail)
    ensures (lead != [] ==> IsSpace(lead[|lead| - 1])) && (word == [] ==> lead == [])
    ensures ExtractCourtNumber(name)
            == if Atoi(word).Parsed? && Atoi(word).value > 0 then Atoi(word).value else -1
  {
    lead, trail := LastWordIs(name);
    word := LastWord(name);
  }

  // ---------------------------------------------------------------- what the filter sees of a court

  /** A court as the filter sees it: its number, its UUID, whether it may be tried, and whether the
      listing pass steps over it.  An unreadable id is never eligible; to the listing pass it counts
      as the number the failed conversion delivers. */
  datatype Slot = Slot(number: int, uuid: string, eligible: bool, steppedOver: bool)

  function SlotOf(c: BookingCourt, occupied: set<int>): (slot: Slot)
    ensures slot.eligible ==> slot.number > 0 && !slot.steppedOver && slot.uuid != ""
  {
    var id := Atoi(c.id);
    var number := ExtractCourtNumber(c.name);
    Slot(number, c.uuid, id.Parsed? && c.uuid != "" && id.value !in occupied && number > 0,
         id.ValueIgnoringError() in occupied)
  }

  function Slots(courts: seq<BookingCourt>, occupied: set<int>): (slots: seq<Slot>)
    ensures |slots| == |courts| && forall i :: 0 <= i < |courts| ==> slots[i] == SlotOf(courts[i], occupied)
  {
    seq(|courts|, i requires 0 <= i < |courts| => SlotOf(courts[i], occupied))
  }

  /** The numbers of the eligible courts among the first n. */
  ghost function FreeNumbers(slots: seq<Slot>, n: nat): set<int>
    requires n <= |slots|
  {
    if n == 0 then {} else FreeNumbers(slots, n - 1) + (if slots[n - 1].eligible then {slots[n - 1].number} else {})
  }

  /** The UUID that stands for a number: that of the last eligible court among the first n. */
  ghost function UuidFor(slots: seq<Slot>, n: nat, number: int): string
    requires n <= |slots|
  {
    if n == 0 then ""
    else if slots[n - 1].eligible && slots[n - 1].number == number then slots[n - 1].uuid
    else UuidFor(slots, n - 1, number)
  }

  /** The numbers to choose from: the venue's own free courts, or every free court when the venue
      has none of them. */
  ghost function Pool(slots: seq<Slot>, venueCourts: set<int>): set<int> {
    var free := FreeNumbers(slots, |slots|);
    if free * venueCourts != {} then free * venueCourts else free
  }

  /** The members of `numbers` that are in the pool, in order. */
  ghost function Kept(numbers: seq<int>, pool: set<int>): seq<int> {
    if numbers == [] then []
    else
      var n := |numbers| - 1;
      Kept(numbers[..n], pool) + (if numbers[n] in pool then [numbers[n]] else [])
  }

  /** The pool's numbers in order of first appearance among the first n courts. */
  ghost function Listed(slots: seq<Slot>, pool: set<int>, n: nat): seq<int>
    requires n <= |slots|
  {
    if n == 0 then []
    else
      var before := Listed(slots, pool, n - 1);
      var slot := slots[n - 1];
      if !slot.steppedOver && slot.number in pool && slot.number !in before then before + [slot.number] else before
  }

  /** The court numbers to try, best first. */
  ghost function Chosen(slots: seq<Slot>, venueCourts: set<int>, preferred: seq<int>): seq<int> {
    var pool := Pool(slots, venueCourts);
    var kept := Kept(preferred, pool);
    if kept != [] then kept else Listed(slots, pool, |slots|)
  }

  /** At each position, the UUID that stands for the number there. */
  ghost predicate NamedBy(uuids: seq<string>, numbers: seq<int>, slots: seq<Slot>) {
    && |uuids| == |numbers|
    && forall i :: 0 <= i < |uuids| ==> uuids[i] == UuidFor(slots, |slots|, numbers[i])
  }

  /** A table of the given numbers and the UUIDs that stand for them among the first n courts. */
  ghost predicate Tabulates(table: map<int, string>, numbers: set<int>, slots: seq<Slot>, n: nat)
    requires n <= |slots|
  {
    && table.Keys == numbers
    && forall number :: number in table ==> table[number] == UuidFor(slots, n, number)
  }

  method FilterFreeCourts(allCourts: seq<BookingCourt>, occupied: set<int>, venueCourts: set<int>,
      orderedPreferred: seq<int>)
    returns (result: seq<string>)
    ensures var slots := Slots(allCourts, occupied); NamedBy(result, Chosen(slots, venueCourts, orderedPreferred),
        slots)
  {
    var slots := ReadCourts(allCourts, occupied);
    result := FilterSlots(slots, venueCourts, orderedPreferred);
  }

  method ReadCourts(allCourts: seq<BookingCourt>, occupied: set<int>) returns (slots: seq<Slot>)
    ensures slots == Slots(allCourts, occupied)
  {
    slots := [];
    for i := 0 to |allCourts|
      invariant |slots| == i && forall k :: 0 <= k < i ==> slots[k] == Slots(allCourts, occupied)[k]
    {
      var slot := ReadCourt(allCourts[i], occupied);
      slots := slots + [slot];
    }
  }

  method ReadCourt(c: BookingCourt, occupied: set<int>) returns (slot: Slot)
    ensures slot == SlotOf(c, occupied)
  {
    var courtID := Atoi(c.id);
    var courtNum := ExtractCourtNumber(c.name);
    var eligible := true;
    if !courtID.Parsed? || c.uuid == "" {
      eligible := false;
    } else if courtID.value in occupied {
      eligible := false;
    } else if courtNum <= 0 {
      eligible := false;
    }
    slot := Slot(courtNum, c.uuid, eligible, courtID.ValueIgnoringError() in occupied);
  }

  method FilterSlots(slots: seq<Slot>, venueCourts: set<int>, orderedPreferred: seq<int>) returns (result: seq<string>)
    ensures NamedBy(result, Chosen(slots, venueCourts, orderedPreferred), slots)
  {
    var allFree: map<int, string> := map[];
    var venueFree: map<int, string> := map[];
    for i := 0 to |slots|
      invariant Tabulates(allFree, FreeNumbers(slots, i), slots, i)
      invariant Tabulates(venueFree, FreeNumbers(slots, i) * venueCourts, slots, i)
    {
      if !slots[i].eligible {
        continue;
      }
      var courtNum := slots[i].number;
      allFree := allFree[courtNum := slots[i].uuid];
      if courtNum in venueCourts {
        venueFree := venueFree[courtNum := slots[i].uuid];
      }
    }
    var courtUUIDs := venueFree;
    assert |venueFree| == 0 <==> venueFree.Keys == {};
    if |courtUUIDs| == 0 {
      courtUUIDs := allFree;
    }
    ghost var pool := Pool(slots, venueCourts);
    if |orderedPreferred| > 0 {
      result := EmitPreferred(courtUUIDs, orderedPreferred, pool, slots);
      if |result| > 0 {
        return;
      }
    }
    result := EmitAll(courtUUIDs, slots, pool);
  }

  method EmitPreferred(courtUUIDs: map<int, string>, orderedPreferred: seq<int>, ghost pool: set<int>,
      ghost slots: seq<Slot>)
    returns (result: seq<string>)
    requires Tabulates(courtUUIDs, pool, slots, |slots|)
    ensures NamedBy(result, Kept(orderedPreferred, pool), slots)
  {
    result := [];
    for i := 0 to |orderedPreferred|
      invariant NamedBy(result, Kept(orderedPreferred[..i], pool), slots)
    {
      assert orderedPreferred[..i + 1][..i] == orderedPreferred[..i];
      var courtNum := orderedPreferred[i];
      if courtNum in courtUUIDs {
        result := result + [courtUUIDs[courtNum]];
      }
    }
    assert orderedPreferred[..|orderedPreferred|] == orderedPreferred;
  }

  method EmitAll(courtUUIDs: map<int, string>, slots: seq<Slot>, ghost pool: set<int>) returns (result: seq<string>)
    requires Tabulates(courtUUIDs, pool, slots, |slots|)
    ensures NamedBy(result, Listed(slots, pool, |slots|), slots)
  {
    var seen: set<int> := {};
    result := [];
    for i := 0 to |slots|
      invariant forall x :: x in seen <==> x in Listed(slots, pool, i)
      invariant NamedBy(result, Listed(slots, pool, i), slots)
    {
      if slots[i].steppedOver {
        continue;
      }
      var courtNum := slots[i].number;
      if courtNum in courtUUIDs && courtNum !in seen {
        seen := seen + {courtNum};
        result := result + [courtUUIDs[courtNum]];
      }
    }
  }

  // ---------------------------------------------------------------- what is chosen

  /** The court that stands for a free number is an eligible one, and the last of its number. */
  lemma {:induction false} SupplierOf(slots: seq<Slot>, n: nat, number: int) returns (k: nat)
    requires n <= |slots| && number in FreeNumbers(slots, n)
    ensures k < n && slots[k].eligible && slots[k].number == number && slots[k].uuid == UuidFor(slots, n, number)
    ensures forall j :: k < j < n && slots[j].eligible ==> slots[j].number != number
  {
    if slots[n - 1].eligible && slots[n - 1].number == number {
      k := n - 1;
    } else {
      k := SupplierOf(slots, n - 1, number);
    }
  }

  lemma {:induction false} FreeIff(slots: seq<Slot>, n: nat, number: int)
    requires n <= |slots|
    ensures number in FreeNumbers(slots, n)
            <==> exists k :: 0 <= k < n && slots[k].eligible && slots[k].number == number
  {
    if n > 0 {
      FreeIff(slots, n - 1, number);
    }
  }

  /** What holds of every court read from the platform's list. */
  ghost predicate EligibleInOrder(slots: seq<Slot>) {
    forall slot :: slot in slots && slot.eligible ==> !slot.steppedOver && slot.number > 0 && slot.uuid != ""
  }

  /** A court may be tried if and only if it has a readable id that is not occupied, a UUID and a number. */
  lemma EligibleIff(courts: seq<BookingCourt>, occupied: set<int>, k: nat)
    requires k < |courts|
    ensures var slot, id := Slots(courts, occupied)[k], Atoi(courts[k].id);
            && (slot.eligible <==> id.Parsed? && id.value !in occupied && courts[k].uuid != ""
                                   && ExtractCourtNumber(courts[k].name) > 0)
            && slot.number == ExtractCourtNumber(courts[k].name) && slot.uuid == courts[k].uuid
            && (id.Parsed? ==> (slot.steppedOver <==> id.value in occupied))
            && (id.Malformed? ==> (slot.steppedOver <==> 0 in occupied))
  {
    assert Slots(courts, occupied)[k] == SlotOf(courts[k], occupied);
  }

  lemma OwnFree(slots: seq<Slot>, venueCourts: set<int>)
    requires forall k :: 0 <= k < |slots| && slots[k].eligible ==> slots[k].number !in venueCourts
    ensures FreeNumbers(slots, |slots|) * venueCourts == {}
  {
    forall x ensures x !in FreeNumbers(slots, |slots|) * venueCourts {
      FreeIff(slots, |slots|, x);
    }
  }

  /** A number can be chosen if and only if some court of that number may be tried, and it is one of the venue's
      own unless none of those may be tried. */
  lemma PoolIff(slots: seq<Slot>, venueCourts: set<int>, number: int)
    ensures number in Pool(slots, venueCourts)
            <==> && (exists k :: 0 <= k < |slots| && slots[k].eligible && slots[k].number == number)
                 && (number in venueCourts
                     || forall k :: 0 <= k < |slots| && slots[k].eligible ==> slots[k].number !in venueCourts)
  {
    var own := FreeNumbers(slots, |slots|) * venueCourts;
    FreeIff(slots, |slots|, number);
    if own == {} {
      forall k | 0 <= k < |slots| && slots[k].eligible ensures slots[k].number !in venueCourts {
        FreeIff(slots, |slots|, slots[k].number);
        assert slots[k].number !in own;
      }
    } else {
      if forall k :: 0 <= k < |slots| && slots[k].eligible ==> slots[k].number !in venueCourts {
        OwnFree(slots, venueCourts);
      }
    }
  }

  lemma {:induction false} ListedIsPool(slots: seq<Slot>, pool: set<int>, n: nat)
    requires n <= |slots| && EligibleInOrder(slots)
    ensures Distinct(Listed(slots, pool, n))
    ensures forall x :: x in Listed(slots, pool, n) ==> x in pool
    ensures forall x :: x in pool && x in FreeNumbers(slots, n) ==> x in Listed(slots, pool, n)
  {
    if n > 0 {
      ListedIsPool(slots, pool, n - 1);
      assert slots[n - 1] in slots;
    }
  }

  /** When no preference applies, every number of the pool is chosen exactly once. */
  lemma AllCourtsModeOnce(slots: seq<Slot>, venueCourts: set<int>)
    requires EligibleInOrder(slots)
    ensures var pool := Pool(slots, venueCourts); var listed := Listed(slots, pool, |slots|);
            Distinct(listed) && forall x :: x in listed <==> x in pool
  {
    ListedIsPool(slots, Pool(slots, venueCourts), |slots|);
  }

  /** The preferred courts keep their order and multiplicity; those outside the pool drop out. */
  lemma {:induction false} KeptCounts(numbers: seq<int>, pool: set<int>, x: int)
    ensures multiset(Kept(numbers, pool))[x] == if x in pool then multiset(numbers)[x] else 0
  {
    if numbers != [] {
      var front, last := numbers[..|numbers| - 1], numbers[|numbers| - 1];
      KeptCounts(front, pool, x);
      assert numbers == front + [last];
      CountSnoc(front, last);
      CountSnoc(Kept(front, pool), last);
    }
  }

  lemma {:induction false} KeptInOrder(numbers: seq<int>, pool: set<int>) returns (at: seq<int>)
    ensures |at| == |Kept(numbers, pool)| && StrictlyIncreasing(at)
    ensures forall i :: 0 <= i < |at| ==> 0 <= at[i] < |numbers| && numbers[at[i]] == Kept(numbers, pool)[i]
  {
    at := [];
    if numbers != [] {
      var n := |numbers| - 1;
      var before := KeptInOrder(numbers[..n], pool);
      at := before;
      if numbers[n] in pool {
        IncreasingConcat(before, [n]);
        at := before + [n];
      }
    }
  }

  /** Without a preference the numbers come in the platform's order, each at its first appearance. */
  lemma {:induction false} ListedInOrder(slots: seq<Slot>, pool: set<int>, n: nat) returns (at: seq<int>)
    requires n <= |slots|
    ensures |at| == |Listed(slots, pool, n)| && StrictlyIncreasing(at)
    ensures forall i :: 0 <= i < |at| ==> 0 <= at[i] < n && slots[at[i]].number == Listed(slots, pool, n)[i]
    ensures forall i, k :: 0 <= i < |at| && 0 <= k < at[i] && slots[k].number == slots[at[i]].number ==>
        slots[k].steppedOver
  {
    at := [];
    if n > 0 {
      at := ListedInOrder(slots, pool, n - 1);
      var slot := slots[n - 1];
      if !slot.steppedOver && slot.number in pool && slot.number !in Listed(slots, pool, n - 1) {
        forall k: nat | k < n - 1 && slots[k].number == slot.number ensures slots[k].steppedOver {
          if !slots[k].steppedOver {
            ListedCatches(slots, pool, n - 1, k);
          }
        }
        at := at + [n - 1];
      }
    }
  }

  lemma {:induction false} ListedCatches(slots: seq<Slot>, pool: set<int>, n: nat, k: nat)
    requires k < n <= |slots| && slots[k].number in pool && !slots[k].steppedOver
    ensures slots[k].number in Listed(slots, pool, n)
  {
    if k < n - 1 {
      ListedCatches(slots, pool, n - 1, k);
    }
  }

  /** A preference is ignored exactly when none of it is in the pool. */
  lemma PreferenceIgnoredIff(preferred: seq<int>, pool: set<int>)
    ensures Kept(preferred, pool) == [] <==> forall x :: x in preferred ==> x !in pool
  {
    var kept := Kept(preferred, pool);
    if kept == [] {
      forall x | x in preferred ensures x !in pool {
        KeptCounts(preferred, pool, x);
        assert x in multiset(preferred);
      }
    } else {
      KeptCounts(preferred, pool, kept[0]);
      assert kept[0] in multiset(kept);
      assert kept[0] in multiset(preferred);
    }
  }

  lemma ChosenFromPool(slots: seq<Slot>, venueCourts: set<int>, preferred: seq<int>, x: int)
    requires EligibleInOrder(slots) && x in Chosen(slots, venueCourts, preferred)
    ensures x in Pool(slots, venueCourts)
  {
    var pool := Pool(slots, venueCourts);
    AllCourtsModeOnce(slots, venueCourts);
    KeptCounts(preferred, pool, x);
    assert Kept(preferred, pool) != [] ==> x in multiset(Kept(preferred, pool));
  }

  /** Some court is chosen exactly when some court is eligible. */
  lemma NothingChosenIff(slots: seq<Slot>, venueCourts: set<int>, preferred: seq<int>)
    requires EligibleInOrder(slots)
    ensures Chosen(slots, venueCourts, preferred) == [] <==> forall k :: 0 <= k < |slots| ==> !slots[k].eligible
  {
    var chosen := Chosen(slots, venueCourts, preferred);
    if chosen != [] {
      ChosenFromPool(slots, venueCourts, preferred, chosen[0]);
      var k := SupplierOf(slots, |slots|, chosen[0]);
    } else {
      AllCourtsModeOnce(slots, venueCourts);
      var pool := Pool(slots, venueCourts);
      PreferenceIgnoredIff(preferred, pool);
      assert Listed(slots, pool, |slots|) == [];
      forall x ensures x !in pool {
        assert x !in Listed(slots, pool, |slots|);
      }
      forall k | 0 <= k < |slots| ensures !slots[k].eligible {
        FreeIff(slots, |slots|, slots[k].number);
        assert FreeNumbers(slots, |slots|) == {};
      }
    }
  }

  lemma SlotsInOrder(courts: seq<BookingCourt>, occupied: set<int>)
    ensures EligibleInOrder(Slots(courts, occupied))
  {
  }

  /** Every UUID handed out belongs to an eligible court, and one of the venue's own unless the venue
      has no free court. */
  lemma ChosenSound(uuids: seq<string>, slots: seq<Slot>, venueCourts: set<int>, preferred: seq<int>, i: nat)
    returns (k: nat)
    requires NamedBy(uuids, Chosen(slots, venueCourts, preferred), slots) && EligibleInOrder(slots) && i < |uuids|
    ensures k < |slots| && slots[k].eligible && slots[k].uuid == uuids[i]
    ensures slots[k].number in venueCourts
            || forall j :: 0 <= j < |slots| && slots[j].eligible ==> slots[j].number !in venueCourts
  {
    var number := Chosen(slots, venueCourts, preferred)[i];
    ChosenFromPool(slots, venueCourts, preferred, number);
    k := SupplierOf(slots, |slots|, number);
    if number !in venueCourts {
      forall j | 0 <= j < |slots| && slots[j].eligible ensures slots[j].number !in venueCourts {
        FreeIff(slots, |slots|, slots[j].number);
        assert slots[j].number !in FreeNumbers(slots, |slots|) * venueCourts;
      }
    }
  }

  /** No court is handed out that the platform lists as occupied. */
  lemma FilterSound(uuids: seq<string>, courts: seq<BookingCourt>, occupied: set<int>, venueCourts: set<int>,
      preferred: seq<int>, i: nat)
    returns (k: nat)
    requires NamedBy(uuids, Chosen(Slots(courts, occupied), venueCourts, preferred), Slots(courts, occupied))
        && i < |uuids|
    ensures k < |courts| && courts[k].uuid == uuids[i] && uuids[i] != ""
    ensures Atoi(courts[k].id).Parsed? && Atoi(courts[k].id).value !in occupied
  {
    SlotsInOrder(courts, occupied);
    k := ChosenSound(uuids, Slots(courts, occupied), venueCourts, preferred, i);
    assert Slots(courts, occupied)[k] == SlotOf(courts[k], occupied);
  }

  /** UUIDs identify courts; courts listed without one are passed over. */
  ghost predicate DistinctUUIDs(slots: seq<Slot>) {
    forall i, j :: 0 <= i < j < |slots| && slots[i].uuid != "" ==> slots[i].uuid != slots[j].uuid
  }

  /** No court is handed out twice exactly when the preferred numbers that apply are distinct. */
  lemma CourtsDistinctIff(uuids: seq<string>, slots: seq<Slot>, venueCourts: set<int>, preferred: seq<int>)
    requires NamedBy(uuids, Chosen(slots, venueCourts, preferred), slots) && EligibleInOrder(slots)
        && DistinctUUIDs(slots)
    ensures Distinct(uuids) <==> Distinct(Kept(preferred, Pool(slots, venueCourts)))
  {
    var numbers := Chosen(slots, venueCourts, preferred);
    AllCourtsModeOnce(slots, venueCourts);
    forall i, j | 0 <= i < j < |uuids| ensures uuids[i] == uuids[j] <==> numbers[i] == numbers[j] {
      ChosenFromPool(slots, venueCourts, preferred, numbers[i]);
      ChosenFromPool(slots, venueCourts, preferred, numbers[j]);
      var k := SupplierOf(slots, |slots|, numbers[i]);
      var l := SupplierOf(slots, |slots|, numbers[j]);
      assert slots[k] in slots && slots[l] in slots;
    }
  }
}
