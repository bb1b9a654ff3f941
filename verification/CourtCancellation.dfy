/** Giving back courts a game does not need, through the stored booking records. */
module CourtCancellation {
  import opened Basics
  import opened CourtStrings
  import opened CourtSelection

  // ---------------------------------------------------------------- data

  datatype CourtBooking = CourtBooking(courtLabel: string, matchId: string, credentialId: Option<int>)

  datatype CredReply = LookupFailed | NotFound | Found(login: string)

  /** A cancellation is carried out and confirmed, or it is not carried out, or it is carried out but the
      answer is an error: a timeout, an answer cut short, or one that cannot be read. */
  datatype CancelReply = Confirmed | Refused | Unheard

  /** What the outside world answers during one cancellation attempt. */
  datatype CourtReply = CourtReply(cred: CredReply, cancel: CancelReply, markOk: bool)

  datatype EntriesReply = NoRecords | LoadFailed | Loaded(entries: seq<CourtBooking>)

  datatype CancelResult = CancelResult(canceledCourts: seq<int>, remainingCourts: string, remainingCount: int,
      cancelErrors: int)

  datatype CancelError = NoBookingRecords | PersistFailed

  datatype Outcome = Done(result: CancelResult) | Failed(error: CancelError)

  // ---------------------------------------------------------------- the booked labels

  ghost predicate Sorted(s: seq<int>) {
    forall i, j :: 0 <= i < j < |s| ==> s[i] <= s[j]
  }

  function InsertInt(s: seq<int>, x: int): (r: seq<int>)
    requires Sorted(s)
    ensures Sorted(r) && multiset(r) == multiset(s) + multiset{x}
  {
    if s == [] || s[|s| - 1] <= x then
      CountSnoc(s, x);
      s + [x]
    else
      var n := |s| - 1;
      var front := InsertInt(s[..n], x);
      assert s == s[..n] + [s[n]];
      InsertBelow(s[..n], x, front, s[n]);
      CountSnoc(front, s[n]);
      CountSnoc(s[..n], s[n]);
      front + [s[n]]
  }

  lemma InsertBelow(s: seq<int>, x: int, r: seq<int>, last: int)
    requires Sorted(s + [last]) && x < last && multiset(r) == multiset(s) + multiset{x} && Sorted(r)
    ensures Sorted(r + [last])
  {
    forall i | 0 <= i < |r| ensures r[i] <= last {
      assert r[i] in multiset(r);
      if r[i] != x {
        assert r[i] in multiset(s);
        var k :| 0 <= k < |s| && s[k] == r[i];
        assert (s + [last])[k] <= (s + [last])[|s|];
      }
    }
  }

  function SortInts(s: seq<int>): (r: seq<int>)
    ensures Sorted(r) && multiset(r) == multiset(s)
  {
    if s == [] then []
    else
      var n := |s| - 1;
      assert s == s[..n] + [s[n]];
      CountSnoc(s[..n], s[n]);
      InsertInt(SortInts(s[..n]), s[n])
  }

  /** The numeric labels of the bookings, in booking order. */
  function NumericLabels(entries: seq<CourtBooking>): seq<int> {
    if entries == [] then []
    else
      var n := |entries| - 1;
      var parsed := Atoi(entries[n].courtLabel);
      NumericLabels(entries[..n]) + (if parsed.Parsed? then [parsed.value] else [])
  }

  /** The booking that speaks for each label; a later booking replaces an earlier one. */
  function EntryByLabel(entries: seq<CourtBooking>): (m: map<int, CourtBooking>)
    ensures forall l :: l in m <==> l in NumericLabels(entries)
  {
    if entries == [] then map[]
    else
      var n := |entries| - 1;
      var parsed := Atoi(entries[n].courtLabel);
      var m := EntryByLabel(entries[..n]);
      if parsed.Parsed? then m[parsed.value := entries[n]] else m
  }

  /** The booking found under a label is a stored booking of that very court. */
  lemma {:induction false} EntryByLabelSound(entries: seq<CourtBooking>, l: int)
    requires l in EntryByLabel(entries)
    ensures EntryByLabel(entries)[l] in entries && Atoi(EntryByLabel(entries)[l].courtLabel) == Parsed(l)
  {
    var n := |entries| - 1;
    if Atoi(entries[n].courtLabel) != Parsed(l) {
      EntryByLabelSound(entries[..n], l);
    }
  }

  lemma EntryByLabelNext(entries: seq<CourtBooking>, last: CourtBooking, l: int)
    ensures var front, all := EntryByLabel(entries), EntryByLabel(entries + [last]);
            if Atoi(last.courtLabel) == Parsed(l) then l in all && all[l] == last
            else (l in all <==> l in front) && (l in front ==> all[l] == front[l])
  {
    assert (entries + [last])[..|entries|] == entries;
  }

  /** Of the bookings of one court the last speaks for it. */
  lemma {:induction false} LastBookingSpeaks(before: seq<CourtBooking>, booking: CourtBooking, after: seq<CourtBooking>,
      l: int)
    requires Atoi(booking.courtLabel) == Parsed(l)
    requires forall e :: e in after ==> Atoi(e.courtLabel) != Parsed(l)
    ensures var byLabel := EntryByLabel(before + [booking] + after); l in byLabel && byLabel[l] == booking
    decreases |after|
  {
    if after == [] {
      assert before + [booking] + after == before + [booking];
      EntryByLabelNext(before, booking, l);
    } else {
      var n := |after| - 1;
      assert before + [booking] + after == (before + [booking] + after[..n]) + [after[n]];
      LastBookingSpeaks(before, booking, after[..n], l);
      EntryByLabelNext(before + [booking] + after[..n], after[n], l);
    }
  }

  // ---------------------------------------------------------------- two-phase selection

  /** The booked courts of the preference list, least preferred first. */
  ghost function Hits(preferred: seq<int>, booked: set<int>): seq<int> {
    if preferred == [] then []
    else
      var n := |preferred| - 1;
      (if preferred[n] in booked then [preferred[n]] else []) + Hits(preferred[..n], booked)
  }

  ghost function Excluding(s: seq<int>, out: set<int>): (r: seq<int>)
    ensures forall x :: x in r <==> x in s && x !in out
  {
    if s == [] then []
    else
      var n := |s| - 1;
      var front := Excluding(s[..n], out);
      if s[n] in out then front else front + [s[n]]
  }

  /** The specification of the selection: phase 1 takes preferred courts in reverse priority; only
      when those run out does phase 2 drain the remaining labels greedily. */
  ghost predicate Selection(labels: seq<int>, preferred: seq<int>, quota: int, selected: seq<int>) {
    var hits := Hits(preferred, Elems(labels));
    if quota <= |hits| then selected == hits[..if quota < 0 then 0 else quota]
    else
      && hits <= selected
      && GreedySelection(Excluding(labels, Elems(hits)), quota - |hits|, selected[|hits|..])
  }

  /** Phase 1 stands at the preferred court `i`, with `selected` taken from those behind it. */
  ghost predicate TakenSoFar(preferred: seq<int>, i: nat, booked: set<int>, selected: seq<int>)
    requires i <= |preferred|
  {
    selected + Hits(preferred[..i], booked) == Hits(preferred, booked)
  }

  lemma TakeNext(preferred: seq<int>, i: nat, booked: set<int>, selected: seq<int>)
    requires i < |preferred| && TakenSoFar(preferred, i + 1, booked, selected)
    ensures TakenSoFar(preferred, i, booked, if preferred[i] in booked then selected + [preferred[i]] else selected)
  {
    assert preferred[..i + 1][..i] == preferred[..i];
  }

  lemma TakenIsPrefix(preferred: seq<int>, i: nat, booked: set<int>, selected: seq<int>)
    requires i <= |preferred| && TakenSoFar(preferred, i, booked, selected)
    ensures |selected| <= |Hits(preferred, booked)| && selected == Hits(preferred, booked)[..|selected|]
    ensures i == 0 ==> selected == Hits(preferred, booked)
  {
  }

  /** Phase 1: lowest-priority courts first. */
  method SelectByPriority(labels: seq<int>, preferred: seq<int>, quota: int) returns (selected: seq<int>)
    ensures var hits := Hits(preferred, Elems(labels));
            selected == if quota <= |hits| then hits[..if quota < 0 then 0 else quota] else hits
  {
    selected := [];
    var i := |preferred| - 1;
    assert preferred[..i + 1] == preferred;
    while i >= 0 && |selected| < quota
      invariant -1 <= i < |preferred|
      invariant TakenSoFar(preferred, i + 1, Elems(labels), selected)
      invariant |selected| <= if quota < 0 then 0 else quota
    {
      TakeNext(preferred, i, Elems(labels), selected);
      if preferred[i] in labels {
        selected := selected + [preferred[i]];
      }
      i := i - 1;
    }
    TakenIsPrefix(preferred, i + 1, Elems(labels), selected);
  }

  method LabelsNotIn(labels: seq<int>, selected: seq<int>) returns (remaining: seq<int>)
    ensures remaining == Excluding(labels, Elems(selected))
  {
    remaining := [];
    for k := 0 to |labels|
      invariant remaining == Excluding(labels[..k], Elems(selected))
    {
      assert labels[..k + 1][..k] == labels[..k];
      if labels[k] !in selected {
        remaining := remaining + [labels[k]];
      }
    }
    assert labels[..|labels|] == labels;
  }

  method SelectCourts(labels: seq<int>, preferred: seq<int>, quota: int) returns (selected: seq<int>)
    ensures Selection(labels, preferred, quota, selected)
  {
    selected := SelectByPriority(labels, preferred, quota);
    // Phase 2: consecutive grouping for what is still missing.
    if |selected| < quota {
      var remaining := LabelsNotIn(labels, selected);
      var more := SelectCourtsToCancel(remaining, quota - |selected|);
      assert (selected + more)[|selected|..] == more;
      selected := selected + more;
    }
  }

  lemma {:induction false} HitsAreBooked(preferred: seq<int>, booked: set<int>)
    ensures forall x :: x in Hits(preferred, booked) <==> x in preferred && x in booked
  {
    if preferred != [] {
      var n := |preferred| - 1;
      HitsAreBooked(preferred[..n], booked);
      assert preferred == preferred[..n] + [preferred[n]];
    }
  }

  lemma GreedyWithin(s: seq<int>, n: int, selected: seq<int>)
    requires GreedySelection(s, n, selected)
    ensures multiset(selected) <= multiset(s)
    ensures StrictlyIncreasing(s) ==> OptimalChoice(s, selected)
  {
    var runs, rest :| AreRuns(runs, s) && Picks(runs, selected, rest);
    DrainContract(s, runs, selected, rest);
  }

  /** Only booked labels are selected, and never more than asked for. */
  lemma SelectionBounds(labels: seq<int>, preferred: seq<int>, quota: int, selected: seq<int>)
    requires Selection(labels, preferred, quota, selected)
    ensures forall l :: l in selected ==> l in labels
    ensures |selected| <= if quota < 0 then 0 else quota
  {
    var hits := Hits(preferred, Elems(labels));
    HitsAreBooked(preferred, Elems(labels));
    if quota > |hits| {
      var remaining := Excluding(labels, Elems(hits));
      var more := selected[|hits|..];
      GreedyWithin(remaining, quota - |hits|, more);
      forall l | l in selected ensures l in labels {
        if l in more {
          assert l in multiset(more) && l in multiset(remaining);
        } else {
          assert selected == hits + more;
        }
      }
    } else {
      forall l | l in selected ensures l in labels {
        assert l in hits && l in Elems(labels);
      }
    }
  }

  // ---------------------------------------------------------------- one attempt, all attempts

  /** The account that made the booking is known, so the platform is asked. */
  predicate HasAccount(entry: CourtBooking, reply: CourtReply, credServiceWired: bool) {
    && entry.credentialId.Some?
    && credServiceWired
    && reply.cred.Found?
    && reply.cred.login != ""
  }

  /** The booking is gone, and the job knows. */
  predicate Succeeds(entry: CourtBooking, reply: CourtReply, credServiceWired: bool) {
    HasAccount(entry, reply, credServiceWired) && reply.cancel.Confirmed?
  }

  /** The booking is gone, whether or not the job knows. */
  predicate Frees(entry: CourtBooking, reply: CourtReply, credServiceWired: bool) {
    HasAccount(entry, reply, credServiceWired) && !reply.cancel.Refused?
  }

  /** The labels among the first `n` selected whose cancellation went through. */
  ghost function CanceledOf(selected: seq<int>, n: nat, byLabel: map<int, CourtBooking>, replies: nat -> CourtReply,
      wired: bool): (canceled: seq<int>)
    requires n <= |selected| && forall i :: 0 <= i < |selected| ==> selected[i] in byLabel
    ensures |canceled| <= n && forall i :: 0 <= i < |canceled| ==> canceled[i] in byLabel
  {
    if n == 0 then []
    else
      CanceledOf(selected, n - 1, byLabel, replies, wired)
      + (if Succeeds(byLabel[selected[n - 1]], replies(n - 1), wired) then [selected[n - 1]] else [])
  }

  ghost function Canceled(selected: seq<int>, byLabel: map<int, CourtBooking>, replies: nat -> CourtReply,
      wired: bool): seq<int>
    requires forall i :: 0 <= i < |selected| ==> selected[i] in byLabel
  {
    CanceledOf(selected, |selected|, byLabel, replies, wired)
  }

  /** The labels among the first `n` selected that are given back on the platform. */
  ghost function FreedOf(selected: seq<int>, n: nat, byLabel: map<int, CourtBooking>, replies: nat -> CourtReply,
      wired: bool): (freed: seq<int>)
    requires n <= |selected| && forall i :: 0 <= i < |selected| ==> selected[i] in byLabel
    ensures |freed| <= n && forall i :: 0 <= i < |freed| ==> freed[i] in byLabel
  {
    if n == 0 then []
    else
      FreedOf(selected, n - 1, byLabel, replies, wired)
      + (if Frees(byLabel[selected[n - 1]], replies(n - 1), wired) then [selected[n - 1]] else [])
  }

  ghost function Freed(selected: seq<int>, byLabel: map<int, CourtBooking>, replies: nat -> CourtReply,
      wired: bool): seq<int>
    requires forall i :: 0 <= i < |selected| ==> selected[i] in byLabel
  {
    FreedOf(selected, |selected|, byLabel, replies, wired)
  }

  ghost function Matches(labels: seq<int>, byLabel: map<int, CourtBooking>): seq<string>
    requires forall i :: 0 <= i < |labels| ==> labels[i] in byLabel
  {
    if labels == [] then [] else Matches(labels[..|labels| - 1], byLabel) + [byLabel[labels[|labels| - 1]].matchId]
  }

  lemma MatchesNext(labels: seq<int>, l: int, byLabel: map<int, CourtBooking>)
    requires l in byLabel && forall i :: 0 <= i < |labels| ==> labels[i] in byLabel
    ensures Matches(labels + [l], byLabel) == Matches(labels, byLabel) + [byLabel[l].matchId]
  {
    assert (labels + [l])[..|labels|] == labels;
  }

  /** The match one attempt gives back, if any. */
  ghost function Gain(entry: CourtBooking, reply: CourtReply, wired: bool): seq<string> {
    if Frees(entry, reply, wired) then [entry.matchId] else []
  }

  /** The next attempt adds to what is canceled, or leaves it. */
  lemma CanceledNext(selected: seq<int>, i: nat, byLabel: map<int, CourtBooking>, replies: nat -> CourtReply,
      wired: bool)
    requires i < |selected| && forall k :: 0 <= k < |selected| ==> selected[k] in byLabel
    ensures var before := CanceledOf(selected, i, byLabel, replies, wired);
            CanceledOf(selected, i + 1, byLabel, replies, wired)
            == if Succeeds(byLabel[selected[i]], replies(i), wired) then before + [selected[i]] else before
  {
    var before := CanceledOf(selected, i, byLabel, replies, wired);
    assert before + [] == before;
  }

  lemma FreedNext(selected: seq<int>, i: nat, byLabel: map<int, CourtBooking>, replies: nat -> CourtReply,
      wired: bool)
    requires i < |selected| && forall k :: 0 <= k < |selected| ==> selected[k] in byLabel
    ensures var before := FreedOf(selected, i, byLabel, replies, wired);
            FreedOf(selected, i + 1, byLabel, replies, wired)
            == if Frees(byLabel[selected[i]], replies(i), wired) then before + [selected[i]] else before
  {
    var before := FreedOf(selected, i, byLabel, replies, wired);
    assert before + [] == before;
  }

  /** What is given back grows by what the attempt gains. */
  lemma MatchesGain(selected: seq<int>, i: nat, byLabel: map<int, CourtBooking>, replies: nat -> CourtReply,
      wired: bool)
    requires i < |selected| && forall k :: 0 <= k < |selected| ==> selected[k] in byLabel
    ensures Matches(FreedOf(selected, i + 1, byLabel, replies, wired), byLabel)
            == Matches(FreedOf(selected, i, byLabel, replies, wired), byLabel)
               + Gain(byLabel[selected[i]], replies(i), wired)
  {
    FreedNext(selected, i, byLabel, replies, wired);
    MatchesNext(FreedOf(selected, i, byLabel, replies, wired), selected[i], byLabel);
  }

  /** What is canceled is given back; without unheard answers it is all that is. */
  lemma {:induction false} CanceledAreFreed(selected: seq<int>, n: nat, byLabel: map<int, CourtBooking>,
      replies: nat -> CourtReply, wired: bool)
    requires n <= |selected| && forall i :: 0 <= i < |selected| ==> selected[i] in byLabel
    ensures var canceled, freed := CanceledOf(selected, n, byLabel, replies, wired),
        FreedOf(selected, n, byLabel, replies, wired);
            && |canceled| <= |freed| && (forall l :: l in canceled ==> l in freed)
            && ((forall i: nat :: i < n ==> !replies(i).cancel.Unheard?) ==> freed == canceled)
  {
    if n > 0 {
      CanceledAreFreed(selected, n - 1, byLabel, replies, wired);
      CanceledNext(selected, n - 1, byLabel, replies, wired);
      FreedNext(selected, n - 1, byLabel, replies, wired);
    }
  }

  lemma CanceledCounts(selected: seq<int>, n: nat, byLabel: map<int, CourtBooking>, replies: nat -> CourtReply,
      wired: bool)
    requires n < |selected| && forall i :: 0 <= i < |selected| ==> selected[i] in byLabel
    ensures multiset(CanceledOf(selected, n + 1, byLabel, replies, wired))
            <= multiset(CanceledOf(selected, n, byLabel, replies, wired)) + multiset{selected[n]}
  {
    var before := CanceledOf(selected, n, byLabel, replies, wired);
    CountSnoc(before, selected[n]);
    assert before + [] == before;
  }

  lemma CanceledWithinNext(selected: seq<int>, i: nat, byLabel: map<int, CourtBooking>, replies: nat -> CourtReply,
      wired: bool)
    requires i < |selected| && forall k :: 0 <= k < |selected| ==> selected[k] in byLabel
    requires multiset(CanceledOf(selected, i, byLabel, replies, wired)) <= multiset(selected[..i])
    ensures multiset(CanceledOf(selected, i + 1, byLabel, replies, wired)) <= multiset(selected[..i + 1])
  {
    CountTake(selected, i);
    CanceledCounts(selected, i, byLabel, replies, wired);
    WithinNext(multiset(CanceledOf(selected, i, byLabel, replies, wired)), multiset(selected[..i]),
               multiset(CanceledOf(selected, i + 1, byLabel, replies, wired)), multiset{selected[i]});
  }

  /** What is canceled was selected, no label more often than it was selected. */
  lemma {:induction false} CanceledAreSelected(selected: seq<int>, n: nat, byLabel: map<int, CourtBooking>,
      replies: nat -> CourtReply, wired: bool)
    requires n <= |selected| && forall i :: 0 <= i < |selected| ==> selected[i] in byLabel
    ensures multiset(CanceledOf(selected, n, byLabel, replies, wired)) <= multiset(selected[..n])
  {
    for i := 0 to n
      invariant multiset(CanceledOf(selected, i, byLabel, replies, wired)) <= multiset(selected[..i])
    {
      CanceledWithinNext(selected, i, byLabel, replies, wired);
    }
  }

  /** If every attempt goes through, every selected court is canceled. */
  lemma {:induction false} AllCanceled(selected: seq<int>, n: nat, byLabel: map<int, CourtBooking>,
      replies: nat -> CourtReply, wired: bool)
    requires n <= |selected| && forall i :: 0 <= i < |selected| ==> selected[i] in byLabel
    requires forall i: nat :: i < n ==> Succeeds(byLabel[selected[i]], replies(i), wired)
    ensures CanceledOf(selected, n, byLabel, replies, wired) == selected[..n]
  {
    if n > 0 {
      AllCanceled(selected, n - 1, byLabel, replies, wired);
      assert selected[..n] == selected[..n - 1] + [selected[n - 1]];
    }
  }

  // ---------------------------------------------------------------- the rebuilt court list

  /** `tokens` with one occurrence taken out, from the left, for every occurrence in `gone`. */
  ghost function Without(tokens: seq<string>, gone: multiset<string>): seq<string> {
    if tokens == [] then []
    else if tokens[0] in gone then Without(tokens[1..], gone - multiset{tokens[0]})
    else [tokens[0]] + Without(tokens[1..], gone)
  }

  ghost predicate IsSubsequence<T>(s: seq<T>, t: seq<T>) {
    || s == []
    || (t != [] && s[0] == t[0] && IsSubsequence(s[1..], t[1..]))
    || (t != [] && IsSubsequence(s, t[1..]))
  }

  /** Removing labels is multiset subtraction ... */
  lemma {:induction false} WithoutIsSubtraction(tokens: seq<string>, gone: multiset<string>)
    ensures multiset(Without(tokens, gone)) == multiset(tokens) - gone
  {
    if tokens != [] {
      var t, rest := tokens[0], tokens[1..];
      assert tokens == [t] + rest;
      WithoutIsSubtraction(rest, if t in gone then gone - multiset{t} else gone);
    }
  }

  /** ... keeps the order of what stays ... */
  lemma {:induction false} WithoutKeepsOrder(tokens: seq<string>, gone: multiset<string>)
    ensures IsSubsequence(Without(tokens, gone), tokens)
    ensures forall p :: p in Without(tokens, gone) ==> p in tokens
  {
    if tokens != [] {
      WithoutKeepsOrder(tokens[1..], if tokens[0] in gone then gone - multiset{tokens[0]} else gone);
    }
  }

  /** ... and never shortens the list by more than the number of labels removed. */
  lemma {:induction false} WithoutLength(tokens: seq<string>, gone: multiset<string>)
    ensures |tokens| - |gone| <= |Without(tokens, gone)| <= |tokens|
    ensures |Without(tokens, gone)| == |tokens| - |gone| <==> gone <= multiset(tokens)
  {
    if tokens != [] {
      var t, rest := tokens[0], tokens[1..];
      assert tokens == [t] + rest;
      if t in gone {
        var fewer := gone - multiset{t};
        WithoutLength(rest, fewer);
        assert gone == fewer + multiset{t};
        assert gone <= multiset(tokens) <==> fewer <= multiset(rest);
      } else {
        WithoutLength(rest, gone);
        SubsetWithoutHead(t, rest, gone);
      }
    }
  }

  lemma SubsetWithoutHead(t: string, rest: seq<string>, gone: multiset<string>)
    requires t !in gone
    ensures gone <= multiset([t] + rest) <==> gone <= multiset(rest)
  {
    assert multiset([t] + rest) == multiset{t} + multiset(rest);
    if gone <= multiset([t] + rest) {
      forall x | x in gone ensures gone[x] <= multiset(rest)[x] {
        assert gone[x] <= multiset([t] + rest)[x];
      }
    }
  }

  method RebuildCourts(tokens: seq<string>, canceled: seq<int>) returns (newCourts: seq<string>)
    requires forall p :: p in tokens ==> IsLabel(p)
    ensures newCourts == Without(tokens, multiset(Itoas(canceled)))
  {
    var canceledCount := multiset(Itoas(canceled));
    newCourts := [];
    assert tokens[0..] == tokens;
    for i := 0 to |tokens|
      invariant newCourts + Without(tokens[i..], canceledCount) == Without(tokens, multiset(Itoas(canceled)))
    {
      var c := TrimSpace(tokens[i]);
      assert IsLabel(tokens[i]);
      ghost var open := tokens[i..];
      assert open[0] == c && open[1..] == tokens[i + 1..];
      if canceledCount[c] > 0 {
        ghost var fewer := canceledCount - multiset{c};
        canceledCount := canceledCount[c := canceledCount[c] - 1];
        assert canceledCount == fewer;
        continue;
      }
      assert newCourts + ([c] + Without(open[1..], canceledCount))
          == newCourts + [c] + Without(open[1..], canceledCount);
      newCourts := newCourts + [c];
    }
  }

  // ---------------------------------------------------------------- when is the selection sound?

  lemma {:induction false} ExcludingStrict(s: seq<int>, out: set<int>)
    requires StrictlyIncreasing(s)
    ensures StrictlyIncreasing(Excluding(s, out))
  {
    if s != [] {
      var n := |s| - 1;
      ExcludingStrict(s[..n], out);
      var front := Excluding(s[..n], out);
      forall i | 0 <= i < |front| ensures front[i] < s[n] {
        assert front[i] in s[..n];
      }
    }
  }

  /** No court is selected twice, whatever the quota, exactly when no booked court stands twice in
      the preference list and no two bookings outside that list carry the same label. */
  lemma SelectionDistinctForEveryQuota(labels: seq<int>, preferred: seq<int>)
    ensures (forall quota, selected :: Selection(labels, preferred, quota, selected) ==> Distinct(selected))
            <==> Distinct(Hits(preferred, Elems(labels)))
                 && Distinct(Excluding(labels, Elems(Hits(preferred, Elems(labels)))))
  {
    var hits := Hits(preferred, Elems(labels));
    var remaining := Excluding(labels, Elems(hits));
    if Distinct(hits) && Distinct(remaining) {
      forall quota, selected | Selection(labels, preferred, quota, selected) ensures Distinct(selected) {
        SelectionDistinct(labels, preferred, quota, selected);
      }
    }
    if forall quota, selected :: Selection(labels, preferred, quota, selected) ==> Distinct(selected) {
      var all := FullSelection(labels, preferred);
      assert Distinct(all);
      assert all[..|hits|] == hits;
      SubMultisetDistinct(remaining, all[|hits|..]);
    }
  }

  lemma DrainDistinct(remaining: seq<int>, n: int, more: seq<int>)
    requires GreedySelection(remaining, n, more) && Distinct(remaining)
    ensures Distinct(more) && forall x | x in more :: x in remaining
  {
    GreedyWithin(remaining, n, more);
    SubMultisetDistinct(more, remaining);
  }

  lemma SelectionDistinct(labels: seq<int>, preferred: seq<int>, quota: int, selected: seq<int>)
    requires Selection(labels, preferred, quota, selected)
    requires Distinct(Hits(preferred, Elems(labels)))
    requires Distinct(Excluding(labels, Elems(Hits(preferred, Elems(labels)))))
    ensures Distinct(selected)
  {
    var hits := Hits(preferred, Elems(labels));
    if quota > |hits| {
      var more := selected[|hits|..];
      DrainDistinct(Excluding(labels, Elems(hits)), quota - |hits|, more);
      forall x | x in hits ensures x !in more {
        assert x in Elems(hits);
      }
      DistinctConcat(hits, more);
      assert selected == hits + more;
    }
  }

  lemma {:induction false} ExcludingDistinct(s: seq<int>, out: set<int>)
    requires Distinct(s)
    ensures Distinct(Excluding(s, out))
  {
    if s != [] {
      ExcludingDistinct(s[..|s| - 1], out);
    }
  }

  /** From different labels and preferences that name no booked court twice, as many courts are
      selected as asked for, or all of them. */
  lemma SelectionSize(labels: seq<int>, preferred: seq<int>, quota: nat, selected: seq<int>)
    requires Selection(labels, preferred, quota, selected) && Distinct(labels)
    requires Distinct(Hits(preferred, Elems(labels)))
    ensures Distinct(selected) && |selected| == Min(quota, |labels|)
    ensures forall x :: x in selected ==> x in labels
  {
    var hits := Hits(preferred, Elems(labels));
    var others := Excluding(labels, Elems(hits));
    ExcludingDistinct(labels, Elems(hits));
    SelectionDistinct(labels, preferred, quota, selected);
    SelectionBounds(labels, preferred, quota, selected);
    ElemsCard(labels);
    ElemsCard(others);
    ElemsCard(hits);
    ElemsCard(selected);
    assert Elems(labels) <= Elems(others) + Elems(hits);
    UnionCard(Elems(labels), Elems(others), Elems(hits));
    CardSubset(Elems(selected), Elems(labels));
  }

  /** There is a selection for every quota. */
  lemma SelectionExists(labels: seq<int>, preferred: seq<int>, quota: nat) returns (selected: seq<int>)
    ensures Selection(labels, preferred, quota, selected)
  {
    var hits := Hits(preferred, Elems(labels));
    if quota <= |hits| {
      selected := hits[..quota];
    } else {
      var remaining := Excluding(labels, Elems(hits));
      var more := DrainExists(remaining, quota - |hits|);
      selected := hits + more;
      assert selected[|hits|..] == more;
    }
  }

  lemma DrainExists(remaining: seq<int>, n: nat) returns (more: seq<int>)
    ensures GreedySelection(remaining, n, more)
  {
    var runs := BuildRuns(remaining);
    var rest;
    more, rest := DrainAll(runs, Min(n, |remaining|));
  }

  /** With a large enough quota the selection is the hits followed by every other label. */
  lemma FullSelection(labels: seq<int>, preferred: seq<int>) returns (selected: seq<int>)
    ensures exists quota :: Selection(labels, preferred, quota, selected)
    ensures var hits := Hits(preferred, Elems(labels));
            hits <= selected && multiset(selected[|hits|..]) == multiset(Excluding(labels, Elems(hits)))
  {
    var hits := Hits(preferred, Elems(labels));
    var remaining := Excluding(labels, Elems(hits));
    var runs := BuildRuns(remaining);
    var more, rest := DrainAll(runs, |remaining|);
    PicksConserve(runs, more, rest);
    FullDrain(multiset(remaining), more, multiset(Flatten(rest)));
    selected := hits + more;
    assert selected[|hits|..] == more;
    var quota := |hits| + |remaining| + 1;
    assert GreedySelection(remaining, quota - |hits|, more);
    assert Selection(labels, preferred, quota, selected);
  }

  lemma FullDrain(all: multiset<int>, more: seq<int>, rest: multiset<int>)
    requires rest + multiset(more) == all && |more| == |all|
    ensures multiset(more) == all
  {
    assert |rest| == 0;
  }

  lemma {:induction false} DrainAll(runs: seq<seq<int>>, n: nat) returns (selected: seq<int>, rest: seq<seq<int>>)
    requires n <= |Flatten(runs)|
    ensures Picks(runs, selected, rest) && |selected| == n && |Flatten(rest)| == |Flatten(runs)| - n
  {
    if n == 0 {
      selected, rest := [], runs;
    } else {
      selected, rest := DrainAll(runs, n - 1);
      var b := SomeBest(rest);
      PicksStep(runs, selected, rest, b);
      FlattenTake(rest, b);
      selected, rest := selected + [Last(rest[b])], rest[b := Init(rest[b])];
    }
  }

  lemma SomeBest(groups: seq<seq<int>>) returns (b: int)
    requires Flatten(groups) != []
    ensures IsBest(groups, b)
  {
    if AllEmpty(groups) {
      AllEmptyFlat(groups);
    }
    b :| 0 <= b < |groups| && groups[b] != [];
    for k := 0 to |groups|
      invariant 0 <= b < |groups| && groups[b] != []
      invariant forall j :: 0 <= j < k && groups[j] != [] ==> NotAfter(groups, b, j)
    {
      if groups[k] != [] && !NotAfter(groups, b, k) {
        b := k;
      }
    }
  }

  /** When a preference list names court 7 twice, court 7 is selected twice while the second requested
      court stays booked. */
  lemma DuplicatePreferenceSelectsTwice()
    ensures Selection([7, 8], [7, 7], 2, [7, 7])
  {
    assert [7, 7][..1] == [7] && [7][..0] == [];
    assert Hits([7, 7], Elems([7, 8])) == [7, 7];
  }

  /** With distinct preferred courts, a preferred court is given back only after every booked court
      that is preferred less. */
  lemma LeastPreferredFirst(labels: seq<int>, preferred: seq<int>, quota: int, selected: seq<int>, i: int, j: int)
    requires Selection(labels, preferred, quota, selected) && Distinct(preferred)
    requires 0 <= i < j < |preferred|
    requires preferred[i] in selected && preferred[j] in labels
    ensures preferred[j] in selected
  {
    var booked := Elems(labels);
    var hits := Hits(preferred, booked);
    HitsAreBooked(preferred, booked);
    if quota <= |hits| {
      var k :| 0 <= k < |selected| && selected[k] == preferred[i];
      var m := HitsOrder(preferred, booked, i, j, k);
      assert selected[m] == hits[m];
    } else {
      assert preferred[j] in hits;
      assert hits == selected[..|hits|];
    }
  }

  lemma {:induction false} HitsOrder(preferred: seq<int>, booked: set<int>, i: int, j: int, k: int) returns (m: int)
    requires Distinct(preferred) && 0 <= i < j < |preferred| && preferred[j] in booked
    requires 0 <= k < |Hits(preferred, booked)| && Hits(preferred, booked)[k] == preferred[i]
    ensures 0 <= m < k && Hits(preferred, booked)[m] == preferred[j]
  {
    var n := |preferred| - 1;
    var tail := Hits(preferred[..n], booked);
    var head := if preferred[n] in booked then [preferred[n]] else [];
    assert Hits(preferred, booked) == head + tail;
    if j == n {
      m := 0;
    } else {
      m := HitsOrder(preferred[..n], booked, i, j, k - |head|);
      m := m + |head|;
    }
  }

  /** Phase 2 is optimal among the labels phase 1 left: with distinct labels, no other choice of as
      many of them leaves fewer blocks of neighbouring courts. */
  lemma FallbackIsOptimal(labels: seq<int>, preferred: seq<int>, quota: int, selected: seq<int>)
    requires Selection(labels, preferred, quota, selected) && StrictlyIncreasing(labels)
    requires quota > |Hits(preferred, Elems(labels))|
    ensures var hits := Hits(preferred, Elems(labels));
            OptimalChoice(Excluding(labels, Elems(hits)), selected[|hits|..])
  {
    var hits := Hits(preferred, Elems(labels));
    ExcludingStrict(labels, Elems(hits));
    GreedyWithin(Excluding(labels, Elems(hits)), quota - |hits|, selected[|hits|..]);
  }

  // ---------------------------------------------------------------- the cancellation job

  datatype Game = Game(courts: string, courtsCount: int)

  function NoOp(game: Game, errors: int): CancelResult {
    CancelResult([], game.courts, game.courtsCount, errors)
  }

  ghost function RemainingTokens(courts: string, canceled: seq<int>): seq<string> {
    Without(CourtTokens(courts), multiset(Itoas(canceled)))
  }

  /** The result that reports `canceled` courts after trying `selected`. */
  ghost function Report(game: Game, selected: seq<int>, canceled: seq<int>, persistOk: bool): Outcome {
    var errors := |selected| - |canceled|;
    var left := RemainingTokens(game.courts, canceled);
    if canceled == [] then Done(NoOp(game, errors))
    else if !persistOk then Failed(PersistFailed)
    else Done(CancelResult(canceled, JoinCourts(left), |left|, errors))
  }

  /** The matches, in order, whose booking record is marked canceled. */
  ghost function MarkedOf(selected: seq<int>, n: nat, byLabel: map<int, CourtBooking>, replies: nat -> CourtReply,
      wired: bool): seq<string>
    requires n <= |selected| && forall i :: 0 <= i < |selected| ==> selected[i] in byLabel
  {
    if n == 0 then []
    else
      var entry := byLabel[selected[n - 1]];
      MarkedOf(selected, n - 1, byLabel, replies, wired)
      + (if Succeeds(entry, replies(n - 1), wired) && replies(n - 1).markOk then [entry.matchId] else [])
  }

  /** The matches given back by the first `n` attempts. */
  ghost function GivenOf(selected: seq<int>, n: nat, byLabel: map<int, CourtBooking>, replies: nat -> CourtReply,
      wired: bool): seq<string>
    requires n <= |selected| && forall i :: 0 <= i < |selected| ==> selected[i] in byLabel
  {
    if n == 0 then []
    else GivenOf(selected, n - 1, byLabel, replies, wired) + Gain(byLabel[selected[n - 1]], replies(n - 1), wired)
  }

  lemma GivenNext(selected: seq<int>, i: nat, byLabel: map<int, CourtBooking>, replies: nat -> CourtReply,
      wired: bool)
    requires i < |selected| && forall k :: 0 <= k < |selected| ==> selected[k] in byLabel
    requires GivenOf(selected, i, byLabel, replies, wired)
             == Matches(FreedOf(selected, i, byLabel, replies, wired), byLabel)
    ensures GivenOf(selected, i + 1, byLabel, replies, wired)
            == Matches(FreedOf(selected, i + 1, byLabel, replies, wired), byLabel)
  {
    MatchesGain(selected, i, byLabel, replies, wired);
  }

  lemma {:induction false} GivenAreFreed(selected: seq<int>, n: nat, byLabel: map<int, CourtBooking>,
      replies: nat -> CourtReply, wired: bool)
    requires n <= |selected| && forall i :: 0 <= i < |selected| ==> selected[i] in byLabel
    ensures GivenOf(selected, n, byLabel, replies, wired)
            == Matches(FreedOf(selected, n, byLabel, replies, wired), byLabel)
  {
    if n > 0 {
      GivenAreFreed(selected, n - 1, byLabel, replies, wired);
      GivenNext(selected, n - 1, byLabel, replies, wired);
    }
  }

  /** What a run has canceled, given back and marked so far, on top of what was there before. */
  datatype Progress = Progress(canceled: seq<int>, released: seq<string>, marked: seq<string>)

  ghost function Attempted(p: Progress, l: int, entry: CourtBooking, reply: CourtReply, wired: bool): Progress {
    if !Frees(entry, reply, wired) then p
    else if !Succeeds(entry, reply, wired) then p.(released := p.released + [entry.matchId])
    else Progress(p.canceled + [l], p.released + [entry.matchId],
                  if reply.markOk then p.marked + [entry.matchId] else p.marked)
  }

  ghost function AfterAttempts(p: Progress, selected: seq<int>, n: nat, byLabel: map<int, CourtBooking>,
      replies: nat -> CourtReply, wired: bool): Progress
    requires n <= |selected| && forall i :: 0 <= i < |selected| ==> selected[i] in byLabel
  {
    if n == 0 then p
    else
      var l := selected[n - 1];
      Attempted(AfterAttempts(p, selected, n - 1, byLabel, replies, wired), l, byLabel[l], replies(n - 1), wired)
  }

  lemma MarkNext(marked: seq<string>, before: seq<string>, entry: CourtBooking, reply: CourtReply, wired: bool)
    ensures marked + (before + (if Succeeds(entry, reply, wired) && reply.markOk then [entry.matchId] else []))
            == if Succeeds(entry, reply, wired) && reply.markOk then (marked + before) + [entry.matchId]
               else marked + before
  {
  }

  lemma GainNext(released: seq<string>, before: seq<string>, entry: CourtBooking, reply: CourtReply, wired: bool)
    ensures released + (before + Gain(entry, reply, wired))
            == if Frees(entry, reply, wired) then (released + before) + [entry.matchId] else released + before
  {
  }

  lemma {:induction false} AttemptsAddUp(p: Progress, selected: seq<int>, n: nat, byLabel: map<int, CourtBooking>,
      replies: nat -> CourtReply, wired: bool)
    requires n <= |selected| && forall i :: 0 <= i < |selected| ==> selected[i] in byLabel
    requires p.canceled == []
    ensures AfterAttempts(p, selected, n, byLabel, replies, wired)
            == Progress(CanceledOf(selected, n, byLabel, replies, wired),
                        p.released + GivenOf(selected, n, byLabel, replies, wired),
                        p.marked + MarkedOf(selected, n, byLabel, replies, wired))
  {
    if n == 0 {
      assert p.released + [] == p.released && p.marked + [] == p.marked;
    } else {
      var entry, reply := byLabel[selected[n - 1]], replies(n - 1);
      AttemptsAddUp(p, selected, n - 1, byLabel, replies, wired);
      CanceledNext(selected, n - 1, byLabel, replies, wired);
      GainNext(p.released, GivenOf(selected, n - 1, byLabel, replies, wired), entry, reply, wired);
      MarkNext(p.marked, MarkedOf(selected, n - 1, byLabel, replies, wired), entry, reply, wired);
    }
  }

  /** Everything a release run may change: the platform, the booking records, the game row. */
  datatype ReleaseState = ReleaseState(released: seq<string>, marked: seq<string>, courts: string, courtsCount: int)

  ghost function AfterRelease(st: ReleaseState, game: Game, selected: seq<int>, byLabel: map<int, CourtBooking>,
      replies: nat -> CourtReply, wired: bool, persistOk: bool): ReleaseState
    requires forall i :: 0 <= i < |selected| ==> selected[i] in byLabel
  {
    var canceled := Canceled(selected, byLabel, replies, wired);
    var left := RemainingTokens(game.courts, canceled);
    var stored := canceled != [] && persistOk;
    ReleaseState(
      st.released + Matches(Freed(selected, byLabel, replies, wired), byLabel),
      st.marked + MarkedOf(selected, |selected|, byLabel, replies, wired),
      if stored then JoinCourts(left) else st.courts,
      if stored then |left| else st.courtsCount)
  }

  /** What one release run does for the courts it selected: `st` becomes `st'`. */
  ghost predicate ReleaseEffect(st: ReleaseState, st': ReleaseState, outcome: Outcome, selected: seq<int>,
      game: Game, entries: seq<CourtBooking>, autoBookingCourts: string, courtsToCancel: int,
      replies: nat -> CourtReply, wired: bool, persistOk: bool)
  {
    && Selection(SortInts(NumericLabels(entries)), CourtNumbers(autoBookingCourts), courtsToCancel, selected)
    && (forall i :: 0 <= i < |selected| ==> selected[i] in EntryByLabel(entries))
    && var canceled := Canceled(selected, EntryByLabel(entries), replies, wired);
       && outcome == Report(game, selected, canceled, persistOk)
       && st' == AfterRelease(st, game, selected, EntryByLabel(entries), replies, wired, persistOk)
  }

  /** A run that selects, cancels and stores has the effect of a release. */
  lemma EffectOf(st: ReleaseState, st': ReleaseState, outcome: Outcome, selected: seq<int>,
      game: Game, entries: seq<CourtBooking>, autoBookingCourts: string, courtsToCancel: int,
      replies: nat -> CourtReply, wired: bool, persistOk: bool)
    requires Selection(SortInts(NumericLabels(entries)), CourtNumbers(autoBookingCourts), courtsToCancel, selected)
    requires forall i :: 0 <= i < |selected| ==> selected[i] in EntryByLabel(entries)
    requires var canceled := Canceled(selected, EntryByLabel(entries), replies, wired);
             var left, stored := RemainingTokens(game.courts, canceled), canceled != [] && persistOk;
             && outcome == Report(game, selected, canceled, persistOk)
             && st'.released
                == st.released + Matches(Freed(selected, EntryByLabel(entries), replies, wired), EntryByLabel(entries))
             && st'.marked == st.marked + MarkedOf(selected, |selected|, EntryByLabel(entries), replies, wired)
             && st'.courts == (if stored then JoinCourts(left) else st.courts)
             && st'.courtsCount == (if stored then |left| else st.courtsCount)
    ensures ReleaseEffect(st, st', outcome, selected, game, entries, autoBookingCourts, courtsToCancel,
              replies, wired, persistOk)
  {
  }

  lemma SelectedAreBooked(labels: seq<int>, raw: seq<int>, preferred: seq<int>, quota: int, selected: seq<int>)
    requires multiset(labels) == multiset(raw) && Selection(labels, preferred, quota, selected)
    ensures forall i :: 0 <= i < |selected| ==> selected[i] in raw
  {
    SelectionBounds(labels, preferred, quota, selected);
    forall l | l in selected ensures l in raw {
      assert l in multiset(labels);
      assert l in multiset(raw);
    }
  }

  /** Reads the booked labels and the preference list, and selects. */
  method SelectBooked(entries: seq<CourtBooking>, autoBookingCourts: string, courtsToCancel: int)
    returns (selected: seq<int>, byLabel: map<int, CourtBooking>)
    ensures byLabel == EntryByLabel(entries)
    ensures Selection(SortInts(NumericLabels(entries)), CourtNumbers(autoBookingCourts), courtsToCancel, selected)
    ensures forall i :: 0 <= i < |selected| ==> selected[i] in byLabel
  {
    byLabel := EntryByLabel(entries);
    var sortedLabels := SortInts(NumericLabels(entries));
    var preferred := ParseCourtIDs(autoBookingCourts);
    selected := SelectCourts(sortedLabels, preferred, courtsToCancel);
    SelectedAreBooked(sortedLabels, NumericLabels(entries), preferred, courtsToCancel, selected);
  }

  class CancellationReminderJob {
    /** The matches given back on the booking platform, in order. */
    var released: seq<string>
    /** The matches whose booking record was marked canceled, in order. */
    var marked: seq<string>
    /** The stored court list and court count of the game. */
    var courts: string
    var courtsCount: int

    const bookingClientWired: bool
    const credServiceWired: bool

    constructor (bookingClientWired: bool, credServiceWired: bool, game: Game)
      ensures released == [] && marked == [] && courts == game.courts && courtsCount == game.courtsCount
      ensures this.bookingClientWired == bookingClientWired && this.credServiceWired == credServiceWired
    {
      released, marked := [], [];
      courts, courtsCount := game.courts, game.courtsCount;
      this.bookingClientWired, this.credServiceWired := bookingClientWired, credServiceWired;
    }

    /** One attempt: find the account that made the booking, cancel with it, mark the record. */
    method TryCancel(entry: CourtBooking, reply: CourtReply) returns (ok: bool)
      modifies this`released, this`marked
      ensures ok == Succeeds(entry, reply, credServiceWired)
      ensures released ==
                if Frees(entry, reply, credServiceWired) then old(released) + [entry.matchId] else old(released)
      ensures marked == if ok && reply.markOk then old(marked) + [entry.matchId] else old(marked)
      ensures ok <==> && entry.credentialId.Some? && credServiceWired && reply.cred.Found? && reply.cred.login != ""
                      && reply.cancel.Confirmed?
      ensures released != old(released) <==>
                && entry.credentialId.Some? && credServiceWired && reply.cred.Found? && reply.cred.login != ""
                && (reply.cancel.Confirmed? || reply.cancel.Unheard?)
    {
      var login := "";
      if entry.credentialId.Some? && credServiceWired {
        if reply.cred.LookupFailed? {
          return false;
        } else if reply.cred.Found? {
          login := reply.cred.login;
        }
      }
      if login == "" {
        return false;
      }
      if reply.cancel.Refused? {
        return false;
      }
      released := released + [entry.matchId];
      if reply.cancel.Unheard? {
        return false;
      }
      if reply.markOk {
        marked := marked + [entry.matchId];
      }
      ok := true;
    }

    /** Tries the selected courts one by one; a court that fails does not stop the others. */
    method CancelEach(selected: seq<int>, byLabel: map<int, CourtBooking>, replies: nat -> CourtReply)
      returns (canceled: seq<int>, errors: nat)
      requires forall i :: 0 <= i < |selected| ==> selected[i] in byLabel
      modifies this`released, this`marked
      ensures canceled == Canceled(selected, byLabel, replies, credServiceWired)
      ensures errors == |selected| - |canceled|
      ensures released == old(released) + Matches(Freed(selected, byLabel, replies, credServiceWired), byLabel)
      ensures marked == old(marked) + MarkedOf(selected, |selected|, byLabel, replies, credServiceWired)
    {
      canceled, errors := [], 0;
      ghost var start := Progress([], released, marked);
      for i := 0 to |selected|
        invariant |canceled| + errors == i
        invariant Progress(canceled, released, marked)
                  == AfterAttempts(start, selected, i, byLabel, replies, credServiceWired)
      {
        var ok := TryCancel(byLabel[selected[i]], replies(i));
        if !ok {
          errors := errors + 1;
          continue;
        }
        canceled := canceled + [selected[i]];
      }
      AttemptsAddUp(start, selected, |selected|, byLabel, replies, credServiceWired);
      GivenAreFreed(selected, |selected|, byLabel, replies, credServiceWired);
    }

    /** Writes the shortened court list, unless nothing was canceled. */
    method Settle(game: Game, ghost selected: seq<int>, canceled: seq<int>, errors: nat,
        persistOk: bool) returns (outcome: Outcome)
      requires errors == |selected| - |canceled|
      modifies this`courts, this`courtsCount
      ensures outcome == Report(game, selected, canceled, persistOk)
      ensures var left, stored := RemainingTokens(game.courts, canceled), canceled != [] && persistOk;
              && courts == (if stored then JoinCourts(left) else old(courts))
              && courtsCount == (if stored then |left| else old(courtsCount))
    {
      if canceled == [] {
        outcome := Done(NoOp(game, errors));
        return;
      }
      var tokens := SplitCourts(game.courts);
      var newCourts := RebuildCourts(tokens, canceled);
      if !persistOk {
        outcome := Failed(PersistFailed);
        return;
      }
      courts, courtsCount := JoinCourts(newCourts), |newCourts|;
      outcome := Done(CancelResult(canceled, courts, courtsCount, errors));
    }

    ghost function State(): ReleaseState
      reads this
    {
      ReleaseState(released, marked, courts, courtsCount)
    }

    method CancelUsingBookingEntries(game: Game, entries: seq<CourtBooking>, autoBookingCourts: string,
        courtsToCancel: int, replies: nat -> CourtReply, persistOk: bool)
      returns (outcome: Outcome, selected: seq<int>)
      modifies this
      ensures ReleaseEffect(old(State()), State(), outcome, selected, game, entries, autoBookingCourts, courtsToCancel,
                            replies, credServiceWired, persistOk)
    {
      var byLabel;
      selected, byLabel := SelectBooked(entries, autoBookingCourts, courtsToCancel);
      var canceled, errors := CancelEach(selected, byLabel, replies);
      outcome := Settle(game, selected, canceled, errors, persistOk);
      EffectOf(old(State()), State(), outcome, selected, game, entries, autoBookingCourts, courtsToCancel,
               replies, credServiceWired, persistOk);
    }

    /** Releases nothing without a booking client or a request; needs stored booking records. */
    method CancelUnusedCourts(game: Game, entries: EntriesReply, autoBookingCourts: string, courtsToCancel: int,
        replies: nat -> CourtReply, persistOk: bool)
      returns (outcome: Outcome, selected: seq<int>)
      modifies this
      ensures if !bookingClientWired || courtsToCancel == 0 then
                outcome == Done(NoOp(game, 0)) && selected == [] && State() == old(State())
              else if !entries.Loaded? || entries.entries == [] then
                outcome == Failed(NoBookingRecords) && selected == [] && State() == old(State())
              else
                ReleaseEffect(old(State()), State(), outcome, selected, game, entries.entries, autoBookingCourts,
                    courtsToCancel,
                              replies, credServiceWired, persistOk)
    {
      selected := [];
      if !bookingClientWired || courtsToCancel == 0 {
        outcome := Done(NoOp(game, 0));
        return;
      }
      if entries.Loaded? && entries.entries != [] {
        outcome, selected := CancelUsingBookingEntries(game, entries.entries, autoBookingCourts, courtsToCancel,
              replies, persistOk);
        return;
      }
      outcome := Failed(NoBookingRecords);
    }
  }

  // ---------------------------------------------------------------- what a release run guarantees

  /** After any mix of failures: at most the requested number of courts is given back, the stored
      list loses exactly those labels (as a multiset, in order), and reads back as what was kept. */
  lemma ReleaseGuarantee(st: ReleaseState, st': ReleaseState, result: CancelResult, selected: seq<int>, game: Game,
      entries: seq<CourtBooking>, autoBookingCourts: string, courtsToCancel: nat, replies: nat -> CourtReply,
      wired: bool, persistOk: bool)
    requires ReleaseEffect(st, st', Done(result), selected, game, entries, autoBookingCourts, courtsToCancel, replies,
          wired, persistOk)
    ensures |result.canceledCourts| + result.cancelErrors == |selected| <= courtsToCancel
    ensures st.released <= st'.released
    ensures |st.released| + |result.canceledCourts| <= |st'.released| <= |st.released| + |selected|
    ensures multiset(result.canceledCourts) <= multiset(selected)
    ensures result.canceledCourts != [] ==>
              && st'.courts == result.remainingCourts && st'.courtsCount == result.remainingCount
              && result.remainingCount == |CourtTokens(result.remainingCourts)|
              && multiset(CourtTokens(result.remainingCourts))
                   == multiset(CourtTokens(game.courts)) - multiset(Itoas(result.canceledCourts))
              && IsSubsequence(CourtTokens(result.remainingCourts), CourtTokens(game.courts))
              && |CourtTokens(game.courts)| - courtsToCancel <= result.remainingCount
    ensures result.canceledCourts == [] ==>
              && st'.courts == st.courts && st'.courtsCount == st.courtsCount
              && result.remainingCourts == game.courts && result.remainingCount == game.courtsCount
  {
    var canceled := Canceled(selected, EntryByLabel(entries), replies, wired);
    CanceledAreSelected(selected, |selected|, EntryByLabel(entries), replies, wired);
    assert selected[..|selected|] == selected;
    CanceledAreFreed(selected, |selected|, EntryByLabel(entries), replies, wired);
    MatchesLength(Freed(selected, EntryByLabel(entries), replies, wired), EntryByLabel(entries));
    SelectionBounds(SortInts(NumericLabels(entries)), CourtNumbers(autoBookingCourts), courtsToCancel, selected);
    if canceled != [] {
      RemainingListLaw(game.courts, canceled);
    }
  }

  /** The shortened list as a multiset, in its order, by its length, and read back from storage. */
  lemma RemainingListLaw(courts: string, canceled: seq<int>)
    ensures var left, tokens := RemainingTokens(courts, canceled), CourtTokens(courts);
            && CourtTokens(JoinCourts(left)) == left
            && multiset(left) == multiset(tokens) - multiset(Itoas(canceled))
            && IsSubsequence(left, tokens)
            && |tokens| - |canceled| <= |left| <= |tokens|
            && (|left| == |tokens| - |canceled| <==> multiset(Itoas(canceled)) <= multiset(tokens))
  {
    var tokens, gone := CourtTokens(courts), multiset(Itoas(canceled));
    WithoutIsSubtraction(tokens, gone);
    WithoutKeepsOrder(tokens, gone);
    WithoutLength(tokens, gone);
    CourtListRoundTrip(Without(tokens, gone));
  }

  /** A failed write leaves courts given back on the platform but still listed for the game. */
  lemma PersistFailureLeavesListStale(st: ReleaseState, st': ReleaseState, selected: seq<int>, game: Game,
      entries: seq<CourtBooking>, autoBookingCourts: string, courtsToCancel: int, replies: nat -> CourtReply,
      wired: bool, persistOk: bool)
    requires ReleaseEffect(st, st', Failed(PersistFailed), selected, game, entries, autoBookingCourts, courtsToCancel,
          replies, wired, persistOk)
    ensures st'.courts == st.courts && st'.courtsCount == st.courtsCount
    ensures |st'.released| > |st.released| && st.released <= st'.released
  {
    CanceledAreFreed(selected, |selected|, EntryByLabel(entries), replies, wired);
    MatchesLength(Freed(selected, EntryByLabel(entries), replies, wired), EntryByLabel(entries));
  }

  lemma {:induction false} MatchesLength(labels: seq<int>, byLabel: map<int, CourtBooking>)
    requires forall i :: 0 <= i < |labels| ==> labels[i] in byLabel
    ensures |Matches(labels, byLabel)| == |labels|
  {
    if labels != [] {
      MatchesLength(labels[..|labels| - 1], byLabel);
    }
  }
}
