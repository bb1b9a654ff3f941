/** Booking several courts with several accounts.

    Accounts are used in the given order.  An account keeps booking the first free court until it has
    its fill or fails once; a court whose booking failed goes back to the front for the next account. */
module BookingCore {

  import opened Basics
  import opened CourtStrings
  import opened CourtFilter

  datatype Credential = Credential(id: int, maxCourts: int)

  datatype BookReply = BookFailed | Booked(matchId: string, bookingUUID: string)

  /** One request to the platform: which credential asked for which court, and whether it got it. */
  datatype Attempt = Attempt(cred: nat, court: string, ok: bool)

  datatype Failure = Refused(credentialId: int) | Exhausted(booked: int, requested: int) | NoFreeCourts

  datatype BookingRecord = BookingRecord(courtUUID: string, courtLabel: string, matchId: string, bookingUUID: string,
        credentialId: int)

  datatype BookResult = BookResult(labels: seq<string>, records: seq<BookingRecord>, failures: seq<Failure>,
      requested: int)

  datatype Reply<+T> = Fails | Answers(value: T)

  /** One booking run: its accounts, free courts, demand and court names, and what the n-th request
      and the n-th attempt to save a record are answered. */
  datatype Job = Job(creds: seq<Credential>, candidates: seq<string>, count: int, names: map<string, string>,
                     replies: nat -> BookReply, saves: nat -> bool)

  // ---------------------------------------------------------------- the rotation

  /** The attempts from the point where credential `c` has booked `used` courts, `booked` courts are
      booked in all and `tried` attempts have been made. */
  ghost function Run(job: Job, c: nat, used: nat, booked: nat, tried: nat): seq<Attempt>
    decreases |job.creds| - c, if c < |job.creds| then Max(0, job.creds[c].maxCourts - used) else 0
  {
    if c >= |job.creds| || booked >= job.count || booked >= |job.candidates| then []
    else if used >= job.creds[c].maxCourts then Run(job, c + 1, 0, booked, tried)
    else if job.replies(tried).Booked? then
      [Attempt(c, job.candidates[booked], true)] + Run(job, c, used + 1, booked + 1, tried + 1)
    else
      [Attempt(c, job.candidates[booked], false)] + Run(job, c + 1, 0, booked, tried + 1)
  }

  ghost function Rotation(job: Job): seq<Attempt> {
    Run(job, 0, 0, 0, 0)
  }

  /** The courts booked, in order. */
  ghost function BookedCourts(attempts: seq<Attempt>): seq<string> {
    if attempts == [] then []
    else (if attempts[0].ok then [attempts[0].court] else []) + BookedCourts(attempts[1..])
  }

  ghost function OkBy(attempts: seq<Attempt>, cred: nat): nat {
    if attempts == [] then 0
    else (if attempts[0].ok && attempts[0].cred == cred then 1 else 0) + OkBy(attempts[1..], cred)
  }

  ghost function FailuresBy(attempts: seq<Attempt>, cred: nat): nat {
    if attempts == [] then 0
    else (if !attempts[0].ok && attempts[0].cred == cred then 1 else 0) + FailuresBy(attempts[1..], cred)
  }

  /** The courts a credential may still book. */
  ghost function Room(creds: seq<Credential>, cred: nat): nat
    requires cred < |creds|
  {
    Max(0, creds[cred].maxCourts)
  }

  ghost function TotalRoom(creds: seq<Credential>): nat {
    if creds == [] then 0 else Room(creds, 0) + TotalRoom(creds[1..])
  }

  // ---------------------------------------------------------------- what the rotation achieves

  /** One more attempt in front adds its own court or failure to the counts. */
  lemma AttemptCounts(a: Attempt, rest: seq<Attempt>, k: nat)
    ensures BookedCourts([a] + rest) == (if a.ok then [a.court] else []) + BookedCourts(rest)
    ensures OkBy([a] + rest, k) == (if a.ok && a.cred == k then 1 else 0) + OkBy(rest, k)
    ensures FailuresBy([a] + rest, k) == (if !a.ok && a.cred == k then 1 else 0) + FailuresBy(rest, k)
  {
    assert ([a] + rest)[1..] == rest;
  }

  lemma PrefixNext(candidates: seq<string>, i: nat, later: seq<string>)
    requires i < |candidates| && later <= candidates[i + 1..]
    ensures [candidates[i]] + later <= candidates[i..]
  {
    assert candidates[i..] == [candidates[i]] + candidates[i + 1..];
  }

  lemma {:induction false} RunBooksPrefix(job: Job, c: nat, used: nat, booked: nat, tried: nat)
    requires booked <= |job.candidates|
    ensures BookedCourts(Run(job, c, used, booked, tried)) <= job.candidates[booked..]
    ensures booked + |BookedCourts(Run(job, c, used, booked, tried))| <= Max(booked, job.count)
    decreases |job.creds| - c, if c < |job.creds| then Max(0, job.creds[c].maxCourts - used) else 0
  {
    if c >= |job.creds| || booked >= job.count || booked >= |job.candidates| {
    } else if used >= job.creds[c].maxCourts {
      RunBooksPrefix(job, c + 1, 0, booked, tried);
    } else if job.replies(tried).Booked? {
      RunBooksPrefix(job, c, used + 1, booked + 1, tried + 1);
      AttemptCounts(Attempt(c, job.candidates[booked], true), Run(job, c, used + 1, booked + 1, tried + 1), 0);
      PrefixNext(job.candidates, booked, BookedCourts(Run(job, c, used + 1, booked + 1, tried + 1)));
    } else {
      RunBooksPrefix(job, c + 1, 0, booked, tried + 1);
      AttemptCounts(Attempt(c, job.candidates[booked], false), Run(job, c + 1, 0, booked, tried + 1), 0);
    }
  }

  /** The booked courts are a prefix of the candidates, never more than asked for. */
  lemma BooksPrefix(job: Job)
    ensures var done := BookedCourts(Rotation(job));
            done <= job.candidates && |done| <= Max(0, job.count)
  {
    RunBooksPrefix(job, 0, 0, 0, 0);
  }

  /** What credential `k` has left when credential `c` has used up `used`. */
  ghost function RoomFrom(creds: seq<Credential>, c: nat, used: nat, k: nat): nat
    requires k < |creds|
  {
    if k < c then 0 else if k == c then Max(0, creds[k].maxCourts - used) else Room(creds, k)
  }

  /** One more court takes one place of its credential; going on to the next takes what is left. */
  lemma RoomNext(creds: seq<Credential>, c: nat, used: nat, k: nat)
    requires k < |creds| && c < |creds|
    ensures used < creds[c].maxCourts ==>
              RoomFrom(creds, c, used, k) == RoomFrom(creds, c, used + 1, k) + (if k == c then 1 else 0)
    ensures RoomFrom(creds, c + 1, 0, k) == if k == c then 0 else RoomFrom(creds, c, used, k)
    ensures used >= creds[c].maxCourts ==> RoomFrom(creds, c + 1, 0, k) == RoomFrom(creds, c, used, k)
  {
  }

  /** The run ended early for this credential alone: it failed once, or it has its fill. */
  ghost predicate Spent(attempts: seq<Attempt>, room: nat, k: nat) {
    OkBy(attempts, k) == room || FailuresBy(attempts, k) == 1
  }

  lemma {:induction false} RunBounds(job: Job, c: nat, used: nat, booked: nat, tried: nat, k: nat)
    requires k < |job.creds|
    ensures OkBy(Run(job, c, used, booked, tried), k) <= RoomFrom(job.creds, c, used, k)
    ensures FailuresBy(Run(job, c, used, booked, tried), k) <= (if k < c then 0 else 1)
    decreases |job.creds| - c, if c < |job.creds| then Max(0, job.creds[c].maxCourts - used) else 0
  {
    if c < |job.creds| {
      RoomNext(job.creds, c, used, k);
    }
    if c >= |job.creds| || booked >= job.count || booked >= |job.candidates| {
    } else if used >= job.creds[c].maxCourts {
      RunBounds(job, c + 1, 0, booked, tried, k);
    } else if job.replies(tried).Booked? {
      RunBounds(job, c, used + 1, booked + 1, tried + 1, k);
      AttemptCounts(Attempt(c, job.candidates[booked], true), Run(job, c, used + 1, booked + 1, tried + 1), k);
    } else {
      RunBounds(job, c + 1, 0, booked, tried + 1, k);
      AttemptCounts(Attempt(c, job.candidates[booked], false), Run(job, c + 1, 0, booked, tried + 1), k);
    }
  }

  /** The run stops with demand and courts left over. */
  ghost predicate LeavesOver(job: Job, attempts: seq<Attempt>, booked: nat) {
    booked + |BookedCourts(attempts)| < job.count && booked + |BookedCourts(attempts)| < |job.candidates|
  }

  lemma {:induction false} RunSpends(job: Job, c: nat, used: nat, booked: nat, tried: nat, k: nat)
    requires k < |job.creds| && LeavesOver(job, Run(job, c, used, booked, tried), booked)
    ensures Spent(Run(job, c, used, booked, tried), RoomFrom(job.creds, c, used, k), k)
    decreases |job.creds| - c, if c < |job.creds| then Max(0, job.creds[c].maxCourts - used) else 0
  {
    if c < |job.creds| {
      RoomNext(job.creds, c, used, k);
    }
    if c >= |job.creds| || booked >= job.count || booked >= |job.candidates| {
    } else if used >= job.creds[c].maxCourts {
      RunSpends(job, c + 1, 0, booked, tried, k);
    } else if job.replies(tried).Booked? {
      AttemptCounts(Attempt(c, job.candidates[booked], true), Run(job, c, used + 1, booked + 1, tried + 1), k);
      RunSpends(job, c, used + 1, booked + 1, tried + 1, k);
    } else {
      AttemptCounts(Attempt(c, job.candidates[booked], false), Run(job, c + 1, 0, booked, tried + 1), k);
      RunSpends(job, c + 1, 0, booked, tried + 1, k);
      RunBounds(job, c + 1, 0, booked, tried + 1, k);
    }
  }

  /** Each credential books at most its limit and fails at most once; if courts and demand are left
      over, each of them has reached its limit or failed. */
  lemma CredentialLimits(job: Job, k: nat)
    requires k < |job.creds|
    ensures var run, room := Rotation(job), Max(0, job.creds[k].maxCourts); var booked := |BookedCourts(run)|;
            && OkBy(run, k) <= room && FailuresBy(run, k) <= 1
            && (booked < job.count && booked < |job.candidates| ==> Spent(run, room, k))
  {
    RunBounds(job, 0, 0, 0, 0, k);
    if LeavesOver(job, Rotation(job), 0) {
      RunSpends(job, 0, 0, 0, 0, k);
    }
  }

  /** The order of the attempts: credentials in the given order, none used again after it failed, and
      each attempt for the first court not booked yet. */
  ghost predicate InOrder(attempts: seq<Attempt>, candidates: seq<string>, c: nat, booked: nat) {
    attempts == [] ||
    (&& c <= attempts[0].cred && booked < |candidates| && attempts[0].court == candidates[booked]
     && InOrder(attempts[1..], candidates, attempts[0].cred + (if attempts[0].ok then 0 else 1),
           booked + (if attempts[0].ok then 1 else 0)))
  }

  lemma {:induction false} RunInOrder(job: Job, c: nat, used: nat, booked: nat, tried: nat, from: nat)
    requires from <= c
    ensures InOrder(Run(job, c, used, booked, tried), job.candidates, from, booked)
    decreases |job.creds| - c, if c < |job.creds| then Max(0, job.creds[c].maxCourts - used) else 0
  {
    if c >= |job.creds| || booked >= job.count || booked >= |job.candidates| {
    } else if used >= job.creds[c].maxCourts {
      RunInOrder(job, c + 1, 0, booked, tried, from);
    } else if job.replies(tried).Booked? {
      RunInOrder(job, c, used + 1, booked + 1, tried + 1, c);
    } else {
      RunInOrder(job, c + 1, 0, booked, tried + 1, c + 1);
    }
  }

  lemma TotalRoomFrom(creds: seq<Credential>, c: nat)
    requires c < |creds|
    ensures TotalRoom(creds[c..]) == Room(creds, c) + TotalRoom(creds[c + 1..])
  {
    assert creds[c..][0] == creds[c] && creds[c..][1..] == creds[c + 1..];
  }

  lemma {:induction false} RunWithoutFailures(job: Job, c: nat, used: nat, booked: nat, tried: nat)
    requires forall n :: job.replies(n).Booked?
    requires booked <= |job.candidates| && booked <= Max(0, job.count)
    requires c <= |job.creds| && (c < |job.creds| ==> used <= Room(job.creds, c))
    ensures var run := Run(job, c, used, booked, tried);
            var room := if c < |job.creds| then TotalRoom(job.creds[c..]) - used else 0;
            booked + |BookedCourts(run)| == Min(Max(0, job.count), Min(|job.candidates|, booked + room))
    decreases |job.creds| - c, if c < |job.creds| then Max(0, job.creds[c].maxCourts - used) else 0
  {
    if c < |job.creds| {
      TotalRoomFrom(job.creds, c);
    }
    if c >= |job.creds| || booked >= job.count || booked >= |job.candidates| {
    } else if used >= job.creds[c].maxCourts {
      RunWithoutFailures(job, c + 1, 0, booked, tried);
    } else {
      RunWithoutFailures(job, c, used + 1, booked + 1, tried + 1);
      AttemptCounts(Attempt(c, job.candidates[booked], true), Run(job, c, used + 1, booked + 1, tried + 1), 0);
    }
  }

  /** With no failures the number booked is the least of the demand, the free courts and the room of
      all credentials together. */
  lemma NoFailuresBookAll(job: Job)
    requires forall n :: job.replies(n).Booked?
    ensures |BookedCourts(Rotation(job))| == Min(Max(0, job.count), Min(|job.candidates|, TotalRoom(job.creds)))
  {
    RunWithoutFailures(job, 0, 0, 0, 0);
    assert job.creds[0..] == job.creds;
  }

  /** One court that nobody can book holds up every court behind it: nothing behind it is tried, and
      every credential that reaches it is reported as failing. */
  lemma UnbookableCourtBlocksTheRest(job: Job, bad: nat)
    requires bad < |job.candidates| && bad < job.count
    requires forall a :: a in Rotation(job) && a.court == job.candidates[bad] ==> !a.ok
    ensures var run := Rotation(job);
            && |BookedCourts(run)| <= bad
            && (forall a :: a in run ==> a.court in job.candidates[..bad + 1])
            && forall k: nat :: k < |job.creds| ==> Spent(run, Room(job.creds, k), k)
  {
    var run := Rotation(job);
    var done := BookedCourts(run);
    BooksPrefix(job);
    forall court | court in done ensures exists a :: a in run && a.court == court && a.ok {
      BookedByAttempt(run, court);
    }
    forall i | 0 <= i < |done| ensures done[i] != job.candidates[bad] {
      assert done[i] in done;
    }
    RunInOrder(job, 0, 0, 0, 0, 0);
    forall a | a in run ensures a.court in job.candidates[..bad + 1] {
      TriedInOrder(run, job.candidates, 0, 0, a);
    }
    forall k: nat | k < |job.creds| ensures Spent(run, Room(job.creds, k), k) {
      CredentialLimits(job, k);
    }
  }

  lemma {:induction false} TriedInOrder(attempts: seq<Attempt>, candidates: seq<string>, c: nat, booked: nat,
      a: Attempt)
    requires InOrder(attempts, candidates, c, booked) && a in attempts
    ensures exists i :: booked <= i <= booked + |BookedCourts(attempts)| && i < |candidates| && a.court == candidates[i]
  {
    if a != attempts[0] {
      TriedInOrder(attempts[1..], candidates, attempts[0].cred + (if attempts[0].ok then 0 else 1),
                   booked + (if attempts[0].ok then 1 else 0), a);
    }
  }

  lemma {:induction false} BookedByAttempt(attempts: seq<Attempt>, court: string)
    requires court in BookedCourts(attempts)
    ensures exists a :: a in attempts && a.court == court && a.ok
  {
    if attempts[0].ok && attempts[0].court == court {
      assert attempts[0] in attempts;
    } else {
      BookedByAttempt(attempts[1..], court);
      var a :| a in attempts[1..] && a.court == court && a.ok;
      assert a in attempts;
    }
  }

  // ---------------------------------------------------------------- the loop

  ghost function NumbersIn(courts: string): set<int> {
    Elems(CourtNumbers(courts))
  }

  method ParseVenueCourts(courts: string) returns (venueCourts: set<int>)
    ensures venueCourts == NumbersIn(courts)
  {
    var parts := Split(courts, ',');
    ghost var results := ReadAll(parts);
    venueCourts := {};
    for i := 0 to |parts|
      invariant venueCourts == Elems(Successes(results[..i]))
    {
      assert results[..i + 1][..i] == results[..i];
      var id := ReadPart(parts[i]);
      if id.Parsed? {
        venueCourts := venueCourts + {id.value};
      }
    }
    assert results[..|parts|] == results;
    CourtNumbersUniform(courts);
  }

  /** Blank parts are passed over; the others are read as integers. */
  method ReadPart(part: string) returns (id: IntResult)
    ensures id == ReadNumber(part)
  {
    var t := TrimSpace(part);
    if t == "" {
      return Malformed;
    }
    id := Atoi(t);
  }

  /** A court is labelled with its number, or with its UUID when its name has none. */
  function LabelOf(slot: Slot): string {
    if slot.number > 0 then Itoa(slot.number) else slot.uuid
  }

  /** Where courts share a UUID the last of them gives the label. */
  ghost function LabelFor(slots: seq<Slot>, n: nat, uuid: string): string
    requires n <= |slots|
  {
    if n == 0 then "" else if slots[n - 1].uuid == uuid then LabelOf(slots[n - 1]) else LabelFor(slots, n - 1, uuid)
  }

  method LabelCourts(slots: seq<Slot>) returns (uuidToCourtNum: map<string, string>)
    ensures forall uuid :: uuid != "" ==> NameIn(uuidToCourtNum, uuid) == LabelFor(slots, |slots|, uuid)
  {
    uuidToCourtNum := map[];
    for i := 0 to |slots|
      invariant forall uuid :: uuid != "" ==> NameIn(uuidToCourtNum, uuid) == LabelFor(slots, i, uuid)
    {
      if slots[i].uuid != "" {
        if slots[i].number > 0 {
          uuidToCourtNum := uuidToCourtNum[slots[i].uuid := Itoa(slots[i].number)];
        } else {
          uuidToCourtNum := uuidToCourtNum[slots[i].uuid := slots[i].uuid];
        }
      }
    }
  }

  function NameIn(names: map<string, string>, uuid: string): string {
    if uuid in names then names[uuid] else ""
  }

  /** What has been reported so far. */
  datatype Tally = Tally(labels: seq<string>, records: seq<BookingRecord>, failures: seq<Failure>)
  {
    ghost function Then(next: Tally): Tally {
      Tally(labels + next.labels, records + next.records, failures + next.failures)
    }
  }

  const NOTHING := Tally([], [], [])

  lemma ThenAssociates(a: Tally, b: Tally, c: Tally)
    ensures a.Then(b).Then(c) == a.Then(b.Then(c))
    ensures NOTHING.Then(a) == a && a.Then(NOTHING) == a
  {
  }

  /** A booked court is labelled, and recorded if it came with a match id and the record could be
      saved; a refusal names the credential. */
  ghost function Entry(a: Attempt, credentialId: int, names: map<string, string>, reply: BookReply,
      saved: bool): Tally
  {
    var name := NameIn(names, a.court);
    if reply.BookFailed? then Tally([], [], [Refused(credentialId)])
    else Tally([name],
               if reply.matchId != "" && saved then [BookingRecord(a.court, name, reply.matchId, reply.bookingUUID,
                     credentialId)] else [],
               [])
  }

  /** What attempts, the first of them the `tried`-th of the run, report. */
  ghost function TallyOf(attempts: seq<Attempt>, tried: nat, job: Job): Tally
  {
    if attempts == [] || attempts[0].cred >= |job.creds| then NOTHING
    else Entry(attempts[0], job.creds[attempts[0].cred].id, job.names, job.replies(tried), job.saves(tried))
         .Then(TallyOf(attempts[1..], tried + 1, job))
  }

  /** What a run reports: its attempts, and a last failure when both demand and free courts are left
      over. */
  ghost function ReportOf(job: Job): Tally {
    var run := Rotation(job);
    var booked := |BookedCourts(run)|;
    TallyOf(run, 0, job)
      .Then(Tally([], [],
                  if booked < job.count && booked < |job.candidates| then [Exhausted(booked, job.count)] else []))
  }

  /** What is still to be reported, and how many courts still to be booked, from a point of the run. */
  ghost function Rest(job: Job, c: nat, used: nat, booked: nat, tried: nat): (Tally, nat) {
    var run := Run(job, c, used, booked, tried);
    (TallyOf(run, tried, job), booked + |BookedCourts(run)|)
  }

  /** The report so far and what is still to come make up the whole. */
  ghost predicate OnTrack(job: Job, all: (Tally, nat), share: Tally, c: nat, used: nat, booked: nat, tried: nat) {
    all == (share.Then(Rest(job, c, used, booked, tried).0), Rest(job, c, used, booked, tried).1)
  }

  /** Where there is room, demand and a free court, the run goes on with one more attempt. */
  lemma NextAttempt(job: Job, c: nat, used: nat, booked: nat, tried: nat)
    requires c < |job.creds| && used < job.creds[c].maxCourts && booked < job.count && booked < |job.candidates|
    ensures var reply := job.replies(tried);
            var entry := Entry(Attempt(c, job.candidates[booked], reply.Booked?), job.creds[c].id, job.names, reply,
                  job.saves(tried));
            var rest := if reply.Booked? then Rest(job, c, used + 1, booked + 1, tried + 1)
                        else Rest(job, c + 1, 0, booked, tried + 1);
            Rest(job, c, used, booked, tried) == (entry.Then(rest.0), rest.1)
  {
    var reply := job.replies(tried);
    var rest := if reply.Booked? then Run(job, c, used + 1, booked + 1, tried + 1)
                else Run(job, c + 1, 0, booked, tried + 1);
    assert ([Attempt(c, job.candidates[booked], reply.Booked?)] + rest)[1..] == rest;
  }

  lemma AttemptMade(job: Job, all: (Tally, nat), share: Tally, entry: Tally, c: nat, used: nat, booked: nat, tried: nat)
    requires c < |job.creds| && used < job.creds[c].maxCourts && booked < job.count && booked < |job.candidates|
    requires OnTrack(job, all, share, c, used, booked, tried)
    requires entry == Entry(Attempt(c, job.candidates[booked], job.replies(tried).Booked?), job.creds[c].id, job.names,
                            job.replies(tried), job.saves(tried))
    ensures if job.replies(tried).Booked? then OnTrack(job, all, share.Then(entry), c, used + 1, booked + 1, tried + 1)
            else OnTrack(job, all, share.Then(entry), c + 1, 0, booked, tried + 1)
  {
    NextAttempt(job, c, used, booked, tried);
    var rest := if job.replies(tried).Booked? then Rest(job, c, used + 1, booked + 1, tried + 1) else Rest(job, c + 1,
          0, booked, tried + 1);
    ThenAssociates(share, entry, rest.0);
  }

  /** The credential has its fill, or the run is over. */
  lemma NextCredential(job: Job, all: (Tally, nat), share: Tally, c: nat, used: nat, booked: nat, tried: nat)
    requires c < |job.creds| && (used >= job.creds[c].maxCourts || booked >= job.count || booked >= |job.candidates|)
    requires OnTrack(job, all, share, c, used, booked, tried)
    ensures OnTrack(job, all, share, c + 1, 0, booked, tried)
  {
  }

  /** With no credential, demand or court left, the report is complete. */
  lemma RunOver(job: Job, all: (Tally, nat), share: Tally, c: nat, booked: nat, tried: nat)
    requires c >= |job.creds| || booked >= job.count || booked >= |job.candidates|
    requires OnTrack(job, all, share, c, 0, booked, tried)
    ensures all == (share, booked)
  {
    ThenAssociates(share, NOTHING, NOTHING);
  }

  // ---------------------------------------------------------------- what a report says of its run

  /** The attempts, the first of them number `tried`, went to accounts of the run and ended as answered. */
  ghost predicate Answered(job: Job, attempts: seq<Attempt>, tried: nat) {
    forall k :: 0 <= k < |attempts| ==>
      attempts[k].cred < |job.creds| && (attempts[k].ok <==> job.replies(tried + k).Booked?)
  }

  /** The attempts, by number, that were given a match id and could be saved. */
  ghost function KeptIn(job: Job, tried: nat, end: nat): set<int> {
    set n | tried <= n < end && job.replies(n).Booked? && job.replies(n).matchId != "" && job.saves(n)
  }

  /** The attempts, by number, that failed. */
  ghost function FailedIn(job: Job, tried: nat, end: nat): set<int> {
    set n | tried <= n < end && job.replies(n).BookFailed?
  }

  /** The record carries the court the attempt asked for, the match id and the booking UUID that very attempt
      was answered, and the account that made it. */
  ghost predicate RecordOf(job: Job, a: Attempt, n: nat, record: BookingRecord) {
    && job.replies(n).Booked? && a.cred < |job.creds|
    && record.courtUUID == a.court && record.courtLabel == NameIn(job.names, a.court)
    && record.matchId == job.replies(n).matchId && record.bookingUUID == job.replies(n).bookingUUID
    && record.credentialId == job.creds[a.cred].id
  }

  ghost predicate RecordsFit(job: Job, attempts: seq<Attempt>, tried: nat, at: seq<int>, records: seq<BookingRecord>) {
    && |at| == |records|
    && forall i :: 0 <= i < |at| ==>
         tried <= at[i] < tried + |attempts| && RecordOf(job, attempts[at[i] - tried], at[i], records[i])
  }

  /** The records are those of the attempts that were given a match id and could be saved, one each, in order. */
  ghost predicate RecordsFrom(job: Job, attempts: seq<Attempt>, tried: nat, at: seq<int>,
      records: seq<BookingRecord>)
  {
    && InOrderFrom(at, tried, tried + |attempts|, KeptIn(job, tried, tried + |attempts|))
    && RecordsFit(job, attempts, tried, at, records)
  }

  ghost predicate RefusalOf(job: Job, a: Attempt, failure: Failure) {
    a.cred < |job.creds| && failure == Refused(job.creds[a.cred].id)
  }

  ghost predicate RefusalsFit(job: Job, attempts: seq<Attempt>, tried: nat, at: seq<int>, failures: seq<Failure>) {
    && |at| <= |failures|
    && forall i :: 0 <= i < |at| ==>
         tried <= at[i] < tried + |attempts| && RefusalOf(job, attempts[at[i] - tried], failures[i])
  }

  /** The failures begin with the accounts of the attempts that failed, one each, in order. */
  ghost predicate RefusalsFrom(job: Job, attempts: seq<Attempt>, tried: nat, at: seq<int>, failures: seq<Failure>) {
    && InOrderFrom(at, tried, tried + |attempts|, FailedIn(job, tried, tried + |attempts|))
    && RefusalsFit(job, attempts, tried, at, failures)
  }

  lemma KeptFirst(job: Job, tried: nat, end: nat)
    requires tried < end
    ensures var kept := job.replies(tried).Booked? && job.replies(tried).matchId != "" && job.saves(tried);
            KeptIn(job, tried, end) == (if kept then {tried as int} else {}) + KeptIn(job, tried + 1, end)
  {
  }

  lemma FailedFirst(job: Job, tried: nat, end: nat)
    requires tried < end
    ensures FailedIn(job, tried, end)
            == (if job.replies(tried).BookFailed? then {tried as int} else {}) + FailedIn(job, tried + 1, end)
  {
  }

  /** A report accounts for its run: its labels, its records and its refusals, and last of all what could not
      be booked though it was asked for and free. */
  ghost predicate Accounts(job: Job, labels: seq<string>, records: seq<BookingRecord>, failures: seq<Failure>) {
    var run := Rotation(job);
    && Answered(job, run, 0)
    && labels == NamesOf(BookedCourts(run), job.names)
    && (exists at :: RecordsFrom(job, run, 0, at, records))
    && exists at :: RefusalsFrom(job, run, 0, at, failures)
                    && failures[|at|..] == if |labels| < job.count && |labels| < |job.candidates|
                                           then [Exhausted(|labels|, job.count)] else []
  }

  lemma {:induction false} RunAnswered(job: Job, c: nat, used: nat, booked: nat, tried: nat)
    ensures Answered(job, Run(job, c, used, booked, tried), tried)
    decreases |job.creds| - c, if c < |job.creds| then Max(0, job.creds[c].maxCourts - used) else 0
  {
    if c >= |job.creds| || booked >= job.count || booked >= |job.candidates| {
    } else if used >= job.creds[c].maxCourts {
      RunAnswered(job, c + 1, 0, booked, tried);
    } else if job.replies(tried).Booked? {
      RunAnswered(job, c, used + 1, booked + 1, tried + 1);
      AnsweredFirst(job, Attempt(c, job.candidates[booked], true), Run(job, c, used + 1, booked + 1, tried + 1), tried);
    } else {
      RunAnswered(job, c + 1, 0, booked, tried + 1);
      AnsweredFirst(job, Attempt(c, job.candidates[booked], false), Run(job, c + 1, 0, booked, tried + 1), tried);
    }
  }

  lemma AnsweredFirst(job: Job, a: Attempt, rest: seq<Attempt>, tried: nat)
    requires a.cred < |job.creds| && (a.ok <==> job.replies(tried).Booked?) && Answered(job, rest, tried + 1)
    ensures Answered(job, [a] + rest, tried)
  {
    var all := [a] + rest;
    forall k | 0 <= k < |all|
      ensures all[k].cred < |job.creds| && (all[k].ok <==> job.replies(tried + k).Booked?)
    {
      if k > 0 {
        assert all[k] == rest[k - 1] && job.replies(tried + 1 + (k - 1)) == job.replies(tried + k);
      }
    }
  }

  lemma AnsweredRest(job: Job, attempts: seq<Attempt>, tried: nat)
    requires Answered(job, attempts, tried) && attempts != []
    ensures Answered(job, attempts[1..], tried + 1)
  {
    forall k | 0 <= k < |attempts| - 1
      ensures attempts[1..][k].cred < |job.creds|
              && (attempts[1..][k].ok <==> job.replies(tried + 1 + k).Booked?)
    {
      assert attempts[1..][k] == attempts[k + 1] && job.replies(tried + (k + 1)) == job.replies(tried + 1 + k);
    }
  }

  /** With one attempt more in front, the records of the later ones are theirs as before. */
  lemma RecordsShift(job: Job, a: Attempt, rest: seq<Attempt>, tried: nat, at: seq<int>, records: seq<BookingRecord>)
    requires RecordsFit(job, rest, tried + 1, at, records)
    ensures RecordsFit(job, [a] + rest, tried, at, records)
  {
    forall i | 0 <= i < |at| ensures RecordOf(job, ([a] + rest)[at[i] - tried], at[i], records[i]) {
      assert ([a] + rest)[at[i] - tried] == rest[at[i] - (tried + 1)];
    }
  }

  lemma RecordInFront(job: Job, attempts: seq<Attempt>, tried: nat, at: seq<int>, records: seq<BookingRecord>,
      record: BookingRecord)
    requires RecordsFit(job, attempts, tried, at, records) && attempts != []
    requires RecordOf(job, attempts[0], tried, record)
    ensures RecordsFit(job, attempts, tried, [tried] + at, [record] + records)
  {
    var more, all := [tried] + at, [record] + records;
    forall i | 0 <= i < |more|
      ensures tried <= more[i] < tried + |attempts| && RecordOf(job, attempts[more[i] - tried], more[i], all[i])
    {
      if i > 0 {
        assert more[i] == at[i - 1] && all[i] == records[i - 1];
      }
    }
  }

  lemma RecordsFirst(job: Job, a: Attempt, rest: seq<Attempt>, tried: nat, later: seq<int>,
      records: seq<BookingRecord>, own: seq<BookingRecord>)
      returns (at: seq<int>)
    requires RecordsFrom(job, rest, tried + 1, later, records)
    requires var kept := job.replies(tried).Booked? && job.replies(tried).matchId != "" && job.saves(tried);
             |own| == (if kept then 1 else 0) && (kept ==> RecordOf(job, a, tried, own[0]))
    ensures RecordsFrom(job, [a] + rest, tried, at, own + records)
  {
    var all, end := [a] + rest, tried + 1 + |rest|;
    KeptFirst(job, tried, end);
    RecordsShift(job, a, rest, tried, later, records);
    if own == [] {
      at := later;
      assert own + records == records;
    } else {
      FirstInOrder(tried, later, end, KeptIn(job, tried + 1, end));
      at := [tried] + later;
      assert own == [own[0]];
      RecordInFront(job, all, tried, later, records, own[0]);
    }
  }

  lemma {:induction false} TallyRecords(job: Job, attempts: seq<Attempt>, tried: nat) returns (at: seq<int>)
    requires Answered(job, attempts, tried)
    ensures RecordsFrom(job, attempts, tried, at, TallyOf(attempts, tried, job).records)
  {
    at := [];
    if attempts != [] {
      AnsweredRest(job, attempts, tried);
      assert attempts[0].cred < |job.creds| && (attempts[0].ok <==> job.replies(tried + 0).Booked?);
      var entry := Entry(attempts[0], job.creds[attempts[0].cred].id, job.names, job.replies(tried), job.saves(tried));
      var rest := TallyOf(attempts[1..], tried + 1, job);
      at := TallyRecords(job, attempts[1..], tried + 1);
      at := RecordsFirst(job, attempts[0], attempts[1..], tried, at, rest.records, entry.records);
      assert [attempts[0]] + attempts[1..] == attempts;
    }
  }

  lemma RefusalsShift(job: Job, a: Attempt, rest: seq<Attempt>, tried: nat, at: seq<int>, failures: seq<Failure>)
    requires RefusalsFit(job, rest, tried + 1, at, failures)
    ensures RefusalsFit(job, [a] + rest, tried, at, failures)
  {
    forall i | 0 <= i < |at| ensures RefusalOf(job, ([a] + rest)[at[i] - tried], failures[i]) {
      assert ([a] + rest)[at[i] - tried] == rest[at[i] - (tried + 1)];
    }
  }

  lemma RefusalInFront(job: Job, attempts: seq<Attempt>, tried: nat, at: seq<int>, failures: seq<Failure>,
      failure: Failure)
    requires RefusalsFit(job, attempts, tried, at, failures) && attempts != []
    requires RefusalOf(job, attempts[0], failure)
    ensures RefusalsFit(job, attempts, tried, [tried] + at, [failure] + failures)
  {
    var more, all := [tried] + at, [failure] + failures;
    forall i | 0 <= i < |more|
      ensures tried <= more[i] < tried + |attempts| && RefusalOf(job, attempts[more[i] - tried], all[i])
    {
      if i > 0 {
        assert more[i] == at[i - 1] && all[i] == failures[i - 1];
      }
    }
  }

  lemma RefusalsFirst(job: Job, a: Attempt, rest: seq<Attempt>, tried: nat, later: seq<int>, failures: seq<Failure>,
      own: seq<Failure>)
      returns (at: seq<int>)
    requires RefusalsFrom(job, rest, tried + 1, later, failures) && |later| == |failures|
    requires |own| == (if job.replies(tried).BookFailed? then 1 else 0)
    requires own != [] ==> RefusalOf(job, a, own[0])
    ensures RefusalsFrom(job, [a] + rest, tried, at, own + failures) && |at| == |own + failures|
  {
    var all, end := [a] + rest, tried + 1 + |rest|;
    FailedFirst(job, tried, end);
    RefusalsShift(job, a, rest, tried, later, failures);
    if own == [] {
      at := later;
      assert own + failures == failures;
    } else {
      FirstInOrder(tried, later, end, FailedIn(job, tried + 1, end));
      at := [tried] + later;
      assert own == [own[0]];
      RefusalInFront(job, all, tried, later, failures, own[0]);
    }
  }

  lemma {:induction false} TallyRefusals(job: Job, attempts: seq<Attempt>, tried: nat) returns (at: seq<int>)
    requires Answered(job, attempts, tried)
    ensures RefusalsFrom(job, attempts, tried, at, TallyOf(attempts, tried, job).failures)
    ensures |at| == |TallyOf(attempts, tried, job).failures|
  {
    at := [];
    if attempts != [] {
      AnsweredRest(job, attempts, tried);
      assert attempts[0].cred < |job.creds| && (attempts[0].ok <==> job.replies(tried + 0).Booked?);
      var entry := Entry(attempts[0], job.creds[attempts[0].cred].id, job.names, job.replies(tried), job.saves(tried));
      var rest := TallyOf(attempts[1..], tried + 1, job);
      at := TallyRefusals(job, attempts[1..], tried + 1);
      at := RefusalsFirst(job, attempts[0], attempts[1..], tried, at, rest.failures, entry.failures);
      assert [attempts[0]] + attempts[1..] == attempts;
    }
  }

  /** Every report accounts for its run. */
  lemma ReportAccounts(job: Job)
    ensures var report := ReportOf(job); Accounts(job, report.labels, report.records, report.failures)
  {
    var run, report := Rotation(job), ReportOf(job);
    var tally := TallyOf(run, 0, job);
    RunAnswered(job, 0, 0, 0, 0);
    RunLabels(job, 0, 0, 0, 0);
    var at := TallyRecords(job, run, 0);
    assert report.labels == tally.labels && report.records == tally.records;
    var bad := TallyRefusals(job, run, 0);
    assert RefusalsFrom(job, run, 0, bad, report.failures);
    assert report.failures[|bad|..] == report.failures[|tally.failures|..];
  }

  /** Takes the first free court; if it cannot be booked it goes back to the front. */
  method TryBook(job: Job, c: nat, available: seq<string>, tried: nat)
    returns (entry: Tally, ok: bool, available': seq<string>)
    requires c < |job.creds| && available != []
    ensures ok <==> job.replies(tried).Booked?
    ensures entry == Entry(Attempt(c, available[0], ok), job.creds[c].id, job.names, job.replies(tried),
        job.saves(tried))
    ensures available' == if ok then available[1..] else available
    // The court asked for, and what this very attempt was answered, by the account that made it.
    ensures |entry.records| == if ok && job.replies(tried).matchId != "" && job.saves(tried) then 1 else 0
    ensures forall record :: record in entry.records ==>
              && record.courtUUID == available[0] && record.credentialId == job.creds[c].id
              && record.matchId == job.replies(tried).matchId && record.bookingUUID == job.replies(tried).bookingUUID
    ensures entry.failures == if ok then [] else [Refused(job.creds[c].id)]
  {
    var cred := job.creds[c];
    var court := available[0];
    available' := available[1..];
    var reply := job.replies(tried);
    if reply.BookFailed? {
      return Tally([], [], [Refused(cred.id)]), false, [court] + available';
    }
    var name := NameIn(job.names, court);
    entry, ok := Tally([name], [], []), true;
    if reply.matchId != "" {
      if job.saves(tried) {
        entry := entry.(records := [BookingRecord(court, name, reply.matchId, reply.bookingUUID, cred.id)]);
      }
    }
  }

  /** One turn of the inner loop: the attempt is added to the report. */
  method BookOne(job: Job, result: Tally, ghost all: (Tally, nat), c: nat, ghost used: nat, available: seq<string>,
      ghost booked: nat, tried: nat)
    returns (result': Tally, available': seq<string>, ok: bool)
    requires c < |job.creds| && used < job.creds[c].maxCourts && booked < job.count && booked < |job.candidates|
    requires available == job.candidates[booked..] && OnTrack(job, all, result, c, used, booked, tried)
    ensures available' == job.candidates[if ok then booked + 1 else booked..]
    ensures if ok then OnTrack(job, all, result', c, used + 1, booked + 1, tried + 1)
            else OnTrack(job, all, result', c + 1, 0, booked, tried + 1)
  {
    var entry;
    entry, ok, available' := TryBook(job, c, available, tried);
    AttemptMade(job, all, result, entry, c, used, booked, tried);
    result' := Tally(result.labels + entry.labels, result.records + entry.records, result.failures + entry.failures);
  }

  /** One credential's share of the loop: its attempts are added to the report. */
  method UseCredential(job: Job, result: Tally, ghost all: (Tally, nat), c: nat, available: seq<string>,
      ghost booked: nat, remaining: int, tried: nat)
    returns (result': Tally, available': seq<string>, ghost booked': nat, remaining': int, tried': nat)
    requires c < |job.creds| && booked <= |job.candidates| && available == job.candidates[booked..]
        && remaining == job.count - booked
    requires OnTrack(job, all, result, c, 0, booked, tried)
    ensures booked <= booked' <= |job.candidates| && available' == job.candidates[booked'..]
        && remaining' == job.count - booked'
    ensures OnTrack(job, all, result', c + 1, 0, booked', tried')
  {
    var courtLimit := job.creds[c].maxCourts;
    if courtLimit > remaining {
      courtLimit := remaining;
    }
    result', available', booked', remaining', tried' := result, available, booked, remaining, tried;
    var i := 0;
    while i < courtLimit && |available'| > 0
      invariant 0 <= i <= Max(0, courtLimit) && booked' == booked + i <= |job.candidates|
      invariant available' == job.candidates[booked'..] && remaining' == remaining - i
      invariant OnTrack(job, all, result', c, i, booked', tried')
    {
      var ok;
      result', available', ok := BookOne(job, result', all, c, i, available', booked', tried');
      tried' := tried' + 1;
      if !ok {
        return;
      }
      booked', remaining', i := booked' + 1, remaining' - 1, i + 1;
    }
    NextCredential(job, all, result', c, i, booked', tried');
  }

  /** A whole run's report, with what could not be booked. */
  lemma ReportOfRun(job: Job, tally: Tally, booked: nat)
    requires (tally, booked) == Rest(job, 0, 0, 0, 0)
    ensures ReportOf(job) == if booked < job.count && booked < |job.candidates|
                             then tally.(failures := tally.failures + [Exhausted(booked, job.count)]) else tally
  {
    ThenAssociates(tally, NOTHING, NOTHING);
  }

  /** All credentials in turn, as long as there is demand and a free court. */
  method UseCredentials(job: Job) returns (result: Tally, remaining: int, available: seq<string>)
    ensures 0 <= job.count - remaining <= |job.candidates| && |available| == |job.candidates| - (job.count - remaining)
    ensures ReportOf(job) == if remaining > 0 && |available| > 0
                then result.(failures := result.failures + [Exhausted(job.count - remaining, job.count)]) else result
  {
    result, remaining, available := NOTHING, job.count, job.candidates;
    var tried := 0;
    ghost var booked := 0;
    ghost var all := Rest(job, 0, 0, 0, 0);
    ThenAssociates(all.0, NOTHING, NOTHING);
    var c := 0;
    while c < |job.creds| && remaining != 0 && |available| != 0
      invariant c <= |job.creds| && booked <= |job.candidates|
      invariant available == job.candidates[booked..] && remaining == job.count - booked
      invariant OnTrack(job, all, result, c, 0, booked, tried)
    {
      result, available, booked, remaining, tried :=
        UseCredential(job, result, all, c, available, booked, remaining, tried);
      c := c + 1;
    }
    RunOver(job, all, result, c, booked, tried);
    ReportOfRun(job, result, booked);
  }

  method BookWithRotation(job: Job) returns (result: Tally)
    ensures result == ReportOf(job)
    ensures Accounts(job, result.labels, result.records, result.failures)
  {
    var remaining, available;
    result, remaining, available := UseCredentials(job);
    if remaining > 0 && |available| > 0 {
      result := result.(failures := result.failures + [Exhausted(job.count - remaining, job.count)]);
    }
    ReportAccounts(job);
  }

  // ---------------------------------------------------------------- the whole operation

  datatype BookError = CredentialsUnavailable | CourtsUnavailable | MatchesUnavailable

  datatype Outcome = Failed(error: BookError) | Done(result: BookResult)

  /** What the platform and the database answer before the first court is booked. */
  datatype Lookups = Lookups(creds: Reply<seq<Credential>>, courts: Reply<seq<BookingCourt>>, occupied: Reply<set<int>>)

  /** The run the lookups lead to. */
  ghost predicate JobFor(job: Job, lookups: Lookups, venueCourts: string, autoBookingCourts: string, count: int)
    requires lookups.creds.Answers? && lookups.courts.Answers? && lookups.occupied.Answers?
  {
    var slots := Slots(lookups.courts.value, lookups.occupied.value);
    var venue := NumbersIn(venueCourts);
    && job.creds == lookups.creds.value && job.count == count
    && NamedBy(job.candidates, Chosen(slots, venue, CourtNumbers(autoBookingCourts)), slots)
    && forall uuid :: uuid != "" ==> NameIn(job.names, uuid) == LabelFor(slots, |slots|, uuid)
  }

  method BookFreeCourts(lookups: Lookups, venueCourts: string, autoBookingCourts: string, count: int,
      replies: nat -> BookReply, saves: nat -> bool)
    returns (outcome: Outcome, ghost job: Job)
    ensures outcome.Failed? <==>
              || lookups.creds.Fails?
              || (lookups.creds.value != [] && (lookups.courts.Fails? || lookups.occupied.Fails?))
    ensures outcome.Failed? ==> outcome.error == if lookups.creds.Fails? then CredentialsUnavailable
                                                 else if lookups.courts.Fails? then CourtsUnavailable
                                                 else MatchesUnavailable
    ensures lookups.creds.Answers? && lookups.creds.value == [] ==> outcome == Done(BookResult([], [], [], count))
    ensures outcome.Done? && lookups.creds.value != [] ==>
              && JobFor(job, lookups, venueCourts, autoBookingCourts, count) && job.replies == replies
                   && job.saves == saves
              && var report := ReportOf(job);
                 outcome.result == BookResult(report.labels, report.records,
                       if job.candidates == [] then [NoFreeCourts] else report.failures, count)
    ensures outcome.Done? && lookups.creds.value != [] ==>
              Accounts(job, outcome.result.labels, outcome.result.records,
                  if job.candidates == [] then [] else outcome.result.failures)
  {
    job := Job([], [], 0, map[], replies, saves);
    if lookups.creds.Fails? {
      return Failed(CredentialsUnavailable), job;
    }
    var creds := lookups.creds.value;
    if |creds| == 0 {
      return Done(BookResult([], [], [], count)), job;
    }
    if lookups.courts.Fails? {
      return Failed(CourtsUnavailable), job;
    }
    if lookups.occupied.Fails? {
      return Failed(MatchesUnavailable), job;
    }
    var venue := ParseVenueCourts(venueCourts);
    var orderedPreferred := ParseCourtIDs(autoBookingCourts);
    var slots := ReadCourts(lookups.courts.value, lookups.occupied.value);
    var available := FilterSlots(slots, venue, orderedPreferred);
    var names := LabelCourts(slots);
    var run := Job(creds, available, count, names, replies, saves);
    job := run;
    if |available| == 0 {
      assert ReportOf(job) == NOTHING;
      ReportAccounts(job);
      return Done(BookResult([], [], [NoFreeCourts], count)), job;
    }
    var report := BookWithRotation(run);
    outcome := Done(BookResult(report.labels, report.records, report.failures, count));
  }

  // ---------------------------------------------------------------- the labels of the booked courts

  ghost function NamesOf(uuids: seq<string>, names: map<string, string>): (out: seq<string>)
    ensures |out| == |uuids| && forall i :: 0 <= i < |uuids| ==> out[i] == NameIn(names, uuids[i])
  {
    seq(|uuids|, i requires 0 <= i < |uuids| => NameIn(names, uuids[i]))
  }

  lemma LabelsStep(a: Attempt, next: seq<Attempt>, tried: nat, job: Job)
    requires a.cred < |job.creds| && (a.ok <==> job.replies(tried).Booked?)
    requires TallyOf(next, tried + 1, job).labels == NamesOf(BookedCourts(next), job.names)
    ensures TallyOf([a] + next, tried, job).labels == NamesOf(BookedCourts([a] + next), job.names)
  {
    assert ([a] + next)[1..] == next;
  }

  lemma {:induction false} RunLabels(job: Job, c: nat, used: nat, booked: nat, tried: nat)
    ensures var run := Run(job, c, used, booked, tried);
            TallyOf(run, tried, job).labels == NamesOf(BookedCourts(run), job.names)
    decreases |job.creds| - c, if c < |job.creds| then Max(0, job.creds[c].maxCourts - used) else 0
  {
    if c >= |job.creds| || booked >= job.count || booked >= |job.candidates| {
    } else if used >= job.creds[c].maxCourts {
      RunLabels(job, c + 1, 0, booked, tried);
    } else if job.replies(tried).Booked? {
      RunLabels(job, c, used + 1, booked + 1, tried + 1);
      LabelsStep(Attempt(c, job.candidates[booked], true), Run(job, c, used + 1, booked + 1, tried + 1), tried, job);
    } else {
      RunLabels(job, c + 1, 0, booked, tried + 1);
      LabelsStep(Attempt(c, job.candidates[booked], false), Run(job, c + 1, 0, booked, tried + 1), tried, job);
    }
  }

  lemma {:induction false} LabelOfSlot(slots: seq<Slot>, n: nat, k: nat)
    requires k < n <= |slots| && DistinctUUIDs(slots) && slots[k].uuid != ""
    ensures LabelFor(slots, n, slots[k].uuid) == LabelOf(slots[k])
  {
    if k < n - 1 {
      LabelOfSlot(slots, n - 1, k);
    }
  }

  /** The labels reported are the numbers of the chosen courts, as far as the run came. */
  lemma LabelsAreChosenNumbers(job: Job, lookups: Lookups, venueCourts: string, autoBookingCourts: string, count: int)
    requires lookups.creds.Answers? && lookups.courts.Answers? && lookups.occupied.Answers?
    requires JobFor(job, lookups, venueCourts, autoBookingCourts, count)
    requires DistinctUUIDs(Slots(lookups.courts.value, lookups.occupied.value))
    ensures var slots := Slots(lookups.courts.value, lookups.occupied.value);
            var chosen := Chosen(slots, NumbersIn(venueCourts), CourtNumbers(autoBookingCourts));
            ReportOf(job).labels <= Itoas(chosen)
  {
    var slots := Slots(lookups.courts.value, lookups.occupied.value);
    var venue := NumbersIn(venueCourts);
    var chosen := Chosen(slots, venue, CourtNumbers(autoBookingCourts));
    BooksPrefix(job);
    RunLabels(job, 0, 0, 0, 0);
    SlotsInOrder(lookups.courts.value, lookups.occupied.value);
    forall i | 0 <= i < |chosen| ensures NameIn(job.names, job.candidates[i]) == Itoa(chosen[i]) {
      CandidateLabel(slots, venue, CourtNumbers(autoBookingCourts), job.candidates, i);
      var uuid := job.candidates[i];
    }
  }

  lemma CandidateLabel(slots: seq<Slot>, venue: set<int>, preferred: seq<int>, candidates: seq<string>, i: nat)
    requires EligibleInOrder(slots) && DistinctUUIDs(slots)
    requires NamedBy(candidates, Chosen(slots, venue, preferred), slots) && i < |candidates|
    ensures candidates[i] != "" && LabelFor(slots, |slots|, candidates[i]) == Itoa(Chosen(slots, venue, preferred)[i])
  {
    var number := Chosen(slots, venue, preferred)[i];
    ChosenFromPool(slots, venue, preferred, number);
    var k := SupplierOf(slots, |slots|, number);
    assert slots[k] in slots;
    LabelOfSlot(slots, |slots|, k);
  }

  /** The labels handed to the game are distinct exactly where the chosen numbers are. */
  lemma BookedLabelsDistinct(labels: seq<string>, chosen: seq<int>)
    requires labels <= Itoas(chosen)
    ensures Distinct(labels) <==> Distinct(chosen[..|labels|])
  {
    var front := chosen[..|labels|];
    forall i | 0 <= i < |labels| ensures labels[i] == Itoa(front[i]) {
      assert labels[i] == Itoas(chosen)[i];
    }
    TextsDistinctIff(labels, front);
  }

  lemma TextsDistinctIff(labels: seq<string>, numbers: seq<int>)
    requires |labels| == |numbers| && forall i :: 0 <= i < |labels| ==> labels[i] == Itoa(numbers[i])
    ensures Distinct(labels) <==> Distinct(numbers)
  {
    forall i, j | 0 <= i < j < |labels| ensures labels[i] == labels[j] <==> numbers[i] == numbers[j] {
      SameTextIff(numbers[i], numbers[j]);
    }
  }
}
