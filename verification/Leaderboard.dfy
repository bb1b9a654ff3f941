/** The daily leaderboard: each poll walks the days after the group's marker, oldest first, posts a
    day once its results are settled, and stops at the first day that is not.

    Days are numbered in the group's own calendar and the stored marker is taken to read back as the
    day it was written for.  Every answer of the database and of Telegram is an input. */
module Leaderboard {

  import opened Basics

  const LOOKBACK_DAYS := 5
  const HOUR := 3600
  const PENDING_GRACE := 49 * HOUR
  const POST_GATE := 24 * HOUR

  datatype Status = Pending | Approved | AutoApproved | Rejected | Canceled

  datatype ResultRow = ResultRow(status: Status, submittedAt: nat)

  datatype Results = ResultsFail | Rows(rows: seq<ResultRow>)
  datatype Games = GamesFail | Starts(starts: seq<nat>)
  datatype Standings = StandingsFail | Entries(count: nat)

  /** Everything one pass over one day reads or attempts. */
  datatype DayInput = DayInput(now: nat, results: Results, games: Games, standings: Standings, sendOk: bool,
      markOk: bool)

  datatype Poll = Poll(notificationsEnabled: bool, force: bool, today: int, input: int -> DayInput)

  /** The stored marker, and the days posted so far, in order. */
  datatype GroupState = GroupState(marker: Option<int>, posted: seq<int>)

  // ---------------------------------------------------------------- one day

  predicate IsApproved(r: ResultRow) {
    r.status.Approved? || r.status.AutoApproved?
  }

  predicate IsFreshPending(r: ResultRow, now: nat) {
    r.status.Pending? && now < r.submittedAt + PENDING_GRACE
  }

  ghost predicate HasApproved(rows: seq<ResultRow>) {
    exists r :: r in rows && IsApproved(r)
  }

  ghost predicate HasFreshPending(rows: seq<ResultRow>, now: nat) {
    exists r :: r in rows && IsFreshPending(r, now)
  }

  /** A full day has gone by since every game of the day started. */
  ghost predicate GateOpen(starts: seq<nat>, now: nat) {
    forall s :: s in starts ==> s + POST_GATE <= now
  }

  datatype DayOutcome = Waits | Posts | Skips

  /** What becomes of a day, whatever fails along the way. */
  ghost function OutcomeOf(day: DayInput, force: bool): DayOutcome {
    if day.results.ResultsFail? then Waits
    else if HasApproved(day.results.rows) then
      if day.games.Starts? && (force || GateOpen(day.games.starts, day.now))
         && day.standings.Entries? && day.standings.count > 0 && day.sendOk
      then Posts else Waits
    else if !force && HasFreshPending(day.results.rows, day.now) then Waits
    else Skips
  }

  /** A day to be posted: a result was approved, a day (86400 seconds) has gone by since each of its games
      started unless the poll is forced, somebody is ranked, and the message went out. */
  ghost predicate Postable(day: DayInput, force: bool) {
    && day.results.Rows? && (exists r :: r in day.results.rows && (r.status.Approved? || r.status.AutoApproved?))
    && day.games.Starts? && (force || forall s :: s in day.games.starts ==> s + 86400 <= day.now)
    && day.standings.Entries? && day.standings.count > 0 && day.sendOk
  }

  /** A day to be passed in silence: no result was approved, and those still pending have been so for 49 hours
      (176400 seconds) unless the poll is forced. */
  ghost predicate Passable(day: DayInput, force: bool) {
    && day.results.Rows? && (forall r :: r in day.results.rows ==> !r.status.Approved? && !r.status.AutoApproved?)
    && (force || forall r :: r in day.results.rows && r.status.Pending? ==> r.submittedAt + 176400 <= day.now)
  }

  lemma OutcomeIs(day: DayInput, force: bool)
    ensures OutcomeOf(day, force) == Posts <==> Postable(day, force)
    ensures OutcomeOf(day, force) == Skips <==> Passable(day, force)
  {
    if day.results.Rows? {
      var rows := day.results.rows;
      if HasApproved(rows) {
        var r :| r in rows && IsApproved(r);
      }
      if HasFreshPending(rows, day.now) {
        var r :| r in rows && IsFreshPending(r, day.now);
      }
    }
  }

  // ---------------------------------------------------------------- one poll

  function StartDay(marker: Option<int>, today: int): int {
    var lookbackStart := today - LOOKBACK_DAYS;
    if marker.Some? && marker.value + 1 >= lookbackStart then marker.value + 1 else lookbackStart
  }

  ghost function AfterDay(st: GroupState, day: int, input: DayInput, force: bool): GroupState {
    GroupState(if input.markOk then Some(day) else st.marker,
               if OutcomeOf(input, force) == Posts then st.posted + [day] else st.posted)
  }

  /** The days from `day` on, up to the first that waits. */
  ghost function Sweep(st: GroupState, day: int, poll: Poll): GroupState
    decreases poll.today - day
  {
    if day >= poll.today || OutcomeOf(poll.input(day), poll.force) == Waits then st
    else Sweep(AfterDay(st, day, poll.input(day), poll.force), day + 1, poll)
  }

  ghost function AfterPoll(st: GroupState, poll: Poll): GroupState {
    if !poll.notificationsEnabled then st else Sweep(st, StartDay(st.marker, poll.today), poll)
  }

  ghost function AfterPolls(st: GroupState, polls: seq<Poll>): GroupState {
    if polls == [] then st else AfterPoll(AfterPolls(st, polls[..|polls| - 1]), polls[|polls| - 1])
  }

  lemma SweepNext(st: GroupState, day: int, poll: Poll)
    requires day < poll.today
    ensures Sweep(st, day, poll) == if OutcomeOf(poll.input(day), poll.force) == Waits then st
                                    else Sweep(AfterDay(st, day, poll.input(day), poll.force), day + 1, poll)
  {
  }

  class PostLeaderboardJob {
    var marker: Option<int>
    var posted: seq<int>

    constructor (marker: Option<int>)
      ensures State() == GroupState(marker, [])
    {
      this.marker, this.posted := marker, [];
    }

    ghost function State(): GroupState
      reads this
    {
      GroupState(marker, posted)
    }

    /** Whether some game of the day started less than a day ago. */
    static method GateClosed(starts: seq<nat>, now: nat) returns (closed: bool)
      ensures closed <==> !GateOpen(starts, now)
    {
      if |starts| == 0 {
        return false;
      }
      var lastStart := 0;
      for i := 0 to |starts|
        invariant forall k :: 0 <= k < i ==> starts[k] <= lastStart
        invariant i > 0 ==> lastStart in starts
      {
        if starts[i] > lastStart || i == 0 {
          lastStart := starts[i];
        }
      }
      closed := now < lastStart + POST_GATE;
    }

    static method Tally(rows: seq<ResultRow>, now: nat) returns (approved: nat, pendingBlocking: nat)
      ensures approved > 0 <==> HasApproved(rows)
      ensures pendingBlocking > 0 <==> HasFreshPending(rows, now)
    {
      approved, pendingBlocking := 0, 0;
      for i := 0 to |rows|
        invariant approved > 0 <==> exists k :: 0 <= k < i && IsApproved(rows[k])
        invariant pendingBlocking > 0 <==> exists k :: 0 <= k < i && IsFreshPending(rows[k], now)
      {
        match rows[i].status {
          case Approved => approved := approved + 1;
          case AutoApproved => approved := approved + 1;
          case Pending =>
            if now < rows[i].submittedAt + PENDING_GRACE {
              pendingBlocking := pendingBlocking + 1;
            }
          case Rejected =>
          case Canceled =>
        }
      }
    }

    /** Returns whether the walk goes on to the next day. */
    method ProcessCandidateDay(day: int, input: DayInput, force: bool) returns (advance: bool)
      modifies this
      ensures advance <==> OutcomeOf(input, force) != Waits
      ensures State() == if advance then AfterDay(old(State()), day, input, force) else old(State())
      ensures posted == if Postable(input, force) then old(posted) + [day] else old(posted)
      ensures advance <==> Postable(input, force) || Passable(input, force)
      ensures marker == if advance && input.markOk then Some(day) else old(marker)
    {
      OutcomeIs(input, force);
      if input.results.ResultsFail? {
        return false;
      }
      var approved, pendingBlocking := Tally(input.results.rows, input.now);
      if approved > 0 {
        if input.games.GamesFail? {
          return false;
        }
        if !force && |input.games.starts| > 0 {
          var closed := GateClosed(input.games.starts, input.now);
          if closed {
            return false;
          }
        }
        if input.standings.StandingsFail? || input.standings.count == 0 {
          return false;
        }
        if !input.sendOk {
          return false;
        }
        posted := posted + [day];
        if input.markOk {
          marker := Some(day);
        }
        return true;
      }
      if !force && pendingBlocking > 0 {
        return false;
      }
      if input.markOk {
        marker := Some(day);
      }
      advance := true;
    }

    method TakeDay(day: int, poll: Poll) returns (advance: bool)
      modifies this
      ensures advance <==> OutcomeOf(poll.input(day), poll.force) != Waits
      ensures State() == if advance then AfterDay(old(State()), day, poll.input(day), poll.force) else old(State())
    {
      advance := ProcessCandidateDay(day, poll.input(day), poll.force);
    }

    method ProcessGroup(poll: Poll)
      modifies this
      ensures State() == AfterPoll(old(State()), poll)
    {
      if !poll.notificationsEnabled {
        return;
      }
      var day := StartDay(marker, poll.today);
      ghost var end := AfterPoll(State(), poll);
      while day <= poll.today - 1
        invariant Sweep(State(), day, poll) == end
        decreases poll.today - day
      {
        SweepNext(State(), day, poll);
        var advance := TakeDay(day, poll);
        if !advance {
          return;
        }
        day := day + 1;
      }
    }
  }

  // ---------------------------------------------------------------- marker and order

  /** The marker is at or past `day`. */
  predicate Reached(marker: Option<int>, day: int) {
    marker.Some? && day <= marker.value
  }

  ghost predicate NotBehind(before: Option<int>, after: Option<int>) {
    before.Some? ==> Reached(after, before.value)
  }

  /** The days one walk from `day` on posts. */
  ghost function PostedFrom(day: int, poll: Poll): seq<int>
    decreases poll.today - day
  {
    if day >= poll.today || OutcomeOf(poll.input(day), poll.force) == Waits then []
    else (if OutcomeOf(poll.input(day), poll.force) == Posts then [day] else []) + PostedFrom(day + 1, poll)
  }

  /** A walk appends to the list of posted days. */
  lemma {:induction false} SweepPosts(st: GroupState, day: int, poll: Poll)
    ensures Sweep(st, day, poll).posted == st.posted + PostedFrom(day, poll)
    decreases poll.today - day
  {
    if !(day >= poll.today || OutcomeOf(poll.input(day), poll.force) == Waits) {
      SweepPosts(AfterDay(st, day, poll.input(day), poll.force), day + 1, poll);
    }
  }

  /** The days one walk posts are in order and not before where the walk began. */
  lemma {:induction false} WalkOrder(day: int, poll: Poll)
    ensures StrictlyIncreasing(PostedFrom(day, poll))
    ensures forall d :: d in PostedFrom(day, poll) ==> day <= d < poll.today
    decreases poll.today - day
  {
    if !(day >= poll.today || OutcomeOf(poll.input(day), poll.force) == Waits) {
      WalkOrder(day + 1, poll);
      var later := PostedFrom(day + 1, poll);
      forall i | 0 <= i < |later| ensures day < later[i] {
        assert later[i] in later;
      }
    }
  }

  /** A walk that starts past the marker moves the marker only forward. */
  lemma {:induction false} SweepForward(st: GroupState, day: int, poll: Poll)
    requires st.marker.Some? ==> st.marker.value < day
    ensures NotBehind(st.marker, Sweep(st, day, poll).marker)
    decreases poll.today - day
  {
    if !(day >= poll.today || OutcomeOf(poll.input(day), poll.force) == Waits) {
      SweepForward(AfterDay(st, day, poll.input(day), poll.force), day + 1, poll);
    }
  }

  lemma StartsPastMarker(marker: Option<int>, today: int)
    ensures marker.Some? ==> marker.value < StartDay(marker, today)
  {
  }

  /** The marker never moves backwards, whatever fails and however the calendar day moves. */
  lemma {:induction false} MarkerNeverMovesBack(st: GroupState, polls: seq<Poll>)
    ensures NotBehind(st.marker, AfterPolls(st, polls).marker)
  {
    if polls != [] {
      var n := |polls| - 1;
      MarkerNeverMovesBack(st, polls[..n]);
      var mid := AfterPolls(st, polls[..n]);
      StartsPastMarker(mid.marker, polls[n].today);
      SweepForward(mid, StartDay(mid.marker, polls[n].today), polls[n]);
    }
  }

  /** Every posted day is covered by the marker. */
  ghost predicate Covered(st: GroupState) {
    forall d :: d in st.posted ==> Reached(st.marker, d)
  }

  /** All marker writes of a poll succeed. */
  ghost predicate MarkerWritesSucceed(poll: Poll) {
    forall d :: poll.input(d).markOk
  }

  lemma {:induction false} SweepCovers(st: GroupState, day: int, poll: Poll)
    requires Covered(st) && MarkerWritesSucceed(poll) && (st.marker.Some? ==> st.marker.value < day)
    ensures Covered(Sweep(st, day, poll))
    decreases poll.today - day
  {
    if !(day >= poll.today || OutcomeOf(poll.input(day), poll.force) == Waits) {
      SweepCovers(AfterDay(st, day, poll.input(day), poll.force), day + 1, poll);
    }
  }

  /** Over any sequence of polls with send and query failures, as long as marker writes succeed the
      days are posted oldest first and no day is posted twice. */
  lemma {:induction false} PostedOldestFirstOnce(polls: seq<Poll>, marker: Option<int>)
    requires forall p :: p in polls ==> MarkerWritesSucceed(p)
    ensures var st := AfterPolls(GroupState(marker, []), polls); Covered(st) && StrictlyIncreasing(st.posted)
  {
    if polls != [] {
      var n := |polls| - 1;
      PostedOldestFirstOnce(polls[..n], marker);
      var mid := AfterPolls(GroupState(marker, []), polls[..n]);
      var poll := polls[n];
      assert poll in polls;
      var start := StartDay(mid.marker, poll.today);
      StartsPastMarker(mid.marker, poll.today);
      SweepPosts(mid, start, poll);
      WalkOrder(start, poll);
      SweepCovers(mid, start, poll);
      forall i, j | 0 <= i < |mid.posted| && 0 <= j < |PostedFrom(start, poll)|
        ensures mid.posted[i] < PostedFrom(start, poll)[j]
      {
        assert mid.posted[i] in mid.posted && PostedFrom(start, poll)[j] in PostedFrom(start, poll);
      }
      IncreasingConcat(mid.posted, PostedFrom(start, poll));
    }
  }

  // ---------------------------------------------------------------- when a day is posted twice

  /** A poll on day `today` that skips every day before `day`, posts `day` and stops there. */
  ghost function PollPosting(day: int, today: int): Poll {
    Poll(true, false, today, (d: int) =>
      if d < day then DayInput(0, Rows([]), Starts([]), Entries(0), true, true)
      else if d == day then DayInput(POST_GATE, Rows([ResultRow(Approved, 0)]), Starts([0]), Entries(1), true, true)
      else DayInput(0, ResultsFail, Starts([]), Entries(0), true, true))
  }

  lemma PollPostingOutcomes(day: int, today: int, d: int)
    ensures OutcomeOf(PollPosting(day, today).input(d), false) ==
              if d < day then Skips else if d == day then Posts else Waits
  {
    assert ResultRow(Approved, 0) in [ResultRow(Approved, 0)];
  }

  lemma {:induction false} PollPostingPosts(from: int, day: int, today: int)
    requires from <= day < today
    ensures PostedFrom(from, PollPosting(day, today)) == [day]
    decreases day - from
  {
    PollPostingOutcomes(day, today, from);
    PollPostingOutcomes(day, today, from + 1);
    if from < day {
      PollPostingPosts(from + 1, day, today);
    } else {
      assert PostedFrom(day + 1, PollPosting(day, today)) == [];
    }
  }

  /** A poll posts `day` once more. */
  ghost predicate PostsAgain(st: GroupState, poll: Poll, day: int) {
    multiset(AfterPoll(st, poll).posted)[day] > multiset(st.posted)[day]
  }

  lemma PostsAgainIff(st: GroupState, poll: Poll, day: int)
    ensures PostsAgain(st, poll, day)
            <==> poll.notificationsEnabled && day in PostedFrom(StartDay(st.marker, poll.today), poll)
  {
    var added := PostedFrom(StartDay(st.marker, poll.today), poll);
    SweepPosts(st, StartDay(st.marker, poll.today), poll);
    assert multiset(st.posted + added) == multiset(st.posted) + multiset(added);
    assert day in added <==> day in multiset(added);
  }

  /** On calendar day `today` a day can be posted (again) exactly when it lies in the look-back window
      and the marker does not cover it: when the marker write after its post failed and no later
      day's write made up for it. */
  lemma RepostPossibleIff(st: GroupState, day: int, today: int)
    ensures (exists poll: Poll :: poll.today == today && PostsAgain(st, poll, day))
            <==> !Reached(st.marker, day) && today - 5 <= day < today
  {
    var start := StartDay(st.marker, today);
    if !Reached(st.marker, day) && today - LOOKBACK_DAYS <= day < today {
      PollPostingPosts(start, day, today);
      PostsAgainIff(st, PollPosting(day, today), day);
    }
    forall poll: Poll | poll.today == today && PostsAgain(st, poll, day)
      ensures !Reached(st.marker, day) && today - LOOKBACK_DAYS <= day < today
    {
      PostsAgainIff(st, poll, day);
      WalkOrder(start, poll);
    }
  }

  // ---------------------------------------------------------------- what is posted when

  lemma {:induction false} WalkPostsPostable(day: int, poll: Poll, d: int)
    requires d in PostedFrom(day, poll)
    ensures Postable(poll.input(d), poll.force)
    decreases poll.today - day
  {
    OutcomeIs(poll.input(d), poll.force);
    WalkOrder(day + 1, poll);
    if d != day {
      WalkPostsPostable(day + 1, poll, d);
    }
  }

  /** The poll is one that was to post the day: it saw the day in its last five, fit to be posted. */
  ghost predicate PostsRightly(poll: Poll, d: int) {
    poll.notificationsEnabled && poll.today - 5 <= d < poll.today && Postable(poll.input(d), poll.force)
  }

  /** Over any sequence of polls with failures, every day posted was posted by a poll that was to post it; no
      unforced one posts a day within a day of one of its games. */
  lemma {:induction false} PostedRightly(st: GroupState, polls: seq<Poll>, d: int) returns (n: nat)
    requires d !in st.posted && d in AfterPolls(st, polls).posted
    ensures n < |polls| && PostsRightly(polls[n], d)
  {
    var last := |polls| - 1;
    var mid := AfterPolls(st, polls[..last]);
    if d in mid.posted {
      n := PostedRightly(st, polls[..last], d);
    } else {
      var start := StartDay(mid.marker, polls[last].today);
      n := last;
      SweepPosts(mid, start, polls[last]);
      WalkOrder(start, polls[last]);
      WalkPostsPostable(start, polls[last], d);
    }
  }

  lemma {:induction false} WalkReaches(day: int, poll: Poll, d: int)
    requires day <= d < poll.today && Postable(poll.input(d), poll.force)
    requires forall e :: day <= e < d ==> OutcomeOf(poll.input(e), poll.force) != Waits
    ensures d in PostedFrom(day, poll)
    decreases poll.today - day
  {
    OutcomeIs(poll.input(d), poll.force);
    if day < d {
      WalkReaches(day + 1, poll, d);
    }
  }

  /** A poll posts every day past the marker, of the last five, that is fit to be posted and has no day before
      it still waiting. */
  lemma PollPosts(st: GroupState, poll: Poll, d: int)
    requires PostsRightly(poll, d) && !Reached(st.marker, d)
    requires forall e :: poll.today - 5 <= e < d && !Reached(st.marker, e) ==>
               Postable(poll.input(e), poll.force) || Passable(poll.input(e), poll.force)
    ensures PostsAgain(st, poll, d)
  {
    var start := StartDay(st.marker, poll.today);
    forall e | start <= e < d ensures OutcomeOf(poll.input(e), poll.force) != Waits {
      assert !Reached(st.marker, e);
      OutcomeIs(poll.input(e), poll.force);
    }
    WalkReaches(start, poll, d);
    PostsAgainIff(st, poll, d);
  }

  // ---------------------------------------------------------------- no day is passed unsettled

  lemma {:induction false} SweepPasses(st: GroupState, day: int, poll: Poll, d: int)
    requires day <= d && !Reached(st.marker, d) && Reached(Sweep(st, day, poll).marker, d)
    ensures d < poll.today && OutcomeOf(poll.input(d), poll.force) != Waits
    ensures OutcomeOf(poll.input(d), poll.force) == Posts ==> d in PostedFrom(day, poll)
    decreases poll.today - day
  {
    if d != day {
      SweepPasses(AfterDay(st, day, poll.input(day), poll.force), day + 1, poll, d);
    }
  }

  /** The day is posted by this poll, which starts from `marker`. */
  ghost predicate PostedBy(marker: Option<int>, poll: Poll, d: int) {
    poll.notificationsEnabled && d in PostedFrom(StartDay(marker, poll.today), poll)
  }

  /** The day has neither an approved nor a fresh pending result. */
  ghost predicate NothingToPost(day: DayInput) {
    day.results.Rows? && !HasApproved(day.results.rows) && !HasFreshPending(day.results.rows, day.now)
  }

  /** When an unforced poll moves the marker past a day inside the look-back window, that day was
      posted by this very poll or had nothing to post. */
  lemma DayPassedOnce(st: GroupState, poll: Poll, d: int)
    requires !poll.force && d >= poll.today - LOOKBACK_DAYS
    requires !Reached(st.marker, d) && Reached(AfterPoll(st, poll).marker, d)
    ensures d < poll.today && (PostedBy(st.marker, poll, d) || NothingToPost(poll.input(d)))
  {
    SweepPasses(st, StartDay(st.marker, poll.today), poll, d);
  }

  /** The marker before the n-th poll of a sequence. */
  ghost function MarkerBefore(st: GroupState, polls: seq<Poll>, n: nat): Option<int>
    requires n <= |polls|
  {
    AfterPolls(st, polls[..n]).marker
  }

  /** The n-th poll is the one that moves the marker to the day or past it. */
  ghost predicate PassedBy(st: GroupState, polls: seq<Poll>, n: nat, d: int)
    requires n < |polls|
  {
    !Reached(MarkerBefore(st, polls, n), d) && Reached(MarkerBefore(st, polls, n + 1), d)
  }

  lemma {:induction false} SomePollPasses(st: GroupState, polls: seq<Poll>, d: int) returns (n: nat)
    requires !Reached(st.marker, d) && Reached(AfterPolls(st, polls).marker, d)
    ensures n < |polls| && PassedBy(st, polls, n, d)
  {
    var last := |polls| - 1;
    assert polls[..last + 1] == polls;
    if Reached(MarkerBefore(st, polls, last), d) {
      n := SomePollPasses(st, polls[..last], d);
      assert polls[..last][..n] == polls[..n] && polls[..last][..n + 1] == polls[..n + 1];
    } else {
      n := last;
    }
  }

  /** Over any sequence of polls with failures, a day that the marker passes is passed by one poll of the
      sequence, which, unless it was forced or the day had fallen out of its look-back window, posted the
      day or found nothing to post. */
  lemma NoDayPassedUnsettled(st: GroupState, polls: seq<Poll>, d: int) returns (n: nat)
    requires !Reached(st.marker, d) && Reached(AfterPolls(st, polls).marker, d)
    ensures n < |polls| && PassedBy(st, polls, n, d)
    ensures var poll := polls[n];
            || poll.force || d < poll.today - LOOKBACK_DAYS
            || (d < poll.today && (PostedBy(MarkerBefore(st, polls, n), poll, d) || NothingToPost(poll.input(d))))
  {
    n := SomePollPasses(st, polls, d);
    var poll := polls[n];
    assert polls[..n + 1][..n] == polls[..n] && polls[..n + 1][n] == poll;
    if !poll.force && d >= poll.today - LOOKBACK_DAYS {
      DayPassedOnce(AfterPolls(st, polls[..n]), poll, d);
    }
  }

  /** What the database answers about the day, as far as its results go. */
  ghost predicate ReadsAs(day: DayInput, rows: seq<ResultRow>, now: nat) {
    day.results == Rows(rows) && day.now == now
  }

  /** A fresh pending result does not always hold its day back: some answers let an unforced walk pass
      the day exactly when another result of the day is approved. */
  lemma FreshPendingPassableIff(rows: seq<ResultRow>, now: nat)
    requires HasFreshPending(rows, now)
    ensures (exists day: DayInput :: ReadsAs(day, rows, now) && OutcomeOf(day, false) != Waits) <==> HasApproved(rows)
  {
    if HasApproved(rows) {
      var day := DayInput(now, Rows(rows), Starts([]), Entries(1), true, true);
      assert ReadsAs(day, rows, now) && OutcomeOf(day, false) == Posts;
    }
  }

  /** Such a day: one result approved, one still pending within its grace period. */
  lemma FreshPendingCanBePassed()
    ensures var day := DayInput(POST_GATE, Rows([ResultRow(Approved, 0), ResultRow(Pending, 0)]), Starts([0]),
          Entries(2), true, true);
            HasFreshPending(day.results.rows, day.now) && OutcomeOf(day, false) == Posts
  {
    var rows := [ResultRow(Approved, 0), ResultRow(Pending, 0)];
    assert rows[0] in rows && rows[1] in rows;
  }
}
