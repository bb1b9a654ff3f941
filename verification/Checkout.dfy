/** Booking one court through the checkout flow of the booking platform: reserve, pay, attach a match
    record, report, track, with a session that can expire at any point. */
module Checkout {

  /** What the platform answers to one request, and what the request did on the server. */
  datatype Reply =
    | NoResponse(reserved: bool)
    | Response(status: int, html: bool, decodes: bool, success: bool, uuid: string, matchId: string, challenge: bool,
               loginError: bool, setsCookie: bool, dropsCookie: bool, reserved: bool)

  /** A refusal for lack of a session: HTTP 401, or the login page in place of an answer. */
  predicate Refusal(r: Reply) {
    r.Response? && (r.status == 401 || (r.status == 200 && r.html))
  }

  /** The answer that grants a reservation, and the answer that settles its payment. */
  predicate Granted(r: Reply) {
    r.Response? && r.status == 200 && !r.html && r.decodes && r.success
  }

  predicate Settled(r: Reply) {
    r.Response? && r.status == 200 && !r.html
  }

  /** The answer to a login that opens a session, given whether the jar held a session cookie before. */
  predicate LetsIn(r: Reply, cookie: bool) {
    r.Response? && r.status == 200 && !(r.decodes && r.loginError) && (r.setsCookie || (cookie && !r.dropsCookie))
  }

  /** A rejection for lack of a session leaves nothing behind, and a reported success is one. */
  predicate Trustworthy(r: Reply) {
    r.Response? ==>
      && (Refusal(r) ==> !r.reserved)
      && (r.status == 200 && !r.html && r.decodes && r.success ==> r.reserved)
  }

  datatype Error = Unauthorized | Other

  datatype Outcome = Booked(uuid: string, matchId: string) | Failed(error: Error)

  datatype Request = LoginRequest | Reserve | Pay(uuid: string) | Attach(uuid: string) | Report | Track

  /** The answer to the n-th request the client ever sends. */
  type Script = nat -> Reply

  /** The requests one attempt makes, by how it ends.  An attempt that ends unauthorized has sent the
      reservation request and nothing after it. */
  ghost predicate AttemptShape(requests: seq<Request>, outcome: Outcome) {
    match outcome
    case Booked(uuid, _) => requests == [Reserve, Pay(uuid), Attach(uuid), Report, Track]
    case Failed(Unauthorized) => requests == [Reserve]
    case Failed(Other) => requests == [Reserve] || exists uuid :: requests == [Reserve, Pay(uuid)]
  }

  ghost predicate LoginShape(requests: seq<Request>) {
    requests == [] || requests == [LoginRequest]
  }

  class EversportsClient {
    const script: Script
    var loggedIn: bool
    /** Whether the cookie jar holds a live session cookie. */
    var cookie: bool
    /** The requests sent so far, and the slots the server reserved, in order. */
    var sent: seq<Request>
    var reservations: seq<string>

    constructor (script: Script)
      ensures this.script == script && !loggedIn && !cookie && sent == [] && reservations == []
    {
      this.script := script;
      loggedIn, cookie, sent, reservations := false, false, [], [];
    }

    method Send(req: Request) returns (r: Reply)
      modifies this`sent, this`cookie, this`reservations
      ensures r == script(|old(sent)|)
      ensures sent == old(sent) + [req]
      ensures cookie == if r.Response? then r.setsCookie || (old(cookie) && !r.dropsCookie) else old(cookie)
      ensures reservations ==
                if req == Reserve && r.reserved then old(reservations) + [if r.Response? then r.uuid else ""]
                              else old(reservations)
    {
      r := script(|sent|);
      sent := sent + [req];
      if r.Response? {
        cookie := r.setsCookie || (cookie && !r.dropsCookie);
      }
      if req == Reserve && r.reserved {
        reservations := reservations + [if r.Response? then r.uuid else ""];
      }
    }

    // -------------------------------------------------------------- the session

    /** A login counts only if no error came back and the jar ends up with a session cookie. */
    method Login() returns (ok: bool)
      modifies this
      ensures sent == old(sent) + [LoginRequest] && reservations == old(reservations)
      ensures ok ==> loggedIn && cookie
      ensures !ok ==> loggedIn == old(loggedIn)
      ensures ok <==> var r := script(|old(sent)|);
                      && r.Response? && r.status == 200 && !(r.decodes && r.loginError)
                      && (r.setsCookie || (old(cookie) && !r.dropsCookie))
    {
      var r := Send(LoginRequest);
      if r.NoResponse? || r.status != 200 {
        return false;
      }
      if r.decodes && r.loginError {
        return false;
      }
      if !cookie {
        return false;
      }
      loggedIn := true;
      ok := true;
    }

    method EnsureLoggedIn() returns (ok: bool)
      modifies this
      ensures reservations == old(reservations)
      ensures ok ==> loggedIn && cookie
      ensures old(loggedIn) && old(cookie) ==> ok && sent == old(sent)
      ensures !(old(loggedIn) && old(cookie)) ==> sent == old(sent) + [LoginRequest]
      ensures ok <==> (old(loggedIn) && old(cookie)) || LetsIn(script(|old(sent)|), old(cookie))
    {
      if loggedIn && cookie {
        return true;
      }
      ok := Login();
    }

    method InvalidateSession()
      modifies this`loggedIn, this`cookie
      ensures !loggedIn && !cookie
    {
      loggedIn, cookie := false, false;
    }

    // -------------------------------------------------------------- one attempt

    method AttachMatch(uuid: string) returns (matchId: string)
      modifies this`sent, this`cookie, this`reservations
      ensures sent == old(sent) + [Attach(uuid)] && reservations == old(reservations)
      ensures var r := script(|old(sent)|);
              matchId == if r.Response? && !r.challenge && r.decodes then r.matchId else ""
    {
      var r := Send(Attach(uuid));
      if r.NoResponse? || r.challenge || !r.decodes {
        return "";
      }
      matchId := r.matchId;
    }

    /** One pass through the flow.  Only the answer to the reservation request can end it as
        unauthorized; the same answer to a later request is an ordinary failure. */
    method Attempt() returns (outcome: Outcome, ghost requests: seq<Request>)
      modifies this`sent, this`cookie, this`reservations
      ensures sent == old(sent) + requests && AttemptShape(requests, outcome)
      // Which answers end the attempt how: those to its first request and to the one after it.
      ensures outcome == Failed(Unauthorized) <==>
                var r := script(|old(sent)|); r.Response? && (r.status == 401 || (r.status == 200 && r.html))
      ensures outcome.Booked? <==>
                var r, p := script(|old(sent)|), script(|old(sent)| + 1);
                && r.Response? && r.status == 200 && !r.html && r.decodes && r.success
                && p.Response? && p.status == 200 && !p.html
      ensures outcome.Booked? ==>
                var r, m := script(|old(sent)|), script(|old(sent)| + 2);
                && outcome.uuid == r.uuid
                && outcome.matchId == if m.Response? && !m.challenge && m.decodes then m.matchId else ""
      ensures old(reservations) <= reservations && |reservations| <= |old(reservations)| + 1
      ensures Trustworthy(script(|old(sent)|)) && outcome == Failed(Unauthorized) ==> reservations == old(reservations)
      ensures Trustworthy(script(|old(sent)|)) && outcome.Booked? ==> reservations == old(reservations) + [outcome.uuid]
    {
      requests := [Reserve];
      var r := Send(Reserve);
      if r.NoResponse? {
        return Failed(Other), requests;
      }
      if r.status == 401 {
        return Failed(Unauthorized), requests;
      }
      if r.status != 200 {
        return Failed(Other), requests;
      }
      if r.html {
        return Failed(Unauthorized), requests;
      }
      if !r.decodes || !r.success {
        return Failed(Other), requests;
      }
      requests := [Reserve, Pay(r.uuid)];
      var p := Send(Pay(r.uuid));
      if p.NoResponse? || p.status != 200 || p.html {
        return Failed(Other), requests;
      }
      var matchId := AttachMatch(r.uuid);
      var _ := Send(Report);
      var _ := Send(Track);
      requests := [Reserve, Pay(r.uuid), Attach(r.uuid), Report, Track];
      outcome := Booked(r.uuid, matchId);
    }

    // -------------------------------------------------------------- the whole call

    /** A second attempt, over a fresh session. */
    method TryAgain() returns (outcome: Outcome, ghost login: seq<Request>, ghost tried: seq<Request>)
      requires forall n :: Trustworthy(script(n))
      modifies this
      ensures sent == old(sent) + login + tried && login == [LoginRequest]
      ensures tried != [] <==> LetsIn(script(|old(sent)|), false)
      ensures tried != [] ==> AttemptShape(tried, outcome)
      ensures old(reservations) <= reservations && |reservations| <= |old(reservations)| + 1
      ensures outcome.Booked? ==> reservations == old(reservations) + [outcome.uuid]
      ensures outcome == Failed(Unauthorized) || tried == [] ==> reservations == old(reservations)
      ensures outcome.Booked? <==> tried != [] && Granted(script(|old(sent)| + 1)) && Settled(script(|old(sent)| + 2))
      ensures outcome.Booked? ==> outcome.uuid == script(|old(sent)| + 1).uuid
      ensures outcome == Failed(Unauthorized) <==> tried != [] && Refusal(script(|old(sent)| + 1))
    {
      login, tried := [LoginRequest], [];
      InvalidateSession();
      var ok := EnsureLoggedIn();
      if !ok {
        return Failed(Other), login, tried;
      }
      outcome, tried := Attempt();
    }

    /** At most one reservation per call: a second attempt is made only after the first was refused
        for lack of a session, that is before anything was reserved, and only over a fresh session. */
    method CreateBooking() returns (outcome: Outcome, ghost login1: seq<Request>, ghost try1: seq<Request>,
        ghost login2: seq<Request>, ghost try2: seq<Request>)
      requires forall n :: Trustworthy(script(n))
      modifies this
      ensures sent == old(sent) + login1 + try1 + login2 + try2
      ensures LoginShape(login1) && LoginShape(login2)
      ensures old(reservations) <= reservations && |reservations| <= |old(reservations)| + 1
      ensures outcome.Booked? ==> reservations == old(reservations) + [outcome.uuid]
      ensures outcome == Failed(Unauthorized) ==> reservations == old(reservations)
      ensures outcome.Booked? ==> AttemptShape(if try2 == [] then try1 else try2, outcome)
      ensures try1 == [] ==> try2 == [] && reservations == old(reservations)
      // Which requests are made: a login unless there is a live session, an attempt once there is one, and after
      // a refused reservation, and only then, a login and a second attempt.
      ensures login1 == if old(loggedIn) && old(cookie) then [] else [LoginRequest]
      ensures try1 != [] <==> (old(loggedIn) && old(cookie)) || LetsIn(script(|old(sent)|), old(cookie))
      ensures login2 == if try1 != [] && Refusal(script(|old(sent)| + |login1|)) then [LoginRequest] else []
      ensures try2 != [] <==> login2 != [] && LetsIn(script(|old(sent)| + |login1| + 1), false)
      ensures try2 != [] ==> try1 == [Reserve]
      // Which answers end the call with a booking: those to the reservation and the payment of its last attempt.
      ensures var last := |old(sent)| + |login1| + (if try2 == [] then 0 else 2);
              && (outcome.Booked? <==> try1 != [] && Granted(script(last)) && Settled(script(last + 1)))
              && (outcome.Booked? ==> outcome.uuid == script(last).uuid)
              && (outcome == Failed(Unauthorized) <==> try2 != [] && Refusal(script(last)))
    {
      login1, try1, login2, try2 := [], [], [], [];
      var ok := EnsureLoggedIn();
      login1 := sent[|old(sent)|..];
      if !ok {
        return Failed(Other), login1, [], [], [];
      }
      outcome, try1 := Attempt();
      if outcome == Failed(Unauthorized) {
        outcome, login2, try2 := TryAgain();
      }
    }
  }
}

/** Several bookings at once over one session.  The platform attaches a match record to the session's
    most recent booking, so the flow of one call must not interleave with that of another; the client
    holds a lock from the first request to the last.  A request that a call gave up on may still take
    effect later. */
module CheckoutInterleaving {

  import opened Basics

  datatype Phase = WaitLock | Reserving | Paying | Attaching | Tracking

  /** Bookings are numbered in the order in which they took effect; `own` is that of the call. */
  datatype Caller = Caller(phase: Phase, own: Option<nat>)

  /** A match record: the booking the caller meant, and the booking the server attached it to. */
  datatype MatchRecord = MatchRecord(meant: nat, attached: nat)

  /** The calls and the lock, the number of bookings so far, the match records, and the requests given up
      that are still under way: how many reservations, and which bookings attachments are meant for. */
  datatype State = State(callers: map<int, Caller>, lock: Option<int>, booked: nat, records: seq<MatchRecord>,
        underWay: nat, lateAttaches: seq<nat>)

  datatype Action =
    | Call(caller: int)
    | Acquire(caller: int)
    | Reserved(caller: int)
    | GiveUpReserving(caller: int)
    | Paid(caller: int)
    | Attached(caller: int)
    | GiveUpAttaching(caller: int)
    | SkipAttach(caller: int)
    | Leave(caller: int)
    | LateReservation
    | LateAttach

  const INITIAL := State(map[], None, 0, [], 0, [])

  predicate At(s: State, c: int, phase: Phase) {
    c in s.callers && s.callers[c].phase == phase
  }

  predicate Enabled(s: State, a: Action) {
    match a
    case Call(c) => c !in s.callers
    case Acquire(c) => At(s, c, WaitLock) && s.lock.None?
    case Reserved(c) => At(s, c, Reserving)
    case GiveUpReserving(c) => At(s, c, Reserving)
    case Paid(c) => At(s, c, Paying)
    case Attached(c) => At(s, c, Attaching) && s.booked > 0 && s.callers[c].own.Some?
    case GiveUpAttaching(c) => At(s, c, Attaching) && s.callers[c].own.Some?
    case SkipAttach(c) => At(s, c, Attaching)
    case Leave(c) => c in s.callers && s.callers[c].phase != WaitLock
    case LateReservation => s.underWay > 0
    case LateAttach => s.lateAttaches != [] && s.booked > 0
  }

  function Goto(s: State, c: int, phase: Phase): State
    requires c in s.callers
  {
    s.(callers := s.callers[c := s.callers[c].(phase := phase)])
  }

  function Return(s: State, c: int): State {
    s.(callers := s.callers - {c}, lock := None)
  }

  /** One step; an action that is not enabled changes nothing.  `Leave` stands for any return of the
      call, successful or not, with no request under way, and releases the lock. */
  function Step(s: State, a: Action): State {
    if !Enabled(s, a) then s
    else match a
      case Call(c) => s.(callers := s.callers[c := Caller(WaitLock, None)])
      case Acquire(c) => s.(callers := s.callers[c := Caller(Reserving, None)], lock := Some(c))
      case Reserved(c) => s.(callers := s.callers[c := Caller(Paying, Some(s.booked))], booked := s.booked + 1)
      case GiveUpReserving(c) => Return(s, c).(underWay := s.underWay + 1)
      case Paid(c) => Goto(s, c, Attaching)
      case Attached(c) =>
        Goto(s, c, Tracking).(records := s.records + [MatchRecord(s.callers[c].own.value, s.booked - 1)])
      case GiveUpAttaching(c) => Goto(s, c, Tracking).(lateAttaches := s.lateAttaches + [s.callers[c].own.value])
      case SkipAttach(c) => Goto(s, c, Tracking)
      case Leave(c) => Return(s, c)
      case LateReservation => s.(booked := s.booked + 1, underWay := s.underWay - 1)
      case LateAttach =>
        s.(records := s.records + [MatchRecord(s.lateAttaches[0], s.booked - 1)], lateAttaches := s.lateAttaches[1..])
  }

  function Exec(actions: seq<Action>): State {
    if actions == [] then INITIAL else Step(Exec(actions[..|actions| - 1]), actions[|actions| - 1])
  }

  // ---------------------------------------------------------------- one call at a time holds the lock

  ghost predicate LockFits(s: State) {
    && (forall c | c in s.callers && s.callers[c].phase != WaitLock :: s.lock == Some(c))
    && (s.lock.Some? ==> s.lock.value in s.callers && s.callers[s.lock.value].phase != WaitLock)
  }

  /** A call has a booking exactly once its reservation was answered, and the booking has its number. */
  ghost predicate OwnFits(s: State) {
    forall c | c in s.callers ::
      && (s.callers[c].own.Some? <==> s.callers[c].phase in {Paying, Attaching, Tracking})
      && (s.callers[c].own.Some? ==> s.callers[c].own.value < s.booked)
  }

  lemma StepKeepsLock(s: State, a: Action)
    requires LockFits(s)
    ensures LockFits(Step(s, a))
  {
  }

  lemma StepKeepsOwn(s: State, a: Action)
    requires OwnFits(s)
    ensures OwnFits(Step(s, a))
  {
  }

  lemma {:induction false} ExecFits(actions: seq<Action>)
    ensures LockFits(Exec(actions)) && OwnFits(Exec(actions))
  {
    if actions != [] {
      var n := |actions| - 1;
      ExecFits(actions[..n]);
      StepKeepsLock(Exec(actions[..n]), actions[n]);
      StepKeepsOwn(Exec(actions[..n]), actions[n]);
    }
  }

  /** No call waits for ever: while one is open, it or the call that holds the lock can go on. */
  lemma SomeCallGoesOn(actions: seq<Action>, open: int) returns (next: Action)
    requires open in Exec(actions).callers
    ensures var s := Exec(actions);
            Enabled(s, next) && (next.Acquire? || next.Reserved? || next.Paid? || next.Attached?
                                 || (next.Leave? && s.callers[next.caller].phase == Tracking))
  {
    ExecFits(actions);
    var s := Exec(actions);
    var c := if s.lock.Some? then s.lock.value else open;
    next := match s.callers[c].phase {
      case WaitLock => Acquire(c)
      case Reserving => Reserved(c)
      case Paying => Paid(c)
      case Attaching => Attached(c)
      case Tracking => Leave(c)
    };
  }

  // ---------------------------------------------------------------- without late requests

  ghost predicate Calm(s: State) {
    && (forall c | c in s.callers && s.callers[c].phase in {Paying, Attaching} ::
          s.callers[c].own.Some? && s.callers[c].own.value == s.booked - 1)
    && (forall i | 0 <= i < |s.records| :: s.records[i].meant == s.records[i].attached)
  }

  lemma StepKeepsCalm(s: State, a: Action)
    requires LockFits(s) && Calm(s) && !a.LateReservation? && !a.LateAttach?
    ensures Calm(Step(s, a))
  {
  }

  /** In every interleaving in which no request takes effect after its call gave up on it, each match
      record is attached to the booking of its own call. */
  lemma {:induction false} MatchAttachesToOwnBooking(actions: seq<Action>)
    requires forall a | a in actions :: !a.LateReservation? && !a.LateAttach?
    ensures Calm(Exec(actions))
    ensures forall r | r in Exec(actions).records :: r.meant == r.attached
  {
    if actions != [] {
      var n := |actions| - 1;
      assert forall a | a in actions[..n] :: a in actions;
      MatchAttachesToOwnBooking(actions[..n]);
      ExecFits(actions[..n]);
      assert actions[n] in actions;
      StepKeepsCalm(Exec(actions[..n]), actions[n]);
    }
  }

  // ---------------------------------------------------------------- with late requests

  /** How many reservations given up take effect during `after`. */
  ghost function LateOnes(before: seq<Action>, after: seq<Action>): nat
    decreases |after|
  {
    if after == [] then 0
    else
      var n := |after| - 1;
      LateOnes(before, after[..n])
      + (if after[n].LateReservation? && Enabled(Exec(before + after[..n]), after[n]) then 1 else 0)
  }

  ghost predicate Owns(s: State, c: int, n: nat) {
    c in s.callers && s.callers[c].own == Some(n)
  }

  /** A call that owns an earlier booking has owned it before the step, and meanwhile only a late
      reservation makes another. */
  lemma OwnerAlone(s: State, a: Action, c: int, n: nat)
    requires LockFits(s) && OwnFits(s) && n < s.booked && Owns(Step(s, a), c, n)
    ensures Owns(s, c, n)
    ensures Step(s, a).booked == s.booked + (if a.LateReservation? && Enabled(s, a) then 1 else 0)
  {
  }

  lemma ExecSnoc(actions: seq<Action>, a: Action)
    ensures Exec(actions + [a]) == Step(Exec(actions), a)
  {
    assert (actions + [a])[..|actions|] == actions;
  }

  lemma {:induction false} BookedSince(before: seq<Action>, after: seq<Action>, c: int, n: nat)
    requires n < Exec(before).booked && Owns(Exec(before + after), c, n)
    ensures Exec(before + after).booked == Exec(before).booked + LateOnes(before, after)
    decreases |after|
  {
    if after == [] {
      assert before + after == before;
    } else {
      var k := |after| - 1;
      var front, last := before + after[..k], after[k];
      assert before + after == front + [last];
      ExecSnoc(front, last);
      ExecFits(front);
      BookedGrows(before, after[..k]);
      OwnerAlone(Exec(front), last, c, n);
      BookedSince(before, after[..k], c, n);
    }
  }

  lemma {:induction false} BookedGrows(before: seq<Action>, after: seq<Action>)
    ensures Exec(before).booked <= Exec(before + after).booked
    decreases |after|
  {
    if after == [] {
      assert before + after == before;
    } else {
      var k := |after| - 1;
      BookedGrows(before, after[..k]);
      assert before + after == (before + after[..k]) + [after[k]];
      ExecSnoc(before + after[..k], after[k]);
      StepBooked(Exec(before + after[..k]), after[k]);
    }
  }

  lemma StepBooked(s: State, a: Action)
    ensures s.booked <= Step(s, a).booked
  {
  }

  /** With late requests: a match record is attached to the booking of its own call exactly when no
      reservation given up by an earlier call took effect since the call's own. */
  lemma AttachesToOwnIff(before: seq<Action>, c: int, after: seq<Action>)
    requires Enabled(Exec(before), Reserved(c))
    requires var reserved := before + [Reserved(c)];
             Owns(Exec(reserved + after), c, Exec(before).booked) && Enabled(Exec(reserved + after), Attached(c))
    ensures var reserved := before + [Reserved(c)];
            var s := Step(Exec(reserved + after), Attached(c));
            && |s.records| > 0 && s.records[|s.records| - 1].meant == Exec(before).booked
            && (s.records[|s.records| - 1].attached == Exec(before).booked <==> LateOnes(reserved, after) == 0)
  {
    ExecSnoc(before, Reserved(c));
    BookedSince(before + [Reserved(c)], after, c, Exec(before).booked);
  }

  lemma Then(actions: seq<Action>, a: Action) returns (longer: seq<Action>)
    ensures longer == actions + [a] && Exec(longer) == Step(Exec(actions), a)
  {
    ExecSnoc(actions, a);
    longer := actions + [a];
  }

  lemma GivenUp() returns (actions: seq<Action>)
    ensures Exec(actions) == INITIAL.(underWay := 1)
  {
    actions := Then([], Call(1));
    actions := Then(actions, Acquire(1));
    actions := Then(actions, GiveUpReserving(1));
  }

  lemma ReservedWhileUnderWay(given: seq<Action>) returns (actions: seq<Action>)
    requires Exec(given) == INITIAL.(underWay := 1)
    ensures Exec(actions) == State(map[2 := Caller(Paying, Some(0))], Some(2), 1, [], 1, [])
  {
    actions := Then(given, Call(2));
    actions := Then(actions, Acquire(2));
    actions := Then(actions, Reserved(2));
  }

  /** Such a run: call 1 gives up on its reservation, which takes effect after that of call 2, so that the
      match of booking 0 is attached to booking 1. */
  lemma LateReservationMisattaches() returns (actions: seq<Action>)
    ensures Exec(actions).records == [MatchRecord(0, 1)]
  {
    actions := GivenUp();
    actions := ReservedWhileUnderWay(actions);
    actions := Then(actions, LateReservation);
    actions := Then(actions, Paid(2));
    actions := Then(actions, Attached(2));
  }
}
