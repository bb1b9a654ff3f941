/** Refreshing the group message of a game: fetch the game, its participations and its guests, render
    them, edit the message, all under one of 64 striped locks.

    Writers change games at any moment and take no part in the locking.  Each table is represented,
    per game, by the version its last write produced, so "stale" means "an older version". */
module GameNotifier {

  const GAME_EDIT_LOCK_COUNT := 64
  const UINT64_RANGE := 0x1_0000_0000_0000_0000

  /** The stripe of a game: its 64-bit id read as unsigned, modulo the number of locks. */
  function Stripe(gameId: int): (stripe: nat)
    ensures stripe < GAME_EDIT_LOCK_COUNT
  {
    (gameId % UINT64_RANGE) % GAME_EDIT_LOCK_COUNT
  }

  /** The stripe is the id's remainder, so that games with neighbouring ids do not share a lock. */
  lemma NeighboursDoNotShare(gameId: int)
    ensures Stripe(gameId) == gameId % 64 && Stripe(gameId) != Stripe(gameId + 1)
  {
    var k, r := gameId / UINT64_RANGE, gameId % UINT64_RANGE;
    assert gameId == UINT64_RANGE * k + r;
  }

  /** The versions of the game row, the participations and the guests. */
  datatype Versions = Versions(game: nat, players: nat, guests: nat)

  const NOTHING := Versions(0, 0, 0)

  predicate AtMost(a: Versions, b: Versions) {
    a.game <= b.game && a.players <= b.players && a.guests <= b.guests
  }

  datatype Phase = WaitLock | FetchGame | FetchPlayers | FetchGuests | FetchGroup | Send

  /** One call of EditGameMessage: `base` is what was committed when it was made, `seen` what it has
      fetched so far. */
  datatype Editor = Editor(gameId: int, phase: Phase, base: Versions, seen: Versions)

  /** A completed successful edit: what was committed when it was asked for, and what it showed. */
  datatype Edit = Edit(base: Versions, shown: Versions)

  datatype State = State(
    db: map<int, Versions>,
    edits: map<int, seq<Edit>>,
    editors: map<int, Editor>,
    locks: map<nat, int>)

  datatype Table = GameRow | Participations | Guests

  /** What one statement of an editor, or the message edit, comes back with.  A game row without a
      message to edit ends the call like an error does. */
  datatype Reply = Ok | Fails

  datatype Action =
    | Write(gameId: int, table: Table)
    | Call(editor: int, gameId: int)
    | Advance(editor: int, reply: Reply)

  const INITIAL := State(map[], map[], map[], map[])

  function Committed(s: State, gameId: int): Versions {
    if gameId in s.db then s.db[gameId] else NOTHING
  }

  /** The successful edits of a game's message, oldest first. */
  function EditsOf(s: State, gameId: int): seq<Edit> {
    if gameId in s.edits then s.edits[gameId] else []
  }

  predicate Enabled(s: State, a: Action) {
    match a
    case Write(_, _) => true
    case Call(e, _) => e !in s.editors
    case Advance(e, _) =>
      e in s.editors && (s.editors[e].phase == WaitLock ==> Stripe(s.editors[e].gameId) !in s.locks)
  }

  function Bump(v: Versions, table: Table): Versions {
    match table
    case GameRow => v.(game := v.game + 1)
    case Participations => v.(players := v.players + 1)
    case Guests => v.(guests := v.guests + 1)
  }

  /** The deferred unlock, on every way out. */
  function Return(s: State, e: int): State
    requires e in s.editors
  {
    s.(editors := s.editors - {e}, locks := s.locks - {Stripe(s.editors[e].gameId)})
  }

  function Goto(s: State, e: int, phase: Phase, seen: Versions): State
    requires e in s.editors
  {
    s.(editors := s.editors[e := s.editors[e].(phase := phase, seen := seen)])
  }

  function AdvanceEditor(s: State, e: int, reply: Reply): State
    requires e in s.editors
  {
    var ed := s.editors[e];
    var now := Committed(s, ed.gameId);
    if ed.phase == WaitLock then Goto(s, e, FetchGame, ed.seen).(locks := s.locks[Stripe(ed.gameId) := e])
    else if reply == Fails then Return(s, e)
    else match ed.phase
      case FetchGame => Goto(s, e, FetchPlayers, ed.seen.(game := now.game))
      case FetchPlayers => Goto(s, e, FetchGuests, ed.seen.(players := now.players))
      case FetchGuests => Goto(s, e, FetchGroup, ed.seen.(guests := now.guests))
      case FetchGroup => Goto(s, e, Send, ed.seen)
      case Send => Return(s, e).(edits := s.edits[ed.gameId := EditsOf(s, ed.gameId) + [Edit(ed.base, ed.seen)]])
      case WaitLock => s
  }

  /** One step; an action that is not enabled changes nothing. */
  function Step(s: State, a: Action): State {
    if !Enabled(s, a) then s
    else match a
      case Write(g, table) => s.(db := s.db[g := Bump(Committed(s, g), table)])
      case Call(e, g) => s.(editors := s.editors[e := Editor(g, WaitLock, Committed(s, g), NOTHING)])
      case Advance(e, reply) => AdvanceEditor(s, e, reply)
  }

  function Exec(actions: seq<Action>): State {
    if actions == [] then INITIAL else Step(Exec(actions[..|actions| - 1]), actions[|actions| - 1])
  }

  // ---------------------------------------------------------------- invariant

  ghost predicate InSection(ed: Editor) {
    ed.phase != WaitLock
  }

  /** What the latest successful edit of a game shows. */
  ghost function Shown(s: State, gameId: int): Versions {
    var edits := EditsOf(s, gameId);
    if edits == [] then NOTHING else edits[|edits| - 1].shown
  }

  /** Each fetched version lies between those on display and those committed now, and is no older
      than what was committed when the edit was asked for. */
  ghost predicate Fetched(seen: nat, base: nat, shown: nat, now: nat) {
    base <= seen <= now && shown <= seen
  }

  ghost predicate EditorFits(ed: Editor, shown: Versions, now: Versions) {
    && AtMost(ed.base, now)
    && (ed.phase in {FetchPlayers, FetchGuests, FetchGroup, Send} ==>
          Fetched(ed.seen.game, ed.base.game, shown.game, now.game))
    && (ed.phase in {FetchGuests, FetchGroup, Send} ==>
          Fetched(ed.seen.players, ed.base.players, shown.players, now.players))
    && (ed.phase in {FetchGroup, Send} ==>
          Fetched(ed.seen.guests, ed.base.guests, shown.guests, now.guests))
  }

  ghost predicate EditsFit(edits: seq<Edit>, now: Versions) {
    && (forall i | 0 <= i < |edits| :: AtMost(edits[i].base, edits[i].shown) && AtMost(edits[i].shown, now))
    && (forall i, j | 0 <= i < j < |edits| :: AtMost(edits[i].shown, edits[j].shown))
  }

  /** A held stripe is held by an editor of that stripe inside its section. */
  ghost predicate HolderFits(editors: map<int, Editor>, locks: map<nat, int>, k: nat)
    requires k in locks
  {
    && locks[k] in editors
    && InSection(editors[locks[k]])
    && Stripe(editors[locks[k]].gameId) == k
  }

  /** An editor inside its section holds the stripe of its game. */
  ghost predicate HoldsStripe(editors: map<int, Editor>, locks: map<nat, int>, e: int)
    requires e in editors
  {
    InSection(editors[e]) ==> Stripe(editors[e].gameId) in locks && locks[Stripe(editors[e].gameId)] == e
  }

  ghost predicate LocksFit(editors: map<int, Editor>, locks: map<nat, int>) {
    && (forall k | k in locks :: HolderFits(editors, locks, k))
    && (forall e | e in editors :: HoldsStripe(editors, locks, e))
  }

  ghost predicate EditorsFit(s: State) {
    forall e | e in s.editors :: FitsOwnGame(s, s.editors[e])
  }

  ghost predicate FitsOwnGame(s: State, ed: Editor) {
    EditorFits(ed, Shown(s, ed.gameId), Committed(s, ed.gameId))
  }

  ghost predicate MessagesFit(s: State) {
    forall g :: EditsFit(EditsOf(s, g), Committed(s, g))
  }

  ghost predicate Inv(s: State) {
    LocksFit(s.editors, s.locks) && EditorsFit(s) && MessagesFit(s)
  }

  // ---------------------------------------------------------------- the locks

  /** An editor that starts to wait, or moves on inside its section, leaves the locks in order. */
  lemma LocksStay(s: State, e: int, ed: Editor)
    requires LocksFit(s.editors, s.locks)
    requires if e in s.editors then InSection(ed) && InSection(s.editors[e]) && ed.gameId == s.editors[e].gameId
             else !InSection(ed)
    ensures LocksFit(s.editors[e := ed], s.locks)
  {
    var after := s.editors[e := ed];
    forall k | k in s.locks ensures HolderFits(after, s.locks, k) {
      assert HolderFits(s.editors, s.locks, k);
    }
    forall f | f in after ensures HoldsStripe(after, s.locks, f) {
      assert f in s.editors ==> HoldsStripe(s.editors, s.locks, f);
    }
  }

  lemma LocksTaken(s: State, e: int, ed: Editor)
    requires LocksFit(s.editors, s.locks) && e in s.editors && !InSection(s.editors[e]) && InSection(ed)
    requires Stripe(ed.gameId) !in s.locks
    ensures LocksFit(s.editors[e := ed], s.locks[Stripe(ed.gameId) := e])
  {
    var after, locks := s.editors[e := ed], s.locks[Stripe(ed.gameId) := e];
    forall k | k in locks ensures HolderFits(after, locks, k) {
      assert k in s.locks ==> HolderFits(s.editors, s.locks, k);
    }
    forall f | f in after ensures HoldsStripe(after, locks, f) {
      assert f in s.editors ==> HoldsStripe(s.editors, s.locks, f);
    }
  }

  lemma LocksGivenBack(s: State, e: int)
    requires LocksFit(s.editors, s.locks) && e in s.editors && InSection(s.editors[e])
    ensures LocksFit(s.editors - {e}, s.locks - {Stripe(s.editors[e].gameId)})
  {
    var after, locks := s.editors - {e}, s.locks - {Stripe(s.editors[e].gameId)};
    assert HoldsStripe(s.editors, s.locks, e);
    forall k | k in locks ensures HolderFits(after, locks, k) {
      assert HolderFits(s.editors, s.locks, k);
    }
    forall f | f in after ensures HoldsStripe(after, locks, f) {
      assert HoldsStripe(s.editors, s.locks, f);
    }
  }

  /** Editors of one game that are both inside their sections hold the same stripe, so they are one. */
  lemma SameHolder(s: State, e: int, f: int)
    requires LocksFit(s.editors, s.locks) && e in s.editors && f in s.editors
    requires InSection(s.editors[e]) && InSection(s.editors[f]) && s.editors[e].gameId == s.editors[f].gameId
    ensures e == f
  {
    assert HoldsStripe(s.editors, s.locks, e);
    assert HoldsStripe(s.editors, s.locks, f);
  }

  // ---------------------------------------------------------------- the steps

  /** Putting a fitting editor in place disturbs nobody else. */
  lemma EditorsStay(s: State, s': State, e: int)
    requires EditorsFit(s) && s'.db == s.db && s'.edits == s.edits && e in s'.editors
    requires s'.editors == s.editors[e := s'.editors[e]] && FitsOwnGame(s, s'.editors[e])
    ensures EditorsFit(s')
  {
    forall f | f in s'.editors ensures FitsOwnGame(s', s'.editors[f]) {
      assert f != e ==> FitsOwnGame(s, s.editors[f]);
    }
  }

  lemma MessagesStay(s: State, s': State)
    requires MessagesFit(s) && s'.db == s.db && s'.edits == s.edits
    ensures MessagesFit(s')
  {
    forall g ensures EditsFit(EditsOf(s', g), Committed(s', g)) {
      assert EditsFit(EditsOf(s, g), Committed(s, g));
    }
  }

  lemma BumpRises(v: Versions, table: Table)
    ensures AtMost(v, Bump(v, table))
  {
  }

  lemma EditorFitsLater(ed: Editor, shown: Versions, now: Versions, later: Versions)
    requires EditorFits(ed, shown, now) && AtMost(now, later)
    ensures EditorFits(ed, shown, later)
  {
  }

  lemma EditsFitLater(edits: seq<Edit>, now: Versions, later: Versions)
    requires EditsFit(edits, now) && AtMost(now, later)
    ensures EditsFit(edits, later)
  {
  }

  lemma WriteKeeps(s: State, g: int, table: Table)
    requires Inv(s)
    ensures Inv(Step(s, Write(g, table)))
  {
    var s' := Step(s, Write(g, table));
    BumpRises(Committed(s, g), table);
    assert forall h :: AtMost(Committed(s, h), Committed(s', h));
    WriteKeepsEditors(s, s');
    forall h ensures EditsFit(EditsOf(s', h), Committed(s', h)) {
      EditsFitLater(EditsOf(s, h), Committed(s, h), Committed(s', h));
    }
  }

  lemma WriteKeepsEditors(s: State, s': State)
    requires EditorsFit(s) && s'.editors == s.editors && s'.edits == s.edits
    requires forall h :: AtMost(Committed(s, h), Committed(s', h))
    ensures EditorsFit(s')
  {
    forall e | e in s'.editors ensures FitsOwnGame(s', s'.editors[e]) {
      var g := s.editors[e].gameId;
      assert FitsOwnGame(s, s.editors[e]);
      EditorFitsLater(s.editors[e], Shown(s, g), Committed(s, g), Committed(s', g));
    }
  }

  lemma CallKeeps(s: State, e: int, g: int)
    requires Inv(s) && Enabled(s, Call(e, g))
    ensures Inv(Step(s, Call(e, g)))
  {
    var s' := Step(s, Call(e, g));
    LocksStay(s, e, s'.editors[e]);
    EditorsStay(s, s', e);
    MessagesStay(s, s');
  }

  lemma GotoKeeps(s: State, e: int, phase: Phase, seen: Versions)
    requires Inv(s) && e in s.editors && InSection(s.editors[e]) && phase != WaitLock
    requires FitsOwnGame(s, s.editors[e].(phase := phase, seen := seen))
    ensures Inv(Goto(s, e, phase, seen))
  {
    var s' := Goto(s, e, phase, seen);
    LocksStay(s, e, s'.editors[e]);
    EditorsStay(s, s', e);
    MessagesStay(s, s');
  }

  lemma LockKeeps(s: State, e: int, reply: Reply)
    requires Inv(s) && e in s.editors && s.editors[e].phase == WaitLock && Enabled(s, Advance(e, reply))
    ensures Inv(AdvanceEditor(s, e, reply))
  {
    var s' := AdvanceEditor(s, e, reply);
    assert FitsOwnGame(s, s.editors[e]);
    LocksTaken(s, e, s'.editors[e]);
    EditorsStay(s, s', e);
    MessagesStay(s, s');
  }

  lemma ReturnKeeps(s: State, e: int)
    requires Inv(s) && e in s.editors && InSection(s.editors[e])
    ensures Inv(Return(s, e))
  {
    var s' := Return(s, e);
    LocksGivenBack(s, e);
    MessagesStay(s, s');
    forall f | f in s'.editors ensures FitsOwnGame(s', s'.editors[f]) {
      assert FitsOwnGame(s, s.editors[f]);
    }
  }

  /** A successful send: nobody else is inside the critical section of this game. */
  lemma SendKeeps(s: State, e: int)
    requires Inv(s) && e in s.editors && s.editors[e].phase == Send
    ensures Inv(AdvanceEditor(s, e, Ok))
  {
    LocksGivenBack(s, e);
    SendKeepsEditors(s, e);
    SendKeepsMessages(s, e);
  }

  /** An editor that waits has fetched nothing yet that could go out of date. */
  lemma WaitingFits(ed: Editor, before: Versions, after: Versions, now: Versions)
    requires EditorFits(ed, before, now) && !InSection(ed)
    ensures EditorFits(ed, after, now)
  {
  }

  lemma OtherEditorFits(s: State, s': State, e: int, f: int)
    requires LocksFit(s.editors, s.locks) && EditorsFit(s) && e in s.editors && InSection(s.editors[e])
    requires f in s.editors && f != e && s'.db == s.db
    requires forall g | g != s.editors[e].gameId :: EditsOf(s', g) == EditsOf(s, g)
    ensures FitsOwnGame(s', s.editors[f])
  {
    var other := s.editors[f];
    var game := other.gameId;
    assert FitsOwnGame(s, other);
    if game == s.editors[e].gameId {
      if InSection(other) {
        SameHolder(s, e, f);
      }
      WaitingFits(other, Shown(s, game), Shown(s', game), Committed(s, game));
    }
  }

  lemma SendKeepsEditors(s: State, e: int)
    requires LocksFit(s.editors, s.locks) && EditorsFit(s) && e in s.editors && s.editors[e].phase == Send
    ensures EditorsFit(AdvanceEditor(s, e, Ok))
  {
    var s' := AdvanceEditor(s, e, Ok);
    forall f | f in s'.editors ensures FitsOwnGame(s', s'.editors[f]) {
      OtherEditorFits(s, s', e, f);
    }
  }

  lemma SendKeepsMessages(s: State, e: int)
    requires EditorsFit(s) && MessagesFit(s) && e in s.editors && s.editors[e].phase == Send
    ensures MessagesFit(AdvanceEditor(s, e, Ok))
  {
    var s', ed := AdvanceEditor(s, e, Ok), s.editors[e];
    assert FitsOwnGame(s, ed);
    forall h ensures EditsFit(EditsOf(s', h), Committed(s', h)) {
      assert EditsFit(EditsOf(s, h), Committed(s, h));
      if h == ed.gameId {
        EditsGrow(EditsOf(s, h), Edit(ed.base, ed.seen), Committed(s, h));
      }
    }
  }

  lemma EditsGrow(edits: seq<Edit>, e: Edit, now: Versions)
    requires EditsFit(edits, now) && AtMost(e.base, e.shown) && AtMost(e.shown, now)
    requires edits != [] ==> AtMost(edits[|edits| - 1].shown, e.shown)
    ensures EditsFit(edits + [e], now)
  {
    var longer := edits + [e];
    forall i, j | 0 <= i < j < |longer| ensures AtMost(longer[i].shown, longer[j].shown) {
      if j == |edits| && i < |edits| - 1 {
        assert AtMost(edits[i].shown, edits[|edits| - 1].shown);
      }
    }
  }

  lemma ShownIsOld(s: State, g: int)
    requires MessagesFit(s)
    ensures AtMost(Shown(s, g), Committed(s, g))
  {
    assert EditsFit(EditsOf(s, g), Committed(s, g));
  }

  lemma AdvanceKeeps(s: State, e: int, reply: Reply)
    requires Inv(s) && Enabled(s, Advance(e, reply))
    ensures Inv(AdvanceEditor(s, e, reply))
  {
    var ed := s.editors[e];
    var now := Committed(s, ed.gameId);
    assert FitsOwnGame(s, ed);
    ShownIsOld(s, ed.gameId);
    if ed.phase == WaitLock {
      LockKeeps(s, e, reply);
    } else if reply == Fails {
      ReturnKeeps(s, e);
    } else {
      match ed.phase {
        case FetchGame => GotoKeeps(s, e, FetchPlayers, ed.seen.(game := now.game));
        case FetchPlayers => GotoKeeps(s, e, FetchGuests, ed.seen.(players := now.players));
        case FetchGuests => GotoKeeps(s, e, FetchGroup, ed.seen.(guests := now.guests));
        case FetchGroup => GotoKeeps(s, e, Send, ed.seen);
        case Send => SendKeeps(s, e);
      }
    }
  }

  lemma {:induction false} ExecInv(actions: seq<Action>)
    ensures Inv(Exec(actions))
  {
    if actions != [] {
      var n := |actions| - 1;
      ExecInv(actions[..n]);
      var s := Exec(actions[..n]);
      if Enabled(s, actions[n]) {
        match actions[n] {
          case Write(g, table) => WriteKeeps(s, g, table);
          case Call(e, g) => CallKeeps(s, e, g);
          case Advance(e, reply) => AdvanceKeeps(s, e, reply);
        }
      }
    }
  }

  // ---------------------------------------------------------------- main results

  /** No stale overwrite: what successive successful edits of one message show never goes back, in
      any of the three tables. */
  lemma NoStaleOverwrite(actions: seq<Action>, gameId: int, i: int, j: int)
    ensures var edits := EditsOf(Exec(actions), gameId);
            0 <= i < j < |edits| ==> AtMost(edits[i].shown, edits[j].shown)
  {
    ExecInv(actions);
  }

  /** Convergence: once a successful edit was asked for after the last write, the message shows the
      committed state, and keeps showing it whatever edits complete later. */
  lemma MessageCatchesUp(actions: seq<Action>, gameId: int, i: int)
    ensures var s := Exec(actions);
            0 <= i < |EditsOf(s, gameId)| && EditsOf(s, gameId)[i].base == Committed(s, gameId)
            ==> Shown(s, gameId) == Committed(s, gameId)
  {
    ExecInv(actions);
    var s := Exec(actions);
    var edits, now := EditsOf(s, gameId), Committed(s, gameId);
    assert EditsFit(edits, now);
    if 0 <= i < |edits| && edits[i].base == now {
      assert i < |edits| - 1 ==> AtMost(edits[i].shown, edits[|edits| - 1].shown);
    }
  }

  /** Two editors of the same game are never both between lock and unlock. */
  lemma OneEditorPerGame(actions: seq<Action>, e: int, f: int)
    ensures var s := Exec(actions);
            (e in s.editors && f in s.editors && s.editors[e].gameId == s.editors[f].gameId
             && InSection(s.editors[e]) && InSection(s.editors[f])) ==> e == f
  {
    ExecInv(actions);
    var s := Exec(actions);
    if e in s.editors && f in s.editors && s.editors[e].gameId == s.editors[f].gameId
       && InSection(s.editors[e]) && InSection(s.editors[f]) {
      SameHolder(s, e, f);
    }
  }

  // ---------------------------------------------------------------- an edit asked for is made

  /** The answers an editor that has the lock still needs: the game, the participations, the guests, the group
      and the message. */
  ghost function AnswersLeft(phase: Phase): nat {
    match phase
    case WaitLock => 6
    case FetchGame => 5
    case FetchPlayers => 4
    case FetchGuests => 3
    case FetchGroup => 2
    case Send => 1
  }

  ghost function AnswersTo(actions: seq<Action>, e: int): nat {
    if actions == [] then 0
    else AnswersTo(actions[..|actions| - 1], e) + (if actions[|actions| - 1] == Advance(e, Ok) then 1 else 0)
  }

  /** The message has had an edit more than `edits`, or the editor is still at work on one and needs `left` more
      answers for it. */
  ghost predicate Underway(edits: nat, s: State, e: int, gameId: int, left: int) {
    || |EditsOf(s, gameId)| > edits
    || (&& |EditsOf(s, gameId)| == edits && left > 0
        && e in s.editors && s.editors[e].gameId == gameId && InSection(s.editors[e])
        && AnswersLeft(s.editors[e].phase) == left)
  }

  lemma EditsStay(s: State, a: Action, gameId: int)
    ensures |EditsOf(s, gameId)| <= |EditsOf(Step(s, a), gameId)|
  {
  }

  lemma OthersStep(s: State, a: Action, e: int)
    requires e in s.editors && !(a.Advance? && a.editor == e)
    ensures e in Step(s, a).editors && Step(s, a).editors[e] == s.editors[e]
  {
  }

  lemma OwnStep(s: State, e: int)
    requires e in s.editors && InSection(s.editors[e])
    ensures var ed, s' := s.editors[e], Step(s, Advance(e, Ok));
            if ed.phase == Send then |EditsOf(s', ed.gameId)| == |EditsOf(s, ed.gameId)| + 1
            else && e in s'.editors && s'.editors[e].gameId == ed.gameId && InSection(s'.editors[e])
                 && AnswersLeft(s'.editors[e].phase) == AnswersLeft(ed.phase) - 1
  {
  }

  /** An edit is on record for a game if and only if its editor's last request, the edit itself, was answered; a
      failure along the way ends the call and gives its lock back. */
  lemma EditMadeIff(actions: seq<Action>, a: Action, gameId: int)
    ensures var s := Exec(actions); var s' := Step(s, a);
            && (EditsOf(s', gameId) != EditsOf(s, gameId)
                <==> && a.Advance? && a.reply == Ok && a.editor in s.editors
                     && s.editors[a.editor].gameId == gameId && s.editors[a.editor].phase == Send)
            && (a.Advance? && a.reply == Fails && a.editor in s.editors && InSection(s.editors[a.editor]) ==>
                  a.editor !in s'.editors && Stripe(s.editors[a.editor].gameId) !in s'.locks)
  {
  }

  lemma StepNearsEdit(edits: nat, s: State, a: Action, e: int, gameId: int, left: int)
    requires Underway(edits, s, e, gameId, left) && a != Advance(e, Fails)
    ensures Underway(edits, Step(s, a), e, gameId, left - (if a == Advance(e, Ok) then 1 else 0))
  {
    EditsStay(s, a, gameId);
    if |EditsOf(s, gameId)| == edits {
      if a == Advance(e, Ok) {
        OwnStep(s, e);
      } else {
        OthersStep(s, a, e);
      }
    }
  }

  lemma ExecSnoc(actions: seq<Action>, a: Action)
    ensures Exec(actions + [a]) == Step(Exec(actions), a)
  {
    assert (actions + [a])[..|actions|] == actions;
  }

  lemma {:induction false} StaysUnderway(edits: nat, before: seq<Action>, after: seq<Action>, e: int, gameId: int,
      left: int)
    requires Underway(edits, Exec(before), e, gameId, left) && Advance(e, Fails) !in after
    ensures Underway(edits, Exec(before + after), e, gameId, left - AnswersTo(after, e))
    decreases |after|
  {
    if after == [] {
      assert before + after == before;
    } else {
      var n := |after| - 1;
      assert before + after == (before + after[..n]) + [after[n]];
      StaysUnderway(edits, before, after[..n], e, gameId, left);
      ExecSnoc(before + after[..n], after[n]);
      StepNearsEdit(edits, Exec(before + after[..n]), after[n], e, gameId, left - AnswersTo(after[..n], e));
    }
  }

  /** An editor that has the lock of its game and is answered without failure leaves an edit of the message
      after five answers, whatever else goes on in between. */
  lemma AnsweredEditorEdits(before: seq<Action>, after: seq<Action>, e: int)
    requires var s := Exec(before); e in s.editors && InSection(s.editors[e])
    requires Advance(e, Fails) !in after && AnswersTo(after, e) >= 5
    ensures var s := Exec(before); var gameId := s.editors[e].gameId;
            |EditsOf(Exec(before + after), gameId)| > |EditsOf(s, gameId)|
  {
    var s := Exec(before);
    var ed := s.editors[e];
    StaysUnderway(|EditsOf(s, ed.gameId)|, before, after, e, ed.gameId, AnswersLeft(ed.phase));
  }

  /** A call waits only for the lock, and the lock is free unless some editor is between its lock and unlock. */
  lemma EditorGetsLock(actions: seq<Action>, e: int)
    requires var s := Exec(actions); e in s.editors && !InSection(s.editors[e])
    ensures var s := Exec(actions); var s' := Step(s, Advance(e, Ok));
            (e in s'.editors && InSection(s'.editors[e]))
            <==> forall f :: f in s.editors && InSection(s.editors[f]) ==>
                   Stripe(s.editors[f].gameId) != Stripe(s.editors[e].gameId)
  {
    ExecInv(actions);
    var s := Exec(actions);
    var stripe := Stripe(s.editors[e].gameId);
    if stripe in s.locks {
      assert HolderFits(s.editors, s.locks, stripe);
      var holder := s.locks[stripe];
      assert holder in s.editors && InSection(s.editors[holder]) && Stripe(s.editors[holder].gameId) == stripe;
    } else {
      forall f | f in s.editors && InSection(s.editors[f]) ensures Stripe(s.editors[f].gameId) != stripe {
        assert HoldsStripe(s.editors, s.locks, f);
      }
    }
  }
}
