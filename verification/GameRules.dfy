/**
 The rules of the paint game without seats and searches: who plays for which team, who owns the room, and how a game
 goes on.  The room of src/game_room.c, with its 64 seats, follows these rules over every run.
 */
module GameRules {
  import opened Common
  import opened G = GameRoom

  /** Players are known by their sessions; the owner is who may reset the room. */
  datatype Game = Game(
    players: map<nat, Team>, owner: nat, phase: Phase, generation: nat, width: nat, height: nat,
    brush: nat, duration: nat, endsAt: nat, nextBrush: nat, nextDuration: nat, overs: nat)

  function NewGame(w: nat, h: nat): Game {
    Game(map[], 0, Waiting, 1, w, h, 0, 0, 0, 5, 180000, 0)
  }

  /** The players of a team. */
  function Side(g: Game, team: Team): set<nat> {
    set u | u in g.players && g.players[u] == team
  }

  /** Before a game starts, up to three players join a team or change to it; the first one owns the room. */
  function Join(g: Game, user: nat, team: Team): (Game, bool) {
    if user != 0 && team != Empty && g.phase == Waiting && |Side(g, team) - {user}| < 3 then
      (g.(players := g.players[user := team], owner := if g.owner == 0 then user else g.owner), true)
    else (g, false)
  }

  /** The room waits for another game, with these settings. */
  function Renewed(g: Game, w: nat, h: nat, brush: nat, duration: nat): Game {
    g.(phase := Waiting, generation := (g.generation + 1) % TWO64, width := w, height := h,
       brush := 0, duration := 0, endsAt := 0, nextBrush := brush, nextDuration := duration)
  }

  /** A player leaves; the last one leaves a room without owner that waits, if the timer of a game can be removed. */
  function Leave(g: Game, user: nat, detachOk: bool): (Game, Removed) {
    var left := g.(players := g.players - {user});
    if user !in g.players then (g, RemoveError)
    else if left.players != map[] then (left, RemoveOk)
    else if g.phase == Waiting then (left.(owner := 0), RemoveOk)
    else if detachOk then (Renewed(left, g.width, g.height, g.nextBrush, g.nextDuration).(owner := 0), RemoveOk)
    else (left, AutoResetFailed)
  }

  /** The owner sets up another game while none is on; players and owner stay. */
  function SetUp(g: Game, user: nat, w: nat, h: nat, brush: nat, duration: nat, allocOk: bool, detachOk: bool): (Game, bool) {
    if && w > 0 && h > 0 && brush > 0 && duration > 0 && user != 0 && user == g.owner && g.phase != Running
       && (allocOk || (w == g.width && h == g.height)) && (g.phase == Finished ==> detachOk)
    then (Renewed(g, w, h, brush, duration), true)
    else (g, false)
  }

  /** A game starts once both teams have a player, with the settings made for it. */
  function Begin(g: Game, now: nat, timerOk: bool): (Game, bool) {
    if && g.phase == Waiting && Side(g, Red) != {} && Side(g, Blue) != {} && timerOk
       && 0 < g.nextBrush <= 50 && 0 < g.nextDuration <= LONG_MAX && now + g.nextDuration < TWO64
    then (g.(phase := Running, brush := g.nextBrush, duration := g.nextDuration, endsAt := now + g.nextDuration), true)
    else (g, false)
  }

  function Finish(g: Game): Game {
    if g.phase == Running then g.(phase := Finished, overs := g.overs + 1) else g
  }

  /** A paint of this generation by a player on the board notices that the time is over. */
  function Touch(g: Game, user: nat, generation: nat, x: nat, y: nat, now: nat): Game {
    if user in g.players && generation == g.generation && x < g.width && y < g.height && now >= g.endsAt then Finish(g) else g
  }

  /** What an operation does to the game; `who` sits in the seat that the operation names. */
  function Turn(g: Game, o: Op, who: nat): Game {
    match o
    case DoAssign(user, team) => Join(g, user, team).0
    case DoRemove(_, _, detachOk) => Leave(g, who, detachOk).0
    case DoReset(user, w, h, b, d, allocOk, detachOk) => SetUp(g, user, w, h, b, d, allocOk, detachOk).0
    case DoStart(now, timerOk) => Begin(g, now, timerOk).0
    case DoTimer => Finish(g)
    case DoPaint(_, generation, x, y, now) => Touch(g, who, generation, x, y, now)
  }

  // ---------------------------------------------------------------- a room shows a game

  /** The session in seat `i`, 0 for none. */
  function Who(r: Room, i: nat): nat {
    if i < |r.seats| then r.seats[i].session else 0
  }

  /** The team that a session sits for. */
  function TeamOf(seats: seq<Seat>, user: nat): Option<Team> {
    var i := SeatOf(seats, user, 0);
    if user == 0 || i.None? then None else Some(seats[i.value].team)
  }

  predicate SameTeam(seats: seq<Seat>, players: map<nat, Team>, user: nat) {
    TeamOf(seats, user) == if user in players then Some(players[user]) else None
  }

  ghost predicate SeatsShow(seats: seq<Seat>, players: map<nat, Team>) {
    forall user: nat :: SameTeam(seats, players, user)
  }

  /** The room is in order and shows the game. */
  ghost predicate Shows(r: Room, g: Game) {
    && RoomOk(r) && SeatsShow(r.seats, g.players) && r.initializer == g.owner && r.phase == g.phase && r.generation == g.generation
    && r.board.width == g.width && r.board.height == g.height && r.brush == g.brush && r.duration == g.duration && r.endsAt == g.endsAt
    && r.confBrush == g.nextBrush && r.confDuration == g.nextDuration && r.gameOvers == g.overs
  }

  // ---------------------------------------------------------------- seats and players

  ghost predicate Apart(seats: seq<Seat>) {
    forall i: int, j: int :: SeatsDifferAt(seats, i, j)
  }

  lemma SeatedTeam(seats: seq<Seat>, i: nat)
    requires Apart(seats) && i < |seats| && seats[i].session != 0
    ensures SeatOf(seats, seats[i].session, 0) == Some(i) && TeamOf(seats, seats[i].session) == Some(seats[i].team)
  {
    var j := SeatOf(seats, seats[i].session, 0).value;
    assert SeatsDifferAt(seats, j, i);
  }

  /** Another seat in place of seat `i`: who sat there sits nowhere, who sits there now has that team. */
  lemma SeatChanged(seats: seq<Seat>, i: nat, s: Seat, user: nat)
    requires i < |seats| && Apart(seats) && Apart(seats[i := s])
    ensures TeamOf(seats[i := s], user) == if user != 0 && user == s.session then Some(s.team) else if user == seats[i].session then None else TeamOf(seats, user)
  {
    var u := seats[i := s];
    if user != 0 {
      if user == s.session {
        SeatedTeam(u, i);
      } else if user == seats[i].session {
        forall j | 0 <= j < |u| ensures u[j].session != user { assert SeatsDifferAt(seats, i, j) && SeatsDifferAt(seats, j, i); }
      } else {
        var j, k := SeatOf(seats, user, 0), SeatOf(u, user, 0);
        if j.Some? { assert u[j.value] == seats[j.value]; SeatedTeam(u, j.value); }
        if k.Some? { assert u[k.value] == seats[k.value]; }
      }
    }
  }

  /** The sessions counted by Others. */
  ghost function Sitting(seats: seq<Seat>, user: nat, team: Team): set<nat> {
    set i | 0 <= i < |seats| && seats[i].session != 0 && seats[i].session != user && seats[i].team == team :: seats[i].session
  }

  lemma ApartTail(seats: seq<Seat>)
    requires seats != [] && Apart(seats)
    ensures Apart(seats[1..]) && forall i :: 0 <= i < |seats[1..]| && seats[0].session != 0 ==> seats[1..][i].session != seats[0].session
  {
    forall i: int, j: int ensures SeatsDifferAt(seats[1..], i, j) { assert SeatsDifferAt(seats, i + 1, j + 1); }
    forall i | 0 <= i < |seats[1..]| && seats[0].session != 0 ensures seats[1..][i].session != seats[0].session { assert SeatsDifferAt(seats, 0, i + 1); }
  }

  lemma SittingFirst(seats: seq<Seat>, user: nat, team: Team)
    requires seats != []
    ensures Sitting(seats, user, team) == Sitting(seats[1..], user, team)
      + if seats[0].session != 0 && seats[0].session != user && seats[0].team == team then {seats[0].session} else {}
  {
    var rest := seats[1..];
    forall s | s in Sitting(rest, user, team) ensures s in Sitting(seats, user, team) {
      var i :| 0 <= i < |rest| && rest[i].session != 0 && rest[i].session != user && rest[i].team == team && rest[i].session == s;
      assert seats[i + 1] == rest[i];
    }
    forall s | s in Sitting(seats, user, team) && s != seats[0].session ensures s in Sitting(rest, user, team) {
      var i :| 0 <= i < |seats| && seats[i].session != 0 && seats[i].session != user && seats[i].team == team && seats[i].session == s;
      assert rest[i - 1] == seats[i];
    }
    FirstAgain(seats, user, team);
  }

  /** The session of the first seat may sit further on only as the same kind. */
  lemma FirstAgain(seats: seq<Seat>, user: nat, team: Team)
    requires seats != []
    ensures seats[0].session in Sitting(seats, user, team) ==>
      seats[0].session in Sitting(seats[1..], user, team) || (seats[0].session != 0 && seats[0].session != user && seats[0].team == team)
  {
    if seats[0].session in Sitting(seats, user, team) {
      var i :| 0 <= i < |seats| && seats[i].session != 0 && seats[i].session != user && seats[i].team == team && seats[i].session == seats[0].session;
      if i > 0 { assert seats[1..][i - 1] == seats[i]; }
    }
  }

  lemma {:induction false} OthersIsSize(seats: seq<Seat>, user: nat, team: Team)
    requires Apart(seats)
    ensures Others(seats, user, team) == |Sitting(seats, user, team)|
  {
    if seats != [] {
      ApartTail(seats);
      OthersIsSize(seats[1..], user, team);
      SittingFirst(seats, user, team);
    }
  }

  lemma SittingIsSide(r: Room, g: Game, user: nat, team: Team)
    requires Shows(r, g)
    ensures Sitting(r.seats, user, team) == Side(g, team) - {user}
  {
    forall u | u in Side(g, team) && u != user ensures u in Sitting(r.seats, user, team) {
      assert SameTeam(r.seats, g.players, u);
      assert r.seats[SeatOf(r.seats, u, 0).value].session == u;
    }
    forall u | u in Sitting(r.seats, user, team) ensures u in Side(g, team) - {user} {
      assert SameTeam(r.seats, g.players, u);
      var i :| 0 <= i < |r.seats| && r.seats[i].session != 0 && r.seats[i].session != user && r.seats[i].team == team && r.seats[i].session == u;
      SeatedTeam(r.seats, i);
    }
  }

  /** The counting loops count the players of a team. */
  lemma CountsSide(r: Room, g: Game, user: nat, team: Team)
    requires Shows(r, g)
    ensures Others(r.seats, user, team) == |Side(g, team) - {user}|
  {
    OthersIsSize(r.seats, user, team);
    SittingIsSide(r, g, user, team);
  }

  // ---------------------------------------------------------------- every operation follows the rules

  lemma SeatsTurned(seats: seq<Seat>, players: map<nat, Team>, i: nat, s: Seat)
    requires SeatsShow(seats, players) && i < |seats| && Apart(seats) && Apart(seats[i := s]) && s.session != 0
    requires seats[i].session == 0 || seats[i].session == s.session
    ensures SeatsShow(seats[i := s], players[s.session := s.team])
  {
    var u, joined := seats[i := s], players[s.session := s.team];
    forall user: nat ensures SameTeam(u, joined, user) {
      assert SameTeam(seats, players, user);
      SeatChanged(seats, i, s, user);
    }
  }

  /** A player who joins gets a seat exactly when the rules let them join, and may reset iff they own the room. */
  lemma JoinFollows(r: Room, g: Game, user: nat, team: Team)
    requires Shows(r, g)
    ensures var a := Assign(r, user, team); var (g', ok) := Join(g, user, team);
            && Shows(a.room, g') && a.seat.Some? == ok && a.canReset == (ok && g'.owner == user)
            && (ok ==> Who(a.room, a.seat.value) == user)
  {
    CountsSide(r, g, user, team);
    AssignKeeps(r, user, team);
    var a := Assign(r, user, team);
    if a.seat.Some? {
      assert Apart(r.seats) && Apart(a.room.seats);
      SeatsTurned(r.seats, g.players, a.seat.value, a.room.seats[a.seat.value]);
    }
  }

  lemma SeatsLeft(seats: seq<Seat>, players: map<nat, Team>, i: nat)
    requires SeatsShow(seats, players) && i < |seats| && SeatsOk(seats) && seats[i].session != 0
    ensures var u := seats[i := Seat(0, Empty, 0)]; SeatsOk(u) && SeatsShow(u, players - {seats[i].session})
  {
    SeatFreed(seats, i);
    var u := seats[i := Seat(0, Empty, 0)];
    assert Apart(seats) && Apart(u);
    forall user: nat ensures SameTeam(u, players - {seats[i].session}, user) {
      assert SameTeam(seats, players, user);
      SeatChanged(seats, i, Seat(0, Empty, 0), user);
    }
  }

  lemma NobodyPlays(seats: seq<Seat>, players: map<nat, Team>)
    requires SeatsShow(seats, players) && Apart(seats)
    ensures Others(seats, 0, Red) + Others(seats, 0, Blue) + Others(seats, 0, Empty) == 0 <==> players == map[]
  {
    NobodyCounts(seats);
    if players == map[] {
      forall i | 0 <= i < |seats| ensures seats[i].session == 0 {
        assert SameTeam(seats, players, seats[i].session);
        if seats[i].session != 0 { SeatedTeam(seats, i); }
      }
    } else {
      var user :| user in players;
      assert SameTeam(seats, players, user);
    }
  }

  lemma CooledShow(seats: seq<Seat>, players: map<nat, Team>)
    requires SeatsShow(seats, players)
    ensures SeatsShow(Cooled(seats), players)
  {
    forall user: nat ensures SameTeam(Cooled(seats), players, user) {
      assert SameTeam(seats, players, user);
      SeatOfCooled(seats, user, 0);
    }
  }

  lemma {:induction false} SeatOfCooled(seats: seq<Seat>, user: nat, i: nat)
    requires i <= |seats|
    ensures SeatOf(Cooled(seats), user, i) == SeatOf(seats, user, i)
    decreases |seats| - i
  {
    if i < |seats| { SeatOfCooled(seats, user, i + 1); }
  }

  lemma ResetFollows(r: Room, g: Game, w: nat, h: nat, brush: nat, duration: nat, allocOk: bool, detachOk: bool)
    requires Shows(r, g) && w < 0x1_0000 && h < 0x1_0000
    ensures var (q, ok) := ForceReset(r, w, h, brush, duration, allocOk, detachOk);
            && (ok <==> w > 0 && h > 0 && (allocOk || (w == g.width && h == g.height)) && (g.phase != Waiting ==> detachOk))
            && Shows(q, if ok then Renewed(g, w, h, brush, duration) else g)
  {
    ForceResetKeeps(r, w, h, brush, duration, allocOk, detachOk);
    CooledShow(r.seats, g.players);
  }

  lemma LeaveFollows(r: Room, g: Game, i: nat, allocOk: bool, detachOk: bool)
    requires Shows(r, g)
    ensures var (q, answer) := RemovePlayer(r, i, allocOk, detachOk); var (g', answer') := Leave(g, Who(r, i), detachOk);
            Shows(q, g') && answer == answer'
  {
    var user := Who(r, i);
    assert SameTeam(r.seats, g.players, user);
    if user != 0 {
      assert Apart(r.seats);
      SeatedTeam(r.seats, i);
      var q, g' := r.(seats := r.seats[i := Seat(0, Empty, 0)]), g.(players := g.players - {user});
      SeatsLeft(r.seats, g.players, i);
      assert Apart(q.seats);
      NobodyPlays(q.seats, g'.players);
      ResetFollows(q, g', g.width, g.height, g.nextBrush, g.nextDuration, allocOk, detachOk);
    }
  }

  lemma SetUpFollows(r: Room, g: Game, user: nat, w: nat, h: nat, brush: nat, duration: nat, allocOk: bool, detachOk: bool)
    requires Shows(r, g) && w < 0x1_0000 && h < 0x1_0000
    ensures var (q, ok) := Reset(r, user, w, h, brush, duration, allocOk, detachOk);
            var (g', ok') := SetUp(g, user, w, h, brush, duration, allocOk, detachOk);
            Shows(q, g') && ok == ok'
  {
    ResetFollows(r, g, w, h, brush, duration, allocOk, detachOk);
  }

  lemma BeginFollows(r: Room, g: Game, now: nat, timerOk: bool)
    requires Shows(r, g)
    ensures var (q, ok) := Start(r, now, timerOk); var (g', ok') := Begin(g, now, timerOk); Shows(q, g') && ok == ok'
  {
    CountsSide(r, g, 0, Red);
    CountsSide(r, g, 0, Blue);
    assert SameTeam(r.seats, g.players, 0);
    assert Side(g, Red) - {0} == Side(g, Red) && Side(g, Blue) - {0} == Side(g, Blue);
    StartKeeps(r, now, timerOk);
    CooledShow(r.seats, g.players);
  }

  lemma PaintSeats(r: Room, g: Game, i: nat, generation: nat, x: nat, y: nat, now: nat)
    requires Shows(r, g)
    ensures SeatsShow(Paint(r, i, generation, x, y, now).0.seats, g.players)
  {
    var q := Paint(r, i, generation, x, y, now).0;
    PaintKeeps(r, i, generation, x, y, now);
    if i < |r.seats| && q.seats != r.seats {
      assert Apart(r.seats) && Apart(q.seats);
      forall user: nat ensures SameTeam(q.seats, g.players, user) {
        assert SameTeam(r.seats, g.players, user);
        SeatChanged(r.seats, i, q.seats[i], user);
        if user == r.seats[i].session && user != 0 { SeatedTeam(r.seats, i); }
      }
    }
  }

  /** A paint does not change who plays; it can only notice that the time is over. */
  lemma TouchFollows(r: Room, g: Game, i: nat, generation: nat, x: nat, y: nat, now: nat)
    requires Shows(r, g)
    ensures Shows(Paint(r, i, generation, x, y, now).0, Touch(g, Who(r, i), generation, x, y, now))
  {
    PaintKeeps(r, i, generation, x, y, now);
    PaintSeats(r, g, i, generation, x, y, now);
    assert SameTeam(r.seats, g.players, Who(r, i));
    if Who(r, i) != 0 {
      assert Apart(r.seats);
      SeatedTeam(r.seats, i);
    }
  }

  // ---------------------------------------------------------------- runs

  function WhoOf(r: Room, o: Op): nat {
    if o.DoRemove? || o.DoPaint? then Who(r, o.seat) else 0
  }

  lemma StepFollows(r: Room, g: Game, o: Op)
    requires Shows(r, g) && OpOk(o)
    ensures Shows(Step(r, o), Turn(g, o, WhoOf(r, o)))
  {
    match o
    case DoAssign(user, team) => JoinFollows(r, g, user, team);
    case DoRemove(i, allocOk, detachOk) => LeaveFollows(r, g, i, allocOk, detachOk);
    case DoReset(user, w, h, b, d, allocOk, detachOk) => SetUpFollows(r, g, user, w, h, b, d, allocOk, detachOk);
    case DoStart(now, timerOk) => BeginFollows(r, g, now, timerOk);
    case DoTimer =>
    case DoPaint(i, generation, x, y, now) => TouchFollows(r, g, i, generation, x, y, now);
  }

  predicate AllOk(ops: seq<Op>) {
    forall i :: 0 <= i < |ops| ==> OpOk(ops[i])
  }

  /** The game that a run plays by the rules. */
  ghost function Told(r: Room, g: Game, ops: seq<Op>): Game
    requires RoomOk(r) && AllOk(ops)
    decreases |ops|
  {
    if ops == [] then g else
      StepKeeps(r, ops[0]);
      Told(Step(r, ops[0]), Turn(g, ops[0], WhoOf(r, ops[0])), ops[1..])
  }

  lemma {:induction false} RunFollows(r: Room, g: Game, ops: seq<Op>)
    requires Shows(r, g) && AllOk(ops)
    ensures Shows(Run(r, ops), Told(r, g, ops))
    decreases |ops|
  {
    if ops != [] {
      StepFollows(r, g, ops[0]);
      RunFollows(Step(r, ops[0]), Turn(g, ops[0], WhoOf(r, ops[0])), ops[1..]);
    }
  }

  /** From a new room on, every run of the room is a game played by the rules. */
  lemma EveryRunFollows(w: nat, h: nat, ops: seq<Op>)
    requires 0 < w < 0x1_0000 && 0 < h < 0x1_0000 && AllOk(ops)
    ensures RoomOk(NewRoom(w, h)) && Shows(Run(NewRoom(w, h), ops), Told(NewRoom(w, h), NewGame(w, h), ops))
  {
    var r := NewRoom(w, h);
    NewRoomOk(w, h);
    forall user: nat ensures SameTeam(r.seats, map[], user) { }
    RunFollows(r, NewGame(w, h), ops);
  }

  // ---------------------------------------------------------------- the last word

  /** What callers hear: who was seated in which team, and who was removed. */
  datatype News = Joined(user: nat, team: Team) | Gone(user: nat)

  function Heard(r: Room, o: Op): seq<News>
    requires BoardOk(r.board)
  {
    match o
    case DoAssign(user, team) => if Assign(r, user, team).seat.Some? then [Joined(user, team)] else []
    case DoRemove(i, allocOk, detachOk) => if RemovePlayer(r, i, allocOk, detachOk).1 == RemoveError then [] else [Gone(Who(r, i))]
    case _ => []
  }

  ghost function Chronicle(r: Room, ops: seq<Op>): seq<News>
    requires RoomOk(r) && AllOk(ops)
    decreases |ops|
  {
    if ops == [] then [] else
      StepKeeps(r, ops[0]);
      Heard(r, ops[0]) + Chronicle(Step(r, ops[0]), ops[1..])
  }

  /** The team of the last seating of `user`, unless a removal came after it; `before` if there is no news of them. */
  function LastWord(news: seq<News>, user: nat, before: Option<Team>): Option<Team>
    decreases |news|
  {
    if news == [] then before
    else
      var last := news[|news| - 1];
      if last.user != user then LastWord(news[..|news| - 1], user, before)
      else if last.Joined? then Some(last.team) else None
  }

  lemma {:induction false} LastWordAfter(a: seq<News>, b: seq<News>, user: nat, before: Option<Team>)
    ensures LastWord(a + b, user, before) == LastWord(b, user, LastWord(a, user, before))
    decreases |b|
  {
    if b == [] {
      assert a + b == a;
    } else {
      assert (a + b)[..|a + b| - 1] == a + b[..|b| - 1];
      LastWordAfter(a, b[..|b| - 1], user, before);
    }
  }

  ghost function Sessions(seats: seq<Seat>): set<nat> {
    set i | 0 <= i < |seats| :: seats[i].session
  }

  /** The game that a room shows. */
  ghost function GameOf(r: Room): Game {
    Game(map user | user in Sessions(r.seats) && TeamOf(r.seats, user).Some? :: TeamOf(r.seats, user).value,
         r.initializer, r.phase, r.generation, r.board.width, r.board.height, r.brush, r.duration, r.endsAt, r.confBrush, r.confDuration, r.gameOvers)
  }

  lemma GameShown(r: Room)
    requires RoomOk(r)
    ensures Shows(r, GameOf(r))
  {
    forall user: nat ensures SameTeam(r.seats, GameOf(r).players, user) {
      var i := SeatOf(r.seats, user, 0);
      if i.Some? { assert r.seats[i.value].session in Sessions(r.seats); }
    }
  }

  lemma HeardTeam(r: Room, o: Op, user: nat)
    requires RoomOk(r) && OpOk(o) && user != 0
    ensures TeamOf(Step(r, o).seats, user) == LastWord(Heard(r, o), user, TeamOf(r.seats, user))
  {
    var g := GameOf(r);
    GameShown(r);
    StepFollows(r, g, o);
    TurnHeard(r, g, o, user);
    assert SameTeam(r.seats, g.players, user) && SameTeam(Step(r, o).seats, Turn(g, o, WhoOf(r, o)).players, user);
  }

  function TeamIn(g: Game, user: nat): Option<Team> {
    if user in g.players then Some(g.players[user]) else None
  }

  /** The news are what the rules do to the players. */
  lemma TurnHeard(r: Room, g: Game, o: Op, user: nat)
    requires Shows(r, g) && OpOk(o)
    ensures TeamIn(Turn(g, o, WhoOf(r, o)), user) == LastWord(Heard(r, o), user, TeamIn(g, user))
  {
    if o.DoAssign? {
      JoinFollows(r, g, o.user, o.team);
    } else if o.DoRemove? {
      LeaveFollows(r, g, o.seat, o.allocOk, o.detachOk);
      LeaveHeard(g, Who(r, o.seat), o.detachOk, user);
    }
  }

  lemma LeaveHeard(g: Game, who: nat, detachOk: bool, user: nat)
    ensures var (g', answer) := Leave(g, who, detachOk);
            TeamIn(g', user) == if answer != RemoveError && user == who then None else TeamIn(g, user)
  {
  }

  /** Over every run, a session sits exactly where the last word about it puts it: seated and not removed since. */
  lemma {:induction false} LastWordHolds(r: Room, ops: seq<Op>, user: nat)
    requires RoomOk(r) && AllOk(ops) && user != 0
    ensures TeamOf(Run(r, ops).seats, user) == LastWord(Chronicle(r, ops), user, TeamOf(r.seats, user))
    decreases |ops|
  {
    if ops != [] {
      StepKeeps(r, ops[0]);
      HeardTeam(r, ops[0], user);
      LastWordHolds(Step(r, ops[0]), ops[1..], user);
      LastWordAfter(Heard(r, ops[0]), Chronicle(Step(r, ops[0]), ops[1..]), user, TeamOf(r.seats, user));
    }
  }
}
