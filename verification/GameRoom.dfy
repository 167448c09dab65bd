/**
 The paint game of src/game_room.c as a state machine: seats and teams, the game timer, generations, cooldowns and
 the brush on the board of src/pixel_board.c.
 */
module GameRoom {
  import opened Common

  const MAX_PLAYERS: nat := 64
  const COOLDOWN_MS: nat := 100
  const MAX_BRUSH_SIZE: nat := 50
  const TEAM_SIZE: nat := 3
  const TWO64: nat := 0x1_0000_0000_0000_0000
  const LONG_MAX: nat := 0x7FFF_FFFF_FFFF_FFFF

  datatype Team = Empty | Red | Blue
  datatype Phase = Waiting | Running | Finished

  /** A seat is free when its session is 0. */
  datatype Seat = Seat(session: nat, team: Team, cooldown: nat)

  datatype Board = Board(width: nat, height: nat, pixels: seq<Team>)

  datatype Room = Room(
    board: Board, generation: nat, phase: Phase, brush: nat, duration: nat, endsAt: nat, timer: bool,
    initializer: nat, confBrush: nat, confDuration: nat, seats: seq<Seat>, gameOvers: nat)

  // ---------------------------------------------------------------- the board

  predicate BoardOk(b: Board) {
    0 < b.width < 0x1_0000 && 0 < b.height < 0x1_0000 && |b.pixels| == b.width * b.height
  }

  function Blank(w: nat, h: nat): Board { Board(w, h, seq(w * h, _ => Empty)) }

  /** The brush square around (x, y): from `bs / 2` to the left and above, `bs` wide and high. */
  predicate InSquare(cx: int, cy: int, x: int, y: int, bs: int) {
    x - bs / 2 <= cx < x - bs / 2 + bs && y - bs / 2 <= cy < y - bs / 2 + bs
  }

  /** The board with the part of the square that lies on it painted. */
  function PaintSquare(b: Board, x: nat, y: nat, bs: nat, team: Team): (r: Board)
    requires b.width > 0
  {
    b.(pixels := seq(|b.pixels|, i requires 0 <= i < |b.pixels| =>
      if InSquare(i % b.width, i / b.width, x, y, bs) then team else b.pixels[i]))
  }

  // ---------------------------------------------------------------- seats

  /** Occupied seats of a team, those of `user` left out. */
  function Others(seats: seq<Seat>, user: nat, team: Team): nat {
    if seats == [] then 0
    else Bit(seats[0].session != 0 && seats[0].session != user && seats[0].team == team) + Others(seats[1..], user, team)
  }

  function CountTeam(seats: seq<Seat>, team: Team): nat { Others(seats, 0, team) }

  /** The first seat from `i` on with that session. */
  function SeatOf(seats: seq<Seat>, session: nat, i: nat): (r: Option<nat>)
    requires i <= |seats|
    ensures r.Some? ==> i <= r.value < |seats| && seats[r.value].session == session
    ensures forall j :: i <= j < (if r.Some? then r.value else |seats|) ==> seats[j].session != session
    decreases |seats| - i
  {
    if i == |seats| then None else if seats[i].session == session then Some(i) else SeatOf(seats, session, i + 1)
  }

  datatype Assigned = Assigned(room: Room, seat: Option<nat>, canReset: bool)

  /** GameRoom_assign_player. */
  function Assign(r: Room, user: nat, team: Team): Assigned {
    if user == 0 || team == Empty || r.phase != Waiting || Others(r.seats, user, team) >= TEAM_SIZE then Assigned(r, None, false)
    else
      var q := if r.initializer == 0 then r.(initializer := user) else r;
      var mine, free := SeatOf(r.seats, user, 0), SeatOf(r.seats, 0, 0);
      if mine.Some? then
        var s := r.seats[mine.value].(team := team);
        Assigned(q.(seats := r.seats[mine.value := s]), mine, q.initializer == user)
      else if free.Some? then Assigned(q.(seats := r.seats[free.value := Seat(user, team, 0)]), free, q.initializer == user)
      else Assigned(q, None, false)
  }

  // ---------------------------------------------------------------- the life of a game

  /** _GameRoom_force_reset; the environment says whether a board can be allocated and the timer removed. */
  function ForceReset(r: Room, w: nat, h: nat, brush: nat, duration: nat, allocOk: bool, detachOk: bool): (Room, bool) {
    var fresh_ := r.board.width != w || r.board.height != h;
    if w == 0 || h == 0 || (fresh_ && !allocOk) || (r.timer && !detachOk) then (r, false)
    else (r.(board := Blank(w, h), timer := false, generation := (r.generation + 1) % TWO64, brush := 0, duration := 0, endsAt := 0,
             confBrush := brush, confDuration := duration, phase := Waiting, seats := Cooled(r.seats)), true)
  }

  function Cooled(seats: seq<Seat>): (r: seq<Seat>)
    ensures |r| == |seats| && forall i :: 0 <= i < |r| ==> r[i] == seats[i].(cooldown := 0)
  {
    seq(|seats|, i requires 0 <= i < |seats| => seats[i].(cooldown := 0))
  }

  datatype Removed = RemoveOk | RemoveError | AutoResetFailed

  function RemovePlayer(r: Room, i: nat, allocOk: bool, detachOk: bool): (Room, Removed) {
    if i >= |r.seats| || r.seats[i].session == 0 then (r, RemoveError)
    else
      var q := r.(seats := r.seats[i := Seat(0, Empty, 0)]);
      if Others(q.seats, 0, Red) + Others(q.seats, 0, Blue) + Others(q.seats, 0, Empty) > 0 then (q, RemoveOk)
      else if q.phase == Waiting then (q.(initializer := 0), RemoveOk)
      else
        var (s, ok) := ForceReset(q, q.board.width, q.board.height, q.confBrush, q.confDuration, allocOk, detachOk);
        if ok then (s.(initializer := 0), RemoveOk) else (q, AutoResetFailed)
  }

  function CanStart(r: Room): bool {
    r.phase == Waiting && CountTeam(r.seats, Red) >= 1 && CountTeam(r.seats, Blue) >= 1
  }

  /** GameRoom_reset. */
  function Reset(r: Room, requester: nat, w: nat, h: nat, brush: nat, duration: nat, allocOk: bool, detachOk: bool): (Room, bool) {
    if w == 0 || h == 0 || brush == 0 || duration == 0 || r.phase == Running || requester == 0 || requester != r.initializer then (r, false)
    else ForceReset(r, w, h, brush, duration, allocOk, detachOk)
  }

  /** GameRoom_start; `timerOk` tells whether the timer could be created and added. */
  function Start(r: Room, now: nat, timerOk: bool): (Room, bool) {
    if !CanStart(r) || r.timer || r.confBrush == 0 || r.confBrush > MAX_BRUSH_SIZE || r.confDuration == 0
       || r.confDuration > LONG_MAX || now + r.confDuration >= TWO64 || !timerOk then (r, false)
    else (r.(timer := true, seats := Cooled(r.seats), brush := r.confBrush, duration := r.confDuration,
             endsAt := now + r.confDuration, phase := Running), true)
  }

  /** GameRoom_trigger_time_over. */
  function TimeOver(r: Room): Room {
    if r.phase == Running then r.(phase := Finished, gameOvers := r.gameOvers + 1) else r
  }

  function CheckOver(r: Room, now: nat): Room {
    if r.phase == Running && now >= r.endsAt then TimeOver(r) else r
  }

  datatype Painted = Changed | Unchanged | TooSoon | PaintError | TooLate | Stale

  /** GameRoom_paint. */
  function Paint(r: Room, i: nat, generation: nat, x: nat, y: nat, now: nat): (Room, Painted)
    requires BoardOk(r.board)
  {
    if i >= |r.seats| then (r, PaintError)
    else if generation != r.generation then (r, Stale)
    else if r.seats[i].session == 0 || x >= r.board.width || y >= r.board.height then (r, PaintError)
    else
      var q := CheckOver(r, now);
      if q.phase != Running then (q, TooLate)
      else if now < q.seats[i].cooldown then (q, TooSoon)
      else
        var b := PaintSquare(q.board, x, y, q.brush, q.seats[i].team);
        (q.(board := b, seats := q.seats[i := q.seats[i].(cooldown := (now + COOLDOWN_MS) % TWO64)]),
         if b == q.board then Unchanged else Changed)
  }

  predicate Accepted(p: Painted) { p == Changed || p == Unchanged }

  // ---------------------------------------------------------------- what always holds

  ghost predicate SeatsDifferAt(seats: seq<Seat>, i: int, j: int) {
    0 <= i < j < |seats| && seats[i].session != 0 ==> seats[i].session != seats[j].session
  }

  ghost predicate SeatTeamAt(seats: seq<Seat>, i: int) {
    0 <= i < |seats| ==> (seats[i].session == 0 <==> seats[i].team == Empty)
  }

  ghost predicate SeatsOk(seats: seq<Seat>) {
    && |seats| == MAX_PLAYERS
    && (forall i: int, j: int :: SeatsDifferAt(seats, i, j)) && (forall i: int :: SeatTeamAt(seats, i))
    && CountTeam(seats, Red) <= TEAM_SIZE && CountTeam(seats, Blue) <= TEAM_SIZE
  }

  ghost predicate RoomOk(r: Room) {
    BoardOk(r.board) && SeatsOk(r.seats) && (r.phase == Waiting <==> !r.timer) && (r.phase == Running ==> 0 < r.brush <= MAX_BRUSH_SIZE)
  }

  // ---------------------------------------------------------------- counting seats

  lemma {:induction false} OthersUpdate(seats: seq<Seat>, i: nat, s: Seat, user: nat, team: Team)
    requires i < |seats|
    ensures Others(seats[i := s], user, team)
         == Others(seats, user, team) - Bit(seats[i].session != 0 && seats[i].session != user && seats[i].team == team)
          + Bit(s.session != 0 && s.session != user && s.team == team)
    decreases |seats|
  {
    var u := seats[i := s];
    if i == 0 {
      assert u[1..] == seats[1..];
    } else {
      assert u[1..] == seats[1..][i - 1 := s] && u[0] == seats[0];
      OthersUpdate(seats[1..], i - 1, s, user, team);
    }
  }

  /** Leaving out a session that sits nowhere changes nothing. */
  lemma {:induction false} OthersAbsent(seats: seq<Seat>, user: nat, team: Team)
    requires forall i :: 0 <= i < |seats| ==> seats[i].session != user || user == 0
    ensures Others(seats, user, team) == CountTeam(seats, team)
  {
    if seats != [] { OthersAbsent(seats[1..], user, team); }
  }

  /** Leaving out one that sits in one seat takes that seat away. */
  lemma OthersPresent(seats: seq<Seat>, user: nat, team: Team, i: nat)
    requires user != 0 && i < |seats| && seats[i].session == user && forall j :: 0 <= j < |seats| && j != i ==> seats[j].session != user
    ensures Others(seats, user, team) == CountTeam(seats, team) - Bit(seats[i].team == team)
  {
    var u := seats[i := Seat(0, Empty, 0)];
    OthersUpdate(seats, i, Seat(0, Empty, 0), user, team);
    OthersUpdate(seats, i, Seat(0, Empty, 0), 0, team);
    OthersAbsent(u, user, team);
  }

  lemma {:induction false} AllTaken(seats: seq<Seat>)
    requires (forall i :: 0 <= i < |seats| ==> seats[i].session != 0) && forall i: int :: SeatTeamAt(seats, i)
    ensures CountTeam(seats, Red) + CountTeam(seats, Blue) == |seats|
  {
    if seats != [] {
      assert SeatTeamAt(seats, 0);
      forall i: int ensures SeatTeamAt(seats[1..], i) { assert SeatTeamAt(seats, i + 1); }
      AllTaken(seats[1..]);
    }
  }

  lemma {:induction false} CooledCounts(seats: seq<Seat>, user: nat, team: Team)
    ensures Others(Cooled(seats), user, team) == Others(seats, user, team)
  {
    if seats != [] {
      assert Cooled(seats)[1..] == Cooled(seats[1..]);
      CooledCounts(seats[1..], user, team);
    }
  }

  lemma CooledOk(seats: seq<Seat>)
    requires SeatsOk(seats)
    ensures SeatsOk(Cooled(seats))
  {
    CooledCounts(seats, 0, Red);
    CooledCounts(seats, 0, Blue);
    forall i: int, j: int ensures SeatsDifferAt(Cooled(seats), i, j) { assert SeatsDifferAt(seats, i, j); }
    forall i: int ensures SeatTeamAt(Cooled(seats), i) { assert SeatTeamAt(seats, i); }
  }

  lemma SeatIsUnique(seats: seq<Seat>, i: nat, user: nat)
    requires (forall a: int, b: int :: SeatsDifferAt(seats, a, b)) && i < |seats| && user != 0 && seats[i].session == user
    ensures forall j :: 0 <= j < |seats| && j != i ==> seats[j].session != user
  {
    forall j | 0 <= j < |seats| && j != i ensures seats[j].session != user {
      assert SeatsDifferAt(seats, i, j) && SeatsDifferAt(seats, j, i);
    }
  }

  /** Putting a session into a seat where it sat before, or anywhere when it sits nowhere. */
  lemma SeatTaken(seats: seq<Seat>, i: nat, s: Seat)
    requires SeatsOk(seats) && i < |seats| && s.session != 0 && s.team != Empty
    requires seats[i].session == 0 || seats[i].session == s.session
    requires forall j :: 0 <= j < |seats| && j != i ==> seats[j].session != s.session
    requires Others(seats, s.session, s.team) < TEAM_SIZE
    ensures SeatsOk(seats[i := s])
  {
    var u := seats[i := s];
    forall a: int, b: int ensures SeatsDifferAt(u, a, b) { assert SeatsDifferAt(seats, a, b); }
    forall a: int ensures SeatTeamAt(u, a) { assert SeatTeamAt(seats, a); }
    TeamAfter(seats, i, s, Red);
    TeamAfter(seats, i, s, Blue);
  }

  lemma TeamAfter(seats: seq<Seat>, i: nat, s: Seat, team: Team)
    requires SeatsOk(seats) && i < |seats| && s.session != 0 && team != Empty
    requires seats[i].session == 0 || seats[i].session == s.session
    requires forall j :: 0 <= j < |seats| && j != i ==> seats[j].session != s.session
    requires s.team == team ==> Others(seats, s.session, team) < TEAM_SIZE
    ensures CountTeam(seats[i := s], team) <= TEAM_SIZE
  {
    OthersUpdate(seats, i, s, 0, team);
    assert SeatTeamAt(seats, i);
    if seats[i].session == 0 { OthersAbsent(seats, s.session, team); } else { OthersPresent(seats, s.session, team, i); }
  }

  // ---------------------------------------------------------------- every operation keeps it

  /** Once the team check passes, a seat is found; teams stay within three, sessions within one seat each. */
  lemma AssignKeeps(r: Room, user: nat, team: Team)
    requires RoomOk(r)
    ensures RoomOk(Assign(r, user, team).room)
    ensures user != 0 && team != Empty && r.phase == Waiting && Others(r.seats, user, team) < TEAM_SIZE ==>
              var a := Assign(r, user, team);
              a.seat.Some? && a.room.seats[a.seat.value].session == user && a.room.seats[a.seat.value].team == team
  {
    if user != 0 && team != Empty && r.phase == Waiting && Others(r.seats, user, team) < TEAM_SIZE {
      var mine, free := SeatOf(r.seats, user, 0), SeatOf(r.seats, 0, 0);
      if mine.Some? {
        SeatIsUnique(r.seats, mine.value, user);
        SeatTaken(r.seats, mine.value, r.seats[mine.value].(team := team));
      } else {
        if free.None? { AllTaken(r.seats); }
        SeatTaken(r.seats, free.value, Seat(user, team, 0));
      }
    }
  }

  lemma SeatFreed(seats: seq<Seat>, i: nat)
    requires SeatsOk(seats) && i < |seats|
    ensures SeatsOk(seats[i := Seat(0, Empty, 0)])
  {
    var u := seats[i := Seat(0, Empty, 0)];
    forall a: int, b: int ensures SeatsDifferAt(u, a, b) { assert SeatsDifferAt(seats, a, b); }
    forall a: int ensures SeatTeamAt(u, a) { assert SeatTeamAt(seats, a); }
    OthersUpdate(seats, i, Seat(0, Empty, 0), 0, Red);
    OthersUpdate(seats, i, Seat(0, Empty, 0), 0, Blue);
  }

  /** A reset that fails changes nothing; one that succeeds leaves a waiting room with a blank board. */
  lemma ForceResetKeeps(r: Room, w: nat, h: nat, brush: nat, duration: nat, allocOk: bool, detachOk: bool)
    requires RoomOk(r) && w < 0x1_0000 && h < 0x1_0000
    ensures var (q, ok) := ForceReset(r, w, h, brush, duration, allocOk, detachOk);
            RoomOk(q) && (!ok ==> q == r) && (ok ==> q.phase == Waiting && q.generation != r.generation && q.board == Blank(w, h))
  {
    CooledOk(r.seats);
  }

  predicate Nobody(seats: seq<Seat>) { forall j :: 0 <= j < |seats| ==> seats[j].session == 0 }

  /**
   Removing fails exactly when nobody sits there; otherwise that session sits nowhere, everyone else stays, and a room
   that is empty then waits for another game, with no owner and, if a game was on, in a new generation.
   */
  lemma RemoveKeeps(r: Room, i: nat, allocOk: bool, detachOk: bool)
    requires RoomOk(r)
    ensures var (q, answer) := RemovePlayer(r, i, allocOk, detachOk);
            && RoomOk(q) && |q.seats| == |r.seats|
            && (answer == RemoveError <==> i >= |r.seats| || r.seats[i].session == 0) && (answer == RemoveError ==> q == r)
            && (answer != RemoveError ==>
                 && (forall j :: 0 <= j < |q.seats| ==> q.seats[j].session != r.seats[i].session)
                 && (forall j :: 0 <= j < |q.seats| && j != i ==> q.seats[j].session == r.seats[j].session && q.seats[j].team == r.seats[j].team))
            && (answer == RemoveOk && Nobody(q.seats) ==>
                 q.phase == Waiting && !q.timer && q.initializer == 0 && (r.phase != Waiting ==> q.generation != r.generation))
  {
    if i < |r.seats| && r.seats[i].session != 0 {
      SeatFreed(r.seats, i);
      var q := r.(seats := r.seats[i := Seat(0, Empty, 0)]);
      ForceResetKeeps(q, q.board.width, q.board.height, q.confBrush, q.confDuration, allocOk, detachOk);
      SeatIsUnique(r.seats, i, r.seats[i].session);
      NobodyCounts(q.seats);
    }
  }

  lemma {:induction false} NobodyCounts(seats: seq<Seat>)
    ensures Others(seats, 0, Red) + Others(seats, 0, Blue) + Others(seats, 0, Empty) == 0 <==> Nobody(seats)
  {
    if seats != [] {
      NobodyCounts(seats[1..]);
      assert forall i :: 0 < i < |seats| ==> seats[i] == seats[1..][i - 1];
      assert forall i :: 0 <= i < |seats[1..]| ==> seats[1..][i] == seats[i + 1];
    }
  }

  lemma StartKeeps(r: Room, now: nat, timerOk: bool)
    requires RoomOk(r)
    ensures RoomOk(Start(r, now, timerOk).0)
  {
    CooledOk(r.seats);
  }

  lemma PaintKeeps(r: Room, i: nat, generation: nat, x: nat, y: nat, now: nat)
    requires RoomOk(r)
    ensures RoomOk(Paint(r, i, generation, x, y, now).0)
  {
    if i < |r.seats| {
      var s := r.seats[i].(cooldown := (now + COOLDOWN_MS) % TWO64);
      var u := r.seats[i := s];
      forall a: int, b: int ensures SeatsDifferAt(u, a, b) { assert SeatsDifferAt(r.seats, a, b); }
      forall a: int ensures SeatTeamAt(u, a) { assert SeatTeamAt(r.seats, a); }
      OthersUpdate(r.seats, i, s, 0, Red);
      OthersUpdate(r.seats, i, s, 0, Blue);
    }
  }

  // ---------------------------------------------------------------- runs

  datatype Op =
    | DoAssign(user: nat, team: Team)
    | DoRemove(seat: nat, allocOk: bool, detachOk: bool)
    | DoReset(requester: nat, w: nat, h: nat, brush: nat, duration: nat, allocOk: bool, detachOk: bool)
    | DoStart(now: nat, timerOk: bool)
    | DoTimer
    | DoPaint(seat: nat, generation: nat, x: nat, y: nat, now: nat)

  predicate OpOk(o: Op) { o.DoReset? ==> o.w < 0x1_0000 && o.h < 0x1_0000 }

  function Step(r: Room, o: Op): Room
    requires BoardOk(r.board)
  {
    match o
    case DoAssign(user, team) => Assign(r, user, team).room
    case DoRemove(i, a, d) => RemovePlayer(r, i, a, d).0
    case DoReset(q, w, h, b, t, a, d) => Reset(r, q, w, h, b, t, a, d).0
    case DoStart(now, ok) => Start(r, now, ok).0
    case DoTimer => TimeOver(r)
    case DoPaint(i, g, x, y, now) => Paint(r, i, g, x, y, now).0
  }

  lemma StepKeeps(r: Room, o: Op)
    requires RoomOk(r) && OpOk(o)
    ensures RoomOk(Step(r, o))
  {
    match o
    case DoAssign(user, team) => AssignKeeps(r, user, team);
    case DoRemove(i, a, d) => RemoveKeeps(r, i, a, d);
    case DoReset(q, w, h, b, t, a, d) => ForceResetKeeps(r, w, h, b, t, a, d);
    case DoStart(now, ok) => StartKeeps(r, now, ok);
    case DoTimer =>
    case DoPaint(i, g, x, y, now) => PaintKeeps(r, i, g, x, y, now);
  }

  /** A new room. */
  function NewRoom(w: nat, h: nat): Room {
    Room(Blank(w, h), 1, Waiting, 0, 0, 0, false, 0, 5, 180000, seq(MAX_PLAYERS, _ => Seat(0, Empty, 0)), 0)
  }

  lemma {:induction false} NoOneCounts(n: nat, team: Team)
    ensures CountTeam(seq(n, _ => Seat(0, Empty, 0)), team) == 0
  {
    if n > 0 {
      assert seq(n, _ => Seat(0, Empty, 0))[1..] == seq(n - 1, _ => Seat(0, Empty, 0));
      NoOneCounts(n - 1, team);
    }
  }

  lemma NewRoomOk(w: nat, h: nat)
    requires 0 < w < 0x1_0000 && 0 < h < 0x1_0000
    ensures RoomOk(NewRoom(w, h))
  {
    NoOneCounts(MAX_PLAYERS, Red);
    NoOneCounts(MAX_PLAYERS, Blue);
  }

  /** The room after a whole run; every room on the way is as it should be. */
  function Run(r: Room, ops: seq<Op>): (q: Room)
    requires RoomOk(r) && forall i :: 0 <= i < |ops| ==> OpOk(ops[i])
    ensures RoomOk(q)
    decreases |ops|
  {
    if ops == [] then r else
      StepKeeps(r, ops[0]);
      Run(Step(r, ops[0]), ops[1..])
  }

  // ---------------------------------------------------------------- what a paint does

  /** A paint that is stale, late, out of turn or out of place touches neither the board nor a seat. */
  lemma PaintWithoutEffect(r: Room, i: nat, generation: nat, x: nat, y: nat, now: nat)
    requires RoomOk(r)
    ensures var (q, p) := Paint(r, i, generation, x, y, now);
            && (Accepted(p) <==> generation == r.generation && r.phase == Running && now < r.endsAt && i < |r.seats|
                                 && r.seats[i].session != 0 && x < r.board.width && y < r.board.height && r.seats[i].cooldown <= now)
            && (!Accepted(p) ==> q.board == r.board && q.seats == r.seats && q.generation == r.generation)
            && (p == Changed <==> q.board != r.board) && (p == Stale <==> i < |r.seats| && generation != r.generation)
  {
  }

  function Pixel(b: Board, cx: nat, cy: nat): Team
    requires BoardOk(b) && cx < b.width && cy < b.height
  {
    PlaceIs(b.width, b.height, cx, cy);
    b.pixels[cy * b.width + cx]
  }

  lemma PlaceIs(w: nat, h: nat, cx: nat, cy: nat)
    requires cx < w && cy < h
    ensures 0 <= cy * w + cx < w * h && (cy * w + cx) % w == cx && (cy * w + cx) / w == cy
  {
    MulNonNegative(cy, w);
    MulNonNegative(h - cy - 1, w);
    assert (h - cy - 1) * w == w * h - cy * w - w;
    DivMod(w, cy, cx);
  }

  lemma MulGrows(k: int, w: int)
    requires w >= 0
    ensures k >= 1 ==> k * w >= w
    ensures k <= -1 ==> k * w <= -w
  {
    if k >= 1 { MulNonNegative(k - 1, w); }
    if k <= -1 { MulNonNegative(-k - 1, w); }
  }

  lemma MulNonNegative(k: nat, w: nat)
    ensures k * w >= 0
  {
  }

  lemma DivMod(w: nat, q: nat, r: nat)
    requires r < w
    ensures (q * w + r) / w == q && (q * w + r) % w == r
  {
    var n := q * w + r;
    var k := n / w - q;
    assert n == n / w * w + n % w;
    assert k * w == r - n % w;
    MulGrows(k, w);
  }

  /** An accepted paint colours exactly the part of the brush square that lies on the board, and nothing else. */
  lemma PaintIsSquare(r: Room, i: nat, generation: nat, x: nat, y: nat, now: nat, cx: nat, cy: nat)
    requires RoomOk(r) && Accepted(Paint(r, i, generation, x, y, now).1) && cx < r.board.width && cy < r.board.height
    ensures var q := Paint(r, i, generation, x, y, now).0;
            && BoardOk(q.board) && q.board.width == r.board.width && q.board.height == r.board.height
            && var dx, dy := cx as int - x + r.brush / 2, cy as int - y + r.brush / 2;
               Pixel(q.board, cx, cy) == if 0 <= dx < r.brush && 0 <= dy < r.brush then r.seats[i].team else Pixel(r.board, cx, cy)
  {
    PlaceIs(r.board.width, r.board.height, cx, cy);
  }

  // ---------------------------------------------------------------- paints of one seat in one game

  /** While the game runs, the seat may not paint before `t` plus the cooldown. */
  ghost predicate Resting(r: Room, i: nat, t: nat) {
    r.phase == Running && i < |r.seats| && r.seats[i].session != 0 ==> r.seats[i].cooldown >= t + COOLDOWN_MS
  }

  /** Operations within one game, at times that leave room for the cooldown. */
  predicate InGame(o: Op) { OpOk(o) && !o.DoStart? && (o.DoPaint? ==> o.now + COOLDOWN_MS < TWO64) }

  lemma StepResting(r: Room, o: Op, i: nat, t: nat)
    requires RoomOk(r) && InGame(o) && Resting(r, i, t)
    ensures Resting(Step(r, o), i, t)
  {
  }

  lemma {:induction false} RunResting(r: Room, ops: seq<Op>, i: nat, t: nat)
    requires RoomOk(r) && (forall j :: 0 <= j < |ops| ==> OpOk(ops[j]) && InGame(ops[j])) && Resting(r, i, t)
    ensures Resting(Run(r, ops), i, t)
    decreases |ops|
  {
    if ops != [] {
      StepKeeps(r, ops[0]);
      StepResting(r, ops[0], i, t);
      RunResting(Step(r, ops[0]), ops[1..], i, t);
    }
  }

  /** Two accepted paints of one seat in one game are at least 100 ms apart, whatever happens between them. */
  lemma PaintsApart(r: Room, i: nat, first: Op, ops: seq<Op>, second: Op)
    requires RoomOk(r) && first.DoPaint? && second.DoPaint? && first.seat == i == second.seat && InGame(first)
    requires forall j :: 0 <= j < |ops| ==> OpOk(ops[j]) && InGame(ops[j])
    requires Accepted(Paint(r, i, first.generation, first.x, first.y, first.now).1)
    requires Accepted(Paint(Run(r, [first] + ops), i, second.generation, second.x, second.y, second.now).1)
    ensures second.now >= first.now + COOLDOWN_MS
  {
    RestsAfter(r, i, first, ops);
    RestingRefuses(Run(r, [first] + ops), i, first.now, second);
  }

  lemma RestsAfter(r: Room, i: nat, paint: Op, ops: seq<Op>)
    requires RoomOk(r) && paint.DoPaint? && paint.seat == i && InGame(paint)
    requires forall j :: 0 <= j < |ops| ==> OpOk(ops[j]) && InGame(ops[j])
    requires Accepted(Paint(r, i, paint.generation, paint.x, paint.y, paint.now).1)
    ensures Resting(Run(r, [paint] + ops), i, paint.now)
  {
    PaintRests(r, i, paint);
    RunFirst(r, paint, ops);
    RunResting(Step(r, paint), ops, i, paint.now);
  }

  lemma PaintRests(r: Room, i: nat, paint: Op)
    requires RoomOk(r) && paint.DoPaint? && paint.seat == i && InGame(paint)
    requires Accepted(Paint(r, i, paint.generation, paint.x, paint.y, paint.now).1)
    ensures RoomOk(Step(r, paint)) && Resting(Step(r, paint), i, paint.now)
  {
    StepKeeps(r, paint);
  }

  lemma RunFirst(r: Room, first: Op, ops: seq<Op>)
    requires RoomOk(r) && OpOk(first) && forall j :: 0 <= j < |ops| ==> OpOk(ops[j])
    ensures RoomOk(Step(r, first)) && Run(r, [first] + ops) == Run(Step(r, first), ops)
  {
    StepKeeps(r, first);
    assert ([first] + ops)[1..] == ops;
  }

  lemma RestingRefuses(r: Room, i: nat, t: nat, paint: Op)
    requires RoomOk(r) && Resting(r, i, t) && paint.DoPaint?
    requires Accepted(Paint(r, i, paint.generation, paint.x, paint.y, paint.now).1)
    ensures paint.now >= t + COOLDOWN_MS
  {
  }

  /** The cooldown is kept in 64 bits: it fails, and the same paint is accepted again at once, exactly when it wraps. */
  lemma CooldownIff(r: Room, i: nat, generation: nat, x: nat, y: nat, now: nat)
    requires RoomOk(r) && now < TWO64 && Accepted(Paint(r, i, generation, x, y, now).1)
    ensures var q := Paint(r, i, generation, x, y, now).0;
            BoardOk(q.board) && (Accepted(Paint(q, i, generation, x, y, now).1) <==> now + COOLDOWN_MS >= TWO64)
  {
    PaintKeeps(r, i, generation, x, y, now);
  }

  // ---------------------------------------------------------------- a game at the end of the clock

  /** Session 1 sits in seat 0 for red, session 2 in seat 1 for blue. */
  function TwoSeated(): seq<Seat> {
    seq(MAX_PLAYERS, _ => Seat(0, Empty, 0))[0 := Seat(1, Red, 0)][1 := Seat(2, Blue, 0)]
  }

  lemma TwoSeatedCounts()
    ensures CountTeam(TwoSeated(), Red) == 1 && CountTeam(TwoSeated(), Blue) == 1
  {
    var none := seq(MAX_PLAYERS, _ => Seat(0, Empty, 0));
    var one := none[0 := Seat(1, Red, 0)];
    NoOneCounts(MAX_PLAYERS, Red);
    NoOneCounts(MAX_PLAYERS, Blue);
    OthersUpdate(none, 0, Seat(1, Red, 0), 0, Red);
    OthersUpdate(none, 0, Seat(1, Red, 0), 0, Blue);
    OthersUpdate(one, 1, Seat(2, Blue, 0), 0, Red);
    OthersUpdate(one, 1, Seat(2, Blue, 0), 0, Blue);
  }

  lemma TwoPlayers()
    ensures Assign(Assign(NewRoom(1, 1), 1, Red).room, 2, Blue).room == NewRoom(1, 1).(initializer := 1, seats := TwoSeated())
  {
    var r := NewRoom(1, 1);
    NoOneCounts(MAX_PLAYERS, Red);
    NoOneCounts(MAX_PLAYERS, Blue);
    OthersAbsent(r.seats, 1, Red);
    var q := Assign(r, 1, Red).room;
    assert q.seats == r.seats[0 := Seat(1, Red, 0)];
    OthersUpdate(r.seats, 0, Seat(1, Red, 0), 0, Blue);
    OthersAbsent(q.seats, 2, Blue);
  }

  /** A game of 180 s is started so that it ends with the clock. */
  function LateGame(): Room {
    Start(Assign(Assign(NewRoom(1, 1), 1, Red).room, 2, Blue).room, TWO64 - 1 - 180000, true).0
  }

  lemma LateGameRuns()
    ensures RoomOk(LateGame()) && LateGame().phase == Running && LateGame().endsAt == TWO64 - 1
    ensures LateGame().generation == 1 && LateGame().seats[0] == Seat(1, Red, 0)
  {
    var r := NewRoom(1, 1);
    NewRoomOk(1, 1);
    AssignKeeps(r, 1, Red);
    AssignKeeps(Assign(r, 1, Red).room, 2, Blue);
    TwoPlayers();
    TwoSeatedCounts();
    StartKeeps(Assign(Assign(r, 1, Red).room, 2, Blue).room, TWO64 - 1 - 180000, true);
  }

  /** Two milliseconds before the clock ends, the same seat paints twice at once. */
  lemma CooldownCanWrap()
    ensures RoomOk(LateGame()) && Accepted(Paint(LateGame(), 0, 1, 0, 0, TWO64 - 2).1)
    ensures var q := Paint(LateGame(), 0, 1, 0, 0, TWO64 - 2).0; BoardOk(q.board) && Accepted(Paint(q, 0, 1, 0, 0, TWO64 - 2).1)
  {
    LateGameRuns();
    CooldownIff(LateGame(), 0, 1, 0, 0, TWO64 - 2);
  }
}
