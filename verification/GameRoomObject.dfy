/** The mutable room of src/game_room.c and the board of src/pixel_board.c; each method does what GameRoom says. */
module GameRoomObject {
  import opened Common
  import opened G = GameRoom

  // ---------------------------------------------------------------- the board

  function Count(s: seq<Team>, t: Team): nat {
    if s == [] then 0 else Bit(s[0] == t) + Count(s[1..], t)
  }

  lemma {:induction false} CountUpdate(s: seq<Team>, i: nat, v: Team, t: Team)
    requires i < |s|
    ensures Count(s[i := v], t) == Count(s, t) - Bit(s[i] == t) + Bit(v == t)
    decreases |s|
  {
    var u := s[i := v];
    if i == 0 {
      assert u[1..] == s[1..];
    } else {
      assert u[1..] == s[1..][i - 1 := v] && u[0] == s[0];
      CountUpdate(s[1..], i - 1, v, t);
    }
  }

  /** Red, blue and empty pixels make up the board. */
  lemma {:induction false} CountSum(s: seq<Team>)
    ensures Count(s, Red) + Count(s, Blue) + Count(s, Empty) == |s|
  {
    if s != [] { CountSum(s[1..]); }
  }

  lemma {:induction false} CountBlank(n: nat, t: Team)
    ensures Count(seq(n, _ => Empty), t) == if t == Empty then n else 0
  {
    if n > 0 {
      assert seq(n, _ => Empty)[1..] == seq(n - 1, _ => Empty);
      CountBlank(n - 1, t);
    }
  }

  class PixelBoard {
    const width: nat
    const height: nat
    const pixels: array<Team>
    var red: nat
    var blue: nat
    var empty: nat
    var sequence: nat

    ghost function View(): Board
      reads pixels
    {
      Board(width, height, pixels[..])
    }

    /** The scores are the numbers of pixels. */
    ghost predicate Valid()
      reads this, pixels
    {
      BoardOk(View()) && red == Count(pixels[..], Red) && blue == Count(pixels[..], Blue) && empty == Count(pixels[..], Empty)
    }

    constructor (width: nat, height: nat)
      requires 0 < width < 0x1_0000 && 0 < height < 0x1_0000
      ensures Valid() && fresh(pixels) && View() == Blank(width, height)
    {
      this.width, this.height := width, height;
      red, blue, empty, sequence := 0, 0, width * height, 0;
      pixels := new Team[width * height](_ => Empty);
      new;
      assert pixels[..] == seq(width * height, _ => Empty);
      CountBlank(width * height, Red);
      CountBlank(width * height, Blue);
      CountBlank(width * height, Empty);
    }

    method Clear()
      requires Valid()
      modifies this, pixels
      ensures Valid() && View() == Blank(width, height) && sequence == old(sequence) + 1
    {
      forall i | 0 <= i < pixels.Length { pixels[i] := Empty; }
      red, blue, empty, sequence := 0, 0, width * height, sequence + 1;
      assert pixels[..] == seq(width * height, _ => Empty);
      CountBlank(width * height, Red);
      CountBlank(width * height, Blue);
      CountBlank(width * height, Empty);
    }

    /** PixelBoard_paint on the board by a team. */
    method PaintPixel(x: nat, y: nat, team: Team) returns (changed: bool)
      requires Valid() && x < width && y < height && team != Empty
      modifies this, pixels
      ensures Valid() && 0 <= y * width + x < pixels.Length
      ensures pixels[..] == old(pixels[..])[y * width + x := team] && changed == (old(pixels[..])[y * width + x] != team)
      ensures red + blue + empty == width * height && sequence == old(sequence) + Bit(changed)
    {
      PlaceIs(width, height, x, y);
      var i := y * width + x;
      var prev := pixels[i];
      ghost var s := pixels[..];
      CountSum(s);
      if prev == team {
        assert s[i := team] == s;
        return false;
      }
      CountUpdate(s, i, team, Red);
      CountUpdate(s, i, team, Blue);
      CountUpdate(s, i, team, Empty);
      if prev == Empty {
        empty := empty - 1;
        if team == Red { red := red + 1; } else { blue := blue + 1; }
      } else if prev == Red {
        red, blue := red - 1, blue + 1;
      } else {
        blue, red := blue - 1, red + 1;
      }
      pixels[i] := team;
      sequence := sequence + 1;
      assert pixels[..] == s[i := team];
      return true;
    }

    /** The pixels of one row of the brush are done up to `dx`. */
    ghost predicate RowDone(s: seq<Team>, x: int, y: int, bs: int, dy: int, dx: int, team: Team)
      reads pixels
    {
      |s| == pixels.Length && width > 0 &&
      forall k {:trigger pixels[k]} :: 0 <= k < pixels.Length ==> pixels[k] == if Brushed(k % width, k / width, x, y, bs, dy, dx) then team else s[k]
    }
  }

  /** The pixel lies in the part of the square that the double loop has passed: `dy` rows and `dx` more pixels. */
  predicate Brushed(cx: int, cy: int, x: int, y: int, bs: int, dy: int, dx: int) {
    var left, top := x - bs / 2, y - bs / 2;
    left <= cx < left + bs && (top <= cy < top + dy || (cy == top + dy && cx < left + dx))
  }

  /** The double loop of GameRoom_paint over the brush. */
  method PaintBrush(b: PixelBoard, x: nat, y: nat, bs: nat, team: Team) returns (any: bool)
    requires b.Valid() && team != Empty
    modifies b, b.pixels
    ensures b.Valid() && b.View() == PaintSquare(old(b.View()), x, y, bs, team) && any == (b.View() != old(b.View()))
  {
    ghost var s := b.pixels[..];
    any := false;
    for dy := 0 to bs
      invariant b.Valid() && b.RowDone(s, x, y, bs, dy, 0, team) && any == (b.pixels[..] != s)
    {
      any := PaintRow(b, x, y, bs, dy, team, any, s);
    }
    assert b.pixels[..] == PaintSquare(old(b.View()), x, y, bs, team).pixels;
  }

  method PaintRow(b: PixelBoard, x: nat, y: nat, bs: nat, dy: nat, team: Team, already: bool, ghost s: seq<Team>) returns (any: bool)
    requires b.Valid() && team != Empty && dy < bs && b.RowDone(s, x, y, bs, dy, 0, team) && already == (b.pixels[..] != s)
    modifies b, b.pixels
    ensures b.Valid() && b.RowDone(s, x, y, bs, dy + 1, 0, team) && any == (b.pixels[..] != s)
  {
    any := already;
    for dx := 0 to bs
      invariant b.Valid() && b.RowDone(s, x, y, bs, dy, dx, team) && any == (b.pixels[..] != s)
    {
      var changed := PaintOne(b, x, y, bs, dy, dx, team, s);
      any := any || changed;
    }
  }

  /** One turn of the inner loop; pixels off the board are skipped. */
  method PaintOne(b: PixelBoard, x: nat, y: nat, bs: nat, dy: nat, dx: nat, team: Team, ghost s: seq<Team>) returns (changed: bool)
    requires b.Valid() && team != Empty && dy < bs && dx < bs && b.RowDone(s, x, y, bs, dy, dx, team)
    modifies b, b.pixels
    ensures b.Valid() && b.RowDone(s, x, y, bs, dy, dx + 1, team)
    ensures (b.pixels[..] != s) == (changed || old(b.pixels[..]) != s)
  {
    var cx, cy := x - bs / 2 + dx, y - bs / 2 + dy;
    changed := false;
    forall k | 0 <= k < b.pixels.Length
      ensures Brushed(k % b.width, k / b.width, x, y, bs, dy, dx + 1)
          <==> Brushed(k % b.width, k / b.width, x, y, bs, dy, dx) || (0 <= cx < b.width && 0 <= cy < b.height && k == cy * b.width + cx)
    {
      BrushStep(b.width, b.height, k, x, y, bs, dy, dx);
    }
    if 0 <= cx < b.width && 0 <= cy < b.height {
      PlaceIs(b.width, b.height, cx, cy);
      ghost var i := cy * b.width + cx;
      assert b.pixels[i] == s[i];
      changed := b.PaintPixel(cx, cy, team);
      assert b.pixels[..][i] == team;
    }
  }

  /** The pixel that one turn adds. */
  lemma BrushStep(w: nat, h: nat, k: nat, x: int, y: int, bs: nat, dy: nat, dx: nat)
    requires w > 0 && k < w * h && dx < bs
    ensures var cx, cy := x - bs / 2 + dx, y - bs / 2 + dy;
            (Brushed(k % w, k / w, x, y, bs, dy, dx + 1) <==>
              Brushed(k % w, k / w, x, y, bs, dy, dx) || (0 <= cx < w && 0 <= cy < h && k == cy * w + cx))
  {
    var cx, cy := x - bs / 2 + dx, y - bs / 2 + dy;
    RowOf(w, h, k);
    if 0 <= cx < w && 0 <= cy < h { PlaceIs(w, h, cx, cy); }
  }

  lemma RowOf(w: nat, h: nat, k: nat)
    requires w > 0 && k < w * h
    ensures k % w < w && k / w < h && k == k / w * w + k % w
  {
    MulGrows(k / w - h, w);
    assert (k / w - h) * w == k / w * w - h * w;
  }

  // ---------------------------------------------------------------- the room

  lemma {:induction false} OthersSnoc(seats: seq<Seat>, s: Seat, user: nat, team: Team)
    ensures Others(seats + [s], user, team) == Others(seats, user, team) + Bit(s.session != 0 && s.session != user && s.team == team)
  {
    if seats != [] {
      OthersSnoc(seats[1..], s, user, team);
      assert (seats + [s])[1..] == seats[1..] + [s];
    }
  }

  class GameRoom {
    var board: PixelBoard
    var generation: nat
    var phase: Phase
    var brush: nat
    var duration: nat
    var endsAt: nat
    var timer: bool
    var initializer: nat
    var confBrush: nat
    var confDuration: nat
    const seats: array<Seat>
    var gameOvers: nat

    ghost function View(): Room
      reads this, board, board.pixels, seats
    {
      Room(board.View(), generation, phase, brush, duration, endsAt, timer, initializer, confBrush, confDuration, seats[..], gameOvers)
    }

    ghost predicate Valid()
      reads this, board, board.pixels, seats
    {
      board.Valid() && RoomOk(View())
    }

    constructor (w: nat, h: nat)
      requires 0 < w < 0x1_0000 && 0 < h < 0x1_0000
      ensures Valid() && fresh(board) && fresh(board.pixels) && fresh(seats) && View() == NewRoom(w, h)
    {
      board := new PixelBoard(w, h);
      generation, phase, brush, duration, endsAt, timer, initializer := 1, Waiting, 0, 0, 0, false, 0;
      confBrush, confDuration, gameOvers := 5, 180000, 0;
      seats := new Seat[MAX_PLAYERS](_ => Seat(0, Empty, 0));
      new;
      assert seats[..] == seq(MAX_PLAYERS, _ => Seat(0, Empty, 0));
      NewRoomOk(w, h);
    }

    /** The counting loops of assign, start and remove. */
    method CountOthers(user: nat, team: Team) returns (n: nat)
      ensures n == Others(seats[..], user, team)
    {
      n := 0;
      for i := 0 to seats.Length
        invariant n == Others(seats[..i], user, team)
      {
        OthersSnoc(seats[..i], seats[i], user, team);
        assert seats[..i + 1] == seats[..i] + [seats[i]];
        if seats[i].session != 0 && seats[i].session != user && seats[i].team == team {
          n := n + 1;
        }
      }
      assert seats[..seats.Length] == seats[..];
    }

    method FindSeat(session: nat) returns (r: Option<nat>)
      ensures r == SeatOf(seats[..], session, 0)
    {
      for i := 0 to seats.Length
        invariant SeatOf(seats[..], session, i) == SeatOf(seats[..], session, 0)
      {
        if seats[i].session == session {
          return Some(i);
        }
      }
      return None;
    }

    method AssignPlayer(user: nat, team: Team) returns (seat: Option<nat>, canReset: bool)
      requires Valid()
      modifies this`initializer, seats
      ensures Valid() && Assigned(View(), seat, canReset) == Assign(old(View()), user, team)
    {
      AssignKeeps(View(), user, team);
      if user == 0 || team == Empty || phase != Waiting {
        return None, false;
      }
      var n := CountOthers(user, team);
      if n >= TEAM_SIZE {
        return None, false;
      }
      if initializer == 0 {
        initializer := user;
      }
      ghost var was := seats[..];
      seat := FindSeat(user);
      if seat.Some? {
        seats[seat.value] := seats[seat.value].(team := team);
        assert seats[..] == was[seat.value := was[seat.value].(team := team)];
        return seat, initializer == user;
      }
      seat := FindSeat(0);
      if seat.Some? {
        seats[seat.value] := Seat(user, team, 0);
        assert seats[..] == was[seat.value := Seat(user, team, 0)];
        return seat, initializer == user;
      }
      return None, false;
    }

    /** The loops that clear every cooldown. */
    method CoolDown()
      modifies seats
      ensures seats[..] == Cooled(old(seats[..]))
    {
      for i := 0 to seats.Length
        invariant forall j :: 0 <= j < seats.Length ==> seats[j] == if j < i then old(seats[j]).(cooldown := 0) else old(seats[j])
      {
        seats[i] := seats[i].(cooldown := 0);
      }
    }

    /** A new board when the size changes, the old one cleared otherwise. */
    method BlankBoard(w: nat, h: nat)
      requires board.Valid() && 0 < w < 0x1_0000 && 0 < h < 0x1_0000
      modifies this`board, board, board.pixels
      ensures board.Valid() && board.View() == Blank(w, h) && (board == old(board) || (fresh(board) && fresh(board.pixels)))
    {
      if board.width != w || board.height != h {
        board := new PixelBoard(w, h);
      } else {
        board.Clear();
      }
    }

    /** Settings, cooldowns and phase for the next game. */
    method NewGeneration(brush_: nat, duration_: nat)
      modifies this`generation, this`brush, this`duration, this`endsAt, this`confBrush, this`confDuration, this`phase, seats
      ensures generation == (old(generation) + 1) % TWO64 && brush == duration == endsAt == 0 && phase == Waiting
      ensures confBrush == brush_ && confDuration == duration_ && seats[..] == Cooled(old(seats[..]))
    {
      generation := (generation + 1) % TWO64;
      brush, duration, endsAt, confBrush, confDuration := 0, 0, 0, brush_, duration_;
      CoolDown();
      phase := Waiting;
    }

    method DoForceReset(w: nat, h: nat, brush_: nat, duration_: nat, allocOk: bool, detachOk: bool) returns (ok: bool)
      requires Valid() && w < 0x1_0000 && h < 0x1_0000
      modifies this, board, board.pixels, seats
      ensures Valid() && (board == old(board) || (fresh(board) && fresh(board.pixels)))
      ensures (View(), ok) == ForceReset(old(View()), w, h, brush_, duration_, allocOk, detachOk)
    {
      ghost var q := ForceReset(View(), w, h, brush_, duration_, allocOk, detachOk).0;
      ForceResetKeeps(View(), w, h, brush_, duration_, allocOk, detachOk);
      var other := board.width != w || board.height != h;
      if w == 0 || h == 0 || (other && !allocOk) || (timer && !detachOk) {
        return false;
      }
      timer := false;
      BlankBoard(w, h);
      NewGeneration(brush_, duration_);
      assert View() == q;
      return true;
    }

    method DoReset(requester: nat, w: nat, h: nat, brush_: nat, duration_: nat, allocOk: bool, detachOk: bool) returns (ok: bool)
      requires Valid() && w < 0x1_0000 && h < 0x1_0000
      modifies this, board, board.pixels, seats
      ensures Valid() && (board == old(board) || (fresh(board) && fresh(board.pixels)))
      ensures (View(), ok) == Reset(old(View()), requester, w, h, brush_, duration_, allocOk, detachOk)
    {
      if w == 0 || h == 0 || brush_ == 0 || duration_ == 0 || phase == Running || requester == 0 || requester != initializer {
        return false;
      }
      ok := DoForceReset(w, h, brush_, duration_, allocOk, detachOk);
    }

    method DoRemovePlayer(i: nat, allocOk: bool, detachOk: bool) returns (res: Removed)
      requires Valid()
      modifies this, board, board.pixels, seats
      ensures Valid() && (board == old(board) || (fresh(board) && fresh(board.pixels)))
      ensures (View(), res) == RemovePlayer(old(View()), i, allocOk, detachOk)
    {
      if i >= seats.Length || seats[i].session == 0 {
        return RemoveError;
      }
      SeatFreed(seats[..], i);
      ghost var was := seats[..];
      seats[i] := Seat(0, Empty, 0);
      assert seats[..] == was[i := Seat(0, Empty, 0)];
      var reds := CountOthers(0, Red);
      var blues := CountOthers(0, Blue);
      var rest := CountOthers(0, Empty);
      if reds + blues + rest > 0 {
        return RemoveOk;
      }
      if phase != Waiting {
        var ok := DoForceReset(board.width, board.height, confBrush, confDuration, allocOk, detachOk);
        if !ok {
          return AutoResetFailed;
        }
      }
      initializer := 0;
      return RemoveOk;
    }

    method DoStart(now: nat, timerOk: bool) returns (ok: bool)
      requires Valid()
      modifies this`timer, this`brush, this`duration, this`endsAt, this`phase, seats
      ensures Valid() && (View(), ok) == Start(old(View()), now, timerOk)
    {
      ghost var q := Start(View(), now, timerOk).0;
      StartKeeps(View(), now, timerOk);
      if phase != Waiting {
        return false;
      }
      var reds := CountOthers(0, Red);
      var blues := CountOthers(0, Blue);
      if reds < 1 || blues < 1 || timer || confBrush == 0 || confBrush > MAX_BRUSH_SIZE || confDuration == 0
         || confDuration > LONG_MAX || now + confDuration >= TWO64 || !timerOk {
        return false;
      }
      timer := true;
      CoolDown();
      brush, duration, endsAt, phase := confBrush, confDuration, now + confDuration, Running;
      assert View() == q;
      return true;
    }

    method TriggerTimeOver()
      requires Valid()
      modifies this`phase, this`gameOvers
      ensures Valid() && View() == TimeOver(old(View()))
    {
      if phase == Running {
        phase, gameOvers := Finished, gameOvers + 1;
      }
    }

    method DoPaint(i: nat, gen: nat, x: nat, y: nat, now: nat) returns (res: Painted)
      requires Valid()
      modifies this`phase, this`gameOvers, board, board.pixels, seats
      ensures Valid() && (View(), res) == Paint(old(View()), i, gen, x, y, now)
    {
      PaintKeeps(View(), i, gen, x, y, now);
      if i >= seats.Length {
        return PaintError;
      }
      if gen != generation {
        return Stale;
      }
      if seats[i].session == 0 || x >= board.width || y >= board.height {
        return PaintError;
      }
      if phase == Running && now >= endsAt {
        TriggerTimeOver();
      }
      if phase != Running {
        return TooLate;
      }
      if now < seats[i].cooldown {
        return TooSoon;
      }
      ghost var was := seats[..];
      assert SeatTeamAt(was, i);
      seats[i] := seats[i].(cooldown := (now + COOLDOWN_MS) % TWO64);
      assert seats[..] == was[i := was[i].(cooldown := (now + COOLDOWN_MS) % TWO64)];
      var any := PaintBrush(board, x, y, brush, seats[i].team);
      return if any then Changed else Unchanged;
    }
  }
}
