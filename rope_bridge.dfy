/** Day 9, "Rope Bridge": a rope's head is moved by a list of instructions and
    its tail follows, recording every tile it steps on; the answer is the
    number of distinct tiles the tail visited. */
module RopeBridge {
  import opened Wrappers
  import opened Decimal
  import opened Text
  import opened SeqOps

  /** A (row, column) position on the grid. */
  datatype Position = Position(row: int, col: int)

  /** A tile the tail has stood on. */
  datatype Tile = Tile(row: int, col: int)

  /** One instruction: a direction and a signed number of steps. */
  datatype Movement = R(steps: int) | L(steps: int) | U(steps: int) | D(steps: int)

  datatype Rope = Rope(head: Position, tail: Position, visited: seq<Tile>)

  function Abs(x: int): nat {
    if x < 0 then -x else x
  }

  /** `isize::signum`. */
  function Sign(x: int): (s: int)
    ensures Abs(s) <= 1
    ensures s == 0 <==> x == 0
    ensures s > 0 <==> x > 0
  {
    if x > 0 then 1 else if x < 0 then -1 else 0
  }

  function PositionOf(t: Tile): Position {
    Position(t.row, t.col)
  }

  /** `parse_data`: the text before the first space names the direction and
      the text after it is the signed step count; anything else panics. */
  function ParseData(instruction: string): (r: Option<Movement>)
    ensures r.Some? ==> ' ' in instruction
    ensures r.Some? ==> instruction[0] in "RLUD" && instruction[1] == ' '
    ensures r.Some? ==> ParseSigned(instruction[2..]) == Some(r.value.steps)
  {
    match SplitOnce(instruction, ' ')
    case None => None
    case Some((direction, count)) =>
      match ParseSigned(count)
      case None => None
      case Some(steps) =>
        assert instruction[|direction| + 1..] == count;
        if direction == "R" then Some(R(steps))
        else if direction == "L" then Some(L(steps))
        else if direction == "U" then Some(U(steps))
        else if direction == "D" then Some(D(steps))
        else None
  }

  function Letter(m: Movement): string {
    match m
    case R(_) => "R"
    case L(_) => "L"
    case U(_) => "U"
    case D(_) => "D"
  }

  /** A line is accepted exactly when it is one of the four letters, one
      space and a signed number; the letter names the direction. */
  lemma ParseDataAccepts(instruction: string)
    ensures ParseData(instruction).Some? <==>
              |instruction| >= 2 && instruction[0] in "RLUD" && instruction[1] == ' ' &&
              ParseSigned(instruction[2..]).Some?
    ensures ParseData(instruction).Some? ==> Letter(ParseData(instruction).value) == instruction[..1]
  {
    if |instruction| >= 2 && instruction[0] in "RLUD" && instruction[1] == ' ' {
      assert instruction == instruction[..1] + [' '] + instruction[2..];
      SplitOnceFirst(instruction[..1], ' ', instruction[2..]);
    }
  }

  /** The line of the puzzle input that describes `m`. */
  function MovementText(m: Movement): string {
    Letter(m) + " " + SignedToDecimal(m.steps)
  }

  /** Every instruction reads back from its text. */
  lemma ParseDataText(m: Movement)
    ensures ParseData(MovementText(m)) == Some(m)
  {
    SplitOnceFirst(Letter(m), ' ', SignedToDecimal(m.steps));
    ParseSignedToDecimal(m.steps);
  }

  /** The head moves `|steps|` tiles along one axis. For a positive count, U
      raises the row, D lowers it, R raises the column and L lowers it; a
      negative count moves the opposite way. */
  function MoveHead(head: Position, m: Movement): (p: Position)
    ensures m.U? || m.D? ==> p.col == head.col && Abs(p.row - head.row) == Abs(m.steps)
    ensures m.L? || m.R? ==> p.row == head.row && Abs(p.col - head.col) == Abs(m.steps)
    ensures m.U? ==> Sign(p.row - head.row) == Sign(m.steps)
    ensures m.D? ==> Sign(head.row - p.row) == Sign(m.steps)
    ensures m.R? ==> Sign(p.col - head.col) == Sign(m.steps)
    ensures m.L? ==> Sign(head.col - p.col) == Sign(m.steps)
  {
    match m
    case D(steps) => head.(row := head.row - steps)
    case U(steps) => head.(row := head.row + steps)
    case L(steps) => head.(col := head.col - steps)
    case R(steps) => head.(col := head.col + steps)
  }

  /** Moving by a count and then by the opposite movement of the same count
      returns the head to where it was; a negated count is the opposite
      direction. */
  lemma MoveHeadInverse(head: Position, steps: int)
    ensures MoveHead(MoveHead(head, U(steps)), D(steps)) == head
    ensures MoveHead(MoveHead(head, R(steps)), L(steps)) == head
    ensures MoveHead(head, U(-steps)) == MoveHead(head, D(steps))
    ensures MoveHead(head, R(-steps)) == MoveHead(head, L(steps))
  {
  }

  /** The tail touches the head: neither distance exceeds one. */
  predicate Adjacent(head: Position, tail: Position) {
    Abs(head.row - tail.row) <= 1 && Abs(head.col - tail.col) <= 1
  }

  /** The loop's measure: the sum of the two distances. */
  function Gap(head: Position, tail: Position): nat {
    Abs(head.row - tail.row) + Abs(head.col - tail.col)
  }

  /** `(lo..=hi).collect()`: the integers from `lo` to `hi`, ascending. */
  function InclusiveRange(lo: int, hi: int): (r: seq<int>)
    ensures |r| == if lo <= hi then hi - lo + 1 else 0
    ensures forall k | 0 <= k < |r| :: r[k] == lo + k
    decreases hi - lo
  {
    if lo > hi then [] else [lo] + InclusiveRange(lo + 1, hi)
  }

  /** The steps of a straight catch-up over `tilesToMove` tiles, nearest first:
      `1..=t` when positive, `t..=-1` reversed when negative. */
  function TileRange(tilesToMove: int): (r: seq<int>)
    ensures |r| == Abs(tilesToMove)
    ensures forall k | 0 <= k < |r| :: r[k] == if tilesToMove > 0 then k + 1 else -(k + 1)
  {
    var range := if tilesToMove > 0 then InclusiveRange(1, tilesToMove) else InclusiveRange(tilesToMove, -1);
    if tilesToMove < 0 then Reverse(range) else range
  }

  /** One king step: at most one row and one column away, and not in place. */
  predicate KingStep(from: Position, to: Tile) {
    Abs(to.row - from.row) <= 1 && Abs(to.col - from.col) <= 1 && PositionOf(to) != from
  }

  /** The tile one step from `tail` towards `head` on each axis where the two
      differ. */
  function StepTile(head: Position, tail: Position): (t: Tile)
    requires !Adjacent(head, tail)
    ensures KingStep(tail, t)
    ensures Gap(head, PositionOf(t)) < Gap(head, tail)
  {
    Tile(tail.row + Sign(head.row - tail.row), tail.col + Sign(head.col - tail.col))
  }

  /** A tail that does not touch the head steps once towards it and records
      the tile. */
  function Step(rope: Rope): (r: Rope)
    requires !Adjacent(rope.head, rope.tail)
    ensures r.head == rope.head
    ensures Gap(r.head, r.tail) < Gap(rope.head, rope.tail)
  {
    var t := StepTile(rope.head, rope.tail);
    Rope(rope.head, PositionOf(t), rope.visited + [t])
  }

  /** The tail steps towards the head until it touches it. The catch-up loop
      of `execute_movement` is proved to end in the same rope. */
  function CatchUp(rope: Rope): (r: Rope)
    ensures r.head == rope.head
    ensures Adjacent(r.head, r.tail)
    decreases Gap(rope.head, rope.tail)
  {
    if Adjacent(rope.head, rope.tail) then rope else CatchUp(Step(rope))
  }

  /** `execute_movement` as a value: the head moves, then the tail catches up.
      The head moves exactly as the instruction says, the tail ends touching
      it, and the tiles visited before are kept in front. */
  function Move(rope: Rope, m: Movement): (r: Rope)
    ensures r.head == MoveHead(rope.head, m)
    ensures Adjacent(r.head, r.tail)
    ensures |rope.visited| <= |r.visited| && r.visited[..|rope.visited|] == rope.visited
  {
    var moved := rope.(head := MoveHead(rope.head, m));
    CatchUpTrail(moved);
    CatchUp(moved)
  }

  /** The tail stands on the last visited tile. */
  predicate TailOnLastTile(rope: Rope) {
    rope.visited != [] && rope.tail == PositionOf(rope.visited[|rope.visited| - 1])
  }

  /** `execute_movement`. */
  method ExecuteMovement(rope: Rope, movement: Movement) returns (movedRope: Rope)
    ensures movedRope == Move(rope, movement)
  {
    movedRope := rope;
    match movement {
      case D(steps) => movedRope := movedRope.(head := movedRope.head.(row := movedRope.head.row - steps));
      case U(steps) => movedRope := movedRope.(head := movedRope.head.(row := movedRope.head.row + steps));
      case L(steps) => movedRope := movedRope.(head := movedRope.head.(col := movedRope.head.col - steps));
      case R(steps) => movedRope := movedRope.(head := movedRope.head.(col := movedRope.head.col + steps));
    }
    ghost var start := movedRope;
    assert start == rope.(head := MoveHead(rope.head, movement));
    var rowDistance := movedRope.head.row - movedRope.tail.row;
    var colDistance := movedRope.head.col - movedRope.tail.col;
    while Abs(rowDistance) > 1 || Abs(colDistance) > 1
      invariant rowDistance == movedRope.head.row - movedRope.tail.row
      invariant colDistance == movedRope.head.col - movedRope.tail.col
      invariant CatchUp(movedRope) == CatchUp(start)
      decreases Gap(movedRope.head, movedRope.tail)
    {
      movedRope := FollowStep(movedRope);
      rowDistance := movedRope.head.row - movedRope.tail.row;
      colDistance := movedRope.head.col - movedRope.tail.col;
    }
  }

  /** One iteration of the catch-up loop: the tail gets strictly closer to
      the head, stands on its last visited tile, and the rope catches up to
      the same end as before. */
  method FollowStep(rope: Rope) returns (movedRope: Rope)
    requires !Adjacent(rope.head, rope.tail)
    ensures movedRope.head == rope.head
    ensures Gap(movedRope.head, movedRope.tail) < Gap(rope.head, rope.tail)
    ensures TailOnLastTile(movedRope)
    ensures CatchUp(movedRope) == CatchUp(rope)
  {
    var rowDistance := rope.head.row - rope.tail.row;
    var colDistance := rope.head.col - rope.tail.col;
    if Abs(rowDistance) > 1 && colDistance == 0 {
      movedRope := MoveRows(rope);
    } else if rowDistance == 0 && Abs(colDistance) > 1 {
      movedRope := MoveColumns(rope);
    } else {
      movedRope := MoveDiagonally(rope);
    }
  }

  /** The row branch: the tail runs along its column to the tile next to the
      head, pushing every tile on the way; this is the same as stepping one
      tile at a time. */
  method MoveRows(rope: Rope) returns (movedRope: Rope)
    requires Abs(rope.head.row - rope.tail.row) > 1 && rope.head.col == rope.tail.col
    ensures movedRope.head == rope.head
    ensures Gap(movedRope.head, movedRope.tail) == 1
    ensures |movedRope.visited| == |rope.visited| + Abs(rope.head.row - rope.tail.row) - 1
    ensures TailOnLastTile(movedRope)
    ensures CatchUp(movedRope) == CatchUp(rope)
  {
    var rowDistance := rope.head.row - rope.tail.row;
    var tilesToMove := rowDistance - Sign(rowDistance);
    var tileRange := TileRange(tilesToMove);
    var visited := PushRow(rope, tileRange);
    var lastVisited := visited[|visited| - 1];
    movedRope := Rope(rope.head, Position(lastVisited.row, lastVisited.col), visited);
  }

  /** The row branch's `for step in tile_range`: one tile per step, counted
      from the tail, which does not move meanwhile. Pushing them is the same
      as stepping towards the head once per tile. */
  method PushRow(rope: Rope, tileRange: seq<int>) returns (visited: seq<Tile>)
    requires rope.head.col == rope.tail.col && Abs(rope.head.row - rope.tail.row) > 1
    requires |tileRange| == Abs(rope.head.row - rope.tail.row) - 1
    requires forall k | 0 <= k < |tileRange| ::
               tileRange[k] == if rope.head.row > rope.tail.row then k + 1 else -(k + 1)
    ensures |visited| == |rope.visited| + |tileRange| > |rope.visited|
    ensures var last := visited[|visited| - 1];
            last.col == rope.tail.col && Abs(rope.head.row - last.row) == 1 &&
            CatchUp(Rope(rope.head, PositionOf(last), visited)) == CatchUp(rope)
  {
    ghost var up := rope.head.row > rope.tail.row;
    ghost var cursor := rope.tail;
    visited := rope.visited;
    for i := 0 to |tileRange|
      invariant cursor.col == rope.tail.col
      invariant cursor.row == if up then rope.tail.row + i else rope.tail.row - i
      invariant |visited| == |rope.visited| + i
      invariant i > 0 ==> visited[|visited| - 1] == Tile(cursor.row, cursor.col)
      invariant CatchUp(Rope(rope.head, cursor, visited)) == CatchUp(rope)
    {
      var tile := Tile(rope.tail.row + tileRange[i], rope.tail.col);
      StepAlongRow(rope.head, cursor, visited, tile);
      visited := visited + [tile];
      cursor := PositionOf(tile);
    }
  }

  /** The column branch: the tail runs along its row to the tile next to the
      head. */
  method MoveColumns(rope: Rope) returns (movedRope: Rope)
    requires rope.head.row == rope.tail.row && Abs(rope.head.col - rope.tail.col) > 1
    ensures movedRope.head == rope.head
    ensures Gap(movedRope.head, movedRope.tail) == 1
    ensures |movedRope.visited| == |rope.visited| + Abs(rope.head.col - rope.tail.col) - 1
    ensures TailOnLastTile(movedRope)
    ensures CatchUp(movedRope) == CatchUp(rope)
  {
    var colDistance := rope.head.col - rope.tail.col;
    var tilesToMove := colDistance - Sign(colDistance);
    var tileRange := TileRange(tilesToMove);
    var visited := PushColumn(rope, tileRange);
    var lastVisited := visited[|visited| - 1];
    movedRope := Rope(rope.head, Position(lastVisited.row, lastVisited.col), visited);
  }

  /** The column branch's `for step in tile_range`. */
  method PushColumn(rope: Rope, tileRange: seq<int>) returns (visited: seq<Tile>)
    requires rope.head.row == rope.tail.row && Abs(rope.head.col - rope.tail.col) > 1
    requires |tileRange| == Abs(rope.head.col - rope.tail.col) - 1
    requires forall k | 0 <= k < |tileRange| ::
               tileRange[k] == if rope.head.col > rope.tail.col then k + 1 else -(k + 1)
    ensures |visited| == |rope.visited| + |tileRange| > |rope.visited|
    ensures var last := visited[|visited| - 1];
            last.row == rope.tail.row && Abs(rope.head.col - last.col) == 1 &&
            CatchUp(Rope(rope.head, PositionOf(last), visited)) == CatchUp(rope)
  {
    ghost var right := rope.head.col > rope.tail.col;
    ghost var cursor := rope.tail;
    visited := rope.visited;
    for i := 0 to |tileRange|
      invariant cursor.row == rope.tail.row
      invariant cursor.col == if right then rope.tail.col + i else rope.tail.col - i
      invariant |visited| == |rope.visited| + i
      invariant i > 0 ==> visited[|visited| - 1] == Tile(cursor.row, cursor.col)
      invariant CatchUp(Rope(rope.head, cursor, visited)) == CatchUp(rope)
    {
      var tile := Tile(rope.tail.row, rope.tail.col + tileRange[i]);
      StepAlongColumn(rope.head, cursor, visited, tile);
      visited := visited + [tile];
      cursor := PositionOf(tile);
    }
  }

  /** A tail in the head's column, two or more rows away, steps one row
      towards it. */
  lemma StepAlongRow(head: Position, cursor: Position, visited: seq<Tile>, tile: Tile)
    requires head.col == cursor.col && Abs(head.row - cursor.row) > 1
    requires tile == Tile(cursor.row + Sign(head.row - cursor.row), cursor.col)
    ensures CatchUp(Rope(head, cursor, visited)) == CatchUp(Rope(head, PositionOf(tile), visited + [tile]))
  {
    assert Step(Rope(head, cursor, visited)) == Rope(head, PositionOf(tile), visited + [tile]);
  }

  /** A tail in the head's row, two or more columns away, steps one column
      towards it. */
  lemma StepAlongColumn(head: Position, cursor: Position, visited: seq<Tile>, tile: Tile)
    requires head.row == cursor.row && Abs(head.col - cursor.col) > 1
    requires tile == Tile(cursor.row, cursor.col + Sign(head.col - cursor.col))
    ensures CatchUp(Rope(head, cursor, visited)) == CatchUp(Rope(head, PositionOf(tile), visited + [tile]))
  {
    assert Step(Rope(head, cursor, visited)) == Rope(head, PositionOf(tile), visited + [tile]);
  }

  /** The diagonal branch: one step towards the head on both axes. */
  method MoveDiagonally(rope: Rope) returns (movedRope: Rope)
    requires !Adjacent(rope.head, rope.tail)
    ensures movedRope == Step(rope)
  {
    var rowDistance := rope.head.row - rope.tail.row;
    var colDistance := rope.head.col - rope.tail.col;
    movedRope := rope.(visited := rope.visited
      + [Tile(rope.tail.row + Sign(rowDistance), rope.tail.col + Sign(colDistance))]);
    var lastVisited := movedRope.visited[|movedRope.visited| - 1];
    movedRope := movedRope.(tail := Position(lastVisited.row, lastVisited.col));
  }

  /** In the diagonal branch the tail is off both axes of the head and steps
      one row and one column towards it. */
  lemma DiagonalStep(head: Position, tail: Position)
    requires !Adjacent(head, tail)
    requires !(Abs(head.row - tail.row) > 1 && head.col == tail.col)
    requires !(head.row == tail.row && Abs(head.col - tail.col) > 1)
    ensures head.row != tail.row && head.col != tail.col
    ensures var t := StepTile(head, tail);
            Abs(head.row - t.row) == Abs(head.row - tail.row) - 1 &&
            Abs(head.col - t.col) == Abs(head.col - tail.col) - 1
  {
  }

  /** Each tile is one king step from the one before it, the first one from
      `from`. */
  predicate KingPath(from: Position, tiles: seq<Tile>)
    decreases |tiles|
  {
    tiles == [] || (KingStep(from, tiles[0]) && KingPath(PositionOf(tiles[0]), tiles[1..]))
  }

  /** The tiles a tail at `tail` visits while catching up with `head`, in
      order. */
  function Trail(head: Position, tail: Position): seq<Tile>
    decreases Gap(head, tail)
  {
    if Adjacent(head, tail) then []
    else
      var t := StepTile(head, tail);
      [t] + Trail(head, PositionOf(t))
  }

  /** The trail is a king path from where the tail started. */
  lemma {:induction false} TrailKingPath(head: Position, tail: Position)
    ensures KingPath(tail, Trail(head, tail))
    decreases Gap(head, tail)
  {
    if !Adjacent(head, tail) {
      var t := StepTile(head, tail);
      TrailKingPath(head, PositionOf(t));
      assert ([t] + Trail(head, PositionOf(t)))[1..] == Trail(head, PositionOf(t));
    }
  }

  /** The catch-up appends the trail to the visited tiles. */
  lemma {:induction false} CatchUpTrail(rope: Rope)
    ensures CatchUp(rope).visited == rope.visited + Trail(rope.head, rope.tail)
    decreases Gap(rope.head, rope.tail)
  {
    if !Adjacent(rope.head, rope.tail) {
      var next := Step(rope);
      var t := StepTile(rope.head, rope.tail);
      CatchUpTrail(next);
      assert (rope.visited + [t]) + Trail(rope.head, next.tail) == rope.visited + ([t] + Trail(rope.head, next.tail));
    }
  }

  /** A move appends to the visited tiles a king path that starts from the old
      tail. */
  lemma MoveKingPath(rope: Rope, m: Movement)
    ensures var r := Move(rope, m);
            var trail := Trail(r.head, rope.tail);
            r.visited == rope.visited + trail && KingPath(rope.tail, trail)
  {
    var moved := rope.(head := MoveHead(rope.head, m));
    CatchUpTrail(moved);
    TrailKingPath(moved.head, rope.tail);
  }

  /** After a catch-up that moved the tail, or one that started with the tail
      on its last tile, the tail stands on the last visited tile. */
  lemma {:induction false} CatchUpEndsOnLastTile(rope: Rope)
    requires TailOnLastTile(rope) || !Adjacent(rope.head, rope.tail)
    ensures TailOnLastTile(CatchUp(rope))
    decreases Gap(rope.head, rope.tail)
  {
    if !Adjacent(rope.head, rope.tail) {
      CatchUpEndsOnLastTile(Step(rope));
    }
  }

  /** A rope whose tail stands on its last visited tile still does after a
      move. */
  lemma MoveKeepsTailOnLastTile(rope: Rope, m: Movement)
    requires TailOnLastTile(rope)
    ensures TailOnLastTile(Move(rope, m))
  {
    CatchUpEndsOnLastTile(rope.(head := MoveHead(rope.head, m)));
  }

  /** The rope of `main`: head and tail on the origin, the origin visited. */
  function Start(): Rope {
    Rope(Position(0, 0), Position(0, 0), [Tile(0, 0)])
  }

  /** The instructions applied in order. */
  function Simulate(rope: Rope, movements: seq<Movement>): (r: Rope)
    ensures |rope.visited| <= |r.visited| && r.visited[..|rope.visited|] == rope.visited
    decreases |movements|
  {
    if movements == [] then rope else Simulate(Move(rope, movements[0]), movements[1..])
  }

  /** The distinct tiles of a list: what `sort` then `dedup` leaves. */
  function Distinct(tiles: seq<Tile>): set<Tile> {
    set t | t in tiles
  }

  /** `read_data` after the file is read: one instruction per line, in order;
      a line that does not parse stops the program. */
  method ReadData(lines: seq<string>) returns (r: Option<seq<Movement>>)
    ensures r.Some? <==> forall i | 0 <= i < |lines| :: ParseData(lines[i]).Some?
    ensures r.Some? ==> |r.value| == |lines|
    ensures r.Some? ==> forall i | 0 <= i < |lines| :: r.value[i] == ParseData(lines[i]).value
  {
    var movements: seq<Movement> := [];
    for i := 0 to |lines|
      invariant |movements| == i
      invariant forall j | 0 <= j < i :: ParseData(lines[j]).Some? && movements[j] == ParseData(lines[j]).value
    {
      var parsed := ParseData(lines[i]);
      if parsed.None? {
        return None;
      }
      movements := movements + [parsed.value];
    }
    return Some(movements);
  }

  /** `main` after the instructions are read: every instruction is executed
      from the starting rope, and the distinct visited tiles are counted. */
  method CountVisitedTiles(instructions: seq<Movement>) returns (numVisitedTiles: nat)
    ensures numVisitedTiles == |Distinct(Simulate(Start(), instructions).visited)|
  {
    var rope := Start();
    for i := 0 to |instructions|
      invariant Simulate(rope, instructions[i..]) == Simulate(Start(), instructions)
    {
      assert instructions[i..][1..] == instructions[i + 1..];
      rope := ExecuteMovement(rope, instructions[i]);
    }
    assert instructions[|instructions|..] == [];
    numVisitedTiles := |Distinct(rope.visited)|;
  }

  /** A list has at most as many distinct elements as entries. */
  lemma {:induction false} DistinctBound(tiles: seq<Tile>)
    ensures |Distinct(tiles)| <= |tiles|
  {
    if tiles != [] {
      DistinctBound(tiles[1..]);
      assert Distinct(tiles) == Distinct(tiles[1..]) + {tiles[0]};
    }
  }

  /** The count is at least one (the origin) and at most the number of tiles
      recorded. */
  lemma VisitedCountBounds(instructions: seq<Movement>)
    ensures var visited := Simulate(Start(), instructions).visited;
            1 <= |Distinct(visited)| <= |visited|
  {
    var visited := Simulate(Start(), instructions).visited;
    assert visited[0] == Tile(0, 0);
    assert Tile(0, 0) in Distinct(visited);
    DistinctBound(visited);
  }

  /** However many instructions follow, a tail that stands on its last
      visited tile still does afterwards. */
  lemma {:induction false} SimulateTailOnLastTile(rope: Rope, movements: seq<Movement>)
    requires TailOnLastTile(rope)
    ensures TailOnLastTile(Simulate(rope, movements))
    decreases |movements|
  {
    if movements != [] {
      MoveKeepsTailOnLastTile(rope, movements[0]);
      SimulateTailOnLastTile(Move(rope, movements[0]), movements[1..]);
    }
  }
}
