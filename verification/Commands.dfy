// grid_path_to_commands: run-length encoding of a path as S,U,D,L,R commands,
// proved to be undone by executing the commands.
module Commands {
  import opened Minefield
  import opened Outcomes
  import opened Corridor

  datatype Direction = U | D | L | R

  datatype Run = Run(direction: Direction, count: int)

  // The text is "S,<start>,<G>" followed by one "<direction>,<count>" line per
  // run; the empty path gives empty text.
  datatype Program = Empty | Program(startX: int, G: int, runs: seq<Run>)

  datatype CommandError =
    | NoMove
    | NonAdjacentMove(index: nat)
    | NotUpwardAtEnds

  function Move(c: Cell, d: Direction): Cell {
    match d
    case U => Cell(c.x, c.y + 1)
    case D => Cell(c.x, c.y - 1)
    case R => Cell(c.x + 1, c.y)
    case L => Cell(c.x - 1, c.y)
  }

  function DirectionFor(from: Cell, to: Cell): (d: Option<Direction>)
    ensures d.Some? <==> Adjacent(from, to)
    ensures d.Some? ==> Move(from, d.value) == to
  {
    match (to.x - from.x, to.y - from.y)
    case (0, 1) => Some(U)
    case (0, -1) => Some(D)
    case (1, 0) => Some(R)
    case (-1, 0) => Some(L)
    case _ => None
  }

  // ---- Executing commands ----

  // The cells visited after `from` when making each move in turn.
  ghost function Follow(from: Cell, moves: seq<Direction>): (cells: seq<Cell>)
    ensures |cells| == |moves| + 1 && cells[0] == from
    ensures forall i | 0 <= i < |moves| :: cells[i + 1] == Move(cells[i], moves[i])
    decreases |moves|
  {
    if moves == [] then [from]
    else [from] + Follow(Move(from, moves[0]), moves[1..])
  }

  ghost function Repeat(d: Direction, n: nat): seq<Direction> {
    seq(n, _ => d)
  }

  ghost function Expand(runs: seq<Run>): seq<Direction>
    requires forall i | 0 <= i < |runs| :: runs[i].count >= 0
  {
    if runs == [] then []
    else Expand(runs[..|runs| - 1]) + Repeat(runs[|runs| - 1].direction, runs[|runs| - 1].count)
  }

  // What the field does with a program: start at row 0, then run each command.
  ghost function Execute(p: Program): seq<Cell>
    requires p.Program? ==> forall i | 0 <= i < |p.runs| :: p.runs[i].count >= 0
  {
    match p
    case Empty => []
    case Program(x, _, runs) => Follow(Cell(x, 0), Expand(runs))
  }

  // Positive counts, and no two adjacent runs in the same direction.
  ghost predicate Canonical(runs: seq<Run>) {
    && (forall i | 0 <= i < |runs| :: runs[i].count > 0)
    && forall i | 0 <= i < |runs| - 1 :: runs[i].direction != runs[i + 1].direction
  }

  // The moves of a path determine it, given its first cell.
  lemma {:induction false} FollowRecovers(path: seq<Cell>, moves: seq<Direction>)
    requires |path| == |moves| + 1
    requires forall i | 0 <= i < |moves| :: path[i + 1] == Move(path[i], moves[i])
    ensures Follow(path[0], moves) == path
    decreases |moves|
  {
    if moves != [] {
      FollowRecovers(path[1..], moves[1..]);
      assert path == [path[0]] + path[1..];
    }
  }

  method MovesOf(path: seq<Cell>) returns (r: Result<seq<Direction>, CommandError>)
    requires |path| >= 2
    ensures r.Success? <==> Connected(path)
    ensures r.Success? ==> |r.value| == |path| - 1 && Follow(path[0], r.value) == path
    ensures r.Failure? ==> r.error.NonAdjacentMove? && r.error.index < |path| - 1
                           && !Adjacent(path[r.error.index], path[r.error.index + 1])
                           && Connected(path[..r.error.index + 1])
  {
    var moves: seq<Direction> := [];
    for i := 0 to |path| - 1
      invariant |moves| == i
      invariant forall k | 0 <= k < i :: Adjacent(path[k], path[k + 1]) && path[k + 1] == Move(path[k], moves[k])
    {
      var direction := DirectionFor(path[i], path[i + 1]);
      if direction.None? {
        return Failure(NonAdjacentMove(i));
      }
      moves := moves + [direction.value];
    }
    FollowRecovers(path, moves);
    return Success(moves);
  }

  lemma {:induction false} RunGrows(runs: seq<Run>, d: Direction)
    requires runs != [] && Canonical(runs) && runs[|runs| - 1].direction == d
    ensures var longer := runs[|runs| - 1 := Run(d, runs[|runs| - 1].count + 1)];
            Canonical(longer) && Expand(longer) == Expand(runs) + [d]
  {
    var last := |runs| - 1;
    var longer := runs[last := Run(d, runs[last].count + 1)];
    assert longer[..last] == runs[..last];
    assert Repeat(d, runs[last].count + 1) == Repeat(d, runs[last].count) + [d];
  }

  lemma {:induction false} RunStarts(runs: seq<Run>, d: Direction)
    requires Canonical(runs) && (runs != [] ==> runs[|runs| - 1].direction != d)
    ensures Canonical(runs + [Run(d, 1)]) && Expand(runs + [Run(d, 1)]) == Expand(runs) + [d]
  {
    assert (runs + [Run(d, 1)])[..|runs|] == runs;
    assert Repeat(d, 1) == [d];
  }

  method EncodeRuns(moves: seq<Direction>) returns (runs: seq<Run>)
    ensures Canonical(runs) && Expand(runs) == moves
  {
    runs := [];
    for i := 0 to |moves|
      invariant Canonical(runs) && Expand(runs) == moves[..i]
    {
      var direction := moves[i];
      if runs != [] && runs[|runs| - 1].direction == direction {
        RunGrows(runs, direction);
        runs := runs[|runs| - 1 := Run(direction, runs[|runs| - 1].count + 1)];
      } else {
        RunStarts(runs, direction);
        runs := runs + [Run(direction, 1)];
      }
      assert moves[..i + 1] == moves[..i] + [direction];
    }
    assert moves[..|moves|] == moves;
  }

  // Fexl accepts a path only if its first and last moves are upward.
  predicate UpwardAtEnds(path: seq<Cell>) {
    |path| >= 2 && path[1] == Move(path[0], U) && path[|path| - 1] == Move(path[|path| - 2], U)
  }

  method GridPathToCommands(path: seq<Cell>, G: int) returns (r: Result<Program, CommandError>)
    ensures r.Success? <==>
              path == [] || (Connected(path) && UpwardAtEnds(path))
    ensures r.Success? && path == [] ==> r.value == Empty
    ensures r.Success? && path != [] ==>
              && r.value.Program? && r.value.G == G && Canonical(r.value.runs)
              && (path[0].y == 0 ==> Execute(r.value) == path)
              && Follow(path[0], Expand(r.value.runs)) == path
    ensures r.Failure? ==>
              match r.error
              case NoMove => |path| == 1
              case NonAdjacentMove(i) => i + 1 < |path| && !Adjacent(path[i], path[i + 1]) && Connected(path[..i + 1])
              case NotUpwardAtEnds => |path| >= 2 && Connected(path)
  {
    if path == [] {
      return Success(Empty);
    }
    if |path| == 1 {
      return Failure(NoMove);
    }
    var moved := MovesOf(path);
    if moved.Failure? {
      return Failure(moved.error);
    }
    var moves := moved.value;
    if moves != [] && (moves[0] != U || moves[|moves| - 1] != U) {
      return Failure(NotUpwardAtEnds);
    }
    var runs := EncodeRuns(moves);
    assert path[0].y == 0 ==> path[0] == Cell(path[0].x, 0);
    return Success(Program(path[0].x, G, runs));
  }

  lemma DroppingAnEnd(f: Field, clearance: map<Cell, int>, G: nat, path: seq<Cell>)
    requires IsCorridor(f, clearance, G, path) && |path| >= 2
    ensures path[1].y == 0 ==> IsCorridor(f, clearance, G, path[1..])
    ensures path[|path| - 2].y == f.rows - 1 ==> IsCorridor(f, clearance, G, path[..|path| - 1])
  {
  }

  // A shortest corridor on a field of at least two rows never starts or ends
  // sideways: dropping that cell would leave a shorter corridor.
  lemma ShortestStartsAndEndsUpward(f: Field, clearance: map<Cell, int>, G: nat, path: seq<Cell>)
    requires f.rows >= 2 && IsShortestCorridor(f, clearance, G, path)
    ensures UpwardAtEnds(path)
  {
    var n := |path|;
    assert n >= 2 && Adjacent(path[0], path[1]) && Adjacent(path[n - 2], path[n - 1]);
    DroppingAnEnd(f, clearance, G, path);
    assert !IsCorridor(f, clearance, G, path[1..]) && !IsCorridor(f, clearance, G, path[..n - 1]);
    assert Open(f, clearance, G, path[1]) && Open(f, clearance, G, path[n - 2]);
  }
}
