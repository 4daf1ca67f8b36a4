// The grid the path planner works on: cells, the two neighbourhoods its
// searches use, and the distance from a cell to the nearest mine.
module Minefield {
  import opened Arithmetic

  datatype Cell = Cell(x: int, y: int)

  datatype Dims = Dims(cols: int, rows: int)

  // The planner fixes 40 columns and 150 rows; nothing here depends on that.
  type Field = f: Dims | f.cols >= 1 && f.rows >= 1 witness Dims(40, 150)

  const CELL_FT := 2

  predicate InField(f: Field, c: Cell) {
    0 <= c.x < f.cols && 0 <= c.y < f.rows
  }

  // Chebyshev distance: the number of king moves between two cells.
  function Chebyshev(a: Cell, b: Cell): nat {
    Max(Abs(a.x - b.x), Abs(a.y - b.y))
  }

  // One king move apart.
  predicate Touching(a: Cell, b: Cell) {
    Chebyshev(a, b) == 1
  }

  // One rook step apart.
  predicate Adjacent(a: Cell, b: Cell) {
    Abs(a.x - b.x) + Abs(a.y - b.y) == 1
  }

  function AllCells(f: Field): (cells: set<Cell>)
    ensures forall c :: c in cells <==> InField(f, c)
  {
    assert forall c: Cell :: c == Cell(c.x, c.y);
    set x, y | 0 <= x < f.cols && 0 <= y < f.rows :: Cell(x, y)
  }

  function Column(x: int, n: nat): set<Cell> {
    set y | 0 <= y < n :: Cell(x, y)
  }

  function Columns(f: Field, n: nat): set<Cell> {
    set x, y | 0 <= x < n && 0 <= y < f.rows :: Cell(x, y)
  }

  lemma {:induction false} ColumnSize(x: int, n: nat)
    ensures |Column(x, n)| == n
  {
    if n > 0 {
      ColumnSize(x, n - 1);
      assert Column(x, n) == Column(x, n - 1) + {Cell(x, n - 1)};
    }
  }

  lemma {:induction false} ColumnsSize(f: Field, n: nat)
    ensures |Columns(f, n)| == n * f.rows
  {
    if n > 0 {
      ColumnsSize(f, n - 1);
      AddColumn(f, n);
      assert n * f.rows == (n - 1) * f.rows + f.rows;
    }
  }

  lemma AddColumn(f: Field, n: nat)
    requires n > 0
    ensures |Columns(f, n)| == |Columns(f, n - 1)| + f.rows
  {
    ColumnSize(n - 1, f.rows);
    assert Columns(f, n) == Columns(f, n - 1) + Column(n - 1, f.rows);
    assert Columns(f, n - 1) !! Column(n - 1, f.rows);
  }

  lemma FieldSize(f: Field)
    ensures |AllCells(f)| == f.cols * f.rows
  {
    ColumnsSize(f, f.cols);
    assert AllCells(f) == Columns(f, f.cols);
  }

  ghost predicate IsNearest(mines: set<Cell>, c: Cell, d: int) {
    && (exists m :: m in mines && Chebyshev(m, c) == d)
    && (forall m :: m in mines ==> d <= Chebyshev(m, c))
  }

  lemma {:induction false} NearestExists(mines: set<Cell>, c: Cell) returns (d: nat)
    requires mines != {}
    ensures IsNearest(mines, c, d)
  {
    var m :| m in mines;
    if mines == {m} {
      d := Chebyshev(m, c);
    } else {
      d := NearestExists(mines - {m}, c);
      d := Min(d, Chebyshev(m, c));
    }
  }

  // Distance from c to the nearest mine.
  ghost function Nearest(mines: set<Cell>, c: Cell): (d: nat)
    requires mines != {}
    ensures IsNearest(mines, c, d)
  {
    assert exists d: nat :: IsNearest(mines, c, d) by { var d := NearestExists(mines, c); }
    var d: nat :| IsNearest(mines, c, d);
    d
  }

  lemma NearestIsZeroAtMines(mines: set<Cell>, c: Cell)
    requires mines != {}
    ensures Nearest(mines, c) == 0 <==> c in mines
  {
    var m :| m in mines && Chebyshev(m, c) == Nearest(mines, c);
    if c in mines {
      assert Chebyshev(c, c) == 0;
    } else {
      assert m != c;
    }
  }

  lemma ChebyshevTriangle(a: Cell, b: Cell, c: Cell)
    ensures Chebyshev(a, c) <= Chebyshev(a, b) + Chebyshev(b, c)
  {
  }

  // A king move changes the distance to the nearest mine by at most one.
  lemma NearestIsLipschitz(mines: set<Cell>, a: Cell, b: Cell)
    requires mines != {} && Touching(a, b)
    ensures Nearest(mines, b) <= Nearest(mines, a) + 1
  {
    var m :| m in mines && Chebyshev(m, a) == Nearest(mines, a);
    ChebyshevTriangle(m, a, b);
  }

  function StepToward(from: int, to: int): int {
    if from < to then from + 1 else if to < from then from - 1 else from
  }

  // Every cell that is not a mine has a neighbour one step nearer to one.
  lemma NearerNeighbour(f: Field, mines: set<Cell>, c: Cell) returns (p: Cell)
    requires mines != {} && (forall m :: m in mines ==> InField(f, m))
    requires InField(f, c) && Nearest(mines, c) > 0
    ensures InField(f, p) && Touching(p, c)
    ensures Nearest(mines, p) + 1 == Nearest(mines, c)
  {
    var m :| m in mines && Chebyshev(m, c) == Nearest(mines, c);
    p := Cell(StepToward(c.x, m.x), StepToward(c.y, m.y));
    assert Chebyshev(m, p) + 1 == Chebyshev(m, c);
    NearestIsLipschitz(mines, p, c);
  }
}
