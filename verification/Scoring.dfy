// compute_green_zone, official_score and score_path, and what clearance from
// the mines means for the score a path receives.
module Scoring {
  import opened Minefield
  import opened Corridor

  // Every mine is more than G king moves away.
  predicate ClearOf(mines: set<Cell>, G: int, c: Cell) {
    forall m | m in mines :: Chebyshev(m, c) > G
  }

  // A bottom-to-top walk that keeps G columns from either side and stays clear
  // of every mine by more than G. This speaks only of the field and the mines.
  ghost predicate IsSafeCorridor(f: Field, mines: set<Cell>, G: nat, path: seq<Cell>) {
    && path != [] && path[0].y == 0 && path[|path| - 1].y == f.rows - 1 && Connected(path)
    && forall i | 0 <= i < |path| ::
         G <= path[i].x <= f.cols - G - 1 && 0 <= path[i].y < f.rows && ClearOf(mines, G, path[i])
  }

  // Field cells off the path and within G of some cell of `near`.
  ghost function Around(f: Field, path: seq<Cell>, near: seq<Cell>, G: int): set<Cell> {
    set c | c in AllCells(f) && c !in path && exists p :: p in near && Chebyshev(p, c) <= G
  }

  // The green zone: within G of the path but not on it.
  ghost function GreenZone(f: Field, path: seq<Cell>, G: int): set<Cell> {
    Around(f, path, path, G)
  }

  // Offsets the two inner loops have covered before (dx, dy).
  ghost predicate Swept(p: Cell, G: int, dx: int, dy: int, c: Cell) {
    && Chebyshev(p, c) <= G
    && (c.x - p.x < dx || (c.x - p.x == dx && c.y - p.y < dy))
  }

  ghost predicate GreenSoFar(f: Field, path: seq<Cell>, G: int, done: nat, dx: int, dy: int, green: set<Cell>)
    requires done < |path|
  {
    forall c :: c in green <==>
      c in Around(f, path, path[..done], G)
      || (InField(f, c) && c !in path && Swept(path[done], G, dx, dy, c))
  }

  lemma GreenGrows(f: Field, path: seq<Cell>, G: int, done: nat, dx: int, dy: int, green: set<Cell>)
    requires done < |path| && -G <= dx <= G && -G <= dy <= G
    requires GreenSoFar(f, path, G, done, dx, dy, green)
    ensures var n := Cell(path[done].x + dx, path[done].y + dy);
            GreenSoFar(f, path, G, done, dx, dy + 1, if InField(f, n) && n !in path then green + {n} else green)
  {
    var p, next := path[done], dy + 1;
    var n := Cell(p.x + dx, p.y + dy);
    forall c
      ensures Swept(p, G, dx, next, c) <==> Swept(p, G, dx, dy, c) || c == n
    {
    }
  }

  lemma RowSwept(f: Field, path: seq<Cell>, G: int, done: nat, dx: int, green: set<Cell>)
    requires done < |path| && GreenSoFar(f, path, G, done, dx, G + 1, green)
    ensures GreenSoFar(f, path, G, done, dx + 1, -G, green)
  {
    var start, next, stop := -G, dx + 1, G + 1;
    forall c
      ensures Swept(path[done], G, dx, stop, c) <==> Swept(path[done], G, next, start, c)
    {
    }
  }

  lemma CellSwept(f: Field, path: seq<Cell>, G: int, done: nat, green: set<Cell>)
    requires done < |path| && GreenSoFar(f, path, G, done, G + 1, -G, green)
    ensures green == Around(f, path, path[..done + 1], G)
  {
    assert path[..done + 1] == path[..done] + [path[done]];
    forall c
      ensures c in green <==> c in Around(f, path, path[..done + 1], G)
    {
    }
  }

  method ComputeGreenZone(f: Field, path: seq<Cell>, G: int) returns (green: set<Cell>)
    requires G >= 0
    ensures green == GreenZone(f, path, G)
  {
    green := {};
    if G == 0 {
      assert forall p, c | p in path && Chebyshev(p, c) <= 0 :: p == c;
      return;
    }
    for i := 0 to |path|
      invariant green == Around(f, path, path[..i], G)
    {
      for dx := -G to G + 1
        invariant GreenSoFar(f, path, G, i, dx, -G, green)
      {
        for dy := -G to G + 1
          invariant GreenSoFar(f, path, G, i, dx, dy, green)
        {
          var c := Cell(path[i].x + dx, path[i].y + dy);
          GreenGrows(f, path, G, i, dx, dy, green);
          if InField(f, c) && c !in path {
            green := green + {c};
          }
        }
        RowSwept(f, path, G, i, dx, green);
      }
      CellSwept(f, path, G, i, green);
    }
    assert path[..|path|] == path;
  }

  // A path keeps clearance above G on every cell exactly when no mine lies on
  // it or in its green zone.
  lemma ClearanceMeansUntouched(f: Field, mines: set<Cell>, path: seq<Cell>, G: nat)
    requires mines <= AllCells(f)
    ensures (forall c | c in path :: ClearOf(mines, G, c))
            <==> (forall m | m in mines :: m !in path && m !in GreenZone(f, path, G))
  {
    if m, c :| m in mines && c in path && Chebyshev(m, c) <= G {
      assert Chebyshev(c, m) <= G;
      assert m in path || m in GreenZone(f, path, G);
      assert !ClearOf(mines, G, c);
    } else {
      forall m | m in mines
        ensures m !in path && m !in GreenZone(f, path, G)
      {
        assert Chebyshev(m, m) == 0;
        assert forall c | c in path :: Chebyshev(c, m) == Chebyshev(m, c);
      }
    }
  }

  // ---- The official score ----

  function OfficialScore(widthFt: int, lengthFt: int, missedMines: int, scanTime: real, overweight: real): real {
    var denominator := (1 + missedMines) as real * lengthFt as real * (1.0 + 7.0 * scanTime + 100.0 * overweight);
    if denominator > 0.0 then 150000.0 * widthFt as real / denominator else 0.0
  }

  function LengthFt(cells: nat): nat {
    cells * CELL_FT
  }

  function WidthFt(G: nat): nat {
    (1 + 2 * G) * CELL_FT
  }

  datatype ScoreReport = ScoreReport(
    score: real, lengthFt: nat, widthFt: nat, cells: nat,
    minesOnPath: nat, minesInGreen: nat, scanTime: real, dead: bool)

  // What a report says: the mines touched, and the score of a surviving path.
  ghost predicate IsReport(f: Field, path: seq<Cell>, G: nat, mines: set<Cell>, scanTime: real, overweight: real,
                           r: ScoreReport)
  {
    && r.minesOnPath == |set m | m in mines && m in path|
    && r.minesInGreen == |mines * GreenZone(f, path, G)|
    && (r.dead <==> exists m :: m in mines && m in path)
    && r.score == (if r.dead then 0.0 else OfficialScore(r.widthFt, r.lengthFt, r.minesInGreen, scanTime, overweight))
    && r.cells == |path| && r.lengthFt == 2 * |path| && r.widthFt == 2 + 4 * G && r.scanTime == scanTime
  }

  // 150000 per foot of width, divided by the length, by one more than the mines
  // missed, and by the time and weight factor; nothing when that is not positive.
  ghost predicate IsRate(score: real, widthFt: int, lengthFt: int, missed: nat, scanTime: real, overweight: real) {
    var denominator := (1 + missed) as real * lengthFt as real * (1.0 + 7.0 * scanTime + 100.0 * overweight);
    if denominator > 0.0 then score * denominator == 150000.0 * widthFt as real else score == 0.0
  }

  lemma ScoreIsRate(widthFt: int, lengthFt: int, missed: nat, scanTime: real, overweight: real, score: real)
    requires score == OfficialScore(widthFt, lengthFt, missed, scanTime, overweight)
    ensures IsRate(score, widthFt, lengthFt, missed, scanTime, overweight)
  {
  }

  // A dead path is paid nothing, a surviving one for the mines in its green zone.
  ghost predicate IsPaid(r: ScoreReport, overweight: real) {
    if r.dead then r.score == 0.0
    else IsRate(r.score, r.widthFt, r.lengthFt, r.minesInGreen, r.scanTime, overweight)
  }

  lemma ReportIsPaid(f: Field, path: seq<Cell>, G: nat, mines: set<Cell>, scanTime: real, overweight: real,
                     r: ScoreReport)
    requires IsReport(f, path, G, mines, scanTime, overweight, r)
    ensures IsPaid(r, overweight)
  {
    if !r.dead {
      ScoreIsRate(r.widthFt, r.lengthFt, r.minesInGreen, scanTime, overweight, r.score);
    }
  }

  // The counts of the report.
  method ScoreTouched(f: Field, path: seq<Cell>, G: nat, mines: set<Cell>, scanTime: real, overweight: real)
    returns (r: ScoreReport)
    ensures IsReport(f, path, G, mines, scanTime, overweight, r)
    ensures mines <= AllCells(f) ==>
              ((!r.dead && r.minesInGreen == 0) <==> forall c | c in path :: ClearOf(mines, G, c))
  {
    var blue := set c | c in path;
    var green := ComputeGreenZone(f, path, G);
    var onPath := blue * mines;
    var inGreen := green * mines;
    assert onPath == set m | m in mines && m in path;
    assert forall m :: m in onPath <==> m in mines && m in path;
    assert inGreen == mines * GreenZone(f, path, G);
    var score := 0.0;
    if onPath == {} {
      score := OfficialScore(WidthFt(G), LengthFt(|path|), |inGreen|, scanTime, overweight);
    }
    r := ScoreReport(score, LengthFt(|path|), WidthFt(G), |path|, |onPath|, |inGreen|, scanTime, |onPath| > 0);
    if mines <= AllCells(f) {
      ClearanceMeansUntouched(f, mines, path, G);
      UntouchedCounts(mines, path, GreenZone(f, path, G));
    }
  }

  // A path with a mine on it is dead; it is alive with no missed mine exactly
  // when every cell is clear of every mine by more than G.
  method ScorePath(f: Field, path: seq<Cell>, G: nat, mines: set<Cell>, scanTime: real, overweight: real)
    returns (r: ScoreReport)
    ensures IsReport(f, path, G, mines, scanTime, overweight, r) && IsPaid(r, overweight)
    ensures mines <= AllCells(f) ==>
              ((!r.dead && r.minesInGreen == 0) <==> forall c | c in path :: ClearOf(mines, G, c))
  {
    r := ScoreTouched(f, path, G, mines, scanTime, overweight);
    ReportIsPaid(f, path, G, mines, scanTime, overweight, r);
  }

  lemma UntouchedCounts(mines: set<Cell>, path: seq<Cell>, green: set<Cell>)
    ensures (forall m | m in mines :: m !in path && m !in green)
            <==> |set m | m in mines && m in path| == 0 && |mines * green| == 0
  {
    var onPath := set m | m in mines && m in path;
    var inGreen := mines * green;
    assert (forall m | m in mines :: m !in path) <==> onPath == {} by {
      assert forall m :: m in onPath <==> m in mines && m in path;
    }
    assert (forall m | m in mines :: m !in green) <==> inGreen == {} by {
      assert forall m :: m in inGreen <==> m in mines && m in green;
    }
  }
}
