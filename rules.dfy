/** The rules of the game as pure functions over a value of the whole match:
    the grid of (value, owner) cells, the two scores, the player to move and the
    game-over flag. Engine.GameEngine runs the same rules in place on its arrays
    and is proved to agree with Apply below
    (src/main/java/com/mycompany/javagrid4/GameEngine.java). */
module Rules {
  import opened Common
  import opened Players

  const MaxCellValue := 4
  const MinGridSize := 3
  const MaxGridSize := 7

  /** The size check of the constructor and of changeGridSize. */
  function ValidGridSize(n: int): (ok: bool)
    ensures ok <==> n == 3 || n == 5 || n == 7
  {
    !(n < MinGridSize || n > MaxGridSize || n % 2 == 0)
  }

  /** One grid position: its value and its owner (null in GameEngine.cellOwners when unowned). */
  datatype Cell = Cell(value: int, owner: Option<Player>)

  /** Rows of cells; row r, column c is board[r][c]. */
  type Board = seq<seq<Cell>>

  /** A (row, column) pair. */
  type Pos = (int, int)

  predicate IsSquare(b: Board) {
    forall i :: 0 <= i < |b| ==> |b[i]| == |b|
  }

  /** validatePosition: the position lies on an n-by-n grid. */
  predicate InBounds(n: int, r: int, c: int) {
    0 <= r < n && 0 <= c < n
  }

  /** A square board whose values all lie in 0..4 (setCellValue rejects anything else). */
  predicate WellFormed(b: Board) {
    IsSquare(b) && forall i, j :: 0 <= i < |b| && 0 <= j < |b| ==> 0 <= b[i][j].value <= MaxCellValue
  }

  /** All positions of an n-by-n grid. */
  function AllCells(n: int): (s: set<Pos>)
    ensures forall x: Pos :: x in s <==> InBounds(n, x.0, x.1)
  {
    set i, j | 0 <= i < n && 0 <= j < n :: (i, j)
  }

  /** initializeGrid: every value 0 and no owner. */
  function EmptyBoard(n: nat): (b: Board)
    ensures |b| == n && WellFormed(b)
  {
    seq(n, _ => seq(n, _ => Cell(0, None)))
  }

  /** checkGameEnd's condition: every cell has reached the maximum value. */
  predicate AllFull(b: Board)
    requires IsSquare(b)
  {
    forall i, j :: 0 <= i < |b| && 0 <= j < |b| ==> b[i][j].value == MaxCellValue
  }

  /** Two square boards of one size that agree on every cell are equal. */
  lemma SameBoard(a: Board, b: Board)
    requires IsSquare(a) && IsSquare(b) && |a| == |b|
    requires forall i, j :: 0 <= i < |a| && 0 <= j < |a| ==> a[i][j] == b[i][j]
    ensures a == b
  {
    forall i | 0 <= i < |a|
      ensures a[i] == b[i]
    {
      assert forall j :: 0 <= j < |a| ==> a[i][j] == b[i][j];
    }
  }

  /** The cells the given player owns. */
  function Owned(b: Board, p: Player): set<Pos>
    requires IsSquare(b)
  {
    set x | x in AllCells(|b|) && b[x.0][x.1].owner == Some(p)
  }

  predicate Distinct(s: seq<Pos>) {
    forall k, l :: 0 <= k < l < |s| ==> s[k] != s[l]
  }

  predicate AllInBounds(n: int, cells: seq<Pos>) {
    forall x :: x in cells ==> InBounds(n, x.0, x.1)
  }

  function Abs(x: int): nat {
    if x < 0 then -x else x
  }

  /** The cells a move at (r, c) touches, in the order applyMove visits them:
      the clicked cell, then up, down, left and right where they are on the
      grid. They are exactly the on-grid cells at distance at most 1. */
  function Affected(n: int, r: int, c: int): (cells: seq<Pos>)
    requires InBounds(n, r, c)
    ensures AllInBounds(n, cells) && Distinct(cells)
  {
    DistinctConcat(ColumnCells(n, r, c), RowCells(n, r, c));
    ColumnCells(n, r, c) + RowCells(n, r, c)
  }

  /** The first part of the touch list: the clicked cell, then the cells
      above and below it. All lie in the clicked column. */
  function ColumnCells(n: int, r: int, c: int): (cells: seq<Pos>)
    requires InBounds(n, r, c)
    ensures Distinct(cells)
    ensures forall x :: x in cells ==> x.1 == c && InBounds(n, x.0, x.1)
  {
    [(r, c)] + (if r > 0 then [(r - 1, c)] else []) + (if r < n - 1 then [(r + 1, c)] else [])
  }

  /** The rest of the touch list: the cells left and right of the clicked
      one. None lies in the clicked column. */
  function RowCells(n: int, r: int, c: int): (cells: seq<Pos>)
    requires InBounds(n, r, c)
    ensures Distinct(cells)
    ensures forall x :: x in cells ==> x.1 != c && InBounds(n, x.0, x.1)
  {
    (if c > 0 then [(r, c - 1)] else []) + (if c < n - 1 then [(r, c + 1)] else [])
  }

  lemma DistinctConcat(s: seq<Pos>, t: seq<Pos>)
    requires Distinct(s) && Distinct(t) && forall x :: x in s ==> x !in t
    ensures Distinct(s + t)
  {
    forall k, l | 0 <= k < l < |s + t| ensures (s + t)[k] != (s + t)[l] {
      if l >= |s| && k < |s| {
        assert (s + t)[k] in s;
      }
    }
  }

  /** The touched cells are exactly the on-grid cells at distance at most 1
      from the click, the clicked cell first. */
  lemma AffectedAreNeighbours(n: int, r: int, c: int)
    requires InBounds(n, r, c)
    ensures forall x: Pos :: x in Affected(n, r, c) <==> InBounds(n, x.0, x.1) && Abs(x.0 - r) + Abs(x.1 - c) <= 1
    ensures Affected(n, r, c)[0] == (r, c)
  {
    var cells := Affected(n, r, c);
    forall x: Pos ensures x in cells <==> InBounds(n, x.0, x.1) && Abs(x.0 - r) + Abs(x.1 - c) <= 1 {
      if InBounds(n, x.0, x.1) && Abs(x.0 - r) + Abs(x.1 - c) <= 1 {
        if x.0 == r - 1 {
          assert x == (r - 1, c);
        } else if x.0 == r + 1 {
          assert x == (r + 1, c);
        } else if x.1 == c - 1 {
          assert x == (r, c - 1);
        } else if x.1 == c + 1 {
          assert x == (r, c + 1);
        } else {
          assert x == (r, c);
        }
      }
    }
  }

  /** A corner move touches 3 cells, an edge move 4 and an interior move 5. */
  lemma AffectedCount(n: int, r: int, c: int)
    requires n >= 2 && InBounds(n, r, c)
    ensures (r == 0 || r == n - 1) && (c == 0 || c == n - 1) ==> |Affected(n, r, c)| == 3
    ensures (0 < r < n - 1) != (0 < c < n - 1) ==> |Affected(n, r, c)| == 4
    ensures 0 < r < n - 1 && 0 < c < n - 1 ==> |Affected(n, r, c)| == 5
  {
  }

  /** incrementAndCheck: a cell below 4 goes up by one; if that makes it 4 and
      it has no owner, the mover claims it and earns one point. A cell at 4 is
      left alone. */
  function IncrementAndCheck(cell: Cell, p: Player): (res: (Cell, nat))
    ensures 0 <= cell.value <= MaxCellValue ==>
      res.0.value == (if cell.value == MaxCellValue then MaxCellValue else cell.value + 1)
    ensures res.0.owner != cell.owner ==> cell.owner == None && res.0.owner == Some(p) && res.0.value == MaxCellValue
    ensures res.1 == (if res.0.owner != cell.owner then 1 else 0)
  {
    if cell.value < MaxCellValue then
      var v := cell.value + 1;
      if v == MaxCellValue && cell.owner == None then (Cell(v, Some(p)), 1)
      else (Cell(v, cell.owner), 0)
    else (cell, 0)
  }

  /** Whether incrementAndCheck claims the cell. */
  predicate Claims(cell: Cell) {
    cell.value == MaxCellValue - 1 && cell.owner == None
  }

  lemma ClaimsIffPoint(cell: Cell, p: Player)
    ensures IncrementAndCheck(cell, p).1 == 1 <==> Claims(cell)
  {
  }

  function SetCell(b: Board, x: Pos, cell: Cell): (b': Board)
    requires IsSquare(b) && InBounds(|b|, x.0, x.1)
    ensures |b'| == |b| && IsSquare(b')
  {
    b[x.0 := b[x.0][x.1 := cell]]
  }

  /** Writing a cell twice keeps only the second write. */
  lemma SetCellTwice(b: Board, x: Pos, first: Cell, second: Cell)
    requires IsSquare(b) && InBounds(|b|, x.0, x.1)
    ensures SetCell(SetCell(b, x, first), x, second) == SetCell(b, x, second)
  {
    var row := b[x.0];
    assert SetCell(b, x, first)[x.0] == row[x.1 := first];
    assert row[x.1 := first][x.1 := second] == row[x.1 := second];
  }

  /** One incrementAndCheck call on cell x, its point added to a running total. */
  function Step(acc: (Board, nat), x: Pos, p: Player): (res: (Board, nat))
    requires IsSquare(acc.0) && InBounds(|acc.0|, x.0, x.1)
    ensures |res.0| == |acc.0| && IsSquare(res.0)
  {
    var step := IncrementAndCheck(acc.0[x.0][x.1], p);
    (SetCell(acc.0, x, step.0), acc.1 + step.1)
  }

  /** A Step guarded by an if of applyMove. */
  function StepIf(acc: (Board, nat), guard: bool, x: Pos, p: Player): (res: (Board, nat))
    requires IsSquare(acc.0) && (guard ==> InBounds(|acc.0|, x.0, x.1))
    ensures |res.0| == |acc.0| && IsSquare(res.0)
  {
    if guard then Step(acc, x, p) else acc
  }

  /** incrementAndCheck applied to each listed cell in turn, summing the points. */
  function IncrementAll(b: Board, cells: seq<Pos>, p: Player): (res: (Board, nat))
    requires IsSquare(b) && AllInBounds(|b|, cells)
    ensures |res.0| == |b| && IsSquare(res.0)
    decreases |cells|
  {
    if cells == [] then (b, 0)
    else Step(IncrementAll(b, cells[..|cells| - 1], p), cells[|cells| - 1], p)
  }

  /** One more increment at the end of the list. */
  lemma IncrementAllSnoc(b: Board, cells: seq<Pos>, x: Pos, p: Player)
    requires IsSquare(b) && AllInBounds(|b|, cells) && InBounds(|b|, x.0, x.1)
    ensures AllInBounds(|b|, cells + [x])
    ensures IncrementAll(b, cells + [x], p) == Step(IncrementAll(b, cells, p), x, p)
  {
    assert (cells + [x])[..|cells|] == cells;
  }

  /** One more increment under a guard of applyMove. */
  lemma IncrementAllSnocIf(b: Board, cells: seq<Pos>, guard: bool, x: Pos, p: Player)
    requires IsSquare(b) && AllInBounds(|b|, cells) && (guard ==> InBounds(|b|, x.0, x.1))
    ensures AllInBounds(|b|, cells + (if guard then [x] else []))
    ensures IncrementAll(b, cells + (if guard then [x] else []), p) == StepIf(IncrementAll(b, cells, p), guard, x, p)
  {
    if guard {
      IncrementAllSnoc(b, cells, x, p);
    } else {
      assert cells + [] == cells;
    }
  }

  /** A move is the straight-line sequence of applyMove: the clicked cell,
      then up, down, left and right, each only when it is on the grid. */
  lemma MoveSteps(b: Board, r: int, c: int, p: Player)
    requires IsSquare(b) && InBounds(|b|, r, c)
    ensures var n := |b|;
      Move(b, r, c, p) ==
        StepIf(StepIf(StepIf(StepIf(Step((b, 0), (r, c), p),
          r > 0, (r - 1, c), p), r < n - 1, (r + 1, c), p), c > 0, (r, c - 1), p), c < n - 1, (r, c + 1), p)
  {
    var n := |b|;
    var d1 := [(r, c)];
    IncrementAllSnoc(b, [], (r, c), p);
    assert [] + [(r, c)] == d1;
    IncrementAllSnocIf(b, d1, r > 0, (r - 1, c), p);
    var d2 := d1 + (if r > 0 then [(r - 1, c)] else []);
    IncrementAllSnocIf(b, d2, r < n - 1, (r + 1, c), p);
    var d3 := d2 + (if r < n - 1 then [(r + 1, c)] else []);
    IncrementAllSnocIf(b, d3, c > 0, (r, c - 1), p);
    var left, right := (if c > 0 then [(r, c - 1)] else []), (if c < n - 1 then [(r, c + 1)] else []);
    var d4 := d3 + left;
    IncrementAllSnocIf(b, d4, c < n - 1, (r, c + 1), p);
    assert d3 == ColumnCells(n, r, c) && left + right == RowCells(n, r, c);
    ConcatAssoc(d3, left, right);
  }

  lemma ConcatAssoc<T>(a: seq<T>, b: seq<T>, c: seq<T>)
    ensures (a + b) + c == a + (b + c)
  {
  }

  /** The listed cells that the increments claim. */
  function ClaimSet(b: Board, cells: seq<Pos>): set<Pos>
    requires IsSquare(b) && AllInBounds(|b|, cells)
  {
    set x | x in cells && Claims(b[x.0][x.1])
  }

  /** Incrementing distinct cells one after the other: each listed cell is
      incremented once from its earlier contents and every other cell is
      left alone. */
  lemma {:induction false} IncrementAllBoard(b: Board, cells: seq<Pos>, p: Player)
    requires IsSquare(b) && AllInBounds(|b|, cells) && Distinct(cells)
    ensures forall i, j :: 0 <= i < |b| && 0 <= j < |b| ==>
      IncrementAll(b, cells, p).0[i][j] ==
        if (i, j) in cells then IncrementAndCheck(b[i][j], p).0 else b[i][j]
    decreases |cells|
  {
    if cells != [] {
      var init := cells[..|cells| - 1];
      var x := cells[|cells| - 1];
      assert cells == init + [x];
      assert x !in init;
      IncrementAllBoard(b, init, p);
      var prev := IncrementAll(b, init, p);
      assert prev.0[x.0][x.1] == b[x.0][x.1];
      forall i, j | 0 <= i < |b| && 0 <= j < |b|
        ensures IncrementAll(b, cells, p).0[i][j] ==
          if (i, j) in cells then IncrementAndCheck(b[i][j], p).0 else b[i][j]
      {
        assert (i, j) in cells <==> (i, j) in init || (i, j) == x;
      }
    }
  }

  /** The claimed cells of a list with one more cell at the end. */
  lemma ClaimSetSnoc(b: Board, init: seq<Pos>, x: Pos)
    requires IsSquare(b) && AllInBounds(|b|, init) && InBounds(|b|, x.0, x.1) && x !in init
    ensures AllInBounds(|b|, init + [x])
    ensures |ClaimSet(b, init + [x])| == |ClaimSet(b, init)| + (if Claims(b[x.0][x.1]) then 1 else 0)
  {
    var before := ClaimSet(b, init);
    assert x !in before;
    if Claims(b[x.0][x.1]) {
      assert ClaimSet(b, init + [x]) == before + {x};
    } else {
      assert ClaimSet(b, init + [x]) == before;
    }
  }

  /** Incrementing distinct cells one after the other scores the number of
      cells claimed. */
  lemma {:induction false} IncrementAllPoints(b: Board, cells: seq<Pos>, p: Player)
    requires IsSquare(b) && AllInBounds(|b|, cells) && Distinct(cells)
    ensures IncrementAll(b, cells, p).1 == |ClaimSet(b, cells)|
    decreases |cells|
  {
    if cells != [] {
      var init := cells[..|cells| - 1];
      var x := cells[|cells| - 1];
      assert cells == init + [x];
      assert x !in init;
      IncrementAllPoints(b, init, p);
      IncrementAllBoard(b, init, p);
      assert IncrementAll(b, init, p).0[x.0][x.1] == b[x.0][x.1];
      ClaimsIffPoint(b[x.0][x.1], p);
      ClaimSetSnoc(b, init, x);
    }
  }

  /** The board part of applyMove: increment the clicked cell and its on-grid
      orthogonal neighbours; the number is the points awarded. */
  function Move(b: Board, r: int, c: int, p: Player): (res: (Board, nat))
    requires IsSquare(b) && InBounds(|b|, r, c)
    ensures |res.0| == |b| && IsSquare(res.0)
  {
    IncrementAll(b, Affected(|b|, r, c), p)
  }

  /** The cells a move at (r, c) claims: those at distance at most 1 that hold
      3 and have no owner. */
  function NewlyClaimed(b: Board, r: int, c: int): set<Pos>
    requires IsSquare(b) && InBounds(|b|, r, c)
  {
    ClaimSet(b, Affected(|b|, r, c))
  }

  /** Every cell at distance at most 1 from the click goes up by one unless it
      is already 4; no other cell changes; the points are the claimed cells. */
  lemma MoveEffect(b: Board, r: int, c: int, p: Player)
    requires IsSquare(b) && InBounds(|b|, r, c)
    ensures forall i, j :: 0 <= i < |b| && 0 <= j < |b| ==>
      Move(b, r, c, p).0[i][j] ==
        if Abs(i - r) + Abs(j - c) <= 1 then IncrementAndCheck(b[i][j], p).0 else b[i][j]
    ensures Move(b, r, c, p).1 == |NewlyClaimed(b, r, c)|
  {
    AffectedAreNeighbours(|b|, r, c);
    forall i, j | 0 <= i < |b| && 0 <= j < |b|
      ensures Move(b, r, c, p).0[i][j] ==
        if Abs(i - r) + Abs(j - c) <= 1 then IncrementAndCheck(b[i][j], p).0 else b[i][j]
    {
      MoveAt(b, r, c, p, (i, j));
    }
    MovePoints(b, r, c, p);
  }

  /** The points of a move are the number of cells it claims. */
  lemma MovePoints(b: Board, r: int, c: int, p: Player)
    requires IsSquare(b) && InBounds(|b|, r, c)
    ensures Move(b, r, c, p).1 == |NewlyClaimed(b, r, c)|
  {
    IncrementAllPoints(b, Affected(|b|, r, c), p);
  }

  /** A move awards at most one point per touched cell, so at most 5. */
  lemma {:induction false} MovePointsBound(b: Board, r: int, c: int, p: Player)
    requires IsSquare(b) && InBounds(|b|, r, c)
    ensures Move(b, r, c, p).1 <= |Affected(|b|, r, c)| <= 5
  {
    MovePoints(b, r, c, p);
    var cells := Affected(|b|, r, c);
    SetOfSeqSize(cells, NewlyClaimed(b, r, c));
  }

  /** A set drawn from a sequence is no larger than the sequence. */
  lemma {:induction false} SetOfSeqSize(s: seq<Pos>, t: set<Pos>)
    requires forall x :: x in t ==> x in s
    ensures |t| <= |s|
    decreases |s|
  {
    if s != [] {
      var x := s[|s| - 1];
      var init := s[..|s| - 1];
      assert s == init + [x];
      SetOfSeqSize(init, t - {x});
    } else {
      assert t == {};
    }
  }

  /** Moves keep every value within 0..4. */
  lemma MoveWellFormed(b: Board, r: int, c: int, p: Player)
    requires WellFormed(b) && InBounds(|b|, r, c)
    ensures WellFormed(Move(b, r, c, p).0)
  {
    MoveEffect(b, r, c, p);
  }

  /** A move never changes an owner that is already set, and never touches a
      cell that has reached 4. */
  lemma MoveKeepsOwners(b: Board, r: int, c: int, p: Player, i: int, j: int)
    requires IsSquare(b) && InBounds(|b|, r, c) && InBounds(|b|, i, j)
    ensures b[i][j].owner.Some? ==> Move(b, r, c, p).0[i][j].owner == b[i][j].owner
    ensures b[i][j].value == MaxCellValue ==> Move(b, r, c, p).0[i][j] == b[i][j]
  {
    MoveEffect(b, r, c, p);
  }

  /** One cell after a move: incremented once if the move touches it, as it was otherwise. */
  lemma MoveAt(b: Board, r: int, c: int, p: Player, x: Pos)
    requires IsSquare(b) && InBounds(|b|, r, c) && InBounds(|b|, x.0, x.1)
    ensures Move(b, r, c, p).0[x.0][x.1] ==
      if x in Affected(|b|, r, c) then IncrementAndCheck(b[x.0][x.1], p).0 else b[x.0][x.1]
  {
    IncrementAllBoard(b, Affected(|b|, r, c), p);
  }

  /** After a move, the mover owns what it owned before plus the newly claimed
      cells, which it did not own; the opponent owns exactly what it owned. */
  lemma MoveOwned(b: Board, r: int, c: int, p: Player)
    requires IsSquare(b) && InBounds(|b|, r, c)
    ensures Owned(Move(b, r, c, p).0, p) == Owned(b, p) + NewlyClaimed(b, r, c)
    ensures Owned(b, p) !! NewlyClaimed(b, r, c)
    ensures Owned(Move(b, r, c, p).0, p.Opponent()) == Owned(b, p.Opponent())
  {
    var b': Board := Move(b, r, c, p).0;
    var cells := Affected(|b|, r, c);
    var n := NewlyClaimed(b, r, c);
    var q := p.Opponent();
    forall x | x in AllCells(|b|)
      ensures x in Owned(b', p) <==> x in Owned(b, p) || x in n
      ensures x in Owned(b', q) <==> x in Owned(b, q)
    {
      MoveAt(b, r, c, p, x);
      ClaimsIffPoint(b[x.0][x.1], p);
    }
    assert Owned(b', p) == Owned(b, p) + n;
    assert Owned(b', q) == Owned(b, q);
  }

  /** The state of a whole match. */
  datatype Game = Game(board: Board, score1: int, score2: int, current: Player, over: bool)
  {
    /** getScore. */
    function Score(p: Player): int {
      if p == PlayerOne then score1 else score2
    }
  }

  /** What applyMove leaves behind and returns. */
  datatype MoveResult = MoveResult(game: Game, points: nat)

  /** A new match, or one after resetBoard / changeGridSize. */
  function Fresh(n: nat): Game {
    Game(EmptyBoard(n), 0, 0, PlayerOne, false)
  }

  function AddScore(g: Game, p: Player, points: int): (g': Game)
    ensures g'.Score(p) == g.Score(p) + points && g'.Score(p.Opponent()) == g.Score(p.Opponent())
    ensures g'.board == g.board && g'.current == g.current && g'.over == g.over
  {
    if p == PlayerOne then g.(score1 := g.score1 + points) else g.(score2 := g.score2 + points)
  }

  /** checkGameEnd: raise the flag when every cell is 4; never lower it. */
  function CheckGameEnd(g: Game): (g': Game)
    requires IsSquare(g.board)
    ensures g'.over == (g.over || AllFull(g.board))
    ensures g' == g.(over := g'.over)
  {
    if AllFull(g.board) then g.(over := true) else g
  }

  /** applyMove: an off-grid position raises an error before anything else is
      looked at; a finished match is left as it is with 0 points; otherwise the
      board moves, the mover's score goes up by the points (when there are
      any) and the end of the match is checked. */
  function Apply(g: Game, r: int, c: int, p: Player): (res: Result<MoveResult>)
    requires IsSquare(g.board)
  {
    if !InBounds(|g.board|, r, c) then Err(OutOfBounds(r, c))
    else if g.over then Ok(MoveResult(g, 0))
    else
      var m := Move(g.board, r, c, p);
      var scored := if m.1 > 0 then AddScore(g, p, m.1) else g;
      Ok(MoveResult(CheckGameEnd(scored.(board := m.0)), m.1))
  }

  /** The outcome of applyMove in every case. */
  lemma ApplyCases(g: Game, r: int, c: int, p: Player)
    requires IsSquare(g.board)
    ensures Apply(g, r, c, p).Err? <==> !InBounds(|g.board|, r, c)
    ensures InBounds(|g.board|, r, c) && g.over ==> Apply(g, r, c, p) == Ok(MoveResult(g, 0))
    ensures InBounds(|g.board|, r, c) && !g.over ==>
      var res := Apply(g, r, c, p).value;
      && res.game.board == Move(g.board, r, c, p).0
      && res.points == |NewlyClaimed(g.board, r, c)| <= 5
      && res.game.Score(p) == g.Score(p) + res.points
      && res.game.Score(p.Opponent()) == g.Score(p.Opponent())
      && res.game.current == g.current
      && (res.game.over <==> AllFull(res.game.board))
  {
    if InBounds(|g.board|, r, c) && !g.over {
      MoveEffect(g.board, r, c, p);
      MovePointsBound(g.board, r, c, p);
    }
  }

  /** A cell has an owner exactly when its value is 4. */
  predicate OwnedIffFull(b: Board)
    requires IsSquare(b)
  {
    forall i, j :: 0 <= i < |b| && 0 <= j < |b| ==> (b[i][j].owner.Some? <==> b[i][j].value == MaxCellValue)
  }

  /** The invariant every match reachable by moves from a fresh board keeps:
      values in 0..4, a cell has an owner exactly when its value is 4, each
      score is the number of cells its player owns, and the match is over
      exactly when every cell is 4. */
  predicate Consistent(g: Game) {
    && WellFormed(g.board)
    && OwnedIffFull(g.board)
    && g.score1 == |Owned(g.board, PlayerOne)|
    && g.score2 == |Owned(g.board, PlayerTwo)|
    && (g.over <==> AllFull(g.board))
  }

  lemma FreshConsistent(n: nat)
    requires n >= 1
    ensures Consistent(Fresh(n))
  {
    var b := EmptyBoard(n);
    assert Owned(b, PlayerOne) == {};
    assert Owned(b, PlayerTwo) == {};
    assert b[0][0].value != MaxCellValue;
  }

  /** A move keeps "owned exactly when 4" and the 0..4 range. */
  lemma MoveKeepsOwnerIffFull(b: Board, r: int, c: int, p: Player)
    requires WellFormed(b) && InBounds(|b|, r, c)
    requires OwnedIffFull(b)
    ensures WellFormed(Move(b, r, c, p).0) && OwnedIffFull(Move(b, r, c, p).0)
  {
    var b': Board := Move(b, r, c, p).0;
    forall i, j | 0 <= i < |b'| && 0 <= j < |b'|
      ensures 0 <= b'[i][j].value <= MaxCellValue
      ensures b'[i][j].owner.Some? <==> b'[i][j].value == MaxCellValue
    {
      MoveAt(b, r, c, p, (i, j));
    }
  }

  /** A match whose board keeps the invariant, whose mover owns the cells
      they owned plus a disjoint set of new ones scored one point each, and
      whose opponent owns and scores what they did, is consistent. */
  lemma GainKeepsConsistent(g: Game, g': Game, p: Player, gained: set<Pos>)
    requires Consistent(g)
    requires WellFormed(g'.board) && OwnedIffFull(g'.board)
    requires Owned(g'.board, p) == Owned(g.board, p) + gained && Owned(g.board, p) !! gained
    requires Owned(g'.board, p.Opponent()) == Owned(g.board, p.Opponent())
    requires g'.Score(p) == g.Score(p) + |gained|
    requires g'.Score(p.Opponent()) == g.Score(p.Opponent())
    requires g'.over <==> AllFull(g'.board)
    ensures Consistent(g')
  {
    assert |Owned(g'.board, p)| == |Owned(g.board, p)| + |gained|;
    if p == PlayerOne {
      assert g'.score1 == |Owned(g'.board, PlayerOne)|;
    } else {
      assert g'.score2 == |Owned(g'.board, PlayerTwo)|;
    }
  }

  /** A move on a consistent match, scored by the cells it claims and with
      the end flag recomputed, leaves a consistent match. */
  lemma MoveKeepsConsistent(g: Game, g': Game, r: int, c: int, p: Player)
    requires Consistent(g) && InBounds(|g.board|, r, c)
    requires g'.board == Move(g.board, r, c, p).0
    requires g'.Score(p) == g.Score(p) + |NewlyClaimed(g.board, r, c)|
    requires g'.Score(p.Opponent()) == g.Score(p.Opponent())
    requires g'.over <==> AllFull(g'.board)
    ensures Consistent(g')
  {
    MoveKeepsOwnerIffFull(g.board, r, c, p);
    MoveOwned(g.board, r, c, p);
    GainKeepsConsistent(g, g', p, NewlyClaimed(g.board, r, c));
  }

  /** applyMove keeps the invariant. */
  lemma ApplyConsistent(g: Game, r: int, c: int, p: Player)
    requires Consistent(g)
    requires Apply(g, r, c, p).Ok?
    ensures Consistent(Apply(g, r, c, p).value.game)
  {
    ApplyCases(g, r, c, p);
    if !g.over {
      MoveKeepsConsistent(g, Apply(g, r, c, p).value.game, r, c, p);
    }
  }

  /** A move request: the clicked position and the player making it. */
  datatype Request = Request(row: int, col: int, player: Player)

  /** A sequence of applyMove calls; a call that raises leaves the match as it was. */
  function PlayAll(g: Game, moves: seq<Request>): (g': Game)
    requires IsSquare(g.board)
    ensures |g'.board| == |g.board| && IsSquare(g'.board)
    decreases |moves|
  {
    if moves == [] then g
    else
      var m := moves[|moves| - 1];
      var prev := PlayAll(g, moves[..|moves| - 1]);
      var res := Apply(prev, m.row, m.col, m.player);
      if res.Ok? then res.value.game else prev
  }

  /** From a fresh or reset board, after any sequence of moves: a cell has an
      owner exactly when it is 4, each score counts its player's cells, and
      the match is over exactly when every cell is 4. */
  lemma {:induction false} PlayAllConsistent(n: nat, moves: seq<Request>)
    requires ValidGridSize(n)
    ensures Consistent(PlayAll(Fresh(n), moves))
    decreases |moves|
  {
    if moves == [] {
      FreshConsistent(n);
    } else {
      var m := moves[|moves| - 1];
      var prev := PlayAll(Fresh(n), moves[..|moves| - 1]);
      PlayAllConsistent(n, moves[..|moves| - 1]);
      if Apply(prev, m.row, m.col, m.player).Ok? {
        ApplyConsistent(prev, m.row, m.col, m.player);
      }
    }
  }
}
