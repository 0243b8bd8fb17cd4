/** What MoveCommand records before a move and writes back on undo
    (src/main/java/com/mycompany/javagrid4/commands/MoveCommand.java), as
    values: the captured cells in the order captureState visits them, and the
    effect of undo's write-back loop on a match. */
module Snapshots {
  import opened Common
  import opened Players
  import opened Rules

  /** The snapshot fields of a MoveCommand: row/column pairs flattened into
      one sequence, the value and owner of each captured cell, and the
      current player, game-over flag and both scores. */
  datatype Snapshot = Snapshot(
    positions: seq<int>,
    values: seq<int>,
    owners: seq<Option<Player>>,
    current: Player,
    wasOver: bool,
    score1: int,
    score2: int)

  /** The three cell arrays agree in length: two position entries per cell. */
  predicate Shaped(s: Snapshot) {
    |s.positions| == 2 * |s.values| && |s.owners| == |s.values|
  }

  /** The three lists captureState fills: positions, values and owners. */
  type Lists = (seq<int>, seq<int>, seq<Option<Player>>)

  /** captureState appends one cell: its row and column, its value, its owner. */
  function Add(acc: Lists, b: Board, x: Pos): (res: Lists)
    requires IsSquare(b) && InBounds(|b|, x.0, x.1)
    ensures |res.0| == |acc.0| + 2 && |res.1| == |acc.1| + 1 && |res.2| == |acc.2| + 1
  {
    (acc.0 + [x.0, x.1], acc.1 + [b[x.0][x.1].value], acc.2 + [b[x.0][x.1].owner])
  }

  /** An Add guarded by an if of captureState. */
  function AddIf(acc: Lists, guard: bool, b: Board, x: Pos): (res: Lists)
    requires IsSquare(b) && (guard ==> InBounds(|b|, x.0, x.1))
    ensures guard ==> res == Add(acc, b, x)
    ensures !guard ==> res == acc
  {
    if guard then Add(acc, b, x) else acc
  }

  /** The lists captureState builds for the listed cells, one cell appended
      after the other. */
  function CaptureCells(b: Board, cells: seq<Pos>): (res: Lists)
    requires IsSquare(b) && AllInBounds(|b|, cells)
    ensures |res.0| == 2 * |cells| && |res.1| == |cells| && |res.2| == |cells|
    decreases |cells|
  {
    if cells == [] then ([], [], [])
    else
      var prev := CaptureCells(b, cells[..|cells| - 1]);
      var x := cells[|cells| - 1];
      (prev.0 + [x.0, x.1], prev.1 + [b[x.0][x.1].value], prev.2 + [b[x.0][x.1].owner])
  }

  /** Entry k of the lists describes the k-th listed cell: its row and column
      at 2k and 2k+1, its value and its owner at k. */
  lemma {:induction false} CaptureCellsAt(b: Board, cells: seq<Pos>)
    requires IsSquare(b) && AllInBounds(|b|, cells)
    ensures var res := CaptureCells(b, cells);
      forall k :: 0 <= k < |cells| ==>
        && res.0[2 * k] == cells[k].0 && res.0[2 * k + 1] == cells[k].1
        && res.1[k] == b[cells[k].0][cells[k].1].value
        && res.2[k] == b[cells[k].0][cells[k].1].owner
    decreases |cells|
  {
    if cells != [] {
      var init := cells[..|cells| - 1];
      assert AllInBounds(|b|, init) by {
        forall x | x in init ensures InBounds(|b|, x.0, x.1) {
          assert x in cells;
        }
      }
      CaptureCellsAt(b, init);
    }
  }

  /** One more cell appended by captureState. */
  lemma CaptureCellsSnoc(b: Board, cells: seq<Pos>, x: Pos)
    requires IsSquare(b) && AllInBounds(|b|, cells) && InBounds(|b|, x.0, x.1)
    ensures AllInBounds(|b|, cells + [x])
    ensures CaptureCells(b, cells + [x]) == Add(CaptureCells(b, cells), b, x)
  {
    assert (cells + [x])[..|cells|] == cells;
  }

  /** captureState on a match: the cells applyMove will touch, in its order,
      then the current player, the game-over flag and both scores. */
  function Capture(g: Game, r: int, c: int): (s: Snapshot)
    requires IsSquare(g.board) && InBounds(|g.board|, r, c)
    ensures Shaped(s)
  {
    var cells := CaptureCells(g.board, Affected(|g.board|, r, c));
    Snapshot(cells.0, cells.1, cells.2, g.current, g.over, g.score1, g.score2)
  }

  /** The straight-line code of captureState: the clicked cell, then each
      neighbour its guard lets through, in the order up, down, left, right. */
  function CaptureChain(b: Board, r: int, c: int): (res: Lists)
    requires IsSquare(b) && InBounds(|b|, r, c)
    ensures 2 <= |res.0| <= 10 && |res.0| == 2 * |res.1| && |res.2| == |res.1|
  {
    var n := |b|;
    AddIf(AddIf(AddIf(AddIf(Add(([], [], []), b, (r, c)),
      r > 0, b, (r - 1, c)), r < n - 1, b, (r + 1, c)), c > 0, b, (r, c - 1)), c < n - 1, b, (r, c + 1))
  }

  /** captureState's straight-line code records exactly Capture. */
  lemma CaptureSteps(g: Game, r: int, c: int)
    requires IsSquare(g.board) && InBounds(|g.board|, r, c)
    ensures var lists := CaptureChain(g.board, r, c);
      Capture(g, r, c) == Snapshot(lists.0, lists.1, lists.2, g.current, g.over, g.score1, g.score2)
  {
    var b, n := g.board, |g.board|;
    var d1 := [(r, c)];
    var d2 := d1 + (if r > 0 then [(r - 1, c)] else []);
    var d3 := d2 + (if r < n - 1 then [(r + 1, c)] else []);
    var d4 := d3 + (if c > 0 then [(r, c - 1)] else []);
    var d5 := d4 + (if c < n - 1 then [(r, c + 1)] else []);
    assert d3 == ColumnCells(n, r, c);
    assert d5 == d3 + RowCells(n, r, c);
    CaptureCellsSnoc(b, [], (r, c));
    assert [] + [(r, c)] == d1;
    if r > 0 {
      CaptureCellsSnoc(b, d1, (r - 1, c));
      assert d2 == d1 + [(r - 1, c)];
    } else {
      assert d2 == d1;
    }
    if r < n - 1 {
      CaptureCellsSnoc(b, d2, (r + 1, c));
      assert d3 == d2 + [(r + 1, c)];
    } else {
      assert d3 == d2;
    }
    if c > 0 {
      CaptureCellsSnoc(b, d3, (r, c - 1));
      assert d4 == d3 + [(r, c - 1)];
    } else {
      assert d4 == d3;
    }
    if c < n - 1 {
      CaptureCellsSnoc(b, d4, (r, c + 1));
      assert d5 == d4 + [(r, c + 1)];
    } else {
      assert d5 == d4;
    }
  }

  /** The snapshot holds the clicked cell first, and 3 cells for a corner
      click, 4 on an edge and 5 inside. */
  lemma CaptureShape(g: Game, r: int, c: int)
    requires ValidGridSize(|g.board|) && IsSquare(g.board) && InBounds(|g.board|, r, c)
    ensures var s := Capture(g, r, c); var n := |g.board|;
      && Shaped(s)
      && s.positions[0] == r && s.positions[1] == c
      && s.values[0] == g.board[r][c].value && s.owners[0] == g.board[r][c].owner
      && ((r == 0 || r == n - 1) && (c == 0 || c == n - 1) ==> |s.values| == 3)
      && ((0 < r < n - 1) != (0 < c < n - 1) ==> |s.values| == 4)
      && (0 < r < n - 1 && 0 < c < n - 1 ==> |s.values| == 5)
  {
    var n := |g.board|;
    var cells := Affected(n, r, c);
    AffectedAreNeighbours(n, r, c);
    AffectedCount(n, r, c);
    CaptureCellsAt(g.board, cells);
  }

  /** Every captured position is on the grid at distance at most 1 from the click. */
  lemma CaptureNear(g: Game, r: int, c: int)
    requires IsSquare(g.board) && InBounds(|g.board|, r, c)
    ensures var s := Capture(g, r, c); var n := |g.board|;
      forall k :: 0 <= k < |s.values| ==>
        InBounds(n, s.positions[2 * k], s.positions[2 * k + 1])
        && Abs(s.positions[2 * k] - r) + Abs(s.positions[2 * k + 1] - c) <= 1
  {
    var n := |g.board|;
    var cells := Affected(n, r, c);
    AffectedAreNeighbours(n, r, c);
    var s := Capture(g, r, c);
    forall k | 0 <= k < |s.values|
      ensures InBounds(n, s.positions[2 * k], s.positions[2 * k + 1])
      ensures Abs(s.positions[2 * k] - r) + Abs(s.positions[2 * k + 1] - c) <= 1
    {
      CapturedPosition(g.board, cells, k);
      assert cells[k] in cells;
    }
  }

  /** Entry k of the captured positions is the k-th listed cell. */
  lemma CapturedPosition(b: Board, cells: seq<Pos>, k: nat)
    requires IsSquare(b) && AllInBounds(|b|, cells) && k < |cells|
    ensures CaptureCells(b, cells).0[2 * k] == cells[k].0 && CaptureCells(b, cells).0[2 * k + 1] == cells[k].1
  {
    CaptureCellsAt(b, cells);
  }

  /** undo's write-back loop after its first k iterations: the board, and the
      error setCellValue raised if an iteration failed (the loop stops there).
      Each iteration checks the position, then the value, and then overwrites
      both the value and the owner of that cell. */
  function WriteBack(b: Board, s: Snapshot, k: nat): (res: (Board, Option<Error>))
    requires IsSquare(b) && Shaped(s) && k <= |s.values|
    ensures |res.0| == |b| && IsSquare(res.0)
    decreases k
  {
    if k == 0 then (b, None)
    else
      var prev := WriteBack(b, s, k - 1);
      var r, c, v := s.positions[2 * (k - 1)], s.positions[2 * (k - 1) + 1], s.values[k - 1];
      if prev.1.Some? then prev
      else if !InBounds(|b|, r, c) then (prev.0, Some(OutOfBounds(r, c)))
      else if v < 0 || v > MaxCellValue then (prev.0, Some(InvalidCellValue(v)))
      else (SetCell(prev.0, (r, c), Cell(v, s.owners[k - 1])), None)
  }

  lemma PrefixSnoc<T>(s: seq<T>, k: nat)
    requires 0 < k <= |s|
    ensures s[..k] == s[..k - 1] + [s[k - 1]]
  {
  }

  /** One successful iteration of the write-back loop. */
  lemma WriteBackStep(b: Board, s: Snapshot, k: nat)
    requires IsSquare(b) && Shaped(s) && 0 < k <= |s.values|
    requires WriteBack(b, s, k - 1).1 == None
    requires InBounds(|b|, s.positions[2 * (k - 1)], s.positions[2 * (k - 1) + 1])
    requires 0 <= s.values[k - 1] <= MaxCellValue
    ensures WriteBack(b, s, k) ==
      (SetCell(WriteBack(b, s, k - 1).0, (s.positions[2 * (k - 1)], s.positions[2 * (k - 1) + 1]),
        Cell(s.values[k - 1], s.owners[k - 1])), None)
  {
  }

  /** An iteration of the write-back loop that fails: setCellValue raises for
      an off-grid position first, then for a value outside 0..4. */
  lemma WriteBackFails(b: Board, s: Snapshot, k: nat)
    requires IsSquare(b) && Shaped(s) && 0 < k <= |s.values|
    requires WriteBack(b, s, k - 1).1 == None
    requires var r, c, v := s.positions[2 * (k - 1)], s.positions[2 * (k - 1) + 1], s.values[k - 1];
      !InBounds(|b|, r, c) || v < 0 || v > MaxCellValue
    ensures var r, c, v := s.positions[2 * (k - 1)], s.positions[2 * (k - 1) + 1], s.values[k - 1];
      WriteBack(b, s, k) ==
        (WriteBack(b, s, k - 1).0, Some(if !InBounds(|b|, r, c) then OutOfBounds(r, c) else InvalidCellValue(v)))
  {
  }

  /** Once an iteration has failed, the loop has stopped: later counts change nothing. */
  lemma {:induction false} WriteBackStops(b: Board, s: Snapshot, k: nat, m: nat)
    requires IsSquare(b) && Shaped(s) && k <= m <= |s.values|
    requires WriteBack(b, s, k).1.Some?
    ensures WriteBack(b, s, m) == WriteBack(b, s, k)
    decreases m
  {
    if m > k {
      WriteBackStops(b, s, k, m - 1);
    }
  }

  /** undo: writes every captured cell back, then both scores, the current
      player and the game-over flag. If a write fails, the cells written so far
      stay written and nothing else is restored. */
  function Restore(g: Game, s: Snapshot): (res: (Game, Option<Error>))
    requires IsSquare(g.board) && Shaped(s)
    ensures |res.0.board| == |g.board| && IsSquare(res.0.board)
    ensures res.1.None? ==>
      res.0 == Game(res.0.board, s.score1, s.score2, s.current, s.wasOver)
    ensures res.1.Some? ==> res.0 == g.(board := res.0.board)
  {
    var w := WriteBack(g.board, s, |s.values|);
    if w.1.Some? then (g.(board := w.0), w.1)
    else (Game(w.0, s.score1, s.score2, s.current, s.wasOver), None)
  }

  /** Entry m of a snapshot of the listed cells of a well-formed board names
      the m-th cell and holds its contents, with a value in 0..4. */
  lemma CapturedEntry(b0: Board, cells: seq<Pos>, s: Snapshot, m: nat)
    requires WellFormed(b0) && AllInBounds(|b0|, cells)
    requires Shaped(s) && (s.positions, s.values, s.owners) == CaptureCells(b0, cells)
    requires m < |cells|
    ensures s.positions[2 * m] == cells[m].0 && s.positions[2 * m + 1] == cells[m].1
    ensures InBounds(|b0|, cells[m].0, cells[m].1)
    ensures Cell(s.values[m], s.owners[m]) == b0[cells[m].0][cells[m].1]
    ensures 0 <= s.values[m] <= MaxCellValue
  {
    CaptureCellsAt(b0, cells);
    assert cells[m] in cells;
  }

  /** Writing back the first k entries of a snapshot of the listed cells of
      b0 onto any board of the same size: those cells get b0's contents back,
      all others keep theirs, and no write fails. */
  lemma {:induction false} WriteBackCaptured(b0: Board, b: Board, cells: seq<Pos>, s: Snapshot, k: nat)
    requires WellFormed(b0) && IsSquare(b) && |b| == |b0| && AllInBounds(|b0|, cells)
    requires Shaped(s) && (s.positions, s.values, s.owners) == CaptureCells(b0, cells)
    requires k <= |cells|
    ensures WriteBack(b, s, k).1 == None
    ensures forall i, j :: 0 <= i < |b| && 0 <= j < |b| ==>
      WriteBack(b, s, k).0[i][j] == if (i, j) in cells[..k] then b0[i][j] else b[i][j]
    decreases k
  {
    if k > 0 {
      WriteBackCaptured(b0, b, cells, s, k - 1);
      CapturedEntry(b0, cells, s, k - 1);
      WriteBackStep(b, s, k);
      var prev := WriteBack(b, s, k - 1).0;
      var x := cells[k - 1];
      var w := WriteBack(b, s, k).0;
      assert w == SetCell(prev, x, b0[x.0][x.1]);
      PrefixSnoc(cells, k);
      forall i, j | 0 <= i < |b| && 0 <= j < |b|
        ensures w[i][j] == if (i, j) in cells[..k] then b0[i][j] else b[i][j]
      {
        if (i, j) != x {
          assert w[i][j] == prev[i][j];
        }
      }
    }
  }

  /** applyMove leaves every cell outside the captured neighbourhood alone. */
  lemma ApplyFrame(g: Game, r: int, c: int, p: Player, x: Pos)
    requires IsSquare(g.board) && InBounds(|g.board|, r, c) && InBounds(|g.board|, x.0, x.1)
    requires x !in Affected(|g.board|, r, c)
    ensures Apply(g, r, c, p).Ok? && Apply(g, r, c, p).value.game.board[x.0][x.1] == g.board[x.0][x.1]
  {
    ApplyCases(g, r, c, p);
    if !g.over {
      MoveAt(g.board, r, c, p, x);
    }
  }

  /** Writing a snapshot of the listed cells of b0 back onto a board that
      differs from b0 only at those cells gives b0 back. */
  lemma WriteBackRestores(b0: Board, b: Board, cells: seq<Pos>, s: Snapshot)
    requires WellFormed(b0) && IsSquare(b) && |b| == |b0| && AllInBounds(|b0|, cells)
    requires Shaped(s) && (s.positions, s.values, s.owners) == CaptureCells(b0, cells)
    requires forall i, j :: 0 <= i < |b| && 0 <= j < |b| && (i, j) !in cells ==> b[i][j] == b0[i][j]
    ensures WriteBack(b, s, |s.values|) == (b0, None)
  {
    WriteBackCaptured(b0, b, cells, s, |cells|);
    assert cells[..|cells|] == cells;
    SameBoard(WriteBack(b, s, |cells|).0, b0);
  }

  /** execute followed by undo: writing back the snapshot taken before
      applyMove gives back exactly the match applyMove started from. */
  lemma RestoreUndoesApply(g: Game, r: int, c: int, p: Player)
    requires WellFormed(g.board) && InBounds(|g.board|, r, c)
    ensures Apply(g, r, c, p).Ok?
    ensures Restore(Apply(g, r, c, p).value.game, Capture(g, r, c)) == (g, None)
  {
    var n := |g.board|;
    var cells := Affected(n, r, c);
    ApplyCases(g, r, c, p);
    var b' := Apply(g, r, c, p).value.game.board;
    forall i, j | 0 <= i < n && 0 <= j < n && (i, j) !in cells
      ensures b'[i][j] == g.board[i][j]
    {
      ApplyFrame(g, r, c, p, (i, j));
    }
    WriteBackRestores(g.board, b', cells, Capture(g, r, c));
  }

  /** execute, undo, execute: the second execute captures the same snapshot
      and awards the same points, leaving the same match as the first. */
  lemma ReplayIsDeterministic(g: Game, r: int, c: int, p: Player)
    requires WellFormed(g.board) && InBounds(|g.board|, r, c)
    ensures var first := Apply(g, r, c, p);
      var undone := Restore(first.value.game, Capture(g, r, c)).0;
      && Capture(undone, r, c) == Capture(g, r, c)
      && Apply(undone, r, c, p) == first
  {
    RestoreUndoesApply(g, r, c, p);
  }
}
