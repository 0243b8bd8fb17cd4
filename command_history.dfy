/** Undo/redo history (src/main/java/com/mycompany/javagrid4/commands/CommandHistory.java):
    two stacks of move commands. A new command is executed, pushed on the
    undo stack and clears the redo stack; undo moves the top of the undo
    stack to the redo stack and redo moves it back. */
module History {
  import opened Common
  import opened Rules
  import opened Engine
  import opened Snapshots
  import opened Commands

  /** The two stacks as values, top of each stack last. */
  datatype Stacks<C> = Stacks(undo: seq<C>, redo: seq<C>)

  /** executeCommand after the command ran: pushed on undo, redo emptied. */
  function Pushed<C>(h: Stacks<C>, c: C): (h': Stacks<C>)
    ensures h'.redo == [] && |h'.undo| == |h.undo| + 1
    ensures h'.undo[..|h.undo|] == h.undo && h'.undo[|h.undo|] == c
  {
    Stacks(h.undo + [c], [])
  }

  /** undo: an empty undo stack changes nothing; otherwise its top moves to
      the top of the redo stack. */
  function Undone<C>(h: Stacks<C>): (h': Stacks<C>)
    ensures |h'.undo| + |h'.redo| == |h.undo| + |h.redo|
    ensures h.undo == [] ==> h' == h
    ensures h.undo != [] ==>
      && h'.undo == h.undo[..|h.undo| - 1] && |h'.redo| == |h.redo| + 1
      && h'.redo[..|h.redo|] == h.redo && h'.redo[|h.redo|] == h.undo[|h.undo| - 1]
  {
    if h.undo == [] then h
    else Stacks(h.undo[..|h.undo| - 1], h.redo + [h.undo[|h.undo| - 1]])
  }

  /** redo: the mirror image of undo. */
  function Redone<C>(h: Stacks<C>): (h': Stacks<C>)
    ensures |h'.undo| + |h'.redo| == |h.undo| + |h.redo|
    ensures h.redo == [] ==> h' == h
    ensures h.redo != [] ==>
      && h'.redo == h.redo[..|h.redo| - 1] && |h'.undo| == |h.undo| + 1
      && h'.undo[..|h.undo|] == h.undo && h'.undo[|h.undo|] == h.redo[|h.redo| - 1]
  {
    if h.redo == [] then h
    else Stacks(h.undo + [h.redo[|h.redo| - 1]], h.redo[..|h.redo| - 1])
  }

  /** A successful undo followed by redo gives back both stacks. */
  lemma RedoUndoes<C>(h: Stacks<C>)
    requires h.undo != []
    ensures Redone(Undone(h)) == h
  {
    var u := h.undo;
    assert u[..|u| - 1] + [u[|u| - 1]] == u;
  }

  /** A successful redo followed by undo gives back both stacks. */
  lemma UndoRedoes<C>(h: Stacks<C>)
    requires h.redo != []
    ensures Undone(Redone(h)) == h
  {
    var r := h.redo;
    assert r[..|r| - 1] + [r[|r| - 1]] == r;
  }

  /** After a new command there is nothing to redo. */
  lemma NothingToRedoAfterPush<C>(h: Stacks<C>, c: C)
    ensures Redone(Pushed(h, c)) == Pushed(h, c)
    ensures Undone(Pushed(h, c)) == Stacks(h.undo, [c])
  {
    assert (h.undo + [c])[..|h.undo|] == h.undo;
  }

  /** k undos in a row (each one a no-op once the undo stack is empty). */
  function UndoTimes<C>(h: Stacks<C>, k: nat): (h': Stacks<C>)
    ensures |h'.undo| + |h'.redo| == |h.undo| + |h.redo|
  {
    if k == 0 then h else Undone(UndoTimes(h, k - 1))
  }

  /** k redos in a row. */
  function RedoTimes<C>(h: Stacks<C>, k: nat): (h': Stacks<C>)
    ensures |h'.undo| + |h'.redo| == |h.undo| + |h.redo|
  {
    if k == 0 then h else Redone(RedoTimes(h, k - 1))
  }

  /** Undoing k commands moves them, in reverse order, to the redo stack. */
  lemma {:induction false} UndoTimesMoves<C>(h: Stacks<C>, k: nat)
    requires k <= |h.undo|
    ensures UndoTimes(h, k).undo == h.undo[..|h.undo| - k]
    ensures |UndoTimes(h, k).redo| == |h.redo| + k
    ensures UndoTimes(h, k).redo[..|h.redo|] == h.redo
  {
    if k > 0 {
      UndoTimesMoves(h, k - 1);
      var prev := UndoTimes(h, k - 1);
      assert prev.undo != [];
      assert prev.undo[..|prev.undo| - 1] == h.undo[..|h.undo| - k];
    }
  }

  /** Undoing k commands and redoing k gives back both stacks. */
  lemma {:induction false} RedoTimesUndoes<C>(h: Stacks<C>, k: nat)
    requires k <= |h.undo|
    ensures RedoTimes(UndoTimes(h, k), k) == h
    decreases k
  {
    if k > 0 {
      var once := Undone(h);
      RedoUndoes(h);
      UndoTimesShift(h, k - 1);
      RedoTimesUndoes(once, k - 1);
    }
  }

  /** k + 1 undos are one undo followed by k more. */
  lemma {:induction false} UndoTimesShift<C>(h: Stacks<C>, k: nat)
    ensures UndoTimes(h, k + 1) == UndoTimes(Undone(h), k)
  {
    if k > 0 {
      UndoTimesShift(h, k - 1);
    }
  }

  /** A command whose captureState has completed. */
  ghost predicate Ready(c: MoveCommand)
    reads c
  {
    c.Valid() && c.captured
  }

  /** Undoing c now would write back exactly the match g, without error. */
  ghost predicate UndoesTo(c: MoveCommand, g: Game)
    reads c, c.gameEngine, c.gameEngine.gameState
  {
    && Ready(c) && IsSquare(c.gameEngine.View().board)
    && Restore(c.gameEngine.View(), c.Snap()) == (g, None)
  }

  /** What a run of c's execute left behind, relative to the engine's match
      before it (ok: whether execute completed): the command and the engine
      stay well formed with the same grid; a completed run is exactly
      applyMove on that match, its snapshot is that match's capture, and
      undoing it gives that match back; a run that raised changed no match. */
  twostate predicate Ran(c: MoveCommand, ok: bool)
    reads c, c.gameEngine, c.gameEngine.cellValues, c.gameEngine.cellOwners, c.gameEngine.gameState
  {
    && old(c.gameEngine.Valid()) && c.Valid() && c.gameEngine.Valid() && c.gameEngine.Kept()
    && (ok <==> InBounds(c.gameEngine.gridSize, c.row, c.col))
    && (ok ==> c.captured && c.Snap() == Capture(old(c.gameEngine.View()), c.row, c.col))
    && (ok ==> UndoesTo(c, old(c.gameEngine.View())))
    && (ok ==>
      Apply(old(c.gameEngine.View()), c.row, c.col, c.player) ==
        Ok(MoveResult(c.gameEngine.View(), c.pointsAwarded)))
    && (!ok ==> c.gameEngine.View() == old(c.gameEngine.View()))
  }

  /** execute as the history sees it: a command that already had a snapshot
      keeps one, and the run is described by Ran. */
  method Run(command: MoveCommand) returns (r: Result<()>)
    requires command.Valid() && command.gameEngine.Valid()
    modifies command, command.gameEngine, command.gameEngine.cellValues,
      command.gameEngine.cellOwners, command.gameEngine.gameState
    ensures command.captured == (old(command.captured) || r.Ok?)
    ensures Ran(command, r.Ok?)
  {
    ghost var g := command.gameEngine.View();
    r := command.Execute();
    if r.Ok? {
      RestoreUndoesApply(g, command.row, command.col, command.player);
    }
  }

  class CommandHistory {
    var undoStack: seq<MoveCommand>
    var redoStack: seq<MoveCommand>

    /** Every command on either stack has run captureState, so its undo can
        write the snapshot back. */
    ghost predicate Valid()
      reads this, undoStack, redoStack
    {
      && (forall i :: 0 <= i < |undoStack| ==> Ready(undoStack[i]))
      && (forall i :: 0 <= i < |redoStack| ==> Ready(redoStack[i]))
    }

    /** The two stacks as a value. */
    function AsStacks(): Stacks<MoveCommand>
      reads this
    {
      Stacks(undoStack, redoStack)
    }

    /** A new history: both stacks empty. */
    constructor ()
      ensures undoStack == [] && redoStack == [] && Valid()
    {
      undoStack := [];
      redoStack := [];
    }

    /** executeCommand: the command runs first; only when it completes is it
        pushed, and then the redo stack is emptied. If it raises, the stacks
        are left as they were. */
    method ExecuteCommand(command: MoveCommand) returns (r: Result<()>)
      requires Valid() && command.Valid() && command.gameEngine.Valid()
      modifies this, command, command.gameEngine, command.gameEngine.cellValues,
        command.gameEngine.cellOwners, command.gameEngine.gameState
      ensures Valid() && Ran(command, r.Ok?)
      ensures r.Ok? ==> AsStacks() == Pushed(old(AsStacks()), command)
      ensures r.Err? ==> AsStacks() == old(AsStacks())
    {
      r := Run(command);
      if r.Err? {
        return;
      }
      undoStack := undoStack + [command];
      redoStack := [];
    }

    /** undo: false when there is nothing to undo. Otherwise the top command
        is popped and undone and then pushed on the redo stack. If its undo
        raises, it stays popped and is not pushed. */
    method Undo() returns (r: Result<bool>)
      requires Valid()
      requires undoStack != [] ==> undoStack[|undoStack| - 1].gameEngine.Valid()
      modifies this
      modifies if undoStack == [] then {} else
        var g := undoStack[|undoStack| - 1].gameEngine; {g, g.cellValues, g.cellOwners, g.gameState}
      ensures Valid()
      ensures old(undoStack) == [] ==> r == Ok(false) && AsStacks() == old(AsStacks())
      ensures old(undoStack) != [] ==> r != Ok(false)
      ensures r.Ok? ==> AsStacks() == Undone(old(AsStacks()))
      ensures r.Err? ==> undoStack == old(undoStack[..|undoStack| - 1]) && redoStack == old(redoStack)
      ensures old(undoStack) != [] ==>
        var c := old(undoStack[|undoStack| - 1]);
        c.gameEngine.Valid() && c.gameEngine.Kept() &&
        Restore(old(c.gameEngine.View()), c.Snap()) ==
          (c.gameEngine.View(), if r.Ok? then None else Some(r.error))
    {
      if undoStack == [] {
        return Ok(false);
      }
      var command := undoStack[|undoStack| - 1];
      undoStack := undoStack[..|undoStack| - 1];
      var undone := command.Undo();
      if undone.Err? {
        return Err(undone.error);
      }
      redoStack := redoStack + [command];
      return Ok(true);
    }

    /** redo: false when there is nothing to redo. Otherwise the top command
        is popped, executed again (taking a new snapshot) and pushed on the
        undo stack. If its execute raises, it stays popped and is not pushed. */
    method Redo() returns (r: Result<bool>)
      requires Valid()
      requires redoStack != [] ==> redoStack[|redoStack| - 1].gameEngine.Valid()
      modifies this
      modifies if redoStack == [] then {} else
        var c := redoStack[|redoStack| - 1]; var g := c.gameEngine;
        {c, g, g.cellValues, g.cellOwners, g.gameState}
      ensures Valid()
      ensures old(redoStack) == [] ==> r == Ok(false) && AsStacks() == old(AsStacks())
      ensures old(redoStack) != [] ==> r != Ok(false)
      ensures r.Ok? ==> AsStacks() == Redone(old(AsStacks()))
      ensures r.Err? ==> redoStack == old(redoStack[..|redoStack| - 1]) && undoStack == old(undoStack)
      ensures old(redoStack) != [] ==> Ran(old(redoStack[|redoStack| - 1]), r.Ok?)
    {
      if redoStack == [] {
        return Ok(false);
      }
      var command := redoStack[|redoStack| - 1];
      redoStack := redoStack[..|redoStack| - 1];
      var executed := Run(command);
      if executed.Err? {
        return Err(executed.error);
      }
      undoStack := undoStack + [command];
      return Ok(true);
    }

    /** canUndo. */
    function CanUndo(): (b: bool)
      reads this
      ensures b <==> GetUndoCount() > 0
    {
      undoStack != []
    }

    /** canRedo. */
    function CanRedo(): (b: bool)
      reads this
      ensures b <==> GetRedoCount() > 0
    {
      redoStack != []
    }

    /** clear: both stacks emptied. */
    method Clear()
      modifies this
      ensures undoStack == [] && redoStack == [] && Valid()
    {
      undoStack := [];
      redoStack := [];
    }

    /** getUndoCount. */
    function GetUndoCount(): (n: nat)
      reads this
      ensures n == |AsStacks().undo|
    {
      |undoStack|
    }

    /** getRedoCount. */
    function GetRedoCount(): (n: nat)
      reads this
      ensures n == |AsStacks().redo|
    {
      |redoStack|
    }
  }

  /** executeCommand, stated only as far as a following undo needs it. */
  method ExecuteForUndo(h: CommandHistory, command: MoveCommand) returns (r: Result<()>)
    requires h.Valid() && command.Valid() && command.gameEngine.Valid()
    modifies h, command, command.gameEngine, command.gameEngine.cellValues,
      command.gameEngine.cellOwners, command.gameEngine.gameState
    ensures h.Valid() && command.gameEngine.Valid() && command.gameEngine.Kept()
    ensures r.Ok? <==> InBounds(command.gameEngine.gridSize, command.row, command.col)
    ensures r.Ok? ==> UndoesTo(command, old(command.gameEngine.View()))
    ensures r.Ok? ==> h.AsStacks() == Pushed(old(h.AsStacks()), command)
    ensures r.Err? ==> h.AsStacks() == old(h.AsStacks())
    ensures r.Err? ==> command.gameEngine.View() == old(command.gameEngine.View())
  {
    r := h.ExecuteCommand(command);
  }

  /** redo, stated only as far as a following undo needs it. */
  method RedoForUndo(h: CommandHistory) returns (r: Result<bool>)
    requires h.Valid() && h.redoStack != [] && h.redoStack[|h.redoStack| - 1].gameEngine.Valid()
    modifies h, h.redoStack[|h.redoStack| - 1], h.redoStack[|h.redoStack| - 1].gameEngine,
      h.redoStack[|h.redoStack| - 1].gameEngine.cellValues,
      h.redoStack[|h.redoStack| - 1].gameEngine.cellOwners,
      h.redoStack[|h.redoStack| - 1].gameEngine.gameState
    ensures h.Valid() && r != Ok(false)
    ensures var c := old(h.redoStack[|h.redoStack| - 1]);
      && c.gameEngine.Valid() && c.gameEngine.Kept()
      && (r.Ok? <==> InBounds(c.gameEngine.gridSize, c.row, c.col))
      && (r.Ok? ==> UndoesTo(c, old(c.gameEngine.View())))
      && (r.Err? ==> c.gameEngine.View() == old(c.gameEngine.View()))
    ensures r.Ok? ==> h.AsStacks() == Redone(old(h.AsStacks()))
  {
    r := h.Redo();
  }

  /** executeCommand followed by undo gives the engine back exactly the match
      it had, and leaves the popped command alone on the redo stack. Off the
      grid, executeCommand raises and neither the engine nor the stacks change. */
  method ExecuteCommandThenUndo(h: CommandHistory, command: MoveCommand) returns (r: Result<bool>)
    requires h.Valid() && command.Valid() && command.gameEngine.Valid()
    modifies h, command, command.gameEngine, command.gameEngine.cellValues,
      command.gameEngine.cellOwners, command.gameEngine.gameState
    ensures command.gameEngine.Valid()
    ensures command.gameEngine.View() == old(command.gameEngine.View())
    ensures r.Ok? <==> InBounds(command.gameEngine.gridSize, command.row, command.col)
    ensures r.Ok? ==> r.value && h.AsStacks() == Stacks(old(h.undoStack), [command])
    ensures r.Err? ==> h.AsStacks() == old(h.AsStacks())
  {
    ghost var g := command.gameEngine.View();
    ghost var before := h.AsStacks();
    var executed := ExecuteForUndo(h, command);
    if executed.Err? {
      return Err(executed.error);
    }
    assert UndoesTo(command, g);
    NothingToRedoAfterPush(before, command);
    assert h.AsStacks() == Pushed(before, command);
    assert h.undoStack[|h.undoStack| - 1] == command;
    r := h.Undo();
  }

  /** redo followed by undo gives the engine back exactly the match it had and
      both stacks back as they were; a redo that raises changes no match. */
  method RedoThenUndo(h: CommandHistory) returns (r: Result<bool>)
    requires h.Valid() && h.redoStack != [] && h.redoStack[|h.redoStack| - 1].gameEngine.Valid()
    modifies h, h.redoStack[|h.redoStack| - 1], h.redoStack[|h.redoStack| - 1].gameEngine,
      h.redoStack[|h.redoStack| - 1].gameEngine.cellValues,
      h.redoStack[|h.redoStack| - 1].gameEngine.cellOwners,
      h.redoStack[|h.redoStack| - 1].gameEngine.gameState
    ensures var c := old(h.redoStack[|h.redoStack| - 1]);
      && c.gameEngine.Valid()
      && c.gameEngine.View() == old(c.gameEngine.View())
      && (r.Ok? <==> InBounds(c.gameEngine.gridSize, c.row, c.col))
    ensures r.Ok? ==> r.value && h.AsStacks() == old(h.AsStacks())
  {
    var c := h.redoStack[|h.redoStack| - 1];
    ghost var g := c.gameEngine.View();
    ghost var before := h.AsStacks();
    var redone := RedoForUndo(h);
    if redone.Err? {
      return redone;
    }
    assert redone.value;
    assert UndoesTo(c, g);
    UndoRedoes(before);
    assert h.AsStacks() == Redone(before);
    assert h.undoStack[|h.undoStack| - 1] == c;
    r := h.Undo();
  }
}
