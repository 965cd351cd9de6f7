/**
 * The drawing view model of presentation/viewmodel/DrawingViewModel.kt: the
 * current `DrawingState` and an undo/redo history of at most 50 states.
 * Loading and saving settings is not part of this model.
 */
module ViewModel {
  import opened Shapes
  import opened UndoRedo

  /** `UndoRedoManager(max = 50)`. */
  const HistoryMax: int := 50

  /** The state on screen together with the history behind it. */
  datatype Session = Session(state: DrawingState, history: History<DrawingState>)

  /**
   * What every operation keeps: the history fits its bound and its `past`
   * ends with the state on screen.
   */
  predicate Coherent(v: Session)
  {
    Bounded(v.history, HistoryMax) && |v.history.past| >= 1
    && v.history.past[|v.history.past| - 1] == v.state
  }

  /** Construction: the initial state is pushed as the only entry. */
  function Start(initial: DrawingState): (v: Session)
    ensures v.state == initial && v.history == History([initial], [])
  {
    Session(initial, PushStep(Empty(), initial, HistoryMax))
  }

  /** `update(block)`: the state becomes `block(state)`, which is pushed. */
  function AfterUpdate(v: Session, block: DrawingState -> DrawingState): Session
  {
    var next := block(v.state);
    Session(next, PushStep(v.history, next, HistoryMax))
  }

  /** `undo()`: only when the history can undo. */
  function AfterUndo(v: Session): Session
  {
    if Undoable(v.history) then
      var r := UndoStep(v.history, v.state);
      Session(r.1, r.0)
    else v
  }

  /** `redo()`: only when the history can redo. */
  function AfterRedo(v: Session): Session
  {
    if Redoable(v.history) then
      var r := RedoStep(v.history, v.state);
      Session(r.1, r.0)
    else v
  }

  /** `clear()`: the same state without shapes, pushed. */
  function AfterClear(v: Session): Session
  {
    var cleared := v.state.(shapes := []);
    Session(cleared, PushStep(v.history, cleared, HistoryMax))
  }

  // ---------------------------------------------------------------------
  // Properties

  /** Every operation keeps the session coherent. */
  lemma OperationsKeepCoherent(v: Session, block: DrawingState -> DrawingState, initial: DrawingState)
    requires Coherent(v)
    ensures Coherent(Start(initial))
    ensures Coherent(AfterUpdate(v, block))
    ensures Coherent(AfterUndo(v))
    ensures Coherent(AfterRedo(v))
    ensures Coherent(AfterClear(v))
  {
    StaysBounded(v.history, HistoryMax, block(v.state), v.state);
    StaysBounded(v.history, HistoryMax, v.state.(shapes := []), v.state);
  }

  /** A fresh view model has nothing to undo or redo: both leave it as it is. */
  lemma FreshHasNoHistory(initial: DrawingState)
    ensures AfterUndo(Start(initial)) == Start(initial)
    ensures AfterRedo(Start(initial)) == Start(initial)
  {
  }

  /** `undo()` and `redo()` change nothing when the history does not allow them. */
  lemma GatedByHistory(v: Session)
    ensures !Undoable(v.history) ==> AfterUndo(v) == v
    ensures !Redoable(v.history) ==> AfterRedo(v) == v
  {
  }

  /** Undoing right after an update brings back the state before it. */
  lemma UpdateThenUndo(v: Session, block: DrawingState -> DrawingState)
    requires Coherent(v)
    ensures AfterUndo(AfterUpdate(v, block)).state == v.state
  {
    PushThenUndo(v.history, block(v.state), HistoryMax);
  }

  /** Clearing removes every shape, keeps every other field, and can be undone. */
  lemma ClearIsUndoable(v: Session)
    requires Coherent(v)
    ensures AfterClear(v).state.shapes == []
    ensures AfterClear(v).state == v.state.(shapes := [])
    ensures AfterUndo(AfterClear(v)).state == v.state
  {
    PushThenUndo(v.history, v.state.(shapes := []), HistoryMax);
  }

  /** After an update or a clear there is nothing to redo. */
  lemma NothingToRedoAfterChange(v: Session, block: DrawingState -> DrawingState)
    ensures AfterRedo(AfterUpdate(v, block)) == AfterUpdate(v, block)
    ensures AfterRedo(AfterClear(v)) == AfterClear(v)
  {
  }

  /** Undo followed by redo returns to the same session. */
  lemma UndoThenRedoRestores(v: Session)
    requires Coherent(v) && Undoable(v.history)
    ensures AfterRedo(AfterUndo(v)) == v
  {
    UndoThenRedo(v.history, v.state, UndoStep(v.history, v.state).1);
  }

  // ---------------------------------------------------------------------
  // The view model object

  class DrawingViewModel {
    var state: DrawingState
    const manager: UndoRedoManager<DrawingState>

    function Snapshot(): Session
      reads this, manager
    {
      Session(state, manager.Contents())
    }

    ghost predicate Valid()
      reads this, manager
    {
      manager.Valid() && manager.max == HistoryMax && Coherent(Snapshot())
    }

    /** The view model starts from `initial`, pushed onto a new history. */
    constructor (initial: DrawingState)
      ensures Snapshot() == Start(initial)
      ensures fresh(manager)
      ensures Valid()
    {
      state := initial;
      manager := new UndoRedoManager(HistoryMax);
      new;
      manager.Push(initial);
    }

    /** `update(block)`. */
    method Update(block: DrawingState -> DrawingState)
      requires Valid()
      modifies this, manager
      ensures Snapshot() == AfterUpdate(old(Snapshot()), block)
      ensures Valid()
    {
      var next := block(state);
      state := next;
      manager.Push(next);
      OperationsKeepCoherent(old(Snapshot()), block, next);
    }

    /** `undo()`. */
    method Undo()
      requires Valid()
      modifies this, manager
      ensures Snapshot() == AfterUndo(old(Snapshot()))
      ensures Valid()
    {
      var can := manager.CanUndo();
      if can {
        state := manager.Undo(state);
      }
      OperationsKeepCoherent(old(Snapshot()), s => s, state);
    }

    /** `redo()`. */
    method Redo()
      requires Valid()
      modifies this, manager
      ensures Snapshot() == AfterRedo(old(Snapshot()))
      ensures Valid()
    {
      var can := manager.CanRedo();
      if can {
        state := manager.Redo(state);
      }
      OperationsKeepCoherent(old(Snapshot()), s => s, state);
    }

    /** `clear()`. */
    method Clear()
      requires Valid()
      modifies this, manager
      ensures Snapshot() == AfterClear(old(Snapshot()))
      ensures Valid()
    {
      var cleared := state.(shapes := []);
      state := cleared;
      manager.Push(cleared);
      OperationsKeepCoherent(old(Snapshot()), s => s, cleared);
    }
  }
}
