/**
 * The bounded undo/redo history of domain/entity/UndoRedoManager.kt: two
 * stacks of states, `past` (whose last element is the state on screen) and
 * `future` (the undone states, most recently undone last).
 */
module UndoRedo {

  /** The contents of the two stacks. */
  datatype History<T> = History(past: seq<T>, future: seq<T>)

  /** The empty history of a fresh manager. */
  function Empty<T>(): History<T> { History([], []) }

  /** The most states the two stacks can hold together; a negative `max` behaves as 0. */
  function Capacity(max: int): nat { if max < 0 then 0 else max }

  /** The stacks fit the bound `max`. */
  predicate Bounded<T>(h: History<T>, max: int)
  {
    |h.past| + |h.future| <= Capacity(max)
  }

  /**
   * `push(state)`: append `state` to `past`, drop the oldest entry once there
   * are more than `max`, and forget every undone state.
   */
  function PushStep<T>(h: History<T>, state: T, max: int): (r: History<T>)
    ensures r.future == []
    ensures |h.past| + 1 <= max ==> r.past == h.past + [state]
    ensures |h.past| + 1 > max ==> r.past == (h.past + [state])[1..]
  {
    var p := h.past + [state];
    History(if |p| > max then p[1..] else p, [])
  }

  /** `canUndo()`: there is a state before the current one. */
  predicate Undoable<T>(h: History<T>) { |h.past| > 1 }

  /** `canRedo()`: some undone state is waiting. */
  predicate Redoable<T>(h: History<T>) { |h.future| > 0 }

  /**
   * `undo(current)`: without an earlier state, `current` and no change;
   * otherwise the last of `past` moves onto `future` and the new last of
   * `past` is returned.
   */
  function UndoStep<T>(h: History<T>, current: T): (r: (History<T>, T))
    ensures !Undoable(h) ==> r == (h, current)
    ensures Undoable(h) ==> r.0.past == h.past[..|h.past| - 1]
    ensures Undoable(h) ==> r.0.future == h.future + [h.past[|h.past| - 1]]
    ensures Undoable(h) ==> r.1 == r.0.past[|r.0.past| - 1]
  {
    if |h.past| <= 1 then (h, current)
    else
      var past := h.past[..|h.past| - 1];
      (History(past, h.future + [h.past[|h.past| - 1]]), past[|past| - 1])
  }

  /**
   * `redo(current)`: without an undone state, `current` and no change;
   * otherwise the last undone state moves back onto `past` and is returned.
   */
  function RedoStep<T>(h: History<T>, current: T): (r: (History<T>, T))
    ensures !Redoable(h) ==> r == (h, current)
    ensures Redoable(h) ==> r.1 == h.future[|h.future| - 1]
    ensures Redoable(h) ==> r.0 == History(h.past + [r.1], h.future[..|h.future| - 1])
  {
    if |h.future| == 0 then (h, current)
    else
      var next := h.future[|h.future| - 1];
      (History(h.past + [next], h.future[..|h.future| - 1]), next)
  }

  // ---------------------------------------------------------------------
  // Properties of the history

  /** Pushing, undoing and redoing keep the stacks within the bound. */
  lemma StaysBounded<T>(h: History<T>, max: int, s: T, c: T)
    requires Bounded(h, max)
    ensures Bounded(PushStep(h, s, max), max)
    ensures Bounded(UndoStep(h, c).0, max)
    ensures Bounded(RedoStep(h, c).0, max)
  {
  }

  /** After a push nothing can be redone: the redo stack is empty and `redo` returns its argument. */
  lemma PushForgetsFuture<T>(h: History<T>, s: T, max: int, c: T)
    ensures !Redoable(PushStep(h, s, max))
    ensures RedoStep(PushStep(h, s, max), c) == (PushStep(h, s, max), c)
  {
  }

  /** With room for at least one entry, the pushed state is the last of `past`. */
  lemma PushIsCurrent<T>(h: History<T>, s: T, max: int)
    requires max >= 1
    ensures |PushStep(h, s, max).past| >= 1
    ensures PushStep(h, s, max).past[|PushStep(h, s, max).past| - 1] == s
  {
  }

  /**
   * With room for at least two entries, undoing right after a push returns
   * the state that was current before it, and the history's `past` is the
   * old one (less its oldest entry when the push overflowed).
   */
  lemma PushThenUndo<T>(h: History<T>, s: T, max: int)
    requires max >= 2 && |h.past| >= 1 && |h.past| <= max
    ensures Undoable(PushStep(h, s, max))
    ensures UndoStep(PushStep(h, s, max), s).1 == h.past[|h.past| - 1]
    ensures UndoStep(PushStep(h, s, max), s).0.future == [s]
  {
  }

  /** Redo undoes an undo: both stacks and the returned state are restored. */
  lemma UndoThenRedo<T>(h: History<T>, c: T, c': T)
    requires Undoable(h)
    ensures Redoable(UndoStep(h, c).0)
    ensures RedoStep(UndoStep(h, c).0, c') == (h, h.past[|h.past| - 1])
  {
    var u := UndoStep(h, c).0;
    assert u.past + [h.past[|h.past| - 1]] == h.past;
    assert u.future[..|u.future| - 1] == h.future;
  }

  /** Undo undoes a redo, provided the redone state was not the only one. */
  lemma RedoThenUndo<T>(h: History<T>, c: T, c': T)
    requires Redoable(h) && |h.past| >= 1
    ensures UndoStep(RedoStep(h, c).0, c') == (h, h.past[|h.past| - 1])
  {
    var r := RedoStep(h, c).0;
    assert r.past[..|r.past| - 1] == h.past;
    assert r.future + [h.future[|h.future| - 1]] == h.future;
  }

  /** `push` on each state of `ss`, in order. */
  function PushAll<T>(h: History<T>, ss: seq<T>, max: int): History<T>
  {
    if |ss| == 0 then h else PushStep(PushAll(h, ss[..|ss| - 1], max), ss[|ss| - 1], max)
  }

  function Min(a: int, b: int): int { if a < b then a else b }

  /** A fresh history fed `ss` keeps the latest `max` of them, in order, and nothing to redo. */
  lemma {:induction false} PushAllKeepsLatest<T>(ss: seq<T>, max: int)
    requires max >= 0
    ensures PushAll(Empty(), ss, max).past == ss[|ss| - Min(|ss|, max)..]
    ensures PushAll(Empty(), ss, max).future == []
  {
    if |ss| > 0 {
      var init := ss[..|ss| - 1];
      PushAllKeepsLatest(init, max);
      assert init[|init| - Min(|init|, max)..] + [ss[|ss| - 1]] == ss[|init| - Min(|init|, max)..];
    }
  }

  /**
   * With `max` 3, six pushes keep the last three states: two undos return
   * the fifth and the fourth, and then nothing is left to undo.
   */
  lemma SixPushesAllowTwoUndos<T>(ss: seq<T>)
    requires |ss| == 6
    ensures var h := PushAll(Empty(), ss, 3);
      var u1 := UndoStep(h, ss[5]);
      var u2 := UndoStep(u1.0, u1.1);
      u1.1 == ss[4] && u2.1 == ss[3] && !Undoable(u2.0)
  {
    PushAllKeepsLatest(ss, 3);
  }

  // ---------------------------------------------------------------------
  // The manager object

  class UndoRedoManager<T> {
    const max: int
    var past: seq<T>
    var future: seq<T>

    function Contents(): History<T>
      reads this
    {
      History(past, future)
    }

    ghost predicate Valid()
      reads this
    {
      Bounded(Contents(), max)
    }

    /** `UndoRedoManager(max)`: both stacks empty. */
    constructor (max: int)
      ensures this.max == max && Contents() == Empty()
      ensures Valid()
    {
      this.max := max;
      past := [];
      future := [];
    }

    /** `push(state)`. */
    method Push(state: T)
      requires Valid()
      modifies this
      ensures Contents() == PushStep(old(Contents()), state, max)
      ensures Valid()
    {
      past := past + [state];
      if |past| > max {
        past := past[1..];
      }
      future := [];
    }

    /** `canUndo()`. */
    method CanUndo() returns (r: bool)
      ensures r <==> Undoable(Contents())
    {
      r := |past| > 1;
    }

    /** `canRedo()`. */
    method CanRedo() returns (r: bool)
      ensures r <==> Redoable(Contents())
    {
      r := |future| != 0;
    }

    /** `undo(current)`. */
    method Undo(current: T) returns (r: T)
      requires Valid()
      modifies this
      ensures (Contents(), r) == UndoStep(old(Contents()), current)
      ensures Valid()
    {
      if |past| <= 1 {
        return current;
      }
      var last := past[|past| - 1];
      past := past[..|past| - 1];
      future := future + [last];
      r := past[|past| - 1];
    }

    /** `redo(current)`. */
    method Redo(current: T) returns (r: T)
      requires Valid()
      modifies this
      ensures (Contents(), r) == RedoStep(old(Contents()), current)
      ensures Valid()
    {
      if |future| == 0 {
        return current;
      }
      var next := future[|future| - 1];
      future := future[..|future| - 1];
      past := past + [next];
      r := next;
    }
  }
}
