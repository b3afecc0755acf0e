/** The drag-versus-click state machine of the mouse handlers and the
    scene rotation it accumulates. */
module Pointer {

  /** Radians of scene rotation per pixel of pointer travel. */
  const Gain: real := 0.005

  /** A single move of more than this many pixels on either axis is a drag. */
  const Threshold: nat := 2

  /** `isDraggingRef`, `hasDraggedRef`, `previousMouseRef` and `rotationRef`. */
  datatype Drag = Drag(isDragging: bool, hasDragged: bool, prevX: int, prevY: int, rotX: real, rotY: real)

  const Idle := Drag(false, false, 0, 0, 0.0, 0.0)

  /** The pointer events the handlers react to, with client pixel coordinates. */
  datatype Event = Down(x: int, y: int) | Move(x: int, y: int) | Up | Leave

  function Abs(n: int): nat
  {
    if n < 0 then -n else n
  }

  /** One move is large enough to count as a drag. */
  predicate Jump(dx: int, dy: int)
  {
    Abs(dx) > Threshold || Abs(dy) > Threshold
  }

  /** The state after one event. A press starts a drag and clears its
      record; a move while dragging records a drag when it jumps, makes its
      position the previous one and adds its displacement times the gain to
      the rotation; a move while not dragging does nothing; a release or a
      leave only ends the drag. Only a press clears the drag record, and
      only a move while dragging rotates the scene. */
  function Step(s: Drag, e: Event): (r: Drag)
    ensures r.isDragging <==> e.Down? || (e.Move? && s.isDragging)
    ensures e.Down? ==> r == s.(isDragging := true, hasDragged := false, prevX := e.x, prevY := e.y)
    ensures !e.Down? && s.hasDragged ==> r.hasDragged
    ensures !(e.Move? && s.isDragging) ==> r.rotX == s.rotX && r.rotY == s.rotY
    ensures e.Move? && !s.isDragging ==> r == s
    ensures e.Move? && s.isDragging ==>
              && r.prevX == e.x && r.prevY == e.y
              && (r.hasDragged <==> s.hasDragged || Jump(e.x - s.prevX, e.y - s.prevY))
              && r.rotY == s.rotY + (e.x - s.prevX) as real * Gain
              && r.rotX == s.rotX + (e.y - s.prevY) as real * Gain
    ensures e.Up? || e.Leave? ==> r == s.(isDragging := false)
  {
    match e
    case Down(x, y) => s.(isDragging := true, hasDragged := false, prevX := x, prevY := y)
    case Move(x, y) =>
      if !s.isDragging then s
      else
        var dx, dy := x - s.prevX, y - s.prevY;
        s.(hasDragged := s.hasDragged || Jump(dx, dy), prevX := x, prevY := y,
           rotX := s.rotX + dy as real * Gain, rotY := s.rotY + dx as real * Gain)
    case Up => s.(isDragging := false)
    case Leave => s.(isDragging := false)
  }

  /** `handleMouseUp` dispatches a click exactly when no drag was recorded. */
  predicate DispatchesClick(s: Drag, e: Event): (r: bool)
    ensures r ==> e.Up?
    ensures r ==> Step(s, e) == s.(isDragging := false)
  {
    e.Up? && !s.hasDragged
  }

  /** No event of `es` is a press. */
  predicate NoPress(es: seq<Event>)
  {
    forall k :: 0 <= k < |es| ==> !es[k].Down?
  }

  /** The state after a sequence of events. Without a press nothing can
      clear a recorded drag, and once not dragging nothing changes at all. */
  function Run(s: Drag, es: seq<Event>): (r: Drag)
    ensures NoPress(es) && s.hasDragged ==> r.hasDragged
    ensures NoPress(es) && !s.isDragging ==> r == s
    decreases |es|
  {
    assert NoPress(es) && es != [] ==> NoPress(es[1..]) by {
      if NoPress(es) && es != [] {
        forall k | 0 <= k < |es[1..]| ensures !es[1..][k].Down? { assert es[1..][k] == es[k + 1]; }
      }
    }
    if es == [] then s else Run(Step(s, es[0]), es[1..])
  }

  lemma {:induction false} RunAppend(s: Drag, a: seq<Event>, b: seq<Event>)
    ensures Run(s, a + b) == Run(Run(s, a), b)
    decreases |a|
  {
    if a == [] {
      assert a + b == b;
    } else {
      assert (a + b)[1..] == a[1..] + b;
      RunAppend(Step(s, a[0]), a[1..], b);
    }
  }

  /** Moves to the given pixel positions, in order. */
  function Moves(pts: seq<(int, int)>): (es: seq<Event>)
    ensures |es| == |pts|
    ensures forall k :: 0 <= k < |pts| ==> es[k] == Move(pts[k].0, pts[k].1)
  {
    if pts == [] then [] else [Move(pts[0].0, pts[0].1)] + Moves(pts[1..])
  }

  /** Some single step of the path from (x0, y0) through `pts` jumps by
      more than the threshold. */
  predicate StepJumps(x0: int, y0: int, pts: seq<(int, int)>, k: nat)
    requires k < |pts|
  {
    var (px, py) := if k == 0 then (x0, y0) else pts[k - 1];
    Jump(pts[k].0 - px, pts[k].1 - py)
  }

  /** Some step of the path from (x0, y0) through `pts` jumps. */
  predicate AnyJump(x0: int, y0: int, pts: seq<(int, int)>)
  {
    exists k :: 0 <= k < |pts| && StepJumps(x0, y0, pts, k)
  }

  /** A path jumps exactly when its first step does or the rest of it,
      taken from the first point, does. */
  lemma AnyJumpSplit(x0: int, y0: int, pts: seq<(int, int)>)
    requires |pts| > 1
    ensures AnyJump(x0, y0, pts) <==> Jump(pts[0].0 - x0, pts[0].1 - y0) || AnyJump(pts[0].0, pts[0].1, pts[1..])
  {
    var tail := pts[1..];
    forall k | 0 <= k < |tail| ensures StepJumps(pts[0].0, pts[0].1, tail, k) == StepJumps(x0, y0, pts, k + 1) {
    }
    if AnyJump(x0, y0, pts) {
      var k :| 0 <= k < |pts| && StepJumps(x0, y0, pts, k);
      if k > 0 { assert StepJumps(pts[0].0, pts[0].1, tail, k - 1); }
    }
    if AnyJump(pts[0].0, pts[0].1, tail) {
      var k :| 0 <= k < |tail| && StepJumps(pts[0].0, pts[0].1, tail, k);
      assert StepJumps(x0, y0, pts, k + 1);
    }
    if Jump(pts[0].0 - x0, pts[0].1 - y0) {
      assert StepJumps(x0, y0, pts, 0);
    }
  }

  /** While dragging, a run of moves leaves the last position as the
      previous one, adds the total displacement times the gain to the
      rotation (small steps add up), and records a drag exactly when some
      single step exceeded the threshold (small steps never do). */
  lemma {:induction false} DragAlong(s: Drag, pts: seq<(int, int)>)
    requires s.isDragging && pts != []
    ensures var r := Run(s, Moves(pts));
            var last := pts[|pts| - 1];
            && r.isDragging
            && r.prevX == last.0 && r.prevY == last.1
            && r.rotY == s.rotY + (last.0 - s.prevX) as real * Gain
            && r.rotX == s.rotX + (last.1 - s.prevY) as real * Gain
            && (r.hasDragged <==> s.hasDragged || AnyJump(s.prevX, s.prevY, pts))
    decreases |pts|
  {
    var s1 := Step(s, Move(pts[0].0, pts[0].1));
    assert Moves(pts)[1..] == Moves(pts[1..]);
    assert Run(s, Moves(pts)) == Run(s1, Moves(pts[1..]));
    if |pts| > 1 {
      var tail := pts[1..];
      var last := pts[|pts| - 1];
      DragAlong(s1, tail);
      assert tail[|tail| - 1] == last;
      AnyJumpSplit(s.prevX, s.prevY, pts);
      GainAdds(s.prevX, pts[0].0, last.0);
      GainAdds(s.prevY, pts[0].1, last.1);
    } else {
      assert Moves(pts) == [Move(pts[0].0, pts[0].1)];
      assert StepJumps(s.prevX, s.prevY, pts, 0) == Jump(pts[0].0 - s.prevX, pts[0].1 - s.prevY);
    }
  }

  /** Rotation from two consecutive moves is the rotation of their sum. */
  lemma GainAdds(a: int, b: int, c: int)
    ensures (b - a) as real * Gain + (c - b) as real * Gain == (c - a) as real * Gain
  {
  }

  /** A press, moves through `pts` with no single step above the
      threshold, and a release: the release is a click, whatever the total
      distance travelled, and the scene has still been rotated by it. */
  lemma SlowDragStillClicks(s: Drag, x: int, y: int, pts: seq<(int, int)>)
    requires pts != []
    requires !AnyJump(x, y, pts)
    ensures var before := Run(s, [Down(x, y)] + Moves(pts));
            var last := pts[|pts| - 1];
            DispatchesClick(before, Up)
            && before.rotY == s.rotY + (last.0 - x) as real * Gain
            && before.rotX == s.rotX + (last.1 - y) as real * Gain
            && !Step(before, Up).isDragging
  {
    RunAppend(s, [Down(x, y)], Moves(pts));
    DragAlong(Step(s, Down(x, y)), pts);
  }

  lemma RunPressMove(s: Drag, x: int, y: int, x2: int, y2: int)
    ensures Run(s, [Down(x, y), Move(x2, y2)]) == Step(Step(s, Down(x, y)), Move(x2, y2))
  {
    var es := [Down(x, y), Move(x2, y2)];
    var s1 := Step(s, Down(x, y));
    var s2 := Step(s1, Move(x2, y2));
    assert es[1..] == [Move(x2, y2)];
    assert [Move(x2, y2)][1..] == [];
    assert Run(s2, []) == s2;
    assert Run(s1, [Move(x2, y2)]) == Run(s2, []);
    assert Run(s, es) == Run(s1, [Move(x2, y2)]);
  }

  /** A press, a move of one pixel and a release is a click; a press, a
      move of ten pixels and a release is a drag. */
  lemma ClickOrDrag(s: Drag, x: int, y: int)
    ensures DispatchesClick(Run(s, [Down(x, y), Move(x + 1, y)]), Up)
    ensures !DispatchesClick(Run(s, [Down(x, y), Move(x + 10, y)]), Up)
  {
    RunPressMove(s, x, y, x + 1, y);
    RunPressMove(s, x, y, x + 10, y);
  }

  /** Leaving the canvas ends the drag but keeps the record of whether one
      happened, so releasing later (after pressing again or not) still
      depends on it; a move while not dragging changes nothing. */
  lemma LeaveKeepsDragRecord(s: Drag, x: int, y: int)
    ensures var r := Step(s, Leave);
            !r.isDragging && r.hasDragged == s.hasDragged && Step(r, Move(x, y)) == r
  {
  }
}
