/**
 * The routine card swiper: a drag on the current card that, once released,
 * is classified as a swipe in one of four directions and moves on to the
 * next card, wrapping around after the last one.
 */
module Swiper {
  import opened Wrappers

  /**
   * A pointer coordinate as JavaScript arithmetic sees it: a number, or
   * `NaN`, which is what reading an absent property and subtracting yields.
   */
  datatype JsNum = Num(v: int) | NaN

  function Sub(a: JsNum, b: JsNum): (r: JsNum)
    ensures r.Num? <==> a.Num? && b.Num?
    ensures r.Num? ==> r.v + b.v == a.v
  {
    if a.Num? && b.Num? then Num(a.v - b.v) else NaN
  }

  function Abs(a: JsNum): (r: JsNum)
    ensures r.Num? <==> a.Num?
    ensures r.Num? ==> r.v >= 0 && (r.v == a.v || r.v == -a.v)
  {
    if a.Num? then Num(if a.v < 0 then -a.v else a.v) else NaN
  }

  /** `a > b`; every comparison with `NaN` is false. */
  predicate Gt(a: JsNum, b: JsNum) {
    a.Num? && b.Num? && a.v > b.v
  }

  /** `a < b`. */
  predicate Lt(a: JsNum, b: JsNum) {
    a.Num? && b.Num? && a.v < b.v
  }

  datatype Direction = Left | Right | Up | Down

  const Threshold: int := 100

  /**
   * The test in `handleEnd`: a drag wider than it is tall is a right or
   * left swipe when it goes past the threshold; any other drag, ties
   * included, is an up or down swipe when it goes past the threshold.
   */
  function Classify(x: JsNum, y: JsNum): Option<Direction> {
    if Gt(Abs(x), Abs(y)) then
      if Gt(x, Num(Threshold)) then Some(Right)
      else if Lt(x, Num(-Threshold)) then Some(Left)
      else None
    else
      if Lt(y, Num(-Threshold)) then Some(Up)
      else if Gt(y, Num(Threshold)) then Some(Down)
      else None
  }

  function AbsInt(n: int): nat {
    if n < 0 then -n else n
  }

  /** Each direction, stated on the two offsets rather than through the branches. */
  lemma ClassifyExactly(x: int, y: int)
    ensures Classify(Num(x), Num(y)) == Some(Right) <==> AbsInt(x) > AbsInt(y) && x > Threshold
    ensures Classify(Num(x), Num(y)) == Some(Left) <==> AbsInt(x) > AbsInt(y) && x < -Threshold
    ensures Classify(Num(x), Num(y)) == Some(Up) <==> AbsInt(x) <= AbsInt(y) && y < -Threshold
    ensures Classify(Num(x), Num(y)) == Some(Down) <==> AbsInt(x) <= AbsInt(y) && y > Threshold
    ensures Classify(Num(x), Num(y)) == None <==> (AbsInt(x) > AbsInt(y) ==> -Threshold <= x <= Threshold) && (AbsInt(x) <= AbsInt(y) ==> -Threshold <= y <= Threshold)
  {
  }

  /**
   * A drag that stays within the threshold on both axes, the two 100 px
   * borders included, never swipes; and whichever way a drag swipes, its
   * larger component lies strictly beyond the threshold.
   */
  lemma ThresholdIsStrict(x: int, y: int)
    ensures -Threshold <= x <= Threshold && -Threshold <= y <= Threshold ==> Classify(Num(x), Num(y)) == None
    ensures Classify(Num(x), Num(y)).Some? ==> AbsInt(x) > Threshold || AbsInt(y) > Threshold
    ensures Classify(Num(Threshold), Num(0)) == None && Classify(Num(0), Num(-Threshold)) == None
  {
  }

  /** Mirroring a drag mirrors its swipe. */
  lemma ClassifyMirrors(x: int, y: int)
    ensures Classify(Num(x), Num(y)) == Some(Right) <==> Classify(Num(-x), Num(y)) == Some(Left)
    ensures Classify(Num(x), Num(y)) == Some(Up) <==> Classify(Num(x), Num(-y)) == Some(Down)
  {
  }

  /**
   * An offset whose y is `NaN` never swipes, nor does one that is `NaN`
   * on both axes; a `NaN` x alone still lets a vertical drag through.
   */
  lemma NaNOffsets(a: JsNum)
    ensures Classify(a, NaN) == None && Classify(NaN, NaN) == None
    ensures Classify(NaN, Num(-150)) == Some(Up)
  {
  }

  /** The index after `handleSwipe` for `count` cards. */
  function NextIndex(i: nat, count: nat): (r: nat)
    ensures count > 0 ==> r < count
    ensures count == 0 ==> r == 0
    ensures i < count ==> r == (i + 1) % count
  {
    if i < count - 1 then i + 1 else 0
  }

  /** The index after `k` swipes. */
  function Advance(i: nat, count: nat, k: nat): nat {
    if k == 0 then i else NextIndex(Advance(i, count, k - 1), count)
  }

  lemma {:induction false} AdvanceCompose(i: nat, count: nat, a: nat, b: nat)
    ensures Advance(i, count, a + b) == Advance(Advance(i, count, a), count, b)
  {
    if b > 0 {
      AdvanceCompose(i, count, a, b - 1);
    }
  }

  /** Before the last card is passed, each swipe moves one card along. */
  lemma {:induction false} AdvanceNoWrap(i: nat, count: nat, k: nat)
    requires i + k < count
    ensures Advance(i, count, k) == i + k
  {
    if k > 0 {
      AdvanceNoWrap(i, count, k - 1);
    }
  }

  /**
   * From a valid index, swiping through every card comes back to it, and
   * no shorter run of swipes does.
   */
  lemma FullCycle(i: nat, count: nat)
    requires i < count
    ensures Advance(i, count, count) == i
    ensures forall k :: 0 < k < count ==> Advance(i, count, k) != i
  {
    var toEnd := count - 1 - i;
    AdvanceNoWrap(i, count, toEnd);
    AdvanceCompose(i, count, toEnd + 1, i);
    AdvanceNoWrap(0, count, i);
    forall k | 0 < k < count ensures Advance(i, count, k) != i {
      ShorterRunMoves(i, count, k);
    }
  }

  /** Fewer swipes than there are cards never land on the starting card. */
  lemma ShorterRunMoves(i: nat, count: nat, k: nat)
    requires i < count && 0 < k < count
    ensures Advance(i, count, k) != i
  {
    var toEnd := count - 1 - i;
    if i + k < count {
      AdvanceNoWrap(i, count, k);
    } else {
      AdvanceNoWrap(i, count, toEnd);
      AdvanceCompose(i, count, toEnd + 1, k - toEnd - 1);
      AdvanceNoWrap(0, count, k - toEnd - 1);
    }
  }

  /** `getCategoryColor`: the badge colour of each category, purple for any other. */
  function CategoryColor(category: string): (colour: string)
    ensures colour in {"#4CAF50", "#F44336", "#2196F3", "#FF9800", "#9C27B0"}
    ensures category !in {"Build a Habit", "Quit a Habit", "Add a Goal", "Create a Routine"} ==> colour == "#9C27B0"
  {
    if category == "Build a Habit" then "#4CAF50"
    else if category == "Quit a Habit" then "#F44336"
    else if category == "Add a Goal" then "#2196F3"
    else if category == "Create a Routine" then "#FF9800"
    else "#9C27B0"
  }

  /** The four named categories get four different colours, none of them the fallback. */
  lemma CategoryColorsDistinct(a: string, b: string)
    requires a in {"Build a Habit", "Quit a Habit", "Add a Goal", "Create a Routine"}
    ensures CategoryColor(a) != "#9C27B0"
    ensures a != b ==> CategoryColor(a) != CategoryColor(b)
  {
  }

  /** The colour table of the badge: green, red, blue and orange for the four categories. */
  lemma CategoryColorTable()
    ensures CategoryColor("Build a Habit") == "#4CAF50"
    ensures CategoryColor("Quit a Habit") == "#F44336"
    ensures CategoryColor("Add a Goal") == "#2196F3"
    ensures CategoryColor("Create a Routine") == "#FF9800"
  {
  }

  /** One point of a touch list. */
  datatype Touch = Touch(clientX: int, clientY: int)

  /**
   * The arguments `onTouchStart` passes to `handleStart` as written: the
   * first touch's x, but `e.touches.clientY`, a property the touch list
   * does not have.
   */
  function TouchStartAsWritten(touches: seq<Touch>): (JsNum, JsNum)
    requires touches != []
  {
    (Num(touches[0].clientX), NaN)
  }

  /** The arguments `onTouchMove` passes to `handleMove` as written: both read off the touch list itself. */
  function TouchMoveAsWritten(touches: seq<Touch>): (JsNum, JsNum) {
    (NaN, NaN)
  }

  /** The first touch's position, which is what both handlers evidently mean to pass. */
  function TouchPoint(touches: seq<Touch>): (p: (JsNum, JsNum))
    requires touches != []
    ensures p.0.Num? && p.1.Num?
  {
    (Num(touches[0].clientX), Num(touches[0].clientY))
  }

  /**
   * As written, a touch drag never swipes: whatever the touches, the
   * offset `handleMove` stores is `NaN` on both axes. A 150 px drag to the
   * right is the concrete case: it should swipe right and does not.
   */
  lemma TouchDragNeverSwipes(start: seq<Touch>, moved: seq<Touch>)
    requires start != []
    ensures var s := TouchStartAsWritten(start);
            var m := TouchMoveAsWritten(moved);
            && Sub(m.0, s.0) == NaN && Sub(m.1, s.1) == NaN
            && Classify(Sub(m.0, s.0), Sub(m.1, s.1)) == None
    ensures Classify(Sub(TouchMoveAsWritten([Touch(250, 10)]).0, TouchStartAsWritten([Touch(100, 10)]).0),
                     Sub(TouchMoveAsWritten([Touch(250, 10)]).1, TouchStartAsWritten([Touch(100, 10)]).1)) == None
  {
  }

  /** With the first touch read on both axes, a touch drag classifies exactly like a mouse drag. */
  lemma TouchDragSwipes(start: seq<Touch>, moved: seq<Touch>)
    requires start != [] && moved != []
    ensures var s := TouchPoint(start);
            var m := TouchPoint(moved);
            Classify(Sub(m.0, s.0), Sub(m.1, s.1))
              == Classify(Num(moved[0].clientX - start[0].clientX), Num(moved[0].clientY - start[0].clientY))
    ensures Classify(Sub(TouchPoint([Touch(250, 10)]).0, TouchPoint([Touch(100, 10)]).0),
                     Sub(TouchPoint([Touch(250, 10)]).1, TouchPoint([Touch(100, 10)]).1)) == Some(Right)
  {
  }

  /** The swiper's state: the card shown and the drag in progress. */
  class CardSwiper {
    var currentIndex: nat
    var isDragging: bool
    var dragStart: (JsNum, JsNum)
    var dragOffset: (JsNum, JsNum)

    constructor ()
      ensures currentIndex == 0 && !isDragging
      ensures dragStart == (Num(0), Num(0)) && dragOffset == (Num(0), Num(0))
    {
      currentIndex := 0;
      isDragging := false;
      dragStart := (Num(0), Num(0));
      dragOffset := (Num(0), Num(0));
    }

    /** `handleStart`: a drag begins at the pointer. */
    method HandleStart(x: JsNum, y: JsNum)
      modifies this
      ensures isDragging && dragStart == (x, y)
      ensures currentIndex == old(currentIndex) && dragOffset == old(dragOffset)
    {
      isDragging := true;
      dragStart := (x, y);
    }

    /** `handleMove`: while dragging, the offset is the pointer's distance from where the drag began. */
    method HandleMove(x: JsNum, y: JsNum)
      modifies this
      ensures old(isDragging) ==> dragOffset == (Sub(x, old(dragStart).0), Sub(y, old(dragStart).1))
      ensures !old(isDragging) ==> dragOffset == old(dragOffset)
      ensures isDragging == old(isDragging) && dragStart == old(dragStart) && currentIndex == old(currentIndex)
    {
      if !isDragging {
        return;
      }
      var deltaX := Sub(x, dragStart.0);
      var deltaY := Sub(y, dragStart.1);
      dragOffset := (deltaX, deltaY);
    }

    /** `handleSwipe`: on to the next of `count` cards, back to the first after the last. */
    method HandleSwipe(count: nat)
      modifies this
      ensures currentIndex == NextIndex(old(currentIndex), count)
      ensures count > 0 ==> currentIndex < count
      ensures isDragging == old(isDragging) && dragStart == old(dragStart) && dragOffset == old(dragOffset)
    {
      currentIndex := NextIndex(currentIndex, count);
    }

    /**
     * `handleEnd`: outside a drag nothing happens; otherwise the offset is
     * classified, a swipe moves on one card, and the drag is over with the
     * card back in place.
     */
    method HandleEnd(count: nat) returns (swiped: Option<Direction>)
      modifies this
      ensures !old(isDragging) ==> swiped == None && currentIndex == old(currentIndex) && dragOffset == old(dragOffset)
      ensures old(isDragging) ==> swiped == Classify(old(dragOffset).0, old(dragOffset).1)
      ensures currentIndex == if swiped.Some? then NextIndex(old(currentIndex), count) else old(currentIndex)
      ensures old(isDragging) ==> dragOffset == (Num(0), Num(0))
      ensures !isDragging && dragStart == old(dragStart)
    {
      if !isDragging {
        return None;
      }
      swiped := Classify(dragOffset.0, dragOffset.1);
      if swiped.Some? {
        HandleSwipe(count);
      }
      isDragging := false;
      dragOffset := (Num(0), Num(0));
    }

    /** `onTouchStart` as written: the first touch's x, and `NaN` for the missing `e.touches.clientY`. */
    method HandleTouchStart(touches: seq<Touch>)
      requires touches != []
      modifies this
      ensures isDragging && dragStart == TouchStartAsWritten(touches)
      ensures dragStart == (Num(touches[0].clientX), NaN)
      ensures currentIndex == old(currentIndex) && dragOffset == old(dragOffset)
    {
      var p := TouchStartAsWritten(touches);
      HandleStart(p.0, p.1);
    }

    /** `onTouchMove` as written: both coordinates are read off the touch list, so the offset is `NaN` on both axes. */
    method HandleTouchMove(touches: seq<Touch>)
      modifies this
      ensures old(isDragging) ==> dragOffset == (NaN, NaN)
      ensures !old(isDragging) ==> dragOffset == old(dragOffset)
      ensures isDragging == old(isDragging) && dragStart == old(dragStart) && currentIndex == old(currentIndex)
    {
      var p := TouchMoveAsWritten(touches);
      HandleMove(p.0, p.1);
    }

    /** `onTouchStart` as evidently intended, reading the first touch on both axes. */
    method HandleTouchStartCorrected(touches: seq<Touch>)
      requires touches != []
      modifies this
      ensures isDragging && dragStart == TouchPoint(touches)
      ensures currentIndex == old(currentIndex) && dragOffset == old(dragOffset)
    {
      var p := TouchPoint(touches);
      HandleStart(p.0, p.1);
    }

    /** `onTouchMove` as evidently intended, reading the first touch on both axes. */
    method HandleTouchMoveCorrected(touches: seq<Touch>)
      requires touches != []
      modifies this
      ensures old(isDragging) ==> dragOffset == (Sub(TouchPoint(touches).0, old(dragStart).0), Sub(TouchPoint(touches).1, old(dragStart).1))
      ensures !old(isDragging) ==> dragOffset == old(dragOffset)
      ensures isDragging == old(isDragging) && dragStart == old(dragStart) && currentIndex == old(currentIndex)
    {
      var p := TouchPoint(touches);
      HandleMove(p.0, p.1);
    }
  }

  /** A mouse drag 150 px to the right on the second of three cards swipes right and shows the third. */
  method DragRight(s: CardSwiper)
    requires s.currentIndex == 1
    modifies s
    ensures s.currentIndex == 2 && !s.isDragging && s.dragOffset == (Num(0), Num(0))
  {
    s.HandleStart(Num(300), Num(200));
    s.HandleMove(Num(450), Num(220));
    var d := s.HandleEnd(3);
    assert d == Some(Right);
  }

  /**
   * As written, a touch drag 150 px to the right on the second of three
   * cards ends without a swipe: the card stays where it was.
   */
  method TouchDragStays(s: CardSwiper)
    requires s.currentIndex == 1
    modifies s
    ensures s.currentIndex == 1 && !s.isDragging && s.dragOffset == (Num(0), Num(0))
  {
    s.HandleTouchStart([Touch(100, 10)]);
    s.HandleTouchMove([Touch(250, 10)]);
    var d := s.HandleEnd(3);
    assert d == None;
  }

  /** With the corrected handlers the same touch drag swipes right and shows the third card. */
  method TouchDragRightCorrected(s: CardSwiper)
    requires s.currentIndex == 1
    modifies s
    ensures s.currentIndex == 2 && !s.isDragging && s.dragOffset == (Num(0), Num(0))
  {
    s.HandleTouchStartCorrected([Touch(100, 10)]);
    s.HandleTouchMoveCorrected([Touch(250, 10)]);
    var d := s.HandleEnd(3);
    assert d == Some(Right);
  }
}
