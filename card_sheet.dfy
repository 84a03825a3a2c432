/** The cards screen's bottom sheet (app/card.tsx): the pan responder that drags
    the transaction panel between expanded (offset 0) and collapsed (offset
    `MaxHeight - MinHeight`). Gesture deltas are whole points. */
module CardSheet {

  const MaxHeight: int := 320
  const MinHeight: int := 60
  /** Offset of the collapsed sheet: 260. */
  const CollapsedOffset: int := MaxHeight - MinHeight
  /** Distance a release must travel to change the state. */
  const Threshold: int := 100
  /** Vertical travel below which the gesture is left to the content. */
  const ClaimDistance: int := 10

  function Abs(x: int): (r: nat)
    ensures r == x || r == -x
  {
    if x < 0 then -x else x
  }

  /** `onMoveShouldSetPanResponder`: the sheet claims a gesture that is mostly vertical
      and has travelled more than ten points. */
  predicate ShouldClaim(dx: int, dy: int)
    ensures Abs(dy) <= ClaimDistance ==> !ShouldClaim(dx, dy)
    ensures Abs(dx) >= Abs(dy) ==> !ShouldClaim(dx, dy)
    ensures Abs(dy) > ClaimDistance && Abs(dy) > Abs(dx) ==> ShouldClaim(dx, dy)
  {
    Abs(dy) > Abs(dx) && Abs(dy) > ClaimDistance
  }

  /** `shouldCollapse` in the release handler: a drag down by more than the threshold
      collapses, a drag up by at least the threshold expands, and anything shorter
      keeps the current state. */
  predicate ShouldCollapse(collapsed: bool, dy: int)
    ensures dy > Threshold ==> ShouldCollapse(collapsed, dy)
    ensures dy <= -Threshold ==> !ShouldCollapse(collapsed, dy)
    ensures -Threshold < dy <= Threshold ==> (ShouldCollapse(collapsed, dy) <==> collapsed)
  {
    if !collapsed then dy > Threshold else dy > -Threshold
  }

  /** A claimed gesture always moved more than ten points vertically, in one direction
      or the other, and further than it moved horizontally. */
  lemma ClaimedGestureIsVertical(dx: int, dy: int)
    requires ShouldClaim(dx, dy)
    ensures dy > ClaimDistance || dy < -ClaimDistance
    ensures dx < Abs(dy) && -dx < Abs(dy)
  {
  }

  /** The sheet's state: whether it is collapsed, the offset the drag last wrote, and
      the target of the spring animation the last release started. */
  class BottomSheet {
    var isCollapsed: bool
    var translateY: int
    var springTarget: int

    /** Every offset written by the handlers lies between expanded and collapsed. */
    predicate Valid()
      reads this
    {
      0 <= translateY <= CollapsedOffset && 0 <= springTarget <= CollapsedOffset
    }

    constructor ()
      ensures Valid()
      ensures !isCollapsed && translateY == 0 && springTarget == 0
    {
      isCollapsed := false;
      translateY := 0;
      springTarget := 0;
    }

    /** `onPanResponderMove`: an expanded sheet follows a downward drag up to the collapsed
        offset; a collapsed sheet follows an upward drag down to offset 0; any other move
        changes nothing. */
    method Move(dy: int)
      requires Valid()
      modifies this`translateY
      ensures Valid()
      ensures !isCollapsed && dy > 0 ==> translateY == (if dy < CollapsedOffset then dy else CollapsedOffset)
      ensures isCollapsed && dy < 0 ==> translateY == (if CollapsedOffset + dy > 0 then CollapsedOffset + dy else 0)
      ensures (!isCollapsed && dy <= 0) || (isCollapsed && dy >= 0) ==> translateY == old(translateY)
    {
      if !isCollapsed && dy > 0 {
        translateY := if dy < CollapsedOffset then dy else CollapsedOffset;
      } else if isCollapsed && dy < 0 {
        translateY := if CollapsedOffset + dy > 0 then CollapsedOffset + dy else 0;
      }
    }

    /** `onPanResponderRelease`: an expanded sheet collapses exactly when dragged down more
        than the threshold; a collapsed sheet expands exactly when dragged up by the
        threshold or more; otherwise the state stays. The spring always heads to the
        offset of the resulting state. */
    method Release(dy: int)
      requires Valid()
      modifies this`isCollapsed, this`springTarget
      ensures Valid()
      ensures !old(isCollapsed) ==> (isCollapsed <==> dy > Threshold)
      ensures old(isCollapsed) ==> (!isCollapsed <==> dy <= -Threshold)
      ensures isCollapsed == ShouldCollapse(old(isCollapsed), dy)
      ensures springTarget == (if isCollapsed then CollapsedOffset else 0)
    {
      var shouldCollapse := if !isCollapsed then dy > Threshold else dy > -Threshold;
      if shouldCollapse && !isCollapsed {
        isCollapsed := true;
        springTarget := CollapsedOffset;
      } else if !shouldCollapse && isCollapsed {
        isCollapsed := false;
        springTarget := 0;
      } else {
        springTarget := if isCollapsed then CollapsedOffset else 0;
      }
    }
  }

  /** Releasing where the drag started never changes the state. */
  lemma ReleaseInPlaceKeepsState(collapsed: bool)
    ensures ShouldCollapse(collapsed, 0) == collapsed
  {
  }

  /** A collapsing drag released and then an expanding drag released bring the sheet
      back to where it was. */
  lemma CollapseThenExpand(dyDown: int, dyUp: int)
    requires dyDown > Threshold && dyUp <= -Threshold
    ensures ShouldCollapse(false, dyDown)
    ensures !ShouldCollapse(ShouldCollapse(false, dyDown), dyUp)
  {
  }
}
