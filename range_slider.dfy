/**
 * The double slider used by the normalisation dialog. Its two handles move
 * over 0 .. cd-1; the first handle may only sit at or left of the left limit
 * and the second at or right of the right limit, so the selected range
 * always contains the limits. The style's hit test and the pixel-to-value
 * mapping are results of the widget toolkit and arrive as inputs.
 */
module RangeSliderWidget {

  /** The signal a mouse move emits, if any. */
  datatype MoveSignal = LeftValueChanged | RightValueChanged | NoSignal

  class RangeSlider {
    var firstPosition: int
    var secondPosition: int
    const leftLimit: int
    const rightLimit: int
    var optionsMinimum: int
    var optionsMaximum: int
    var tickInterval: int
    /** Whether the last press hit the first (second) handle. */
    var firstHit: bool
    var secondHit: bool

    /** The range invariant: first <= left limit < right limit <= second, both within the options. */
    ghost predicate Valid()
      reads this
    {
      optionsMinimum <= firstPosition <= leftLimit < rightLimit <= secondPosition <= optionsMaximum
    }

    /**
     * Handles at 0 and cd-1, limits taken from a list whose first entry is
     * below its second (the source asserts it), options 0 .. cd-1, ticks
     * every cd//8. When the limits lie within 0 .. cd-1 the invariant holds.
     */
    constructor (colorDepth: int, limits: seq<int>)
      requires |limits| >= 2 && limits[0] < limits[1]
      ensures firstPosition == 0 && secondPosition == colorDepth - 1
      ensures leftLimit == limits[0] && rightLimit == limits[1]
      ensures optionsMinimum == 0 && optionsMaximum == colorDepth - 1
      ensures tickInterval == colorDepth / 8
      ensures !firstHit && !secondHit
      ensures 0 <= limits[0] && limits[1] <= colorDepth - 1 ==> Valid()
    {
      firstPosition := 0;
      secondPosition := colorDepth - 1;
      leftLimit := limits[0];
      rightLimit := limits[1];
      optionsMinimum := 0;
      optionsMaximum := colorDepth - 1;
      tickInterval := colorDepth / 8;
      firstHit := false;
      secondHit := false;
    }

    /** `mousePressEvent`: records which handles the style's hit test reported under the cursor. */
    method MousePress(hitsFirst: bool, hitsSecond: bool)
      modifies this`firstHit, this`secondHit
      ensures firstHit == hitsFirst && secondHit == hitsSecond
    {
      firstHit := hitsFirst;
      secondHit := hitsSecond;
    }

    /**
     * `mouseMoveEvent`, for the slider value `position` under the cursor
     * (the toolkit maps pixels into 0 .. max-min). A hit first handle moves
     * when the value is at or left of the left limit, and then the event
     * ends; otherwise a hit second handle moves when the value is at or
     * right of the right limit. At most one handle moves, and the invariant
     * is kept.
     */
    method MouseMove(position: int) returns (signal: MoveSignal)
      requires 0 <= position <= optionsMaximum - optionsMinimum
      modifies this`firstPosition, this`secondPosition
      ensures signal == LeftValueChanged <==> old(firstHit) && position <= leftLimit
      ensures signal == LeftValueChanged ==> firstPosition == position && secondPosition == old(secondPosition)
      ensures signal == RightValueChanged ==> secondPosition == position && firstPosition == old(firstPosition)
      ensures signal == RightValueChanged ==> secondHit && position >= rightLimit
      ensures signal == NoSignal ==> firstPosition == old(firstPosition) && secondPosition == old(secondPosition)
      ensures signal == NoSignal <==> !(firstHit && position <= leftLimit) && !(secondHit && position >= rightLimit)
      ensures firstPosition <= leftLimit || firstPosition == old(firstPosition)
      ensures secondPosition >= rightLimit || secondPosition == old(secondPosition)
      ensures old(Valid()) && optionsMinimum == 0 ==> Valid()
    {
      if firstHit {
        if position <= leftLimit {
          firstPosition := position;
          return LeftValueChanged;
        }
      }
      if secondHit {
        if position >= rightLimit {
          secondPosition := position;
          return RightValueChanged;
        }
      }
      return NoSignal;
    }

    /** `mouseReleaseEvent`: the range-changed signal fires exactly when a handle was hit on press. */
    method MouseRelease() returns (rangeChanged: bool)
      ensures rangeChanged <==> firstHit || secondHit
    {
      rangeChanged := firstHit || secondHit;
    }
  }
}
