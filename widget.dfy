/** The swipe layout as an object: the front child's position, the status,
    the animation flag and the pending translation are fields the callbacks
    update in place. Each method is specified by the function of the same
    step in module SwipeRules. */
module Widget {
  import opened Enums
  import opened SwipeRules

  class SwipeLayout {
    const config: Config
    /** Horizontal position of the front child (child 1). */
    var x: int
    var status: Status
    var isAnimationFinished: bool
    /** The translation the front child's animator is running, if any. */
    var pending: Option<Translation>
    /** How many times the drag helper has been told to cancel. */
    var dragCancels: nat

    function State(): Panel
      reads this
    {
      Panel(x, status, isAnimationFinished, pending)
    }

    predicate Valid()
      reads this
    {
      SwipeRules.Valid(State())
    }

    /** A layout as the constructors leave it: closed and idle, with the
        front child wherever the layout pass put it. */
    constructor (config: Config, x0: int)
      ensures this.config == config
      ensures State() == Panel(x0, CLOSED, true, None) && dragCancels == 0
      ensures Valid()
    {
      this.config := config;
      x := x0;
      status := CLOSED;
      isAnimationFinished := true;
      pending := None;
      dragCancels := 0;
    }

    /** The drag callback's horizontal clamp: writes the clamped position
        into the front child and reports 0 as the proposed left. */
    method ClampViewPositionHorizontal(left: int, dx: int) returns (r: int)
      modifies this`x
      ensures r == 0
      ensures x == ClampedX(config, old(x), dx)
    {
      match config.direction
      case LEFT =>
        var leftBound := -(config.backWidth as int);
        var rightBound := config.paddingRight;
        var newPos := x + dx;
        if newPos < leftBound {
          x := leftBound;
        } else if newPos > rightBound {
          x := rightBound;
        } else {
          x := x + dx;
        }
        r := 0;
      case RIGHT =>
        var leftBound := config.paddingLeft;
        var rightBound := config.backWidth + 2 * config.paddingRight;
        var newPos := x + dx;
        if newPos > rightBound {
          x := rightBound;
        } else if newPos < leftBound {
          x := leftBound;
        } else {
          x := x + dx;
        }
        r := 0;
    }

    /** The drag callback's release: the velocities are passed on and ignored. */
    method OnViewReleased(xvel: real, yvel: real)
      modifies this`x, this`status
      ensures State() == Released(config, old(State()))
    {
      HandleOnViewRelease(xvel, yvel);
    }

    method HandleOnViewRelease(xvel: real, yvel: real)
      modifies this`x, this`status
      ensures State() == Released(config, old(State()))
    {
      match config.direction
      case LEFT =>
        if 2 * x < -(config.backWidth as int) {
          x := -(config.backWidth as int);
          status := OPEN;
        } else {
          x := config.paddingRight;
          status := CLOSED;
        }
      case RIGHT =>
        if 2 * x > config.backWidth {
          x := config.backWidth + 2 * config.paddingRight;
          status := OPEN;
        } else {
          x := config.paddingLeft;
          status := CLOSED;
        }
    }

    /** Starts the opening animation when closed and idle. */
    method Open()
      requires Valid()
      modifies this`status, this`isAnimationFinished, this`pending
      ensures Valid()
      ensures State() == Opened(config, old(State()))
    {
      if status == CLOSED {
        if config.direction == LEFT && isAnimationFinished {
          pending := Some(Translation(x, -(config.backWidth + config.paddingLeft)));
          status := OPEN;
          isAnimationFinished := false;
        } else if config.direction == RIGHT && isAnimationFinished {
          pending := Some(Translation(x, config.backWidth + config.paddingLeft));
          status := OPEN;
          isAnimationFinished := false;
        }
      }
    }

    /** Starts the closing animation when open and idle. */
    method Close()
      requires Valid()
      modifies this`status, this`isAnimationFinished, this`pending
      ensures Valid()
      ensures State() == Closed(config, old(State()))
    {
      if status == OPEN {
        if config.direction == LEFT && isAnimationFinished {
          pending := Some(Translation(x, config.backWidth + config.paddingLeft));
          status := CLOSED;
          isAnimationFinished := false;
        } else if config.direction == RIGHT && isAnimationFinished {
          pending := Some(Translation(x, -(config.backWidth + config.paddingLeft)));
          status := CLOSED;
          isAnimationFinished := false;
        }
      }
    }

    /** The animator's end callback: the translation has reached its end
        value and the flag goes back up. */
    method OnAnimationEnd()
      modifies this`x, this`isAnimationFinished, this`pending
      ensures Valid()
      ensures State() == AnimationEnded(old(State()))
    {
      if pending.Some? {
        x := pending.value.start + pending.value.delta;
      }
      pending := None;
      isAnimationFinished := true;
    }

    /** Intercepts every event except UP and CANCEL, on which the drag
        helper is cancelled instead. */
    method OnInterceptTouchEvent(action: Option<int>) returns (intercept: bool)
      modifies this`dragCancels
      ensures intercept == InterceptDecision(action)
      ensures dragCancels == old(dragCancels) + (if intercept then 0 else 1)
    {
      if action.Some? && (action.value == ACTION_CANCEL || action.value == ACTION_UP) {
        dragCancels := dragCancels + 1;
        return false;
      }
      return true;
    }
  }
}
