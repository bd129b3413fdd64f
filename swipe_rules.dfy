/** The geometry and state bookkeeping of the swipe layout, on values.
    The back child (index 0) has width `backWidth`; the front child
    (index 1) sits at horizontal position `x`. The class in module Widget
    holds these values in fields and its methods are specified by the
    functions here. */
module SwipeRules {
  import opened Enums

  /** Fixed configuration of one layout. */
  datatype Config = Config(
    direction: SwipeDirection,
    backWidth: nat,
    paddingLeft: int,
    paddingRight: int,
    paddingTop: int,
    paddingBottom: int)

  /** A relative translation queued on the front child's animator: it was
      started with the child at `start` and moves it by `delta`. */
  datatype Translation = Translation(start: int, delta: int)

  /** The mutable part of the layout. */
  datatype Panel = Panel(x: int, status: Status, isAnimationFinished: bool, pending: Option<Translation>)

  /** An animation is pending exactly while the finished flag is down. */
  predicate Valid(p: Panel) {
    p.isAnimationFinished <==> p.pending.None?
  }

  /** Motion-event action codes the intercept decision looks at. */
  const ACTION_UP := 1
  const ACTION_CANCEL := 3

  // ---------------------------------------------------------------------
  // Dragging

  /** The lower and upper bound the horizontal clamp uses. */
  function LowerBound(c: Config): int {
    match c.direction
    case LEFT => -(c.backWidth as int)
    case RIGHT => c.paddingLeft
  }

  function UpperBound(c: Config): int {
    match c.direction
    case LEFT => c.paddingRight
    case RIGHT => c.backWidth + 2 * c.paddingRight
  }

  /** The front child's position after a horizontal drag step of `dx` from `x`. */
  function ClampedX(c: Config, x: int, dx: int): (r: int)
    ensures r == x + dx || r == LowerBound(c) || r == UpperBound(c)
    ensures LowerBound(c) <= UpperBound(c) ==> LowerBound(c) <= r <= UpperBound(c)
    ensures LowerBound(c) <= x + dx <= UpperBound(c) ==> r == x + dx
    ensures x + dx < LowerBound(c) <= UpperBound(c) ==> r == LowerBound(c)
    ensures LowerBound(c) <= UpperBound(c) < x + dx ==> r == UpperBound(c)
    ensures r == x + dx ==> LowerBound(c) <= x + dx <= UpperBound(c)
    ensures (if LowerBound(c) <= UpperBound(c) then LowerBound(c) else UpperBound(c)) <= r
            <= (if LowerBound(c) <= UpperBound(c) then UpperBound(c) else LowerBound(c))
    // With the bounds out of order the branch order decides: LEFT tests the
    // lower bound first, RIGHT the upper bound.
    ensures UpperBound(c) < LowerBound(c) && c.direction == LEFT ==>
              r == (if x + dx < LowerBound(c) then LowerBound(c) else UpperBound(c))
    ensures UpperBound(c) < LowerBound(c) && c.direction == RIGHT ==>
              r == (if x + dx > UpperBound(c) then UpperBound(c) else LowerBound(c))
  {
    var newPos := x + dx;
    match c.direction
    case LEFT =>
      if newPos < -(c.backWidth as int) then -(c.backWidth as int)
      else if newPos > c.paddingRight then c.paddingRight
      else x + dx
    case RIGHT =>
      if newPos > c.backWidth + 2 * c.paddingRight then c.backWidth + 2 * c.paddingRight
      else if newPos < c.paddingLeft then c.paddingLeft
      else x + dx
  }

  /** Clamping an already clamped position again (a step of 0) leaves it
      where it is exactly when the two bounds are in order. */
  lemma ClampIdempotentIff(c: Config)
    ensures (forall x, dx :: ClampedX(c, ClampedX(c, x, dx), 0) == ClampedX(c, x, dx))
            <==> LowerBound(c) <= UpperBound(c)
  {
    if UpperBound(c) < LowerBound(c) {
      var x := if c.direction == LEFT then LowerBound(c) - 1 else UpperBound(c) + 1;
      assert ClampedX(c, ClampedX(c, x, 0), 0) != ClampedX(c, x, 0);
    }
  }

  /** The drag range is well formed for ordinary paddings: in the LEFT
      direction whenever paddingRight is not negative, and in either
      direction when the horizontal paddings are equal and not negative;
      clamping is then idempotent. */
  lemma BoundsOrderedForUsualPaddings(c: Config)
    ensures c.direction == LEFT && c.paddingRight >= 0 ==> LowerBound(c) <= UpperBound(c)
    ensures 0 <= c.paddingLeft == c.paddingRight ==> LowerBound(c) <= UpperBound(c)
    ensures (c.direction == LEFT && c.paddingRight >= 0) || 0 <= c.paddingLeft == c.paddingRight ==>
              forall x, dx :: ClampedX(c, ClampedX(c, x, dx), 0) == ClampedX(c, x, dx)
  {
    ClampIdempotentIff(c);
  }

  /** The vertical clamp: the proposed top, raised to paddingTop, then
      lowered to paddingBottom. */
  function VerticalClamp(c: Config, top: int, dy: int): (r: int)
    ensures r <= c.paddingBottom
    ensures c.paddingTop <= c.paddingBottom ==> c.paddingTop <= r
    ensures c.paddingTop <= top <= c.paddingBottom ==> r == top
    ensures c.paddingBottom < c.paddingTop ==> r == c.paddingBottom
    ensures top < c.paddingTop <= c.paddingBottom ==> r == c.paddingTop
    ensures c.paddingTop <= c.paddingBottom < top ==> r == c.paddingBottom
  {
    var raised := if top > c.paddingTop then top else c.paddingTop;
    if raised < c.paddingBottom then raised else c.paddingBottom
  }

  /** The layout's child at `index`, None outside the child list. */
  function ChildAt(children: seq<nat>, index: int): (r: Option<nat>)
    ensures r.Some? <==> 0 <= index < |children|
    ensures r.Some? ==> r.value == children[index]
  {
    if 0 <= index < |children| then Some(children[index]) else None
  }

  /** A drag is captured only on the child at index 1 (the front child). */
  function TryCaptureView(children: seq<nat>, child: nat, pointerId: int): (r: bool)
    ensures r <==> |children| >= 2 && child == children[1]
    ensures |children| >= 2 && children[0] != children[1] && child == children[0] ==> !r
  {
    ChildAt(children, 1) == Some(child)
  }

  /** Whether the layout intercepts a motion event: not on UP or CANCEL,
      and yes on every other action and on a missing event. */
  function InterceptDecision(action: Option<int>): (r: bool)
    ensures !r <==> action == Some(ACTION_UP) || action == Some(ACTION_CANCEL)
  {
    match action
    case None => true
    case Some(a) => !(a == ACTION_CANCEL || a == ACTION_UP)
  }

  // ---------------------------------------------------------------------
  // Releasing

  /** The midpoint test: past half the back width toward the swipe side. */
  predicate OpensAt(c: Config, x: int) {
    match c.direction
    case LEFT => 2 * x < -(c.backWidth as int)
    case RIGHT => 2 * x > c.backWidth
  }

  /** The positions the release snaps to. */
  function OpenPosition(c: Config): int {
    match c.direction
    case LEFT => -(c.backWidth as int)
    case RIGHT => c.backWidth + 2 * c.paddingRight
  }

  function ClosedPosition(c: Config): int {
    match c.direction
    case LEFT => c.paddingRight
    case RIGHT => c.paddingLeft
  }

  /** The state after the front child is released. */
  function Released(c: Config, p: Panel): (r: Panel)
    ensures r.status == OPEN <==> OpensAt(c, p.x)
    ensures r.x == (if r.status == OPEN then OpenPosition(c) else ClosedPosition(c))
    ensures r.x == LowerBound(c) || r.x == UpperBound(c)
    ensures r.isAnimationFinished == p.isAnimationFinished && r.pending == p.pending
    ensures Valid(p) ==> Valid(r)
  {
    match c.direction
    case LEFT =>
      if 2 * p.x < -(c.backWidth as int) then p.(x := -(c.backWidth as int), status := OPEN)
      else p.(x := c.paddingRight, status := CLOSED)
    case RIGHT =>
      if 2 * p.x > c.backWidth then p.(x := c.backWidth + 2 * c.paddingRight, status := OPEN)
      else p.(x := c.paddingLeft, status := CLOSED)
  }

  /** Whatever the position released at, exactly one of the two settled
      states is reached. */
  lemma ReleaseSettles(c: Config, p: Panel)
    ensures var r := Released(c, p);
            (r.status == OPEN && r.x == OpenPosition(c)) != (r.status == CLOSED && r.x == ClosedPosition(c))
  {
  }

  /** Releasing again at the position a release snapped to reaches the same
      state for every start exactly when each target lies on its own side
      of the midpoint. */
  lemma ReleaseStableIff(c: Config)
    ensures (forall p :: Released(c, Released(c, p)) == Released(c, p))
            <==> OpensAt(c, OpenPosition(c)) && !OpensAt(c, ClosedPosition(c))
  {
    if !OpensAt(c, OpenPosition(c)) {
      var p := Panel(if c.direction == LEFT then -(c.backWidth as int) - 1 else c.backWidth + 1, CLOSED, true, None);
      assert Released(c, p).status == OPEN;
      assert Released(c, Released(c, p)).status == CLOSED;
    } else if OpensAt(c, ClosedPosition(c)) {
      var p := Panel(0, CLOSED, true, None);
      assert Released(c, p).status == CLOSED;
      assert Released(c, Released(c, p)).status == OPEN;
    }
  }

  /** The stability condition written out: LEFT needs a positive back width
      and paddingRight >= -backWidth/2; RIGHT needs
      backWidth + 4 * paddingRight > 0 and paddingLeft <= backWidth/2. */
  lemma ReleaseStableConditions(c: Config)
    ensures c.direction == LEFT ==>
              (OpensAt(c, OpenPosition(c)) && !OpensAt(c, ClosedPosition(c))
               <==> c.backWidth > 0 && -(c.backWidth as int) <= 2 * c.paddingRight)
    ensures c.direction == RIGHT ==>
              (OpensAt(c, OpenPosition(c)) && !OpensAt(c, ClosedPosition(c))
               <==> c.backWidth + 4 * c.paddingRight > 0 && 2 * c.paddingLeft <= c.backWidth)
  {
  }

  // ---------------------------------------------------------------------
  // Programmatic open and close and the animation

  /** The relative translations open() and close() start. */
  function OpenTranslation(c: Config): int {
    match c.direction
    case LEFT => -(c.backWidth + c.paddingLeft)
    case RIGHT => c.backWidth + c.paddingLeft
  }

  function CloseTranslation(c: Config): int {
    match c.direction
    case LEFT => c.backWidth + c.paddingLeft
    case RIGHT => -(c.backWidth + c.paddingLeft)
  }

  /** open(): acts only on a closed panel with no animation in flight. */
  function Opened(c: Config, p: Panel): (r: Panel)
    ensures r != p <==> p.status == CLOSED && p.isAnimationFinished
    ensures r != p ==> r == Panel(p.x, OPEN, false, Some(Translation(p.x, OpenTranslation(c))))
    ensures Valid(p) ==> Valid(r)
  {
    if p.status == CLOSED && p.isAnimationFinished then
      p.(status := OPEN, isAnimationFinished := false, pending := Some(Translation(p.x, OpenTranslation(c))))
    else p
  }

  /** close(): acts only on an open panel with no animation in flight. */
  function Closed(c: Config, p: Panel): (r: Panel)
    ensures r != p <==> p.status == OPEN && p.isAnimationFinished
    ensures r != p ==> r == Panel(p.x, CLOSED, false, Some(Translation(p.x, CloseTranslation(c))))
    ensures Valid(p) ==> Valid(r)
  {
    if p.status == OPEN && p.isAnimationFinished then
      p.(status := CLOSED, isAnimationFinished := false, pending := Some(Translation(p.x, CloseTranslation(c))))
    else p
  }

  /** onAnimationEnd: the pending translation has run to its end and the
      flag is raised again; the status is not touched. */
  function AnimationEnded(p: Panel): (r: Panel)
    ensures r.isAnimationFinished && r.pending.None? && r.status == p.status
    ensures p.pending.Some? ==> r.x == p.pending.value.start + p.pending.value.delta
    ensures p.pending.None? ==> r.x == p.x
    ensures Valid(r)
  {
    match p.pending
    case None => p.(isAnimationFinished := true)
    case Some(t) => Panel(t.start + t.delta, p.status, true, None)
  }

  /** While an animation is in flight, open() and close() change nothing;
      in particular a second call before onAnimationEnd is ignored. */
  lemma BusyIgnoresOpenAndClose(c: Config, p: Panel)
    ensures var q := Opened(c, p); q != p ==> Opened(c, q) == q && Closed(c, q) == q
    ensures var q := Closed(c, p); q != p ==> Opened(c, q) == q && Closed(c, q) == q
  {
  }

  /** open(), its animation end, close(), its animation end: the panel is
      back where it started, closed and idle; likewise close-then-open. */
  lemma OpenCloseRoundTrip(c: Config, p: Panel)
    requires Valid(p) && p.isAnimationFinished
    ensures p.status == CLOSED ==> AnimationEnded(Closed(c, AnimationEnded(Opened(c, p)))) == p
    ensures p.status == OPEN ==> AnimationEnded(Opened(c, AnimationEnded(Closed(c, p)))) == p
  {
  }

  /** Opening programmatically from the position a release closes to ends
      on the position a release opens to exactly when the left and right
      paddings agree (open() measures with paddingLeft, the release with
      paddingRight). */
  lemma ProgrammaticOpenMatchesReleaseIff(c: Config)
    ensures AnimationEnded(Opened(c, Panel(ClosedPosition(c), CLOSED, true, None))).x == OpenPosition(c)
            <==> c.paddingLeft == c.paddingRight
  {
  }
}
