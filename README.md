# SwipeLayout: geometry and state bookkeeping

This project models `SwipeLayout`, an Android `FrameLayout` with two children. The back child
(index 0) is fixed, and its width is the *back width*. The front child (index 1) is dragged
horizontally to reveal the back child. The model covers:

- the two integer-coded enums (`SwipeDirection`, `Status`) and their `from` decoders;
- the drag callbacks: the horizontal clamp that writes the front child's `x`, the vertical
  clamp, and the capture decision;
- the release rule that snaps `x` to an open or a closed position and sets `status`;
- programmatic `open()` / `close()`, which are guarded by `status` and `isAnimationFinished`
  and queue a relative translation on the front child's animator;
- the animator's end callback;
- the intercept decision for motion events.

The model has three modules:

- `Enums` (`enums.dfy`) holds the enums, their codes and the lookup `FirstWith`. It mirrors
  Kotlin's `enumValues<T>().first { it.value == value }`, and `None` stands for the
  `NoSuchElementException` that `first` throws.
- `SwipeRules` (`swipe_rules.dfy`) holds the configuration (`Config`), the mutable state as a
  value (`Panel`: `x`, `status`, `isAnimationFinished`, the pending translation), and one
  function per step, with the lemmas about them.
- `Widget` (`widget.dfy`) holds `class SwipeLayout`. Its fields are updated in place by
  methods that follow the branches of the Kotlin code. Each method's postcondition ties the new
  state to the matching `SwipeRules` function of the old state.

Numbers are modelled as follows:

- Pixel values are unbounded integers.
- `backWidth` is a `nat`. The paddings are `int`, because Android does not forbid negative
  padding.
- The release's half-width comparisons `x < -(width / 2.0f)` and `x > width / 2.0f` are
  written exactly as `2 * x < -backWidth` and `2 * x > backWidth`.

The animator is modelled as one pending `Translation(start, delta)`. `ViewPropertyAnimator.translationXBy`
takes its start value when the animation is started and writes `start + fraction * delta` on
every frame. The model therefore puts the front child at `start + delta` when `onAnimationEnd`
runs after an animation that ran to completion. The per-frame interplay with a drag during the
animation is not modelled (see "## Left out").

The code differs from the usual description of a swipe-to-reveal panel, and the model follows the code:

- The release ignores the velocities.
- There is no touch slop or gesture classifier.
- The RIGHT open position is `backWidth + 2 * paddingRight`, not `backWidth + paddingLeft`.
- `open()` and `close()` translate by `backWidth + paddingLeft` in both directions.
- In the LEFT direction, the clamp's upper bound and the release's closed position are
  `paddingRight`.
- In the RIGHT direction, the clamp's lower bound and the release's closed position are
  `paddingLeft`. The clamp's upper bound and the release's open position are
  `backWidth + 2 * paddingRight`.

Some of these asymmetries have consequences, and the model proves them:

- `SwipeRules.ProgrammaticOpenMatchesReleaseIff`: an animated `open()` from the released
  closed position ends on the released open position only when `paddingLeft == paddingRight`.
- `SwipeRules.ReleaseStableIff` and `SwipeRules.ReleaseStableConditions`: in the RIGHT
  direction, releasing the front child at its own closed position `paddingLeft` opens the panel
  when `2 * paddingLeft > backWidth`. The reason is that the midpoint is measured from 0, not
  from the closed position.
- `SwipeRules.VerticalClamp`: the vertical clamp uses `paddingBottom` as an absolute upper
  bound. When `paddingTop > paddingBottom` it always returns `paddingBottom`.

## Model

| member | source | states |
|---|---|---|
| Enums.FirstWith | swipelayout/src/main/java/com/jonkim/swipelayout/SwipeLayout.kt:28 | the lookup fails exactly when no constant carries the code; otherwise it returns the first constant in declaration order whose code matches |
| Enums.DirectionFrom | swipelayout/src/main/java/com/jonkim/swipelayout/SwipeLayout.kt:23-31 | decoding succeeds exactly for codes 0 and 1, and the decoded direction carries the given code |
| Enums.StatusFrom | swipelayout/src/main/java/com/jonkim/swipelayout/SwipeLayout.kt:33-41 | decoding succeeds exactly for codes 0 and 1, and the decoded status carries the given code |
| Enums.DirectionRoundTrip | swipelayout/src/main/java/com/jonkim/swipelayout/SwipeLayout.kt:24-29 | decoding a direction's own code gives back that direction |
| Enums.StatusRoundTrip | swipelayout/src/main/java/com/jonkim/swipelayout/SwipeLayout.kt:34-39 | decoding a status's own code gives back that status |
| SwipeRules.ClampedX | swipelayout/src/main/java/com/jonkim/swipelayout/SwipeLayout.kt:97-126 | the new x is x+dx or one of the two direction-specific bounds (LEFT: -backWidth..paddingRight; RIGHT: paddingLeft..backWidth+2*paddingRight); it is x+dx only when that is in range; with ordered bounds it lies between them and is the nearest bound outside the range; with out-of-order bounds it is always a bound (LEFT: the lower one when x+dx is below it, else the upper; RIGHT: the upper one when x+dx is above it, else the lower), so it always lies between the smaller and the larger bound |
| SwipeRules.ClampIdempotentIff | swipelayout/src/main/java/com/jonkim/swipelayout/SwipeLayout.kt:98-126 | clamping a clamped position again is a no-op for every start and step exactly when the lower bound does not exceed the upper bound |
| SwipeRules.BoundsOrderedForUsualPaddings | swipelayout/src/main/java/com/jonkim/swipelayout/SwipeLayout.kt:99-115 | the drag range is well formed, and clamping idempotent, in the LEFT direction whenever paddingRight >= 0 and in either direction when paddingLeft == paddingRight >= 0 |
| SwipeRules.VerticalClamp | swipelayout/src/main/java/com/jonkim/swipelayout/SwipeLayout.kt:85-90 | the top never exceeds paddingBottom; with paddingTop <= paddingBottom it is raised to paddingTop below that range, unchanged inside it and lowered to paddingBottom above it; with paddingTop > paddingBottom it is always paddingBottom |
| SwipeRules.ChildAt | swipelayout/src/main/java/com/jonkim/swipelayout/SwipeLayout.kt:82 | a child exists at an index exactly when the index is within the child list, and it is the child at that index |
| SwipeRules.TryCaptureView | swipelayout/src/main/java/com/jonkim/swipelayout/SwipeLayout.kt:81-83 | a view is captured exactly when there are at least two children and it is the child at index 1; so nothing is captured with fewer than two children, and the back child is not captured when it differs from the front child |
| SwipeRules.InterceptDecision | swipelayout/src/main/java/com/jonkim/swipelayout/SwipeLayout.kt:140-149 | an event is not intercepted exactly when its action is UP or CANCEL; a missing event is intercepted |
| SwipeRules.Released | swipelayout/src/main/java/com/jonkim/swipelayout/SwipeLayout.kt:162-181 | the status becomes OPEN exactly when x is past half the back width toward the swipe side; x becomes the matching open or closed target, which is always one end of the drag range; the animation state is untouched |
| SwipeRules.ReleaseSettles | swipelayout/src/main/java/com/jonkim/swipelayout/SwipeLayout.kt:162-179 | every release ends in exactly one of (OPEN at the open target) and (CLOSED at the closed target) |
| SwipeRules.ReleaseStableIff | swipelayout/src/main/java/com/jonkim/swipelayout/SwipeLayout.kt:163-178 | releasing again at a released position changes nothing, for every start, exactly when the open target passes the midpoint test and the closed target fails it |
| SwipeRules.ReleaseStableConditions | swipelayout/src/main/java/com/jonkim/swipelayout/SwipeLayout.kt:163-178 | that stability condition is backWidth > 0 and 2*paddingRight >= -backWidth for LEFT, and backWidth+4*paddingRight > 0 and 2*paddingLeft <= backWidth for RIGHT |
| SwipeRules.Opened | swipelayout/src/main/java/com/jonkim/swipelayout/SwipeLayout.kt:183-205 | open() changes the state exactly when it is CLOSED and no animation is in flight; it then sets OPEN, lowers the flag and queues a translation of -(backWidth+paddingLeft) (LEFT) or +(backWidth+paddingLeft) (RIGHT) from the current x |
| SwipeRules.Closed | swipelayout/src/main/java/com/jonkim/swipelayout/SwipeLayout.kt:207-229 | close() changes the state exactly when it is OPEN and no animation is in flight; it then sets CLOSED, lowers the flag and queues the opposite translation |
| SwipeRules.AnimationEnded | swipelayout/src/main/java/com/jonkim/swipelayout/SwipeLayout.kt:151-154 | the flag is raised, nothing is pending, the status is kept, and x is the end value of the pending translation (or unchanged when none was pending) |
| SwipeRules.BusyIgnoresOpenAndClose | swipelayout/src/main/java/com/jonkim/swipelayout/SwipeLayout.kt:183-229 | after an open() or close() that acted, further open() and close() calls change nothing until the animation ends |
| SwipeRules.OpenCloseRoundTrip | swipelayout/src/main/java/com/jonkim/swipelayout/SwipeLayout.kt:183-229 | open, animation end, close, animation end brings an idle closed panel back to exactly its starting state; the same holds for close then open on an idle open panel |
| SwipeRules.ProgrammaticOpenMatchesReleaseIff | swipelayout/src/main/java/com/jonkim/swipelayout/SwipeLayout.kt:183-205 | an animated open() from the released closed position ends on the released open position exactly when paddingLeft equals paddingRight |
| Widget.SwipeLayout.constructor | swipelayout/src/main/java/com/jonkim/swipelayout/SwipeLayout.kt:45-46 | a new layout is CLOSED with the animation flag up and nothing pending |
| Widget.SwipeLayout.ClampViewPositionHorizontal | swipelayout/src/main/java/com/jonkim/swipelayout/SwipeLayout.kt:97-130 | returns 0, writes the clamped position into x and changes nothing else |
| Widget.SwipeLayout.OnViewReleased | swipelayout/src/main/java/com/jonkim/swipelayout/SwipeLayout.kt:92-95 | the release callback updates x and status as the release rule says, whatever the velocities |
| Widget.SwipeLayout.HandleOnViewRelease | swipelayout/src/main/java/com/jonkim/swipelayout/SwipeLayout.kt:162-181 | x and status become what the release rule gives; the animation state is unchanged |
| Widget.SwipeLayout.Open | swipelayout/src/main/java/com/jonkim/swipelayout/SwipeLayout.kt:183-205 | the new state is the open() step of the old state, and the pending/flag invariant is kept |
| Widget.SwipeLayout.Close | swipelayout/src/main/java/com/jonkim/swipelayout/SwipeLayout.kt:207-229 | the new state is the close() step of the old state, and the pending/flag invariant is kept |
| Widget.SwipeLayout.OnAnimationEnd | swipelayout/src/main/java/com/jonkim/swipelayout/SwipeLayout.kt:151-154 | the pending translation is applied, the flag goes up and the invariant holds |
| Widget.SwipeLayout.OnInterceptTouchEvent | swipelayout/src/main/java/com/jonkim/swipelayout/SwipeLayout.kt:140-149 | returns the intercept decision and cancels the drag helper once exactly when it does not intercept |

## Left out

- Constructors and styled-attribute parsing (SwipeLayout.kt:48-77): the direction arrives already decoded in `Config`. The `swipeDirection` property stays uninitialised when any constructor other than the two-argument one is used, and that failure is not modelled.
- `ViewDragHelper` creation, `processTouchEvent` forwarding in `onTouch`, and the drag helper's own state: framework code. Its `cancel()` is recorded only as a counter.
- `invalidate()`, `Log.e`, the 300 ms duration, `translationY(0f)`, the per-frame progress of the animation, and the empty `onAnimationStart` / `onAnimationRepeat` / `onAnimationCancel` callbacks: rendering and timing. A cancelled animation also ends with `onAnimationEnd`, so the flag comes back up, but the front child stops short of `start + delta`. `AnimationEnded` always puts it at `start + delta`, so the model does not capture a cancelled animation's position.
- The value 0 that `clampViewPositionHorizontal` returns (SwipeLayout.kt:111, 126): the drag helper applies it as the child's new left through `offsetLeftAndRight`. The model records only the returned value and the written `x`. It does not model the left offset, or what happens when a drag and the animator both write the front child's position during an animation.
- The else branch that falls back to the framework's `clampViewPositionHorizontal`: it cannot be reached with a two-constant direction enum.
- Floating-point `child.x`: positions are integers, and IEEE rounding is not modelled.
- The children are modelled as a sequence of view identifiers. Nothing in the model requires them to be distinct: the capture contract's statement about the back child assumes the first two differ. The layout pass that gives the back child its width and the front child its first position is outside the model (the constructor takes both).
- The enums declare their code as a mutable `var`. The model treats the codes as fixed.
- The sample app (`Adapter.kt`, `MainActivity.kt`): UI glue. It calls `open`/`close` overloads that `SwipeLayout` does not declare.
