/** The two integer-coded enums of the swipe layout and their decoders.
    Each constant carries an integer code; `from` looks a code up among the
    constants in declaration order and fails when no constant carries it. */
module Enums {

  datatype Option<T> = None | Some(value: T)

  /** Which edge the front child is swiped toward. */
  datatype SwipeDirection = LEFT | RIGHT

  /** Settled state of the panel. */
  datatype Status = OPEN | CLOSED

  function DirectionValue(d: SwipeDirection): int {
    match d
    case LEFT => 0
    case RIGHT => 1
  }

  function StatusValue(s: Status): int {
    match s
    case OPEN => 0
    case CLOSED => 1
  }

  /** The constants in declaration order, as the enum's value list gives them. */
  const DirectionValues: seq<SwipeDirection> := [LEFT, RIGHT]
  const StatusValues: seq<Status> := [OPEN, CLOSED]

  /** The first element of `values` whose code is `v`; None where the
      lookup would fail for want of a matching element. */
  function FirstWith<T>(values: seq<T>, code: T -> int, v: int): (r: Option<T>)
    ensures r.None? <==> forall t :: t in values ==> code(t) != v
    ensures r.Some? ==> exists i :: 0 <= i < |values| && values[i] == r.value && code(values[i]) == v
                                   && forall j :: 0 <= j < i ==> code(values[j]) != v
  {
    if |values| == 0 then None
    else if code(values[0]) == v then Some(values[0])
    else
      var r := FirstWith(values[1..], code, v);
      assert forall t :: t in values[1..] ==> t in values;
      assert r.Some? ==> exists i :: 0 <= i < |values| && values[i] == r.value && code(values[i]) == v
                                     && forall j :: 0 <= j < i ==> code(values[j]) != v by {
        if r.Some? {
          var i :| 0 <= i < |values[1..]| && values[1..][i] == r.value && code(values[1..][i]) == v
                   && forall j :: 0 <= j < i ==> code(values[1..][j]) != v;
          assert forall j :: 0 <= j < i + 1 ==> code(values[j]) != v by {
            forall j | 0 <= j < i + 1 ensures code(values[j]) != v {
              if j > 0 { assert values[j] == values[1..][j - 1]; }
            }
          }
        }
      }
      r
  }

  /** SwipeDirection.from: decodes a direction code. */
  function DirectionFrom(v: int): (r: Option<SwipeDirection>)
    ensures r.Some? <==> v == 0 || v == 1
    ensures r.Some? ==> DirectionValue(r.value) == v
  {
    FirstWith(DirectionValues, DirectionValue, v)
  }

  /** Status.from: decodes a status code. */
  function StatusFrom(v: int): (r: Option<Status>)
    ensures r.Some? <==> v == 0 || v == 1
    ensures r.Some? ==> StatusValue(r.value) == v
  {
    FirstWith(StatusValues, StatusValue, v)
  }

  /** Decoding a constant's own code gives back that constant. */
  lemma DirectionRoundTrip(d: SwipeDirection)
    ensures DirectionFrom(DirectionValue(d)) == Some(d)
  {
  }

  lemma StatusRoundTrip(s: Status)
    ensures StatusFrom(StatusValue(s)) == Some(s)
  {
  }
}
