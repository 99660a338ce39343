/** The subscriber generated at each activation: it forwards an event to the
    emitter's `onNext` and, when that call throws, hands the throwable to
    `onError` instead of letting it reach the bus.
 */
module Relay {

  /** How a call ends: normally, or by throwing `failure`. */
  datatype Completion<X> = Normal | Raised(failure: X)

  /** A call made on the emitter. */
  datatype Signal<E, X> = OnNext(item: E) | OnError(failure: X)

  /** The emitter calls the relay makes for event `e`, when `emitter.onNext(e)`
      ends as `onNext` says. */
  function Relay<E, X>(e: E, onNext: Completion<X>): (r: seq<Signal<E, X>>)
    ensures |r| >= 1 && r[0] == OnNext(e)
    ensures Items(r) == [e]
    ensures Errors(r) == if onNext.Raised? then [onNext.failure] else []
  {
    [OnNext(e)] + match onNext
                  case Normal => []
                  case Raised(t) => [OnError(t)]
  }

  /** The relays for a run of dispatched events, in dispatch order. */
  function RelayAll<E, X>(events: seq<E>, outcomes: seq<Completion<X>>): (r: seq<Signal<E, X>>)
    requires |events| == |outcomes|
    ensures |events| <= |r| <= 2 * |events|
  {
    if events == [] then []
    else Relay(events[0], outcomes[0]) + RelayAll(events[1..], outcomes[1..])
  }

  /** The values handed to `onNext`, in order. */
  function Items<E, X>(signals: seq<Signal<E, X>>): (r: seq<E>)
    ensures |r| <= |signals|
  {
    if signals == [] then []
    else (if signals[0].OnNext? then [signals[0].item] else []) + Items(signals[1..])
  }

  /** The throwables handed to `onError`, in order. */
  function Errors<E, X>(signals: seq<Signal<E, X>>): (r: seq<X>)
    ensures |r| <= |signals|
  {
    if signals == [] then []
    else (if signals[0].OnError? then [signals[0].failure] else []) + Errors(signals[1..])
  }

  /** The throwables of the calls that threw, in order. */
  function Failures<X>(outcomes: seq<Completion<X>>): (r: seq<X>)
    ensures |r| <= |outcomes|
  {
    if outcomes == [] then []
    else (if outcomes[0].Raised? then [outcomes[0].failure] else []) + Failures(outcomes[1..])
  }

  lemma {:induction false} ItemsAppend<E, X>(a: seq<Signal<E, X>>, b: seq<Signal<E, X>>)
    ensures Items(a + b) == Items(a) + Items(b)
  {
    if a == [] {
      assert a + b == b;
    } else {
      assert (a + b)[0] == a[0] && (a + b)[1..] == a[1..] + b;
      ItemsAppend(a[1..], b);
    }
  }

  lemma {:induction false} ErrorsAppend<E, X>(a: seq<Signal<E, X>>, b: seq<Signal<E, X>>)
    ensures Errors(a + b) == Errors(a) + Errors(b)
  {
    if a == [] {
      assert a + b == b;
    } else {
      assert (a + b)[0] == a[0] && (a + b)[1..] == a[1..] + b;
      ErrorsAppend(a[1..], b);
    }
  }

  /** Every dispatched event reaches `onNext` exactly once, in dispatch
      order, with no omission, duplication or reordering. */
  lemma {:induction false} RelayAllItems<E, X>(events: seq<E>, outcomes: seq<Completion<X>>)
    requires |events| == |outcomes|
    ensures Items(RelayAll(events, outcomes)) == events
  {
    if events != [] {
      ItemsAppend(Relay(events[0], outcomes[0]), RelayAll(events[1..], outcomes[1..]));
      RelayAllItems(events[1..], outcomes[1..]);
      assert events == [events[0]] + events[1..];
    }
  }

  /** Every throwable raised by `onNext` reaches `onError`, in order, and
      nothing else does. */
  lemma {:induction false} RelayAllErrors<E, X>(events: seq<E>, outcomes: seq<Completion<X>>)
    requires |events| == |outcomes|
    ensures Errors(RelayAll(events, outcomes)) == Failures(outcomes)
  {
    if events != [] {
      ErrorsAppend(Relay(events[0], outcomes[0]), RelayAll(events[1..], outcomes[1..]));
      RelayAllErrors(events[1..], outcomes[1..]);
    }
  }
}
