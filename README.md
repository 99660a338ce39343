# Rx2 subscription adapter: a Dafny model

This project models `SimpleRx2SubscriptionAdapter`, the class that turns an
event bus into RxJava 2 `Flowable`s. Asking the adapter for a flowable of an
event type registers nothing. Each time a consumer subscribes, the activation
callback does three things in order:

1. it creates a fresh subscriber that forwards every event to the emitter's
   `onNext`, and hands the throwable to `onError` when `onNext` throws;
2. it registers that subscriber with the bus for the requested event type;
3. it attaches to the emitter a `Disposable` whose `disposed` flag starts
   false; the first `dispose()` sets the flag with one atomic `getAndSet(true)`
   and unregisters the subscriber, and every later call does nothing.

The flowable is always created with the `BUFFER` backpressure strategy.

Files:

- `registry.dfy` (module `Registry`): the bus's registration table as a value,
  with `register` and `unregister` over opaque event types and subscribers.
- `disposal.dfy` (module `Disposal`): the `disposed` flag and what one or
  many `dispose()` calls do to it.
- `relay.dfy` (module `Relay`): the generated subscriber's try/catch, as the
  sequence of calls it makes on the emitter.
- `adapter.dfy` (module `Rx2Adapter`): the objects. `Bus` and `Emitter` record
  what is done to them. `Subscriber` is the generated subscriber. `Handle` is
  the anonymous `Disposable`. `SubscriptionAdapter` builds flowables, and
  `Activate` is the activation callback.

Subscriber identity is object identity: the bus registers and unregisters
`Subscriber` objects, and each activation allocates a fresh one. The bus also
keeps a ghost log of every `unregister` call, so that the model can count them.
`Handle.Valid()` is the lifecycle invariant. While the flag is false, the
subscriber holds exactly its one registration and was never unregistered.
Once the flag is true, the subscriber holds no registration and was
unregistered exactly once.

## Model

| member | source | states |
|---|---|---|
| `Registry.Register` | rx-2/src/main/java/net/kyori/event/rx2/SimpleRx2SubscriptionAdapter.java:58 | `register` keeps every existing registration in place and adds one registration of the subscriber for the event type, last |
| `Registry.RegisterEffect` | rx-2/src/main/java/net/kyori/event/rx2/SimpleRx2SubscriptionAdapter.java:58 | registering a subscriber for an event type adds exactly that event type, last, to that subscriber's registrations, and leaves every other subscriber's registrations unchanged |
| `Registry.Unregister` | rx-2/src/main/java/net/kyori/event/rx2/SimpleRx2SubscriptionAdapter.java:65 | after unregistering a subscriber, no registration of it is left, every registration of another subscriber is kept with as many copies as before, and the table never grows |
| `Registry.UnregisterEffect` | rx-2/src/main/java/net/kyori/event/rx2/SimpleRx2SubscriptionAdapter.java:65 | unregistering a subscriber empties its registrations and leaves every other subscriber's registrations, in order, unchanged |
| `Registry.UnregisterAbsent` | rx-2/src/main/java/net/kyori/event/rx2/SimpleRx2SubscriptionAdapter.java:65 | unregistering a subscriber that holds no registration leaves the table unchanged |
| `Registry.RegisterUnregister` | rx-2/src/main/java/net/kyori/event/rx2/SimpleRx2SubscriptionAdapter.java:58-65 | registering a subscriber that holds no registration and then unregistering it gives back the table as it was |
| `Disposal.GetAndSet` | rx-2/src/main/java/net/kyori/event/rx2/SimpleRx2SubscriptionAdapter.java:64 | `getAndSet(true)` returns the flag's previous value and leaves the flag holding the new value, in one step |
| `Disposal.Dispose` | rx-2/src/main/java/net/kyori/event/rx2/SimpleRx2SubscriptionAdapter.java:63-67 | after `dispose()` the flag is true, and the call unregisters if and only if the flag was false before it |
| `Disposal.DisposeTimes` | rx-2/src/main/java/net/kyori/event/rx2/SimpleRx2SubscriptionAdapter.java:60-67 | for any number k of `dispose()` calls, the flag ends true once k >= 1; starting from a fresh (false) flag, exactly one call unregisters; starting from true, none does |
| `Relay.Relay` | rx-2/src/main/java/net/kyori/event/rx2/SimpleRx2SubscriptionAdapter.java:52-56 | the subscriber first calls `onNext` with the event, which is the only value `onNext` receives; it calls `onError`, with the same throwable, if and only if `onNext` threw |
| `Relay.RelayAllItems` | rx-2/src/main/java/net/kyori/event/rx2/SimpleRx2SubscriptionAdapter.java:51-57 | over a run of dispatched events, `onNext` receives exactly those events, in dispatch order, with no omission or duplication, whatever `onNext` throws |
| `Relay.RelayAllErrors` | rx-2/src/main/java/net/kyori/event/rx2/SimpleRx2SubscriptionAdapter.java:52-56 | over a run of dispatched events, `onError` receives exactly the throwables `onNext` raised, in order |
| `Rx2Adapter.Bus.Register` | rx-2/src/main/java/net/kyori/event/rx2/SimpleRx2SubscriptionAdapter.java:58 | the table becomes the old table plus one registration of the subscriber for the event type; no unregister is logged |
| `Rx2Adapter.Bus.Unregister` | rx-2/src/main/java/net/kyori/event/rx2/SimpleRx2SubscriptionAdapter.java:65 | the table loses every registration of the subscriber, and the call is logged once |
| `Rx2Adapter.Emitter.OnNext` | rx-2/src/main/java/net/kyori/event/rx2/SimpleRx2SubscriptionAdapter.java:53 | the emitter records one `onNext` call with the event, after the earlier calls |
| `Rx2Adapter.Emitter.OnError` | rx-2/src/main/java/net/kyori/event/rx2/SimpleRx2SubscriptionAdapter.java:55 | the emitter records one `onError` call with the throwable, after the earlier calls |
| `Rx2Adapter.Emitter.SetDisposable` | rx-2/src/main/java/net/kyori/event/rx2/SimpleRx2SubscriptionAdapter.java:59 | the given disposable becomes the emitter's disposable; no call is recorded |
| `Rx2Adapter.Subscriber.constructor` | rx-2/src/main/java/net/kyori/event/rx2/SimpleRx2SubscriptionAdapter.java:51 | the subscriber is bound to the activation's emitter |
| `Rx2Adapter.Subscriber.On` | rx-2/src/main/java/net/kyori/event/rx2/SimpleRx2SubscriptionAdapter.java:51-57 | the emitter receives exactly the relay's calls for the event, its disposable is untouched, and the call returns normally to the bus even when `onNext` threw |
| `Rx2Adapter.Handle.constructor` | rx-2/src/main/java/net/kyori/event/rx2/SimpleRx2SubscriptionAdapter.java:59-60 | a new disposable is bound to the bus and to the activation's subscriber, with its flag false |
| `Rx2Adapter.Handle.Dispose` | rx-2/src/main/java/net/kyori/event/rx2/SimpleRx2SubscriptionAdapter.java:63-67 | the flag and the unregister call follow `Disposal.Dispose` of the old flag; the bus loses this subscriber's registrations only on the first call; no other subscriber's registrations or unregister count change; the lifecycle invariant is kept |
| `Rx2Adapter.Handle.IsDisposed` | rx-2/src/main/java/net/kyori/event/rx2/SimpleRx2SubscriptionAdapter.java:70-72 | returns the flag and changes nothing, neither the flag nor the bus |
| `Rx2Adapter.SubscriptionAdapter.constructor` | rx-2/src/main/java/net/kyori/event/rx2/SimpleRx2SubscriptionAdapter.java:44-46 | the adapter keeps the bus it is given |
| `Rx2Adapter.SubscriptionAdapter.FlowableFor` | rx-2/src/main/java/net/kyori/event/rx2/SimpleRx2SubscriptionAdapter.java:49-50 | the flowable for an event type is built with the BUFFER strategy, around a callback that registers with this adapter's bus for that type; building it is a function, so it changes no state and registers nothing |
| `Rx2Adapter.SubscriptionAdapter.Create` | rx-2/src/main/java/net/kyori/event/rx2/SimpleRx2SubscriptionAdapter.java:85-87 | the callback is passed on unchanged, always with the BUFFER strategy |
| `Rx2Adapter.Activate` | rx-2/src/main/java/net/kyori/event/rx2/SimpleRx2SubscriptionAdapter.java:50-75 | activation creates a fresh subscriber bound to the emitter, registers exactly it with the bus for the requested type and touches no other registration or unregister count, attaches a fresh disposable for that subscriber to the emitter, leaves that disposable's flag false, and establishes the lifecycle invariant |
| `Rx2Adapter.IndependentActivations` | rx-2/src/main/java/net/kyori/event/rx2/SimpleRx2SubscriptionAdapter.java:50-73 | two activations on one adapter get distinct subscribers and distinct flags; disposing the first twice unregisters it exactly once, while the second keeps its one registration, its false flag and an unregister count of zero |

## Left out

- RxJava itself (`Flowable.create`, the emitter's buffering, scheduling, downstream operators) is not part of this model. The emitter only records the calls made on it and the disposable attached to it, and the strategy is a tag.
- Whether the emitter's `onNext` throws is an input to `Rx2Adapter.Subscriber.On`, because that behaviour lives inside RxJava. The model assumes that `onError` itself returns normally.
- The bus's dispatch, its type-hierarchy matching of event classes and the order in which it calls subscribers are not part of this model. The bus is reduced to a registration table with `register` and `unregister`, over opaque event types and subscribers. As a consequence, "no event reaches the stream after `dispose()`" is stated only as "no registration is left" (`Handle.Valid()`).
- Thread safety and the memory ordering of `AtomicBoolean` are not modelled. `getAndSet(true)` is one sequential step, and races between `dispose()` and a dispatch already in progress are out of scope.
- A `Throwable` is an opaque value. Java generics and the `@NonNull` annotations are not modelled.
- The relay calls `onError` once for every `onNext` that throws (`Relay.RelayAllErrors`). The code does not stop forwarding after the first error. At most one error per activation, and no events after an error, would be guarantees of the RxJava emitter, which this model does not include.
