/** `SimpleRx2SubscriptionAdapter`: turns the registrations of an event bus
    into RxJava 2 `Flowable`s. Building a flowable registers nothing; each
    time the flowable is subscribed, its activation callback creates a fresh
    subscriber, registers it with the bus for the requested event type and
    attaches to the emitter a `Disposable` whose first `dispose()` unregisters
    that subscriber.
 */
module Rx2Adapter {
  import Registry
  import Disposal
  import Relay

  /** The `Class<T>` that selects which events a flowable carries. */
  type EventType(==)
  /** An event posted on the bus. */
  type Event
  /** A `Throwable` raised by the emitter's `onNext`. */
  type Failure

  /** RxJava's `BackpressureStrategy` constants. */
  datatype BackpressureStrategy = Missing | Error | Buffer | Drop | Latest

  /** The activation callback built by `flowable(Class)`: it closes over the
      adapter's bus and the requested event type. */
  datatype OnSubscribe = RegisterOn(bus: Bus, eventType: EventType)

  /** What `Flowable.create(source, strategy)` is given. */
  datatype Flowable = Flowable(source: OnSubscribe, strategy: BackpressureStrategy)

  /** The event bus, reduced to its registration table. `unregistered` logs
      every `unregister` call, so that the model can count them. */
  class Bus {
    var registrations: seq<Registry.Registration<EventType, Subscriber>>
    ghost var unregistered: seq<Subscriber>

    constructor ()
      ensures registrations == [] && unregistered == []
    {
      registrations := [];
      unregistered := [];
    }

    method Register(k: EventType, s: Subscriber)
      modifies this
      ensures registrations == Registry.Register(old(registrations), k, s)
      ensures unregistered == old(unregistered)
    {
      registrations := Registry.Register(registrations, k, s);
    }

    method Unregister(s: Subscriber)
      modifies this
      ensures registrations == Registry.Unregister(old(registrations), s)
      ensures unregistered == old(unregistered) + [s]
    {
      registrations := Registry.Unregister(registrations, s);
      unregistered := unregistered + [s];
    }
  }

  /** The `FlowableEmitter` handed to the activation callback: it records the
      calls made on it and the disposable attached to it. */
  class Emitter {
    var signals: seq<Relay.Signal<Event, Failure>>
    var disposable: Handle?

    constructor ()
      ensures signals == [] && disposable == null
    {
      signals := [];
      disposable := null;
    }

    method OnNext(e: Event)
      modifies this
      ensures signals == old(signals) + [Relay.OnNext(e)]
      ensures disposable == old(disposable)
    {
      signals := signals + [Relay.OnNext(e)];
    }

    method OnError(t: Failure)
      modifies this
      ensures signals == old(signals) + [Relay.OnError(t)]
      ensures disposable == old(disposable)
    {
      signals := signals + [Relay.OnError(t)];
    }

    method SetDisposable(d: Handle)
      modifies this
      ensures disposable == d
      ensures signals == old(signals)
    {
      disposable := d;
    }
  }

  /** The `EventSubscriber` generated at each activation. Its identity is
      what the bus registers and later unregisters. */
  class Subscriber {
    const emitter: Emitter

    constructor (emitter: Emitter)
      ensures this.emitter == emitter
    {
      this.emitter := emitter;
    }

    /** Receives `e` from the bus. `onNext` is how the emitter's `onNext(e)`
        ends; if it throws, the throwable goes to `onError` and the call
        still returns normally to the bus. */
    method On(e: Event, onNext: Relay.Completion<Failure>) returns (c: Relay.Completion<Failure>)
      modifies emitter
      ensures emitter.signals == old(emitter.signals) + Relay.Relay(e, onNext)
      ensures emitter.disposable == old(emitter.disposable)
      ensures c == Relay.Normal
    {
      emitter.OnNext(e);
      if onNext.Raised? {
        emitter.OnError(onNext.failure);
      }
      c := Relay.Normal;
    }
  }

  /** The anonymous `Disposable` attached at activation. `eventType` is the
      type the subscriber was registered for; it exists for the proof only. */
  class Handle {
    const bus: Bus
    const subscriber: Subscriber
    ghost const eventType: EventType
    var disposed: bool

    /** While the flag is false the subscriber holds exactly its one
        registration and was never unregistered; once it is true the
        subscriber holds no registration and was unregistered exactly once. */
    ghost predicate Valid()
      reads this, bus
    {
      && Registry.RegistrationsOf(bus.registrations, subscriber) == (if disposed then [] else [eventType])
      && Registry.Count(bus.unregistered, subscriber) == (if disposed then 1 else 0)
    }

    constructor (bus: Bus, subscriber: Subscriber, ghost eventType: EventType)
      ensures this.bus == bus && this.subscriber == subscriber && this.eventType == eventType
      ensures !disposed
    {
      this.bus := bus;
      this.subscriber := subscriber;
      this.eventType := eventType;
      disposed := false;
    }

    /** `dispose()`: one atomic `getAndSet(true)`; only the call that saw
        false unregisters the subscriber. Nothing about any other subscriber
        changes. */
    method Dispose()
      modifies this, bus
      ensures disposed == Disposal.Dispose(old(disposed)).disposed
      ensures bus.unregistered
              == old(bus.unregistered) + if Disposal.Dispose(old(disposed)).unregisters then [subscriber] else []
      ensures bus.registrations
              == if old(disposed) then old(bus.registrations) else Registry.Unregister(old(bus.registrations), subscriber)
      ensures forall t: Subscriber {:trigger Registry.RegistrationsOf(bus.registrations, t)} :: t != subscriber ==>
                Registry.RegistrationsOf(bus.registrations, t) == Registry.RegistrationsOf(old(bus.registrations), t)
      ensures forall t: Subscriber {:trigger Registry.Count(bus.unregistered, t)} :: t != subscriber ==>
                Registry.Count(bus.unregistered, t) == Registry.Count(old(bus.unregistered), t)
      ensures old(Valid()) ==> Valid()
    {
      var previous;
      previous, disposed := disposed, true;
      if !previous {
        bus.Unregister(subscriber);
        forall t: Subscriber
          ensures Registry.RegistrationsOf(bus.registrations, t)
                  == if t == subscriber then [] else Registry.RegistrationsOf(old(bus.registrations), t)
          ensures Registry.Count(bus.unregistered, t)
                  == Registry.Count(old(bus.unregistered), t) + if t == subscriber then 1 else 0
        {
          Registry.UnregisterEffect(old(bus.registrations), subscriber, t);
          Registry.CountAppend(old(bus.unregistered), subscriber, t);
        }
      }
    }

    /** `isDisposed()`: reads the flag and changes nothing. */
    method IsDisposed() returns (d: bool)
      ensures d == disposed
    {
      d := disposed;
    }
  }

  class SubscriptionAdapter {
    const bus: Bus

    constructor (bus: Bus)
      ensures this.bus == bus
    {
      this.bus := bus;
    }

    /** `flowable(Class)`: pure construction of a flowable whose activation
        registers with this adapter's bus for `k`, always with the BUFFER
        strategy. */
    function FlowableFor(k: EventType): (f: Flowable)
      ensures f.strategy == Buffer
      ensures f.source == RegisterOn(bus, k)
    {
      Create(RegisterOn(bus, k))
    }

    /** `flowable(FlowableOnSubscribe)`: hands the callback, unchanged, to
        `Flowable.create` with the BUFFER strategy. */
    function Create(source: OnSubscribe): (f: Flowable)
      ensures f.source == source
      ensures f.strategy == Buffer
    {
      Flowable(source, Buffer)
    }
  }

  /** The activation callback of `source`, run when a consumer subscribes to
      the flowable with `emitter`. */
  method Activate(source: OnSubscribe, emitter: Emitter) returns (handle: Handle)
    modifies source.bus, emitter
    ensures fresh(handle) && fresh(handle.subscriber)
    ensures handle.bus == source.bus && handle.subscriber.emitter == emitter
    ensures handle.eventType == source.eventType
    ensures source.bus.registrations
            == Registry.Register(old(source.bus.registrations), source.eventType, handle.subscriber)
    ensures source.bus.unregistered == old(source.bus.unregistered)
    ensures emitter.disposable == handle && emitter.signals == old(emitter.signals)
    ensures !handle.disposed && handle.Valid()
  {
    var bus := source.bus;
    var subscriber := new Subscriber(emitter);
    bus.Register(source.eventType, subscriber);
    handle := new Handle(bus, subscriber, source.eventType);
    emitter.SetDisposable(handle);

    ghost var before := old(bus.registrations);
    assert forall i :: 0 <= i < |before| ==> before[i].subscriber != subscriber;
    Registry.RegistrationsOfAbsent(before, subscriber);
    Registry.RegisterEffect(before, source.eventType, subscriber, subscriber);
    Registry.CountAbsent(bus.unregistered, subscriber);
  }

  /** Two consumers subscribe to flowables of the same adapter; the first
      disposes twice. Each activation has its own subscriber and flag; the
      first is unregistered exactly once, and the second keeps its
      registration and its flag. */
  method IndependentActivations(adapter: SubscriptionAdapter, k1: EventType, k2: EventType, e1: Emitter, e2: Emitter)
    returns (h1: Handle, h2: Handle)
    modifies adapter.bus, e1, e2
    ensures h1 != h2 && h1.subscriber != h2.subscriber
    ensures h1.disposed && h1.Valid()
    ensures Registry.RegistrationsOf(adapter.bus.registrations, h1.subscriber) == []
    ensures Registry.Count(adapter.bus.unregistered, h1.subscriber) == 1
    ensures !h2.disposed && h2.Valid()
    ensures Registry.RegistrationsOf(adapter.bus.registrations, h2.subscriber) == [k2]
    ensures Registry.Count(adapter.bus.unregistered, h2.subscriber) == 0
  {
    h1 := Activate(adapter.FlowableFor(k1).source, e1);
    ghost var between := adapter.bus.registrations;
    h2 := Activate(adapter.FlowableFor(k2).source, e2);
    Registry.RegisterEffect(between, k2, h2.subscriber, h1.subscriber);
    h1.Dispose();
    h1.Dispose();
  }
}
