/** The event bus's registration table, seen only through the two operations
    the adapter uses: `register(eventType, subscriber)` and
    `unregister(subscriber)`. Event types and subscribers are opaque; the
    bus's dispatch and its type-hierarchy matching are not part of this model.
 */
module Registry {

  datatype Registration<K, S> = Registration(eventType: K, subscriber: S)

  /** `register(eventType, subscriber)`: one more registration, after the
      existing ones. */
  function Register<K, S>(regs: seq<Registration<K, S>>, k: K, s: S): (r: seq<Registration<K, S>>)
    ensures |r| == |regs| + 1
    ensures r[..|regs|] == regs
    ensures r[|regs|] == Registration(k, s)
  {
    regs + [Registration(k, s)]
  }

  /** `unregister(subscriber)`: drops every registration of that subscriber
      and keeps all the others, in their order. */
  function Unregister<K(==), S(==)>(regs: seq<Registration<K, S>>, s: S): (r: seq<Registration<K, S>>)
    ensures forall i :: 0 <= i < |r| ==> r[i] in regs && r[i].subscriber != s
    ensures forall i :: 0 <= i < |regs| && regs[i].subscriber != s ==> regs[i] in r
    ensures forall i :: 0 <= i < |regs| && regs[i].subscriber != s ==> multiset(r)[regs[i]] == multiset(regs)[regs[i]]
    ensures |r| <= |regs|
  {
    if regs == [] then []
    else
      assert regs == [regs[0]] + regs[1..];
      if regs[0].subscriber == s then Unregister(regs[1..], s)
      else [regs[0]] + Unregister(regs[1..], s)
  }

  /** The event types `s` is registered for, in registration order. */
  function RegistrationsOf<K, S(==)>(regs: seq<Registration<K, S>>, s: S): (r: seq<K>)
    ensures |r| <= |regs|
  {
    if regs == [] then []
    else (if regs[0].subscriber == s then [regs[0].eventType] else []) + RegistrationsOf(regs[1..], s)
  }

  /** The number of times `x` occurs in a log of calls. */
  function Count<T(==)>(log: seq<T>, x: T): (n: nat)
    ensures n <= |log|
  {
    if log == [] then 0
    else Count(log[..|log| - 1], x) + (if log[|log| - 1] == x then 1 else 0)
  }

  lemma {:induction false} RegistrationsOfAppend<K, S>(a: seq<Registration<K, S>>, b: seq<Registration<K, S>>, t: S)
    ensures RegistrationsOf(a + b, t) == RegistrationsOf(a, t) + RegistrationsOf(b, t)
  {
    if a == [] {
      assert a + b == b;
    } else {
      var head := if a[0].subscriber == t then [a[0].eventType] else [];
      assert (a + b)[0] == a[0] && (a + b)[1..] == a[1..] + b;
      RegistrationsOfAppend(a[1..], b, t);
      calc {
        RegistrationsOf(a + b, t);
        head + RegistrationsOf(a[1..] + b, t);
        head + (RegistrationsOf(a[1..], t) + RegistrationsOf(b, t));
        (head + RegistrationsOf(a[1..], t)) + RegistrationsOf(b, t);
        RegistrationsOf(a, t) + RegistrationsOf(b, t);
      }
    }
  }

  /** A subscriber that appears in no registration has none. */
  lemma {:induction false} RegistrationsOfAbsent<K, S>(regs: seq<Registration<K, S>>, t: S)
    requires forall i :: 0 <= i < |regs| ==> regs[i].subscriber != t
    ensures RegistrationsOf(regs, t) == []
  {
    if regs != [] {
      RegistrationsOfAbsent(regs[1..], t);
    }
  }

  /** Registering `s` for `k` adds exactly `k`, at the end, to the
      registrations of `s`, and leaves every other subscriber's as they were. */
  lemma RegisterEffect<K, S>(regs: seq<Registration<K, S>>, k: K, s: S, t: S)
    ensures RegistrationsOf(Register(regs, k, s), t)
            == RegistrationsOf(regs, t) + (if t == s then [k] else [])
  {
    RegistrationsOfAppend(regs, [Registration(k, s)], t);
    assert [Registration(k, s)][1..] == [];
  }

  /** Unregistering `s` removes all of its registrations and leaves every
      other subscriber's registrations, and their order, unchanged. */
  lemma {:induction false} UnregisterEffect<K, S>(regs: seq<Registration<K, S>>, s: S, t: S)
    ensures RegistrationsOf(Unregister(regs, s), t)
            == if t == s then [] else RegistrationsOf(regs, t)
  {
    if regs != [] {
      UnregisterEffect(regs[1..], s, t);
      if regs[0].subscriber != s {
        assert ([regs[0]] + Unregister(regs[1..], s))[1..] == Unregister(regs[1..], s);
      }
    }
  }

  /** Unregistering a subscriber that holds no registration is a no-op. */
  lemma {:induction false} UnregisterAbsent<K, S>(regs: seq<Registration<K, S>>, s: S)
    requires RegistrationsOf(regs, s) == []
    ensures Unregister(regs, s) == regs
  {
    if regs != [] {
      UnregisterAbsent(regs[1..], s);
      assert regs == [regs[0]] + regs[1..];
    }
  }

  lemma {:induction false} UnregisterAppend<K, S>(a: seq<Registration<K, S>>, b: seq<Registration<K, S>>, s: S)
    ensures Unregister(a + b, s) == Unregister(a, s) + Unregister(b, s)
  {
    if a == [] {
      assert a + b == b;
    } else {
      assert (a + b)[0] == a[0] && (a + b)[1..] == a[1..] + b;
      UnregisterAppend(a[1..], b, s);
    }
  }

  /** Round trip: registering a subscriber that holds no registration and
      then unregistering it gives back the table as it was. */
  lemma RegisterUnregister<K, S>(regs: seq<Registration<K, S>>, k: K, s: S)
    requires RegistrationsOf(regs, s) == []
    ensures Unregister(Register(regs, k, s), s) == regs
  {
    UnregisterAppend(regs, [Registration(k, s)], s);
    UnregisterAbsent(regs, s);
    assert Unregister([Registration(k, s)], s) == [];
  }

  lemma CountAppend<T>(log: seq<T>, y: T, x: T)
    ensures Count(log + [y], x) == Count(log, x) + (if y == x then 1 else 0)
  {
  }

  /** A value that was never logged has count zero. */
  lemma {:induction false} CountAbsent<T>(log: seq<T>, x: T)
    requires forall i :: 0 <= i < |log| ==> log[i] != x
    ensures Count(log, x) == 0
  {
    if log != [] {
      CountAbsent(log[..|log| - 1], x);
    }
  }
}
