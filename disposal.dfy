/** The `disposed` flag of the disposable attached at activation, as a value:
    an `AtomicBoolean` that starts false and that `dispose()` changes with one
    atomic `getAndSet(true)`.
 */
module Disposal {

  /** What one `dispose()` call does: the flag afterwards, and whether it
      called `unregister` on the bus. */
  datatype Effect = Effect(disposed: bool, unregisters: bool)

  /** `getAndSet(value)` on a cell holding `cell`: the previous value and the
      new content, in one atomic step. */
  function GetAndSet(cell: bool, value: bool): (r: (bool, bool))
    ensures r.0 == cell
    ensures r.1 == value
  {
    (cell, value)
  }

  /** `dispose()`: set the flag and unregister only if this call was the one
      that changed it from false to true. */
  function Dispose(disposed: bool): (e: Effect)
    ensures e.disposed
    ensures e.unregisters <==> !disposed
  {
    var (previous, now) := GetAndSet(disposed, true);
    Effect(now, !previous)
  }

  /** `k` successive `dispose()` calls from flag `disposed`: the final flag
      and how many of the calls reached `unregister`. Whatever `k`, the flag
      is set as soon as one call is made, and at most one call unregisters:
      exactly one when the flag started false. */
  function DisposeTimes(disposed: bool, k: nat): (r: (bool, nat))
    ensures r.0 == (disposed || k > 0)
    ensures r.1 == if !disposed && k > 0 then 1 else 0
    decreases k
  {
    if k == 0 then (disposed, 0)
    else
      var e := Dispose(disposed);
      var rest := DisposeTimes(e.disposed, k - 1);
      (rest.0, rest.1 + if e.unregisters then 1 else 0)
  }
}
