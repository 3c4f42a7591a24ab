/**
 The session registry: a weak reference to the active game client and a one-shot waiter for the
 next client packet that satisfies a predicate. Calls are serialised, as on the server's single
 event loop.

 C stands for a callback. notify_c2s clears the waiter before it runs the callback, so a callback that
 registers a waiter is a run in which a Wait comes right after the Notify.
 */
module SessionRegistry {
  import opened Wrappers
  import opened Bytes

  type SessionId = nat
  type Pred = seq<Byte> -> bool

  datatype Waiter<C> = Waiter(pred: Pred, callback: C)

  datatype Event<C> = Wait(waiter: Waiter<C>) | Notify(bytes: seq<Byte>)

  function After<C>(w: Option<Waiter<C>>, e: Event<C>): Option<Waiter<C>> {
    match e
    case Wait(waiter) => Some(waiter)
    case Notify(bytes) => if w.Some? && w.value.pred(bytes) then None else w
  }

  function Fires<C>(w: Option<Waiter<C>>, e: Event<C>): Option<C> {
    if e.Notify? && w.Some? && w.value.pred(e.bytes) then Some(w.value.callback) else None
  }

  function Locked(client: Option<SessionId>, alive: set<SessionId>): Option<SessionId> {
    if client.Some? && client.value !in alive then None else client
  }

  class Registry<C> {
    var activeClient: Option<SessionId>
    var pendingPred: Option<Pred>
    var pendingCb: Option<C>

    ghost predicate Valid()
      reads this
    {
      pendingPred.Some? <==> pendingCb.Some?
    }

    ghost function Pending(): Option<Waiter<C>>
      reads this
      requires Valid()
    {
      if pendingPred.Some? then Some(Waiter(pendingPred.value, pendingCb.value)) else None
    }

    constructor ()
      ensures Valid() && Pending() == None && activeClient == None
    {
      activeClient, pendingPred, pendingCb := None, None, None;
    }

    method SetActiveClient(s: SessionId)
      requires Valid()
      modifies this
      ensures Valid() && activeClient == Some(s) && Pending() == old(Pending())
    {
      activeClient := Some(s);
    }

    /** Locking the weak reference gives nothing once the session is gone. */
    method GetActiveClient(alive: set<SessionId>) returns (s: Option<SessionId>)
      ensures s == Locked(activeClient, alive)
      ensures s.Some? <==> activeClient.Some? && activeClient.value in alive
    {
      if activeClient.Some? && activeClient.value !in alive {
        return None;
      }
      return activeClient;
    }

    method WaitNextC2s(pred: Pred, onMatch: C)
      requires Valid()
      modifies this
      ensures Valid() && activeClient == old(activeClient)
      ensures Pending() == After(old(Pending()), Wait(Waiter(pred, onMatch)))
    {
      pendingPred := Some(pred);
      pendingCb := Some(onMatch);
    }

    /** Returns the callback that is run on the bytes, if any. */
    method NotifyC2s(bytes: seq<Byte>) returns (run: Option<C>)
      requires Valid()
      modifies this
      ensures Valid() && activeClient == old(activeClient)
      ensures run == Fires(old(Pending()), Notify(bytes))
      ensures Pending() == After(old(Pending()), Notify(bytes))
    {
      if pendingPred.None? || pendingCb.None? {
        return None;
      }
      var pred, cb := pendingPred.value, pendingCb.value;
      if pred(bytes) {
        pendingPred := None;
        pendingCb := None;
        return Some(cb);
      }
      return None;
    }
  }

  // ------------------------------------------------------------------ whole runs

  function WaiterAfter<C>(es: seq<Event<C>>): Option<Waiter<C>> {
    if es == [] then None else After(WaiterAfter(es[..|es| - 1]), es[|es| - 1])
  }

  /** The callback that the j-th call runs, if any. */
  function FiredAt<C>(es: seq<Event<C>>, j: nat): Option<C>
    requires j < |es|
  {
    Fires(WaiterAfter(es[..j]), es[j])
  }

  /** The waiter of call i still waits before call j: none was registered since, and no packet has matched it. */
  predicate StillWaiting<C>(es: seq<Event<C>>, i: nat, j: nat)
    requires i < j <= |es|
  {
    && es[i].Wait?
    && forall k | i < k < j :: es[k].Notify? && !es[i].waiter.pred(es[k].bytes)
  }

  lemma {:induction false} WaiterIsLatest<C>(es: seq<Event<C>>, j: nat) returns (i: nat)
    requires j <= |es|
    ensures WaiterAfter(es[..j]).Some? ==> i < j && StillWaiting(es, i, j) && WaiterAfter(es[..j]) == Some(es[i].waiter)
  {
    i := 0;
    if j > 0 {
      assert es[..j][..j - 1] == es[..j - 1];
      if es[j - 1].Wait? {
        i := j - 1;
      } else {
        i := WaiterIsLatest(es, j - 1);
      }
    }
  }

  lemma {:induction false} LatestIsWaiter<C>(es: seq<Event<C>>, i: nat, j: nat)
    requires i < j <= |es| && StillWaiting(es, i, j)
    ensures WaiterAfter(es[..j]) == Some(es[i].waiter)
  {
    assert es[..j][..j - 1] == es[..j - 1];
    if i < j - 1 {
      LatestIsWaiter(es, i, j - 1);
    }
  }

  /**
   A packet runs a callback exactly when the latest waiter registered before it matches it and has not
   matched a packet since it was registered. So each registration runs at most once, a superseded one
   never, and one made by a callback waits like any other.
   */
  lemma FiresIffFirstMatch<C>(es: seq<Event<C>>, j: nat, callback: C)
    requires j < |es|
    ensures FiredAt(es, j) == Some(callback) <==>
      && es[j].Notify?
      && exists i :: 0 <= i < j && StillWaiting(es, i, j) && es[i].waiter.callback == callback
                  && es[i].waiter.pred(es[j].bytes)
  {
    if FiredAt(es, j) == Some(callback) {
      var i := WaiterIsLatest(es, j);
    }
    if es[j].Notify? && exists i :: 0 <= i < j && StillWaiting(es, i, j) && es[i].waiter.callback == callback
                                 && es[i].waiter.pred(es[j].bytes) {
      var i :| 0 <= i < j && StillWaiting(es, i, j) && es[i].waiter.callback == callback
            && es[i].waiter.pred(es[j].bytes);
      LatestIsWaiter(es, i, j);
    }
  }

  /** No registration runs twice, and two calls that run a callback run different registrations. */
  lemma RunsAtMostOnce<C>(es: seq<Event<C>>, i: nat, j: nat, j': nat)
    requires i < j < j' < |es| && StillWaiting(es, i, j)
    requires es[j].Notify? && es[i].waiter.pred(es[j].bytes)
    ensures FiredAt(es, j) == Some(es[i].waiter.callback)
    ensures !StillWaiting(es, i, j')
  {
    LatestIsWaiter(es, i, j);
  }
}
