/** The life of the provider's subscription to the create-flashcard channel:
    the effect subscribes when the provider mounts, the transport delivers
    payloads to the listener while it is registered, and the cleanup calls the
    unsubscribe handle. A trace of these hooks is legal when every step is one
    React and the transport take; the lemmas say what every legal trace
    satisfies. */
module Lifecycle {
  import opened Wrappers

  /** Unmounted: before the effect ran; Subscribed: the listener is
      registered; Released: the cleanup called the unsubscribe handle. */
  datatype Phase = Unmounted | Subscribed | Released

  datatype Hook = Mount | Deliver(noteName: string) | Cleanup

  /** One step; None for a step that never happens: a second mount, a delivery
      to a listener that is not registered, a cleanup with nothing to release. */
  function Step(p: Phase, h: Hook): Option<Phase> {
    match (p, h)
    case (Unmounted, Mount) => Some(Subscribed)
    case (Subscribed, Deliver(_)) => Some(Subscribed)
    case (Subscribed, Cleanup) => Some(Released)
    case _ => None
  }

  /** The phase after a trace of hooks from phase p, or None if the trace
      takes a step that never happens. */
  function Replay(p: Phase, hooks: seq<Hook>): Option<Phase>
    decreases |hooks|
  {
    if hooks == [] then Some(p)
    else
      match Replay(p, hooks[..|hooks| - 1])
      case None => None
      case Some(q) => Step(q, hooks[|hooks| - 1])
  }

  /** A trace from a provider that has not mounted yet that takes only real steps. */
  predicate Legal(hooks: seq<Hook>) {
    Replay(Unmounted, hooks).Some?
  }

  function Mounts(hooks: seq<Hook>): nat
    decreases |hooks|
  {
    if hooks == [] then 0
    else Mounts(hooks[..|hooks| - 1]) + (if hooks[|hooks| - 1].Mount? then 1 else 0)
  }

  function Cleanups(hooks: seq<Hook>): nat
    decreases |hooks|
  {
    if hooks == [] then 0
    else Cleanups(hooks[..|hooks| - 1]) + (if hooks[|hooks| - 1].Cleanup? then 1 else 0)
  }

  /** The phase of a legal trace is determined by how often it subscribed and
      released: never, subscribed once, or subscribed once and released once. */
  lemma {:induction false} PhaseCounts(hooks: seq<Hook>)
    requires Legal(hooks)
    ensures var p := Replay(Unmounted, hooks).value;
      && (p == Unmounted <==> Mounts(hooks) == 0)
      && (p == Subscribed <==> Mounts(hooks) == 1 && Cleanups(hooks) == 0)
      && (p == Released <==> Mounts(hooks) == 1 && Cleanups(hooks) == 1)
      && Cleanups(hooks) <= Mounts(hooks) <= 1
    decreases |hooks|
  {
    if hooks != [] {
      PhaseCounts(hooks[..|hooks| - 1]);
    }
  }

  /** Released exactly once: a legal trace ends released iff it mounted once
      and ran the cleanup once; no legal trace releases twice. */
  lemma ReleasedExactlyOnce(hooks: seq<Hook>)
    requires Legal(hooks)
    ensures Replay(Unmounted, hooks) == Some(Released) <==> Cleanups(hooks) == 1
    ensures Cleanups(hooks) <= 1
  {
    PhaseCounts(hooks);
  }

  /** A hook at position i counts towards the total of a trace that contains it. */
  lemma {:induction false} CleanupCounted(hooks: seq<Hook>, i: nat)
    requires i < |hooks| && hooks[i].Cleanup?
    ensures Cleanups(hooks) >= 1
    decreases |hooks|
  {
    var n := |hooks| - 1;
    if i < n {
      assert hooks[..n][i] == hooks[i];
      CleanupCounted(hooks[..n], i);
    }
  }

  /** Every payload reaches the listener while it is registered: the prefix
      before each delivery leaves the provider subscribed. */
  lemma {:induction false} DeliveriesSeeSubscribed(hooks: seq<Hook>, j: nat)
    requires Legal(hooks)
    requires j < |hooks| && hooks[j].Deliver?
    ensures Replay(Unmounted, hooks[..j]) == Some(Subscribed)
    decreases |hooks|
  {
    var n := |hooks| - 1;
    if j < n {
      assert hooks[..n][..j] == hooks[..j];
      assert hooks[..n][j] == hooks[j];
      DeliveriesSeeSubscribed(hooks[..n], j);
    }
  }

  /** After the cleanup the handler is never invoked again. */
  lemma NoDeliveryAfterCleanup(hooks: seq<Hook>, i: nat, j: nat)
    requires Legal(hooks)
    requires i < j < |hooks| && hooks[i].Cleanup?
    ensures !hooks[j].Deliver?
  {
    if hooks[j].Deliver? {
      DeliveriesSeeSubscribed(hooks, j);
      var prefix := hooks[..j];
      assert prefix[i] == hooks[i];
      CleanupCounted(prefix, i);
      PhaseCounts(prefix);
      assert false;
    }
  }
}
