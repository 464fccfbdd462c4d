/**
 * The `CultureInfoChanged` event of the platform cultures: an invocation list
 * of handlers, each of which keeps a log of the cultures it was handed.
 */
module Events {
  import opened Localization

  /** A handler of a culture change event that records every culture it receives. */
  class Listener {
    var received: seq<CultureName>

    constructor ()
      ensures received == []
    {
      received := [];
    }

    method OnCultureInfoChanged(e: CultureInfoChangedEventArgs)
      modifies this
      ensures received == old(received) + [e.newCultureInfo]
    {
      received := received + [e.newCultureInfo];
    }
  }

  /**
   * `CultureInfoChanged?.Invoke(this, e)`: every handler of the invocation list
   * is called in subscription order with the same event; a handler subscribed
   * n times is called n times. An empty list raises nothing.
   */
  method Raise(handlers: seq<Listener>, e: CultureInfoChangedEventArgs)
    modifies set l | l in handlers
    ensures forall l :: l in handlers ==>
      l.received == old(l.received) + Repeat(e.newCultureInfo, multiset(handlers)[l])
  {
    var i := 0;
    while i < |handlers|
      invariant 0 <= i <= |handlers|
      invariant forall l :: l in handlers ==>
        l.received == old(l.received) + Repeat(e.newCultureInfo, multiset(handlers[..i])[l])
    {
      handlers[i].OnCultureInfoChanged(e);
      assert handlers[..i + 1] == handlers[..i] + [handlers[i]];
      i := i + 1;
    }
    assert handlers[..i] == handlers;
  }
}
