/** reactor_linux.go: what each readiness callback does with an event.
    The client reactor and the server's sub-reactors look the descriptor up
    in their loop's table, then branch on whether the connection's outbound
    buffer is empty, and only then test the event mask. The accept reactor
    hands every event to acceptNewConnection. */
module Reactor {
  import opened EventLoop

  /** netpoll.InEvents and netpoll.OutEvents. Their values are not part of
      this model, so every statement here holds for any two masks. */
  datatype EventMasks = EventMasks(inEvents: bv32, outEvents: bv32)

  /** `ev&mask != 0`: the event carries at least one bit of the mask. */
  predicate HasAny(ev: bv32, mask: bv32) {
    ev & mask != 0
  }

  /** The handler a callback calls: Out is the write handler (loopOut,
      loopClientOut), In the read handler (loopIn, loopClientIn), Nothing
      means the callback returns nil without calling anything. */
  datatype Handler = Out(c: Conn) | In(c: Conn) | Nothing

  /** Which of the three a handler is, without the connection. */
  datatype Choice = WriteSide | ReadSide | NoHandler

  function ChoiceOf(h: Handler): (k: Choice) {
    match h
    case Out(_) => WriteSide
    case In(_) => ReadSide
    case Nothing => NoHandler
  }

  /** The dispatch rule on its own: it depends only on whether the
      descriptor is known, whether its outbound buffer is empty, and the mask. */
  function Decide(present: bool, outboundEmpty: bool, ev: bv32, masks: EventMasks): (k: Choice)
    ensures k == WriteSide <==> present && !outboundEmpty && HasAny(ev, masks.outEvents)
    ensures k == ReadSide <==> present && outboundEmpty && HasAny(ev, masks.inEvents)
  {
    if !present then NoHandler
    else if !outboundEmpty then (if HasAny(ev, masks.outEvents) then WriteSide else NoHandler)
    else if HasAny(ev, masks.inEvents) then ReadSide
    else NoHandler
  }

  /** The Polling callback of Client.activateMainReactor. */
  function ClientPolling(lp: Loop, fd: int, ev: bv32, masks: EventMasks): (h: Handler)
    reads lp, lp.connections.Values
    ensures fd !in lp.connections ==> h == Nothing
    ensures h != Nothing ==> fd in lp.connections && h.c == lp.connections[fd]
    ensures ChoiceOf(h) ==
      Decide(fd in lp.connections, fd in lp.connections && lp.connections[fd].outbound == [], ev, masks)
  {
    if fd in lp.connections then
      var c := lp.connections[fd];
      if c.outbound != [] then
        if HasAny(ev, masks.outEvents) then Out(c) else Nothing
      else
        if HasAny(ev, masks.inEvents) then In(c) else Nothing
    else
      Nothing
  }

  /** The Polling callback of server.activateSubReactor. */
  function SubReactorPolling(lp: Loop, fd: int, ev: bv32, masks: EventMasks): (h: Handler)
    reads lp, lp.connections.Values
    ensures fd !in lp.connections ==> h == Nothing
    ensures h != Nothing ==> fd in lp.connections && h.c == lp.connections[fd]
    ensures ChoiceOf(h) ==
      Decide(fd in lp.connections, fd in lp.connections && lp.connections[fd].outbound == [], ev, masks)
  {
    if fd in lp.connections then
      var c := lp.connections[fd];
      if c.outbound != [] then
        if HasAny(ev, masks.outEvents) then Out(c) else Nothing
      else
        if HasAny(ev, masks.inEvents) then In(c) else Nothing
    else
      Nothing
  }

  /** The ordering invariant: while output is pending the read handler never
      runs, whatever the mask; with nothing pending the write handler never
      runs. */
  lemma ReadsSuppressedWhileOutputPending(lp: Loop, fd: int, ev: bv32, masks: EventMasks)
    requires fd in lp.connections
    ensures lp.connections[fd].outbound != [] ==>
              !ClientPolling(lp, fd, ev, masks).In? && !SubReactorPolling(lp, fd, ev, masks).In?
    ensures lp.connections[fd].outbound == [] ==>
              !ClientPolling(lp, fd, ev, masks).Out? && !SubReactorPolling(lp, fd, ev, masks).Out?
  {
  }

  /** With output pending, the write handler runs exactly when the mask has
      an OutEvents bit; with nothing pending, the read handler runs exactly
      when it has an InEvents bit. */
  lemma HandlerRunsWhenBitSet(lp: Loop, fd: int, ev: bv32, masks: EventMasks)
    requires fd in lp.connections
    ensures var c := lp.connections[fd];
            c.outbound != [] ==> (ClientPolling(lp, fd, ev, masks) == Out(c) <==> HasAny(ev, masks.outEvents))
    ensures var c := lp.connections[fd];
            c.outbound == [] ==> (ClientPolling(lp, fd, ev, masks) == In(c) <==> HasAny(ev, masks.inEvents))
  {
  }

  /** The client reactor and a server sub-reactor decide alike. */
  lemma ClientAndSubReactorAgree(lp: Loop, fd: int, ev: bv32, masks: EventMasks)
    ensures ClientPolling(lp, fd, ev, masks) == SubReactorPolling(lp, fd, ev, masks)
  {
  }

  /** The decision depends on nothing but presence, emptiness and the mask:
      two loops that agree on those make the same choice. */
  lemma DecisionDependsOnlyOnThree(lp1: Loop, fd1: int, lp2: Loop, fd2: int, ev: bv32, masks: EventMasks)
    requires (fd1 in lp1.connections) == (fd2 in lp2.connections)
    requires fd1 in lp1.connections ==>
               (lp1.connections[fd1].outbound == []) == (lp2.connections[fd2].outbound == [])
    ensures ChoiceOf(ClientPolling(lp1, fd1, ev, masks)) == ChoiceOf(SubReactorPolling(lp2, fd2, ev, masks))
  {
  }

  /** The guard in front of `go lp.loopTicker()`: the ticker goroutine starts
      only on loop 0 and only with the Ticker option. */
  predicate StartsTicker(idx: int, ticker: bool) {
    idx == 0 && ticker
  }

  /** The accept reactor's only call. */
  datatype AcceptCall = AcceptNewConnection(fd: int)

  /** The Polling callback of server.activateMainReactor. */
  function MainReactorPolling(fd: int, ev: bv32): (call: AcceptCall)
    ensures call.fd == fd
  {
    AcceptNewConnection(fd)
  }

  /** The mask plays no part in what the accept reactor does. */
  lemma AcceptIgnoresMask(fd: int, ev1: bv32, ev2: bv32)
    ensures MainReactorPolling(fd, ev1) == MainReactorPolling(fd, ev2)
  {
  }
}
