/** gnet_client.go: the client orchestrator, one connection and one
    reactor. The reactor goroutine, the condition variable and the wait
    group are not run concurrently here: each blocking wait is a
    precondition saying what must have happened for the wait to return, and
    the goroutine's body is a method that Connect runs at the point where the
    client's own thread depends on it. What the client does with the
    poller and the connection is recorded, in order, in `trace`. */
module GnetClient {
  import opened Gnet
  import opened GnetOptions
  import opened EventLoop
  import opened Reactor

  /** An error from netpoll.OpenPoller; its content is opaque. */
  datatype PollerError = PollerError(code: int)

  /** What netpoll.OpenPoller gives back. */
  datatype OpenResult = Opened(poller: Poller) | OpenFailed(error: PollerError)

  /** The Go `error` result: nil, or the poller's error. */
  datatype Status = Ok | Err(error: PollerError)

  /** The externally visible steps of the client, in the order taken. */
  datatype Step =
    | AddRead(fd: int)              // lp.poller.AddRead(cl.connection.fd)
    | SpawnReactor                  // cl.wg.Add(1) and the `go` statement
    | StartTicker                   // go cl.mainLoop.loopTicker()
    | Polled                        // Polling returned
    | Signal                        // cond.Signal inside once.Do
    | ReactorDone                   // cl.wg.Done()
    | Established(action: Action)   // OnConnectionEstablished returned action
    | AwaitShutdown                 // waitForShutdown returned
    | InjectShutdown                // poller.Trigger of the errShutdown job
    | AwaitReactors                 // cl.wg.Wait() returned
    | ClosePoller                   // poller.Close()
    | WriteTo(target: Conn, payload: Bytes)  // cl.conn.write(b)

  /** The codec connect settles on: the built-in frame codec when none was
      configured, the configured one otherwise. */
  function SelectCodec(configured: Codec): (codec: Codec)
    ensures codec != NilCodec
    ensures configured == NilCodec ==> codec == BuiltInFrameCodec
    ensures configured != NilCodec ==> codec == configured
  {
    if configured == NilCodec then BuiltInFrameCodec else configured
  }

  /** The scratch read buffer of the client's loop. */
  const PacketSize := 0xFFFF

  /** The steps RunMainReactor adds. */
  function ReactorRun(tickerStarts: bool, signalled: bool): (steps: seq<Step>) {
    (if tickerStarts then [StartTicker] else []) + [Polled]
    + (if signalled then [] else [Signal]) + [ReactorDone]
  }

  /** The steps Stop adds, the poller steps only when there is a loop. */
  function StopSteps(hasLoop: bool): (steps: seq<Step>) {
    [AwaitShutdown] + (if hasLoop then [InjectShutdown] else []) + [AwaitReactors]
    + (if hasLoop then [ClosePoller] else [])
  }

  class Client {
    const connection: Connection
    const opts: Options
    const codec: Codec
    var mainLoop: Loop?
    var conn: Conn?
    var once: bool      // the sync.Once has run its function
    var signals: nat    // cond.Signal deliveries
    var running: nat    // the wait group's counter
    var trace: seq<Step>

    /** The signal is delivered exactly when the once has fired, hence at
        most once; a loop, when there is one, is loop 0 with a 0xFFFF-byte
        scratch buffer whose table holds exactly fd -> conn. */
    ghost predicate Valid()
      reads this, mainLoop, conn
    {
      && signals == (if once then 1 else 0)
      && codec == SelectCodec(opts.codec)
      && (mainLoop == null <==> conn == null)
      && (mainLoop != null ==>
            && mainLoop.idx == 0
            && mainLoop.packet.Length == PacketSize
            && conn != null
            && mainLoop.connections == map[connection.fd := conn]
            && conn.fd == connection.fd
            && conn.loop == mainLoop)
      && (running > 0 ==> mainLoop != null)
    }

    /** The first lines of connect: a new Client with its handler, options,
        connection, condition variable and codec. */
    constructor (connection: Connection, options: Options)
      ensures Valid()
      ensures this.connection == connection && opts == options
      ensures codec == SelectCodec(options.codec)
      ensures mainLoop == null && conn == null
      ensures !once && signals == 0 && running == 0 && trace == []
    {
      this.connection := connection;
      this.opts := options;
      this.codec := SelectCodec(options.codec);
      mainLoop := null;
      conn := null;
      once := false;
      signals := 0;
      running := 0;
      trace := [];
    }

    /** signalShutdown: the guarded function runs on the first call only. */
    method SignalShutdown()
      requires Valid()
      modifies this`once, this`signals, this`trace
      ensures Valid()
      ensures once && signals == 1
      ensures trace == old(trace) + (if old(once) then [] else [Signal])
    {
      if !once {
        once := true;
        signals := signals + 1;
        trace := trace + [Signal];
      }
    }

    /** activateReactors: on a poller, builds loop 0, registers the
        descriptor, creates the connection, enters it in the loop's table and
        starts the reactor; on an error, returns it and changes nothing. */
    method ActivateReactors(open: OpenResult) returns (status: Status)
      requires Valid()
      modifies this
      ensures Valid()
      ensures once == old(once) && signals == old(signals)
      ensures open.OpenFailed? ==>
                && status == Err(open.error)
                && mainLoop == old(mainLoop) && conn == old(conn)
                && running == old(running) && trace == old(trace)
      ensures open.Opened? ==>
                && status == Ok
                && mainLoop != null && fresh(mainLoop) && conn != null && fresh(conn)
                && mainLoop.idx == 0 && mainLoop.poller == open.poller
                && mainLoop.packet.Length == PacketSize
                && mainLoop.connections == map[connection.fd := conn]
                && conn.fd == connection.fd && conn.loop == mainLoop && conn.outbound == []
                && running == old(running) + 1
                && trace == old(trace) + [AddRead(connection.fd), SpawnReactor]
    {
      match open
      case OpenFailed(e) =>
        status := Err(e);
      case Opened(p) =>
        var lp := new Loop(0, p, PacketSize);
        trace := trace + [AddRead(connection.fd)];
        mainLoop := lp;
        var c := new Conn(connection.fd, lp);
        conn := c;
        lp.connections := lp.connections[connection.fd := c];
        running := running + 1;
        trace := trace + [SpawnReactor];
        status := Ok;
    }

    /** start, which is activateReactors. */
    method Start(open: OpenResult) returns (status: Status)
      requires Valid()
      modifies this
      ensures Valid()
      ensures once == old(once) && signals == old(signals)
      ensures open.OpenFailed? ==>
                && status == Err(open.error)
                && mainLoop == old(mainLoop) && conn == old(conn)
                && running == old(running) && trace == old(trace)
      ensures open.Opened? ==>
                && status == Ok && mainLoop != null && fresh(mainLoop) && fresh(conn)
                && mainLoop.poller == open.poller
                && running == old(running) + 1
                && trace == old(trace) + [AddRead(connection.fd), SpawnReactor]
    {
      status := ActivateReactors(open);
    }

    /** The reactor goroutine: activateMainReactor, which starts the ticker
        when the guard holds, polls until the poller stops and then, deferred,
        signals shutdown; after it, wg.Done. */
    method RunMainReactor()
      requires Valid() && mainLoop != null && running > 0
      modifies this`once, this`signals, this`running, this`trace
      ensures Valid()
      ensures once && signals == 1 && running == old(running) - 1
      ensures trace == old(trace) + ReactorRun(StartsTicker(mainLoop.idx, opts.ticker), old(once))
    {
      if StartsTicker(mainLoop.idx, opts.ticker) {
        trace := trace + [StartTicker];
      }
      trace := trace + [Polled];
      SignalShutdown();
      running := running - 1;
      trace := trace + [ReactorDone];
    }

    /** stop: wait for the shutdown signal, inject the shutdown job, wait for
        the reactor, close the poller; both poller steps only when mainLoop is
        not nil. The waits return only once the signal has been delivered
        and the wait group has dropped to zero. */
    method Stop()
      requires Valid() && once && running == 0
      modifies this`trace
      ensures trace == old(trace) + StopSteps(mainLoop != null)
    {
      trace := trace + [AwaitShutdown];
      if mainLoop != null {
        trace := trace + [InjectShutdown];
      }
      trace := trace + [AwaitReactors];
      if mainLoop != null {
        trace := trace + [ClosePoller];
      }
    }

    /** Close, which is stop. */
    method Close()
      requires Valid() && once && running == 0
      modifies this`trace
      ensures trace == old(trace) + StopSteps(mainLoop != null)
    {
      Stop();
    }

    /** Write hands the bytes to the write path of the connection that the
        loop's table holds for the client's descriptor, and does nothing else. */
    method Write(b: Bytes)
      requires Valid() && conn != null
      modifies this`trace
      ensures mainLoop != null && conn == mainLoop.connections[connection.fd]
      ensures trace == old(trace) + [WriteTo(conn, b)]
    {
      trace := trace + [WriteTo(conn, b)];
    }
  }

  /** On a valid client whose loop exists, loop 0 means the ticker starts
      exactly when the Ticker option is on. */
  lemma ClientTickerFollowsOption(cl: Client)
    requires cl.Valid() && cl.mainLoop != null
    ensures StartsTicker(cl.mainLoop.idx, cl.opts.ticker) == cl.opts.ticker
  {
  }

  /** The client's reactor dispatches only for the client's own descriptor,
      and only to the client's connection. */
  lemma ClientDispatchesOwnConn(cl: Client, fd: int, ev: bv32, masks: EventMasks)
    requires cl.Valid() && cl.mainLoop != null
    ensures fd != cl.connection.fd ==> ClientPolling(cl.mainLoop, fd, ev, masks) == Nothing
    ensures ClientPolling(cl.mainLoop, fd, ev, masks) != Nothing ==>
              ClientPolling(cl.mainLoop, fd, ev, masks).c == cl.conn
  {
  }

  /** connect: build the client, start it and, on an error, return that
      error without calling OnConnectionEstablished. Otherwise call it once
      with the client (`established` is the Action it returns); every
      outcome of the switch on that Action returns nil, and the deferred stop
      runs. The reactor goroutine's body is run before stop's steps; stop
      returns only after the goroutine's wg.Done. Each wait is recorded when
      it returns, not when it starts, so the model does not capture that
      cond.Wait must already be waiting when the deferred signal fires. */
  method Connect(connection: Connection, options: Options, open: OpenResult, established: Action)
    returns (cl: Client, status: Status)
    ensures fresh(cl) && cl.Valid()
    ensures cl.connection == connection && cl.opts == options
    ensures cl.codec == SelectCodec(options.codec)
    ensures open.OpenFailed? ==>
              status == Err(open.error) && cl.mainLoop == null && cl.trace == []
    ensures open.Opened? ==>
              && status == Ok
              && cl.mainLoop != null && cl.mainLoop.poller == open.poller
              && cl.trace == [AddRead(connection.fd), SpawnReactor, Established(established)]
                             + ReactorRun(options.ticker, false)
                             + StopSteps(true)
  {
    cl := new Client(connection, options);
    status := cl.Start(open);
    if status.Err? {
      return;
    }
    cl.trace := cl.trace + [Established(established)];
    // The switch of connect: None, Shutdown and every other Action alike
    // lead to `return nil`.
    status := Ok;
    cl.RunMainReactor();
    cl.Stop();
  }
}
