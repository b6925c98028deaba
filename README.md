# gnet core: reactor dispatch, address parsing, options and the client

A Dafny model of the core of gnet, an event-driven network engine. gnet runs a
small pool of single-threaded reactors. Each reactor polls many sockets and
hands every readiness event to a read or a write handler, following one fixed
rule. The model covers four parts:

- **Reactor dispatch** (`reactor.dfy`, module `Reactor`). These are the
  Polling callbacks of the client reactor, the server sub-reactors and the
  accept reactor. The load-bearing rule: look the descriptor up in the loop's
  table, branch on whether its outbound buffer is empty, and only then test
  the event mask. So while output is pending, reads are suppressed. The
  `InEvents`/`OutEvents` masks are parameters, so every result holds for any
  mask values.
- **Address parsing** (`gnet.dfy`, module `Gnet`, on top of `strings.dfy`,
  module `GoStrings`). `parseAddr` splits on `"://"` and defaults to `"tcp"`.
  The module also has the `Action` codes and the no-op `EventServer`
  callbacks. `GoStrings` models Go's `strings.Index`, `Contains` and `Split`,
  plus `Join`, which undoes `Split`.
- **Functional options** (`options.dfy`, module `GnetOptions`). Each `With*`
  closure is a constructor of the `Option` datatype, and `Apply` runs it on a
  record. `initOptions` is a loop that folds the options over the zero record.
  Lemmas state the frame properties, left-to-right application, last writer
  wins, idempotence, commutation, and that `WithOptions` discards what came
  before it.
- **Client orchestrator** (`client.dfy`, module `GnetClient`; `eventloop.dfy`,
  module `EventLoop`). `Client` is a class whose fields the methods update,
  and its loop's table is a `map` field. It covers the once-guarded shutdown
  signal (a flag plus a signal counter), `activateReactors`, codec defaulting,
  the order of the steps in `stop` with its `mainLoop != nil` guards,
  `connect`, and `Write`.

The client's externally visible steps are recorded, in order, in its field
`trace`: poller registration, spawning the reactor, the callbacks, injecting
the shutdown job, the waits, closing the poller, and writes. Blocking waits are
preconditions. `stop` requires that the signal has been delivered (`once`) and
that the wait group is at zero (`running == 0`). The reactor goroutine's body
is the method `RunMainReactor`. `Connect` runs it after
`OnConnectionEstablished` and before `stop`'s steps. `stop` returns only after
the goroutine's `wg.Done`. The model records each wait at the moment it
returns, not when it starts. So the trace is one Go can produce, but the model
does not capture that Go's `cond.Wait` must start before `Polled`, because a
`sync.Cond` keeps no record of a signal sent while nobody waits.

Two facts about `connect` and `Write` that the model relies on:

- `connect` ignores the Action that `OnConnectionEstablished` returns
  (gnet_client.go:130-136): every case of the switch on it returns nil, and
  the deferred `stop` runs. `Connect`'s trace therefore has the same steps
  whatever the Action.
- `cl.conn` is set in `activateReactors` (gnet_client.go:68), before that
  callback runs. `Client.Write` requires `conn != null`, which holds wherever
  a user can hold a `*Client`.

## Model

| member | source | states |
|---|---|---|
| GoStrings.Contains | gnet.go:310 | true exactly when the separator occurs somewhere in the text |
| GoStrings.Index | gnet.go:310 | the result is -1 exactly when no occurrence exists, and otherwise the first occurrence |
| GoStrings.Split | gnet.go:311-312 | at least one piece; exactly one (the input) iff there is no separator; with a separator the first piece is the text before its first occurrence; no piece contains the separator; joining the pieces gives the input back |
| Gnet.ActionCodes | gnet.go:27-36 | None = 0, Close = 1, Shutdown = 2, all distinct |
| Gnet.EventServer.OnInitComplete | gnet.go:163-165 | the default returns None |
| Gnet.EventServer.OnOpened | gnet.go:171-173 | the default returns no output and None |
| Gnet.EventServer.OnClosed | gnet.go:177-179 | the default returns None |
| Gnet.EventServer.PreWrite | gnet.go:182-183 | the default does nothing: it has no result and changes no state |
| Gnet.EventServer.React | gnet.go:188-190 | the default returns no output and None |
| Gnet.EventServer.Tick | gnet.go:194-196 | the default returns zero delay and None |
| Gnet.EventServer.OnConnectionEstablished | gnet.go:198-200 | the default returns None |
| Gnet.ParseAddr | gnet.go:307-315 | without "://" the result is ("tcp", input unchanged); with it the network is the text before the first occurrence; neither part ever contains "://" |
| Gnet.ParseAddrSegment | gnet.go:310-312 | the address is the text between the first and second "://", or all of the rest when there is no second |
| Gnet.ParseAddrExact | gnet.go:310-313 | with exactly one "://", network + "://" + address is the input |
| Gnet.ParseAddrDropsTail | gnet.go:312 | with a second "://", the input is network + "://" + address + "://" + a tail that the result drops |
| Gnet.SeparatorAfter | gnet.go:310 | in n + "://" + h with n free of "://", the first occurrence is at position length of n |
| Gnet.ParseAddrRoundTrip | gnet.go:310-313 | for network and address free of "://", parsing network + "://" + address gives them back |
| Gnet.ParseAddrReparse | gnet.go:307-315 | parsing the returned address again gives ("tcp", that address) |
| Gnet.ParseAddrCanonical | gnet.go:307-315 | writing a result out as network://address and parsing it again gives the same result |
| GnetOptions.Apply | options.go:44-83 | WithOptions replaces the whole record; every other setter gives its own field its value and leaves every other field unchanged |
| GnetOptions.InitOptions | options.go:14-20 | the loop's result is the options applied in order to the zero record; with no options it is the zero record (false flags, zero keep-alive, nil codec) |
| GnetOptions.ApplyAllAppend | options.go:16-18 | applying s then t is applying s + t |
| GnetOptions.InitOptionsFirstFirst | options.go:16-18 | the first option is applied to the zero record first, the rest to its result |
| GnetOptions.WithOptionsDiscards | options.go:44-48 | WithOptions(x) discards everything applied before it: the result is x with the later options applied |
| GnetOptions.ApplyAllFrame | options.go:51-83 | options that do not touch a field leave it as it was |
| GnetOptions.LastWriterWins | options.go:16-18 | the last setter of a field decides its value |
| GnetOptions.SameFieldOverwrites | options.go:51-83 | of two setters of one field, only the second counts |
| GnetOptions.ApplyIdempotent | options.go:44-83 | applying a setter twice equals applying it once |
| GnetOptions.DistinctFieldsCommute | options.go:51-83 | setters of different fields commute |
| EventLoop.Loop.constructor | gnet_client.go:57-63 | a loop with the given index and poller, a fresh scratch buffer of the given size, and an empty table |
| EventLoop.Conn.constructor | gnet_client.go:68 | a connection with the given descriptor and owning loop and an empty outbound buffer |
| Reactor.Decide | reactor_linux.go:24-38 | the write handler exactly when known, output pending and an OutEvents bit; the read handler exactly when known, nothing pending and an InEvents bit; otherwise nothing |
| Reactor.ClientPolling | reactor_linux.go:22-42 | an unknown descriptor calls nothing; a handler only ever gets the table's connection; the choice is Decide of presence, emptiness and mask |
| Reactor.SubReactorPolling | reactor_linux.go:60-79 | the same three facts for the server sub-reactor |
| Reactor.ReadsSuppressedWhileOutputPending | reactor_linux.go:24-38 | with output pending the read handler never runs, whatever the mask; with none pending the write handler never runs; on both reactors |
| Reactor.HandlerRunsWhenBitSet | reactor_linux.go:28-37 | with output pending the write handler runs iff the mask has an OutEvents bit; with none pending the read handler runs iff it has an InEvents bit |
| Reactor.ClientAndSubReactorAgree | reactor_linux.go:60-79 | the server sub-reactor makes the same call as the client reactor (lines 22-42) for every loop, descriptor and mask |
| Reactor.DecisionDependsOnlyOnThree | reactor_linux.go:24-38 | two lookups that agree on presence and emptiness make the same choice for the same mask |
| Reactor.StartsTicker | reactor_linux.go:56-58 | the guard `idx == 0 && Ticker` in front of `go loopTicker()`, the same guard as the client's at reactor_linux.go:18; `GnetClient.Client.RunMainReactor`'s ensures add the ticker step exactly when it holds |
| Reactor.MainReactorPolling | reactor_linux.go:48-50 | every event goes to acceptNewConnection for its descriptor |
| Reactor.AcceptIgnoresMask | reactor_linux.go:48-50 | what the accept reactor does does not depend on the mask |
| GnetClient.SelectCodec | gnet_client.go:117-122 | BuiltInFrameCodec when the configured codec is nil, the configured one otherwise; never nil |
| GnetClient.Client.constructor | gnet_client.go:106-122 | a client with the given connection and options, the selected codec, no loop, no signal and an empty trace |
| GnetClient.Client.SignalShutdown | gnet_client.go:47-53 | after any number of calls the signal has been delivered exactly once; only the first call adds a Signal step |
| GnetClient.Client.ActivateReactors | gnet_client.go:55-82 | on a poller: loop 0, a 0xFFFF-byte scratch buffer, a table of exactly fd -> conn, conn the same entry, AddRead then spawn; on an error: that error returned and loop, conn, counter and trace unchanged |
| GnetClient.Client.Start | gnet_client.go:84-86 | the outcome of ActivateReactors |
| GnetClient.Client.RunMainReactor | reactor_linux.go:15-42 | the goroutine started at gnet_client.go:73-76: the ticker step exactly when `StartsTicker` holds, then the Polling call returning, then (deferred) the signal if not yet sent, then `wg.Done`, so the wait group drops by one |
| GnetClient.Client.Stop | gnet_client.go:88-104 | await the signal, inject the shutdown job, await the reactor, close the poller, in that order; inject and close only when mainLoop is not nil |
| GnetClient.Client.Close | gnet_client.go:37-39 | the steps of stop |
| GnetClient.Client.Write | gnet_client.go:25-27 | one write of the bytes to the connection the loop's table holds for the client's descriptor, and no other change |
| GnetClient.ClientTickerFollowsOption | reactor_linux.go:18-20 | on the client's loop 0, the ticker starts iff the Ticker option is on |
| GnetClient.ClientDispatchesOwnConn | reactor_linux.go:22-42 | the client reactor calls nothing for any other descriptor and only ever hands its handlers the client's connection |
| GnetClient.Connect | gnet_client.go:106-137 | on a poller error: that error, no loop and no step, so no connection-established callback; otherwise nil, and AddRead, spawn, then the callback exactly once, the reactor's run, and stop's four steps |

## Left out

- `Serve` and `Connect` in gnet.go (listen, dial, `File()`, `SetNonblock`, removing the unix socket path): operating-system I/O. The parsed connection is an input to `GnetClient.Connect`.
- Concurrency: the reactor goroutine, `sync.WaitGroup` and `sync.Cond`. Waits are preconditions, and the goroutine runs at one fixed point in `Connect`. So the model does not capture interleavings. Two things it misses:
  - `sync.Cond.Signal` wakes nobody when no one is waiting yet. If the reactor's polling ended before `stop` began to wait, the Go `stop` would block for good, while the model's `Stop` returns.
  - `GnetClient.Client.Stop` requires `running == 0` on entry, so `wg.Wait`'s condition is moved ahead of the `Trigger` step (gnet_client.go:92-99). Every model trace therefore has `ReactorDone` before `InjectShutdown`. In Go the goroutine's `wg.Done` may come after the `Trigger`. In both, the signal is deferred until `Polling` has returned, so the shutdown job is injected after polling has ended.
- The netpoll poller (`OpenPoller`, `Polling`, `AddRead`, `Trigger`, `Close`): an external library. The result of `OpenPoller` is a parameter. The other calls are recorded as steps, and the errors they return are ignored, as in the source. The values of `InEvents` and `OutEvents` are not in these files, so the masks are parameters.
- `Reactor.ClientPolling`, `Reactor.SubReactorPolling`: these model the choice of handler only. The handlers (`loopIn`, `loopOut`, `loopClientIn`, `loopClientOut`, `acceptNewConnection`, `loopTicker`) and the errors they return are not in these files. Neither is the polling loop that calls the callbacks.
- The conn type, its write path and the ring buffer are not in these files. A connection's outbound buffer is the sequence of its bytes, and only its emptiness is used. `GnetClient.Client.Write` records the hand-off to `conn.write` without modelling what that does.
- The ICodec implementations are not part of this model. A codec is an opaque value: nil, the built-in frame codec or a user codec.
- `sniffError` and the `log.Printf` in `connect`: logging only.
- `time.Duration`: keep-alive and tick delay are plain integers.
- `LocalAddr` and `RemoteAddr` of the client: they only forward to the Go `net.Conn`.
- The client's `bytesPool`, its stored event handler and the loop's back-reference to the client: no behaviour in these files depends on them. The connection-established callback's Action is an input to `Connect`.
- The server orchestrator beyond its Polling callbacks, and the `Conn` and `EventHandler` interface declarations of gnet.go: the server struct is not in these files, and the interfaces declare no behaviour.
- `GoStrings.Index`, `GoStrings.Split`, `Gnet.ParseAddr`: Go strings are byte strings, and the model's `string` is a sequence of Unicode characters. The pieces are the same texts and the split falls at the same place, because the separator `"://"` and the default `"tcp"` are ASCII: each of their characters is one byte, and in UTF-8 an ASCII byte never occurs inside a multi-byte character. `Index`'s number counts characters, not bytes, so it differs from Go's byte offset when non-ASCII text precedes the separator. Go strings that are not valid UTF-8 have no `string` counterpart here.
- `GnetOptions.InitOptions`: `Option` is an exported `func(*Options)` type (options.go:12), so users can write their own options. The model's `Option` datatype has only the six `With*` closures. Options written by users are outside `InitOptions` and outside the frame and last-writer lemmas.
- `EventLoop.Conn.constructor`: it ensures that a new connection's outbound buffer is empty. `newClientConn` (called at gnet_client.go:68) is not in these files, so this is an assumption about its body, not something the source shows.
- `GoStrings.Split`, `GoStrings.Index`: modelled for a non-empty separator only. `parseAddr` always passes `"://"`, so Go's rules for an empty separator are never exercised.
- examples/tcp-client/client.go and examples/udp-client/client.go: demonstration programs driven by standard input.
