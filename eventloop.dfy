/** The loop and conn structs that the reactors and the client work on.
    Their own source files (the event loop and the connection) are not part
    of this model: only the fields that reactor_linux.go and gnet_client.go
    read or write are kept. */
module EventLoop {

  /** The handle netpoll.OpenPoller returns; the poller itself is external. */
  datatype Poller = Poller(id: nat)

  /** One reactor: its index (0 is the loop that may run the ticker), its
      poller, its scratch read buffer and its descriptor-to-connection table. */
  class Loop {
    const idx: int
    const poller: Poller
    const packet: array<bv8>
    var connections: map<int, Conn>

    constructor (idx: int, poller: Poller, packetSize: nat)
      ensures this.idx == idx && this.poller == poller
      ensures fresh(packet) && packet.Length == packetSize
      ensures connections == map[]
    {
      this.idx := idx;
      this.poller := poller;
      this.packet := new bv8[packetSize];
      this.connections := map[];
    }
  }

  /** One connection: its descriptor, the loop that owns it, and the bytes
      still waiting in its outbound buffer. */
  class Conn {
    const fd: int
    const loop: Loop
    var outbound: seq<bv8>

    /** A new connection starts with an empty outbound buffer. */
    constructor (fd: int, loop: Loop)
      ensures this.fd == fd && this.loop == loop && outbound == []
    {
      this.fd := fd;
      this.loop := loop;
      this.outbound := [];
    }
  }
}
