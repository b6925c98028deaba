/** gnet.go: the Action codes user callbacks return, the no-op default
    callbacks of EventServer, and the parsing of `scheme://address` strings. */
module Gnet {
  import opened GoStrings

  /** Action is a Go `int`; the three named codes come from `iota`. */
  newtype Action = int

  const None: Action := 0
  const Close: Action := 1
  const Shutdown: Action := 2

  lemma ActionCodes()
    ensures None as int == 0 && Close as int == 1 && Shutdown as int == 2
    ensures None != Close && Close != Shutdown && None != Shutdown
  {
  }

  /** Bytes handed back to the engine to be written out. */
  type Bytes = seq<bv8>

  /** The (out, action) pair that OnOpened and React return. */
  datatype Reply = Reply(out: Bytes, action: Action)

  /** The (delay, action) pair that Tick returns; the delay is a plain
      integer standing for a time.Duration. */
  datatype TickReply = TickReply(delay: int, action: Action)

  /** The connection as Connect hands it to the client: its descriptor and
      the parsed network and address. */
  datatype Connection = Connection(fd: int, network: string, address: string)

  /** EventServer: every callback returns Go's zero values, that is no
      output, no delay and the action None. The argument types are left
      generic because the defaults never look at their arguments. */
  datatype EventServer = EventServer {

    function OnInitComplete<S>(svr: S): (action: Action)
      ensures action == None
    {
      None
    }

    function OnOpened<C>(c: C): (r: Reply)
      ensures r.out == [] && r.action == None
    {
      Reply([], None)
    }

    function OnClosed<C, E>(c: C, err: E): (action: Action)
      ensures action == None
    {
      None
    }

    /** PreWrite does nothing. */
    method PreWrite()
    {
    }

    function React<C>(c: C): (r: Reply)
      ensures r.out == [] && r.action == None
    {
      Reply([], None)
    }

    function Tick(): (r: TickReply)
      ensures r.delay == 0 && r.action == None
    {
      TickReply(0, None)
    }

    function OnConnectionEstablished<K>(c: K): (action: Action)
      ensures action == None
    {
      None
    }
  }

  const Separator := "://"
  const DefaultNetwork := "tcp"

  /** A parsed address: the network scheme and the address proper. */
  datatype Target = Target(network: string, address: string)

  /** The separator has no proper prefix that is also a suffix, so an
      occurrence cannot straddle the end of a separator-free text. */
  lemma SeparatorAfter(n: string, h: string)
    requires !Contains(n, Separator)
    ensures Index(n + Separator + h, Separator) == |n|
  {
    var s := n + Separator + h;
    assert s[|n|..|n| + 3] == Separator;
    assert OccursAt(s, Separator, |n|);
    forall j | 0 <= j < |n|
      ensures !OccursAt(s, Separator, j)
    {
      if j + 3 <= |n| {
        assert n[j..j + 3] == s[j..j + 3];
        assert !OccursAt(n, Separator, j);
      } else if j == |n| - 1 {
        assert s[j..j + 3][1] == s[|n|] == ':';
      } else {
        assert s[j..j + 3][2] == s[|n|] == ':';
      }
    }
  }

  /** parseAddr: "tcp" and the input unchanged when there is no "://";
      otherwise the texts before the first and between the first and second
      occurrence of it. */
  function ParseAddr(addr: string): (r: Target)
    ensures !Contains(addr, Separator) ==> r == Target(DefaultNetwork, addr)
    ensures Contains(addr, Separator) ==> r.network == addr[..Index(addr, Separator)]
    ensures !Contains(r.network, Separator) && !Contains(r.address, Separator)
  {
    assert !Contains(DefaultNetwork, Separator) by {
      forall j
        ensures !OccursAt(DefaultNetwork, Separator, j)
      {
        if 0 <= j && j + 3 <= |DefaultNetwork| {
          assert DefaultNetwork[j..j + 3][0] == 't';
        }
      }
    }
    if Contains(addr, Separator) then
      Target(Split(addr, Separator)[0], Split(addr, Separator)[1])
    else
      Target(DefaultNetwork, addr)
  }

  /** What follows the first separator. */
  function AfterFirst(addr: string): (rest: string)
    requires Contains(addr, Separator)
  {
    addr[Index(addr, Separator) + |Separator|..]
  }

  /** The address is the segment between the first and the second "://",
      or everything after the first one when there is no second. */
  lemma ParseAddrSegment(addr: string)
    requires Contains(addr, Separator)
    ensures var rest := AfterFirst(addr);
            ParseAddr(addr).address ==
              if Contains(rest, Separator) then rest[..Index(rest, Separator)] else rest
  {
    var rest := AfterFirst(addr);
    assert Split(addr, Separator) == [addr[..Index(addr, Separator)]] + Split(rest, Separator);
  }

  /** With a single "://", network, separator and address give back the input. */
  lemma ParseAddrExact(addr: string)
    requires Contains(addr, Separator) && !Contains(AfterFirst(addr), Separator)
    ensures var t := ParseAddr(addr); t.network + Separator + t.address == addr
  {
    var i := Index(addr, Separator);
    ParseAddrSegment(addr);
    assert addr == addr[..i] + addr[i..i + 3] + addr[i + 3..];
  }

  /** With a second "://", everything from it on is dropped. */
  lemma ParseAddrDropsTail(addr: string)
    requires Contains(addr, Separator) && Contains(AfterFirst(addr), Separator)
    ensures var t := ParseAddr(addr);
            var rest := AfterFirst(addr);
            addr == t.network + Separator + t.address + Separator
                    + rest[Index(rest, Separator) + |Separator|..]
  {
    var i := Index(addr, Separator);
    var rest := AfterFirst(addr);
    var j := Index(rest, Separator);
    ParseAddrSegment(addr);
    assert addr == addr[..i] + addr[i..i + 3] + rest;
    assert rest == rest[..j] + rest[j..j + 3] + rest[j + 3..];
  }

  /** Round trip: a network and an address free of "://" come back intact. */
  lemma {:induction false} ParseAddrRoundTrip(network: string, address: string)
    requires !Contains(network, Separator) && !Contains(address, Separator)
    ensures ParseAddr(network + Separator + address) == Target(network, address)
  {
    var s := network + Separator + address;
    SeparatorAfter(network, address);
    assert s[..|network|] == network;
    assert AfterFirst(s) == address;
    ParseAddrSegment(s);
  }

  /** Parsing the returned address again yields the default network and the
      address unchanged. */
  lemma ParseAddrReparse(addr: string)
    ensures ParseAddr(ParseAddr(addr).address) == Target(DefaultNetwork, ParseAddr(addr).address)
  {
  }

  /** Writing a parse result out in full form and parsing it again gives the
      same result. */
  lemma ParseAddrCanonical(addr: string)
    ensures var t := ParseAddr(addr);
            ParseAddr(t.network + Separator + t.address) == t
  {
    var t := ParseAddr(addr);
    ParseAddrRoundTrip(t.network, t.address);
  }
}
