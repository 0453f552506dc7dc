/** The path of a visitor's bytes on a clean run: internal/node/node.go
    handleTLS, internal/agent/agent.go handle, and the copying of
    internal/pipe/pipe.go between them. */
module BytePath {
  import opened AgentConfig
  import opened Basics
  import Pipe
  import opened ProxyProto
  import opened Sni
  import opened Stream
  import opened Text

  /** Join without errors, both ends half-closing: the two copiers take turns
      in any order, each moving one chunk of any size, until both sources end.
      Its turns are a run of the interleaved copiers of Pipe, and what it
      delivers is what that run does. */
  method Join(a: PrefixConn, b: Conn) returns (ghost run: seq<Pipe.Event>, ghost h: Pipe.Halfway)
    requires a.conn != b
    modifies a, a.conn, b
    ensures Pipe.CleanRun(run, old(a.Unread()), old(b.incoming), h.toA, h.toB)
    ensures b.outgoing == old(b.outgoing) + h.toB && a.conn.outgoing == old(a.conn.outgoing) + h.toA
    ensures h.toB == old(a.Unread()) && h.toA == old(b.incoming)
    ensures !a.conn.open && !b.open
  {
    h := Pipe.Halfway(a.Unread(), b.incoming, a.Unread(), b.incoming, [], []);
    run := Pipe.FilledRun(a.Unread(), b.incoming);
    while a.Unread() != [] || b.incoming != []
      invariant Pipe.Reached(run, h) && h.leftA == a.Unread() && h.leftB == b.incoming
      invariant h.sentA == old(a.Unread()) && h.sentB == old(b.incoming)
      invariant b.outgoing == old(b.outgoing) + h.toB
      invariant a.conn.outgoing == old(a.conn.outgoing) + h.toA
      decreases |a.Unread()| + |b.incoming|
    {
      var max :| max > 0;
      var forward := *;
      if b.incoming == [] || (a.Unread() != [] && forward) {
        var chunk := CopyForward(a, b, max);
        run := Pipe.MoveForward(run, h, chunk, a.Unread());
        Associate(old(b.outgoing), h.toB, chunk);
        h := h.(leftA := a.Unread(), toB := h.toB + chunk);
      } else {
        var chunk := CopyBack(a, b, max);
        run := Pipe.MoveBack(run, h, chunk, b.incoming);
        Associate(old(a.conn.outgoing), h.toA, chunk);
        h := h.(leftB := b.incoming, toA := h.toA + chunk);
      }
    }
    run := Pipe.WindUp(run, h);
    Pipe.CleanRunDelivers(run, h.sentA, h.sentB, h.toA, h.toB);
    a.conn.Close();
    b.Close();
  }

  lemma Associate(x: seq<Byte>, y: seq<Byte>, z: seq<Byte>)
    ensures x + (y + z) == (x + y) + z
  {
  }

  method CopyForward(a: PrefixConn, b: Conn, max: nat) returns (chunk: seq<Byte>)
    requires a.conn != b && max > 0 && a.Unread() != []
    modifies a`prefix, a.conn`incoming, b`outgoing
    ensures chunk != [] && old(a.Unread()) == chunk + a.Unread()
    ensures b.outgoing == old(b.outgoing) + chunk
  {
    chunk := a.Read(max);
    b.Write(chunk);
  }

  method CopyBack(a: PrefixConn, b: Conn, max: nat) returns (chunk: seq<Byte>)
    requires a.conn != b && max > 0 && b.incoming != []
    modifies a.conn`outgoing, b`incoming
    ensures chunk != [] && old(b.incoming) == chunk + b.incoming
    ensures a.conn.outgoing == old(a.conn.outgoing) + chunk
  {
    chunk := b.Read(max);
    a.conn.Write(chunk);
  }

  // ---------------------------------------------------------------- the node

  datatype Decision = ToLocal(target: string) | ToAgent(ip: IPv4) | Refused

  /** Where handleTLS sends a host: fixed local routes come first. */
  function Decide(local: map<string, string>, routes: map<string, IPv4>, hello: Option<string>): Decision {
    if hello.None? || hello.value == "" then Refused
    else
      var host := ToLower(hello.value);
      var target := Lookup(local, host);
      if target.Some? then ToLocal(target.value)
      else
        var ip := Lookup(routes, host);
        if ip.Some? then ToAgent(ip.value) else Refused
  }

  /** `up` is the connection the dial to the decided destination yields.
      `joined` says whether visitor and destination were joined: a failed dial
      or header write ends the visit before that. */
  method HandleTLS(c: Conn, local: map<string, string>, routes: map<string, IPv4>, hello: Option<string>,
                   src: AddrPort, dst: AddrPort, dialOk: bool, up: Conn)
    returns (d: Decision, joined: bool)
    requires c != up
    modifies c, up
    ensures d == Decide(local, routes, hello)
    ensures !c.open && (joined ==> dialOk && !d.Refused?)
    ensures d.ToLocal? && dialOk ==> joined
    ensures !joined ==> c.outgoing == old(c.outgoing) && up.incoming == old(up.incoming)
    ensures !joined && d.ToAgent? && dialOk ==>
              !up.open && old(up.outgoing) <= up.outgoing <= old(up.outgoing) + HeaderBytes(src, dst)
    ensures !joined && !(d.ToAgent? && dialOk) ==> up.outgoing == old(up.outgoing)
    ensures joined ==>
              && up.outgoing == old(up.outgoing)
                                + (if d.ToAgent? then HeaderBytes(src, dst) else []) + old(c.incoming)
              && c.outgoing == old(c.outgoing) + old(up.incoming)
              && !up.open
  {
    joined := false;
    var host, conn := Peek(c, hello);
    if conn == null {
      c.Close();
      return Refused, false;
    }
    var target := Match(local, host);
    if target.Some? {
      d := ToLocal(target.value);
      if !dialOk {
        c.Close();
        return;
      }
      ghost var run, h := Join(conn, up);
      return d, true;
    }
    var ip := Match(routes, host);
    if ip.None? {
      c.Close();
      return Refused, false;
    }
    d := ToAgent(ip.value);
    if !dialOk {
      c.Close();
      return;
    }
    var header := Header(src, dst);
    var err := up.TryWrite(header);
    if err {
      c.Close();
      up.Close();
      return;
    }
    ghost var run, h := Join(conn, up);
    joined := true;
  }

  // --------------------------------------------------------------- the agent

  datatype Outcome =
    | Dropped
    | Passed(route: RouteSpec, header: seq<Byte>)
    | Terminated(route: RouteSpec, visitor: AddrPort)

  /** What the agent does with a tunnel connection that sends `stream`. */
  function Dispatch(fromGateway: bool, routes: map<string, RouteSpec>, hello: Option<string>, stream: seq<Byte>)
    : Outcome
  {
    if !fromGateway || Parse(stream).Rejected? || hello.None? || hello.value == "" then Dropped
    else
      var route := Lookup(routes, ToLower(hello.value));
      if route.None? then Dropped
      else if route.value.mode.Terminate? then Terminated(route.value, Parse(stream).src)
      else Passed(route.value, Parse(stream).raw)
  }

  /** `up` is the connection the dial to the route's target yields; `joined`
      says whether tunnel and backend were joined. */
  method Handle(c: Conn, fromGateway: bool, routes: map<string, RouteSpec>, hello: Option<string>,
                dialOk: bool, up: Conn)
    returns (o: Outcome, handed: PrefixConn?, joined: bool)
    requires c != up
    modifies c, up
    ensures o == Dispatch(fromGateway, routes, hello, old(c.incoming))
    ensures handed != null <==> o.Terminated?
    ensures o.Terminated? ==>
              && handed.Unread() == old(c.incoming)[Consumed(old(c.incoming))..]
              && c.outgoing == old(c.outgoing) && c.open == old(c.open) && handed.conn == c
    ensures joined ==> o.Passed? && dialOk
    ensures o.Passed? && dialOk && !o.route.proxyProtocol ==> joined
    ensures !joined ==> up.incoming == old(up.incoming) && c.outgoing == old(c.outgoing)
    ensures o.Dropped? || o.Passed? ==> !c.open
    ensures !joined && o.Passed? && dialOk ==>
              !up.open && old(up.outgoing) <= up.outgoing <= old(up.outgoing) + o.header
    ensures !joined && !(o.Passed? && dialOk) ==> up.outgoing == old(up.outgoing)
    ensures joined ==>
              && up.outgoing == old(up.outgoing) + (if o.route.proxyProtocol then o.header else [])
                                + old(c.incoming)[Consumed(old(c.incoming))..]
              && c.outgoing == old(c.outgoing) + old(up.incoming)
              && !up.open
  {
    handed, joined := null, false;
    if !fromGateway {
      c.Close();
      return Dropped, null, false;
    }
    var header := Read(c);
    if header.Rejected? {
      c.Close();
      return Dropped, null, false;
    }
    var host, conn := Peek(c, hello);
    if conn == null {
      c.Close();
      return Dropped, null, false;
    }
    var route := Match(routes, host);
    if route.None? {
      c.Close();
      return Dropped, null, false;
    }
    if route.value.mode.Terminate? {
      return Terminated(route.value, header.src), conn, false;
    }
    o := Passed(route.value, header.raw);
    if !dialOk {
      c.Close();
      return;
    }
    if route.value.proxyProtocol {
      var err := up.TryWrite(header.raw);
      if err {
        c.Close();
        up.Close();
        return;
      }
    }
    ghost var run, h := Join(conn, up);
    joined := true;
  }

  // -------------------------------------------------------------- end to end

  /** Header transparency as a law of the two machines' specifications: the
      agent recovers the header the node wrote and not one byte more, and the
      bytes behind it are the visitor's. */
  lemma HeaderIsTransparent(src: AddrPort, dst: AddrPort, visitor: seq<Byte>,
                            routes: map<string, RouteSpec>, hello: Option<string>)
    requires hello.Some? && hello.value != "" && Lookup(routes, ToLower(hello.value)).Some?
    ensures var stream, route := HeaderBytes(src, dst) + visitor, Lookup(routes, ToLower(hello.value)).value;
            && stream[Consumed(stream)..] == visitor
            && Dispatch(true, routes, hello, stream) ==
               if route.mode.Passthrough? then Passed(route, HeaderBytes(src, dst))
               else Terminated(route, AddrPort(Arrives(src.addr, dst.addr), src.port))
  {
    RoundTrip(src, dst, visitor);
  }

  /** One passthrough visit. When it is clean the backend receives exactly the
      visitor's bytes, preceded by exactly the node's header when the route asks
      for it, and the visitor exactly the backend's reply, for every chunking on
      both machines; in any case the backend receives a prefix of that, and an
      unjoined visitor nothing. */
  method Visit(visitor: seq<Byte>, reply: seq<Byte>, src: AddrPort, dst: AddrPort,
               local: map<string, string>, nodeRoutes: map<string, IPv4>, agentRoutes: map<string, RouteSpec>,
               hello: Option<string>)
    returns (clean: bool, delivered: seq<Byte>, returned: seq<Byte>)
    requires Decide(local, nodeRoutes, hello).ToAgent?
    requires Lookup(agentRoutes, ToLower(hello.value)).Some?
    requires Lookup(agentRoutes, ToLower(hello.value)).value.mode.Passthrough?
    ensures var header := if Lookup(agentRoutes, ToLower(hello.value)).value.proxyProtocol
                          then HeaderBytes(src, dst) else [];
            if clean then delivered == header + visitor && returned == reply
            else delivered <= header && returned == []
  {
    var tunnelled;
    clean, tunnelled, returned := NodeHalf(visitor, reply, src, dst, local, nodeRoutes, hello);
    if !clean {
      return false, [], [];
    }
    HeaderIsTransparent(src, dst, visitor, agentRoutes, hello);
    var answered;
    clean, delivered, answered := AgentHalf(tunnelled, reply, agentRoutes, hello);
    // What the node reads from the tunnel is what the agent wrote into it.
    assert clean ==> returned == answered;
    returned := answered;
  }

  method NodeHalf(visitor: seq<Byte>, answer: seq<Byte>, src: AddrPort, dst: AddrPort,
                  local: map<string, string>, routes: map<string, IPv4>, hello: Option<string>)
    returns (joined: bool, tunnelled: seq<Byte>, returned: seq<Byte>)
    requires Decide(local, routes, hello).ToAgent?
    ensures if joined then tunnelled == HeaderBytes(src, dst) + visitor && returned == answer
            else tunnelled <= HeaderBytes(src, dst) && returned == []
  {
    var c := new Conn(visitor);
    var up := new Conn(answer);
    var d;
    d, joined := HandleTLS(c, local, routes, hello, src, dst, true, up);
    var header := HeaderBytes(src, dst);
    assert [] + header == header && [] + answer == answer;
    return joined, up.outgoing, c.outgoing;
  }

  method AgentHalf(stream: seq<Byte>, reply: seq<Byte>, routes: map<string, RouteSpec>, hello: Option<string>)
    returns (joined: bool, delivered: seq<Byte>, answered: seq<Byte>)
    requires Dispatch(true, routes, hello, stream).Passed?
    ensures var o := Dispatch(true, routes, hello, stream);
            var header := if o.route.proxyProtocol then o.header else [];
            if joined then delivered == header + stream[Consumed(stream)..] && answered == reply
            else delivered <= header && answered == []
  {
    var c := new Conn(stream);
    var up := new Conn(reply);
    var o, handed;
    o, handed, joined := Handle(c, true, routes, hello, true, up);
    return joined, up.outgoing, c.outgoing;
  }
}
