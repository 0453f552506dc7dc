/** Where a visitor ends up: internal/node/node.go handleTLS over the table of
    a node of a run, and internal/agent/agent.go handle behind it, in terms of
    what the tables cover and who owns the host. */
module Visits {
  import opened AgentConfig
  import opened Basics
  import opened BytePath
  import Node
  import opened ProxyProto
  import R = Relay
  import opened Routing
  import opened Sni
  import opened Store
  import opened Stream
  import opened Text

  /** The visitor gave a server name. */
  ghost predicate Named(hello: Option<string>) {
    hello.Some? && |hello.value| > 0
  }

  ghost predicate Covered<V>(table: map<string, V>, host: string) {
    exists q :: q in table && Covers(q, host)
  }

  /** The tunnel is the one of its run that owns the host. */
  ghost predicate Owns(tunnels: map<nat, Tunnel>, base: string, t: nat, host: string) {
    && t in tunnels && BelongsTo(host, tunnels[t], base)
    && forall u :: u in tunnels && BelongsTo(host, tunnels[u], base) ==> u == t
  }

  lemma CoveredExactly<V>(table: map<string, V>, host: string)
    ensures Covered(table, host) <==> Lookup(table, host).Some?
    ensures Lookup(table, host).Some? ==>
              exists p :: MostSpecific(table, host, p) && Lookup(table, host) == Some(table[p])
  {
    MatchIsMostSpecific(table, host);
  }

  /** What a node decides, for any tables: nobody without a name or with a name
      that neither table covers gets anywhere, the local table comes first, and
      in either the most specific entry decides. */
  lemma DecidesExactly(local: map<string, string>, routes: map<string, IPv4>, hello: Option<string>)
    ensures var d := Decide(local, routes, hello);
            && (d.Refused? <==> !Named(hello) || (!Covered(local, ToLower(hello.value))
                                                  && !Covered(routes, ToLower(hello.value))))
            && (d.ToLocal? <==> Named(hello) && Covered(local, ToLower(hello.value)))
            && (d.ToLocal? ==> exists p :: MostSpecific(local, ToLower(hello.value), p) && d.target == local[p])
            && (d.ToAgent? ==> exists p :: MostSpecific(routes, ToLower(hello.value), p) && d.ip == routes[p])
  {
    if Named(hello) {
      CoveredExactly(local, ToLower(hello.value));
      CoveredExactly(routes, ToLower(hello.value));
    }
  }

  /** In every run, on every node however stale its table: a visitor is dialled
      through to an agent exactly when the table covers the host and the local
      one does not, and then at the address of the one tunnel that owns the
      host, which is no other tunnel's. */
  lemma VisitorsReachTheOwner(
      es: seq<R.Event>, base: string, node: nat, local: map<string, string>, hello: Option<string>)
    ensures var s := R.Run(R.START, es, base);
            var routes := R.ViewOf(s, node).routes;
            var d := Decide(local, routes, hello);
            && (d.ToAgent? <==> Named(hello) && !Covered(local, ToLower(hello.value))
                                && Covered(routes, ToLower(hello.value)))
            && (d.ToAgent? ==>
                  exists t :: && Owns(s.db.tunnels, base, t, ToLower(hello.value))
                              && d.ip == s.db.tunnels[t].vpnIP
                              && forall u :: u in s.db.tunnels && s.db.tunnels[u].vpnIP == d.ip ==> u == t)
  {
    var routes := R.ViewOf(R.Run(R.START, es, base), node).routes;
    DecidesExactly(local, routes, hello);
    if Decide(local, routes, hello).ToAgent? {
      var host := ToLower(hello.value);
      CoveredExactly(local, host);
      CoveredExactly(routes, host);
      var t := NoStaleMisrouting(es, base, node, host);
      assert Owns(R.Run(R.START, es, base).db.tunnels, base, t, host);
    }
  }

  /** What an agent does with a connection: nothing comes of it unless it is
      from a gateway, has a header and a name, and a route covers the name; the
      most specific route then decides between ending TLS itself, with the
      visitor's address, and passing on, with the header as it came. */
  lemma DispatchesExactly(
      fromGateway: bool, routes: map<string, RouteSpec>, hello: Option<string>, stream: seq<Byte>)
    ensures var o := Dispatch(fromGateway, routes, hello, stream);
            && (!o.Dropped? <==> fromGateway && Parse(stream).Accepted? && Named(hello)
                                 && Covered(routes, ToLower(hello.value)))
            && (!o.Dropped? ==>
                  exists p :: MostSpecific(routes, ToLower(hello.value), p) && o.route == routes[p])
            && (!o.Dropped? ==> (o.Terminated? <==> o.route.mode == AgentConfig.Terminate))
            && (o.Terminated? ==> o.visitor == Parse(stream).src)
            && (o.Passed? ==> o.header == stream[..Consumed(stream)])
  {
    if Named(hello) {
      CoveredExactly(routes, ToLower(hello.value));
    }
    if Parse(stream).Accepted? {
      AcceptedRawIsConsumed(stream);
    }
  }
}
