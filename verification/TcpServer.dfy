/**
 * The connection pool of TcpServer (src/net/tcp/tcpServer.cpp), one call at a time: a map from the
 * printed peer address to the connection, against the connections that are live.
 */
module TcpServers {
  import opened AddressText
  import opened TcpConnects
  import Connection

  const INIT_SIZE: nat := 1024

  /** The pool, and the peers of the connections accepted and not yet closed. */
  datatype State<!C> = State(pool: map<string, C>, live: map<C, SockAddr>)

  datatype Step<C> = Accept(connection: C, peer: SockAddr) | Close(connection: C)

  predicate Legal<C>(s: State<C>, step: Step<C>) {
    match step
    case Accept(c, peer) => c !in s.live && peer.Valid()
    case Close(c) => c in s.live && s.live[c].Valid()
  }

  /** std::map::insert keeps an entry that is already there. */
  function Next<C>(s: State<C>, step: Step<C>): State<C>
    requires Legal(s, step)
  {
    match step
    case Accept(c, peer) =>
      var name := Print(peer);
      State(if name in s.pool then s.pool else s.pool[name := c], s.live[c := peer])
    case Close(c) => State(s.pool - {Print(s.live[c])}, s.live - {c})
  }

  predicate LegalRun<C>(s: State<C>, steps: seq<Step<C>>)
    decreases |steps|
  {
    steps == [] || (Legal(s, steps[0]) && LegalRun(Next(s, steps[0]), steps[1..]))
  }

  function Run<C>(s: State<C>, steps: seq<Step<C>>): State<C>
    requires LegalRun(s, steps)
    decreases |steps|
  {
    if steps == [] then s else Run(Next(s, steps[0]), steps[1..])
  }

  /** The pool holds every live connection under its name, and nothing else. */
  ghost predicate PoolIsLive<C>(s: State<C>) {
    && (forall c :: c in s.live ==>
          s.live[c].Valid() && Print(s.live[c]) in s.pool && s.pool[Print(s.live[c])] == c)
    && (forall name :: name in s.pool ==>
          s.pool[name] in s.live && Print(s.live[s.pool[name]]) == name)
  }

  /** The peer is not the one of a connection that is still live. */
  ghost predicate NewPeer<C>(s: State<C>, step: Step<C>) {
    step.Accept? ==> forall c :: c in s.live ==> s.live[c] != step.peer
  }

  /** A step keeps the pool equal to the live connections if and only if it does not accept a peer
      that is still live; distinct peers have distinct names. */
  lemma PoolStaysLiveIff<C>(s: State<C>, step: Step<C>)
    requires PoolIsLive(s) && Legal(s, step)
    ensures PoolIsLive(Next(s, step)) <==> NewPeer(s, step)
  {
    match step
    case Accept(c, peer) => AcceptKeepsIff(s, c, peer);
    case Close(c) => CloseKeeps(s, c);
  }

  lemma AcceptKeepsIff<C>(s: State<C>, c: C, peer: SockAddr)
    requires PoolIsLive(s) && Legal(s, Accept(c, peer))
    ensures PoolIsLive(Next(s, Accept(c, peer))) <==> NewPeer(s, Accept(c, peer))
  {
    var t, name := Next(s, Accept(c, peer)), Print(peer);
    if name in s.pool {
      var other := s.pool[name];
      PrintIsInjective(s.live[other], peer);
      assert other in s.live && s.live[other] == peer;
      assert t.live[c] == peer && t.pool[name] == other != c;
    } else {
      forall d | d in s.live ensures Print(s.live[d]) != name && s.live[d] != peer {
      }
      assert t.pool == s.pool[name := c] && t.live == s.live[c := peer];
    }
  }

  /** Two accepts of one peer: the second connection is live but not in the pool, and closing it
      takes the first one out. */
  lemma SamePeerTwice<C>(first: C, second: C, peer: SockAddr)
    requires first != second && peer.Valid()
    ensures var steps := [Accept(first, peer), Accept(second, peer), Close(second)];
            && LegalRun(State(map[], map[]), steps)
            && Run(State(map[], map[]), steps) == State(map[], map[first := peer])
  {
    var s: State<C> := State(map[], map[]);
    var t := State(map[Print(peer) := first], map[first := peer]);
    var u := State(map[Print(peer) := first], map[first := peer, second := peer]);
    var v := State(map[], map[first := peer]);
    StepsAre(s, [Accept(second, peer), Close(second)], Accept(first, peer), t);
    StepsAre(t, [Close(second)], Accept(second, peer), u);
    StepsAre(u, [], Close(second), v);
    assert [Accept(first, peer)] + ([Accept(second, peer)] + ([Close(second)] + []))
        == [Accept(first, peer), Accept(second, peer), Close(second)];
  }

  lemma StepsAre<C>(s: State<C>, rest: seq<Step<C>>, step: Step<C>, next: State<C>)
    requires Legal(s, step) && Next(s, step) == next
    ensures LegalRun(next, rest) <==> LegalRun(s, [step] + rest)
    ensures LegalRun(next, rest) ==> Run(s, [step] + rest) == Run(next, rest)
  {
    assert ([step] + rest)[1..] == rest;
  }

  lemma CloseKeeps<C>(s: State<C>, c: C)
    requires PoolIsLive(s) && Legal(s, Close(c))
    ensures PoolIsLive(Next(s, Close(c)))
  {
    var t, name := Next(s, Close(c)), Print(s.live[c]);
    forall d | d in t.live
      ensures t.live[d].Valid() && Print(t.live[d]) in t.pool && t.pool[Print(t.live[d])] == d
    {
      assert d in s.live && t.live[d] == s.live[d];
      assert s.pool[Print(s.live[d])] == d && s.pool[name] == c;
    }
    forall n | n in t.pool ensures t.pool[n] in t.live && Print(t.live[t.pool[n]]) == n {
      assert n in s.pool && n != name;
    }
  }

  ghost predicate AllNewPeers<C>(s: State<C>, steps: seq<Step<C>>)
    requires LegalRun(s, steps)
    decreases |steps|
  {
    steps == [] || (NewPeer(s, steps[0]) && AllNewPeers(Next(s, steps[0]), steps[1..]))
  }

  ghost predicate LiveThroughout<C>(s: State<C>, steps: seq<Step<C>>)
    requires LegalRun(s, steps)
    decreases |steps|
  {
    PoolIsLive(s) && (steps != [] ==> LiveThroughout(Next(s, steps[0]), steps[1..]))
  }

  /** Over every run the pool is the set of live connections throughout, if and only if no peer is
      accepted again while its connection is live. */
  lemma {:induction false} PoolInvariant<C>(s: State<C>, steps: seq<Step<C>>)
    requires PoolIsLive(s) && LegalRun(s, steps)
    ensures LiveThroughout(s, steps) <==> AllNewPeers(s, steps)
    decreases |steps|
  {
    if steps != [] {
      PoolStaysLiveIff(s, steps[0]);
      var t := Next(s, steps[0]);
      if NewPeer(s, steps[0]) {
        PoolInvariant(t, steps[1..]);
      } else {
        assert !LiveThroughout(t, steps[1..]);
      }
    }
  }

  class TcpServer {
    var connectPool: map<string, TcpConnect>
    ghost var live: map<TcpConnect, SockAddr>

    /** Every connection of the server, live or in the pool, knows its own name. */
    ghost predicate Valid()
      reads this
    {
      && (forall c :: c in live ==> c.peer == live[c] && c.peer.Valid() && c.name == Print(c.peer))
    }

    ghost function View(): State<TcpConnect>
      reads this
    {
      State(connectPool, live)
    }

    constructor ()
      ensures Valid() && View() == State(map[], map[])
    {
      connectPool := map[];
      live := map[];
    }

    method AddConnect(name: string, connect: TcpConnect)
      modifies this`connectPool
      ensures connectPool == if name in old(connectPool) then old(connectPool)
                             else old(connectPool)[name := connect]
    {
      if name !in connectPool {
        connectPool := connectPool[name := connect];
      }
    }

    method RemoveConnect(name: string)
      modifies this`connectPool
      ensures connectPool == old(connectPool) - {name}
    {
      connectPool := connectPool - {name};
    }

    /** std::make_shared of a connection for this peer. */
    method Create(addr: SockAddr) returns (tcpConnect: TcpConnect)
      requires addr.Valid()
      ensures fresh(tcpConnect) && tcpConnect.Valid() && tcpConnect.peer == addr
    {
      tcpConnect := new TcpConnect(addr, INIT_SIZE);
    }

    method Announce(connect: TcpConnect)
      requires connect.Valid()
      modifies connect
      ensures connect.Valid() && connect.phase == Connection.Connected
    {
      connect.ConnectedHandle();
    }

    method NewConnected(addr: SockAddr) returns (tcpConnect: TcpConnect)
      requires Valid() && addr.Valid()
      modifies this
      ensures fresh(tcpConnect) && tcpConnect.Valid() && tcpConnect.phase == Connection.Connected
      ensures Valid() && Legal(old(View()), Accept(tcpConnect, addr))
      ensures View() == Next(old(View()), Accept(tcpConnect, addr))
      ensures tcpConnect.peer == addr && tcpConnect.name == Print(addr)
      ensures connectPool == if Print(addr) in old(connectPool) then old(connectPool)
                             else old(connectPool)[Print(addr) := tcpConnect]
    {
      tcpConnect := Create(addr);
      assert tcpConnect !in live;
      AddConnect(tcpConnect.name, tcpConnect);
      live := live[tcpConnect := addr];
      Announce(tcpConnect);
    }

    /** The close callback of a connection. */
    method ConnectCloseEvent(connect: TcpConnect)
      requires Valid() && connect in live
      modifies this
      ensures Valid() && View() == Next(old(View()), Close(connect))
      ensures connectPool == old(connectPool) - {connect.name}
    {
      RemoveConnect(connect.name);
      live := live - {connect};
    }
  }
}
