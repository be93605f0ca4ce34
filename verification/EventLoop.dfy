/**
 * The relay's event loop: the slab of handlers with its deferred reclamation
 * (relay/src/relay/selector.rs) under the router's discipline for closing flows
 * (relay/src/relay/router.rs, and `close` in tcp_connection.rs).
 */
module EventLoops {
  type Token = nat
  type FlowId = nat
  type ClientId = nat

  /** A route of one client's router. */
  datatype ConnectionId = ConnectionId(client: ClientId, endpoints: nat)

  /** A flow that was ever registered: its connection, its slab key, and its calls of deregister. */
  datatype Flow = Flow(connection: ConnectionId, token: Token, closed: bool, deregisters: nat)

  /** What a handler, or the periodic cleaner, may do to the flows. */
  datatype Action =
    | Packet(connection: ConnectionId, hint: Token, registered: bool, closes: bool)
    | Ready(flow: FlowId, closes: bool)
    | Clear(client: ClientId)
    | Expire(connections: seq<ConnectionId>)

  /** All routers together, and the number that the next flow gets. */
  datatype Routes = Routes(connections: map<ConnectionId, FlowId>, nextFlow: FlowId)

  /** What an action leaves of the routes. */
  function After(r: Routes, a: Action): Routes {
    match a
    case Packet(c, _, registered, closes) =>
      if c in r.connections then (if closes then r.(connections := r.connections - {c}) else r)
      else if !registered then r
      else Routes(if closes then r.connections else r.connections[c := r.nextFlow], r.nextFlow + 1)
    case Ready(f, closes) => if closes then r.(connections := Without(r.connections, f)) else r
    case Clear(client) => r.(connections := map c | c in r.connections && c.client != client :: r.connections[c])
    case Expire(expired) => r.(connections := Unexpired(r.connections, expired))
  }

  function Without(connections: map<ConnectionId, FlowId>, f: FlowId): map<ConnectionId, FlowId> {
    map c | c in connections && connections[c] != f :: connections[c]
  }

  function Unexpired(connections: map<ConnectionId, FlowId>, expired: seq<ConnectionId>): map<ConnectionId, FlowId> {
    map c | c in connections && c !in expired :: connections[c]
  }

  lemma UnexpiredNext(all: map<ConnectionId, FlowId>, expired: seq<ConnectionId>, i: nat,
                      before: map<ConnectionId, FlowId>, now: map<ConnectionId, FlowId>)
    requires i < |expired| && before == Unexpired(all, expired[..i])
    requires now == before - {expired[i]}
    ensures now == Unexpired(all, expired[..i + 1])
  {
    assert expired[..i + 1] == expired[..i] + [expired[i]];
  }

  function AfterScript(r: Routes, script: seq<Action>): Routes {
    if script == [] then r else After(AfterScript(r, script[..|script| - 1]), script[|script| - 1])
  }

  function AfterBatch(r: Routes, scripts: seq<seq<Action>>): Routes {
    if scripts == [] then r else AfterScript(AfterBatch(r, scripts[..|scripts| - 1]), scripts[|scripts| - 1])
  }

  lemma AddedAndTaken(connections: map<ConnectionId, FlowId>, c: ConnectionId, f: FlowId)
    requires c !in connections
    ensures connections[c := f] - {c} == connections
  {
  }

  /** The actions that close flow `f` of connection `c`. */
  predicate Closes(a: Action, c: ConnectionId, f: FlowId) {
    match a
    case Packet(d, _, _, closes) => d == c && closes
    case Ready(g, closes) => g == f && closes
    case Clear(client) => client == c.client
    case Expire(expired) => c in expired
  }

  /** Flows are numbered below the next. */
  predicate Numbered(r: Routes) { forall c | c in r.connections :: r.connections[c] < r.nextFlow }

  predicate RoutedTo(r: Routes, c: ConnectionId, f: FlowId) { c in r.connections && r.connections[c] == f }

  /** An action takes away the routes that it closes, and no other; a closed flow never comes back. */
  lemma AfterRoutes(r: Routes, a: Action, c: ConnectionId, f: FlowId)
    requires Numbered(r) && f < r.nextFlow
    ensures var t := After(r, a);
            && Numbered(t) && f < t.nextFlow
            && (RoutedTo(t, c, f) <==> RoutedTo(r, c, f) && !Closes(a, c, f))
  {
  }

  lemma {:induction false} ScriptRoutes(r: Routes, script: seq<Action>, c: ConnectionId, f: FlowId)
    requires Numbered(r) && f < r.nextFlow
    ensures var t := AfterScript(r, script);
            && Numbered(t) && f < t.nextFlow
            && (RoutedTo(t, c, f) <==> RoutedTo(r, c, f) && !exists a :: a in script && Closes(a, c, f))
    decreases script
  {
    hide After, Closes, Numbered, RoutedTo;
    if script != [] {
      var before, last := script[..|script| - 1], script[|script| - 1];
      ScriptRoutes(r, before, c, f);
      AfterRoutes(AfterScript(r, before), last, c, f);
      assert script == before + [last];
    }
  }

  /** A batch closes a flow exactly if one of its handlers does so; all other flows stay routed. */
  lemma {:induction false} BatchRoutes(r: Routes, scripts: seq<seq<Action>>, c: ConnectionId, f: FlowId)
    requires Numbered(r) && f < r.nextFlow
    ensures var t := AfterBatch(r, scripts);
            && Numbered(t) && f < t.nextFlow
            && (RoutedTo(t, c, f) <==>
                  RoutedTo(r, c, f) && !exists script, a :: script in scripts && a in script && Closes(a, c, f))
    decreases scripts
  {
    hide AfterScript, Closes, Numbered, RoutedTo;
    if scripts != [] {
      var before, last := scripts[..|scripts| - 1], scripts[|scripts| - 1];
      BatchRoutes(r, before, c, f);
      ScriptRoutes(AfterBatch(r, before), last, c, f);
      assert scripts == before + [last];
    }
  }

  predicate Distinct(ts: seq<Token>) { forall i, j | 0 <= i < j < |ts| :: ts[i] != ts[j] }

  class EventLoop {
    var handlers: map<Token, FlowId>
    var tokensToRemove: seq<Token>
    var connections: map<ConnectionId, FlowId>
    var flows: map<FlowId, Flow>
    var nextFlow: FlowId

    ghost predicate Valid()
      reads this
    {
      && Distinct(tokensToRemove)
      && (forall t | t in tokensToRemove :: t in handlers)
      && (forall t | t in handlers :: Owned(t))
      && (forall f | f in flows :: Tracked(f))
      && (forall c | c in connections :: Routed(c))
    }

    /** A slab key belongs to the flow that it was handed to, which is closed iff the key waits for removal. */
    ghost predicate Owned(t: Token)
      reads this
      requires t in handlers
    {
      var f := handlers[t];
      f in flows && flows[f].token == t && (flows[f].closed <==> t in tokensToRemove)
    }

    /** A flow deregisters exactly when it closes, once; an open one is routed and keeps its key. */
    ghost predicate Tracked(f: FlowId)
      reads this
      requires f in flows
    {
      var flow := flows[f];
      && f < nextFlow
      && flow.deregisters == (if flow.closed then 1 else 0)
      && (!flow.closed ==>
            && flow.token in handlers && handlers[flow.token] == f
            && flow.connection in connections && connections[flow.connection] == f)
    }

    ghost predicate Routed(c: ConnectionId)
      reads this
      requires c in connections
    {
      var f := connections[c];
      f in flows && !flows[f].closed && flows[f].connection == c
    }

    function Table(): Routes
      reads `connections, `nextFlow
    {
      Routes(connections, nextFlow)
    }

    /** No key in use has changed hands. */
    twostate predicate KeysKept()
      reads this
    {
      forall t | t in old(handlers) :: t in handlers && handlers[t] == old(handlers)[t]
    }

    constructor ()
      ensures Valid() && handlers == map[] && tokensToRemove == [] && connections == map[] && flows == map[]
    {
      handlers, tokensToRemove, connections, flows, nextFlow := map[], [], map[], map[], 0;
    }

    /** `selector.deregister`: the key is only marked. */
    method CloseFlow(f: FlowId)
      requires f in flows && !flows[f].closed
      modifies `flows, `tokensToRemove
      ensures flows == old(flows)[f := old(flows)[f].(closed := true, deregisters := old(flows)[f].deregisters + 1)]
      ensures tokensToRemove == old(tokensToRemove) + [old(flows)[f].token]
    {
      flows := flows[f := flows[f].(closed := true, deregisters := flows[f].deregisters + 1)];
      tokensToRemove := tokensToRemove + [flows[f].token];
    }

    /** Closes the flow that a connection is routed to, and takes it out of the router. */
    method CloseRouted(c: ConnectionId)
      requires Valid() && c in connections
      modifies `flows, `tokensToRemove, `connections
      ensures Valid() && connections == old(connections) - {c}
      ensures tokensToRemove == old(tokensToRemove) + [old(flows)[old(connections)[c]].token]
      ensures flows.Keys == old(flows.Keys) && flows[old(connections)[c]].closed
      ensures old(connections)[c] in flows && flows[old(connections)[c]].connection == c
      ensures forall f | f in flows && f != old(connections)[c] :: flows[f] == old(flows)[f]
    {
      CloseFlow(connections[c]);
      connections := connections - {c};
    }

    /** `selector.register`; a key whose registration fails is given back at once. */
    method Register(f: FlowId, key: Token, registered: bool) returns (ok: bool)
      requires key !in handlers
      modifies `handlers
      ensures ok == registered
      ensures handlers == if ok then old(handlers)[key := f] else old(handlers)
    {
      handlers := handlers[key := f];
      if !registered {
        handlers := handlers - {key};
      }
      ok := registered;
    }

    /** `router.send_to_network`: an unknown connection is created, and removed again if it closes. */
    method SendToNetwork(c: ConnectionId, key: Token, registered: bool, closes: bool)
      requires Valid() && key !in handlers
      modifies this
      ensures Valid() && KeysKept()
      ensures c !in old(connections) && !registered ==> flows == old(flows)
      ensures Table() == After(old(Table()), Packet(c, key, registered, closes))
      ensures c in old(connections) || registered ==> (c in connections <==> !closes)
    {
      hide Valid;
      if c !in connections {
        var ok := CreateRoute(c, key, registered);
        if !ok {
          return;
        }
      }
      if closes {
        if c !in old(connections) {
          AddedAndTaken(old(connections), c, old(nextFlow));
        }
        CloseRouted(c);
      }
    }

    /** `create_connection`: a registered flow enters the router; a failed one leaves no trace. */
    method CreateRoute(c: ConnectionId, key: Token, registered: bool) returns (ok: bool)
      requires Valid() && key !in handlers && c !in connections
      modifies `handlers, `flows, `connections, `nextFlow
      ensures Valid() && KeysKept() && ok == registered
      ensures if ok then connections == old(connections)[c := old(nextFlow)] && nextFlow == old(nextFlow) + 1
              else Table() == old(Table()) && flows == old(flows) && handlers == old(handlers)
    {
      var f := nextFlow;
      ok := Register(f, key, registered);
      if ok {
        nextFlow := nextFlow + 1;
        flows := flows[f := Flow(c, key, false, 0)];
        connections := connections[c := f];
        forall t | t in handlers
          ensures Owned(t)
        {
          assert t != key ==> old(Owned(t));
        }
        forall g | g in flows
          ensures Tracked(g)
        {
          assert g != f ==> old(Tracked(g));
        }
        forall d | d in connections
          ensures Routed(d)
        {
          assert d != c ==> old(Routed(d));
        }
      }
    }

    /** A flow's own handler: a closed flow ignores the event; one that closes removes itself. */
    method OnReady(f: FlowId, closes: bool)
      requires Valid() && f in flows
      modifies this
      ensures Valid() && KeysKept()
      ensures f in flows && (flows[f].closed <==> old(flows)[f].closed || closes)
      ensures Table() == After(old(Table()), Ready(f, closes))
    {
      if !flows[f].closed && closes {
        CloseRouted(flows[f].connection);
      }
      assert closes ==> connections == Without(old(connections), f);
    }

    /** `router.clear`: drains the router of one client and closes every flow in it, and no other. */
    method ClearRouter(client: ClientId)
      requires Valid()
      modifies this
      ensures Valid() && KeysKept() && flows.Keys == old(flows.Keys)
      ensures Table() == After(old(Table()), Clear(client))
      ensures forall f | f in flows :: if flows[f].connection.client == client then flows[f].closed
                                       else flows[f] == old(flows)[f]
    {
      hide Valid;
      var routes := set c | c in connections && c.client == client;
      while routes != {}
        invariant Valid() && KeysKept() && flows.Keys == old(flows.Keys)
        invariant forall c :: c in connections <==> c in old(connections) && (c.client == client ==> c in routes)
        invariant nextFlow == old(nextFlow)
        invariant connections == old(connections) - (old(connections).Keys - connections.Keys)
        invariant forall c | c in routes :: c in connections && c.client == client
        invariant forall f | f in flows && flows[f].connection.client != client :: flows[f] == old(flows)[f]
        decreases routes
      {
        var c :| c in routes;
        CloseRouted(c);
        routes := routes - {c};
      }
      UnroutedIsClosed();
    }

    lemma UnroutedIsClosed()
      requires Valid()
      ensures forall f | f in flows && flows[f].connection !in connections :: flows[f].closed
    {
      assert forall f | f in flows :: Tracked(f);
    }

    /** `clean_expired_connections`: each expired connection is removed and then closed. */
    method CleanExpired(expired: seq<ConnectionId>)
      requires Valid()
      modifies this
      ensures Valid() && KeysKept()
      ensures Table() == After(old(Table()), Expire(expired))
      ensures flows.Keys == old(flows.Keys)
      ensures forall f | f in flows :: flows[f] == old(flows)[f] || flows[f].connection in expired
    {
      hide Valid;
      for i := 0 to |expired|
        invariant Valid() && KeysKept()
        invariant connections == Unexpired(old(connections), expired[..i]) && nextFlow == old(nextFlow)
        invariant flows.Keys == old(flows.Keys)
        invariant forall f | f in flows :: flows[f] == old(flows)[f] || flows[f].connection in expired
      {
        ghost var before := connections;
        if expired[i] in connections {
          CloseRouted(expired[i]);
        }
        UnexpiredNext(old(connections), expired, i, before, connections);
      }
      assert expired[..|expired|] == expired;
    }

    /** Slab insertion picks a vacant key; any vacant key is picked under some hint. */
    method VacantKey(hint: Token) returns (key: Token)
      ensures key !in handlers && (hint !in handlers ==> key == hint)
    {
      key := hint;
      if key in handlers {
        key := 0;
        ghost var tried: set<Token> := {};
        while key in handlers
          invariant forall t | t in tried :: t < key
          decreases handlers.Keys - tried
        {
          tried := tried + {key};
          key := key + 1;
        }
      }
    }

    lemma UnknownIsUnrouted(f: FlowId)
      requires Valid() && f !in flows
      ensures Without(connections, f) == connections
    {
    }

    method Do(a: Action)
      requires Valid()
      modifies this
      ensures Valid() && KeysKept() && Table() == After(old(Table()), a)
    {
      hide Valid;
      match a
      case Packet(c, hint, registered, closes) =>
        var key := VacantKey(hint);
        SendToNetwork(c, key, registered, closes);
      case Ready(f, closes) =>
        if f in flows {
          OnReady(f, closes);
        } else {
          UnknownIsUnrouted(f);
        }
      case Clear(client) => ClearRouter(client);
      case Expire(cs) => CleanExpired(cs);
    }

    /** One handler's actions, in order. */
    method RunHandler(script: seq<Action>)
      requires Valid()
      modifies this
      ensures Valid() && KeysKept() && Table() == AfterScript(old(Table()), script)
    {
      hide Valid, After;
      for i := 0 to |script|
        invariant Valid() && KeysKept() && Table() == AfterScript(old(Table()), script[..i])
      {
        assert script[..i + 1][..i] == script[..i];
        Do(script[i]);
      }
      assert script[..|script|] == script;
    }

    /** Reclaims the marked keys; each of them is still in the slab. */
    method CleanRemovedTokens()
      requires Valid()
      modifies `handlers, `tokensToRemove
      ensures Valid() && tokensToRemove == []
      ensures handlers == old(handlers) - (set t | t in old(tokensToRemove))
      ensures forall t | t in handlers :: handlers[t] in flows && !flows[handlers[t]].closed
    {
      ghost var before := handlers;
      for i := 0 to |tokensToRemove|
        invariant tokensToRemove == old(tokensToRemove)
        invariant handlers == before - (set t | t in tokensToRemove[..i])
      {
        assert tokensToRemove[i] in handlers;
        handlers := handlers - {tokensToRemove[i]};
        assert tokensToRemove[..i + 1] == tokensToRemove[..i] + [tokensToRemove[i]];
      }
      assert tokensToRemove[..|tokensToRemove|] == tokensToRemove;
      tokensToRemove := [];
    }

    /**
     * A polled batch.  Whatever the handlers do to this and to other flows, every event finds the
     * handler that was registered when it was polled, and afterwards only open flows have keys.
     */
    method RunHandlers(events: seq<Token>, scripts: seq<seq<Action>>) returns (ran: seq<FlowId>)
      requires Valid() && |scripts| == |events|
      requires forall t | t in events :: t in handlers
      modifies this
      ensures Valid() && tokensToRemove == []
      ensures |ran| == |events| && forall i | 0 <= i < |events| :: ran[i] == old(handlers)[events[i]]
      ensures forall t | t in handlers :: handlers[t] in flows && !flows[handlers[t]].closed
      ensures Table() == AfterBatch(old(Table()), scripts)
    {
      hide Valid, AfterScript;
      ran := [];
      for i := 0 to |events|
        invariant Valid() && KeysKept() && Table() == AfterBatch(old(Table()), scripts[..i])
        invariant |ran| == i && forall j | 0 <= j < i :: ran[j] == old(handlers)[events[j]]
      {
        assert events[i] in events && events[i] in handlers;
        ran := ran + [handlers[events[i]]];
        assert scripts[..i + 1][..i] == scripts[..i];
        RunHandler(scripts[i]);
      }
      assert scripts[..|scripts|] == scripts;
      CleanRemovedTokens();
    }
  }
}
