/**
 What each side of the handshake remembers and what each connection carries
 (src/net.cpp), told from the steps of a run apart from the functions that
 take them.
*/
module HandshakeLaws {
  import opened Handshake

  // ---- the host's table ----

  /** The host receives what is first in a connection's channel from this peer. */
  predicate Hears(s: State, t: Step, peer: nat, conn: nat) {
    && s.hostExtended && t == HostReceives(conn) && conn in s.links
    && s.links[conn].peer == peer && s.links[conn].up != []
  }

  /** A hello of this version. */
  predicate HearsHello(s: State, t: Step, peer: nat, conn: nat, version: nat) {
    Hears(s, t, peer, conn) && s.links[conn].up[0] == Hello(version)
  }

  /** What makes the host's table say something else of a peer: a hello, a ClientConnect, or a restart. */
  predicate Says(s: State, t: Step, peer: nat) {
    || t == HostRestarts
    || (t.HostReceives? && Hears(s, t, peer, t.conn) && !s.links[t.conn].up[0].Content?)
  }

  predicate NothingSaid(s: State, steps: seq<Step>, peer: nat)
    requires Runs(s, steps)
    decreases |steps|
  {
    steps == [] || (!Says(s, steps[0], peer) && NothingSaid(Do(s, steps[0]), steps[1..], peer))
  }

  /** The last thing said of a peer in a run is a hello of this version on this connection. */
  predicate LastHello(s: State, steps: seq<Step>, peer: nat, conn: nat, version: nat)
    requires Runs(s, steps)
    decreases |steps|
  {
    && steps != []
    && (|| LastHello(Do(s, steps[0]), steps[1..], peer, conn, version)
        || (HearsHello(s, steps[0], peer, conn, version) && NothingSaid(Do(s, steps[0]), steps[1..], peer)))
  }

  predicate InTable(s: State, peer: nat, conn: nat, version: nat) {
    peer in s.versions && s.versions[peer] == version && peer in s.sources && s.sources[peer] == conn
  }

  lemma TableStep(s: State, t: Step, peer: nat, conn: nat, version: nat)
    requires Enabled(s, t)
    ensures InTable(Do(s, t), peer, conn, version) <==>
      HearsHello(s, t, peer, conn, version) || (InTable(s, peer, conn, version) && !Says(s, t, peer))
  {
    hide DoHostReceives;
    if t.HostReceives? {
      HostTable(s, t.conn);
    } else {
      OtherTable(s, t);
    }
  }

  lemma HostTable(s: State, conn: nat)
    requires conn in s.links && s.links[conn].up != []
    ensures var s', link := DoHostReceives(s, conn), s.links[conn];
      var m := link.up[0];
      && s'.versions == (if !s.hostExtended then s.versions
                         else match m
                           case Connect(_) => s.versions - {link.peer}
                           case Hello(v) => s.versions[link.peer := v]
                           case Content => s.versions)
      && s'.sources == if s.hostExtended && m.Hello? then s.sources[link.peer := conn] else s.sources
  {
  }

  lemma OtherTable(s: State, t: Step)
    requires Enabled(s, t) && !t.HostReceives?
    ensures var s' := Do(s, t);
      s'.versions == (if t == HostRestarts then map[] else s.versions) && s'.sources == s.sources
  {
    hide DoHostReceives;
    match t
    case Open(c, k, p, e, r) => assert Do(s, t) == DoOpen(s, c, k, p, e, r);
    case Close(c) => assert Do(s, t) == DoClose(s, c);
    case ClientReceives(c) => assert Do(s, t) == DoClientReceives(s, c);
    case HostSends(p, r) => assert Do(s, t) == DoHostSends(s, p, r);
    case ClientSends(k, c) => assert Do(s, t) == DoClientSends(s, k, c);
    case ClientRestarts(k) => assert Do(s, t) == DoClientRestarts(s, k);
    case _ =>
  }

  lemma {:induction false} TableAfter(s: State, steps: seq<Step>, peer: nat, conn: nat, version: nat)
    requires Runs(s, steps)
    ensures InTable(After(s, steps), peer, conn, version) <==>
      || LastHello(s, steps, peer, conn, version)
      || (InTable(s, peer, conn, version) && NothingSaid(s, steps, peer))
    decreases |steps|
  {
    hide Do, Enabled, InTable, Says, HearsHello;
    if steps != [] {
      TableStep(s, steps[0], peer, conn, version);
      TableAfter(Do(s, steps[0]), steps[1..], peer, conn, version);
    }
  }

  /**
   After every run a peer is in the host's table, with the version and the
   connection of a hello, if and only if that hello is the last thing that the
   run says of the peer: not a ClientConnect, not a restart, no later hello.
  */
  lemma TableIsLastHello(hostExtended: bool, steps: seq<Step>, peer: nat, conn: nat, version: nat)
    requires Runs(Init(hostExtended), steps)
    ensures InTable(After(Init(hostExtended), steps), peer, conn, version) <==>
      LastHello(Init(hostExtended), steps, peer, conn, version)
  {
    hide Do, Enabled;
    TableAfter(Init(hostExtended), steps, peer, conn, version);
  }

  // ---- what a client knows ----

  /** A client with the extender receives its host's hello. */
  predicate Greets(s: State, t: Step, client: nat) {
    && t.ClientReceives? && t.conn in s.links
    && s.links[t.conn].client == client && s.links[t.conn].extended
    && s.links[t.conn].down != [] && s.links[t.conn].down[0].Hello?
  }

  /** What makes a client forget its host: a new connection, or a restart. */
  predicate Forgets(t: Step, client: nat) {
    (t.Open? && t.client == client) || (t.ClientRestarts? && t.client == client)
  }

  predicate StillKnown(s: State, steps: seq<Step>, client: nat)
    requires Runs(s, steps)
    decreases |steps|
  {
    steps == [] || (!Forgets(steps[0], client) && StillKnown(Do(s, steps[0]), steps[1..], client))
  }

  predicate Greeted(s: State, steps: seq<Step>, client: nat)
    requires Runs(s, steps)
    decreases |steps|
  {
    && steps != []
    && (|| Greeted(Do(s, steps[0]), steps[1..], client)
        || (Greets(s, steps[0], client) && StillKnown(Do(s, steps[0]), steps[1..], client)))
  }

  lemma KnownStep(s: State, t: Step, client: nat)
    requires Enabled(s, t)
    ensures client in Do(s, t).hostKnown <==>
      Greets(s, t, client) || (client in s.hostKnown && !Forgets(t, client))
  {
    match t
    case HostReceives(c) =>
    case ClientReceives(c) =>
    case HostSends(p, source) =>
    case ClientSends(k, c) =>
    case ClientRestarts(k) =>
    case _ =>
  }

  lemma {:induction false} KnownAfter(s: State, steps: seq<Step>, client: nat)
    requires Runs(s, steps)
    ensures client in After(s, steps).hostKnown <==>
      Greeted(s, steps, client) || (client in s.hostKnown && StillKnown(s, steps, client))
    decreases |steps|
  {
    hide Do, Enabled, Greets, Forgets;
    if steps != [] {
      KnownStep(s, steps[0], client);
      KnownAfter(Do(s, steps[0]), steps[1..], client);
    }
  }

  /** After every run a client takes its host for extended if and only if it was greeted and has not forgotten since. */
  lemma KnownIsGreeted(hostExtended: bool, steps: seq<Step>, client: nat)
    requires Runs(Init(hostExtended), steps)
    ensures client in After(Init(hostExtended), steps).hostKnown <==> Greeted(Init(hostExtended), steps, client)
  {
    hide Do, Enabled;
    KnownAfter(Init(hostExtended), steps, client);
  }

  // ---- what a connection carries ----

  /** What a step appends for the client: version 2 in answer to a signed ClientConnect, or what is sent. */
  function SentDown(s: State, t: Step, conn: nat): seq<Message> {
    if t == HostReceives(conn) && s.hostExtended && conn in s.links && s.links[conn].up != []
       && s.links[conn].up[0] == Connect(true)
    then [Hello(2)]
    else if t.HostSends? && t.peer in s.bound && s.bound[t.peer] == conn then [Content]
    else []
  }

  /** What a step appends for the host: a client with the extender's version 2 in answer to a hello, or what is sent. */
  function SentUp(s: State, t: Step, conn: nat): seq<Message> {
    if t == ClientReceives(conn) && conn in s.links && s.links[conn].extended && s.links[conn].down != []
       && s.links[conn].down[0].Hello?
    then [Hello(2)]
    else if t.ClientSends? && t.client in s.current && s.current[t.client] == conn then [Content]
    else []
  }

  /** A connection's channels lose what is received, in order, gain what is sent, and nothing else. */
  lemma ChannelLaw(s: State, t: Step, conn: nat)
    requires Inv(s) && Enabled(s, t) && conn in s.links && conn in Do(s, t).links
    ensures CarriedOn(s, t, conn, s.links[conn], Do(s, t).links[conn])
  {
    hide LinkOk, History, Table, Known, CarriedOn;
    if t.HostReceives? || t.ClientReceives? {
      ReceiptCarries(s, t, conn);
    } else if t.HostSends? || t.ClientSends? {
      SendCarries(s, t, conn);
    } else {
      OtherCarries(s, t, conn);
    }
  }

  predicate CarriedOn(s: State, t: Step, conn: nat, was: Link, link: Link)
    requires t == HostReceives(conn) ==> was.up != []
    requires t == ClientReceives(conn) ==> was.down != []
  {
    && link.up == was.up[if t == HostReceives(conn) then 1 else 0..] + SentUp(s, t, conn)
    && link.down == was.down[if t == ClientReceives(conn) then 1 else 0..] + SentDown(s, t, conn)
    && link.client == was.client && link.peer == was.peer && link.extended == was.extended
  }

  /** Only the connection of a message changes. */
  predicate OnlyAt(s: State, s': State, conn: nat) {
    conn in s.links && conn in s'.links && s'.links == s.links[conn := s'.links[conn]]
  }

  predicate SameEnds(was: Link, link: Link) {
    link.client == was.client && link.peer == was.peer && link.extended == was.extended
  }

  lemma HostLinks(s: State, conn: nat)
    requires conn in s.links && s.links[conn].up != []
    ensures DoHostReceives(s, conn).links == s.links[conn := Taken(s.hostExtended, s.links[conn])]
  {
    if s.hostExtended {
      match s.links[conn].up[0]
      case Connect(signed) =>
      case Hello(version) =>
      case Content =>
    }
  }

  lemma TakenIs(hostExtended: bool, was: Link)
    requires was.up != []
    ensures var link := Taken(hostExtended, was);
      && SameEnds(was, link) && link.up == was.up[1..]
      && link.down == was.down + if hostExtended && was.up[0] == Connect(true) then [Hello(2)] else []
  {
    assert was.down + [] == was.down;
  }

  lemma HostReceipt(s: State, conn: nat)
    requires conn in s.links && s.links[conn].up != []
    ensures var s', was := DoHostReceives(s, conn), s.links[conn];
      && OnlyAt(s, s', conn) && SameEnds(was, s'.links[conn]) && s'.links[conn].up == was.up[1..]
      && s'.links[conn].down
         == was.down + if s.hostExtended && was.up[0] == Connect(true) then [Hello(2)] else []
  {
    hide DoHostReceives, Taken;
    HostLinks(s, conn);
    TakenIs(s.hostExtended, s.links[conn]);
  }

  lemma ClientReceipt(s: State, conn: nat)
    requires conn in s.links && s.links[conn].down != []
    ensures var s', was := DoClientReceives(s, conn), s.links[conn];
      && OnlyAt(s, s', conn) && SameEnds(was, s'.links[conn]) && s'.links[conn].down == was.down[1..]
      && s'.links[conn].up == was.up + if was.extended && was.down[0].Hello? then [Hello(2)] else []
  {
  }

  lemma HostSend(s: State, peer: nat, source: nat)
    ensures var s' := DoHostSends(s, peer, source);
      if peer in s.bound && s.bound[peer] in s.links then
        var conn := s.bound[peer];
        && OnlyAt(s, s', conn) && SameEnds(s.links[conn], s'.links[conn])
        && s'.links[conn].up == s.links[conn].up && s'.links[conn].down == s.links[conn].down + [Content]
      else s'.links == s.links
  {
  }

  lemma ClientSend(s: State, client: nat, source: nat)
    ensures var s' := DoClientSends(s, client, source);
      if client in s.current && s.current[client] in s.links then
        var conn := s.current[client];
        && OnlyAt(s, s', conn) && SameEnds(s.links[conn], s'.links[conn])
        && s'.links[conn].down == s.links[conn].down && s'.links[conn].up == s.links[conn].up + [Content]
      else s'.links == s.links
  {
  }

  lemma ReceiptCarries(s: State, t: Step, conn: nat)
    requires Enabled(s, t) && conn in s.links && conn in Do(s, t).links
    requires t.HostReceives? || t.ClientReceives?
    ensures CarriedOn(s, t, conn, s.links[conn], Do(s, t).links[conn])
  {
    hide DoHostReceives, DoClientReceives, DoOpen, DoClose, DoHostSends, DoClientSends, DoClientRestarts;
    if t.HostReceives? {
      HostReceipt(s, t.conn);
    } else {
      ClientReceipt(s, t.conn);
    }
  }

  lemma SendCarries(s: State, t: Step, conn: nat)
    requires Bindings(s) && Enabled(s, t) && conn in s.links && conn in Do(s, t).links
    requires t.HostSends? || t.ClientSends?
    ensures CarriedOn(s, t, conn, s.links[conn], Do(s, t).links[conn])
  {
    hide DoHostReceives, DoClientReceives, DoOpen, DoClose, DoHostSends, DoClientSends, DoClientRestarts;
    if t.HostSends? {
      HostSend(s, t.peer, t.source);
    } else {
      ClientSend(s, t.client, t.conn);
    }
  }

  lemma OtherCarries(s: State, t: Step, conn: nat)
    requires Bindings(s) && Enabled(s, t) && conn in s.links && conn in Do(s, t).links
    requires !t.HostSends? && !t.ClientSends? && !t.HostReceives? && !t.ClientReceives?
    ensures CarriedOn(s, t, conn, s.links[conn], Do(s, t).links[conn])
  {
    hide DoHostReceives, DoClientReceives, DoHostSends, DoClientSends;
  }

  /** A connection opens with its ClientConnect, signed if the client has the extender and there is room. */
  lemma OpenLaw(s: State, conn: nat, client: nat, peer: nat, extended: bool, room: bool)
    requires Enabled(s, Open(conn, client, peer, extended, room))
    ensures var link := Do(s, Open(conn, client, peer, extended, room)).links[conn];
      && link.up == [Connect(extended && room)] && link.down == []
      && link.client == client && link.peer == peer && link.extended == extended
  {
  }

  /** Which connections are open after a step. */
  lemma OpenAfter(s: State, t: Step, conn: nat)
    requires Inv(s) && Enabled(s, t)
    ensures conn in Do(s, t).links <==>
      || (t.Open? && t.conn == conn)
      || (conn in s.links && t != Close(conn) && t != HostRestarts
          && !(t.ClientRestarts? && s.links[conn].client == t.client))
  {
    hide LinkOk, History, Table, Known, DoHostReceives, DoClientReceives, DoHostSends, DoClientSends;
    if t.HostReceives? || t.ClientReceives? || t.HostSends? || t.ClientSends? {
      hide Bindings;
      MessageKeepsOpen(s, t);
    } else if t.ClientRestarts? {
      hide DoOpen;
    } else {
      hide DoClientRestarts, Bindings;
    }
  }

  lemma MessageKeepsOpen(s: State, t: Step)
    requires Enabled(s, t) && (t.HostReceives? || t.ClientReceives? || t.HostSends? || t.ClientSends?)
    ensures Do(s, t).links.Keys == s.links.Keys
  {
    hide DoHostReceives, DoClientReceives, DoOpen, DoClose, DoHostSends, DoClientSends, DoClientRestarts;
    match t
    case HostReceives(c) => HostReceipt(s, c);
    case ClientReceives(c) => ClientReceipt(s, c);
    case HostSends(p, source) => HostSend(s, p, source);
    case ClientSends(k, c) => ClientSend(s, k, c);
  }

  // ---- lookups ----

  /** The host looks up the peers in its table, and a client sends while it is connected and knows its host. */
  lemma LookupsAre(s: State, peer: nat, client: nat)
    requires Inv(s)
    ensures Enabled(s, HostLooksUp(peer)) <==> peer in s.versions
    ensures Enabled(s, ClientLooks(client)) <==>
      client in s.hostKnown && exists c :: c in s.links && s.links[c].client == client
  {
    hide LinkOk, Table, Known;
  }

  /** What was looked up is sent once. */
  lemma LookedUpIs(s: State, t: Step, peer: nat, source: nat, client: nat, conn: nat)
    requires Enabled(s, t)
    ensures (peer, source) in Do(s, t).hostLooked <==>
      || (t == HostLooksUp(peer) && source == s.sources[peer])
      || ((peer, source) in s.hostLooked && t != HostSends(peer, source))
    ensures (client, conn) in Do(s, t).clientLooked <==>
      || (t == ClientLooks(client) && conn == s.current[client])
      || ((client, conn) in s.clientLooked && t != ClientSends(client, conn))
  {
    match t
    case HostReceives(c) => hide DoClientReceives, DoHostSends, DoClientSends, DoOpen, DoClientRestarts;
    case ClientReceives(c) => hide DoHostReceives, DoHostSends, DoClientSends, DoOpen, DoClientRestarts;
    case HostSends(p, r) => hide DoClientReceives, DoHostReceives, DoClientSends, DoOpen, DoClientRestarts;
    case ClientSends(k, c) => hide DoClientReceives, DoHostSends, DoHostReceives, DoOpen, DoClientRestarts;
    case _ => hide DoHostReceives, DoClientReceives, DoHostSends, DoClientSends;
  }
}
