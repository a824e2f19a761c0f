/**
 The extender handshake of src/net.cpp as a state machine: one host, any
 number of clients, connections that come and go with peer ids reused, an
 ordered channel each way on every connection, and sends that look up their
 peer before they write to it.
*/
module Handshake {

  const VERSION := 2

  /** ClientConnect with its signature or without, ExtenderHello, and every other extender message. */
  datatype Message = Connect(signed: bool) | Hello(version: nat) | Content

  /** A connection. The three flags record what has been processed on it, for the statements below. */
  datatype Link = Link(
    client: nat, peer: nat, extended: bool, up: seq<Message>, down: seq<Message>,
    connected: bool, greeted: bool, answered: bool)

  datatype State = State(
    hostExtended: bool,              // the host has the extender
    links: map<nat, Link>,           // live connections
    used: set<nat>,                  // every connection there ever was
    bound: map<nat, nat>,            // the connection of each peer id in use
    current: map<nat, nat>,          // the connection of each connected client
    versions: map<nat, nat>,         // g_peer_versions
    sources: map<nat, nat>,          // for each of its entries, the connection it came from
    answeredEver: set<nat>,          // connections a client's hello came in on
    hostKnown: set<nat>,             // clients whose g_host_extended is set
    hostLooked: set<(nat, nat)>,     // peers found in g_peer_versions, with their source, not sent to yet
    clientLooked: set<(nat, nat)>)   // clients that found g_host_extended set, on that connection

  function Init(hostExtended: bool): State {
    State(hostExtended, map[], {}, map[], map[], map[], map[], {}, {}, {}, {})
  }

  datatype Step =
    | Open(conn: nat, client: nat, peer: nat, extended: bool, room: bool)
    | Close(conn: nat)
    | HostReceives(conn: nat)
    | ClientReceives(conn: nat)
    | HostLooksUp(peer: nat)
    | HostSends(peer: nat, source: nat)
    | ClientLooks(client: nat)
    | ClientSends(client: nat, conn: nat)
    | HostRestarts
    | ClientRestarts(client: nat)

  predicate Enabled(s: State, t: Step) {
    match t
    case Open(conn, client, peer, _, _) => conn !in s.used && client !in s.current && peer !in s.bound
    case Close(conn) => conn in s.links
    case HostReceives(conn) => conn in s.links && s.links[conn].up != []
    case ClientReceives(conn) => conn in s.links && s.links[conn].down != []
    case HostLooksUp(peer) => peer in s.versions && peer in s.sources
    case HostSends(peer, source) => (peer, source) in s.hostLooked
    case ClientLooks(client) => client in s.hostKnown && client in s.current
    case ClientSends(client, conn) => (client, conn) in s.clientLooked
    case HostRestarts => true
    case ClientRestarts(_) => true
  }

  function SetLink(s: State, conn: nat, link: Link): State {
    s.(links := s.links[conn := link])
  }

  /** connect_serialize_hook: a signed build string, where there is room, and nothing to the host until its hello. */
  function DoOpen(s: State, conn: nat, client: nat, peer: nat, extended: bool, room: bool): State {
    var link := Link(client, peer, extended, [Connect(extended && room)], [], false, false, false);
    s.(links := s.links[conn := link], used := s.used + {conn},
       bound := s.bound[peer := conn], current := s.current[client := conn],
       hostKnown := s.hostKnown - {client})
  }

  function DoClose(s: State, conn: nat): State
    requires conn in s.links
  {
    s.(links := s.links - {conn}, bound := s.bound - {s.links[conn].peer},
       current := s.current - {s.links[conn].client})
  }

  /** on_client_connect and the server half of handle_extender. */
  function DoHostReceives(s: State, conn: nat): State
    requires conn in s.links && s.links[conn].up != []
  {
    var link := s.links[conn];
    var rest := link.(up := link.up[1..]);
    if !s.hostExtended then SetLink(s, conn, rest)
    else
      match link.up[0]
      case Connect(signed) =>
        var greeting := if signed then [Hello(VERSION)] else [];
        SetLink(s.(versions := s.versions - {link.peer}), conn,
                rest.(connected := true, down := link.down + greeting))
      case Hello(version) =>
        SetLink(s, conn, rest.(answered := true))
        .(versions := s.versions[link.peer := version], sources := s.sources[link.peer := conn],
          answeredEver := s.answeredEver + {conn})
      case Content => SetLink(s, conn, rest)
  }

  /** The client half of handle_extender: the host's hello is answered on the same connection. */
  function DoClientReceives(s: State, conn: nat): State
    requires conn in s.links && s.links[conn].down != []
  {
    var link := s.links[conn];
    var rest := link.(down := link.down[1..]);
    if link.extended && link.down[0].Hello? then
      SetLink(s, conn, rest.(greeted := true, up := link.up + [Hello(VERSION)]))
      .(hostKnown := s.hostKnown + {link.client})
    else SetLink(s, conn, rest)
  }

  /** server_send and server_broadcast: the table is read under its lock, and the send comes after. */
  function DoHostSends(s: State, peer: nat, source: nat): State {
    var s' := s.(hostLooked := s.hostLooked - {(peer, source)});
    if peer in s.bound && s.bound[peer] in s.links then
      var link := s.links[s.bound[peer]];
      SetLink(s', s.bound[peer], link.(down := link.down + [Content]))
    else s'
  }

  function DoClientSends(s: State, client: nat, conn: nat): State {
    var s' := s.(clientLooked := s.clientLooked - {(client, conn)});
    if client in s.current && s.current[client] in s.links then
      var link := s.links[s.current[client]];
      SetLink(s', s.current[client], link.(up := link.up + [Content]))
    else s'
  }

  /** net_client_tick with another client object: its connection is gone and the host forgotten. */
  function DoClientRestarts(s: State, client: nat): State {
    var s' := if client in s.current && s.current[client] in s.links then DoClose(s, s.current[client]) else s;
    s'.(hostKnown := s'.hostKnown - {client})
  }

  function Do(s: State, t: Step): State
    requires Enabled(s, t)
  {
    match t
    case Open(conn, client, peer, extended, room) => DoOpen(s, conn, client, peer, extended, room)
    case Close(conn) => DoClose(s, conn)
    case HostReceives(conn) => DoHostReceives(s, conn)
    case ClientReceives(conn) => DoClientReceives(s, conn)
    case HostLooksUp(peer) => s.(hostLooked := s.hostLooked + {(peer, s.sources[peer])})
    case HostSends(peer, source) => DoHostSends(s, peer, source)
    case ClientLooks(client) => s.(clientLooked := s.clientLooked + {(client, s.current[client])})
    case ClientSends(client, conn) => DoClientSends(s, client, conn)
    case HostRestarts => s.(links := map[], bound := map[], current := map[], versions := map[])
    case ClientRestarts(client) => DoClientRestarts(s, client)
  }

  // ---- what every step keeps ----

  predicate NoConnect(ms: seq<Message>) {
    forall i :: 0 <= i < |ms| ==> !ms[i].Connect?
  }

  predicate NoHello(ms: seq<Message>) {
    forall i :: 0 <= i < |ms| ==> !ms[i].Hello?
  }

  /** Hellos follow one another: signed connect, host's hello, client's hello. */
  predicate LinkOk(hostExtended: bool, l: Link) {
    && (if l.connected || !hostExtended then true
        else l.up != [] && l.up[0].Connect? && NoConnect(l.up[1..]) && (l.up[0].signed ==> l.extended))
    && (l.connected ==> NoConnect(l.up) && hostExtended)
    && (l.connected || (NoHello(l.down) && !l.greeted))
    && (l.extended || NoHello(l.down))
    && (l.greeted ==> l.extended)
    && (l.greeted || (NoHello(l.up) && !l.answered))
  }

  predicate Bindings(s: State) {
    && (forall c :: c in s.links ==>
          && c in s.used
          && s.links[c].peer in s.bound && s.bound[s.links[c].peer] == c
          && s.links[c].client in s.current && s.current[s.links[c].client] == c)
    && (forall p :: p in s.bound ==> s.bound[p] in s.links && s.links[s.bound[p]].peer == p)
    && (forall k :: k in s.current ==> s.current[k] in s.links && s.links[s.current[k]].client == k)
  }

  predicate History(s: State) {
    && s.answeredEver <= s.used
    && (forall c :: c in s.links && c in s.answeredEver ==> s.links[c].answered)
    && (forall p :: p in s.versions ==> p in s.sources && s.sources[p] in s.answeredEver)
    && (forall p :: p in s.versions && s.sources[p] in s.links ==> s.links[s.sources[p]].peer == p)
    && (forall e :: e in s.hostLooked ==> e.1 in s.answeredEver)
    && (forall e :: e in s.hostLooked && e.1 in s.links ==> s.links[e.1].peer == e.0)
    && (forall e :: e in s.clientLooked ==> e.1 in s.used)
    && (forall e :: e in s.clientLooked && e.1 in s.links ==> s.links[e.1].greeted && s.links[e.1].client == e.0)
  }

  /** An entry of the table is of the peer's present connection, once that one's ClientConnect is in. */
  predicate Table(s: State) {
    forall p :: p in s.versions && p in s.bound && s.bound[p] in s.links && s.links[s.bound[p]].connected ==>
      p in s.sources && s.sources[p] == s.bound[p]
  }

  /** A client takes its host for extended only after that host's hello on its present connection. */
  predicate Known(s: State) {
    forall k :: k in s.hostKnown && k in s.current && s.current[k] in s.links ==> s.links[s.current[k]].greeted
  }

  predicate Inv(s: State) {
    && Bindings(s)
    && (forall c :: c in s.links ==> LinkOk(s.hostExtended, s.links[c]))
    && History(s) && Table(s) && Known(s)
  }

  lemma InitInv(hostExtended: bool)
    ensures Inv(Init(hostExtended))
  {
  }

  lemma OpenBindings(s: State, conn: nat, client: nat, peer: nat, extended: bool, room: bool)
    requires Bindings(s) && Enabled(s, Open(conn, client, peer, extended, room))
    ensures Bindings(DoOpen(s, conn, client, peer, extended, room))
  {
  }

  lemma OpenHistory(s: State, conn: nat, client: nat, peer: nat, extended: bool, room: bool)
    requires Bindings(s) && History(s) && Table(s) && Known(s) && Enabled(s, Open(conn, client, peer, extended, room))
    ensures var s' := DoOpen(s, conn, client, peer, extended, room); History(s') && Table(s') && Known(s')
  {
  }

  lemma OpenInv(s: State, conn: nat, client: nat, peer: nat, extended: bool, room: bool)
    requires Inv(s) && Enabled(s, Open(conn, client, peer, extended, room))
    ensures Inv(DoOpen(s, conn, client, peer, extended, room))
  {
    var s' := DoOpen(s, conn, client, peer, extended, room);
    assert LinkOk(s.hostExtended, s'.links[conn]) by {
      assert s'.links[conn].up[1..] == [];
    }
    OpenBindings(s, conn, client, peer, extended, room);
    OpenHistory(s, conn, client, peer, extended, room);
    hide LinkOk, Bindings, History, Table, Known;
  }

  lemma CloseBindings(s: State, conn: nat)
    requires Bindings(s) && conn in s.links
    ensures Bindings(DoClose(s, conn))
  {
  }

  lemma CloseHistory(s: State, conn: nat)
    requires History(s) && conn in s.links
    ensures History(DoClose(s, conn))
  {
  }

  lemma CloseTables(s: State, conn: nat)
    requires Table(s) && Known(s) && conn in s.links
    ensures Table(DoClose(s, conn)) && Known(DoClose(s, conn))
  {
  }

  lemma CloseInv(s: State, conn: nat)
    requires Inv(s) && conn in s.links
    ensures Inv(DoClose(s, conn))
  {
    CloseBindings(s, conn);
    CloseHistory(s, conn);
    CloseTables(s, conn);
    hide LinkOk, Bindings, History, Table, Known;
  }

  /** A link with more flags and other channels, on the same peer and client. */
  predicate Advances(s: State, was: Link, link: Link) {
    && link.client == was.client && link.peer == was.peer
    && (was.greeted ==> link.greeted) && (was.answered ==> link.answered)
    && (link.connected ==> was.connected || was.peer !in s.versions)
  }

  lemma SetLinkBindings(s: State, conn: nat, link: Link)
    requires Bindings(s) && conn in s.links && Advances(s, s.links[conn], link)
    ensures Bindings(SetLink(s, conn, link))
  {
    assert SetLink(s, conn, link).links.Keys == s.links.Keys;
  }

  lemma SetLinkHistory(s: State, conn: nat, link: Link)
    requires Bindings(s) && History(s) && conn in s.links && Advances(s, s.links[conn], link)
    ensures History(SetLink(s, conn, link))
  {
    assert SetLink(s, conn, link).links.Keys == s.links.Keys;
  }

  lemma SetLinkTables(s: State, conn: nat, link: Link)
    requires Bindings(s) && Table(s) && Known(s) && conn in s.links && Advances(s, s.links[conn], link)
    ensures Table(SetLink(s, conn, link)) && Known(SetLink(s, conn, link))
  {
  }

  /** A link may change what is in its channels and gain flags, if it stays well formed. */
  lemma SetLinkInv(s: State, conn: nat, link: Link)
    requires Inv(s) && conn in s.links && LinkOk(s.hostExtended, link) && Advances(s, s.links[conn], link)
    ensures Inv(SetLink(s, conn, link))
  {
    SetLinkBindings(s, conn, link);
    SetLinkHistory(s, conn, link);
    SetLinkTables(s, conn, link);
    hide LinkOk, Bindings, History, Table, Known;
  }

  lemma SameBindings(s: State, s': State)
    requires Bindings(s) && s'.links == s.links && s'.used == s.used && s'.bound == s.bound && s'.current == s.current
    ensures Bindings(s')
  {
  }

  lemma SameTable(s: State, s': State)
    requires Table(s) && s'.links == s.links && s'.bound == s.bound && s'.versions == s.versions &&
      s'.sources == s.sources
    ensures Table(s')
  {
  }

  lemma SameKnown(s: State, s': State)
    requires Known(s) && s'.links == s.links && s'.current == s.current && s'.hostKnown == s.hostKnown
    ensures Known(s')
  {
  }

  lemma LinkIs(s: State, conn: nat)
    requires Inv(s) && conn in s.links
    ensures LinkOk(s.hostExtended, s.links[conn])
  {
    hide LinkOk, Bindings, History, Table, Known;
  }

  /** What a link is after its client received something. */
  function Received(link: Link): Link
    requires link.down != []
  {
    var rest := link.(down := link.down[1..]);
    if link.extended && link.down[0].Hello? then rest.(greeted := true, up := link.up + [Hello(VERSION)]) else rest
  }

  lemma ReceivedOk(hostExtended: bool, link: Link)
    requires LinkOk(hostExtended, link) && link.down != []
    ensures LinkOk(hostExtended, Received(link))
  {
  }

  /** What a link is after the host received something. */
  function Taken(hostExtended: bool, link: Link): Link
    requires link.up != []
  {
    var rest := link.(up := link.up[1..]);
    if !hostExtended then rest
    else
      match link.up[0]
      case Connect(signed) => rest.(connected := true, down := link.down + if signed then [Hello(VERSION)] else [])
      case Hello(_) => rest.(answered := true)
      case Content => rest
  }

  lemma TakenOk(hostExtended: bool, link: Link)
    requires LinkOk(hostExtended, link) && link.up != []
    ensures LinkOk(hostExtended, Taken(hostExtended, link))
  {
  }

  lemma HostReceivesInv(s: State, conn: nat)
    requires Inv(s) && Enabled(s, HostReceives(conn))
    ensures Inv(DoHostReceives(s, conn))
  {
    var link := s.links[conn];
    LinkIs(s, conn);
    TakenOk(s.hostExtended, link);
    hide LinkOk, NoConnect, NoHello, Inv;
    var taken := Taken(s.hostExtended, link);
    if !s.hostExtended || link.up[0].Content? {
      SetLinkInv(s, conn, taken);
    } else if link.up[0].Connect? {
      ForgetPeerInv(s, link.peer);
      SetLinkInv(s.(versions := s.versions - {link.peer}), conn, taken);
    } else {
      SetLinkInv(s, conn, taken);
      AnswerInv(SetLink(s, conn, taken), conn, link.up[0].version);
    }
  }

  lemma ForgetPeerInv(s: State, peer: nat)
    requires Inv(s)
    ensures Inv(s.(versions := s.versions - {peer}))
  {
    hide LinkOk, Bindings, Known;
    SameBindings(s, s.(versions := s.versions - {peer}));
    SameKnown(s, s.(versions := s.versions - {peer}));
  }

  /** Recording a client's hello, which came in on a connection the client has answered on. */
  lemma AnswerInv(s: State, conn: nat, version: nat)
    requires Inv(s) && conn in s.links && s.links[conn].answered
    ensures Inv(s.(versions := s.versions[s.links[conn].peer := version],
                   sources := s.sources[s.links[conn].peer := conn],
                   answeredEver := s.answeredEver + {conn}))
  {
    hide LinkOk;
  }

  lemma ClientReceivesInv(s: State, conn: nat)
    requires Inv(s) && Enabled(s, ClientReceives(conn))
    ensures Inv(DoClientReceives(s, conn))
  {
    LinkIs(s, conn);
    hide Inv;
    var link := s.links[conn];
    ReceivedOk(s.hostExtended, link);
    hide LinkOk;
    SetLinkInv(s, conn, Received(link));
    var s1 := SetLink(s, conn, Received(link));
    if s1.links[conn].greeted {
      KnownInv(s1, conn);
    }
  }

  lemma KnownInv(s: State, conn: nat)
    requires Inv(s) && conn in s.links && s.links[conn].greeted
    ensures Inv(s.(hostKnown := s.hostKnown + {s.links[conn].client}))
  {
    hide LinkOk;
  }

  lemma ContentKeepsLink(hostExtended: bool, link: Link)
    requires LinkOk(hostExtended, link)
    ensures LinkOk(hostExtended, link.(down := link.down + [Content]))
    ensures LinkOk(hostExtended, link.(up := link.up + [Content]))
  {
    if link.up != [] {
      assert (link.up + [Content])[1..] == link.up[1..] + [Content];
    }
  }

  lemma HostSendsInv(s: State, peer: nat, source: nat)
    requires Inv(s) && Enabled(s, HostSends(peer, source))
    ensures Inv(DoHostSends(s, peer, source))
  {
    hide LinkOk;
    var s1 := s.(hostLooked := s.hostLooked - {(peer, source)});
    assert Inv(s1);
    if peer in s.bound && s.bound[peer] in s.links {
      var link := s.links[s.bound[peer]];
      ContentKeepsLink(s.hostExtended, link);
      SetLinkInv(s1, s.bound[peer], link.(down := link.down + [Content]));
    }
  }

  lemma ClientSendsInv(s: State, client: nat, conn: nat)
    requires Inv(s) && Enabled(s, ClientSends(client, conn))
    ensures Inv(DoClientSends(s, client, conn))
  {
    hide LinkOk;
    var s1 := s.(clientLooked := s.clientLooked - {(client, conn)});
    assert Inv(s1);
    if client in s.current && s.current[client] in s.links {
      var link := s.links[s.current[client]];
      ContentKeepsLink(s.hostExtended, link);
      SetLinkInv(s1, s.current[client], link.(up := link.up + [Content]));
    }
  }

  lemma ClientRestartsInv(s: State, client: nat)
    requires Inv(s)
    ensures Inv(DoClientRestarts(s, client))
  {
    hide Inv;
    var s1 := s;
    if client in s.current && s.current[client] in s.links {
      CloseInv(s, s.current[client]);
      s1 := DoClose(s, s.current[client]);
    }
    ForgetInv(s1, client);
  }

  lemma ForgetInv(s: State, client: nat)
    requires Inv(s)
    ensures Inv(s.(hostKnown := s.hostKnown - {client}))
  {
    hide LinkOk;
  }

  lemma HostLooksUpInv(s: State, peer: nat)
    requires Inv(s) && Enabled(s, HostLooksUp(peer))
    ensures Inv(s.(hostLooked := s.hostLooked + {(peer, s.sources[peer])}))
  {
    hide LinkOk, Bindings, Table, Known;
    var s' := s.(hostLooked := s.hostLooked + {(peer, s.sources[peer])});
    assert Table(s') by { SameTable(s, s'); }
    assert Known(s') by { SameKnown(s, s'); }
    assert Bindings(s') by { SameBindings(s, s'); }
  }

  lemma CurrentIs(s: State, client: nat)
    requires Bindings(s) && Known(s) && client in s.current
    ensures var conn := s.current[client];
      && conn in s.links && conn in s.used && s.links[conn].client == client
      && (client in s.hostKnown ==> s.links[conn].greeted)
  {
  }

  lemma LookedHistory(s: State, client: nat)
    requires Bindings(s) && Known(s) && History(s) && Enabled(s, ClientLooks(client))
    ensures History(s.(clientLooked := s.clientLooked + {(client, s.current[client])}))
  {
    CurrentIs(s, client);
    hide Bindings, Known;
  }

  lemma ClientLooksInv(s: State, client: nat)
    requires Inv(s) && Enabled(s, ClientLooks(client))
    ensures Inv(s.(clientLooked := s.clientLooked + {(client, s.current[client])}))
  {
    hide LinkOk, Bindings, Table, Known;
    var conn := s.current[client];
    CurrentIs(s, client);
    var s' := s.(clientLooked := s.clientLooked + {(client, conn)});
    LookedHistory(s, client);
    hide History;
    assert Table(s') by { SameTable(s, s'); }
    assert Known(s') by { SameKnown(s, s'); }
    assert Bindings(s') by { SameBindings(s, s'); }
  }

  /** Every step keeps the invariant. */
  lemma StepInv(s: State, t: Step)
    requires Inv(s) && Enabled(s, t)
    ensures Inv(Do(s, t))
  {
    hide Inv, DoOpen, DoClose, DoHostReceives, DoClientReceives, DoHostSends, DoClientSends, DoClientRestarts;
    match t
    case Open(conn, client, peer, extended, room) => OpenInv(s, conn, client, peer, extended, room);
    case Close(conn) => CloseInv(s, conn);
    case HostReceives(conn) => HostReceivesInv(s, conn);
    case ClientReceives(conn) => ClientReceivesInv(s, conn);
    case HostSends(peer, source) => HostSendsInv(s, peer, source);
    case ClientSends(client, conn) => ClientSendsInv(s, client, conn);
    case ClientRestarts(client) => ClientRestartsInv(s, client);
    case HostLooksUp(peer) => HostLooksUpInv(s, peer);
    case ClientLooks(client) => ClientLooksInv(s, client);
    case HostRestarts => RestartInv(s);
  }

  lemma RestartInv(s: State)
    requires Inv(s)
    ensures Inv(s.(links := map[], bound := map[], current := map[], versions := map[]))
  {
  }

  // ---- over every run ----

  predicate Runs(s: State, steps: seq<Step>)
    decreases |steps|
  {
    steps == [] || (Enabled(s, steps[0]) && Runs(Do(s, steps[0]), steps[1..]))
  }

  function After(s: State, steps: seq<Step>): State
    requires Runs(s, steps)
    decreases |steps|
  {
    if steps == [] then s else After(Do(s, steps[0]), steps[1..])
  }

  ghost predicate Reachable(s: State) {
    exists hostExtended, steps :: Runs(Init(hostExtended), steps) && After(Init(hostExtended), steps) == s
  }

  lemma {:induction false} RunInv(s: State, steps: seq<Step>)
    requires Inv(s) && Runs(s, steps)
    ensures Inv(After(s, steps))
    decreases |steps|
  {
    hide Inv, Do, Enabled;
    if steps != [] {
      StepInv(s, steps[0]);
      RunInv(Do(s, steps[0]), steps[1..]);
    }
  }

  lemma ReachableInv(s: State)
    requires Reachable(s)
    ensures Inv(s)
  {
    hide Inv, Do, Enabled, Init;
    var hostExtended, steps :| Runs(Init(hostExtended), steps) && After(Init(hostExtended), steps) == s;
    InitInv(hostExtended);
    RunInv(Init(hostExtended), steps);
  }

  predicate SaidHello(link: Link) {
    link.answered && link.greeted && link.extended
  }

  /**
   In every reachable state the table holds a peer whose ClientConnect is in
   only for a hello on that very connection, from a client with the extender.
  */
  lemma TableMeansHello(s: State, peer: nat)
    requires Reachable(s) && peer in s.versions && peer in s.bound && s.bound[peer] in s.links
    requires s.links[s.bound[peer]].connected
    ensures peer in s.sources && s.sources[peer] == s.bound[peer] && SaidHello(s.links[s.bound[peer]])
  {
    ReachableInv(s);
    assert LinkOk(s.hostExtended, s.links[s.bound[peer]]);
  }

  /** A message put at the end of a connection's channel to the client, and nothing else changed. */
  predicate WritesDown(s: State, s': State, conn: nat) {
    conn in s.links && s'.links == s.links[conn := s.links[conn].(down := s.links[conn].down + [Content])]
  }

  predicate WritesUp(s: State, s': State, conn: nat) {
    conn in s.links && s'.links == s.links[conn := s.links[conn].(up := s.links[conn].up + [Content])]
  }

  /**
   A send is written to the connection its lookup was about exactly while that
   one is open, and then its client has said hello on it; else it is written to
   the peer's present connection, if it has one.
  */
  lemma HostSendsToHello(s: State, peer: nat, source: nat)
    requires Reachable(s) && Enabled(s, HostSends(peer, source))
    ensures source in s.links <==> WritesDown(s, Do(s, HostSends(peer, source)), source)
    ensures source in s.links ==> SaidHello(s.links[source])
    ensures source !in s.links ==>
      if peer in s.bound then WritesDown(s, Do(s, HostSends(peer, source)), s.bound[peer])
      else Do(s, HostSends(peer, source)).links == s.links
  {
    ReachableInv(s);
    if source in s.links {
      assert LinkOk(s.hostExtended, s.links[source]);
    }
  }

  /** So a client without the extender is written to only when the connection that said hello has closed. */
  lemma StrayMeansClosed(s: State, peer: nat, source: nat)
    requires Reachable(s) && Enabled(s, HostSends(peer, source))
    requires peer in s.bound && s.bound[peer] in s.links && !s.links[s.bound[peer]].extended
    ensures source !in s.links
  {
    ReachableInv(s);
    HostSendsToHello(s, peer, source);
  }

  /** ExtenderHello itself goes only to clients that have the extender. */
  lemma HelloOnlyToExtended(s: State, conn: nat)
    requires Reachable(s) && conn in s.links && !s.links[conn].extended
    ensures NoHello(s.links[conn].down)
  {
    ReachableInv(s);
    assert LinkOk(s.hostExtended, s.links[conn]);
  }

  /** A client sends only after the hello of a host with the extender, on the connection it has now. */
  lemma ClientSendsAfterHello(s: State, client: nat)
    requires Reachable(s) && Enabled(s, ClientLooks(client))
    ensures s.current[client] in s.links && s.links[s.current[client]].greeted && s.hostExtended
  {
    ReachableInv(s);
    assert LinkOk(s.hostExtended, s.links[s.current[client]]);
  }

  /**
   What a client then sends is written to the connection it looked at exactly
   while that one is open, and then it had the host's hello; else it is written
   to the client's present connection, if it has one.
  */
  lemma ClientSendReaches(s: State, client: nat, conn: nat)
    requires Reachable(s) && Enabled(s, ClientSends(client, conn))
    ensures conn in s.links <==> WritesUp(s, Do(s, ClientSends(client, conn)), conn)
    ensures conn in s.links <==> client in s.current && s.current[client] == conn
    ensures conn in s.links ==> s.links[conn].greeted && s.hostExtended
    ensures conn !in s.links ==>
      if client in s.current then WritesUp(s, Do(s, ClientSends(client, conn)), s.current[client])
      else Do(s, ClientSends(client, conn)).links == s.links
  {
    ReachableInv(s);
    if conn in s.links {
      assert LinkOk(s.hostExtended, s.links[conn]);
    }
  }

  /** On a new signed connection to a host with the extender, three deliveries are all that it takes. */
  lemma HandshakeCanComplete(s: State, conn: nat)
    requires Inv(s) && s.hostExtended && conn in s.links
    requires s.links[conn].up == [Connect(true)] && s.links[conn].down == []
    ensures var steps := [HostReceives(conn), ClientReceives(conn), HostReceives(conn)];
      && Runs(s, steps)
      && var s' := After(s, steps);
        && conn in s'.links && s'.links[conn].answered && s'.links[conn].up == [] == s'.links[conn].down
        && s.links[conn].peer in s'.versions && s'.versions[s.links[conn].peer] == VERSION
        && s.links[conn].peer in s'.sources && s'.sources[s.links[conn].peer] == conn
        && s.links[conn].client in s'.hostKnown
        && s'.hostExtended && s'.used == s.used && s'.current == s.current
        && s'.links[conn].peer == s.links[conn].peer && s'.links[conn].client == s.links[conn].client
  {
    var steps := [HostReceives(conn), ClientReceives(conn), HostReceives(conn)];
    assert LinkOk(s.hostExtended, s.links[conn]);
    var s1 := Do(s, steps[0]);
    assert s1.links[conn].up == [] && s1.links[conn].down == [Hello(VERSION)];
    var s2 := Do(s1, steps[1]);
    assert s2.links[conn].up == [Hello(VERSION)] && s2.links[conn].down == [];
    var s3 := Do(s2, steps[2]);
    assert s3.links[conn].up == [];
    RunThree(s, steps[0], steps[1], steps[2]);
  }

  // ---- the handshake among other steps ----

  /** The host has the client's hello on this connection in its table, and the client knows its host. */
  predicate BothKnow(s: State, conn: nat)
    requires conn in s.links
  {
    var link := s.links[conn];
    && SaidHello(link) && link.peer in s.versions && link.peer in s.sources && s.sources[link.peer] == conn
    && link.client in s.hostKnown
  }

  predicate HasHello(ms: seq<Message>) {
    exists i :: 0 <= i < |ms| && ms[i].Hello?
  }

  /** The handshake is on its way: the signed connect, the host's hello or the client's is, or it is done. */
  predicate Underway(s: State, conn: nat)
    requires conn in s.links
  {
    var link := s.links[conn];
    && s.hostExtended && link.extended
    && if !link.connected then link.up != [] && link.up[0] == Connect(true)
       else if HasHello(link.down) then true
       else link.greeted && link.client in s.hostKnown && (HasHello(link.up) || BothKnow(s, conn))
  }

  lemma HelloAfter(ms: seq<Message>, m: Message)
    ensures HasHello(ms) ==> HasHello(ms + [m])
    ensures m.Hello? ==> HasHello(ms + [m])
    ensures ms != [] && HasHello(ms) && !ms[0].Hello? ==> HasHello(ms[1..])
  {
    if HasHello(ms) {
      var i :| 0 <= i < |ms| && ms[i].Hello?;
      assert (ms + [m])[i].Hello?;
      if !ms[0].Hello? {
        assert ms[1..][i - 1].Hello?;
      }
    }
    assert (ms + [m])[|ms|] == m;
  }

  lemma ReceiptUnderway(s: State, conn: nat)
    requires Inv(s) && conn in s.links && Underway(s, conn)
    ensures s.links[conn].up != [] ==> Underway(DoHostReceives(s, conn), conn)
    ensures s.links[conn].down != [] ==> Underway(DoClientReceives(s, conn), conn)
  {
    var link := s.links[conn];
    assert LinkOk(s.hostExtended, link);
    HelloAfter(link.down, Hello(VERSION));
    HelloAfter(link.up, Hello(VERSION));
    hide Bindings, History, Table, Known, HasHello;
  }

  /** What happens on one connection is nothing to another. */
  lemma OtherUnderway(s: State, conn: nat, other: nat)
    requires Inv(s) && conn in s.links && Underway(s, conn) && other in s.links && other != conn
    ensures s.links[other].up != [] ==> Underway(DoHostReceives(s, other), conn)
    ensures s.links[other].down != [] ==> Underway(DoClientReceives(s, other), conn)
    ensures Underway(DoClose(s, other), conn)
  {
    assert s.links[other].peer != s.links[conn].peer && s.links[other].client != s.links[conn].client;
    hide LinkOk, History, Table, Known, HasHello, Bindings;
  }

  lemma SendUnderway(s: State, conn: nat, at: nat, link: Link)
    requires conn in s.links && at in s.links && Underway(s, conn)
    requires link == s.links[at].(down := s.links[at].down + [Content])
          || link == s.links[at].(up := s.links[at].up + [Content])
    ensures Underway(SetLink(s, at, link), conn)
  {
    HelloAfter(s.links[conn].down, Content);
    HelloAfter(s.links[conn].up, Content);
    hide HasHello;
  }

  /** Every step that leaves the connection open leaves the handshake on its way. */
  lemma StepUnderway(s: State, t: Step, conn: nat)
    requires Inv(s) && Enabled(s, t) && conn in s.links && Underway(s, conn) && conn in Do(s, t).links
    ensures Underway(Do(s, t), conn)
  {
    hide LinkOk, History, Table, Known, HasHello, Inv;
    match t
    case HostReceives(other) =>
      hide DoHostReceives, Underway;
      if other == conn { ReceiptUnderway(s, conn); } else { OtherUnderway(s, conn, other); }
    case ClientReceives(other) =>
      hide DoClientReceives, Underway;
      if other == conn { ReceiptUnderway(s, conn); } else { OtherUnderway(s, conn, other); }
    case HostSends(peer, source) =>
      var s1 := s.(hostLooked := s.hostLooked - {(peer, source)});
      assert Underway(s1, conn);
      if peer in s.bound && s.bound[peer] in s.links {
        var link := s.links[s.bound[peer]];
        SendUnderway(s1, conn, s.bound[peer], link.(down := link.down + [Content]));
      }
    case ClientSends(client, source) =>
      var s1 := s.(clientLooked := s.clientLooked - {(client, source)});
      assert Underway(s1, conn);
      if client in s.current && s.current[client] in s.links {
        var link := s.links[s.current[client]];
        SendUnderway(s1, conn, s.current[client], link.(up := link.up + [Content]));
      }
    case Open(_, client, _, _, _) => OwnClient(s, conn);
    case ClientRestarts(client) => OwnClient(s, conn);
    case _ =>
  }

  lemma OwnClient(s: State, conn: nat)
    requires Inv(s) && conn in s.links
    ensures s.links[conn].client in s.current && s.current[s.links[conn].client] == conn && conn in s.used
    ensures s.links[conn].peer in s.bound
  {
  }

  /** A connection that is gone does not come back. */
  lemma {:induction false} GoneForGood(s: State, steps: seq<Step>, conn: nat)
    requires Runs(s, steps) && conn in s.used && conn !in s.links
    ensures conn !in After(s, steps).links
    decreases |steps|
  {
    if steps != [] {
      hide Do, Enabled;
      StepLinks(s, steps[0]);
      GoneForGood(Do(s, steps[0]), steps[1..], conn);
    }
  }

  /** Only opening makes a connection, which there never was before. */
  lemma StepLinks(s: State, t: Step)
    requires Enabled(s, t)
    ensures s.used <= Do(s, t).used
    ensures forall c :: c in Do(s, t).links ==> c in s.links || c !in s.used
  {
    match t
    case HostReceives(conn) =>
    case ClientReceives(conn) =>
    case HostSends(peer, source) =>
    case ClientSends(client, conn) =>
    case ClientRestarts(client) =>
    case _ =>
  }

  lemma {:induction false} RunUnderway(s: State, steps: seq<Step>, conn: nat)
    requires Inv(s) && Runs(s, steps) && conn in s.links && Underway(s, conn) && conn in After(s, steps).links
    ensures Underway(After(s, steps), conn)
    decreases |steps|
  {
    hide Inv, Do, Enabled, Underway;
    if steps != [] {
      var s1 := Do(s, steps[0]);
      OwnClient(s, conn);
      StepLinks(s, steps[0]);
      StepInv(s, steps[0]);
      if conn !in s1.links {
        GoneForGood(s1, steps[1..], conn);
      }
      StepUnderway(s, steps[0], conn);
      RunUnderway(s1, steps[1..], conn);
    }
  }

  /**
   Whatever else happens and in whatever order: once all that was sent on a
   signed connection has been received, both sides know of each other.
  */
  lemma HandshakeCompletes(s: State, steps: seq<Step>, conn: nat)
    requires Inv(s) && s.hostExtended && conn in s.links
    requires s.links[conn].up != [] && s.links[conn].up[0] == Connect(true)
    requires Runs(s, steps) && conn in After(s, steps).links
    requires After(s, steps).links[conn].up == [] == After(s, steps).links[conn].down
    ensures BothKnow(After(s, steps), conn)
  {
    assert LinkOk(s.hostExtended, s.links[conn]);
    hide Inv, Runs, After, LinkOk;
    RunUnderway(s, steps, conn);
  }

  lemma RunThree(s: State, a: Step, b: Step, c: Step)
    requires Enabled(s, a) && Enabled(Do(s, a), b) && Enabled(Do(Do(s, a), b), c)
    ensures Runs(s, [a, b, c]) && After(s, [a, b, c]) == Do(Do(Do(s, a), b), c)
  {
    hide Do, Enabled;
    var s2 := Do(Do(s, a), b);
    assert After(Do(s2, c), []) == Do(s2, c);
    OneMore(s2, c, []);
    OneMore(Do(s, a), b, [c] + []);
    OneMore(s, a, [b] + ([c] + []));
    assert [a, b, c] == [a] + ([b] + ([c] + []));
  }

  // ---- where the guarantee ends ----

  predicate Stray(s: State, conn: nat) {
    conn in s.links && !s.links[conn].extended && Content in s.links[conn].down
  }

  lemma OneMore(s: State, t: Step, steps: seq<Step>)
    requires Enabled(s, t) && Runs(Do(s, t), steps)
    ensures Runs(s, [t] + steps) && After(s, [t] + steps) == After(Do(s, t), steps)
  {
    hide Do, Enabled;
    assert ([t] + steps)[1..] == steps;
  }

  /** A peer looked up, then its id passed to a client without the extender, then the send. */
  function LateSend(peer: nat, conn: nat, heir: nat, client: nat): seq<Step> {
    [HostLooksUp(peer)]
    + ([Close(conn)] + ([Open(heir, client, peer, false, false)] + ([HostReceives(heir)] + [HostSends(peer, conn)])))
  }

  /** The id passed on, and a lookup and a send before the new ClientConnect is in. */
  function EarlySend(peer: nat, conn: nat, heir: nat, client: nat): seq<Step> {
    [Close(conn)] + ([Open(heir, client, peer, false, false)] + ([HostLooksUp(peer)] + [HostSends(peer, conn)]))
  }

  predicate Introduced(s: State, peer: nat, conn: nat, heir: nat, client: nat) {
    && s.hostExtended && conn in s.links && s.links[conn].peer == peer
    && peer in s.versions && peer in s.sources && s.sources[peer] == conn
    && heir !in s.used && client !in s.current
  }

  lemma SendStrays(s: State, peer: nat, conn: nat, heir: nat)
    requires (peer, conn) in s.hostLooked && peer in s.bound && s.bound[peer] == heir
    requires heir in s.links && !s.links[heir].extended
    ensures Runs(s, [HostSends(peer, conn)]) && Stray(After(s, [HostSends(peer, conn)]), heir)
  {
    var s' := Do(s, HostSends(peer, conn));
    assert Content in s'.links[heir].down by {
      assert s'.links[heir].down[|s.links[heir].down|] == Content;
    }
    assert [HostSends(peer, conn)][1..] == [];
  }

  lemma CloseAndOpen(s: State, peer: nat, conn: nat, heir: nat, client: nat)
    requires Inv(s) && conn in s.links && s.links[conn].peer == peer && heir !in s.used && client !in s.current
    ensures Enabled(s, Close(conn)) && Enabled(Do(s, Close(conn)), Open(heir, client, peer, false, false))
    ensures var s' := Do(Do(s, Close(conn)), Open(heir, client, peer, false, false));
      && heir in s'.links && !s'.links[heir].extended && s'.links[heir].up == [Connect(false)]
      && s'.links[heir].peer == peer && s'.bound[peer] == heir
      && s'.hostLooked == s.hostLooked && s'.versions == s.versions && s'.sources == s.sources
      && s'.hostExtended == s.hostExtended
  {
    hide LinkOk, History;
  }

  /**
   The guarantee of src/net.cpp:861-863, never to send content to a client
   that took over a peer id without the extender, does not hold: from every
   state with a peer in the table, the lock being released before the send,
   or the table being read before the new ClientConnect is in, breaks it.
  */
  lemma LateSendStrays(s: State, peer: nat, conn: nat, heir: nat, client: nat)
    requires Inv(s) && Introduced(s, peer, conn, heir, client)
    ensures Runs(s, LateSend(peer, conn, heir, client))
    ensures Stray(After(s, LateSend(peer, conn, heir, client)), heir)
  {
    var s1 := Do(s, HostLooksUp(peer));
    StepInv(s, HostLooksUp(peer));
    CloseAndOpen(s1, peer, conn, heir, client);
    var s2 := Do(s1, Close(conn));
    var s3 := Do(s2, Open(heir, client, peer, false, false));
    var s4 := Do(s3, HostReceives(heir));
    SendStrays(s4, peer, conn, heir);
    hide Inv, Do, Enabled, Stray;
    var rest := [HostSends(peer, conn)];
    OneMore(s3, HostReceives(heir), rest);
    OneMore(s2, Open(heir, client, peer, false, false), [HostReceives(heir)] + rest);
    OneMore(s1, Close(conn), [Open(heir, client, peer, false, false)] + ([HostReceives(heir)] + rest));
    OneMore(s, HostLooksUp(peer),
            [Close(conn)] + ([Open(heir, client, peer, false, false)] + ([HostReceives(heir)] + rest)));
  }

  lemma EarlySendStrays(s: State, peer: nat, conn: nat, heir: nat, client: nat)
    requires Inv(s) && Introduced(s, peer, conn, heir, client)
    ensures Runs(s, EarlySend(peer, conn, heir, client))
    ensures Stray(After(s, EarlySend(peer, conn, heir, client)), heir)
  {
    CloseAndOpen(s, peer, conn, heir, client);
    var s1 := Do(s, Close(conn));
    var s2 := Do(s1, Open(heir, client, peer, false, false));
    var s3 := Do(s2, HostLooksUp(peer));
    SendStrays(s3, peer, conn, heir);
    hide Inv, Do, Enabled, Stray;
    var rest := [HostSends(peer, conn)];
    OneMore(s2, HostLooksUp(peer), rest);
    OneMore(s1, Open(heir, client, peer, false, false), [HostLooksUp(peer)] + rest);
    OneMore(s, Close(conn), [Open(heir, client, peer, false, false)] + ([HostLooksUp(peer)] + rest));
  }

  /** A connection that a client sent content on before the host's hello. */
  predicate Unasked(s: State, conn: nat) {
    conn in s.links && !s.links[conn].greeted && Content in s.links[conn].up
  }

  /** The flag looked at, the connection closed and another opened, then the send. */
  function ReopenedSend(client: nat, conn: nat, heir: nat, peer: nat, extended: bool, room: bool): seq<Step> {
    [ClientLooks(client)]
    + ([Close(conn)] + ([Open(heir, client, peer, extended, room)] + [ClientSends(client, conn)]))
  }

  lemma ReopenedStates(s: State, client: nat, heir: nat, extended: bool, room: bool)
    requires Inv(s) && client in s.hostKnown && client in s.current && heir !in s.used
    ensures s.current[client] in s.links
    ensures var conn := s.current[client];
      var peer := s.links[conn].peer;
      && Enabled(s, ClientLooks(client)) && Enabled(Do(s, ClientLooks(client)), Close(conn))
      && var s2 := Do(Do(s, ClientLooks(client)), Close(conn));
         && Enabled(s2, Open(heir, client, peer, extended, room))
         && var s3 := Do(s2, Open(heir, client, peer, extended, room));
            && Enabled(s3, ClientSends(client, conn)) && client in s3.current && s3.current[client] == heir
            && heir in s3.links && !s3.links[heir].greeted
  {
    hide LinkOk, History, Table, Known;
  }

  lemma SendIsUnasked(s: State, client: nat, conn: nat)
    requires Enabled(s, ClientSends(client, conn)) && client in s.current && s.current[client] in s.links
    requires !s.links[s.current[client]].greeted
    ensures Runs(s, [ClientSends(client, conn)]) && Unasked(After(s, [ClientSends(client, conn)]), s.current[client])
  {
    var heir := s.current[client];
    var s' := Do(s, ClientSends(client, conn));
    assert s'.links[heir].up[|s.links[heir].up|] == Content;
    assert [ClientSends(client, conn)][1..] == [];
  }

  /**
   Nor does a client send only after the hello of the connection it writes to:
   from every state in which it takes its host for extended, a connection that
   closes and opens again between the look and the send breaks it.
  */
  lemma ReopenedSendStrays(s: State, client: nat, heir: nat, extended: bool, room: bool)
    requires Inv(s) && client in s.hostKnown && client in s.current && heir !in s.used
    ensures var conn := s.current[client];
      && conn in s.links
      && var steps := ReopenedSend(client, conn, heir, s.links[conn].peer, extended, room);
         Runs(s, steps) && Unasked(After(s, steps), heir)
  {
    ReopenedStates(s, client, heir, extended, room);
    hide Inv, Do, Enabled, Unasked;
    var conn := s.current[client];
    var peer := s.links[conn].peer;
    var s1 := Do(s, ClientLooks(client));
    var s2 := Do(s1, Close(conn));
    var s3 := Do(s2, Open(heir, client, peer, extended, room));
    SendIsUnasked(s3, client, conn);
    OneMore(s2, Open(heir, client, peer, extended, room), [ClientSends(client, conn)]);
    OneMore(s1, Close(conn), [Open(heir, client, peer, extended, room)] + [ClientSends(client, conn)]);
    OneMore(s, ClientLooks(client),
            [Close(conn)] + ([Open(heir, client, peer, extended, room)] + [ClientSends(client, conn)]));
  }

  // ---- such states are reached ----

  lemma FirstOpen(peer: nat, conn: nat, owner: nat)
    ensures var open := Open(conn, owner, peer, true, true);
      && Enabled(Init(true), open)
      && var s := Do(Init(true), open);
         && Inv(s) && s.hostExtended && s.used == {conn} && s.current == map[owner := conn] && conn in s.links
         && s.links[conn] == Link(owner, peer, true, [Connect(true)], [], false, false, false)
  {
    InitInv(true);
    StepInv(Init(true), Open(conn, owner, peer, true, true));
    hide Inv;
  }

  /**
   Opening a connection and the handshake's three deliveries lead from the
   start to a state the races set out from.
  */
  lemma IntroducedIsReached(peer: nat, conn: nat, owner: nat, heir: nat, client: nat)
    requires heir != conn && client != owner
    ensures exists s ::
      Reachable(s) && Introduced(s, peer, conn, heir, client) && owner in s.hostKnown && owner in s.current
  {
    hide Do, Enabled, Inv, Runs, Init, After;
    FirstOpen(peer, conn, owner);
    var open := Open(conn, owner, peer, true, true);
    var s1 := Do(Init(true), open);
    HandshakeCanComplete(s1, conn);
    var steps := [HostReceives(conn), ClientReceives(conn), HostReceives(conn)];
    OneMore(Init(true), open, steps);
    var s := After(s1, steps);
    assert Runs(Init(true), [open] + steps) && After(Init(true), [open] + steps) == s;
    assert Reachable(s);
  }
}
