/** The gossip network of src/zgossip.c: nodes, their tuples, and the connections between them, as a
    state machine whose steps are the handling of one API command or one protocol message. */
module Gossip {
  import opened Wrappers

  type Key = string

  type Value = string

  /** The protocol messages; PING and PONG carry no information. */
  datatype Msg = Hello | Publish(key: Key, value: Value) | Invalid

  /** What one server holds, and what it has delivered to its application. */
  datatype Node = Node(tuples: map<Key, Value>, delivered: seq<(Key, Value)>)

  /** A DEALER of node `client` connected to the ROUTER of node `server`.  Both directions are
      lossless queues.  The server knows the client once it has handled its HELLO, until it forgets it.
      `reset` records that it has forgotten it at some time; no step depends on it. */
  datatype Connection = Connection(client: nat, server: nat, up: seq<Msg>, down: seq<Msg>, known: bool, reset: bool)

  datatype Network = Network(nodes: seq<Node>, conns: seq<Connection>)

  /** A HELLO is answered, and a CONNECT opened, with all tuples in some order of their keys. */
  datatype Label =
    | Publication(node: nat, key: Key, value: Value)
    | Connect(client: nat, server: nat, order: seq<Key>)
    | Up(conn: nat, order: seq<Key>)     // the server handles a message; order matters for a HELLO only
    | Down(conn: nat)                    // the client handles a message
    | Expire(conn: nat)                  // the server forgets a client it has not heard from

  function Get(m: map<Key, Value>, k: Key): Option<Value> {
    if k in m then Some(m[k]) else None
  }

  predicate Enumerates(order: seq<Key>, m: map<Key, Value>) {
    && (forall k :: k in order ==> k in m)
    && (forall k :: k in m ==> k in order)
    && (forall i, j :: 0 <= i < j < |order| ==> order[i] != order[j])
  }

  function Announce(order: seq<Key>, m: map<Key, Value>): seq<Msg>
    requires forall k :: k in order ==> k in m
  {
    seq(|order|, i requires 0 <= i < |order| => Publish(order[i], m[order[i]]))
  }

  /** What a node sends on when it has a new tuple: to every remote it connected to, and to every
      client it knows, the one the tuple came from included. */
  function Forward(c: Connection, x: nat, m: Msg): Connection {
    var c' := if c.client == x then c.(up := c.up + [m]) else c;
    if c.server == x && c.known then c'.(down := c'.down + [m]) else c'
  }

  function Broadcast(conns: seq<Connection>, x: nat, m: Msg): (r: seq<Connection>)
    ensures |r| == |conns|
    ensures forall i :: 0 <= i < |conns| ==> r[i] == Forward(conns[i], x, m)
  {
    seq(|conns|, i requires 0 <= i < |conns| => Forward(conns[i], x, m))
  }

  /** server_accept */
  function Accept(net: Network, x: nat, k: Key, v: Value): Network
    requires x < |net.nodes|
  {
    var n := net.nodes[x];
    if Get(n.tuples, k) == Some(v) then net
    else Network(net.nodes[x := Node(n.tuples[k := v], n.delivered + [(k, v)])],
                 Broadcast(net.conns, x, Publish(k, v)))
  }

  ghost predicate WellFormed(net: Network) {
    forall i :: 0 <= i < |net.conns| ==>
      net.conns[i].client < |net.nodes| && net.conns[i].server < |net.nodes|
        && net.conns[i].client != net.conns[i].server
  }

  /** The server has no use for the message, says so, and forgets the client. */
  function Refused(c: Connection): Connection
    requires c.up != []
  {
    c.(up := c.up[1..], down := c.down + [Invalid], known := false, reset := c.reset || c.known)
  }

  /** The server's turn to handle the head of a connection: a HELLO makes the client known and is
      answered with all tuples, a PUBLISH of a known client is accepted, and anything else refused. */
  function ServerTurn(net: Network, i: nat, order: seq<Key>): Option<Network>
    requires i < |net.conns| && net.conns[i].server < |net.nodes|
  {
    var c := net.conns[i];
    if c.up == [] then None
    else if c.known && c.up[0].Publish? then
      Some(Accept(net.(conns := net.conns[i := c.(up := c.up[1..])]), c.server, c.up[0].key, c.up[0].value))
    else if !c.known && c.up[0].Hello? then
      var tuples := net.nodes[c.server].tuples;
      if forall k :: k in order ==> k in tuples then
        Some(net.(conns := net.conns[i := Welcomed(c, Announce(order, tuples))]))
      else None
    else Some(net.(conns := net.conns[i := Refused(c)]))
  }

  function Welcomed(c: Connection, answer: seq<Msg>): Connection
    requires c.up != []
  {
    c.(up := c.up[1..], down := c.down + answer, known := true)
  }

  /** The client's turn: a PUBLISH is accepted, INVALID is answered with another HELLO. */
  function ClientTurn(net: Network, i: nat): Option<Network>
    requires i < |net.conns| && net.conns[i].client < |net.nodes|
  {
    var c := net.conns[i];
    if c.down == [] then None
    else
      var c' := c.(down := c.down[1..]);
      match c.down[0]
      case Publish(k, v) => Some(Accept(net.(conns := net.conns[i := c']), c.client, k, v))
      case Invalid => Some(net.(conns := net.conns[i := c'.(up := c'.up + [Hello])]))
      case Hello => Some(net.(conns := net.conns[i := c']))
  }

  predicate HelloNext(net: Network, i: nat)
    requires i < |net.conns|
  {
    !net.conns[i].known && net.conns[i].up != [] && net.conns[i].up[0].Hello?
  }

  ghost function Step(net: Network, l: Label): Option<Network>
    requires WellFormed(net)
  {
    match l
    case Publication(x, k, v) => if x < |net.nodes| then Some(Accept(net, x, k, v)) else None
    case Connect(a, b, order) =>
      if a < |net.nodes| && b < |net.nodes| && a != b && Enumerates(order, net.nodes[a].tuples) then
        var c := Connection(a, b, [Hello] + Announce(order, net.nodes[a].tuples), [], false, false);
        Some(net.(conns := net.conns + [c]))
      else None
    case Up(i, order) =>
      if i < |net.conns| && (HelloNext(net, i) ==> Enumerates(order, net.nodes[net.conns[i].server].tuples)) then
        ServerTurn(net, i, order)
      else None
    case Down(i) => if i < |net.conns| then ClientTurn(net, i) else None
    case Expire(i) =>
      if i < |net.conns| && net.conns[i].known then
        Some(net.(conns := net.conns[i := net.conns[i].(known := false, reset := true)]))
      else None
  }

  lemma AcceptWellFormed(net: Network, x: nat, k: Key, v: Value)
    requires WellFormed(net) && x < |net.nodes|
    ensures WellFormed(Accept(net, x, k, v)) && |Accept(net, x, k, v).nodes| == |net.nodes|
  {
  }

  lemma StepWellFormed(net: Network, l: Label)
    requires WellFormed(net) && Step(net, l).Some?
    ensures WellFormed(Step(net, l).value)
    ensures |Step(net, l).value.nodes| == |net.nodes|
  {
    match l
    case Publication(x, k, v) => AcceptWellFormed(net, x, k, v);
    case Connect(a, b, order) =>
    case Up(i, order) =>
      var c := net.conns[i];
      if c.known && c.up[0].Publish? {
        AcceptWellFormed(net.(conns := net.conns[i := c.(up := c.up[1..])]), c.server, c.up[0].key, c.up[0].value);
      }
    case Down(i) =>
      var c := net.conns[i];
      if c.down[0].Publish? {
        AcceptWellFormed(net.(conns := net.conns[i := c.(down := c.down[1..])]), c.client, c.down[0].key,
          c.down[0].value);
      }
    case Expire(i) =>
  }

  ghost function Exec(net: Network, ls: seq<Label>): (r: Option<Network>)
    requires WellFormed(net)
    ensures r.Some? ==> WellFormed(r.value)
    decreases |ls|
  {
    if ls == [] then Some(net)
    else
      match Exec(net, ls[..|ls| - 1])
      case None => None
      case Some(mid) =>
        var r := Step(mid, ls[|ls| - 1]);
        if r.Some? then StepWellFormed(mid, ls[|ls| - 1]); r else r
  }

  /** n nodes that know nothing and nobody. */
  function Init(n: nat): Network {
    Network(seq(n, _ => Node(map[], [])), [])
  }

  predicate Quiescent(net: Network) {
    forall i :: 0 <= i < |net.conns| ==> net.conns[i].up == [] && net.conns[i].down == []
  }

  /** No server has ever forgotten a client. */
  predicate Intact(net: Network) {
    forall i :: 0 <= i < |net.conns| ==> !net.conns[i].reset
  }
}
