/** Eventual consistency of a gossip network: whatever is published, wherever and whenever, and
    however the network grows, connected nodes agree as soon as no message is in flight. */
module GossipConsistency {
  import opened Gossip
  import opened Wrappers

  /** The value the last PUBLISH for k in this queue carries. */
  function Pending(q: seq<Msg>, k: Key): Option<Value> {
    if q == [] then None
    else if Pending(q[1..], k).Some? then Pending(q[1..], k)
    else if q[0].Publish? && q[0].key == k then Some(q[0].value)
    else None
  }

  lemma {:induction false} PendingAppend(q: seq<Msg>, m: Msg, k: Key)
    ensures Pending(q + [m], k) == if m.Publish? && m.key == k then Some(m.value) else Pending(q, k)
  {
    if q == [] {
      assert q + [m] == [m];
    } else {
      PendingAppend(q[1..], m, k);
      assert (q + [m])[1..] == q[1..] + [m];
    }
  }

  lemma {:induction false} PendingConcat(a: seq<Msg>, b: seq<Msg>, k: Key)
    ensures Pending(a + b, k) == if Pending(b, k).Some? then Pending(b, k) else Pending(a, k)
  {
    if a == [] {
      assert a + b == b;
    } else {
      PendingConcat(a[1..], b, k);
      assert (a + b)[1..] == a[1..] + b;
    }
  }

  /** An announcement holds the value of each announced key, and nothing else. */
  lemma {:induction false} PendingAnnounce(order: seq<Key>, m: map<Key, Value>, k: Key)
    requires forall j :: j in order ==> j in m
    ensures Pending(Announce(order, m), k) == if k in order then Some(m[k]) else None
  {
    if order != [] {
      PendingAnnounce(order[1..], m, k);
      assert Announce(order, m)[1..] == Announce(order[1..], m);
    }
  }

  predicate OnlyPublish(q: seq<Msg>) {
    forall i :: 0 <= i < |q| ==> q[i].Publish?
  }

  function At(nodes: seq<Node>, x: nat, k: Key): Option<Value>
    requires x < |nodes|
  {
    Get(nodes[x].tuples, k)
  }

  /** What holds of a connection and a key.  The last value in flight to the server is the client's; to a
      known client it is the server's.  With nothing in flight either way a known client has what the
      server has.  If the server never forgot the client the two agree then, and before the HELLO is
      handled the client's value is in flight. */
  ghost predicate KeyOk(nodes: seq<Node>, c: Connection, k: Key)
    requires c.client < |nodes| && c.server < |nodes|
  {
    && (Pending(c.up, k).Some? ==> Pending(c.up, k) == At(nodes, c.client, k))
    && (Pending(c.down, k).Some? ==> At(nodes, c.server, k).Some?)
    && (Pending(c.down, k).Some? && c.known ==> Pending(c.down, k) == At(nodes, c.server, k))
    && (c.known && Pending(c.up, k).None? && Pending(c.down, k).None? ==>
          SameOrMore(At(nodes, c.server, k), At(nodes, c.client, k), !c.reset))
    && (!c.known && !c.reset ==> Pending(c.up, k) == At(nodes, c.client, k))
  }

  /** The client has the server's value if there is one, and no other if they are to agree. */
  predicate SameOrMore(server: Option<Value>, client: Option<Value>, same: bool) {
    if same || server.Some? then client == server else true
  }

  /** The queues of a connection on which the server never forgot the client. */
  ghost predicate ShapeOk(c: Connection) {
    && OnlyPublish(c.down)
    && (if c.known then OnlyPublish(c.up) else c.up != [] && c.up[0].Hello? && OnlyPublish(c.up[1..]) && c.down == [])
  }

  ghost predicate LinkOk(nodes: seq<Node>, c: Connection) {
    && c.client < |nodes| && c.server < |nodes| && c.client != c.server
    && (!c.reset ==> ShapeOk(c))
    && forall k :: KeyOk(nodes, c, k)
  }

  ghost predicate Inv(net: Network) {
    forall i :: 0 <= i < |net.conns| ==> LinkOk(net.nodes, net.conns[i])
  }

  function Stored(nodes: seq<Node>, x: nat, k: Key, v: Value): seq<Node>
    requires x < |nodes|
  {
    nodes[x := Node(nodes[x].tuples[k := v], nodes[x].delivered + [(k, v)])]
  }

  lemma ForwardShape(c: Connection, x: nat, k: Key, v: Value)
    requires ShapeOk(c)
    ensures ShapeOk(Forward(c, x, Publish(k, v)))
  {
    var m := Publish(k, v);
    assert c.up != [] ==> (c.up + [m])[1..] == c.up[1..] + [m];
  }

  /** A connection of which x is an end stays ok when x stores and forwards a tuple; the other
      connections do not notice. */
  lemma ForwardKeepsLink(nodes: seq<Node>, c: Connection, x: nat, k: Key, v: Value)
    requires LinkOk(nodes, c) && x < |nodes|
    ensures LinkOk(Stored(nodes, x, k, v), Forward(c, x, Publish(k, v)))
  {
    var nodes', c', m := Stored(nodes, x, k, v), Forward(c, x, Publish(k, v)), Publish(k, v);
    if !c.reset {
      ForwardShape(c, x, k, v);
    }
    forall j
      ensures KeyOk(nodes', c', j)
    {
      assert KeyOk(nodes, c, j);
      PendingAppend(c.up, m, j);
      PendingAppend(c.down, m, j);
    }
  }

  /** Node x takes a PUBLISH off a connection: the server that of a client it knows, the client any. */
  ghost predicate Takes(c: Connection, c': Connection, x: nat, m: Msg) {
    && m.Publish?
    && (|| (c.known && x == c.server && c.up != [] && c.up[0] == m && c' == c.(up := c.up[1..]))
        || (x == c.client && c.down != [] && c.down[0] == m && c' == c.(down := c.down[1..])))
  }

  /** Taking a duplicate off a queue keeps a connection ok. */
  lemma DuplicateKeepsLink(nodes: seq<Node>, c: Connection, c': Connection, x: nat, m: Msg)
    requires LinkOk(nodes, c) && Takes(c, c', x, m) && x < |nodes| && At(nodes, x, m.key) == Some(m.value)
    ensures LinkOk(nodes, c')
  {
    forall j
      ensures KeyOk(nodes, c', j)
    {
      assert KeyOk(nodes, c, j);
    }
  }

  /** Taking a new tuple off a queue, storing it and forwarding it, also to where it came from, keeps
      the connection ok. */
  lemma NewTupleKeepsLink(nodes: seq<Node>, c: Connection, c': Connection, x: nat, m: Msg)
    requires LinkOk(nodes, c) && Takes(c, c', x, m) && x < |nodes|
    ensures LinkOk(Stored(nodes, x, m.key, m.value), Forward(c', x, m))
  {
    var nodes', c'' := Stored(nodes, x, m.key, m.value), Forward(c', x, m);
    if !c.reset {
      assert ShapeOk(c');
      ForwardShape(c', x, m.key, m.value);
    }
    forall j
      ensures KeyOk(nodes', c'', j)
    {
      assert KeyOk(nodes, c, j);
      PendingAppend(c'.up, m, j);
      PendingAppend(c'.down, m, j);
    }
  }

  lemma HelloKeepsLink(nodes: seq<Node>, c: Connection, order: seq<Key>)
    requires LinkOk(nodes, c) && !c.known && c.up != [] && c.up[0].Hello? && Enumerates(order, nodes[c.server].tuples)
    ensures LinkOk(nodes, Welcomed(c, Announce(order, nodes[c.server].tuples)))
  {
    var tuples := nodes[c.server].tuples;
    var c' := Welcomed(c, Announce(order, tuples));
    forall j
      ensures KeyOk(nodes, c', j)
    {
      assert KeyOk(nodes, c, j);
      PendingAnnounce(order, tuples, j);
      PendingConcat(c.down, Announce(order, tuples), j);
    }
  }

  /** What carries no tuple changes nothing about one; what is refused is lost, and so the server forgets. */
  lemma OtherKeepsLink(nodes: seq<Node>, c: Connection, c': Connection)
    requires LinkOk(nodes, c) && c'.reset && c'.client == c.client && c'.server == c.server
    requires
      || (c.up != [] && c' == Refused(c))
      || (c.down != [] && !c.down[0].Publish?
        && (c' == c.(down := c.down[1..]) || c' == c.(down := c.down[1..], up := c.up + [Hello])))
      || c' == c.(known := false, reset := true)
    ensures LinkOk(nodes, c')
  {
    forall j
      ensures KeyOk(nodes, c', j)
    {
      assert KeyOk(nodes, c, j);
      PendingAppend(c.up, Hello, j);
      PendingAppend(c.down, Invalid, j);
    }
  }

  lemma ConnectMakesLink(nodes: seq<Node>, a: nat, b: nat, order: seq<Key>)
    requires a < |nodes| && b < |nodes| && a != b && Enumerates(order, nodes[a].tuples)
    ensures LinkOk(nodes, Connection(a, b, [Hello] + Announce(order, nodes[a].tuples), [], false, false))
  {
    var q := [Hello] + Announce(order, nodes[a].tuples);
    assert q[1..] == Announce(order, nodes[a].tuples);
    forall k
      ensures Pending(q, k) == At(nodes, a, k)
    {
      PendingAnnounce(order, nodes[a].tuples, k);
    }
  }

  /** server_accept of a tuple just taken off connection i, or of a publication if i is no connection. */
  lemma AcceptKeepsInv(net: Network, net': Network, i: int, x: nat, m: Msg)
    requires Inv(net) && m.Publish? && x < |net.nodes|
    requires net'.nodes == net.nodes && |net'.conns| == |net.conns|
    requires forall j :: 0 <= j < |net.conns| && j != i ==> net'.conns[j] == net.conns[j]
    requires 0 <= i < |net.conns| ==> Takes(net.conns[i], net'.conns[i], x, m)
    ensures Inv(Accept(net', x, m.key, m.value))
  {
    var net'' := Accept(net', x, m.key, m.value);
    forall j | 0 <= j < |net.conns|
      ensures LinkOk(net''.nodes, net''.conns[j])
    {
      if net'' == net' {
        if j == i {
          DuplicateKeepsLink(net.nodes, net.conns[i], net'.conns[i], x, m);
        }
      } else if j == i {
        NewTupleKeepsLink(net.nodes, net.conns[i], net'.conns[i], x, m);
      } else {
        ForwardKeepsLink(net.nodes, net.conns[j], x, m.key, m.value);
      }
    }
  }

  lemma ServerTurnKeepsInv(net: Network, i: nat, order: seq<Key>)
    requires Inv(net) && WellFormed(net) && i < |net.conns|
    requires HelloNext(net, i) ==> Enumerates(order, net.nodes[net.conns[i].server].tuples)
    requires ServerTurn(net, i, order).Some?
    ensures Inv(ServerTurn(net, i, order).value)
  {
    var c := net.conns[i];
    assert LinkOk(net.nodes, c);
    if c.known && c.up[0].Publish? {
      AcceptKeepsInv(net, net.(conns := net.conns[i := c.(up := c.up[1..])]), i, c.server, c.up[0]);
    } else if HelloNext(net, i) {
      HelloKeepsLink(net.nodes, c, order);
    } else {
      OtherKeepsLink(net.nodes, c, Refused(c));
    }
  }

  lemma ClientTurnKeepsInv(net: Network, i: nat)
    requires Inv(net) && WellFormed(net) && i < |net.conns| && ClientTurn(net, i).Some?
    ensures Inv(ClientTurn(net, i).value)
  {
    var c := net.conns[i];
    assert LinkOk(net.nodes, c);
    if c.down[0].Publish? {
      AcceptKeepsInv(net, net.(conns := net.conns[i := c.(down := c.down[1..])]), i, c.client, c.down[0]);
    } else {
      OtherKeepsLink(net.nodes, c, ClientTurn(net, i).value.conns[i]);
    }
  }

  lemma StepKeepsInv(net: Network, l: Label)
    requires Inv(net) && WellFormed(net) && Step(net, l).Some?
    ensures Inv(Step(net, l).value)
  {
    match l
    case Publication(x, k, v) => AcceptKeepsInv(net, net, -1, x, Publish(k, v));
    case Connect(a, b, order) => ConnectMakesLink(net.nodes, a, b, order);
    case Up(i, order) => ServerTurnKeepsInv(net, i, order);
    case Down(i) => ClientTurnKeepsInv(net, i);
    case Expire(i) => OtherKeepsLink(net.nodes, net.conns[i], net.conns[i].(known := false, reset := true));
  }

  lemma {:induction false} ExecKeepsInv(net: Network, ls: seq<Label>)
    requires Inv(net) && WellFormed(net) && Exec(net, ls).Some?
    ensures Inv(Exec(net, ls).value)
  {
    if ls != [] {
      ExecKeepsInv(net, ls[..|ls| - 1]);
      StepKeepsInv(Exec(net, ls[..|ls| - 1]).value, ls[|ls| - 1]);
    }
  }

  // ----- Agreement -----

  /** The connection joins x and y, and its server has never forgotten its client. */
  predicate Joins(c: Connection, x: nat, y: nat) {
    !c.reset && ((c.client == x && c.server == y) || (c.client == y && c.server == x))
  }

  predicate Adjacent(net: Network, x: nat, y: nat) {
    exists i :: 0 <= i < |net.conns| && Joins(net.conns[i], x, y)
  }

  predicate Path(net: Network, p: seq<nat>) {
    && p != []
    && (forall i :: 0 <= i < |p| ==> p[i] < |net.nodes|)
    && (forall i :: 0 <= i < |p| - 1 ==> Adjacent(net, p[i], p[i + 1]))
  }

  lemma NeighboursAgree(net: Network, x: nat, y: nat)
    requires Inv(net) && Quiescent(net) && x < |net.nodes| && y < |net.nodes| && Adjacent(net, x, y)
    ensures net.nodes[x].tuples == net.nodes[y].tuples
  {
    var i :| 0 <= i < |net.conns| && Joins(net.conns[i], x, y);
    var c := net.conns[i];
    assert LinkOk(net.nodes, c);
    var a, b := net.nodes[x].tuples, net.nodes[y].tuples;
    forall k
      ensures Get(a, k) == Get(b, k)
    {
      assert KeyOk(net.nodes, c, k);
    }
    SameLookups(a, b);
  }

  lemma SameLookups(a: map<Key, Value>, b: map<Key, Value>)
    requires forall k :: Get(a, k) == Get(b, k)
    ensures a == b
  {
    forall k
      ensures k in a <==> k in b
      ensures k in a ==> a[k] == b[k]
    {
      assert Get(a, k) == Get(b, k);
    }
  }

  lemma {:induction false} PathAgrees(net: Network, p: seq<nat>)
    requires Inv(net) && Quiescent(net) && Path(net, p)
    ensures net.nodes[p[0]].tuples == net.nodes[p[|p| - 1]].tuples
  {
    if |p| > 1 {
      NeighboursAgree(net, p[0], p[1]);
      PathAgrees(net, p[1..]);
    }
  }

  /** In every run of every network, with any publications (the same key with different values
      included), any connections made at any time, any clients expired and any order of delivery: whenever
      no message is in flight, nodes joined by a path of connections whose servers never forgot their
      clients hold the same tuples. */
  lemma QuiescentNetworkAgrees(n: nat, ls: seq<Label>, p: seq<nat>)
    requires Exec(Init(n), ls).Some?
    requires var net := Exec(Init(n), ls).value; Quiescent(net) && Path(net, p)
    ensures
      var net := Exec(Init(n), ls).value;
      net.nodes[p[0]].tuples == net.nodes[p[|p| - 1]].tuples
  {
    ExecKeepsInv(Init(n), ls);
    PathAgrees(Exec(Init(n), ls).value, p);
  }

  /** A client that its server knows, whatever happened to it before, then has all its server has. */
  lemma KnownClientHasAll(n: nat, ls: seq<Label>, i: nat, k: Key)
    requires Exec(Init(n), ls).Some?
    requires var net := Exec(Init(n), ls).value; Quiescent(net) && i < |net.conns| && net.conns[i].known
    ensures
      var net := Exec(Init(n), ls).value;
      var c := net.conns[i];
      && c.client < |net.nodes| && c.server < |net.nodes|
      && (k in net.nodes[c.server].tuples ==> Get(net.nodes[c.client].tuples, k) == Get(net.nodes[c.server].tuples, k))
  {
    ExecKeepsInv(Init(n), ls);
    var net := Exec(Init(n), ls).value;
    assert LinkOk(net.nodes, net.conns[i]) && KeyOk(net.nodes, net.conns[i], k);
  }

  // ----- Nothing is invented, nothing is forgotten -----

  /** What the applications published in a run. */
  function Published(ls: seq<Label>): set<(Key, Value)> {
    if ls == [] then {}
    else
      var l := ls[|ls| - 1];
      Published(ls[..|ls| - 1]) + if l.Publication? then {(l.key, l.value)} else {}
  }

  lemma {:induction false} PublishedAt(ls: seq<Label>, k: Key, v: Value) returns (j: nat)
    requires (k, v) in Published(ls)
    ensures j < |ls| && ls[j].Publication? && ls[j].key == k && ls[j].value == v
  {
    var l := ls[|ls| - 1];
    if l.Publication? && (l.key, l.value) == (k, v) {
      j := |ls| - 1;
    } else {
      j := PublishedAt(ls[..|ls| - 1], k, v);
    }
  }

  ghost predicate FromPublications(net: Network, pub: set<(Key, Value)>) {
    && (forall x, k :: 0 <= x < |net.nodes| && k in net.nodes[x].tuples ==> (k, net.nodes[x].tuples[k]) in pub)
    && (forall i :: 0 <= i < |net.conns| ==> QueueFrom(net.conns[i].up, pub) && QueueFrom(net.conns[i].down, pub))
  }

  ghost predicate QueueFrom(q: seq<Msg>, pub: set<(Key, Value)>) {
    forall i :: 0 <= i < |q| && q[i].Publish? ==> (q[i].key, q[i].value) in pub
  }

  lemma AcceptFromPublications(net: Network, x: nat, k: Key, v: Value, pub: set<(Key, Value)>)
    requires FromPublications(net, pub) && x < |net.nodes| && (k, v) in pub
    ensures FromPublications(Accept(net, x, k, v), pub)
  {
  }

  lemma ConnFromPublications(net: Network, i: nat, c: Connection, pub: set<(Key, Value)>)
    requires FromPublications(net, pub) && i < |net.conns| && QueueFrom(c.up, pub) && QueueFrom(c.down, pub)
    ensures FromPublications(net.(conns := net.conns[i := c]), pub)
  {
  }

  lemma AnnounceFrom(m: map<Key, Value>, order: seq<Key>, pub: set<(Key, Value)>)
    requires (forall k :: k in m ==> (k, m[k]) in pub) && forall k :: k in order ==> k in m
    ensures QueueFrom(Announce(order, m), pub)
  {
  }

  lemma UpFromPublications(net: Network, i: nat, order: seq<Key>, pub: set<(Key, Value)>)
    requires WellFormed(net) && Step(net, Up(i, order)).Some? && FromPublications(net, pub)
    ensures FromPublications(Step(net, Up(i, order)).value, pub)
  {
    var c := net.conns[i];
    assert QueueFrom(c.up, pub) && QueueFrom(c.down, pub);
    if c.known && c.up[0].Publish? {
      ConnFromPublications(net, i, c.(up := c.up[1..]), pub);
      AcceptFromPublications(net.(conns := net.conns[i := c.(up := c.up[1..])]), c.server, c.up[0].key, c.up[0].value,
        pub);
    } else if HelloNext(net, i) {
      AnnounceFrom(net.nodes[c.server].tuples, order, pub);
      ConnFromPublications(net, i, Welcomed(c, Announce(order, net.nodes[c.server].tuples)), pub);
    } else {
      ConnFromPublications(net, i, Refused(c), pub);
    }
  }

  lemma DownFromPublications(net: Network, i: nat, pub: set<(Key, Value)>)
    requires WellFormed(net) && Step(net, Down(i)).Some? && FromPublications(net, pub)
    ensures FromPublications(Step(net, Down(i)).value, pub)
  {
    var c := net.conns[i];
    assert QueueFrom(c.up, pub) && QueueFrom(c.down, pub);
    var c' := c.(down := c.down[1..]);
    ConnFromPublications(net, i, c', pub);
    if c.down[0].Publish? {
      AcceptFromPublications(net.(conns := net.conns[i := c']), c.client, c.down[0].key, c.down[0].value, pub);
    } else if c.down[0].Invalid? {
      ConnFromPublications(net, i, c'.(up := c'.up + [Hello]), pub);
    }
  }

  lemma StepFromPublications(net: Network, l: Label, pub: set<(Key, Value)>)
    requires WellFormed(net) && Step(net, l).Some? && FromPublications(net, pub)
    requires l.Publication? ==> (l.key, l.value) in pub
    ensures FromPublications(Step(net, l).value, pub)
  {
    match l
    case Publication(x, k, v) => AcceptFromPublications(net, x, k, v, pub);
    case Connect(a, b, order) => AnnounceFrom(net.nodes[a].tuples, order, pub);
    case Up(i, order) => UpFromPublications(net, i, order, pub);
    case Down(i) => DownFromPublications(net, i, pub);
    case Expire(i) => ConnFromPublications(net, i, net.conns[i].(known := false, reset := true), pub);
  }

  lemma StepKeepsKeys(net: Network, l: Label, x: nat, k: Key)
    requires WellFormed(net) && Step(net, l).Some? && x < |net.nodes|
    ensures |Step(net, l).value.nodes| == |net.nodes|
    ensures k in net.nodes[x].tuples ==> k in Step(net, l).value.nodes[x].tuples
    ensures l.Publication? && l.node == x && l.key == k ==> k in Step(net, l).value.nodes[x].tuples
  {
  }

  lemma FromMorePublications(net: Network, pub: set<(Key, Value)>, more: set<(Key, Value)>)
    requires FromPublications(net, pub) && pub <= more
    ensures FromPublications(net, more)
  {
  }

  /** Every tuple a node holds or a message carries was published by some application. */
  lemma {:induction false} NothingInvented(n: nat, ls: seq<Label>)
    requires Exec(Init(n), ls).Some?
    ensures FromPublications(Exec(Init(n), ls).value, Published(ls))
  {
    if ls != [] {
      var before, l := ls[..|ls| - 1], ls[|ls| - 1];
      NothingInvented(n, before);
      var mid := Exec(Init(n), before).value;
      FromMorePublications(mid, Published(before), Published(ls));
      StepFromPublications(mid, l, Published(ls));
    }
  }

  /** A node never loses a key it published. */
  lemma {:induction false} NothingForgotten(n: nat, ls: seq<Label>, j: nat)
    requires Exec(Init(n), ls).Some? && j < |ls| && ls[j].Publication?
    ensures
      var net := Exec(Init(n), ls).value;
      ls[j].node < |net.nodes| && ls[j].key in net.nodes[ls[j].node].tuples
  {
    var before, l := ls[..|ls| - 1], ls[|ls| - 1];
    var mid := Exec(Init(n), before).value;
    if j < |ls| - 1 {
      NothingForgotten(n, before, j);
    }
    StepKeepsKeys(mid, l, ls[j].node, ls[j].key);
  }

  ghost predicate Linked(net: Network, x: nat, y: nat) {
    exists p: seq<nat> :: Path(net, p) && p[0] == x && p[|p| - 1] == y
  }

  ghost predicate Connected(net: Network) {
    forall x: nat, y: nat :: x < |net.nodes| && y < |net.nodes| ==> Linked(net, x, y)
  }

  predicate OneValuePerKey(pub: set<(Key, Value)>) {
    forall a, b :: a in pub && b in pub && a.0 == b.0 ==> a.1 == b.1
  }

  lemma LinkedNodesAgree(n: nat, ls: seq<Label>, x: nat, y: nat)
    requires Exec(Init(n), ls).Some?
    requires var net := Exec(Init(n), ls).value; Quiescent(net) && Linked(net, x, y)
    ensures
      var net := Exec(Init(n), ls).value;
      x < |net.nodes| && y < |net.nodes| && net.nodes[x].tuples == net.nodes[y].tuples
  {
    var net := Exec(Init(n), ls).value;
    var p: seq<nat> :| Path(net, p) && p[0] == x && p[|p| - 1] == y;
    QuiescentNetworkAgrees(n, ls, p);
  }

  /** On a connected network with one value per key, every reachable state with no message in flight
      has every node hold exactly the tuples that were published. */
  lemma GossipConverges(n: nat, ls: seq<Label>, x: nat, k: Key, v: Value)
    requires Exec(Init(n), ls).Some? && OneValuePerKey(Published(ls)) && x < |Exec(Init(n), ls).value.nodes|
    requires Quiescent(Exec(Init(n), ls).value) && Connected(Exec(Init(n), ls).value)
    ensures Get(Exec(Init(n), ls).value.nodes[x].tuples, k) == Some(v) <==> (k, v) in Published(ls)
  {
    var net := Exec(Init(n), ls).value;
    NothingInvented(n, ls);
    if (k, v) in Published(ls) {
      var j := PublishedAt(ls, k, v);
      NothingForgotten(n, ls, j);
      LinkedNodesAgree(n, ls, ls[j].node, x);
      assert (k, net.nodes[x].tuples[k]) in Published(ls);
    }
  }
}
