/** When a tuple gets across a connection.  Two nodes have only each other; one of them has a new tuple, and
    whether the other gets it depends on nothing but whether the server knew the client at that moment. */
module GossipForgotten {
  import opened Gossip
  import opened GossipConsistency
  import opened GossipTermination
  import opened GossipLivelock
  import opened GossipPair
  import opened Wrappers

  /** Nothing is in flight but on connection i, whose ends have no other. */
  ghost predicate Between(net: Network, i: nat) {
    && WellFormed(net) && i < |net.conns| && Alone(net, i)
    && forall j :: 0 <= j < |net.conns| && j != i ==> net.conns[j].up == [] && net.conns[j].down == []
  }

  /** A node is told of a tuple. */
  function Told(n: Node, m: Msg): Node
    requires m.Publish?
  {
    if Get(n.tuples, m.key) == Some(m.value) then n
    else Node(n.tuples[m.key := m.value], n.delivered + [(m.key, m.value)])
  }

  /** What it sends on. */
  function Onward(n: Node, m: Msg): seq<Msg>
    requires m.Publish?
  {
    if Get(n.tuples, m.key) == Some(m.value) then [] else [m]
  }

  /** The network with another state of connection i. */
  function With(net: Network, i: nat, c: Connection): Network
    requires i < |net.conns|
  {
    net.(conns := net.conns[i := c])
  }

  function WithNode(net: Network, x: nat, n: Node): Network
    requires x < |net.nodes|
  {
    net.(nodes := net.nodes[x := n])
  }

  lemma WithBetween(net: Network, i: nat, c: Connection)
    requires Between(net, i) && c.client == net.conns[i].client && c.server == net.conns[i].server
    ensures Between(With(net, i, c), i)
  {
  }

  lemma WithNodeBetween(net: Network, i: nat, x: nat, n: Node)
    requires Between(net, i) && x < |net.nodes|
    ensures Between(WithNode(net, x, n), i)
  {
  }

  /** One end accepts a tuple and sends it on over the connection only. */
  lemma AcceptBetween(net: Network, i: nat, x: nat, m: Msg)
    requires Between(net, i) && m.Publish? && (x == net.conns[i].client || x == net.conns[i].server)
    ensures
      var c, more := net.conns[i], Onward(net.nodes[x], m);
      var c' := if x == c.client then c.(up := c.up + more)
                else c.(down := c.down + if c.known then more else []);
      Accept(net, x, m.key, m.value) == With(WithNode(net, x, Told(net.nodes[x], m)), i, c')
  {
    var c, more := net.conns[i], Onward(net.nodes[x], m);
    assert c.up + [] == c.up && c.down + [] == c.down;
    if more == [] {
      assert net.nodes[x := net.nodes[x]] == net.nodes && net.conns[i := c] == net.conns;
    } else {
      var conns := Broadcast(net.conns, x, m);
      assert conns == net.conns[i := conns[i]];
    }
  }

  /** A delivery is one on connection i. */
  lemma DeliveredBetween(net: Network, i: nat, l: Label)
    requires Between(net, i) && IsDelivery(l) && Step(net, l).Some?
    ensures l.conn == i && (if l.Up? then net.conns[i].up else net.conns[i].down) != []
  {
  }

  lemma ServerIsTold(net: Network, i: nat, order: seq<Key>)
    requires Between(net, i) && net.conns[i].known && net.conns[i].up != [] && net.conns[i].up[0].Publish?
    ensures
      var c := net.conns[i];
      var n, m := net.nodes[c.server], c.up[0];
      Step(net, Up(i, order)) ==
        Some(With(WithNode(net, c.server, Told(n, m)), i, c.(up := c.up[1..], down := c.down + Onward(n, m))))
  {
    var c := net.conns[i];
    var c1 := c.(up := c.up[1..]);
    var net1 := With(net, i, c1);
    WithBetween(net, i, c1);
    AcceptBetween(net1, i, c.server, c.up[0]);
    var c2 := c1.(down := c1.down + Onward(net.nodes[c.server], c.up[0]));
    assert net.conns[i := c1][i := c2] == net.conns[i := c2];
  }

  lemma ClientIsTold(net: Network, i: nat)
    requires Between(net, i) && net.conns[i].down != [] && net.conns[i].down[0].Publish?
    ensures
      var c := net.conns[i];
      var n, m := net.nodes[c.client], c.down[0];
      Step(net, Down(i)) ==
        Some(With(WithNode(net, c.client, Told(n, m)), i, c.(down := c.down[1..], up := c.up + Onward(n, m))))
  {
    var c := net.conns[i];
    var c1 := c.(down := c.down[1..]);
    var net1 := With(net, i, c1);
    WithBetween(net, i, c1);
    AcceptBetween(net1, i, c.client, c.down[0]);
    var c2 := c1.(up := c1.up + Onward(net.nodes[c.client], c.down[0]));
    assert net.conns[i := c1][i := c2] == net.conns[i := c2];
  }

  // ----- A client that is known -----

  /** The tuple is on its way to the receiver, or it has arrived and perhaps comes back. */
  ghost predicate Crosses(net: Network, i: nat, d: Direction, k: Key, v: Value) {
    && Between(net, i) && net.conns[i].known
    && var c := net.conns[i];
       && At(net.nodes, Sender(c, d), k) == Some(v)
       && (if At(net.nodes, Receiver(c, d), k) == Some(v)
           then Queue(c, d) == [] && (Queue(c, Reverse(d)) == [] || Queue(c, Reverse(d)) == [Publish(k, v)])
           else Queue(c, d) == [Publish(k, v)] && Queue(c, Reverse(d)) == [])
  }

  function CrossRank(net: Network, i: nat, d: Direction): nat
    requires i < |net.conns|
  {
    2 * |Queue(net.conns[i], d)| + |Queue(net.conns[i], Reverse(d))|
  }

  /** The only message of one direction is handled. */
  lemma ReceiverIsTold(net: Network, i: nat, e: Direction, m: Msg, l: Label)
    requires Between(net, i) && net.conns[i].known && m.Publish? && Queue(net.conns[i], e) == [m]
    requires IsDelivery(l) && l.Up? == e.Upward? && l.conn == i && Step(net, l).Some?
    ensures
      var c, net' := net.conns[i], Step(net, l).value;
      var n := net.nodes[Receiver(c, e)];
      && Between(net', i) && net'.nodes == net.nodes[Receiver(c, e) := Told(n, m)]
      && var c' := net'.conns[i];
         && c'.known && c'.client == c.client && c'.server == c.server
         && Queue(c', e) == [] && Queue(c', Reverse(e)) == Queue(c, Reverse(e)) + Onward(n, m)
  {
    var c := net.conns[i];
    var x := Receiver(c, e);
    assert [m][1..] == [];
    if l.Up? {
      ServerIsTold(net, i, l.order);
    } else {
      ClientIsTold(net, i);
    }
    WithNodeBetween(net, i, x, Told(net.nodes[x], m));
    WithBetween(WithNode(net, x, Told(net.nodes[x], m)), i, Step(net, l).value.conns[i]);
  }

  lemma Arrives(net: Network, i: nat, d: Direction, k: Key, v: Value, l: Label)
    requires Crosses(net, i, d, k, v) && At(net.nodes, Receiver(net.conns[i], d), k) != Some(v)
    requires IsDelivery(l) && Step(net, l).Some?
    ensures
      var net' := Step(net, l).value;
      Crosses(net', i, d, k, v) && CrossRank(net', i, d) < CrossRank(net, i, d)
  {
    DeliveredBetween(net, i, l);
    var m := Publish(k, v);
    ReceiverIsTold(net, i, d, m, l);
    assert [] + [m] == [m];
  }

  lemma ComesBack(net: Network, i: nat, d: Direction, k: Key, v: Value, l: Label)
    requires Crosses(net, i, d, k, v) && At(net.nodes, Receiver(net.conns[i], d), k) == Some(v)
    requires IsDelivery(l) && Step(net, l).Some?
    ensures
      var net' := Step(net, l).value;
      Crosses(net', i, d, k, v) && CrossRank(net', i, d) < CrossRank(net, i, d)
  {
    DeliveredBetween(net, i, l);
    ReceiverIsTold(net, i, Reverse(d), Publish(k, v), l);
  }

  lemma CrossesOn(net: Network, i: nat, d: Direction, k: Key, v: Value, l: Label)
    requires Crosses(net, i, d, k, v) && IsDelivery(l) && Step(net, l).Some?
    ensures
      var net' := Step(net, l).value;
      Crosses(net', i, d, k, v) && CrossRank(net', i, d) < CrossRank(net, i, d)
  {
    if At(net.nodes, Receiver(net.conns[i], d), k) == Some(v) {
      ComesBack(net, i, d, k, v, l);
    } else {
      Arrives(net, i, d, k, v, l);
    }
  }

  lemma {:induction false} CrossesInTheEnd(net: Network, i: nat, d: Direction, k: Key, v: Value, ls: seq<Label>)
    requires Crosses(net, i, d, k, v) && AllDeliveries(ls) && Exec(net, ls).Some?
    ensures
      var end := Exec(net, ls).value;
      Crosses(end, i, d, k, v) && |ls| + CrossRank(end, i, d) <= CrossRank(net, i, d)
  {
    if ls != [] {
      CrossesInTheEnd(net, i, d, k, v, ls[..|ls| - 1]);
      CrossesOn(Exec(net, ls[..|ls| - 1]).value, i, d, k, v, ls[|ls| - 1]);
    }
  }

  // ----- A client that is not -----

  /** Every tuple in a queue is one of these. */
  predicate Repeats(q: seq<Msg>, tuples: map<Key, Value>) {
    forall j :: 0 <= j < |q| ==> q[j].Publish? && Get(tuples, q[j].key) == Some(q[j].value)
  }

  /** What becomes of a tuple the server has no use for: it is refused, the client says HELLO and is
      answered, and learns what the server has. */
  datatype Stage = Sent | Turned | Greets | Learns

  /** The client is told the server's value of k, if it has one, and keeps its own otherwise. */
  predicate Learning(down: seq<Msg>, mine: Option<Value>, k: Key, v: Value, tuples: map<Key, Value>) {
    if k in tuples then mine == Some(tuples[k]) || Publish(k, tuples[k]) in down else mine == Some(v)
  }

  ghost predicate Loses(net: Network, i: nat, k: Key, v: Value, s: Stage, server: Node) {
    && Between(net, i)
    && var c := net.conns[i];
       && net.nodes[c.server] == server && Get(server.tuples, k) != Some(v)
       && match s
          case Sent => !c.known && c.up == [Publish(k, v)] && c.down == [] && At(net.nodes, c.client, k) == Some(v)
          case Turned => !c.known && c.up == [] && c.down == [Invalid] && At(net.nodes, c.client, k) == Some(v)
          case Greets => !c.known && c.up == [Hello] && c.down == [] && At(net.nodes, c.client, k) == Some(v)
          case Learns =>
            && c.known && Repeats(c.up, server.tuples) && Repeats(c.down, server.tuples)
            && Learning(c.down, At(net.nodes, c.client, k), k, v, server.tuples)
  }

  function LossRank(net: Network, i: nat, s: Stage, server: Node): nat
    requires i < |net.conns|
  {
    match s
    case Sent => 2 * |server.tuples| + 3
    case Turned => 2 * |server.tuples| + 2
    case Greets => 2 * |server.tuples| + 1
    case Learns => 2 * |net.conns[i].down| + |net.conns[i].up|
  }

  function After(s: Stage): Stage {
    match s
    case Sent => Turned
    case Turned => Greets
    case Greets => Learns
    case Learns => Learns
  }

  lemma IsRefused(net: Network, i: nat, k: Key, v: Value, server: Node, l: Label)
    requires Loses(net, i, k, v, Sent, server) && IsDelivery(l) && Step(net, l).Some?
    ensures Loses(Step(net, l).value, i, k, v, Turned, server)
  {
    DeliveredBetween(net, i, l);
    var c := net.conns[i];
    assert [Publish(k, v)][1..] == [] && [] + [Invalid] == [Invalid];
    WithBetween(net, i, Refused(c));
  }

  lemma SaysHello(net: Network, i: nat, k: Key, v: Value, server: Node, l: Label)
    requires Loses(net, i, k, v, Turned, server) && IsDelivery(l) && Step(net, l).Some?
    ensures Loses(Step(net, l).value, i, k, v, Greets, server)
  {
    DeliveredBetween(net, i, l);
    var c := net.conns[i];
    assert [Invalid][1..] == [] && [] + [Hello] == [Hello];
    WithBetween(net, i, c.(down := [], up := [Hello]));
  }

  lemma AnnounceRepeats(order: seq<Key>, tuples: map<Key, Value>, k: Key)
    requires Enumerates(order, tuples)
    ensures
      var q := Announce(order, tuples);
      |q| <= |tuples| && Repeats(q, tuples) && (k in tuples ==> Publish(k, tuples[k]) in q)
  {
    AnnouncementFits(order, tuples, tuples);
    if k in tuples {
      var j :| 0 <= j < |order| && order[j] == k;
      assert Announce(order, tuples)[j] == Publish(k, tuples[k]);
    }
  }

  lemma IsWelcomed(net: Network, i: nat, k: Key, v: Value, server: Node, l: Label)
    requires Loses(net, i, k, v, Greets, server) && IsDelivery(l) && Step(net, l).Some?
    ensures
      var net' := Step(net, l).value;
      Loses(net', i, k, v, Learns, server) && LossRank(net', i, Learns, server) < LossRank(net, i, Greets, server)
  {
    DeliveredBetween(net, i, l);
    var c, answer := net.conns[i], Announce(l.order, server.tuples);
    AnnounceRepeats(l.order, server.tuples, k);
    assert [Hello][1..] == [] && [] + answer == answer;
    WithBetween(net, i, Welcomed(c, answer));
  }

  lemma ServerKnowsThat(net: Network, i: nat, k: Key, v: Value, server: Node, l: Label)
    requires Loses(net, i, k, v, Learns, server) && l.Up? && Step(net, l).Some?
    ensures
      var net' := Step(net, l).value;
      Loses(net', i, k, v, Learns, server) && LossRank(net', i, Learns, server) < LossRank(net, i, Learns, server)
  {
    DeliveredBetween(net, i, l);
    var c := net.conns[i];
    ServerIsTold(net, i, l.order);
    assert c.down + [] == c.down && net.nodes[c.server := server] == net.nodes;
    WithBetween(net, i, c.(up := c.up[1..]));
  }

  lemma RepeatsOn(q: seq<Msg>, more: seq<Msg>, tuples: map<Key, Value>)
    requires Repeats(q, tuples) && Repeats(more, tuples)
    ensures Repeats(q + more, tuples) && (q != [] ==> Repeats(q[1..], tuples))
  {
  }

  lemma LearnsMore(n: Node, down: seq<Msg>, k: Key, v: Value, tuples: map<Key, Value>)
    requires down != [] && Repeats(down, tuples) && Learning(down, Get(n.tuples, k), k, v, tuples)
    ensures Learning(down[1..], Get(Told(n, down[0]).tuples, k), k, v, tuples)
  {
    assert down == [down[0]] + down[1..];
  }

  lemma ClientLearns(net: Network, i: nat, k: Key, v: Value, server: Node, l: Label)
    requires Loses(net, i, k, v, Learns, server) && l.Down? && Step(net, l).Some?
    ensures
      var net' := Step(net, l).value;
      Loses(net', i, k, v, Learns, server) && LossRank(net', i, Learns, server) < LossRank(net, i, Learns, server)
  {
    DeliveredBetween(net, i, l);
    var c := net.conns[i];
    var n, m := net.nodes[c.client], c.down[0];
    ClientIsTold(net, i);
    LearnsMore(n, c.down, k, v, server.tuples);
    RepeatsOn(c.up, Onward(n, m), server.tuples);
    RepeatsOn(c.down, [], server.tuples);
    WithNodeBetween(net, i, c.client, Told(n, m));
    WithBetween(WithNode(net, c.client, Told(n, m)), i, c.(down := c.down[1..], up := c.up + Onward(n, m)));
  }

  lemma LosesOn(net: Network, i: nat, k: Key, v: Value, s: Stage, server: Node, l: Label)
    requires Loses(net, i, k, v, s, server) && IsDelivery(l) && Step(net, l).Some?
    ensures
      var net' := Step(net, l).value;
      Loses(net', i, k, v, After(s), server) && LossRank(net', i, After(s), server) < LossRank(net, i, s, server)
  {
    match s
    case Sent => IsRefused(net, i, k, v, server, l);
    case Turned => SaysHello(net, i, k, v, server, l);
    case Greets => IsWelcomed(net, i, k, v, server, l);
    case Learns =>
      if l.Up? {
        ServerKnowsThat(net, i, k, v, server, l);
      } else {
        ClientLearns(net, i, k, v, server, l);
      }
  }

  lemma {:induction false} LosesInTheEnd(net: Network, i: nat, k: Key, v: Value, server: Node, ls: seq<Label>)
    returns (s: Stage)
    requires Loses(net, i, k, v, Sent, server) && AllDeliveries(ls) && Exec(net, ls).Some?
    ensures
      var end := Exec(net, ls).value;
      Loses(end, i, k, v, s, server) && |ls| + LossRank(end, i, s, server) <= LossRank(net, i, Sent, server)
  {
    if ls == [] {
      s := Sent;
    } else {
      s := LosesInTheEnd(net, i, k, v, server, ls[..|ls| - 1]);
      LosesOn(Exec(net, ls[..|ls| - 1]).value, i, k, v, s, server, ls[|ls| - 1]);
      s := After(s);
    }
  }

  // ----- Either way -----

  lemma KnownStarts(net: Network, i: nat, d: Direction, k: Key, v: Value)
    requires Between(net, i) && Quiescent(net) && net.conns[i].known
    requires At(net.nodes, Sender(net.conns[i], d), k) != Some(v)
    requires At(net.nodes, Receiver(net.conns[i], d), k) != Some(v)
    ensures Crosses(Accept(net, Sender(net.conns[i], d), k, v), i, d, k, v)
  {
    var c := net.conns[i];
    var x, m := Sender(c, d), Publish(k, v);
    AcceptBetween(net, i, x, m);
    assert [] + [m] == [m];
    WithNodeBetween(net, i, x, Told(net.nodes[x], m));
    WithBetween(WithNode(net, x, Told(net.nodes[x], m)), i, Accept(net, x, k, v).conns[i]);
  }

  lemma ForgottenStarts(net: Network, i: nat, k: Key, v: Value)
    requires Between(net, i) && Quiescent(net) && !net.conns[i].known
    requires At(net.nodes, net.conns[i].client, k) != Some(v) && At(net.nodes, net.conns[i].server, k) != Some(v)
    ensures Loses(Accept(net, net.conns[i].client, k, v), i, k, v, Sent, net.nodes[net.conns[i].server])
  {
    var c := net.conns[i];
    var x, m := c.client, Publish(k, v);
    AcceptBetween(net, i, x, m);
    assert [] + [m] == [m];
    WithNodeBetween(net, i, x, Told(net.nodes[x], m));
    WithBetween(WithNode(net, x, Told(net.nodes[x], m)), i, Accept(net, x, k, v).conns[i]);
  }

  /** A server with a tuple and no client to tell: nothing happens. */
  lemma ServerKeepsIt(net: Network, i: nat, k: Key, v: Value)
    requires Between(net, i) && Quiescent(net) && !net.conns[i].known
    ensures
      var c, net' := net.conns[i], Accept(net, net.conns[i].server, k, v);
      Quiescent(net') && net'.conns == net.conns && net'.nodes[c.client] == net.nodes[c.client]
  {
    var c := net.conns[i];
    AcceptBetween(net, i, c.server, Publish(k, v));
    assert c.down + [] == c.down && net.conns[i := c] == net.conns;
  }

  /** Nothing in flight, nothing to handle. */
  lemma {:induction false} RestsAlready(net: Network, ls: seq<Label>)
    requires WellFormed(net) && Quiescent(net) && AllDeliveries(ls) && Exec(net, ls).Some?
    ensures ls == []
  {
    if ls != [] {
      RestsAlready(net, ls[..|ls| - 1]);
    }
  }

  /** How many messages a tuple new to a pair can cause. */
  function Effort(net: Network, i: nat, d: Direction): nat
    requires i < |net.conns| && net.conns[i].server < |net.nodes|
  {
    if net.conns[i].known then 2
    else if d.Upward? then 2 * |net.nodes[net.conns[i].server].tuples| + 3
    else 0
  }

  /** What the two ends of connection i hold of k in the end, and whether the server then knows the client.
      A tuple of a client that is not known does not only not arrive: if the server has a value for the key,
      the client is told that one and loses its own. */
  ghost predicate Outcome(net: Network, end: Network, i: nat, d: Direction, k: Key, v: Value)
    requires i < |net.conns| && i < |end.conns| && WellFormed(net) && |end.nodes| == |net.nodes|
  {
    var c := net.conns[i];
    var receivers := At(net.nodes, Receiver(c, d), k);
    && (At(end.nodes, Receiver(c, d), k) == Some(v) <==> c.known)
    && At(end.nodes, Sender(c, d), k) == (if !c.known && d.Upward? && receivers.Some? then receivers else Some(v))
    && (end.conns[i].known <==> c.known || d.Upward?)
  }

  lemma {:induction false} ExecKeepsEnds(net: Network, i: nat, ls: seq<Label>)
    requires WellFormed(net) && i < |net.conns| && AllDeliveries(ls) && Exec(net, ls).Some?
    ensures
      var end := Exec(net, ls).value;
      && |end.nodes| == |net.nodes| && |end.conns| == |net.conns|
      && end.conns[i].client == net.conns[i].client && end.conns[i].server == net.conns[i].server
  {
    if ls != [] {
      ExecKeepsEnds(net, i, ls[..|ls| - 1]);
      StepKeepsEnds(Exec(net, ls[..|ls| - 1]).value, ls[|ls| - 1]);
      StepWellFormed(Exec(net, ls[..|ls| - 1]).value, ls[|ls| - 1]);
    }
  }

  lemma TupleGoes(net: Network, i: nat, d: Direction, k: Key, v: Value, ls: seq<Label>)
    requires WellFormed(net) && Quiescent(net) && i < |net.conns| && Alone(net, i)
    requires At(net.nodes, net.conns[i].client, k) != Some(v) && At(net.nodes, net.conns[i].server, k) != Some(v)
    requires
      var net' := Accept(net, Sender(net.conns[i], d), k, v);
      WellFormed(net') && AllDeliveries(ls) && Exec(net', ls).Some?
    ensures |ls| <= Effort(net, i, d)
    ensures
      var end := Exec(Accept(net, Sender(net.conns[i], d), k, v), ls).value;
      && |end.nodes| == |net.nodes| && |end.conns| == |net.conns|
      && (Quiescent(end) ==> Outcome(net, end, i, d, k, v))
  {
    var c := net.conns[i];
    var net' := Accept(net, Sender(c, d), k, v);
    AcceptKeepsEnds(net, Sender(c, d), k, v);
    ExecKeepsEnds(net', i, ls);
    if c.known {
      KnownStarts(net, i, d, k, v);
      CrossesInTheEnd(net', i, d, k, v, ls);
    } else if d.Upward? {
      ForgottenStarts(net, i, k, v);
      var s := LosesInTheEnd(net', i, k, v, net.nodes[c.server], ls);
    } else {
      ServerKeepsIt(net, i, k, v);
      RestsAlready(net', ls);
    }
  }

  /** "A node forwards to every remote and every client it talks to."  One end of a connection, in any
      quiescent network in which the two ends have no other connection, gets a tuple that is new to both.
      Every order of delivery ends, and then the other end has the tuple if and only if the server knew the
      client when the tuple came. */
  lemma ArrivesIffKnown(net: Network, i: nat, d: Direction, k: Key, v: Value)
    requires WellFormed(net) && Quiescent(net) && i < |net.conns| && Alone(net, i)
    requires At(net.nodes, net.conns[i].client, k) != Some(v) && At(net.nodes, net.conns[i].server, k) != Some(v)
    ensures
      var c := net.conns[i];
      var net' := Accept(net, Sender(c, d), k, v);
      && WellFormed(net') && Within(net', Effort(net, i, d)) && Terminates(net')
      && forall ls :: AllDeliveries(ls) && Exec(net', ls).Some? && Quiescent(Exec(net', ls).value) ==>
           var end := Exec(net', ls).value;
           && |end.nodes| == |net.nodes| && |end.conns| == |net.conns|
           && (At(end.nodes, Receiver(c, d), k) == Some(v) <==> c.known)
           && Outcome(net, end, i, d, k, v)
  {
    var c := net.conns[i];
    AcceptWellFormed(net, Sender(c, d), k, v);
    var net' := Accept(net, Sender(c, d), k, v);
    forall ls | AllDeliveries(ls) && Exec(net', ls).Some?
      ensures |ls| <= Effort(net, i, d)
      ensures
        var end := Exec(net', ls).value;
        && |end.nodes| == |net.nodes| && |end.conns| == |net.conns|
        && (Quiescent(end) ==> Outcome(net, end, i, d, k, v))
    {
      TupleGoes(net, i, d, k, v, ls);
    }
    assert Within(net', Effort(net, i, d));
  }
}
