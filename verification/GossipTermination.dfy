/** Flooding stops: with one value per key in flight, cycles or not, the number of messages a gossip
    network can still handle is bounded, and it only stops when it is quiescent. */
module GossipTermination {
  import opened Gossip
  import opened GossipConsistency
  import opened Wrappers

  predicate IsDelivery(l: Label) {
    l.Up? || l.Down?
  }

  predicate AllDeliveries(ls: seq<Label>) {
    forall i :: 0 <= i < |ls| ==> IsDelivery(ls[i])
  }

  /** What a network does when its applications leave it alone. */
  predicate IsOwn(l: Label) {
    IsDelivery(l) || l.Expire?
  }

  predicate AllOwn(ls: seq<Label>) {
    forall i :: 0 <= i < |ls| ==> IsOwn(ls[i])
  }

  /** No run of deliveries from here is longer than b. */
  ghost predicate Within(net: Network, b: nat)
    requires WellFormed(net)
  {
    forall ls :: AllDeliveries(ls) && Exec(net, ls).Some? ==> |ls| <= b
  }

  ghost predicate Terminates(net: Network)
    requires WellFormed(net)
  {
    exists b: nat :: Within(net, b)
  }

  predicate Agrees(m: Msg, target: map<Key, Value>) {
    m.Publish? ==> Get(target, m.key) == Some(m.value)
  }

  predicate QueueAgrees(q: seq<Msg>, target: map<Key, Value>) {
    forall i :: 0 <= i < |q| ==> Agrees(q[i], target)
  }

  predicate Submap(m: map<Key, Value>, target: map<Key, Value>) {
    forall k :: k in m ==> Get(target, k) == Some(m[k])
  }

  /** For each key at most one value is in flight, or may be announced by a server that has not yet handled
      a HELLO or has forgotten a client.  Nodes may hold older values. */
  ghost predicate Settling(net: Network, target: map<Key, Value>)
    requires WellFormed(net)
  {
    forall i :: 0 <= i < |net.conns| ==> ConnSettling(net.nodes, net.conns[i], target)
  }

  ghost predicate ConnSettling(nodes: seq<Node>, c: Connection, target: map<Key, Value>)
    requires c.server < |nodes|
  {
    QueueAgrees(c.up, target) && QueueAgrees(c.down, target)
      && (!c.known || c.reset ==> Submap(nodes[c.server].tuples, target))
  }

  // ----- The measure -----

  function Missing(m: map<Key, Value>, target: map<Key, Value>): set<Key> {
    set k | k in target && Get(m, k) != Some(target[k])
  }

  /** The (node, key) pairs that do not hold the target value yet. */
  function Stale(nodes: seq<Node>, target: map<Key, Value>): nat {
    if nodes == [] then 0 else |Missing(nodes[0].tuples, target)| + Stale(nodes[1..], target)
  }

  /** What a message to the server can still cause, with t target keys: a refused PUBLISH becomes an
      INVALID, an INVALID a HELLO, and a HELLO an announcement or an INVALID. */
  function UpCost(m: Msg, t: nat): nat {
    if m.Hello? then t + 3 else t + 5
  }

  function DownCost(m: Msg, t: nat): nat {
    if m.Invalid? then t + 4 else 1
  }

  function UpCosts(q: seq<Msg>, t: nat): nat {
    if q == [] then 0 else UpCost(q[0], t) + UpCosts(q[1..], t)
  }

  function DownCosts(q: seq<Msg>, t: nat): nat {
    if q == [] then 0 else DownCost(q[0], t) + DownCosts(q[1..], t)
  }

  function Weight(c: Connection, t: nat): nat {
    UpCosts(c.up, t) + DownCosts(c.down, t) + if c.known then 2 else 0
  }

  function Load(conns: seq<Connection>, t: nat): nat {
    if conns == [] then 0 else Weight(conns[0], t) + Load(conns[1..], t)
  }

  /** n times w, by addition. */
  function Times(n: nat, w: nat): nat {
    if n == 0 then 0 else w + Times(n - 1, w)
  }

  /** An accepted tuple puts at most one message on each direction of each connection. */
  function Measure(net: Network, target: map<Key, Value>): nat {
    Times(Stale(net.nodes, target), Times(|net.conns|, |target| + 6) + 1) + Load(net.conns, |target|)
  }

  lemma {:induction false} UpCostsAppend(q: seq<Msg>, m: Msg, t: nat)
    ensures UpCosts(q + [m], t) == UpCosts(q, t) + UpCost(m, t)
  {
    if q == [] {
      assert q + [m] == [m];
    } else {
      UpCostsAppend(q[1..], m, t);
      assert (q + [m])[1..] == q[1..] + [m];
    }
  }

  lemma {:induction false} DownCostsAppend(q: seq<Msg>, r: seq<Msg>, t: nat)
    ensures DownCosts(q + r, t) == DownCosts(q, t) + DownCosts(r, t)
  {
    if q == [] {
      assert q + r == r;
    } else {
      DownCostsAppend(q[1..], r, t);
      assert (q + r)[1..] == q[1..] + r;
    }
  }

  lemma {:induction false} AnnouncementCosts(order: seq<Key>, m: map<Key, Value>, t: nat)
    requires forall k :: k in order ==> k in m
    ensures DownCosts(Announce(order, m), t) == |order|
  {
    if order != [] {
      AnnouncementCosts(order[1..], m, t);
      assert Announce(order, m)[1..] == Announce(order[1..], m);
    }
  }

  lemma {:induction false} StaleUpdate(nodes: seq<Node>, x: nat, n: Node, target: map<Key, Value>)
    requires x < |nodes|
    ensures Stale(nodes[x := n], target) + |Missing(nodes[x].tuples, target)| ==
      Stale(nodes, target) + |Missing(n.tuples, target)|
  {
    if x == 0 {
      assert nodes[x := n][1..] == nodes[1..];
    } else {
      StaleUpdate(nodes[1..], x - 1, n, target);
      assert nodes[x := n][1..] == nodes[1..][x - 1 := n];
    }
  }

  lemma {:induction false} LoadUpdate(conns: seq<Connection>, i: nat, c: Connection, t: nat)
    requires i < |conns|
    ensures Load(conns[i := c], t) + Weight(conns[i], t) == Load(conns, t) + Weight(c, t)
  {
    if i == 0 {
      assert conns[i := c][1..] == conns[1..];
    } else {
      LoadUpdate(conns[1..], i - 1, c, t);
      assert conns[i := c][1..] == conns[1..][i - 1 := c];
    }
  }

  lemma ForwardCosts(c: Connection, x: nat, m: Msg, t: nat)
    requires m.Publish? && c.client != c.server
    ensures Weight(Forward(c, x, m), t) <= Weight(c, t) + t + 6
  {
    UpCostsAppend(c.up, m, t);
    DownCostsAppend(c.down, [m], t);
    assert DownCosts([m], t) == 1 by {
      assert [m][1..] == [];
    }
  }

  lemma {:induction false} LoadBroadcast(conns: seq<Connection>, x: nat, m: Msg, t: nat)
    requires m.Publish? && forall i :: 0 <= i < |conns| ==> conns[i].client != conns[i].server
    ensures Load(Broadcast(conns, x, m), t) <= Load(conns, t) + Times(|conns|, t + 6)
  {
    if conns != [] {
      LoadBroadcast(conns[1..], x, m, t);
      ForwardCosts(conns[0], x, m, t);
      assert Broadcast(conns, x, m)[1..] == Broadcast(conns[1..], x, m);
    }
  }

  lemma MissingShrinks(m: map<Key, Value>, k: Key, target: map<Key, Value>)
    requires k in target && Get(m, k) != Some(target[k])
    ensures |Missing(m[k := target[k]], target)| + 1 == |Missing(m, target)|
  {
    assert Missing(m[k := target[k]], target) == Missing(m, target) - {k};
  }

  /** Accepting a target tuple costs less than it saves. */
  lemma AcceptDescends(net: Network, x: nat, k: Key, v: Value, target: map<Key, Value>)
    requires WellFormed(net) && x < |net.nodes| && Get(target, k) == Some(v)
    ensures Measure(Accept(net, x, k, v), target) <= Measure(net, target)
  {
    var net' := Accept(net, x, k, v);
    if net' != net {
      StaleUpdate(net.nodes, x, net'.nodes[x], target);
      MissingShrinks(net.nodes[x].tuples, k, target);
      LoadBroadcast(net.conns, x, Publish(k, v), |target|);
      assert Stale(net.nodes, target) == Stale(net'.nodes, target) + 1;
    }
  }

  lemma PopDescends(net: Network, i: nat, c: Connection, target: map<Key, Value>)
    requires i < |net.conns| && Weight(c, |target|) < Weight(net.conns[i], |target|)
    ensures Measure(net.(conns := net.conns[i := c]), target) < Measure(net, target)
  {
    LoadUpdate(net.conns, i, c, |target|);
  }

  /** A sequence without repetitions is no longer than a set that holds its elements. */
  lemma {:induction false} NoRepetitions(order: seq<Key>, keys: set<Key>)
    requires forall i, j :: 0 <= i < j < |order| ==> order[i] != order[j]
    requires forall k :: k in order ==> k in keys
    ensures |order| <= |keys|
  {
    if order != [] {
      var rest := order[1..];
      assert forall k :: k in rest ==> k in order && k != order[0];
      NoRepetitions(rest, keys - {order[0]});
    }
  }

  lemma AnnouncementFits(order: seq<Key>, m: map<Key, Value>, target: map<Key, Value>)
    requires Enumerates(order, m) && Submap(m, target)
    ensures |order| <= |target| && QueueAgrees(Announce(order, m), target)
  {
    NoRepetitions(order, target.Keys);
  }

  // ----- One delivery -----

  lemma AcceptSettles(net: Network, x: nat, k: Key, v: Value, target: map<Key, Value>)
    requires WellFormed(net) && Settling(net, target) && x < |net.nodes| && Get(target, k) == Some(v)
    ensures WellFormed(Accept(net, x, k, v)) && Settling(Accept(net, x, k, v), target)
  {
    var net' := Accept(net, x, k, v);
    forall i | 0 <= i < |net'.conns|
      ensures ConnSettling(net'.nodes, net'.conns[i], target)
    {
      assert ConnSettling(net.nodes, net.conns[i], target);
    }
  }

  lemma PopSettles(net: Network, i: nat, c: Connection, target: map<Key, Value>)
    requires WellFormed(net) && Settling(net, target) && i < |net.conns|
    requires c.client == net.conns[i].client && c.server == net.conns[i].server
    requires ConnSettling(net.nodes, c, target)
    ensures WellFormed(net.(conns := net.conns[i := c])) && Settling(net.(conns := net.conns[i := c]), target)
  {
  }

  /** Changing one connection for one that costs less. */
  lemma ConnDescends(net: Network, i: nat, c: Connection, target: map<Key, Value>)
    requires WellFormed(net) && Settling(net, target) && i < |net.conns|
    requires c.client == net.conns[i].client && c.server == net.conns[i].server
    requires ConnSettling(net.nodes, c, target) && Weight(c, |target|) < Weight(net.conns[i], |target|)
    ensures
      var net' := net.(conns := net.conns[i := c]);
      WellFormed(net') && Settling(net', target) && Measure(net', target) < Measure(net, target)
  {
    PopSettles(net, i, c, target);
    PopDescends(net, i, c, target);
  }

  /** Taking a PUBLISH off a connection and accepting it. */
  lemma TakeDescends(net: Network, i: nat, c: Connection, x: nat, m: Msg, target: map<Key, Value>)
    requires WellFormed(net) && Settling(net, target) && i < |net.conns| && x < |net.nodes|
    requires Takes(net.conns[i], c, x, m)
    ensures
      var net' := Accept(net.(conns := net.conns[i := c]), x, m.key, m.value);
      WellFormed(net') && Settling(net', target) && Measure(net', target) < Measure(net, target)
  {
    assert ConnSettling(net.nodes, net.conns[i], target) && Agrees(m, target);
    ConnDescends(net, i, c, target);
    AcceptSettles(net.(conns := net.conns[i := c]), x, m.key, m.value, target);
    AcceptDescends(net.(conns := net.conns[i := c]), x, m.key, m.value, target);
  }

  lemma WelcomeDescends(net: Network, i: nat, order: seq<Key>, target: map<Key, Value>)
    requires WellFormed(net) && Settling(net, target) && i < |net.conns| && HelloNext(net, i)
    requires Enumerates(order, net.nodes[net.conns[i].server].tuples)
    ensures
      var c := net.conns[i];
      var net' := net.(conns := net.conns[i := Welcomed(c, Announce(order, net.nodes[c.server].tuples))]);
      WellFormed(net') && Settling(net', target) && Measure(net', target) < Measure(net, target)
  {
    var c := net.conns[i];
    var answer := Announce(order, net.nodes[c.server].tuples);
    assert ConnSettling(net.nodes, c, target);
    AnnouncementFits(order, net.nodes[c.server].tuples, target);
    AnnouncementCosts(order, net.nodes[c.server].tuples, |target|);
    DownCostsAppend(c.down, answer, |target|);
    ConnDescends(net, i, Welcomed(c, answer), target);
  }

  lemma RefusalDescends(net: Network, i: nat, target: map<Key, Value>)
    requires Inv(net) && WellFormed(net) && Settling(net, target) && i < |net.conns| && net.conns[i].up != []
    requires !HelloNext(net, i) && !(net.conns[i].known && net.conns[i].up[0].Publish?)
    ensures
      var net' := net.(conns := net.conns[i := Refused(net.conns[i])]);
      WellFormed(net') && Settling(net', target) && Measure(net', target) < Measure(net, target)
  {
    var c, t := net.conns[i], |target|;
    assert LinkOk(net.nodes, c) && ConnSettling(net.nodes, c, target);
    DownCostsAppend(c.down, [Invalid], t);
    assert DownCosts([Invalid], t) == t + 4 by {
      assert [Invalid][1..] == [];
    }
    ConnDescends(net, i, Refused(c), target);
  }

  /** Handling any message of a settling network brings it closer to its end, and so does an expiry. */
  lemma UpDescends(net: Network, i: nat, order: seq<Key>, target: map<Key, Value>)
    requires Inv(net) && WellFormed(net) && Settling(net, target) && Step(net, Up(i, order)).Some?
    ensures
      var net' := Step(net, Up(i, order)).value;
      WellFormed(net') && Settling(net', target) && Measure(net', target) < Measure(net, target)
  {
    var c := net.conns[i];
    if c.known && c.up[0].Publish? {
      TakeDescends(net, i, c.(up := c.up[1..]), c.server, c.up[0], target);
    } else if HelloNext(net, i) {
      WelcomeDescends(net, i, order, target);
    } else {
      RefusalDescends(net, i, target);
    }
  }

  lemma DownDescends(net: Network, i: nat, target: map<Key, Value>)
    requires Inv(net) && WellFormed(net) && Settling(net, target) && Step(net, Down(i)).Some?
    ensures
      var net' := Step(net, Down(i)).value;
      WellFormed(net') && Settling(net', target) && Measure(net', target) < Measure(net, target)
  {
    var c := net.conns[i];
    assert LinkOk(net.nodes, c) && ConnSettling(net.nodes, c, target);
    if c.down[0].Publish? {
      TakeDescends(net, i, c.(down := c.down[1..]), c.client, c.down[0], target);
    } else {
      UpCostsAppend(c.up, Hello, |target|);
      ConnDescends(net, i, Step(net, Down(i)).value.conns[i], target);
    }
  }

  /** Every node holds nothing but target tuples. */
  ghost predicate Agreed(net: Network, target: map<Key, Value>)
    requires WellFormed(net)
  {
    Settling(net, target) && forall x :: 0 <= x < |net.nodes| ==> Submap(net.nodes[x].tuples, target)
  }

  lemma AcceptAgreed(net: Network, x: nat, k: Key, v: Value, target: map<Key, Value>)
    requires x < |net.nodes| && Get(target, k) == Some(v)
    requires forall y :: 0 <= y < |net.nodes| ==> Submap(net.nodes[y].tuples, target)
    ensures
      var net' := Accept(net, x, k, v);
      |net'.nodes| == |net.nodes| && forall y :: 0 <= y < |net.nodes| ==> Submap(net'.nodes[y].tuples, target)
  {
  }

  lemma StepAgreed(net: Network, l: Label, target: map<Key, Value>)
    requires Inv(net) && WellFormed(net) && Agreed(net, target) && IsOwn(l) && Step(net, l).Some?
    ensures
      var net' := Step(net, l).value;
      WellFormed(net') && Agreed(net', target) && Measure(net', target) < Measure(net, target)
  {
    match l
    case Up(i, order) =>
      var c := net.conns[i];
      assert ConnSettling(net.nodes, c, target) && Agrees(c.up[0], target);
      UpDescends(net, i, order, target);
      if c.known && c.up[0].Publish? {
        AcceptAgreed(net.(conns := net.conns[i := c.(up := c.up[1..])]), c.server, c.up[0].key, c.up[0].value, target);
      }
    case Down(i) =>
      var c := net.conns[i];
      assert ConnSettling(net.nodes, c, target) && Agrees(c.down[0], target);
      DownDescends(net, i, target);
      if c.down[0].Publish? {
        AcceptAgreed(net.(conns := net.conns[i := c.(down := c.down[1..])]), c.client, c.down[0].key, c.down[0].value,
          target);
      }
    case Expire(i) => ExpireDescends(net, i, target);
  }

  lemma {:induction false} OwnRunDescends(net: Network, ls: seq<Label>, target: map<Key, Value>)
    requires Inv(net) && WellFormed(net) && Agreed(net, target) && AllOwn(ls) && Exec(net, ls).Some?
    ensures
      var net' := Exec(net, ls).value;
      Inv(net') && Agreed(net', target) && |ls| + Measure(net', target) <= Measure(net, target)
  {
    ExecKeepsInv(net, ls);
    if ls != [] {
      OwnRunDescends(net, ls[..|ls| - 1], target);
      StepAgreed(Exec(net, ls[..|ls| - 1]).value, ls[|ls| - 1], target);
    }
  }

  lemma ExpireDescends(net: Network, i: nat, target: map<Key, Value>)
    requires WellFormed(net) && Settling(net, target) && Step(net, Expire(i)).Some?
    requires Submap(net.nodes[net.conns[i].server].tuples, target)
    ensures
      var net' := Step(net, Expire(i)).value;
      WellFormed(net') && Settling(net', target) && Measure(net', target) < Measure(net, target)
  {
    var c := net.conns[i];
    assert ConnSettling(net.nodes, c, target);
    ConnDescends(net, i, c.(known := false, reset := true), target);
  }

  lemma {:induction false} RunDescends(net: Network, ls: seq<Label>, target: map<Key, Value>)
    requires Inv(net) && WellFormed(net) && Settling(net, target) && AllDeliveries(ls) && Exec(net, ls).Some?
    ensures
      var net' := Exec(net, ls).value;
      Inv(net') && Settling(net', target) && |ls| + Measure(net', target) <= Measure(net, target)
  {
    ExecKeepsInv(net, ls);
    if ls != [] {
      RunDescends(net, ls[..|ls| - 1], target);
      var mid, l := Exec(net, ls[..|ls| - 1]).value, ls[|ls| - 1];
      if l.Up? {
        UpDescends(mid, l.conn, l.order, target);
      } else {
        DownDescends(mid, l.conn, target);
      }
    }
  }

  /** A settling network handles at most Measure messages, whatever its shape and the order of
      delivery. */
  lemma SettlingTerminates(net: Network, target: map<Key, Value>)
    requires Inv(net) && WellFormed(net) && Settling(net, target)
    ensures Within(net, Measure(net, target)) && Terminates(net)
  {
    forall ls | AllDeliveries(ls) && Exec(net, ls).Some?
      ensures |ls| <= Measure(net, target)
    {
      RunDescends(net, ls, target);
    }
    var b := Measure(net, target);
    assert Within(net, b);
  }

  // ----- It only stops when it is quiescent -----

  lemma {:induction false} CanEnumerate(keys: set<Key>) returns (order: seq<Key>)
    ensures forall k :: k in order <==> k in keys
    ensures forall i, j :: 0 <= i < j < |order| ==> order[i] != order[j]
  {
    if keys == {} {
      order := [];
    } else {
      var k :| k in keys;
      var rest := CanEnumerate(keys - {k});
      order := [k] + rest;
    }
  }

  lemma OnlyQuiescenceStops(net: Network)
    requires WellFormed(net) && !Quiescent(net)
    ensures exists l :: IsDelivery(l) && Step(net, l).Some?
  {
    var i :| 0 <= i < |net.conns| && (net.conns[i].up != [] || net.conns[i].down != []);
    var c := net.conns[i];
    if c.up != [] {
      var order := CanEnumerate(net.nodes[c.server].tuples.Keys);
      assert Enumerates(order, net.nodes[c.server].tuples);
      assert IsDelivery(Up(i, order)) && Step(net, Up(i, order)).Some?;
    } else {
      assert IsDelivery(Down(i)) && Step(net, Down(i)).Some?;
    }
  }

  // ----- When the applications' publications keep a network settling -----

  /** Nothing about k is in flight or about to be announced. */
  predicate QuietFor(net: Network, k: Key) {
    forall i :: 0 <= i < |net.conns| ==>
      net.conns[i].known && !net.conns[i].reset && NoneFor(net.conns[i].up, k) && NoneFor(net.conns[i].down, k)
  }

  predicate NoneFor(q: seq<Msg>, k: Key) {
    forall i :: 0 <= i < |q| ==> q[i].Publish? ==> q[i].key != k
  }

  /** Publishing a key nothing is said about, or the value already in flight for it, is safe. */
  lemma SafePublication(net: Network, target: map<Key, Value>, x: nat, k: Key, v: Value)
    requires Inv(net) && WellFormed(net) && Settling(net, target) && x < |net.nodes|
    requires QuietFor(net, k) || Get(target, k) == Some(v)
    ensures
      var net' := Accept(net, x, k, v);
      Inv(net') && WellFormed(net') && Settling(net', target[k := v]) && Terminates(net')
  {
    StepKeepsInv(net, Publication(x, k, v));
    StepWellFormed(net, Publication(x, k, v));
    var target' := target[k := v];
    forall i | 0 <= i < |net.conns|
      ensures ConnSettling(net.nodes, net.conns[i], target')
    {
      assert ConnSettling(net.nodes, net.conns[i], target);
    }
    AcceptSettles(net, x, k, v, target');
    SettlingTerminates(Accept(net, x, k, v), target');
  }

  // ----- Each tuple is stored and delivered once -----

  /** The application has been handed exactly the tuples its node holds, each once. */
  ghost predicate DeliveredOnce(n: Node) {
    && (forall k, v :: (k, v) in n.delivered <==> Get(n.tuples, k) == Some(v))
    && (forall i, j :: 0 <= i < j < |n.delivered| ==> n.delivered[i] != n.delivered[j])
  }

  lemma StoreDeliversOnce(n: Node, k: Key, v: Value)
    requires DeliveredOnce(n) && k !in n.tuples
    ensures DeliveredOnce(Node(n.tuples[k := v], n.delivered + [(k, v)]))
  {
    var n' := Node(n.tuples[k := v], n.delivered + [(k, v)]);
    forall j, w
      ensures (j, w) in n'.delivered <==> Get(n'.tuples, j) == Some(w)
    {
      assert (j, w) in n.delivered <==> Get(n.tuples, j) == Some(w);
    }
  }

  lemma AcceptDeliversOnce(net: Network, x: nat, k: Key, v: Value, pub: set<(Key, Value)>, y: nat)
    requires FromPublications(net, pub) && OneValuePerKey(pub) && (k, v) in pub
    requires x < |net.nodes| && y < |net.nodes| && DeliveredOnce(net.nodes[x]) && DeliveredOnce(net.nodes[y])
    ensures DeliveredOnce(Accept(net, x, k, v).nodes[y])
  {
    if k in net.nodes[x].tuples {
      assert (k, net.nodes[x].tuples[k]) in pub;
    } else {
      StoreDeliversOnce(net.nodes[x], k, v);
    }
  }

  lemma StepDeliversOnce(net: Network, l: Label, pub: set<(Key, Value)>, y: nat)
    requires WellFormed(net) && Step(net, l).Some? && FromPublications(net, pub) && OneValuePerKey(pub)
    requires l.Publication? ==> (l.key, l.value) in pub
    requires y < |net.nodes| && forall x :: 0 <= x < |net.nodes| ==> DeliveredOnce(net.nodes[x])
    ensures y < |Step(net, l).value.nodes| && DeliveredOnce(Step(net, l).value.nodes[y])
  {
    match l
    case Publication(x, k, v) => AcceptDeliversOnce(net, x, k, v, pub, y);
    case Connect(a, b, order) =>
    case Up(i, order) =>
      var c := net.conns[i];
      if c.known && c.up[0].Publish? {
        AcceptDeliversOnce(net.(conns := net.conns[i := c.(up := c.up[1..])]), c.server, c.up[0].key, c.up[0].value,
          pub, y);
      }
    case Down(i) =>
      var c := net.conns[i];
      if c.down[0].Publish? {
        AcceptDeliversOnce(net.(conns := net.conns[i := c.(down := c.down[1..])]), c.client, c.down[0].key,
          c.down[0].value, pub, y);
      }
    case Expire(i) =>
  }

  lemma PublishedPrefix(ls: seq<Label>)
    requires ls != []
    ensures Published(ls[..|ls| - 1]) <= Published(ls)
    ensures ls[|ls| - 1].Publication? ==> (ls[|ls| - 1].key, ls[|ls| - 1].value) in Published(ls)
  {
  }

  lemma {:induction false} NodesStay(n: nat, ls: seq<Label>)
    requires Exec(Init(n), ls).Some?
    ensures |Exec(Init(n), ls).value.nodes| == n
  {
    if ls != [] {
      NodesStay(n, ls[..|ls| - 1]);
      StepWellFormed(Exec(Init(n), ls[..|ls| - 1]).value, ls[|ls| - 1]);
    }
  }

  /** In every run with one value per key, however often a tuple comes round, each node stores it and
      delivers it to its application once. */
  lemma {:induction false} EachTupleDeliveredOnce(n: nat, ls: seq<Label>, y: nat)
    requires Exec(Init(n), ls).Some? && OneValuePerKey(Published(ls)) && y < n
    ensures y < |Exec(Init(n), ls).value.nodes| == n && DeliveredOnce(Exec(Init(n), ls).value.nodes[y])
  {
    if ls != [] {
      var before, l := ls[..|ls| - 1], ls[|ls| - 1];
      PublishedPrefix(ls);
      var mid := Exec(Init(n), before).value;
      NodesStay(n, before);
      forall x | 0 <= x < |mid.nodes|
        ensures DeliveredOnce(mid.nodes[x])
      {
        EachTupleDeliveredOnce(n, before, x);
      }
      NothingInvented(n, before);
      FromMorePublications(mid, Published(before), Published(ls));
      StepDeliversOnce(mid, l, Published(ls), y);
    }
    NodesStay(n, ls);
  }

  // ----- Every run with one value per key -----

  function Target(pub: set<(Key, Value)>): map<Key, Value>
    requires OneValuePerKey(pub)
  {
    map p | p in pub :: p.0 := p.1
  }

  lemma TargetHas(pub: set<(Key, Value)>, k: Key, v: Value)
    requires OneValuePerKey(pub) && (k, v) in pub
    ensures Get(Target(pub), k) == Some(v)
  {
  }

  lemma PublishedAgrees(net: Network, pub: set<(Key, Value)>)
    requires WellFormed(net) && FromPublications(net, pub) && OneValuePerKey(pub)
    ensures Agreed(net, Target(pub))
  {
    forall k, v | (k, v) in pub
      ensures Get(Target(pub), k) == Some(v)
    {
      TargetHas(pub, k, v);
    }
  }

  /** Whatever the shape of the network and the order of events, after any run in which each key was
      published with one value only a bounded number of messages can still be handled and of clients
      expired. */
  lemma OneValueTerminates(n: nat, ls: seq<Label>, more: seq<Label>)
    requires Exec(Init(n), ls).Some? && OneValuePerKey(Published(ls))
    requires AllOwn(more) && Exec(Exec(Init(n), ls).value, more).Some?
    ensures
      var net := Exec(Init(n), ls).value;
      Terminates(net) && |more| <= Measure(net, Target(Published(ls)))
  {
    var net := Exec(Init(n), ls).value;
    NothingInvented(n, ls);
    ExecKeepsInv(Init(n), ls);
    PublishedAgrees(net, Published(ls));
    SettlingTerminates(net, Target(Published(ls)));
    OwnRunDescends(net, more, Target(Published(ls)));
  }

  lemma {:induction false} ExecAppend(net: Network, a: seq<Label>, b: seq<Label>)
    requires WellFormed(net) && Exec(net, a).Some?
    ensures Exec(net, a + b) == Exec(Exec(net, a).value, b)
    decreases |b|
  {
    if b == [] {
      assert a + b == a;
    } else {
      ExecAppend(net, a, b[..|b| - 1]);
      assert (a + b)[..|a + b| - 1] == a + b[..|b| - 1];
    }
  }

  lemma {:induction false} OwnPublishesNothing(ls: seq<Label>, more: seq<Label>)
    requires AllOwn(more)
    ensures Published(ls + more) == Published(ls)
    decreases |more|
  {
    if more == [] {
      assert ls + more == ls;
    } else {
      OwnPublishesNothing(ls, more[..|more| - 1]);
      assert (ls + more)[..|ls + more| - 1] == ls + more[..|more| - 1];
    }
  }

  /** The promise of the protocol.  Each key is published with one value, and then the network is left
      alone: every run of it is bounded, and one that cannot go on, with the network still joined up by
      connections whose servers never forgot their clients, leaves every node with exactly what was
      published. */
  lemma GossipSettles(n: nat, ls: seq<Label>, more: seq<Label>, x: nat, k: Key, v: Value)
    requires Exec(Init(n), ls).Some? && OneValuePerKey(Published(ls))
    requires AllOwn(more) && Exec(Exec(Init(n), ls).value, more).Some?
    ensures |more| <= Measure(Exec(Init(n), ls).value, Target(Published(ls)))
    ensures
      var end := Exec(Exec(Init(n), ls).value, more).value;
      (forall l :: IsDelivery(l) ==> Step(end, l) == None) && Connected(end) && x < |end.nodes| ==>
        (Get(end.nodes[x].tuples, k) == Some(v) <==> (k, v) in Published(ls))
  {
    OneValueTerminates(n, ls, more);
    ExecAppend(Init(n), ls, more);
    OwnPublishesNothing(ls, more);
    ExecKeepsInv(Init(n), ls + more);
    var end := Exec(Init(n), ls + more).value;
    if (forall l :: IsDelivery(l) ==> Step(end, l) == None) && Connected(end) && x < |end.nodes| {
      if !Quiescent(end) {
        OnlyQuiescenceStops(end);
        assert false;
      }
      GossipConverges(n, ls + more, x, k, v);
    }
  }
}
