/** Two nodes of a network publish a key.  If the values differ, some order of delivery lets one of them
    flood the network up to the other, and from there the two are exchanged without end. */
module GossipRivals {
  import opened Gossip
  import opened GossipConsistency
  import opened GossipTermination
  import opened GossipLivelock
  import opened Wrappers

  /** What one direction of a connection holds while v floods from the nodes `taken` and w waits at y. */
  ghost predicate Carries(c: Connection, d: Direction, k: Key, v: Value, w: Value, y: nat, taken: set<nat>) {
    var s, r := Sender(c, d), Receiver(c, d);
    if s == y then Queue(c, d) == [Publish(k, w)]
    else if s !in taken then Queue(c, d) == []
    else if r !in taken then Queue(c, d) == [Publish(k, v)]
    else true
  }

  /** v has flooded the nodes `taken`, and on the path p no other node has it. */
  ghost predicate Flood(net: Network, k: Key, v: Value, w: Value, y: nat, taken: set<nat>, p: seq<nat>) {
    && Inv(net) && WellFormed(net) && v != w && y < |net.nodes| && y !in taken
    && (forall z :: z in taken ==> z < |net.nodes| && At(net.nodes, z, k) == Some(v))
    && At(net.nodes, y, k) == Some(w)
    && (forall z :: z in p && z !in taken ==> z < |net.nodes| && At(net.nodes, z, k) != Some(v))
    && (forall j :: 0 <= j < |net.conns| ==>
          && Open(net.conns[j])
          && Carries(net.conns[j], Upward, k, v, w, y, taken)
          && Carries(net.conns[j], Downward, k, v, w, y, taken))
  }

  lemma ForwardCarries(c: Connection, d: Direction, k: Key, v: Value, w: Value, y: nat, taken: set<nat>, r: nat)
    requires Open(c) && Carries(c, d, k, v, w, y, taken) && r != y && r !in taken && c.client != c.server
    ensures Carries(Forward(c, r, Publish(k, v)), d, k, v, w, y, taken + {r})
  {
  }

  lemma FloodStep(net: Network, k: Key, v: Value, i: nat, d: Direction)
    requires WellFormed(net) && i < |net.conns| && Open(net.conns[i]) && Queue(net.conns[i], d) == [Publish(k, v)]
    ensures
      var c, r := net.conns[i], Receiver(net.conns[i], d);
      var c1 := if d.Upward? then c.(up := c.up[1..]) else c.(down := c.down[1..]);
      r < |net.nodes| && Step(net, Delivery(i, d)) == Some(Accept(net.(conns := net.conns[i := c1]), r, k, v))
  {
  }

  /** Deliver v on connection i to a node that does not have it. */
  lemma FloodOn(net: Network, k: Key, v: Value, w: Value, y: nat, taken: set<nat>, p: seq<nat>, i: nat, d: Direction)
    requires Flood(net, k, v, w, y, taken, p) && i < |net.conns|
    requires Sender(net.conns[i], d) in taken && Receiver(net.conns[i], d) !in taken && Receiver(net.conns[i], d) != y
    requires Receiver(net.conns[i], d) in p
    ensures Step(net, Delivery(i, d)).Some?
    ensures
      var net' := Step(net, Delivery(i, d)).value;
      Flood(net', k, v, w, y, taken + {Receiver(net.conns[i], d)}, p) && SameLinks(net, net')
  {
    var c, r := net.conns[i], Receiver(net.conns[i], d);
    var taken' := taken + {r};
    assert Queue(c, d) == [Publish(k, v)];
    var c1 := if d.Upward? then c.(up := c.up[1..]) else c.(down := c.down[1..]);
    var net1 := net.(conns := net.conns[i := c1]);
    var net' := Accept(net1, r, k, v);
    FloodStep(net, k, v, i, d);
    AcceptKeepsLinks(net1, r, k, v);
    StepKeepsInv(net, Delivery(i, d));
    StepWellFormed(net, Delivery(i, d));
    forall j | 0 <= j < |net'.conns|
      ensures Open(net'.conns[j]) && Carries(net'.conns[j], Upward, k, v, w, y, taken')
        && Carries(net'.conns[j], Downward, k, v, w, y, taken')
    {
      FloodConn(net, k, v, w, y, taken, p, i, d, j);
    }
  }

  lemma FloodConn(net: Network, k: Key, v: Value, w: Value, y: nat, taken: set<nat>, p: seq<nat>,
      i: nat, d: Direction, j: nat)
    requires Flood(net, k, v, w, y, taken, p) && i < |net.conns| && j < |net.conns|
    requires Sender(net.conns[i], d) in taken && Receiver(net.conns[i], d) !in taken && Receiver(net.conns[i], d) != y
    ensures
      var c, r := net.conns[i], Receiver(net.conns[i], d);
      var c1 := if d.Upward? then c.(up := c.up[1..]) else c.(down := c.down[1..]);
      var c' := Forward(if j == i then c1 else net.conns[j], r, Publish(k, v));
      Open(c') && Carries(c', Upward, k, v, w, y, taken + {r}) && Carries(c', Downward, k, v, w, y, taken + {r})
  {
    var r := Receiver(net.conns[i], d);
    var c := net.conns[j];
    assert Open(c) && Carries(c, Upward, k, v, w, y, taken) && Carries(c, Downward, k, v, w, y, taken);
    if j != i {
      ForwardCarries(c, Upward, k, v, w, y, taken, r);
      ForwardCarries(c, Downward, k, v, w, y, taken, r);
    }
  }

  ghost predicate SameLinks(net: Network, net': Network) {
    && |net'.nodes| == |net.nodes| && |net'.conns| == |net.conns|
    && forall j :: 0 <= j < |net.conns| ==>
         && net'.conns[j].client == net.conns[j].client && net'.conns[j].server == net.conns[j].server
         && net'.conns[j].reset == net.conns[j].reset
  }

  lemma PathStays(net: Network, net': Network, p: seq<nat>)
    requires SameLinks(net, net') && Path(net, p)
    ensures Path(net', p)
  {
    forall i | 0 <= i < |p| - 1
      ensures Adjacent(net', p[i], p[i + 1])
    {
      assert Adjacent(net, p[i], p[i + 1]);
      var j :| 0 <= j < |net.conns| && Joins(net.conns[j], p[i], p[i + 1]);
      assert Joins(net'.conns[j], p[i], p[i + 1]);
    }
  }

  /** A path that leaves the nodes v has taken does so over some connection. */
  lemma {:induction false} Frontier(net: Network, p: seq<nat>, taken: set<nat>) returns (i: nat, d: Direction)
    requires Path(net, p) && p[0] in taken && p[|p| - 1] !in taken
    ensures i < |net.conns| && Sender(net.conns[i], d) in taken && Receiver(net.conns[i], d) !in taken
    ensures Receiver(net.conns[i], d) in p
  {
    if p[1] in taken {
      i, d := Frontier(net, p[1..], taken);
    } else {
      assert Adjacent(net, p[0], p[0 + 1]);
      var j :| 0 <= j < |net.conns| && Joins(net.conns[j], p[0], p[1]);
      i, d := j, if net.conns[j].client == p[0] then Upward else Downward;
    }
  }

  lemma FrontierCrosses(net: Network, k: Key, v: Value, w: Value, y: nat, taken: set<nat>, p: seq<nat>,
      i: nat, d: Direction)
    requires Flood(net, k, v, w, y, taken, p) && i < |net.conns|
    requires Sender(net.conns[i], d) in taken && Receiver(net.conns[i], d) == y
    ensures !Terminates(net)
  {
    var c := net.conns[i];
    assert Open(c) && Carries(c, Upward, k, v, w, y, taken) && Carries(c, Downward, k, v, w, y, taken);
    OneValue(k, v);
    OneValue(k, w);
    if d.Upward? {
      CrossingNeverEnds(net, i, k, v, w);
    } else {
      CrossingNeverEnds(net, i, k, w, v);
    }
  }

  function Below(n: nat): set<nat> {
    if n == 0 then {} else Below(n - 1) + {n - 1}
  }

  lemma {:induction false} InBelow(n: nat, z: nat)
    requires z < n
    ensures z in Below(n)
  {
    if z < n - 1 {
      InBelow(n - 1, z);
    }
  }

  lemma {:induction false} FloodNeverEnds(net: Network, k: Key, v: Value, w: Value, y: nat, taken: set<nat>,
      p: seq<nat>)
    requires Flood(net, k, v, w, y, taken, p) && Path(net, p) && p[0] in taken && p[|p| - 1] == y
    ensures !Terminates(net)
    decreases |Below(|net.nodes|) - taken|
  {
    var i, d := Frontier(net, p, taken);
    var r := Receiver(net.conns[i], d);
    if r == y {
      FrontierCrosses(net, k, v, w, y, taken, p, i, d);
    } else {
      var l := Delivery(i, d);
      FloodOn(net, k, v, w, y, taken, p, i, d);
      var net' := Step(net, l).value;
      PathStays(net, net', p);
      var all := Below(|net.nodes|);
      InBelow(|net.nodes|, r);
      assert all - (taken + {r}) == all - taken - {r} && r in all - taken;
      FloodNeverEnds(net', k, v, w, y, taken + {r}, p);
      ExecOne(net, l);
      LaterNeverEnds(net, [l]);
    }
  }

  /** On a path of a quiescent network all nodes have the same value of a key. */
  lemma PathHolds(net: Network, p: seq<nat>, z: nat, k: Key)
    requires Inv(net) && Quiescent(net) && Path(net, p) && z in p
    ensures z < |net.nodes| && At(net.nodes, z, k) == At(net.nodes, p[0], k)
  {
    var j :| 0 <= j < |p| && p[j] == z;
    PathAgrees(net, p[..j + 1]);
  }

  lemma RivalsFlood(net: Network, p: seq<nat>, k: Key, v: Value, w: Value)
    requires Inv(net) && WellFormed(net) && Quiescent(net) && Intact(net) && v != w
    requires Path(net, p) && p[0] != p[|p| - 1]
    requires At(net.nodes, p[0], k) != Some(v) && At(net.nodes, p[|p| - 1], k) != Some(w)
    ensures
      var x, y := p[0], p[|p| - 1];
      Flood(Accept(Accept(net, x, k, v), y, k, w), k, v, w, y, {x}, p)
  {
    var x, y := p[0], p[|p| - 1];
    var net1 := Accept(net, x, k, v);
    var net2 := Accept(net1, y, k, w);
    assert At(net1.nodes, y, k) == At(net.nodes, y, k);
    assert net1.conns == Broadcast(net.conns, x, Publish(k, v))
      && net2.conns == Broadcast(net1.conns, y, Publish(k, w));
    QuiescentIsSettling(net);
    StepKeepsInv(net, Publication(x, k, v));
    StepWellFormed(net, Publication(x, k, v));
    StepKeepsInv(net1, Publication(y, k, w));
    StepWellFormed(net1, Publication(y, k, w));
    forall j | 0 <= j < |net2.conns|
      ensures Open(net2.conns[j]) && Carries(net2.conns[j], Upward, k, v, w, y, {x})
        && Carries(net2.conns[j], Downward, k, v, w, y, {x})
    {
      RivalsCarry(net.conns[j], x, y, k, v, w);
    }
    forall z | z in p && z !in {x}
      ensures z < |net2.nodes| && At(net2.nodes, z, k) != Some(v)
    {
      PathHolds(net, p, z, k);
    }
  }

  lemma RivalsCarry(c: Connection, x: nat, y: nat, k: Key, v: Value, w: Value)
    requires Open(c) && c.up == [] && c.down == [] && x != y && c.client != c.server
    ensures
      var c' := Forward(Forward(c, x, Publish(k, v)), y, Publish(k, w));
      Open(c') && Carries(c', Upward, k, v, w, y, {x}) && Carries(c', Downward, k, v, w, y, {x})
  {
  }

  /** Two nodes of a quiescent network publish a key each, with values that are new to them and before
      anything is delivered: with the nodes joined by a path, every order of delivery ends if and only if the
      two values are the same. */
  lemma RivalsStopIff(net: Network, x: nat, y: nat, k: Key, v: Value, w: Value)
    requires Inv(net) && WellFormed(net) && Quiescent(net) && Intact(net)
    requires x < |net.nodes| && y < |net.nodes| && x != y && Linked(net, x, y)
    requires At(net.nodes, x, k) != Some(v) && At(net.nodes, y, k) != Some(w)
    ensures
      var net' := Accept(Accept(net, x, k, v), y, k, w);
      WellFormed(net') && (Terminates(net') <==> v == w)
  {
    var net1 := Accept(net, x, k, v);
    var net' := Accept(net1, y, k, w);
    QuiescentIsSettling(net);
    SafePublication(net, map[], x, k, v);
    StepWellFormed(net1, Publication(y, k, w));
    if v == w {
      SafePublication(net1, map[][k := v], y, k, v);
    } else {
      RivalsNeverStop(net, x, y, k, v, w);
    }
  }

  lemma AcceptKeepsLinks(net: Network, x: nat, k: Key, v: Value)
    requires x < |net.nodes|
    ensures SameLinks(net, Accept(net, x, k, v))
  {
  }

  lemma RivalsNeverStop(net: Network, x: nat, y: nat, k: Key, v: Value, w: Value)
    requires Inv(net) && WellFormed(net) && Quiescent(net) && Intact(net) && v != w
    requires x < |net.nodes| && y < |net.nodes| && x != y && Linked(net, x, y)
    requires At(net.nodes, x, k) != Some(v) && At(net.nodes, y, k) != Some(w)
    ensures
      var net' := Accept(Accept(net, x, k, v), y, k, w);
      WellFormed(net') && !Terminates(net')
  {
    var net1 := Accept(net, x, k, v);
    var p: seq<nat> :| Path(net, p) && p[0] == x && p[|p| - 1] == y;
    RivalsFlood(net, p, k, v, w);
    AcceptKeepsLinks(net, x, k, v);
    PathStays(net, net1, p);
    AcceptKeepsLinks(net1, y, k, w);
    PathStays(net1, Accept(net1, y, k, w), p);
    FloodNeverEnds(Accept(net1, y, k, w), k, v, w, y, {x}, p);
  }
}
