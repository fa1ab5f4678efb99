/** What a gossip node tells its application (src/zgossip.c): in every run of every network, whatever was
    published, an application that stores what is delivered has what its node has, and is told of every
    change once. */
module GossipDelivery {
  import opened Gossip
  import opened Wrappers

  type Tuples = map<Key, Value>

  /** What an application has that stores what is delivered to it. */
  function Replayed(delivered: seq<(Key, Value)>): Tuples {
    if delivered == [] then map[]
    else
      var last := delivered[|delivered| - 1];
      Replayed(delivered[..|delivered| - 1])[last.0 := last.1]
  }

  /** The application has what the node has, and no delivery told it what it knew already. */
  ghost predicate InStep(n: Node) {
    && Replayed(n.delivered) == n.tuples
    && forall i :: 0 <= i < |n.delivered| ==>
         Get(Replayed(n.delivered[..i]), n.delivered[i].0) != Some(n.delivered[i].1)
  }

  ghost predicate AllInStep(net: Network) {
    forall x :: 0 <= x < |net.nodes| ==> InStep(net.nodes[x])
  }

  lemma ReplayedOn(d: seq<(Key, Value)>, k: Key, v: Value)
    ensures Replayed(d + [(k, v)]) == Replayed(d)[k := v]
  {
    assert (d + [(k, v)])[..|d|] == d;
  }

  lemma StoreInStep(n: Node, k: Key, v: Value)
    requires InStep(n) && Get(n.tuples, k) != Some(v)
    ensures InStep(Node(n.tuples[k := v], n.delivered + [(k, v)]))
  {
    var more := n.delivered + [(k, v)];
    ReplayedOn(n.delivered, k, v);
    forall i | 0 <= i < |more|
      ensures Get(Replayed(more[..i]), more[i].0) != Some(more[i].1)
    {
      if i < |n.delivered| {
        assert more[..i] == n.delivered[..i] && more[i] == n.delivered[i];
      } else {
        assert more[..i] == n.delivered;
      }
    }
  }

  lemma AcceptInStep(net: Network, x: nat, k: Key, v: Value)
    requires AllInStep(net) && x < |net.nodes|
    ensures AllInStep(Accept(net, x, k, v))
  {
    if Get(net.nodes[x].tuples, k) != Some(v) {
      StoreInStep(net.nodes[x], k, v);
    }
  }

  lemma StepInStep(net: Network, l: Label)
    requires WellFormed(net) && AllInStep(net) && Step(net, l).Some?
    ensures AllInStep(Step(net, l).value)
  {
    match l
    case Publication(x, k, v) => AcceptInStep(net, x, k, v);
    case Connect(a, b, order) =>
    case Up(i, order) =>
      var c := net.conns[i];
      if c.known && c.up[0].Publish? {
        AcceptInStep(net.(conns := net.conns[i := c.(up := c.up[1..])]), c.server, c.up[0].key, c.up[0].value);
      }
    case Down(i) =>
      var c := net.conns[i];
      if c.down[0].Publish? {
        AcceptInStep(net.(conns := net.conns[i := c.(down := c.down[1..])]), c.client, c.down[0].key,
          c.down[0].value);
      }
    case Expire(i) =>
  }

  lemma {:induction false} AllKeepUp(n: nat, ls: seq<Label>)
    requires Exec(Init(n), ls).Some?
    ensures AllInStep(Exec(Init(n), ls).value)
  {
    if ls != [] {
      AllKeepUp(n, ls[..|ls| - 1]);
      StepInStep(Exec(Init(n), ls[..|ls| - 1]).value, ls[|ls| - 1]);
    }
  }

  /** In every run, at every node: what was delivered, stored one after the other, is what the node holds, and
      nothing was delivered that the deliveries before it had already made so. */
  lemma ApplicationsKeepUp(n: nat, ls: seq<Label>, x: nat)
    requires Exec(Init(n), ls).Some? && x < |Exec(Init(n), ls).value.nodes|
    ensures InStep(Exec(Init(n), ls).value.nodes[x])
  {
    AllKeepUp(n, ls);
  }
}
