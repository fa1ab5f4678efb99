/** What the expiry of clients does to a gossip network.  A server forgets a client it has not heard from
    for a second, by default, and no node sends PING of its own accord. */
module GossipExpiry {
  import opened Gossip
  import opened Wrappers

  lemma ThenStep(net: Network, ls: seq<Label>, mid: Network, l: Label)
    requires WellFormed(net) && Exec(net, ls) == Some(mid) && WellFormed(mid)
    ensures Exec(net, ls + [l]) == Step(mid, l)
  {
    assert (ls + [l])[..|ls|] == ls;
  }

  /** Two nodes, of which the first is a client of the second. */
  function Pair(a: Node, b: Node, up: seq<Msg>, down: seq<Msg>, known: bool, reset: bool): Network {
    Network([a, b], [Connection(0, 1, up, down, known, reset)])
  }

  const NOTHING: Node := Node(map[], [])

  function One(k: Key, v: Value): Node {
    Node(map[k := v], [(k, v)])
  }

  lemma OnlyConnection(c: Connection, c': Connection)
    ensures [c][0 := c'] == [c']
  {
  }

  lemma PairConnects()
    ensures Step(Init(2), Connect(0, 1, [])) == Some(Pair(NOTHING, NOTHING, [Hello], [], false, false))
  {
    var net := Init(2);
    assert net.nodes == [NOTHING, NOTHING];
    assert [Hello] + Announce([], map[]) == [Hello];
    var c := Connection(0, 1, [Hello], [], false, false);
    assert net.conns + [c] == [c];
    assert Enumerates([], net.nodes[0].tuples);
  }

  /** An unknown client's HELLO is handled by a server that has nothing to announce. */
  lemma PairWelcomes(a: Node, reset: bool)
    ensures Step(Pair(a, NOTHING, [Hello], [], false, reset), Up(0, [])) == Some(Pair(a, NOTHING, [], [], true, reset))
  {
    var net := Pair(a, NOTHING, [Hello], [], false, reset);
    var c := net.conns[0];
    assert [] + Announce([], map[]) == [] && [Hello][1..] == [];
    OnlyConnection(c, c.(up := [], down := [], known := true));
  }

  lemma PairForgets()
    ensures Step(Pair(NOTHING, NOTHING, [], [], true, false), Expire(0)) ==
      Some(Pair(NOTHING, NOTHING, [], [], false, true))
  {
    var c := Pair(NOTHING, NOTHING, [], [], true, false).conns[0];
    OnlyConnection(c, c.(known := false, reset := true));
  }

  /** Two connected nodes, the HELLO handled, and then a second of silence. */
  lemma Forgotten() returns (ls: seq<Label>)
    ensures Exec(Init(2), ls) == Some(Pair(NOTHING, NOTHING, [], [], false, true))
  {
    PairConnects();
    ThenStep(Init(2), [], Init(2), Connect(0, 1, []));
    ls := [] + [Connect(0, 1, [])];
    PairWelcomes(NOTHING, false);
    ThenStep(Init(2), ls, Pair(NOTHING, NOTHING, [Hello], [], false, false), Up(0, []));
    ls := ls + [Up(0, [])];
    PairForgets();
    ThenStep(Init(2), ls, Pair(NOTHING, NOTHING, [], [], true, false), Expire(0));
    ls := ls + [Expire(0)];
  }

  lemma ServerPublishes(k: Key, v: Value)
    ensures Step(Pair(NOTHING, NOTHING, [], [], false, true), Publication(1, k, v)) ==
      Some(Pair(NOTHING, One(k, v), [], [], false, true))
  {
    var net := Pair(NOTHING, NOTHING, [], [], false, true);
    assert Broadcast(net.conns, 1, Publish(k, v)) == net.conns;
    assert net.nodes[1 := One(k, v)] == [NOTHING, One(k, v)];
    assert NOTHING.delivered + [(k, v)] == [(k, v)];
  }

  lemma ClientPublishes(k: Key, v: Value)
    ensures Step(Pair(NOTHING, NOTHING, [], [], false, true), Publication(0, k, v)) ==
      Some(Pair(One(k, v), NOTHING, [Publish(k, v)], [], false, true))
  {
    var net := Pair(NOTHING, NOTHING, [], [], false, true);
    var c := net.conns[0];
    assert c.up + [Publish(k, v)] == [Publish(k, v)];
    assert Broadcast(net.conns, 0, Publish(k, v)) == [c.(up := [Publish(k, v)])];
    assert net.nodes[0 := One(k, v)] == [One(k, v), NOTHING];
    assert NOTHING.delivered + [(k, v)] == [(k, v)];
  }

  /** A run in which a tuple published at the server never reaches the client it has forgotten: nothing is in
      flight, and the two ends of the connection differ. */
  lemma ForgottenClientMisses(k: Key, v: Value) returns (ls: seq<Label>, net: Network)
    ensures Exec(Init(2), ls) == Some(net) && Quiescent(net) && |net.nodes| == 2 && |net.conns| == 1
    ensures net.nodes[0].tuples == map[] && net.nodes[1].tuples == map[k := v]
  {
    ls := Forgotten();
    ServerPublishes(k, v);
    ThenStep(Init(2), ls, Pair(NOTHING, NOTHING, [], [], false, true), Publication(1, k, v));
    net := Pair(NOTHING, One(k, v), [], [], false, true);
    ls := ls + [Publication(1, k, v)];
  }

  /** A run in which a tuple published at a forgotten client is refused, the client says HELLO and is known
      again, and the tuple is lost to the server. */
  lemma ForgottenClientIsNotHeard(k: Key, v: Value) returns (ls: seq<Label>, net: Network)
    ensures Exec(Init(2), ls) == Some(net) && Quiescent(net) && |net.nodes| == 2 && |net.conns| == 1
    ensures net.conns[0].known && net.nodes[0].tuples == map[k := v] && net.nodes[1].tuples == map[]
  {
    ls := Forgotten();
    ClientPublishes(k, v);
    ThenStep(Init(2), ls, Pair(NOTHING, NOTHING, [], [], false, true), Publication(0, k, v));
    ls := ls + [Publication(0, k, v)];
    ls, net := RefusedAndBack(ls, k, v);
  }

  lemma PairRefuses(a: Node, m: Msg)
    requires m.Publish?
    ensures Step(Pair(a, NOTHING, [m], [], false, true), Up(0, [])) ==
      Some(Pair(a, NOTHING, [], [Invalid], false, true))
  {
    var c := Pair(a, NOTHING, [m], [], false, true).conns[0];
    assert [m][1..] == [] && c.down + [Invalid] == [Invalid];
    OnlyConnection(c, Refused(c));
  }

  lemma PairSaysHello(a: Node)
    ensures Step(Pair(a, NOTHING, [], [Invalid], false, true), Down(0)) ==
      Some(Pair(a, NOTHING, [Hello], [], false, true))
  {
    var c := Pair(a, NOTHING, [], [Invalid], false, true).conns[0];
    assert [Invalid][1..] == [] && c.up + [Hello] == [Hello];
    OnlyConnection(c, c.(down := [], up := [Hello]));
  }

  lemma RefusedAndBack(ls0: seq<Label>, k: Key, v: Value) returns (ls: seq<Label>, net: Network)
    requires Exec(Init(2), ls0) == Some(Pair(One(k, v), NOTHING, [Publish(k, v)], [], false, true))
    ensures Exec(Init(2), ls) == Some(net) && net == Pair(One(k, v), NOTHING, [], [], true, true)
  {
    PairRefuses(One(k, v), Publish(k, v));
    ThenStep(Init(2), ls0, Pair(One(k, v), NOTHING, [Publish(k, v)], [], false, true), Up(0, []));
    PairSaysHello(One(k, v));
    ThenStep(Init(2), ls0 + [Up(0, [])], Pair(One(k, v), NOTHING, [], [Invalid], false, true), Down(0));
    PairWelcomes(One(k, v), true);
    ls := ls0 + [Up(0, [])] + [Down(0)];
    ThenStep(Init(2), ls, Pair(One(k, v), NOTHING, [Hello], [], false, true), Up(0, []));
    ls, net := ls + [Up(0, [])], Pair(One(k, v), NOTHING, [], [], true, true);
  }
}
