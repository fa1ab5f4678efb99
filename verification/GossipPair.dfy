/** Two nodes that have only each other.  How often the value of a key changes on the way round the
    connection is the same after every delivery, so once two values are under way no order of delivery
    brings the pair to rest. */
module GossipPair {
  import opened Gossip
  import opened GossipConsistency
  import opened GossipTermination
  import opened GossipLivelock
  import opened Wrappers

  /** The ends of connection i have no other connection. */
  predicate Alone(net: Network, i: nat)
    requires i < |net.conns|
  {
    forall j :: 0 <= j < |net.conns| && j != i ==>
      && net.conns[j].client != net.conns[i].client && net.conns[j].client != net.conns[i].server
      && net.conns[j].server != net.conns[i].client && net.conns[j].server != net.conns[i].server
  }

  /** What the receiver of one direction holds, and what is on its way to it. */
  function Held(net: Network, i: nat, d: Direction, k: Key): Option<Value>
    requires i < |net.conns|
  {
    HeldBy(net, Receiver(net.conns[i], d), k)
  }

  function Coming(net: Network, i: nat, d: Direction, k: Key): seq<Value>
    requires i < |net.conns|
  {
    Values(Queue(net.conns[i], d), k)
  }

  /** How many of the values on their way will be new to their receivers. */
  function Turmoil(net: Network, i: nat, k: Key): nat
    requires i < |net.conns|
  {
    |Passed(Held(net, i, Upward, k), Coming(net, i, Upward, k))| +
      |Passed(Held(net, i, Downward, k), Coming(net, i, Downward, k))|
  }

  /** Where nothing is on its way, the two ends agree. */
  predicate Tight(net: Network, i: nat, k: Key)
    requires i < |net.conns|
  {
    Coming(net, i, Upward, k) == [] || Coming(net, i, Downward, k) == [] ==>
      Held(net, i, Upward, k) == Held(net, i, Downward, k)
  }

  ghost predicate OnItsOwn(net: Network, i: nat) {
    Inv(net) && WellFormed(net) && i < |net.conns| && Open(net.conns[i]) && Alone(net, i)
  }

  ghost predicate Restless(net: Network, i: nat, k: Key) {
    OnItsOwn(net, i) && Tight(net, i, k) && Turmoil(net, i, k) > 0
  }

  lemma {:induction false} LastValue(q: seq<Msg>, k: Key)
    ensures Pending(q, k) == HeldAfter(None, Values(q, k))
  {
    if q != [] {
      LastValue(q[1..], k);
    }
  }

  /** The receiver, which holds h, handles the values m, of at most one message; the sender holds g. */
  lemma TurmoilKept(h: Option<Value>, g: Option<Value>, m: seq<Value>, rest: seq<Value>, back: seq<Value>)
    requires |m| <= 1
    requires back != [] ==> h == HeldAfter(None, back)
    requires m + rest != [] ==> g == HeldAfter(None, m + rest)
    requires m + rest == [] || back == [] ==> h == g
    ensures
      var h', back' := HeldAfter(h, m), back + Passed(h, m);
      && |Passed(h', rest)| + |Passed(g, back')| == |Passed(h, m + rest)| + |Passed(g, back)|
      && (rest == [] || back' == [] ==> h' == g)
  {
    PassedAppend(h, m, rest);
    PassedAppend(g, back, Passed(h, m));
    if m == [] {
      assert m + rest == rest && back + [] == back;
    } else {
      assert m == [m[0]] && Passed(Some(m[0]), []) == [];
      if h == Some(m[0]) {
        assert Passed(h, m) == [] && back + [] == back;
      } else {
        assert Passed(h, m) == [m[0]] && Passed(HeldAfter(g, back), [m[0]]) == [m[0]];
      }
    }
  }

  /** What is said of a key in one direction is what its sender holds. */
  lemma SenderHolds(net: Network, i: nat, d: Direction, k: Key)
    requires OnItsOwn(net, i) && Coming(net, i, d, k) != []
    ensures Held(net, i, Reverse(d), k) == HeldAfter(None, Coming(net, i, d, k))
  {
    var c := net.conns[i];
    assert LinkOk(net.nodes, c) && KeyOk(net.nodes, c, k);
    LastValue(c.up, k);
    LastValue(c.down, k);
  }

  /** What one delivery on connection i does, in terms of values of k. */
  ghost predicate Delivered(net: Network, net': Network, i: nat, d: Direction, k: Key, m: seq<Value>) {
    && OnItsOwn(net, i) && OnItsOwn(net', i) && |m| <= 1
    && Coming(net, i, d, k) == m + Coming(net', i, d, k)
    && Coming(net', i, Reverse(d), k) == Coming(net, i, Reverse(d), k) + Passed(Held(net, i, d, k), m)
    && Held(net', i, d, k) == HeldAfter(Held(net, i, d, k), m)
    && Held(net', i, Reverse(d), k) == Held(net, i, Reverse(d), k)
  }

  lemma AcceptKeepsEnds(net: Network, x: nat, k: Key, v: Value)
    requires x < |net.nodes|
    ensures
      var net' := Accept(net, x, k, v);
      && |net'.conns| == |net.conns|
      && forall j :: 0 <= j < |net.conns| ==>
        net'.conns[j].client == net.conns[j].client && net'.conns[j].server == net.conns[j].server
  {
  }

  lemma StepKeepsEnds(net: Network, l: Label)
    requires WellFormed(net) && IsDelivery(l) && Step(net, l).Some?
    ensures
      var net' := Step(net, l).value;
      && |net'.conns| == |net.conns|
      && forall j :: 0 <= j < |net.conns| ==>
        net'.conns[j].client == net.conns[j].client && net'.conns[j].server == net.conns[j].server
  {
  }

  lemma DeliverHere(net: Network, i: nat, d: Direction, k: Key)
    requires OnItsOwn(net, i) && Queue(net.conns[i], d) != []
    ensures Step(net, Delivery(i, d)).Some?
    ensures
      var m := Queue(net.conns[i], d)[0];
      Delivered(net, Step(net, Delivery(i, d)).value, i, d, k, Mine(m, k))
  {
    DeliverOne(net, i, d, k);
    StepKeepsEnds(net, Delivery(i, d));
    var net' := Step(net, Delivery(i, d)).value;
    assert net'.conns[i].client == net.conns[i].client && net'.conns[i].server == net.conns[i].server;
  }

  /** A delivery elsewhere does not touch the pair. */
  lemma DeliverElsewhere(net: Network, i: nat, l: Label)
    requires OnItsOwn(net, i) && IsDelivery(l) && l.conn != i && Step(net, l).Some?
    ensures
      var net' := Step(net, l).value;
      && OnItsOwn(net', i) && net'.conns[i] == net.conns[i]
      && forall k ::
           && Held(net', i, Upward, k) == Held(net, i, Upward, k)
           && Held(net', i, Downward, k) == Held(net, i, Downward, k)
  {
    StepKeepsInv(net, l);
    StepWellFormed(net, l);
    StepKeepsEnds(net, l);
  }

  /** The order of an announcement does not matter to a server that knows its client. */
  lemma OrderIsIdle(net: Network, i: nat, order: seq<Key>)
    requires OnItsOwn(net, i) && Step(net, Up(i, order)).Some?
    ensures Step(net, Up(i, order)) == Step(net, Delivery(i, Upward)) && net.conns[i].up != []
  {
  }

  lemma RestlessAfter(net: Network, net': Network, i: nat, d: Direction, k: Key, m: seq<Value>)
    requires Restless(net, i, k) && Delivered(net, net', i, d, k, m)
    ensures Restless(net', i, k)
  {
    var rest, back := Coming(net', i, d, k), Coming(net, i, Reverse(d), k);
    if m + rest != [] {
      SenderHolds(net, i, d, k);
    }
    if back != [] {
      SenderHolds(net, i, Reverse(d), k);
    }
    TurmoilKept(Held(net, i, d, k), Held(net, i, Reverse(d), k), m, rest, back);
  }

  lemma StepStaysRestless(net: Network, i: nat, k: Key, l: Label)
    requires Restless(net, i, k) && IsDelivery(l) && Step(net, l).Some?
    ensures Restless(Step(net, l).value, i, k)
  {
    if l.conn != i {
      DeliverElsewhere(net, i, l);
    } else {
      var d := if l.Up? then Upward else Downward;
      if l.Up? {
        OrderIsIdle(net, i, l.order);
      }
      DeliverHere(net, i, d, k);
      RestlessAfter(net, Step(net, l).value, i, d, k, Mine(Queue(net.conns[i], d)[0], k));
    }
  }

  lemma RestlessIsNotQuiescent(net: Network, i: nat, k: Key)
    requires Restless(net, i, k)
    ensures !Quiescent(net)
  {
  }

  /** No order of delivery brings a restless pair to rest. */
  lemma {:induction false} RestlessNeverRests(net: Network, i: nat, k: Key, ls: seq<Label>)
    requires Restless(net, i, k) && AllDeliveries(ls) && Exec(net, ls).Some?
    ensures Restless(Exec(net, ls).value, i, k) && !Quiescent(Exec(net, ls).value)
  {
    if ls != [] {
      RestlessNeverRests(net, i, k, ls[..|ls| - 1]);
      StepStaysRestless(Exec(net, ls[..|ls| - 1]).value, i, k, ls[|ls| - 1]);
    }
    RestlessIsNotQuiescent(Exec(net, ls).value, i, k);
  }

  // ----- One end publishes twice -----

  lemma StepOfChase(net: Network, i: nat, d: Direction, k: Key, v: Value, w: Value, l: Label)
    requires Chase(net, i, d, k, v, w) && Alone(net, i) && IsDelivery(l) && Step(net, l).Some?
    ensures
      var net' := Step(net, l).value;
      (Chase(net', i, d, k, v, w) && Alone(net', i)) || Restless(net', i, k)
  {
    var net' := Step(net, l).value;
    if l.conn != i {
      DeliverElsewhere(net, i, l);
    } else {
      var e := if l.Up? then Upward else Downward;
      if l.Up? {
        OrderIsIdle(net, i, l.order);
      }
      var m := Mine(Queue(net.conns[i], e)[0], k);
      DeliverHere(net, i, e, k);
      ChaseAfter(net, net', i, d, k, v, w, e, m);
    }
  }

  lemma ChaseUntouched(net: Network, net': Network, i: nat, d: Direction, k: Key, v: Value, w: Value, e: Direction)
    requires Chase(net, i, d, k, v, w) && Delivered(net, net', i, e, k, [])
    ensures Chase(net', i, d, k, v, w)
  {
    assert [] + Coming(net', i, e, k) == Coming(net', i, e, k);
    assert Coming(net, i, Reverse(e), k) + [] == Coming(net, i, Reverse(e), k);
    assert Held(net', i, d, k) == Held(net, i, d, k) && Held(net', i, Reverse(d), k) == Held(net, i, Reverse(d), k);
  }

  lemma ChaseBegun(net: Network, net': Network, i: nat, d: Direction, k: Key, v: Value, w: Value)
    requires Chase(net, i, d, k, v, w) && Delivered(net, net', i, d, k, [v])
    ensures Restless(net', i, k)
  {
    assert Coming(net', i, d, k) == ([v] + Coming(net', i, d, k))[1..] == [w];
    assert [v][1..] == [] && Passed(Some(v), []) == [] && Passed(Held(net, i, d, k), [v]) == [v];
    assert Coming(net', i, Reverse(d), k) == [v];
    PassesOne(v, w);
    PassesOne(w, v);
  }

  lemma ChaseAfter(net: Network, net': Network, i: nat, d: Direction, k: Key, v: Value, w: Value, e: Direction,
      m: seq<Value>)
    requires Chase(net, i, d, k, v, w) && Delivered(net, net', i, e, k, m)
    ensures Chase(net', i, d, k, v, w) || Restless(net', i, k)
  {
    if m == [] {
      ChaseUntouched(net, net', i, d, k, v, w, e);
    } else {
      assert (m + Coming(net', i, e, k))[0] == m[0];
      assert e == d && m == [v];
      ChaseBegun(net, net', i, d, k, v, w);
    }
  }

  /** No order of delivery ends a chase on a pair. */
  lemma {:induction false} ChaseNeverRests(net: Network, i: nat, d: Direction, k: Key, v: Value, w: Value,
      ls: seq<Label>)
    requires Chase(net, i, d, k, v, w) && Alone(net, i) && AllDeliveries(ls) && Exec(net, ls).Some?
    ensures
      var net' := Exec(net, ls).value;
      && ((Chase(net', i, d, k, v, w) && Alone(net', i)) || Restless(net', i, k))
      && !Quiescent(net')
  {
    if ls != [] {
      var mid := Exec(net, ls[..|ls| - 1]).value;
      ChaseNeverRests(net, i, d, k, v, w, ls[..|ls| - 1]);
      if Restless(mid, i, k) {
        StepStaysRestless(mid, i, k, ls[|ls| - 1]);
      } else {
        StepOfChase(mid, i, d, k, v, w, ls[|ls| - 1]);
      }
    }
    if Restless(Exec(net, ls).value, i, k) {
      RestlessIsNotQuiescent(Exec(net, ls).value, i, k);
    }
  }

  // ----- Both ends publish -----

  /** The ends of a quiescent pair publish a key each: if the values differ no order of delivery brings them
      to rest, and if they are the same every one does. */
  lemma RivalsRestIff(net: Network, i: nat, k: Key, v: Value, w: Value)
    requires OnItsOwn(net, i) && Quiescent(net) && Intact(net)
    requires At(net.nodes, net.conns[i].client, k) != Some(v) && At(net.nodes, net.conns[i].server, k) != Some(w)
    ensures
      var c := net.conns[i];
      var net' := Accept(Accept(net, c.client, k, v), c.server, k, w);
      && WellFormed(net')
      && (v == w ==> Terminates(net'))
      && (v != w ==> forall ls :: AllDeliveries(ls) && Exec(net', ls).Some? ==> !Quiescent(Exec(net', ls).value))
  {
    var c := net.conns[i];
    var net1 := Accept(net, c.client, k, v);
    var net' := Accept(net1, c.server, k, w);
    QuiescentIsSettling(net);
    SafePublication(net, map[], c.client, k, v);
    StepKeepsInv(net1, Publication(c.server, k, w));
    StepWellFormed(net1, Publication(c.server, k, w));
    if v == w {
      SafePublication(net1, map[][k := v], c.server, k, v);
    } else {
      RivalsAreRestless(net, i, k, v, w);
      forall ls | AllDeliveries(ls) && Exec(net', ls).Some?
        ensures !Quiescent(Exec(net', ls).value)
      {
        RestlessNeverRests(net', i, k, ls);
      }
    }
  }

  lemma RivalsAreRestless(net: Network, i: nat, k: Key, v: Value, w: Value)
    requires OnItsOwn(net, i) && Quiescent(net) && v != w
    requires At(net.nodes, net.conns[i].client, k) != Some(v) && At(net.nodes, net.conns[i].server, k) != Some(w)
    ensures Restless(Accept(Accept(net, net.conns[i].client, k, v), net.conns[i].server, k, w), i, k)
  {
    var c := net.conns[i];
    var net1 := Accept(net, c.client, k, v);
    var net' := Accept(net1, c.server, k, w);
    StepKeepsInv(net, Publication(c.client, k, v));
    StepWellFormed(net, Publication(c.client, k, v));
    StepKeepsInv(net1, Publication(c.server, k, w));
    StepWellFormed(net1, Publication(c.server, k, w));
    AcceptKeepsEnds(net, c.client, k, v);
    AcceptKeepsEnds(net1, c.server, k, w);
    assert net'.conns[i] == c.(up := [Publish(k, v)], down := [Publish(k, w)]);
    OneValue(k, v);
    OneValue(k, w);
    PassesOne(w, v);
  }
}
