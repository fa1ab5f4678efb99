/** When flooding need not stop.  Two values of one key that follow each other round a connection are
    stored and forwarded without bound in some order of delivery, so "the entire network eventually achieves
    a consistent state" is not assured once a key is republished too early, or networks that disagree are
    joined. */
module GossipLivelock {
  import opened Gossip
  import opened GossipConsistency
  import opened GossipTermination
  import opened Wrappers

  // ----- Runs -----

  lemma ExecOne(net: Network, l: Label)
    requires WellFormed(net)
    ensures Exec(net, [l]) == Step(net, l)
  {
    assert [l][..0] == [];
    assert Exec(net, [l][..0]) == Some(net);
  }

  lemma ExecCons(net: Network, l: Label, mid: Network, rest: seq<Label>)
    requires WellFormed(net) && Step(net, l) == Some(mid) && WellFormed(mid)
    ensures Exec(net, [l] + rest) == Exec(mid, rest)
  {
    ExecOne(net, l);
    ExecAppend(net, [l], rest);
  }

  // ----- One direction of one connection -----

  /** The HELLO is handled, and the client was never forgotten. */
  predicate Open(c: Connection) {
    c.known && !c.reset
  }

  datatype Direction = Upward | Downward

  function Reverse(d: Direction): Direction {
    if d.Upward? then Downward else Upward
  }

  function Queue(c: Connection, d: Direction): seq<Msg> {
    if d.Upward? then c.up else c.down
  }

  function Receiver(c: Connection, d: Direction): nat {
    if d.Upward? then c.server else c.client
  }

  function Sender(c: Connection, d: Direction): nat {
    Receiver(c, Reverse(d))
  }

  function Delivery(i: nat, d: Direction): Label {
    if d.Upward? then Up(i, []) else Down(i)
  }

  /** The values of k in a queue, oldest first. */
  function Values(q: seq<Msg>, k: Key): seq<Value> {
    if q == [] then []
    else (if q[0].Publish? && q[0].key == k then [q[0].value] else []) + Values(q[1..], k)
  }

  lemma OneValue(k: Key, v: Value)
    ensures Values([Publish(k, v)], k) == [v]
  {
    var q := [Publish(k, v)];
    assert q[1..] == [] && Values(q[1..], k) == [];
  }

  lemma {:induction false} ValuesAppend(q: seq<Msg>, m: Msg, k: Key)
    ensures Values(q + [m], k) == Values(q, k) + if m.Publish? && m.key == k then [m.value] else []
  {
    if q == [] {
      assert q + [m] == [m];
    } else {
      ValuesAppend(q[1..], m, k);
      assert (q + [m])[1..] == q[1..] + [m];
    }
  }

  /** What a node that holds `held` forwards of these values: all but those equal to the one before. */
  function Passed(held: Option<Value>, vs: seq<Value>): seq<Value>
    decreases vs
  {
    if vs == [] then []
    else (if held == Some(vs[0]) then [] else [vs[0]]) + Passed(Some(vs[0]), vs[1..])
  }

  function HeldAfter(held: Option<Value>, vs: seq<Value>): Option<Value> {
    if vs == [] then held else Some(vs[|vs| - 1])
  }

  lemma PassedCons(held: Option<Value>, vs: seq<Value>)
    requires vs != []
    ensures Passed(held, vs) == (if held == Some(vs[0]) then [] else [vs[0]]) + Passed(Some(vs[0]), vs[1..])
  {
  }

  lemma Associate(a: seq<Value>, b: seq<Value>, c: seq<Value>)
    ensures a + (b + c) == (a + b) + c
  {
  }

  lemma {:induction false} PassedAppend(held: Option<Value>, a: seq<Value>, b: seq<Value>)
    ensures Passed(held, a + b) == Passed(held, a) + Passed(HeldAfter(held, a), b)
    decreases a
  {
    if a == [] {
      assert a + b == b;
    } else {
      PassedAppend(Some(a[0]), a[1..], b);
      assert (a + b)[1..] == a[1..] + b && (a + b)[0] == a[0];
      assert HeldAfter(Some(a[0]), a[1..]) == HeldAfter(held, a);
      var first := if held == Some(a[0]) then [] else [a[0]];
      PassedCons(held, a);
      PassedCons(held, a + b);
      Associate(first, Passed(Some(a[0]), a[1..]), Passed(HeldAfter(held, a), b));
    }
  }

  /** A receiver that held `held` and had sent `sent` has handled the values vs. */
  predicate Handled(held: Option<Value>, sent: seq<Value>, vs: seq<Value>, held': Option<Value>, sent': seq<Value>) {
    held' == HeldAfter(held, vs) && sent' == sent + Passed(held, vs)
  }

  lemma HandledTwice(h0: Option<Value>, s0: seq<Value>, a: seq<Value>, h1: Option<Value>, s1: seq<Value>,
                     b: seq<Value>, h2: Option<Value>, s2: seq<Value>)
    requires Handled(h0, s0, a, h1, s1) && Handled(h1, s1, b, h2, s2)
    ensures Handled(h0, s0, a + b, h2, s2)
  {
    PassedAppend(h0, a, b);
    var p, q := Passed(h0, a), Passed(h1, b);
    assert (s0 + p) + q == s0 + (p + q);
  }

  function HeldBy(net: Network, x: nat, k: Key): Option<Value> {
    if x < |net.nodes| then At(net.nodes, x, k) else None
  }

  function Back(net: Network, i: nat, d: Direction, k: Key): seq<Value>
    requires i < |net.conns|
  {
    Values(Queue(net.conns[i], Reverse(d)), k)
  }

  ghost predicate SameEnds(net: Network, net': Network, i: nat) {
    && i < |net.conns| == |net'.conns| && |net'.nodes| == |net.nodes|
    && net'.conns[i].client == net.conns[i].client < |net.nodes|
    && net'.conns[i].server == net.conns[i].server < |net.nodes|
    && net'.conns[i].known && net'.conns[i].reset == net.conns[i].reset
  }

  /** From net to net' the receiver of one direction of connection i has handled the values vs of key
      k, and the sender has not changed its own. */
  ghost predicate Moved(net: Network, net': Network, i: nat, d: Direction, k: Key, vs: seq<Value>) {
    && SameEnds(net, net', i)
    && var r, s := Receiver(net.conns[i], d), Sender(net.conns[i], d);
    && HeldBy(net', s, k) == HeldBy(net, s, k)
    && Handled(HeldBy(net, r, k), Back(net, i, d, k), vs, HeldBy(net', r, k), Back(net', i, d, k))
  }

  lemma MovedTwice(net: Network, mid: Network, net': Network, i: nat, d: Direction, k: Key, a: seq<Value>,
      b: seq<Value>)
    requires Moved(net, mid, i, d, k, a) && Moved(mid, net', i, d, k, b)
    ensures Moved(net, net', i, d, k, a + b)
  {
    var r := Receiver(net.conns[i], d);
    HandledTwice(HeldBy(net, r, k), Back(net, i, d, k), a, HeldBy(mid, r, k), Back(mid, i, d, k),
                 b, HeldBy(net', r, k), Back(net', i, d, k));
  }

  function Mine(m: Msg, k: Key): seq<Value> {
    if m.Publish? && m.key == k then [m.value] else []
  }

  /** server_accept at the receiver, after the message was taken off its queue. */
  lemma AcceptMoves(net: Network, i: nat, d: Direction, k: Key, m: Msg)
    requires WellFormed(net) && i < |net.conns| && net.conns[i].known && m.Publish?
    ensures Moved(net, Accept(net, Receiver(net.conns[i], d), m.key, m.value), i, d, k, Mine(m, k))
    ensures Queue(Accept(net, Receiver(net.conns[i], d), m.key, m.value).conns[i], d) == Queue(net.conns[i], d)
  {
    var c, r := net.conns[i], Receiver(net.conns[i], d);
    var net' := Accept(net, r, m.key, m.value);
    ValuesAppend(Queue(c, Reverse(d)), m, k);
    MineIsOne(m, k);
    if net' != net {
      assert net'.conns[i] == Forward(c, r, m);
      assert Queue(net'.conns[i], Reverse(d)) == Queue(c, Reverse(d)) + [m];
    }
    assert Back(net, i, d, k) + [] == Back(net, i, d, k);
  }

  lemma MineIsOne(m: Msg, k: Key)
    ensures forall h :: Passed(h, Mine(m, k)) == if Mine(m, k) == [] || h == Some(Mine(m, k)[0]) then [] else Mine(m, k)
  {
    var vs := Mine(m, k);
    if vs != [] {
      assert vs == [vs[0]] && vs[1..] == [] && Passed(Some(vs[0]), []) == [];
    }
  }

  lemma DeliverOne(net: Network, i: nat, d: Direction, k: Key)
    requires Inv(net) && WellFormed(net) && i < |net.conns| && Open(net.conns[i]) && Queue(net.conns[i], d) != []
    ensures Step(net, Delivery(i, d)).Some?
    ensures
      var net' := Step(net, Delivery(i, d)).value;
      && Inv(net') && WellFormed(net')
      && Moved(net, net', i, d, k, Mine(Queue(net.conns[i], d)[0], k))
      && Queue(net'.conns[i], d) == Queue(net.conns[i], d)[1..]
  {
    var c := net.conns[i];
    assert LinkOk(net.nodes, c);
    StepKeepsInv(net, Delivery(i, d));
    StepWellFormed(net, Delivery(i, d));
    var c1 := if d.Upward? then c.(up := c.up[1..]) else c.(down := c.down[1..]);
    AcceptMoves(net.(conns := net.conns[i := c1]), i, d, k, Queue(c, d)[0]);
  }

  lemma ValuesHead(q: seq<Msg>, k: Key)
    requires q != []
    ensures Values(q, k) == Mine(q[0], k) + Values(q[1..], k)
  {
  }

  lemma NothingMoves(net: Network, i: nat, d: Direction, k: Key)
    requires WellFormed(net) && i < |net.conns| && net.conns[i].known
    ensures Moved(net, net, i, d, k, [])
  {
    assert Back(net, i, d, k) + [] == Back(net, i, d, k);
  }

  /** Handling everything in one direction, and nothing else. */
  lemma {:induction false} Drain(net: Network, i: nat, d: Direction, k: Key) returns (ls: seq<Label>, net': Network)
    requires Inv(net) && WellFormed(net) && i < |net.conns| && Open(net.conns[i])
    ensures AllDeliveries(ls) && |ls| == |Queue(net.conns[i], d)| && Exec(net, ls) == Some(net')
    ensures Inv(net') && WellFormed(net')
    ensures Moved(net, net', i, d, k, Values(Queue(net.conns[i], d), k)) && Queue(net'.conns[i], d) == []
    decreases |Queue(net.conns[i], d)|
  {
    var q := Queue(net.conns[i], d);
    if q == [] {
      ls, net' := [], net;
      NothingMoves(net, i, d, k);
    } else {
      var l := Delivery(i, d);
      DeliverOne(net, i, d, k);
      var mid := Step(net, l).value;
      var rest;
      rest, net' := Drain(mid, i, d, k);
      ls := [l] + rest;
      ExecCons(net, l, mid, rest);
      ValuesHead(q, k);
      MovedTwice(net, mid, net', i, d, k, Mine(q[0], k), Values(q[1..], k));
    }
  }

  // ----- Two values chasing each other -----

  ghost predicate Chase(net: Network, i: nat, d: Direction, k: Key, v: Value, w: Value) {
    && Inv(net) && WellFormed(net) && i < |net.conns| && Open(net.conns[i]) && v != w
    && var c := net.conns[i];
    && Values(Queue(c, d), k) == [v, w]
    && Values(Queue(c, Reverse(d)), k) == []
    && At(net.nodes, Sender(c, d), k) == Some(w)
    && At(net.nodes, Receiver(c, d), k) != Some(v)
  }

  /** A node that does not hold v passes v and w on and holds w. */
  lemma PassesBoth(held: Option<Value>, v: Value, w: Value)
    requires held != Some(v) && v != w
    ensures Passed(held, [v, w]) == [v, w] && HeldAfter(held, [v, w]) == Some(w)
  {
    assert [v, w][1..] == [w] && [w][1..] == [] && Passed(Some(w), []) == [];
    assert Passed(Some(v), [w]) == [w];
  }

  /** After one lap the same two values come back the other way. */
  lemma Lap(net: Network, i: nat, d: Direction, k: Key, v: Value, w: Value) returns (ls: seq<Label>, net': Network)
    requires Chase(net, i, d, k, v, w)
    ensures AllDeliveries(ls) && |ls| >= 2 && Exec(net, ls) == Some(net')
    ensures Chase(net', i, Reverse(d), k, v, w)
  {
    var c := net.conns[i];
    ls, net' := Drain(net, i, d, k);
    PassesBoth(HeldBy(net, Receiver(c, d), k), v, w);
    ValuesAtMost(Queue(c, d), k);
  }

  lemma {:induction false} ValuesAtMost(q: seq<Msg>, k: Key)
    ensures |Values(q, k)| <= |q|
  {
    if q != [] {
      ValuesAtMost(q[1..], k);
    }
  }

  lemma {:induction false} LongRun(net: Network, i: nat, d: Direction, k: Key, v: Value, w: Value, n: nat)
      returns (ls: seq<Label>)
    requires Chase(net, i, d, k, v, w)
    ensures AllDeliveries(ls) && |ls| >= n && Exec(net, ls).Some?
    decreases n
  {
    if n == 0 {
      ls := [];
    } else {
      var lap, net' := Lap(net, i, d, k, v, w);
      var rest := LongRun(net', i, Reverse(d), k, v, w, n - 1);
      ls := lap + rest;
      ExecAppend(net, lap, rest);
    }
  }

  lemma ChaseNeverEnds(net: Network, i: nat, d: Direction, k: Key, v: Value, w: Value)
    requires Chase(net, i, d, k, v, w)
    ensures !Terminates(net)
  {
    forall b: nat
      ensures !Within(net, b)
    {
      var ls := LongRun(net, i, d, k, v, w, b + 1);
    }
  }

  lemma LaterNeverEnds(net: Network, ls: seq<Label>)
    requires WellFormed(net) && AllDeliveries(ls) && Exec(net, ls).Some? && !Terminates(Exec(net, ls).value)
    ensures !Terminates(net)
  {
    var net' := Exec(net, ls).value;
    forall b: nat
      ensures !Within(net, b)
    {
      assert !Within(net', b);
      var more :| AllDeliveries(more) && Exec(net', more).Some? && |more| > b;
      ExecAppend(net, ls, more);
      assert AllDeliveries(ls + more);
    }
  }

  // ----- Publishing twice -----

  lemma QuiescentIsSettling(net: Network)
    requires Inv(net) && WellFormed(net) && Quiescent(net) && Intact(net)
    ensures Settling(net, map[]) && forall i :: 0 <= i < |net.conns| ==> Open(net.conns[i])
  {
    forall i | 0 <= i < |net.conns|
      ensures Open(net.conns[i])
    {
      assert LinkOk(net.nodes, net.conns[i]);
    }
  }

  lemma TwiceThenChase(net: Network, x: nat, k: Key, v: Value, w: Value, i: nat)
    requires Inv(net) && WellFormed(net) && Quiescent(net) && Intact(net) && x < |net.nodes| && v != w
    requires At(net.nodes, x, k) != Some(v) && i < |net.conns|
    requires net.conns[i].client == x || net.conns[i].server == x
    ensures
      var d := if net.conns[i].client == x then Upward else Downward;
      Chase(Accept(Accept(net, x, k, v), x, k, w), i, d, k, v, w)
  {
    var net1 := Accept(net, x, k, v);
    var net2 := Accept(net1, x, k, w);
    StepKeepsInv(net, Publication(x, k, v));
    StepKeepsInv(net1, Publication(x, k, w));
    var c := net.conns[i];
    var d := if c.client == x then Upward else Downward;
    assert LinkOk(net.nodes, c) && KeyOk(net.nodes, c, k);
    var c1 := Forward(c, x, Publish(k, v));
    assert net1.conns[i] == c1 && net2.conns[i] == Forward(c1, x, Publish(k, w));
    assert Queue(net2.conns[i], d) == [Publish(k, v), Publish(k, w)] && Queue(net2.conns[i], Reverse(d)) == [];
    TwoValues(k, v, w);
  }

  lemma TwoValues(k: Key, v: Value, w: Value)
    ensures Values([Publish(k, v), Publish(k, w)], k) == [v, w]
  {
    OneValue(k, w);
    assert [Publish(k, v), Publish(k, w)][1..] == [Publish(k, w)];
  }

  /** An application that publishes a new value v and then, before anything is delivered, w: the
      network stops if and only if the two values are the same or the node has no connection. */
  lemma DoublePublicationStopsIff(net: Network, x: nat, k: Key, v: Value, w: Value)
    requires Inv(net) && WellFormed(net) && Quiescent(net) && Intact(net)
    requires x < |net.nodes| && At(net.nodes, x, k) != Some(v)
    ensures
      var net' := Accept(Accept(net, x, k, v), x, k, w);
      && WellFormed(net')
      && (Terminates(net') <==>
            v == w || forall i :: 0 <= i < |net.conns| ==> net.conns[i].client != x && net.conns[i].server != x)
  {
    QuiescentIsSettling(net);
    var net1 := Accept(net, x, k, v);
    SafePublication(net, map[], x, k, v);
    StepKeepsInv(net1, Publication(x, k, w));
    StepWellFormed(net1, Publication(x, k, w));
    var net2 := Accept(net1, x, k, w);
    if v == w {
    } else if i :| 0 <= i < |net.conns| && (net.conns[i].client == x || net.conns[i].server == x) {
      TwiceThenChase(net, x, k, v, w, i);
      ChaseNeverEnds(net2, i, if net.conns[i].client == x then Upward else Downward, k, v, w);
    } else {
      assert net1.conns == net.conns;
      assert net2.conns == net.conns;
      SettlingTerminates(net2, map[]);
    }
  }

  // ----- Joining two networks -----

  predicate Compatible(a: map<Key, Value>, b: map<Key, Value>) {
    forall k :: k in a && k in b ==> a[k] == b[k]
  }

  lemma {:induction false} ValuesAnnounce(order: seq<Key>, m: map<Key, Value>, k: Key)
    requires forall j :: j in order ==> j in m
    requires forall i, j :: 0 <= i < j < |order| ==> order[i] != order[j]
    ensures Values(Announce(order, m), k) == if k in order then [m[k]] else []
  {
    if order != [] {
      ValuesAnnounce(order[1..], m, k);
      assert Announce(order, m)[1..] == Announce(order[1..], m);
    }
  }

  /** Before the HELLO is handled, the client's value v and the server's value w of k. */
  ghost predicate Conflict(net: Network, i: nat, k: Key, v: Value, w: Value) {
    && Inv(net) && WellFormed(net) && i < |net.conns| && !net.conns[i].known && !net.conns[i].reset && v != w
    && At(net.nodes, net.conns[i].client, k) == Some(v)
    && At(net.nodes, net.conns[i].server, k) == Some(w)
    && Values(net.conns[i].up, k) == [v]
  }

  lemma HelloMeetsConflict(net: Network, i: nat, k: Key, v: Value, w: Value, order: seq<Key>)
    requires Conflict(net, i, k, v, w) && Enumerates(order, net.nodes[net.conns[i].server].tuples)
    ensures Step(net, Up(i, order)).Some?
    ensures
      var net' := Step(net, Up(i, order)).value;
      && Inv(net') && WellFormed(net') && net'.nodes == net.nodes && |net'.conns| == |net.conns| && Open(net'.conns[i])
      && net'.conns[i].client == net.conns[i].client && net'.conns[i].server == net.conns[i].server
      && Values(net'.conns[i].up, k) == [v] && Values(net'.conns[i].down, k) == [w]
  {
    var c := net.conns[i];
    assert LinkOk(net.nodes, c);
    StepKeepsInv(net, Up(i, order));
    StepWellFormed(net, Up(i, order));
    ValuesAnnounce(order, net.nodes[c.server].tuples, k);
    assert c.down + Announce(order, net.nodes[c.server].tuples) == Announce(order, net.nodes[c.server].tuples);
  }

  /** Each end has its own value on the way to the other. */
  ghost predicate Crossing(net: Network, i: nat, k: Key, v: Value, w: Value) {
    && Inv(net) && WellFormed(net) && i < |net.conns| && Open(net.conns[i]) && v != w
    && HeldBy(net, net.conns[i].client, k) == Some(v) && HeldBy(net, net.conns[i].server, k) == Some(w)
    && Values(net.conns[i].up, k) == [v] && Values(net.conns[i].down, k) == [w]
  }

  /** Once the server has handled what is on its way, its old value leads the new one down. */
  lemma CrossingChases(net: Network, i: nat, k: Key, v: Value, w: Value) returns (ls: seq<Label>, net': Network)
    requires Crossing(net, i, k, v, w)
    ensures AllDeliveries(ls) && Exec(net, ls) == Some(net') && Chase(net', i, Downward, k, w, v)
  {
    ls, net' := Drain(net, i, Upward, k);
    PassesOne(w, v);
    CrossedIsChase(net, net', i, k, v, w);
  }

  lemma PassesOne(h: Value, v: Value)
    requires h != v
    ensures Passed(Some(h), [v]) == [v]
  {
    assert [v][1..] == [] && Passed(Some(v), []) == [];
  }

  lemma CrossedIsChase(net: Network, net': Network, i: nat, k: Key, v: Value, w: Value)
    requires Crossing(net, i, k, v, w) && Inv(net') && WellFormed(net') && Passed(Some(w), [v]) == [v]
    requires Moved(net, net', i, Upward, k, [v]) && net'.conns[i].up == []
    ensures Chase(net', i, Downward, k, w, v)
  {
    assert Back(net', i, Upward, k) == [w] + [v] == [w, v];
    assert HeldBy(net', net'.conns[i].client, k) == Some(v);
  }

  lemma CrossingNeverEnds(net: Network, i: nat, k: Key, v: Value, w: Value)
    requires Crossing(net, i, k, v, w)
    ensures !Terminates(net)
  {
    var ls, net' := CrossingChases(net, i, k, v, w);
    ChaseNeverEnds(net', i, Downward, k, w, v);
    LaterNeverEnds(net, ls);
  }

  lemma ConflictNeverEnds(net: Network, i: nat, k: Key, v: Value, w: Value)
    requires Conflict(net, i, k, v, w)
    ensures !Terminates(net)
  {
    var order := CanEnumerate(net.nodes[net.conns[i].server].tuples.Keys);
    var l := Up(i, order);
    HelloMeetsConflict(net, i, k, v, w, order);
    CrossingNeverEnds(Step(net, l).value, i, k, v, w);
    ExecOne(net, l);
    LaterNeverEnds(net, [l]);
  }

  /** A node of one quiescent network connects to a node of another, or of its own: the network stops
      if and only if the two nodes disagree on no key. */
  lemma JoinStopsIff(net: Network, a: nat, b: nat, order: seq<Key>)
    requires Inv(net) && WellFormed(net) && Quiescent(net) && Intact(net)
    requires Step(net, Connect(a, b, order)).Some?
    ensures
      var net' := Step(net, Connect(a, b, order)).value;
      && WellFormed(net')
      && (Terminates(net') <==> Compatible(net.nodes[a].tuples, net.nodes[b].tuples))
  {
    var l := Connect(a, b, order);
    var net' := Step(net, l).value;
    var ta, tb := net.nodes[a].tuples, net.nodes[b].tuples;
    QuiescentIsSettling(net);
    StepKeepsInv(net, l);
    StepWellFormed(net, l);
    if Compatible(ta, tb) {
      JoinSettles(net, a, b, order);
      SettlingTerminates(net', tb + ta);
    } else {
      var k :| k in ta && k in tb && ta[k] != tb[k];
      ValuesAnnounce(order, ta, k);
      assert ([Hello] + Announce(order, ta))[1..] == Announce(order, ta);
      ConflictNeverEnds(net', |net.conns|, k, ta[k], tb[k]);
    }
  }

  lemma JoinSettles(net: Network, a: nat, b: nat, order: seq<Key>)
    requires WellFormed(net) && Quiescent(net) && Settling(net, map[])
    requires forall i :: 0 <= i < |net.conns| ==> Open(net.conns[i])
    requires Step(net, Connect(a, b, order)).Some? && Compatible(net.nodes[a].tuples, net.nodes[b].tuples)
    ensures
      var net' := Step(net, Connect(a, b, order)).value;
      WellFormed(net') && Settling(net', net.nodes[b].tuples + net.nodes[a].tuples)
  {
    var net' := Step(net, Connect(a, b, order)).value;
    var target := net.nodes[b].tuples + net.nodes[a].tuples;
    StepWellFormed(net, Connect(a, b, order));
    assert QueueAgrees(net'.conns[|net.conns|].up, target);
  }
}
