/** One node of the gossip network as its code has it (src/zgossip.c): a table, a pipe to the
    application, and sockets written to in two loops. */
module GossipServer {
  import opened Gossip

  class Server {
    const self: nat                     // which node this is
    const wires: array<Connection>      // all connections; the server uses its own
    var tuples: map<Key, Value>
    var pipe: seq<(Key, Value)>         // what was delivered to the application

    constructor (self: nat, wires: array<Connection>)
      ensures this.self == self && this.wires == wires && tuples == map[] && pipe == []
    {
      this.self, this.wires, tuples, pipe := self, wires, map[], [];
    }

    /** The node and the connections, as the network sees them. */
    ghost function AsNode(): Node
      reads this
    {
      Node(tuples, pipe)
    }

    /** server_accept agrees with Accept, in whatever network the node is. */
    method Accept(key: Key, value: Value, ghost net: Network)
      requires self < |net.nodes| && net.nodes[self] == AsNode() && net.conns == wires[..]
      modifies this, wires
      ensures
        var net' := Gossip.Accept(net, self, key, value);
        && AsNode() == net'.nodes[self] && wires[..] == net'.conns
        && forall x :: 0 <= x < |net.nodes| && x != self ==> net'.nodes[x] == net.nodes[x]
    {
      if key in tuples && tuples[key] == value {
        return;
      }
      tuples := tuples[key := value];
      pipe := pipe + [(key, value)];
      var m := Publish(key, value);
      for i := 0 to wires.Length
        modifies wires
        invariant forall k :: i <= k < wires.Length ==> wires[k] == net.conns[k]
        invariant forall k :: 0 <= k < i ==> wires[k] == ToClient(net.conns[k], self, m)
      {
        if wires[i].server == self && wires[i].known {
          wires[i] := wires[i].(down := wires[i].down + [m]);
        }
      }
      for i := 0 to wires.Length
        modifies wires
        invariant forall k :: i <= k < wires.Length ==> wires[k] == ToClient(net.conns[k], self, m)
        invariant forall k :: 0 <= k < i ==> wires[k] == Forward(net.conns[k], self, m)
      {
        if wires[i].client == self {
          wires[i] := wires[i].(up := wires[i].up + [m]);
        }
      }
    }
  }

  function ToClient(c: Connection, x: nat, m: Msg): Connection {
    if c.server == x && c.known then c.(down := c.down + [m]) else c
  }
}
