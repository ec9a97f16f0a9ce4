/** Flooding between nodes (lib_network/src/p2pnetwork.rs): one node's handling of a message, in
    place, and the network of such nodes with the messages in flight between them. */
module Gossip {
  import opened Basics
  import opened Types

  datatype NetMessage =
    | BroadcastBlock(block: BlockNode)
    | BroadcastTx(tx: Transaction)
    | RequestBlock(id: BlockId)
    | Unknown(text: string)

  type Addr = nat

  // ----- one node -----

  class P2PNode {
    const neighbors: seq<Addr>
    var ack: set<NetMessage>
    var sendMsgCount: nat
    var recvMsgCount: nat
    var consumer: seq<NetMessage>
    var outgoing: seq<(Addr, NetMessage)>

    constructor (neighbors: seq<Addr>)
      ensures this.neighbors == neighbors && ack == {} && consumer == [] && outgoing == []
      ensures sendMsgCount == recvMsgCount == 0
    {
      this.neighbors := neighbors;
      ack, consumer, outgoing := {}, [], [];
      sendMsgCount, recvMsgCount := 0, 0;
    }

    /** The loop over the channels: one copy per neighbour. */
    method Send(m: NetMessage)
      modifies this`outgoing, this`sendMsgCount
      ensures outgoing == old(outgoing) + Copies(neighbors, m)
      ensures sendMsgCount == old(sendMsgCount) + |neighbors|
    {
      var i := 0;
      while i < |neighbors|
        invariant 0 <= i <= |neighbors|
        invariant outgoing == old(outgoing) + Copies(neighbors[..i], m)
        invariant sendMsgCount == old(sendMsgCount) + i
      {
        assert neighbors[..i + 1] == neighbors[..i] + [neighbors[i]];
        outgoing := outgoing + [(neighbors[i], m)];
        sendMsgCount := sendMsgCount + 1;
        i := i + 1;
      }
      assert neighbors[..|neighbors|] == neighbors;
    }

    /** A broadcast from inside the process: acknowledged first, then sent, whether seen before or not. */
    method Broadcast(m: NetMessage)
      modifies this
      ensures ack == old(ack) + {m} && consumer == old(consumer) && recvMsgCount == old(recvMsgCount)
      ensures outgoing == old(outgoing) + Copies(neighbors, m)
      ensures sendMsgCount == old(sendMsgCount) + |neighbors|
    {
      ack := ack + {m};
      Send(m);
    }

    /** A message from a neighbour: dropped if acknowledged before, otherwise handed to the consumer
        and forwarded, unless it is of unknown kind. */
    method Receive(m: NetMessage)
      modifies this
      ensures ack == old(ack) + {m}
      ensures recvMsgCount == old(recvMsgCount) + (if m in old(ack) then 0 else 1)
      ensures sendMsgCount == old(sendMsgCount) + (if m in old(ack) || m.Unknown? then 0 else |neighbors|)
      ensures consumer == old(consumer) + (if m in old(ack) || m.Unknown? then [] else [m])
      ensures outgoing == old(outgoing) + (if m in old(ack) || m.Unknown? then [] else Copies(neighbors, m))
    {
      if m in ack {
        return;
      }
      ack := ack + {m};
      recvMsgCount := recvMsgCount + 1;
      if !m.Unknown? {
        consumer := consumer + [m];
        Send(m);
      }
    }
  }

  function Copies(neighbors: seq<Addr>, m: NetMessage): (r: seq<(Addr, NetMessage)>)
    ensures |r| == |neighbors|
    ensures forall i | 0 <= i < |r| :: r[i] == (neighbors[i], m)
  {
    seq(|neighbors|, i requires 0 <= i < |neighbors| => (neighbors[i], m))
  }

  // ----- the network -----

  /** `links[a]` are the neighbours of node `a`. */
  datatype Topology = Topology(links: seq<seq<Addr>>)

  ghost predicate Wellformed(net: Topology) {
    forall a, i | 0 <= a < |net.links| && 0 <= i < |net.links[a]| :: net.links[a][i] < |net.links|
  }

  /** What every node has acknowledged and handed to its consumer; the messages in flight; and what the
      nodes still have to do: hand over a message they have acknowledged (`held`), send a message to
      their neighbours (`forwards`), and broadcast a message once more (`owed`: the node does so with a
      transaction it has consumed, and a block request goes straight into the broadcast channel). */
  datatype Network = Network(
    ack: seq<set<NetMessage>>,
    consumed: seq<seq<NetMessage>>,
    inFlight: multiset<(Addr, NetMessage)>,
    held: multiset<(Addr, NetMessage)>,
    forwards: multiset<(Addr, NetMessage)>,
    owed: multiset<(Addr, NetMessage)>,
    origins: set<(Addr, NetMessage)>)

  function Quiet(net: Topology): Network {
    Network(seq(|net.links|, _ => {}), seq(|net.links|, _ => []), multiset{}, multiset{}, multiset{}, multiset{}, {})
  }

  predicate Echoed(m: NetMessage) {
    m.BroadcastTx? || m.RequestBlock?
  }

  function Sent(net: Topology, a: Addr, m: NetMessage): multiset<(Addr, NetMessage)>
    requires a < |net.links|
  {
    multiset(Copies(net.links[a], m))
  }

  ghost predicate Shape(net: Topology, n: Network) {
    |n.ack| == |net.links| == |n.consumed|
  }

  function Acknowledge(net: Topology, n: Network, a: Addr, m: NetMessage): Network
    requires Shape(net, n) && a < |net.links|
  {
    n.(ack := n.ack[a := n.ack[a] + {m}])
  }

  /** Node `a` takes one copy of `m` from the network, under the lock of its `ack` set. */
  function TakeAt(net: Topology, n: Network, a: Addr, m: NetMessage): Network
    requires Shape(net, n) && a < |net.links|
  {
    var rest := n.(inFlight := n.inFlight - multiset{(a, m)});
    if m in n.ack[a] then rest
    else Acknowledge(net, rest, a, m).(held := if m.Unknown? then n.held else n.held + multiset{(a, m)})
  }

  /** Node `a` hands over a message it has acknowledged. */
  function HandOverAt(net: Topology, n: Network, a: Addr, m: NetMessage): Network
    requires Shape(net, n) && a < |net.links|
  {
    n.(held := n.held - multiset{(a, m)},
       consumed := n.consumed[a := n.consumed[a] + [m]],
       forwards := n.forwards + multiset{(a, m)},
       owed := if Echoed(m) then n.owed + multiset{(a, m)} else n.owed)
  }

  /** Node `a` sends a message to its neighbours, under the lock of its channels. */
  function ForwardAt(net: Topology, n: Network, a: Addr, m: NetMessage): Network
    requires Shape(net, n) && a < |net.links|
  {
    n.(forwards := n.forwards - multiset{(a, m)}, inFlight := n.inFlight + Sent(net, a, m))
  }

  /** Node `a` starts to broadcast `m`: it acknowledges the message, and will send it. */
  function BroadcastAt(net: Topology, n: Network, a: Addr, m: NetMessage): Network
    requires Shape(net, n) && a < |net.links|
  {
    Acknowledge(net, n, a, m).(forwards := n.forwards + multiset{(a, m)})
  }

  /** Node `a` starts to broadcast a message it owes. */
  function EchoAt(net: Topology, n: Network, a: Addr, m: NetMessage): Network
    requires Shape(net, n) && a < |net.links|
  {
    BroadcastAt(net, n.(owed := n.owed - multiset{(a, m)}), a, m)
  }

  datatype Kind = Take | HandOver | Forward | Echo

  function Pending(n: Network, kind: Kind): multiset<(Addr, NetMessage)> {
    match kind
    case Take => n.inFlight
    case HandOver => n.held
    case Forward => n.forwards
    case Echo => n.owed
  }

  function Perform(net: Topology, n: Network, kind: Kind, a: Addr, m: NetMessage): Network
    requires Shape(net, n) && a < |net.links|
  {
    match kind
    case Take => TakeAt(net, n, a, m)
    case HandOver => HandOverAt(net, n, a, m)
    case Forward => ForwardAt(net, n, a, m)
    case Echo => EchoAt(net, n, a, m)
  }

  /** A step the network takes by itself. */
  ghost predicate Internal(net: Topology, n: Network, n': Network) {
    && Shape(net, n)
    && exists kind, a, m :: a < |net.links| && (a, m) in Pending(n, kind) && n' == Perform(net, n, kind, a, m)
  }

  /** A message enters the network at a node. */
  ghost predicate Originates(net: Topology, n: Network, a: Addr, m: NetMessage, n': Network) {
    Shape(net, n) && a < |net.links| && !m.Unknown? && n' == BroadcastAt(net, n, a, m).(origins := n.origins + {(a, m)})
  }

  // ----- what every step keeps -----

  /** One node: it consumed nothing twice, everything it consumed is acknowledged, and everything
      acknowledged was consumed, is about to be, originated here, or is of unknown kind. */
  ghost predicate NodeOk(n: Network, a: nat)
    requires a < |n.ack| == |n.consumed|
  {
    && Distinct(n.consumed[a])
    && (forall m | m in n.consumed[a] :: m in n.ack[a])
    && (forall m | m in n.ack[a] :: m in n.consumed[a] || (a, m) in n.held || (a, m) in n.origins || m.Unknown?)
  }

  /** Whatever a node has acknowledged has reached each neighbour, or is on its way there. */
  ghost predicate Covered(net: Topology, n: Network, a: nat, m: NetMessage)
    requires Shape(net, n) && Wellformed(net) && a < |net.links|
  {
    || (a, m) in n.held || (a, m) in n.forwards
    || forall i | 0 <= i < |net.links[a]| :: m in n.ack[net.links[a][i]] || (net.links[a][i], m) in n.inFlight
  }

  /** A message waits to be handed over at most once, and not after it was; what a node has still to
      send or owes it has acknowledged. */
  ghost predicate TasksOk(net: Topology, n: Network)
    requires Shape(net, n)
  {
    && (forall a, m | (a, m) in n.held ::
          a < |net.links| && n.held[(a, m)] == 1 && m in n.ack[a] && m !in n.consumed[a] && !m.Unknown?)
    && (forall a, m | (a, m) in n.forwards :: a < |net.links| && m in n.ack[a] && !m.Unknown?)
    && (forall a, m | (a, m) in n.owed :: a < |net.links| && m in n.ack[a] && !m.Unknown?)
    && (forall a, m | (a, m) in n.origins :: a < |net.links| && m in n.ack[a] && !m.Unknown?)
  }

  /** Every copy in flight is addressed to a node. */
  ghost predicate Addressed(net: Topology, n: Network) {
    forall a, m | (a, m) in n.inFlight :: a < |net.links|
  }

  ghost predicate GossipInv(net: Topology, n: Network)
    requires Wellformed(net)
  {
    && Shape(net, n) && TasksOk(net, n) && Addressed(net, n)
    && (forall a: nat {:trigger NodeOk(n, a)} | a < |net.links| :: NodeOk(n, a))
    && (forall a: nat, m {:trigger Covered(net, n, a, m)} | a < |net.links| && m in n.ack[a] && !m.Unknown? ::
          Covered(net, n, a, m))
  }

  lemma QuietInv(net: Topology)
    requires Wellformed(net)
    ensures GossipInv(net, Quiet(net))
  {
  }

  lemma TakeNodes(net: Topology, n: Network, a: Addr, m: NetMessage, b: nat)
    requires Shape(net, n) && a < |net.links| && b < |net.links| && NodeOk(n, b)
    ensures NodeOk(TakeAt(net, n, a, m), b)
  {
    var n' := TakeAt(net, n, a, m);
    assert forall x | x in n.held :: x in n'.held;
  }

  lemma TakeCovers(net: Topology, n: Network, a: Addr, m: NetMessage, b: nat, k: NetMessage)
    requires Wellformed(net) && Shape(net, n) && a < |net.links| && b < |net.links|
    requires k in TakeAt(net, n, a, m).ack[b] && !k.Unknown? && (k in n.ack[b] ==> Covered(net, n, b, k))
    ensures Covered(net, TakeAt(net, n, a, m), b, k)
  {
    var n' := TakeAt(net, n, a, m);
    assert forall x | x in n.held :: x in n'.held;
    assert forall x | x in n.inFlight && x != (a, m) :: x in n'.inFlight;
    assert m in n'.ack[a];
  }

  lemma TakeTasks(net: Topology, n: Network, a: Addr, m: NetMessage)
    requires Shape(net, n) && a < |net.links| && TasksOk(net, n) && NodeOk(n, a)
    ensures TasksOk(net, TakeAt(net, n, a, m))
  {
    var n' := TakeAt(net, n, a, m);
    assert forall b, k | (b, k) in n'.held :: (b, k) in n.held || (b, k) == (a, m);
    assert forall b: nat | b < |net.links| :: n.ack[b] <= n'.ack[b];
  }

  lemma TakeKeeps(net: Topology, n: Network, a: Addr, m: NetMessage)
    requires Wellformed(net) && GossipInv(net, n) && a < |net.links|
    ensures GossipInv(net, TakeAt(net, n, a, m))
  {
    var n' := TakeAt(net, n, a, m);
    assert NodeOk(n, a);
    TakeTasks(net, n, a, m);
    forall b: nat {:trigger NodeOk(n', b)} | b < |net.links| ensures NodeOk(n', b) {
      assert NodeOk(n, b);
      TakeNodes(net, n, a, m, b);
    }
    forall b: nat, k {:trigger Covered(net, n', b, k)} | b < |net.links| && k in n'.ack[b] && !k.Unknown?
      ensures Covered(net, n', b, k)
    {
      assert k in n.ack[b] ==> Covered(net, n, b, k);
      TakeCovers(net, n, a, m, b, k);
    }
  }

  lemma HandOverNodes(net: Topology, n: Network, a: Addr, m: NetMessage, b: nat)
    requires Shape(net, n) && a < |net.links| && b < |net.links| && NodeOk(n, b)
    requires m in n.ack[a] && m !in n.consumed[a]
    ensures NodeOk(HandOverAt(net, n, a, m), b)
  {
    var n' := HandOverAt(net, n, a, m);
    assert forall x | x in n.held && x != (a, m) :: x in n'.held;
  }

  lemma HandOverTasks(net: Topology, n: Network, a: Addr, m: NetMessage)
    requires Shape(net, n) && TasksOk(net, n) && a < |net.links| && (a, m) in n.held
    ensures TasksOk(net, HandOverAt(net, n, a, m))
  {
    var n' := HandOverAt(net, n, a, m);
    assert n'.held[(a, m)] == 0;
    assert forall b, k | (b, k) in n'.held :: (b, k) in n.held && (b, k) != (a, m) && n'.held[(b, k)] == n.held[(b, k)];
    assert forall b, k | (b, k) in n'.forwards :: (b, k) in n.forwards || (b, k) == (a, m);
    assert forall b, k | (b, k) in n'.owed :: (b, k) in n.owed || (b, k) == (a, m);
  }

  lemma HandOverKeeps(net: Topology, n: Network, a: Addr, m: NetMessage)
    requires Wellformed(net) && GossipInv(net, n) && a < |net.links| && (a, m) in n.held
    ensures GossipInv(net, HandOverAt(net, n, a, m))
  {
    var n' := HandOverAt(net, n, a, m);
    HandOverTasks(net, n, a, m);
    forall b: nat {:trigger NodeOk(n', b)} | b < |net.links| ensures NodeOk(n', b) {
      assert NodeOk(n, b);
      HandOverNodes(net, n, a, m, b);
    }
    assert forall x | x in n.held && x != (a, m) :: x in n'.held;
    assert forall x | x in n.forwards || x == (a, m) :: x in n'.forwards;
    forall b: nat, k {:trigger Covered(net, n', b, k)} | b < |net.links| && k in n'.ack[b] && !k.Unknown?
      ensures Covered(net, n', b, k)
    {
      assert Covered(net, n, b, k);
    }
  }

  lemma ForwardKeeps(net: Topology, n: Network, a: Addr, m: NetMessage)
    requires Wellformed(net) && GossipInv(net, n) && a < |net.links|
    ensures GossipInv(net, ForwardAt(net, n, a, m))
  {
    var n' := ForwardAt(net, n, a, m);
    ForwardAddressed(net, n, a, m);
    forall b: nat {:trigger NodeOk(n', b)} | b < |net.links| ensures NodeOk(n', b) {
      assert NodeOk(n, b);
    }
    assert forall x | x in n'.forwards :: x in n.forwards;
    forall b: nat, k {:trigger Covered(net, n', b, k)} | b < |net.links| && k in n'.ack[b] && !k.Unknown?
      ensures Covered(net, n', b, k)
    {
      assert Covered(net, n, b, k);
      ForwardCovers(net, n, a, m, b, k);
    }
  }

  lemma ForwardAddressed(net: Topology, n: Network, a: Addr, m: NetMessage)
    requires Wellformed(net) && Shape(net, n) && Addressed(net, n) && a < |net.links|
    ensures Addressed(net, ForwardAt(net, n, a, m))
  {
    forall b, k | (b, k) in Sent(net, a, m) ensures b < |net.links| {
      assert (b, k) in Copies(net.links[a], m);
    }
  }

  lemma ForwardCovers(net: Topology, n: Network, a: Addr, m: NetMessage, b: nat, k: NetMessage)
    requires Wellformed(net) && Shape(net, n) && a < |net.links| && b < |net.links| && Covered(net, n, b, k)
    ensures Covered(net, ForwardAt(net, n, a, m), b, k)
  {
    var n' := ForwardAt(net, n, a, m);
    assert forall x | x in n.forwards && x != (a, m) :: x in n'.forwards;
    if (b, k) == (a, m) {
      forall i | 0 <= i < |net.links[a]| ensures (net.links[a][i], m) in n'.inFlight {
        assert Copies(net.links[a], m)[i] == (net.links[a][i], m);
        assert (net.links[a][i], m) in Sent(net, a, m);
      }
    }
  }

  lemma BroadcastKeeps(net: Topology, n: Network, a: Addr, m: NetMessage, n': Network)
    requires Wellformed(net) && GossipInv(net, n) && a < |net.links| && !m.Unknown?
    requires n' == BroadcastAt(net, n, a, m).(origins := n'.origins, owed := n'.owed)
    requires n'.origins == n.origins + {(a, m)} || (n'.origins == n.origins && m in n.ack[a])
    requires n'.owed <= n.owed
    ensures GossipInv(net, n')
  {
    BroadcastTasks(net, n, a, m, n');
    forall b: nat {:trigger NodeOk(n', b)} | b < |net.links| ensures NodeOk(n', b) {
      assert NodeOk(n, b);
    }
    assert (a, m) in n'.forwards;
    assert forall x | x in n.forwards :: x in n'.forwards;
    forall b: nat, k {:trigger Covered(net, n', b, k)} | b < |net.links| && k in n'.ack[b] && !k.Unknown?
      ensures Covered(net, n', b, k)
    {
      assert k in n.ack[b] ==> Covered(net, n, b, k);
    }
  }

  lemma BroadcastTasks(net: Topology, n: Network, a: Addr, m: NetMessage, n': Network)
    requires Shape(net, n) && TasksOk(net, n) && a < |net.links| && !m.Unknown?
    requires n' == BroadcastAt(net, n, a, m).(origins := n'.origins, owed := n'.owed)
    requires n'.origins <= n.origins + {(a, m)} && n'.owed <= n.owed
    ensures TasksOk(net, n')
  {
    assert forall x | x in n'.owed :: x in n.owed;
    assert forall b, k | (b, k) in n'.forwards :: (b, k) in n.forwards || (b, k) == (a, m);
  }

  lemma InternalKeeps(net: Topology, n: Network, n': Network)
    requires Wellformed(net) && GossipInv(net, n) && Internal(net, n, n')
    ensures GossipInv(net, n')
  {
    var kind, a, m :| a < |net.links| && (a, m) in Pending(n, kind) && n' == Perform(net, n, kind, a, m);
    match kind
    case Take => TakeKeeps(net, n, a, m);
    case HandOver => HandOverKeeps(net, n, a, m);
    case Forward => ForwardKeeps(net, n, a, m);
    case Echo => BroadcastKeeps(net, n, a, m, n');
  }

  // ----- every run -----

  ghost predicate GossipStep(net: Topology, n: Network, n': Network) {
    Internal(net, n, n') || exists a, m :: Originates(net, n, a, m, n')
  }

  ghost predicate GossipRun(net: Topology, states: seq<Network>) {
    && states != [] && states[0] == Quiet(net)
    && forall i: nat {:trigger GossipStepAt(net, states, i)} | i + 1 < |states| :: GossipStepAt(net, states, i)
  }

  ghost predicate GossipStepAt(net: Topology, states: seq<Network>, i: nat)
    requires i + 1 < |states|
  {
    GossipStep(net, states[i], states[i + 1])
  }

  lemma {:induction false} GossipRunKeeps(net: Topology, states: seq<Network>, i: nat)
    requires Wellformed(net) && GossipRun(net, states) && i < |states|
    ensures GossipInv(net, states[i])
  {
    if i == 0 {
      QuietInv(net);
    } else {
      GossipRunKeeps(net, states, i - 1);
      assert GossipStepAt(net, states, i - 1);
      if Internal(net, states[i - 1], states[i]) {
        InternalKeeps(net, states[i - 1], states[i]);
      } else {
        var a, m :| Originates(net, states[i - 1], a, m, states[i]);
        BroadcastKeeps(net, states[i - 1], a, m, states[i]);
      }
    }
  }

  /** In every run, no node hands a message to its consumer twice. */
  lemma AtMostOnce(net: Topology, states: seq<Network>, i: nat, a: nat)
    requires Wellformed(net) && GossipRun(net, states) && i < |states| && a < |net.links|
    ensures Shape(net, states[i]) && Distinct(states[i].consumed[a])
  {
    GossipRunKeeps(net, states, i);
    assert NodeOk(states[i], a);
  }

  /** `route` follows links. */
  ghost predicate Route(net: Topology, route: seq<nat>)
    requires Wellformed(net)
  {
    && route != [] && (forall i | 0 <= i < |route| :: route[i] < |net.links|)
    && (forall i | 0 <= i < |route| - 1 :: route[i + 1] in net.links[route[i]])
  }

  /** Nothing is in flight, and no node has acknowledged a message that it has not handled yet. */
  ghost predicate Settled(n: Network) {
    n.inFlight == n.held == n.forwards == multiset{}
  }

  lemma {:induction false} AlongRoute(net: Topology, n: Network, route: seq<nat>, m: NetMessage)
    requires Wellformed(net) && GossipInv(net, n) && Settled(n) && Route(net, route)
    requires m in n.ack[route[0]] && !m.Unknown?
    ensures m in n.ack[route[|route| - 1]]
  {
    if |route| > 1 {
      var init, a, b := route[..|route| - 1], route[|route| - 2], route[|route| - 1];
      AlongRoute(net, n, init, m);
      assert Covered(net, n, a, m);
      assert route[|route| - 2 + 1] in net.links[route[|route| - 2]];
      var i :| 0 <= i < |net.links[a]| && net.links[a][i] == b;
    }
  }

  ghost predicate Reached(n: Network, b: Addr, m: NetMessage) {
    b < |n.ack| == |n.consumed| && m in n.ack[b] && (m in n.consumed[b] || (b, m) in n.origins)
  }

  lemma SettledReached(net: Topology, n: Network, route: seq<nat>, m: NetMessage)
    requires Wellformed(net) && GossipInv(net, n) && Settled(n)
    requires Route(net, route) && (route[0], m) in n.origins
    ensures Reached(n, route[|route| - 1], m)
  {
    AlongRoute(net, n, route, m);
    assert NodeOk(n, route[|route| - 1]);
  }

  /** Once the network has settled, every node that links lead to from where a message entered has
      acknowledged it, and has handed it to its consumer unless the message entered there too. */
  lemma FloodReachesAll(net: Topology, states: seq<Network>, i: nat, route: seq<nat>, m: NetMessage)
    requires Wellformed(net) && GossipRun(net, states) && i < |states| && Settled(states[i])
    requires Route(net, route) && (route[0], m) in states[i].origins
    ensures Reached(states[i], route[|route| - 1], m)
  {
    GossipRunKeeps(net, states, i);
    SettledReached(net, states[i], route, m);
  }

  // ----- every flood ends -----

  ghost predicate DegreeAtMost(net: Topology, d: nat) {
    forall a | 0 <= a < |net.links| :: |net.links[a]| <= d
  }

  /** Node/message pairs not yet acknowledged, among the messages `ms`. */
  function Unacked(ack: seq<set<NetMessage>>, ms: set<NetMessage>): nat {
    if ack == [] then 0 else Unacked(ack[..|ack| - 1], ms) + |ms - ack[|ack| - 1]|
  }

  /** Each step costs more than what it leads to: a receipt more than a hand-over, that more than the
      forwarding and the re-broadcast, and these more than the copies they send. */
  function Weight(d: nat, unacked: nat, inFlight: nat, held: nat, forwards: nat, owed: nat): nat {
    (2 * d + 5) * unacked + inFlight + (2 * d + 4) * held + (d + 1) * forwards + (d + 2) * owed
  }

  function Measure(n: Network, ms: set<NetMessage>, d: nat): nat {
    Weight(d, Unacked(n.ack, ms), |n.inFlight|, |n.held|, |n.forwards|, |n.owed|)
  }

  ghost predicate Only(n: Network, ms: set<NetMessage>) {
    forall kind, a, m | (a, m) in Pending(n, kind) :: m in ms
  }

  lemma AckedOne(ms: set<NetMessage>, acked: set<NetMessage>, m: NetMessage)
    ensures |ms - (acked + {m})| == |ms - acked| - (if m in ms && m !in acked then 1 else 0)
  {
    assert ms - (acked + {m}) == (ms - acked) - {m};
  }

  lemma {:induction false} UnackedUpdate(ack: seq<set<NetMessage>>, ms: set<NetMessage>, a: nat, m: NetMessage)
    requires a < |ack|
    ensures Unacked(ack[a := ack[a] + {m}], ms) == Unacked(ack, ms) - (if m in ms && m !in ack[a] then 1 else 0)
  {
    var init := ack[..|ack| - 1];
    if a == |ack| - 1 {
      assert ack[a := ack[a] + {m}][..|ack| - 1] == init;
      AckedOne(ms, ack[a], m);
    } else {
      assert ack[a := ack[a] + {m}][..|ack| - 1] == init[a := init[a] + {m}];
      UnackedUpdate(init, ms, a, m);
    }
  }

  lemma SentOnly(net: Topology, a: Addr, m: NetMessage)
    requires a < |net.links|
    ensures forall b, k | (b, k) in Sent(net, a, m) :: k == m
    ensures |Sent(net, a, m)| == |net.links[a]|
  {
    forall b, k | (b, k) in Sent(net, a, m) ensures k == m {
      assert (b, k) in Copies(net.links[a], m);
    }
  }

  lemma PerformOnly(net: Topology, n: Network, kind: Kind, a: Addr, m: NetMessage, ms: set<NetMessage>)
    requires Shape(net, n) && a < |net.links| && (a, m) in Pending(n, kind) && Only(n, ms)
    ensures Only(Perform(net, n, kind, a, m), ms)
  {
    forall other, b, k | (b, k) in Pending(Perform(net, n, kind, a, m), other) ensures k in ms {
      PerformAdds(net, n, kind, a, m, other, (b, k));
      assert (b, k) in Pending(n, other) || k == m;
    }
  }

  lemma PerformAdds(net: Topology, n: Network, kind: Kind, a: Addr, m: NetMessage, other: Kind, x: (Addr, NetMessage))
    requires Shape(net, n) && a < |net.links| && x in Pending(Perform(net, n, kind, a, m), other)
    ensures x in Pending(n, other) || x.1 == m
  {
    match kind
    case Take => TakeAdds(net, n, a, m, other, x);
    case HandOver => HandOverAdds(net, n, a, m, other, x);
    case Forward => SentOnly(net, a, m);
    case Echo => EchoAdds(net, n, a, m, other, x);
  }

  lemma TakeAdds(net: Topology, n: Network, a: Addr, m: NetMessage, other: Kind, x: (Addr, NetMessage))
    requires Shape(net, n) && a < |net.links| && x in Pending(TakeAt(net, n, a, m), other)
    ensures x in Pending(n, other) || x.1 == m
  {
  }

  lemma HandOverAdds(net: Topology, n: Network, a: Addr, m: NetMessage, other: Kind, x: (Addr, NetMessage))
    requires Shape(net, n) && a < |net.links| && x in Pending(HandOverAt(net, n, a, m), other)
    ensures x in Pending(n, other) || x.1 == m
  {
  }

  lemma EchoAdds(net: Topology, n: Network, a: Addr, m: NetMessage, other: Kind, x: (Addr, NetMessage))
    requires Shape(net, n) && a < |net.links| && x in Pending(EchoAt(net, n, a, m), other)
    ensures x in Pending(n, other) || x.1 == m
  {
  }

  lemma MulMonotone(w: nat, x: nat, y: nat)
    requires x <= y
    ensures w * x <= w * y
    ensures x < y ==> w * x + w <= w * y
  {
    if x < y { MulMonotone(w, x, y - 1); }
  }

  lemma MulAtMostOneMore(w: nat, x: nat, y: nat)
    requires y <= x + 1
    ensures w * y <= w * x + w
  {
    MulMonotone(w, y, x + 1);
  }

  lemma TakeWeight(d: nat, u: nat, u': nat, f: nat, h: nat, h': nat, s: nat, o: nat)
    requires (u' == u && h' == h) || (u' < u && h' <= h + 1)
    ensures Weight(d, u', f, h', s, o) <= Weight(d, u, f, h, s, o)
  {
    MulMonotone(2 * d + 5, u', u);
    MulAtMostOneMore(2 * d + 4, h, h');
  }

  lemma HandOverWeight(d: nat, u: nat, f: nat, h: nat, s: nat, o: nat, o': nat)
    requires o' <= o + 1
    ensures Weight(d, u, f, h, s + 1, o') < Weight(d, u, f, h + 1, s, o)
  {
    MulMonotone(2 * d + 4, h, h + 1);
    MulAtMostOneMore(d + 1, s, s + 1);
    MulAtMostOneMore(d + 2, o, o');
  }

  lemma ForwardWeight(d: nat, u: nat, f: nat, f': nat, h: nat, s: nat, o: nat)
    requires f' <= f + d
    ensures Weight(d, u, f', h, s, o) < Weight(d, u, f, h, s + 1, o)
  {
    MulMonotone(d + 1, s, s + 1);
  }

  lemma EchoWeight(d: nat, u: nat, u': nat, f: nat, h: nat, s: nat, o: nat)
    requires u' <= u
    ensures Weight(d, u', f, h, s + 1, o) < Weight(d, u, f, h, s, o + 1)
  {
    MulMonotone(2 * d + 5, u', u);
    MulAtMostOneMore(d + 1, s, s + 1);
    MulMonotone(d + 2, o, o + 1);
  }

  lemma TakeDecreases(net: Topology, n: Network, a: Addr, m: NetMessage, ms: set<NetMessage>, d: nat)
    requires Shape(net, n) && a < |net.links| && (a, m) in n.inFlight && m in ms
    ensures Measure(TakeAt(net, n, a, m), ms, d) < Measure(n, ms, d)
  {
    var n' := TakeAt(net, n, a, m);
    assert |n'.inFlight| == |n.inFlight| - 1;
    UnackedUpdate(n.ack, ms, a, m);
    assert |n.held + multiset{(a, m)}| == |n.held| + 1;
    TakeWeight(d, Unacked(n.ack, ms), Unacked(n'.ack, ms), |n'.inFlight|, |n.held|, |n'.held|, |n.forwards|, |n.owed|);
  }

  lemma HandOverDecreases(net: Topology, n: Network, a: Addr, m: NetMessage, ms: set<NetMessage>, d: nat)
    requires Shape(net, n) && a < |net.links| && (a, m) in n.held
    ensures Measure(HandOverAt(net, n, a, m), ms, d) < Measure(n, ms, d)
  {
    var n' := HandOverAt(net, n, a, m);
    assert |n'.held| == |n.held| - 1 && |n'.forwards| == |n.forwards| + 1 && |n'.owed| <= |n.owed| + 1;
    HandOverWeight(d, Unacked(n.ack, ms), |n.inFlight|, |n'.held|, |n.forwards|, |n.owed|, |n'.owed|);
  }

  lemma ForwardDecreases(net: Topology, n: Network, a: Addr, m: NetMessage, ms: set<NetMessage>, d: nat)
    requires Shape(net, n) && a < |net.links| && (a, m) in n.forwards && DegreeAtMost(net, d)
    ensures Measure(ForwardAt(net, n, a, m), ms, d) < Measure(n, ms, d)
  {
    var n' := ForwardAt(net, n, a, m);
    SentOnly(net, a, m);
    assert |n'.forwards| == |n.forwards| - 1 && |n'.inFlight| == |n.inFlight| + |net.links[a]|;
    ForwardWeight(d, Unacked(n.ack, ms), |n.inFlight|, |n'.inFlight|, |n.held|, |n'.forwards|, |n.owed|);
  }

  lemma EchoDecreases(net: Topology, n: Network, a: Addr, m: NetMessage, ms: set<NetMessage>, d: nat)
    requires Shape(net, n) && a < |net.links| && (a, m) in n.owed
    ensures Measure(EchoAt(net, n, a, m), ms, d) < Measure(n, ms, d)
  {
    var n' := EchoAt(net, n, a, m);
    UnackedUpdate(n.ack, ms, a, m);
    assert |n'.owed| == |n.owed| - 1 && |n'.forwards| == |n.forwards| + 1;
    EchoWeight(d, Unacked(n.ack, ms), Unacked(n'.ack, ms), |n.inFlight|, |n.held|, |n.forwards|, |n'.owed|);
  }

  ghost predicate InternalRun(net: Topology, states: seq<Network>) {
    && states != []
    && forall i: nat {:trigger InternalAt(net, states, i)} | i + 1 < |states| :: InternalAt(net, states, i)
  }

  ghost predicate InternalAt(net: Topology, states: seq<Network>, i: nat)
    requires i + 1 < |states|
  {
    Internal(net, states[i], states[i + 1])
  }

  lemma InternalNext(net: Topology, states: seq<Network>, i: nat)
    requires InternalRun(net, states) && i + 1 < |states|
    ensures Internal(net, states[i], states[i + 1])
  {
    assert InternalAt(net, states, i);
  }

  lemma NothingNew(net: Topology, states: seq<Network>, ms: set<NetMessage>, i: nat)
    requires InternalRun(net, states) && Only(states[0], ms) && i < |states|
    ensures Only(states[i], ms)
  {
    for j := 0 to i
      invariant Only(states[j], ms)
    {
      NextOnly(net, states, ms, j);
    }
  }

  lemma NextOnly(net: Topology, states: seq<Network>, ms: set<NetMessage>, i: nat)
    requires InternalRun(net, states) && i + 1 < |states| && Only(states[i], ms)
    ensures Only(states[i + 1], ms)
  {
    InternalNext(net, states, i);
    InternalOnly(net, states[i], states[i + 1], ms);
  }

  lemma InternalOnly(net: Topology, n: Network, n': Network, ms: set<NetMessage>)
    requires Internal(net, n, n') && Only(n, ms)
    ensures Only(n', ms)
  {
    var kind, a, m :| a < |net.links| && (a, m) in Pending(n, kind) && n' == Perform(net, n, kind, a, m);
    PerformOnly(net, n, kind, a, m, ms);
  }

  lemma MeasureDrops(net: Topology, states: seq<Network>, ms: set<NetMessage>, d: nat, i: nat)
    requires InternalRun(net, states) && Only(states[0], ms) && DegreeAtMost(net, d) && i + 1 < |states|
    ensures Measure(states[i + 1], ms, d) < Measure(states[i], ms, d)
  {
    NothingNew(net, states, ms, i);
    InternalNext(net, states, i);
    InternalDecreases(net, states[i], states[i + 1], ms, d);
  }

  lemma {:induction false} CountDown(ws: seq<nat>, i: nat)
    requires i < |ws| && forall j | 0 <= j < |ws| - 1 :: ws[j + 1] < ws[j]
    ensures i + ws[i] <= ws[0]
  {
    if i > 0 {
      CountDown(ws, i - 1);
      assert ws[i - 1 + 1] < ws[i - 1];
    }
  }

  /** Every flood ends: without new messages from outside, the network takes at most `Measure` more
      steps, whatever their order. */
  lemma FloodEnds(net: Topology, states: seq<Network>, ms: set<NetMessage>, d: nat, i: nat)
    requires InternalRun(net, states) && Only(states[0], ms) && DegreeAtMost(net, d) && i < |states|
    ensures Only(states[i], ms) && i + Measure(states[i], ms, d) <= Measure(states[0], ms, d)
  {
    var ws := seq(|states|, j requires 0 <= j < |states| => Measure(states[j], ms, d));
    forall j | 0 <= j < |ws| - 1 ensures ws[j + 1] < ws[j] {
      MeasureDrops(net, states, ms, d, j);
    }
    NothingNew(net, states, ms, i);
    CountDown(ws, i);
  }

  lemma InternalDecreases(net: Topology, n: Network, n': Network, ms: set<NetMessage>, d: nat)
    requires Internal(net, n, n') && Only(n, ms) && DegreeAtMost(net, d)
    ensures Only(n', ms) && Measure(n', ms, d) < Measure(n, ms, d)
  {
    var kind, a, m :| a < |net.links| && (a, m) in Pending(n, kind) && n' == Perform(net, n, kind, a, m);
    PerformOnly(net, n, kind, a, m, ms);
    match kind
    case Take => TakeDecreases(net, n, a, m, ms, d);
    case HandOver => HandOverDecreases(net, n, a, m, ms, d);
    case Forward => ForwardDecreases(net, n, a, m, ms, d);
    case Echo => EchoDecreases(net, n, a, m, ms, d);
  }

  // ----- a flood completes -----

  ghost predicate NoStepLeft(net: Topology, n: Network) {
    forall n' :: !Internal(net, n, n')
  }

  /** A network has no step left exactly if nothing is in flight and no node has anything left to do. */
  lemma NoStepExactly(net: Topology, n: Network)
    requires Wellformed(net) && GossipInv(net, n)
    ensures NoStepLeft(net, n) <==> Settled(n) && n.owed == multiset{}
  {
    if !(Settled(n) && n.owed == multiset{}) {
      var kind := if n.inFlight != multiset{} then Take else if n.held != multiset{} then HandOver
                  else if n.forwards != multiset{} then Forward else Echo;
      PendingSteps(net, n, kind);
    }
  }

  lemma PendingSteps(net: Topology, n: Network, kind: Kind)
    requires Wellformed(net) && GossipInv(net, n) && Pending(n, kind) != multiset{}
    ensures !NoStepLeft(net, n)
  {
    var x :| x in Pending(n, kind);
    var a, m := x.0, x.1;
    assert x == (a, m);
    assert Internal(net, n, Perform(net, n, kind, a, m));
  }

  /** The messages the network is concerned with. */
  ghost function Messages(n: Network): (ms: set<NetMessage>)
    ensures Only(n, ms)
  {
    (set x | x in n.inFlight :: x.1) + (set x | x in n.held :: x.1)
    + (set x | x in n.forwards :: x.1) + (set x | x in n.owed :: x.1)
  }

  function MaxDegree(links: seq<seq<Addr>>): (d: nat)
    ensures forall a | 0 <= a < |links| :: |links[a]| <= d
  {
    if links == [] then 0
    else
      var d, last := MaxDegree(links[..|links| - 1]), |links[|links| - 1]|;
      assert forall a | 0 <= a < |links| - 1 :: links[a] == links[..|links| - 1][a];
      if d < last then last else d
  }

  /** No more than this many steps are left. */
  ghost function StepsLeft(net: Topology, n: Network): nat {
    Measure(n, Messages(n), MaxDegree(net.links))
  }

  lemma InternalRunKeeps(net: Topology, rest: seq<Network>, i: nat)
    requires Wellformed(net) && InternalRun(net, rest) && GossipInv(net, rest[0]) && i < |rest|
    ensures GossipInv(net, rest[i]) && rest[i].origins == rest[0].origins
  {
    for j := 0 to i
      invariant GossipInv(net, rest[j]) && rest[j].origins == rest[0].origins
    {
      NextKeeps(net, rest, j);
    }
  }

  lemma NextKeeps(net: Topology, rest: seq<Network>, i: nat)
    requires Wellformed(net) && InternalRun(net, rest) && i + 1 < |rest| && GossipInv(net, rest[i])
    ensures GossipInv(net, rest[i + 1]) && rest[i + 1].origins == rest[i].origins
  {
    InternalNext(net, rest, i);
    InternalKeepsOrigins(net, rest[i], rest[i + 1]);
  }

  lemma InternalKeepsOrigins(net: Topology, n: Network, n': Network)
    requires Wellformed(net) && GossipInv(net, n) && Internal(net, n, n')
    ensures GossipInv(net, n') && n'.origins == n.origins
  {
    InternalKeeps(net, n, n');
  }

  /** The network left to itself after any run: it takes at most `StepsLeft` steps, in whatever order, and
      when it has none left, every node that links lead to from where a message has entered has
      acknowledged that message, and has handed it to its consumer unless it entered there too. */
  lemma FloodCompletes(net: Topology, states: seq<Network>, i: nat, rest: seq<Network>)
    requires Wellformed(net) && GossipRun(net, states) && i < |states|
    requires InternalRun(net, rest) && rest[0] == states[i]
    ensures |rest| - 1 <= StepsLeft(net, states[i])
    ensures NoStepLeft(net, rest[|rest| - 1]) ==> AllReached(net, rest[|rest| - 1], states[i].origins)
  {
    var last := |rest| - 1;
    GossipRunKeeps(net, states, i);
    FloodEnds(net, rest, Messages(states[i]), MaxDegree(net.links), last);
    InternalRunKeeps(net, rest, last);
    if NoStepLeft(net, rest[last]) {
      NoStepReached(net, rest[last]);
    }
  }

  /** Whatever node links lead to from where a message entered has got that message. */
  ghost predicate AllReached(net: Topology, n: Network, origins: set<(Addr, NetMessage)>)
    requires Wellformed(net)
  {
    forall route, m | Route(net, route) && (route[0], m) in origins :: Reached(n, route[|route| - 1], m)
  }

  lemma NoStepReached(net: Topology, n: Network)
    requires Wellformed(net) && GossipInv(net, n) && NoStepLeft(net, n)
    ensures AllReached(net, n, n.origins)
  {
    NoStepExactly(net, n);
    forall route, m | Route(net, route) && (route[0], m) in n.origins ensures Reached(n, route[|route| - 1], m) {
      SettledReached(net, n, route, m);
    }
  }

  /** And from every state of every run the network can be left to itself until it has no step left. */
  lemma FloodCanComplete(net: Topology, n: Network) returns (rest: seq<Network>)
    requires Wellformed(net) && GossipInv(net, n)
    ensures InternalRun(net, rest) && rest[0] == n && NoStepLeft(net, rest[|rest| - 1])
  {
    rest := CompleteFrom(net, n, Messages(n), MaxDegree(net.links), StepsLeft(net, n));
  }

  lemma {:induction false} CompleteFrom(net: Topology, n: Network, ms: set<NetMessage>, d: nat, left: nat)
    returns (rest: seq<Network>)
    requires Wellformed(net) && GossipInv(net, n) && Only(n, ms) && DegreeAtMost(net, d)
    requires Measure(n, ms, d) == left
    ensures InternalRun(net, rest) && rest[0] == n && NoStepLeft(net, rest[|rest| - 1])
    decreases left
  {
    if NoStepLeft(net, n) {
      rest := [n];
    } else {
      var n', left' := OneStep(net, n, ms, d, left);
      var tail := CompleteFrom(net, n', ms, d, left');
      InternalPrepend(net, n, tail);
      rest := [n] + tail;
    }
  }

  lemma OneStep(net: Topology, n: Network, ms: set<NetMessage>, d: nat, left: nat) returns (n': Network, left': nat)
    requires Wellformed(net) && GossipInv(net, n) && Only(n, ms) && DegreeAtMost(net, d) && !NoStepLeft(net, n)
    requires Measure(n, ms, d) == left
    ensures Internal(net, n, n') && GossipInv(net, n')
    ensures Only(n', ms) && Measure(n', ms, d) == left' < left
  {
    n' :| Internal(net, n, n');
    InternalKeeps(net, n, n');
    InternalDecreases(net, n, n', ms, d);
    left' := Measure(n', ms, d);
  }

  lemma InternalPrepend(net: Topology, n: Network, rest: seq<Network>)
    requires InternalRun(net, rest) && Internal(net, n, rest[0])
    ensures InternalRun(net, [n] + rest)
    ensures ([n] + rest)[0] == n && ([n] + rest)[|rest|] == rest[|rest| - 1]
  {
    var all := [n] + rest;
    forall i: nat {:trigger InternalAt(net, all, i)} | i + 1 < |all| ensures InternalAt(net, all, i) {
      if i > 0 { assert InternalAt(net, rest, i - 1); }
    }
  }

  // ----- the network is made of such nodes -----

  /** The three steps of a receipt in a row. */
  function ReceiveAt(net: Topology, n: Network, a: Addr, m: NetMessage): Network
    requires Shape(net, n) && a < |net.links|
  {
    if m in n.ack[a] || m.Unknown? then TakeAt(net, n, a, m)
    else ForwardAt(net, HandOverAt(net, TakeAt(net, n, a, m), a, m), a, m)
  }

  lemma ReceiveEffect(net: Topology, n: Network, a: Addr, m: NetMessage)
    requires Shape(net, n) && a < |net.links| && (a, m) in n.inFlight
    ensures var n', handled := ReceiveAt(net, n, a, m), m !in n.ack[a] && !m.Unknown?;
            && n'.ack == n.ack[a := n.ack[a] + {m}]
            && n'.consumed == n.consumed[a := n.consumed[a] + (if handled then [m] else [])]
            && n'.inFlight == n.inFlight - multiset{(a, m)} + (if handled then Sent(net, a, m) else multiset{})
            && n'.held == n.held && n'.forwards == n.forwards
  {
    if m in n.ack[a] {
      assert n.ack[a] + {m} == n.ack[a];
    }
    assert n.ack[a := n.ack[a]] == n.ack;
    assert n.consumed[a] + [] == n.consumed[a] && n.consumed[a := n.consumed[a]] == n.consumed;
    assert n.held + multiset{(a, m)} - multiset{(a, m)} == n.held;
    assert n.forwards + multiset{(a, m)} - multiset{(a, m)} == n.forwards;
  }

  /** In every run: when a node's consumer gets a message, it is one message, which the node will forward; a
      transaction or a block request it will also broadcast once more, and nothing else. */
  lemma EchoOwed(net: Topology, states: seq<Network>, i: nat, a: Addr) returns (m: NetMessage)
    requires Wellformed(net) && GossipRun(net, states) && i + 1 < |states| && a < |net.links|
    requires |states[i].consumed| == |states[i + 1].consumed| == |net.links|
    requires states[i + 1].consumed[a] != states[i].consumed[a]
    ensures states[i + 1].consumed == states[i].consumed[a := states[i].consumed[a] + [m]]
    ensures states[i + 1].forwards == states[i].forwards + multiset{(a, m)}
    ensures states[i + 1].owed
         == states[i].owed + (if m.BroadcastTx? || m.RequestBlock? then multiset{(a, m)} else multiset{})
  {
    assert GossipStepAt(net, states, i);
    m := Consumes(net, states[i], states[i + 1], a);
  }

  lemma Consumes(net: Topology, n: Network, n': Network, a: Addr) returns (m: NetMessage)
    requires GossipStep(net, n, n') && a < |net.links|
    requires |n.consumed| == |n'.consumed| == |net.links| && n'.consumed[a] != n.consumed[a]
    ensures n'.consumed == n.consumed[a := n.consumed[a] + [m]]
    ensures n'.forwards == n.forwards + multiset{(a, m)}
    ensures n'.owed == n.owed + (if m.BroadcastTx? || m.RequestBlock? then multiset{(a, m)} else multiset{})
  {
    assert Internal(net, n, n');
    var kind, b, x :| b < |net.links| && (b, x) in Pending(n, kind) && n' == Perform(net, n, kind, b, x);
    PerformConsumes(net, n, kind, b, x, a);
    m := x;
  }

  lemma PerformConsumes(net: Topology, n: Network, kind: Kind, b: Addr, m: NetMessage, a: Addr)
    requires Shape(net, n) && a < |net.links| && b < |net.links|
    requires Perform(net, n, kind, b, m).consumed[a] != n.consumed[a]
    ensures kind == HandOver && b == a
  {
  }

  /** Receiving in place has the effect of the network's three steps on a node. */
  method ReceiveMatches(net: Topology, n: Network, a: Addr, m: NetMessage, node: P2PNode)
    requires Shape(net, n) && a < |net.links| && (a, m) in n.inFlight
    requires node.neighbors == net.links[a] && node.ack == n.ack[a] && node.consumer == n.consumed[a]
    requires node.outgoing == []
    modifies node
    ensures ReceiveAt(net, n, a, m).ack == n.ack[a := node.ack]
    ensures ReceiveAt(net, n, a, m).consumed == n.consumed[a := node.consumer]
    ensures ReceiveAt(net, n, a, m).inFlight == n.inFlight - multiset{(a, m)} + multiset(node.outgoing)
    ensures ReceiveAt(net, n, a, m).held == n.held && ReceiveAt(net, n, a, m).forwards == n.forwards
  {
    node.Receive(m);
    ReceiveEffect(net, n, a, m);
    assert [] + Copies(net.links[a], m) == Copies(net.links[a], m);
  }

  /** And broadcasting in place that of the network's two. */
  method BroadcastMatches(net: Topology, n: Network, a: Addr, m: NetMessage, node: P2PNode)
    requires Shape(net, n) && a < |net.links|
    requires node.neighbors == net.links[a] && node.ack == n.ack[a] && node.consumer == n.consumed[a]
    requires node.outgoing == []
    modifies node
    ensures var n' := ForwardAt(net, BroadcastAt(net, n, a, m), a, m);
            && n'.ack == n.ack[a := node.ack] && n'.consumed == n.consumed[a := node.consumer]
            && n'.inFlight == n.inFlight + multiset(node.outgoing)
            && n'.forwards == n.forwards
  {
    node.Broadcast(m);
    assert n.consumed[a := n.consumed[a]] == n.consumed;
    assert [] + Copies(net.links[a], m) == Copies(net.links[a], m);
  }
}
