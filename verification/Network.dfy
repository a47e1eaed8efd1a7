/** N subscribed nodes on one multicast group with loopback. Every datagram sent reaches
    every node's queue, from which the network may drop it; nodes call ud_chck_msg in any
    order. The PING/PONG exchange quiesces. */
module Network {
  import opened Wrappers
  import opened Wire
  import opened Engine
  import opened Publisher
  import opened Subscriber
  import opened PingCodec

  // --- what one check sends ---

  function FlushSent(s: Sock, ok: bool): seq<Sent> {
    if s.pend != [] && ok then [Sent(false, Header(s.pno, s.svc) + s.pend)] else []
  }

  /** The datagrams sent in reaction to the control message in the buffer. */
  function Reaction(s: Sock, g: Pong, io: Io): seq<Sent>
    requires Sane(s)
  {
    if Service(s) != PING || !Identify(g, io).1 then []
    else
      var f := FlushSent(s, io.flushOk);
      var g1 := Identify(g, io).0;
      f + if io.ctrlOk then [Sent(true, PingDatagram(s.pno + |f|, KPong, g1.pid, g1.host))] else []
  }

  lemma FlushSends(s: Sock, ok: bool)
    requires Sane(s)
    ensures var t := Flush(s, ok).0;
      && t.out == s.out + FlushSent(s, ok) && t.pno == s.pno + |FlushSent(s, ok)|
      && ((t.pend == s.pend && t.svc == s.svc && FlushSent(s, ok) == []) || t.pend == [])
  {
  }

  /** Only service 0xff04 on the control channel is ever replied to. */
  lemma CheckSends(s: Sock, g: Pong, io: Io)
    requires Sane(s)
    ensures var t := CheckCmsg(s, g, io).0;
      && t.out == s.out + Reaction(s, g, io)
      && (t.pend == [] || (t.pend == s.pend && t.svc == s.svc))
  {
    var g1 := Identify(g, io).0;
    FlushSends(s, io.flushOk);
    PackPingSends(s, g1, KPong, g1.pid, g1.host, io);
    assert Service(s) / 0x100 == CHN_CTRL && Service(s) % 0x100 == 4 <==> Service(s) == PING;
  }

  // --- weights ---

  const PONG_WEIGHT := 34

  /** What one ud_chck_msg call on a datagram of this service may cost. */
  function Rate(n: nat, svc: u16): nat {
    if svc == PING then 1 + n * PONG_WEIGHT else 1
  }

  function Half(len: nat): nat {
    (len + 1) / 2
  }

  function Weight(n: nat, d: seq<byte>): nat {
    if |d| < HDR then 1
    else (Half((if |d| <= ETH_MTU then |d| else ETH_MTU) - HDR) + 1) * Rate(n, Be16(d, 4))
  }

  function RxWeight(n: nat, s: Sock): nat {
    if s.nrd > 0 then (Room(s) + 1) * Rate(n, Service(s)) else 0
  }

  function PendWeight(n: nat, s: Sock): nat {
    if s.pend == [] then 0 else n * ((Half(|s.pend|) + 1) * Rate(n, s.svc))
  }

  function SockWeight(n: nat, s: Sock): nat {
    RxWeight(n, s) + PendWeight(n, s)
  }

  // --- measures of nodes and queues ---

  /** The cost still to come, and the answers given and owed. */
  datatype Measure = Cost(n: nat) | Answers

  function OfNode(mu: Measure, x: Node): nat {
    match mu
    case Cost(n) => SockWeight(n, x.s)
    case Answers => Pongs(x.s.out) + Owed(x.s)
  }

  function OfDatagram(mu: Measure, d: seq<byte>): nat {
    match mu
    case Cost(n) => Weight(n, d)
    case Answers => OwedBy(d)
  }

  function OfQueue(mu: Measure, ds: seq<seq<byte>>): nat {
    if ds == [] then 0 else OfDatagram(mu, ds[0]) + OfQueue(mu, ds[1..])
  }

  function Total(mu: Measure, nodes: seq<Node>, queues: seq<seq<seq<byte>>>): nat
    requires |nodes| == |queues|
  {
    if nodes == [] then 0
    else OfNode(mu, nodes[0]) + OfQueue(mu, queues[0]) + Total(mu, nodes[1..], queues[1..])
  }

  lemma {:induction false} QueueConcat(mu: Measure, a: seq<seq<byte>>, b: seq<seq<byte>>)
    ensures OfQueue(mu, a + b) == OfQueue(mu, a) + OfQueue(mu, b)
  {
    hide OfDatagram;
    if a == [] {
      assert a + b == b;
    } else {
      QueueConcat(mu, a[1..], b);
      assert (a + b)[1..] == a[1..] + b;
    }
  }

  lemma QueueOne(mu: Measure, d: seq<byte>)
    ensures OfQueue(mu, [d]) == OfDatagram(mu, d)
  {
    hide OfDatagram;
    assert OfQueue(mu, [d]) == OfDatagram(mu, d) + OfQueue(mu, []);
  }

  lemma QueueRemove(mu: Measure, q: seq<seq<byte>>, k: nat)
    requires k < |q|
    ensures OfQueue(mu, q) == OfQueue(mu, q[..k] + q[k + 1..]) + OfDatagram(mu, q[k])
  {
    hide OfDatagram;
    assert q == q[..k] + ([q[k]] + q[k + 1..]);
    QueueConcat(mu, q[..k], [q[k]] + q[k + 1..]);
    QueueConcat(mu, [q[k]], q[k + 1..]);
    QueueOne(mu, q[k]);
    QueueConcat(mu, q[..k], q[k + 1..]);
  }

  lemma {:induction false} TotalUpdate(mu: Measure, nodes: seq<Node>, queues: seq<seq<seq<byte>>>,
                                       i: nat, x: Node, q: seq<seq<byte>>)
    requires |nodes| == |queues| && i < |nodes|
    ensures Total(mu, nodes[i := x], queues[i := q]) + OfNode(mu, nodes[i]) + OfQueue(mu, queues[i])
         == Total(mu, nodes, queues) + OfNode(mu, x) + OfQueue(mu, q)
  {
    hide OfNode, OfQueue;
    if i == 0 {
      assert nodes[i := x][1..] == nodes[1..] && queues[i := q][1..] == queues[1..];
    } else {
      TotalUpdate(mu, nodes[1..], queues[1..], i - 1, x, q);
      assert nodes[i := x][1..] == nodes[1..][i - 1 := x];
      assert queues[i := q][1..] == queues[1..][i - 1 := q];
    }
  }

  function Broadcast(queues: seq<seq<seq<byte>>>, ds: seq<seq<byte>>): (r: seq<seq<seq<byte>>>)
    ensures |r| == |queues|
    ensures forall j :: 0 <= j < |queues| ==> r[j] == queues[j] + ds
  {
    seq(|queues|, j requires 0 <= j < |queues| => queues[j] + ds)
  }

  lemma OneMore(a: nat, w: nat)
    ensures (a + 1) * w == a * w + w
  {
  }

  lemma {:induction false} TotalBroadcast(mu: Measure, nodes: seq<Node>, queues: seq<seq<seq<byte>>>,
                                          ds: seq<seq<byte>>)
    requires |nodes| == |queues|
    ensures Total(mu, nodes, Broadcast(queues, ds)) == Total(mu, nodes, queues) + |nodes| * OfQueue(mu, ds)
  {
    if nodes != [] {
      TotalBroadcast(mu, nodes[1..], queues[1..], ds);
      assert Broadcast(queues, ds)[1..] == Broadcast(queues[1..], ds);
      QueueConcat(mu, queues[0], ds);
      hide OfNode, OfQueue;
      OneMore(|nodes| - 1, OfQueue(mu, ds));
    }
  }

  // --- answers given and owed ---

  function Pongs(out: seq<Sent>): nat {
    if out == [] then 0
    else
      var last := out[|out| - 1];
      Pongs(out[..|out| - 1]) +
      if last.ctrl && |last.bytes| >= HDR && Be16(last.bytes, 4) == PONG then 1 else 0
  }

  /** Calls that have still to look at a tag of the PING datagram in the buffer. */
  function Owed(s: Sock): nat {
    if Service(s) == PING then Looks(Unread(s)) else 0
  }

  /** Calls that look at a tag of a datagram, if it is a PING. */
  function OwedBy(d: seq<byte>): nat {
    if Acceptable(d) && Be16(d, 4) == PING then Looks(Payload(d)) else 0
  }

  lemma WeightPositive(n: nat, d: seq<byte>)
    ensures Weight(n, d) >= 1
  {
    if |d| >= HDR {
      var h := Half((if |d| <= ETH_MTU then |d| else ETH_MTU) - HDR);
      Grows(0, h, Rate(n, Be16(d, 4)));
    }
  }

  lemma Grows(a: nat, b: nat, r: nat)
    requires a <= b
    ensures (a + 1) * r <= (b + 1) * r
    ensures a < b ==> (a + 1) * r + r <= (b + 1) * r
  {
    assert (b + 1) * r == (a + 1) * r + (b - a) * r;
    if a < b {
      assert (b - a) * r == r + (b - a - 1) * r;
    }
  }

  /** A flush moves the weight of the pending batch onto the wire. */
  lemma FlushWeight(n: nat, s: Sock, ok: bool)
    requires Sane(s)
    ensures PendWeight(n, Flush(s, ok).0) + n * OfQueue(Cost(n), Bytes(FlushSent(s, ok))) == PendWeight(n, s)
  {
    if s.pend != [] && ok {
      var d := Header(s.pno, s.svc) + s.pend;
      DecodeDatagram(s.pno, s.svc, s.pend);
      assert Bytes(FlushSent(s, ok)) == [d];
      QueueOne(Cost(n), d);
    }
  }

  lemma PongWeight(n: nat, pno: nat, pid: u32, host: seq<byte>)
    ensures Weight(n, PingDatagram(pno, KPong, pid, host)) <= PONG_WEIGHT
  {
    PingDatagramFormat(pno, KPong, pid, host);
  }

  /** A reaction adds at most one PONG's weight at each node. */
  lemma ReactionWeight(n: nat, s: Sock, g: Pong, io: Io)
    requires Sane(s)
    ensures PendWeight(n, CheckCmsg(s, g, io).0) + n * OfQueue(Cost(n), Bytes(Reaction(s, g, io)))
         <= PendWeight(n, s) + if Service(s) == PING then n * PONG_WEIGHT else 0
  {
    hide PingDatagram, Weight, FlushSent;
    var r := Reaction(s, g, io);
    var g1, ok := Identify(g, io).0, Identify(g, io).1;
    if Service(s) != PING || !ok {
      assert r == [] && Bytes(r) == [];
    } else {
      var f := FlushSent(s, io.flushOk);
      var pong := PingDatagram(s.pno + |f|, KPong, g1.pid, g1.host);
      FlushSends(s, io.flushOk);
      FlushWeight(n, s, io.flushOk);
      PackPingSends(s, g1, KPong, g1.pid, g1.host, io);
      var t := CheckCmsg(s, g, io).0;
      assert PendWeight(n, t) == PendWeight(n, Flush(s, io.flushOk).0);
      if io.ctrlOk {
        assert Bytes(r) == Bytes(f) + [pong];
        QueueConcat(Cost(n), Bytes(f), [pong]);
        QueueOne(Cost(n), pong);
        PongWeight(n, s.pno + |f|, g1.pid, g1.host);
        Distribute(n, OfQueue(Cost(n), Bytes(f)), Weight(n, pong), PONG_WEIGHT);
      } else {
        assert r == f;
      }
    }
  }

  lemma Distribute(n: nat, a: nat, b: nat, c: nat)
    requires b <= c
    ensures n * (a + b) <= n * a + n * c
  {
    assert n * (a + b) == n * a + n * b;
    assert n * (c - b) >= 0;
  }

  lemma NextPend(n: nat, s: Sock, g: Pong, io: Io)
    requires Sane(s) && s.nck < s.nrd
    ensures var c := NextMsg(s, g, io);
      && c.s.out == s.out + Reaction(s, g, io)
      && PendWeight(n, c.s) == PendWeight(n, CheckCmsg(s, g, io).0)
  {
    CheckSends(s, g, io);
    hide CheckCmsg, Reaction, Rate, Half;
  }

  lemma NextRx(n: nat, s: Sock, g: Pong, io: Io)
    requires Sane(s) && s.nck < s.nrd
    ensures RxWeight(n, NextMsg(s, g, io).s) + Rate(n, Service(s)) <= RxWeight(n, s)
  {
    var t := NextMsg(s, g, io).s;
    var r := Rate(n, Service(s));
    if t.nrd > 0 {
      assert t.mem == s.mem && t.nrd == s.nrd && Room(t) < Room(s);
      Grows(Room(t), Room(s), r);
    } else {
      Grows(0, Room(s), r);
    }
  }

  /** Taking a record under the cursor costs weight, sends included. */
  lemma NextWeight(n: nat, s: Sock, g: Pong, io: Io)
    requires Sane(s) && s.nck < s.nrd
    ensures var c := NextMsg(s, g, io);
      && c.s.out == s.out + Reaction(s, g, io)
      && SockWeight(n, c.s) + n * OfQueue(Cost(n), Bytes(Reaction(s, g, io))) < SockWeight(n, s)
  {
    NextPend(n, s, g, io);
    ReactionWeight(n, s, g, io);
    NextRx(n, s, g, io);
    hide NextMsg, CheckCmsg, Reaction, RxWeight, PendWeight, OfQueue, Bytes;
  }

  // --- one node ---

  /** The datagram a call takes from the queue, and what remains. */
  function Arrival(s: Sock, q: seq<seq<byte>>, k: nat): Option<seq<byte>> {
    if Reads(s) && k < |q| then Some(q[k]) else None
  }

  function Rest(s: Sock, q: seq<seq<byte>>, k: nat): seq<seq<byte>> {
    if Reads(s) && k < |q| then q[..k] + q[k + 1..] else q
  }

  /** The state in which a call looks for a record. */
  function Prepared(s: Sock, arrival: Option<seq<byte>>): (t: Sock)
    requires Sane(s)
    ensures Sane(t) && t.pend == s.pend && t.svc == s.svc && t.out == s.out && t.pno == s.pno
  {
    Refill(s, arrival).0
  }

  /** What a call of ud_chck_msg sends. */
  function CheckSent(s: Sock, g: Pong, io: Io): seq<Sent>
    requires Sane(s)
  {
    var t := Prepared(s, io.arrival);
    if t.nck < t.nrd then Reaction(t, g, io) else []
  }

  /** Fetching moves at most the datagram's weight into the receive side. */
  lemma FetchWeight(n: nat, s: Sock, d: seq<byte>)
    requires Sane(s) && s.nrd == 0
    ensures var t := Discard(s, Some(d)).0;
      && (t.nrd == 0 ==> t.nck == 0)
      && RxWeight(n, t) <= Weight(n, d)
      && PendWeight(n, t) == PendWeight(n, s)
  {
    var m := Deposit(s.mem, d);
    if |d| >= HDR {
      assert m[4] == d[4] && m[5] == d[5];
    }
  }

  lemma CheckWeight(n: nat, s: Sock, g: Pong, io: Io)
    requires Sane(s)
    ensures var c := CheckMsg(s, g, io);
      && c.s.out == s.out + CheckSent(s, g, io)
      && var before := SockWeight(n, s)
           + if Reads(s) && io.arrival != None then Weight(n, io.arrival.value) else 0;
         var after := SockWeight(n, c.s) + n * OfQueue(Cost(n), Bytes(CheckSent(s, g, io)));
         if s.nrd > 0 || io.arrival != None then after < before else after == before
  {
    var t := Prepared(s, io.arrival);
    if Reads(s) && io.arrival != None {
      FetchWeight(n, s, io.arrival.value);
      WeightPositive(n, io.arrival.value);
    }
    assert Bytes([]) == [];
    if t.nck < t.nrd {
      assert CheckMsg(s, g, io) == NextMsg(t, g, io);
      NextWeight(n, t, g, io);
    } else if s.nrd > 0 {
      Grows(0, Room(s), Rate(n, Service(s)));
    }
  }

  // --- the network ---

  datatype Net = Net(nodes: seq<Node>, queues: seq<seq<seq<byte>>>)

  ghost predicate NetSane(net: Net) {
    |net.nodes| == |net.queues| && forall i :: 0 <= i < |net.nodes| ==> Sane(net.nodes[i].s)
  }

  datatype Move =
    | Check(i: nat, k: nat, io: Io)
    | Drop(i: nat, k: nat)

  /** A move that does something: a call that finds a datagram fetched or waiting, or a loss. */
  predicate Productive(net: Net, m: Move)
    requires NetSane(net)
  {
    && m.i < |net.nodes|
    && match m
       case Check(i, k, io) => net.nodes[i].s.nrd > 0 || k < |net.queues[i]|
       case Drop(i, k) => k < |net.queues[i]|
  }

  /** The environment of a call: the kernel hands over datagram k, if a read happens. */
  function MoveIo(net: Net, m: Move): Io
    requires NetSane(net) && m.Check? && m.i < |net.nodes|
  {
    m.io.(arrival := Arrival(net.nodes[m.i].s, net.queues[m.i], m.k))
  }

  function Next(net: Net, m: Move): (r: Net)
    requires NetSane(net) && m.i < |net.nodes|
    ensures NetSane(r) && |r.nodes| == |net.nodes|
  {
    var q := net.queues[m.i];
    match m
    case Check(i, k, _) =>
      var n, io := net.nodes[i], MoveIo(net, m);
      var c := CheckMsg(n.s, n.g, io);
      Net(net.nodes[i := Node(c.s, c.g)],
          Broadcast(net.queues[i := Rest(n.s, q, k)], Bytes(CheckSent(n.s, n.g, io))))
    case Drop(i, k) =>
      if k < |q| then net.(queues := net.queues[i := q[..k] + q[k + 1..]]) else net
  }

  function NetPotential(net: Net): nat
    requires NetSane(net)
  {
    Total(Cost(|net.nodes|), net.nodes, net.queues)
  }

  /** Every productive move lowers the potential, whatever fails or is malformed. */
  lemma MoveDecreases(net: Net, m: Move)
    requires NetSane(net) && Productive(net, m)
    ensures NetPotential(Next(net, m)) < NetPotential(net)
  {
    var n := |net.nodes|;
    var q := net.queues[m.i];
    var node := net.nodes[m.i];
    if m.k < |q| {
      QueueRemove(Cost(n), q, m.k);
      WeightPositive(n, q[m.k]);
    }
    match m {
      case Drop(i, k) =>
        assert net.nodes[i := node] == net.nodes;
        TotalUpdate(Cost(n), net.nodes, net.queues, i, node, q[..k] + q[k + 1..]);
      case Check(i, k, _) =>
        var io := MoveIo(net, m);
        var c := CheckMsg(node.s, node.g, io);
        CheckWeight(n, node.s, node.g, io);
        hide CheckMsg, CheckSent;
        TotalUpdate(Cost(n), net.nodes, net.queues, i, Node(c.s, c.g), Rest(node.s, q, k));
        TotalBroadcast(Cost(n), net.nodes[i := Node(c.s, c.g)], net.queues[i := Rest(node.s, q, k)],
                           Bytes(CheckSent(node.s, node.g, io)));
    }
  }

  // --- quiescence ---

  ghost predicate AllProductive(net: Net, ms: seq<Move>)
    requires NetSane(net)
    decreases |ms|
  {
    ms == [] || (Productive(net, ms[0]) && AllProductive(Next(net, ms[0]), ms[1..]))
  }

  function After(net: Net, ms: seq<Move>): (r: Net)
    requires NetSane(net) && AllProductive(net, ms)
    ensures NetSane(r) && |r.nodes| == |net.nodes|
    decreases |ms|
  {
    if ms == [] then net else After(Next(net, ms[0]), ms[1..])
  }

  ghost predicate Quiet(net: Net)
    requires NetSane(net)
  {
    forall i :: 0 <= i < |net.nodes| ==> net.nodes[i].s.nrd == 0 && net.queues[i] == []
  }

  /** No run of productive moves is longer than the initial potential: without new packs
      or PINGs the exchange dies out, under any losses, failures and payload bytes. */
  lemma {:induction false} Quiesces(net: Net, ms: seq<Move>)
    requires NetSane(net) && AllProductive(net, ms)
    ensures |ms| + NetPotential(After(net, ms)) <= NetPotential(net)
    decreases |ms|
  {
    if ms != [] {
      MoveDecreases(net, ms[0]);
      Quiesces(Next(net, ms[0]), ms[1..]);
    }
  }

  /** A run can be continued exactly until the network is quiet. */
  lemma StuckIffQuiet(net: Net, io: Io)
    requires NetSane(net)
    ensures Quiet(net) <==> !exists m: Move :: m.Check? && m.io == io && Productive(net, m)
  {
    if !Quiet(net) {
      var i :| 0 <= i < |net.nodes| && !(net.nodes[i].s.nrd == 0 && net.queues[i] == []);
      assert Productive(net, Check(i, 0, io));
    }
  }
}
