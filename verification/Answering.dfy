/** Every call that looks at a tag of a PING datagram gives one PONG: one per record, and one
    more exactly where a wrong tag ends a payload. Conserved at every node of a network, so
    one PING sent into a quiet network of N nodes draws one PONG from each. */
module Answering {
  import opened Wrappers
  import opened Wire
  import opened Engine
  import opened Publisher
  import opened Subscriber
  import opened PingCodec
  import opened Network

  // --- what one call answers ---

  lemma PongsAppend(out: seq<Sent>, x: Sent)
    ensures Pongs(out + [x])
         == Pongs(out) + if x.ctrl && |x.bytes| >= HDR && Be16(x.bytes, 4) == PONG then 1 else 0
  {
    assert (out + [x])[..|out|] == out;
  }

  lemma FlushPongs(s: Sock, ok: bool)
    ensures Pongs(s.out + FlushSent(s, ok)) == Pongs(s.out)
  {
    if s.pend != [] && ok {
      PongsAppend(s.out, Sent(false, Header(s.pno, s.svc) + s.pend));
    } else {
      assert s.out + [] == s.out;
    }
  }

  lemma OneMorePong(out: seq<Sent>, f: seq<Sent>, d: seq<byte>)
    requires Pongs(out + f) == Pongs(out) && |d| >= HDR
    ensures Pongs(out + (f + [Sent(true, d)])) == Pongs(out) + if Be16(d, 4) == PONG then 1 else 0
  {
    PongsAppend(out + f, Sent(true, d));
    hide Pongs;
    assert out + (f + [Sent(true, d)]) == (out + f) + [Sent(true, d)];
  }

  lemma PingSvc(pno: nat, k: Kind, pid: u32, host: seq<byte>)
    ensures var d := PingDatagram(pno, k, pid, host); |d| >= HDR && Be16(d, 4) == KindSvc(k)
  {
    Prefixed(Header(pno, KindSvc(k)), Record(Inscription(pid, host)));
  }

  /** A control message after a flush: it alone counts, if it is a PONG. */
  lemma CtrlPongs(s: Sock, ok: bool, k: Kind, pid: u32, host: seq<byte>)
    ensures var f := FlushSent(s, ok);
      Pongs(s.out + (f + [Sent(true, PingDatagram(s.pno + |f|, k, pid, host))]))
        == Pongs(s.out) + if k == KPong then 1 else 0
  {
    hide PingDatagram, FlushSent, Pongs;
    var f := FlushSent(s, ok);
    FlushPongs(s, ok);
    PingSvc(s.pno + |f|, k, pid, host);
    OneMorePong(s.out, f, PingDatagram(s.pno + |f|, k, pid, host));
  }

  lemma PingOwes(pno: nat, k: Kind, pid: u32, host: seq<byte>)
    ensures OwedBy(PingDatagram(pno, k, pid, host)) == if k == KPing then 1 else 0
  {
    var d, b := PingDatagram(pno, k, pid, host), Inscription(pid, host);
    PingDatagramFormat(pno, k, pid, host);
    Prefixed(Header(pno, KindSvc(k)), Record(b));
    RecordFramed(b);
    FramedWalks(Record(b));
    hide Looks, Records, Framed, Record, Inscription, Header, Decode;
    assert Payload(d) == Record(b);
  }

  lemma FlushOwes(s: Sock, ok: bool)
    requires s.svc != PING
    ensures OfQueue(Answers, Bytes(FlushSent(s, ok))) == 0
  {
    if s.pend != [] && ok {
      var d := Header(s.pno, s.svc) + s.pend;
      Prefixed(Header(s.pno, s.svc), s.pend);
      assert Bytes(FlushSent(s, ok)) == [d];
      QueueOne(Answers, d);
    } else {
      assert Bytes([]) == [];
    }
  }

  lemma OneMoreOwed(f: seq<Sent>, d: seq<byte>)
    requires OfQueue(Answers, Bytes(f)) == 0
    ensures OfQueue(Answers, Bytes(f + [Sent(true, d)])) == OwedBy(d)
  {
    QueueConcat(Answers, Bytes(f), [d]);
    QueueOne(Answers, d);
    hide OfQueue, OwedBy;
    assert Bytes(f + [Sent(true, d)]) == Bytes(f) + [d];
  }

  lemma CtrlOwes(s: Sock, ok: bool, k: Kind, pid: u32, host: seq<byte>)
    requires s.svc != PING
    ensures var f := FlushSent(s, ok);
      OfQueue(Answers, Bytes(f + [Sent(true, PingDatagram(s.pno + |f|, k, pid, host))])) == if k == KPing then 1 else 0
  {
    hide *;
    var f := FlushSent(s, ok);
    FlushOwes(s, ok);
    PingOwes(s.pno + |f|, k, pid, host);
    OneMoreOwed(f, PingDatagram(s.pno + |f|, k, pid, host));
  }

  /** A reaction holds one PONG, for a PING, with the identity known and the control send
      successful; other services draw nothing at all. */
  lemma ReactionPongs(s: Sock, g: Pong, io: Io)
    requires Sane(s)
    ensures var r := Reaction(s, g, io);
      && Pongs(s.out + r) == Pongs(s.out) + (if Service(s) == PING && io.ctrlOk && Identify(g, io).1 then 1 else 0)
      && (Service(s) != PING ==> r == [])
  {
    var g1, f := Identify(g, io).0, FlushSent(s, io.flushOk);
    hide Pongs, FlushSent, PingDatagram;
    FlushPongs(s, io.flushOk);
    CtrlPongs(s, io.flushOk, KPong, g1.pid, g1.host);
    assert s.out + [] == s.out && f + [] == f;
  }

  /** A reaction asks nothing. */
  lemma ReactionOwes(s: Sock, g: Pong, io: Io)
    requires Sane(s) && s.svc != PING
    ensures OfQueue(Answers, Bytes(Reaction(s, g, io))) == 0
  {
    var g1, f := Identify(g, io).0, FlushSent(s, io.flushOk);
    FlushOwes(s, io.flushOk);
    CtrlOwes(s, io.flushOk, KPong, g1.pid, g1.host);
    assert Bytes([]) == [] && f + [] == f && OfQueue(Answers, []) == 0;
    hide OfQueue, FlushSent, PingDatagram;
  }

  lemma NextOwes(s: Sock, g: Pong, io: Io)
    requires Sane(s) && s.nck < s.nrd
    ensures var c := NextMsg(s, g, io);
      && c.s.out == s.out + Reaction(s, g, io)
      && Owed(s) == Owed(c.s) + if Service(s) == PING then 1 else 0
  {
    var c := NextMsg(s, g, io);
    CheckSends(s, g, io);
    NextWalks(s, g, io);
    WalksLooks(s, c.got, c.s);
    NextService(s, g, io);
    hide NextMsg, CheckCmsg, Looks, Unread, Walks, Reaction;
  }

  lemma NextService(s: Sock, g: Pong, io: Io)
    requires Sane(s) && s.nck < s.nrd
    ensures var c := NextMsg(s, g, io);
      c.s.mem == s.mem && c.s.out == CheckCmsg(s, g, io).0.out
  {
  }

  lemma FetchOwes(s: Sock, d: seq<byte>)
    requires Sane(s) && s.nrd == 0
    ensures Owed(Discard(s, Some(d)).0) == OwedBy(d)
  {
    FetchIff(s, d);
    hide Looks;
    assert Looks([]) == 0;
  }

  /** A call answers what it looks at: with the identity known and the control send
      successful, PONGs given and looks due are conserved, whatever bytes arrive. */
  lemma CheckAnswers(s: Sock, g: Pong, io: Io)
    requires Sane(s) && io.ctrlOk && Identify(g, io).1
    ensures var c := CheckMsg(s, g, io);
      Pongs(c.s.out) + Owed(c.s) == Pongs(s.out) + Owed(s)
        + if Reads(s) && io.arrival != None then OwedBy(io.arrival.value) else 0
  {
    var t := Prepared(s, io.arrival);
    PreparedOwes(s, io.arrival);
    if t.nck < t.nrd {
      assert CheckMsg(s, g, io) == NextMsg(t, g, io);
      NextOwes(t, g, io);
      ReactionPongs(t, g, io);
    }
    hide Pongs, Owed, OwedBy, NextMsg, Reaction, Refill;
  }

  lemma PreparedOwes(s: Sock, arrival: Option<seq<byte>>)
    requires Sane(s)
    ensures Owed(Prepared(s, arrival)) ==
      Owed(s) + if Reads(s) && arrival != None then OwedBy(arrival.value) else 0
  {
    if Reads(s) && arrival != None {
      FetchOwes(s, arrival.value);
    }
    hide OwedBy;
  }

  /** What a call sends asks nothing, and leaves no PING pending. */
  lemma CheckOwes(s: Sock, g: Pong, io: Io)
    requires Sane(s) && s.svc != PING
    ensures OfQueue(Answers, Bytes(CheckSent(s, g, io))) == 0 && CheckMsg(s, g, io).s.svc != PING
  {
    var t := Prepared(s, io.arrival);
    ReactionOwes(t, g, io);
    CheckSends(t, g, io);
    CheckSendSide(s, g, io);
    assert Bytes([]) == [] && OfQueue(Answers, []) == 0;
    hide OfQueue, Reaction, CheckMsg, CheckCmsg;
  }

  lemma FetchedPing(s: Sock, d: seq<byte>)
    requires Sane(s) && s.nrd == 0
    ensures var t := Prepared(s, Some(d));
      && (t.nck < t.nrd <==> Acceptable(d) && PayloadSize(d) > 0)
      && (Acceptable(d) ==> Service(t) == Be16(d, 4))
  {
    AnyBytesFetch(s, d);
    FetchIff(s, d);
    hide Discard, Acceptable, PayloadSize, Service, Deposit;
  }

  /** A datagram is answered by one PONG in the call that fetches it exactly when it is an
      accepted PING with a nonempty payload, whatever that holds, the host name can be read
      and the send succeeds; no other service, 0xffff included, is replied to at all. */
  lemma AnsweredIff(s: Sock, g: Pong, io: Io, d: seq<byte>)
    requires Sane(s) && s.nrd == 0 && io.arrival == Some(d)
    ensures var c := CheckMsg(s, g, io);
      && Pongs(c.s.out) == Pongs(s.out) +
           (if Acceptable(d) && PayloadSize(d) > 0 && Be16(d, 4) == PING && io.ctrlOk && Identify(g, io).1
            then 1 else 0)
      && (!(Acceptable(d) && Be16(d, 4) == PING) ==> c.s.out == s.out)
  {
    hide Pongs, Reaction, Identify, CheckMsg, Acceptable, PayloadSize, Service, Prepared;
    FetchedPing(s, d);
    ReactionPongs(Prepared(s, io.arrival), g, io);
    CheckOut(s, g, io);
    assert s.out + [] == s.out;
  }

  lemma CheckOut(s: Sock, g: Pong, io: Io)
    requires Sane(s)
    ensures CheckMsg(s, g, io).s.out == s.out + CheckSent(s, g, io)
  {
    CheckSends(Prepared(s, io.arrival), g, io);
  }

  // --- draining one datagram ---

  /** PONGs given, and looks due in the buffer and in the queue. */
  function SubTally(n: Sub): nat {
    Pongs(n.s.out) + Owed(n.s) + OfQueue(Answers, n.queue)
  }

  predicate Answerable(io: Io) {
    io.ctrlOk && io.host != None
  }

  lemma OverOwed(s: Sock, b: Behind)
    requires Sane(s)
    ensures Owed(s.(mem := Over(s.mem, b))) == Owed(s)
  {
    var m := Over(s.mem, b);
    assert Unread(s.(mem := m)) == Unread(s);
  }

  lemma PollAnswers(n: Sub, c: Call)
    requires Sane(n.s) && Answerable(c.io)
    ensures SubTally(Poll(n, c).0) == SubTally(n)
  {
    var s := n.s.(mem := Over(n.s.mem, c.behind));
    OverOwed(n.s, c.behind);
    CheckAnswers(s, n.g, WithArrival(n, c.io));
    hide CheckMsg, Pongs, Owed, OwedBy, Over;
  }

  lemma {:induction false} DrainAnswers(n: Sub, calls: seq<Call>)
    requires Sane(n.s) && forall c :: c in calls ==> Answerable(c.io)
    ensures SubTally(Drain(n, calls).0) == SubTally(n)
    decreases |calls|
  {
    hide SubTally, Poll;
    if calls != [] {
      assert calls[0] in calls;
      PollAnswers(n, calls[0]);
      DrainAnswers(Poll(n, calls[0]).0, calls[1..]);
    }
  }

  predicate IsPing(d: seq<byte>) {
    Acceptable(d) && Be16(d, 4) == PING
  }

  /** Draining a PING datagram with sends succeeding draws one PONG per look, one per record
      and one more for a wrong tag that ends the walk: as many as messages are returned
      exactly when no wrong tag does. */
  lemma DrainPongs(n: Sub, calls: seq<Call>)
    requires Sane(n.s) && n.s.nrd == 0 && n.queue != [] && |calls| > (PayloadSize(n.queue[0]) + 1) / 2
    requires IsPing(n.queue[0]) && forall c :: c in calls ==> Answerable(c.io)
    ensures var (n', msgs, _) := Drain(n, calls);
      && Pongs(n'.s.out) == Pongs(n.s.out) + Looks(Payload(n.queue[0]))
      && (Pongs(n'.s.out) == Pongs(n.s.out) + |msgs| <==> Tagged(Payload(n.queue[0])))
  {
    var d := n.queue[0];
    var k := DrainedOver(n, calls);
    DrainAnswers(n, calls);
    FetchedReached(Over(n.s.mem, calls[k].behind), d);
    LooksReached(Payload(d));
    NothingOwed(n.s);
    NothingOwed(Drain(n, calls).0.s);
    hide Drain, Pongs, Owed, OfDatagram, Looks, Tagged, Reached, Payload, WalkFetched, Over;
    assert OfQueue(Answers, n.queue) == OfDatagram(Answers, d) + OfQueue(Answers, n.queue[1..]);
    assert OfDatagram(Answers, d) == Looks(Payload(d)) by { PingLooks(d); }
  }

  lemma PingLooks(d: seq<byte>)
    requires IsPing(d)
    ensures OfDatagram(Answers, d) == Looks(Payload(d))
  {
  }

  lemma NothingOwed(s: Sock)
    requires s.nrd == 0
    ensures Owed(s) == 0
  {
  }

  lemma FetchedReached(mem: Memory, d: seq<byte>)
    requires Acceptable(d)
    ensures |WalkFetched(mem, d)| == Reached(Payload(d))
  {
    DepositStarts(mem, d);
    WalkReached(Deposit(mem, d), PayloadSize(d), 0);
  }

  lemma OneWrongByte(s: Sock, pno: nat)
    requires Sane(s) && s.nrd == 0
    ensures var d := Header(pno, PING) + [0];
      var t := Discard(s, Some(d)).0;
      && IsPing(d) && PayloadSize(d) == 1
      && t.nrd == 1 && t.nck == 0 && t.mem[HDR] == 0
  {
    var d := Header(pno, PING) + [0];
    Prefixed(Header(pno, PING), [0]);
    AnyBytesFetch(s, d);
    assert Deposit(s.mem, d)[HDR] == d[HDR] == 0;
    hide Discard, Deposit, Header;
  }

  /** A PING whose one payload byte is no tag: no message, and yet one PONG. */
  lemma WrongTagAnswered(n: Sub, io: Io, pno: nat)
    requires Sane(n.s) && n.s.nrd == 0 && n.queue != [] && n.queue[0] == Header(pno, PING) + [0]
    requires Answerable(io)
    ensures var (n', got) := Subscriber.Check(n, io);
      got == None && Pongs(n'.s.out) == Pongs(n.s.out) + 1
  {
    hide CheckMsg, Pongs, Discard, Header, Acceptable, PayloadSize, Be16, Sane, RecordAt, LengthAt;
    OneWrongByte(n.s, pno);
    CheckWaiting(n, io);
    AnsweredIff(n.s, n.g, WithArrival(n, io), n.queue[0]);
  }

  // --- a network of answering nodes ---

  /** No node has data pending under the PING service. */
  ghost predicate NoPingPending(net: Net) {
    NetSane(net) && forall i :: 0 <= i < |net.nodes| ==> net.nodes[i].s.svc != PING
  }

  /** A call with the identity known and the control send successful. */
  predicate Served(net: Net, m: Move)
    requires NetSane(net)
  {
    m.Check? && m.i < |net.nodes| && m.io.ctrlOk && Identify(net.nodes[m.i].g, m.io).1
  }

  /** PONGs given by node j, and tags of PING datagrams it has still to look at. */
  function Tally(net: Net, j: nat): nat
    requires NetSane(net) && j < |net.nodes|
  {
    OfNode(Answers, net.nodes[j]) + OfQueue(Answers, net.queues[j])
  }

  ghost predicate SameTallies(net: Net, net': Net)
    requires NetSane(net) && NetSane(net')
  {
    |net'.nodes| == |net.nodes| && forall j :: 0 <= j < |net.nodes| ==> Tally(net', j) == Tally(net, j)
  }

  /** Changing node i and its queue and sending ds to all, at node j. */
  lemma TallyChange(net: Net, i: nat, x: Node, q: seq<seq<byte>>, ds: seq<seq<byte>>, j: nat)
    requires NetSane(net) && i < |net.nodes| && j < |net.nodes| && Sane(x.s)
    ensures Tally(Net(net.nodes[i := x], Broadcast(net.queues[i := q], ds)), j)
         == OfQueue(Answers, ds)
            + if j == i then OfNode(Answers, x) + OfQueue(Answers, q) else Tally(net, j)
  {
    hide OfNode, OfQueue;
    QueueConcat(Answers, net.queues[i := q][j], ds);
  }

  lemma RestAnswers(s: Sock, q: seq<seq<byte>>, k: nat)
    ensures OfQueue(Answers, q) == OfQueue(Answers, Rest(s, q, k)) +
      (if Reads(s) && Arrival(s, q, k) != None then OwedBy(Arrival(s, q, k).value) else 0)
  {
    if k < |q| {
      QueueRemove(Answers, q, k);
    }
  }

  /** What a served call puts in place of its node, of its queue and of what it sends. */
  lemma MoveTally(net: Net, m: Move, x: Node, q: seq<seq<byte>>, ds: seq<seq<byte>>, j: nat)
    requires NetSane(net) && m.i < |net.nodes| && j < |net.nodes| && Sane(x.s)
    requires Next(net, m) == Net(net.nodes[m.i := x], Broadcast(net.queues[m.i := q], ds))
    requires OfQueue(Answers, ds) == 0
    requires OfNode(Answers, x) + OfQueue(Answers, q)
          == OfNode(Answers, net.nodes[m.i]) + OfQueue(Answers, net.queues[m.i])
    ensures Tally(Next(net, m), j) == Tally(net, j)
  {
    hide OfNode, OfQueue, Next, Broadcast;
    TallyChange(net, m.i, x, q, ds, j);
  }

  /** A served call leaves every node's tally as it was. */
  lemma MoveAnswers(net: Net, m: Move)
    requires NoPingPending(net) && Served(net, m)
    ensures NoPingPending(Next(net, m)) && SameTallies(net, Next(net, m))
  {
    var q, x, io := net.queues[m.i], net.nodes[m.i], MoveIo(net, m);
    var c := CheckMsg(x.s, x.g, io);
    var ds := Bytes(CheckSent(x.s, x.g, io));
    assert Next(net, m) == Net(net.nodes[m.i := Node(c.s, c.g)], Broadcast(net.queues[m.i := Rest(x.s, q, m.k)], ds));
    CheckAnswers(x.s, x.g, io);
    CheckOwes(x.s, x.g, io);
    RestAnswers(x.s, q, m.k);
    hide CheckMsg, CheckSent, Pongs, Owed, OwedBy, OfQueue, Next, Broadcast, Tally;
    forall j | 0 <= j < |net.nodes| ensures Tally(Next(net, m), j) == Tally(net, j) {
      MoveTally(net, m, Node(c.s, c.g), Rest(x.s, q, m.k), ds, j);
    }
  }

  ghost predicate AllServed(net: Net, ms: seq<Move>)
    requires NetSane(net)
    decreases |ms|
  {
    ms == [] || (Served(net, ms[0]) && AllServed(Next(net, ms[0]), ms[1..]))
  }

  function Serve(net: Net, ms: seq<Move>): (r: Net)
    requires NetSane(net) && AllServed(net, ms)
    ensures NetSane(r) && |r.nodes| == |net.nodes|
    decreases |ms|
  {
    if ms == [] then net else Serve(Next(net, ms[0]), ms[1..])
  }

  /** A loss-free exchange, every call with identity known and send successful, to quiet. */
  ghost predicate Settles(net: Net, ms: seq<Move>)
    requires NetSane(net)
  {
    AllServed(net, ms) && Quiet(Serve(net, ms))
  }

  lemma {:induction false} ServeConserves(net: Net, ms: seq<Move>)
    requires NoPingPending(net) && AllServed(net, ms)
    ensures NoPingPending(Serve(net, ms)) && SameTallies(net, Serve(net, ms))
    decreases |ms|
  {
    hide Tally, Next;
    if ms != [] {
      MoveAnswers(net, ms[0]);
      ServeConserves(Next(net, ms[0]), ms[1..]);
    }
  }

  lemma QuietTally(net: Net, j: nat)
    requires NetSane(net) && Quiet(net) && j < |net.nodes|
    ensures Tally(net, j) == Pongs(net.nodes[j].s.out)
  {
  }

  /** Once a loss-free exchange is quiet, each node has given exactly one PONG for every look
      at a PING datagram that was in its queue or its receive buffer, and no other. */
  lemma EveryPingAnswered(net: Net, ms: seq<Move>, j: nat)
    requires NoPingPending(net) && Settles(net, ms) && j < |net.nodes|
    ensures Pongs(Serve(net, ms).nodes[j].s.out)
         == Pongs(net.nodes[j].s.out) + Owed(net.nodes[j].s) + OfQueue(Answers, net.queues[j])
  {
    ServeConserves(net, ms);
    QuietTally(Serve(net, ms), j);
    hide Pongs, Owed, OfQueue, Serve, NoPingPending;
    assert Tally(Serve(net, ms), j) == Tally(net, j);
  }

  /** Records in a queue's PING datagrams. */
  function QueueRecords(q: seq<seq<byte>>): nat {
    if q == [] then 0
    else (if IsPing(q[0]) then Reached(Payload(q[0])) else 0) + QueueRecords(q[1..])
  }

  lemma {:induction false} QueueLooks(q: seq<seq<byte>>)
    ensures OfQueue(Answers, q) >= QueueRecords(q)
    ensures OfQueue(Answers, q) == QueueRecords(q) <==> forall d :: d in q && IsPing(d) ==> Tagged(Payload(d))
  {
    if q != [] {
      QueueLooks(q[1..]);
      LooksReached(Payload(q[0]));
      hide Looks, Reached, Tagged, Payload, Acceptable;
      assert q == [q[0]] + q[1..];
    }
  }

  /** Records in PING datagrams at node j, fetched or queued. */
  function RecordsDue(net: Net, j: nat): nat
    requires NetSane(net) && j < |net.nodes|
  {
    var s := net.nodes[j].s;
    (if Service(s) == PING then Reached(Unread(s)) else 0) + QueueRecords(net.queues[j])
  }

  /** No PING datagram at node j is ended by a wrong tag. */
  ghost predicate AllTagged(net: Net, j: nat)
    requires NetSane(net) && j < |net.nodes|
  {
    var s := net.nodes[j].s;
    && (Service(s) == PING ==> Tagged(Unread(s)))
    && forall d :: d in net.queues[j] && IsPing(d) ==> Tagged(Payload(d))
  }

  /** The exchange answers each PING record at a node by exactly one PONG, and gives no
      other, if and only if no wrong tag ends one of the PING datagrams there. */
  lemma OncePerRecordIff(net: Net, ms: seq<Move>, j: nat)
    requires NoPingPending(net) && Settles(net, ms) && j < |net.nodes|
    ensures Pongs(Serve(net, ms).nodes[j].s.out) == Pongs(net.nodes[j].s.out) + RecordsDue(net, j)
      <==> AllTagged(net, j)
  {
    EveryPingAnswered(net, ms, j);
    QueueLooks(net.queues[j]);
    LooksReached(Unread(net.nodes[j].s));
    hide Pongs, OfQueue, Serve, NoPingPending, Settles, QueueRecords, Looks, Reached, Tagged, Unread, IsPing;
  }

  lemma NothingToServe(net: Net)
    requires NetSane(net) && Quiet(net)
    ensures Settles(net, [])
  {
    hide Quiet;
  }

  lemma SettlesCons(net: Net, m: Move, rest: seq<Move>)
    requires NetSane(net) && Served(net, m) && Settles(Next(net, m), rest)
    ensures Settles(net, [m] + rest)
  {
    hide Served, Next, Quiet;
    assert ([m] + rest)[1..] == rest;
  }

  /** A network that is not quiet has a served call that lowers its potential. */
  lemma ServeOne(net: Net, io: Io) returns (m: Move)
    requires NetSane(net) && !Quiet(net) && Answerable(io)
    ensures m.i < |net.nodes| && Served(net, m)
    ensures NetPotential(Next(net, m)) < NetPotential(net)
  {
    var i :| 0 <= i < |net.nodes| && !(net.nodes[i].s.nrd == 0 && net.queues[i] == []);
    m := Check(i, 0, io);
    hide Next, NetPotential;
    MoveDecreases(net, m);
  }

  /** Served calls that make the network quiet. */
  lemma {:induction false} Settle(net: Net, io: Io) returns (ms: seq<Move>)
    requires NetSane(net) && Answerable(io)
    ensures Settles(net, ms) && |ms| <= NetPotential(net)
    decreases NetPotential(net)
  {
    hide *;
    if Quiet(net) {
      ms := [];
      NothingToServe(net);
    } else {
      var m := ServeOne(net, io);
      var rest := Settle(Next(net, m), io);
      ms := [m] + rest;
      SettlesCons(net, m, rest);
    }
  }

  /** Such an exchange always exists: some served calls make any network quiet, no more
      of them than its potential. */
  lemma CanSettle(net: Net, io: Io)
    requires NetSane(net) && Answerable(io)
    ensures exists ms :: Settles(net, ms) && |ms| <= NetPotential(net)
  {
    hide Settles, NetPotential;
    var ms := Settle(net, io);
  }

  // --- one PING, N PONGs ---

  /** Node i packs a PING; what it sends reaches every node. */
  function SendPing(net: Net, i: nat, io: Io): (r: Net)
    requires NetSane(net) && i < |net.nodes|
    ensures NetSane(r) && |r.nodes| == |net.nodes|
  {
    var x := net.nodes[i];
    var (s, g, _) := PackPong(x.s, x.g, KPing, io);
    Net(net.nodes[i := Node(s, g)], Broadcast(net.queues, Bytes(PingSent(x.s, x.g, io))))
  }

  function PingSent(s: Sock, g: Pong, io: Io): seq<Sent> {
    var (g1, known) := Identify(g, io);
    var f := FlushSent(s, io.flushOk);
    if !known then []
    else f + if io.ctrlOk then [Sent(true, PingDatagram(s.pno + |f|, KPing, g1.pid, g1.host))] else []
  }

  lemma PingShape(s: Sock, g: Pong, io: Io)
    requires Sane(s)
    ensures var t := PackPong(s, g, KPing, io).0;
      && t.out == s.out + PingSent(s, g, io) && SameReceiveSide(s, t)
      && (t.pend == [] || (t.pend == s.pend && t.svc == s.svc))
  {
    var g1 := Identify(g, io).0;
    FlushSends(s, io.flushOk);
    PackPingSends(s, g1, KPing, g1.pid, g1.host, io);
  }

  lemma PingSends(s: Sock, g: Pong, io: Io)
    requires Sane(s) && s.svc != PING && io.ctrlOk && Identify(g, io).1
    ensures var t, r := PackPong(s, g, KPing, io).0, PingSent(s, g, io);
      && t.svc != PING && Owed(t) == Owed(s)
      && Pongs(t.out) == Pongs(s.out)
      && OfQueue(Answers, Bytes(r)) == 1
  {
    PingShape(s, g, io);
    PingCounts(s, g, io);
    SameOwed(s, PackPong(s, g, KPing, io).0);
    hide Pongs, OfQueue, PingSent, PackPong, Owed;
  }

  lemma PingCounts(s: Sock, g: Pong, io: Io)
    requires s.svc != PING && io.ctrlOk && Identify(g, io).1
    ensures var r := PingSent(s, g, io);
      Pongs(s.out + r) == Pongs(s.out) && OfQueue(Answers, Bytes(r)) == 1
  {
    var g1 := Identify(g, io).0;
    hide Pongs, OfQueue, FlushSent, PingDatagram;
    CtrlPongs(s, io.flushOk, KPing, g1.pid, g1.host);
    CtrlOwes(s, io.flushOk, KPing, g1.pid, g1.host);
  }

  lemma SameOwed(s: Sock, t: Sock)
    requires SameReceiveSide(s, t)
    ensures Owed(t) == Owed(s)
  {
  }

  function PongCount(nodes: seq<Node>): nat {
    if nodes == [] then 0 else Pongs(nodes[0].s.out) + PongCount(nodes[1..])
  }

  lemma {:induction false} OneEach(nodes: seq<Node>, later: seq<Node>)
    requires |nodes| == |later|
    requires forall j :: 0 <= j < |nodes| ==> Pongs(later[j].s.out) == Pongs(nodes[j].s.out) + 1
    ensures PongCount(later) == PongCount(nodes) + |nodes|
  {
    hide Pongs;
    if nodes != [] {
      OneEach(nodes[1..], later[1..]);
    }
  }

  /** In a quiet network one PING, sent and then served without loss until the network is
      quiet again, draws exactly one PONG from every node, the sender included: N of them. */
  lemma OnePingNPongs(net: Net, i: nat, io: Io, ms: seq<Move>)
    requires NoPingPending(net) && Quiet(net) && i < |net.nodes|
    requires io.ctrlOk && Identify(net.nodes[i].g, io).1
    requires Settles(SendPing(net, i, io), ms)
    ensures var end := Serve(SendPing(net, i, io), ms);
      && (forall j :: 0 <= j < |net.nodes| ==> Pongs(end.nodes[j].s.out) == Pongs(net.nodes[j].s.out) + 1)
      && PongCount(end.nodes) == PongCount(net.nodes) + |net.nodes|
  {
    SendPingOwes(net, i, io);
    var mid := SendPing(net, i, io);
    var end := Serve(mid, ms);
    ServeConserves(mid, ms);
    hide SendPing, Serve, NoPingPending, PongCount, Pongs, Tally, Identify;
    forall j | 0 <= j < |net.nodes| ensures Pongs(end.nodes[j].s.out) == Pongs(net.nodes[j].s.out) + 1 {
      QuietTally(net, j);
      QuietTally(end, j);
      assert Tally(end, j) == Tally(mid, j);
    }
    OneEach(net.nodes, end.nodes);
  }

  lemma SendPingOwes(net: Net, i: nat, io: Io)
    requires NoPingPending(net) && i < |net.nodes| && io.ctrlOk && Identify(net.nodes[i].g, io).1
    ensures var mid := SendPing(net, i, io);
      NoPingPending(mid) && forall j :: 0 <= j < |net.nodes| ==> Tally(mid, j) == Tally(net, j) + 1
  {
    var x, mid := net.nodes[i], SendPing(net, i, io);
    PingSends(x.s, x.g, io);
    NothingPending(net, i, mid.nodes[i], mid.queues);
    hide PackPong, PingSent, Pongs, Owed, OfQueue, Broadcast, Tally, NoPingPending;
    forall j | 0 <= j < |net.nodes| ensures Tally(mid, j) == Tally(net, j) + 1 {
      SentTally(net, i, mid.nodes[i], Bytes(PingSent(x.s, x.g, io)), j);
    }
  }

  lemma NothingPending(net: Net, i: nat, x: Node, queues: seq<seq<seq<byte>>>)
    requires NoPingPending(net) && i < |net.nodes| == |queues| && Sane(x.s) && x.s.svc != PING
    ensures NoPingPending(Net(net.nodes[i := x], queues))
  {
  }

  lemma SentTally(net: Net, i: nat, x: Node, ds: seq<seq<byte>>, j: nat)
    requires NetSane(net) && i < |net.nodes| && j < |net.nodes| && Sane(x.s)
    requires OfNode(Answers, x) == OfNode(Answers, net.nodes[i])
    ensures Tally(Net(net.nodes[i := x], Broadcast(net.queues, ds)), j) == Tally(net, j) + OfQueue(Answers, ds)
  {
    hide OfNode, OfQueue, Broadcast;
    assert net.queues[i := net.queues[i]] == net.queues;
    TallyChange(net, i, x, net.queues[i], ds, j);
  }
}
