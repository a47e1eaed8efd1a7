/** Which identity a PING or PONG carries: the first nonempty host name a socket's pong
    service reads, with the process id of that moment, in every message from then on. */
module Identity {
  import opened Wrappers
  import opened Wire
  import opened Engine
  import opened Publisher
  import opened Subscriber
  import opened PingCodec

  datatype Id = Id(pid: u32, host: HostName)

  /** Whoever receives the datagram, whatever its buffers hold, reads kind, pid and name
      from it; a name of more than 58 bytes is refused. */
  ghost predicate Tells(d: seq<byte>, k: Kind, id: Id) {
    forall s: Sock, g: Pong, io: Io :: Sane(s) && s.nrd == 0 && io.arrival == Some(d) ==>
      CheckPing(s, g, io).2 == if |id.host| <= 58 then Some(Ping(k, id.pid, id.host)) else None
  }

  lemma DatagramTells(pno: nat, k: Kind, id: Id)
    ensures Tells(PingDatagram(pno, k, id.pid, id.host), k, id)
  {
    var d := PingDatagram(pno, k, id.pid, id.host);
    hide CheckPing, PingDatagram;
    forall s: Sock, g: Pong, io: Io | Sane(s) && s.nrd == 0 && io.arrival == Some(d)
      ensures CheckPing(s, g, io).2 == if |id.host| <= 58 then Some(Ping(k, id.pid, id.host)) else None
    {
      CheckPingReads(s, g, io, pno, k, id.pid, id.host);
      Unclamped(id.host);
    }
  }

  /** The last datagram out tells an identity. */
  ghost predicate LastTells(out: seq<Sent>, k: Kind, id: Id) {
    out != [] && out[|out| - 1].ctrl && Tells(out[|out| - 1].bytes, k, id)
  }

  /** The identity in use: the one known, or else what the environment says now. */
  function Current(known: Option<Id>, io: Io): Option<Id> {
    if known != None then known
    else if io.host != None then Some(Id(io.pid, io.host.value))
    else None
  }

  function Known(g: Pong): Option<Id> {
    if g.host != [] then Some(Id(g.pid, g.host)) else None
  }

  /** Packing a PING or PONG: without an identity nothing happens at all; otherwise it is
      kept, and the message, sent when the send succeeds, tells it to every receiver. */
  lemma PongTells(s: Sock, g: Pong, k: Kind, io: Io)
    requires Sane(s)
    ensures var (t, g1, ok) := PackPong(s, g, k, io);
      match Current(Known(g), io)
      case None => !ok && t == s && g1 == g
      case Some(id) =>
        && g1.host == id.host && g1.pid == id.pid
        && (ok <==> io.ctrlOk) && (ok ==> LastTells(t.out, k, id))
  {
    match Current(Known(g), io) {
      case None =>
      case Some(id) =>
        var g1 := g.(host := id.host, pid := id.pid);
        PackPingSends(s, g1, k, id.pid, id.host, io);
        DatagramTells(Flush(s, io.flushOk).0.pno, k, id);
        hide Tells, PackPing, PingDatagram, Flush;
        assert PackPong(s, g, k, io) == PackPing(s, g1, k, id.pid, id.host, io);
        SameStatics(s, g1, k, id, io);
    }
  }

  lemma SameStatics(s: Sock, g: Pong, k: Kind, id: Id, io: Io)
    requires Sane(s)
    ensures var g1 := PackPing(s, g, k, id.pid, id.host, io).1;
      g1.host == g.host && g1.pid == g.pid
  {
  }

  /** A call of ud_chck_msg that finds a PING datagram with a byte unread. */
  predicate LooksAtPing(s: Sock, arrival: Option<seq<byte>>)
    requires Sane(s)
  {
    var (t, ready) := Refill(s, arrival);
    ready && t.nck < t.nrd && Service(t) == PING
  }

  /** A call that looks at a PING answers like a PONG packed by hand; any other call leaves
      the statics and what has been sent as they are. */
  lemma CheckReacts(s: Sock, g: Pong, io: Io)
    requires Sane(s)
    ensures var c, t := CheckMsg(s, g, io), Refill(s, io.arrival).0;
      if LooksAtPing(s, io.arrival)
      then c.g == PackPong(t, g, KPong, io).1 && c.s.out == PackPong(t, g, KPong, io).0.out && t.out == s.out
      else c.g == g && c.s.out == s.out
  {
    var t := Refill(s, io.arrival).0;
    hide PackPong, Refill;
    assert Service(t) / 0x100 == CHN_CTRL && Service(t) % 0x100 == 4 <==> Service(t) == PING;
  }

  lemma ReactionTells(s: Sock, g: Pong, io: Io)
    requires Sane(s)
    ensures var c, id := CheckMsg(s, g, io), Current(Known(g), io);
      if LooksAtPing(s, io.arrival) && id != None
      then c.g.host == id.value.host && c.g.pid == id.value.pid
           && (io.ctrlOk ==> LastTells(c.s.out, KPong, id.value))
      else c.g == g && c.s.out == s.out
  {
    hide CheckMsg, PackPong, LastTells, LooksAtPing, Refill;
    CheckReacts(s, g, io);
    PongTells(Refill(s, io.arrival).0, g, KPong, io);
  }

  // --- over a run ---

  /** The operations that read the host name if it is not known. */
  predicate Asks(n: Node, op: Op)
    requires Sane(n.s)
  {
    op.DoPong? || ((op.DoCheck? || op.DoCheckPing?) && LooksAtPing(n.s, op.io.arrival))
  }

  /** The first nonempty host name read in a run, with the process id read beside it. */
  function FirstRead(n: Node, ops: seq<Op>): Option<Id>
    requires Sane(n.s)
  {
    if ops == [] then None
    else
      var pre, op := ops[..|ops| - 1], ops[|ops| - 1];
      if FirstRead(n, pre) != None then FirstRead(n, pre)
      else if Asks(Run(n, pre), op) && op.io.host != None && op.io.host.value != []
      then Some(Id(op.io.pid, op.io.host.value))
      else None
  }

  lemma StepReads(n: Node, op: Op)
    requires Sane(n.s)
    ensures var g := Step(n, op).g;
      if n.g.host == [] && Asks(n, op) && op.io.host != None
      then g.host == op.io.host.value && g.pid == op.io.pid
      else g.host == n.g.host && (n.g.host != [] ==> g.pid == n.g.pid)
  {
    hide LooksAtPing, PackPong, CheckMsg, LastTells;
    match op {
      case DoPing(k, pid, h, io) =>
      case DoPong(k, io) => PongTells(n.s, n.g, k, io);
      case DoCheck(io) => ReactionTells(n.s, n.g, io);
      case DoCheckPing(io) => ReactionTells(n.s, n.g, io);
      case _ =>
    }
  }

  /** The identity a pong service has after a run is the first one read, and stays. */
  lemma {:induction false} RunReads(n: Node, ops: seq<Op>)
    requires Sane(n.s) && n.g.host == []
    ensures Known(Run(n, ops).g) == FirstRead(n, ops)
  {
    if ops != [] {
      var pre, op := ops[..|ops| - 1], ops[|ops| - 1];
      RunReads(n, pre);
      StepReads(Run(n, pre), op);
      hide Step, Asks;
    }
  }

  /** After any run from fresh statics, a PING or PONG packed by hand and the PONG that
      answers a PING tell every receiver the first nonempty name read in the run and the
      process id read beside it, whatever the environment says now; before such a reading,
      what it says now. */
  lemma RunTells(n: Node, ops: seq<Op>, k: Kind, io: Io)
    requires Sane(n.s) && n.g.host == []
    ensures var m := Run(n, ops);
      var id := Current(FirstRead(n, ops), io);
      var (t, _, ok) := PackPong(m.s, m.g, k, io);
      var c := CheckMsg(m.s, m.g, io);
      && (ok <==> id != None && io.ctrlOk)
      && (if ok then LastTells(t.out, k, id.value) else id == None ==> t == m.s)
      && (if LooksAtPing(m.s, io.arrival) && id != None
          then io.ctrlOk ==> LastTells(c.s.out, KPong, id.value)
          else c.s.out == m.s.out)
  {
    RunReads(n, ops);
    var m := Run(n, ops);
    hide Run, FirstRead, PackPong, CheckMsg, LastTells, LooksAtPing, Known;
    PongTells(m.s, m.g, k, io);
    ReactionTells(m.s, m.g, io);
  }
}
