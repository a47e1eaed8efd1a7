/** Runs of one socket: numbering of datagrams and conservation of packed messages,
    over any interleaving of calls and any pattern of failed sends. */
module Publisher {
  import opened Wrappers
  import opened Wire
  import opened Engine

  datatype Node = Node(s: Sock, g: Pong)

  datatype Op =
    | DoPack(m: Msg, io: Io)
    | DoFlush(io: Io)
    | DoCmsg(m: Msg, io: Io)
    | DoPing(kind: Kind, pid: u32, host: seq<byte>, io: Io)
    | DoPong(kind: Kind, io: Io)
    | DoDiscard(io: Io)
    | DoCheck(io: Io)
    | DoCheckPing(io: Io)

  function Step(n: Node, op: Op): (r: Node)
    requires Sane(n.s)
    ensures Sane(r.s)
  {
    match op
    case DoPack(m, io) => n.(s := PackMsg(n.s, m, io.flushOk).0)
    case DoFlush(io) => n.(s := Flush(n.s, io.flushOk).0)
    case DoCmsg(m, io) => n.(s := PackCmsg(n.s, m, io.ctrlOk).0)
    case DoPing(k, pid, h, io) => var (s, g, _) := PackPing(n.s, n.g, k, pid, h, io); Node(s, g)
    case DoPong(k, io) => var (s, g, _) := PackPong(n.s, n.g, k, io); Node(s, g)
    case DoDiscard(io) => n.(s := Discard(n.s, io.arrival).0)
    case DoCheck(io) => var c := CheckMsg(n.s, n.g, io); Node(c.s, c.g)
    case DoCheckPing(io) => var (s, g, _) := CheckPing(n.s, n.g, io); Node(s, g)
  }

  /** The messages an operation accepts: that of a pack that returned success. */
  function Accepts(n: Node, op: Op): seq<Msg>
    requires Sane(n.s)
  {
    if op.DoPack? && PackMsg(n.s, op.m, op.io.flushOk).1 then [op.m] else []
  }

  ghost predicate Start(n: Node) {
    n.s.pend == [] && n.s.svc == 0 && n.s.pno == 0 && n.s.nrd == 0 && n.s.nck == 0 && n.s.out == []
  }

  function Run(n: Node, ops: seq<Op>): (r: Node)
    requires Sane(n.s)
    ensures Sane(r.s)
  {
    if ops == [] then n else Step(Run(n, ops[..|ops| - 1]), ops[|ops| - 1])
  }

  function Accepted(n: Node, ops: seq<Op>): seq<Msg>
    requires Sane(n.s)
  {
    if ops == [] then []
    else
      var pre := ops[..|ops| - 1];
      Accepted(n, pre) + Accepts(Run(n, pre), ops[|ops| - 1])
  }

  // --- the send-side invariant ---

  predicate GoodDatagram(b: seq<byte>, i: nat) {
    && HDR + 2 <= |b| <= ETH_MTU
    && b[..HDR] == Header(i, Be16(b, 4))
    && Framed(b[HDR..])
  }

  ghost predicate Numbered(out: seq<Sent>) {
    forall i :: 0 <= i < |out| ==> GoodDatagram(out[i].bytes, i)
  }

  ghost predicate SendInv(s: Sock) {
    Sane(s) && Framed(s.pend) && s.pno == |s.out| && Numbered(s.out)
  }

  /** The messages in the data datagrams sent so far, in order. */
  function DataLog(out: seq<Sent>): seq<Msg> {
    if out == [] then []
    else
      var last := out[|out| - 1];
      if last.ctrl then DataLog(out[..|out| - 1]) else DataLog(out[..|out| - 1]) + Decode(last.bytes)
  }

  function Pending(s: Sock): seq<Msg> {
    Label(s.svc, Records(s.pend))
  }

  function Delivered(s: Sock): seq<Msg> {
    DataLog(s.out) + Pending(s)
  }

  lemma SendNumbers(s: Sock, ctrl: bool, svc: u16, p: seq<byte>)
    requires SendInv(s) && Framed(p) && 2 <= |p| <= ROOM
    ensures Numbered(s.out + [Sent(ctrl, Header(s.pno, svc) + p)])
  {
    DecodeDatagram(s.pno, svc, p);
    hide Header, Framed;
    assert GoodDatagram(Header(s.pno, svc) + p, s.pno);
  }

  lemma SendLogs(out: seq<Sent>, ctrl: bool, pno: nat, svc: u16, p: seq<byte>)
    ensures DataLog(out + [Sent(ctrl, Header(pno, svc) + p)])
         == if ctrl then DataLog(out) else DataLog(out) + Label(svc, Records(p))
  {
    DecodeDatagram(pno, svc, p);
    var out' := out + [Sent(ctrl, Header(pno, svc) + p)];
    assert out'[..|out'| - 1] == out;
  }

  lemma FlushKeeps(s: Sock, ok: bool)
    requires SendInv(s)
    ensures SendInv(Flush(s, ok).0)
    ensures Delivered(Flush(s, ok).0) == Delivered(s)
  {
    if s.pend != [] && ok {
      SendNumbers(s, false, s.svc, s.pend);
      SendLogs(s.out, false, s.pno, s.svc, s.pend);
    }
  }

  lemma SendCtrl(s: Sock, svc: u16, p: seq<byte>, s': Sock)
    requires SendInv(s) && Framed(p) && 2 <= |p| <= ROOM
    requires s' == s.(pno := s.pno + 1, out := s.out + [Sent(true, Header(s.pno, svc) + p)])
    ensures SendInv(s') && Delivered(s') == Delivered(s)
  {
    SendNumbers(s, true, svc, p);
    SendLogs(s.out, true, s.pno, svc, p);
  }

  /** A control message is refused exactly when it has more than 70 bytes or its send
      fails, and then changes nothing; otherwise it goes out at once, alone in a datagram of
      at most 80 bytes that decodes to it. What is pending or was sent before stays. */
  lemma CmsgKeeps(s: Sock, m: Msg, ok: bool)
    requires SendInv(s)
    ensures SendInv(PackCmsg(s, m, ok).0)
    ensures Delivered(PackCmsg(s, m, ok).0) == Delivered(s)
    ensures PackCmsg(s, m, ok).1 <==> |m.data| <= 70 && ok
    ensures !PackCmsg(s, m, ok).1 ==> PackCmsg(s, m, ok).0 == s
    ensures PackCmsg(s, m, ok).1 ==> SentAlone(s, m, PackCmsg(s, m, ok).0)
  {
    if |m.data| + 2 <= CTRL_ROOM && ok {
      RecordFramed(m.data);
      SendCtrl(s, m.svc, Record(m.data), PackCmsg(s, m, ok).0);
      CtrlDatagram(s.pno, m);
    }
  }

  ghost predicate SentAlone(s: Sock, m: Msg, s': Sock) {
    && |s'.out| == |s.out| + 1 && s'.out[..|s.out|] == s.out
    && var d := s'.out[|s.out|];
    d.ctrl && |d.bytes| <= 80 && Decode(d.bytes) == [m]
  }

  lemma CtrlDatagram(pno: nat, m: Msg)
    requires |m.data| <= 70
    ensures Decode(Header(pno, m.svc) + Record(m.data)) == [m]
  {
    RecordFramed(m.data);
    DecodeDatagram(pno, m.svc, Record(m.data));
  }

  lemma PingKeeps(s: Sock, g: Pong, k: Kind, pid: u32, host: seq<byte>, io: Io)
    requires SendInv(s)
    ensures SendInv(PackPing(s, g, k, pid, host, io).0)
    ensures Delivered(PackPing(s, g, k, pid, host, io).0) == Delivered(s)
  {
    FlushKeeps(s, io.flushOk);
    var msg := Inscribe(g.msg, pid, host);
    CmsgKeeps(Flush(s, io.flushOk).0, Msg(KindSvc(k), msg[..5 + WireNameLength(|host|)]), io.ctrlOk);
  }

  lemma PongKeeps(s: Sock, g: Pong, k: Kind, io: Io)
    requires SendInv(s)
    ensures SendInv(PackPong(s, g, k, io).0)
    ensures Delivered(PackPong(s, g, k, io).0) == Delivered(s)
  {
    var g1 := Identify(g, io).0;
    PingKeeps(s, g1, k, g1.pid, g1.host, io);
  }

  lemma CheckKeeps(s: Sock, g: Pong, io: Io)
    requires SendInv(s)
    ensures SendInv(CheckMsg(s, g, io).s)
    ensures Delivered(CheckMsg(s, g, io).s) == Delivered(s)
  {
    CmsgCheckKeeps(Refill(s, io.arrival).0, g, io);
    CheckSendSide(s, g, io);
  }

  lemma CmsgCheckKeeps(s: Sock, g: Pong, io: Io)
    requires SendInv(s)
    ensures SendInv(CheckCmsg(s, g, io).0)
    ensures Delivered(CheckCmsg(s, g, io).0) == Delivered(s)
  {
    PongKeeps(s, g, KPong, io);
  }

  /** Checking touches the send side only through the reaction to a control message. */
  lemma CheckSendSide(s: Sock, g: Pong, io: Io)
    requires Sane(s)
    ensures
      || SameSendSide(CheckMsg(s, g, io).s, s)
      || SameSendSide(CheckMsg(s, g, io).s, CheckCmsg(Refill(s, io.arrival).0, g, io).0)
  {
  }

  // --- packing ---

  /** The caller-checkable condition under which packing keeps message and labels:
      the length fits its byte, and no batch pending under service 0 is relabelled. */
  predicate Clean(s: Sock, m: Msg) {
    && |m.data| <= 255
    && !(s.pend != [] && s.svc == 0 && m.svc != 0 && MsgFits(s, |m.data| % 0x100))
  }

  /** Later lists extend earlier ones; only a service of 0 may be overwritten. */
  ghost predicate Evolves(d: seq<Msg>, d': seq<Msg>) {
    && |d| <= |d'|
    && forall k :: 0 <= k < |d| ==>
         d'[k].data == d[k].data && (d[k].svc != 0 ==> d'[k] == d[k])
  }

  lemma PackAppends(s: Sock, m: Msg, ok: bool)
    requires SendInv(s) && PackMsg(s, m, ok).1
    ensures SendInv(PackMsg(s, m, ok).0)
    ensures var d, d' := Delivered(s), Delivered(PackMsg(s, m, ok).0);
      && |d'| == |d| + 1 && Evolves(d, d')
      && d'[|d|] == Msg(m.svc, m.data[..|m.data| % 0x100])
      && (Clean(s, m) ==> d' == d + [m])
      && (|m.data| <= 255 && !Clean(s, m) ==>
            exists k :: 0 <= k < |d| && d[k].svc == 0 && d'[k].svc != 0)
  {
    var z := |m.data| % 0x100;
    var s1 := if !MsgFits(s, z) || !SvcSame(s, m.svc) then Flush(s, ok).0 else s;
    FlushKeeps(s, ok);
    Append(s1, m.svc, Clip(m.data), PackMsg(s, m, ok).0);
  }

  /** Appending a record to a pending batch that its service admits. */
  lemma Append(s: Sock, svc: u16, data: seq<byte>, s': Sock)
    requires SendInv(s) && |data| <= 255 && |s.pend| + 2 + |data| <= ROOM && SvcSame(s, svc)
    requires s' == s.(svc := svc, pend := s.pend + Record(data))
    ensures SendInv(s')
    ensures var d, d' := Delivered(s), Delivered(s');
      && |d'| == |d| + 1 && Evolves(d, d') && d'[|d|] == Msg(svc, data)
      && (s.pend == [] || s.svc == svc ==> d' == d + [Msg(svc, data)])
      && (s.pend != [] && s.svc == 0 && svc != 0 ==>
            exists k :: 0 <= k < |d| && d[k].svc == 0 && d'[k].svc != 0)
  {
    AppendRecord(s.pend, data);
    hide Records, Framed, Label;
    LabelAppend(s.svc, svc, Records(s.pend), data);
    LabelsEvolve(DataLog(s.out), Pending(s), Pending(s'), Msg(svc, data));
  }

  lemma LabelAppend(was: u16, svc: u16, ds: seq<seq<byte>>, d: seq<byte>)
    requires was == 0 || was == svc
    ensures var p, p' := Label(was, ds), Label(svc, ds + [d]);
      && |p'| == |p| + 1 && Evolves(p, p') && p'[|p|] == Msg(svc, d)
      && (ds == [] || was == svc ==> p' == p + [Msg(svc, d)])
      && (ds != [] && was == 0 && svc != 0 ==> p[0].svc == 0 && p'[0].svc != 0)
  {
  }

  lemma LabelsEvolve(log: seq<Msg>, p: seq<Msg>, p': seq<Msg>, m: Msg)
    requires |p'| == |p| + 1 && Evolves(p, p') && p'[|p|] == m
    ensures var d, d' := log + p, log + p';
      && |d'| == |d| + 1 && Evolves(d, d') && d'[|d|] == m
      && (p' == p + [m] ==> d' == d + [m])
      && (p != [] && p[0].svc == 0 && p'[0].svc != 0 ==>
            exists k :: 0 <= k < |d| && d[k].svc == 0 && d'[k].svc != 0)
  {
    var d, d' := log + p, log + p';
    assert forall k :: |log| <= k < |d| ==> d[k] == p[k - |log|] && d'[k] == p'[k - |log|];
    if p != [] {
      assert d[|log|] == p[0] && d'[|log|] == p'[0];
    }
  }

  /** A refused pack changes nothing; it is refused only when a needed flush fails. */
  lemma PackRefused(s: Sock, m: Msg, ok: bool)
    requires SendInv(s)
    ensures !PackMsg(s, m, ok).1 <==>
      !ok && s.pend != [] && !(MsgFits(s, |m.data| % 0x100) && SvcSame(s, m.svc))
    ensures !PackMsg(s, m, ok).1 ==> PackMsg(s, m, ok).0 == s
  {
  }

  lemma DiscardKeeps(s: Sock, arrival: Option<seq<byte>>)
    requires SendInv(s)
    ensures SendInv(Discard(s, arrival).0)
    ensures Delivered(Discard(s, arrival).0) == Delivered(s)
  {
  }

  // --- whole runs ---

  /** Every accepted pack of the run met the condition Clean when it was made. */
  predicate AllClean(n: Node, ops: seq<Op>)
    requires Sane(n.s)
  {
    ops == [] ||
    var pre, last := ops[..|ops| - 1], ops[|ops| - 1];
    AllClean(n, pre) &&
    (Accepts(Run(n, pre), last) != [] ==> Clean(Run(n, pre).s, last.m))
  }

  lemma StepKeeps(n: Node, op: Op)
    requires SendInv(n.s)
    ensures SendInv(Step(n, op).s)
    ensures Accepts(n, op) == [] ==> Delivered(Step(n, op).s) == Delivered(n.s)
  {
    hide Delivered, PackMsg, Flush, PackCmsg, PackPing, PackPong, CheckMsg, Discard;
    match op {
      case DoPack(m, io) =>
        PackRefused(n.s, m, io.flushOk);
        if PackMsg(n.s, m, io.flushOk).1 { PackAppends(n.s, m, io.flushOk); }
      case DoFlush(io) => FlushKeeps(n.s, io.flushOk);
      case DoCmsg(m, io) => CmsgKeeps(n.s, m, io.ctrlOk);
      case DoPing(k, pid, h, io) => PingKeeps(n.s, n.g, k, pid, h, io);
      case DoPong(k, io) => PongKeeps(n.s, n.g, k, io);
      case DoDiscard(io) => DiscardKeeps(n.s, io.arrival);
      case DoCheck(io) => CheckKeeps(n.s, n.g, io);
      case DoCheckPing(io) => CheckKeeps(n.s, n.g, io);
    }
  }

  /** Conservation up to clipping and relabelling, unconditionally: one delivered
      message per accepted one, in order, with the clipped data; a nonzero service
      is never changed. */
  ghost predicate Matches(d: seq<Msg>, a: seq<Msg>) {
    && |d| == |a|
    && forall k :: 0 <= k < |a| ==>
         d[k].data == Clip(a[k].data) && (a[k].svc != 0 ==> d[k].svc == a[k].svc)
  }

  lemma {:induction false} RunConserves(n: Node, ops: seq<Op>)
    requires Start(n)
    ensures SendInv(Run(n, ops).s)
    ensures Matches(Delivered(Run(n, ops).s), Accepted(n, ops))
    ensures Delivered(Run(n, ops).s) == Accepted(n, ops) <==> AllClean(n, ops)
  {
    if ops != [] {
      var pre, op := ops[..|ops| - 1], ops[|ops| - 1];
      RunConserves(n, pre);
      var n1 := Run(n, pre);
      StepKeeps(n1, op);
      if Accepts(n1, op) != [] {
        PackAppends(n1.s, op.m, op.io.flushOk);
        AcceptOne(Delivered(n1.s), Accepted(n, pre), Delivered(Step(n1, op).s), op.m, Clean(n1.s, op.m));
      }
    }
  }

  /** One accepted message, on the lists alone. */
  lemma AcceptOne(d: seq<Msg>, a: seq<Msg>, d': seq<Msg>, m: Msg, clean: bool)
    requires Matches(d, a) && Evolves(d, d') && |d'| == |d| + 1
    requires d'[|d|] == Msg(m.svc, Clip(m.data))
    requires clean ==> d' == d + [m]
    requires !clean && |m.data| <= 255 ==> exists k :: 0 <= k < |d| && d[k].svc == 0 && d'[k].svc != 0
    ensures Matches(d', a + [m])
    ensures d' == a + [m] <==> d == a && clean
  {
    var a' := a + [m];
    if d == a && clean {
      assert d' == a';
    } else if d != a {
      var k :| 0 <= k < |a| && d[k] != a[k];
      assert d'[k] != a'[k];
    } else if |m.data| > 255 {
      assert d'[|d|] != a'[|d|];
    } else {
      var k :| 0 <= k < |d| && d[k].svc == 0 && d'[k].svc != 0;
      assert d'[k] != a'[k];
    }
  }

  /** Messages with a nonzero service and at most 255 bytes are conserved exactly. */
  lemma {:induction false} HonestRunConserves(n: Node, ops: seq<Op>)
    requires Start(n)
    requires forall op :: op in ops && op.DoPack? ==> op.m.svc != 0 && |op.m.data| <= 255
    ensures Delivered(Run(n, ops).s) == Accepted(n, ops)
  {
    HonestIsClean(n, ops);
    RunConserves(n, ops);
  }

  lemma {:induction false} HonestIsClean(n: Node, ops: seq<Op>)
    requires Start(n)
    requires forall op :: op in ops && op.DoPack? ==> op.m.svc != 0 && |op.m.data| <= 255
    ensures AllClean(n, ops)
    ensures SendInv(Run(n, ops).s)
    ensures Run(n, ops).s.pend != [] ==> Run(n, ops).s.svc != 0
  {
    if ops != [] {
      var pre, op := ops[..|ops| - 1], ops[|ops| - 1];
      assert op in ops && forall o :: o in pre ==> o in ops;
      HonestIsClean(n, pre);
      StepKeeps(Run(n, pre), op);
      StepLabels(Run(n, pre), op);
    }
  }

  /** Only packing puts a service on a pending batch. */
  lemma StepLabels(n: Node, op: Op)
    requires Sane(n.s) && (n.s.pend != [] ==> n.s.svc != 0)
    requires op.DoPack? ==> op.m.svc != 0
    ensures Step(n, op).s.pend != [] ==> Step(n, op).s.svc != 0
  {
    if op.DoCheck? || op.DoCheckPing? {
      hide CheckMsg;
      CheckSendSide(n.s, n.g, op.io);
    }
  }

  /** The bytes of p: for each message in turn a 12, the length of its data, and its data. */
  predicate Laid(p: seq<byte>, ms: seq<Msg>)
    decreases |ms|
  {
    if ms == [] then p == []
    else
      var z := |ms[0].data|;
      && |p| >= 2 + z && p[0] == 12 && p[1] as int == z && p[2..2 + z] == ms[0].data
      && Laid(p[2 + z..], ms[1..])
  }

  /** The bytes of the i-th datagram: "UD", number, service, 0xda7a, and at least one record;
      decoding gives the records under that service. */
  predicate OnTheWire(b: seq<byte>, i: nat) {
    && 10 <= |b| <= 1440
    && b[0] == 0x55 && b[1] == 0x44
    && b[2] as int == i / 256 % 256 && b[3] as int == i % 256
    && b[6] == 0xda && b[7] == 0x7a
    && Laid(b[8..], Decode(b))
    && forall m :: m in Decode(b) ==> m.svc as int == 256 * b[4] as int + b[5]
  }

  lemma {:induction false} FramedLaid(p: seq<byte>, svc: u16)
    requires Framed(p)
    ensures Laid(p, Label(svc, Records(p)))
  {
    if p != [] {
      var k := p[1] as int + 2;
      RecordsHead(p, k);
      FramedLaid(p[k..], svc);
      LabelHead(svc, p[2..k], Records(p[k..]));
      var ms := Label(svc, Records(p));
      assert ms[1..] == Label(svc, Records(p[k..]));
    }
  }

  lemma GoodOnTheWire(b: seq<byte>, i: nat)
    requires GoodDatagram(b, i)
    ensures OnTheWire(b, i) && Be16(b, 0) == 0x5544
  {
    var svc := Be16(b, 4);
    assert forall j :: 0 <= j < HDR ==> b[..HDR][j] == b[j];
    HeaderBytes(i, svc);
    FramedLaid(b[HDR..], svc);
    hide Header, Framed, Records, Laid;
  }

  lemma HeaderBytes(pno: nat, svc: u16)
    ensures var h := Header(pno, svc);
      && h[0] == 0x55 && h[1] == 0x44
      && h[2] as int == pno / 256 % 256 && h[3] as int == pno % 256
      && h[6] == 0xda && h[7] == 0x7a
  {
    NumberBytes(pno);
  }

  lemma NumberBytes(n: nat)
    ensures var k := n % 0x1_0000; k / 0x100 == n / 256 % 256 && k % 0x100 == n % 256
  {
    var h, k := n / 0x1_0000, n % 0x1_0000;
    assert n == 256 * (256 * h + k / 256) + k % 256;
  }

  /** The i-th datagram sent carries packet number i modulo 2^16, whatever mix of data
      flushes, control sends and failures produced it, and its records byte by byte; a
      failed send consumes no number, and with nothing pending no service is. */
  lemma RunNumbers(n: Node, ops: seq<Op>)
    requires Start(n)
    ensures var s := Run(n, ops).s;
      && s.pno == |s.out|
      && (s.pend == [] ==> s.svc == 0)
      && forall i :: 0 <= i < |s.out| ==> OnTheWire(s.out[i].bytes, i)
  {
    RunConserves(n, ops);
    hide Run, OnTheWire;
    var out := Run(n, ops).s.out;
    forall i | 0 <= i < |out| ensures OnTheWire(out[i].bytes, i) {
      assert GoodDatagram(out[i].bytes, i);
      GoodOnTheWire(out[i].bytes, i);
    }
  }

  /** The condition is not vacuous: packing under service 0 and then under service 1
      accepts both messages, but the first one goes out relabelled. */
  lemma WildcardRelabels(n: Node, io: Io)
    requires Start(n)
    ensures var ops := [DoPack(Msg(0, [7]), io), DoPack(Msg(1, [8]), io)];
      |Accepted(n, ops)| == 2 && Delivered(Run(n, ops).s) != Accepted(n, ops)
  {
    var p, q := DoPack(Msg(0, [7]), io), DoPack(Msg(1, [8]), io);
    var ops := [p, q];
    assert ops[..1] == [p] && [p][..0] == [];
    var n1 := Run(n, [p]);
    assert n1 == Step(Run(n, []), p) == Step(n, p);
    assert |n1.s.pend| == 3 && n1.s.svc == 0;
    assert !Clean(n1.s, q.m) && Accepts(n1, q) == [q.m];
    assert |Accepted(n, [p])| == 1;
    RunConserves(n, ops);
  }
}
