/** From a publisher through a network that drops datagrams to a subscriber: what it gets
    are the datagrams that arrived, each entirely, and the data among them are what the
    publisher accepted. */
module Delivery {
  import opened Wire
  import opened Engine
  import opened Publisher
  import opened Subscriber

  /** The elements kept: keep[i] says whether element i is. */
  function Select<T>(xs: seq<T>, keep: seq<bool>): (ys: seq<T>)
    requires |xs| == |keep|
    ensures forall y :: y in ys ==> y in xs
  {
    if xs == [] then [] else (if keep[0] then [xs[0]] else []) + Select(xs[1..], keep[1..])
  }

  /** Which datagrams carry data. */
  function DataMask(out: seq<Sent>): (mask: seq<bool>)
    ensures |mask| == |out|
    ensures forall k :: 0 <= k < |out| ==> mask[k] == !out[k].ctrl
  {
    seq(|out|, k requires 0 <= k < |out| => !out[k].ctrl)
  }

  function Both(keep: seq<bool>, mask: seq<bool>): (r: seq<bool>)
    requires |keep| == |mask|
    ensures |r| == |keep|
    ensures forall k :: 0 <= k < |keep| ==> r[k] == (keep[k] && mask[k])
  {
    seq(|keep|, k requires 0 <= k < |keep| => keep[k] && mask[k])
  }

  lemma {:induction false} SelectAppend<T>(xs: seq<T>, keep: seq<bool>, x: T, b: bool)
    requires |xs| == |keep|
    ensures Select(xs + [x], keep + [b]) == Select(xs, keep) + if b then [x] else []
  {
    if xs == [] {
      assert xs + [x] == [x] && keep + [b] == [b];
    } else {
      SelectAppend(xs[1..], keep[1..], x, b);
      assert (xs + [x])[1..] == xs[1..] + [x] && (keep + [b])[1..] == keep[1..] + [b];
    }
  }

  lemma {:induction false} SelectBatches(ds: seq<seq<byte>>, keep: seq<bool>)
    requires |ds| == |keep|
    ensures Batches(Select(ds, keep)) == Select(Batches(ds), keep)
  {
    hide Decode;
    if ds != [] {
      SelectBatches(ds[1..], keep[1..]);
      assert Batches(ds)[1..] == Batches(ds[1..]);
    }
  }

  // --- the publisher's datagrams ---

  lemma LastSent(pre: seq<Sent>, last: Sent)
    ensures Batches(Bytes(pre + [last])) == Batches(Bytes(pre)) + [Decode(last.bytes)]
    ensures DataMask(pre + [last]) == DataMask(pre) + [!last.ctrl]
  {
    hide Decode;
  }

  /** The data log is what the data datagrams among all of them say. */
  lemma {:induction false} DataLogSelects(out: seq<Sent>)
    ensures Flatten(Select(Batches(Bytes(out)), DataMask(out))) == DataLog(out)
  {
    if out != [] {
      var pre, last := out[..|out| - 1], out[|out| - 1];
      var bs, mask := Batches(Bytes(pre)), DataMask(pre);
      assert out == pre + [last];
      DataLogSelects(pre);
      LastSent(pre, last);
      SelectAppend(bs, mask, Decode(last.bytes), !last.ctrl);
      FlattenAppend(Select(bs, mask), Decode(last.bytes));
      hide Decode, Batches, Bytes, DataMask, Select, Flatten;
      assert Select(bs, mask) + [] == Select(bs, mask);
    }
  }

  lemma SentFormat(out: seq<Sent>)
    requires Numbered(out)
    ensures forall d :: d in Bytes(out) ==> OwnFormat(d)
  {
    forall i | 0 <= i < |out| ensures OwnFormat(out[i].bytes) {
      assert GoodDatagram(out[i].bytes, i);
      GoodOnTheWire(out[i].bytes, i);
    }
  }

  lemma PublisherBatches(p: Node, ops: seq<Op>)
    requires Start(p) && Run(p, ops).s.pend == []
    ensures var out := Run(p, ops).s.out;
      && (Flatten(Select(Batches(Bytes(out)), DataMask(out))) == Accepted(p, ops) <==> AllClean(p, ops))
      && forall d :: d in Bytes(out) ==> OwnFormat(d)
  {
    var s := Run(p, ops).s;
    RunConserves(p, ops);
    DataLogSelects(s.out);
    SentFormat(s.out);
    assert Delivered(s) == DataLog(s.out) + [] == DataLog(s.out);
  }

  // --- the subscriber's messages ---

  lemma FreshReceiver(n: Sub)
    requires Sane(n.s) && n.s.nrd == 0 && forall d :: d in n.queue ==> OwnFormat(d)
    ensures ReceiveInv(n) && Outstanding(n) == QueueMsgs(n.queue)
  {
    NothingBuffered(n.s);
    assert [] + QueueMsgs(n.queue) == QueueMsgs(n.queue);
  }

  /** A subscriber with an empty receive side that makes enough calls gets exactly the
      batches that arrive, each entirely. */
  lemma SubscriberGets(ds: seq<seq<byte>>, keep: seq<bool>, n: Sub, ios: seq<Io>)
    requires |keep| == |ds| && forall d :: d in ds ==> OwnFormat(d)
    requires Sane(n.s) && n.s.nrd == 0 && n.queue == Select(ds, keep) && |ios| >= Work(n)
    ensures Got(Results(n, ios)) == Flatten(Select(Batches(ds), keep))
  {
    SelectBatches(ds, keep);
    FreshReceiver(n);
    CallsConserve(n, ios);
    NoWork(Calls(n, ios));
    hide Calls, Results, Work, Outstanding, Batches;
    assert Got(Results(n, ios)) + [] == QueueMsgs(n.queue);
  }

  // --- data and control messages, told apart by channel ---

  function OffControl(m: Msg): seq<Msg> {
    if m.svc / 0x100 != CHN_CTRL then [m] else []
  }

  /** The messages off the control channel. */
  function DataOf(ms: seq<Msg>): seq<Msg> {
    if ms == [] then [] else OffControl(ms[0]) + DataOf(ms[1..])
  }

  lemma {:induction false} DataOfConcat(a: seq<Msg>, b: seq<Msg>)
    ensures DataOf(a + b) == DataOf(a) + DataOf(b)
  {
    hide OffControl;
    if a == [] {
      assert a + b == b;
    } else {
      DataOfConcat(a[1..], b);
      Chain(OffControl(a[0]), DataOf(a[1..]), DataOf(a), DataOf(b));
      assert (a + b)[1..] == a[1..] + b;
    }
  }

  /** All messages of a batch are on the channel of its service. */
  lemma {:induction false} DataOfBatch(ms: seq<Msg>, svc: u16)
    requires forall m :: m in ms ==> m.svc == svc
    ensures DataOf(ms) == if svc / 0x100 != CHN_CTRL then ms else []
  {
    if ms != [] {
      DataOfBatch(ms[1..], svc);
      assert ms == [ms[0]] + ms[1..];
    }
  }

  lemma {:induction false} DataSelected(bs: seq<seq<Msg>>, keep: seq<bool>, mask: seq<bool>)
    requires |bs| == |keep| == |mask|
    requires forall k :: 0 <= k < |bs| ==> DataOf(bs[k]) == if mask[k] then bs[k] else []
    ensures DataOf(Flatten(Select(bs, keep))) == Flatten(Select(bs, Both(keep, mask)))
  {
    hide DataOf, Flatten, Select, Both;
    if bs == [] {
      NoneSelected(keep, mask);
    } else {
      DataSelected(bs[1..], keep[1..], mask[1..]);
      assert Both(keep, mask)[1..] == Both(keep[1..], mask[1..]);
      FlattenHead(bs, keep);
      FlattenHead(bs, Both(keep, mask));
      DataOfConcat(bs[0], Flatten(Select(bs[1..], keep[1..])));
      var rest := Flatten(Select(bs[1..], Both(keep[1..], mask[1..])));
      assert [] + rest == rest;
    }
  }

  lemma NoneSelected(keep: seq<bool>, mask: seq<bool>)
    requires keep == mask == []
    ensures DataOf(Flatten(Select([], keep))) == Flatten(Select([], Both(keep, mask)))
  {
  }

  lemma FlattenHead<T>(bs: seq<seq<T>>, keep: seq<bool>)
    requires |bs| == |keep| && bs != []
    ensures var rest := Flatten(Select(bs[1..], keep[1..]));
      Flatten(Select(bs, keep)) == if keep[0] then bs[0] + rest else rest
  {
    var rest := Select(bs[1..], keep[1..]);
    assert ([bs[0]] + rest)[1..] == rest;
    assert [] + rest == rest;
  }

  /** Data is packed off the control channel and control messages on it. */
  ghost predicate ByChannel(ops: seq<Op>) {
    forall op :: op in ops ==>
      && (op.DoPack? ==> op.m.svc / 0x100 != CHN_CTRL)
      && (op.DoCmsg? ==> op.m.svc / 0x100 == CHN_CTRL)
  }

  ghost predicate Channeled(s: Sock) {
    && (s.pend != [] ==> s.svc / 0x100 != CHN_CTRL)
    && forall x :: x in s.out ==> |x.bytes| >= HDR && (x.ctrl <==> Be16(x.bytes, 4) / 0x100 == CHN_CTRL)
  }

  lemma FlushChannels(s: Sock, ok: bool)
    requires Sane(s) && Channeled(s)
    ensures Channeled(Flush(s, ok).0)
  {
    Prefixed(Header(s.pno, s.svc), s.pend);
  }

  lemma CmsgChannels(s: Sock, m: Msg, ok: bool)
    requires Sane(s) && Channeled(s) && m.svc / 0x100 == CHN_CTRL
    ensures Channeled(PackCmsg(s, m, ok).0)
  {
    if |m.data| + 2 <= CTRL_ROOM {
      Prefixed(Header(s.pno, m.svc), Record(m.data));
    }
  }

  lemma PackChannels(s: Sock, m: Msg, ok: bool)
    requires Sane(s) && Channeled(s) && m.svc / 0x100 != CHN_CTRL
    ensures Channeled(PackMsg(s, m, ok).0)
  {
    FlushChannels(s, ok);
    hide Flush;
  }

  lemma PingChannels(s: Sock, g: Pong, k: Kind, pid: u32, host: seq<byte>, io: Io)
    requires Sane(s) && Channeled(s)
    ensures Channeled(PackPing(s, g, k, pid, host, io).0)
  {
    var msg := Inscribe(g.msg, pid, host);
    FlushChannels(s, io.flushOk);
    CmsgChannels(Flush(s, io.flushOk).0, Msg(KindSvc(k), msg[..5 + WireNameLength(|host|)]), io.ctrlOk);
    hide Channeled, Flush, PackCmsg;
  }

  lemma PongChannels(s: Sock, g: Pong, k: Kind, io: Io)
    requires Sane(s) && Channeled(s)
    ensures Channeled(PackPong(s, g, k, io).0)
  {
    var g1 := Identify(g, io).0;
    PingChannels(s, g1, k, g1.pid, g1.host, io);
    hide PackPing, Channeled;
  }

  lemma CheckChannels(s: Sock, g: Pong, io: Io)
    requires Sane(s) && Channeled(s)
    ensures Channeled(CheckMsg(s, g, io).s)
  {
    var t := Refill(s, io.arrival).0;
    assert Channeled(t);
    PongChannels(t, g, KPong, io);
    CheckSendSide(s, g, io);
    hide CheckMsg, PackPong;
  }

  lemma StepChannels(n: Node, op: Op)
    requires Sane(n.s) && Channeled(n.s) && ByChannel([op])
    ensures Channeled(Step(n, op).s)
  {
    assert op in [op];
    match op {
      case DoPack(m, io) => PackChannels(n.s, m, io.flushOk);
      case DoFlush(io) => FlushChannels(n.s, io.flushOk);
      case DoCmsg(m, io) => CmsgChannels(n.s, m, io.ctrlOk);
      case DoPing(k, pid, h, io) => PingChannels(n.s, n.g, k, pid, h, io);
      case DoPong(k, io) => PongChannels(n.s, n.g, k, io);
      case DoDiscard(io) =>
      case DoCheck(io) => CheckChannels(n.s, n.g, io);
      case DoCheckPing(io) => CheckChannels(n.s, n.g, io);
    }
    hide PackMsg, Flush, PackCmsg, PackPing, PackPong, CheckMsg;
  }

  lemma {:induction false} RunChannels(n: Node, ops: seq<Op>)
    requires Start(n) && ByChannel(ops)
    ensures Channeled(Run(n, ops).s)
  {
    hide Channeled, Step;
    if ops == [] {
      FreshChannels(n);
    } else {
      var pre, op := ops[..|ops| - 1], ops[|ops| - 1];
      RunChannels(n, pre);
      StepChannels(Run(n, pre), op);
    }
  }

  lemma FreshChannels(n: Node)
    requires Start(n)
    ensures Channeled(n.s)
  {
  }

  lemma MaskIsChannel(s: Sock)
    requires Channeled(s)
    ensures var bs, mask := Batches(Bytes(s.out)), DataMask(s.out);
      forall k :: 0 <= k < |bs| ==> DataOf(bs[k]) == if mask[k] then bs[k] else []
  {
    hide Records;
    var bs := Batches(Bytes(s.out));
    forall k | 0 <= k < |bs| ensures DataOf(bs[k]) == if DataMask(s.out)[k] then bs[k] else [] {
      DataOfBatch(bs[k], Be16(s.out[k].bytes, 4));
    }
  }

  // --- end to end ---

  /** A publisher runs any operations and ends with nothing pending; the network drops
      whole datagrams; a subscriber with an empty receive side makes at least as many
      calls as there is work. It gets exactly the datagrams that arrived, control ones
      included, each entirely; the data datagrams sent make up the accepted messages
      exactly when all packs were clean. */
  lemma EndToEnd(p: Node, ops: seq<Op>, keep: seq<bool>, n: Sub, ios: seq<Io>)
    requires Start(p) && Run(p, ops).s.pend == []
    requires |keep| == |Run(p, ops).s.out|
    requires Sane(n.s) && n.s.nrd == 0 && n.queue == Select(Bytes(Run(p, ops).s.out), keep)
    requires |ios| >= Work(n)
    ensures var out := Run(p, ops).s.out;
      var batches := Batches(Bytes(out));
      && Got(Results(n, ios)) == Flatten(Select(batches, keep))
      && (Flatten(Select(batches, DataMask(out))) == Accepted(p, ops) <==> AllClean(p, ops))
  {
    hide Batches, Run, Results, Work;
    PublisherBatches(p, ops);
    SubscriberGets(Bytes(Run(p, ops).s.out), keep, n, ios);
  }

  lemma KeepsData(keep: seq<bool>, out: seq<Sent>)
    requires |keep| == |out|
    ensures (forall k :: 0 <= k < |out| ==> keep[k] || out[k].ctrl) ==> Both(keep, DataMask(out)) == DataMask(out)
  {
  }

  /** When data keeps off the control channel, the messages got off that channel are those
      of the data datagrams that arrived; when the network drops none of these, they are
      what the publisher accepted, in order, exactly when all packs were clean. */
  lemma DataEndToEnd(p: Node, ops: seq<Op>, keep: seq<bool>, n: Sub, ios: seq<Io>)
    requires Start(p) && Run(p, ops).s.pend == [] && ByChannel(ops)
    requires |keep| == |Run(p, ops).s.out|
    requires Sane(n.s) && n.s.nrd == 0 && n.queue == Select(Bytes(Run(p, ops).s.out), keep)
    requires |ios| >= Work(n)
    ensures var out := Run(p, ops).s.out;
      && DataOf(Got(Results(n, ios))) == Flatten(Select(Batches(Bytes(out)), Both(keep, DataMask(out))))
      && ((forall k :: 0 <= k < |out| ==> keep[k] || out[k].ctrl) ==>
            (DataOf(Got(Results(n, ios))) == Accepted(p, ops) <==> AllClean(p, ops)))
  {
    var out := Run(p, ops).s.out;
    RunChannels(p, ops);
    MaskIsChannel(Run(p, ops).s);
    EndToEnd(p, ops, keep, n, ios);
    DataSelected(Batches(Bytes(out)), keep, DataMask(out));
    KeepsData(keep, out);
    hide *;
  }
}
