/** The receive side over runs of ud_chck_msg: each datagram is walked record by record,
    and what a subscriber gets is what the datagrams say. */
module Subscriber {
  import opened Wrappers
  import opened Wire
  import opened Engine
  import opened Publisher

  /** A node with the datagrams the kernel holds for it, oldest first. */
  datatype Sub = Sub(s: Sock, g: Pong, queue: seq<seq<byte>>)

  predicate Reads(s: Sock) {
    s.nck >= s.nrd && s.nrd == 0
  }

  function WithArrival(n: Sub, io: Io): Io {
    io.(arrival := if n.queue == [] then None else Some(n.queue[0]))
  }

  function Check(n: Sub, io: Io): (r: (Sub, Option<Msg>))
    requires Sane(n.s)
    ensures Sane(r.0.s)
  {
    var c := CheckMsg(n.s, n.g, WithArrival(n, io));
    (Sub(c.s, c.g, if Reads(n.s) && n.queue != [] then n.queue[1..] else n.queue), c.got)
  }

  function Calls(n: Sub, ios: seq<Io>): (r: Sub)
    requires Sane(n.s)
    ensures Sane(r.s)
    decreases |ios|
  {
    if ios == [] then n else Calls(Check(n, ios[0]).0, ios[1..])
  }

  function Results(n: Sub, ios: seq<Io>): (r: seq<Option<Msg>>)
    requires Sane(n.s)
    ensures |r| == |ios|
    decreases |ios|
  {
    if ios == [] then [] else [Check(n, ios[0]).1] + Results(Check(n, ios[0]).0, ios[1..])
  }

  function Taken(r: Option<Msg>): seq<Msg> {
    if r == None then [] else [r.value]
  }

  function Got(rs: seq<Option<Msg>>): seq<Msg> {
    if rs == [] then [] else Taken(rs[0]) + Got(rs[1..])
  }

  // --- well-formed datagrams ---

  predicate OwnFormat(b: seq<byte>) {
    HDR <= |b| <= ETH_MTU && Be16(b, 0) == 0x5544 && Framed(b[HDR..])
  }

  /** The unread payload. */
  function Unread(s: Sock): seq<byte> {
    if s.nck < s.nrd <= ROOM then s.mem[HDR + s.nck..HDR + s.nrd] else []
  }

  ghost predicate ReceiveInv(n: Sub) {
    Sane(n.s) && Framed(Unread(n.s)) && forall d :: d in n.queue ==> OwnFormat(d)
  }

  function Buffered(s: Sock): seq<Msg> {
    Label(Service(s), Records(Unread(s)))
  }

  function Flatten<T>(xss: seq<seq<T>>): seq<T> {
    if xss == [] then [] else xss[0] + Flatten(xss[1..])
  }

  lemma {:induction false} FlattenAppend<T>(xss: seq<seq<T>>, xs: seq<T>)
    ensures Flatten(xss + [xs]) == Flatten(xss) + xs
  {
    if xss == [] {
      assert xss + [xs] == [xs] && Flatten([xs]) == xs + Flatten([]);
    } else {
      FlattenAppend(xss[1..], xs);
      assert (xss + [xs])[1..] == xss[1..] + [xs];
    }
  }

  function Bytes(sent: seq<Sent>): (ds: seq<seq<byte>>)
    ensures |ds| == |sent|
    ensures forall k :: 0 <= k < |sent| ==> ds[k] == sent[k].bytes
  {
    seq(|sent|, k requires 0 <= k < |sent| => sent[k].bytes)
  }

  /** One list of messages per datagram. */
  function Batches(ds: seq<seq<byte>>): (bs: seq<seq<Msg>>)
    ensures |bs| == |ds|
    ensures forall k :: 0 <= k < |ds| ==> bs[k] == Decode(ds[k])
  {
    seq(|ds|, k requires 0 <= k < |ds| => Decode(ds[k]))
  }

  function QueueMsgs(q: seq<seq<byte>>): seq<Msg> {
    Flatten(Batches(q))
  }

  lemma QueueHead(q: seq<seq<byte>>)
    requires q != []
    ensures QueueMsgs(q) == Decode(q[0]) + QueueMsgs(q[1..])
  {
    assert Batches(q)[1..] == Batches(q[1..]);
  }

  /** Everything still to be received. */
  function Outstanding(n: Sub): seq<Msg>
    requires Sane(n.s)
  {
    Buffered(n.s) + QueueMsgs(n.queue)
  }

  function QueueWork(q: seq<seq<byte>>): nat {
    if q == [] then 0 else |Decode(q[0])| + 1 + QueueWork(q[1..])
  }

  /** The number of calls until the subscriber is idle: one per message and one more
      per datagram, the call that returns -1. */
  function Work(n: Sub): nat
    requires Sane(n.s)
  {
    (if n.s.nrd > 0 then |Buffered(n.s)| + 1 else 0) + QueueWork(n.queue)
  }

  function Somes(ms: seq<Msg>): seq<Option<Msg>> {
    if ms == [] then [] else [Some(ms[0])] + Somes(ms[1..])
  }

  /** The state in which a datagram has just been fetched. */
  lemma Fetch(s: Sock, d: seq<byte>)
    requires Sane(s) && s.nrd == 0 && OwnFormat(d)
    ensures var (t, ok) := Discard(s, Some(d));
      && ok && t.nck == 0 && t.nrd == |d| - HDR
      && Unread(t) == d[HDR..] && Service(t) == Be16(d, 4) && Be16(t.mem, 2) == Be16(d, 2)
  {
    var m := Deposit(s.mem, d);
    assert forall k :: 0 <= k < |d| ==> m[k] == d[k];
    assert m[HDR..|d|] == d[HDR..];
  }

  /** Where the next unread record lies in the receive buffer. */
  lemma NextRecord(s: Sock, k: nat)
    requires Sane(s) && s.nck < s.nrd && Framed(Unread(s)) && k == Unread(s)[1] as int + 2
    ensures var u, p := Unread(s), HDR + s.nck;
      && k <= |u| == s.nrd - s.nck
      && s.mem[p] == TYPE_DATA && s.mem[p + 1] as int + 2 == k
      && s.mem[p + 2..p + k] == u[2..k] && s.mem[p + k..HDR + s.nrd] == u[k..]
  {
    var u, p := Unread(s), HDR + s.nck;
    assert forall i :: 0 <= i < |u| ==> u[i] == s.mem[p + i];
  }

  /** Stepping over the next record takes its message off the buffered ones. */
  lemma StepOver(s: Sock, k: nat, t: Sock)
    requires Sane(s) && s.nck < s.nrd && Framed(Unread(s)) && k == Unread(s)[1] as int + 2
    requires Sane(t) && SameReceiveSide(t, s.(nck := s.nck + k))
    ensures var p := HDR + s.nck;
      && s.nck + 2 <= t.nck <= s.nrd && Framed(Unread(t))
      && Buffered(s) == [Msg(Service(s), s.mem[p + 2..p + k])] + Buffered(t)
  {
    var u := Unread(s);
    NextRecord(s, k);
    UnreadAfter(s, k, t);
    RecordsHead(u, k);
    LabelHead(Service(s), u[2..k], Records(u[k..]));
    hide Framed, Records, Label, Unread, Sane;
  }

  lemma UnreadAfter(s: Sock, k: nat, t: Sock)
    requires Sane(s) && s.nck < s.nrd && k <= |Unread(s)|
    requires SameReceiveSide(t, s.(nck := s.nck + k))
    ensures Unread(t) == Unread(s)[k..] && Service(t) == Service(s)
  {
  }

  /** One call with a record unread returns that record and steps over it. */
  lemma TakeRecord(s: Sock, g: Pong, io: Io)
    requires Sane(s) && s.nck < s.nrd && Framed(Unread(s))
    ensures var c := CheckMsg(s, g, io);
      && c.got != None && Buffered(s) == [c.got.value] + Buffered(c.s)
      && c.s.nrd == s.nrd && c.s.mem == s.mem
      && Framed(Unread(c.s)) && s.nck + 2 <= c.s.nck <= s.nrd
  {
    var k := Unread(s)[1] as int + 2;
    NextRecord(s, k);
    TakeBytes(s, g, io, k);
    hide CheckMsg, Framed, Buffered;
    StepOver(s, k, CheckMsg(s, g, io).s);
  }

  lemma TakeBytes(s: Sock, g: Pong, io: Io, k: nat)
    requires Sane(s) && s.nck < s.nrd
    requires s.mem[HDR + s.nck] == TYPE_DATA && s.mem[HDR + s.nck + 1] as int + 2 == k
    ensures var c, p := CheckMsg(s, g, io), HDR + s.nck;
      && c.got == Some(Msg(Service(s), s.mem[p + 2..p + k]))
      && c.s.mem == s.mem && c.s.nck == s.nck + k && c.s.nrd == s.nrd
  {
  }

  /** One call on an empty receive side with a datagram waiting fetches it and returns
      its first record, if it has one. */
  lemma TakeDatagram(s: Sock, g: Pong, io: Io, d: seq<byte>)
    requires Sane(s) && s.nrd == 0 && OwnFormat(d) && io.arrival == Some(d)
    ensures var c := CheckMsg(s, g, io);
      && c.s.nrd == |d| - HDR
      && Framed(Unread(c.s))
      && if |d| > HDR
         then c.got != None && Decode(d) == [c.got.value] + Buffered(c.s)
         else c.got == None && Decode(d) == [] && Unread(c.s) == []
  {
    Fetch(s, d);
    CheckFetches(s, g, io);
    var t := Discard(s, Some(d)).0;
    if |d| > HDR {
      TakeRecord(t, g, io);
      assert Buffered(t) == Decode(d);
    }
  }

  /** A call that fetches successfully goes on as if the datagram had been there. */
  lemma CheckFetches(s: Sock, g: Pong, io: Io)
    requires Sane(s) && s.nrd == 0 && Discard(s, io.arrival).1
    ensures var t := Discard(s, io.arrival).0;
      CheckMsg(s, g, io) == if t.nrd > 0 then CheckMsg(t, g, io) else Checked(t, g, None)
  {
  }

  /** Concatenation is associative, in the form the conservation steps use it. */
  lemma Chain<T>(a: seq<T>, b: seq<T>, ab: seq<T>, c: seq<T>)
    requires a + b == ab
    ensures a + (b + c) == ab + c
  {
  }

  lemma GotHead(r: Option<Msg>, rest: seq<Option<Msg>>)
    ensures Got([r] + rest) == Taken(r) + Got(rest)
  {
    assert ([r] + rest)[1..] == rest;
  }

  lemma SomesCons(m: Msg, ms: seq<Msg>)
    ensures [Some(m)] + (Somes(ms) + [None]) == Somes([m] + ms) + [None]
  {
    assert ([m] + ms)[1..] == ms;
  }

  lemma CheckConserves(n: Sub, io: Io)
    requires ReceiveInv(n)
    ensures ReceiveInv(Check(n, io).0)
    ensures Taken(Check(n, io).1) + Outstanding(Check(n, io).0) == Outstanding(n)
    ensures Work(Check(n, io).0) == if Work(n) == 0 then 0 else Work(n) - 1
  {
    var (n1, got) := Check(n, io);
    hide Check, QueueMsgs, Service;
    if n.s.nck < n.s.nrd {
      CheckTakes(n, io);
      Chain(Taken(got), Buffered(n1.s), Buffered(n.s), QueueMsgs(n.queue));
    } else if n.s.nrd == 0 && n.queue != [] {
      CheckFetchesOne(n, io);
      Chain(Taken(got), Buffered(n1.s), Decode(n.queue[0]), QueueMsgs(n1.queue));
    } else {
      IdleOrDrained(n, io);
    }
  }

  /** Without a record or a datagram a call returns -1 and at most forgets a drained one. */
  lemma IdleOrDrained(n: Sub, io: Io)
    requires ReceiveInv(n) && n.s.nck >= n.s.nrd && (n.s.nrd > 0 || n.queue == [])
    ensures var (n1, got) := Check(n, io);
      && got == None && n1.queue == n.queue && n1.s.nrd == 0 && n1.s.nck == 0
      && Unread(n1.s) == [] && Unread(n.s) == []
  {
  }

  lemma CheckTakes(n: Sub, io: Io)
    requires ReceiveInv(n) && n.s.nck < n.s.nrd
    ensures var (n1, got) := Check(n, io);
      && ReceiveInv(n1) && n1.queue == n.queue && n1.s.nrd == n.s.nrd
      && got != None && [got.value] + Buffered(n1.s) == Buffered(n.s)
  {
    TakeRecord(n.s, n.g, WithArrival(n, io));
  }

  lemma CheckFetchesOne(n: Sub, io: Io)
    requires ReceiveInv(n) && n.s.nrd == 0 && n.queue != []
    ensures var (n1, got) := Check(n, io);
      && ReceiveInv(n1) && n1.queue == n.queue[1..]
      && Taken(got) + Buffered(n1.s) == Decode(n.queue[0])
      && (got == None ==> n1.s.nrd == 0) && (got != None ==> n1.s.nrd > 0)
      && (got == None <==> |n.queue[0]| == HDR)
      && QueueMsgs(n.queue) == Decode(n.queue[0]) + QueueMsgs(n1.queue)
  {
    TakeDatagram(n.s, n.g, WithArrival(n, io), n.queue[0]);
    QueueHead(n.queue);
  }

  /** Fetching accepts a datagram by its own header alone: at least eight bytes, and the
      indicator or one of five magics. A rejected one leaves the receive side empty, an
      accepted one shows at most 1432 bytes of its payload, unchanged. Either way the first
      1440 bytes are in the buffer, and what lies behind them there is what was. */
  lemma FetchIff(s: Sock, d: seq<byte>)
    requires Sane(s) && s.nrd == 0
    ensures var (t, ok) := Discard(s, Some(d));
      && var cut := if |d| <= 1440 then |d| else 1440;
      && t.mem[..cut] == d[..cut] && t.mem[cut..] == s.mem[cut..]
      && (ok <==> |d| >= HDR && (Be16(d, 0) == 0x5544 || Be16(d, 6) in {0xbeef, 0xbeee, 0xcaff, 0xcafe, 0xda7a}))
      && (!ok ==> t.nrd == 0 && t.nck == 0)
      && (ok ==> t.nck == 0 && Service(t) == Be16(d, 4)
                 && Unread(t) == d[HDR..if |d| <= ETH_MTU then |d| else ETH_MTU])
  {
    var z := if |d| <= ETH_MTU then |d| else ETH_MTU;
    var m := Deposit(s.mem, d);
    assert forall k :: 0 <= k < z ==> m[k] == d[k];
    assert m[..z] == d[..z] && m[z..] == s.mem[z..];
    if |d| >= HDR {
      assert m[HDR..z] == d[HDR..z];
    }
  }

  /** Discarding with a datagram in the buffer forgets it, read or not, and takes nothing
      from the kernel. */
  lemma DiscardForgets(s: Sock, arrival: Option<seq<byte>>)
    requires Sane(s) && s.nrd > 0
    ensures var (t, ok) := Discard(s, arrival);
      ok && t == s.(nrd := 0, nck := 0) && Unread(t) == []
  {
  }

  /** With a byte unread a call returns a message exactly when the byte at the cursor is 12
      modulo 16; then it is the bytes behind the length, under the datagram's service. */
  lemma TagDecides(s: Sock, g: Pong, io: Io)
    requires Sane(s) && s.nck < s.nrd
    ensures var c, p := CheckMsg(s, g, io), 8 + s.nck;
      && (c.got != None <==> s.mem[p] as int % 16 == 12)
      && (c.got != None ==>
            && c.got.value.svc as int == 256 * s.mem[4] as int + s.mem[5]
            && |c.got.value.data| == s.mem[p] as int / 16 + s.mem[p + 1]
            && c.got.value.data <= s.mem[p + 2..]
            && c.s.mem == s.mem && c.s.nrd == s.nrd && c.s.nck == s.nck + |c.got.value.data| + 2)
      && (c.got == None ==> c.s.nrd == 0 && c.s.nck == 0)
  {
    hide PackPong;
  }

  /** The length the decoder adds up is the twelve-bit length its comment describes exactly
      when the tag's upper nibble is clear. */
  lemma TwelveBitLength(s: Sock, g: Pong, io: Io)
    requires Sane(s) && s.nck < s.nrd
    ensures var c, tag, len := NextMsg(s, g, io), s.mem[HDR + s.nck], s.mem[HDR + s.nck + 1];
      && (c.got != None <==> tag % 0x10 == TYPE_DATA)
      && (c.got != None ==>
            (|c.got.value.data| == tag as int / 0x10 * 0x100 + len <==> tag / 0x10 == 0))
  {
  }

  // --- draining one datagram ---

  /** With a datagram fetched, repeated calls return its unread records once each in
      order, then -1 exactly once, and leave the receive side empty. */
  lemma {:induction false} DrainRest(n: Sub, ios: seq<Io>)
    requires ReceiveInv(n) && n.s.nrd > 0
    requires |ios| == |Buffered(n.s)| + 1
    ensures Results(n, ios) == Somes(Buffered(n.s)) + [None]
    ensures Calls(n, ios).s.nrd == 0 && Calls(n, ios).s.nck == 0
    ensures Calls(n, ios).queue == n.queue
    decreases |ios|
  {
    var (n1, got) := Check(n, ios[0]);
    hide Check, Buffered;
    CheckConserves(n, ios[0]);
    if n.s.nck < n.s.nrd {
      CheckTakes(n, ios[0]);
      DrainRest(n1, ios[1..]);
      SomesCons(got.value, Buffered(n1.s));
    } else {
      IdleOrDrained(n, ios[0]);
      NothingBuffered(n.s);
      assert ios[1..] == [] && Results(n, ios) == [None] + Results(n1, []);
    }
  }

  lemma NothingBuffered(s: Sock)
    requires Sane(s)
    ensures s.nck >= s.nrd ==> Buffered(s) == []
  {
  }

  lemma {:induction false} DrainDatagram(n: Sub, ios: seq<Io>)
    requires ReceiveInv(n) && n.s.nrd == 0 && n.queue != [] && |n.queue[0]| > HDR
    requires |ios| == |Decode(n.queue[0])| + 1
    ensures Results(n, ios) == Somes(Decode(n.queue[0])) + [None]
    ensures Calls(n, ios).s.nrd == 0 && Calls(n, ios).s.nck == 0
    ensures Calls(n, ios).queue == n.queue[1..]
  {
    var (n1, got) := Check(n, ios[0]);
    var d := n.queue[0];
    CheckFetchesOne(n, ios[0]);
    hide Check, Buffered, Decode;
    DrainRest(n1, ios[1..]);
    SomesCons(got.value, Buffered(n1.s));
  }

  // --- walking arbitrary payload bytes ---

  /** Half the unread bytes, rounded up. */
  function Room(s: Sock): nat {
    if s.nck < s.nrd then (s.nrd - s.nck + 1) / 2 else 0
  }

  /** The length the decoder gives the record at the cursor, its two leading bytes excluded. */
  function LengthAt(mem: Memory, nck: nat): nat
    requires nck < ROOM
  {
    mem[HDR + nck] as int / 0x10 + mem[HDR + nck + 1]
  }

  function RecordAt(mem: Memory, nck: nat): Msg
    requires nck < ROOM
  {
    var p := HDR + nck + 2;
    Msg(Be16(mem, 4), mem[p..p + LengthAt(mem, nck)])
  }

  /** The records a walk over nrd payload bytes meets, wherever their bytes lie. */
  function Walk(mem: Memory, nrd: nat, nck: nat): seq<Msg>
    requires nrd <= ROOM
    decreases nrd - nck
  {
    if nck >= nrd || mem[HDR + nck] % 0x10 != TYPE_DATA then []
    else [RecordAt(mem, nck)] + Walk(mem, nrd, nck + LengthAt(mem, nck) + 2)
  }

  lemma WalkCons(mem: Memory, nrd: nat, nck: nat)
    requires nck < nrd <= ROOM && mem[HDR + nck] % 0x10 == TYPE_DATA
    ensures var w := Walk(mem, nrd, nck);
      w != [] && w[0] == RecordAt(mem, nck) && w[1..] == Walk(mem, nrd, nck + LengthAt(mem, nck) + 2)
  {
    hide RecordAt, LengthAt;
  }

  // --- which bytes a payload's records take ---

  /** The first record of a payload ends inside it. */
  predicate Ends(p: seq<byte>) {
    |p| >= 2 && p[0] as int / 0x10 + p[1] + 2 <= |p|
  }

  /** What follows the first record. */
  function Advance(p: seq<byte>): (r: seq<byte>)
    ensures p != [] ==> |r| < |p|
  {
    if Ends(p) then p[p[0] as int / 0x10 + p[1] + 2..] else []
  }

  /** Every record the walk reaches ends inside the payload. */
  predicate Covered(p: seq<byte>)
    decreases |p|
  {
    p == [] || p[0] % 0x10 != TYPE_DATA || (Ends(p) && Covered(Advance(p)))
  }

  /** The payload bytes from the cursor on. */
  function Span(mem: Memory, nrd: nat, nck: nat): seq<byte>
    requires nrd <= ROOM
  {
    if nck < nrd then mem[HDR + nck..HDR + nrd] else []
  }

  lemma SpanStep(mem: Memory, nrd: nat, nck: nat)
    requires nck < nrd <= ROOM
    ensures var p, next := Span(mem, nrd, nck), nck + LengthAt(mem, nck) + 2;
      && p != [] && p[0] == mem[HDR + nck]
      && (Ends(p) <==> next <= nrd)
      && Advance(p) == Span(mem, nrd, next)
  {
    var p := Span(mem, nrd, nck);
    assert |p| == nrd - nck && (|p| >= 2 ==> p[1] == mem[HDR + nck + 1]);
  }

  lemma CoveredStep(mem: Memory, nrd: nat, nck: nat)
    requires nck < nrd <= ROOM
    ensures var next := nck + LengthAt(mem, nck) + 2;
      Covered(Span(mem, nrd, nck)) <==>
        mem[HDR + nck] % 0x10 != TYPE_DATA || (next <= nrd && Covered(Span(mem, nrd, next)))
  {
    SpanStep(mem, nrd, nck);
    hide Span, Ends, Advance, LengthAt;
  }

  /** Memories that agree on header and payload. */
  predicate SameStart(mem: Memory, mem': Memory, nrd: nat)
    requires nrd <= ROOM
  {
    mem'[..HDR + nrd] == mem[..HDR + nrd]
  }

  /** The same memory with the first byte after the payload changed. */
  function Flip(mem: Memory, nrd: nat): (m: Memory)
    requires nrd <= ROOM
    ensures SameStart(mem, m, nrd) && m[HDR + nrd] != mem[HDR + nrd]
  {
    mem[HDR + nrd := if mem[HDR + nrd] == 0 then 1 else 0]
  }

  /** Memories that agree on header and payload agree on a record that ends inside it. */
  lemma Agree(mem: Memory, mem': Memory, nrd: nat, nck: nat)
    requires nck < nrd <= ROOM && SameStart(mem, mem', nrd)
    ensures mem'[HDR + nck] == mem[HDR + nck]
    ensures nck + LengthAt(mem, nck) + 2 <= nrd ==>
              LengthAt(mem', nck) == LengthAt(mem, nck) && RecordAt(mem', nck) == RecordAt(mem, nck)
  {
    var a, b := mem[..HDR + nrd], mem'[..HDR + nrd];
    assert forall i :: 0 <= i < HDR + nrd ==> a[i] == mem[i] && b[i] == mem'[i];
  }

  /** A record that ends beyond the payload holds the byte behind it, as length or as data. */
  lemma FlipsRecord(mem: Memory, nrd: nat, nck: nat)
    requires nck < nrd <= ROOM && nck + LengthAt(mem, nck) + 2 > nrd
    ensures RecordAt(Flip(mem, nrd), nck) != RecordAt(mem, nck)
  {
    var m, p, l := Flip(mem, nrd), HDR + nck + 2, LengthAt(mem, nck);
    if nck + 2 <= nrd {
      assert m[..HDR + nrd][HDR + nck] == mem[..HDR + nrd][HDR + nck];
      assert m[..HDR + nrd][HDR + nck + 1] == mem[..HDR + nrd][HDR + nck + 1];
      var i := nrd - nck - 2;
      assert mem[p..p + l][i] == mem[HDR + nrd] && m[p..p + l][i] == m[HDR + nrd];
    } else {
      assert m[..HDR + nrd][HDR + nck] == mem[..HDR + nrd][HDR + nck];
      assert |RecordAt(m, nck).data| == LengthAt(m, nck) != l == |RecordAt(mem, nck).data|;
    }
  }

  lemma SameEnds<T>(xs: seq<T>, ys: seq<T>)
    requires xs != [] && ys != [] && xs[0] == ys[0] && xs[1..] == ys[1..]
    ensures xs == ys
  {
    assert xs == [xs[0]] + xs[1..] && ys == [ys[0]] + ys[1..];
  }

  lemma {:induction false} WalkSame(mem: Memory, mem': Memory, nrd: nat, nck: nat)
    requires nrd <= ROOM && SameStart(mem, mem', nrd)
    requires Covered(Span(mem, nrd, nck))
    ensures Walk(mem', nrd, nck) == Walk(mem, nrd, nck)
    decreases nrd - nck
  {
    if nck < nrd {
      CoveredStep(mem, nrd, nck);
      Agree(mem, mem', nrd, nck);
      if mem[HDR + nck] % 0x10 == TYPE_DATA {
        WalkCons(mem, nrd, nck);
        WalkCons(mem', nrd, nck);
        hide Span, Covered, RecordAt, LengthAt, Walk, SameStart;
        WalkSame(mem, mem', nrd, nck + LengthAt(mem, nck) + 2);
        SameEnds(Walk(mem, nrd, nck), Walk(mem', nrd, nck));
      }
    }
  }

  lemma {:induction false} WalkFlips(mem: Memory, nrd: nat, nck: nat)
    requires nrd <= ROOM && !Covered(Span(mem, nrd, nck))
    ensures Walk(Flip(mem, nrd), nrd, nck) != Walk(mem, nrd, nck)
    decreases nrd - nck
  {
    var m, k := Flip(mem, nrd), LengthAt(mem, nck) + 2;
    assert nck < nrd;
    CoveredStep(mem, nrd, nck);
    Agree(mem, m, nrd, nck);
    WalkCons(mem, nrd, nck);
    WalkCons(m, nrd, nck);
    hide Span, Covered, RecordAt, LengthAt, Walk, SameStart;
    if nck + k <= nrd {
      WalkFlips(mem, nrd, nck + k);
    } else {
      FlipsRecord(mem, nrd, nck);
    }
  }

  /** What the walk meets is settled by the header and the payload, whatever lies behind
      them, exactly when every record it reaches ends inside the payload. */
  lemma WalkOwnIff(mem: Memory, nrd: nat, nck: nat)
    requires nrd <= ROOM
    ensures (forall mem': Memory :: SameStart(mem, mem', nrd) ==> Walk(mem', nrd, nck) == Walk(mem, nrd, nck))
      <==> Covered(Span(mem, nrd, nck))
  {
    hide Walk, Covered, Span, SameStart;
    if Covered(Span(mem, nrd, nck)) {
      forall mem': Memory | SameStart(mem, mem', nrd)
        ensures Walk(mem', nrd, nck) == Walk(mem, nrd, nck)
      {
        WalkSame(mem, mem', nrd, nck);
      }
    } else {
      WalkFlips(mem, nrd, nck);
    }
  }

  // --- which calls look at a record ---

  /** Records a walk over a payload reaches. */
  function Reached(p: seq<byte>): nat
    decreases |p|
  {
    if p == [] || p[0] % 0x10 != TYPE_DATA then 0 else 1 + Reached(Advance(p))
  }

  /** Calls that look at a tag: one per record reached, and one when a wrong tag ends the walk. */
  function Looks(p: seq<byte>): nat
    decreases |p|
  {
    if p == [] then 0 else 1 + if p[0] % 0x10 == TYPE_DATA then Looks(Advance(p)) else 0
  }

  /** No wrong tag ends the walk. */
  predicate Tagged(p: seq<byte>)
    decreases |p|
  {
    p == [] || (p[0] % 0x10 == TYPE_DATA && Tagged(Advance(p)))
  }

  lemma {:induction false} LooksReached(p: seq<byte>)
    ensures Looks(p) == Reached(p) + if Tagged(p) then 0 else 1
    decreases |p|
  {
    hide Advance;
    if p != [] && p[0] % 0x10 == TYPE_DATA {
      LooksReached(Advance(p));
    }
  }

  lemma FramedAdvance(p: seq<byte>)
    requires Framed(p) && p != []
    ensures p[0] % 0x10 == TYPE_DATA && Ends(p)
    ensures Framed(Advance(p)) && |Advance(p)| < |p| && |Records(p)| == 1 + |Records(Advance(p))|
  {
    var k := p[1] as int + 2;
    RecordsHead(p, k);
    assert Advance(p) == p[k..];
  }

  /** What the encoder frames is walked to its end, record by record, inside the payload. */
  lemma {:induction false} FramedWalks(p: seq<byte>)
    requires Framed(p)
    ensures Covered(p) && Tagged(p) && Looks(p) == |Records(p)|
    decreases |p|
  {
    if p != [] {
      FramedAdvance(p);
      hide Framed, Records, Ends, Advance;
      FramedWalks(Advance(p));
    }
  }

  lemma {:induction false} WalkReached(mem: Memory, nrd: nat, nck: nat)
    requires nrd <= ROOM
    ensures |Walk(mem, nrd, nck)| == Reached(Span(mem, nrd, nck))
    decreases nrd - nck
  {
    if nck < nrd {
      SpanStep(mem, nrd, nck);
      hide Span, Advance, Ends, LengthAt, RecordAt;
      if mem[HDR + nck] % 0x10 == TYPE_DATA {
        WalkReached(mem, nrd, nck + LengthAt(mem, nck) + 2);
      }
    }
  }

  lemma LooksStep(mem: Memory, nrd: nat, nck: nat)
    requires nck < nrd <= ROOM
    ensures Looks(Span(mem, nrd, nck)) ==
      1 + if mem[HDR + nck] % 0x10 == TYPE_DATA then Looks(Span(mem, nrd, nck + LengthAt(mem, nck) + 2)) else 0
  {
    SpanStep(mem, nrd, nck);
    hide Span, Ends, Advance, LengthAt;
  }

  // --- draining arbitrary bytes ---

  /** What lies behind the receive buffer: the socket's send side, which any call may change. */
  type Behind = b: seq<byte> | |b| == MEMORY - ETH_MTU witness seq(MEMORY - ETH_MTU, _ => 0)

  /** One call of the polling loop: the environment's answers, and what lies behind the
      buffer when the record is read. */
  datatype Call = Call(io: Io, behind: Behind)

  function Over(mem: Memory, behind: Behind): Memory {
    mem[..ETH_MTU] + behind
  }

  function Poll(n: Sub, c: Call): (r: (Sub, Option<Msg>))
    requires Sane(n.s)
    ensures Sane(r.0.s)
  {
    Check(n.(s := n.s.(mem := Over(n.s.mem, c.behind))), c.io)
  }

  /** The polling loop: call until -1, and collect the messages returned. The flag says
      that -1 came before the environment's answers ran out. */
  function Drain(n: Sub, calls: seq<Call>): (r: (Sub, seq<Msg>, bool))
    requires Sane(n.s)
    ensures Sane(r.0.s)
    decreases |calls|
  {
    if calls == [] then (n, [], false)
    else
      var (n1, got) := Poll(n, calls[0]);
      if got == None then (n1, [], true)
      else var (n2, msgs, done) := Drain(n1, calls[1..]); (n2, [got.value] + msgs, done)
  }

  /** One step of the walk: it ends, with the receive side emptied, or returns the record at
      the cursor and moves on behind it. */
  ghost predicate Walks(s: Sock, got: Option<Msg>, t: Sock)
    requires Sane(s) && Sane(t)
  {
    if s.nck >= s.nrd || s.mem[HDR + s.nck] % 0x10 != TYPE_DATA then got == None && t.nrd == 0 && t.nck == 0
    else
      && got == Some(RecordAt(s.mem, s.nck))
      && t.mem == s.mem && t.nrd == s.nrd && t.nck == s.nck + LengthAt(s.mem, s.nck) + 2
  }

  lemma UnreadIsSpan(s: Sock)
    requires Sane(s)
    ensures Unread(s) == Span(s.mem, s.nrd, s.nck)
  {
  }

  lemma NoLooks(mem: Memory, nrd: nat, nck: nat)
    requires nck >= nrd && nrd <= ROOM
    ensures Looks(Span(mem, nrd, nck)) == 0
  {
  }

  /** One step of a walk looks at one tag. */
  lemma WalksLooks(s: Sock, got: Option<Msg>, t: Sock)
    requires Sane(s) && Sane(t) && s.nck < s.nrd && Walks(s, got, t)
    ensures Looks(Unread(s)) == 1 + Looks(Unread(t))
  {
    hide Unread, Span, Looks, LengthAt, RecordAt;
    LooksStep(s.mem, s.nrd, s.nck);
    UnreadIsSpan(s);
    UnreadIsSpan(t);
    NoLooks(t.mem, 0, 0);
  }

  lemma NextWalks(s: Sock, g: Pong, io: Io)
    requires Sane(s) && s.nck < s.nrd
    ensures var c := NextMsg(s, g, io);
      Walks(s, c.got, c.s)
  {
    hide PackPong;
  }

  lemma CheckWalks(n: Sub, io: Io)
    requires Sane(n.s) && n.s.nrd > 0
    ensures var (n1, got) := Check(n, io);
      n1.queue == n.queue && Walks(n.s, got, n1.s)
  {
    if n.s.nck < n.s.nrd {
      NextWalks(n.s, n.g, WithArrival(n, io));
      hide NextMsg, Walks;
    }
  }

  lemma OverAgain(mem: Memory, b: Behind, nrd: nat)
    requires nrd <= ROOM
    ensures SameStart(mem, Over(mem, b), nrd)
    ensures forall b' :: Over(Over(mem, b), b') == Over(mem, b')
  {
    assert HDR + nrd <= ETH_MTU;
    assert Over(mem, b)[..HDR + nrd] == mem[..HDR + nrd];
  }

  /** One record, and the walk behind it over other memory beyond the buffer: together a
      walk over that memory, or the whole walk if it ends here. */
  lemma WalkOn(s: Sock, got: Option<Msg>, t: Sock, b: Behind)
    requires Sane(s) && Sane(t) && Walks(s, got, t) && got != None
    ensures Room(t) < Room(s)
    ensures var msgs := [got.value] + Walk(Over(s.mem, b), s.nrd, t.nck);
      msgs == Walk(if t.nck <= s.nrd then Over(s.mem, b) else s.mem, s.nrd, s.nck)
  {
    var m := Over(s.mem, b);
    OverAgain(s.mem, b, s.nrd);
    WalkCons(s.mem, s.nrd, s.nck);
    if t.nck <= s.nrd {
      Agree(s.mem, m, s.nrd, s.nck);
      WalkCons(m, s.nrd, s.nck);
    }
    hide RecordAt, LengthAt, SameStart, Over;
  }

  /** Draining what is left of a fetched datagram, whatever bytes it holds and whatever
      happens behind the buffer meanwhile: the records of one walk, over the buffer and what
      lay behind it during one of the calls. */
  lemma {:induction false} DrainAny(n: Sub, calls: seq<Call>) returns (k: nat)
    requires Sane(n.s) && n.s.nrd > 0 && |calls| > Room(n.s)
    ensures var (n', msgs, done) := Drain(n, calls);
      && done && |msgs| <= Room(n.s) && n'.s.nrd == 0 && n'.s.nck == 0 && n'.queue == n.queue
      && k < |calls| && msgs == Walk(Over(n.s.mem, calls[k].behind), n.s.nrd, n.s.nck)
    decreases |calls|
  {
    var b := calls[0].behind;
    var s0 := n.s.(mem := Over(n.s.mem, b));
    var (n1, got) := Poll(n, calls[0]);
    CheckWalks(n.(s := s0), calls[0].io);
    hide Check, RecordAt, LengthAt, Over, SameStart, Room;
    if got == None {
      return 0;
    }
    var i := DrainAny(n1, calls[1..]);
    var b' := calls[1..][i].behind;
    WalkOn(s0, got, n1.s, b');
    OverAgain(n.s.mem, b, n.s.nrd);
    k := if n1.s.nck <= n.s.nrd then i + 1 else 0;
  }

  /** Payload bytes of a datagram as received: a longer one is cut, a shorter one has none. */
  function PayloadSize(d: seq<byte>): nat {
    if |d| < HDR then 0 else if |d| <= ETH_MTU then |d| - HDR else ROOM
  }

  /** The payload of a datagram as received. */
  function Payload(d: seq<byte>): seq<byte> {
    if |d| < HDR then [] else d[HDR..HDR + PayloadSize(d)]
  }

  /** The datagrams a fetch accepts. */
  predicate Acceptable(d: seq<byte>) {
    |d| >= HDR && GoodMagic(d)
  }

  lemma AnyBytesFetch(s: Sock, d: seq<byte>)
    requires Sane(s) && s.nrd == 0
    ensures var (t, ok) := Discard(s, Some(d));
      && (ok <==> Acceptable(d)) && t.nck == 0
      && t.nrd == (if ok then PayloadSize(d) else 0) && (ok ==> t.mem == Deposit(s.mem, d))
  {
    if |d| >= HDR {
      var m := Deposit(s.mem, d);
      assert forall k :: 0 <= k < HDR ==> m[k] == d[k];
    }
  }

  /** A call on a waiting datagram takes the first step of the walk over it. */
  lemma CheckWaiting(n: Sub, io: Io)
    requires Sane(n.s) && n.s.nrd == 0 && n.queue != []
    ensures var t, (n1, got) := Discard(n.s, Some(n.queue[0])).0, Check(n, io);
      && n1.queue == n.queue[1..]
      && if t.nrd > 0 then Walks(t, got, n1.s) else got == None && n1.s == t
  {
    var t := Discard(n.s, Some(n.queue[0])).0;
    AnyBytesFetch(n.s, n.queue[0]);
    if t.nrd > 0 {
      NextWalks(t, n.g, WithArrival(n, io));
    }
    hide NextMsg, Acceptable, Deposit, GoodMagic, Walks;
  }

  /** What draining a datagram meets in the receive buffer and behind it. */
  function WalkFetched(mem: Memory, d: seq<byte>): seq<Msg> {
    if Acceptable(d) then Walk(Deposit(mem, d), PayloadSize(d), 0) else []
  }

  /** A deposit stays inside the buffer. */
  lemma DepositOver(mem: Memory, b: Behind, b': Behind, d: seq<byte>)
    ensures Over(Deposit(Over(mem, b), d), b') == Deposit(Over(mem, b'), d)
  {
    var z := if |d| <= ETH_MTU then |d| else ETH_MTU;
    hide Over;
    DepositFront(Over(mem, b), d, z);
    DepositFront(Over(mem, b'), d, z);
    OverFront(mem, b, z);
    OverFront(mem, b', z);
    OverIs(Deposit(Over(mem, b), d), b');
  }

  lemma OverFront(mem: Memory, b: Behind, z: nat)
    requires z <= ETH_MTU
    ensures Over(mem, b)[z..ETH_MTU] == mem[z..ETH_MTU] && Over(mem, b)[ETH_MTU..] == b
  {
  }

  lemma OverIs(mem: Memory, b: Behind)
    ensures Over(mem, b) == mem[..ETH_MTU] + b
  {
  }

  /** A deposit in the buffer proper. */
  lemma DepositFront(mem: Memory, d: seq<byte>, z: nat)
    requires z == if |d| <= ETH_MTU then |d| else ETH_MTU
    ensures Deposit(mem, d)[..ETH_MTU] == d[..z] + mem[z..ETH_MTU]
    ensures Deposit(mem, d) == d[..z] + mem[z..ETH_MTU] + mem[ETH_MTU..]
  {
  }

  /** Whatever bytes a datagram holds and whatever happens behind the buffer meanwhile,
      draining it returns the records of one walk over its payload, at most half as many as
      the payload has bytes, rounded up, then -1, and leaves the receive side empty. */
  lemma DrainAnyDatagram(n: Sub, calls: seq<Call>)
    requires Sane(n.s) && n.s.nrd == 0 && n.queue != [] && |calls| > (PayloadSize(n.queue[0]) + 1) / 2
    ensures var (n', msgs, done) := Drain(n, calls);
      && done && |msgs| <= (PayloadSize(n.queue[0]) + 1) / 2
      && n'.s.nrd == 0 && n'.s.nck == 0 && n'.queue == n.queue[1..]
      && exists k :: 0 <= k < |calls| && msgs == WalkFetched(Over(n.s.mem, calls[k].behind), n.queue[0])
  {
    var k := DrainedOver(n, calls);
  }

  lemma DrainedOver(n: Sub, calls: seq<Call>) returns (k: nat)
    requires Sane(n.s) && n.s.nrd == 0 && n.queue != [] && |calls| > (PayloadSize(n.queue[0]) + 1) / 2
    ensures var (n', msgs, done) := Drain(n, calls);
      && done && |msgs| <= (PayloadSize(n.queue[0]) + 1) / 2
      && n'.s.nrd == 0 && n'.s.nck == 0 && n'.queue == n.queue[1..]
      && k < |calls| && msgs == WalkFetched(Over(n.s.mem, calls[k].behind), n.queue[0])
  {
    var d, b := n.queue[0], calls[0].behind;
    var n0 := n.(s := n.s.(mem := Over(n.s.mem, b)));
    var t := Discard(n0.s, Some(d)).0;
    var (n1, got) := Poll(n, calls[0]);
    AnyBytesFetch(n0.s, d);
    CheckWaiting(n0, calls[0].io);
    hide Check, PayloadSize, Deposit, Acceptable, Discard, RecordAt, LengthAt, Over, SameStart;
    if got == None {
      return 0;
    }
    var i := DrainAny(n1, calls[1..]);
    var b' := calls[1..][i].behind;
    WalkOn(t, got, n1.s, b');
    DepositOver(n.s.mem, b, b', d);
    k := if n1.s.nck <= t.nrd then i + 1 else 0;
  }

  /** Depositing a datagram settles header and payload, and nothing behind them. */
  lemma DepositStarts(mem: Memory, d: seq<byte>)
    requires |d| >= HDR
    ensures Span(Deposit(mem, d), PayloadSize(d), 0) == Payload(d)
    ensures forall m: Memory :: SameStart(Deposit(mem, d), Deposit(m, d), PayloadSize(d))
    ensures forall m: Memory :: SameStart(Deposit(mem, d), m, PayloadSize(d)) ==> Deposit(m, d) == m
  {
    var z := HDR + PayloadSize(d);
    forall m: Memory ensures Deposit(m, d)[..z] == d[..z] {
    }
    forall m: Memory | SameStart(Deposit(mem, d), m, PayloadSize(d)) ensures Deposit(m, d) == m {
      assert m[..z] == d[..z] && m == m[..z] + m[z..];
    }
  }

  /** What an acceptable datagram's walk meets is settled by the datagram alone, whatever
      the receive buffer held before and what lies behind it, exactly when its payload
      covers its records. */
  lemma FetchedOwnIff(mem: Memory, d: seq<byte>)
    requires Acceptable(d)
    ensures (forall m: Memory :: WalkFetched(m, d) == WalkFetched(mem, d)) <==> Covered(Payload(d))
  {
    var at, z := Deposit(mem, d), PayloadSize(d);
    DepositStarts(mem, d);
    WalkOwnIff(at, z, 0);
    hide Walk, Covered, Span, SameStart, Deposit, Payload, PayloadSize, Acceptable;
    if !Covered(Payload(d)) {
      var m: Memory :| SameStart(at, m, z) && Walk(m, z, 0) != Walk(at, z, 0);
      assert WalkFetched(m, d) != WalkFetched(mem, d);
    }
  }

  /** A drain of the same datagram by as many calls, over any memory. */
  function DrainedFrom(n: Sub, mem: Memory, calls: seq<Call>): seq<Msg>
    requires Sane(n.s)
  {
    Drain(n.(s := n.s.(mem := mem)), calls).1
  }

  /** The messages drained from a datagram are settled by the datagram alone, whatever the
      receive buffer held before and whatever happens behind it meanwhile, exactly when it
      is not accepted or every record the decoder reaches ends inside the payload. */
  lemma DrainOwnIff(n: Sub, calls: seq<Call>)
    requires Sane(n.s) && n.s.nrd == 0 && n.queue != [] && |calls| > (PayloadSize(n.queue[0]) + 1) / 2
    ensures (forall mem: Memory, calls' :: |calls'| == |calls| ==> DrainedFrom(n, mem, calls') == Drain(n, calls).1)
      <==> !Acceptable(n.queue[0]) || Covered(Payload(n.queue[0]))
  {
    var d := n.queue[0];
    var k := DrainedOver(n, calls);
    var base := Over(n.s.mem, calls[k].behind);
    hide Drain, Walk, Covered, Payload, Over, Deposit;
    if !Acceptable(d) || Covered(Payload(d)) {
      forall mem: Memory, calls': seq<Call> | |calls'| == |calls|
        ensures DrainedFrom(n, mem, calls') == Drain(n, calls).1
      {
        var k' := DrainedOver(n.(s := n.s.(mem := mem)), calls');
        if Acceptable(d) { FetchedOwnIff(base, d); }
      }
    } else {
      FetchedOwnIff(base, d);
      var m: Memory :| WalkFetched(m, d) != WalkFetched(base, d);
      var calls' := Still(m, calls);
      var k' := DrainedOver(n.(s := n.s.(mem := m)), calls');
      assert DrainedFrom(n, m, calls') == WalkFetched(m, d);
    }
  }

  /** The same calls with the memory behind the buffer left alone. */
  function Still(mem: Memory, calls: seq<Call>): (r: seq<Call>)
    ensures |r| == |calls|
    ensures forall k :: 0 <= k < |r| ==> Over(mem, r[k].behind) == mem
  {
    seq(|calls|, k requires 0 <= k < |calls| => Call(calls[k].io, mem[ETH_MTU..]))
  }

  /** A payload of two bytes that names one byte of data: the message returned holds what
      the buffer held behind it. */
  lemma ReadsOn(n: Sub, io: Io, pno: nat, svc: u16)
    requires Sane(n.s) && n.s.nrd == 0 && n.queue != [] && n.queue[0] == Header(pno, svc) + [TYPE_DATA, 1]
    ensures Check(n, io).1 == Some(Msg(svc, [n.s.mem[HDR + 2]]))
  {
    var d := n.queue[0];
    var m := Deposit(n.s.mem, d);
    Prefixed(Header(pno, svc), [TYPE_DATA, 1]);
    AnyBytesFetch(n.s, d);
    CheckWaiting(n, io);
    assert m[HDR + 2] == n.s.mem[HDR + 2];
    hide Check, Deposit, Discard;
    assert RecordAt(m, 0) == Msg(svc, [n.s.mem[HDR + 2]]);
  }

  /** ud_get_aux() on the i-th datagram of a socket reports packet number i modulo 2^16. */
  lemma AuxNumbers(s: Sock, d: seq<byte>, i: nat)
    requires Sane(s) && s.nrd == 0 && GoodDatagram(d, i)
    ensures GetAux(Discard(s, Some(d)).0) == Some(Aux(i % 0x1_0000, Be16(d, 4), |d| - HDR))
  {
    assert forall k :: 0 <= k < HDR ==> d[..HDR][k] == d[k];
    Fetch(s, d);
  }

  /** After a call that returns a message, ud_get_aux() reports the number and size of the
      datagram it is from, and the message's own service. */
  lemma AuxAfter(s: Sock, g: Pong, io: Io)
    requires Sane(s)
    ensures var c := CheckMsg(s, g, io);
      && (c.got != None ==> GetAux(c.s) == Some(Aux(Be16(c.s.mem, 2), c.got.value.svc, c.s.nrd)))
      && (c.got == None && s.nrd > 0 ==> GetAux(c.s) == None)
  {
    hide PackPong, Deposit;
  }

  /** While a datagram's records are taken, header and size stay; the -1 behind them ends both. */
  lemma {:induction false} AuxStays(n: Sub, ios: seq<Io>)
    requires Sane(n.s) && Framed(Unread(n.s)) && n.s.nrd > 0 && |ios| <= |Buffered(n.s)| + 1
    ensures GetAux(Calls(n, ios).s) == if |ios| <= |Buffered(n.s)| then GetAux(n.s) else None
    decreases |ios|
  {
    if ios != [] {
      var n1 := Check(n, ios[0]).0;
      if n.s.nck < n.s.nrd {
        TakeRecord(n.s, n.g, WithArrival(n, ios[0]));
        hide CheckMsg, Buffered, Framed;
        AuxStays(n1, ios[1..]);
      } else {
        NothingBuffered(n.s);
        AuxAfter(n.s, n.g, WithArrival(n, ios[0]));
        hide CheckMsg, Buffered, Framed, GetAux;
        assert ios[1..] == [] && Calls(n, ios) == n1;
      }
    }
  }

  /** Every call that returns a message of the i-th datagram of a socket finds ud_get_aux()
      reporting number i modulo 2^16, the message's service and the whole payload size, the
      same for all its records; after the -1 that ends the drain it reports nothing. */
  lemma AuxThroughout(n: Sub, ios: seq<Io>, i: nat)
    requires Sane(n.s) && n.s.nrd == 0 && n.queue != [] && GoodDatagram(n.queue[0], i)
    requires 1 <= |ios| <= |Decode(n.queue[0])| + 1
    ensures var d := n.queue[0];
      GetAux(Calls(n, ios).s) ==
        if |ios| <= |Decode(d)| then Some(Aux(i % 0x1_0000, Be16(d, 4), |d| - 8)) else None
    ensures forall m :: m in Decode(n.queue[0]) ==> m.svc == Be16(n.queue[0], 4)
  {
    hide Check, GetAux, Buffered, Framed, Decode, GoodDatagram, Unread;
    AuxFirst(n, ios[0], i);
    AuxStays(Check(n, ios[0]).0, ios[1..]);
    OneService(n.queue[0]);
  }

  lemma AuxFirst(n: Sub, io: Io, i: nat)
    requires Sane(n.s) && n.s.nrd == 0 && n.queue != [] && GoodDatagram(n.queue[0], i)
    ensures var d, s1 := n.queue[0], Check(n, io).0.s;
      && GetAux(s1) == Some(Aux(i % 0x1_0000, Be16(d, 4), |d| - 8)) && s1.nrd > 0
      && Framed(Unread(s1)) && |Decode(d)| == 1 + |Buffered(s1)|
  {
    var d := n.queue[0];
    hide CheckMsg, GetAux, Buffered, Framed, Decode, Discard, Unread;
    GoodIsOwn(d, i);
    AuxNumbers(n.s, d, i);
    FetchedBefore(n.s, n.g, WithArrival(n, io), d);
  }

  lemma GoodIsOwn(d: seq<byte>, i: nat)
    requires GoodDatagram(d, i)
    ensures OwnFormat(d) && |d| > HDR
  {
    assert forall k :: 0 <= k < HDR ==> d[..HDR][k] == d[k];
  }

  lemma OneService(d: seq<byte>)
    requires |d| >= HDR
    ensures forall m :: m in Decode(d) ==> m.svc == Be16(d, 4)
  {
  }

  /** The first call leaves what the datagram's header and size say, and one record less. */
  lemma FetchedBefore(s: Sock, g: Pong, io: Io, d: seq<byte>)
    requires Sane(s) && s.nrd == 0 && OwnFormat(d) && |d| > HDR && io.arrival == Some(d)
    ensures var c, t := CheckMsg(s, g, io), Discard(s, Some(d)).0;
      && GetAux(c.s) == GetAux(t) && c.s.nrd > 0 && Framed(Unread(c.s))
      && |Decode(d)| == 1 + |Buffered(c.s)|
  {
    var t := Discard(s, Some(d)).0;
    TakeDatagram(s, g, io, d);
    Fetch(s, d);
    CheckFetches(s, g, io);
    TakeRecord(t, g, io);
    hide CheckMsg, Discard, Buffered, Framed, Decode;
  }

  // --- any number of calls ---

  /** Over any number of calls: what was received, what is buffered and what is queued
      together are the messages of the arriving datagrams, in order. */
  lemma {:induction false} CallsConserve(n: Sub, ios: seq<Io>)
    requires ReceiveInv(n)
    ensures ReceiveInv(Calls(n, ios))
    ensures Got(Results(n, ios)) + Outstanding(Calls(n, ios)) == Outstanding(n)
    ensures Work(Calls(n, ios)) == if Work(n) <= |ios| then 0 else Work(n) - |ios|
    decreases |ios|
  {
    hide Outstanding, Work, Check;
    if ios != [] {
      var (n1, got) := Check(n, ios[0]);
      var rest := Results(n1, ios[1..]);
      CheckConserves(n, ios[0]);
      CallsConserve(n1, ios[1..]);
      GotHead(got, rest);
      Chain(Taken(got), Got(rest), Got(Results(n, ios)), Outstanding(Calls(n, ios)));
    }
  }

  lemma {:induction false} NoWork(n: Sub)
    requires ReceiveInv(n) && Work(n) == 0
    ensures Outstanding(n) == [] && n.queue == [] && n.s.nrd == 0
  {
  }
}
