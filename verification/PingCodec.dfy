/** PING and PONG messages: what is packed is what ud_chck_ping recovers, exactly for
    host names of at most 58 bytes, through a static buffer that both sides overwrite. */
module PingCodec {
  import opened Wrappers
  import opened Wire
  import opened Engine
  import opened Publisher
  import opened Subscriber

  /** The payload of the control message for an identity. */
  function Inscription(pid: u32, host: seq<byte>): (b: seq<byte>)
    ensures |b| == 5 + WireNameLength(|host|)
  {
    var z := WireNameLength(|host|);
    Be32(pid) + [z] + host[..z]
  }

  function PingDatagram(pno: nat, k: Kind, pid: u32, host: seq<byte>): seq<byte> {
    Header(pno, KindSvc(k)) + Record(Inscription(pid, host))
  }

  lemma InscribePrefix(msg: Scratch, pid: u32, host: seq<byte>)
    ensures Inscribe(msg, pid, host)[..5 + WireNameLength(|host|)] == Inscription(pid, host)
  {
  }

  /** Packing a PING or PONG flushes, then always passes the control-size check: it
      succeeds exactly when the send does, whatever the length of the host name. */
  lemma PackPingSends(s: Sock, g: Pong, k: Kind, pid: u32, host: seq<byte>, io: Io)
    requires Sane(s)
    ensures var s1, (t, _, ok) := Flush(s, io.flushOk).0, PackPing(s, g, k, pid, host, io);
      && (ok <==> io.ctrlOk)
      && t == if !io.ctrlOk then s1 else
           s1.(pno := s1.pno + 1, out := s1.out + [Sent(true, PingDatagram(s1.pno, k, pid, host))])
  {
    InscribePrefix(g.msg, pid, host);
  }

  lemma PingDatagramFormat(pno: nat, k: Kind, pid: u32, host: seq<byte>)
    ensures var d := PingDatagram(pno, k, pid, host);
      && OwnFormat(d) && |d| > HDR && Be16(d, 4) == KindSvc(k) && |d| <= HDR + 66
      && Decode(d) == [Msg(KindSvc(k), Inscription(pid, host))]
  {
    RecordFramed(Inscription(pid, host));
    DecodeDatagram(pno, KindSvc(k), Record(Inscription(pid, host)));
    Prefixed(Header(pno, KindSvc(k)), Record(Inscription(pid, host)));
  }

  /** Reading an inscription from a buffer whose first bytes it has replaced. */
  lemma Reread(pid: u32, host: seq<byte>, before: Scratch)
    ensures var b, z := Inscription(pid, host), WireNameLength(|host|);
      && |b| <= 64
      && var msg := b + before[|b|..];
         && FromBe32(msg[..4]) == pid && msg[4] == z && msg[5..5 + z] == host[..z]
  {
    var b := Inscription(pid, host);
    var msg := b + before[|b|..];
    assert msg[..4] == Be32(pid);
    Be32RoundTrip(pid);
  }

  // --- the static buffer, byte by byte ---

  /** A 32-bit number, highest byte first. */
  predicate Spells(b: seq<byte>, pid: u32) {
    |b| >= 4 && pid as int == ((b[0] as int * 256 + b[1]) * 256 + b[2]) * 256 + b[3]
  }

  lemma Be32Spells(pid: u32)
    ensures Spells(Be32(pid), pid)
  {
  }

  lemma FromBe32Spells(b: seq<byte>)
    requires |b| >= 4
    ensures Spells(b, FromBe32(b[..4]))
  {
  }

  /** What is written for a host name: cut modulo 256, and to 59 when above 58. */
  function Written(host: seq<byte>): (w: seq<byte>) {
    if |host| % 256 > 58 then host[..59] else host[..|host| % 256]
  }

  /** The statics after packing: pid, length byte and name over what was there; a datagram
      goes out under 0xff04 or 0xff05, one record long, that holds just these bytes. */
  lemma PackPingLeaves(s: Sock, g: Pong, k: Kind, pid: u32, host: seq<byte>, io: Io)
    requires Sane(s)
    ensures var (t, g1, ok) := PackPing(s, g, k, pid, host, io);
      var w := Written(host);
      && g1.host == g.host && g1.pid == g.pid
      && Spells(g1.msg, pid) && g1.msg[4] as int == |w|
      && g1.msg[5..5 + |w|] == w && g1.msg[5 + |w|..] == g.msg[5 + |w|..]
      && (ok ==> t.out != [] && var b := t.out[|t.out| - 1].bytes;
            && |b| == 15 + |w| && b[4] == 0xff && b[5] == (if k == KPing then 4 else 5)
            && b[8] == 12 && b[9] as int == 5 + |w| && b[10..] == g1.msg[..5 + |w|])
  {
    InscribeBytes(g.msg, pid, host);
    InscribePrefix(g.msg, pid, host);
    PackPingSends(s, g, k, pid, host, io);
    PingBytes(Flush(s, io.flushOk).0.pno, k, pid, host);
    hide Flush, PackCmsg, Inscribe, Inscription, PingDatagram, Written;
  }

  lemma InscribeBytes(msg: Scratch, pid: u32, host: seq<byte>)
    ensures var m, w := Inscribe(msg, pid, host), Written(host);
      && Spells(m, pid) && m[4] as int == |w| == WireNameLength(|host|)
      && m[5..5 + |w|] == w && m[5 + |w|..] == msg[5 + |w|..]
  {
    var m := Inscribe(msg, pid, host);
    Be32Spells(pid);
    assert m[..4] == Be32(pid);
    assert forall i :: 0 <= i < 4 ==> m[i] == m[..4][i];
  }

  lemma PingBytes(pno: nat, k: Kind, pid: u32, host: seq<byte>)
    ensures var b, w := PingDatagram(pno, k, pid, host), WireNameLength(|host|);
      && |b| == 15 + w && b[4] == 0xff && b[5] == (if k == KPing then 4 else 5)
      && b[8] == 12 && b[9] as int == 5 + w && b[10..] == Inscription(pid, host)
  {
  }

  /** What a check leaves behind. The socket is the one ud_chck_msg leaves, in every case. A
      record not inspected leaves the statics alone; an inspected one lies over the buffer
      from its start, and once accepted the reported name is ended by a 0 there. */
  lemma CheckPingLeaves(s: Sock, g: Pong, io: Io)
    requires Sane(s)
    ensures var c, (t, g1, p) := CheckMsg(s, g, io), CheckPing(s, g, io);
      && t == c.s
      && (c.got == None || !Inspected(c.got.value) ==> g1 == c.g && p == None)
      && (c.got != None && Inspected(c.got.value) ==>
            && g1.host == c.g.host && g1.pid == c.g.pid
            && (p == None ==> LiesOver(g1.msg, c.got.value.data, c.g.msg, 64) && g1.msg[4] > 58)
            && (p != None ==>
                  && var z := |p.value.host|;
                  && z <= 58 && g1.msg[4] as int == z
                  && Spells(g1.msg, p.value.pid) && g1.msg[5..5 + z] == p.value.host && g1.msg[5 + z] == 0
                  && LiesOver(g1.msg, c.got.value.data, c.g.msg, 5 + z)))
  {
    hide CheckMsg, FromBe32;
    var c := CheckMsg(s, g, io);
    var (_, g1, p) := CheckPing(s, g, io);
    if c.got != None {
      assert c.got.value.svc - c.got.value.svc % 2 == PING <==> c.got.value.svc in {PING, PONG};
      if Inspected(c.got.value) && p != None {
        FromBe32Spells(g1.msg);
        var msg := c.got.value.data + c.g.msg[|c.got.value.data|..];
        assert msg[..4] == g1.msg[..4];
      }
    }
  }

  /** msg is data laid over the start of before, except at one place. */
  predicate LiesOver(msg: Scratch, data: seq<byte>, before: Scratch, except: nat) {
    forall i :: 0 <= i < 64 && i != except ==> msg[i] == if i < |data| then data[i] else before[i]
  }

  // --- records from anywhere ---

  /** The records the checker copies over the static buffer. */
  predicate Inspected(m: Msg) {
    |m.data| <= 64 && m.svc in {PING, PONG}
  }

  /** What such a record reads as once it lies over the buffer. */
  function Extract(m: Msg, before: Scratch): Option<Ping>
    requires Inspected(m)
  {
    var msg := m.data + before[|m.data|..];
    if msg[4] > MAX_HNZ then None
    else Some(Ping(if m.svc == PONG then KPong else KPing, FromBe32(msg[..4]), msg[5..5 + msg[4] as int]))
  }

  lemma CheckPingExtracts(s: Sock, g: Pong, io: Io)
    requires Sane(s)
    ensures var c := CheckMsg(s, g, io);
      CheckPing(s, g, io).2 ==
        if c.got == None || !Inspected(c.got.value) then None else Extract(c.got.value, c.g.msg)
  {
    hide CheckMsg, FromBe32;
    var c := CheckMsg(s, g, io);
    if c.got != None {
      assert c.got.value.svc - c.got.value.svc % 2 == PING <==> c.got.value.svc in {PING, PONG};
    }
  }

  /** A record that holds its own length byte and, unless that is refused, the whole name. */
  predicate SelfContained(data: seq<byte>) {
    |data| >= 5 && (data[4] > 58 || |data| >= 5 + data[4] as int)
  }

  /** Kind, pid and name as the record itself states them. */
  function Own(m: Msg): Option<Ping>
    requires SelfContained(m.data)
  {
    if m.data[4] > 58 then None
    else Some(Ping(if m.svc == PONG then KPong else KPing, FromBe32(m.data[..4]), m.data[5..5 + m.data[4] as int]))
  }

  lemma ExtractOwn(m: Msg, before: Scratch)
    requires Inspected(m) && SelfContained(m.data)
    ensures Extract(m, before) == Own(m)
  {
    var msg := m.data + before[|m.data|..];
    assert msg[..4] == m.data[..4];
    if msg[4] <= 58 {
      assert msg[5..5 + msg[4] as int] == m.data[5..5 + m.data[4] as int];
    }
  }

  /** Statics that an automatic PONG leaves as they are: the buffer already holds the
      identity, of pid 0 and a name of z equal bytes. */
  function Stale(z: byte, fill: byte): (g: Pong)
    requires 1 <= z <= 59
    ensures g.host != [] && g.msg[4] == z && forall i :: 5 <= i < 64 ==> g.msg[i] == fill
  {
    Pong([0, 0, 0, 0, z] + seq(59, _ => fill), seq(z, _ => fill), 0)
  }

  lemma Restates(z: byte, fill: byte)
    requires 1 <= z <= 59
    ensures var g := Stale(z, fill); Inscribe(g.msg, g.pid, g.host) == g.msg
  {
    var g := Stale(z, fill);
    assert WireNameLength(|g.host|) == z;
    assert Be32(0) == [0, 0, 0, 0];
  }

  lemma StaleStays(s: Sock, z: byte, fill: byte, io: Io)
    requires Sane(s) && 1 <= z <= 59
    ensures CheckMsg(s, Stale(z, fill), io).g == Stale(z, fill)
  {
    hide Stale, Inscribe;
    Restates(z, fill);
  }

  /** A record that is not self-contained reads differently over some two of three buffers. */
  lemma ExtractDiffers(m: Msg)
    requires Inspected(m) && !SelfContained(m.data)
    ensures
      || Extract(m, Stale(58, 0).msg) != Extract(m, Stale(59, 0).msg)
      || Extract(m, Stale(58, 0).msg) != Extract(m, Stale(58, 1).msg)
  {
    hide Stale, FromBe32;
    var n := |m.data|;
    if n >= 5 {
      var a, b := m.data + Stale(58, 0).msg[n..], m.data + Stale(58, 1).msg[n..];
      var z := m.data[4] as int;
      assert a[5..5 + z][n - 5] == a[n] == 0 && b[5..5 + z][n - 5] == b[n] == 1;
    }
  }

  /** What the checker reads from a record it inspects depends on the old content of the
      buffer exactly when the record is not self-contained. */
  lemma ExtractOwnIff(m: Msg, was: Scratch)
    requires Inspected(m)
    ensures (forall before: Scratch :: Extract(m, before) == Extract(m, was)) <==> SelfContained(m.data)
  {
    if SelfContained(m.data) {
      forall before: Scratch ensures Extract(m, before) == Extract(m, was) {
        ExtractOwn(m, before);
        ExtractOwn(m, was);
      }
    } else {
      ExtractDiffers(m);
    }
  }

  /** The record returned does not depend on the pong service. */
  lemma SameRecord(s: Sock, g: Pong, g': Pong, io: Io)
    requires Sane(s)
    ensures CheckMsg(s, g, io).got == CheckMsg(s, g', io).got
  {
    hide PackPong;
  }

  /** A self-contained record is accepted exactly when it has at most 64 bytes, comes under
      the PING or PONG service and names at most 58 bytes, with its own kind, pid and name. */
  lemma CheckPingIff(s: Sock, g: Pong, io: Io)
    requires Sane(s)
    ensures var got, p := CheckMsg(s, g, io).got, CheckPing(s, g, io).2;
      && (p != None ==> got != None && Inspected(got.value))
      && (got != None && Inspected(got.value) && SelfContained(got.value.data) ==> p == Own(got.value))
  {
    CheckPingExtracts(s, g, io);
    var c := CheckMsg(s, g, io);
    hide CheckMsg, Extract, Own;
    if c.got != None && Inspected(c.got.value) && SelfContained(c.got.value.data) {
      ExtractOwn(c.got.value, c.g.msg);
    }
  }

  /** Whether a PING or PONG is reported, and as what, is settled by the socket alone, for
      all pong services, exactly when the record is refused unread or self-contained. */
  lemma CheckPingOwnIff(s: Sock, was: Pong, io: Io)
    requires Sane(s)
    ensures var got := CheckMsg(s, was, io).got;
      (forall g: Pong :: CheckPing(s, g, io).2 == CheckPing(s, was, io).2)
      <==> got == None || !Inspected(got.value) || SelfContained(got.value.data)
  {
    hide CheckMsg, CheckPing, Extract, Own, Stale;
    var got := CheckMsg(s, was, io).got;
    if got == None || !Inspected(got.value) || SelfContained(got.value.data) {
      forall g: Pong ensures CheckPing(s, g, io).2 == CheckPing(s, was, io).2 {
        SameRecord(s, g, was, io);
        CheckPingExtracts(s, g, io);
        CheckPingExtracts(s, was, io);
        if got != None && Inspected(got.value) {
          ExtractOwn(got.value, CheckMsg(s, g, io).g.msg);
          ExtractOwn(got.value, CheckMsg(s, was, io).g.msg);
        }
      }
    } else {
      ReadsStale(s, was, 58, 0, io);
      ReadsStale(s, was, 59, 0, io);
      ReadsStale(s, was, 58, 1, io);
      ExtractDiffers(got.value);
    }
  }

  lemma ReadsStale(s: Sock, was: Pong, z: byte, fill: byte, io: Io)
    requires Sane(s) && 1 <= z <= 59
    requires var got := CheckMsg(s, was, io).got; got != None && Inspected(got.value)
    ensures CheckPing(s, Stale(z, fill), io).2 == Extract(CheckMsg(s, was, io).got.value, Stale(z, fill).msg)
  {
    hide CheckMsg, CheckPing, Extract, Stale;
    StaleStays(s, z, fill, io);
    SameRecord(s, Stale(z, fill), was, io);
    CheckPingExtracts(s, Stale(z, fill), io);
  }

  /** A PONG record of four bytes, one pid and nothing else, is accepted, under whatever
      name the buffer holds. */
  lemma ShortPong(s: Sock, g: Pong, io: Io, pno: nat, pid: u32)
    requires Sane(s) && s.nrd == 0 && io.arrival == Some(Header(pno, PONG) + Record(Be32(pid)))
    requires g.msg[4] <= 58
    ensures CheckPing(s, g, io).2 == Some(Ping(KPong, pid, g.msg[5..5 + g.msg[4] as int]))
  {
    var d := Header(pno, PONG) + Record(Be32(pid));
    RecordFramed(Be32(pid));
    DecodeDatagram(pno, PONG, Record(Be32(pid)));
    Prefixed(Header(pno, PONG), Record(Be32(pid)));
    TakeDatagram(s, g, io, d);
    PongKeepsStatics(s, g, io, d);
    CheckPingExtracts(s, g, io);
    Be32RoundTrip(pid);
    hide CheckMsg, CheckPing, FromBe32, Decode, Be32;
    assert CheckMsg(s, g, io).got.value == Decode(d)[0] == Msg(PONG, Be32(pid));
    var msg := Be32(pid) + g.msg[4..];
    assert msg[..4] == Be32(pid) && msg[5..5 + msg[4] as int] == g.msg[5..5 + g.msg[4] as int];
  }

  lemma PongKeepsStatics(s: Sock, g: Pong, io: Io, d: seq<byte>)
    requires Sane(s) && s.nrd == 0 && OwnFormat(d) && io.arrival == Some(d) && Be16(d, 4) == PONG
    ensures CheckMsg(s, g, io).g == g
  {
    Fetch(s, d);
    hide Framed, Unread;
  }

  // --- the round trip ---

  /** What a receiver with an empty receive side makes of the datagram, whatever its
      static buffer holds and whatever an automatic PONG wrote there in between. */
  lemma CheckPingReads(s: Sock, g: Pong, io: Io, pno: nat, k: Kind, pid: u32, host: seq<byte>)
    requires Sane(s) && s.nrd == 0 && io.arrival == Some(PingDatagram(pno, k, pid, host))
    ensures var z := WireNameLength(|host|);
      CheckPing(s, g, io).2 == if z > MAX_HNZ then None else Some(Ping(k, pid, host[..z]))
  {
    var d := PingDatagram(pno, k, pid, host);
    PingDatagramFormat(pno, k, pid, host);
    TakeDatagram(s, g, io, d);
    var c := CheckMsg(s, g, io);
    Reread(pid, host, c.g.msg);
    hide CheckMsg, CheckPing, FromBe32, Inscription, Decode;
    assert c.got.value == Decode(d)[0] == Msg(KindSvc(k), Inscription(pid, host));
    CheckPingExtracts(s, g, io);
  }

  /** The round trip holds exactly for host names of at most 58 bytes: the packer clamps
      at 59, the checker rejects above 58. */
  lemma PingRoundTrip(p: Sock, pg: Pong, pio: Io, s: Sock, g: Pong, io: Io, k: Kind, pid: u32, host: seq<byte>)
    requires Sane(p) && pio.ctrlOk
    requires Sane(s) && s.nrd == 0
    requires var out := PackPing(p, pg, k, pid, host, pio).0.out;
      out != [] && io.arrival == Some(out[|out| - 1].bytes)
    ensures CheckPing(s, g, io).2 == Some(Ping(k, pid, host)) <==> |host| <= 58
  {
    hide PackPing, CheckPing;
    PackPingSends(p, pg, k, pid, host, pio);
    CheckPingReads(s, g, io, Flush(p, pio.flushOk).0.pno, k, pid, host);
    Unclamped(host);
  }

  lemma Unclamped(host: seq<byte>)
    ensures var z := WireNameLength(|host|);
      z <= |host| && (z <= MAX_HNZ && host[..z] == host <==> |host| <= MAX_HNZ)
  {
  }
}
