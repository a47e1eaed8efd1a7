/** The wire format of unserding datagrams: an 8-byte big-endian header followed by
    tag-length-value records, and the inverse pair Encode/Records on payloads. */
module Wire {
  type byte = x: int | 0 <= x < 0x100
  type u16 = x: int | 0 <= x < 0x1_0000
  type u32 = x: int | 0 <= x < 0x1_0000_0000

  const ETH_MTU := 1440
  const HDR := 8
  const ROOM := ETH_MTU - HDR
  const CTRL_ROOM := 80 - HDR
  const TYPE_DATA: byte := 0x0c
  const CHN_CTRL := 0xff
  const PING: u16 := 0xff04
  const PONG: u16 := 0xff05

  datatype Msg = Msg(svc: u16, data: seq<byte>)

  /** The length of a message is cast to one byte before packing. */
  function Clip(data: seq<byte>): (r: seq<byte>)
    ensures r <= data && |r| == |data| % 0x100
    ensures r == data <==> |data| <= 255
  {
    data[..|data| % 0x100]
  }

  function Header(pno: nat, svc: u16): (h: seq<byte>)
    ensures |h| == HDR
    ensures Be16(h, 0) == 0x5544 && Be16(h, 2) == pno % 0x1_0000
    ensures Be16(h, 4) == svc && Be16(h, 6) == 0xda7a
  {
    var k: u16 := pno % 0x1_0000;
    [0x55, 0x44, k / 0x100, k % 0x100, svc / 0x100, svc % 0x100, 0xda, 0x7a]
  }

  function Be16(b: seq<byte>, i: nat): u16
    requires i + 1 < |b|
  {
    b[i] as int * 0x100 + b[i + 1]
  }

  function Be32(x: u32): (b: seq<byte>)
    ensures |b| == 4
  {
    var h, l := x / 0x1_0000, x % 0x1_0000;
    [h / 0x100, h % 0x100, l / 0x100, l % 0x100]
  }

  function FromBe32(b: seq<byte>): u32
    requires |b| == 4
  {
    Be16(b, 0) as int * 0x1_0000 + Be16(b, 2)
  }

  lemma Be32RoundTrip(x: u32)
    ensures FromBe32(Be32(x)) == x
  {
    var h, l := x / 0x1_0000, x % 0x1_0000;
    assert Be16(Be32(x), 0) == h && Be16(Be32(x), 2) == l;
  }

  function Record(data: seq<byte>): (r: seq<byte>)
    requires |data| <= 255
  {
    [TYPE_DATA, |data|] + data
  }

  /** A payload that is a whole number of records as the encoder writes them. */
  predicate Framed(p: seq<byte>) {
    p == [] || (|p| >= 2 && p[0] == TYPE_DATA && 2 + p[1] <= |p| && Framed(p[2 + p[1]..]))
  }

  /** The data blobs of the leading well-formed records of a payload. */
  function Records(p: seq<byte>): (ds: seq<seq<byte>>)
    ensures forall d :: d in ds ==> |d| <= 255
    ensures Framed(p) && p != [] ==> ds != []
  {
    if |p| < 2 || p[0] != TYPE_DATA || 2 + p[1] > |p| then []
    else [p[2..2 + p[1]]] + Records(p[2 + p[1]..])
  }

  function Encode(ds: seq<seq<byte>>): seq<byte>
    requires forall d :: d in ds ==> |d| <= 255
  {
    if ds == [] then [] else Record(ds[0]) + Encode(ds[1..])
  }

  lemma {:induction false} RecordsEncode(ds: seq<seq<byte>>)
    requires forall d :: d in ds ==> |d| <= 255
    ensures Framed(Encode(ds)) && Records(Encode(ds)) == ds
  {
    if ds != [] {
      RecordsEncode(ds[1..]);
      RecordLeads(ds[0], Encode(ds[1..]));
    }
  }

  lemma RecordLeads(d: seq<byte>, rest: seq<byte>)
    requires |d| <= 255
    ensures Framed(Record(d) + rest) == Framed(rest)
    ensures Records(Record(d) + rest) == [d] + Records(rest)
  {
    RecordLayout(d, rest);
    hide Record;
  }

  lemma RecordLayout(d: seq<byte>, rest: seq<byte>)
    requires |d| <= 255
    ensures var p, k := Record(d) + rest, |d| + 2;
      |p| == k + |rest| && p[0] == TYPE_DATA && p[1] == |d| && p[2..k] == d && p[k..] == rest
  {
  }

  lemma {:induction false} EncodeRecords(p: seq<byte>)
    requires Framed(p)
    ensures Encode(Records(p)) == p
  {
    if p != [] {
      var k := p[1] as int + 2;
      EncodeRecords(p[k..]);
      EncodeCons(p[2..k], Records(p[k..]));
      SplitRecord(p, k);
    }
  }

  lemma EncodeCons(d: seq<byte>, ds: seq<seq<byte>>)
    requires |d| <= 255 && forall e :: e in ds ==> |e| <= 255
    ensures forall e :: e in [d] + ds ==> |e| <= 255
    ensures Encode([d] + ds) == Record(d) + Encode(ds)
  {
    assert ([d] + ds)[1..] == ds;
  }

  lemma SplitRecord(p: seq<byte>, k: nat)
    requires |p| >= 2 && p[0] == TYPE_DATA && k == p[1] as int + 2 <= |p|
    ensures p == Record(p[2..k]) + p[k..]
  {
  }

  lemma RecordsHead(p: seq<byte>, k: nat)
    requires Framed(p) && p != [] && k == p[1] as int + 2
    ensures 2 <= k <= |p| && p[0] == TYPE_DATA && Framed(p[k..])
    ensures Records(p) == [p[2..k]] + Records(p[k..])
  {
  }

  /** Appending one record appends one message. */
  lemma {:induction false} AppendRecord(p: seq<byte>, d: seq<byte>)
    requires Framed(p) && |d| <= 255
    ensures Framed(p + Record(d))
    ensures Records(p + Record(d)) == Records(p) + [d]
  {
    if p == [] {
      RecordFramed(d);
      assert [] + Record(d) == Record(d);
    } else {
      var k := p[1] as int + 2;
      AppendRecord(p[k..], d);
      UnfoldAppended(p, Record(d), k);
    }
  }

  lemma UnfoldAppended(p: seq<byte>, r: seq<byte>, k: nat)
    requires |p| >= 2 && p[0] == TYPE_DATA && k == p[1] as int + 2 && k <= |p|
    ensures Framed(p + r) == Framed(p[k..] + r)
    ensures Records(p + r) == [p[2..k]] + Records(p[k..] + r)
  {
    var q := p + r;
    assert q[k..] == p[k..] + r && q[2..k] == p[2..k];
    assert q[0] == p[0] && q[1] == p[1];
  }

  lemma RecordFramed(d: seq<byte>)
    requires |d| <= 255
    ensures Framed(Record(d)) && Records(Record(d)) == [d]
  {
    var r := Record(d);
    assert r[2..2 + |d|] == d && r[2 + |d|..] == [];
  }

  function Label(svc: u16, ds: seq<seq<byte>>): (ms: seq<Msg>)
    ensures |ms| == |ds|
    ensures forall k :: 0 <= k < |ds| ==> ms[k] == Msg(svc, ds[k])
  {
    seq(|ds|, k requires 0 <= k < |ds| => Msg(svc, ds[k]))
  }

  lemma LabelHead(svc: u16, d: seq<byte>, ds: seq<seq<byte>>)
    ensures Label(svc, [d] + ds) == [Msg(svc, d)] + Label(svc, ds)
  {
  }

  /** What a datagram says: the messages of its records under its header's service. */
  function Decode(b: seq<byte>): seq<Msg> {
    if |b| < HDR then [] else Label(Be16(b, 4), Records(b[HDR..]))
  }

  /** Decoding undoes framing, with the packet number and the service recovered. */
  lemma DecodeDatagram(pno: nat, svc: u16, p: seq<byte>)
    ensures Decode(Header(pno, svc) + p) == Label(svc, Records(p))
    ensures (Header(pno, svc) + p)[..HDR] == Header(pno, svc) && (Header(pno, svc) + p)[HDR..] == p
    ensures Be16(Header(pno, svc) + p, 2) == pno % 0x1_0000
    ensures Be16(Header(pno, svc) + p, 4) == svc
  {
    Prefixed(Header(pno, svc), p);
  }

  lemma Prefixed(h: seq<byte>, p: seq<byte>)
    requires |h| == HDR
    ensures (h + p)[..HDR] == h && (h + p)[HDR..] == p
    ensures forall i :: 0 <= i < HDR - 1 ==> Be16(h + p, i) == Be16(h, i)
  {
  }
}
