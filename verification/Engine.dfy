/** The packet engine as functions on values: every socket operation maps a state and
    the environment's answers to the next state. The methods of UdSocket compute
    these functions in place. */
module Engine {
  import opened Wrappers
  import opened Wire

  /** Bytes from the start of the receive buffer: the buffer itself, then as much memory
      after it as a record that starts in the buffer can claim. The socket keeps its send
      side there; the functions below leave it alone, Subscriber.Drain lets it change. */
  const MEMORY := ETH_MTU + 272

  type Memory = m: seq<byte> | |m| == MEMORY witness seq(MEMORY, _ => 0)
  type Scratch = m: seq<byte> | |m| == 64 witness seq(64, _ => 0)
  /** gethostname() fills at most 255 bytes, the last of them NUL. */
  type HostName = h: seq<byte> | |h| <= 254

  /** A datagram handed to sendto(), and which call site sent it. */
  datatype Sent = Sent(ctrl: bool, bytes: seq<byte>)

  datatype Sock = Sock(
    pend: seq<byte>, svc: u16, pno: nat,
    mem: Memory, nrd: nat, nck: nat,
    out: seq<Sent>)

  /** The statics of the pong service: message buffer and cached identity. */
  datatype Pong = Pong(msg: Scratch, host: HostName, pid: u32)

  /** The environment's answers during one call. */
  datatype Io = Io(flushOk: bool, ctrlOk: bool, arrival: Option<seq<byte>>,
                   host: Option<HostName>, pid: u32)

  datatype Kind = KPing | KPong

  datatype Checked = Checked(s: Sock, g: Pong, got: Option<Msg>)

  ghost predicate Sane(s: Sock) {
    && |s.pend| <= ROOM
    && s.nrd <= ROOM
    && (s.nrd == 0 ==> s.nck == 0)
    && (s.pend == [] ==> s.svc == 0)
  }

  ghost predicate SameReceiveSide(s: Sock, t: Sock) {
    s.mem == t.mem && s.nrd == t.nrd && s.nck == t.nck
  }

  ghost predicate SameSendSide(s: Sock, t: Sock) {
    s.pend == t.pend && s.svc == t.svc && s.pno == t.pno && s.out == t.out
  }

  // --- sending ---

  function Flush(s: Sock, ok: bool): (r: (Sock, bool))
    requires Sane(s)
    ensures Sane(r.0) && SameReceiveSide(s, r.0)
    ensures r.1 <==> s.pend == [] || ok
    ensures if r.1 then r.0.pend == [] else r.0 == s
  {
    if |s.pend| > 0 then
      if ok then
        (s.(pend := [], svc := 0, pno := s.pno + 1,
            out := s.out + [Sent(false, Header(s.pno, s.svc) + s.pend)]), true)
      else (s, false)
    else (s.(svc := 0), true)
  }

  predicate MsgFits(s: Sock, len: nat) {
    |s.pend| + 2 + len <= ROOM
  }

  predicate SvcSame(s: Sock, svc: u16) {
    s.svc == 0 || svc == s.svc
  }

  function PackMsg(s: Sock, m: Msg, ok: bool): (r: (Sock, bool))
    requires Sane(s)
    ensures Sane(r.0) && SameReceiveSide(s, r.0)
  {
    var z := |m.data| % 0x100;
    var (s1, flushed) := if !MsgFits(s, z) || !SvcSame(s, m.svc) then Flush(s, ok) else (s, true);
    if !flushed then (s1, false)
    else (s1.(svc := m.svc, pend := s1.pend + Record(Clip(m.data))), true)
  }

  function PackCmsg(s: Sock, m: Msg, ok: bool): (r: (Sock, bool))
    requires Sane(s)
    ensures Sane(r.0) && SameReceiveSide(s, r.0)
  {
    if |m.data| + 2 > CTRL_ROOM || !ok then (s, false)
    else
      (s.(pno := s.pno + 1,
          out := s.out + [Sent(true, Header(s.pno, m.svc) + Record(m.data))]), true)
  }

  // --- the pong service ---

  const MAX_HNZ: nat := 58

  function KindSvc(k: Kind): u16 {
    if k == KPing then PING else PONG
  }

  /** The length byte written for a host name of the given length. */
  function WireNameLength(len: nat): (z: nat)
    ensures z <= 59 && z <= len
  {
    if len % 0x100 > MAX_HNZ then 59 else len % 0x100
  }

  /** The static buffer after packing an identity. */
  function Inscribe(msg: Scratch, pid: u32, host: seq<byte>): Scratch {
    var z := WireNameLength(|host|);
    Be32(pid) + [z] + host[..z] + msg[5 + z..]
  }

  function PackPing(s: Sock, g: Pong, k: Kind, pid: u32, host: seq<byte>, io: Io): (r: (Sock, Pong, bool))
    requires Sane(s)
    ensures Sane(r.0) && SameReceiveSide(s, r.0)
  {
    var msg := Inscribe(g.msg, pid, host);
    var s1 := Flush(s, io.flushOk).0;
    var (s2, ok) := PackCmsg(s1, Msg(KindSvc(k), msg[..5 + WireNameLength(|host|)]), io.ctrlOk);
    (s2, g.(msg := msg), ok)
  }

  /** The identity to answer with: cached once a nonempty host name has been read. */
  function Identify(g: Pong, io: Io): (r: (Pong, bool)) {
    if g.host != [] then (g, true)
    else match io.host
      case None => (g, false)
      case Some(h) => (g.(host := h, pid := io.pid), true)
  }

  function PackPong(s: Sock, g: Pong, k: Kind, io: Io): (r: (Sock, Pong, bool))
    requires Sane(s)
    ensures Sane(r.0) && SameReceiveSide(s, r.0)
  {
    var (g1, known) := Identify(g, io);
    if !known then (s, g1, false) else PackPing(s, g1, k, g1.pid, g1.host, io)
  }

  // --- receiving ---

  predicate GoodMagic(b: seq<byte>)
    requires |b| >= HDR
  {
    Be16(b, 0) == 0x5544 || Be16(b, 6) in {0xbeef, 0xbeee, 0xcaff, 0xcafe, 0xda7a}
  }

  /** recvfrom() into the buffer: a longer datagram is cut, a shorter one leaves the rest. */
  function Deposit(mem: Memory, d: seq<byte>): (m: Memory) {
    if |d| <= ETH_MTU then d + mem[|d|..] else d[..ETH_MTU] + mem[ETH_MTU..]
  }

  function Discard(s: Sock, arrival: Option<seq<byte>>): (r: (Sock, bool))
    requires Sane(s)
    ensures Sane(r.0) && SameSendSide(s, r.0)
    ensures r.1 ==> r.0.nck == 0
  {
    if s.nrd == 0 then
      match arrival
      case None => (s, false)
      case Some(d) =>
        var mem := Deposit(s.mem, d);
        var z := if |d| <= ETH_MTU then |d| else ETH_MTU;
        if z < HDR || !GoodMagic(mem) then (s.(mem := mem), false)
        else (s.(mem := mem, nrd := z - HDR, nck := 0), true)
    else (s.(nrd := 0, nck := 0), true)
  }

  function Service(s: Sock): u16 {
    Be16(s.mem, 4)
  }

  /** Reaction to the datagram in the buffer when its service is on the control channel. */
  function CheckCmsg(s: Sock, g: Pong, io: Io): (r: (Sock, Pong))
    requires Sane(s)
    ensures Sane(r.0) && SameReceiveSide(s, r.0)
  {
    if Service(s) / 0x100 == CHN_CTRL && Service(s) % 0x100 == 4 then
      var (s1, g1, _) := PackPong(s, g, KPong, io);
      (s1, g1)
    else (s, g)
  }

  /** Another dose when everything in the buffer has been checked. */
  function Refill(s: Sock, arrival: Option<seq<byte>>): (r: (Sock, bool))
    requires Sane(s)
    ensures Sane(r.0) && SameSendSide(s, r.0)
  {
    if s.nck >= s.nrd then Discard(s, arrival) else (s, true)
  }

  /** The record at the cursor: the control reaction comes before the tag is looked at. */
  function NextMsg(s: Sock, g: Pong, io: Io): (r: Checked)
    requires Sane(s) && s.nck < s.nrd
    ensures Sane(r.s)
  {
    var (s1, g1) := CheckCmsg(s, g, io);
    var p := HDR + s1.nck;
    if s1.mem[p] % 0x10 != TYPE_DATA then Checked(s1.(nrd := 0, nck := 0), g1, None)
    else
      var dlen := s1.mem[p] as int / 0x10 + s1.mem[p + 1];
      Checked(s1.(nck := s1.nck + dlen + 2), g1, Some(Msg(Service(s1), s1.mem[p + 2..p + 2 + dlen])))
  }

  function CheckMsg(s: Sock, g: Pong, io: Io): (r: Checked)
    requires Sane(s)
    ensures Sane(r.s)
  {
    var (s1, ready) := Refill(s, io.arrival);
    if !ready || s1.nck >= s1.nrd then Checked(s1, g, None) else NextMsg(s1, g, io)
  }

  /** A successfully checked PING or PONG. */
  datatype Ping = Ping(kind: Kind, pid: u32, host: seq<byte>)

  function CheckPing(s: Sock, g: Pong, io: Io): (r: (Sock, Pong, Option<Ping>))
    requires Sane(s)
    ensures Sane(r.0)
  {
    var c := CheckMsg(s, g, io);
    if c.got == None || |c.got.value.data| > 64 || c.got.value.svc - c.got.value.svc % 2 != PING
    then (c.s, c.g, None)
    else
      var m := c.got.value;
      var msg: Scratch := m.data + c.g.msg[|m.data|..];
      if msg[4] > MAX_HNZ then (c.s, c.g.(msg := msg), None)
      else
        var z := msg[4] as int;
        (c.s, c.g.(msg := msg[5 + z := 0]),
         Some(Ping(if m.svc % 2 == 1 then KPong else KPing, FromBe32(msg[..4]), msg[5..5 + z])))
  }

  /** What the header of the datagram in the receive buffer says. */
  datatype Aux = Aux(pno: u16, svc: u16, len: nat)

  function GetAux(s: Sock): Option<Aux> {
    if s.nrd == 0 then None else Some(Aux(Be16(s.mem, 2), Service(s), s.nrd))
  }
}
