/** The socket and the pong service as the library keeps them: fields and buffers updated
    in place. Each method computes the function of the same name in Engine. */
module Socket {
  import opened Wrappers
  import opened Wire
  import Engine

  /** memcpy() into a buffer. */
  method CopyInto(buf: array<byte>, at: nat, d: seq<byte>)
    requires at + |d| <= buf.Length
    modifies buf
    ensures buf[..] == old(buf[..at]) + d + old(buf[at + |d|..])
  {
    forall i | 0 <= i < |d| {
      buf[at + i] := d[i];
    }
  }

  /** Tag, length and value at a position of a buffer. */
  method PutRecord(buf: array<byte>, at: nat, d: seq<byte>)
    requires |d| <= 255 && at + 2 + |d| <= buf.Length
    modifies buf
    ensures buf[..] == old(buf[..at]) + Record(d) + old(buf[at + 2 + |d|..])
  {
    buf[at] := TYPE_DATA;
    buf[at + 1] := |d|;
    CopyInto(buf, at + 2, d);
  }

  /** The payload grows by the record written at its end. */
  lemma PayloadGrows(was: seq<byte>, now: seq<byte>, npk: nat, r: seq<byte>)
    requires HDR + npk + |r| <= |was|
    requires now == was[..HDR + npk] + r + was[HDR + npk + |r|..]
    ensures now[HDR..HDR + npk + |r|] == was[HDR..HDR + npk] + r
  {
  }

  /** A header put before what follows it in a buffer. */
  lemma Headed(was: seq<byte>, now: seq<byte>, h: seq<byte>, n: nat)
    requires |h| == HDR && HDR + n <= |was| && now == h + was[HDR..]
    ensures now[..HDR + n] == h + was[HDR..HDR + n] && now[HDR..HDR + n] == was[HDR..HDR + n]
  {
  }

  /** Copying what fits of a datagram is the kernel's deposit. */
  lemma Deposited(was: Engine.Memory, d: seq<byte>, z: nat, now: seq<byte>)
    requires z == if |d| <= ETH_MTU then |d| else ETH_MTU
    requires now == was[..0] + d[..z] + was[z..]
    ensures now == Engine.Deposit(was, d)
  {
  }

  /** Pid, length and name, put one after the other. */
  lemma Inscribed(was: Engine.Scratch, mid: seq<byte>, now: seq<byte>, pid: u32, z: byte, host: seq<byte>)
    requires z as int == Engine.WireNameLength(|host|)
    requires mid == was[..0] + Be32(pid) + was[4..]
    requires now == mid[4 := z][..5] + host[..z] + mid[4 := z][5 + z as int..]
    ensures now == Engine.Inscribe(was, pid, host)
  {
    hide Be32, Engine.WireNameLength;
  }

  /** The four header fields, each stored high byte first. */
  method PutHeader(buf: array<byte>, pno: nat, svc: u16)
    requires buf.Length >= HDR
    modifies buf
    ensures buf[..] == Header(pno, svc) + old(buf[HDR..])
  {
    var k: u16 := pno % 0x1_0000;
    buf[0], buf[1] := 0x55, 0x44;
    buf[2], buf[3] := k / 0x100, k % 0x100;
    buf[4], buf[5] := svc / 0x100, svc % 0x100;
    buf[6], buf[7] := 0xda, 0x7a;
  }

  /** The statics of svc-pong.c: the message buffer and the cached identity. */
  class PongService {
    const msg: array<byte>
    var host: Engine.HostName
    var pid: u32

    ghost predicate Valid()
    {
      msg.Length == 64
    }

    ghost function View(): Engine.Pong
      reads this, msg
      requires Valid()
    {
      Engine.Pong(msg[..], host, pid)
    }

    constructor ()
      ensures Valid() && fresh(msg)
      ensures View().host == [] && View().pid == 0 && forall i :: 0 <= i < 64 ==> View().msg[i] == 0
    {
      msg := new byte[64](_ => 0);
      host := [];
      pid := 0;
    }

    /** Pid, length and name go over the message buffer. */
    method Inscribe(pid: u32, host: seq<byte>) returns (z: byte)
      requires Valid()
      modifies msg
      ensures z as int == Engine.WireNameLength(|host|)
      ensures msg[..] == Engine.Inscribe(old(msg[..]), pid, host)
    {
      hide Engine.Inscribe, Be32;
      z := if |host| % 0x100 > Engine.MAX_HNZ then 59 else |host| % 0x100;
      ghost var was := msg[..];
      CopyInto(msg, 0, Be32(pid));
      ghost var mid := msg[..];
      msg[4] := z;
      CopyInto(msg, 5, host[..z]);
      Inscribed(was, mid, msg[..], pid, z, host);
    }
  }

  class UdSocket {
    var npk: nat
    var svc: u16
    var pno: nat
    var nrd: nat
    var nck: nat
    const send: array<byte>
    const recv: array<byte>
    const ctrl: array<byte>
    /** The datagrams the network has accepted from this socket. */
    var out: seq<Engine.Sent>

    ghost predicate Valid()
      reads this, send, recv
    {
      && send.Length == ETH_MTU && recv.Length == Engine.MEMORY && ctrl.Length == HDR + CTRL_ROOM
      && npk <= ROOM
      && Engine.Sane(View())
    }

    ghost function View(): Engine.Sock
      reads this, send, recv
      requires send.Length == ETH_MTU && recv.Length == Engine.MEMORY && npk <= ROOM
    {
      Engine.Sock(send[HDR..HDR + npk], svc, pno, recv[..], nrd, nck, out)
    }

    /** A socket starts zeroed. */
    constructor ()
      ensures Valid() && fresh(send) && fresh(recv) && fresh(ctrl)
      ensures View().pend == [] && View().svc == 0 && View().pno == 0
      ensures View().nrd == 0 && View().nck == 0 && View().out == []
    {
      npk, svc, pno, nrd, nck, out := 0, 0, 0, 0, 0, [];
      send := new byte[ETH_MTU](_ => 0);
      recv := new byte[Engine.MEMORY](_ => 0);
      ctrl := new byte[HDR + CTRL_ROOM](_ => 0);
    }

    method Flush(ok: bool) returns (r: int)
      requires Valid()
      modifies this, send
      ensures Valid() && -1 <= r <= 0
      ensures (View(), r == 0) == Engine.Flush(old(View()), ok)
    {
      if npk > 0 {
        ghost var was := send[..];
        PutHeader(send, pno, svc);
        Headed(was, send[..], Header(pno, svc), npk);
        assert send[..HDR + npk] == send[..][..HDR + npk];
        assert send[HDR..HDR + npk] == send[..][HDR..HDR + npk] == was[HDR..HDR + npk];
        if !ok {
          return -1;
        }
        out := out + [Engine.Sent(false, send[..HDR + npk])];
        npk := 0;
        pno := pno + 1;
      }
      svc := 0;
      return 0;
    }

    /** The record goes behind what is pending, and its service onto the whole batch. */
    method Append(s: u16, d: seq<byte>)
      requires Valid() && |d| <= 255 && npk + 2 + |d| <= ROOM
      modifies this, send
      ensures Valid()
      ensures View() == old(View()).(svc := s, pend := old(View()).pend + Record(d))
    {
      svc := s;
      ghost var was := send[..];
      PutRecord(send, HDR + npk, d);
      PayloadGrows(was, send[..], npk, Record(d));
      npk := npk + 2 + |d|;
      assert send[HDR..HDR + npk] == send[..][HDR..HDR + npk];
    }

    method PackMsg(m: Msg, ok: bool) returns (r: int)
      requires Valid()
      modifies this, send
      ensures Valid() && -1 <= r <= 0
      ensures (View(), r == 0) == Engine.PackMsg(old(View()), m, ok)
    {
      hide Engine.Flush, Record;
      var z := |m.data| % 0x100;
      if npk + 2 + z > ROOM || !(svc == 0 || m.svc == svc) {
        var f := Flush(ok);
        if f < 0 {
          return -1;
        }
        assert |View().pend| == npk == 0;
      }
      Append(m.svc, m.data[..z]);
      return 0;
    }

    method PackCmsg(m: Msg, ok: bool) returns (r: int)
      requires Valid()
      modifies this, ctrl
      ensures Valid() && -1 <= r <= 0
      ensures (View(), r == 0) == Engine.PackCmsg(old(View()), m, ok)
    {
      if |m.data| + 2 > CTRL_ROOM {
        return -1;
      }
      ghost var was := ctrl[..];
      PutRecord(ctrl, HDR, m.data);
      ghost var mid := ctrl[..];
      PutHeader(ctrl, pno, m.svc);
      PayloadGrows(was, mid, 0, Record(m.data));
      Headed(mid, ctrl[..], Header(pno, m.svc), |Record(m.data)|);
      assert ctrl[..HDR + 2 + |m.data|] == ctrl[..][..HDR + 2 + |m.data|] == Header(pno, m.svc) + Record(m.data);
      if !ok {
        return -1;
      }
      out := out + [Engine.Sent(true, ctrl[..HDR + 2 + |m.data|])];
      pno := pno + 1;
      return 0;
    }

    method Discard(arrival: Option<seq<byte>>) returns (r: int)
      requires Valid()
      modifies this, recv
      ensures Valid() && -1 <= r <= 0
      ensures (View(), r == 0) == Engine.Discard(old(View()), arrival)
    {
      hide Engine.Deposit, Be16;
      if nrd == 0 {
        if arrival == None {
          return -1;
        }
        var d := arrival.value;
        var z := if |d| <= ETH_MTU then |d| else ETH_MTU;
        ghost var was := recv[..];
        CopyInto(recv, 0, d[..z]);
        Deposited(was, d, z, recv[..]);
        if z < HDR {
          return -1;
        }
        if Be16(recv[..], 0) != 0x5544 {
          var magic := Be16(recv[..], 6);
          if magic !in {0xbeef, 0xbeee, 0xcaff, 0xcafe, 0xda7a} {
            return -1;
          }
        }
        nrd := z - HDR;
      } else {
        nrd := 0;
      }
      nck := 0;
      return 0;
    }

    method PackPing(pong: PongService, k: Engine.Kind, pid: u32, host: seq<byte>, io: Engine.Io) returns (r: int)
      requires Valid() && pong.Valid()
      modifies this, send, ctrl, pong, pong.msg
      ensures Valid() && pong.Valid()
      ensures (View(), pong.View(), r == 0) == Engine.PackPing(old(View()), old(pong.View()), k, pid, host, io)
    {
      hide Engine.Flush, Engine.PackCmsg, Engine.Sane, Engine.Inscribe;
      var z := pong.Inscribe(pid, host);
      var _ := Flush(io.flushOk);
      r := PackCmsg(Msg(Engine.KindSvc(k), pong.msg[..5 + z]), io.ctrlOk);
    }

    method PackPong(pong: PongService, k: Engine.Kind, io: Engine.Io) returns (r: int)
      requires Valid() && pong.Valid()
      modifies this, send, ctrl, pong, pong.msg
      ensures Valid() && pong.Valid()
      ensures (View(), pong.View(), r == 0) == Engine.PackPong(old(View()), old(pong.View()), k, io)
    {
      if pong.host == [] {
        if io.host == None {
          return -1;
        }
        pong.host, pong.pid := io.host.value, io.pid;
      }
      r := PackPing(pong, k, pong.pid, pong.host, io);
    }

    method CheckCmsg(pong: PongService, io: Engine.Io) returns (r: int)
      requires Valid() && pong.Valid()
      modifies this, send, ctrl, pong, pong.msg
      ensures Valid() && pong.Valid()
      ensures (View(), pong.View()) == Engine.CheckCmsg(old(View()), old(pong.View()), io)
      ensures r == if Engine.Service(old(View())) / 0x100 == CHN_CTRL then 0 else -1
    {
      var s := Be16(recv[..], 4);
      if s / 0x100 != CHN_CTRL {
        return -1;
      }
      if s % 0x100 == 4 {
        var _ := PackPong(pong, Engine.KPong, io);
      }
      return 0;
    }

    /** The record at the cursor, or a reset when its tag is wrong. */
    method TakeRecord(s: u16) returns (tgt: Option<Msg>)
      requires Valid() && nck < nrd
      modifies this`nrd, this`nck
      ensures Valid()
      ensures var v, p := old(View()), HDR + old(nck);
        if v.mem[p] % 0x10 != TYPE_DATA then tgt == None && View() == v.(nrd := 0, nck := 0)
        else
          var dlen := v.mem[p] as int / 0x10 + v.mem[p + 1];
          tgt == Some(Msg(s, v.mem[p + 2..p + 2 + dlen])) && View() == v.(nck := v.nck + dlen + 2)
    {
      var p := HDR + nck;
      if recv[p] % 0x10 != TYPE_DATA {
        nrd, nck := 0, 0;
        return None;
      }
      var dlen := recv[p] as int / 0x10 + recv[p + 1];
      tgt := Some(Msg(s, recv[p + 2..p + 2 + dlen]));
      assert recv[p + 2..p + 2 + dlen] == recv[..][p + 2..p + 2 + dlen];
      nck := nck + dlen + 2;
    }

    /** The reaction to a control message comes before the record is looked at. */
    method NextMsg(pong: PongService, io: Engine.Io) returns (tgt: Option<Msg>)
      requires Valid() && pong.Valid() && nck < nrd
      modifies this, send, ctrl, pong, pong.msg
      ensures Valid() && pong.Valid()
      ensures Engine.Checked(View(), pong.View(), tgt) == Engine.NextMsg(old(View()), old(pong.View()), io)
    {
      hide Engine.PackPong;
      var s := Be16(recv[..], 4);
      if s / 0x100 == CHN_CTRL {
        var _ := CheckCmsg(pong, io);
      }
      tgt := TakeRecord(s);
    }

    method CheckMsg(pong: PongService, io: Engine.Io) returns (tgt: Option<Msg>)
      requires Valid() && pong.Valid()
      modifies this, send, recv, ctrl, pong, pong.msg
      ensures Valid() && pong.Valid()
      ensures Engine.Checked(View(), pong.View(), tgt) == Engine.CheckMsg(old(View()), old(pong.View()), io)
    {
      hide Engine.NextMsg;
      if nck >= nrd {
        var d := Discard(io.arrival);
        if d < 0 || nck >= nrd {
          return None;
        }
      }
      tgt := NextMsg(pong, io);
    }

    method CheckPing(pong: PongService, io: Engine.Io) returns (tgt: Option<Engine.Ping>)
      requires Valid() && pong.Valid()
      modifies this, send, recv, ctrl, pong, pong.msg
      ensures Valid() && pong.Valid()
      ensures (View(), pong.View(), tgt) == Engine.CheckPing(old(View()), old(pong.View()), io)
    {
      hide Engine.CheckMsg, Engine.Sane, FromBe32;
      var m := CheckMsg(pong, io);
      if m == None || |m.value.data| > 64 || m.value.svc - m.value.svc % 2 != PING {
        return None;
      }
      ghost var was := pong.msg[..];
      CopyInto(pong.msg, 0, m.value.data);
      assert pong.msg[..] == m.value.data + was[|m.value.data|..];
      var z: int := pong.msg[4];
      if z > Engine.MAX_HNZ {
        return None;
      }
      tgt := Some(Engine.Ping(if m.value.svc % 2 == 1 then Engine.KPong else Engine.KPing,
                              FromBe32(pong.msg[..4]), pong.msg[5..5 + z]));
      pong.msg[5 + z] := 0;
    }

    method GetAux() returns (r: Option<Engine.Aux>)
      requires Valid()
      ensures r == Engine.GetAux(View())
    {
      if nrd == 0 {
        return None;
      }
      return Some(Engine.Aux(Be16(recv[..], 2), Be16(recv[..], 4), nrd));
    }
  }
}
