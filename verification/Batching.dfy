/** Greedy batching is optimal: packing with any failed sends and one successful final flush
    uses the fewest datagrams of all ways to cut the accepted messages into batches. */
module Batching {
  import opened Wire
  import opened Engine
  import opened Publisher
  import opened Subscriber

  /** Payload bytes of a batch. */
  function Size(b: seq<Msg>): nat {
    if b == [] then 0 else Size(b[..|b| - 1]) + 2 + |b[|b| - 1].data| % 0x100
  }

  /** The service a batch goes out under. */
  function LastSvc(b: seq<Msg>): u16 {
    if b == [] then 0 else b[|b| - 1].svc
  }

  /** A batch one datagram can carry: it fits, and after a message with a nonzero service
      all have that service (a leading run under the wildcard service 0 may join it). */
  ghost predicate Admissible(b: seq<Msg>) {
    && Size(b) <= ROOM
    && forall i, j :: 0 <= i < j < |b| ==> b[i].svc == 0 || b[i].svc == b[j].svc
  }

  /** A cut of the messages into contiguous admissible batches. */
  ghost predicate Cut(cut: seq<seq<Msg>>, ms: seq<Msg>) {
    Flatten(cut) == ms && forall b :: b in cut ==> Admissible(b)
  }

  /** What packing does to the pending batch, on messages. */
  datatype Greedy = Greedy(done: seq<seq<Msg>>, cur: seq<Msg>)

  predicate Joins(cur: seq<Msg>, m: Msg) {
    cur == [] ||
    (Size(cur) + 2 + |m.data| % 0x100 <= ROOM &&
     (LastSvc(cur) == 0 || LastSvc(cur) == m.svc))
  }

  function Add(g: Greedy, m: Msg): Greedy {
    if Joins(g.cur, m) then g.(cur := g.cur + [m]) else Greedy(g.done + [g.cur], [m])
  }

  function Batch(ms: seq<Msg>): Greedy {
    if ms == [] then Greedy([], []) else Add(Batch(ms[..|ms| - 1]), ms[|ms| - 1])
  }

  /** The batches after the final flush. */
  function Final(g: Greedy): seq<seq<Msg>> {
    if g.cur == [] then g.done else g.done + [g.cur]
  }

  // --- admissible batches ---

  lemma SizeAppend(b: seq<Msg>, m: Msg)
    ensures Size(b + [m]) == Size(b) + 2 + |m.data| % 0x100
  {
    assert (b + [m])[..|b|] == b;
  }

  lemma PositiveSize(b: seq<Msg>)
    ensures Size(b) == 0 <==> b == []
  {
  }

  /** Leaving messages out at the front makes a batch no larger. */
  lemma {:induction false} SizeSuffix(a: seq<Msg>, b: seq<Msg>)
    ensures Size(b) <= Size(a + b)
  {
    if b != [] {
      var i := |b| - 1;
      SizeSuffix(a, b[..i]);
      assert (a + b)[..|a + b| - 1] == a + b[..i];
    }
  }

  lemma AdmissiblePrefix(b: seq<Msg>, m: Msg)
    requires Admissible(b + [m])
    ensures Admissible(b)
  {
    SizeAppend(b, m);
    var c := b + [m];
    assert forall i :: 0 <= i < |b| ==> c[i] == b[i];
  }

  /** A message joins any suffix of a batch it can extend. */
  lemma JoinsSuffix(a: seq<Msg>, b: seq<Msg>, m: Msg)
    requires Admissible(a + b + [m])
    ensures Joins(b, m)
  {
    var c := a + b + [m];
    assert c == a + (b + [m]);
    SizeSuffix(a, b + [m]);
    SizeAppend(b, m);
    if b != [] {
      var i := |a| + |b| - 1;
      assert c[i] == b[|b| - 1] && c[i + 1] == m;
    }
  }

  lemma AddAdmissible(cur: seq<Msg>, m: Msg)
    requires Admissible(cur) && Joins(cur, m)
    ensures Admissible(cur + [m])
  {
    SizeAppend(cur, m);
    var c := cur + [m];
    if cur != [] {
      var last := |cur| - 1;
      forall i, j | 0 <= i < j < |c| ensures c[i].svc == 0 || c[i].svc == c[j].svc {
        if j == |cur| && i < last {
          assert cur[i].svc == 0 || cur[i].svc == cur[last].svc;
        }
      }
    }
  }

  // --- the greedy cut is a cut ---

  lemma {:induction false} BatchIsCut(ms: seq<Msg>)
    ensures Cut(Final(Batch(ms)), ms)
    ensures GreedyInv(Batch(ms), ms)
  {
    if ms != [] {
      var pre, m := ms[..|ms| - 1], ms[|ms| - 1];
      BatchIsCut(pre);
      AddKeepsCut(Batch(pre), m, pre);
      assert ms == pre + [m];
    }
    var g := Batch(ms);
    FlattenAppend(g.done, g.cur);
  }

  ghost predicate GreedyInv(g: Greedy, ms: seq<Msg>) {
    && Admissible(g.cur)
    && (g.cur == [] ==> g.done == [])
    && (forall b :: b in g.done ==> Admissible(b))
    && Flatten(g.done) + g.cur == ms
  }

  lemma AddKeepsCut(g: Greedy, m: Msg, ms: seq<Msg>)
    requires GreedyInv(g, ms)
    ensures GreedyInv(Add(g, m), ms + [m]) && Add(g, m).cur != []
  {
    hide Size;
    if Joins(g.cur, m) {
      AddAdmissible(g.cur, m);
      assert Flatten(g.done) + (g.cur + [m]) == Flatten(g.done) + g.cur + [m];
    } else {
      AloneAdmissible(m);
      FlattenAppend(g.done, g.cur);
      hide Admissible, Flatten;
      assert forall b :: b in g.done + [g.cur] ==> b in g.done || b == g.cur;
    }
  }

  lemma AloneAdmissible(m: Msg)
    ensures Admissible([m])
  {
    SizeAppend([], m);
    assert [] + [m] == [m];
  }

  // --- greedy stays ahead ---

  /** Greedy has opened fewer batches than the cut, or as many and its open batch is no
      longer than the cut's last one. */
  ghost predicate Ahead(g: Greedy, cut: seq<seq<Msg>>) {
    var used := |Final(g)|;
    used < |cut| || (used == |cut| && (cut == [] || |g.cur| <= |cut[|cut| - 1]|))
  }

  lemma {:induction false} StaysAhead(ms: seq<Msg>, cut: seq<seq<Msg>>)
    requires Cut(cut, ms)
    ensures Ahead(Batch(ms), cut)
    decreases |ms| + |cut|
  {
    if cut == [] {
      BatchIsCut(ms);
    } else {
      var front, last := cut[..|cut| - 1], cut[|cut| - 1];
      assert cut == front + [last];
      CutFront(front, last, ms);
      if last == [] {
        StaysAhead(ms, front);
      } else {
        var b, m := last[..|last| - 1], last[|last| - 1];
        var pre := Flatten(front) + b;
        assert last == b + [m];
        CutLess(front, b, m, ms);
        StaysAhead(pre, front + [b]);
        BatchIsCut(pre);
        AheadStep(Batch(pre), pre, front, b, m);
      }
    }
  }

  lemma CutFront(front: seq<seq<Msg>>, last: seq<Msg>, ms: seq<Msg>)
    requires Cut(front + [last], ms)
    ensures ms == Flatten(front) + last && Admissible(last)
    ensures last == [] ==> Cut(front, ms)
  {
    var cut := front + [last];
    assert last in cut && forall b :: b in front ==> b in cut;
    FlattenAppend(front, last);
  }

  /** Taking the last message away leaves a cut of the rest. */
  lemma CutLess(front: seq<seq<Msg>>, b: seq<Msg>, m: Msg, ms: seq<Msg>)
    requires Cut(front + [b + [m]], ms)
    ensures ms != [] && ms[|ms| - 1] == m && ms[..|ms| - 1] == Flatten(front) + b
    ensures Cut(front + [b], Flatten(front) + b)
    ensures Admissible(b + [m])
  {
    var cut := front + [b + [m]];
    assert b + [m] in cut && forall c :: c in front ==> c in cut;
    FlattenAppend(front, b + [m]);
    FlattenAppend(front, b);
    AdmissiblePrefix(b, m);
    assert ms == Flatten(front) + b + [m];
  }

  lemma AheadStep(g: Greedy, pre: seq<Msg>, front: seq<seq<Msg>>, b: seq<Msg>, m: Msg)
    requires Ahead(g, front + [b]) && Flatten(front) + b == pre && GreedyInv(g, pre)
    requires Admissible(b + [m])
    ensures Ahead(Add(g, m), front + [b + [m]])
  {
    if |Final(g)| == |front| + 1 && g.cur != [] {
      var a := b[..|b| - |g.cur|];
      SameTail(Flatten(front), b, Flatten(g.done), g.cur);
      assert a + g.cur + [m] == b + [m];
      JoinsSuffix(a, g.cur, m);
    }
  }

  lemma SameTail<T>(x: seq<T>, b: seq<T>, y: seq<T>, c: seq<T>)
    requires x + b == y + c && |c| <= |b|
    ensures b[..|b| - |c|] + c == b
  {
    var s := x + b;
    assert forall i :: 0 <= i < |b| ==> b[i] == s[|x| + i];
    assert forall i :: 0 <= i < |c| ==> c[i] == s[|y| + i];
  }

  /** No cut of the messages has fewer batches than the greedy one. */
  lemma GreedyOptimal(ms: seq<Msg>, cut: seq<seq<Msg>>)
    requires Cut(cut, ms)
    ensures |Final(Batch(ms))| <= |cut|
    ensures Cut(Final(Batch(ms)), ms)
  {
    StaysAhead(ms, cut);
    BatchIsCut(ms);
  }

  // --- the engine batches greedily ---

  /** A call of ud_pack_msg: the message, and whether a send succeeds if one is needed. */
  datatype Try = Try(m: Msg, ok: bool)

  function PackAll(s: Sock, ts: seq<Try>): (r: Sock)
    requires Sane(s)
    ensures Sane(r)
  {
    if ts == [] then s
    else
      var last := ts[|ts| - 1];
      PackMsg(PackAll(s, ts[..|ts| - 1]), last.m, last.ok).0
  }

  /** The messages of the packs that succeed. */
  function Taken(s: Sock, ts: seq<Try>): seq<Msg>
    requires Sane(s)
  {
    if ts == [] then []
    else
      var pre, last := ts[..|ts| - 1], ts[|ts| - 1];
      Taken(s, pre) + if PackMsg(PackAll(s, pre), last.m, last.ok).1 then [last.m] else []
  }

  function Datagrams(s: Sock, ts: seq<Try>): nat
    requires Sane(s)
  {
    |Flush(PackAll(s, ts), true).0.out|
  }

  /** A refused pack changes nothing; an accepted one does what it does when sends succeed. */
  lemma TryStep(s: Sock, m: Msg, ok: bool)
    requires Sane(s)
    ensures PackMsg(s, m, ok).0 == if PackMsg(s, m, ok).1 then PackMsg(s, m, true).0 else s
  {
  }

  lemma TakenStep(s: Sock, ts: seq<Try>)
    requires Sane(s) && ts != []
    ensures var pre, last := ts[..|ts| - 1], ts[|ts| - 1];
      var taken, g := PackMsg(PackAll(s, pre), last.m, last.ok).1, Batch(Taken(s, pre));
      && PackAll(s, ts) == (if taken then PackMsg(PackAll(s, pre), last.m, true).0 else PackAll(s, pre))
      && Batch(Taken(s, ts)) == if taken then Add(g, last.m) else g
  {
    var pre, last := ts[..|ts| - 1], ts[|ts| - 1];
    TryStep(PackAll(s, pre), last.m, last.ok);
    hide PackMsg, Add;
    var was := Taken(s, pre);
    assert was + [] == was && (was + [last.m])[..|was|] == was;
  }

  /** The send side holds the greedy state: its datagrams are counted, its open batch pends. */
  ghost predicate Holds(s: Sock, g: Greedy) {
    && Sane(s)
    && |s.out| == |g.done| && |s.pend| == Size(g.cur)
    && s.svc == LastSvc(g.cur)
  }

  /** Packing goes through the flush exactly when the message does not join. */
  lemma PackJoins(s: Sock, g: Greedy, m: Msg)
    requires Holds(s, g)
    ensures PackMsg(s, m, true).0 ==
      var t := if Joins(g.cur, m) then s else Flush(s, true).0;
      t.(svc := m.svc, pend := t.pend + Record(Clip(m.data)))
  {
    PositiveSize(g.cur);
  }

  lemma EngineStep(s: Sock, g: Greedy, m: Msg)
    requires Holds(s, g)
    ensures Holds(PackMsg(s, m, true).0, Add(g, m))
  {
    PackJoins(s, g, m);
    SizeAppend(g.cur, m);
    SizeAppend([], m);
    PositiveSize(g.cur);
    RecordSize(Clip(m.data));
    hide Size, PackMsg, Joins, Record, Clip;
    assert [] + [m] == [m];
  }

  lemma RecordSize(d: seq<byte>)
    requires |d| <= 255
    ensures |Record(d)| == 2 + |d|
  {
  }

  lemma {:induction false} EngineIsGreedy(s: Sock, ts: seq<Try>)
    requires Sane(s) && s.pend == [] && s.out == []
    ensures Holds(PackAll(s, ts), Batch(Taken(s, ts)))
  {
    if ts != [] {
      var pre := ts[..|ts| - 1];
      EngineIsGreedy(s, pre);
      TakenStep(s, ts);
      EngineStep(PackAll(s, pre), Batch(Taken(s, pre)), ts[|ts| - 1].m);
    }
  }

  /** Whatever sends fail on the way, up to one final successful flush: the datagrams sent
      are the fewest over all cuts of the accepted messages into admissible batches, and
      that number is attained. */
  lemma FewestDatagrams(s: Sock, ts: seq<Try>, cut: seq<seq<Msg>>)
    requires Sane(s) && s.pend == [] && s.out == [] && Cut(cut, Taken(s, ts))
    ensures Datagrams(s, ts) <= |cut|
    ensures exists best :: Cut(best, Taken(s, ts)) && |best| == Datagrams(s, ts)
  {
    var ms := Taken(s, ts);
    EngineIsGreedy(s, ts);
    GreedyOptimal(ms, cut);
    PositiveSize(Batch(ms).cur);
    assert Cut(Final(Batch(ms)), ms);
  }

  /** For nonzero services an admissible batch is one service and at most 1432 bytes. */
  lemma SingleService(b: seq<Msg>)
    requires forall m :: m in b ==> m.svc != 0
    ensures Admissible(b) <==> Size(b) <= 1432 && forall m, m' :: m in b && m' in b ==> m.svc == m'.svc
  {
    if Admissible(b) {
      forall m, m' | m in b && m' in b ensures m.svc == m'.svc {
        var i, j :| 0 <= i < |b| && 0 <= j < |b| && b[i] == m && b[j] == m';
      }
    }
  }

  // --- what each datagram says ---

  /** The data of a batch, each clipped to its length byte. */
  function Clips(b: seq<Msg>): (ds: seq<seq<byte>>)
    ensures |ds| == |b|
    ensures forall k :: 0 <= k < |b| ==> ds[k] == Clip(b[k].data)
  {
    seq(|b|, k requires 0 <= k < |b| => Clip(b[k].data))
  }

  /** A batch as it goes out: clipped, and under the service of its last message. */
  function Stamp(b: seq<Msg>): seq<Msg> {
    Label(LastSvc(b), Clips(b))
  }

  lemma ClipsAppend(b: seq<Msg>, m: Msg)
    ensures Clips(b + [m]) == Clips(b) + [Clip(m.data)]
  {
  }

  ghost predicate Says(out: seq<Sent>, batches: seq<seq<Msg>>) {
    |out| == |batches| && forall k :: 0 <= k < |out| ==> !out[k].ctrl && Decode(out[k].bytes) == Stamp(batches[k])
  }

  /** The send side says the greedy state: datagram by datagram, and in what pends. */
  ghost predicate SaysGreedy(s: Sock, g: Greedy) {
    Holds(s, g) && Framed(s.pend) && Records(s.pend) == Clips(g.cur) && Says(s.out, g.done)
  }

  lemma SaysMore(out: seq<Sent>, batches: seq<seq<Msg>>, pno: nat, svc: u16, p: seq<byte>, b: seq<Msg>)
    requires Says(out, batches) && Records(p) == Clips(b) && svc == LastSvc(b)
    ensures Says(out + [Sent(false, Header(pno, svc) + p)], batches + [b])
  {
    DecodeDatagram(pno, svc, p);
    hide Records, Clips, Header, Decode;
  }

  lemma FlushSays(s: Sock, g: Greedy)
    requires SaysGreedy(s, g)
    ensures Says(Flush(s, true).0.out, Final(g))
  {
    PositiveSize(g.cur);
    if s.pend != [] {
      SaysMore(s.out, g.done, s.pno, s.svc, s.pend, g.cur);
    }
  }

  lemma SaysStep(s: Sock, g: Greedy, m: Msg)
    requires SaysGreedy(s, g)
    ensures SaysGreedy(PackMsg(s, m, true).0, Add(g, m))
  {
    EngineStep(s, g, m);
    PackJoins(s, g, m);
    PositiveSize(g.cur);
    hide Holds, Size, Records, Framed, Clips, PackMsg, Joins, Says;
    if Joins(g.cur, m) {
      AppendRecord(s.pend, Clip(m.data));
      ClipsAppend(g.cur, m);
    } else {
      FlushSays(s, g);
      RecordFramed(Clip(m.data));
      ClipsAppend([], m);
      assert [] + Record(Clip(m.data)) == Record(Clip(m.data)) && [] + [m] == [m];
    }
  }

  lemma {:induction false} EngineSays(s: Sock, ts: seq<Try>)
    requires Sane(s) && s.pend == [] && s.out == []
    ensures SaysGreedy(PackAll(s, ts), Batch(Taken(s, ts)))
  {
    if ts != [] {
      var pre := ts[..|ts| - 1];
      EngineSays(s, pre);
      TakenStep(s, ts);
      SaysStep(PackAll(s, pre), Batch(Taken(s, pre)), ts[|ts| - 1].m);
      hide SaysGreedy, Taken, PackAll, Batch;
    }
  }

  lemma {:induction false} InFlatten<T>(xss: seq<seq<T>>, xs: seq<T>, x: T)
    requires xs in xss && x in xs
    ensures x in Flatten(xss)
  {
    if xs != xss[0] {
      InFlatten(xss[1..], xs, x);
    }
  }

  /** Honest messages: a nonzero service and at most 255 bytes. */
  ghost predicate Honest(ms: seq<Msg>) {
    forall m :: m in ms ==> m.svc != 0 && |m.data| <= 255
  }

  lemma StampHonest(b: seq<Msg>)
    requires Admissible(b) && Honest(b)
    ensures Stamp(b) == b
  {
    forall k | 0 <= k < |b| ensures Stamp(b)[k] == b[k] {
      assert b[k] in b;
    }
  }

  /** Whatever sends fail on the way, up to one final successful flush: the k-th datagram is
      a data datagram that says the k-th greedy batch of the accepted messages, clipped and
      under its last service; for honest messages it says exactly that batch. */
  lemma GreedyDatagrams(s: Sock, ts: seq<Try>)
    requires Sane(s) && s.pend == [] && s.out == []
    ensures var out, batches := Flush(PackAll(s, ts), true).0.out, Final(Batch(Taken(s, ts)));
      && Says(out, batches)
      && (Honest(Taken(s, ts)) ==> forall k :: 0 <= k < |out| ==> Decode(out[k].bytes) == batches[k])
  {
    var ms := Taken(s, ts);
    var out, batches := Flush(PackAll(s, ts), true).0.out, Final(Batch(ms));
    EngineSays(s, ts);
    FlushSays(PackAll(s, ts), Batch(ms));
    BatchIsCut(ms);
    hide Flush, PackAll, Final, Stamp, Decode, Admissible;
    if Honest(ms) {
      forall k | 0 <= k < |out| ensures Decode(out[k].bytes) == batches[k] {
        var b := batches[k];
        assert b in batches;
        forall m | m in b ensures m in ms {
          InFlatten(batches, b, m);
        }
        StampHonest(b);
      }
    }
  }
}
