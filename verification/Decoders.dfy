/** The monitor's decoder table: 128 lazily allocated pages of 512 callbacks, two channels
    to a page, behaving as one map from 16-bit services to decoders. */
module Decoders {
  import opened Wrappers

  type Service = s: int | 0 <= s < 0x1_0000

  /** A decoder callback, or none. */
  datatype Callback = Null | Decoder(id: nat)

  const PAGES := 128
  const SLOTS := 512

  /** UD_CHN(svc) / 2 */
  function PageOf(svc: Service): (p: nat)
    ensures p < PAGES
  {
    svc / 0x100 / 2
  }

  /** The first nine bits. */
  function SlotOf(svc: Service): (i: nat)
    ensures i < SLOTS
  {
    svc % 512
  }

  /** The split is a bijection between services and cells. */
  lemma SplitBijective(svc: Service, p: nat, i: nat)
    requires p < PAGES && i < SLOTS
    ensures PageOf(svc) == p && SlotOf(svc) == i <==> svc == p * SLOTS + i
  {
    assert svc / 0x100 / 2 == svc / 512;
  }

  // --- the table as a value ---

  type Table = seq<Option<seq<Callback>>>

  predicate Shape(t: Table) {
    |t| == PAGES && forall p :: 0 <= p < PAGES && t[p].Some? ==> |t[p].value| == SLOTS
  }

  function Find(t: Table, svc: Service): Callback
    requires Shape(t)
  {
    match t[PageOf(svc)]
    case None => Null
    case Some(page) => page[SlotOf(svc)]
  }

  function FreshPage(): (page: seq<Callback>)
    ensures |page| == SLOTS && forall i :: 0 <= i < SLOTS ==> page[i] == Null
  {
    seq(SLOTS, _ => Null)
  }

  function Put(t: Table, svc: Service, page: seq<Callback>, cb: Callback): (r: Table)
    requires Shape(t) && |page| == SLOTS
    ensures Shape(r)
  {
    t[PageOf(svc) := Some(page[SlotOf(svc) := cb])]
  }

  /** memory says whether a page can be allocated when one is needed. */
  function Register(t: Table, svc: Service, cb: Callback, memory: bool): (r: (Table, bool))
    requires Shape(t)
    ensures Shape(r.0)
  {
    match t[PageOf(svc)]
    case None => if memory then (Put(t, svc, FreshPage(), cb), true) else (t, false)
    case Some(page) => (Put(t, svc, page, cb), true)
  }

  function Deregister(t: Table, svc: Service): (r: (Table, bool))
    requires Shape(t)
    ensures Shape(r.0)
  {
    match t[PageOf(svc)]
    case None => (t, false)
    case Some(page) =>
      if page[SlotOf(svc)] == Null then (t, false) else (Put(t, svc, page, Null), true)
  }

  // --- refinement to a map ---

  /** The services with a decoder. */
  ghost function Abstract(t: Table): (m: map<Service, Callback>)
    requires Shape(t)
    ensures forall s: Service :: s in m <==> Find(t, s) != Null
    ensures forall s: Service :: s in m ==> m[s] == Find(t, s)
  {
    map s: Service | 0 <= s < 0x1_0000 && Find(t, s) != Null :: Find(t, s)
  }

  function Bind(m: map<Service, Callback>, svc: Service, cb: Callback): map<Service, Callback> {
    if cb == Null then m - {svc} else m[svc := cb]
  }

  /** Writing one cell changes the lookup of its service and of no other. */
  lemma PutFinds(t: Table, svc: Service, page: seq<Callback>, cb: Callback, s: Service)
    requires Shape(t) && |page| == SLOTS
    requires t[PageOf(svc)] == Some(page) || (t[PageOf(svc)] == None && page == FreshPage())
    ensures Find(Put(t, svc, page, cb), s) == if s == svc then cb else Find(t, s)
  {
    SplitBijective(s, PageOf(svc), SlotOf(svc));
    SplitBijective(svc, PageOf(svc), SlotOf(svc));
  }

  lemma PutBinds(t: Table, svc: Service, page: seq<Callback>, cb: Callback)
    requires Shape(t) && |page| == SLOTS
    requires t[PageOf(svc)] == Some(page) || (t[PageOf(svc)] == None && page == FreshPage())
    ensures Abstract(Put(t, svc, page, cb)) == Bind(Abstract(t), svc, cb)
  {
    var t' := Put(t, svc, page, cb);
    hide Find, Put;
    forall s: Service ensures Find(t', s) == if s == svc then cb else Find(t, s) {
      PutFinds(t, svc, page, cb, s);
    }
    var m, m' := Bind(Abstract(t), svc, cb), Abstract(t');
    assert forall s: Service :: s in m' <==> s in m;
    assert forall s: Service :: s in m' ==> m'[s] == m[s];
  }

  datatype Op = Reg(svc: Service, cb: Callback, memory: bool) | Dereg(svc: Service)

  function Step(t: Table, op: Op): (r: (Table, bool))
    requires Shape(t)
    ensures Shape(r.0)
  {
    match op
    case Reg(svc, cb, memory) => Register(t, svc, cb, memory)
    case Dereg(svc) => Deregister(t, svc)
  }

  /** The map a user sees, and the channel pairs that have been given a page. */
  datatype Plain = Plain(bound: map<Service, Callback>, paged: set<nat>)

  ghost function Abs(t: Table): Plain
    requires Shape(t)
  {
    Plain(Abstract(t), set p: nat | p < PAGES && t[p].Some?)
  }

  /** The operations on the map: registering binds unless memory for a first page is
      refused, deregistering succeeds exactly for bound services. */
  function StepPlain(m: Plain, op: Op): (Plain, bool) {
    match op
    case Reg(svc, cb, memory) =>
      if memory || PageOf(svc) in m.paged
      then (Plain(Bind(m.bound, svc, cb), m.paged + {PageOf(svc)}), true)
      else (m, false)
    case Dereg(svc) =>
      if svc in m.bound then (m.(bound := m.bound - {svc}), true) else (m, false)
  }

  lemma PutPages(t: Table, svc: Service, page: seq<Callback>, cb: Callback)
    requires Shape(t) && |page| == SLOTS
    ensures Abs(Put(t, svc, page, cb)).paged == Abs(t).paged + {PageOf(svc)}
  {
  }

  lemma StepRefines(t: Table, op: Op)
    requires Shape(t)
    ensures Abs(Step(t, op).0) == StepPlain(Abs(t), op).0
    ensures Step(t, op).1 == StepPlain(Abs(t), op).1
  {
    var page := if t[PageOf(op.svc)].Some? then t[PageOf(op.svc)].value else FreshPage();
    var cb := if op.Reg? then op.cb else Null;
    hide Abstract, Put;
    PutBinds(t, op.svc, page, cb);
    PutPages(t, op.svc, page, cb);
  }

  function Run(t: Table, ops: seq<Op>): (r: Table)
    requires Shape(t)
    ensures Shape(r)
    decreases |ops|
  {
    if ops == [] then t else Run(Step(t, ops[0]).0, ops[1..])
  }

  function RunPlain(m: Plain, ops: seq<Op>): Plain
    decreases |ops|
  {
    if ops == [] then m else RunPlain(StepPlain(m, ops[0]).0, ops[1..])
  }

  /** Over every run, allocation failures included, the paged table is the plain map. */
  lemma {:induction false} RunRefines(t: Table, ops: seq<Op>)
    requires Shape(t)
    ensures Abs(Run(t, ops)) == RunPlain(Abs(t), ops)
    decreases |ops|
  {
    if ops != [] {
      StepRefines(t, ops[0]);
      hide Step, StepPlain, Abs;
      RunRefines(Step(t, ops[0]).0, ops[1..]);
    }
  }

  /** An operation on one service leaves every other lookup unchanged. */
  lemma OthersUnchanged(t: Table, op: Op, s: Service)
    requires Shape(t) && s != op.svc
    ensures Find(Step(t, op).0, s) == Find(t, s)
  {
    StepRefines(t, op);
    hide Step, Find;
    var m, m' := Abs(t).bound, Abs(Step(t, op).0).bound;
    assert s in m' <==> s in m;
  }

  // --- the table in place ---

  class DecMap {
    const pages: array<array?<Callback>>

    /** Every allocated page is a page of its own. */
    ghost predicate Valid()
      reads pages, set p | 0 <= p < pages.Length :: pages[p]
    {
      && pages.Length == PAGES
      && (forall p :: 0 <= p < PAGES && pages[p] != null ==> pages[p].Length == SLOTS)
      && forall p, q :: 0 <= p < q < PAGES && pages[p] != null ==> pages[p] != pages[q]
    }

    ghost function View(): (t: Table)
      reads pages, set p | 0 <= p < pages.Length :: pages[p]
      requires Valid()
      ensures Shape(t)
      ensures forall p :: 0 <= p < PAGES ==> t[p] == if pages[p] == null then None else Some(pages[p][..])
    {
      seq(PAGES, p requires 0 <= p < PAGES && pages.Length == PAGES
                 reads pages, set q | 0 <= q < pages.Length :: pages[q] =>
        if pages[p] == null then None else Some(pages[p][..]))
    }

    constructor ()
      ensures Valid() && fresh(pages)
      ensures forall p :: 0 <= p < PAGES ==> View()[p] == None
    {
      pages := new array?<Callback>[PAGES](_ => null);
    }

    method Reg(svc: Service, cb: Callback, memory: bool) returns (r: int)
      requires Valid()
      modifies pages, pages[PageOf(svc)]
      ensures Valid() && View() == Register(old(View()), svc, cb, memory).0
      ensures r == if Register(old(View()), svc, cb, memory).1 then 0 else -1
    {
      var chn := svc / 0x100;
      var dm := pages[chn / 2];
      if dm == null {
        if !memory {
          return -1;
        }
        dm := new Callback[SLOTS](_ => Null);
        assert dm[..] == FreshPage();
        pages[chn / 2] := dm;
      }
      dm[svc % 512] := cb;
      return 0;
    }

    method Dereg(svc: Service) returns (r: int)
      requires Valid()
      modifies pages[PageOf(svc)]
      ensures Valid() && View() == Deregister(old(View()), svc).0
      ensures r == if Deregister(old(View()), svc).1 then 0 else -1
    {
      var chn := svc / 0x100;
      var dm := pages[chn / 2];
      if dm == null {
        return -1;
      } else if dm[svc % 512] == Null {
        return -1;
      }
      dm[svc % 512] := Null;
      return 0;
    }

    method Lookup(svc: Service) returns (cb: Callback)
      requires Valid()
      ensures cb == Find(View(), svc)
    {
      var dm := pages[svc / 0x100 / 2];
      if dm == null {
        return Null;
      }
      return dm[svc % 512];
    }
  }
}
