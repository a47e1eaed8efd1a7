/** The dealer's connection ring: eight slots reused round-robin, connections that end on
    their own after one datagram, accepts that fail after an eviction, and a shutdown.
    Connections are numbered by successful accepts; the kernel reuses descriptors. */
module Dealer {
  import opened Wrappers

  const SLOTS := 8

  /** A slot: its descriptor field, and the connection its active watcher serves. */
  datatype Slot = Slot(fd: int, conn: Option<nat>)

  /** The ring, and the kernel's view: open descriptors, accepts so far, closes in order. */
  datatype State = State(slots: seq<Slot>, next: nat, open: map<int, nat>, accepted: nat, closed: seq<nat>)

  datatype Event =
    | Accept(fd: int)     // a connection attempt; accept() returns fd, negative on failure
    | Data(i: nat)        // slot i's watcher fires
    | Shutdown

  ghost predicate Shape(s: State) {
    |s.slots| == SLOTS && s.next < SLOTS
  }

  /** close(): the connection behind an open descriptor ends; otherwise nothing happens. */
  function Close(s: State, fd: int): State {
    if fd in s.open then s.(open := s.open - {fd}, closed := s.closed + [s.open[fd]]) else s
  }

  /** ev_io_shut(): stop the watcher, close its descriptor, reset the slot. */
  function Shut(s: State, i: nat): (r: State)
    requires Shape(s) && i < SLOTS
    ensures Shape(r) && r.next == s.next && r.accepted == s.accepted
  {
    Close(s, s.slots[i].fd).(slots := s.slots[i := Slot(-1, None)])
  }

  function ShutIfUsed(s: State, i: nat): (r: State)
    requires Shape(s) && i < SLOTS
    ensures Shape(r) && r.next == s.next && r.accepted == s.accepted
  {
    if s.slots[i].fd > 0 then Shut(s, i) else s
  }

  function ShutUpTo(s: State, n: nat): (r: State)
    requires Shape(s) && n <= SLOTS
    ensures Shape(r) && r.next == s.next && r.accepted == s.accepted
  {
    if n == 0 then s else ShutIfUsed(ShutUpTo(s, n - 1), n - 1)
  }

  function Admit(s: State, fd: int): (r: State)
    requires Shape(s)
    ensures Shape(r)
  {
    var t := ShutIfUsed(s, s.next);
    if fd < 0 then t
    else State(t.slots[t.next := Slot(fd, Some(t.accepted))], (t.next + 1) % SLOTS,
               t.open[fd := t.accepted], t.accepted + 1, t.closed)
  }

  function Step(s: State, e: Event): (r: State)
    requires Shape(s)
    ensures Shape(r)
  {
    match e
    case Accept(fd) => Admit(s, fd)
    case Data(i) => if i < SLOTS then Shut(s, i) else s
    case Shutdown => ShutUpTo(s, SLOTS)
  }

  /** What the kernel and the event loop allow: accept() returns a descriptor that is not
      open once the eviction is done, and only an active watcher fires. */
  predicate Possible(s: State, e: Event)
    requires Shape(s)
  {
    match e
    case Accept(fd) => fd !in ShutIfUsed(s, s.next).open
    case Data(i) => i < SLOTS && s.slots[i].conn != None
    case Shutdown => true
  }

  ghost predicate Initial(s: State) {
    s == State(seq(SLOTS, _ => Slot(0, None)), 0, map[], 0, [])
  }

  // --- invariant ---

  predicate Live(s: State, i: nat, id: nat)
    requires Shape(s) && i < SLOTS
  {
    s.slots[i].conn == Some(id)
  }

  /** Connection id is live in exactly one slot and never closed, or closed once and live nowhere. */
  ghost predicate Accounted(s: State, id: nat)
    requires Shape(s)
  {
    if id in s.closed
    then multiset(s.closed)[id] == 1 && forall i :: 0 <= i < SLOTS ==> !Live(s, i, id)
    else Live(s, id % SLOTS, id) && forall i :: 0 <= i < SLOTS && Live(s, i, id) ==> i == id % SLOTS
  }

  ghost predicate AllAccounted(s: State)
    requires Shape(s)
  {
    forall id :: 0 <= id < s.accepted ==> Accounted(s, id)
  }

  /** The ring in step with the kernel: a served slot's descriptor is open for exactly its
      connection, one of the last eight accepted and in its own residue's slot; an unserved
      slot's descriptor field is not positive. */
  ghost predicate Ring(s: State)
    requires Shape(s)
  {
    && s.next == s.accepted % SLOTS
    && (forall i :: 0 <= i < SLOTS ==>
         match s.slots[i].conn
         case None => s.slots[i].fd <= 0
         case Some(id) =>
           && s.slots[i].fd >= 0 && s.slots[i].fd in s.open && s.open[s.slots[i].fd] == id
           && id < s.accepted <= id + SLOTS && id % SLOTS == i)
    && (forall id :: id in s.closed ==> 0 <= id < s.accepted)
    && (forall fd :: fd in s.open ==>
         && s.open[fd] < s.accepted && s.open[fd] !in s.closed
         && s.slots[s.open[fd] % SLOTS] == Slot(fd, Some(s.open[fd])))
  }

  ghost predicate Inv(s: State) {
    Shape(s) && Ring(s) && AllAccounted(s)
  }

  /** The guard that fails to close: the slot to be reused serves descriptor 0. */
  predicate Leaks(s: State, e: Event)
    requires Shape(s)
  {
    e.Accept? && e.fd >= 0 && s.slots[s.next].conn != None && s.slots[s.next].fd == 0
  }

  /** Every result about runs holds from the zeroed ring. */
  lemma InitialInv(s: State)
    requires Initial(s)
    ensures Inv(s)
  {
  }

  lemma ShutKeeps(s: State, i: nat)
    requires Inv(s) && i < SLOTS && s.slots[i].conn != None
    ensures Inv(Shut(s, i))
    ensures Shut(s, i).closed == s.closed + [s.slots[i].conn.value]
    ensures Shut(s, i).slots[i].conn == None
  {
    var id := s.slots[i].conn.value;
    var t := Shut(s, i);
    assert t.closed == s.closed + [id];
    assert Accounted(s, id);
    forall k | 0 <= k < t.accepted ensures Accounted(t, k) {
      assert Accounted(s, k);
      assert k in t.closed <==> k in s.closed || k == id;
    }
  }

  lemma ShutIfUsedKeeps(s: State, i: nat)
    requires Inv(s) && i < SLOTS
    ensures Inv(ShutIfUsed(s, i))
    ensures s.slots[i].conn != None && s.slots[i].fd > 0 ==>
      ShutIfUsed(s, i).closed == s.closed + [s.slots[i].conn.value] && ShutIfUsed(s, i).slots[i].conn == None
    ensures s.slots[i].conn == None || s.slots[i].fd == 0 ==> ShutIfUsed(s, i) == s
  {
    if s.slots[i].fd > 0 {
      ShutKeeps(s, i);
    }
  }

  lemma Residue(id: nat, n: nat)
    requires id < n <= id + SLOTS && id % SLOTS == n % SLOTS
    ensures id == n - SLOTS
  {
  }

  lemma NextResidue(n: nat)
    ensures (n % SLOTS + 1) % SLOTS == (n + 1) % SLOTS
  {
  }

  lemma Newest(id: nat, n: nat)
    requires id < n <= id + SLOTS && id % SLOTS != n % SLOTS
    ensures n + 1 <= id + SLOTS
  {
  }

  /** Filling an unserved slot. */
  lemma AdmitKeeps(s: State, fd: int)
    requires Inv(s) && fd >= 0 && fd !in s.open && s.slots[s.next].conn == None
    ensures Inv(Admit(s, fd))
  {
    ShutIfUsedKeeps(s, s.next);
    AdmitRing(s, fd, Admit(s, fd));
    AdmitAccounts(s, fd, Admit(s, fd));
  }

  ghost predicate Admitted(s: State, fd: int, t: State)
    requires Shape(s)
  {
    t == State(s.slots[s.next := Slot(fd, Some(s.accepted))], (s.next + 1) % SLOTS,
               s.open[fd := s.accepted], s.accepted + 1, s.closed)
  }

  lemma AdmitRing(s: State, fd: int, t: State)
    requires Inv(s) && fd >= 0 && fd !in s.open && s.slots[s.next].conn == None && Admitted(s, fd, t)
    ensures Ring(t)
  {
    NextResidue(s.accepted);
    forall i | 0 <= i < SLOTS && i != s.next && s.slots[i].conn != None
      ensures t.accepted <= s.slots[i].conn.value + SLOTS
    {
      Newest(s.slots[i].conn.value, s.accepted);
    }
  }

  lemma AdmitAccounts(s: State, fd: int, t: State)
    requires Inv(s) && s.slots[s.next].conn == None && Admitted(s, fd, t)
    ensures AllAccounted(t)
  {
    forall k | 0 <= k < t.accepted ensures Accounted(t, k) {
      if k < s.accepted { assert Accounted(s, k); }
    }
  }

  /** A possible event keeps every connection accounted for exactly when it is not an
      accept that reuses a slot still serving descriptor 0. */
  lemma StepIff(s: State, e: Event)
    requires Inv(s) && Possible(s, e)
    ensures Inv(Step(s, e)) <==> !Leaks(s, e)
  {
    match e {
      case Accept(fd) =>
        ShutIfUsedKeeps(s, s.next);
        var t := ShutIfUsed(s, s.next);
        if Leaks(s, e) {
          var id := s.slots[s.next].conn.value;
          var u := Step(s, e);
          assert Accounted(s, id);
          assert id !in u.closed && !Live(u, id % SLOTS, id);
          assert !Accounted(u, id);
        } else if fd >= 0 {
          AdmitKeeps(t, fd);
          assert Admit(t, fd) == Admit(s, fd);
        }
      case Data(i) =>
        ShutKeeps(s, i);
      case Shutdown =>
        ShutUpToKeeps(s, SLOTS);
    }
  }

  /** A successful accept makes the next connection live in its own slot and behind its
      descriptor, a failed one admits nothing, and a data event closes its connection. */
  lemma EventEffects(s: State, e: Event)
    requires Inv(s) && Possible(s, e) && !Leaks(s, e)
    ensures var t := Step(s, e);
      match e
      case Accept(fd) =>
        if fd >= 0
        then t.accepted == s.accepted + 1 && Live(t, s.accepted % SLOTS, s.accepted)
             && fd in t.open && t.open[fd] == s.accepted
        else t.accepted == s.accepted && t.next == s.next
      case Data(i) =>
        && t.accepted == s.accepted && t.closed == s.closed + [s.slots[i].conn.value]
        && t.slots == s.slots[i := Slot(-1, None)] && t.next == s.next
      case Shutdown => t.accepted == s.accepted
  {
    if e.Data? {
      ShutKeeps(s, e.i);
    }
  }

  lemma {:induction false} ShutUpToKeeps(s: State, n: nat)
    requires Inv(s) && n <= SLOTS
    ensures Inv(ShutUpTo(s, n))
  {
    if n > 0 {
      hide Ring, AllAccounted;
      ShutUpToKeeps(s, n - 1);
      ShutIfUsedKeeps(ShutUpTo(s, n - 1), n - 1);
    }
  }

  lemma {:induction false} ShutUpToSlots(s: State, n: nat)
    requires Shape(s) && n <= SLOTS
    ensures forall i :: 0 <= i < SLOTS ==>
      ShutUpTo(s, n).slots[i] == if i < n && s.slots[i].fd > 0 then Slot(-1, None) else s.slots[i]
  {
    if n > 0 {
      ShutUpToSlots(s, n - 1);
    }
  }

  // --- runs ---

  function Run(s: State, es: seq<Event>): (r: State)
    requires Shape(s)
    ensures Shape(r)
    decreases |es|
  {
    if es == [] then s else Run(Step(s, es[0]), es[1..])
  }

  ghost predicate AllPossible(s: State, es: seq<Event>)
    requires Shape(s)
    decreases |es|
  {
    es == [] || (Possible(s, es[0]) && AllPossible(Step(s, es[0]), es[1..]))
  }

  /** No slot serves descriptor 0. */
  ghost predicate Positive(s: State)
    requires Shape(s)
  {
    forall i :: 0 <= i < SLOTS && s.slots[i].conn != None ==> s.slots[i].fd > 0
  }

  lemma StepPositive(s: State, e: Event)
    requires Inv(s) && Possible(s, e) && Positive(s) && e != Accept(0)
    ensures Positive(Step(s, e)) && Inv(Step(s, e))
  {
    StepIff(s, e);
    if e == Shutdown {
      ShutUpToSlots(s, SLOTS);
    }
  }

  /** Over every run in which accept() never returns descriptor 0, each accepted connection
      is live in exactly one slot or has been closed exactly once. */
  lemma {:induction false} RunAccounts(s: State, es: seq<Event>)
    requires Inv(s) && Positive(s) && AllPossible(s, es)
    requires Accept(0) !in es
    ensures Inv(Run(s, es)) && Positive(Run(s, es))
    decreases |es|
  {
    if es != [] {
      assert es[0] in es && forall e :: e in es[1..] ==> e in es;
      StepPositive(s, es[0]);
      RunAccounts(Step(s, es[0]), es[1..]);
    }
  }

  // --- when a run loses a connection ---

  /** No event of the run leaks. */
  ghost predicate NeverLeaks(s: State, es: seq<Event>)
    requires Shape(s)
    decreases |es|
  {
    es == [] || (!Leaks(s, es[0]) && NeverLeaks(Step(s, es[0]), es[1..]))
  }

  /** What every run keeps, leaks or not: a served slot's descriptor is open for its own
      connection, which belongs to that slot. */
  ghost predicate Served(s: State)
    requires Shape(s)
  {
    forall i :: 0 <= i < SLOTS ==>
      match s.slots[i].conn
      case None => s.slots[i].fd <= 0
      case Some(id) =>
        && s.slots[i].fd >= 0 && s.slots[i].fd in s.open && s.open[s.slots[i].fd] == id
        && id < s.accepted && id % SLOTS == i
  }

  /** Connection id is open behind descriptor 0, served by no slot and not closed. */
  ghost predicate Lost(s: State, id: nat)
    requires Shape(s)
  {
    && Served(s) && s.next == s.accepted % SLOTS
    && id < s.accepted && id !in s.closed
    && 0 in s.open && s.open[0] == id
    && forall i :: 0 <= i < SLOTS ==> s.slots[i].conn != Some(id)
  }

  lemma LeakLoses(s: State, e: Event)
    requires Inv(s) && Possible(s, e) && Leaks(s, e)
    ensures Lost(Step(s, e), s.slots[s.next].conn.value)
  {
    NextResidue(s.accepted);
    assert ShutIfUsed(s, s.next) == s;
  }

  lemma ShutKeepsLost(s: State, i: nat, id: nat)
    requires Shape(s) && Lost(s, id) && i < SLOTS && s.slots[i].conn != None
    ensures Lost(Shut(s, i), id)
  {
    var t, fd := Shut(s, i), s.slots[i].fd;
    assert fd != 0 && s.open[fd] != id;
    assert t.closed == s.closed + [s.open[fd]];
    forall j | 0 <= j < SLOTS && j != i && s.slots[j].conn != None ensures s.slots[j].fd != fd {
      assert s.open[s.slots[j].fd] == s.slots[j].conn.value;
    }
  }

  lemma {:induction false} ShutUpToKeepsLost(s: State, n: nat, id: nat)
    requires Shape(s) && Lost(s, id) && n <= SLOTS
    ensures Lost(ShutUpTo(s, n), id)
  {
    if n > 0 {
      ShutUpToKeepsLost(s, n - 1, id);
      var t := ShutUpTo(s, n - 1);
      if t.slots[n - 1].fd > 0 {
        ShutKeepsLost(t, n - 1, id);
      }
    }
  }

  /** A lost connection stays lost. */
  lemma StepKeepsLost(s: State, e: Event, id: nat)
    requires Shape(s) && Lost(s, id) && Possible(s, e)
    ensures Lost(Step(s, e), id)
  {
    match e {
      case Accept(fd) =>
        var t := ShutIfUsed(s, s.next);
        if s.slots[s.next].fd > 0 {
          ShutKeepsLost(s, s.next, id);
        }
        NextResidue(s.accepted);
        AdmitKeepsLost(t, fd, id, Step(s, e));
      case Data(i) => ShutKeepsLost(s, i, id);
      case Shutdown => ShutUpToKeepsLost(s, SLOTS, id);
    }
  }

  lemma AdmitKeepsLost(s: State, fd: int, id: nat, t: State)
    requires Shape(s) && Lost(s, id) && fd !in s.open
    requires if fd < 0 then t == s else Admitted(s, fd, t)
    ensures Shape(t) && Lost(t, id)
  {
    NextResidue(s.accepted);
  }

  lemma {:induction false} RunKeepsLost(s: State, es: seq<Event>, id: nat)
    requires Shape(s) && Lost(s, id) && AllPossible(s, es)
    ensures Lost(Run(s, es), id)
    decreases |es|
  {
    if es != [] {
      StepKeepsLost(s, es[0], id);
      RunKeepsLost(Step(s, es[0]), es[1..], id);
    }
  }

  lemma {:induction false} RunKeeps(s: State, es: seq<Event>)
    requires Inv(s) && AllPossible(s, es) && NeverLeaks(s, es)
    ensures Inv(Run(s, es))
    decreases |es|
  {
    if es != [] {
      StepIff(s, es[0]);
      RunKeeps(Step(s, es[0]), es[1..]);
    }
  }

  /** A run with a leak ends with a connection lost. */
  lemma {:induction false} RunLoses(s: State, es: seq<Event>) returns (id: nat)
    requires Inv(s) && AllPossible(s, es) && !NeverLeaks(s, es)
    ensures Lost(Run(s, es), id)
    decreases |es|
  {
    if Leaks(s, es[0]) {
      id := s.slots[s.next].conn.value;
      LeakLoses(s, es[0]);
      RunKeepsLost(Step(s, es[0]), es[1..], id);
    } else {
      StepIff(s, es[0]);
      id := RunLoses(Step(s, es[0]), es[1..]);
    }
  }

  /** A run ends with every accepted connection live in exactly one slot or closed exactly
      once, if and only if it never reused a slot still serving descriptor 0. */
  lemma RunIff(s: State, es: seq<Event>)
    requires Inv(s) && AllPossible(s, es)
    ensures AllAccounted(Run(s, es)) <==> NeverLeaks(s, es)
  {
    if NeverLeaks(s, es) {
      RunKeeps(s, es);
    } else {
      var id := RunLoses(s, es);
      assert !Accounted(Run(s, es), id);
    }
  }

  /** Some slot serves descriptor 0. */
  ghost predicate ServesZero(s: State)
    requires Shape(s)
  {
    exists i :: 0 <= i < SLOTS && s.slots[i].conn != None && s.slots[i].fd == 0
  }

  /** Nothing is open and every accepted connection has been closed exactly once. */
  ghost predicate AllClosed(s: State) {
    s.open == map[] && forall id :: 0 <= id < s.accepted ==> multiset(s.closed)[id] == 1
  }

  lemma ShutdownClosesAll(s: State)
    requires Inv(s)
    ensures AllClosed(Step(s, Shutdown)) <==> !ServesZero(s)
  {
    var t := Step(s, Shutdown);
    ShutUpToKeeps(s, SLOTS);
    assert forall fd :: fd in t.open ==> t.slots[t.open[fd] % SLOTS].conn != None;
    ShutUpToSlots(s, SLOTS);
    if ServesZero(s) {
      var i :| 0 <= i < SLOTS && s.slots[i].conn != None && s.slots[i].fd == 0;
      assert t.slots[i] == s.slots[i] && 0 in t.open;
    } else {
      assert forall i :: 0 <= i < SLOTS ==> t.slots[i].conn == None;
      forall id | 0 <= id < t.accepted ensures multiset(t.closed)[id] == 1 {
        assert Accounted(t, id);
      }
    }
  }

  /** After a run and a final shutdown every accepted connection has been closed exactly
      once and nothing is open, if and only if the run never reused a slot still serving
      descriptor 0 and ends with no slot serving it. */
  lemma ShutdownIff(s: State, es: seq<Event>)
    requires Inv(s) && AllPossible(s, es)
    ensures AllClosed(Step(Run(s, es), Shutdown)) <==> NeverLeaks(s, es) && !ServesZero(Run(s, es))
  {
    if NeverLeaks(s, es) {
      RunKeeps(s, es);
      ShutdownClosesAll(Run(s, es));
    } else {
      var id := RunLoses(s, es);
      StepKeepsLost(Run(s, es), Shutdown, id);
    }
  }

  /** One connection, on descriptor 0, and a shutdown: it stays open. */
  lemma ZeroSurvivesShutdown(s: State)
    requires Initial(s)
    ensures var t := Run(s, [Accept(0), Shutdown]);
      AllPossible(s, [Accept(0), Shutdown]) && t.accepted == 1 && t.closed == [] && t.open == map[0 := 0]
  {
    var t := Step(s, Accept(0));
    assert t.slots[0] == Slot(0, Some(0)) && forall i :: 1 <= i < SLOTS ==> t.slots[i].fd == 0;
    ShutNothing(t, SLOTS);
    assert [Accept(0), Shutdown][1..] == [Shutdown];
  }

  lemma {:induction false} ShutNothing(s: State, n: nat)
    requires Shape(s) && n <= SLOTS && forall i :: 0 <= i < SLOTS ==> s.slots[i].fd <= 0
    ensures ShutUpTo(s, n) == s
  {
    if n > 0 {
      ShutNothing(s, n - 1);
    }
  }

  // --- eviction, in every run ---

  /** What every run keeps, leaks or not: a served slot serves one of the last eight
      accepted, and each of these is served by its slot or closed. */
  ghost predicate Recent(s: State)
    requires Shape(s)
  {
    && Served(s) && s.next == s.accepted % SLOTS
    && (forall i :: 0 <= i < SLOTS && s.slots[i].conn != None ==> s.accepted <= s.slots[i].conn.value + SLOTS)
    && (forall id :: id in s.closed ==> 0 <= id < s.accepted)
    && forall id: nat :: s.accepted - SLOTS <= id < s.accepted ==>
         (s.slots[id % SLOTS].conn == Some(id) <==> id !in s.closed)
  }

  lemma InvRecent(s: State)
    requires Inv(s)
    ensures Recent(s)
  {
    forall id: nat | s.accepted - SLOTS <= id < s.accepted
      ensures s.slots[id % SLOTS].conn == Some(id) <==> id !in s.closed
    {
      assert Accounted(s, id);
    }
  }

  lemma SameResidue(id: nat, k: nat, n: nat)
    requires id < n <= id + SLOTS && k < n <= k + SLOTS && id % SLOTS == k % SLOTS
    ensures id == k
  {
  }

  lemma ShutKeepsRecent(s: State, i: nat)
    requires Shape(s) && Recent(s) && i < SLOTS && s.slots[i].conn != None
    ensures Recent(Shut(s, i)) && Shut(s, i).slots[i].conn == None
    ensures Shut(s, i).closed == s.closed + [s.slots[i].conn.value]
  {
    var t, fd, id := Shut(s, i), s.slots[i].fd, s.slots[i].conn.value;
    assert t.closed == s.closed + [id];
    forall j | 0 <= j < SLOTS && j != i && s.slots[j].conn != None ensures s.slots[j].fd != fd {
      assert s.open[s.slots[j].fd] == s.slots[j].conn.value;
    }
    forall k: nat | t.accepted - SLOTS <= k < t.accepted
      ensures t.slots[k % SLOTS].conn == Some(k) <==> k !in t.closed
    {
      if k % SLOTS == i { SameResidue(id, k, s.accepted); }
    }
  }

  lemma ShutIfUsedKeepsRecent(s: State, i: nat)
    requires Shape(s) && Recent(s) && i < SLOTS
    ensures var t := ShutIfUsed(s, i);
      && Recent(t)
      && (s.slots[i].conn != None && s.slots[i].fd > 0 ==>
            t.closed == s.closed + [s.slots[i].conn.value] && t.slots[i].conn == None)
      && (s.slots[i].conn == None || s.slots[i].fd == 0 ==> t == s)
  {
    if s.slots[i].fd > 0 {
      ShutKeepsRecent(s, i);
    }
  }

  lemma {:induction false} ShutUpToKeepsRecent(s: State, n: nat)
    requires Shape(s) && Recent(s) && n <= SLOTS
    ensures Recent(ShutUpTo(s, n))
  {
    if n > 0 {
      ShutUpToKeepsRecent(s, n - 1);
      ShutIfUsedKeepsRecent(ShutUpTo(s, n - 1), n - 1);
    }
  }

  lemma AdmitKeepsRecent(s: State, fd: int, t: State)
    requires Shape(s) && Recent(s) && fd >= 0 && fd !in s.open && Admitted(s, fd, t)
    ensures Shape(t) && Recent(t)
  {
    NextResidue(s.accepted);
    forall i | 0 <= i < SLOTS && i != s.next && s.slots[i].conn != None
      ensures t.accepted <= s.slots[i].conn.value + SLOTS
    {
      Newest(s.slots[i].conn.value, s.accepted);
    }
    forall k: nat | t.accepted - SLOTS <= k < t.accepted
      ensures t.slots[k % SLOTS].conn == Some(k) <==> k !in t.closed
    {
      if k < s.accepted && k % SLOTS == s.next { Residue(k, s.accepted); }
    }
  }

  lemma StepKeepsRecent(s: State, e: Event)
    requires Shape(s) && Recent(s) && Possible(s, e)
    ensures Recent(Step(s, e))
  {
    match e {
      case Accept(fd) =>
        ShutIfUsedKeepsRecent(s, s.next);
        if fd >= 0 { AdmitKeepsRecent(ShutIfUsed(s, s.next), fd, Step(s, e)); }
      case Data(i) => ShutKeepsRecent(s, i);
      case Shutdown => ShutUpToKeepsRecent(s, SLOTS);
    }
  }

  lemma {:induction false} RunKeepsRecent(s: State, es: seq<Event>)
    requires Shape(s) && Recent(s) && AllPossible(s, es)
    ensures Recent(Run(s, es))
    decreases |es|
  {
    if es != [] {
      StepKeepsRecent(s, es[0]);
      RunKeepsRecent(Step(s, es[0]), es[1..]);
    }
  }

  /** The slot to be reused serves the connection accepted eight successful accepts before
      the one attempted while that is not closed, and else none. */
  lemma NextSlotServes(s: State)
    requires Shape(s) && Recent(s)
    ensures s.slots[s.next].conn ==
      if s.accepted >= SLOTS && s.accepted - SLOTS !in s.closed then Some((s.accepted - SLOTS) as nat) else None
  {
    if s.slots[s.next].conn != None {
      Residue(s.slots[s.next].conn.value, s.accepted);
    }
    if s.accepted >= SLOTS {
      assert (s.accepted - SLOTS) % SLOTS == s.next;
    }
  }

  lemma Evicts(s: State, fd: int)
    requires Shape(s) && Recent(s)
    ensures Step(s, Accept(fd)).closed ==
      if s.accepted >= SLOTS && s.accepted - SLOTS !in s.closed && s.slots[s.next].fd != 0
      then s.closed + [(s.accepted - SLOTS) as nat] else s.closed
  {
    NextSlotServes(s);
    ShutIfUsedKeepsRecent(s, s.next);
    assert s.slots[s.next].conn != None ==> s.slots[s.next].fd >= 0;
    hide ShutIfUsed, Recent;
  }

  /** After any run, with leaks or without, an accept attempt closes exactly the connection
      accepted eight successful accepts before the one attempted, if it has not been closed
      and its slot does not serve descriptor 0; it does so also when the accept then fails. */
  lemma EvictsTheEighth(s: State, es: seq<Event>, fd: int)
    requires Inv(s) && AllPossible(s, es)
    ensures var r := Run(s, es);
      Step(r, Accept(fd)).closed ==
        if r.accepted >= 8 && r.accepted - 8 !in r.closed && r.slots[r.next].fd != 0
        then r.closed + [(r.accepted - 8) as nat] else r.closed
  {
    assert Shape(s);
    hide *;
    InvRecent(s);
    RunKeepsRecent(s, es);
    Evicts(Run(s, es), fd);
  }

  // --- descriptor 0 ---

  /** The state after accepts that return 0, 1, ..., k - 1. */
  ghost function Full(s: State, k: nat): (r: State)
    requires Shape(s)
    ensures Shape(r)
  {
    if k == 0 then s else Step(Full(s, k - 1), Accept(k - 1))
  }

  function Accepts(k: nat, n: nat): (es: seq<Event>)
    requires k <= n
    ensures |es| == n - k
    decreases n - k
  {
    if k == n then [] else [Accept(k)] + Accepts(k + 1, n)
  }

  ghost predicate Filled(t: State, k: nat)
    requires Shape(t)
  {
    && t.next == k % SLOTS && t.accepted == k && t.closed == []
    && (forall i :: 0 <= i < SLOTS ==> t.slots[i] == if i < k then Slot(i, Some(i as nat)) else Slot(0, None))
    && forall fd :: fd in t.open ==> 0 <= fd < k
  }

  lemma FillOne(t: State, k: nat)
    requires Shape(t) && Filled(t, k) && k < SLOTS
    ensures Possible(t, Accept(k)) && Filled(Step(t, Accept(k)), k + 1)
  {
    assert ShutIfUsed(t, t.next) == t;
    NextResidue(k);
  }

  lemma {:induction false} FullShape(s: State, k: nat)
    requires Initial(s) && k <= SLOTS
    ensures Filled(Full(s, k), k)
  {
    if k > 0 {
      FullShape(s, k - 1);
      FillOne(Full(s, k - 1), k - 1);
    }
  }

  lemma {:induction false} FullRun(s: State, k: nat)
    requires Initial(s) && k <= SLOTS
    ensures AllPossible(Full(s, k), Accepts(k, SLOTS)) && Run(Full(s, k), Accepts(k, SLOTS)) == Full(s, SLOTS)
    decreases SLOTS - k
  {
    if k < SLOTS {
      FullShape(s, k);
      FillOne(Full(s, k), k);
      FullRun(s, k + 1);
      assert Accepts(k, SLOTS)[1..] == Accepts(k + 1, SLOTS);
    }
  }

  /** The condition on descriptor 0 is needed: accepts returning 0 to 7 and then 8 leave
      connection 0 open, served by no slot and never closed. */
  lemma DescriptorZeroLeaks(s: State)
    requires Initial(s)
    ensures var es := Accepts(0, SLOTS);
      && AllPossible(s, es)
      && Possible(Run(s, es), Accept(8))
      && !AllAccounted(Step(Run(s, es), Accept(8)))
  {
    FullRun(s, 0);
    FullShape(s, SLOTS);
    var t := Step(Full(s, SLOTS), Accept(8));
    assert !Live(t, 0, 0) && 0 !in t.closed;
    assert !Accounted(t, 0);
  }

  // --- the callbacks ---

  /** The static connection array and index of dlr_tcp_cb, with the kernel state they act on. */
  class ConnRing {
    const conns: array<Slot>
    var next: nat
    var open: map<int, nat>
    var accepted: nat
    var closed: seq<nat>

    ghost predicate Valid()
      reads this, conns
    {
      conns.Length == SLOTS && next < SLOTS
    }

    ghost function View(): (s: State)
      reads this, conns
      requires Valid()
      ensures Shape(s)
    {
      State(conns[..], next, open, accepted, closed)
    }

    constructor ()
      ensures Valid() && Initial(View()) && fresh(conns)
    {
      conns := new Slot[SLOTS](_ => Slot(0, None));
      next, open, accepted, closed := 0, map[], 0, [];
    }

    method EvIoShut(i: nat)
      requires Valid() && i < SLOTS
      modifies this, conns
      ensures Valid() && View() == Shut(old(View()), i)
    {
      var fd := conns[i].fd;
      if fd in open {
        closed := closed + [open[fd]];
        open := open - {fd};
      }
      conns[i] := Slot(-1, None);
    }

    /** The watcher of slot i fires: one datagram or an error, then the connection ends. */
    method DataCb(i: nat)
      requires Valid() && i < SLOTS && conns[i].conn != None
      modifies this, conns
      ensures Valid() && View() == Step(old(View()), Data(i))
    {
      EvIoShut(i);
    }

    /** The listening watcher fires, or is told to go down. */
    method TcpCb(down: bool, fd: int)
      requires Valid()
      modifies this, conns
      ensures Valid() && View() == Step(old(View()), if down then Shutdown else Accept(fd))
    {
      ghost var s := View();
      if down {
        for i := 0 to SLOTS
          invariant Valid() && View() == ShutUpTo(s, i)
        {
          if conns[i].fd > 0 {
            EvIoShut(i);
          }
        }
        return;
      }
      if conns[next].fd > 0 {
        EvIoShut(next);
      }
      if fd < 0 {
        return;
      }
      conns[next] := Slot(fd, Some(accepted));
      open := open[fd := accepted];
      accepted := accepted + 1;
      next := next + 1;
      if next >= SLOTS {
        next := 0;
      }
    }
  }
}
