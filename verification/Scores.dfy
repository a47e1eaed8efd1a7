/** Server scores: a 32-bit word as a set of scores 0..31, its lowest-free-slot finder by
    a table modulo 37, and runs of claims and releases. */
module Scores {
  /** The word behind ud_pong_set_t, and a score as passed around, one byte. */
  type PongSet = bv32
  type Score = s: int | 0 <= s < 0x100

  const TABLE: seq<Score> := [
    32, 0, 1, 26, 2, 23, 27, 0, 3,
    16, 24, 30, 28, 11, 0, 13, 4,
    7, 17, 0, 25, 22, 31, 15, 29,
    10, 12, 6, 0, 21, 14, 9, 5,
    20, 8, 19, 18
  ]

  /** s & UD_LOW_SCORE as a shift distance. */
  function Slot(s: Score): bv5 {
    (s % 32) as bv5
  }

  function With(ps: bv32, k: bv5): bv32 {
    ps | (1 << k)
  }

  function Without(ps: bv32, k: bv5): bv32 {
    ps & !(1 << k)
  }

  function Set(ps: PongSet, s: Score): PongSet {
    With(ps, Slot(s))
  }

  function Unset(ps: PongSet, s: Score): PongSet {
    Without(ps, Slot(s))
  }

  /** The table entry of a power of two, or of zero. */
  function AtMod37(y: bv32): Score
    requires y & (y - 1) == 0
  {
    TABLE[(y % 37) as int]
  }

  function RightZeroes(x: bv32): Score {
    AtMod37(-x & x)
  }

  function FindScore(ps: PongSet): Score {
    RightZeroes(!ps)
  }

  // --- bits ---

  function Val(k: bv5): (n: nat)
    ensures n < 32
  {
    k as nat
  }

  lemma SlotVal(s: Score)
    ensures Val(Slot(s)) == s % 32
  {
  }

  lemma ValOrder(j: bv5, k: bv5)
    ensures Val(j) < Val(k) <==> j < k
    ensures Val(j) == Val(k) <==> j == k
  {
  }

  lemma ValNext(k: bv5)
    requires k < 31
    ensures Val(k + 1) == Val(k) + 1
  {
  }

  predicate Bit(x: bv32, k: bv5) {
    (x >> k) & 1 == 1
  }

  lemma MaskBit(ps: bv32, s: bv5, k: bv5)
    ensures Bit(ps | (1 << s), k) <==> Bit(ps, k) || k == s
    ensures Bit(ps & !(1 << s), k) <==> Bit(ps, k) && k != s
  {
  }

  lemma WithBit(ps: bv32, s: bv5, k: bv5)
    ensures Bit(With(ps, s), k) <==> Bit(ps, k) || k == s
    ensures Bit(Without(ps, s), k) <==> Bit(ps, k) && k != s
  {
    hide Bit;
    MaskBit(ps, s, k);
  }

  predicate NoneBelow(x: bv32, k: bv5) {
    x & ((1 << k) - 1) == 0
  }

  /** x has bit k set and none below. */
  predicate Lowest(x: bv32, k: bv5) {
    Bit(x, k) && NoneBelow(x, k)
  }

  /** Negation isolates the lowest set bit. */
  lemma Isolates(x: bv32, k: bv5)
    requires Lowest(x, k)
    ensures -x & x == 1 << k
  {
  }

  lemma TableLow(k: bv5)
    requires k < 16
    ensures AtMod37(1 << k) == Val(k)
  {
  }

  lemma TableMiddle(k: bv5)
    requires 16 <= k < 24
    ensures AtMod37(1 << k) == Val(k)
  {
  }

  lemma TableHigh(k: bv5)
    requires k >= 24
    ensures AtMod37(1 << k) == Val(k)
  {
  }

  /** 37 tells all powers of two below 2^32 apart. */
  lemma TableHit(k: bv5)
    ensures AtMod37(1 << k) == Val(k)
  {
    hide AtMod37, Val;
    if k < 16 {
      TableLow(k);
    } else if k < 24 {
      TableMiddle(k);
    } else {
      TableHigh(k);
    }
  }

  lemma LowestByTable(x: bv32, k: bv5)
    requires Lowest(x, k)
    ensures RightZeroes(x) == Val(k)
  {
    Isolates(x, k);
    TableHit(k);
    hide Lowest, AtMod37, Val;
  }

  /** The lowest set bit from k on, when none is set below. */
  function FirstBit(x: bv32, k: bv5): (j: bv5)
    requires x != 0 && NoneBelow(x, k)
    ensures Lowest(x, j)
    decreases 31 - Val(k)
  {
    if Bit(x, k) then k
    else
      NextBit(x, k);
      ValNext(k);
      FirstBit(x, k + 1)
  }

  lemma NextBit(x: bv32, k: bv5)
    requires x != 0 && NoneBelow(x, k) && !Bit(x, k)
    ensures k < 31 && NoneBelow(x, k + 1)
  {
  }

  lemma Start(x: bv32)
    ensures NoneBelow(x, 0)
    ensures RightZeroes(0) == 32
  {
  }

  /** The table method returns the index of the lowest set bit, and 32 for zero. */
  lemma RightZeroesFinds(x: bv32)
    ensures NoneBelow(x, 0)
    ensures RightZeroes(x) == if x == 0 then 32 else Val(FirstBit(x, 0))
    ensures x != 0 ==> Lowest(x, FirstBit(x, 0))
  {
    hide FirstBit, Lowest, Bit, NoneBelow, RightZeroes, Val;
    Start(x);
    if x != 0 {
      LowestByTable(x, FirstBit(x, 0));
    }
  }

  // --- the word as a set of scores ---

  predicate Has(ps: PongSet, k: Score) {
    Bit(ps, Slot(k))
  }

  ghost function Members(ps: PongSet): set<Score> {
    set k: Score | 0 <= k < 32 && Has(ps, k)
  }

  lemma SetMember(ps: PongSet, s: Score, k: Score)
    requires k < 32
    ensures Has(Set(ps, s), k) <==> Has(ps, k) || k == s % 32
    ensures Has(Unset(ps, s), k) <==> Has(ps, k) && k != s % 32
  {
    hide Slot, Bit, With, Without, Val;
    WithBit(ps, Slot(s), Slot(k));
    SlotVal(s);
    SlotVal(k);
    ValOrder(Slot(k), Slot(s));
  }

  lemma SetMembers(ps: PongSet, s: Score)
    ensures Members(Set(ps, s)) == Members(ps) + {s % 32}
    ensures Members(Unset(ps, s)) == Members(ps) - {s % 32}
  {
    hide Has, Set, Unset;
    forall k: Score | 0 <= k < 32
      ensures Has(Set(ps, s), k) <==> Has(ps, k) || k == s % 32
      ensures Has(Unset(ps, s), k) <==> Has(ps, k) && k != s % 32
    {
      SetMember(ps, s, k);
    }
  }

  /** The smallest score from k on that is not in the set, or 32. */
  function LeastFree(held: set<Score>, k: Score): (r: Score)
    requires k <= 32
    ensures k <= r <= 32
    ensures forall j: Score :: k <= j < r ==> j in held
    ensures r < 32 ==> r !in held
    decreases 32 - k
  {
    if k == 32 || k !in held then k else LeastFree(held, k + 1)
  }

  lemma LeastIsUnique(held: set<Score>, r: Score)
    requires r <= 32 && (forall j: Score :: j < r ==> j in held) && (r < 32 ==> r !in held)
    ensures LeastFree(held, 0) == r
  {
    if LeastFree(held, 0) < r {
      assert false;
    }
  }

  lemma FullBits(ps: PongSet, k: bv5)
    requires !ps == 0
    ensures Bit(ps, k)
  {
  }

  lemma LowestFree(ps: PongSet, k: bv5, j: bv5)
    requires Lowest(!ps, k)
    ensures !Bit(ps, k) && (j < k ==> Bit(ps, j))
  {
  }

  /** Scores below the one found are held, and the one found, if any, is free. */
  lemma FoundBounds(ps: PongSet, j: Score)
    requires j < 32
    ensures j < FindScore(ps) ==> Has(ps, j)
    ensures j == FindScore(ps) ==> !Has(ps, j)
    ensures FindScore(ps) <= 32
  {
    hide RightZeroes, Lowest, FirstBit, Bit, Slot, Val, NoneBelow;
    RightZeroesFinds(!ps);
    SlotVal(j);
    if !ps == 0 {
      FullBits(ps, Slot(j));
    } else {
      var k := FirstBit(!ps, 0);
      LowestFree(ps, k, Slot(j));
      ValOrder(Slot(j), k);
    }
  }

  /** ud_find_score() returns the smallest score not in the set, or 32 exactly when all
      32 are taken. */
  lemma FindScoreLeast(ps: PongSet)
    ensures FindScore(ps) == LeastFree(Members(ps), 0)
    ensures FindScore(ps) == 32 <==> forall k: Score :: k < 32 ==> k in Members(ps)
  {
    hide Has, FindScore;
    var r := FindScore(ps);
    FoundBounds(ps, 0);
    forall j: Score | 0 <= j < 32 ensures (j < r ==> j in Members(ps)) && (j == r ==> j !in Members(ps)) {
      FoundBounds(ps, j);
    }
    LeastIsUnique(Members(ps), r);
  }

  // --- runs of claims and releases ---

  datatype Action = Claim | Release(s: Score)

  function Act(ps: PongSet, a: Action): PongSet {
    match a
    case Claim => if FindScore(ps) < 32 then Set(ps, FindScore(ps)) else ps
    case Release(s) => Unset(ps, s)
  }

  /** The same on a finite set of scores. */
  function ActSet(held: set<Score>, a: Action): set<Score> {
    match a
    case Claim => var r := LeastFree(held, 0); if r < 32 then held + {r} else held
    case Release(s) => held - {s % 32}
  }

  function Run(ps: PongSet, acts: seq<Action>): PongSet
    decreases |acts|
  {
    if acts == [] then ps else Run(Act(ps, acts[0]), acts[1..])
  }

  function RunSet(held: set<Score>, acts: seq<Action>): set<Score>
    decreases |acts|
  {
    if acts == [] then held else RunSet(ActSet(held, acts[0]), acts[1..])
  }

  lemma ActRefines(ps: PongSet, a: Action)
    ensures Members(Act(ps, a)) == ActSet(Members(ps), a)
  {
    hide Set, Unset, Members, FindScore, LeastFree;
    match a {
      case Claim =>
        FindScoreLeast(ps);
        SetMembers(ps, FindScore(ps));
      case Release(s) =>
        SetMembers(ps, s);
    }
  }

  /** Every run of claims and releases on the word is the run on the set: a claim takes
      the least free score, never a held one, and nothing else changes. */
  lemma {:induction false} RunRefines(ps: PongSet, acts: seq<Action>)
    ensures Members(Run(ps, acts)) == RunSet(Members(ps), acts)
    decreases |acts|
  {
    if acts != [] {
      ActRefines(ps, acts[0]);
      RunRefines(Act(ps, acts[0]), acts[1..]);
    }
  }

  /** Setting what the finder returns for a full set leaves the set as it is. */
  lemma FullSetUnchanged(ps: PongSet)
    requires FindScore(ps) == 32
    ensures Set(ps, FindScore(ps)) == ps
  {
    RightZeroesFinds(!ps);
    assert ps == 0xffff_ffff;
  }
}
