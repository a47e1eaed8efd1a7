/** Corrected Block TEA over an array of 32-bit words: the in-place, register-carrying
    loops, the neighbour-only specification they refine, the equations each round solves,
    and inversion both ways. */
module Btea {
  /** uint32_t: addition, subtraction and multiplication are modulo 2^32. */
  type word = bv32
  type Key = k: seq<word> | |k| == 4 witness [0, 0, 0, 0]

  const WORDS := 0x1_0000_0000
  const DELTA: word := 0x9e37_79b9

  function Add(a: word, b: word): word {
    a + b
  }

  function Sub(a: word, b: word): word {
    a - b
  }

  function Xor(a: word, b: word): word {
    a ^ b
  }

  lemma SubOfSum(a: word, b: word)
    ensures Sub(a + b, b) == a
  {
  }

  lemma AddToDifference(a: word, b: word)
    ensures Add(a - b, b) == a
  {
  }

  lemma AddIs(a: word, b: word)
    ensures Add(a, b) == a + b
  {
  }

  lemma SubIs(a: word, b: word)
    ensures Sub(a, b) == a - b
  {
  }

  lemma SubAdd(a: word, b: word)
    ensures Sub(Add(a, b), b) == a && Add(Sub(a, b), b) == a
  {
    hide Add, Sub;
    AddIs(a, b);
    SubIs(a, b);
    SubOfSum(a, b);
    AddToDifference(a, b);
  }

  lemma AddSwaps(a: word, b: word)
    ensures Add(a, b) == Add(b, a)
  {
  }

  /** Exclusive or, by and, or and a difference; it is its own inverse. */
  lemma XorIs(a: word, b: word)
    ensures Xor(a, b) == (a | b) - (a & b)
  {
  }

  lemma XorBack(a: word, b: word)
    ensures Xor(a, Xor(a, b)) == b && Xor(Xor(b, a), a) == b
  {
  }

  /** The two key-selector bits of a round. */
  function Selector(sum: word): (e: word)
    ensures e < 4
  {
    (sum >> 2) & 3
  }

  /** (p & 3) ^ e, always one of the four key words. */
  function KeyIndex(p: nat, e: word): (k: nat)
    requires e < 4
    ensures k < 4
  {
    ((p % 4) as bv32 ^ e) as nat
  }

  function Scramble(z: word, y: word, sum: word, e: word, key: Key, p: nat): word
    requires e < 4
  {
    Xor(Add(Xor(z >> 5, y << 2), Xor(y >> 3, z << 4)), Add(Xor(sum, y), Xor(key[KeyIndex(p, e)], z)))
  }

  // --- what a scramble is ---

  lemma Shifts(z: word)
    ensures z >> 5 == z / 32 && z >> 3 == z / 8 && z << 2 == 4 * z && z << 4 == 16 * z
  {
  }

  function Flipped(b: nat, flip: bool): (r: nat)
    requires b < 2
    ensures r < 2
  {
    if flip then 1 - b else b
  }

  /** The key word for cell p: the two low bits of p, flipped by bits 2 and 3 of the sum. */
  function Pick(p: nat, sum: word): (k: nat)
    ensures k < 4
  {
    Flipped(p % 2, sum & 4 != 0) + 2 * Flipped(p / 2 % 2, sum & 8 != 0)
  }

  lemma PicksBits(p: nat, sum: word)
    ensures var k := KeyIndex(p, Selector(sum));
      && (k % 2 == 1 <==> (p % 2 == 1) != (sum & 4 != 0))
      && (k / 2 == 1 <==> (p / 2 % 2 == 1) != (sum & 8 != 0))
  {
  }

  lemma PicksKey(p: nat, sum: word)
    ensures KeyIndex(p, Selector(sum)) == Pick(p, sum)
  {
    hide KeyIndex, Selector;
    PicksBits(p, sum);
  }

  /** The scramble by quotients, products and sums modulo 2^32. */
  function Mx(z: word, y: word, sum: word, k: word): word {
    Xor(Add(Xor(z / 32, 4 * y), Xor(y / 8, 16 * z)), Add(Xor(sum, y), Xor(k, z)))
  }

  lemma ScrambleIs(z: word, y: word, sum: word, key: Key, p: nat)
    ensures Scramble(z, y, sum, Selector(sum), key, p) == Mx(z, y, sum, key[Pick(p, sum)])
  {
    hide Xor, Add, Selector, KeyIndex, Pick;
    PicksKey(p, sum);
    Shifts(z);
    Shifts(y);
  }

  /** Two keys scramble a cell alike exactly when they agree on the word picked for it. */
  lemma KeyMatters(z: word, y: word, sum: word, a: Key, b: Key, p: nat)
    ensures Scramble(z, y, sum, Selector(sum), a, p) == Scramble(z, y, sum, Selector(sum), b, p)
      <==> a[Pick(p, sum)] == b[Pick(p, sum)]
  {
    hide Xor, Add, Sub, Selector, KeyIndex, Pick;
    PicksKey(p, sum);
    var k := Pick(p, sum);
    KeyBack(Add(Xor(z >> 5, y << 2), Xor(y >> 3, z << 4)), Xor(sum, y), a[k], z);
    KeyBack(Add(Xor(z >> 5, y << 2), Xor(y >> 3, z << 4)), Xor(sum, y), b[k], z);
  }

  /** The key word can be read back from a scramble. */
  lemma KeyBack(l: word, s: word, k: word, z: word)
    ensures Xor(Sub(Xor(l, Xor(l, Add(s, Xor(k, z)))), s), z) == k
  {
    hide Xor, Add, Sub;
    XorBack(l, Add(s, Xor(k, z)));
    AddSwaps(s, Xor(k, z));
    SubAdd(Xor(k, z), s);
    XorBack(z, k);
  }

  // --- specification: one cell after the other, from its circular neighbours ---

  function Prev(n: nat, p: nat): (q: nat)
    requires p < n
    ensures q < n && (n >= 2 ==> q != p)
  {
    if p == 0 then n - 1 else p - 1
  }

  function Succ(n: nat, p: nat): (q: nat)
    requires p < n
    ensures q < n && (n >= 2 ==> q != p)
  {
    if p == n - 1 then 0 else p + 1
  }

  function Mix(d: seq<word>, sum: word, key: Key, p: nat): word
    requires p < |d|
  {
    Scramble(d[Prev(|d|, p)], d[Succ(|d|, p)], sum, Selector(sum), key, p)
  }

  function Bump(d: seq<word>, sum: word, key: Key, p: nat): (r: seq<word>)
    requires p < |d|
    ensures |r| == |d|
  {
    d[p := Add(d[p], Mix(d, sum, key, p))]
  }

  function Drop(d: seq<word>, sum: word, key: Key, p: nat): (r: seq<word>)
    requires p < |d|
    ensures |r| == |d|
  {
    d[p := Sub(d[p], Mix(d, sum, key, p))]
  }

  /** Cells 0 to p - 1 bumped in turn. */
  function EncUpTo(d: seq<word>, sum: word, key: Key, p: nat): (r: seq<word>)
    requires p <= |d|
    ensures |r| == |d|
  {
    if p == 0 then d else Bump(EncUpTo(d, sum, key, p - 1), sum, key, p - 1)
  }

  /** Cells |d| - 1 down to p dropped in turn. */
  function DecFrom(d: seq<word>, sum: word, key: Key, p: nat): (r: seq<word>)
    requires p <= |d|
    ensures |r| == |d|
    decreases |d| - p
  {
    if p == |d| then d else Drop(DecFrom(d, sum, key, p + 1), sum, key, p)
  }

  function Rounds(n: nat): (r: nat)
    requires n > 0
    ensures 6 <= r <= 58
  {
    6 + 52 / n
  }

  /** A count as a 32-bit word. */
  function Low(i: nat): word {
    if i == 0 then 0 else Low(i - 1) + 1
  }

  /** The sum of round i, from 1. */
  function Sum(i: nat): word {
    Deltas(Low(i))
  }

  function Deltas(c: word): word {
    c * 0x9e37_79b9
  }

  function EncRounds(d: seq<word>, key: Key, r: nat): (x: seq<word>)
    ensures |x| == |d|
  {
    if r == 0 then d
    else
      var x := EncRounds(d, key, r - 1);
      EncUpTo(x, Sum(r), key, |x|)
  }

  function DecRounds(d: seq<word>, key: Key, r: nat): (x: seq<word>)
    ensures |x| == |d|
    decreases r
  {
    if r == 0 then d else DecRounds(DecFrom(d, Sum(r), key, 0), key, r - 1)
  }

  function Enc(d: seq<word>, key: Key): (x: seq<word>)
    requires d != []
    ensures |x| == |d|
  {
    EncRounds(d, key, Rounds(|d|))
  }

  function Dec(d: seq<word>, key: Key): (x: seq<word>)
    requires d != []
    ensures |x| == |d|
  {
    DecRounds(d, key, Rounds(|d|))
  }

  // --- the equations of a round ---

  /** Cell p of x is that of d plus the scramble of its new left neighbour, its old right
      neighbour and the key word picked; the last cell's right neighbour is the new first. */
  predicate CellSolves(d: seq<word>, x: seq<word>, sum: word, key: Key, p: nat)
    requires p < |d| == |x|
  {
    var n := |d|;
    var z := if p == 0 then d[n - 1] else x[p - 1];
    var y := if p < n - 1 then d[p + 1] else if n == 1 then d[0] else x[0];
    x[p] == Add(d[p], Mx(z, y, sum, key[Pick(p, sum)]))
  }

  ghost predicate Solves(d: seq<word>, x: seq<word>, sum: word, key: Key) {
    |x| == |d| && forall p :: 0 <= p < |d| ==> CellSolves(d, x, sum, key, p)
  }

  /** A cell is final once bumped, and untouched before. */
  lemma {:induction false} Frozen(d: seq<word>, sum: word, key: Key, p: nat, q: nat)
    requires p < |d| && q <= |d|
    ensures EncUpTo(d, sum, key, q)[p] == if p < q then EncUpTo(d, sum, key, p + 1)[p] else d[p]
    decreases q
  {
    hide Mix, Add;
    if q > 0 && p + 1 != q {
      Frozen(d, sum, key, p, q - 1);
    } else if q > 0 {
      assert p < q;
    }
  }

  /** What cell p sees when a pass reaches it. */
  lemma PassSees(d: seq<word>, sum: word, key: Key, p: nat)
    requires p < |d|
    ensures var n, at, x := |d|, EncUpTo(d, sum, key, p), EncUpTo(d, sum, key, |d|);
      && at[p] == d[p] && x[p] == EncUpTo(d, sum, key, p + 1)[p]
      && at[Prev(n, p)] == (if p == 0 then d[n - 1] else x[p - 1])
      && at[Succ(n, p)] == if p < n - 1 then d[p + 1] else if n == 1 then d[0] else x[0]
  {
    hide EncUpTo;
    var n := |d|;
    var z, y := Prev(n, p), Succ(n, p);
    Frozen(d, sum, key, p, n);
    Frozen(d, sum, key, p, p);
    Frozen(d, sum, key, z, p);
    Frozen(d, sum, key, z, n);
    Frozen(d, sum, key, y, p);
    Frozen(d, sum, key, y, n);
  }

  lemma PassCell(d: seq<word>, sum: word, key: Key, p: nat)
    requires p < |d|
    ensures CellSolves(d, EncUpTo(d, sum, key, |d|), sum, key, p)
  {
    hide Scramble, Add, Mx, Pick, Selector, EncUpTo, Prev, Succ;
    var n, at := |d|, EncUpTo(d, sum, key, p);
    PassSees(d, sum, key, p);
    OneBump(d, sum, key, p);
    ScrambleIs(at[Prev(n, p)], at[Succ(n, p)], sum, key, p);
  }

  lemma OneBump(d: seq<word>, sum: word, key: Key, p: nat)
    requires p < |d|
    ensures EncUpTo(d, sum, key, p + 1)[p]
         == Add(EncUpTo(d, sum, key, p)[p], Mix(EncUpTo(d, sum, key, p), sum, key, p))
  {
    hide Mix, Add;
  }

  lemma PassSolves(d: seq<word>, sum: word, key: Key)
    ensures Solves(d, EncUpTo(d, sum, key, |d|), sum, key)
  {
    forall p | 0 <= p < |d| ensures CellSolves(d, EncUpTo(d, sum, key, |d|), sum, key, p) {
      PassCell(d, sum, key, p);
    }
  }

  lemma RoundsIs(n: nat, q: nat)
    requires n > 0 && q * n <= 52 < (q + 1) * n
    ensures Rounds(n) == 6 + q
  {
    Quotient(52, n, q);
  }

  lemma Quotient(a: nat, n: nat, q: nat)
    requires n > 0 && q * n <= a < (q + 1) * n
    ensures a / n == q
  {
    var r := a / n;
    assert a == r * n + a % n;
    LessTimes(r, q, n);
    LessTimes(q, r, n);
  }

  lemma LessTimes(r: nat, q: nat, n: nat)
    ensures r < q ==> (r + 1) * n <= q * n
  {
    if r < q {
      assert q * n == (r + 1) * n + (q - r - 1) * n;
    }
  }

  /** t and s are the arrays and sums after each of r rounds from d, each round solving its
      equations under the next multiple of the golden-ratio constant. */
  ghost predicate Trace(t: seq<seq<word>>, s: seq<word>, d: seq<word>, key: Key, r: nat) {
    && |t| == |s| == r + 1 && t[0] == d && s[0] == 0
    && forall i :: 0 <= i < r ==> s[i + 1] == Add(s[i], 0x9e37_79b9) && Solves(t[i], t[i + 1], s[i + 1], key)
  }

  ghost predicate Traced(t: seq<seq<word>>, s: seq<word>, d: seq<word>, key: Key, r: nat, x: seq<word>) {
    Trace(t, s, d, key, r) && t[r] == x
  }

  /** Encryption is r rounds, for the r with (r - 6) * n <= 52 < (r - 5) * n. */
  lemma EncTrace(d: seq<word>, key: Key, r: nat)
    requires r >= 6 && |d| > 0 && (r - 6) * |d| <= 52 < (r - 5) * |d|
    ensures exists t, s :: Traced(t, s, d, key, r, Enc(d, key))
  {
    var t := seq(r + 1, i requires 0 <= i <= r => EncRounds(d, key, i));
    var s := seq(r + 1, i requires 0 <= i <= r => Sum(i));
    RoundsIs(|d|, r - 6);
    SumStart();
    EncRoundsStep(d, key, 0);
    hide Sum, EncRounds, EncUpTo, Solves, Add;
    forall i | 0 <= i < r ensures s[i + 1] == Add(s[i], 0x9e37_79b9) && Solves(t[i], t[i + 1], s[i + 1], key) {
      SumSteps(i);
      EncRoundsStep(d, key, i);
      PassSolves(t[i], s[i + 1], key);
    }
    assert Traced(t, s, d, key, r, Enc(d, key));
  }

  /** Cell p of x is that of d less the scramble of its old left neighbour, its new right
      neighbour and the key word picked; the first cell's left neighbour is the new last. */
  predicate CellUnsolves(d: seq<word>, x: seq<word>, sum: word, key: Key, p: nat)
    requires p < |d| == |x|
  {
    var n := |d|;
    var z := if p > 0 then d[p - 1] else if n == 1 then d[0] else x[n - 1];
    var y := if p == n - 1 then d[0] else x[p + 1];
    x[p] == Sub(d[p], Mx(z, y, sum, key[Pick(p, sum)]))
  }

  ghost predicate Unsolves(d: seq<word>, x: seq<word>, sum: word, key: Key) {
    |x| == |d| && forall p :: 0 <= p < |d| ==> CellUnsolves(d, x, sum, key, p)
  }

  lemma {:induction false} FrozenBack(d: seq<word>, sum: word, key: Key, p: nat, q: nat)
    requires p < |d| && q <= |d|
    ensures DecFrom(d, sum, key, q)[p] == if p >= q then DecFrom(d, sum, key, p)[p] else d[p]
    decreases |d| - q
  {
    hide Mix, Sub;
    if q < |d| && p != q {
      FrozenBack(d, sum, key, p, q + 1);
    } else if q == |d| {
      assert p < q;
    }
  }

  lemma OneDrop(d: seq<word>, sum: word, key: Key, p: nat)
    requires p < |d|
    ensures DecFrom(d, sum, key, p)[p]
         == Sub(DecFrom(d, sum, key, p + 1)[p], Mix(DecFrom(d, sum, key, p + 1), sum, key, p))
  {
    hide Mix, Sub;
  }

  /** What cell p sees when a pass backwards reaches it. */
  lemma BackSees(d: seq<word>, sum: word, key: Key, p: nat)
    requires p < |d|
    ensures var n, at, x := |d|, DecFrom(d, sum, key, p + 1), DecFrom(d, sum, key, 0);
      && at[p] == d[p] && x[p] == DecFrom(d, sum, key, p)[p]
      && at[Prev(n, p)] == (if p > 0 then d[p - 1] else if n == 1 then d[0] else x[n - 1])
      && at[Succ(n, p)] == if p == n - 1 then d[0] else x[p + 1]
  {
    hide DecFrom;
    var z, y := Prev(|d|, p), Succ(|d|, p);
    FrozenBack(d, sum, key, p, 0);
    FrozenBack(d, sum, key, p, p + 1);
    FrozenBack(d, sum, key, z, p + 1);
    FrozenBack(d, sum, key, z, 0);
    FrozenBack(d, sum, key, y, p + 1);
    FrozenBack(d, sum, key, y, 0);
  }

  lemma BackCell(d: seq<word>, sum: word, key: Key, p: nat)
    requires p < |d|
    ensures CellUnsolves(d, DecFrom(d, sum, key, 0), sum, key, p)
  {
    hide Scramble, Sub, Mx, Pick, Selector, DecFrom, Prev, Succ;
    var n, at := |d|, DecFrom(d, sum, key, p + 1);
    BackSees(d, sum, key, p);
    OneDrop(d, sum, key, p);
    ScrambleIs(at[Prev(n, p)], at[Succ(n, p)], sum, key, p);
  }

  lemma BackSolves(d: seq<word>, sum: word, key: Key)
    ensures Unsolves(d, DecFrom(d, sum, key, 0), sum, key)
  {
    forall p | 0 <= p < |d| ensures CellUnsolves(d, DecFrom(d, sum, key, 0), sum, key, p) {
      BackCell(d, sum, key, p);
    }
  }

  /** t holds the arrays before each of r rounds back from d, s the sums still to come. */
  ghost predicate TraceBack(t: seq<seq<word>>, s: seq<word>, d: seq<word>, key: Key, r: nat, x: seq<word>) {
    && |t| == |s| == r + 1 && t[r] == d && s[0] == 0 && t[0] == x
    && forall i :: 0 <= i < r ==> s[i + 1] == Add(s[i], 0x9e37_79b9) && Unsolves(t[i + 1], t[i], s[i + 1], key)
  }

  /** Decryption undoes as many rounds as encryption makes, from the last sum to the first;
      this says what it does for one word too. */
  lemma DecTrace(d: seq<word>, key: Key, r: nat)
    requires r >= 6 && |d| > 0 && (r - 6) * |d| <= 52 < (r - 5) * |d|
    ensures exists t, s :: TraceBack(t, s, d, key, r, Dec(d, key))
  {
    RoundsIs(|d|, r - 6);
    assert Dec(d, key) == DecRounds(d, key, r);
    hide Dec, DecRounds, TraceBack;
    var t, s := BackFrom(d, key, r);
  }

  lemma {:induction false} BackFrom(d: seq<word>, key: Key, r: nat) returns (t: seq<seq<word>>, s: seq<word>)
    ensures TraceBack(t, s, d, key, r, DecRounds(d, key, r))
    ensures s[r] == Sum(r)
    decreases r
  {
    SumStart();
    hide Sum, DecFrom, Unsolves, Add;
    if r == 0 {
      return [d], [0];
    }
    var x := DecFrom(d, Sum(r), key, 0);
    var t0, s0 := BackFrom(x, key, r - 1);
    BackSolves(d, Sum(r), key);
    SumSteps(r - 1);
    t, s := t0 + [d], s0 + [Sum(r)];
  }

  // --- the key in a pass ---

  /** Two keys give the same first p cells of a pass exactly when they agree on the words
      picked for these cells. */
  lemma {:induction false} PassKey(d: seq<word>, sum: word, a: Key, b: Key, p: nat)
    requires p <= |d|
    ensures EncUpTo(d, sum, a, p) == EncUpTo(d, sum, b, p)
      <==> forall i: nat :: i < p ==> a[Pick(i, sum)] == b[Pick(i, sum)]
  {
    hide Pick, Bump;
    if p > 0 {
      PassKey(d, sum, a, b, p - 1);
      Frozen(d, sum, a, p - 1, p - 1);
      Frozen(d, sum, b, p - 1, p - 1);
      BumpsApart(EncUpTo(d, sum, a, p - 1), EncUpTo(d, sum, b, p - 1), sum, a, b, p - 1);
    }
  }

  lemma BumpsApart(x: seq<word>, y: seq<word>, sum: word, a: Key, b: Key, p: nat)
    requires p < |x| == |y| && x[p] == y[p]
    ensures Bump(x, sum, a, p) == Bump(y, sum, b, p) <==> x == y && a[Pick(p, sum)] == b[Pick(p, sum)]
  {
    hide Scramble, Add, Pick, Selector;
    var n := |x|;
    if x == y {
      KeyMatters(x[Prev(n, p)], x[Succ(n, p)], sum, a, b, p);
      AddApart(x[p], Mix(x, sum, a, p), Mix(x, sum, b, p));
      assert Bump(x, sum, a, p)[p] == Add(x[p], Mix(x, sum, a, p));
      assert Bump(x, sum, b, p)[p] == Add(x[p], Mix(x, sum, b, p));
    } else {
      var i :| 0 <= i < n && x[i] != y[i];
      assert Bump(x, sum, a, p)[i] != Bump(y, sum, b, p)[i];
    }
  }

  lemma AddApart(v: word, a: word, b: word)
    ensures Add(v, a) == Add(v, b) <==> a == b
  {
    hide Add, Sub;
    AddSwaps(v, a);
    AddSwaps(v, b);
    SubAdd(a, v);
    SubAdd(b, v);
  }

  /** From four cells on, every round depends on the whole key. */
  lemma WholeKey(d: seq<word>, sum: word, a: Key, b: Key)
    requires |d| >= 4
    ensures EncUpTo(d, sum, a, |d|) == EncUpTo(d, sum, b, |d|) <==> a == b
  {
    hide EncUpTo, Pick;
    PassKey(d, sum, a, b, |d|);
    if EncUpTo(d, sum, a, |d|) == EncUpTo(d, sum, b, |d|) {
      forall k | 0 <= k < 4 ensures a[k] == b[k] {
        var p := CellOf(k, sum);
      }
    }
  }

  lemma CellOf(k: nat, sum: word) returns (p: nat)
    requires k < 4
    ensures p < 4 && Pick(p, sum) == k
  {
    var f, g := sum & 4 != 0, sum & 8 != 0;
    p := Flipped(k % 2, f) + 2 * Flipped(k / 2, g);
    FlippedBack(k, f, g);
  }

  lemma FlippedBack(k: nat, f: bool, g: bool)
    requires k < 4
    ensures var p := Flipped(k % 2, f) + 2 * Flipped(k / 2, g);
      p < 4 && Flipped(p % 2, f) + 2 * Flipped(p / 2 % 2, g) == k
  {
  }

  // --- inversion ---

  /** A cell is not its own neighbour, so its mix is the same before and after. */
  lemma BumpDrop(d: seq<word>, sum: word, key: Key, p: nat)
    requires p < |d| && |d| >= 2
    ensures Drop(Bump(d, sum, key, p), sum, key, p) == d
    ensures Bump(Drop(d, sum, key, p), sum, key, p) == d
  {
    hide Scramble, Add, Sub;
    SubAdd(d[p], Mix(d, sum, key, p));
  }

  lemma {:induction false} DecUndoesEnc(d: seq<word>, sum: word, key: Key, p: nat)
    requires p <= |d| && |d| >= 2
    ensures DecFrom(EncUpTo(d, sum, key, |d|), sum, key, p) == EncUpTo(d, sum, key, p)
    decreases |d| - p
  {
    hide Bump, Drop;
    if p < |d| {
      DecUndoesEnc(d, sum, key, p + 1);
      BumpDrop(EncUpTo(d, sum, key, p), sum, key, p);
    }
  }

  lemma {:induction false} EncUndoesDec(d: seq<word>, sum: word, key: Key, p: nat)
    requires p <= |d| && |d| >= 2
    ensures EncUpTo(DecFrom(d, sum, key, 0), sum, key, p) == DecFrom(d, sum, key, p)
  {
    hide Bump, Drop;
    if p > 0 {
      EncUndoesDec(d, sum, key, p - 1);
      BumpDrop(DecFrom(d, sum, key, p), sum, key, p - 1);
    }
  }

  lemma {:induction false} DecRoundsEncRounds(d: seq<word>, key: Key, r: nat)
    requires |d| >= 2
    ensures DecRounds(EncRounds(d, key, r), key, r) == d
  {
    hide Sum, EncUpTo, DecFrom;
    if r > 0 {
      DecUndoesEnc(EncRounds(d, key, r - 1), Sum(r), key, 0);
      NoCells(EncRounds(d, key, r - 1), Sum(r), key);
      DecRoundsEncRounds(d, key, r - 1);
    }
  }

  lemma {:induction false} EncRoundsDecRounds(d: seq<word>, key: Key, r: nat)
    requires |d| >= 2
    ensures EncRounds(DecRounds(d, key, r), key, r) == d
    decreases r
  {
    hide Sum, EncUpTo, DecFrom;
    if r > 0 {
      var x := DecFrom(d, Sum(r), key, 0);
      EncRoundsDecRounds(x, key, r - 1);
      EncUndoesDec(d, Sum(r), key, |d|);
      NoCells(d, Sum(r), key);
    }
  }

  lemma NoCells(d: seq<word>, sum: word, key: Key)
    ensures EncUpTo(d, sum, key, 0) == d && DecFrom(d, sum, key, |d|) == d
  {
  }

  /** For two or more words decryption undoes encryption and encryption undoes decryption. */
  lemma Inverse(d: seq<word>, key: Key)
    requires |d| >= 2
    ensures Dec(Enc(d, key), key) == d && Enc(Dec(d, key), key) == d
  {
    DecRoundsEncRounds(d, key, Rounds(|d|));
    EncRoundsDecRounds(d, key, Rounds(|d|));
  }

  /** For each key and length of at least two, encryption permutes the arrays. */
  lemma Permutes(a: seq<word>, b: seq<word>, key: Key)
    requires |a| == |b| >= 2
    ensures Enc(a, key) == Enc(b, key) ==> a == b
    ensures exists c :: |c| == |a| && Enc(c, key) == a
  {
    Inverse(a, key);
    Inverse(b, key);
    assert |Dec(a, key)| == |a|;
  }

  // --- one word alone ---

  const ZERO: Key := [0, 0, 0, 0]

  /** A lone cell is its own neighbour, and the first round already maps two words to one. */
  lemma Collision()
    ensures EncUpTo([20], Sum(1), ZERO, 1) == EncUpTo([25], Sum(1), ZERO, 1)
  {
    FirstScrambles(Selector(DELTA));
    Single(20, DELTA, ZERO);
    Single(25, DELTA, ZERO);
    FirstSum();
    hide Scramble, Selector, EncUpTo, Sum;
  }

  lemma FirstSum()
    ensures Sum(1) == DELTA
  {
    assert Low(1) == Low(0) + 1 == 1;
  }

  lemma FirstScrambles(e: word)
    requires e < 4
    ensures Scramble(20, 20, DELTA, e, ZERO, 0) == 0x9e37_7853
    ensures Scramble(25, 25, DELTA, e, ZERO, 0) == 0x9e37_784e
  {
    hide KeyIndex;
    var k := KeyIndex(0, e);
    assert ZERO[k] == 0;
  }

  lemma Single(x: word, sum: word, key: Key)
    ensures EncUpTo([x], sum, key, 1) == [Add(x, Scramble(x, x, sum, Selector(sum), key, 0))]
  {
    assert EncUpTo([x], sum, key, 0) == [x];
  }

  lemma {:induction false} SameAfterOneRound(a: seq<word>, b: seq<word>, key: Key, r: nat)
    requires |a| == |b| && r >= 1
    requires EncUpTo(a, Sum(1), key, |a|) == EncUpTo(b, Sum(1), key, |b|)
    ensures EncRounds(a, key, r) == EncRounds(b, key, r)
  {
    EncRoundsStep(a, key, r - 1);
    EncRoundsStep(b, key, r - 1);
    if r > 1 {
      SameAfterOneRound(a, b, key, r - 1);
    }
  }

  ghost predicate Invertible(n: nat)
    requires n > 0
  {
    forall d: seq<word>, key: Key :: |d| == n ==> Dec(Enc(d, key), key) == d
  }

  /** Decryption undoes encryption for every key and array of a length exactly when the
      length is at least two. */
  lemma InvertibleIff(n: nat)
    requires n > 0
    ensures Invertible(n) <==> n >= 2
  {
    hide Enc, Dec;
    if n >= 2 {
      forall d: seq<word>, key: Key | |d| == n ensures Dec(Enc(d, key), key) == d {
        Inverse(d, key);
      }
    } else {
      LoneWords([20], [25]);
    }
  }

  lemma LoneWords(a: seq<word>, b: seq<word>)
    requires a == [20] && b == [25]
    ensures !Invertible(1)
  {
    EncSame(a, b);
    assert a[0] != b[0];
    hide Enc, Dec;
    assert Dec(Enc(a, ZERO), ZERO) == Dec(Enc(b, ZERO), ZERO);
  }

  lemma EncSame(a: seq<word>, b: seq<word>)
    requires a == [20] && b == [25]
    ensures Enc(a, ZERO) == Enc(b, ZERO)
  {
    hide EncUpTo, EncRounds, Sum;
    Collision();
    SameAfterOneRound(a, b, ZERO, Rounds(1));
  }

  // --- the round count of decryption ---

  /** DELTA has an inverse modulo 2^32. */
  function Undeltas(x: word): word {
    x * 0x144c_bc89
  }

  lemma DeltasIs(c: word)
    ensures Deltas(c) == c * 0x9e37_79b9
  {
  }

  lemma DeltasBack(c: word)
    ensures Undeltas(c * 0x9e37_79b9) == c && Undeltas(0) == 0 && Deltas(0) == 0
  {
  }

  lemma NoDeltas(c: word)
    ensures Deltas(c) == 0 <==> c == 0
  {
    hide Deltas, Undeltas;
    DeltasIs(c);
    DeltasBack(c);
  }

  function Half(b: word): word {
    b >> 1
  }

  predicate Odd(b: word) {
    b & 1 == 1
  }

  lemma HalfNext(b: word)
    requires b != 0xffff_ffff
    ensures Odd(b) ==> Half(b) != 0xffff_ffff && Half(b + 1) == Half(b) + 1 && !Odd(b + 1)
    ensures !Odd(b) ==> Half(b + 1) == Half(b) && Odd(b + 1)
  {
  }

  function Pow2(n: nat): (m: nat)
    ensures m > 0
  {
    if n == 0 then 1 else 2 * Pow2(n - 1)
  }

  /** The number the low n bits of a word stand for. */
  function Value(b: word, n: nat): (v: nat)
    ensures v < Pow2(n)
    decreases n
  {
    if n == 0 then 0 else 2 * Value(Half(b), n - 1) + if Odd(b) then 1 else 0
  }

  lemma {:induction false} Successor(b: word, n: nat)
    requires b != 0xffff_ffff
    ensures Value(b + 1, n) == if Value(b, n) + 1 == Pow2(n) then 0 else Value(b, n) + 1
    decreases n
  {
    hide Half, Odd;
    if n > 0 {
      HalfNext(b);
      if Odd(b) {
        Successor(Half(b), n - 1);
      }
    }
  }

  predicate AllOnes(b: word, n: nat)
    decreases n
  {
    n == 0 || (Odd(b) && AllOnes(Half(b), n - 1))
  }

  lemma {:induction false} OnesValue(b: word, n: nat)
    requires AllOnes(b, n)
    ensures Value(b, n) == Pow2(n) - 1
    decreases n
  {
    hide Half, Odd;
    if n > 0 {
      OnesValue(Half(b), n - 1);
    }
  }

  lemma MaxValue()
    ensures Value(0xffff_ffff, 32) == WORDS - 1 && Pow2(32) == WORDS
  {
    assert AllOnes(0xf, 4) && Pow2(4) == 0x10;
    assert AllOnes(0xff, 8) && Pow2(8) == 0x100;
    assert AllOnes(0xfff, 12) && Pow2(12) == 0x1000;
    assert AllOnes(0xffff, 16) && Pow2(16) == 0x1_0000;
    assert AllOnes(0xf_ffff, 20) && Pow2(20) == 0x10_0000;
    assert AllOnes(0xff_ffff, 24) && Pow2(24) == 0x100_0000;
    assert AllOnes(0xfff_ffff, 28) && Pow2(28) == 0x1000_0000;
    assert AllOnes(0xffff_ffff, 32) && Pow2(32) == 0x1_0000_0000;
    OnesValue(0xffff_ffff, 32);
  }

  lemma {:induction false} LowValue(i: nat)
    ensures Value(Low(i), 32) == i % WORDS
  {
    MaxValue();
    hide Value, Pow2;
    if i == 0 {
      NoValue(32);
    } else {
      var b := Low(i - 1);
      LowValue(i - 1);
      if b == 0xffff_ffff {
        NoValue(32);
        assert b + 1 == 0;
      } else {
        Successor(b, 32);
      }
      NextMod(i - 1);
    }
  }

  lemma NextMod(i: nat)
    ensures (i + 1) % WORDS == if i % WORDS + 1 == WORDS then 0 else i % WORDS + 1
  {
  }

  lemma {:induction false} NoValue(n: nat)
    ensures Value(0, n) == 0
  {
    if n > 0 {
      assert Half(0) == 0 && !Odd(0);
      NoValue(n - 1);
    }
  }

  /** A multiple of DELTA vanishes modulo 2^32 only at multiples of 2^32. */
  lemma DeltaIsUnit(k: nat)
    requires Sum(k) == 0
    ensures k % WORDS == 0
  {
    hide Low, Value, Deltas;
    NoDeltas(Low(k));
    LowValue(k);
    NoValue(32);
  }

  /** Counting down from r rounds, the sum is 0 after exactly r steps and not before: the
      decryption loop, whose only exit is a zero sum, runs the rounds of encryption, and
      its step j sees the sum and selector of round r - j. */
  lemma ExitsAfterRounds(r: nat, j: nat)
    requires j <= r < WORDS
    ensures Sum(r - j) == 0 <==> j == r
    ensures j < r ==> Sub(Sum(r - j), DELTA) == Sum(r - j - 1)
  {
    SumStart();
    hide Sum;
    if Sum(r - j) == 0 {
      DeltaIsUnit(r - j);
    }
    if j < r {
      SumSteps(r - j - 1);
    }
  }

  lemma SumSteps(i: nat)
    ensures Sum(i + 1) == Add(Sum(i), DELTA)
    ensures Sub(Sum(i + 1), DELTA) == Sum(i)
  {
    hide Add, Sub, Deltas;
    DeltasMore(Low(i));
    SubAdd(Sum(i), DELTA);
  }

  lemma DeltasNext(c: word)
    ensures Deltas(c + 1) == Add(c * 0x9e37_79b9, 0x9e37_79b9)
  {
  }

  lemma DeltasMore(c: word)
    ensures Deltas(c + 1) == Add(Deltas(c), DELTA)
  {
    hide Add, Deltas;
    DeltasIs(c);
    DeltasNext(c);
  }

  lemma EncRoundsStep(d: seq<word>, key: Key, r: nat)
    ensures EncRounds(d, key, 0) == d
    ensures EncRounds(d, key, r + 1) == EncUpTo(EncRounds(d, key, r), Sum(r + 1), key, |d|)
  {
  }

  lemma SumStart()
    ensures Sum(0) == 0
  {
  }

  // --- the loops ---

  /** One cell of a pass, from the registers. */
  lemma EncCell(d: seq<word>, x: seq<word>, sum: word, key: Key, p: nat, z: word, y: word)
    requires p < |d| && x == EncUpTo(d, sum, key, p)
    requires z == x[Prev(|d|, p)] && y == x[Succ(|d|, p)]
    ensures EncUpTo(d, sum, key, p + 1) == x[p := Add(x[p], Scramble(z, y, sum, Selector(sum), key, p))]
  {
  }

  lemma DecCell(d: seq<word>, x: seq<word>, sum: word, key: Key, p: nat, z: word, y: word)
    requires p < |d| && x == DecFrom(d, sum, key, p + 1)
    requires z == x[Prev(|d|, p)] && y == x[Succ(|d|, p)]
    ensures DecFrom(d, sum, key, p) == x[p := Sub(x[p], Scramble(z, y, sum, Selector(sum), key, p))]
  {
  }

  /** The inner encryption loop: register z carries the cell before the one at work. */
  method EncPass(data: array<word>, sum: word, e: word, key: Key, z0: word) returns (z: word)
    requires data.Length > 0 && e == Selector(sum) && z0 == data[data.Length - 1]
    modifies data
    ensures data[..] == EncUpTo(old(data[..]), sum, key, data.Length) && z == data[data.Length - 1]
  {
    hide Selector, Add, Scramble, EncUpTo;
    var n := data.Length;
    var y: word;
    ghost var d := data[..];
    z := z0;
    NoCells(d, sum, key);
    for p := 0 to n - 1
      invariant z == data[Prev(n, p)]
      invariant data[..] == EncUpTo(d, sum, key, p)
    {
      y := data[p + 1];
      EncCell(d, data[..], sum, key, p, z, y);
      data[p] := Add(data[p], Scramble(z, y, sum, e, key, p));
      z := data[p];
    }
    y := data[0];
    EncCell(d, data[..], sum, key, n - 1, z, y);
    data[n - 1] := Add(data[n - 1], Scramble(z, y, sum, e, key, n - 1));
    z := data[n - 1];
  }

  method Encrypt(data: array<word>, key: Key)
    requires data.Length > 0
    modifies data
    ensures data[..] == Enc(old(data[..]), key)
  {
    hide Rounds, Sum, Selector, Add, EncUpTo, EncRounds;
    var n := data.Length;
    var rounds: nat := Rounds(n);
    var sum, z: word := 0, data[n - 1];
    ghost var d0, r: nat := data[..], 0;
    SumStart();
    EncRoundsStep(d0, key, 0);
    while rounds > 0
      invariant rounds + r == Rounds(n)
      invariant sum == Sum(r) && z == data[n - 1]
      invariant data[..] == EncRounds(d0, key, r)
    {
      SumSteps(r);
      EncRoundsStep(d0, key, r);
      sum := Add(sum, DELTA);
      z := EncPass(data, sum, Selector(sum), key, z);
      rounds := rounds - 1;
      r := r + 1;
    }
    assert |d0| == n && r == Rounds(n);
  }

  /** The inner decryption loop: register y carries the cell after the one at work. */
  method DecPass(data: array<word>, sum: word, e: word, key: Key, y0: word) returns (y: word)
    requires data.Length > 0 && e == Selector(sum) && y0 == data[0]
    modifies data
    ensures data[..] == DecFrom(old(data[..]), sum, key, 0) && y == data[0]
  {
    hide Selector, Sub, Scramble, DecFrom;
    var n := data.Length;
    var z: word;
    ghost var d := data[..];
    y := y0;
    NoCells(d, sum, key);
    var p := n - 1;
    while p > 0
      invariant 0 <= p < n && y == data[Succ(n, p)]
      invariant data[..] == DecFrom(d, sum, key, p + 1)
    {
      z := data[p - 1];
      DecCell(d, data[..], sum, key, p, z, y);
      data[p] := Sub(data[p], Scramble(z, y, sum, e, key, p));
      y := data[p];
      p := p - 1;
    }
    z := data[n - 1];
    DecCell(d, data[..], sum, key, 0, z, y);
    data[0] := Sub(data[0], Scramble(z, y, sum, e, key, 0));
    y := data[0];
  }

  /** The loop leaves when the sum becomes 0, and at no other time. */
  method Decrypt(data: array<word>, key: Key)
    requires data.Length > 0
    modifies data
    ensures data[..] == Dec(old(data[..]), key)
  {
    hide Rounds, Sum, Selector, Sub, DecFrom;
    var n := data.Length;
    var sum, y: word := Sum(Rounds(n)), data[0];
    ghost var d0, r := data[..], Rounds(n);
    var more := true;
    while more
      invariant 0 <= r <= Rounds(n) && sum == Sum(r) && y == data[0]
      invariant more <==> r > 0
      invariant DecRounds(data[..], key, r) == Dec(d0, key)
      decreases r
    {
      y := DecPass(data, sum, Selector(sum), key, y);
      ExitsAfterRounds(r, 0);
      ExitsAfterRounds(r, 1);
      sum := Sub(sum, DELTA);
      more := sum != 0;
      r := r - 1;
    }
  }

  /** Decrypting after encrypting restores the array in place. */
  method RoundTrip(data: array<word>, key: Key)
    requires data.Length >= 2
    modifies data
    ensures data[..] == old(data[..])
  {
    Inverse(data[..], key);
    Encrypt(data, key);
    Decrypt(data, key);
  }
}
