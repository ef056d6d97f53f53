/** xorshift128+: the generator of the benchmark data, as a map on its 128-bit state. */
module Xorshift {
  import opened FiniteSets

  datatype Rng = Rng(s0: bv64, s1: bv64)

  const SEED: Rng := Rng(11, 1181783497276652981)
  const ZERO: Rng := Rng(0, 0)

  /** The word that replaces s[1]. */
  function Forth(s0: bv64, y: bv64): bv64 {
    var x := s0 ^ (s0 << 23);
    x ^ y ^ (x >> 17) ^ (y >> 26)
  }

  function Next(r: Rng): Rng {
    Rng(r.s1, Forth(r.s0, r.s1))
  }

  // ---------- Invertibility ----------

  /** The word that Forth replaced: undo the shift by 26, then the one by 17, then the one by 23. */
  function Back(w: bv64, y: bv64): bv64 {
    var z := w ^ y ^ (y >> 26);
    var x := z ^ (z >> 17) ^ (z >> 34) ^ (z >> 51);
    x ^ (x << 23) ^ (x << 46)
  }

  /** The state before a call, computed from the state after it. */
  function Prev(r: Rng): Rng {
    Rng(Back(r.s1, r.s0), r.s0)
  }

  lemma ForthIs(x: bv64, y: bv64)
    ensures Forth(x, y) == (x ^ (x << 23)) ^ y ^ ((x ^ (x << 23)) >> 17) ^ (y >> 26)
  {
  }

  lemma BackOfForth(x: bv64, y: bv64)
    ensures Back((x ^ (x << 23)) ^ y ^ ((x ^ (x << 23)) >> 17) ^ (y >> 26), y) == x
  {
  }

  /** Back undoes Forth, for every second word. */
  lemma BackUndoesForth(x: bv64, y: bv64)
    ensures Back(Forth(x, y), y) == x
  {
    hide *;
    ForthIs(x, y);
    BackOfForth(x, y);
  }

  lemma BackIs(w: bv64, y: bv64)
    ensures var z := w ^ y ^ (y >> 26);
            var x := z ^ (z >> 17) ^ (z >> 34) ^ (z >> 51);
            Back(w, y) == x ^ (x << 23) ^ (x << 46)
  {
  }

  lemma ForthOfBack(w: bv64, y: bv64)
    ensures var z := w ^ y ^ (y >> 26);
            var x := z ^ (z >> 17) ^ (z >> 34) ^ (z >> 51);
            Forth(x ^ (x << 23) ^ (x << 46), y) == w
  {
  }

  /** Forth undoes Back, for every second word. */
  lemma ForthUndoesBack(w: bv64, y: bv64)
    ensures Forth(Back(w, y), y) == w
  {
    hide *;
    BackIs(w, y);
    ForthOfBack(w, y);
  }

  /** The state update is a bijection: Prev undoes Next and Next undoes Prev. */
  lemma NextIsBijective(r: Rng)
    ensures Prev(Next(r)) == r && Next(Prev(r)) == r
  {
    hide Forth, Back;
    BackUndoesForth(r.s0, r.s1);
    ForthUndoesBack(r.s1, r.s0);
  }

  // ---------- The call ----------

  function Scramble(x: bv64): bv64 {
    x ^ (x << 23)
  }

  function FourTerms(x: bv64, y: bv64): bv64 {
    x ^ y ^ (x >> 17) ^ (y >> 26)
  }

  function Sum(x: bv64, y: bv64): bv64 {
    x + y
  }

  lemma ScrambleIs(x: bv64)
    ensures Scramble(x) == x ^ (x << 23)
  {
  }

  lemma FourTermsIs(x: bv64, y: bv64)
    ensures FourTerms(x, y) == x ^ y ^ (x >> 17) ^ (y >> 26)
  {
  }

  /** The sum is that of 64-bit words, modulo 2^64. */
  lemma SumIs(x: bv64, y: bv64)
    ensures Sum(x, y) == x + y
  {
  }

  /** The first call from the seed in the program. */
  lemma FirstCall()
    ensures Next(SEED) == Rng(1181783497276652981, 1181783479897393771)
    ensures Sum(Next(SEED).s0, Next(SEED).s1) == 2363566977174046752
  {
  }

  lemma ForthFromScrambled(s0: bv64, y: bv64)
    ensures Forth(s0, y) == FourTerms(s0 ^ (s0 << 23), y)
  {
  }

  lemma ForthInSteps(s0: bv64, y: bv64)
    ensures Forth(s0, y) == FourTerms(Scramble(s0), y)
  {
    hide *;
    ForthFromScrambled(s0, y);
    ScrambleIs(s0);
  }

  /** x ^= x << 23 */
  method ScrambleWord(x: bv64) returns (r: bv64)
    ensures r == Scramble(x)
  {
    r := x ^ (x << 23);
  }

  /** One call: the two words are overwritten in place.  The state before the call can be
      recomputed from the state after it, and the number returned is the sum, modulo 2^64, of
      the two words left behind. */
  method Xorshift128Plus(s: array<bv64>) returns (result: bv64)
    requires s.Length == 2
    modifies s
    ensures Rng(s[0], s[1]) == Next(Rng(old(s[0]), old(s[1])))
    ensures Prev(Rng(s[0], s[1])) == Rng(old(s[0]), old(s[1]))
    ensures result == Sum(s[0], s[1])
  {
    hide Scramble, FourTerms, Forth, Back, Sum;
    NextIsBijective(Rng(s[0], s[1]));
    ForthInSteps(s[0], s[1]);
    var x, y := s[0], s[1];
    s[0] := y;
    x := ScrambleWord(x);
    FourTermsIs(x, y);
    s[1] := x ^ y ^ (x >> 17) ^ (y >> 26);
    y := Sum(y, s[1]);
    result := y;
  }

  // ---------- Linearity ----------

  function XorWord(x: bv64, y: bv64): bv64 {
    x ^ y
  }

  function Xor(a: Rng, b: Rng): Rng {
    Rng(XorWord(a.s0, b.s0), XorWord(a.s1, b.s1))
  }

  lemma XorWordIs(x: bv64, y: bv64)
    ensures XorWord(x, y) == x ^ y
  {
  }

  lemma ForthOfXor(x: bv64, y: bv64, x': bv64, y': bv64)
    ensures Forth(x ^ x', y ^ y')
            == XorWord((x ^ (x << 23)) ^ y ^ ((x ^ (x << 23)) >> 17) ^ (y >> 26),
                       (x' ^ (x' << 23)) ^ y' ^ ((x' ^ (x' << 23)) >> 17) ^ (y' >> 26))
  {
  }

  lemma ForthIsLinear(x: bv64, y: bv64, x': bv64, y': bv64)
    ensures Forth(XorWord(x, x'), XorWord(y, y')) == XorWord(Forth(x, y), Forth(x', y'))
  {
    hide *;
    ForthIs(x, y);
    ForthIs(x', y');
    XorWordIs(x, x');
    XorWordIs(y, y');
    ForthOfXor(x, y, x', y');
  }

  /** The update is linear under exclusive or. */
  lemma NextIsLinear(a: Rng, b: Rng)
    ensures Next(Xor(a, b)) == Xor(Next(a), Next(b))
  {
    hide Forth, XorWord;
    ForthIsLinear(a.s0, a.s1, b.s0, b.s1);
  }

  // ---------- Runs of any length ----------

  function Run(r: Rng, steps: nat): Rng {
    if steps == 0 then r else Next(Run(r, steps - 1))
  }

  /** Equal states after k calls come from equal seeds. */
  lemma {:induction false} RunIsInjective(a: Rng, b: Rng, k: nat)
    requires Run(a, k) == Run(b, k)
    ensures a == b
  {
    hide Next;
    if k > 0 {
      NextIsBijective(Run(a, k - 1));
      NextIsBijective(Run(b, k - 1));
      RunIsInjective(a, b, k - 1);
    }
  }

  /** The difference of two runs evolves like a run of its own, whatever the seeds. */
  lemma {:induction false} RunIsLinear(a: Rng, b: Rng, k: nat)
    ensures Run(Xor(a, b), k) == Xor(Run(a, k), Run(b, k))
  {
    hide Next, XorWord;
    if k > 0 {
      RunIsLinear(a, b, k - 1);
      NextIsLinear(Run(a, k - 1), Run(b, k - 1));
    }
  }

  lemma {:induction false} ZeroStaysZero(k: nat)
    ensures Run(ZERO, k) == ZERO
  {
    if k > 0 {
      ZeroStaysZero(k - 1);
      assert Next(ZERO) == ZERO;
    }
  }

  /** A run reaches the absorbing zero state exactly when it starts there. */
  lemma ZeroOnlyFromZero(r: Rng, k: nat)
    ensures Run(r, k) == ZERO <==> r == ZERO
  {
    hide Next;
    ZeroStaysZero(k);
    if Run(r, k) == ZERO { RunIsInjective(r, ZERO, k); }
  }

  /** From the seed in the program no run of any length reaches the zero state. */
  lemma SeedNeverZero(k: nat)
    ensures Run(SEED, k) != ZERO
  {
    hide Next;
    ZeroOnlyFromZero(SEED, k);
  }

  lemma {:induction false} RunAdd(r: Rng, i: nat, k: nat)
    ensures Run(r, i + k) == Run(Run(r, i), k)
  {
    hide Next;
    if k > 0 { RunAdd(r, i, k - 1); }
  }

  lemma {:induction false} RunInner(r: Rng, k: nat)
    ensures Run(Next(r), k) == Next(Run(r, k))
  {
    hide Next;
    if k > 0 { RunInner(r, k - 1); }
  }

  /** A run that meets a state twice has come back to its seed: there is no lead-in. */
  lemma {:induction false} RepeatMeansCycle(r: Rng, i: nat, j: nat)
    requires i < j && Run(r, i) == Run(r, j)
    ensures Run(r, j - i) == r
  {
    hide Next;
    if i > 0 {
      NextIsBijective(Run(r, i - 1));
      NextIsBijective(Run(r, j - 1));
      RepeatMeansCycle(r, i - 1, j - 1);
    }
  }

  ghost function Visited(r: Rng, m: nat): set<Rng> {
    set i | 0 <= i < m :: Run(r, i)
  }

  const WORDS: int := 0x1_0000_0000_0000_0000

  function Word(i: int): bv64
    requires 0 <= i < WORDS
  {
    i as bv64
  }

  ghost function AllWords(): set<bv64> {
    set i: int | 0 <= i < WORDS :: Word(i)
  }

  lemma WordOfInt(w: bv64)
    ensures Word(w as int) == w
  {
  }

  lemma WordsComplete(i: int)
    requires 0 <= i < WORDS
    ensures Word(i) in AllWords()
  {
    hide Word;
  }

  lemma EveryWord(w: bv64)
    ensures w in AllWords()
  {
    hide Word, AllWords;
    WordOfInt(w);
    WordsComplete(w as int);
  }

  ghost function AllStates(): set<Rng> {
    set a, b | a in AllWords() && b in AllWords() :: Rng(a, b)
  }

  ghost predicate AllDistinct(r: Rng, m: nat) {
    forall i, j :: 0 <= i < j < m ==> Run(r, i) != Run(r, j)
  }

  lemma {:induction false} DistinctCount(r: Rng, m: nat)
    requires AllDistinct(r, m)
    ensures |Visited(r, m)| == m
  {
    hide Next;
    if m > 0 {
      DistinctCount(r, m - 1);
      assert Visited(r, m) == Visited(r, m - 1) + {Run(r, m - 1)};
    } else {
      assert Visited(r, m) == {};
    }
  }

  /** Every run is periodic from its first state on. */
  lemma EveryRunIsPeriodic(r: Rng)
    ensures exists period :: period > 0 && Run(r, period) == r
  {
    hide Next;
    var m := |AllStates()| + 1;
    forall s | s in Visited(r, m)
      ensures s in AllStates()
    {
      EveryWord(s.s0);
      EveryWord(s.s1);
    }
    SubsetSize(Visited(r, m), AllStates());
    if AllDistinct(r, m) {
      DistinctCount(r, m);
    } else {
      var i, j :| 0 <= i < j < m && Run(r, i) == Run(r, j);
      RepeatMeansCycle(r, i, j);
    }
  }
}
