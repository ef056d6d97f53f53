/** The table of decimal digit counts, checked row by row against powers of two and ten. */
module DecimalDigits {
  import opened Numerals

  /** Number of decimal digits for each number of bits, as tabulated in the program. */
  const DECDIGITS: seq<nat> :=
    [1, 1, 1, 1, 2, 2, 2, 3, 3, 3, 4, 4, 4, 4, 5, 5] +
    [5, 6, 6, 6, 7, 7, 7, 7, 8, 8, 8, 9, 9, 9, 10, 10] +
    [10, 10, 11, 11, 11, 12, 12, 12, 13, 13, 13, 13, 14, 14, 14, 15] +
    [15, 15, 16, 16, 16, 16, 17, 17, 17, 18, 18, 18, 19, 19, 19, 19] +
    [20]

  /** Row n of the table is the number of digits of the largest n-bit value. */
  predicate RowExact(n: nat) {
    n <= 64 && 1 <= DECDIGITS[n] && Pow(10, DECDIGITS[n] - 1) < Pow(2, n) <= Pow(10, DECDIGITS[n])
  }

  /** A run of equal rows is exact when its first and its last row are; and the powers at the
      start of the next run. */
  lemma EqualRows(d: nat, first: nat, last: nat)
    requires 1 <= d && first <= last <= 64 && forall k :: first <= k <= last ==> DECDIGITS[k] == d
    requires Pow(10, d - 1) < Pow(2, first) && Pow(2, last) <= Pow(10, d)
    ensures forall k :: first <= k <= last ==> RowExact(k)
    ensures Pow(10, d + 1) == 10 * Pow(10, d) && Pow(2, last + 1) == 2 * Pow(2, last)
    ensures Pow(2, last + 3) == 8 * Pow(2, last) && Pow(2, last + 4) == 16 * Pow(2, last)
  {
    forall k | first <= k <= last
      ensures RowExact(k)
    {
      PowMonotone(2, first, k);
      PowMonotone(2, k, last);
    }
    Doublings(last);
  }

  lemma Doublings(k: nat)
    ensures Pow(2, k + 1) == 2 * Pow(2, k) && Pow(2, k + 3) == 8 * Pow(2, k) && Pow(2, k + 4) == 16 * Pow(2, k)
  {
    assert Pow(2, k + 3) == 2 * Pow(2, k + 2) == 4 * Pow(2, k + 1);
  }

  lemma RowsTo6()
    ensures forall k :: 1 <= k <= 6 ==> RowExact(k)
    ensures Pow(2, 6) == 64 && Pow(10, 2) == 100
  {
    assert Pow(10, 0) == 1 && Pow(10, 1) == 10 && Pow(2, 1) == 2 && Pow(2, 3) == 8;
    assert DECDIGITS[1] == DECDIGITS[2] == DECDIGITS[3] == 1;
    EqualRows(1, 1, 3);
    assert DECDIGITS[4] == DECDIGITS[5] == DECDIGITS[6] == 2;
    EqualRows(2, 4, 6);
  }

  lemma RowsTo13()
    ensures forall k :: 7 <= k <= 13 ==> RowExact(k)
    ensures Pow(2, 13) == 8_192 && Pow(10, 4) == 10_000
  {
    RowsTo6();
    Doublings(6);
    assert Pow(10, 3) == 10 * Pow(10, 2);
    assert DECDIGITS[7] == DECDIGITS[8] == DECDIGITS[9] == 3;
    EqualRows(3, 7, 9);
    assert DECDIGITS[10] == DECDIGITS[11] == DECDIGITS[12] == DECDIGITS[13] == 4;
    EqualRows(4, 10, 13);
  }

  lemma RowsTo19()
    ensures forall k :: 14 <= k <= 19 ==> RowExact(k)
    ensures Pow(2, 19) == 524_288 && Pow(10, 6) == 1_000_000
  {
    RowsTo13();
    Doublings(13);
    assert Pow(10, 5) == 10 * Pow(10, 4);
    assert DECDIGITS[14] == DECDIGITS[15] == DECDIGITS[16] == 5;
    EqualRows(5, 14, 16);
    assert DECDIGITS[17] == DECDIGITS[18] == DECDIGITS[19] == 6;
    EqualRows(6, 17, 19);
  }

  lemma RowsTo26()
    ensures forall k :: 20 <= k <= 26 ==> RowExact(k)
    ensures Pow(2, 26) == 67_108_864 && Pow(10, 8) == 100_000_000
  {
    RowsTo19();
    Doublings(19);
    assert Pow(10, 7) == 10 * Pow(10, 6);
    assert DECDIGITS[20] == DECDIGITS[21] == DECDIGITS[22] == DECDIGITS[23] == 7;
    EqualRows(7, 20, 23);
    assert DECDIGITS[24] == DECDIGITS[25] == DECDIGITS[26] == 8;
    EqualRows(8, 24, 26);
  }

  lemma RowsTo33()
    ensures forall k :: 27 <= k <= 33 ==> RowExact(k)
    ensures Pow(2, 33) == 8_589_934_592 && Pow(10, 10) == 10_000_000_000
  {
    RowsTo26();
    Doublings(26);
    assert Pow(10, 9) == 10 * Pow(10, 8);
    assert DECDIGITS[27] == DECDIGITS[28] == DECDIGITS[29] == 9;
    EqualRows(9, 27, 29);
    assert DECDIGITS[30] == DECDIGITS[31] == DECDIGITS[32] == DECDIGITS[33] == 10;
    EqualRows(10, 30, 33);
  }

  lemma RowsTo39()
    ensures forall k :: 34 <= k <= 39 ==> RowExact(k)
    ensures Pow(2, 39) == 549_755_813_888 && Pow(10, 12) == 1_000_000_000_000
  {
    RowsTo33();
    Doublings(33);
    assert Pow(10, 11) == 10 * Pow(10, 10);
    assert DECDIGITS[34] == DECDIGITS[35] == DECDIGITS[36] == 11;
    EqualRows(11, 34, 36);
    assert DECDIGITS[37] == DECDIGITS[38] == DECDIGITS[39] == 12;
    EqualRows(12, 37, 39);
  }

  lemma RowsTo46()
    ensures forall k :: 40 <= k <= 46 ==> RowExact(k)
    ensures Pow(2, 46) == 70_368_744_177_664 && Pow(10, 14) == 100_000_000_000_000
  {
    RowsTo39();
    Doublings(39);
    assert Pow(10, 13) == 10 * Pow(10, 12);
    assert DECDIGITS[40] == DECDIGITS[41] == DECDIGITS[42] == DECDIGITS[43] == 13;
    EqualRows(13, 40, 43);
    assert DECDIGITS[44] == DECDIGITS[45] == DECDIGITS[46] == 14;
    EqualRows(14, 44, 46);
  }

  lemma RowsTo53()
    ensures forall k :: 47 <= k <= 53 ==> RowExact(k)
    ensures Pow(2, 53) == 9_007_199_254_740_992 && Pow(10, 16) == 10_000_000_000_000_000
  {
    RowsTo46();
    Doublings(46);
    assert Pow(10, 15) == 10 * Pow(10, 14);
    assert DECDIGITS[47] == DECDIGITS[48] == DECDIGITS[49] == 15;
    EqualRows(15, 47, 49);
    assert DECDIGITS[50] == DECDIGITS[51] == DECDIGITS[52] == DECDIGITS[53] == 16;
    EqualRows(16, 50, 53);
  }

  lemma RowsTo59()
    ensures forall k :: 54 <= k <= 59 ==> RowExact(k)
    ensures Pow(2, 59) == 576_460_752_303_423_488 && Pow(10, 18) == 1_000_000_000_000_000_000
  {
    RowsTo53();
    Doublings(53);
    assert Pow(10, 17) == 10 * Pow(10, 16);
    assert DECDIGITS[54] == DECDIGITS[55] == DECDIGITS[56] == 17;
    EqualRows(17, 54, 56);
    assert DECDIGITS[57] == DECDIGITS[58] == DECDIGITS[59] == 18;
    EqualRows(18, 57, 59);
  }

  lemma RowsTo64()
    ensures forall k :: 60 <= k <= 64 ==> RowExact(k)
  {
    RowsTo59();
    Doublings(59);
    assert Pow(10, 19) == 10 * Pow(10, 18);
    assert DECDIGITS[60] == DECDIGITS[61] == DECDIGITS[62] == DECDIGITS[63] == 19;
    EqualRows(19, 60, 63);
    assert DECDIGITS[64] == 20;
    EqualRows(20, 64, 64);
  }

  /** Every row of the table but the first is exact; row 0 has a digit too many. */
  lemma TableExact(n: nat)
    requires n <= 64
    ensures RowExact(n) <==> n >= 1
  {
    assert DECDIGITS[0] == 1 && Pow(10, 0) == Pow(2, 0) == 1;
    RowsTo6();
    RowsTo13();
    RowsTo19();
    RowsTo26();
    RowsTo33();
    RowsTo39();
    RowsTo46();
    RowsTo53();
    RowsTo59();
    RowsTo64();
  }
}
