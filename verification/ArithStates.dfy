/** Table D.3 of ITU-T T.81 column by column, nineteen states to a line, and what its state machine
    amounts to. */
module ArithStates {
  import opened ArithTable

  /** Qe_Value. */
  const QE: seq<seq<nat>> := [
    [0x5a1d, 0x2586, 0x1114, 0x080b, 0x03d8, 0x01da, 0x00e5, 0x006f, 0x0036, 0x001a, 0x000d, 0x0006,
     0x0003, 0x0001, 0x5a7f, 0x3f25, 0x2cf2, 0x207c, 0x17b9],
    [0x1182, 0x0cef, 0x09a1, 0x072f, 0x055c, 0x0406, 0x0303, 0x0240, 0x01b1, 0x0144, 0x00f5, 0x00b7,
     0x008a, 0x0068, 0x004e, 0x003b, 0x002c, 0x5ae1, 0x484c],
    [0x3a0d, 0x2ef1, 0x261f, 0x1f33, 0x19a8, 0x1518, 0x1177, 0x0e74, 0x0bfb, 0x09f8, 0x0861, 0x0706,
     0x05cd, 0x04de, 0x040f, 0x0363, 0x02d4, 0x025c, 0x01f8],
    [0x01a4, 0x0160, 0x0125, 0x00f6, 0x00cb, 0x00ab, 0x008f, 0x5b12, 0x4d04, 0x412c, 0x37d8, 0x2fe8,
     0x293c, 0x2379, 0x1edf, 0x1aa9, 0x174e, 0x1424, 0x119c],
    [0x0f6b, 0x0d51, 0x0bb6, 0x0a40, 0x5832, 0x4d1c, 0x438e, 0x3bdd, 0x34ee, 0x2eae, 0x299a, 0x2516,
     0x5570, 0x4ca9, 0x44d9, 0x3e22, 0x3824, 0x32b4, 0x2e17],
    [0x56a8, 0x4f46, 0x47e5, 0x41cf, 0x3c3d, 0x375e, 0x5231, 0x4c0f, 0x4639, 0x415e, 0x5627, 0x50e7,
     0x4b85, 0x5597, 0x504f, 0x5a10, 0x5522, 0x59eb, 0x5a1d]
  ]

  /** Next_Index_LPS. */
  const NEXT_LPS: seq<seq<nat>> := [
    [1, 14, 16, 18, 20, 23, 25, 28, 30, 33, 35, 9,
     10, 12, 15, 36, 38, 39, 40],
    [42, 43, 45, 46, 48, 49, 51, 52, 54, 56, 57, 59,
     60, 62, 63, 32, 33, 37, 64],
    [65, 67, 68, 69, 70, 72, 73, 74, 75, 77, 78, 79,
     48, 50, 50, 51, 52, 53, 54],
    [55, 56, 57, 58, 59, 61, 61, 65, 80, 81, 82, 83,
     84, 86, 87, 87, 72, 72, 74],
    [74, 75, 77, 77, 80, 88, 89, 90, 91, 92, 93, 86,
     88, 95, 96, 97, 99, 99, 93],
    [95, 101, 102, 103, 104, 99, 105, 106, 107, 103, 105, 108,
     109, 110, 111, 110, 112, 112, 113]
  ]

  /** Next_Index_MPS. */
  const NEXT_MPS: seq<seq<nat>> := [
    [1, 2, 3, 4, 5, 6, 7, 8, 9, 10, 11, 12,
     13, 13, 15, 16, 17, 18, 19],
    [20, 21, 22, 23, 24, 25, 26, 27, 28, 29, 30, 31,
     32, 33, 34, 35, 9, 37, 38],
    [39, 40, 41, 42, 43, 44, 45, 46, 47, 48, 49, 50,
     51, 52, 53, 54, 55, 56, 57],
    [58, 59, 60, 61, 62, 63, 32, 65, 66, 67, 68, 69,
     70, 71, 72, 73, 74, 75, 76],
    [77, 78, 79, 48, 81, 82, 83, 84, 85, 86, 87, 71,
     89, 90, 91, 92, 93, 94, 86],
    [96, 97, 98, 99, 100, 93, 102, 103, 104, 99, 106, 107,
     103, 109, 107, 111, 109, 111, 113]
  ]

  ghost predicate IsEntry(r: Row, i: nat)
    requires i <= LAST_STATE
  {
    r.qe == QE[i / 19][i % 19] && r.lps == NEXT_LPS[i / 19][i % 19] && r.mps == NEXT_MPS[i / 19][i % 19]
  }

  lemma Line0(i: nat)
    requires i < 19
    ensures IsEntry(Rows0(i), i)
  {
    assert i / 19 == 0 && i % 19 == i;
  }

  lemma Line1(i: nat)
    requires 19 <= i < 38
    ensures IsEntry(Rows19(i), i)
  {
    assert i / 19 == 1 && i % 19 == i - 19;
  }

  lemma Line2(i: nat)
    requires 38 <= i < 57
    ensures IsEntry(Rows38(i), i)
  {
    assert i / 19 == 2 && i % 19 == i - 38;
  }

  lemma Line3(i: nat)
    requires 57 <= i < 76
    ensures IsEntry(Rows57(i), i)
  {
    assert i / 19 == 3 && i % 19 == i - 57;
  }

  lemma Line4(i: nat)
    requires 76 <= i < 95
    ensures IsEntry(Rows76(i), i)
  {
    assert i / 19 == 4 && i % 19 == i - 76;
  }

  lemma Line5(i: nat)
    requires 95 <= i < 114
    ensures IsEntry(Rows95(i), i)
  {
    assert i / 19 == 5 && i % 19 == i - 95;
  }

  /** Every row fetched is the row of the table. */
  lemma LookupIsTable(i: nat)
    requires i <= LAST_STATE
    ensures IsEntry(Lookup(i), i)
  {
    hide IsEntry, Rows0, Rows19, Rows38, Rows57, Rows76, Rows95;
    if i < 19 {
      Line0(i);
    } else if i < 38 {
      Line1(i);
    } else if i < 57 {
      Line2(i);
    } else if i < 76 {
      Line3(i);
    } else if i < 95 {
      Line4(i);
    } else {
      Line5(i);
    }
  }

  lemma Laws0(i: nat)
    requires i < 19
    ensures Lookup(Lookup(i).mps).qe <= Lookup(i).qe
    ensures i !in {0, 14, 36, 64} <==> Lookup(Lookup(i).lps).qe >= Lookup(i).qe
  {
  }

  lemma Laws1(i: nat)
    requires 19 <= i < 38
    ensures Lookup(Lookup(i).mps).qe <= Lookup(i).qe
    ensures i !in {0, 14, 36, 64} <==> Lookup(Lookup(i).lps).qe >= Lookup(i).qe
  {
  }

  lemma Laws2(i: nat)
    requires 38 <= i < 57
    ensures Lookup(Lookup(i).mps).qe <= Lookup(i).qe
    ensures i !in {0, 14, 36, 64} <==> Lookup(Lookup(i).lps).qe >= Lookup(i).qe
  {
  }

  lemma Laws3(i: nat)
    requires 57 <= i < 76
    ensures Lookup(Lookup(i).mps).qe <= Lookup(i).qe
    ensures i !in {0, 14, 36, 64} <==> Lookup(Lookup(i).lps).qe >= Lookup(i).qe
  {
  }

  lemma Laws4(i: nat)
    requires 76 <= i < 95
    ensures Lookup(Lookup(i).mps).qe <= Lookup(i).qe
    ensures i !in {0, 14, 36, 64} <==> Lookup(Lookup(i).lps).qe >= Lookup(i).qe
  {
  }

  lemma Laws5(i: nat)
    requires 95 <= i < 114
    ensures Lookup(Lookup(i).mps).qe <= Lookup(i).qe
    ensures i !in {0, 14, 36, 64} <==> Lookup(Lookup(i).lps).qe >= Lookup(i).qe
  {
  }

  /** A more probable symbol never makes the other more probable; a less probable one makes it no less
      so, but for four states that start the estimate over. */
  lemma EstimateMoves(i: nat)
    requires i <= LAST_STATE
    ensures Lookup(Lookup(i).mps).qe <= Lookup(i).qe
    ensures i !in {0, 14, 36, 64} <==> Lookup(Lookup(i).lps).qe >= Lookup(i).qe
  {
    hide Lookup;
    if i < 19 {
      Laws0(i);
    } else if i < 38 {
      Laws1(i);
    } else if i < 57 {
      Laws2(i);
    } else if i < 76 {
      Laws3(i);
    } else if i < 95 {
      Laws4(i);
    } else {
      Laws5(i);
    }
  }

  /** What a decision makes of a bin: the sense of the bin flips for a less probable symbol in a switching
      state, and the next state is the table's. */
  lemma EstimateIs(sv: int, lps: bool)
    requires IsBin(sv)
    ensures var i, after := sv % 128, Estimate(sv, lps);
      && Qe(sv) == QE[i / 19][i % 19]
      && after % 128 == (if lps then NEXT_LPS[i / 19][i % 19] else NEXT_MPS[i / 19][i % 19])
      && Mps(after) == if lps && i in {0, 14, 36, 64, 80, 88, 95, 105, 110, 112} then 1 - Mps(sv) else Mps(sv)
  {
    hide Lookup, Successor, Packed;
    LookupIsTable(sv % 128);
  }
}
