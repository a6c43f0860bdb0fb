/** The probability estimation state machine (Table D.3 of ITU-T T.81), and the
    packed form in which the arithmetic coders fetch its rows. */
module ArithTable {

  /** One row: the LPS interval size, the successor states, and whether coding the
      less probable symbol also swaps the sense of the bin. */
  datatype Row = Row(qe: nat, lps: nat, mps: nat, swap: bool)

  const LAST_STATE := 113

  predicate IsRow(r: Row) {
    1 <= r.qe <= 0x5b12 && r.lps <= LAST_STATE && r.mps <= LAST_STATE
  }

  function Rows0(i: nat): (r: Row)
    ensures IsRow(r)
  {
    match i
    case 0 => Row(0x5a1d, 1, 1, true)
    case 1 => Row(0x2586, 14, 2, false)
    case 2 => Row(0x1114, 16, 3, false)
    case 3 => Row(0x080b, 18, 4, false)
    case 4 => Row(0x03d8, 20, 5, false)
    case 5 => Row(0x01da, 23, 6, false)
    case 6 => Row(0x00e5, 25, 7, false)
    case 7 => Row(0x006f, 28, 8, false)
    case 8 => Row(0x0036, 30, 9, false)
    case 9 => Row(0x001a, 33, 10, false)
    case 10 => Row(0x000d, 35, 11, false)
    case 11 => Row(0x0006, 9, 12, false)
    case 12 => Row(0x0003, 10, 13, false)
    case 13 => Row(0x0001, 12, 13, false)
    case 14 => Row(0x5a7f, 15, 15, true)
    case 15 => Row(0x3f25, 36, 16, false)
    case 16 => Row(0x2cf2, 38, 17, false)
    case 17 => Row(0x207c, 39, 18, false)
    case _ => Row(0x17b9, 40, 19, false)  // 18
  }

  function Rows19(i: nat): (r: Row)
    ensures IsRow(r)
  {
    match i
    case 19 => Row(0x1182, 42, 20, false)
    case 20 => Row(0x0cef, 43, 21, false)
    case 21 => Row(0x09a1, 45, 22, false)
    case 22 => Row(0x072f, 46, 23, false)
    case 23 => Row(0x055c, 48, 24, false)
    case 24 => Row(0x0406, 49, 25, false)
    case 25 => Row(0x0303, 51, 26, false)
    case 26 => Row(0x0240, 52, 27, false)
    case 27 => Row(0x01b1, 54, 28, false)
    case 28 => Row(0x0144, 56, 29, false)
    case 29 => Row(0x00f5, 57, 30, false)
    case 30 => Row(0x00b7, 59, 31, false)
    case 31 => Row(0x008a, 60, 32, false)
    case 32 => Row(0x0068, 62, 33, false)
    case 33 => Row(0x004e, 63, 34, false)
    case 34 => Row(0x003b, 32, 35, false)
    case 35 => Row(0x002c, 33, 9, false)
    case 36 => Row(0x5ae1, 37, 37, true)
    case _ => Row(0x484c, 64, 38, false)  // 37
  }

  function Rows38(i: nat): (r: Row)
    ensures IsRow(r)
  {
    match i
    case 38 => Row(0x3a0d, 65, 39, false)
    case 39 => Row(0x2ef1, 67, 40, false)
    case 40 => Row(0x261f, 68, 41, false)
    case 41 => Row(0x1f33, 69, 42, false)
    case 42 => Row(0x19a8, 70, 43, false)
    case 43 => Row(0x1518, 72, 44, false)
    case 44 => Row(0x1177, 73, 45, false)
    case 45 => Row(0x0e74, 74, 46, false)
    case 46 => Row(0x0bfb, 75, 47, false)
    case 47 => Row(0x09f8, 77, 48, false)
    case 48 => Row(0x0861, 78, 49, false)
    case 49 => Row(0x0706, 79, 50, false)
    case 50 => Row(0x05cd, 48, 51, false)
    case 51 => Row(0x04de, 50, 52, false)
    case 52 => Row(0x040f, 50, 53, false)
    case 53 => Row(0x0363, 51, 54, false)
    case 54 => Row(0x02d4, 52, 55, false)
    case 55 => Row(0x025c, 53, 56, false)
    case _ => Row(0x01f8, 54, 57, false)  // 56
  }

  function Rows57(i: nat): (r: Row)
    ensures IsRow(r)
  {
    match i
    case 57 => Row(0x01a4, 55, 58, false)
    case 58 => Row(0x0160, 56, 59, false)
    case 59 => Row(0x0125, 57, 60, false)
    case 60 => Row(0x00f6, 58, 61, false)
    case 61 => Row(0x00cb, 59, 62, false)
    case 62 => Row(0x00ab, 61, 63, false)
    case 63 => Row(0x008f, 61, 32, false)
    case 64 => Row(0x5b12, 65, 65, true)
    case 65 => Row(0x4d04, 80, 66, false)
    case 66 => Row(0x412c, 81, 67, false)
    case 67 => Row(0x37d8, 82, 68, false)
    case 68 => Row(0x2fe8, 83, 69, false)
    case 69 => Row(0x293c, 84, 70, false)
    case 70 => Row(0x2379, 86, 71, false)
    case 71 => Row(0x1edf, 87, 72, false)
    case 72 => Row(0x1aa9, 87, 73, false)
    case 73 => Row(0x174e, 72, 74, false)
    case 74 => Row(0x1424, 72, 75, false)
    case _ => Row(0x119c, 74, 76, false)  // 75
  }

  function Rows76(i: nat): (r: Row)
    ensures IsRow(r)
  {
    match i
    case 76 => Row(0x0f6b, 74, 77, false)
    case 77 => Row(0x0d51, 75, 78, false)
    case 78 => Row(0x0bb6, 77, 79, false)
    case 79 => Row(0x0a40, 77, 48, false)
    case 80 => Row(0x5832, 80, 81, true)
    case 81 => Row(0x4d1c, 88, 82, false)
    case 82 => Row(0x438e, 89, 83, false)
    case 83 => Row(0x3bdd, 90, 84, false)
    case 84 => Row(0x34ee, 91, 85, false)
    case 85 => Row(0x2eae, 92, 86, false)
    case 86 => Row(0x299a, 93, 87, false)
    case 87 => Row(0x2516, 86, 71, false)
    case 88 => Row(0x5570, 88, 89, true)
    case 89 => Row(0x4ca9, 95, 90, false)
    case 90 => Row(0x44d9, 96, 91, false)
    case 91 => Row(0x3e22, 97, 92, false)
    case 92 => Row(0x3824, 99, 93, false)
    case 93 => Row(0x32b4, 99, 94, false)
    case _ => Row(0x2e17, 93, 86, false)  // 94
  }

  function Rows95(i: nat): (r: Row)
    ensures IsRow(r)
  {
    match i
    case 95 => Row(0x56a8, 95, 96, true)
    case 96 => Row(0x4f46, 101, 97, false)
    case 97 => Row(0x47e5, 102, 98, false)
    case 98 => Row(0x41cf, 103, 99, false)
    case 99 => Row(0x3c3d, 104, 100, false)
    case 100 => Row(0x375e, 99, 93, false)
    case 101 => Row(0x5231, 105, 102, false)
    case 102 => Row(0x4c0f, 106, 103, false)
    case 103 => Row(0x4639, 107, 104, false)
    case 104 => Row(0x415e, 103, 99, false)
    case 105 => Row(0x5627, 105, 106, true)
    case 106 => Row(0x50e7, 108, 107, false)
    case 107 => Row(0x4b85, 109, 103, false)
    case 108 => Row(0x5597, 110, 109, false)
    case 109 => Row(0x504f, 111, 107, false)
    case 110 => Row(0x5a10, 110, 111, true)
    case 111 => Row(0x5522, 112, 109, false)
    case 112 => Row(0x59eb, 112, 111, true)
    case _ => Row(0x5a1d, 113, 113, false)  // 113
  }

  /** Table D.3; state 113 is the fixed probability of one half. */
  function Lookup(i: nat): (r: Row)
    requires i <= LAST_STATE
    ensures IsRow(r)
    ensures r.swap <==> i in {0, 14, 36, 64, 80, 88, 95, 105, 110, 112}
  {
    if i < 19 then Rows0(i) else
    if i < 38 then Rows19(i) else
    if i < 57 then Rows38(i) else
    if i < 76 then Rows57(i) else
    if i < 95 then Rows76(i) else
    Rows95(i)
  }

  /** The packed table entry, with the fields the coders peel off a byte at a time. */
  function Packed(r: Row): (v: nat)
    requires IsRow(r)
    ensures v / 0x10000 == r.qe
    ensures v % 256 == r.lps + (if r.swap then 128 else 0)
    ensures v / 256 % 256 == r.mps
  {
    r.qe * 0x10000 + r.mps * 0x100 + (if r.swap then 0x80 else 0) + r.lps
  }

  /** A statistics bin is one byte: the sense of the more probable symbol in bit 7,
      a table index below it. */
  predicate IsBin(sv: int) {
    0 <= sv <= 255 && sv % 128 <= LAST_STATE
  }

  function Mps(sv: int): int { sv / 128 }

  /** (sv & 0x80) ^ next, for bytes. */
  function Transit(sv: int, next: int): (r: int)
    requires 0 <= sv <= 255 && 0 <= next <= 255
    ensures 0 <= r <= 255 && r % 128 == next % 128
    ensures r / 128 == (sv / 128 + next / 128) % 2
  {
    (if sv / 128 == next / 128 then 0 else 128) + next % 128
  }

  /** The successor of a bin in row r: an LPS in a switching state flips the sense,
      nothing else does. */
  function Successor(sv: int, r: Row, lps: bool): (sv': int)
    requires IsBin(sv) && IsRow(r)
    ensures IsBin(sv')
    ensures Mps(sv') == if lps && r.swap then 1 - Mps(sv) else Mps(sv)
    ensures sv' % 128 == if lps then r.lps else r.mps
  {
    var packed := Packed(r);
    if lps then Transit(sv, packed % 256) else Transit(sv, packed / 256 % 256)
  }

  /** Qe for a bin. */
  function Qe(sv: int): (q: nat)
    requires IsBin(sv)
    ensures 1 <= q <= 0x5b12
  {
    Packed(Lookup(sv % 128)) / 0x10000
  }

  /** Estimate_after_LPS and Estimate_after_MPS (Figures D.4 and D.5). */
  function Estimate(sv: int, lps: bool): (sv': int)
    requires IsBin(sv)
    ensures IsBin(sv')
  {
    Successor(sv, Lookup(sv % 128), lps)
  }
}
