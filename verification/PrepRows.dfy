/** The compressor's preprocessing buffer with context rows: three row groups in a ring, reached
    through a list of row pointers that wraps around at both ends. */
module PrepRows {
  import opened Numbers

  type Row = seq<int>

  /** max_v_samp_factor, min_DCT_v_scaled_size, image_height and total_iMCU_rows. */
  datatype Image = Image(v: nat, M: nat, height: nat, total: nat, row: int -> Row)

  /** Rows in an iMCU row. */
  ghost function StripHeight(m: Image): int {
    m.M * m.v
  }

  ghost predicate Good(m: Image) {
    && m.v > 0 && m.M > 0 && m.height > 0 && m.total > 0
    && (m.total - 1) * StripHeight(m) < m.height <= m.total * StripHeight(m)
  }

  /** The image without end, its first and last rows replicated. */
  ghost function Endless(m: Image, y: int): Row {
    if y < 0 then m.row(0) else if y >= m.height then m.row(m.height - 1) else m.row(y)
  }

  /** What the downsampler sees for row group g: a row group of context above and below. */
  ghost function Group(m: Image, g: int): seq<Row> {
    seq(3 * m.v, i requires 0 <= i < 3 * m.v => Endless(m, g * m.v - m.v + i))
  }

  /** iMCU row n. */
  ghost function Strip(m: Image, n: int): (s: seq<seq<Row>>)
    ensures |s| == m.M
  {
    seq(m.M, j requires 0 <= j < m.M => Group(m, n * m.M + j))
  }

  ghost function Strips(m: Image, n: nat): (s: seq<seq<seq<Row>>>)
    ensures |s| == n
  {
    seq(n, k requires 0 <= k < n => Strip(m, k))
  }

  lemma StripsNext(m: Image, n: nat)
    ensures Strips(m, n + 1) == Strips(m, n) + [Strip(m, n)]
  {
    hide Strip;
  }

  lemma Shown(m: Image, g: int, i: nat)
    requires i < 3 * m.v
    ensures Group(m, g)[i] == Endless(m, g * m.v - m.v + i)
  {
  }

  lemma Split(y: int, u: int)
    requires u > 0 && y >= 0
    ensures y == y / u * u + y % u && 0 <= y / u && 0 <= y % u < u
  {
    if y / u < 0 { MulLe(y / u, -1, u); }
  }

  /** Row y within its strip and its group. */
  lemma Located(y: nat, M: nat, v: nat, total: nat)
    requires v > 0 && M > 0 && y < total * (M * v)
    ensures 0 < M * v && 0 <= y / (M * v) < total && 0 <= y % (M * v) / v < M
    ensures (y / (M * v) * M + y % (M * v) / v) * v == y - y % v
  {
    MulLe(1, M, v);
    var q, w := y / (M * v), y % (M * v);
    Split(y, M * v);
    Split(w, v);
    if q >= total { MulLe(total, q, M * v); }
    if w / v >= M { MulLe(M, w / v, v); }
    MulAssoc(q, M, v);
    Distribute(q * M, w / v, v);
    ModUnique(y, v, q * M + w / v, w % v);
  }

  /** Every row of the image is shown in its place, between its true neighbours, the first and the last being their own:
      row y as row y % v of a group, behind v rows of context. */
  lemma RowShown(m: Image, y: nat)
    requires Good(m) && y < m.height
    ensures 0 < StripHeight(m) && 0 <= y / StripHeight(m) < m.total
    ensures var strip, group, i := y / StripHeight(m), y % StripHeight(m) / m.v, y % m.v;
      && group < m.M && |Strips(m, m.total)[strip][group]| == 3 * m.v
      && var rows := Strips(m, m.total)[strip][group];
         && rows[m.v + i] == m.row(y)
         && rows[m.v + i - 1] == m.row(if y > 0 then y - 1 else 0)
         && rows[m.v + i + 1] == m.row(if y + 1 < m.height then y + 1 else y)
  {
    Located(y, m.M, m.v, m.total);
    var s := StripHeight(m);
    var g, i := y / s * m.M + y % s / m.v, y % m.v;
    Shown(m, g, m.v + i);
    Shown(m, g, m.v + i - 1);
    Shown(m, g, m.v + i + 1);
  }

  // The ring ------------------------------------------------------------------------------------

  /** Workspace row of position p of the list, -v <= p < 4v. */
  function Physical(v: nat, p: int): int {
    if p < 0 then p + 3 * v else if p >= 3 * v then p - 3 * v else p
  }

  ghost function Cell(color: seq<Row>, v: nat, p: int): Row {
    if 0 <= Physical(v, p) < |color| then color[Physical(v, p)] else []
  }

  /** Rows lo to e - 1 of the image, counted from the group at position trg, which is row base. */
  ghost predicate Ring(m: Image, color: seq<Row>, trg: int, base: int, lo: int, e: int) {
    && |color| == 3 * m.v
    && forall p {:trigger Cell(color, m.v, p)} :: trg + lo <= p < trg + e ==>
        Cell(color, m.v, p) == Endless(m, base - trg + p)
  }

  ghost predicate Start(m: Image, trg: int) {
    trg == 0 || trg == m.v || trg == 2 * m.v
  }

  /** Where the row group after the one at trg ends. */
  function StopOf(v: nat, trg: int): int {
    if trg >= 2 * v then v else trg + 2 * v
  }

  /** Storing the next row. */
  lemma Store(m: Image, color: seq<Row>, trg: int, base: int, lo: int, e: int)
    requires Good(m) && Ring(m, color, trg, base, lo, e) && Start(m, trg) && 0 - m.v <= lo && 0 <= e < 2 * m.v
    requires e < m.v ==> trg == 0
    ensures 0 <= Physical(m.v, trg + e) < |color|
    ensures Physical(m.v, trg + e) == StopOf(m.v, trg) - (2 * m.v - e)
    ensures Ring(m, color[Physical(m.v, trg + e) := Endless(m, base + e)], trg, base, lo, e + 1)
  {
    hide Endless;
    var k := Physical(m.v, trg + e);
    var after := color[k := Endless(m, base + e)];
    forall p | trg + lo <= p < trg + e + 1 ensures Cell(after, m.v, p) == Endless(m, base - trg + p) {
      if p < trg + e {
        assert Cell(color, m.v, p) == Endless(m, base - trg + p);
        assert Physical(m.v, p) != k;
      }
    }
  }

  /** Moving on to the next row group: its successor's place is where the predecessor was. */
  lemma Advance(m: Image, color: seq<Row>, trg: int, base: int)
    requires Good(m) && Ring(m, color, trg, base, 0 - m.v, 2 * m.v) && Start(m, trg)
    ensures Ring(m, color, if trg == 2 * m.v then 0 else trg + m.v, base + m.v, 0 - m.v, m.v)
  {
    hide Endless;
    var next := if trg == 2 * m.v then 0 else trg + m.v;
    forall p | next - m.v <= p < next + m.v ensures Cell(color, m.v, p) == Endless(m, base + m.v - next + p) {
      var q := if trg == 2 * m.v then p + 3 * m.v else p;
      assert Cell(color, m.v, q) == Endless(m, base - trg + q);
      assert Physical(m.v, q) == Physical(m.v, p);
    }
  }

  /** Repeating the first row above it. */
  lemma StoreAbove(m: Image, color: seq<Row>, lo: int, e: int)
    requires Good(m) && Ring(m, color, 0, 0, lo, e) && 0 - m.v < lo <= 0 < e <= 2 * m.v
    ensures 0 <= Physical(m.v, lo - 1) < |color| && Physical(m.v, lo - 1) == lo - 1 + 3 * m.v && color[0] == m.row(0)
    ensures Ring(m, color[Physical(m.v, lo - 1) := m.row(0)], 0, 0, lo - 1, e)
  {
    var k := Physical(m.v, lo - 1);
    var after := color[k := m.row(0)];
    assert Cell(color, m.v, 0) == Endless(m, 0);
    forall p | lo - 1 <= p < e ensures Cell(after, m.v, p) == Endless(m, p) {
      if p >= lo {
        assert Cell(color, m.v, p) == Endless(m, p);
        assert Physical(m.v, p) != k;
      }
    }
  }
}
