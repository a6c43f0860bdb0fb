/** The decompressor's "funny pointer" context buffer: M + 2 row groups of one component, reached
    through two lists of row pointers, none ever copied. */
module ContextRows {
  import opened Numbers

  type Row = seq<int>

  /** One component: sample rows in a row group, row groups in an iMCU row (min_DCT_v_scaled_size),
      real sample rows, and iMCU rows. */
  datatype Shape = Shape(rgroup: nat, M: nat, height: nat, total: nat)

  /** Sample rows in an iMCU row. */
  function IMCUHeight(s: Shape): nat {
    s.rgroup * s.M
  }

  function Base(s: Shape, n: int): int {
    n * IMCUHeight(s)
  }

  /** Real sample rows of the last iMCU row. */
  ghost function LastRows(s: Shape): int {
    s.height - Base(s, s.total - 1)
  }

  ghost predicate Good(s: Shape) {
    s.rgroup > 0 && s.M >= 2 && s.total > 0 && 0 < LastRows(s) <= IMCUHeight(s)
  }

  /** Real row groups of the last iMCU row, and of the image. */
  ghost function LastGroups(s: Shape): int
    requires s.rgroup > 0
  {
    (LastRows(s) - 1) / s.rgroup + 1
  }

  ghost function Groups(s: Shape): int
    requires s.rgroup > 0
  {
    GroupBase(s, s.total) + LastGroups(s)
  }

  ghost function GroupBase(s: Shape, n: int): int {
    (n - 1) * s.M
  }

  // What the consumer should see ----------------------------------------------------------------

  /** Row y of the image with its edges replicated. */
  ghost function Clamped(s: Shape, f: int -> Row, y: int): Row {
    if y < 0 then f(0) else if y >= s.height then f(s.height - 1) else f(y)
  }

  /** Row y as seen around a group of the last iMCU row, or of an earlier one: f continues with the
      decoder's padding rows. */
  ghost function Seen(s: Shape, f: int -> Row, last: bool, y: int): Row {
    if y < 0 then f(0) else if y >= s.height && last then f(s.height - 1) else f(y)
  }

  ghost predicate InLast(s: Shape, g: int) {
    g >= (s.total - 1) * s.M
  }

  /** Row group g with a row group of context above and below. */
  ghost function Window(s: Shape, f: int -> Row, g: int): (r: seq<Row>) {
    seq(3 * s.rgroup, i requires 0 <= i < 3 * s.rgroup => Seen(s, f, InLast(s, g), g * s.rgroup - s.rgroup + i))
  }

  ghost function Windows(s: Shape, f: int -> Row, g: int, count: nat): (r: seq<seq<Row>>)
    ensures |r| == count
  {
    seq(count, k requires 0 <= k < count => Window(s, f, g + k))
  }

  lemma WindowsConcat(s: Shape, f: int -> Row, g: int, m: nat, n: nat)
    ensures Windows(s, f, g, m) + Windows(s, f, g + m, n) == Windows(s, f, g, m + n)
  {
    hide Window;
  }

  // The row lists --------------------------------------------------------------------------------

  /** Workspace row at position x of row list w: the second list has its last four row groups
      in swapped order. */
  function Physical(s: Shape, w: int, x: int): int {
    var n := IMCUHeight(s);
    if w == 0 || x < n - 2 * s.rgroup then x
    else if x < n then x + 2 * s.rgroup
    else x - 2 * s.rgroup
  }

  ghost predicate Sizes(s: Shape, a: seq<int>) {
    |a| == IMCUHeight(s) + 4 * s.rgroup
  }

  function At(s: Shape, a: seq<int>, x: int): int {
    if 0 <= x + s.rgroup < |a| then a[x + s.rgroup] else -1
  }

  lemma GetAt(s: Shape, a: seq<int>, x: int)
    requires 0 <= x + s.rgroup < |a|
    ensures At(s, a, x) == a[x + s.rgroup]
  {
  }

  lemma PutAt(s: Shape, a: seq<int>, k: int, v: int)
    requires 0 <= k < |a|
    ensures forall x {:trigger At(s, a[k := v], x)} ::
              At(s, a[k := v], x) == if x + s.rgroup == k then v else At(s, a, x)
  {
    forall x ensures At(s, a[k := v], x) == if x + s.rgroup == k then v else At(s, a, x) {
      PutOne(s, a, k, v, x);
    }
  }

  lemma PutOne(s: Shape, a: seq<int>, k: int, v: int, x: int)
    requires 0 <= k < |a|
    ensures At(s, a[k := v], x) == if x + s.rgroup == k then v else At(s, a, x)
  {
    var b := a[k := v];
    assert |b| == |a|;
    if 0 <= x + s.rgroup < |a| && x + s.rgroup != k {
      assert b[x + s.rgroup] == a[x + s.rgroup];
    }
  }

  /** Positions 0 to M + 1; a list starts at position -rgroup. */
  ghost predicate Core(s: Shape, a: seq<int>, w: int) {
    && Sizes(s, a)
    && forall x {:trigger At(s, a, x)} :: 0 <= x < IMCUHeight(s) + 2 * s.rgroup ==> At(s, a, x) == Physical(s, w, x)
  }

  /** The state for the top of the image: the first row repeated above. */
  ghost predicate Top(s: Shape, a: seq<int>) {
    Core(s, a, 0) && forall x {:trigger At(s, a, x)} :: 0 - s.rgroup <= x < 0 ==> At(s, a, x) == 0
  }

  /** The normal state: the ends wrap around. */
  ghost predicate Wrapped(s: Shape, a: seq<int>, w: int) {
    && Core(s, a, w)
    && (forall x {:trigger At(s, a, x)} :: 0 - s.rgroup <= x < 0 ==>
          At(s, a, x) == Physical(s, w, x + IMCUHeight(s) + 2 * s.rgroup))
    && forall x {:trigger At(s, a, x)} :: IMCUHeight(s) + 2 * s.rgroup <= x < IMCUHeight(s) + 3 * s.rgroup ==>
         At(s, a, x) == Physical(s, w, x - IMCUHeight(s) - 2 * s.rgroup)
  }

  lemma Sized(s: Shape)
    requires Good(s)
    ensures IMCUHeight(s) >= 2 * s.rgroup
    ensures s.rgroup * (s.M - 2) == IMCUHeight(s) - 2 * s.rgroup
    ensures s.rgroup * (s.M - 1) == IMCUHeight(s) - s.rgroup
    ensures s.rgroup * (s.M + 1) == IMCUHeight(s) + s.rgroup
    ensures s.rgroup * (s.M + 2) == IMCUHeight(s) + 2 * s.rgroup
    ensures s.rgroup * (s.M + 4) == IMCUHeight(s) + 4 * s.rgroup
  {
    assert s.rgroup * s.M >= s.rgroup * 2;
  }

  // What the workspace holds --------------------------------------------------------------------------

  /** The iMCU row read last, number n - 1, at positions 0 to M - 1. */
  ghost predicate Loaded(s: Shape, f: int -> Row, b: seq<Row>, w: int, n: int) {
    && |b| == IMCUHeight(s) + 2 * s.rgroup && IMCUHeight(s) >= 2 * s.rgroup
    && forall x :: 0 <= x < IMCUHeight(s) ==> b[Physical(s, w, x)] == f(Base(s, n - 1) + x)
  }

  /** The last two row groups of the first n iMCU rows, at positions M and M + 1. */
  ghost predicate Saved(s: Shape, f: int -> Row, b: seq<Row>, w: int, n: int) {
    && |b| == IMCUHeight(s) + 2 * s.rgroup && IMCUHeight(s) >= 2 * s.rgroup
    && forall x :: IMCUHeight(s) <= x < |b| ==>
         b[Physical(s, w, x)] == f(Base(s, n) - 2 * s.rgroup - IMCUHeight(s) + x)
  }

  /** Positions lo to hi - 1 of the list show the image from row off + lo on. */
  ghost predicate Shows(s: Shape, f: int -> Row, a: seq<int>, b: seq<Row>, lo: int, hi: int, off: int, last: bool) {
    forall x :: lo <= x < hi ==> 0 <= At(s, a, x) < |b| && b[At(s, a, x)] == Seen(s, f, last, off + x)
  }

  /** The iMCU row itself, and one group above it. */
  lemma ShowsRow(s: Shape, f: int -> Row, a: seq<int>, b: seq<Row>, w: int, n: int)
    requires Good(s) && Loaded(s, f, b, w, n) && 1 <= n <= s.total && 0 <= w <= 1
    requires if n == 1 then w == 0 && Top(s, a) else Wrapped(s, a, w) && Saved(s, f, b, w, n - 1)
    ensures var rows := if n < s.total then IMCUHeight(s) else LastRows(s);
      Shows(s, f, a, b, 0 - s.rgroup, rows, Base(s, n - 1), n == s.total)
  {
    BeforeEnd(s, n);
    hide IMCUHeight, Base, LastRows;
    var big := IMCUHeight(s);
    forall x | 0 - s.rgroup <= x < (if n < s.total then big else LastRows(s))
      ensures 0 <= At(s, a, x) < |b| && b[At(s, a, x)] == Seen(s, f, n == s.total, Base(s, n - 1) + x)
    {
      if x >= 0 {
        assert At(s, a, x) == Physical(s, w, x);
      } else if n == 1 {
        assert At(s, a, x) == 0 == Physical(s, w, 0);
      } else {
        assert At(s, a, x) == Physical(s, w, x + big + 2 * s.rgroup);
      }
    }
  }

  /** Where iMCU row n - 1 lies in the image. */
  lemma BeforeEnd(s: Shape, n: int)
    requires Good(s) && 1 <= n <= s.total
    ensures IMCUHeight(s) >= 2 * s.rgroup
    ensures Base(s, n) == Base(s, n - 1) + IMCUHeight(s) && Base(s, 0) == 0
    ensures n < s.total ==> Base(s, n) < s.height
    ensures n == s.total ==> s.height == Base(s, n - 1) + LastRows(s)
    ensures n > 1 ==> Base(s, n - 1) >= IMCUHeight(s)
    ensures 0 < LastRows(s) <= IMCUHeight(s)
  {
    Sized(s);
    hide IMCUHeight;
    var big := IMCUHeight(s);
    if n < s.total {
      MulLe(n, s.total - 1, big);
    }
    if n > 1 {
      MulLe(1, n - 1, big);
    }
    OneMore(n, big);
  }

  lemma OneMore(n: int, k: int)
    ensures n * k == (n - 1) * k + k
  {
  }

  /** The postponed row group, between the two last saved and the first new one. */
  lemma ShowsPostponed(s: Shape, f: int -> Row, a: seq<int>, b: seq<Row>, w: int, n: int)
    requires Good(s) && Loaded(s, f, b, w, n) && 2 <= n <= s.total && 0 <= w <= 1
    requires Wrapped(s, a, w) && Saved(s, f, b, w, n - 1)
    ensures Shows(s, f, a, b, IMCUHeight(s), IMCUHeight(s) + 3 * s.rgroup,
                  Base(s, n - 1) - 2 * s.rgroup - IMCUHeight(s), false)
  {
    BeforeEnd(s, n);
    hide IMCUHeight, Base, LastRows;
    var big := IMCUHeight(s);
    forall x | big <= x < big + 3 * s.rgroup
      ensures 0 <= At(s, a, x) < |b| && b[At(s, a, x)] == Seen(s, f, false, Base(s, n - 1) - 2 * s.rgroup - big + x)
    {
      if x < big + 2 * s.rgroup {
        assert At(s, a, x) == Physical(s, w, x);
      } else {
        assert At(s, a, x) == Physical(s, w, x - big - 2 * s.rgroup);
      }
    }
  }

  /** The other list finds the last two groups just read at positions M and M + 1. */
  lemma Flip(s: Shape, f: int -> Row, b: seq<Row>, w: int, n: int)
    requires Good(s) && Loaded(s, f, b, w, n) && 1 <= n <= s.total && 0 <= w <= 1
    ensures Saved(s, f, b, 1 - w, n)
  {
    BeforeEnd(s, n);
    hide IMCUHeight, Base, LastRows;
    var big, other := IMCUHeight(s), 1 - w;
    forall x | big <= x < |b| ensures b[Physical(s, other, x)] == f(Base(s, n) - 2 * s.rgroup - big + x) {
      assert Physical(s, other, x) == Physical(s, w, x - 2 * s.rgroup);
    }
  }

  /** Repeating the last real row two row groups long. */
  ghost predicate Bottomed(s: Shape, a: seq<int>, was: seq<int>) {
    && Sizes(s, a) && Sizes(s, was)
    && (forall x {:trigger At(s, a, x)} :: 0 - s.rgroup <= x < LastRows(s) ==> At(s, a, x) == At(s, was, x))
    && forall x {:trigger At(s, a, x)} :: LastRows(s) <= x < LastRows(s) + 2 * s.rgroup ==>
        At(s, a, x) == At(s, was, LastRows(s) - 1)
  }

  lemma ShowsBottom(s: Shape, f: int -> Row, a: seq<int>, was: seq<int>, b: seq<Row>)
    requires Good(s) && Bottomed(s, a, was)
    requires Shows(s, f, was, b, 0 - s.rgroup, LastRows(s), Base(s, s.total - 1), true)
    ensures Shows(s, f, a, b, 0 - s.rgroup, LastRows(s) + 2 * s.rgroup, Base(s, s.total - 1), true)
  {
    BeforeEnd(s, s.total);
    hide IMCUHeight, Base, LastRows, At;
    var left := LastRows(s);
    forall x | 0 - s.rgroup <= x < left + 2 * s.rgroup
      ensures 0 <= At(s, a, x) < |b| && b[At(s, a, x)] == Seen(s, f, true, Base(s, s.total - 1) + x)
    {
      if x >= left {
        assert At(s, a, x) == At(s, was, left - 1);
      } else {
        assert At(s, a, x) == At(s, was, x);
      }
    }
  }

  // Row groups ---------------------------------------------------------------------------------------

  /** Group c of iMCU row n - 1, and the group before its first. */
  lemma GroupOf(s: Shape, n: int, c: int)
    requires Good(s) && 1 <= n <= s.total && -1 <= c < s.M
    ensures InLast(s, GroupBase(s, n) + c) <==> n == s.total && c >= 0
    ensures (GroupBase(s, n) + c) * s.rgroup == Base(s, n - 1) + s.rgroup * c
  {
    if n < s.total {
      MulLe(n, s.total - 1, s.M);
      OneMore(n, s.M);
    }
    Regroup(n - 1, s.M, c, s.rgroup);
  }

  lemma Regroup(n: int, m: int, c: int, r: int)
    ensures (n * m + c) * r == n * (r * m) + r * c
  {
  }

  /** The window of the list at group position c is that of group first + c. */
  ghost predicate Ready(s: Shape, f: int -> Row, a: seq<int>, b: seq<Row>, c: int, first: int) {
    var at := s.rgroup * c;
    Shows(s, f, a, b, at - s.rgroup, at + 2 * s.rgroup, (first + c) * s.rgroup - at, InLast(s, first + c))
  }

  ghost predicate AllReady(s: Shape, f: int -> Row, a: seq<int>, b: seq<Row>, lo: int, hi: int, first: int) {
    forall c :: lo <= c < hi ==> Ready(s, f, a, b, c, first)
  }

  lemma OneReady(s: Shape,
                 f: int -> Row, a: seq<int>, b: seq<Row>, c: int, first: int, lo: int, hi: int, off: int, last: bool)
    requires Shows(s, f, a, b, lo, hi, off, last) && lo <= s.rgroup * c - s.rgroup && s.rgroup * c + 2 * s.rgroup <= hi
    requires (first + c) * s.rgroup == off + s.rgroup * c && InLast(s, first + c) == last
    ensures Ready(s, f, a, b, c, first)
  {
    hide InLast, Seen, At;
  }

  lemma Inside(c: int, m: int, r: int)
    requires 0 <= c <= m && r >= 0
    ensures 0 <= r * c <= r * m
  {
    MulLe(0, c, r);
    MulLe(c, m, r);
  }

  lemma RowIsReady(s: Shape, f: int -> Row, a: seq<int>, b: seq<Row>, n: int)
    requires Good(s) && 1 <= n < s.total
    requires Shows(s, f, a, b, 0 - s.rgroup, IMCUHeight(s), Base(s, n - 1), false)
    ensures AllReady(s, f, a, b, 0, s.M - 1, GroupBase(s, n))
  {
    forall c | 0 <= c < s.M - 1 ensures Ready(s, f, a, b, c, GroupBase(s, n)) {
      GroupOf(s, n, c);
      Inside(c, s.M - 2, s.rgroup);
      Sized(s);
      hide IMCUHeight, Base, InLast, GroupBase, Seen, At, Ready, Shows;
      OneReady(s, f, a, b, c, GroupBase(s, n), 0 - s.rgroup, IMCUHeight(s), Base(s, n - 1), false);
    }
  }

  lemma LastIsReady(s: Shape, f: int -> Row, a: seq<int>, b: seq<Row>)
    requires Good(s)
    requires Shows(s, f, a, b, 0 - s.rgroup, LastRows(s) + 2 * s.rgroup, Base(s, s.total - 1), true)
    ensures AllReady(s, f, a, b, 0, LastGroups(s), GroupBase(s, s.total)) && 1 <= LastGroups(s) <= s.M
  {
    DividedUp(LastRows(s) - 1, s.rgroup, s.M);
    forall c | 0 <= c < LastGroups(s) ensures Ready(s, f, a, b, c, GroupBase(s, s.total)) {
      GroupOf(s, s.total, c);
      Inside(c, LastGroups(s) - 1, s.rgroup);
      hide IMCUHeight, Base, InLast, GroupBase, Seen, At, Ready, Shows, LastRows;
      OneReady(s, f, a, b, c, GroupBase(s, s.total), 0 - s.rgroup, LastRows(s) + 2 * s.rgroup, Base(s, s.total - 1),
               true);
    }
  }

  lemma DividedUp(x: int, r: int, m: int)
    requires r > 0 && 0 <= x < r * m
    ensures 0 <= x / r < m && r * (x / r) <= x
  {
    var q := x / r;
    assert x == r * q + x % r;
    if q >= m {
      MulLe(m, q, r);
    }
  }

  lemma PostponedIsReady(s: Shape, f: int -> Row, a: seq<int>, b: seq<Row>, n: int)
    requires Good(s) && 2 <= n <= s.total
    requires Shows(s, f, a, b, IMCUHeight(s), IMCUHeight(s) + 3 * s.rgroup,
                   Base(s, n - 1) - 2 * s.rgroup - IMCUHeight(s), false)
    ensures AllReady(s, f, a, b, s.M + 1, s.M + 2, GroupBase(s, n) - s.M - 2)
  {
    GroupOf(s, n, -1);
    Sized(s);
    hide IMCUHeight, Base, InLast, GroupBase, Seen, At, Ready, Shows;
    OneReady(s, f, a, b, s.M + 1, GroupBase(s, n) - s.M - 2, IMCUHeight(s), IMCUHeight(s) + 3 * s.rgroup,
             Base(s, n - 1) - 2 * s.rgroup - IMCUHeight(s), false);
  }

  // What the windows mean -------------------------------------------------------------------------------

  /** The immediate neighbours are always true: the group's own rows, the row group above and the
      row just below are those of the image with its edges replicated. */
  lemma NeighboursAreTrue(s: Shape, f: int -> Row, g: int, i: int)
    requires Good(s) && 0 <= g < Groups(s) && 0 <= i <= 2 * s.rgroup
    ensures Window(s, f, g)[i] == Clamped(s, f, g * s.rgroup - s.rgroup + i)
  {
    var below := g * s.rgroup;
    if !InLast(s, g) {
      BelowLast(s, g);
      assert below + s.rgroup < s.height;
    }
    hide InLast, LastRows, Base, Groups, Good;
    assert Window(s, f, g)[i] == Seen(s, f, InLast(s, g), below - s.rgroup + i);
  }

  lemma BelowLast(s: Shape, g: int)
    requires Good(s) && !InLast(s, g)
    ensures (g + 1) * s.rgroup <= Base(s, s.total - 1) && g * s.rgroup + s.rgroup == (g + 1) * s.rgroup
    ensures g + 1 < (s.total - 1) * s.M ==> (g + 2) * s.rgroup <= Base(s, s.total - 1)
    ensures (g + 2) * s.rgroup == g * s.rgroup + 2 * s.rgroup
    ensures g + 1 == (s.total - 1) * s.M ==> (g + 1) * s.rgroup == Base(s, s.total - 1)
  {
    var t, r, m := s.total - 1, s.rgroup, s.M;
    MulLe(g + 1, t * m, r);
    Regroup(t, m, 0, r);
    if g + 1 < t * m {
      MulLe(g + 2, t * m, r);
    }
  }

  /** The row group g is shown as in the image with its edges replicated, with a whole row group of
      context above and below. */
  ghost predicate ContextIsTrue(s: Shape, f: int -> Row, g: int) {
    forall i :: 0 <= i < 3 * s.rgroup ==> Window(s, f, g)[i] == Clamped(s, f, g * s.rgroup - s.rgroup + i)
  }

  /** Just above a last iMCU row of less than one row group the decoder's padding rows show, before the
      bottom has been set. */
  ghost predicate AbovePadding(s: Shape, g: int) {
    LastRows(s) < s.rgroup && g + 1 == (s.total - 1) * s.M
  }

  /** Everywhere else the whole context is true, whatever the padding rows hold. */
  lemma ContextHolds(s: Shape, f: int -> Row, g: int)
    requires Good(s) && 0 <= g < Groups(s) && !AbovePadding(s, g)
    ensures ContextIsTrue(s, f, g)
  {
    var at := g * s.rgroup - s.rgroup;
    forall i | 0 <= i < 3 * s.rgroup ensures Window(s, f, g)[i] == Seen(s, f, InLast(s, g), at + i) {
    }
    if !InLast(s, g) {
      PaddingBelow(s, g, at);
    }
  }

  /** The exact condition: the padding rows that show are copies of the last real row. */
  lemma ContextIsTrueWhen(s: Shape, f: int -> Row, g: int)
    requires Good(s) && 0 <= g < Groups(s)
    ensures ContextIsTrue(s, f, g) <==>
            (AbovePadding(s, g) ==>
               forall y :: s.height <= y < s.height + s.rgroup - LastRows(s) ==> f(y) == f(s.height - 1))
  {
    if !AbovePadding(s, g) {
      ContextHolds(s, f, g);
    } else {
      var at := g * s.rgroup - s.rgroup;
      BelowMeansEarlier(s, g);
      PaddingBelow(s, g, at);
      forall i | 0 <= i < 3 * s.rgroup ensures Window(s, f, g)[i] == Seen(s, f, false, at + i) {
      }
      hide Window, InLast, LastRows, Base, Groups;
      if ContextIsTrue(s, f, g) {
        forall y | s.height <= y < s.height + s.rgroup - LastRows(s) ensures f(y) == f(s.height - 1) {
          assert Window(s, f, g)[y - at] == Seen(s, f, false, y);
        }
      }
    }
  }

  lemma BelowMeansEarlier(s: Shape, g: int)
    requires g + 1 == (s.total - 1) * s.M
    ensures !InLast(s, g)
  {
  }

  /** So the promise of a whole row group of replicated context can fail: an image of 17 rows, two to a
      row group, eight row groups to an iMCU row, whose rows all differ. */
  lemma ContextCanFail()
    ensures var s, f := ShapeOf(2, 8, 17, 16), (y: int) => [y];
      Good(s) && 7 < Groups(s) && Window(s, f, 7)[5] == [17] && Clamped(s, f, 7 * s.rgroup - s.rgroup + 5) == [16]
    ensures !ContextIsTrue(ShapeOf(2, 8, 17, 16), (y: int) => [y], 7)
  {
    ImageShape(2, 8, 17, 16);
    var s, f := ShapeOf(2, 8, 17, 16), (y: int) => [y];
    assert s == Shape(2, 8, 17, 2);
    assert Window(s, f, 7)[5] == Seen(s, f, InLast(s, 7), 17);
  }

  lemma PaddingBelow(s: Shape, g: int, at: int)
    requires Good(s) && !InLast(s, g) && at == g * s.rgroup - s.rgroup
    ensures LastRows(s) >= s.rgroup || g + 1 != (s.total - 1) * s.M ==> at + 3 * s.rgroup <= s.height
    ensures LastRows(s) < s.rgroup && g + 1 == (s.total - 1) * s.M ==> at + LastRows(s) + 2 * s.rgroup == s.height
    ensures 0 < LastRows(s)
  {
    BelowLast(s, g);
  }

  /** One component of an image: rgroup * M is v_samp_factor * DCT_v_scaled_size, and unit is
      max_v_samp_factor * block_size. */
  function ShapeOf(rgroup: nat, M: nat, image_height: nat, unit: nat): (s: Shape)
    requires unit > 0
  {
    var height, total := RoundUp(image_height * (rgroup * M), unit), RoundUp(image_height, unit);
    if height < 0 || total < 0 then Shape(rgroup, M, 0, 0) else Shape(rgroup, M, height, total)
  }

  /** Every image gives a good shape, and every component of it the same number of row groups. */
  lemma ImageShape(rgroup: nat, M: nat, image_height: nat, unit: nat)
    requires rgroup > 0 && M >= 2 && image_height > 0 && unit > 0
    ensures Good(ShapeOf(rgroup, M, image_height, unit))
    ensures Groups(ShapeOf(rgroup, M, image_height, unit)) == RoundUp(image_height * M, unit)
  {
    var n, t := rgroup * M, RoundUp(image_height, unit);
    RoundUpIs(image_height, unit, t);
    MulLe(1, rgroup, M);
    RoundUpScaled(image_height, n, t, unit);
    RoundUpScaled(image_height * M, rgroup, RoundUp(image_height * M, unit), unit);
    RoundUpIs(image_height * M, unit, RoundUp(image_height * M, unit));
    MulAssoc(image_height, M, rgroup);
    assert M * rgroup == n;
    var h := RoundUp(image_height * n, unit);
    CountGroups(t - 1, M, rgroup, h, RoundUp(image_height * M, unit));
  }

  lemma CountGroups(t: int, m: int, r: int, h: int, q: int)
    requires r > 0 && (q - 1) * r < h <= q * r
    ensures t * m + (h - t * (r * m) - 1) / r + 1 == q
  {
    Regroup(t, m, 0, r);
    var x := h - t * (r * m) - 1;
    Split(q - 1, t * m, r);
    OneMore(q, r);
    ModUnique(x, r, q - 1 - t * m, x - (q - 1 - t * m) * r);
  }

  lemma Split(q: int, p: int, r: int)
    ensures (q - p) * r == q * r - p * r
  {
  }
}
