/**
  The sphere mesh: a grid of vertices, and two triangles for every cell of the grid.
 */
module SphereGeometry {

  function Parallels(slices: nat): nat {
    slices / 2
  }

  function VertexCount(slices: nat): nat {
    (Parallels(slices) + 1) * (slices + 1)
  }

  /** A point of the grid, and its slot. */
  datatype Point = Point(row: nat, col: nat)

  function Slot(slices: nat, p: Point): nat {
    p.row * (slices + 1) + p.col
  }

  predicate OnGrid(slices: nat, p: Point) {
    p.row <= Parallels(slices) && p.col <= slices
  }

  /** The six corners of the two triangles of a cell, in the order they are emitted. */
  function Corner(i: nat, j: nat, r: nat): Point {
    match r
    case 0 => Point(i, j)
    case 1 => Point(i + 1, j)
    case 2 => Point(i + 1, j + 1)
    case 3 => Point(i, j)
    case 4 => Point(i + 1, j + 1)
    case _ => Point(i, j + 1)
  }

  /** The conversion to a 16-bit index. */
  function Short(n: nat): nat {
    n % 0x10000
  }

  function Cell(slices: nat, i: nat, j: nat): seq<nat> {
    [Short(Slot(slices, Point(i, j))), Short(Slot(slices, Point(i + 1, j))), Short(Slot(slices, Point(i + 1, j + 1))),
     Short(Slot(slices, Point(i, j))), Short(Slot(slices, Point(i + 1, j + 1))), Short(Slot(slices, Point(i, j + 1)))]
  }

  function RowCells(slices: nat, i: nat, n: nat): seq<nat> {
    if n == 0 then [] else RowCells(slices, i, n - 1) + Cell(slices, i, n - 1)
  }

  function Rows(slices: nat, n: nat): seq<nat> {
    if n == 0 then [] else Rows(slices, n - 1) + RowCells(slices, n - 1, slices)
  }

  // ----- the slots

  lemma SlotOnGrid(slices: nat, p: Point)
    requires OnGrid(slices, p)
    ensures Slot(slices, p) < VertexCount(slices)
  {
    var w := slices + 1;
    assert (p.row + 1) * w <= (Parallels(slices) + 1) * w;
    assert (p.row + 1) * w == p.row * w + w;
  }

  /** A later row starts behind the last point of an earlier one. */
  lemma RowsApart(w: nat, row: nat, later: nat)
    requires row < later
    ensures row * w + w <= later * w
  {
    assert (row + 1) * w <= later * w;
  }

  /** Different points of the grid have different slots. */
  lemma SlotInjective(slices: nat, p: Point, q: Point)
    requires p.col <= slices && q.col <= slices
    ensures Slot(slices, p) == Slot(slices, q) ==> p == q
  {
    if p.row < q.row {
      RowsApart(slices + 1, p.row, q.row);
    } else if q.row < p.row {
      RowsApart(slices + 1, q.row, p.row);
    }
  }

  /** Every slot belongs to a point of the grid. */
  lemma SlotSurjective(slices: nat, n: nat) returns (p: Point)
    requires n < VertexCount(slices)
    ensures OnGrid(slices, p) && Slot(slices, p) == n
  {
    var w := slices + 1;
    p := Point(n / w, n % w);
    Divided(n, w, Parallels(slices) + 1);
  }

  lemma Divided(n: nat, w: nat, c: nat)
    requires 0 < w && n < c * w
    ensures n == (n / w) * w + n % w && n / w < c
  {
    Smaller(n / w, c, w);
  }

  lemma Smaller(a: nat, c: nat, w: nat)
    requires a * w < c * w
    ensures a < c
  {
  }

  // ----- the edges of the triangles

  function Following(r: nat): nat {
    match r
    case 0 => 1
    case 1 => 2
    case 2 => 0
    case 3 => 4
    case 4 => 5
    case _ => 3
  }

  /** A directed edge: side `r` of cell (i, j). */
  datatype Edge = Edge(from: Point, to: Point)

  function Side(i: nat, j: nat, r: nat): Edge {
    Edge(Corner(i, j, r), Corner(i, j, Following(r)))
  }

  predicate IsCell(slices: nat, i: nat, j: nat, r: nat) {
    i < Parallels(slices) && j < slices && r < 6
  }

  lemma CornerOnGrid(slices: nat, i: nat, j: nat, r: nat)
    requires IsCell(slices, i, j, r)
    ensures OnGrid(slices, Corner(i, j, r))
  {
  }

  /** No two triangles run along the same edge in the same direction. */
  lemma SidesDistinct(slices: nat, i: nat, j: nat, r: nat, k: nat, l: nat, q: nat)
    requires IsCell(slices, i, j, r) && IsCell(slices, k, l, q) && Side(i, j, r) == Side(k, l, q)
    ensures i == k && j == l && r == q
  {
  }

  /** The edge lies on the border of the grid. */
  predicate Border(slices: nat, e: Edge) {
    || e.from.row == e.to.row == 0
    || e.from.row == e.to.row == Parallels(slices)
    || e.from.col == e.to.col == 0
    || e.from.col == e.to.col == slices
  }

  ghost predicate Used(slices: nat, e: Edge) {
    exists i, j, r :: IsCell(slices, i, j, r) && Side(i, j, r) == e
  }

  function Reversed(e: Edge): Edge {
    Edge(e.to, e.from)
  }

  /** The cell and side that run along a given side the other way. */
  function Twin(i: nat, j: nat, r: nat): (int, int, nat) {
    match r
    case 0 => (i, j - 1, 4)
    case 1 => (i + 1, j, 5)
    case 2 => (i, j, 3)
    case 3 => (i, j, 2)
    case 4 => (i, j + 1, 0)
    case _ => (i - 1, j, 1)
  }

  /** An edge is also used the other way exactly when it is not on the border. */
  lemma InteriorEdges(slices: nat, i: nat, j: nat, r: nat)
    requires IsCell(slices, i, j, r)
    ensures Used(slices, Reversed(Side(i, j, r))) <==> !Border(slices, Side(i, j, r))
  {
    var (k, l, q) := Twin(i, j, r);
    if !Border(slices, Side(i, j, r)) {
      assert IsCell(slices, k, l, q) && Side(k, l, q) == Reversed(Side(i, j, r));
    }
    if Used(slices, Reversed(Side(i, j, r))) {
      var a: nat, b: nat, c: nat :| IsCell(slices, a, b, c) && Side(a, b, c) == Reversed(Side(i, j, r));
      assert (a, b, c) == (k, l, q);
    }
  }

  // ----- sixteen bits

  lemma Product(a: nat, b: nat, c: nat, d: nat)
    requires a <= c && b <= d
    ensures a * b <= c * d
  {
    assert a * b <= c * b;
    assert c * b <= c * d;
  }

  /** Every index survives the conversion exactly up to 361 slices. */
  lemma ShortLossless(slices: nat)
    ensures slices <= 361 <==>
      forall i, j, r :: IsCell(slices, i, j, r) ==> Short(Slot(slices, Corner(i, j, r))) == Slot(slices, Corner(i, j, r))
  {
    var p := Parallels(slices);
    if slices <= 361 {
      Product(p + 1, slices + 1, 181, 362);
      forall i, j, r | IsCell(slices, i, j, r)
        ensures Short(Slot(slices, Corner(i, j, r))) == Slot(slices, Corner(i, j, r))
      {
        CornerOnGrid(slices, i, j, r);
        SlotOnGrid(slices, Corner(i, j, r));
      }
    } else {
      Product(181, 363, p, slices + 1);
      assert IsCell(slices, p - 1, slices - 1, 2);
      assert Corner(p - 1, slices - 1, 2) == Point(p, slices);
      assert Slot(slices, Corner(p - 1, slices - 1, 2)) >= 0x10000;
    }
  }

  // ----- the index list

  function At(slices: nat, i: nat, j: nat, r: nat): nat {
    6 * (i * slices + j) + r
  }

  lemma {:induction false} RowCellsAt(slices: nat, i: nat, n: nat, j: nat, r: nat)
    requires j < n && r < 6
    ensures |RowCells(slices, i, n)| == 6 * n
    ensures RowCells(slices, i, n)[6 * j + r] == Short(Slot(slices, Corner(i, j, r)))
  {
    RowCellsLength(slices, i, n - 1);
    if j < n - 1 {
      RowCellsAt(slices, i, n - 1, j, r);
    } else {
      assert RowCells(slices, i, n)[6 * j + r] == Cell(slices, i, j)[r];
    }
  }

  lemma {:induction false} RowCellsLength(slices: nat, i: nat, n: nat)
    ensures |RowCells(slices, i, n)| == 6 * n
  {
    if n > 0 {
      RowCellsLength(slices, i, n - 1);
    }
  }

  lemma {:induction false} RowsLength(slices: nat, n: nat)
    ensures |Rows(slices, n)| == At(slices, n, 0, 0)
  {
    if n > 0 {
      RowsLength(slices, n - 1);
      RowCellsLength(slices, n - 1, slices);
      assert n * slices == (n - 1) * slices + slices;
    }
  }

  lemma RowsLast(slices: nat, n: nat, j: nat, r: nat)
    requires j < slices && r < 6
    ensures At(slices, n, j, r) < |Rows(slices, n + 1)|
    ensures Rows(slices, n + 1)[At(slices, n, j, r)] == Short(Slot(slices, Corner(n, j, r)))
  {
    RowsLength(slices, n);
    RowCellsAt(slices, n, slices, j, r);
    assert At(slices, n, j, r) == |Rows(slices, n)| + (6 * j + r);
  }

  lemma {:induction false} RowsAt(slices: nat, n: nat, i: nat, j: nat, r: nat)
    requires i < n && j < slices && r < 6
    ensures At(slices, i, j, r) < |Rows(slices, n)|
    ensures Rows(slices, n)[At(slices, i, j, r)] == Short(Slot(slices, Corner(i, j, r)))
  {
    if i < n - 1 {
      RowsAt(slices, n - 1, i, j, r);
    } else {
      RowsLast(slices, i, j, r);
    }
  }

  /** Every position of the list belongs to a side of a cell. */
  lemma Located(slices: nat, n: nat, m: nat) returns (i: nat, j: nat, r: nat)
    requires m < At(slices, n, 0, 0)
    ensures i < n && j < slices && r < 6 && m == At(slices, i, j, r)
  {
    r := m % 6;
    var c := m / 6;
    assert slices != 0;
    Divided(c, slices, n);
    i, j := c / slices, c % slices;
  }

  /** The next corner of the same triangle. */
  function Next(m: nat): nat {
    if m % 3 == 2 then m - 2 else m + 1
  }

  lemma NextAt(slices: nat, i: nat, j: nat, r: nat)
    requires r < 6
    ensures Next(At(slices, i, j, r)) == At(slices, i, j, Following(r))
  {
    NextOf(i * slices + j, r);
  }

  lemma NextOf(c: nat, r: nat)
    requires r < 6
    ensures Next(6 * c + r) == 6 * c + Following(r)
  {
    assert (6 * c + r) % 3 == r % 3;
  }

  function Indices(slices: nat): seq<nat> {
    Rows(slices, Parallels(slices))
  }

  /** Every index names a vertex, with or without loss in the conversion. */
  lemma IndexInRange(slices: nat, m: nat)
    requires m < |Indices(slices)|
    ensures Indices(slices)[m] < VertexCount(slices)
  {
    RowsLength(slices, Parallels(slices));
    var i, j, r := Located(slices, Parallels(slices), m);
    RowsAt(slices, Parallels(slices), i, j, r);
    CornerOnGrid(slices, i, j, r);
    SlotOnGrid(slices, Corner(i, j, r));
    ShortAtMost(Slot(slices, Corner(i, j, r)));
  }

  lemma ShortAtMost(n: nat)
    ensures Short(n) <= n
  {
  }

  // ----- the edges of the emitted list

  /** The pair of indices that the edge starting at position `m` runs along. */
  function IndexPair(slices: nat, m: nat): (nat, nat)
    requires m < |Indices(slices)|
  {
    NextInList(slices, m);
    (Indices(slices)[m], Indices(slices)[Next(m)])
  }

  lemma NextInList(slices: nat, m: nat)
    requires m < |Indices(slices)|
    ensures Next(m) < |Indices(slices)|
  {
    RowsLength(slices, Parallels(slices));
    var i, j, r := Located(slices, Parallels(slices), m);
    NextAt(slices, i, j, r);
    RowsAt(slices, Parallels(slices), i, j, Following(r));
  }

  /** The converted slots at the two ends of an edge. */
  function Ends(slices: nat, e: Edge): (nat, nat) {
    (Short(Slot(slices, e.from)), Short(Slot(slices, e.to)))
  }

  lemma PairAt(slices: nat, i: nat, j: nat, r: nat)
    requires IsCell(slices, i, j, r)
    ensures At(slices, i, j, r) < |Indices(slices)|
    ensures IndexPair(slices, At(slices, i, j, r)) == Ends(slices, Side(i, j, r))
  {
    RowsAt(slices, Parallels(slices), i, j, r);
    RowsAt(slices, Parallels(slices), i, j, Following(r));
    NextAt(slices, i, j, r);
  }

  lemma PairLocated(slices: nat, m: nat) returns (i: nat, j: nat, r: nat)
    requires m < |Indices(slices)|
    ensures IsCell(slices, i, j, r) && m == At(slices, i, j, r)
  {
    RowsLength(slices, Parallels(slices));
    i, j, r := Located(slices, Parallels(slices), m);
  }

  /** Up to 361 slices the pair tells the edge. */
  lemma PairTellsSide(slices: nat, i: nat, j: nat, r: nat, e: Edge)
    requires slices <= 361 && IsCell(slices, i, j, r) && OnGrid(slices, e.from) && OnGrid(slices, e.to)
    requires IndexPair(slices, PairIndex(slices, i, j, r)) == (Slot(slices, e.from), Slot(slices, e.to))
    ensures e == Side(i, j, r)
  {
    PairAt(slices, i, j, r);
    ShortLossless(slices);
    assert IsCell(slices, i, j, Following(r));
    CornerOnGrid(slices, i, j, r);
    CornerOnGrid(slices, i, j, Following(r));
    SlotInjective(slices, Side(i, j, r).from, e.from);
    SlotInjective(slices, Side(i, j, r).to, e.to);
  }

  /** The position of a side. */
  function PairIndex(slices: nat, i: nat, j: nat, r: nat): (m: nat)
    requires IsCell(slices, i, j, r)
    ensures m < |Indices(slices)|
  {
    PairAt(slices, i, j, r);
    At(slices, i, j, r)
  }

  lemma LosslessPair(slices: nat, i: nat, j: nat, r: nat)
    requires slices <= 361 && IsCell(slices, i, j, r)
    ensures OnGrid(slices, Side(i, j, r).from) && OnGrid(slices, Side(i, j, r).to)
    ensures IndexPair(slices, PairIndex(slices, i, j, r)) ==
            (Slot(slices, Side(i, j, r).from), Slot(slices, Side(i, j, r).to))
  {
    PairAt(slices, i, j, r);
    ShortLossless(slices);
    assert IsCell(slices, i, j, Following(r));
    CornerOnGrid(slices, i, j, r);
    CornerOnGrid(slices, i, j, Following(r));
  }

  // ----- no pair twice

  /** No directed pair of indices is run along twice. */
  ghost predicate PairsOnce(slices: nat) {
    forall m, n :: 0 <= m < |Indices(slices)| && 0 <= n < |Indices(slices)| && IndexPair(slices, m) == IndexPair(slices, n)
      ==> m == n
  }

  /** The first slot that loses in the conversion. */
  const LOST := 0x10000

  /** Its grid point. */
  lemma LostPoint(slices: nat) returns (row: nat, col: nat)
    requires slices > 361
    ensures row * (slices + 1) + col == LOST && col <= slices && row < Parallels(slices)
    ensures col == slices ==> row + 1 < Parallels(slices)
  {
    var w, p := slices + 1, Parallels(slices);
    Product(181, 363, p, w);
    Divided(LOST, w, p);
    row, col := LOST / w, LOST % w;
    if col == slices {
      assert (row + 1) * w == row * w + w;
      Smaller(row + 1, p, w);
    }
  }

  lemma ShortPast(n: nat)
    requires LOST <= n < 2 * LOST
    ensures Short(n) == n - LOST == Short(n - LOST)
  {
  }

  /** The side along the top of a cell runs from a slot to the one before it. */
  lemma TopEnds(slices: nat, i: nat, j: nat, n: nat)
    requires i * (slices + 1) + j == n
    ensures Ends(slices, Side(i, j, 5)) == (Short(n + 1), Short(n))
  {
    assert Side(i, j, 5) == Edge(Point(i, j + 1), Point(i, j));
  }

  /** The side along its bottom runs from a slot to the one behind it. */
  lemma BottomEnds(slices: nat, i: nat, j: nat, n: nat)
    requires (i + 1) * (slices + 1) + j == n
    ensures Ends(slices, Side(i, j, 1)) == (Short(n), Short(n + 1))
  {
    assert Side(i, j, 1) == Edge(Point(i + 1, j), Point(i + 1, j + 1));
  }

  lemma NextRow(slices: nat, row: nat, n: nat)
    requires row * (slices + 1) + slices == n
    ensures (row + 1) * (slices + 1) == n + 1
  {
  }

  /** Beyond 361 slices the top of a cell has the ends of the top of a cell in row 0. */
  lemma TopRepeated(slices: nat) returns (j: nat, k: nat, l: nat)
    requires slices > 361
    ensures IsCell(slices, 0, j, 5) && IsCell(slices, k, l, 5) && (k, l) != (0, j)
    ensures Ends(slices, Side(0, j, 5)) == Ends(slices, Side(k, l, 5))
  {
    k, l := LostPoint(slices);
    j := 0;
    if l == slices {
      NextRow(slices, k, LOST);
      j, k, l := 1, k + 1, 0;
    }
    TopEnds(slices, 0, j, j);
    TopEnds(slices, k, l, LOST + j);
    ShortPast(LOST + j);
    ShortPast(LOST + j + 1);
  }

  /** Beyond 361 slices a pair is repeated. */
  lemma PairRepeated(slices: nat) returns (m: nat, n: nat)
    requires slices > 361
    ensures m < |Indices(slices)| && n < |Indices(slices)| && m != n && IndexPair(slices, m) == IndexPair(slices, n)
  {
    var j, k, l := TopRepeated(slices);
    m, n := At(slices, 0, j, 5), At(slices, k, l, 5);
    PairAt(slices, 0, j, 5);
    PairAt(slices, k, l, 5);
    CellsApart(slices, 0, j, k, l);
  }

  lemma CellsApart(slices: nat, i: nat, j: nat, k: nat, l: nat)
    requires j < slices && l < slices && (k, l) != (i, j)
    ensures At(slices, i, j, 5) != At(slices, k, l, 5)
  {
    if i < k {
      RowsApart(slices, i, k);
    } else if k < i {
      RowsApart(slices, k, i);
    }
  }

  /** In the emitted list every directed pair of indices is run along at most once exactly up to 361 slices. */
  lemma MeshOnce(slices: nat)
    ensures PairsOnce(slices) <==> slices <= 361
  {
    if slices <= 361 {
      forall m, n | 0 <= m < |Indices(slices)| && 0 <= n < |Indices(slices)| && IndexPair(slices, m) == IndexPair(slices, n)
        ensures m == n
      {
        var i, j, r := PairLocated(slices, m);
        var k, l, q := PairLocated(slices, n);
        LosslessPair(slices, i, j, r);
        PairTellsSide(slices, k, l, q, Side(i, j, r));
        SidesDistinct(slices, i, j, r, k, l, q);
      }
    } else {
      var m, n := PairRepeated(slices);
    }
  }

  // ----- both ways

  /** The list also runs along the pair at `m` the other way. */
  ghost predicate BothWays(slices: nat, m: nat)
    requires m < |Indices(slices)|
  {
    exists n :: 0 <= n < |Indices(slices)| && IndexPair(slices, n) == (IndexPair(slices, m).1, IndexPair(slices, m).0)
  }

  /** For every number of slices, a side inside the grid is run along both ways. */
  lemma InteriorBothWays(slices: nat, i: nat, j: nat, r: nat)
    requires IsCell(slices, i, j, r) && !Border(slices, Side(i, j, r))
    ensures BothWays(slices, PairIndex(slices, i, j, r))
  {
    InteriorEdges(slices, i, j, r);
    var k: nat, l: nat, q: nat :| IsCell(slices, k, l, q) && Side(k, l, q) == Reversed(Side(i, j, r));
    PairAt(slices, i, j, r);
    PairAt(slices, k, l, q);
  }

  lemma BorderOneWay(slices: nat, i: nat, j: nat, r: nat)
    requires slices <= 361 && IsCell(slices, i, j, r) && BothWays(slices, PairIndex(slices, i, j, r))
    ensures !Border(slices, Side(i, j, r))
  {
    var m := PairIndex(slices, i, j, r);
    var n :| 0 <= n < |Indices(slices)| && IndexPair(slices, n) == (IndexPair(slices, m).1, IndexPair(slices, m).0);
    var k, l, q := PairLocated(slices, n);
    LosslessPair(slices, i, j, r);
    PairTellsSide(slices, k, l, q, Reversed(Side(i, j, r)));
    assert Used(slices, Reversed(Side(i, j, r)));
    InteriorEdges(slices, i, j, r);
  }

  /** Beyond 361 slices the bottom of a cell has the ends of the top of a cell in row 0, the other way. */
  lemma BottomMeetsTop(slices: nat) returns (j: nat, k: nat, l: nat)
    requires slices > 361
    ensures IsCell(slices, 0, j, 5) && IsCell(slices, k, l, 1)
    ensures Ends(slices, Side(k, l, 1)) == (Ends(slices, Side(0, j, 5)).1, Ends(slices, Side(0, j, 5)).0)
  {
    var row, col := LostPoint(slices);
    var n := LOST;
    j, k, l := 0, 0, 0;
    if col == slices {
      NextRow(slices, row, LOST);
      j, k, n := 1, row, LOST + 1;
    } else if row > 0 {
      k, l := row - 1, col;
    } else {
      n := slices + 1;
      j := Short(n);
      ShortWraps(n, j);
    }
    BottomEnds(slices, k, l, n);
    TopEnds(slices, 0, j, j);
  }

  lemma ShortWraps(n: nat, j: nat)
    requires LOST <= n && j == Short(n)
    ensures j <= n - LOST && Short(j) == j && Short(n + 1) == Short(j + 1)
  {
    assert n == LOST * (n / LOST) + j;
  }

  /** Beyond 361 slices some side on the upper border is run along both ways. */
  lemma BorderRepeated(slices: nat) returns (j: nat)
    requires slices > 361
    ensures IsCell(slices, 0, j, 5) && Border(slices, Side(0, j, 5)) && BothWays(slices, PairIndex(slices, 0, j, 5))
  {
    var k, l;
    j, k, l := BottomMeetsTop(slices);
    PairAt(slices, 0, j, 5);
    PairAt(slices, k, l, 1);
  }

  /** The sides that are run along both ways are those inside the grid. */
  ghost predicate ClosedInside(slices: nat) {
    forall i, j, r :: IsCell(slices, i, j, r) ==>
      (BothWays(slices, PairIndex(slices, i, j, r)) <==> !Border(slices, Side(i, j, r)))
  }

  /** In the emitted list the pairs run along both ways are exactly those not on the border, up to 361 slices and no further. */
  lemma MeshClosed(slices: nat)
    ensures ClosedInside(slices) <==> slices <= 361
  {
    if slices <= 361 {
      forall i, j, r | IsCell(slices, i, j, r)
        ensures BothWays(slices, PairIndex(slices, i, j, r)) <==> !Border(slices, Side(i, j, r))
      {
        if Border(slices, Side(i, j, r)) {
          if BothWays(slices, PairIndex(slices, i, j, r)) {
            BorderOneWay(slices, i, j, r);
          }
        } else {
          InteriorBothWays(slices, i, j, r);
        }
      }
    } else {
      var j := BorderRepeated(slices);
    }
  }

  // ----- the two loop nests

  /** `direction` stands for the unit vector of a grid point, `scaled` for its product with the radius. */
  method CreateSphere<V(0)>(slices: nat, direction: Point -> V, scaled: V -> V)
    returns (positions: array<V>, normals: array<V>, indices: seq<nat>)
    ensures fresh(positions) && fresh(normals)
    ensures positions.Length == normals.Length == VertexCount(slices)
    ensures forall p :: OnGrid(slices, p) ==>
              && Slot(slices, p) < VertexCount(slices)
              && normals[Slot(slices, p)] == direction(p) && positions[Slot(slices, p)] == scaled(direction(p))
    ensures indices == Indices(slices) && |indices| == Parallels(slices) * slices * 6
    ensures forall m :: 0 <= m < |indices| ==> indices[m] < VertexCount(slices)
  {
    positions, normals := CreateVertices(slices, direction, scaled);
    indices := CreateIndices(slices);
    RowsLength(slices, Parallels(slices));
    forall m | 0 <= m < |indices|
      ensures indices[m] < VertexCount(slices)
    {
      IndexInRange(slices, m);
    }
  }

  /** The points before (i, j) in the order of the loops. */
  predicate Before(p: Point, i: nat, j: nat) {
    p.row < i || (p.row == i && p.col < j)
  }

  ghost predicate Placed<V>(slices: nat, direction: Point -> V, scaled: V -> V, positions: array<V>, normals: array<V>, p: Point)
    reads positions, normals
  {
    && Slot(slices, p) < positions.Length && Slot(slices, p) < normals.Length
    && normals[Slot(slices, p)] == direction(p) && positions[Slot(slices, p)] == scaled(direction(p))
  }

  method CreateVertices<V(0)>(slices: nat, direction: Point -> V, scaled: V -> V)
    returns (positions: array<V>, normals: array<V>)
    ensures fresh(positions) && fresh(normals)
    ensures positions.Length == normals.Length == VertexCount(slices)
    ensures forall p :: OnGrid(slices, p) ==> Placed(slices, direction, scaled, positions, normals, p)
  {
    positions, normals := new V[VertexCount(slices)], new V[VertexCount(slices)];
    var i := 0;
    while i < Parallels(slices) + 1
      invariant 0 <= i <= Parallels(slices) + 1
      invariant forall p :: OnGrid(slices, p) && Before(p, i, 0) ==> Placed(slices, direction, scaled, positions, normals, p)
    {
      var j := 0;
      while j < slices + 1
        invariant 0 <= j <= slices + 1
        invariant forall p :: OnGrid(slices, p) && Before(p, i, j) ==> Placed(slices, direction, scaled, positions, normals, p)
      {
        var here := Point(i, j);
        SlotOnGrid(slices, here);
        forall p | OnGrid(slices, p) ensures Slot(slices, p) == Slot(slices, here) ==> p == here {
          SlotInjective(slices, p, here);
        }
        var v := direction(here);
        positions[Slot(slices, here)] := scaled(v);
        normals[Slot(slices, here)] := v;
        j := j + 1;
      }
      i := i + 1;
    }
  }

  /** The two triangles of one cell. */
  method PushCell(slices: nat, i: nat, j: nat, before: seq<nat>) returns (indices: seq<nat>)
    ensures indices == before + Cell(slices, i, j)
  {
    indices := before;
    indices := indices + [Short(i * (slices + 1) + j)];
    indices := indices + [Short((i + 1) * (slices + 1) + j)];
    indices := indices + [Short((i + 1) * (slices + 1) + (j + 1))];
    indices := indices + [Short(i * (slices + 1) + j)];
    indices := indices + [Short((i + 1) * (slices + 1) + (j + 1))];
    indices := indices + [Short(i * (slices + 1) + (j + 1))];
  }

  method CreateIndices(slices: nat) returns (indices: seq<nat>)
    ensures indices == Indices(slices)
  {
    indices := [];
    var i := 0;
    while i < Parallels(slices)
      invariant 0 <= i <= Parallels(slices)
      invariant indices == Rows(slices, i)
    {
      var j := 0;
      while j < slices
        invariant 0 <= j <= slices
        invariant indices == Rows(slices, i) + RowCells(slices, i, j)
      {
        indices := PushCell(slices, i, j, indices);
        j := j + 1;
      }
      i := i + 1;
    }
  }
}
