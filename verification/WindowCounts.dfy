/** How many operations a crossing issues: the neighborhoods of the two cells overlap in a box, and
    everything outside the box is removed on one side and added on the other. */
module WindowCounts {
  import opened Spatial
  import opened Window

  /** How many of the listed cells lie in the neighborhood of `o`. */
  function Shared(cells: seq<Cell>, r: nat, o: Cell): nat {
    if cells == [] then 0 else (if Near(r, o, cells[0]) then 1 else 0) + Shared(cells[1..], r, o)
  }

  lemma {:induction false} SharedAppend(a: seq<Cell>, b: seq<Cell>, r: nat, o: Cell)
    ensures Shared(a + b, r, o) == Shared(a, r, o) + Shared(b, r, o)
    decreases |a|
  {
    hide Near;
    if a == [] {
      assert a + b == b;
    } else {
      assert (a + b)[1..] == a[1..] + b;
      SharedAppend(a[1..], b, r, o);
    }
  }

  /** One operation per cell that is not shared. */
  lemma {:induction false} OnePerCell(from: seq<Cell>, r: nat, o: Cell, remove: bool)
    ensures |Differences(from, Neighborhood(r, o), remove)| + Shared(from, r, o) == |from|
    decreases |from|
  {
    hide Neighborhood, Near;
    if from != [] {
      NeighborhoodIsNear(r, o, from[0]);
      OnePerCell(from[1..], r, o, remove);
    }
  }

  /** The common length of [a, a + n) and [b, b + w). */
  function Clip(a: int, n: nat, b: int, w: nat): nat {
    var lo := if a < b then b else a;
    var hi := if a + n < b + w then a + n else b + w;
    if lo < hi then hi - lo else 0
  }

  predicate Within(b: int, w: nat, v: int) { b <= v < b + w }

  lemma {:induction false} SharedRow(x: int, y: int, z: int, n: nat, r: nat, o: Cell)
    ensures Shared(Row(x, y, z, n), r, o)
            == if Within(o.y - r, 2 * r + 1, y) && Within(o.z - r, 2 * r + 1, z)
               then Clip(x, n, o.x - r, 2 * r + 1) else 0
  {
    if n > 0 {
      SharedRow(x, y, z, n - 1, r, o);
      SharedAppend(Row(x, y, z, n - 1), [Cell(x + n - 1, y, z)], r, o);
      assert Shared([Cell(x + n - 1, y, z)], r, o) == if Near(r, o, Cell(x + n - 1, y, z)) then 1 else 0;
    }
  }

  /** One more element adds one to the common length, or nothing. */
  lemma ClipNext(a: int, n: nat, b: int, w: nat, k: nat)
    ensures Clip(a, n + 1, b, w) * k == Clip(a, n, b, w) * k + if Within(b, w, a + n) then k else 0
  {
    assert Clip(a, n + 1, b, w) == Clip(a, n, b, w) + if Within(b, w, a + n) then 1 else 0;
  }

  lemma {:induction false} SharedPlane(x: int, y: int, z: int, w: nat, n: nat, r: nat, o: Cell)
    ensures Shared(Plane(x, y, z, w, n), r, o)
            == if Within(o.z - r, 2 * r + 1, z)
               then Clip(y, n, o.y - r, 2 * r + 1) * Clip(x, w, o.x - r, 2 * r + 1) else 0
  {
    hide Row, Shared, Clip;
    if n == 0 {
      NoneShared(r, o, y, x, w);
    } else {
      SharedPlane(x, y, z, w, n - 1, r, o);
      SharedAppend(Plane(x, y, z, w, n - 1), Row(x, y + n - 1, z, w), r, o);
      SharedRow(x, y + n - 1, z, w, r, o);
      ClipNext(y, n - 1, o.y - r, 2 * r + 1, Clip(x, w, o.x - r, 2 * r + 1));
    }
  }

  lemma NoneShared(r: nat, o: Cell, y: int, x: int, w: nat)
    ensures Shared([], r, o) == 0 && Clip(y, 0, o.y - r, 2 * r + 1) == 0 && Clip(y, 0, o.z - r, 2 * r + 1) == 0
    ensures 0 * Clip(x, w, o.x - r, 2 * r + 1) == 0
  {
  }

  lemma {:induction false} SharedCube(x: int, y: int, z: int, w: nat, n: nat, r: nat, o: Cell)
    ensures Shared(Cube(x, y, z, w, n), r, o)
            == Clip(z, n, o.z - r, 2 * r + 1) * (Clip(y, w, o.y - r, 2 * r + 1) * Clip(x, w, o.x - r, 2 * r + 1))
  {
    hide Plane, Shared, Clip;
    var face := Clip(y, w, o.y - r, 2 * r + 1) * Clip(x, w, o.x - r, 2 * r + 1);
    if n == 0 {
      NoneShared(r, o, z, x, w);
    } else {
      SharedCube(x, y, z, w, n - 1, r, o);
      SharedAppend(Cube(x, y, z, w, n - 1), Plane(x, y, z + n - 1, w, w), r, o);
      SharedPlane(x, y, z + n - 1, w, w, r, o);
      ClipNext(z, n - 1, o.z - r, 2 * r + 1, face);
    }
  }

  /** How far two intervals of width `w` overlap when shifted by `d`. */
  function Overlap(w: nat, d: int): nat { if d >= w || -d >= w then 0 else if d < 0 then w + d else w - d }

  /** The cells the neighborhoods of `a` and `b` share. */
  function Common(r: nat, a: Cell, b: Cell): int {
    var w := 2 * r + 1;
    Overlap(w, a.z - b.z) * (Overlap(w, a.y - b.y) * Overlap(w, a.x - b.x))
  }

  lemma NeighborhoodShares(r: nat, a: Cell, b: Cell)
    ensures Shared(Neighborhood(r, a), r, b) == Common(r, a, b) == Common(r, b, a)
  {
    hide Cube, Shared;
    SharedCube(a.x - r, a.y - r, a.z - r, 2 * r + 1, 2 * r + 1, r, b);
  }

  /** The number of operations of a diff, for every radius and every pair of cells: twice what is left
      of the cube after the box the two neighborhoods share. */
  lemma OperationCount(r: nat, before: Cell, after: Cell)
    ensures |DiffOps(Neighborhood(r, before), Neighborhood(r, after))|
            == 2 * ((2 * r + 1) * ((2 * r + 1) * (2 * r + 1)) - Common(r, before, after))
  {
    hide Neighborhood, Shared, Differences, Common;
    OnePerCell(Neighborhood(r, before), r, after, true);
    OnePerCell(Neighborhood(r, after), r, before, false);
    NeighborhoodShares(r, before, after);
    NeighborhoodShares(r, after, before);
    NeighborhoodSize(r, before);
    NeighborhoodSize(r, after);
  }

  lemma MulMono(a: nat, b: nat, c: nat, d: nat)
    requires a <= c && b <= d
    ensures a * b <= c * d
  {
    assert a * b <= a * d;
    assert a * d <= c * d;
  }

  lemma OverlapBounds(w: nat, d: int)
    requires 0 < w
    ensures Overlap(w, d) <= w && (d != 0 ==> Overlap(w, d) <= w - 1)
  {
  }

  lemma NonNegative(a: nat, b: nat)
    ensures 0 <= a * b
  {
  }

  /** Distinct cells share at most the cube less one face. */
  lemma CommonAtMost(r: nat, a: Cell, b: Cell)
    requires a != b
    ensures 0 <= Common(r, a, b) <= (2 * r + 1) * ((2 * r + 1) * (2 * r + 1)) - (2 * r + 1) * (2 * r + 1)
  {
    hide Overlap;
    var w := 2 * r + 1;
    var x, y, z := Overlap(w, a.x - b.x), Overlap(w, a.y - b.y), Overlap(w, a.z - b.z);
    OverlapBounds(w, a.x - b.x);
    OverlapBounds(w, a.y - b.y);
    OverlapBounds(w, a.z - b.z);
    LessOneFace(w, x, y, z);
    NonNegative(y, x);
    NonNegative(z, y * x);
  }

  lemma LessOneFace(w: nat, x: nat, y: nat, z: nat)
    requires 0 < w && x <= w && y <= w && z <= w && (x < w || y < w || z < w)
    ensures z * (y * x) <= w * (w * w) - w * w
  {
    if z < w {
      MulMono(y, x, w, w);
      MulMono(z, y * x, w - 1, w * w);
      assert (w - 1) * (w * w) == w * (w * w) - w * w;
    } else if y < w {
      MulMono(y, x, w - 1, w);
      MulMono(z, y * x, w, (w - 1) * w);
      Distribute(w);
    } else {
      MulMono(y, x, w, w - 1);
      MulMono(z, y * x, w, w * (w - 1));
      Distribute(w);
    }
  }

  lemma Distribute(w: nat)
    requires 0 < w
    ensures w * ((w - 1) * w) == w * (w * w) - w * w && w * (w * (w - 1)) == w * (w * w) - w * w
  {
    assert (w - 1) * w == w * w - w && w * (w - 1) == w * w - w;
    assert w * (w * w - w) == w * (w * w) - w * w;
  }

  /** The comment allows a crossing six operations. That is kept exactly at radius zero, or when there
      is no crossing: at every other radius one step along one axis already exchanges two faces. */
  lemma SixOperationsExactly(r: nat, before: Cell, after: Cell)
    ensures |DiffOps(Neighborhood(r, before), Neighborhood(r, after))| <= 6 <==> r == 0 || before == after
  {
    hide DiffOps, Common;
    OperationCount(r, before, after);
    if before == after {
      CommonSelf(r, before);
    } else {
      CommonAtMost(r, before, after);
      if r > 0 { MulMono(3, 3, 2 * r + 1, 2 * r + 1); }
    }
  }

  lemma CommonSelf(r: nat, c: Cell)
    ensures Common(r, c, c) == (2 * r + 1) * ((2 * r + 1) * (2 * r + 1))
  {
  }

  /** A step to the next cell along one axis issues two whole faces of operations. */
  lemma StepCost(r: nat, before: Cell, after: Cell)
    requires after == Cell(before.x + 1, before.y, before.z) || after == Cell(before.x, before.y + 1, before.z)
             || after == Cell(before.x, before.y, before.z + 1)
    ensures |DiffOps(Neighborhood(r, before), Neighborhood(r, after))| == 2 * ((2 * r + 1) * (2 * r + 1))
  {
    hide DiffOps;
    var w := 2 * r + 1;
    OperationCount(r, before, after);
    Distribute(w);
    assert (w - 1) * (w * w) == w * (w * w) - w * w;
  }
}
