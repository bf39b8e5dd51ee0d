/** The subscription window of a session: the Chebyshev neighborhood of its actor's cell, kept by
    diffs across cell crossings. */
module Window {
  import opened Prelude
  import opened Spatial

  const MAX_RADIUS: nat := 2
  const BUFFER: nat := 125

  // -------------------------------------------------------------------------------------
  // Floor division at 64 bits
  // -------------------------------------------------------------------------------------

  const I63: int := 0x8000_0000_0000_0000

  /** C's division and remainder, which truncate toward zero. */
  function TruncDiv(a: int, b: int): int
    requires b != 0
  {
    if a >= 0 then (if b > 0 then a / b else -(a / -b)) else if b > 0 then -(-a / b) else -a / -b
  }

  function TruncMod(a: int, b: int): int
    requires b != 0
  {
    a - b * TruncDiv(a, b)
  }

  /** The size is cast to a signed word before it divides. */
  function FloorDiv(v: int, size: int): int
    requires 0 < size < U64
  {
    var s := if size < I63 then size else size - U64;
    var q := TruncDiv(v, s);
    if TruncMod(v, s) != 0 && v < 0 then q - 1 else q
  }

  lemma DivIs(a: int, b: int, q: int)
    requires 0 < b && b * q <= a < b * q + b
    ensures a / b == q
  {
    var p := a / b;
    assert b * p <= a < b * p + b;
    assert p < q ==> b * (p + 1) <= b * q;
    assert q < p ==> b * (q + 1) <= b * p;
  }

  lemma NegativeFloor(a: int, b: int)
    requires 0 <= a && 0 < b
    ensures -a / b == if a == b * (a / b) then -(a / b) else -(a / b) - 1
  {
    var q := a / b;
    assert b * q <= a < b * q + b;
    assert b * -q == -(b * q) && b * (-q - 1) == -(b * q) - b;
    if a == b * q { DivIs(-a, b, -q); } else { DivIs(-a, b, -q - 1); }
  }

  /** Adjusting a truncated quotient down on a negative remainder gives the floor. */
  lemma AdjustedFloors(v: int, b: int)
    requires 0 < b
    ensures v / b == if TruncMod(v, b) != 0 && v < 0 then TruncDiv(v, b) - 1 else TruncDiv(v, b)
  {
    if v < 0 {
      NegativeFloor(-v, b);
      assert b * -(-v / b) == -(b * (-v / b));
    }
  }

  /** Below half the range the core's quotient is the floor, negative positions included. */
  lemma FloorDivFloors(v: int, size: int)
    requires 0 < size < I63
    ensures FloorDiv(v, size) == v / size
  {
    hide TruncDiv, TruncMod;
    AdjustedFloors(v, size);
  }

  lemma AtLeastOne(a: int, b: int)
    requires 0 < b <= a
    ensures a / b >= 1
  {
    var q := a / b;
    assert a < b * q + b;
    assert q <= 0 ==> b * q <= 0;
  }

  lemma BigSizeMaximum(size: int)
    requires I63 < size < U64
    ensures FloorDiv(I63 - 1, size) < 0 && (I63 - 1) / size == 0
  {
    hide TruncMod;
    AtLeastOne(I63 - 1, U64 - size);
    DivIs(I63 - 1, size, 0);
  }

  lemma BigSizeMinimum()
    ensures FloorDiv(-I63, I63) == 1 && -I63 / I63 == -1
  {
  }

  ghost predicate Word(v: int) { -I63 <= v < I63 }

  /** The core's division is the floor on every 64-bit position exactly when the cell size is below
      half the unsigned range; from there on the cast makes it negative. */
  lemma FloorDivExact(size: int)
    requires 0 < size < U64
    ensures (forall v :: Word(v) ==> FloorDiv(v, size) == v / size) <==> size < I63
  {
    if size < I63 {
      forall v | Word(v) ensures FloorDiv(v, size) == v / size { FloorDivFloors(v, size); }
    } else if size == I63 {
      BigSizeMinimum();
      assert Word(-I63);
    } else {
      BigSizeMaximum(size);
      assert Word(I63 - 1);
    }
  }

  /** The cast of a quotient to a 32-bit cell coordinate. */
  function Narrow(q: int): int {
    var low := q % U32;
    if 2 * low < U32 then low else low - U32
  }

  /** The quotient fits a 32-bit coordinate. */
  ghost predicate Fits(q: int) { 0 <= 2 * q + U32 && 2 * q < U32 }

  /** The core's coordinate of a position is the floor exactly when the floor fits 32 bits; a farther
      position lands in a cell it is not in. */
  lemma CoordinateExact(v: int, size: int)
    requires 0 < size < I63
    ensures Narrow(FloorDiv(v, size)) == v / size <==> Fits(v / size)
  {
    hide FloorDiv;
    FloorDivFloors(v, size);
    NarrowExact(v / size);
  }

  lemma NarrowExact(q: int)
    ensures Narrow(q) == q <==> Fits(q)
  {
  }

  // -------------------------------------------------------------------------------------
  // The neighborhood
  // -------------------------------------------------------------------------------------

  /** Chebyshev distance at most `r`. */
  predicate Near(r: nat, a: Cell, b: Cell) {
    a.x - r <= b.x <= a.x + r && a.y - r <= b.y <= a.y + r && a.z - r <= b.z <= a.z + r
  }

  /** `n` cells of a row, rows of a plane, planes of a cube, from corner (x, y, z), each `w` wide. */
  function Row(x: int, y: int, z: int, n: nat): (r: seq<Cell>)
    ensures |r| == n
  {
    if n == 0 then [] else Row(x, y, z, n - 1) + [Cell(x + n - 1, y, z)]
  }

  function Plane(x: int, y: int, z: int, w: nat, n: nat): seq<Cell> {
    if n == 0 then [] else Plane(x, y, z, w, n - 1) + Row(x, y + n - 1, z, w)
  }

  function Cube(x: int, y: int, z: int, w: nat, n: nat): seq<Cell> {
    if n == 0 then [] else Cube(x, y, z, w, n - 1) + Plane(x, y, z + n - 1, w, w)
  }

  /** The neighborhood in the order the core lists it. */
  function Neighborhood(r: nat, c: Cell): seq<Cell> {
    Cube(c.x - r, c.y - r, c.z - r, 2 * r + 1, 2 * r + 1)
  }

  lemma {:induction false} InRow(x: int, y: int, z: int, n: nat, c: Cell)
    ensures c in Row(x, y, z, n) <==> x <= c.x < x + n && c.y == y && c.z == z
  {
    if n > 0 { InRow(x, y, z, n - 1, c); }
  }

  lemma {:induction false} InPlane(x: int, y: int, z: int, w: nat, n: nat, c: Cell)
    ensures c in Plane(x, y, z, w, n) <==> x <= c.x < x + w && y <= c.y < y + n && c.z == z
  {
    if n > 0 {
      InPlane(x, y, z, w, n - 1, c);
      InRow(x, y + n - 1, z, w, c);
    }
  }

  lemma {:induction false} InCube(x: int, y: int, z: int, w: nat, n: nat, c: Cell)
    ensures c in Cube(x, y, z, w, n) <==> x <= c.x < x + w && y <= c.y < y + w && z <= c.z < z + n
  {
    hide Plane;
    if n > 0 {
      InCube(x, y, z, w, n - 1, c);
      InPlane(x, y, z + n - 1, w, w, c);
    }
  }

  /** It lists exactly the cells within Chebyshev distance `r`. */
  lemma NeighborhoodIsNear(r: nat, a: Cell, c: Cell)
    ensures c in Neighborhood(r, a) <==> Near(r, a, c)
  {
    hide Cube;
    InCube(a.x - r, a.y - r, a.z - r, 2 * r + 1, 2 * r + 1, c);
  }

  lemma {:induction false} PlaneSize(x: int, y: int, z: int, w: nat, n: nat)
    ensures |Plane(x, y, z, w, n)| == n * w
  {
    if n > 0 {
      PlaneSize(x, y, z, w, n - 1);
      assert n * w == (n - 1) * w + w;
    }
  }

  lemma {:induction false} CubeSize(x: int, y: int, z: int, w: nat, n: nat)
    ensures |Cube(x, y, z, w, n)| == n * (w * w)
  {
    hide Plane;
    if n > 0 {
      CubeSize(x, y, z, w, n - 1);
      PlaneSize(x, y, z + n - 1, w, w);
      assert n * (w * w) == (n - 1) * (w * w) + w * w;
    }
  }

  /** The neighborhood has (2r + 1) cubed entries. */
  lemma NeighborhoodSize(r: nat, c: Cell)
    ensures |Neighborhood(r, c)| == (2 * r + 1) * ((2 * r + 1) * (2 * r + 1))
  {
    CubeSize(c.x - r, c.y - r, c.z - r, 2 * r + 1, 2 * r + 1);
  }

  /** The native key of a cell: every coordinate is a 32-bit sum. */
  function Wrap(c: Cell): Cell { Cell(Narrow(c.x), Narrow(c.y), Narrow(c.z)) }

  function Wrapped(cells: seq<Cell>): (r: seq<Cell>)
    ensures |r| == |cells|
  {
    seq(|cells|, i requires 0 <= i < |cells| => Wrap(cells[i]))
  }

  lemma WrappedAppend(a: seq<Cell>, b: seq<Cell>)
    ensures Wrapped(a + b) == Wrapped(a) + Wrapped(b)
  {
  }

  /** The buffers have room for the largest radius. */
  lemma Room(w: nat, x: int, y: int, z: int, k: nat, j: nat)
    requires (w == 1 || w == 3 || w == 5) && k < w && j < w
    ensures |Cube(x, y, z, w, k)| + |Plane(x, y, z + k, w, j)| + w <= BUFFER
  {
    CubeSize(x, y, z, w, k);
    PlaneSize(x, y, z + k, w, j);
    RoomFor(w, k, j);
  }

  lemma RoomFor(w: nat, k: nat, j: nat)
    requires (w == 1 || w == 3 || w == 5) && k < w && j < w
    ensures k * (w * w) + j * w + w <= BUFFER
  {
    if w == 5 {
      assert k * 25 <= 100 && j * 5 <= 20;
    } else if w == 3 {
      assert k * 9 <= 18 && j * 3 <= 6;
    }
  }

  /** The triple loop that fills a buffer; it never runs past the end. */
  method FillNeighborhood(r: nat, c: Cell, out: array<Cell>) returns (count: nat)
    requires r <= MAX_RADIUS && out.Length == BUFFER
    modifies out
    ensures count <= BUFFER && out[..count] == Wrapped(Neighborhood(r, c))
  {
    hide Cube, Plane, Row, Wrapped;
    var w := 2 * r + 1;
    var x, y, z := c.x - r, c.y - r, c.z - r;
    count := 0;
    NoCells(x, y, z, w, []);
    for k := 0 to w
      invariant count <= BUFFER && out[..count] == Wrapped(Cube(x, y, z, w, k))
    {
      ghost var cube := Cube(x, y, z, w, k);
      NoCells(x, y, z + k, w, cube);
      for j := 0 to w
        invariant count <= BUFFER && out[..count] == Wrapped(cube + Plane(x, y, z + k, w, j))
      {
        Room(w, x, y, z, k, j);
        count := FillRow(x, y + j, z + k, w, out, count);
        NextRow(x, y, z + k, w, j, cube);
      }
      NextPlane(x, y, z, w, k);
    }
  }

  /** The innermost loop. */
  method FillRow(x: int, y: int, z: int, w: nat, out: array<Cell>, start: nat) returns (count: nat)
    requires start + w <= out.Length
    modifies out
    ensures count == start + w && out[..count] == old(out[..start]) + Wrapped(Row(x, y, z, w))
  {
    count := start;
    for i := 0 to w
      invariant count == start + i && out[..count] == old(out[..start]) + Wrapped(Row(x, y, z, i))
    {
      out[count] := Wrap(Cell(x + i, y, z));
      count := count + 1;
      assert out[..count] == out[..count - 1] + [Wrap(Cell(x + i, y, z))];
      WrappedAppend(Row(x, y, z, i), [Cell(x + i, y, z)]);
    }
  }

  lemma NoCells(x: int, y: int, z: int, w: nat, cube: seq<Cell>)
    ensures Wrapped(Cube(x, y, z, w, 0)) == [] && cube + Plane(x, y, z, w, 0) == cube
  {
  }

  lemma NextRow(x: int, y: int, z: int, w: nat, j: nat, cube: seq<Cell>)
    ensures Wrapped(cube + Plane(x, y, z, w, j)) + Wrapped(Row(x, y + j, z, w))
            == Wrapped(cube + Plane(x, y, z, w, j + 1))
  {
    hide Row, Wrapped;
    WrappedAppend(cube + Plane(x, y, z, w, j), Row(x, y + j, z, w));
    assert cube + Plane(x, y, z, w, j) + Row(x, y + j, z, w) == cube + (Plane(x, y, z, w, j) + Row(x, y + j, z, w));
  }

  lemma NextPlane(x: int, y: int, z: int, w: nat, k: nat)
    ensures Cube(x, y, z, w, k) + Plane(x, y, z + k, w, w) == Cube(x, y, z, w, k + 1)
  {
  }

  // -------------------------------------------------------------------------------------
  // The diff across a crossing
  // -------------------------------------------------------------------------------------

  datatype Op = Remove(cell: Cell) | Add(cell: Cell)

  /** The cells of `from` that are not in `other`, as operations. */
  function Differences(from: seq<Cell>, other: seq<Cell>, remove: bool): seq<Op> {
    if from == [] then []
    else
      (if from[0] in other then [] else [if remove then Remove(from[0]) else Add(from[0])])
      + Differences(from[1..], other, remove)
  }

  /** Removals first, then additions. */
  function DiffOps(before: seq<Cell>, after: seq<Cell>): seq<Op> {
    Differences(before, after, true) + Differences(after, before, false)
  }

  function Do(w: set<Cell>, op: Op): set<Cell> {
    match op
    case Remove(c) => w - {c}
    case Add(c) => w + {c}
  }

  /** Operations in order up to the first one the gateway refuses. */
  function Perform(w: set<Cell>, ops: seq<Op>, refuses: Op -> bool): (set<Cell>, bool)
    decreases |ops|
  {
    if ops == [] then (w, true)
    else if refuses(ops[0]) then (w, false)
    else Perform(Do(w, ops[0]), ops[1..], refuses)
  }

  /** All the operations, whatever the gateway says. */
  function DoAll(w: set<Cell>, ops: seq<Op>): set<Cell>
    decreases |ops|
  {
    if ops == [] then w else DoAll(Do(w, ops[0]), ops[1..])
  }

  /** Exactly the operations before the first refused one take effect. */
  lemma {:induction false} PerformExactly(w: set<Cell>, ops: seq<Op>, refuses: Op -> bool, k: nat)
    requires k <= |ops| && (forall i :: 0 <= i < k ==> !refuses(ops[i])) && (k < |ops| ==> refuses(ops[k]))
    ensures Perform(w, ops, refuses) == (DoAll(w, ops[..k]), k == |ops|)
    decreases |ops|
  {
    if k > 0 {
      assert ops[..k][1..] == ops[1..][..k - 1];
      PerformExactly(Do(w, ops[0]), ops[1..], refuses, k - 1);
    }
  }

  lemma {:induction false} PerformAppend(w: set<Cell>, a: seq<Op>, b: seq<Op>, refuses: Op -> bool)
    ensures Perform(w, a + b, refuses)
            == if Perform(w, a, refuses).1 then Perform(Perform(w, a, refuses).0, b, refuses)
               else Perform(w, a, refuses)
    decreases |a|
  {
    if a == [] {
      assert a + b == b;
    } else {
      assert (a + b)[1..] == a[1..] + b;
      if !refuses(a[0]) { PerformAppend(Do(w, a[0]), a[1..], b, refuses); }
    }
  }

  lemma {:induction false} RemovesAll(w: set<Cell>, from: seq<Cell>, other: seq<Cell>, refuses: Op -> bool, c: Cell)
    requires Perform(w, Differences(from, other, true), refuses).1
    ensures c in Perform(w, Differences(from, other, true), refuses).0 <==> c in w && !(c in from && c !in other)
    decreases |from|
  {
    if from != [] {
      var rest := Differences(from[1..], other, true);
      assert from == [from[0]] + from[1..];
      if from[0] in other {
        assert [] + rest == rest;
        RemovesAll(w, from[1..], other, refuses, c);
      } else {
        assert ([Remove(from[0])] + rest)[1..] == rest;
        RemovesAll(w - {from[0]}, from[1..], other, refuses, c);
      }
    }
  }

  lemma {:induction false} AddsAll(w: set<Cell>, from: seq<Cell>, other: seq<Cell>, refuses: Op -> bool, c: Cell)
    requires Perform(w, Differences(from, other, false), refuses).1
    ensures c in Perform(w, Differences(from, other, false), refuses).0 <==> c in w || (c in from && c !in other)
    decreases |from|
  {
    if from != [] {
      var rest := Differences(from[1..], other, false);
      assert from == [from[0]] + from[1..];
      if from[0] in other {
        assert [] + rest == rest;
        AddsAll(w, from[1..], other, refuses, c);
      } else {
        assert ([Add(from[0])] + rest)[1..] == rest;
        AddsAll(w + {from[0]}, from[1..], other, refuses, c);
      }
    }
  }

  /** What an unrefused diff does to any window, cell by cell. */
  lemma DiffCell(w: set<Cell>, before: seq<Cell>, after: seq<Cell>, refuses: Op -> bool, c: Cell)
    requires Perform(w, DiffOps(before, after), refuses).1
    ensures c in Perform(w, DiffOps(before, after), refuses).0
            <==> (c in w && !(c in before && c !in after)) || (c in after && c !in before)
  {
    hide Perform, Differences;
    var gone := Differences(before, after, true);
    PerformAppend(w, gone, Differences(after, before, false), refuses);
    RemovesAll(w, before, after, refuses, c);
    AddsAll(Perform(w, gone, refuses).0, after, before, refuses, c);
  }

  /** The window holds exactly the listed cells. */
  ghost predicate Tracks(w: set<Cell>, cells: seq<Cell>) { forall c :: c in w <==> c in cells }

  /** An unrefused diff leaves the window on the arrival neighborhood exactly when the window already
      held what the two neighborhoods share and nothing outside both; in particular when it was the
      departed neighborhood. */
  lemma DiffTracksExactly(w: set<Cell>, before: seq<Cell>, after: seq<Cell>, refuses: Op -> bool)
    requires Perform(w, DiffOps(before, after), refuses).1
    ensures Tracks(Perform(w, DiffOps(before, after), refuses).0, after)
            <==> && (forall c :: c in before && c in after ==> c in w)
                 && (forall c :: c in w ==> c in before || c in after)
    ensures Tracks(w, before) ==> Tracks(Perform(w, DiffOps(before, after), refuses).0, after)
  {
    hide Perform, DiffOps;
    var w' := Perform(w, DiffOps(before, after), refuses).0;
    forall c ensures c in w' <==> (c in w && !(c in before && c !in after)) || (c in after && c !in before) {
      DiffCell(w, before, after, refuses, c);
    }
  }

  /** Two neighborhoods of one radius agree only at one center. */
  lemma NearInjective(r: nat, a: Cell, b: Cell)
    requires forall c :: Near(r, a, c) <==> Near(r, b, c)
    ensures a == b
  {
    assert Near(r, a, Cell(a.x - r, a.y - r, a.z - r)) && Near(r, a, Cell(a.x + r, a.y + r, a.z + r));
    assert Near(r, b, Cell(a.x - r, a.y - r, a.z - r)) && Near(r, b, Cell(a.x + r, a.y + r, a.z + r));
  }

  // -------------------------------------------------------------------------------------
  // The procedure
  // -------------------------------------------------------------------------------------

  /** The gateway's side of a session. */
  class Session {
    var window: set<Cell>

    constructor ()
      ensures window == {}
    {
      window := {};
    }
  }

  method KeyIn(key: Cell, keys: array<Cell>, count: nat) returns (found: bool)
    requires count <= keys.Length
    ensures found <==> key in keys[..count]
  {
    for i := 0 to count
      invariant key !in keys[..i]
    {
      if keys[i] == key {
        return true;
      }
    }
    return false;
  }

  /** One of the two loops of the diff. */
  method DiffLoop(session: Session, from: array<Cell>, n: nat, other: array<Cell>, m: nat, remove: bool,
                  refuses: Op -> bool) returns (ok: bool)
    requires n <= from.Length && m <= other.Length
    modifies session
    ensures (session.window, ok) == Perform(old(session.window), Differences(from[..n], other[..m], remove), refuses)
  {
    ghost var spec := Perform(session.window, Differences(from[..n], other[..m], remove), refuses);
    assert from[0..n] == from[..n];
    for i := 0 to n
      invariant spec == Perform(session.window, Differences(from[i..n], other[..m], remove), refuses)
    {
      ghost var rest := Differences(from[i + 1..n], other[..m], remove);
      assert from[i..n][1..] == from[i + 1..n];
      var shared := KeyIn(from[i], other, m);
      if shared {
        assert [] + rest == rest;
        continue;
      }
      var op := if remove then Remove(from[i]) else Add(from[i]);
      assert ([op] + rest)[1..] == rest;
      if refuses(op) {
        return false;
      }
      session.window := Do(session.window, op);
    }
    return true;
  }

  method DiffWindow(session: Session, r: nat, before: Cell, after: Cell, refuses: Op -> bool) returns (ok: bool)
    requires r <= MAX_RADIUS
    modifies session
    ensures (session.window, ok)
            == Perform(old(session.window), DiffOps(Wrapped(Neighborhood(r, before)), Wrapped(Neighborhood(r, after))),
                       refuses)
  {
    hide Perform, Differences, Neighborhood, Wrapped;
    var oldKeys := new Cell[BUFFER](_ => before);
    var newKeys := new Cell[BUFFER](_ => after);
    var oldCount := FillNeighborhood(r, before, oldKeys);
    var newCount := FillNeighborhood(r, after, newKeys);
    ghost var old', new' := Wrapped(Neighborhood(r, before)), Wrapped(Neighborhood(r, after));
    PerformAppend(session.window, Differences(old', new', true), Differences(new', old', false), refuses);
    ok := DiffLoop(session, oldKeys, oldCount, newKeys, newCount, true, refuses);
    if ok {
      ok := DiffLoop(session, newKeys, newCount, oldKeys, oldCount, false, refuses);
    }
  }

  // -------------------------------------------------------------------------------------
  // Whole runs
  // -------------------------------------------------------------------------------------

  /** The handlers in Python divide unbounded integers; the native core divides 64-bit words and casts
      the quotients to 32-bit coordinates. */
  datatype Grid = Floor(w: World) | Native(w: World)

  ghost predicate Sized(g: Grid) {
    0 < g.w.cellSize && (g.Native? ==> g.w.cellSize < U64 && g.w.radius <= MAX_RADIUS)
  }

  function NativeCell(size: int, a: Actor): Cell
    requires 0 < size < U64
  {
    Cell(Narrow(FloorDiv(a.px, size)), Narrow(FloorDiv(a.py, size)), Narrow(FloorDiv(a.pz, size)))
  }

  function At(g: Grid, a: Actor): Cell
    requires Sized(g)
  {
    match g
    case Floor(w) => CellOf(w, a)
    case Native(w) => NativeCell(w.cellSize, a)
  }

  /** The neighborhood of a cell, in the grid's own coordinates. */
  function Around(g: Grid, c: Cell): seq<Cell> {
    if g.Native? then Wrapped(Neighborhood(g.w.radius, c)) else Neighborhood(g.w.radius, c)
  }

  datatype Track = Track(actor: Actor, window: set<Cell>)

  /** What moves the actor: an input through the bound session, or anything else (another session's
      frame, the control plane, a teleport), which leaves the window alone. The new state is stored
      before it is published; a publish that fails skips the diff as well. */
  datatype Move = Bound(input: Input, published: bool, refuses: Op -> bool) | Foreign(moved: Actor)

  /** The move stores a state but does not look at the window. */
  predicate SkipsDiff(m: Move) { m.Foreign? || !m.published }

  /** Populating adds the neighborhood of the actor's cell to whatever the session holds; a cell the
      gateway refuses is skipped. */
  function Populate(g: Grid, window: set<Cell>, a: Actor, refuses: Op -> bool): Track
    requires Sized(g)
  {
    Track(a, window + set c | c in Around(g, At(g, a)) && (c in window || !refuses(Add(c))))
  }

  /** The state after a move, and whether every window operation succeeded. */
  function Apply(g: Grid, s: Track, m: Move): (Track, bool)
    requires Sized(g)
  {
    match m
    case Foreign(a) => (Track(a, s.window), true)
    case Bound(input, published, refuses) =>
      var next := g.w.advance(s.actor, input);
      if next.None? then (s, true)
      else
        var before, after := At(g, s.actor), At(g, next.value);
        if !published || before == after then (Track(next.value, s.window), true)
        else
          var r := Perform(s.window, DiffOps(Around(g, before), Around(g, after)), refuses);
          (Track(next.value, r.0), r.1)
  }

  /** The session's window is on the stored position's cell. */
  ghost predicate OnActor(g: Grid, s: Track)
    requires Sized(g)
  {
    Tracks(s.window, Around(g, At(g, s.actor)))
  }

  /** A login, first or later, leaves the window on the actor exactly when what the session held lies
      inside the neighborhood and every cell the gateway refuses was held already. A fresh session on an
      obliging gateway meets both; a second login after the actor has moved away does not. */
  lemma LoginTracksExactly(g: Grid, window: set<Cell>, a: Actor, refuses: Op -> bool)
    requires Sized(g)
    ensures OnActor(g, Populate(g, window, a, refuses))
            <==> && (forall c :: c in window ==> c in Around(g, At(g, a)))
                 && (forall c :: c in Around(g, At(g, a)) && refuses(Add(c)) ==> c in window)
  {
    hide Around, At;
    var cells := Around(g, At(g, a));
    var window' := Populate(g, window, a, refuses).window;
    assert forall c :: c in window' <==> c in window || (c in cells && !refuses(Add(c)));
  }

  lemma BoundTracks(g: Grid, s: Track, m: Move)
    requires Sized(g) && OnActor(g, s) && !SkipsDiff(m) && Apply(g, s, m).1
    ensures OnActor(g, Apply(g, s, m).0)
  {
    hide Perform, DiffOps, Tracks, At, Around;
    var next := g.w.advance(s.actor, m.input);
    if next.Some? && At(g, s.actor) != At(g, next.value) {
      DiffTracksExactly(s.window, Around(g, At(g, s.actor)), Around(g, At(g, next.value)), m.refuses);
    }
  }

  /** A move that skips the diff keeps the window on the actor exactly when it does not change the
      cell. */
  lemma SkippedTracksExactly(g: Grid, s: Track, m: Move)
    requires Sized(g) && OnActor(g, s) && SkipsDiff(m)
    ensures OnActor(g, Apply(g, s, m).0) <==> At(g, Apply(g, s, m).0.actor) == At(g, s.actor)
  {
    hide At, Around, Tracks;
    var s' := Apply(g, s, m).0;
    assert s'.window == s.window;
    if OnActor(g, s') {
      SameAround(g, s.window, s.actor, s'.actor);
    }
  }

  /** Only one cell has a given neighborhood, wrapped or not. */
  lemma SameAround(g: Grid, window: set<Cell>, a: Actor, b: Actor)
    requires Sized(g) && Tracks(window, Around(g, At(g, a))) && Tracks(window, Around(g, At(g, b)))
    ensures At(g, a) == At(g, b)
  {
    hide At, Neighborhood, Wrapped, Tracks, CellFits;
    var r, ca, cb := g.w.radius, At(g, a), At(g, b);
    if g.Floor? {
      SameNeighborhood(window, r, ca, cb);
    } else {
      NativeFits(g, a);
      NativeFits(g, b);
      SameWrapped(window, r, ca, cb);
    }
  }

  lemma SameNeighborhood(window: set<Cell>, r: nat, a: Cell, b: Cell)
    requires Tracks(window, Neighborhood(r, a)) && Tracks(window, Neighborhood(r, b))
    ensures a == b
  {
    hide Neighborhood, Near;
    forall c ensures Near(r, a, c) <==> Near(r, b, c) {
      NeighborhoodIsNear(r, a, c);
      NeighborhoodIsNear(r, b, c);
      assert c in window <==> c in Neighborhood(r, a);
    }
    NearInjective(r, a, b);
  }

  lemma SameWrapped(window: set<Cell>, r: nat, a: Cell, b: Cell)
    requires Tracks(window, Wrapped(Neighborhood(r, a))) && Tracks(window, Wrapped(Neighborhood(r, b)))
    requires r <= MAX_RADIUS && CellFits(a) && CellFits(b)
    ensures a == b
  {
    hide Wrapped, Neighborhood, CellFits;
    assert forall c :: c in Wrapped(Neighborhood(r, a)) ==> c in window && c in Wrapped(Neighborhood(r, b));
    WrapInjective(r, a, b);
  }

  lemma NativeFits(g: Grid, a: Actor)
    requires Sized(g) && g.Native?
    ensures CellFits(At(g, a))
  {
    hide FloorDiv;
  }

  /** A wrapped neighborhood is the wrapped images of the near cells. */
  lemma WrappedIsNear(r: nat, a: Cell, c: Cell) returns (d: Cell)
    requires c in Wrapped(Neighborhood(r, a))
    ensures Near(r, a, d) && c == Wrap(d)
  {
    hide Neighborhood, Wrap;
    var cells := Neighborhood(r, a);
    var i :| 0 <= i < |Wrapped(cells)| && Wrapped(cells)[i] == c;
    d := cells[i];
    NeighborhoodIsNear(r, a, d);
  }

  lemma NearIsWrapped(r: nat, a: Cell, d: Cell)
    requires Near(r, a, d)
    ensures Wrap(d) in Wrapped(Neighborhood(r, a))
  {
    hide Neighborhood, Wrap, Near;
    NeighborhoodIsNear(r, a, d);
    var cells := Neighborhood(r, a);
    var i :| 0 <= i < |cells| && cells[i] == d;
    assert Wrapped(cells)[i] == Wrap(d);
  }

  /** The wrapped images of two intervals around 32-bit centers cannot contain each other's ends unless
      the centers agree. */
  lemma RingInjective(r: nat, a: int, b: int, lo: int, hi: int)
    requires r <= MAX_RADIUS && Fits(a) && Fits(b) && b - r <= lo <= b + r && b - r <= hi <= b + r
    requires Narrow(a - r) == Narrow(lo) && Narrow(a + r) == Narrow(hi)
    ensures a == b
  {
    hide Narrow;
    var i := SameResidue(a - r, lo);
    var j := SameResidue(a + r, hi);
    assert -1 <= i <= 1 && -1 <= j <= 1;
  }

  lemma SameResidue(p: int, q: int) returns (k: int)
    requires Narrow(p) == Narrow(q)
    ensures p - q == U32 * k
  {
    k := p / U32 - q / U32;
  }

  lemma WrapInjective(r: nat, a: Cell, b: Cell)
    requires r <= MAX_RADIUS && CellFits(a) && CellFits(b)
    requires forall c :: c in Wrapped(Neighborhood(r, a)) ==> c in Wrapped(Neighborhood(r, b))
    ensures a == b
  {
    hide Wrapped, Neighborhood, Narrow, Fits;
    var low, high := Cell(a.x - r, a.y - r, a.z - r), Cell(a.x + r, a.y + r, a.z + r);
    NearIsWrapped(r, a, low);
    NearIsWrapped(r, a, high);
    var lo := WrappedIsNear(r, b, Wrap(low));
    var hi := WrappedIsNear(r, b, Wrap(high));
    RingInjective(r, a.x, b.x, lo.x, hi.x);
    RingInjective(r, a.y, b.y, lo.y, hi.y);
    RingInjective(r, a.z, b.z, lo.z, hi.z);
  }

  /** Every window operation of the run succeeds, and moves that skip the diff stay within the cell. */
  ghost predicate Smooth(g: Grid, s: Track, ms: seq<Move>)
    requires Sized(g)
    decreases |ms|
  {
    ms == [] || (&& Apply(g, s, ms[0]).1
                 && (SkipsDiff(ms[0]) ==> At(g, Apply(g, s, ms[0]).0.actor) == At(g, s.actor))
                 && Smooth(g, Apply(g, s, ms[0]).0, ms[1..]))
  }

  function RunMoves(g: Grid, s: Track, ms: seq<Move>): Track
    requires Sized(g)
    decreases |ms|
  {
    if ms == [] then s else RunMoves(g, Apply(g, s, ms[0]).0, ms[1..])
  }

  /** From login on, the window is the neighborhood of the stored position's cell after every move. */
  lemma {:induction false} WindowTracks(g: Grid, s: Track, ms: seq<Move>)
    requires Sized(g) && OnActor(g, s) && Smooth(g, s, ms)
    ensures OnActor(g, RunMoves(g, s, ms))
    decreases |ms|
  {
    hide OnActor, Apply, At;
    if ms != [] {
      if SkipsDiff(ms[0]) { SkippedTracksExactly(g, s, ms[0]); } else { BoundTracks(g, s, ms[0]); }
      WindowTracks(g, Apply(g, s, ms[0]).0, ms[1..]);
    }
  }

  ghost predicate CellFits(c: Cell) { Fits(c.x) && Fits(c.y) && Fits(c.z) }

  lemma NativeCellExact(w: World, a: Actor)
    requires 0 < w.cellSize < I63
    ensures NativeCell(w.cellSize, a) == CellOf(w, a) <==> CellFits(CellOf(w, a))
  {
    hide Narrow, FloorDiv;
    CoordinateExact(a.px, w.cellSize);
    CoordinateExact(a.py, w.cellSize);
    CoordinateExact(a.pz, w.cellSize);
  }

  lemma NearFits(r: nat, a: Cell, c: Cell)
    requires Near(r, a, c) && CellFits(Cell(a.x - r, a.y - r, a.z - r)) && CellFits(Cell(a.x + r, a.y + r, a.z + r))
    ensures Wrap(c) == c
  {
    hide Narrow;
    NarrowExact(c.x);
    NarrowExact(c.y);
    NarrowExact(c.z);
  }

  /** Inside the 32-bit range wrapping changes nothing. */
  lemma WrappedExact(r: nat, a: Cell)
    requires CellFits(Cell(a.x - r, a.y - r, a.z - r)) && CellFits(Cell(a.x + r, a.y + r, a.z + r))
    ensures Wrapped(Neighborhood(r, a)) == Neighborhood(r, a)
  {
    hide Neighborhood, Near, Wrap;
    var cells := Neighborhood(r, a);
    forall i | 0 <= i < |cells| ensures Wrap(cells[i]) == cells[i] {
      NeighborhoodIsNear(r, a, cells[i]);
      NearFits(r, a, cells[i]);
    }
  }

  /** Every wrapped key fits. */
  lemma WrapFits(c: Cell)
    ensures CellFits(Wrap(c))
  {
  }

  /** The native core against the geometry it replaces: after any smooth native run the window is the
      neighborhood of the true floor cell of the stored position, exactly when that whole neighborhood
      fits 32 bits. */
  lemma NativeWindowExact(w: World, s: Track, ms: seq<Move>)
    requires 0 < w.cellSize < I63 && w.radius <= MAX_RADIUS
    requires OnActor(Native(w), s) && Smooth(Native(w), s, ms)
    ensures var end := RunMoves(Native(w), s, ms);
            var c := CellOf(w, end.actor);
            Tracks(end.window, Neighborhood(w.radius, c))
            <==> CellFits(Cell(c.x - w.radius, c.y - w.radius, c.z - w.radius))
                 && CellFits(Cell(c.x + w.radius, c.y + w.radius, c.z + w.radius))
  {
    hide NativeCell, CellOf, Smooth, RunMoves, CellFits, Neighborhood, Wrapped, Wrap;
    var end := RunMoves(Native(w), s, ms);
    WindowTracks(Native(w), s, ms);
    NativeEndExact(w, end);
  }

  lemma NativeEndExact(w: World, end: Track)
    requires 0 < w.cellSize < I63 && w.radius <= MAX_RADIUS
    requires Tracks(end.window, Wrapped(Neighborhood(w.radius, NativeCell(w.cellSize, end.actor))))
    ensures var c := CellOf(w, end.actor);
            Tracks(end.window, Neighborhood(w.radius, c))
            <==> CellFits(Cell(c.x - w.radius, c.y - w.radius, c.z - w.radius))
                 && CellFits(Cell(c.x + w.radius, c.y + w.radius, c.z + w.radius))
  {
    hide NativeCell, CellOf, Neighborhood, Wrapped, Wrap, Near;
    var r, c := w.radius, CellOf(w, end.actor);
    var low, high := Cell(c.x - r, c.y - r, c.z - r), Cell(c.x + r, c.y + r, c.z + r);
    if CellFits(low) && CellFits(high) {
      NativeCellExact(w, end.actor);
      WrappedExact(r, c);
    } else if Tracks(end.window, Neighborhood(r, c)) {
      CornersHeld(r, c);
      var d := WrappedIsNear(r, NativeCell(w.cellSize, end.actor), low);
      WrapFits(d);
      d := WrappedIsNear(r, NativeCell(w.cellSize, end.actor), high);
      WrapFits(d);
    }
  }

  lemma CornersHeld(r: nat, c: Cell)
    ensures Cell(c.x - r, c.y - r, c.z - r) in Neighborhood(r, c)
    ensures Cell(c.x + r, c.y + r, c.z + r) in Neighborhood(r, c)
  {
    NeighborhoodIsNear(r, c, Cell(c.x - r, c.y - r, c.z - r));
    NeighborhoodIsNear(r, c, Cell(c.x + r, c.y + r, c.z + r));
  }
}
