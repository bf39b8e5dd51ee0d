/** The native core's authority-epoch table: insert-only open addressing, one read-modify-write
    per bump, u32 epochs in which 0 marks an empty slot. */
module EpochTable {
  import opened Prelude
  import opened Spatial
  import opened Circular
  import opened Probing

  /** One table entry; epoch 0 is empty. */
  datatype EpochSlot = EpochSlot(cell: Cell, epoch: nat)

  type Slots = seq<EpochSlot>

  function Tag(s: EpochSlot): Option<Cell> { if s.epoch == 0 then None else Some(s.cell) }

  function TagsOf(slots: Slots): (tags: Tags)
    ensures |tags| == |slots| && forall i :: 0 <= i < |slots| ==> tags[i] == Tag(slots[i])
  {
    seq(|slots|, i requires 0 <= i < |slots| => Tag(slots[i]))
  }

  /** The u32 successor: the last epoch wraps to the empty marker. */
  function NextEpoch(epoch: nat): nat { if epoch + 1 < U32 then epoch + 1 else 0 }

  /** The table and the result of one bump; 0 reports a full table. */
  function Bump(h: Hash, slots: Slots, c: Cell): (r: (Slots, nat))
    requires 0 < |slots|
    ensures |r.0| == |slots|
  {
    var i := Find(h, TagsOf(slots), c);
    if i.None? then (slots, 0)
    else
      var e := NextEpoch(slots[i.value].epoch);
      (slots[i.value := EpochSlot(c, e)], e)
  }

  class Table {
    const hash: Hash
    var slots: array<EpochSlot>

    constructor (hash: Hash, count: nat)
      ensures this.hash == hash && fresh(slots)
      ensures slots[..] == seq(count, _ => EpochSlot(Cell(0, 0, 0), 0))
    {
      this.hash := hash;
      slots := new EpochSlot[count](_ => EpochSlot(Cell(0, 0, 0), 0));
    }

    /** The probe loop, run under the bookkeeping lock. */
    method BumpCell(c: Cell) returns (epoch: nat)
      requires 0 < slots.Length
      modifies slots
      ensures (slots[..], epoch) == Bump(hash, old(slots[..]), c)
    {
      var count := slots.Length;
      ghost var tags := TagsOf(slots[..]);
      var i := Home(hash, count, c);
      ghost var home := i;
      var probes := 0;
      while probes < count
        invariant 0 <= probes <= count
        invariant slots[..] == old(slots[..])
        invariant probes < count ==> i == At(count, home, probes)
        invariant Probe(tags, home, probes, c) == Probe(tags, home, 0, c)
      {
        assert tags[i] == Tag(slots[i]);
        if slots[i].epoch == 0 {
          slots[i] := EpochSlot(c, 1);
          return 1;
        }
        if slots[i].cell == c {
          epoch := NextEpoch(slots[i].epoch);
          slots[i] := EpochSlot(c, epoch);
          return;
        }
        i := if i + 1 == count then 0 else i + 1;
        probes := probes + 1;
      }
      epoch := 0;
    }
  }

  // -------------------------------------------------------------------------------------
  // Refinement to a finite map
  // -------------------------------------------------------------------------------------

  /** The map from cell to epoch that a table holds. */
  ghost predicate Holds(h: Hash, slots: Slots, m: map<Cell, nat>) {
    && Chained(h, TagsOf(slots))
    && (forall i :: 0 <= i < |slots| && slots[i].epoch != 0 ==>
          slots[i].cell in m && m[slots[i].cell] == slots[i].epoch)
    && (forall c :: c in m ==> exists i :: 0 <= i < |slots| && slots[i] == EpochSlot(c, m[c]) && m[c] != 0)
  }

  /** The bump of a map bounded to `n` cells. */
  function MapBump(n: nat, m: map<Cell, nat>, c: Cell): (map<Cell, nat>, nat) {
    if c in m then (m[c := m[c] + 1], m[c] + 1)
    else if |m| < n then (m[c := 1], 1)
    else (m, 0)
  }

  /** The slots in use, and the cells they hold: distinct slots hold distinct cells. */
  ghost function Used(slots: Slots, k: nat): (u: set<Cell>)
    requires k <= |slots|
  {
    set i | 0 <= i < k && slots[i].epoch != 0 :: slots[i].cell
  }

  /** The first `k` slots are all in use. */
  ghost predicate AllUsed(slots: Slots, k: nat)
    requires k <= |slots|
  {
    forall i :: 0 <= i < k ==> slots[i].epoch != 0
  }

  lemma UsedNext(h: Hash, slots: Slots, k: nat)
    requires k < |slots| && Chained(h, TagsOf(slots))
    ensures |Used(slots, k + 1)| == |Used(slots, k)| + if slots[k].epoch == 0 then 0 else 1
  {
    hide Chained;
    if slots[k].epoch == 0 {
      assert Used(slots, k + 1) == Used(slots, k);
    } else {
      assert Used(slots, k + 1) == Used(slots, k) + {slots[k].cell};
      if i :| 0 <= i < k && slots[i].epoch != 0 && slots[i].cell == slots[k].cell {
        ChainedUnique(h, TagsOf(slots), i, k);
      }
    }
  }

  lemma {:induction false} UsedSize(h: Hash, slots: Slots, k: nat)
    requires k <= |slots| && Chained(h, TagsOf(slots))
    ensures |Used(slots, k)| <= k
    ensures |Used(slots, k)| == k <==> AllUsed(slots, k)
  {
    hide Chained, Used;
    if k > 0 {
      UsedSize(h, slots, k - 1);
      UsedNext(h, slots, k - 1);
    } else {
      UsedNone(slots);
    }
  }

  lemma UsedNone(slots: Slots)
    ensures Used(slots, 0) == {}
  {
  }

  lemma HoldsSize(h: Hash, slots: Slots, m: map<Cell, nat>)
    requires Holds(h, slots, m)
    ensures |m| <= |slots|
    ensures |m| == |slots| <==> forall i :: 0 <= i < |slots| ==> slots[i].epoch != 0
  {
    assert Used(slots, |slots|) == m.Keys;
    UsedSize(h, slots, |slots|);
  }

  lemma BumpTags(h: Hash, slots: Slots, c: Cell, i: nat)
    requires 0 < |slots| && Find(h, TagsOf(slots), c) == Some(i)
    requires slots[i].epoch < U32 - 1
    ensures TagsOf(Bump(h, slots, c).0) == TagsOf(slots)[i := Some(c)]
  {
  }

  /** The probing table refines the map: as long as the cell's epoch does not wrap, a bump
      returns what the map's bump returns and leaves a table that holds the map's new value. */
  lemma BumpRefines(h: Hash, slots: Slots, m: map<Cell, nat>, c: Cell)
    requires 0 < |slots| && Holds(h, slots, m)
    requires c in m ==> m[c] < U32 - 1
    ensures Bump(h, slots, c).1 == MapBump(|slots|, m, c).1
    ensures Holds(h, Bump(h, slots, c).0, MapBump(|slots|, m, c).0)
  {
    hide Chained, Find;
    var tags := TagsOf(slots);
    HoldsSize(h, slots, m);
    FullExactly(h, tags, c);
    if c in m {
      var j :| 0 <= j < |slots| && slots[j] == EpochSlot(c, m[c]);
      ChainedFinds(h, tags, j);
    }
    var f := Find(h, tags, c);
    if f.Some? {
      BumpTags(h, slots, c, f.value);
      InsertKeepsChained(h, tags, c);
      BumpHolds(h, slots, m, c, f.value);
    }
  }

  lemma BumpHolds(h: Hash, slots: Slots, m: map<Cell, nat>, c: Cell, i: nat)
    requires 0 < |slots| && Holds(h, slots, m) && Find(h, TagsOf(slots), c) == Some(i)
    requires slots[i].epoch < U32 - 1
    requires Chained(h, TagsOf(Bump(h, slots, c).0))
    requires c in m <==> slots[i].epoch != 0
    ensures Holds(h, Bump(h, slots, c).0, m[c := slots[i].epoch + 1])
  {
    var slots' := Bump(h, slots, c).0;
    var m' := m[c := slots[i].epoch + 1];
    forall b | b in m' ensures exists k :: 0 <= k < |slots'| && slots'[k] == EpochSlot(b, m'[b]) && m'[b] != 0 {
      if b == c { assert slots'[i] == EpochSlot(b, m'[b]); }
      else {
        var k :| 0 <= k < |slots| && slots[k] == EpochSlot(b, m[b]) && m[b] != 0;
        assert k != i;
        assert slots'[k] == EpochSlot(b, m'[b]);
      }
    }
    forall k | 0 <= k < |slots'| && slots'[k].epoch != 0
      ensures slots'[k].cell in m' && m'[slots'[k].cell] == slots'[k].epoch
    {
      if k != i && slots[k].cell == c { ChainedFinds(h, TagsOf(slots), k); }
    }
  }

  // -------------------------------------------------------------------------------------
  // Whole histories of bumps
  // -------------------------------------------------------------------------------------

  /** The results of bumping `cs` one after the other. */
  function Results(h: Hash, slots: Slots, cs: seq<Cell>): seq<nat>
    requires 0 < |slots|
    decreases |cs|
  {
    if cs == [] then []
    else
      var (slots', e) := Bump(h, slots, cs[0]);
      [e] + Results(h, slots', cs[1..])
  }

  function Count(cs: seq<Cell>, c: Cell): nat {
    if cs == [] then 0 else (if cs[0] == c then 1 else 0) + Count(cs[1..], c)
  }

  function CellsOf(cs: seq<Cell>): set<Cell> { set c | c in cs }

  function Empty(n: nat): Slots { seq(n, _ => EpochSlot(Cell(0, 0, 0), 0)) }

  function EpochIn(m: map<Cell, nat>, c: Cell): nat { if c in m then m[c] else 0 }

  lemma BumpWithRoom(h: Hash, slots: Slots, m: map<Cell, nat>, c: Cell, all: set<Cell>)
    requires 0 < |slots| && Holds(h, slots, m) && EpochIn(m, c) < U32 - 1
    requires m.Keys + {c} <= all && |all| <= |slots|
    ensures Bump(h, slots, c).1 == EpochIn(m, c) + 1
    ensures Holds(h, Bump(h, slots, c).0, m[c := EpochIn(m, c) + 1])
  {
    BumpRefines(h, slots, m, c);
    if c !in m { RoomLeft(m.Keys, c, all); }
  }

  lemma ResultsLength(h: Hash, slots: Slots, cs: seq<Cell>)
    requires 0 < |slots|
    ensures |Results(h, slots, cs)| == |cs|
    decreases |cs|
  {
  }

  lemma {:induction false} ResultsFrom(h: Hash, slots: Slots, m: map<Cell, nat>, cs: seq<Cell>, all: set<Cell>, k: nat)
    requires 0 < |slots| && Holds(h, slots, m) && k < |Results(h, slots, cs)| == |cs|
    requires m.Keys + CellsOf(cs) <= all && |all| <= |slots|
    requires forall c :: EpochIn(m, c) + |cs| < U32
    ensures Results(h, slots, cs)[k] == EpochIn(m, cs[k]) + Count(cs[..k + 1], cs[k])
    decreases |cs|
  {
    hide Holds, Bump;
    var slots' := Bump(h, slots, cs[0]).0;
    var m' := m[cs[0] := EpochIn(m, cs[0]) + 1];
    assert cs[0] in CellsOf(cs);
    BumpWithRoom(h, slots, m, cs[0], all);
    assert cs[..k + 1][1..] == cs[1..][..k];
    if k > 0 {
      ResultsLength(h, slots', cs[1..]);
      assert forall c :: EpochIn(m', c) <= EpochIn(m, c) + 1;
      ResultsFrom(h, slots', m', cs[1..], all, k - 1);
    }
  }

  lemma RoomLeft(xs: set<Cell>, c: Cell, all: set<Cell>)
    requires c !in xs && xs + {c} <= all
    ensures |xs| < |all|
  {
    assert all == (all - xs) + xs;
    assert c in all - xs;
  }

  /** From an empty table, in any order over at most as many cells as there are slots, the k-th
      bump of a cell returns exactly k: no gap, no repeat, and no other cell disturbs it. */
  lemma BumpsCountUp(h: Hash, n: nat, cs: seq<Cell>, k: nat)
    requires 0 < n && k < |cs| < U32 && |CellsOf(cs)| <= n
    ensures |Results(h, Empty(n), cs)| == |cs|
    ensures Results(h, Empty(n), cs)[k] == Count(cs[..k + 1], cs[k])
  {
    var none: map<Cell, nat> := map[];
    ResultsLength(h, Empty(n), cs);
    ResultsFrom(h, Empty(n), none, cs, CellsOf(cs), k);
  }

  /** A bump returns 0 exactly on a full table without the cell or on the last u32 epoch, so 0 is
      the failure sentinel it is meant to be only while no epoch wraps. */
  lemma ZeroExactly(h: Hash, slots: Slots, m: map<Cell, nat>, c: Cell)
    requires 0 < |slots| && Holds(h, slots, m)
    requires forall b :: b in m ==> m[b] < U32
    ensures Bump(h, slots, c).1 == 0 <==> if c in m then m[c] == U32 - 1 else |m| == |slots|
  {
    if c in m && m[c] == U32 - 1 {
      var j :| 0 <= j < |slots| && slots[j] == EpochSlot(c, m[c]);
      ChainedFinds(h, TagsOf(slots), j);
    } else {
      BumpRefines(h, slots, m, c);
      HoldsSize(h, slots, m);
    }
  }
}
