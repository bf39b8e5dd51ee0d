/** The native core's generation-stamped dirty set: marking, opening a generation, claiming a slot. */
module DirtySet {
  import opened Prelude
  import opened Spatial
  import opened Circular
  import opened Probing

  /** One slot: the cell plus its generation stamp; stamp 0 is empty. */
  datatype DirtySlot = DirtySlot(cell: Cell, stamp: nat)

  type Slots = seq<DirtySlot>

  function Tag(s: DirtySlot): Option<Cell> { if s.stamp == 0 then None else Some(s.cell) }

  function TagsOf(slots: Slots): (tags: Tags)
    ensures |tags| == |slots| && forall i :: 0 <= i < |slots| ==> tags[i] == Tag(slots[i])
  {
    seq(|slots|, i requires 0 <= i < |slots| => Tag(slots[i]))
  }

  /** `dropped` is the overflow census. */
  datatype Table = Table(slots: Slots, gen: nat, dropped: nat)

  /** Insert-or-touch: a cell already in the table, whatever its stamp, is left alone. */
  function Mark(h: Hash, t: Table, c: Cell): Table
    requires 0 < |t.slots|
  {
    var i := Find(h, TagsOf(t.slots), c);
    if i.None? then t.(dropped := t.dropped + 1)
    else if t.slots[i.value].stamp == 0 then t.(slots := t.slots[i.value := DirtySlot(c, t.gen)])
    else t
  }

  function Cleared(slots: Slots): (r: Slots)
    ensures |r| == |slots| && forall i :: 0 <= i < |slots| ==> r[i] == slots[i].(stamp := 0)
  {
    seq(|slots|, i requires 0 <= i < |slots| => slots[i].(stamp := 0))
  }

  /** Open a new generation; on u32 wrap every stamp is cleared and the count restarts at 1. */
  function Advance(t: Table): Table {
    if t.gen + 1 < U32 then t.(gen := t.gen + 1) else t.(slots := Cleared(t.slots), gen := 1)
  }

  class Set {
    const hash: Hash
    var slots: array<DirtySlot>
    var generation: nat
    var dropped: nat

    ghost function View(): Table
      reads this, slots
    {
      Table(slots[..], generation, dropped)
    }

    constructor (hash: Hash, count: nat)
      ensures this.hash == hash && fresh(slots)
      ensures View() == EmptyTable(count)
    {
      this.hash := hash;
      slots := new DirtySlot[count](_ => DirtySlot(Cell(0, 0, 0), 0));
      generation := 1;
      dropped := 0;
    }

    /** The marking section of an apply, under the bookkeeping lock. */
    method MarkCell(c: Cell)
      requires 0 < slots.Length
      modifies this`dropped, slots
      ensures View() == Mark(hash, old(View()), c)
    {
      var count := slots.Length;
      var i := Home(hash, count, c);
      ghost var tags, home := TagsOf(slots[..]), i;
      var probes := 0;
      while probes < count
        invariant 0 <= probes <= count
        invariant View() == old(View())
        invariant probes < count ==> i == At(count, home, probes)
        invariant Probe(tags, home, probes, c) == Probe(tags, home, 0, c)
      {
        assert tags[i] == Tag(slots[i]);
        if slots[i].stamp == 0 {
          slots[i] := DirtySlot(c, generation);
          return;
        }
        if slots[i].cell == c {
          return;
        }
        i := if i + 1 == count then 0 else i + 1;
        probes := probes + 1;
      }
      dropped := dropped + 1;
    }

    /** The first section of a flush: take the generation to drain and open the next. */
    method BeginFlush() returns (gen: nat)
      modifies this`generation, slots
      ensures gen == old(generation) && View() == Advance(old(View()))
    {
      gen := generation;
      if gen + 1 < U32 {
        generation := gen + 1;
      } else {
        var i := 0;
        while i < slots.Length
          invariant 0 <= i <= slots.Length
          invariant forall j :: 0 <= j < i ==> slots[j] == old(slots[j]).(stamp := 0)
          invariant forall j :: i <= j < slots.Length ==> slots[j] == old(slots[j])
        {
          slots[i] := slots[i].(stamp := 0);
          i := i + 1;
        }
        assert slots[..] == Cleared(old(slots[..]));
        generation := 1;
      }
    }

    /** One slot of the drain: claim it when it carries the drained generation. */
    method ClaimSlot(i: nat, gen: nat) returns (claimed: Option<Cell>)
      requires i < slots.Length && gen != 0
      modifies slots
      ensures claimed == Due(old(View()), i, gen)
      ensures View() == Release(old(View()), i, gen)
    {
      if slots[i].stamp == gen {
        claimed := Some(slots[i].cell);
        slots[i] := slots[i].(stamp := 0);
      } else {
        claimed := None;
      }
    }
  }

  function EmptyTable(n: nat): Table { Table(seq(n, _ => DirtySlot(Cell(0, 0, 0), 0)), 1, 0) }

  /** The cell a drain of generation `gen` claims at slot `i`, and the table it leaves. */
  function Due(t: Table, i: nat, gen: nat): Option<Cell>
    requires i < |t.slots|
  {
    if t.slots[i].stamp == gen then Some(t.slots[i].cell) else None
  }

  function Release(t: Table, i: nat, gen: nat): Table
    requires i < |t.slots|
  {
    if t.slots[i].stamp == gen then t.(slots := t.slots[i := t.slots[i].(stamp := 0)]) else t
  }
}
