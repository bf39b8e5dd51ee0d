/** Linear probing over a circular table, shared by the native core's dirty set and epoch table.
    A slot is seen through its tag: None when it is empty, Some(cell) when a cell occupies it.
    The source's `hash & (count - 1)` on a power-of-two table is `hash % count` here. */
module Probing {
  import opened Prelude
  import opened Spatial
  import opened Circular

  type Hash = Cell -> nat

  function Home(h: Hash, n: nat, c: Cell): (i: nat)
    requires 0 < n
    ensures i < n
  {
    h(c) % n
  }

  type Tags = seq<Option<Cell>>

  /** The probe stops on an empty slot or on the cell itself. */
  predicate Stops(t: Option<Cell>, c: Cell) { t == None || t == Some(c) }

  /** The distance at which the probe stops, looking from distance `d` on; None when no slot of
      the whole table stops it. */
  function Probe(tags: Tags, home: nat, d: nat, c: Cell): (r: Option<nat>)
    requires home < |tags| && d <= |tags|
    ensures r.Some? ==> d <= r.value < |tags| && Stops(tags[At(|tags|, home, r.value)], c)
    ensures r.Some? ==> forall x :: d <= x < r.value ==> !Stops(tags[At(|tags|, home, x)], c)
    ensures r.None? ==> forall x :: d <= x < |tags| ==> !Stops(tags[At(|tags|, home, x)], c)
    decreases |tags| - d
  {
    if d == |tags| then None
    else if Stops(tags[At(|tags|, home, d)], c) then Some(d)
    else Probe(tags, home, d + 1, c)
  }

  /** The slot an insert-or-touch of the cell lands on. */
  function Find(h: Hash, tags: Tags, c: Cell): (r: Option<nat>)
    requires 0 < |tags|
    ensures r.Some? ==> r.value < |tags| && Stops(tags[r.value], c)
  {
    var home := Home(h, |tags|, c);
    var d := Probe(tags, home, 0, c);
    if d.Some? then Some(At(|tags|, home, d.value)) else None
  }

  /** The full result occurs exactly when every slot holds another cell. */
  lemma FullExactly(h: Hash, tags: Tags, c: Cell)
    requires 0 < |tags|
    ensures Find(h, tags, c).None? <==> forall i :: 0 <= i < |tags| ==> tags[i].Some? && tags[i] != Some(c)
  {
    var home := Home(h, |tags|, c);
    forall i | 0 <= i < |tags| && Find(h, tags, c).None? ensures !Stops(tags[i], c) {
      assert !Stops(tags[At(|tags|, home, Dist(|tags|, home, i))], c);
    }
  }

  /** Every slot between an occupied slot and its cell's home is occupied by some other cell. */
  ghost predicate Chained(h: Hash, tags: Tags) {
    forall i :: 0 <= i < |tags| && tags[i].Some? ==> ChainTo(h, tags, i)
  }

  ghost predicate ChainTo(h: Hash, tags: Tags, i: nat)
    requires i < |tags| && tags[i].Some?
  {
    var home := Home(h, |tags|, tags[i].value);
    forall x :: 0 <= x < Dist(|tags|, home, i) ==> !Stops(tags[At(|tags|, home, x)], tags[i].value)
  }

  /** In a chained table a cell occupies at most one slot, and the probe finds it. */
  lemma ChainedFinds(h: Hash, tags: Tags, i: nat)
    requires i < |tags| && tags[i].Some? && Chained(h, tags)
    ensures Find(h, tags, tags[i].value) == Some(i)
  {
    var c := tags[i].value;
    var home := Home(h, |tags|, c);
    var d := Dist(|tags|, home, i);
    assert ChainTo(h, tags, i);
    assert Stops(tags[At(|tags|, home, d)], c);
  }

  lemma ChainedUnique(h: Hash, tags: Tags, i: nat, j: nat)
    requires i < |tags| && j < |tags| && tags[i].Some? && tags[i] == tags[j] && Chained(h, tags)
    ensures i == j
  {
    ChainedFinds(h, tags, i);
    ChainedFinds(h, tags, j);
  }

  /** Inserting at the probed slot keeps the table chained; so does overwriting with the same tag. */
  lemma InsertKeepsChained(h: Hash, tags: Tags, c: Cell)
    requires 0 < |tags| && Chained(h, tags) && Find(h, tags, c).Some?
    ensures Chained(h, tags[Find(h, tags, c).value := Some(c)])
  {
    var n, home := |tags|, Home(h, |tags|, c);
    var d := Probe(tags, home, 0, c).value;
    var i := At(n, home, d);
    var tags' := tags[i := Some(c)];
    forall j | 0 <= j < n && tags'[j].Some? ensures ChainTo(h, tags', j) {
      if j == i {
        assert Dist(n, home, i) == d;
      } else {
        assert ChainTo(h, tags, j);
        var b := tags[j].value;
        var hb := Home(h, n, b);
        forall x | 0 <= x < Dist(n, hb, j) ensures !Stops(tags'[At(n, hb, x)], b) {
          assert !Stops(tags[At(n, hb, x)], b);
          if At(n, hb, x) == i { assert tags[i] == Some(c); }
        }
      }
    }
  }
}
