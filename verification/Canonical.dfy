/** The replay event set and its canonical order: spawns before moves before despawns, then by
    actor id, then by input tick. The order within one key is arrival order (a stable sort). */
module Canonical {

  datatype Event =
    | Spawn(actorId: int, px: int, py: int, pz: int, vx: int, vy: int, vz: int, flags: int)
    | Move(actorId: int, inputTick: int, mx: int, my: int, mz: int, flags: int)
    | Despawn(actorId: int)

  datatype Key = Key(rank: int, actor: int, tick: int)

  function KeyOf(e: Event): Key {
    match e
    case Spawn(a, _, _, _, _, _, _, _) => Key(0, a, 0)
    case Move(a, t, _, _, _, _) => Key(1, a, t)
    case Despawn(a) => Key(2, a, 0)
  }

  /** Python's tuple comparison. */
  predicate KeyLe(a: Key, b: Key) {
    a.rank < b.rank || (a.rank == b.rank && (a.actor < b.actor || (a.actor == b.actor && a.tick <= b.tick)))
  }

  predicate Le(a: Event, b: Event) { KeyLe(KeyOf(a), KeyOf(b)) }

  predicate Sorted(es: seq<Event>) {
    forall i, j :: 0 <= i < j < |es| ==> Le(es[i], es[j])
  }

  /** Adjacent order, as the reader checks it, is order everywhere. */
  lemma {:induction false} SortedCons(es: seq<Event>)
    requires |es| >= 2
    ensures Sorted(es) <==> Le(es[0], es[1]) && Sorted(es[1..])
  {
    if Le(es[0], es[1]) && Sorted(es[1..]) {
      forall i, j | 0 <= i < j < |es| ensures Le(es[i], es[j]) {
        assert es[j] == es[1..][j - 1];
        if i > 0 { assert es[i] == es[1..][i - 1]; }
      }
    }
    if Sorted(es) {
      forall i, j | 0 <= i < j < |es[1..]| ensures Le(es[1..][i], es[1..][j]) {}
    }
  }

  /** Insert before the first event that is not smaller, so equal keys keep arrival order. */
  function Insert(e: Event, es: seq<Event>): seq<Event> {
    if es == [] || Le(e, es[0]) then [e] + es else [es[0]] + Insert(e, es[1..])
  }

  function Sort(es: seq<Event>): seq<Event> {
    if es == [] then [] else Insert(es[0], Sort(es[1..]))
  }

  /** The events with a given key, in order. */
  function WithKey(es: seq<Event>, k: Key): seq<Event> {
    if es == [] then []
    else (if KeyOf(es[0]) == k then [es[0]] else []) + WithKey(es[1..], k)
  }

  lemma HeadLeast(es: seq<Event>, x: Event)
    requires Sorted(es) && x in es
    ensures Le(es[0], x)
  {
  }

  lemma ConsSorted(e: Event, es: seq<Event>)
    requires Sorted(es) && forall x :: x in es ==> Le(e, x)
    ensures Sorted([e] + es)
  {
  }

  lemma {:induction false} InsertSorts(e: Event, es: seq<Event>)
    requires Sorted(es)
    ensures Sorted(Insert(e, es)) && multiset(Insert(e, es)) == multiset{e} + multiset(es)
    ensures |Insert(e, es)| == |es| + 1
  {
    if es != [] {
      assert es == [es[0]] + es[1..];
      if Le(e, es[0]) {
        forall x | x in es ensures Le(e, x) { HeadLeast(es, x); }
        ConsSorted(e, es);
      } else {
        InsertSorts(e, es[1..]);
        var rest := Insert(e, es[1..]);
        forall x | x in rest ensures Le(es[0], x) {
          assert x in multiset(rest);
          if x != e { HeadLeast(es, x); }
        }
        ConsSorted(es[0], rest);
      }
    }
  }

  lemma {:induction false} InsertWithKey(e: Event, es: seq<Event>, k: Key)
    ensures WithKey(Insert(e, es), k) == (if KeyOf(e) == k then [e] else []) + WithKey(es, k)
  {
    if es == [] || Le(e, es[0]) {
      assert ([e] + es)[1..] == es;
    } else {
      InsertWithKey(e, es[1..], k);
      var rest := Insert(e, es[1..]);
      assert ([es[0]] + rest)[1..] == rest;
    }
  }

  /** Sorting orders the events, loses and invents none, and keeps arrival order within a key. */
  lemma {:induction false} SortIsStable(es: seq<Event>, k: Key)
    ensures Sorted(Sort(es)) && multiset(Sort(es)) == multiset(es) && |Sort(es)| == |es|
    ensures WithKey(Sort(es), k) == WithKey(es, k)
  {
    if es != [] {
      SortIsStable(es[1..], k);
      InsertSorts(es[0], Sort(es[1..]));
      InsertWithKey(es[0], Sort(es[1..]), k);
      assert es == [es[0]] + es[1..];
    }
  }

  lemma {:induction false} SortSorted(es: seq<Event>)
    requires Sorted(es)
    ensures Sort(es) == es
  {
    if es != [] {
      assert Sorted(es[1..]);
      SortSorted(es[1..]);
      if |es| > 1 { assert Le(es[0], es[1]); }
      assert es == [es[0]] + es[1..];
    }
  }

  /** Within the batch an event is determined by its key. */
  ghost predicate KeysDetermine(es: seq<Event>) {
    forall a, b :: a in es && b in es && KeyOf(a) == KeyOf(b) ==> a == b
  }

  lemma TailParts(es: seq<Event>)
    requires es != []
    ensures multiset(es) == multiset{es[0]} + multiset(es[1..])
    ensures Sorted(es) ==> Sorted(es[1..])
    ensures KeysDetermine(es) ==> KeysDetermine(es[1..])
  {
    assert es == [es[0]] + es[1..];
  }

  lemma SortedHeads(a: seq<Event>, b: seq<Event>)
    requires Sorted(a) && Sorted(b) && multiset(a) == multiset(b) && KeysDetermine(a) && a != [] && b != []
    ensures a[0] == b[0]
  {
    assert a[0] in multiset(b) && b[0] in multiset(a);
    HeadLeast(a, b[0]);
    HeadLeast(b, a[0]);
  }

  lemma {:induction false} SortedUnique(a: seq<Event>, b: seq<Event>)
    requires Sorted(a) && Sorted(b) && multiset(a) == multiset(b) && KeysDetermine(a)
    ensures a == b
  {
    assert |multiset(a)| == |a| && |multiset(b)| == |b|;
    if a != [] {
      SortedHeads(a, b);
      TailParts(a);
      TailParts(b);
      assert multiset(a[1..]) == multiset(a) - multiset{a[0]} == multiset(b[1..]);
      SortedUnique(a[1..], b[1..]);
    }
  }

  /** When keys determine events, the canonical form depends on the multiset of events only, not
      on the order they arrived in. */
  lemma SortDeterministic(a: seq<Event>, b: seq<Event>)
    requires multiset(a) == multiset(b) && KeysDetermine(a)
    ensures Sort(a) == Sort(b)
  {
    var k := Key(0, 0, 0);
    SortIsStable(a, k);
    SortIsStable(b, k);
    forall x | x in Sort(a) ensures x in a { assert x in multiset(Sort(a)); }
    SortedUnique(Sort(a), Sort(b));
  }

  /** What the order means: all spawns, then all moves, then all despawns, by actor within a kind, and
      an actor's moves by input tick. */
  lemma CanonicalMeans(es: seq<Event>, i: nat, j: nat)
    requires i < j < |es|
    ensures |Sort(es)| == |es|
    ensures var a, b := Sort(es)[i], Sort(es)[j];
            && (b.Spawn? ==> a.Spawn? && a.actorId <= b.actorId)
            && (b.Move? ==> a.Spawn? || (a.Move? && a.actorId <= b.actorId))
            && (b.Move? && a.Move? && a.actorId == b.actorId ==> a.inputTick <= b.inputTick)
            && (b.Despawn? && a.Despawn? ==> a.actorId <= b.actorId)
  {
    SortIsStable(es, Key(0, 0, 0));
    assert Le(Sort(es)[i], Sort(es)[j]);
  }
}
