/** The bytes the replayer hashes for an actor, against the wire format's own packing. */
module HashLayout {
  import opened Prelude
  import opened Struct
  import opened Canonical
  import opened ReplayFormat
  import opened ActorMap

  const NODE: Layout := [U(8), S(8), S(8), S(8), S(8), S(8), S(8), U(4), U(4)]

  function NodeFields(id: int, b: Body): seq<int> {
    [id, b.px, b.py, b.pz, b.vx, b.vy, b.vz, b.inputTick, b.flags]
  }

  /** A field in range is packed as its remainder: two's complement. */
  lemma PackWrapped(l: Layout, vs: seq<int>)
    requires l != [] && Fits(l, vs)
    ensures Fits(l[1..], vs[1..]) && Pack(l, vs) == Wrapped(l[0].w, vs[0]) + Pack(l[1..], vs[1..])
  {
    var p := Pow(l[0].w);
    Residue(p, vs[0], Raw(l[0], vs[0]));
  }

  lemma Residue(p: nat, v: int, r: int)
    requires 0 <= r < p && (r == v || r == v + p)
    ensures v % p == r
  {
    var q := v / p;
    assert v == p * q + v % p;
    assert q >= 1 ==> p * q >= p;
    assert q <= -2 ==> p * q <= -2 * p;
  }

  /** The hash packs a state in range with the layout of the replay tool. */
  lemma ActorBytesPacked(id: int, b: Body)
    requires Fits(NODE, NodeFields(id, b))
    ensures ActorBytes(id, b) == Pack(NODE, NodeFields(id, b))
  {
    hide Wrapped, Pack, Fits;
    var l, v := NODE, NodeFields(id, b);
    PackWrapped(l, v);
    PackWrapped(l[1..], v[1..]);
    PackWrapped(l[1..][1..], v[1..][1..]);
    PackWrapped(l[1..][1..][1..], v[1..][1..][1..]);
    var l4, v4 := l[1..][1..][1..][1..], v[1..][1..][1..][1..];
    assert l4 == NODE[4..] && v4 == v[4..];
    PackWrapped(l4, v4);
    PackWrapped(l4[1..], v4[1..]);
    PackWrapped(l4[1..][1..], v4[1..][1..]);
    PackWrapped(l4[1..][1..][1..], v4[1..][1..][1..]);
    var l8, v8 := l4[1..][1..][1..][1..], v4[1..][1..][1..][1..];
    assert l8 == [U(4)] && v8 == [b.flags];
    PackWrapped(l8, v8);
    PackNone(l8[1..], v8[1..]);
    assert Wrapped(4, b.flags) + [] == Wrapped(4, b.flags);
  }

  lemma {:induction false} PackAppend(a: Layout, xs: seq<int>, b: Layout, ys: seq<int>)
    requires Fits(a, xs) && Fits(b, ys)
    ensures Fits(a + b, xs + ys) && Pack(a + b, xs + ys) == Pack(a, xs) + Pack(b, ys)
    decreases |a|
  {
    hide Wrapped, FieldFits;
    if a == [] {
      assert a + b == b && xs + ys == ys;
    } else {
      assert (a + b)[1..] == a[1..] + b && (xs + ys)[1..] == xs[1..] + ys;
      PackAppend(a[1..], xs[1..], b, ys);
      PackWrapped(a, xs);
      PackWrapped(a + b, xs + ys);
      Assoc(Wrapped(a[0].w, xs[0]), Pack(a[1..], xs[1..]), Pack(b, ys));
    }
  }

  const FIRST: Layout := [U(8), S(8), S(8), S(8), S(8), S(8), S(8)]

  function FirstFields(e: Event): seq<int>
    requires e.Spawn?
  {
    [e.actorId, e.px, e.py, e.pz, e.vx, e.vy, e.vz]
  }

  lemma SpawnFits(e: Event)
    requires e.Spawn? && EventFits(e)
    ensures Fits(FIRST, FirstFields(e)) && Fits([U(4)], [e.flags]) && Fits([U(4)], [0])
  {
    assert Fields(e)[7] == e.flags && SPAWN[7] == U(4);
    forall i | 0 <= i < 7 ensures FieldFits(FIRST[i], FirstFields(e)[i]) {
      assert FIRST[i] == SPAWN[i] && FirstFields(e)[i] == Fields(e)[i];
    }
    assert Pow(4) > 0;
  }

  /** The spawn record in two parts. */
  lemma SpawnParts(e: Event, first: seq<Byte>, flags: seq<Byte>)
    requires e.Spawn? && EventFits(e)
    requires Fits(FIRST, FirstFields(e)) && first == Pack(FIRST, FirstFields(e))
    requires Fits([U(4)], [e.flags]) && flags == Pack([U(4)], [e.flags])
    ensures PackEvent(e) == [Code(e)] + (first + flags) && |first| == 56 && |flags| == 4
  {
    Sizes();
    hide Pack;
    PackAppend(FIRST, FirstFields(e), [U(4)], [e.flags]);
    assert FIRST + [U(4)] == SPAWN && FirstFields(e) + [e.flags] == Fields(e);
    assert Size([U(4)]) == 4 by { assert [U(4)][1..] == []; }
  }

  /** The hashed state in three parts. */
  lemma HashedParts(e: Event, first: seq<Byte>, flags: seq<Byte>)
    requires e.Spawn? && EventFits(e)
    requires Fits(FIRST, FirstFields(e)) && first == Pack(FIRST, FirstFields(e))
    requires Fits([U(4)], [e.flags]) && flags == Pack([U(4)], [e.flags]) && Fits([U(4)], [0])
    ensures ActorBytes(e.actorId, Spawned(e)) == first + ([0, 0, 0, 0] + flags)
  {
    hide Pack, ActorBytes, EventFits, FieldFits;
    PackAppend([U(4)], [0], [U(4)], [e.flags]);
    PackAppend(FIRST, FirstFields(e), [U(4)] + [U(4)], [0] + [e.flags]);
    assert FIRST + ([U(4)] + [U(4)]) == NODE;
    assert FirstFields(e) + ([0] + [e.flags]) == NodeFields(e.actorId, Spawned(e));
    ActorBytesPacked(e.actorId, Spawned(e));
    ZeroTick();
  }

  /** A freshly spawned actor is hashed as its own spawn record with a zero input tick before the
      flags: every field reaches the hash from where the record carries it. */
  lemma SpawnedBytes(e: Event)
    requires e.Spawn? && EventFits(e)
    ensures |PackEvent(e)| == 61
    ensures ActorBytes(e.actorId, Spawned(e)) == PackEvent(e)[1..57] + [0, 0, 0, 0] + PackEvent(e)[57..]
  {
    SpawnFits(e);
    hide Pack, Fits, ActorBytes, PackEvent, EventFits;
    var first, flags := Pack(FIRST, FirstFields(e)), Pack([U(4)], [e.flags]);
    SpawnParts(e, first, flags);
    HashedParts(e, first, flags);
    var p := PackEvent(e);
    assert p[1..57] == first && p[57..] == flags;
    Assoc(first, [0, 0, 0, 0], flags);
  }

  lemma ZeroTick()
    ensures Fits([U(4)], [0]) && Pack([U(4)], [0]) == [0, 0, 0, 0]
  {
    assert Pow(4) > 0;
    PackWrapped([U(4)], [0]);
    assert [U(4)][1..] == [] && [0][1..] == [];
    assert Digits(4, 0) == Digits(3, 0) + [0];
    assert Digits(3, 0) == Digits(2, 0) + [0];
  }

  // -------------------------------------------------------------------------------------
  // The whole hash
  // -------------------------------------------------------------------------------------

  /** Bit `k` of a number. */
  function Bit(x: nat, k: nat): nat { if k == 0 then x % 2 else Bit(x / 2, k - 1) }

  /** The exclusive or, bit by bit. */
  lemma {:induction false} XorBits(x: nat, y: nat, k: nat)
    ensures Bit(Xor(x, y), k) == (Bit(x, k) + Bit(y, k)) % 2
    decreases k
  {
    hide Xor;
    XorSplit(x, y);
    if k > 0 { XorBits(x / 2, y / 2, k - 1); }
  }

  lemma XorSplit(x: nat, y: nat)
    ensures Xor(x, y) % 2 == (x % 2 + y % 2) % 2 && Xor(x, y) / 2 == Xor(x / 2, y / 2)
  {
    var rest, low := Xor(x / 2, y / 2), if x % 2 == y % 2 then 0 else 1;
    XorUnfold(x, y);
    hide Xor;
    Halve(rest, low);
  }

  lemma XorUnfold(x: nat, y: nat)
    ensures Xor(x, y) == 2 * Xor(x / 2, y / 2) + if x % 2 == y % 2 then 0 else 1
  {
    if x == 0 {
      XorZero(y / 2);
    } else if y == 0 {
      XorZero(x / 2);
    }
  }

  lemma XorZero(x: nat)
    ensures Xor(0, x) == x && Xor(x, 0) == x
  {
  }

  lemma Halve(rest: nat, low: nat)
    requires low < 2
    ensures (2 * rest + low) / 2 == rest && (2 * rest + low) % 2 == low
  {
  }

  /** FNV-1a with its published numbers: from the 64-bit offset basis, each byte first by exclusive or into
      the accumulator, then the accumulator times the prime, modulo two to the sixty-fourth. */
  function Fnv1a(h: nat, bs: seq<Byte>): nat
    decreases |bs|
  {
    if bs == [] then h else Fnv1a((Xor(h, bs[0]) * 1099511628211) % 18446744073709551616, bs[1..])
  }

  /** The hashed bytes of the actors in the order of these ids. */
  function Rows(a: Actors, ids: seq<int>): seq<Byte>
    requires forall id :: id in ids ==> id in a && Fits(NODE, NodeFields(id, a[id]))
  {
    if ids == [] then [] else Pack(NODE, NodeFields(ids[0], a[ids[0]])) + Rows(a, ids[1..])
  }

  lemma {:induction false} FoldIs1a(h: nat, bs: seq<Byte>)
    ensures Fold(h, bs) == Fnv1a(h, bs)
    decreases |bs|
  {
    if bs != [] { FoldIs1a(Mix(h, bs[0]), bs[1..]); }
  }

  lemma {:induction false} FoldAppend(h: nat, a: seq<Byte>, b: seq<Byte>)
    ensures Fold(h, a + b) == Fold(Fold(h, a), b)
    decreases |a|
  {
    hide Mix;
    if a == [] {
      assert a + b == b;
    } else {
      assert (a + b)[1..] == a[1..] + b;
      FoldAppend(Mix(h, a[0]), a[1..], b);
    }
  }

  lemma {:induction false} FoldRows(h: nat, a: Actors, ids: seq<int>)
    requires forall id :: id in ids ==> id in a && Fits(NODE, NodeFields(id, a[id]))
    ensures FoldActors(h, a, ids) == Fold(h, Rows(a, ids))
    decreases |ids|
  {
    hide Fold, Fits, Pack, ActorBytes;
    if ids == [] {
      FoldNothing(h);
    } else {
      ActorBytesPacked(ids[0], a[ids[0]]);
      FoldAppend(h, ActorBytes(ids[0], a[ids[0]]), Rows(a, ids[1..]));
      FoldRows(Fold(h, ActorBytes(ids[0], a[ids[0]])), a, ids[1..]);
    }
  }

  lemma FoldNothing(h: nat)
    ensures Fold(h, []) == h
  {
  }

  lemma CountBytes(n: nat)
    requires n < Pow(8)
    ensures Wrapped(8, n) == Digits(8, n)
  {
    hide Pow, Digits;
    Residue(Pow(8), n, n);
  }

  /** The hash of a table in range is the FNV-1a of one byte string: the actor count in eight bytes, then
      every actor by ascending id, its fields packed in the tool's layout. */
  lemma HashExactly(a: Actors, ids: seq<int>)
    requires |a| < Pow(8) && AscendingIds(ids) && (forall id :: id in ids <==> id in a) && |ids| == |a|
    requires forall id :: id in a ==> Fits(NODE, NodeFields(id, a[id]))
    ensures HashOf(a) == Fnv1a(14695981039346656037, Digits(8, |a|) + Rows(a, ids))
  {
    hide Fold, Fits, Digits, Wrapped, Fnv1a, FoldActors, Rows, Pow;
    var sorted := SortedIds(a.Keys);
    AscendingUnique(sorted, ids);
    CountBytes(|a|);
    FoldRows(Fold(FNV_OFFSET, Wrapped(8, |a|)), a, ids);
    FoldAppend(FNV_OFFSET, Digits(8, |a|), Rows(a, ids));
    FoldIs1a(FNV_OFFSET, Digits(8, |a|) + Rows(a, ids));
  }

  /** A set has one ascending listing. */
  lemma {:induction false} AscendingUnique(a: seq<int>, b: seq<int>)
    requires AscendingIds(a) && AscendingIds(b) && forall x :: x in a <==> x in b
    ensures a == b
    decreases |a|
  {
    assert b != [] ==> b[0] in b;
    if a != [] {
      assert a[0] in a && a[0] in b && b[0] in a;
      assert a[0] == b[0];
      forall x ensures x in a[1..] <==> x in b[1..] {
        assert x in a <==> x == a[0] || x in a[1..];
        assert x in b <==> x == b[0] || x in b[1..];
      }
      AscendingUnique(a[1..], b[1..]);
      assert a == [a[0]] + a[1..] && b == [b[0]] + b[1..];
    }
  }
}
