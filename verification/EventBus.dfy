/** The control plane's event ring: one producer, one consumer thread that owns the stream cursors.
    The ring as an object; EventStreams interleaves the two threads. */
module EventBus {
  import opened Prelude
  import opened Circular

  /** The live records, oldest first. */
  function Live<R>(slots: seq<R>, tail: nat, head: nat): (r: seq<R>)
    requires tail < |slots| && head < |slots|
    ensures |r| == Dist(|slots|, tail, head)
  {
    Window(slots, tail, Dist(|slots|, tail, head))
  }

  /** The `n` records from slot `from` on. */
  function Window<R>(slots: seq<R>, from: nat, n: nat): (r: seq<R>)
    requires from < |slots| && n <= |slots|
    ensures |r| == n && forall k :: 0 <= k < n ==> r[k] == slots[At(|slots|, from, k)]
  {
    seq(n, k requires 0 <= k < n => slots[At(|slots|, from, k)])
  }

  lemma WindowNext<R>(slots: seq<R>, from: nat, n: nat)
    requires from < |slots| && n < |slots|
    ensures At(|slots|, from, n) < |slots|
    ensures Window(slots, from, n + 1) == Window(slots, from, n) + [slots[At(|slots|, from, n)]]
  {
  }

  lemma LiveWindow<R>(slots: seq<R>, tail: nat, head: nat, cursor: nat, k: nat)
    requires tail < |slots| && head < |slots| && cursor < |slots|
    requires Dist(|slots|, tail, cursor) <= Dist(|slots|, tail, head) && k <= Dist(|slots|, cursor, head)
    ensures var d := Dist(|slots|, tail, cursor);
            d + k <= |Live(slots, tail, head)| && Window(slots, cursor, k) == Live(slots, tail, head)[d..d + k]
  {
  }

  class EventBus<R> {
    const records: array<R>
    var head: nat
    var tail: nat

    ghost predicate Valid()
      reads this
    {
      records.Length > 0 && head < records.Length && tail < records.Length
    }

    ghost function Contents(): seq<R>
      requires Valid()
      reads this, records
    {
      Live(records[..], tail, head)
    }

    constructor (capacity: nat, zero: R)
      requires capacity > 0
      ensures Valid() && fresh(records) && records.Length == capacity && Contents() == []
    {
      records := new R[capacity](_ => zero);
      head, tail := 0, 0;
    }

    /** A bounded queue: refuses exactly when one slot is left, otherwise appends. */
    method Publish(event: R) returns (accepted: bool)
      requires Valid()
      modifies this`head, records
      ensures Valid() && (accepted <==> |old(Contents())| < records.Length - 1)
      ensures Contents() == old(Contents()) + if accepted then [event] else []
    {
      var next := if head + 1 < records.Length then head + 1 else 0;
      if next == tail {
        assert Contents() + [] == Contents();
        return false;
      }
      ghost var before := Contents();
      records[head] := event;
      head := next;
      assert Contents() == before + [event];
      return true;
    }

    /** From any cursor that indexes a slot, the next records up to the head or the limit; from a
        live cursor, exactly the next live ones. */
    method Drain(cursor: nat, limit: nat) returns (out: seq<R>, next: nat)
      requires Valid() && cursor < records.Length
      ensures next < records.Length
      ensures var n := Dist(records.Length, cursor, head);
              var k := if limit < n then limit else n;
              out == Window(records[..], cursor, k) && next == At(records.Length, cursor, k)
      ensures var d := Dist(records.Length, tail, cursor);
              d <= |Contents()| ==> d + |out| <= |Contents()| && out == Contents()[d..d + |out|]
    {
      out, next := [], cursor;
      ghost var n := Dist(records.Length, cursor, head);
      while |out| < limit && next != head
        invariant next < records.Length && |out| <= limit && |out| <= n
        invariant next == At(records.Length, cursor, |out|) && out == Window(records[..], cursor, |out|)
        decreases n - |out|
      {
        DistAt(records.Length, cursor, |out|);
        WindowNext(records[..], cursor, |out|);
        out := out + [records[next]];
        next := if next + 1 < records.Length then next + 1 else 0;
      }
      DistAt(records.Length, cursor, |out|);
      if Dist(records.Length, tail, cursor) <= |Contents()| { LiveWindow(records[..], tail, head, cursor, |out|); }
    }

    /** The tail moves to the cursor when the guard passes. For a cursor that indexes a slot, that is
        exactly when it lies within the live window, and what lies before it is dropped. The cursor's
        range is not checked: the tail leaves the ring exactly when a cursor at or past the capacity
        passes. */
    method Release(cursor: nat)
      requires Valid() && cursor < U32 && records.Length < U32
      modifies this`tail
      ensures tail == if Passes(records.Length, old(tail), head, cursor) then cursor else old(tail)
      ensures !Valid() <==> cursor >= records.Length && Passes(records.Length, old(tail), head, cursor)
      ensures cursor < records.Length && 2 * records.Length <= U32
              ==> var d := Dist(records.Length, old(tail), cursor);
                  && (Passes(records.Length, old(tail), head, cursor) <==> d <= |old(Contents())|)
                  && (d <= |old(Contents())| ==> Contents() == old(Contents())[d..])
    {
      var live := Distance32(records.Length, tail, head);
      if 2 * records.Length <= U32 {
        Distance32Fits(records.Length, tail, head);
        if cursor < records.Length { Distance32Fits(records.Length, tail, cursor); }
      }
      if Distance32(records.Length, tail, cursor) > live {
        return;
      }
      tail := cursor;
    }
  }

  // -------------------------------------------------------------------------------------
  // The arithmetic at 32 bits
  // -------------------------------------------------------------------------------------

  /** The distance as the 32-bit code computes it. */
  function Distance32(n: nat, home: nat, i: nat): nat
    requires home < n
  {
    ((i + n - home) % U32) % n
  }

  /** The guard of a release. */
  predicate Passes(n: nat, tail: nat, head: nat, cursor: nat)
    requires tail < n
  {
    Distance32(n, tail, cursor) <= Distance32(n, tail, head)
  }

  lemma Small32(x: nat)
    ensures x < U32 ==> x % U32 == x
    ensures U32 <= x < 2 * U32 ==> x % U32 == x - U32
  {
  }

  lemma Distance32Fits(n: nat, home: nat, i: nat)
    requires 0 < n && 2 * n <= U32 && home < n && i < n
    ensures Distance32(n, home, i) == Dist(n, home, i)
  {
    Small32(i + n - home);
    Remainders(n, home, 0, i);
  }

  lemma Distance32Wraps(n: nat)
    requires n < U32 < 2 * n
    ensures Distance32(n, 0, n - 1) != Dist(n, 0, n - 1)
  {
    Small32(2 * n - 1);
    OneTurn(n, 2 * n - 1 - U32);
  }

  /** It is the circular distance for every pair of positions exactly when the capacity is at most
      half the 32-bit range. */
  lemma Distance32Exact(n: nat)
    requires 0 < n < U32
    ensures (forall home: nat, i: nat :: home < n && i < n ==> Distance32(n, home, i) == Dist(n, home, i))
            <==> 2 * n <= U32
  {
    hide Distance32, Dist;
    if 2 * n <= U32 {
      forall home: nat, i: nat | home < n && i < n ensures Distance32(n, home, i) == Dist(n, home, i) {
        Distance32Fits(n, home, i);
      }
    } else {
      Distance32Wraps(n);
    }
  }

  /** Whole turns do not change a position's distance. */
  lemma WholeTurns(n: nat, tail: nat, cursor: nat)
    requires tail < n
    ensures (cursor + n - tail) % n == Dist(n, tail, cursor % n)
  {
    var q, m := cursor / n, cursor % n;
    assert cursor == q * n + m;
    if tail <= m {
      assert (q + 1) * n == q * n + n;
      ModIs(cursor + n - tail, n, q + 1, m - tail);
    } else {
      ModIs(cursor + n - tail, n, q, m + n - tail);
    }
  }

  /** Which 32-bit cursors pass, in a ring of at most 2^31 slots: those congruent to a live position,
      except that near the top of the range the sum overflows and they are measured from there. So a
      live cursor plus any number of whole turns passes as well. */
  lemma PassesExactly(n: nat, tail: nat, head: nat, cursor: nat)
    requires tail < n && head < n && 2 * n <= U32 && cursor < U32
    ensures Passes(n, tail, head, cursor)
            <==> if cursor + n - tail < U32 then Dist(n, tail, cursor % n) <= Dist(n, tail, head)
                 else cursor + n - tail - U32 <= Dist(n, tail, head)
  {
    Distance32Fits(n, tail, head);
    Small32(cursor + n - tail);
    if cursor + n - tail < U32 {
      WholeTurns(n, tail, cursor);
    } else {
      OneTurn(n, cursor + n - tail - U32);
    }
  }
}
