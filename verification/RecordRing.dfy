/** The native core's replay record FIFO: handlers append, the per-tick flush drains a snapshot. */
module RecordRing {
  import opened Prelude

  const CAP: nat := 65536

  // -------------------------------------------------------------------------------------
  // As a queue, with its history
  // -------------------------------------------------------------------------------------

  /** `drained` is everything handed out so far, in order. */
  datatype Queue<R> = Queue(buffered: seq<R>, drained: seq<R>, dropped: nat)

  datatype Op<R> = Append(rec: R) | Drain(limit: nat)

  function Do<R>(q: Queue<R>, op: Op<R>): Queue<R> {
    match op
    case Append(r) =>
      if |q.buffered| >= CAP then q.(dropped := q.dropped + 1) else q.(buffered := q.buffered + [r])
    case Drain(limit) =>
      var n := if limit < |q.buffered| then limit else |q.buffered|;
      q.(buffered := q.buffered[n..], drained := q.drained + q.buffered[..n])
  }

  function Run<R>(q: Queue<R>, ops: seq<Op<R>>): Queue<R>
    decreases |ops|
  {
    if ops == [] then q else Run(Do(q, ops[0]), ops[1..])
  }

  /** The records the ring accepted, in append order. */
  function Accepted<R>(q: Queue<R>, ops: seq<Op<R>>): seq<R>
    decreases |ops|
  {
    if ops == [] then []
    else
      (if ops[0].Append? && |q.buffered| < CAP then [ops[0].rec] else []) + Accepted(Do(q, ops[0]), ops[1..])
  }

  function Appends<R>(ops: seq<Op<R>>): nat {
    if ops == [] then 0 else (if ops[0].Append? then 1 else 0) + Appends(ops[1..])
  }

  lemma StepConserves<R>(q: Queue<R>, op: Op<R>)
    requires |q.buffered| <= CAP
    ensures var q' := Do(q, op);
            && |q'.buffered| <= CAP
            && q'.drained + q'.buffered
               == q.drained + q.buffered + if op.Append? && |q.buffered| < CAP then [op.rec] else []
  {
    if op.Drain? {
      var n := if op.limit < |q.buffered| then op.limit else |q.buffered|;
      assert q.buffered == q.buffered[..n] + q.buffered[n..];
    }
  }

  /** Over any history of appends and drains: the accepted records are, in append order and each
      exactly once, those drained and then those still buffered; every append is accepted or counted
      as dropped; and at most CAP records are buffered. */
  lemma {:induction false} RecordsConserved<R>(q: Queue<R>, ops: seq<Op<R>>)
    requires |q.buffered| <= CAP
    ensures var q' := Run(q, ops);
            && q'.drained + q'.buffered == q.drained + q.buffered + Accepted(q, ops)
            && |Accepted(q, ops)| + q'.dropped == q.dropped + Appends(ops)
            && |q'.buffered| <= CAP
    decreases |ops|
  {
    if ops != [] {
      StepConserves(q, ops[0]);
      var q1 := Do(q, ops[0]);
      RecordsConserved(q1, ops[1..]);
      var first := if ops[0].Append? && |q.buffered| < CAP then [ops[0].rec] else [];
      hide Do;
      Assoc(q.drained + q.buffered, first, Accepted(q1, ops[1..]));
    }
  }

  function Min(a: nat, b: nat): nat { if a < b then a else b }

  /** A drain hands out as many of the oldest records as it may: all of them, or `limit`. */
  lemma DrainExactly<R>(q: Queue<R>, limit: nat)
    ensures var q' := Do(q, Drain(limit));
            && |q'.drained| == |q.drained| + Min(limit, |q.buffered|)
            && |q'.buffered| == |q.buffered| - Min(limit, |q.buffered|)
            && q'.drained + q'.buffered == q.drained + q.buffered && q'.dropped == q.dropped
  {
    var n := Min(limit, |q.buffered|);
    assert q.buffered == q.buffered[..n] + q.buffered[n..];
  }

  /** Drains of `limit` each. */
  function Drains<R>(limit: nat, n: nat): seq<Op<R>> { if n == 0 then [] else [Drain(limit)] + Drains(limit, n - 1) }

  /** Enough drains hand out everything accepted, in append order. */
  lemma {:induction false} DrainsEmpty<R>(q: Queue<R>, limit: nat, n: nat)
    requires 0 < limit && |q.buffered| <= n * limit
    ensures Run(q, Drains(limit, n)) == q.(buffered := [], drained := q.drained + q.buffered)
    decreases n
  {
    if n == 0 {
      assert q.drained + q.buffered == q.drained;
    } else {
      var q1 := Do(q, Drain(limit));
      DrainExactly(q, limit);
      assert (n - 1) * limit == n * limit - limit;
      DrainsEmpty(q1, limit, n - 1);
      assert Drains<R>(limit, n)[1..] == Drains(limit, n - 1);
    }
  }

  // -------------------------------------------------------------------------------------
  // The ring
  // -------------------------------------------------------------------------------------

  /** The `n` records from position `from` on. */
  ghost function Span<R>(slots: seq<R>, from: nat, n: nat): (b: seq<R>)
    requires |slots| == CAP
    ensures |b| == n && forall i :: 0 <= i < n ==> b[i] == slots[(from + i) % CAP]
  {
    seq(n, i requires 0 <= i < n => slots[(from + i) % CAP])
  }

  class Ring<R> {
    const records: array<R>
    var head: nat
    var tail: nat
    var dropped: nat

    ghost predicate Valid()
      reads this
    {
      records.Length == CAP && head <= tail <= head + CAP
    }

    /** Head and tail only grow; a position's slot is its remainder. */
    ghost function Buffered(): seq<R>
      requires Valid()
      reads this, records
    {
      Span(records[..], head, tail - head)
    }

    constructor (zero: R)
      ensures Valid() && fresh(records) && Buffered() == [] && dropped == 0
    {
      records := new R[CAP](_ => zero);
      head, tail, dropped := 0, 0, 0;
    }

    method AppendRecord(rec: R)
      requires Valid()
      modifies this`tail, this`dropped, records
      ensures Valid()
      ensures var q := Do(Queue(old(Buffered()), [], old(dropped)), Append(rec));
              Buffered() == q.buffered && dropped == q.dropped
    {
      if tail - head >= CAP {
        dropped := dropped + 1;
      } else {
        ghost var before := Buffered();
        forall i | 0 <= i < |before| ensures before[i] == records[..][tail % CAP := rec][(head + i) % CAP] {
          Apart(head + i, tail);
        }
        records[tail % CAP] := rec;
        tail := tail + 1;
        assert Buffered() == before + [rec];
      }
    }

    /** Copies at most `limit` records of what was buffered at the call. */
    method DrainRecords(limit: nat) returns (out: seq<R>, more: bool)
      requires Valid()
      modifies this`head
      ensures Valid()
      ensures var q := Do(Queue(old(Buffered()), [], dropped), Drain(limit));
              Buffered() == q.buffered && out == q.drained && (more <==> q.buffered != [])
    {
      var end := tail;
      ghost var before := Buffered();
      out := [];
      while head < end && |out| < limit
        invariant head == old(head) + |out| && head <= end == tail && |out| <= limit
        invariant out == before[..|out|]
        decreases end - head
      {
        out := out + [records[head % CAP]];
        head := head + 1;
      }
      assert Buffered() == before[|out|..];
      assert [] + out == out;
      more := head < end;
    }
  }

  /** Positions less than a capacity apart have different slots. */
  lemma Apart(a: nat, b: nat)
    requires a < b < a + CAP
    ensures a % CAP != b % CAP
  {
  }
}
