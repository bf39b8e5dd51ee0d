/** Whole documents: encoding them, and what an encoded document reads back as. */
module ReplayDocuments {
  import opened Prelude
  import opened Struct
  import opened Canonical
  import opened ReplayFormat
  import opened ReplayReader
  import opened ReplayWriter
  import opened ReplayRoundTrip

  // -------------------------------------------------------------------------------------
  // Encoding
  // -------------------------------------------------------------------------------------

  /** The checkpoints bound to a tick, in document order. */
  function OfTick(cs: seq<Checkpoint>, tick: int): seq<Checkpoint> {
    if cs == [] then []
    else (if cs[0].tick == tick then [cs[0]] else []) + OfTick(cs[1..], tick)
  }

  function MetaCalls<M>(d: Document<M>): seq<Record<M>> {
    if d.meta.Some? then [MetaRec(d.meta.value)] else []
  }

  function CheckpointCalls<M>(cs: seq<Checkpoint>): seq<Record<M>> {
    if cs == [] then [] else [CheckpointRec(cs[0])] + CheckpointCalls(cs[1..])
  }

  /** Every tick followed by the checkpoints that name it. */
  function TickCalls<M>(ticks: seq<TickRecord>, cs: seq<Checkpoint>): seq<Record<M>> {
    if ticks == [] then []
    else [TickRec(ticks[0])] + CheckpointCalls(OfTick(cs, ticks[0].tick)) + TickCalls(ticks[1..], cs)
  }

  function ExpectedCalls<M>(xs: seq<ExpectedHash>): seq<Record<M>> {
    if xs == [] then [] else [ExpectedRec(xs[0])] + ExpectedCalls(xs[1..])
  }

  predicate HasTick(ticks: seq<TickRecord>, tick: int) { exists i :: 0 <= i < |ticks| && ticks[i].tick == tick }

  predicate AnchorsKnown<M>(d: Document<M>) { forall c :: c in d.checkpoints ==> HasTick(d.ticks, c.tick) }

  /** Write calls up to the first error. */
  function WriteAll<M>(j: Json<M>, w: Writer, calls: seq<Record<M>>): Written
    decreases |calls|
  {
    if calls == [] then Ok(w)
    else
      var r := Write(j, w, calls[0]);
      if r.Ok? then WriteAll(j, r.value, calls[1..]) else r
  }

  function Encode<M>(j: Json<M>, d: Document<M>): Result<seq<Byte>, WriteError> {
    var w := Open(d.tickHz);
    if w.Err? then Err(w.error)
    else
      var m := WriteAll(j, w.value, MetaCalls(d));
      if m.Err? then Err(m.error)
      else if !AnchorsKnown(d) then Err(Misuse)
      else
        var r := WriteAll(j, m.value, TickCalls(d.ticks, d.checkpoints) + ExpectedCalls(d.expected));
        if r.Ok? then Ok(r.value.stream) else Err(r.error)
  }

  /** `byTick` groups the checkpoints, in document order. */
  ghost predicate Groups(cs: seq<Checkpoint>, byTick: map<int, seq<Checkpoint>>) {
    && (forall t :: OfTick(cs, t) == if t in byTick then byTick[t] else [])
    && (forall c :: c in cs ==> c.tick in byTick)
    && (forall t :: t in byTick ==> Occurs(cs, t))
  }

  ghost predicate Occurs(cs: seq<Checkpoint>, t: int) { exists c :: c in cs && c.tick == t }

  /** The grouping loop. */
  method GroupCheckpoints(cs: seq<Checkpoint>) returns (byTick: map<int, seq<Checkpoint>>)
    ensures Groups(cs, byTick)
  {
    hide Groups;
    byTick := map[];
    assert Groups([], byTick) by { NoGroups(); }
    for i := 0 to |cs|
      invariant Groups(cs[..i], byTick)
    {
      var c := cs[i];
      assert cs[..i + 1] == cs[..i] + [c];
      GroupsSnoc(cs[..i], byTick, c);
      byTick := byTick[c.tick := (if c.tick in byTick then byTick[c.tick] else []) + [c]];
    }
    assert cs[..|cs|] == cs;
  }

  lemma NoGroups()
    ensures Groups([], map[])
  {
  }

  lemma GroupsSnoc(cs: seq<Checkpoint>, byTick: map<int, seq<Checkpoint>>, c: Checkpoint)
    requires Groups(cs, byTick)
    ensures Groups(cs + [c], byTick[c.tick := (if c.tick in byTick then byTick[c.tick] else []) + [c]])
  {
    hide OfTick, Occurs;
    var m := byTick[c.tick := (if c.tick in byTick then byTick[c.tick] else []) + [c]];
    forall t ensures OfTick(cs + [c], t) == if t in m then m[t] else [] { SnocAt(cs, byTick, c, t); }
    forall t | t in m ensures Occurs(cs + [c], t) { OccursSnoc(cs, c, t); }
    forall x | x in cs + [c] ensures x.tick in m { assert x in cs || x == c; }
  }

  lemma SnocAt(cs: seq<Checkpoint>, byTick: map<int, seq<Checkpoint>>, c: Checkpoint, t: int)
    requires OfTick(cs, t) == if t in byTick then byTick[t] else []
    ensures var m := byTick[c.tick := (if c.tick in byTick then byTick[c.tick] else []) + [c]];
            OfTick(cs + [c], t) == if t in m then m[t] else []
  {
    hide OfTick;
    OfTickSnoc(cs, c, t);
    assert OfTick(cs, t) + [] == OfTick(cs, t);
  }

  lemma OccursSnoc(cs: seq<Checkpoint>, c: Checkpoint, t: int)
    requires t == c.tick || Occurs(cs, t)
    ensures Occurs(cs + [c], t)
  {
    if t == c.tick {
      assert c in cs + [c];
    } else {
      var x :| x in cs && x.tick == t;
      assert x in cs + [c];
    }
  }

  lemma {:induction false} OfTickSnoc(cs: seq<Checkpoint>, c: Checkpoint, t: int)
    ensures OfTick(cs + [c], t) == OfTick(cs, t) + if c.tick == t then [c] else []
  {
    if cs == [] {
      assert (cs + [c])[1..] == [];
    } else {
      assert (cs + [c])[1..] == cs[1..] + [c];
      OfTickSnoc(cs[1..], c, t);
      var first := if cs[0].tick == t then [cs[0]] else [];
      var last := if c.tick == t then [c] else [];
      assert first + (OfTick(cs[1..], t) + last) == first + OfTick(cs[1..], t) + last;
    }
  }

  /** What a loop of write calls reports: the specified writer, or the first error. */
  ghost predicate Outcome(spec: Written, after: Writer, error: Option<WriteError>) {
    match error
    case None => spec == Ok(after)
    case Some(e) => spec == Err(e)
  }

  lemma CallsCons<M>(j: Json<M>, w: Writer, calls: seq<Record<M>>)
    requires calls != []
    ensures var r := Write(j, w, calls[0]);
            WriteAll(j, w, calls) == if r.Ok? then WriteAll(j, r.value, calls[1..]) else r
  {
  }

  method WriteCheckpoints<M>(writer: ReplayWriter<M>, cs: seq<Checkpoint>) returns (error: Option<WriteError>)
    modifies writer
    ensures Outcome(WriteAll(writer.json, old(writer.View()), CheckpointCalls(cs)), writer.View(), error)
  {
    hide Write;
    ghost var spec := WriteAll(writer.json, writer.View(), CheckpointCalls(cs));
    for i := 0 to |cs|
      invariant spec == WriteAll(writer.json, writer.View(), CheckpointCalls(cs[i..]))
    {
      ghost var calls: seq<Record<M>> := CheckpointCalls(cs[i..]);
      assert cs[i..][1..] == cs[i + 1..];
      assert calls[0] == CheckpointRec(cs[i]) && calls[1..] == CheckpointCalls(cs[i + 1..]);
      CallsCons(writer.json, writer.View(), calls);
      error := writer.WriteRngCheckpoint(cs[i].tick, cs[i].streamKey, cs[i].state);
      if error.Some? {
        return;
      }
    }
    error := None;
  }

  method WriteExpectations<M>(writer: ReplayWriter<M>, xs: seq<ExpectedHash>) returns (error: Option<WriteError>)
    modifies writer
    ensures Outcome(WriteAll(writer.json, old(writer.View()), ExpectedCalls(xs)), writer.View(), error)
  {
    hide Write;
    ghost var spec := WriteAll(writer.json, writer.View(), ExpectedCalls(xs));
    for i := 0 to |xs|
      invariant spec == WriteAll(writer.json, writer.View(), ExpectedCalls(xs[i..]))
    {
      ghost var calls: seq<Record<M>> := ExpectedCalls(xs[i..]);
      assert xs[i..][1..] == xs[i + 1..];
      assert calls[0] == ExpectedRec(xs[i]) && calls[1..] == ExpectedCalls(xs[i + 1..]);
      CallsCons(writer.json, writer.View(), calls);
      error := writer.WriteExpectedHash(xs[i].tick, xs[i].hash);
      if error.Some? {
        return;
      }
    }
    error := None;
  }

  method WriteTicks<M>(writer: ReplayWriter<M>, ticks: seq<TickRecord>, byTick: map<int, seq<Checkpoint>>,
                       ghost cs: seq<Checkpoint>) returns (error: Option<WriteError>)
    requires Groups(cs, byTick)
    modifies writer
    ensures Outcome(WriteAll(writer.json, old(writer.View()), TickCalls(ticks, cs)), writer.View(), error)
  {
    hide Write, OfTick, CheckpointCalls;
    ghost var spec := WriteAll(writer.json, writer.View(), TickCalls(ticks, cs));
    for i := 0 to |ticks|
      invariant spec == WriteAll(writer.json, writer.View(), TickCalls(ticks[i..], cs))
    {
      var t := ticks[i];
      var mine := if t.tick in byTick then byTick[t.tick] else [];
      ghost var block: seq<Record<M>> := CheckpointCalls(mine);
      ghost var rest: seq<Record<M>> := TickCalls(ticks[i + 1..], cs);
      assert ticks[i..][1..] == ticks[i + 1..];
      ghost var calls: seq<Record<M>> := TickCalls(ticks[i..], cs);
      assert calls == [TickRec(t)] + block + rest;
      assert calls[0] == TickRec(t) && calls[1..] == block + rest;
      CallsCons(writer.json, writer.View(), calls);
      error := writer.WriteTick(t.tick, t.events);
      if error.Some? {
        return;
      }
      WriteAllAppend(writer.json, writer.View(), block, rest);
      error := WriteCheckpoints(writer, mine);
      if error.Some? {
        return;
      }
    }
    error := None;
  }

  /** One pass over the document through a writer. */
  method EncodeDocument<M>(j: Json<M>, d: Document<M>) returns (r: Result<seq<Byte>, WriteError>)
    ensures r == Encode(j, d)
  {
    hide Write, OfTick, TickCalls, ExpectedCalls, CheckpointCalls, HasTick, HeaderBytes;
    if Open(d.tickHz).Err? {
      return Err(Open(d.tickHz).error);
    }
    var writer := new ReplayWriter(j, d.tickHz);
    var error: Option<WriteError> := None;
    if d.meta.Some? {
      CallsCons(j, writer.View(), MetaCalls(d));
      assert MetaCalls(d)[1..] == [];
      error := writer.WriteMeta(d.meta.value);
    }
    if error.Some? {
      return Err(error.value);
    }
    var byTick := GroupCheckpoints(d.checkpoints);
    if !(forall t :: t in byTick ==> HasTick(d.ticks, t)) {
      return Err(Misuse);
    }
    WriteAllAppend(j, writer.View(), TickCalls(d.ticks, d.checkpoints), ExpectedCalls(d.expected));
    error := WriteTicks(writer, d.ticks, byTick, d.checkpoints);
    if error.Some? {
      return Err(error.value);
    }
    error := WriteExpectations(writer, d.expected);
    if error.Some? {
      return Err(error.value);
    }
    writer.Close();
    return Ok(writer.stream);
  }

  // -------------------------------------------------------------------------------------
  // The normal form
  // -------------------------------------------------------------------------------------

  function SortTicks(ticks: seq<TickRecord>): seq<TickRecord> {
    if ticks == [] then [] else [ticks[0].(events := Sort(ticks[0].events))] + SortTicks(ticks[1..])
  }

  /** Checkpoints regrouped in tick order. */
  function Regroup(ticks: seq<TickRecord>, cs: seq<Checkpoint>): seq<Checkpoint> {
    if ticks == [] then [] else OfTick(cs, ticks[0].tick) + Regroup(ticks[1..], cs)
  }

  function Normal<M>(d: Document<M>): Document<M> {
    d.(flags := 0, ticks := SortTicks(d.ticks), checkpoints := Regroup(d.ticks, d.checkpoints))
  }

  /** Add a record without asking the ordering law. */
  function Add<M>(d: Document<M>, r: Record<M>): Document<M> {
    match r
    case MetaRec(m) => d.(meta := Some(m))
    case TickRec(t) => d.(ticks := d.ticks + [t])
    case ExpectedRec(x) => d.(expected := d.expected + [x])
    case CheckpointRec(c) => d.(checkpoints := d.checkpoints + [c])
  }

  function AddAll<M>(d: Document<M>, rs: seq<Record<M>>): Document<M>
    decreases |rs|
  {
    if rs == [] then d else AddAll(Add(d, Canon(rs[0])), rs[1..])
  }

  lemma {:induction false} AddAppend<M>(d: Document<M>, xs: seq<Record<M>>, ys: seq<Record<M>>)
    ensures AddAll(d, xs + ys) == AddAll(AddAll(d, xs), ys)
    decreases |xs|
  {
    hide Add, Canon;
    if xs == [] {
      assert xs + ys == ys;
    } else {
      assert (xs + ys)[1..] == xs[1..] + ys;
      AddAppend(Add(d, Canon(xs[0])), xs[1..], ys);
    }
  }

  lemma {:induction false} AddCheckpoints<M>(d: Document<M>, cs: seq<Checkpoint>)
    ensures AddAll(d, CheckpointCalls(cs)) == d.(checkpoints := d.checkpoints + cs)
    decreases |cs|
  {
    if cs == [] {
      assert d.checkpoints + cs == d.checkpoints;
    } else {
      var calls: seq<Record<M>> := CheckpointCalls(cs);
      assert calls[1..] == CheckpointCalls(cs[1..]);
      AddCheckpoints(Add(d, CheckpointRec(cs[0])), cs[1..]);
      assert d.checkpoints + [cs[0]] + cs[1..] == d.checkpoints + cs;
    }
  }

  lemma {:induction false} AddExpected<M>(d: Document<M>, xs: seq<ExpectedHash>)
    ensures AddAll(d, ExpectedCalls(xs)) == d.(expected := d.expected + xs)
    decreases |xs|
  {
    if xs == [] {
      assert d.expected + xs == d.expected;
    } else {
      var calls: seq<Record<M>> := ExpectedCalls(xs);
      assert calls[1..] == ExpectedCalls(xs[1..]);
      AddExpected(Add(d, ExpectedRec(xs[0])), xs[1..]);
      assert d.expected + [xs[0]] + xs[1..] == d.expected + xs;
    }
  }

  lemma AddTick<M>(d: Document<M>, t: TickRecord)
    ensures AddAll(d, [TickRec(t)]) == d.(ticks := d.ticks + [t.(events := Sort(t.events))])
  {
    hide Sort;
    var one: seq<Record<M>> := [TickRec(t)];
    assert one[1..] == [];
  }

  lemma {:induction false} AddTicks<M>(d: Document<M>, ticks: seq<TickRecord>, cs: seq<Checkpoint>)
    ensures AddAll(d, TickCalls(ticks, cs))
            == d.(ticks := d.ticks + SortTicks(ticks), checkpoints := d.checkpoints + Regroup(ticks, cs))
    decreases |ticks|
  {
    hide Sort, OfTick;
    if ticks == [] {
      assert d.ticks + [] == d.ticks && d.checkpoints + [] == d.checkpoints;
    } else {
      var head: seq<Record<M>> := [TickRec(ticks[0])];
      var mid: seq<Record<M>> := CheckpointCalls(OfTick(cs, ticks[0].tick));
      var tail: seq<Record<M>> := TickCalls(ticks[1..], cs);
      var t := ticks[0].(events := Sort(ticks[0].events));
      var d1 := d.(ticks := d.ticks + [t]);
      AddTick(d, ticks[0]);
      assert TickCalls<M>(ticks, cs) == head + mid + tail;
      assert SortTicks(ticks) == [t] + SortTicks(ticks[1..]);
      assert Regroup(ticks, cs) == OfTick(cs, ticks[0].tick) + Regroup(ticks[1..], cs);
      hide AddAll, CheckpointCalls, TickCalls, SortTicks, Regroup;
      AddAppend(d, head, mid);
      AddCheckpoints(d1, OfTick(cs, ticks[0].tick));
      AddAppend(d, head + mid, tail);
      AddTicks(AddAll(d, head + mid), ticks[1..], cs);
      Assoc(d.ticks, [t], SortTicks(ticks[1..]));
      Assoc(d.checkpoints, OfTick(cs, ticks[0].tick), Regroup(ticks[1..], cs));
    }
  }

  /** All the calls of a document, added up, give its normal form. */
  lemma AddDocument<M>(d: Document<M>)
    ensures AddAll(NewDocument(d.tickHz),
                   MetaCalls(d) + (TickCalls(d.ticks, d.checkpoints) + ExpectedCalls(d.expected)))
            == Normal(d)
  {
    hide SortTicks, Regroup, TickCalls, ExpectedCalls;
    var start: Document<M> := NewDocument(d.tickHz);
    var ticks: seq<Record<M>> := TickCalls(d.ticks, d.checkpoints);
    AddAppend(start, MetaCalls(d), ticks + ExpectedCalls(d.expected));
    var d1 := AddAll(start, MetaCalls(d));
    assert MetaCalls(d) == [] || MetaCalls(d)[1..] == [];
    assert d1 == start.(meta := d.meta);
    AddAppend(d1, ticks, ExpectedCalls(d.expected));
    AddTicks(d1, d.ticks, d.checkpoints);
    AddExpected(AddAll(d1, ticks), d.expected);
    assert [] + SortTicks(d.ticks) == SortTicks(d.ticks);
    assert [] + Regroup(d.ticks, d.checkpoints) == Regroup(d.ticks, d.checkpoints);
    assert [] + d.expected == d.expected;
  }

  // -------------------------------------------------------------------------------------
  // Round trip to the normal form
  // -------------------------------------------------------------------------------------

  lemma {:induction false} WriteAllAppend<M>(j: Json<M>, w: Writer, xs: seq<Record<M>>, ys: seq<Record<M>>)
    ensures WriteAll(j, w, xs + ys)
            == if WriteAll(j, w, xs).Ok? then WriteAll(j, WriteAll(j, w, xs).value, ys) else WriteAll(j, w, xs)
    decreases |xs|
  {
    hide Write;
    if xs == [] {
      assert xs + ys == ys;
    } else {
      assert (xs + ys)[1..] == xs[1..] + ys;
      var r := Write(j, w, xs[0]);
      if r.Ok? { WriteAllAppend(j, r.value, xs[1..], ys); }
    }
  }

  /** Calls that all succeed are a session that emits them all; what the reader builds from it is
      their sum. */
  lemma {:induction false} WriteAllEmits<M>(j: Json<M>, w: Writer, d: Document<M>, calls: seq<Record<M>>)
    requires WriteAll(j, w, calls).Ok?
    ensures Session(j, w, calls) == WriteAll(j, w, calls).value
    ensures AddAll(d, calls).expected == d.expected + Expectations(Emitted(j, w, calls))
    ensures AcceptAll(d, Emitted(j, w, calls)).Ok? ==> AcceptAll(d, Emitted(j, w, calls)).value == AddAll(d, calls)
    decreases |calls|
  {
    hide Write, Canon;
    if calls == [] {
      assert d.expected + [] == d.expected;
    } else {
      var w' := Write(j, w, calls[0]).value;
      var x := Canon(calls[0]);
      var rest := Emitted(j, w', calls[1..]);
      assert ([x] + rest)[1..] == rest;
      WriteAllEmits(j, w', Add(d, x), calls[1..]);
      assert Accept(d, x).Ok? ==> Accept(d, x).value == Add(d, x);
      assert d.expected + Expectations([x] + rest) == Add(d, x).expected + Expectations(rest);
    }
  }

  /** Round trip to a normal form: an encoded document reads back as itself with every tick's
      events stably sorted by canonical key and its checkpoints regrouped in tick order, unless two
      expectations name one tick, which the writer lets through and the reader refuses. */
  lemma EncodeReadsBack<M(!new)>(j: Json<M>, d: Document<M>)
    requires Inverse(j) && Encode(j, d).Ok?
    ensures ReadDocument(j, Encode(j, d).value)
            == if DistinctTicks(d.expected) then Ok(Normal(d)) else Err(DuplicateExpectation)
  {
    hide Write, WriteAll, Session, Emitted, AcceptAll, AddAll, ReadDocument, TickCalls, ExpectedCalls, Normal, Open,
         DistinctTicks;
    var w := Open(d.tickHz).value;
    var calls := MetaCalls(d) + (TickCalls(d.ticks, d.checkpoints) + ExpectedCalls(d.expected));
    WriteAllAppend(j, w, MetaCalls(d), TickCalls(d.ticks, d.checkpoints) + ExpectedCalls(d.expected));
    WriteAllEmits(j, w, NewDocument(d.tickHz), calls);
    AddDocument(d);
    assert Normal(d).expected == d.expected by { NormalExpected(d); }
    assert [] + Expectations(Emitted(j, w, calls)) == Expectations(Emitted(j, w, calls));
    SessionReadsBack(j, d.tickHz, calls);
  }

  lemma NormalExpected<M>(d: Document<M>)
    ensures Normal(d).expected == d.expected
  {
  }
}
