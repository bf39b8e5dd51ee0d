/** What the writer produces the reader accepts, call by call and over whole sessions. */
module ReplayRoundTrip {
  import opened Prelude
  import opened Struct
  import opened Canonical
  import opened ReplayFormat
  import opened ReplayReader
  import opened ReplayWriter

  // -------------------------------------------------------------------------------------
  // One record
  // -------------------------------------------------------------------------------------

  /** The ordering law on the logical level: may this record follow what was read so far? */
  function Accept<M>(d: Document<M>, r: Record<M>): Parsed<M> {
    match r
    case MetaRec(m) =>
      if d.meta.Some? || d.ticks != [] then Err(MetaMisplaced) else Ok(d.(meta := Some(m)))
    case TickRec(t) =>
      if LastTick(d.ticks).Some? && t.tick <= LastTick(d.ticks).value then Err(TickNotAscending)
      else Ok(d.(ticks := d.ticks + [t]))
    case ExpectedRec(x) =>
      if ExpectationSeen(d.expected, x.tick) then Err(DuplicateExpectation)
      else Ok(d.(expected := d.expected + [x]))
    case CheckpointRec(c) =>
      if LastTick(d.ticks) != Some(c.tick) then Err(OrphanCheckpoint)
      else if LastKey(d.checkpoints, c.tick).Some? && c.streamKey <= LastKey(d.checkpoints, c.tick).value then
        Err(StreamKeyOrder)
      else Ok(d.(checkpoints := d.checkpoints + [c]))
  }

  /** Fits its layout and carries its events in canonical order. */
  ghost predicate Wire<M>(j: Json<M>, r: Record<M>) {
    RecordFits(j, r) && (r.TickRec? ==> Sorted(r.rec.events))
  }

  lemma TickPayload(t: TickRecord, payload: seq<Byte>)
    requires TickFits(t) && Sorted(t.events) && FieldFits(U(2), |t.events|)
    requires payload == Pack(TICK_HEAD, [t.tick, |t.events|]) + PackEvents(t.events)
    ensures ParseTick(payload) == Ok(t)
  {
    hide PackEvents, EventFits;
    Sizes();
    assert payload[..10] == Pack(TICK_HEAD, [t.tick, |t.events|]);
    assert payload[10..] == PackEvents(t.events);
    UnpackPack(TICK_HEAD, [t.tick, |t.events|]);
    ParsePackEvents(t.events, None);
  }

  lemma CheckpointPayload(c: Checkpoint, payload: seq<Byte>, ticks: seq<TickRecord>, previous: seq<Checkpoint>)
    requires CheckpointFits(c) && FieldFits(U(4), 40)
    requires payload == Pack(CHECKPOINT_HEAD, [c.tick, c.streamKey, 40]) + c.state
    ensures var r := ParseCheckpoint(payload, ticks, previous);
            r == if LastTick(ticks) != Some(c.tick) then Err(OrphanCheckpoint)
                 else if LastKey(previous, c.tick).Some? && c.streamKey <= LastKey(previous, c.tick).value then
                   Err(StreamKeyOrder)
                 else Ok(c)
  {
    Sizes();
    assert payload[..20] == Pack(CHECKPOINT_HEAD, [c.tick, c.streamKey, 40]);
    assert payload[20..] == c.state;
    UnpackPack(CHECKPOINT_HEAD, [c.tick, c.streamKey, 40]);
  }

  lemma ApplyAccept<M(!new)>(j: Json<M>, d: Document<M>, r: Record<M>)
    requires Inverse(j) && Wire(j, r)
    ensures ApplyRecord(j, d, TypeOf(r), 0, Payload(j, r)) == Accept(d, r)
  {
    hide ParseTick, ParseCheckpoint, EventFits, PackEvents, Unpack;
    Widths();
    Sizes();
    match r
    case MetaRec(m) =>
    case TickRec(t) => TickPayload(t, Payload(j, r));
    case ExpectedRec(x) => UnpackPack(EXPECTED, [x.tick, x.hash]);
    case CheckpointRec(c) => CheckpointPayload(c, Payload(j, r), d.ticks, d.checkpoints);
  }

  lemma FramingOfFrame(typ: Byte, payload: seq<Byte>, rest: seq<Byte>)
    requires |payload| < Pow(4)
    ensures Framing(Frame(typ, payload) + rest) == Ok((typ as int, 0, |payload|))
    ensures (Frame(typ, payload) + rest)[8..8 + |payload|] == payload
    ensures (Frame(typ, payload) + rest)[8 + |payload|..] == rest
  {
    Sizes();
    Widths();
    var head := Pack(RECORD, [typ, 0, 0, |payload|]);
    var data := Frame(typ, payload) + rest;
    assert data == head + (payload + rest);
    assert data[..8] == head;
    UnpackPack(RECORD, [typ, 0, 0, |payload|]);
  }

  /** Reading a written record is applying the ordering law to it. */
  lemma ReadOne<M(!new)>(j: Json<M>, d: Document<M>, r: Record<M>, rest: seq<Byte>)
    requires Inverse(j) && Wire(j, r)
    ensures ReadRecords(j, d, RecordBytes(j, r) + rest)
            == if Accept(d, r).Ok? then ReadRecords(j, Accept(d, r).value, rest) else Accept(d, r)
  {
    hide ApplyRecord, Accept, Payload, Framing, Frame, RecordFits;
    FramingOfFrame(TypeOf(r), Payload(j, r), rest);
    ApplyAccept(j, d, r);
  }

  // -------------------------------------------------------------------------------------
  // Any sequence of write calls
  // -------------------------------------------------------------------------------------

  /** Writer and reader agree on where they are in the record. */
  ghost predicate Agree<M>(w: Writer, d: Document<M>) {
    && (w.metaWritten <==> d.meta.Some?)
    && w.lastTick == LastTick(d.ticks)
    && w.lastKey == (if w.lastTick.Some? then LastKey(d.checkpoints, w.lastTick.value) else None)
    && (d.checkpoints != [] ==> w.lastTick.Some? && d.checkpoints[|d.checkpoints| - 1].tick <= w.lastTick.value)
  }

  predicate Repeats<M>(d: Document<M>, r: Record<M>) {
    r.ExpectedRec? && ExpectationSeen(d.expected, r.hash.tick)
  }

  /** A record the writer accepts, the reader accepts, unless it repeats an expectation: that is
      the one thing the writer does not check. */
  lemma WriteAccepts<M>(j: Json<M>, w: Writer, d: Document<M>, r: Record<M>)
    requires Agree(w, d) && Write(j, w, r).Ok?
    ensures Repeats(d, r) ==> Accept(d, Canon(r)) == Err(DuplicateExpectation)
    ensures !Repeats(d, r) ==> Accept(d, Canon(r)).Ok? && Agree(Write(j, w, r).value, Accept(d, Canon(r)).value)
  {
    hide RecordFits, RecordBytes, Sort;
  }

  lemma WriteEmits<M>(j: Json<M>, w: Writer, r: Record<M>)
    requires Write(j, w, r).Ok?
    ensures Wire(j, Canon(r))
    ensures Write(j, w, r).value.stream == w.stream + RecordBytes(j, Canon(r))
  {
    hide RecordFits, RecordBytes, Sort;
    if r.TickRec? { SortIsStable(r.rec.events, Key(0, 0, 0)); }
  }

  /** The writer after a sequence of calls; a refused call changes nothing. */
  function Session<M>(j: Json<M>, w: Writer, calls: seq<Record<M>>): Writer
    decreases |calls|
  {
    if calls == [] then w
    else
      var r := Write(j, w, calls[0]);
      Session(j, if r.Ok? then r.value else w, calls[1..])
  }

  /** The records the calls put on the stream. */
  function Emitted<M>(j: Json<M>, w: Writer, calls: seq<Record<M>>): seq<Record<M>>
    decreases |calls|
  {
    if calls == [] then []
    else
      var r := Write(j, w, calls[0]);
      if r.Ok? then [Canon(calls[0])] + Emitted(j, r.value, calls[1..]) else Emitted(j, w, calls[1..])
  }

  ghost predicate AllWire<M>(j: Json<M>, rs: seq<Record<M>>) { forall r :: r in rs ==> Wire(j, r) }

  ghost function BytesOf<M>(j: Json<M>, rs: seq<Record<M>>): seq<Byte>
    requires AllWire(j, rs)
  {
    if rs == [] then [] else assert Wire(j, rs[0]); RecordBytes(j, rs[0]) + BytesOf(j, rs[1..])
  }

  function AcceptAll<M>(d: Document<M>, rs: seq<Record<M>>): Parsed<M>
    decreases |rs|
  {
    if rs == [] then Ok(d)
    else
      var next := Accept(d, rs[0]);
      if next.Ok? then AcceptAll(next.value, rs[1..]) else next
  }

  lemma {:induction false} ReadAll<M(!new)>(j: Json<M>, d: Document<M>, rs: seq<Record<M>>)
    requires Inverse(j) && AllWire(j, rs)
    ensures ReadRecords(j, d, BytesOf(j, rs)) == AcceptAll(d, rs)
    decreases |rs|
  {
    hide ReadRecords, Accept, RecordBytes, Wire;
    if rs == [] {
      ReadNone(j, d);
    } else {
      ReadOne(j, d, rs[0], BytesOf(j, rs[1..]));
      if Accept(d, rs[0]).Ok? { ReadAll(j, Accept(d, rs[0]).value, rs[1..]); }
    }
  }

  lemma ReadNone<M>(j: Json<M>, d: Document<M>)
    ensures ReadRecords(j, d, []) == Ok(d)
  {
  }

  lemma {:induction false} SessionStream<M>(j: Json<M>, w: Writer, calls: seq<Record<M>>)
    ensures AllWire(j, Emitted(j, w, calls))
    ensures Session(j, w, calls).stream == w.stream + BytesOf(j, Emitted(j, w, calls))
    decreases |calls|
  {
    hide Write, Wire, RecordBytes;
    if calls != [] {
      var r := Write(j, w, calls[0]);
      if r.Ok? {
        WriteEmits(j, w, calls[0]);
        SessionStream(j, r.value, calls[1..]);
        var rest := Emitted(j, r.value, calls[1..]);
        assert ([Canon(calls[0])] + rest)[1..] == rest;
      } else {
        SessionStream(j, w, calls[1..]);
      }
    }
  }

  /** The expectations among the records. */
  function Expectations<M>(rs: seq<Record<M>>): seq<ExpectedHash> {
    if rs == [] then []
    else (if rs[0].ExpectedRec? then [rs[0].hash] else []) + Expectations(rs[1..])
  }

  predicate DistinctTicks(xs: seq<ExpectedHash>) {
    forall i, k :: 0 <= i < k < |xs| ==> xs[i].tick != xs[k].tick
  }

  /** Everything a session emits is acceptable in order, except a repeated expectation. */
  lemma {:induction false} SessionAccepts<M>(j: Json<M>, w: Writer, d: Document<M>, calls: seq<Record<M>>)
    requires Agree(w, d) && DistinctTicks(d.expected)
    ensures var rs := Emitted(j, w, calls);
            if DistinctTicks(d.expected + Expectations(rs)) then AcceptAll(d, rs).Ok?
            else AcceptAll(d, rs) == Err(DuplicateExpectation)
    decreases |calls|
  {
    hide Write, DistinctTicks, Agree;
    if calls == [] {
      assert d.expected + [] == d.expected;
    } else {
      var r := Write(j, w, calls[0]);
      if r.Err? {
        SessionAccepts(j, w, d, calls[1..]);
      } else {
        var x := Canon(calls[0]);
        var rest := Emitted(j, r.value, calls[1..]);
        assert ([x] + rest)[1..] == rest;
        WriteAccepts(j, w, d, calls[0]);
        ExpectedGrows(d, x, Expectations(rest));
        if !Repeats(d, x) { SessionAccepts(j, r.value, Accept(d, x).value, calls[1..]); }
      }
    }
  }

  lemma ExpectedGrows<M>(d: Document<M>, r: Record<M>, rest: seq<ExpectedHash>)
    requires DistinctTicks(d.expected)
    ensures var xs := d.expected + ((if r.ExpectedRec? then [r.hash] else []) + rest);
            if Repeats(d, r) then !DistinctTicks(xs)
            else Accept(d, r).Ok? ==> DistinctTicks(Accept(d, r).value.expected)
                                      && xs == Accept(d, r).value.expected + rest
  {
    var xs := d.expected + ((if r.ExpectedRec? then [r.hash] else []) + rest);
    if Repeats(d, r) {
      var i :| 0 <= i < |d.expected| && d.expected[i].tick == r.hash.tick;
      assert xs[i].tick == xs[|d.expected|].tick;
    }
  }

  lemma HeaderReads(tickHz: int, rest: seq<Byte>)
    requires 1 <= tickHz < Pow(4)
    ensures ReadHeader(HeaderBytes(tickHz) + rest) == Ok((tickHz, HEADER_SIZE))
    ensures (HeaderBytes(tickHz) + rest)[HEADER_SIZE..] == rest
  {
    Sizes();
    Widths();
    var vs := [MAGIC, FORMAT_VERSION, HEADER_SIZE, tickHz, 0];
    assert (HeaderBytes(tickHz) + rest)[..16] == HeaderBytes(tickHz);
    UnpackPack(HEADER, vs);
  }

  lemma ReadAfterHeader<M>(j: Json<M>, tickHz: int, rest: seq<Byte>)
    requires 1 <= tickHz < Pow(4)
    ensures ReadDocument(j, HeaderBytes(tickHz) + rest) == ReadRecords(j, NewDocument(tickHz), rest)
  {
    hide ReadHeader, HeaderBytes, ReadRecords;
    HeaderReads(tickHz, rest);
  }

  /** Whatever is called on a writer, in whatever order, with refused calls in between, what is on
      the stream reads back as exactly the accepted calls, ticks in canonical order; the only
      reason for the reader to refuse it is an expectation written twice for one tick. */
  lemma SessionReadsBack<M(!new)>(j: Json<M>, tickHz: int, calls: seq<Record<M>>)
    requires Inverse(j) && Open(tickHz).Ok?
    ensures var w := Open(tickHz).value;
            var rs := Emitted(j, w, calls);
            var back := ReadDocument(j, Session(j, w, calls).stream);
            && back == AcceptAll(NewDocument(tickHz), rs)
            && (DistinctTicks(Expectations(rs)) ==> back.Ok?)
            && (!DistinctTicks(Expectations(rs)) ==> back == Err(DuplicateExpectation))
  {
    hide ReadDocument, ReadRecords, Session, Emitted, AcceptAll, HeaderBytes, Write;
    var w := Open(tickHz).value;
    var rs := Emitted(j, w, calls);
    SessionStream(j, w, calls);
    ReadAfterHeader(j, tickHz, BytesOf(j, rs));
    ReadAll(j, NewDocument(tickHz), rs);
    SessionAccepts(j, w, NewDocument(tickHz), calls);
    assert [] + Expectations(rs) == Expectations(rs);
  }
}
