/** The strict reader's language: without metadata, unknown records and stray reserved bits, it is
    exactly what a writer can produce, byte for byte. */
module ReplayExact {
  import opened Prelude
  import opened Struct
  import opened Canonical
  import opened ReplayFormat
  import opened ReplayReader
  import opened ReplayWriter
  import opened ReplayRoundTrip

  // -------------------------------------------------------------------------------------
  // Payloads have one spelling
  // -------------------------------------------------------------------------------------

  lemma ParseEventExact(bs: seq<Byte>)
    requires bs != [] && ParseEvent(bs).Ok?
    ensures EventFits(ParseEvent(bs).value)
    ensures bs[..EventLen(ParseEvent(bs).value)] == PackEvent(ParseEvent(bs).value)
  {
    var e := ParseEvent(bs).value;
    var layout := LayoutOf(bs[0]).value;
    var body := bs[1..][..Size(layout)];
    PackUnpack(layout, body);
    EventLenIsSize(e);
    assert bs[..EventLen(e)] == [bs[0]] + body;
  }

  /** The events of a payload are its bytes: nothing is skipped and nothing is spelled differently. */
  lemma {:induction false} ParseEventsExact(bs: seq<Byte>, count: nat, prev: Option<Key>)
    requires ParseEvents(bs, count, prev).Ok?
    ensures AllFit(ParseEvents(bs, count, prev).value) && PackEvents(ParseEvents(bs, count, prev).value) == bs
    decreases count
  {
    hide ParseEvent, PackEvent, EventFits, EventLen;
    if count > 0 {
      var e := NextEvent(bs, prev).value;
      ParseEventExact(bs);
      var rest := bs[EventLen(e)..];
      ParseEventsExact(rest, count - 1, Some(KeyOf(e)));
      var es := ParseEvents(rest, count - 1, Some(KeyOf(e))).value;
      assert ([e] + es)[1..] == es;
      assert bs == bs[..EventLen(e)] + rest;
    }
  }

  lemma ParseTickExact<M>(j: Json<M>, payload: seq<Byte>)
    requires ParseTick(payload).Ok?
    ensures Wire(j, TickRec(ParseTick(payload).value)) && Payload(j, TickRec(ParseTick(payload).value)) == payload
  {
    hide EventFits, PackEvents, ParseEvents, Sorted;
    var t := ParseTick(payload).value;
    var (tick, count) := TickHead(payload);
    ParseEventsExact(payload[10..], count, None);
    ParseEventsSound(payload[10..], count, None);
    Sizes();
    PackUnpack(TICK_HEAD, payload[..10]);
    HeadValues(payload);
    assert payload == payload[..10] + payload[10..];
  }

  lemma HeadValues(payload: seq<Byte>)
    requires 10 <= |payload|
    ensures Size(TICK_HEAD) == 10
    ensures Unpack(TICK_HEAD, payload[..10]) == [TickHead(payload).0, TickHead(payload).1]
  {
    Sizes();
  }

  lemma ParseCheckpointExact<M>(j: Json<M>, payload: seq<Byte>, ticks: seq<TickRecord>, previous: seq<Checkpoint>)
    requires ParseCheckpoint(payload, ticks, previous).Ok?
    ensures var r: Record<M> := CheckpointRec(ParseCheckpoint(payload, ticks, previous).value);
            Wire(j, r) && Payload(j, r) == payload
  {
    Sizes();
    Widths();
    hide Pack, Unpack, LastTick, LastKey;
    var head := Unpack(CHECKPOINT_HEAD, payload[..20]);
    PackUnpack(CHECKPOINT_HEAD, payload[..20]);
    assert head == [head[0], head[1], head[2]];
    assert payload == payload[..20] + payload[20..];
  }

  lemma ParseExpectedExact<M>(j: Json<M>, payload: seq<Byte>, vs: seq<int>)
    requires |payload| == 16 && Size(EXPECTED) == 16 && vs == Unpack(EXPECTED, payload)
    ensures var r: Record<M> := ExpectedRec(ExpectedHash(vs[0], vs[1]));
            Wire(j, r) && Payload(j, r) == payload
  {
    hide Pack, Unpack;
    assert FieldFits(EXPECTED[0], vs[0]) && FieldFits(EXPECTED[1], vs[1]);
    PackUnpack(EXPECTED, payload);
    assert vs == [vs[0], vs[1]];
  }

  /** An accepted record is one the writer spells the same way, admitted by the ordering law. */
  lemma ApplyExact<M(!new)>(j: Json<M>, d: Document<M>, typ: int, payload: seq<Byte>) returns (r: Record<M>)
    requires Inverse(j) && (typ == TICK_TYPE || typ == EXPECTED_HASH_TYPE || typ == RNG_CHECKPOINT_TYPE)
    requires ApplyRecord(j, d, typ, 0, payload).Ok?
    ensures Wire(j, r) && TypeOf(r) == typ && Payload(j, r) == payload
    ensures Accept(d, r) == ApplyRecord(j, d, typ, 0, payload)
  {
    hide ParseTick, ParseCheckpoint, Unpack, Payload, Wire;
    Sizes();
    if typ == TICK_TYPE {
      r := TickRec(ParseTick(payload).value);
      ParseTickExact(j, payload);
    } else if typ == EXPECTED_HASH_TYPE {
      var vs := Unpack(EXPECTED, payload);
      r := ExpectedRec(ExpectedHash(vs[0], vs[1]));
      ParseExpectedExact(j, payload, vs);
    } else {
      r := CheckpointRec(ParseCheckpoint(payload, d.ticks, d.checkpoints).value);
      ParseCheckpointExact(j, payload, d.ticks, d.checkpoints);
    }
    ApplyAccept(j, d, r);
  }

  // -------------------------------------------------------------------------------------
  // Plain records
  // -------------------------------------------------------------------------------------

  /** Ticks, expectations and checkpoints with zero flags and reserved bits, nothing else. */
  ghost predicate Plain(data: seq<Byte>)
    decreases |data|
  {
    data == [] ||
    (&& Framing(data).Ok?
     && var (typ, _, len) := Framing(data).value;
        && (typ == TICK_TYPE || typ == EXPECTED_HASH_TYPE || typ == RNG_CHECKPOINT_TYPE)
        && len < Pow(4) && data[..8 + len] == Frame(typ, data[8..8 + len])
        && Plain(data[8 + len..]))
  }

  /** What a plain stream is read to is a sequence of records the writer spells with the same bytes. */
  lemma {:induction false} PlainIsWritten<M(!new)>(j: Json<M>, d: Document<M>, data: seq<Byte>)
    returns (rs: seq<Record<M>>)
    requires Inverse(j) && Plain(data) && ReadRecords(j, d, data).Ok?
    ensures AllWire(j, rs) && BytesOf(j, rs) == data && AcceptAll(d, rs) == ReadRecords(j, d, data)
    decreases |data|
  {
    hide ApplyRecord, Accept, Framing, Frame, Payload, Wire;
    if data == [] {
      rs := [];
    } else {
      var (typ, flags, len) := Framing(data).value;
      var payload, tail := data[8..8 + len], data[8 + len..];
      FrameFlags(typ, payload, tail);
      assert data == Frame(typ, payload) + tail;
      var r := ApplyExact(j, d, typ, payload);
      var rest := PlainIsWritten(j, Accept(d, r).value, tail);
      rs := [r] + rest;
      assert rs[1..] == rest;
    }
  }

  lemma FrameFlags(typ: Byte, payload: seq<Byte>, tail: seq<Byte>)
    requires |payload| < Pow(4)
    ensures Framing(Frame(typ, payload) + tail) == Ok((typ as int, 0, |payload|))
  {
    hide Framing, Frame;
    FramingOfFrame(typ, payload, tail);
  }

  // -------------------------------------------------------------------------------------
  // Readers and writers agree on the language
  // -------------------------------------------------------------------------------------

  /** What the reader may accept next, the writer may write next. */
  lemma AcceptWrites<M>(j: Json<M>, w: Writer, d: Document<M>, r: Record<M>)
    requires Agree(w, d) && !w.closed && Wire(j, r) && Accept(d, r).Ok?
    ensures Canon(r) == r && Write(j, w, r).Ok? && !Write(j, w, r).value.closed
    ensures Agree(Write(j, w, r).value, Accept(d, r).value)
  {
    hide EventFits, RecordBytes, Sort;
    if r.TickRec? { SortSorted(r.rec.events); }
  }

  lemma {:induction false} AcceptedIsSession<M>(j: Json<M>, w: Writer, d: Document<M>, rs: seq<Record<M>>)
    requires Agree(w, d) && !w.closed && AllWire(j, rs) && AcceptAll(d, rs).Ok?
    ensures Emitted(j, w, rs) == rs
    decreases |rs|
  {
    hide Agree, Accept, Write, Wire, Canon;
    if rs != [] {
      assert Wire(j, rs[0]);
      AcceptWrites(j, w, d, rs[0]);
      AcceptedIsSession(j, Write(j, w, rs[0]).value, Accept(d, rs[0]).value, rs[1..]);
      assert rs == [rs[0]] + rs[1..];
    }
  }

  /** The header is exactly these bytes. */
  lemma HeaderExactly(data: seq<Byte>, hz: int, size: int)
    requires 1 <= hz < Pow(4) && HEADER_SIZE <= size < Pow(2)
    ensures Fits(HEADER, [MAGIC, FORMAT_VERSION, size, hz, 0])
    ensures ReadHeader(data) == Ok((hz, size))
            <==> HEADER_SIZE <= |data| && data[..16] == Pack(HEADER, [MAGIC, FORMAT_VERSION, size, hz, 0])
  {
    Sizes();
    Widths();
    hide Pack, Unpack;
    var vs := [MAGIC, FORMAT_VERSION, size, hz, 0];
    UnpackPack(HEADER, vs);
    if HEADER_SIZE <= |data| {
      PackUnpack(HEADER, data[..16]);
      var us := Unpack(HEADER, data[..16]);
      assert us == [us[0], us[1], us[2], us[3], us[4]];
    }
  }

  /** The reader's plain language is the writer's: every accepted file with a sixteen-byte header and
      plain records is the stream of a writing session, byte for byte. */
  lemma PlainFileIsSession<M(!new)>(j: Json<M>, data: seq<Byte>) returns (rs: seq<Record<M>>)
    requires Inverse(j) && ReadDocument(j, data).Ok? && ReadHeader(data).value.1 == HEADER_SIZE
    requires Plain(data[HEADER_SIZE..])
    ensures var hz := ReadHeader(data).value.0;
            Open(hz).Ok? && Session(j, Open(hz).value, rs).stream == data
  {
    hide ReadRecords, ReadHeader, Session, Emitted, AcceptAll, Plain, Pack, HeaderBytes;
    var hz := ReadHeader(data).value.0;
    Widths();
    HeaderExactly(data, hz, HEADER_SIZE);
    assert data[..16] == HeaderBytes(hz) by { HeaderIs(hz); }
    rs := PlainIsWritten(j, NewDocument(hz), data[16..]);
    var w := Open(hz).value;
    SessionStream(j, w, rs);
    AcceptedIsSession(j, w, NewDocument(hz), rs);
    assert data == data[..16] + data[16..];
  }

  lemma HeaderIs(hz: int)
    requires 1 <= hz < Pow(4)
    ensures Fits(HEADER, [MAGIC, FORMAT_VERSION, HEADER_SIZE, hz, 0])
    ensures HeaderBytes(hz) == Pack(HEADER, [MAGIC, FORMAT_VERSION, HEADER_SIZE, hz, 0])
  {
    Widths();
  }
}
