/** The strict reader: framing, record parsing and the ordering law, first as functions, then as
    the offset loops the codec runs. */
module ReplayReader {
  import opened Prelude
  import opened Struct
  import opened Canonical
  import opened ReplayFormat

  type Parsed<M> = Result<Document<M>, FormatError>

  // -------------------------------------------------------------------------------------
  // Payloads
  // -------------------------------------------------------------------------------------

  /** The tick number and the event count. */
  function TickHead(payload: seq<Byte>): (r: (int, nat))
    requires 10 <= |payload|
    ensures FieldFits(U(8), r.0) && r.1 <= MAX_EVENTS
  {
    Sizes();
    Widths();
    var vs := Unpack(TICK_HEAD, payload[..10]);
    (vs[0], vs[1])
  }

  function ParseTick(payload: seq<Byte>): (r: Result<TickRecord, FormatError>)
    ensures r.Ok? ==> TickFits(r.value) && Sorted(r.value.events)
  {
    if |payload| < 10 then Err(TickTooShort)
    else
      var (tick, count) := TickHead(payload);
      var es := ParseEvents(payload[10..], count, None);
      if es.Ok? then ParseEventsSound(payload[10..], count, None); Ok(TickRecord(tick, es.value))
      else Err(es.error)
  }

  function LastTick(ticks: seq<TickRecord>): Option<int> {
    if ticks == [] then None else Some(ticks[|ticks| - 1].tick)
  }

  /** The stream key of the last checkpoint, when it belongs to `tick`. */
  function LastKey(cs: seq<Checkpoint>, tick: int): Option<int> {
    if cs != [] && cs[|cs| - 1].tick == tick then Some(cs[|cs| - 1].streamKey) else None
  }

  function ParseCheckpoint(payload: seq<Byte>, ticks: seq<TickRecord>, previous: seq<Checkpoint>)
    : (r: Result<Checkpoint, FormatError>)
    ensures r.Ok? ==> CheckpointFits(r.value) && LastTick(ticks) == Some(r.value.tick)
    ensures r.Ok? ==> match LastKey(previous, r.value.tick)
                      case None => true
                      case Some(k) => k < r.value.streamKey
  {
    Sizes();
    Widths();
    if |payload| != 20 + RNG_STATE_SIZE then Err(BadCheckpointLength)
    else
      var head := Unpack(CHECKPOINT_HEAD, payload[..20]);
      if LastTick(ticks) != Some(head[0]) then Err(OrphanCheckpoint)
      else if LastKey(previous, head[0]).Some? && head[1] <= LastKey(previous, head[0]).value then Err(StreamKeyOrder)
      else if head[2] != RNG_STATE_SIZE then Err(BadStateLength)
      else Ok(Checkpoint(head[0], head[1], payload[20..]))
  }

  predicate ExpectationSeen(xs: seq<ExpectedHash>, tick: int) {
    exists i :: 0 <= i < |xs| && xs[i].tick == tick
  }

  /** One record applied to the document read so far. Flags are checked on every known type but
      META; unknown types are skipped. */
  function ApplyRecord<M>(j: Json<M>, d: Document<M>, typ: int, flags: int, payload: seq<Byte>): Parsed<M> {
    Sizes();
    if typ == TICK_TYPE then
      if flags != 0 then Err(BadRecordFlags)
      else
        var t := ParseTick(payload);
        if t.Err? then Err(t.error)
        else if LastTick(d.ticks).Some? && t.value.tick <= LastTick(d.ticks).value then Err(TickNotAscending)
        else Ok(d.(ticks := d.ticks + [t.value]))
    else if typ == META_TYPE then
      if d.meta.Some? || d.ticks != [] then Err(MetaMisplaced)
      else
        var m := j.load(payload);
        if m.None? then Err(MetaInvalid) else Ok(d.(meta := m))
    else if typ == EXPECTED_HASH_TYPE then
      if flags != 0 then Err(BadRecordFlags)
      else if |payload| != 16 then Err(BadExpectedLength)
      else
        var vs := Unpack(EXPECTED, payload);
        if ExpectationSeen(d.expected, vs[0]) then Err(DuplicateExpectation)
        else Ok(d.(expected := d.expected + [ExpectedHash(vs[0], vs[1])]))
    else if typ == RNG_CHECKPOINT_TYPE then
      if flags != 0 then Err(BadRecordFlags)
      else
        var c := ParseCheckpoint(payload, d.ticks, d.checkpoints);
        if c.Err? then Err(c.error) else Ok(d.(checkpoints := d.checkpoints + [c.value]))
    else Ok(d)
  }

  // -------------------------------------------------------------------------------------
  // Framing
  // -------------------------------------------------------------------------------------

  /** The framing fields of the record at the start of `data`: type, flags, payload length. */
  function Framing(data: seq<Byte>): (r: Result<(int, int, nat), FormatError>)
    ensures r.Ok? ==> RECORD_HEADER_SIZE + r.value.2 <= |data|
  {
    Sizes();
    if |data| < RECORD_HEADER_SIZE then Err(TruncatedFraming)
    else
      var vs := Unpack(RECORD, data[..8]);
      assert FieldFits(RECORD[3], vs[3]);
      if 8 + vs[3] > |data| then Err(PayloadPastEnd) else Ok((vs[0], vs[1], vs[3]))
  }

  function ReadRecords<M>(j: Json<M>, d: Document<M>, data: seq<Byte>): Parsed<M>
    decreases |data|
  {
    if data == [] then Ok(d)
    else
      var f := Framing(data);
      if f.Err? then Err(f.error)
      else
        var (typ, flags, len) := f.value;
        var next := ApplyRecord(j, d, typ, flags, data[8..8 + len]);
        if next.Err? then next else ReadRecords(j, next.value, data[8 + len..])
  }

  function NewDocument<M>(tickHz: int): Document<M> { Document(tickHz, 0, None, [], [], []) }

  /** The header check: the tick rate and the offset of the first record. */
  function ReadHeader(data: seq<Byte>): (r: Result<(int, int), FormatError>)
    ensures r.Ok? ==> 1 <= r.value.0 < Pow(4) && HEADER_SIZE <= r.value.1 && HEADER_SIZE <= |data|
  {
    Sizes();
    if |data| < HEADER_SIZE then Err(TooShort)
    else
      var vs := Unpack(HEADER, data[..16]);
      assert FieldFits(HEADER[3], vs[3]);
      if vs[0] != MAGIC then Err(BadMagic)
      else if vs[1] != FORMAT_VERSION then Err(BadVersion)
      else if vs[4] != 0 then Err(BadHeaderFlags)
      else if vs[3] < 1 then Err(BadTickHz)
      else if vs[2] < HEADER_SIZE then Err(BadHeaderSize)
      else Ok((vs[3], vs[2]))
  }

  /** A declared header size past the end of the file leaves no records to read. */
  function ReadDocument<M>(j: Json<M>, data: seq<Byte>): Parsed<M> {
    var h := ReadHeader(data);
    if h.Err? then Err(h.error)
    else ReadRecords(j, NewDocument(h.value.0), if h.value.1 <= |data| then data[h.value.1..] else [])
  }

  // -------------------------------------------------------------------------------------
  // The loops
  // -------------------------------------------------------------------------------------

  /** The event loop of a tick payload, over an offset that starts past the tick head. */
  method ParseEventsLoop(payload: seq<Byte>, count: nat) returns (r: Result<seq<Event>, FormatError>)
    requires 10 <= |payload|
    ensures r == ParseEvents(payload[10..], count, None)
  {
    hide NextEvent;
    var events: seq<Event> := [];
    var offset := 10;
    var previous: Option<Key> := None;
    ghost var all := ParseEvents(payload[10..], count, None);
    assert all.Ok? ==> [] + all.value == all.value;
    for i := 0 to count
      invariant 10 <= offset <= |payload|
      invariant all == Prefixed(events, ParseEvents(payload[offset..], count - i, previous))
    {
      ghost var rest := payload[offset..];
      var e := NextEvent(payload[offset..], previous);
      if e.Err? {
        return Err(e.error);
      }
      PrefixedCons(events, rest, count - i, previous, e.value);
      offset := offset + EventLen(e.value);
      assert rest[EventLen(e.value)..] == payload[offset..];
      previous := Some(KeyOf(e.value));
      events := events + [e.value];
    }
    assert events + [] == events;
    if offset != |payload| {
      return Err(TrailingBytes);
    }
    return Ok(events);
  }

  ghost function Prefixed(es: seq<Event>, r: Result<seq<Event>, FormatError>): Result<seq<Event>, FormatError> {
    if r.Err? then r else Ok(es + r.value)
  }

  lemma PrefixedCons(es: seq<Event>, bs: seq<Byte>, count: nat, prev: Option<Key>, e: Event)
    requires count > 0 && NextEvent(bs, prev) == Ok(e)
    ensures Prefixed(es, ParseEvents(bs, count, prev))
            == Prefixed(es + [e], ParseEvents(bs[EventLen(e)..], count - 1, Some(KeyOf(e))))
  {
    var r := ParseEvents(bs[EventLen(e)..], count - 1, Some(KeyOf(e)));
    if r.Ok? { assert es + ([e] + r.value) == es + [e] + r.value; }
  }

  /** The record loop over an offset into the file. */
  method ReadDocumentLoop<M>(j: Json<M>, data: seq<Byte>) returns (r: Parsed<M>)
    ensures r == ReadDocument(j, data)
  {
    hide ApplyRecord, Framing, ReadHeader;
    var h := ReadHeader(data);
    if h.Err? {
      return Err(h.error);
    }
    var offset := h.value.1;
    var d: Document<M> := NewDocument(h.value.0);
    while offset < |data|
      invariant 0 <= offset
      invariant ReadDocument(j, data) == ReadRecords(j, d, if offset <= |data| then data[offset..] else [])
      decreases |data| - offset
    {
      ghost var rest := data[offset..];
      var f := Framing(data[offset..]);
      if f.Err? {
        return Err(f.error);
      }
      var (typ, flags, len) := f.value;
      var payload := data[offset + 8..offset + 8 + len];
      assert rest[8..8 + len] == payload;
      var next := ApplyRecord(j, d, typ, flags, payload);
      if next.Err? {
        return next;
      }
      offset := offset + 8 + len;
      assert rest[8 + len..] == data[offset..];
      d := next.value;
    }
    return Ok(d);
  }
}
