/** The binary replay record: constants, layouts, the logical document, and the codec of events
    and record payloads. */
module ReplayFormat {
  import opened Prelude
  import opened Struct
  import opened Canonical

  // -------------------------------------------------------------------------------------
  // Constants and layouts
  // -------------------------------------------------------------------------------------

  const MAGIC: int := 0x4b52504c // "KRPL"
  const FORMAT_VERSION: int := 1
  const HEADER_SIZE: int := 16
  const RECORD_HEADER_SIZE: int := 8
  const RNG_STATE_SIZE: int := 40
  const MAX_EVENTS: int := 0xffff

  const TICK_TYPE: Byte := 1
  const META_TYPE: Byte := 2
  const EXPECTED_HASH_TYPE: Byte := 3
  const RNG_CHECKPOINT_TYPE: Byte := 4

  const HEADER: Layout := [U(4), U(2), U(2), U(4), U(4)]
  const RECORD: Layout := [U(1), U(1), U(2), U(4)]
  const TICK_HEAD: Layout := [U(8), U(2)]
  const SPAWN: Layout := [U(8), S(8), S(8), S(8), S(8), S(8), S(8), U(4)]
  const MOVE: Layout := [U(8), U(4), S(2), S(2), S(2), U(1)]
  const DESPAWN: Layout := [U(8)]
  const EXPECTED: Layout := [U(8), U(8)]
  const CHECKPOINT_HEAD: Layout := [U(8), U(8), U(4)]

  lemma Sizes()
    ensures Size(HEADER) == 16 && Size(RECORD) == 8 && Size(TICK_HEAD) == 10
    ensures Size(SPAWN) == 60 && Size(MOVE) == 19 && Size(DESPAWN) == 8
    ensures Size(EXPECTED) == 16 && Size(CHECKPOINT_HEAD) == 20
  {
  }

  // -------------------------------------------------------------------------------------
  // Logical model
  // -------------------------------------------------------------------------------------

  datatype TickRecord = TickRecord(tick: int, events: seq<Event>)
  datatype ExpectedHash = ExpectedHash(tick: int, hash: int)
  datatype Checkpoint = Checkpoint(tick: int, streamKey: int, state: seq<Byte>)

  /** `M` is the type of metadata objects. */
  datatype Document<M> = Document(
    tickHz: int, flags: int, meta: Option<M>,
    ticks: seq<TickRecord>, expected: seq<ExpectedHash>, checkpoints: seq<Checkpoint>)

  datatype Record<M> =
    | MetaRec(meta: M)
    | TickRec(rec: TickRecord)
    | ExpectedRec(hash: ExpectedHash)
    | CheckpointRec(checkpoint: Checkpoint)

  /** The JSON codec of metadata, supplied by the platform. */
  datatype Json<!M> = Json(dump: M -> seq<Byte>, load: seq<Byte> -> Option<M>)

  /** Loading what was dumped gives it back. */
  ghost predicate Inverse<M(!new)>(j: Json<M>) { forall m :: j.load(j.dump(m)) == Some(m) }

  /** Why the reader refuses a record. */
  datatype FormatError =
    | TooShort | BadMagic | BadVersion | BadHeaderFlags | BadTickHz | BadHeaderSize
    | TruncatedFraming | PayloadPastEnd | BadRecordFlags
    | TickTooShort | CountPastPayload | EventTooShort | UnknownEvent | NotCanonical | TrailingBytes
    | TickNotAscending | MetaMisplaced | MetaInvalid | BadExpectedLength | DuplicateExpectation
    | BadCheckpointLength | OrphanCheckpoint | StreamKeyOrder | BadStateLength

  // -------------------------------------------------------------------------------------
  // Events
  // -------------------------------------------------------------------------------------

  function Code(e: Event): Byte {
    match e
    case Spawn(_, _, _, _, _, _, _, _) => 1
    case Move(_, _, _, _, _, _) => 2
    case Despawn(_) => 3
  }

  function LayoutOf(code: Byte): Option<Layout> {
    if code == 1 then Some(SPAWN) else if code == 2 then Some(MOVE)
    else if code == 3 then Some(DESPAWN) else None
  }

  function Fields(e: Event): seq<int> {
    match e
    case Spawn(a, px, py, pz, vx, vy, vz, f) => [a, px, py, pz, vx, vy, vz, f]
    case Move(a, t, x, y, z, f) => [a, t, x, y, z, f]
    case Despawn(a) => [a]
  }

  function FromFields(code: Byte, vs: seq<int>): (e: Event)
    requires LayoutOf(code).Some? && |vs| == |LayoutOf(code).value|
    ensures Code(e) == code && Fields(e) == vs
  {
    if code == 1 then Spawn(vs[0], vs[1], vs[2], vs[3], vs[4], vs[5], vs[6], vs[7])
    else if code == 2 then Move(vs[0], vs[1], vs[2], vs[3], vs[4], vs[5])
    else Despawn(vs[0])
  }

  predicate EventFits(e: Event) { Fits(LayoutOf(Code(e)).value, Fields(e)) }

  /** The code byte and the fixed-width body. */
  function EventLen(e: Event): nat { if e.Spawn? then 61 else if e.Move? then 20 else 9 }

  lemma EventLenIsSize(e: Event)
    ensures EventLen(e) == 1 + Size(LayoutOf(Code(e)).value)
  {
    Sizes();
  }

  function PackEvent(e: Event): (bs: seq<Byte>)
    requires EventFits(e)
    ensures |bs| == EventLen(e)
  {
    EventLenIsSize(e);
    [Code(e)] + Pack(LayoutOf(Code(e)).value, Fields(e))
  }

  /** Parse the event at the start of `bs`; bytes after it are left to the caller. */
  function ParseEvent(bs: seq<Byte>): (r: Result<Event, FormatError>)
    requires bs != []
    ensures r.Ok? ==> EventLen(r.value) <= |bs|
  {
    var layout := LayoutOf(bs[0]);
    if layout.None? then Err(UnknownEvent)
    else if |bs| - 1 < Size(layout.value) then Err(EventTooShort)
    else
      var e := FromFields(bs[0], Unpack(layout.value, bs[1..][..Size(layout.value)]));
      EventLenIsSize(e);
      Ok(e)
  }

  lemma ParsePackEvent(e: Event, rest: seq<Byte>)
    requires EventFits(e)
    ensures ParseEvent(PackEvent(e) + rest) == Ok(e)
  {
    var layout := LayoutOf(Code(e)).value;
    var body := Pack(layout, Fields(e));
    assert (PackEvent(e) + rest)[1..][..Size(layout)] == body;
    UnpackPack(layout, Fields(e));
  }

  /** The next event of a tick payload: present, well formed, and not before the previous key. */
  function NextEvent(bs: seq<Byte>, prev: Option<Key>): (r: Result<Event, FormatError>)
    ensures r.Ok? ==> EventLen(r.value) <= |bs|
  {
    if bs == [] then Err(CountPastPayload)
    else
      var e := ParseEvent(bs);
      if e.Ok? && prev.Some? && !KeyLe(prev.value, KeyOf(e.value)) then Err(NotCanonical) else e
  }

  /** Parse exactly `count` events in canonical order and nothing after them. */
  function ParseEvents(bs: seq<Byte>, count: nat, prev: Option<Key>): Result<seq<Event>, FormatError>
    decreases count
  {
    if count == 0 then if bs == [] then Ok([]) else Err(TrailingBytes)
    else
      var e := NextEvent(bs, prev);
      if e.Err? then Err(e.error)
      else
        var rest := ParseEvents(bs[EventLen(e.value)..], count - 1, Some(KeyOf(e.value)));
        if rest.Err? then rest else Ok([e.value] + rest.value)
  }

  lemma {:induction false} ParseEventsSound(bs: seq<Byte>, count: nat, prev: Option<Key>)
    requires ParseEvents(bs, count, prev).Ok?
    ensures var es := ParseEvents(bs, count, prev).value;
            && |es| == count && Sorted(es) && AllFit(es)
            && (es != [] && prev.Some? ==> KeyLe(prev.value, KeyOf(es[0])))
    decreases count
  {
    if count > 0 {
      var e := NextEvent(bs, prev).value;
      ParseEventsSound(bs[EventLen(e)..], count - 1, Some(KeyOf(e)));
      var es := ParseEvents(bs, count, prev).value;
      assert es[1..] == ParseEvents(bs[EventLen(e)..], count - 1, Some(KeyOf(e))).value;
      if |es| >= 2 { SortedCons(es); }
      assert EventFits(e);
    }
  }

  predicate AllFit(es: seq<Event>) { forall e :: e in es ==> EventFits(e) }

  function PackEvents(es: seq<Event>): seq<Byte>
    requires AllFit(es)
  {
    if es == [] then [] else PackEvent(es[0]) + PackEvents(es[1..])
  }

  lemma {:induction false} ParsePackEvents(es: seq<Event>, prev: Option<Key>)
    requires AllFit(es) && Sorted(es)
    requires prev.Some? && es != [] ==> KeyLe(prev.value, KeyOf(es[0]))
    ensures ParseEvents(PackEvents(es), |es|, prev) == Ok(es)
  {
    hide ParseEvent, PackEvent;
    if es != [] {
      var rest := PackEvents(es[1..]);
      ParsePackEvent(es[0], rest);
      assert (PackEvent(es[0]) + rest)[EventLen(es[0])..] == rest;
      if |es| >= 2 { SortedCons(es); }
      ParsePackEvents(es[1..], Some(KeyOf(es[0])));
      assert es == [es[0]] + es[1..];
    }
  }

  lemma {:induction false} PackEventsSize(es: seq<Event>)
    requires AllFit(es)
    ensures |PackEvents(es)| <= 61 * |es|
  {
    Sizes();
    if es != [] { PackEventsSize(es[1..]); }
  }

  // -------------------------------------------------------------------------------------
  // Record payloads
  // -------------------------------------------------------------------------------------

  predicate TickFits(t: TickRecord) {
    FieldFits(U(8), t.tick) && |t.events| <= MAX_EVENTS && AllFit(t.events)
  }

  predicate ExpectedFits(x: ExpectedHash) { FieldFits(U(8), x.tick) && FieldFits(U(8), x.hash) }

  predicate CheckpointFits(c: Checkpoint) {
    FieldFits(U(8), c.tick) && FieldFits(U(8), c.streamKey) && |c.state| == RNG_STATE_SIZE
  }

  predicate RecordFits<M>(j: Json<M>, r: Record<M>) {
    match r
    case MetaRec(m) => |j.dump(m)| < Pow(4)
    case TickRec(t) => TickFits(t)
    case ExpectedRec(x) => ExpectedFits(x)
    case CheckpointRec(c) => CheckpointFits(c)
  }

  lemma Widths()
    ensures Pow(1) == 256 && Pow(2) == 65536 && Pow(4) == 0x1_0000_0000
    ensures Pow(4) < Pow(8)
  {
    assert Pow(3) == 256 * Pow(2) && Pow(4) == 256 * Pow(3);
    assert Pow(8) == 256 * (256 * (256 * (256 * Pow(4))));
  }

  function TypeOf<M>(r: Record<M>): Byte {
    match r
    case MetaRec(_) => META_TYPE
    case TickRec(_) => TICK_TYPE
    case ExpectedRec(_) => EXPECTED_HASH_TYPE
    case CheckpointRec(_) => RNG_CHECKPOINT_TYPE
  }

  function Payload<M>(j: Json<M>, r: Record<M>): (bs: seq<Byte>)
    requires RecordFits(j, r)
    ensures |bs| < Pow(4)
  {
    Sizes();
    Widths();
    match r
    case MetaRec(m) => j.dump(m)
    case TickRec(t) =>
      PackEventsSize(t.events);
      Pack(TICK_HEAD, [t.tick, |t.events|]) + PackEvents(t.events)
    case ExpectedRec(x) => Pack(EXPECTED, [x.tick, x.hash])
    case CheckpointRec(c) => Pack(CHECKPOINT_HEAD, [c.tick, c.streamKey, |c.state|]) + c.state
  }

  /** The eight framing bytes and the payload. */
  function Frame(typ: Byte, payload: seq<Byte>): (bs: seq<Byte>)
    requires |payload| < Pow(4)
    ensures |bs| == RECORD_HEADER_SIZE + |payload|
  {
    Sizes();
    Widths();
    Pack(RECORD, [typ, 0, 0, |payload|]) + payload
  }

  function RecordBytes<M>(j: Json<M>, r: Record<M>): (bs: seq<Byte>)
    requires RecordFits(j, r)
    ensures |bs| >= RECORD_HEADER_SIZE
  {
    Frame(TypeOf(r), Payload(j, r))
  }
}
