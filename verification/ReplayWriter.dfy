/** The streaming writer: it enforces the ordering law call by call, and a refused call leaves
    both the stream and the writer's state as they were. */
module ReplayWriter {
  import opened Prelude
  import opened Struct
  import opened Canonical
  import opened ReplayFormat

  /** A caller error, or a field value its width cannot hold. */
  datatype WriteError = Misuse | OutOfRange

  datatype Writer = Writer(stream: seq<Byte>, closed: bool, metaWritten: bool,
                           lastTick: Option<int>, lastKey: Option<int>)

  type Written = Result<Writer, WriteError>

  function HeaderBytes(tickHz: int): (bs: seq<Byte>)
    requires 0 <= tickHz < Pow(4)
    ensures |bs| == HEADER_SIZE
  {
    Sizes();
    Widths();
    Pack(HEADER, [MAGIC, FORMAT_VERSION, HEADER_SIZE, tickHz, 0])
  }

  function Open(tickHz: int): Written {
    if tickHz < 1 then Err(Misuse)
    else if Pow(4) <= tickHz then Err(OutOfRange)
    else Ok(Writer(HeaderBytes(tickHz), false, false, None, None))
  }

  /** The record as it goes on the wire: a tick's events in canonical order. */
  function Canon<M>(r: Record<M>): Record<M> {
    if r.TickRec? then TickRec(r.rec.(events := Sort(r.rec.events))) else r
  }

  /** May the ordering law accept this record now? */
  predicate InOrder<M>(w: Writer, r: Record<M>) {
    match r
    case MetaRec(_) => !w.metaWritten && w.lastTick == None
    case TickRec(t) => (w.lastTick.Some? ==> w.lastTick.value < t.tick) && |t.events| <= MAX_EVENTS
    case ExpectedRec(_) => true
    case CheckpointRec(c) =>
      && w.lastTick == Some(c.tick)
      && (w.lastKey.Some? ==> w.lastKey.value < c.streamKey)
      && |c.state| == RNG_STATE_SIZE
  }

  /** The four write calls. */
  function Write<M>(j: Json<M>, w: Writer, r: Record<M>): Written {
    if w.closed || !InOrder(w, r) then Err(Misuse)
    else if !RecordFits(j, Canon(r)) then Err(OutOfRange)
    else
      var w' := w.(stream := w.stream + RecordBytes(j, Canon(r)));
      match r
      case MetaRec(_) => Ok(w'.(metaWritten := true))
      case TickRec(t) => Ok(w'.(lastTick := Some(t.tick), lastKey := None))
      case ExpectedRec(_) => Ok(w')
      case CheckpointRec(c) => Ok(w'.(lastKey := Some(c.streamKey)))
  }

  /** The packing loop of a tick; None when some event does not fit its layout. */
  method PackEventsLoop(es: seq<Event>) returns (bs: Option<seq<Byte>>)
    ensures bs == if AllFit(es) then Some(PackEvents(es)) else None
  {
    hide EventFits, PackEvent;
    var payload: seq<Byte> := [];
    for i := 0 to |es|
      invariant AllFit(es[..i]) && payload == PackEvents(es[..i])
    {
      if !EventFits(es[i]) {
        assert es[i] in es;
        return None;
      }
      assert es[..i + 1] == es[..i] + [es[i]];
      PackEventsSnoc(es[..i], es[i]);
      payload := payload + PackEvent(es[i]);
    }
    assert es[..|es|] == es;
    return Some(payload);
  }

  class ReplayWriter<M> {
    const json: Json<M>
    var stream: seq<Byte>
    var closed: bool
    var metaWritten: bool
    var lastTick: Option<int>
    var lastKey: Option<int>

    ghost function View(): Writer
      reads this
    {
      Writer(stream, closed, metaWritten, lastTick, lastKey)
    }

    /** `tickHz` is checked by the caller's `Open`. */
    constructor (json: Json<M>, tickHz: int)
      requires Open(tickHz).Ok?
      ensures this.json == json && Ok(View()) == Open(tickHz)
    {
      this.json := json;
      stream := HeaderBytes(tickHz);
      closed, metaWritten, lastTick, lastKey := false, false, None, None;
    }

    method WriteMeta(meta: M) returns (error: Option<WriteError>)
      modifies this
      ensures closed == old(closed)
      ensures Reports(Write(json, old(View()), MetaRec(meta)), old(View()), View(), error)
    {
      if closed || metaWritten || lastTick != None {
        return Some(Misuse);
      }
      var payload := json.dump(meta);
      if Pow(4) <= |payload| {
        return Some(OutOfRange);
      }
      stream := stream + Frame(META_TYPE, payload);
      metaWritten := true;
      return None;
    }

    method WriteTick(tick: int, events: seq<Event>) returns (error: Option<WriteError>)
      modifies this
      ensures closed == old(closed)
      ensures Reports(Write(json, old(View()), TickRec(TickRecord(tick, events))), old(View()), View(), error)
    {
      hide Sort, PackEvents, EventFits;
      if closed || (lastTick.Some? && tick <= lastTick.value) {
        return Some(Misuse);
      }
      var ordered := Sort(events);
      SortIsStable(events, Key(0, 0, 0));
      if |ordered| > MAX_EVENTS {
        return Some(Misuse);
      }
      if !FieldFits(U(8), tick) {
        return Some(OutOfRange);
      }
      var packed := PackEventsLoop(ordered);
      if packed.None? {
        return Some(OutOfRange);
      }
      Widths();
      var payload := Pack(TICK_HEAD, [tick, |ordered|]) + packed.value;
      ghost var rec: Record<M> := TickRec(TickRecord(tick, ordered));
      assert payload == Payload(json, rec);
      stream := stream + Frame(TICK_TYPE, payload);
      lastTick, lastKey := Some(tick), None;
      return None;
    }

    method WriteExpectedHash(tick: int, hash: int) returns (error: Option<WriteError>)
      modifies this
      ensures closed == old(closed)
      ensures Reports(Write(json, old(View()), ExpectedRec(ExpectedHash(tick, hash))), old(View()), View(), error)
    {
      if closed {
        return Some(Misuse);
      }
      if !ExpectedFits(ExpectedHash(tick, hash)) {
        return Some(OutOfRange);
      }
      ghost var rec: Record<M> := ExpectedRec(ExpectedHash(tick, hash));
      assert Pack(EXPECTED, [tick, hash]) == Payload(json, rec);
      stream := stream + Frame(EXPECTED_HASH_TYPE, Pack(EXPECTED, [tick, hash]));
      return None;
    }

    method WriteRngCheckpoint(tick: int, streamKey: int, state: seq<Byte>) returns (error: Option<WriteError>)
      modifies this
      ensures closed == old(closed)
      ensures Reports(Write(json, old(View()), CheckpointRec(Checkpoint(tick, streamKey, state))),
                      old(View()), View(), error)
    {
      if closed || lastTick != Some(tick) {
        return Some(Misuse);
      }
      if lastKey.Some? && streamKey <= lastKey.value {
        return Some(Misuse);
      }
      if |state| != RNG_STATE_SIZE {
        return Some(Misuse);
      }
      if !CheckpointFits(Checkpoint(tick, streamKey, state)) {
        return Some(OutOfRange);
      }
      ghost var rec: Record<M> := CheckpointRec(Checkpoint(tick, streamKey, state));
      Widths();
      var payload := Pack(CHECKPOINT_HEAD, [tick, streamKey, |state|]) + state;
      assert payload == Payload(json, rec);
      stream := stream + Frame(RNG_CHECKPOINT_TYPE, payload);
      lastKey := Some(streamKey);
      return None;
    }

    method Close()
      modifies this`closed
      ensures closed
    {
      closed := true;
    }
  }

  /** What a write call reports and leaves: the specified writer on success, the old one on error. */
  ghost predicate Reports(spec: Written, before: Writer, after: Writer, error: Option<WriteError>) {
    match error
    case None => spec == Ok(after)
    case Some(e) => spec == Err(e) && after == before
  }

  lemma {:induction false} PackEventsSnoc(es: seq<Event>, e: Event)
    requires AllFit(es) && EventFits(e)
    ensures AllFit(es + [e]) && PackEvents(es + [e]) == PackEvents(es) + PackEvent(e)
  {
    hide PackEvent;
    if es == [] {
      assert es + [e] == [e] && [e][1..] == [];
    } else {
      PackEventsSnoc(es[1..], e);
      assert (es + [e])[1..] == es[1..] + [e];
    }
  }

  /** The header's bytes: the magic, version 1, header size 16, the rate, no flags. */
  lemma HeaderLayout(tickHz: int)
    requires 0 <= tickHz < Pow(4)
    ensures HeaderBytes(tickHz) == [0x4b, 0x52, 0x50, 0x4c] + ([0, 1] + ([0, 16] + (Digits(4, tickHz) + [0, 0, 0, 0])))
  {
    hide Digits, Pack;
    Widths();
    HeaderDigits();
    PackFive(HEADER, [MAGIC, FORMAT_VERSION, HEADER_SIZE, tickHz, 0]);
  }

  lemma HeaderDigits()
    ensures Digits(4, MAGIC) == [0x4b, 0x52, 0x50, 0x4c] && Digits(4, 0) == [0, 0, 0, 0]
    ensures Digits(2, 1) == [0, 1] && Digits(2, 16) == [0, 16]
  {
    FourDigits(0x4b, 0x52, 0x50, 0x4c);
    FourDigits(0, 0, 0, 0);
  }

  lemma FourDigits(a: Byte, b: Byte, c: Byte, d: Byte)
    ensures Digits(4, ((a * 256 + b) * 256 + c) * 256 + d) == [a, b, c, d]
  {
    var x := (a * 256 + b) * 256 + c;
    assert (x * 256 + d) / 256 == x && (x * 256 + d) % 256 == d;
    var y := a * 256 + b;
    assert (y * 256 + c) / 256 == y && (y * 256 + c) % 256 == c;
    assert Digits(2, y) == [a, b];
    assert Digits(3, x) == [a, b] + [c];
  }

  lemma PackFirst(l: Layout, vs: seq<int>)
    requires l != [] && Fits(l, vs) && l[0].U?
    ensures Fits(l[1..], vs[1..]) && Pack(l, vs) == Digits(l[0].w, vs[0]) + Pack(l[1..], vs[1..])
  {
  }

  lemma PackFive(l: Layout, vs: seq<int>)
    requires |l| == 5 && Fits(l, vs) && forall i :: 0 <= i < 5 ==> l[i].U?
    ensures Pack(l, vs) == Digits(l[0].w, vs[0]) + (Digits(l[1].w, vs[1]) + (Digits(l[2].w, vs[2])
                           + (Digits(l[3].w, vs[3]) + Digits(l[4].w, vs[4]))))
  {
    PackFirst(l, vs);
    PackFirst(l[1..], vs[1..]);
    PackFirst(l[1..][1..], vs[1..][1..]);
    PackFirst(l[1..][1..][1..], vs[1..][1..][1..]);
    PackFirst(l[1..][1..][1..][1..], vs[1..][1..][1..][1..]);
    assert l[1..][1..][1..][1..][1..] == [];
    PackNone(l[1..][1..][1..][1..][1..], vs[1..][1..][1..][1..][1..]);
    hide Digits, Pack, Fits;
    assert Digits(l[4].w, vs[4]) + [] == Digits(l[4].w, vs[4]);
  }
}
