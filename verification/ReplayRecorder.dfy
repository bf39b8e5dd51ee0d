/** The tick-boundary recorder: events buffered as they arrive, drained into one tick record at
    each boundary, idle ticks elided. */
module ReplayRecorder {
  import opened Prelude
  import opened Struct
  import opened Canonical
  import opened ReplayFormat
  import opened ReplayReader
  import opened W = ReplayWriter
  import opened ReplayRoundTrip

  const DEFAULT_STREAM_KEY: int := 0

  /** The recorder is closed when its writer is. */
  datatype Recorder = Recorder(w: Writer, pending: seq<Event>)

  /** The calls a server makes, in the order they take the recorder's lock. A flush carries what the
      generator provider returns, if there is a provider. */
  datatype Call<M> =
    | RecordCall(event: Event)
    | FlushCall(tick: int, state: Option<seq<Byte>>)
    | MetaCall(meta: M)
    | CloseCall

  /** What the writer demands of a drained tick; a caller can check it before the flush. */
  predicate Writable(w: Writer, tick: int, events: seq<Event>) {
    (w.lastTick.Some? ==> w.lastTick.value < tick) && TickFits(TickRecord(tick, events))
  }

  /** The write calls one recorder call makes, in order. */
  function Writes<M>(s: Recorder, c: Call<M>): seq<Record<M>> {
    match c
    case RecordCall(_) => []
    case MetaCall(m) => if s.w.closed then [] else [MetaRec(m)]
    case CloseCall => []
    case FlushCall(tick, state) =>
      if s.w.closed || s.pending == [] then []
      else
        [TickRec(TickRecord(tick, s.pending))]
        + if Writable(s.w, tick, s.pending) && state.Some? && |state.value| == RNG_STATE_SIZE then
            [CheckpointRec(Checkpoint(tick, DEFAULT_STREAM_KEY, state.value))]
          else []
  }

  /** The state after a call. */
  function Do<M>(j: Json<M>, s: Recorder, c: Call<M>): Recorder {
    var w := Session(j, s.w, Writes(s, c));
    match c
    case RecordCall(e) => if s.w.closed then s else s.(pending := s.pending + [e])
    case MetaCall(_) => s.(w := w)
    case CloseCall => Recorder(w.(closed := true), [])
    case FlushCall(_, _) => if s.w.closed then s else Recorder(w, [])
  }

  /** What the call raises. */
  function Raises<M>(j: Json<M>, s: Recorder, c: Call<M>): Option<WriteError> {
    match c
    case RecordCall(_) => None
    case MetaCall(m) => var r := Write(j, s.w, MetaRec(m)); if r.Err? then Some(r.error) else None
    case CloseCall => None
    case FlushCall(tick, state) =>
      if s.w.closed || s.pending == [] then None
      else
        var r := Write(j, s.w, TickRec(TickRecord(tick, s.pending)));
        if r.Err? then Some(r.error)
        else if state.Some? && |state.value| != RNG_STATE_SIZE then Some(Misuse) else None
  }

  function Run<M>(j: Json<M>, s: Recorder, calls: seq<Call<M>>): Recorder
    decreases |calls|
  {
    if calls == [] then s else Run(j, Do(j, s, calls[0]), calls[1..])
  }

  /** The write calls of a whole run. */
  function AllWrites<M>(j: Json<M>, s: Recorder, calls: seq<Call<M>>): seq<Record<M>>
    decreases |calls|
  {
    if calls == [] then [] else Writes(s, calls[0]) + AllWrites(j, Do(j, s, calls[0]), calls[1..])
  }

  // -------------------------------------------------------------------------------------
  // Where every event goes
  // -------------------------------------------------------------------------------------

  /** A drain of a non-empty buffer: its events in arrival order, and whether the tick was written. */
  datatype Drain = Drain(tick: int, events: seq<Event>, state: Option<seq<Byte>>, written: bool)

  function DrainOf<M>(s: Recorder, c: Call<M>): seq<Drain> {
    if c.FlushCall? && !s.w.closed && s.pending != [] then
      [Drain(c.tick, s.pending, c.state, Writable(s.w, c.tick, s.pending))]
    else []
  }

  function Drains<M>(j: Json<M>, s: Recorder, calls: seq<Call<M>>): seq<Drain>
    decreases |calls|
  {
    if calls == [] then [] else DrainOf(s, calls[0]) + Drains(j, Do(j, s, calls[0]), calls[1..])
  }

  /** The events offered while the recorder was open. */
  function Recorded<M>(j: Json<M>, s: Recorder, calls: seq<Call<M>>): seq<Event>
    decreases |calls|
  {
    if calls == [] then []
    else
      (if calls[0].RecordCall? && !s.w.closed then [calls[0].event] else [])
      + Recorded(j, Do(j, s, calls[0]), calls[1..])
  }

  /** The tail a close throws away. */
  function Discarded<M>(j: Json<M>, s: Recorder, calls: seq<Call<M>>): seq<Event>
    decreases |calls|
  {
    if calls == [] then []
    else (if calls[0].CloseCall? then s.pending else []) + Discarded(j, Do(j, s, calls[0]), calls[1..])
  }

  function Flat(ds: seq<Drain>): seq<Event> { if ds == [] then [] else ds[0].events + Flat(ds[1..]) }

  predicate Sane(s: Recorder) { s.w.closed ==> s.pending == [] }

  lemma FlatAppend(a: seq<Drain>, b: seq<Drain>)
    requires |a| <= 1
    ensures Flat(a + b) == Flat(a) + Flat(b)
  {
    if a == [] {
      assert a + b == b;
    } else {
      assert (a + b)[1..] == b && a[1..] == [];
    }
  }

  lemma ClosedStays<M>(j: Json<M>, s: Recorder, c: Call<M>)
    requires Sane(s)
    ensures Sane(Do(j, s, c))
    ensures s.w.closed ==> Do(j, s, c) == s
    ensures Do(j, s, c).w.closed <==> s.w.closed || c.CloseCall?
  {
    hide RecordFits, RecordBytes, TickFits, Sort;
    var calls := Writes(s, c);
    SessionClosed(j, s.w, calls);
  }

  lemma {:induction false} SessionClosed<M>(j: Json<M>, w: Writer, calls: seq<Record<M>>)
    ensures Session(j, w, calls).closed == w.closed
    ensures w.closed ==> Session(j, w, calls) == w
    decreases |calls|
  {
    hide RecordFits, RecordBytes, InOrder;
    if calls != [] {
      var r := Write(j, w, calls[0]);
      SessionClosed(j, if r.Ok? then r.value else w, calls[1..]);
    }
  }

  /** One call moves events only from the buffer into its drain or into the discarded tail. */
  lemma StepConserves<M>(j: Json<M>, s: Recorder, c: Call<M>)
    requires Sane(s)
    ensures s.pending + (if c.RecordCall? && !s.w.closed then [c.event] else [])
            == Flat(DrainOf(s, c)) + (if c.CloseCall? then s.pending else []) + Do(j, s, c).pending
  {
    hide Session, Writes;
    if DrainOf(s, c) != [] { assert DrainOf(s, c)[1..] == []; }
  }

  /** Conservation over whole runs: the events recorded while open are, in arrival order and each
      exactly once, the events of the successive drains, then the tail discarded by the close, then
      what is still buffered. */
  lemma {:induction false} EventsConserved<M>(j: Json<M>, s: Recorder, calls: seq<Call<M>>)
    requires Sane(s)
    ensures s.pending + Recorded(j, s, calls)
            == Flat(Drains(j, s, calls)) + Discarded(j, s, calls) + Run(j, s, calls).pending
    decreases |calls|
  {
    hide Do, DrainOf, Flat;
    if calls == [] {
      FlatNil();
    } else {
      var c := calls[0];
      var s' := Do(j, s, c);
      ClosedStays(j, s, c);
      StepConserves(j, s, c);
      EventsConserved(j, s', calls[1..]);
      DrainOfShort(s, c);
      FlatAppend(DrainOf(s, c), Drains(j, s', calls[1..]));
      if c.CloseCall? {
        AfterClose(j, s', calls[1..]);
      }
      Regroup(s.pending, if c.RecordCall? && !s.w.closed then [c.event] else [], Recorded(j, s', calls[1..]),
              Flat(DrainOf(s, c)), if c.CloseCall? then s.pending else [], s'.pending,
              Flat(Drains(j, s', calls[1..])), Discarded(j, s', calls[1..]), Run(j, s', calls[1..]).pending);
    }
  }

  lemma FlatNil()
    ensures Flat([]) == []
  {
  }

  lemma DrainOfShort<M>(s: Recorder, c: Call<M>)
    ensures |DrainOf(s, c)| <= 1
    ensures c.CloseCall? ==> DrainOf(s, c) == []
  {
  }

  /** Nothing is drained or discarded after a close. */
  lemma {:induction false} AfterClose<M>(j: Json<M>, s: Recorder, calls: seq<Call<M>>)
    requires Sane(s) && s.w.closed
    ensures Run(j, s, calls) == s && Drains(j, s, calls) == [] && Discarded(j, s, calls) == []
    ensures Flat(Drains(j, s, calls)) == [] && Recorded(j, s, calls) == [] && AllWrites(j, s, calls) == []
    decreases |calls|
  {
    hide Do;
    if calls != [] {
      ClosedStays(j, s, calls[0]);
      AfterClose(j, s, calls[1..]);
    }
  }

  lemma Regroup(p: seq<Event>, r: seq<Event>, rs: seq<Event>, f: seq<Event>, x: seq<Event>, q: seq<Event>,
                fs: seq<Event>, xs: seq<Event>, z: seq<Event>)
    requires p + r == f + x + q && q + rs == fs + xs + z
    requires x == [] || (q == [] && fs == [])
    ensures p + (r + rs) == f + fs + (x + xs) + z
  {
    if x == [] {
      calc {
        p + (r + rs);
        (p + r) + rs;
        { assert f + x + q == f + q; }
        (f + q) + rs;
        f + (q + rs);
        f + (fs + xs + z);
        { assert x + xs == xs; }
        f + fs + (x + xs) + z;
      }
    } else {
      calc {
        p + (r + rs);
        (p + r) + rs;
        { assert f + x + q == f + x; }
        (f + x) + rs;
        { assert rs == q + rs && fs + xs + z == xs + z; }
        (f + x) + (xs + z);
        { assert f + fs == f; }
        f + fs + (x + xs) + z;
      }
    }
  }

  // -------------------------------------------------------------------------------------
  // What is on the stream
  // -------------------------------------------------------------------------------------

  lemma {:induction false} SessionAppend<M>(j: Json<M>, w: Writer, a: seq<Record<M>>, b: seq<Record<M>>)
    ensures Session(j, w, a + b) == Session(j, Session(j, w, a), b)
    ensures Emitted(j, w, a + b) == Emitted(j, w, a) + Emitted(j, Session(j, w, a), b)
    decreases |a|
  {
    hide Write, Canon;
    if a == [] {
      assert a + b == b;
      assert [] + Emitted(j, w, b) == Emitted(j, w, b);
    } else {
      assert (a + b)[1..] == a[1..] + b;
      var r := Write(j, w, a[0]);
      var w' := if r.Ok? then r.value else w;
      SessionAppend(j, w', a[1..], b);
      var x := [Canon(a[0])];
      assert x + (Emitted(j, w', a[1..]) + Emitted(j, Session(j, w, a), b))
          == x + Emitted(j, w', a[1..]) + Emitted(j, Session(j, w, a), b);
    }
  }

  /** The tick a written drain leaves, and its checkpoint. */
  function TicksOf(ds: seq<Drain>): seq<TickRecord> {
    if ds == [] then []
    else (if ds[0].written then [TickRecord(ds[0].tick, Sort(ds[0].events))] else []) + TicksOf(ds[1..])
  }

  function CheckpointsOf(ds: seq<Drain>): seq<Checkpoint> {
    if ds == [] then []
    else
      (if ds[0].written && ds[0].state.Some? && |ds[0].state.value| == RNG_STATE_SIZE then
         [Checkpoint(ds[0].tick, DEFAULT_STREAM_KEY, ds[0].state.value)]
       else [])
      + CheckpointsOf(ds[1..])
  }

  function TicksIn<M>(rs: seq<Record<M>>): seq<TickRecord> {
    if rs == [] then [] else (if rs[0].TickRec? then [rs[0].rec] else []) + TicksIn(rs[1..])
  }

  function CheckpointsIn<M>(rs: seq<Record<M>>): seq<Checkpoint> {
    if rs == [] then []
    else (if rs[0].CheckpointRec? then [rs[0].checkpoint] else []) + CheckpointsIn(rs[1..])
  }

  /** The records on the stream carry exactly these ticks and checkpoints and no expectation. */
  ghost predicate Carries<M>(rs: seq<Record<M>>, ts: seq<TickRecord>, cs: seq<Checkpoint>) {
    TicksIn(rs) == ts && CheckpointsIn(rs) == cs && Expectations(rs) == []
  }

  lemma {:induction false} CarriesAppend<M>(a: seq<Record<M>>, ts: seq<TickRecord>, cs: seq<Checkpoint>,
                                            b: seq<Record<M>>, ts': seq<TickRecord>, cs': seq<Checkpoint>)
    requires Carries(a, ts, cs) && Carries(b, ts', cs')
    ensures Carries(a + b, ts + ts', cs + cs')
    decreases |a|
  {
    if a == [] {
      assert a + b == b;
      assert ts + ts' == ts' && cs + cs' == cs';
    } else {
      assert (a + b)[1..] == a[1..] + b;
      var t := if a[0].TickRec? then [a[0].rec] else [];
      var c := if a[0].CheckpointRec? then [a[0].checkpoint] else [];
      CarriesAppend(a[1..], ts[|t|..], cs[|c|..], b, ts', cs');
      assert t + (ts[|t|..] + ts') == ts + ts';
      assert c + (cs[|c|..] + cs') == cs + cs';
    }
  }

  /** A flush puts its tick and its checkpoint on the stream exactly when the tick is writable. */
  lemma FlushEmits<M>(j: Json<M>, s: Recorder, t: int, state: Option<seq<Byte>>)
    requires !s.w.closed && s.pending != []
    ensures var c: Call<M> := FlushCall(t, state);
            Carries(Emitted(j, s.w, Writes(s, c)), TicksOf(DrainOf(s, c)), CheckpointsOf(DrainOf(s, c)))
    ensures Write(j, s.w, TickRec(TickRecord(t, s.pending))).Ok? <==> Writable(s.w, t, s.pending)
  {
    hide RecordBytes, Sort, EventFits, Carries, TicksOf, CheckpointsOf;
    var c: Call<M> := FlushCall(t, state);
    SortFits(s.pending);
    Widths();
    var tick: Record<M> := TickRec(TickRecord(t, s.pending));
    OneWrite(j, s.w, tick);
    CarriesOne(Canon(tick));
    DrainCarried(DrainOf(s, c)[0]);
    if |Writes(s, c)| == 1 {
      assert Writes(s, c) == [tick];
    } else {
      var ckpt: Record<M> := CheckpointRec(Checkpoint(c.tick, DEFAULT_STREAM_KEY, state.value));
      var w := Write(j, s.w, tick).value;
      assert Writes(s, c) == [tick] + [ckpt];
      SessionAppend(j, s.w, [tick], [ckpt]);
      assert CheckpointFits(ckpt.checkpoint);
      OneWrite(j, w, ckpt);
      CarriesOne(ckpt);
      assert [Canon(tick).rec] + [] == [Canon(tick).rec] && [] + [ckpt.checkpoint] == [ckpt.checkpoint];
      CarriesAppend([Canon(tick)], [Canon(tick).rec], [], [ckpt], [], [ckpt.checkpoint]);
    }
  }

  lemma OneWrite<M>(j: Json<M>, w: Writer, r: Record<M>)
    ensures Emitted(j, w, [r]) == if Write(j, w, r).Ok? then [Canon(r)] else []
    ensures Session(j, w, [r]) == if Write(j, w, r).Ok? then Write(j, w, r).value else w
  {
    hide Write, Canon;
    assert [r][1..] == [];
  }

  lemma CarriesOne<M>(r: Record<M>)
    ensures !r.ExpectedRec? ==>
              Carries([r], if r.TickRec? then [r.rec] else [], if r.CheckpointRec? then [r.checkpoint] else [])
    ensures Carries<M>([], [], [])
  {
    assert [r][1..] == [];
  }

  lemma DrainCarried(d: Drain)
    ensures TicksOf([d]) == if d.written then [TickRecord(d.tick, Sort(d.events))] else []
    ensures CheckpointsOf([d]) == if d.written && d.state.Some? && |d.state.value| == RNG_STATE_SIZE then
                                    [Checkpoint(d.tick, DEFAULT_STREAM_KEY, d.state.value)]
                                  else []
  {
    hide Sort;
    assert [d][1..] == [];
  }

  lemma SortFits(es: seq<Event>)
    ensures |Sort(es)| == |es| && (AllFit(Sort(es)) <==> AllFit(es))
  {
    hide EventFits, Sort;
    SortIsStable(es, Key(0, 0, 0));
    forall e ensures e in es <==> e in Sort(es) {
      assert e in es <==> e in multiset(es);
      assert e in Sort(es) <==> e in multiset(Sort(es));
    }
  }

  lemma StepEmits<M>(j: Json<M>, s: Recorder, c: Call<M>)
    requires Sane(s)
    ensures Carries(Emitted(j, s.w, Writes(s, c)), TicksOf(DrainOf(s, c)), CheckpointsOf(DrainOf(s, c)))
    ensures Do(j, s, c).w.stream == Session(j, s.w, Writes(s, c)).stream
    ensures !c.CloseCall? ==> Do(j, s, c).w == Session(j, s.w, Writes(s, c))
  {
    hide Write, Sort, TickFits;
    if c.FlushCall? && !s.w.closed && s.pending != [] {
      FlushEmits(j, s, c.tick, c.state);
    } else {
      assert DrainOf(s, c) == [];
      if c.MetaCall? && !s.w.closed {
        OneWrite(j, s.w, MetaRec(c.meta));
        CarriesOne<M>(MetaRec(c.meta));
      }
    }
  }

  lemma DrainsAppend(a: seq<Drain>, b: seq<Drain>)
    requires |a| <= 1
    ensures TicksOf(a + b) == TicksOf(a) + TicksOf(b)
    ensures CheckpointsOf(a + b) == CheckpointsOf(a) + CheckpointsOf(b)
  {
    hide Sort;
    if a == [] {
      assert a + b == b;
    } else {
      assert (a + b)[1..] == b && a[1..] == [];
    }
  }

  lemma {:induction false} RunEmits<M>(j: Json<M>, s: Recorder, calls: seq<Call<M>>)
    requires Sane(s)
    ensures var rs := Emitted(j, s.w, AllWrites(j, s, calls));
            Carries(rs, TicksOf(Drains(j, s, calls)), CheckpointsOf(Drains(j, s, calls)))
    ensures Run(j, s, calls).w.stream == Session(j, s.w, AllWrites(j, s, calls)).stream
    decreases |calls|
  {
    hide Do, DrainOf, Writes, Carries, TicksOf, CheckpointsOf, Session, Emitted;
    if calls == [] {
      NothingEmitted<M>(j, s.w);
    } else {
      var c := calls[0];
      var s' := Do(j, s, c);
      ClosedStays(j, s, c);
      StepEmits(j, s, c);
      RunEmits(j, s', calls[1..]);
      var w' := Session(j, s.w, Writes(s, c));
      var rest := AllWrites(j, s', calls[1..]);
      SessionAppend(j, s.w, Writes(s, c), rest);
      if c.CloseCall? {
        AfterClose(j, s', calls[1..]);
        NothingEmitted<M>(j, w');
        NothingEmitted<M>(j, s'.w);
      }
      assert Emitted(j, w', rest) == Emitted(j, s'.w, rest);
      assert Session(j, w', rest).stream == Session(j, s'.w, rest).stream;
      DrainOfShort(s, c);
      DrainsAppend(DrainOf(s, c), Drains(j, s', calls[1..]));
      CarriesAppend(Emitted(j, s.w, Writes(s, c)), TicksOf(DrainOf(s, c)), CheckpointsOf(DrainOf(s, c)),
                    Emitted(j, s'.w, rest), TicksOf(Drains(j, s', calls[1..])),
                    CheckpointsOf(Drains(j, s', calls[1..])));
    }
  }

  lemma NothingEmitted<M>(j: Json<M>, w: Writer)
    ensures Emitted(j, w, []) == [] && Session(j, w, []) == w
    ensures Carries<M>([], TicksOf([]), CheckpointsOf([]))
  {
  }

  // -------------------------------------------------------------------------------------
  // The object
  // -------------------------------------------------------------------------------------

  lemma ClosedRefuses<M>(j: Json<M>, w: Writer, r: Record<M>)
    requires w.closed
    ensures Write(j, w, r) == Err(Misuse)
  {
  }

  lemma ClosedAgain<M>(j: Json<M>, s: Recorder)
    ensures Do(j, s, CloseCall) == Recorder(s.w.(closed := true), [])
  {
  }

  lemma NothingWritten<M>(j: Json<M>, w: Writer)
    ensures Session<M>(j, w, []) == w
  {
  }

  /** A flush, write by write: the events are sorted before they are handed to the writer, which
      sorts them again. */
  lemma FlushIs<M>(j: Json<M>, s: Recorder, t: int, state: Option<seq<Byte>>)
    requires !s.w.closed && s.pending != []
    ensures var r := Write(j, s.w, TickRec(TickRecord(t, Sort(s.pending))));
            var s' := Do(j, s, FlushCall(t, state));
            && r == Write(j, s.w, TickRec(TickRecord(t, s.pending)))
            && (r.Err? ==> s'.w == s.w)
            && (r.Ok? && (state.None? || |state.value| != RNG_STATE_SIZE) ==> s'.w == r.value)
            && (r.Ok? && state.Some? && |state.value| == RNG_STATE_SIZE ==>
                  Write(j, r.value, CheckpointRec(Checkpoint(t, DEFAULT_STREAM_KEY, state.value))) == Ok(s'.w))
  {
    hide RecordBytes, Sort, EventFits;
    SortIsStable(s.pending, Key(0, 0, 0));
    SortSorted(Sort(s.pending));
    FlushEmits<M>(j, s, t, state);
    var tick: Record<M> := TickRec(TickRecord(t, s.pending));
    OneWrite(j, s.w, tick);
    var writes: seq<Record<M>> := Writes(s, FlushCall(t, state));
    if |writes| == 1 {
      assert writes == [tick];
    } else {
      var ckpt: Record<M> := CheckpointRec(Checkpoint(t, DEFAULT_STREAM_KEY, state.value));
      Widths();
      assert writes == [tick] + [ckpt];
      SessionAppend(j, s.w, [tick], [ckpt]);
      OneWrite(j, Write(j, s.w, tick).value, ckpt);
    }
  }

  /** The recorder object. Every call holds the recorder's lock throughout, so calls are atomic. */
  class ReplayRecorder<M> {
    const writer: W.ReplayWriter<M>
    var pending: seq<Event>
    var closed: bool

    ghost predicate Valid()
      reads this, writer
    {
      closed == writer.closed && (closed ==> pending == [])
    }

    ghost function View(): Recorder
      reads this, writer
    {
      Recorder(writer.View(), pending)
    }

    constructor (json: Json<M>, tickHz: int)
      requires Open(tickHz).Ok?
      ensures Valid() && fresh(writer) && writer.json == json && View() == Recorder(Open(tickHz).value, [])
    {
      writer := new W.ReplayWriter(json, tickHz);
      pending, closed := [], false;
    }

    method WriteMeta(meta: M) returns (error: Option<WriteError>)
      requires Valid()
      modifies this, writer
      ensures Valid() && View() == Do(writer.json, old(View()), MetaCall(meta))
      ensures error == Raises(writer.json, old(View()), MetaCall(meta))
    {
      hide Write;
      if closed {
        NothingWritten<M>(writer.json, View().w);
        ClosedRefuses(writer.json, View().w, MetaRec(meta));
        return Some(Misuse);
      }
      OneWrite(writer.json, View().w, MetaRec(meta));
      error := writer.WriteMeta(meta);
    }

    method RecordEvent(event: Event)
      requires Valid()
      modifies this
      ensures Valid() && View() == Do(writer.json, old(View()), RecordCall(event))
    {
      if closed {
        return;
      }
      pending := pending + [event];
    }

    method FlushTick(tick: int, state: Option<seq<Byte>>) returns (error: Option<WriteError>)
      requires Valid()
      modifies this, writer
      ensures Valid() && View() == Do(writer.json, old(View()), FlushCall(tick, state))
      ensures error == Raises(writer.json, old(View()), FlushCall(tick, state))
    {
      hide Write, Sort, Session;
      ghost var s := View();
      if closed {
        return None;
      }
      var events := Sort(pending);
      SortFits(pending);
      pending := [];
      if events == [] {
        NothingWritten<M>(writer.json, s.w);
        return None;
      }
      FlushIs(writer.json, s, tick, state);
      error := writer.WriteTick(tick, events);
      if error.Some? {
        return;
      }
      if state.Some? {
        if |state.value| != RNG_STATE_SIZE {
          return Some(Misuse);
        }
        error := writer.WriteRngCheckpoint(tick, DEFAULT_STREAM_KEY, state.value);
      }
    }

    method Close()
      requires Valid()
      modifies this, writer
      ensures Valid() && View() == Do(writer.json, old(View()), CloseCall)
    {
      ClosedAgain(writer.json, View());
      if closed {
        return;
      }
      closed := true;
      pending := [];
      writer.Close();
    }
  }
}
