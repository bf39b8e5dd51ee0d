/** The ordering law of the format, stated on documents: which documents can be encoded, and what
    every accepted byte string decodes to. */
module ReplayLaw {
  import opened Prelude
  import opened Struct
  import opened Canonical
  import opened ReplayFormat
  import opened ReplayReader
  import opened ReplayWriter
  import opened ReplayRoundTrip
  import opened ReplayDocuments

  predicate StrictTicks(ticks: seq<TickRecord>) {
    forall i, k :: 0 <= i < k < |ticks| ==> ticks[i].tick < ticks[k].tick
  }

  predicate StrictKeys(cs: seq<Checkpoint>) {
    forall i, k :: 0 <= i < k < |cs| ==> cs[i].streamKey < cs[k].streamKey
  }

  predicate AllCheckpointsFit(cs: seq<Checkpoint>) { forall c :: c in cs ==> CheckpointFits(c) }

  // -------------------------------------------------------------------------------------
  // Which documents encode
  // -------------------------------------------------------------------------------------

  /** In range, strictly ascending ticks, every checkpoint anchored, stream keys strictly ascending
      within a tick. */
  ghost predicate Encodable<M>(j: Json<M>, d: Document<M>) {
    && 1 <= d.tickHz < Pow(4)
    && (d.meta.Some? ==> |j.dump(d.meta.value)| < Pow(4))
    && StrictTicks(d.ticks) && (forall t :: t in d.ticks ==> TickFits(t))
    && (forall x :: x in d.expected ==> ExpectedFits(x))
    && AnchorsKnown(d) && AllCheckpointsFit(d.checkpoints)
    && (forall t :: t in d.ticks ==> StrictKeys(OfTick(d.checkpoints, t.tick)))
  }

  lemma {:induction false} ExpectedWrites<M>(j: Json<M>, w: Writer, xs: seq<ExpectedHash>)
    requires !w.closed
    ensures WriteAll(j, w, ExpectedCalls(xs)).Ok? <==> forall x :: x in xs ==> ExpectedFits(x)
    decreases |xs|
  {
    hide ExpectedFits, RecordBytes;
    if xs != [] {
      var calls: seq<Record<M>> := ExpectedCalls(xs);
      assert calls[1..] == ExpectedCalls(xs[1..]);
      assert xs == [xs[0]] + xs[1..];
      if ExpectedFits(xs[0]) { ExpectedWrites(j, Write(j, w, ExpectedRec(xs[0])).value, xs[1..]); }
    }
  }

  lemma StrictKeysCons(c: Checkpoint, cs: seq<Checkpoint>)
    ensures StrictKeys([c] + cs) <==> StrictKeys(cs) && (cs != [] ==> c.streamKey < cs[0].streamKey)
  {
    var all := [c] + cs;
    if StrictKeys(all) {
      forall i, k | 0 <= i < k < |cs| ensures cs[i].streamKey < cs[k].streamKey {
        assert all[i + 1] == cs[i] && all[k + 1] == cs[k];
      }
      if cs != [] { assert all[0].streamKey < all[1].streamKey; }
    }
  }

  lemma {:induction false} CheckpointsWrite<M>(j: Json<M>, w: Writer, cs: seq<Checkpoint>, tick: int)
    requires !w.closed && w.lastTick == Some(tick) && forall c :: c in cs ==> c.tick == tick
    ensures var r := WriteAll(j, w, CheckpointCalls(cs));
            && (r.Ok? ==> !r.value.closed && r.value.lastTick == Some(tick))
            && (r.Ok? <==> AllCheckpointsFit(cs) && StrictKeys(cs)
                           && (w.lastKey.Some? && cs != [] ==> w.lastKey.value < cs[0].streamKey))
    decreases |cs|
  {
    hide CheckpointFits, RecordBytes, StrictKeys;
    if cs == [] {
      assert StrictKeys(cs) by { StrictKeysNil(); }
    } else {
      var calls: seq<Record<M>> := CheckpointCalls(cs);
      assert calls[1..] == CheckpointCalls(cs[1..]);
      assert cs == [cs[0]] + cs[1..];
      StrictKeysCons(cs[0], cs[1..]);
      CheckpointFitsState(cs[0]);
      var r := Write(j, w, CheckpointRec(cs[0]));
      if r.Ok? { CheckpointsWrite(j, r.value, cs[1..], tick); }
    }
  }

  lemma StrictKeysNil()
    ensures StrictKeys([])
  {
  }

  lemma CheckpointFitsState(c: Checkpoint)
    ensures CheckpointFits(c) ==> |c.state| == RNG_STATE_SIZE
  {
  }

  lemma StrictTicksCons(t: TickRecord, ticks: seq<TickRecord>)
    ensures StrictTicks([t] + ticks) <==> StrictTicks(ticks) && (ticks != [] ==> t.tick < ticks[0].tick)
  {
    var all := [t] + ticks;
    if StrictTicks(all) {
      forall i, k | 0 <= i < k < |ticks| ensures ticks[i].tick < ticks[k].tick {
        assert all[i + 1] == ticks[i] && all[k + 1] == ticks[k];
      }
      if ticks != [] { assert all[0].tick < all[1].tick; }
    }
  }

  /** Sorting does not change whether a tick fits. */
  lemma SortedTickFits(t: TickRecord)
    ensures TickFits(t.(events := Sort(t.events))) <==> TickFits(t)
  {
    hide EventFits, Sort;
    SortIsStable(t.events, Key(0, 0, 0));
    forall e ensures e in t.events <==> e in Sort(t.events) {
      assert e in t.events <==> e in multiset(t.events);
      assert e in Sort(t.events) <==> e in multiset(Sort(t.events));
    }
  }

  lemma {:induction false} OfTickOnly(cs: seq<Checkpoint>, tick: int)
    ensures forall c :: c in OfTick(cs, tick) <==> c in cs && c.tick == tick
  {
    if cs != [] {
      OfTickOnly(cs[1..], tick);
      assert cs == [cs[0]] + cs[1..];
    }
  }

  ghost predicate BlockOk(t: TickRecord, cs: seq<Checkpoint>) {
    TickFits(t) && AllCheckpointsFit(OfTick(cs, t.tick)) && StrictKeys(OfTick(cs, t.tick))
  }

  lemma BlockWrites<M>(j: Json<M>, w: Writer, t: TickRecord, cs: seq<Checkpoint>)
    requires !w.closed
    ensures var r := WriteAll(j, w, [TickRec(t)] + CheckpointCalls(OfTick(cs, t.tick)));
            && (r.Ok? ==> !r.value.closed && r.value.lastTick == Some(t.tick))
            && (r.Ok? <==> BlockOk(t, cs) && (w.lastTick.Some? ==> w.lastTick.value < t.tick))
  {
    hide TickFits, RecordBytes, StrictKeys, AllCheckpointsFit, Sort, OfTick, CheckpointCalls;
    var calls: seq<Record<M>> := CheckpointCalls(OfTick(cs, t.tick));
    assert ([TickRec(t)] + calls)[1..] == calls;
    SortedTickFits(t);
    OfTickOnly(cs, t.tick);
    var r := Write(j, w, TickRec(t));
    TickFitsCount(t);
    if r.Ok? { CheckpointsWrite(j, r.value, OfTick(cs, t.tick), t.tick); }
  }

  lemma TickFitsCount(t: TickRecord)
    ensures TickFits(t) ==> |t.events| <= MAX_EVENTS
  {
  }

  lemma {:induction false} TicksWrite<M>(j: Json<M>, w: Writer, ticks: seq<TickRecord>, cs: seq<Checkpoint>)
    requires !w.closed
    ensures var r := WriteAll(j, w, TickCalls(ticks, cs));
            && (r.Ok? ==> !r.value.closed)
            && (r.Ok? <==> StrictTicks(ticks) && (forall t :: t in ticks ==> BlockOk(t, cs))
                           && (w.lastTick.Some? && ticks != [] ==> w.lastTick.value < ticks[0].tick))
    decreases |ticks|
  {
    hide BlockOk, OfTick, StrictTicks, Write;
    if ticks == [] {
      assert StrictTicks(ticks) by { StrictTicksNil(); }
    } else {
      var block: seq<Record<M>> := [TickRec(ticks[0])] + CheckpointCalls(OfTick(cs, ticks[0].tick));
      assert TickCalls(ticks, cs) == block + TickCalls(ticks[1..], cs);
      assert ticks == [ticks[0]] + ticks[1..];
      WriteAllAppend(j, w, block, TickCalls(ticks[1..], cs));
      BlockWrites(j, w, ticks[0], cs);
      StrictTicksCons(ticks[0], ticks[1..]);
      var r := WriteAll(j, w, block);
      if r.Ok? { TicksWrite(j, r.value, ticks[1..], cs); }
    }
  }

  lemma StrictTicksNil()
    ensures StrictTicks([])
  {
  }

  lemma MetaWrites<M>(j: Json<M>, d: Document<M>, w: Writer)
    requires !w.closed && !w.metaWritten && w.lastTick == None
    ensures var r := WriteAll(j, w, MetaCalls(d));
            && (r.Ok? <==> (d.meta.Some? ==> |j.dump(d.meta.value)| < Pow(4)))
            && (r.Ok? ==> !r.value.closed && r.value.lastTick == None)
  {
    hide RecordBytes;
    if d.meta.Some? { assert MetaCalls(d)[1..] == []; }
  }

  /** Encoding succeeds exactly on the documents in range that obey the writer's ordering law. */
  lemma EncodeExactly<M>(j: Json<M>, d: Document<M>)
    ensures Encode(j, d).Ok? <==> Encodable(j, d)
  {
    hide WriteAll, TickCalls, ExpectedCalls, MetaCalls, StrictTicks, StrictKeys, HeaderBytes, TickFits, CheckpointFits,
         ExpectedFits, OfTick, HasTick;
    if Open(d.tickHz).Ok? {
      var w := Open(d.tickHz).value;
      MetaWrites(j, d, w);
      var m := WriteAll(j, w, MetaCalls(d));
      if m.Ok? {
        WriteAllAppend(j, m.value, TickCalls(d.ticks, d.checkpoints), ExpectedCalls(d.expected));
        TicksWrite(j, m.value, d.ticks, d.checkpoints);
        var r := WriteAll(j, m.value, TickCalls(d.ticks, d.checkpoints));
        if r.Ok? { ExpectedWrites(j, r.value, d.expected); }
        BlocksCover(d);
      }
    }
  }

  /** With every anchor known, the blocks are in range exactly when the parts are. */
  lemma BlocksCover<M>(d: Document<M>)
    ensures AnchorsKnown(d) ==>
              ((forall t :: t in d.ticks ==> BlockOk(t, d.checkpoints)) <==>
               && (forall t :: t in d.ticks ==> TickFits(t))
               && AllCheckpointsFit(d.checkpoints)
               && (forall t :: t in d.ticks ==> StrictKeys(OfTick(d.checkpoints, t.tick))))
  {
    hide TickFits, CheckpointFits, StrictKeys, OfTick;
    forall t | t in d.ticks { OfTickOnly(d.checkpoints, t.tick); }
    if AnchorsKnown(d) && forall t :: t in d.ticks ==> BlockOk(t, d.checkpoints) {
      forall c | c in d.checkpoints ensures CheckpointFits(c) {
        var i :| 0 <= i < |d.ticks| && d.ticks[i].tick == c.tick;
        assert BlockOk(d.ticks[i], d.checkpoints);
        OfTickOnly(d.checkpoints, c.tick);
      }
    }
  }

  // -------------------------------------------------------------------------------------
  // What the reader can return
  // -------------------------------------------------------------------------------------

  /** Checkpoints in tick order, stream keys strictly ascending within a tick. */
  predicate StrictCheckpoints(cs: seq<Checkpoint>) {
    forall i, k :: 0 <= i < k < |cs| ==>
      cs[i].tick < cs[k].tick || (cs[i].tick == cs[k].tick && cs[i].streamKey < cs[k].streamKey)
  }

  predicate AllTicksCanonical(ticks: seq<TickRecord>) {
    forall t :: t in ticks ==> TickFits(t) && Sorted(t.events)
  }

  predicate AllExpectedFit(xs: seq<ExpectedHash>) { forall x :: x in xs ==> ExpectedFits(x) }

  /** The documents in normal form. */
  predicate WellFormed<M>(d: Document<M>) {
    && d.flags == 0 && 1 <= d.tickHz < Pow(4)
    && StrictTicks(d.ticks) && AllTicksCanonical(d.ticks)
    && DistinctTicks(d.expected) && AllExpectedFit(d.expected)
    && StrictCheckpoints(d.checkpoints) && AllCheckpointsFit(d.checkpoints) && AnchorsKnown(d)
  }

  lemma TickKeeps<M>(d: Document<M>, t: TickRecord)
    requires WellFormed(d) && TickFits(t) && Sorted(t.events)
    requires LastTick(d.ticks).Some? ==> LastTick(d.ticks).value < t.tick
    ensures WellFormed(d.(ticks := d.ticks + [t]))
  {
    hide TickFits, Sorted, CheckpointFits, ExpectedFits, DistinctTicks, StrictCheckpoints;
    forall c | c in d.checkpoints ensures HasTick(d.ticks + [t], c.tick) {
      var i :| 0 <= i < |d.ticks| && d.ticks[i].tick == c.tick;
      assert (d.ticks + [t])[i].tick == c.tick;
    }
  }

  lemma ExpectedKeeps<M>(d: Document<M>, x: ExpectedHash)
    requires WellFormed(d) && ExpectedFits(x) && !ExpectationSeen(d.expected, x.tick)
    ensures WellFormed(d.(expected := d.expected + [x]))
  {
    hide TickFits, Sorted, CheckpointFits, ExpectedFits, StrictCheckpoints, StrictTicks, HasTick;
  }

  lemma CheckpointKeeps<M>(d: Document<M>, c: Checkpoint)
    requires WellFormed(d) && CheckpointFits(c) && LastTick(d.ticks) == Some(c.tick)
    requires LastKey(d.checkpoints, c.tick).Some? ==> LastKey(d.checkpoints, c.tick).value < c.streamKey
    ensures WellFormed(d.(checkpoints := d.checkpoints + [c]))
  {
    hide TickFits, Sorted, CheckpointFits, ExpectedFits, DistinctTicks;
    assert HasTick(d.ticks, c.tick) by { assert d.ticks[|d.ticks| - 1].tick == c.tick; }
    var cs := d.checkpoints + [c];
    forall i | 0 <= i < |d.checkpoints|
      ensures cs[i].tick < c.tick || (cs[i].tick == c.tick && cs[i].streamKey < c.streamKey) {
      var n := |d.checkpoints| - 1;
      assert d.checkpoints[i] in d.checkpoints && d.checkpoints[n] in d.checkpoints;
      assert HasTick(d.ticks, cs[i].tick) && HasTick(d.ticks, cs[n].tick);
      assert i < n ==> cs[i].tick < cs[n].tick || (cs[i].tick == cs[n].tick && cs[i].streamKey < cs[n].streamKey);
    }
  }

  lemma ApplyKeeps<M>(j: Json<M>, d: Document<M>, typ: int, flags: int, payload: seq<Byte>)
    requires WellFormed(d) && ApplyRecord(j, d, typ, flags, payload).Ok?
    ensures WellFormed(ApplyRecord(j, d, typ, flags, payload).value)
  {
    hide WellFormed, ParseTick, ParseCheckpoint, Unpack, TickFits, Sorted, CheckpointFits;
    Sizes();
    if typ == TICK_TYPE {
      TickKeeps(d, ParseTick(payload).value);
    } else if typ == EXPECTED_HASH_TYPE {
      var vs := Unpack(EXPECTED, payload);
      assert FieldFits(EXPECTED[0], vs[0]) && FieldFits(EXPECTED[1], vs[1]);
      ExpectedKeeps(d, ExpectedHash(vs[0], vs[1]));
    } else if typ == RNG_CHECKPOINT_TYPE {
      CheckpointKeeps(d, ParseCheckpoint(payload, d.ticks, d.checkpoints).value);
    } else {
      MetaKeeps(d, ApplyRecord(j, d, typ, flags, payload).value);
    }
  }

  lemma MetaKeeps<M>(d: Document<M>, d': Document<M>)
    requires WellFormed(d) && d' == d.(meta := d'.meta)
    ensures WellFormed(d')
  {
  }

  lemma {:induction false} ReadKeeps<M>(j: Json<M>, d: Document<M>, data: seq<Byte>)
    requires WellFormed(d) && ReadRecords(j, d, data).Ok?
    ensures WellFormed(ReadRecords(j, d, data).value)
    decreases |data|
  {
    hide WellFormed, ApplyRecord, Framing;
    if data != [] {
      var (typ, flags, len) := Framing(data).value;
      ApplyKeeps(j, d, typ, flags, data[8..8 + len]);
      ReadKeeps(j, ApplyRecord(j, d, typ, flags, data[8..8 + len]).value, data[8 + len..]);
    }
  }

  /** Every byte string the strict reader accepts denotes a document in normal form. */
  lemma ReadSound<M>(j: Json<M>, data: seq<Byte>)
    requires ReadDocument(j, data).Ok?
    ensures WellFormed(ReadDocument(j, data).value)
  {
    hide ReadRecords, ReadHeader;
    var h := ReadHeader(data).value;
    ReadKeeps(j, NewDocument(h.0), if h.1 <= |data| then data[h.1..] else []);
  }

  // -------------------------------------------------------------------------------------
  // Normal forms are fixed points
  // -------------------------------------------------------------------------------------

  lemma {:induction false} SortTicksFixed(ticks: seq<TickRecord>)
    requires AllTicksCanonical(ticks)
    ensures SortTicks(ticks) == ticks
  {
    hide TickFits, Sorted, Sort;
    if ticks != [] {
      assert ticks[0] in ticks;
      SortSorted(ticks[0].events);
      SortTicksFixed(ticks[1..]);
    }
  }

  lemma StrictTail(cs: seq<Checkpoint>)
    requires StrictCheckpoints(cs) && cs != []
    ensures StrictCheckpoints(cs[1..])
    ensures forall c :: c in cs ==> cs[0].tick <= c.tick
  {
  }

  /** In tick order, the checkpoints of the first tick come first. */
  lemma {:induction false} OfTickLeads(cs: seq<Checkpoint>, tick: int)
    requires StrictCheckpoints(cs) && forall c :: c in cs ==> tick <= c.tick
    ensures OfTick(cs, tick) <= cs
    ensures forall c :: c in cs[|OfTick(cs, tick)|..] ==> tick < c.tick
  {
    hide StrictCheckpoints;
    if cs != [] {
      StrictTail(cs);
      assert cs == [cs[0]] + cs[1..];
      if cs[0].tick == tick {
        OfTickLeads(cs[1..], tick);
        assert cs[|OfTick(cs, tick)|..] == cs[1..][|OfTick(cs[1..], tick)|..];
      } else {
        OfTickNone(cs, tick);
      }
    }
  }

  lemma {:induction false} OfTickNone(cs: seq<Checkpoint>, tick: int)
    requires forall c :: c in cs ==> c.tick != tick
    ensures OfTick(cs, tick) == []
  {
    if cs != [] { OfTickNone(cs[1..], tick); }
  }

  lemma {:induction false} OfTickAppend(a: seq<Checkpoint>, b: seq<Checkpoint>, tick: int)
    ensures OfTick(a + b, tick) == OfTick(a, tick) + OfTick(b, tick)
  {
    if a == [] {
      assert a + b == b;
    } else {
      assert (a + b)[1..] == a[1..] + b;
      OfTickAppend(a[1..], b, tick);
      var first := if a[0].tick == tick then [a[0]] else [];
      assert first + (OfTick(a[1..], tick) + OfTick(b, tick)) == first + OfTick(a[1..], tick) + OfTick(b, tick);
    }
  }

  lemma {:induction false} RegroupSkips(ticks: seq<TickRecord>, a: seq<Checkpoint>, b: seq<Checkpoint>)
    requires forall c, t :: c in a && t in ticks ==> c.tick != t.tick
    ensures Regroup(ticks, a + b) == Regroup(ticks, b)
  {
    hide OfTick;
    if ticks != [] {
      assert ticks[0] in ticks;
      OfTickNone(a, ticks[0].tick);
      OfTickAppend(a, b, ticks[0].tick);
      RegroupSkips(ticks[1..], a, b);
    }
  }

  lemma {:induction false} RegroupFixed(ticks: seq<TickRecord>, cs: seq<Checkpoint>)
    requires StrictTicks(ticks) && StrictCheckpoints(cs)
    requires forall c :: c in cs ==> HasTick(ticks, c.tick)
    ensures Regroup(ticks, cs) == cs
  {
    hide OfTick;
    if ticks == [] {
      assert cs != [] ==> cs[0] in cs && !HasTick(ticks, cs[0].tick);
    } else {
      var lead := OfTick(cs, ticks[0].tick);
      OfTickLeads(cs, ticks[0].tick);
      OfTickOnly(cs, ticks[0].tick);
      var rest := cs[|lead|..];
      assert cs == lead + rest;
      RegroupSkips(ticks[1..], lead, rest);
      forall c | c in rest ensures HasTick(ticks[1..], c.tick) {
        assert c in cs;
        var i :| 0 <= i < |ticks| && ticks[i].tick == c.tick;
        assert ticks[1..][i - 1].tick == c.tick;
      }
      RegroupFixed(ticks[1..], rest);
    }
  }

  lemma {:induction false} OfTickStrict(cs: seq<Checkpoint>, tick: int)
    requires StrictCheckpoints(cs)
    ensures StrictKeys(OfTick(cs, tick))
  {
    hide StrictKeys;
    if cs == [] {
      StrictKeysNil();
    } else {
      assert StrictCheckpoints(cs[1..]);
      OfTickStrict(cs[1..], tick);
      var rest := OfTick(cs[1..], tick);
      if cs[0].tick == tick {
        StrictKeysCons(cs[0], rest);
        OfTickOnly(cs[1..], tick);
        if rest != [] {
          assert rest[0] in rest;
          var i :| 1 <= i < |cs| && cs[i] == rest[0];
        }
      } else {
        assert OfTick(cs, tick) == rest;
      }
    }
  }

  /** A document in normal form whose metadata fits a record encodes, and reads back unchanged. So
      what the strict reader accepts is exactly the normal forms, and encoding again changes
      nothing. */
  lemma FixedPoint<M(!new)>(j: Json<M>, d: Document<M>)
    requires Inverse(j) && WellFormed(d)
    ensures Encode(j, d).Ok? <==> (d.meta.Some? ==> |j.dump(d.meta.value)| < Pow(4))
    ensures Encode(j, d).Ok? ==> ReadDocument(j, Encode(j, d).value) == Ok(d)
  {
    hide Encode, ReadDocument, TickFits, Sorted, OfTick, Regroup, SortTicks;
    forall t | t in d.ticks ensures StrictKeys(OfTick(d.checkpoints, t.tick)) {
      OfTickStrict(d.checkpoints, t.tick);
    }
    EncodeExactly(j, d);
    if Encode(j, d).Ok? {
      EncodeReadsBack(j, d);
      SortTicksFixed(d.ticks);
      RegroupFixed(d.ticks, d.checkpoints);
    }
  }

  /** Decoding and encoding again gives a canonical byte string: whatever accepted file it came
      from, the bytes depend on the decoded document only, and decode to it. */
  lemma Recode<M(!new)>(j: Json<M>, data: seq<Byte>)
    requires Inverse(j) && ReadDocument(j, data).Ok? && Encode(j, ReadDocument(j, data).value).Ok?
    ensures ReadDocument(j, Encode(j, ReadDocument(j, data).value).value) == ReadDocument(j, data)
  {
    hide ReadDocument, Encode, WellFormed;
    ReadSound(j, data);
    FixedPoint(j, ReadDocument(j, data).value);
  }
}
