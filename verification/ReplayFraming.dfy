/** Framing laws: a record can be cut at any complete record and extended with unknown ones. */
module ReplayFraming {
  import opened Prelude
  import opened Struct
  import opened Canonical
  import opened ReplayFormat
  import opened ReplayReader
  import opened ReplayWriter
  import opened ReplayRoundTrip

  /** `n` is the end of some record of `data`, or its start. */
  ghost predicate Boundary(data: seq<Byte>, n: nat)
    decreases n
  {
    n == 0 || (Framing(data).Ok? && var len := Framing(data).value.2;
               8 + len <= n && Boundary(data[8 + len..], n - 8 - len))
  }

  lemma FramingHead(a: seq<Byte>, b: seq<Byte>)
    requires 8 <= |a| && 8 <= |b| && a[..8] == b[..8] && Framing(a).Ok?
    ensures Framing(b) == if 8 + Framing(a).value.2 <= |b| then Framing(a) else Err(PayloadPastEnd)
  {
    Sizes();
  }

  lemma FramingShort(bs: seq<Byte>)
    requires |bs| < 8
    ensures Framing(bs) == Err(TruncatedFraming)
  {
  }

  /** Whole records read one after the other: reading a concatenation is reading on. */
  lemma {:induction false} ReadAppend<M>(j: Json<M>, d: Document<M>, a: seq<Byte>, b: seq<Byte>)
    requires Boundary(a, |a|)
    ensures ReadRecords(j, d, a + b)
            == if ReadRecords(j, d, a).Ok? then ReadRecords(j, ReadRecords(j, d, a).value, b) else ReadRecords(j, d, a)
    decreases |a|
  {
    hide ApplyRecord, Framing;
    if a == [] {
      assert a + b == b;
    } else {
      var (typ, flags, len) := Framing(a).value;
      assert (a + b)[..8] == a[..8];
      FramingHead(a, a + b);
      assert (a + b)[8..8 + len] == a[8..8 + len];
      assert (a + b)[8 + len..] == a[8 + len..] + b;
      var next := ApplyRecord(j, d, typ, flags, a[8..8 + len]);
      if next.Ok? { ReadAppend(j, next.value, a[8 + len..], b); }
    }
  }

  // -------------------------------------------------------------------------------------
  // Unknown records
  // -------------------------------------------------------------------------------------

  /** One record, of a type this version does not know, whatever its flags. */
  predicate UnknownRecord(bs: seq<Byte>) {
    && Framing(bs).Ok? && 8 + Framing(bs).value.2 == |bs|
    && Framing(bs).value.0 !in {TICK_TYPE, META_TYPE, EXPECTED_HASH_TYPE, RNG_CHECKPOINT_TYPE}
  }

  /** A record of unknown type put between any two records changes nothing the reader returns,
      accepted or refused. */
  lemma UnknownIgnored<M>(j: Json<M>, d: Document<M>, pre: seq<Byte>, unknown: seq<Byte>, post: seq<Byte>)
    requires Boundary(pre, |pre|) && UnknownRecord(unknown)
    ensures ReadRecords(j, d, pre + (unknown + post)) == ReadRecords(j, d, pre + post)
  {
    hide ReadRecords, Framing;
    ReadAppend(j, d, pre, unknown + post);
    ReadAppend(j, d, pre, post);
    var r := ReadRecords(j, d, pre);
    if r.Ok? { UnknownSkipped(j, r.value, unknown, post); }
  }

  lemma UnknownSkipped<M>(j: Json<M>, d: Document<M>, unknown: seq<Byte>, post: seq<Byte>)
    requires UnknownRecord(unknown)
    ensures ReadRecords(j, d, unknown + post) == ReadRecords(j, d, post)
  {
    hide Framing;
    assert (unknown + post)[..8] == unknown[..8];
    FramingHead(unknown, unknown + post);
    assert (unknown + post)[|unknown|..] == post;
  }

  // -------------------------------------------------------------------------------------
  // Cuts
  // -------------------------------------------------------------------------------------

  /** A document that stops earlier. */
  ghost predicate Begins<M>(a: Document<M>, b: Document<M>) {
    && a.tickHz == b.tickHz && a.flags == b.flags && (a.meta.Some? ==> a.meta == b.meta)
    && a.ticks <= b.ticks && a.expected <= b.expected && a.checkpoints <= b.checkpoints
  }

  lemma BeginsTrans<M>(a: Document<M>, b: Document<M>, c: Document<M>)
    requires Begins(a, b) && Begins(b, c)
    ensures Begins(a, c)
  {
  }

  lemma ApplyGrows<M>(j: Json<M>, d: Document<M>, typ: int, flags: int, payload: seq<Byte>)
    requires ApplyRecord(j, d, typ, flags, payload).Ok?
    ensures Begins(d, ApplyRecord(j, d, typ, flags, payload).value)
  {
    hide ParseTick, ParseCheckpoint, Unpack;
  }

  lemma {:induction false} ReadGrows<M>(j: Json<M>, d: Document<M>, data: seq<Byte>)
    requires ReadRecords(j, d, data).Ok?
    ensures Begins(d, ReadRecords(j, d, data).value)
    decreases |data|
  {
    hide ApplyRecord, Framing, Begins;
    if data == [] {
      BeginsSelf(d);
    } else {
      var (typ, flags, len) := Framing(data).value;
      var next := ApplyRecord(j, d, typ, flags, data[8..8 + len]);
      ApplyGrows(j, d, typ, flags, data[8..8 + len]);
      ReadGrows(j, next.value, data[8 + len..]);
      BeginsTrans(d, next.value, ReadRecords(j, d, data).value);
    }
  }

  lemma BeginsSelf<M>(d: Document<M>)
    ensures Begins(d, d)
  {
  }

  /** Cutting accepted records at any byte: accepted exactly when the cut is between records, and
      then nothing is lost or invented, since reading on from the rest gives the whole document; any
      other cut is refused as truncated. */
  lemma {:induction false} CutRecords<M>(j: Json<M>, d: Document<M>, data: seq<Byte>, n: nat)
    requires ReadRecords(j, d, data).Ok? && n <= |data|
    ensures var r := ReadRecords(j, d, data[..n]);
            if Boundary(data, n)
            then && r.Ok? && Begins(r.value, ReadRecords(j, d, data).value)
                 && ReadRecords(j, r.value, data[n..]) == ReadRecords(j, d, data)
            else r in {Err(TruncatedFraming), Err(PayloadPastEnd)}
    decreases |data|
  {
    hide ApplyRecord, Begins, Framing;
    if n == 0 {
      ReadGrows(j, d, data);
      assert data[..0] == [] && data[0..] == data;
    } else {
      var (typ, flags, len) := Framing(data).value;
      if n < 8 {
        FramingShort(data[..n]);
      } else {
        assert data[..n][..8] == data[..8];
        FramingHead(data, data[..n]);
        if 8 + len <= n {
          var next := ApplyRecord(j, d, typ, flags, data[8..8 + len]);
          assert data[..n][8..8 + len] == data[8..8 + len];
          assert data[..n][8 + len..] == data[8 + len..][..n - 8 - len];
          assert data[8 + len..][n - 8 - len..] == data[n..];
          CutRecords(j, next.value, data[8 + len..], n - 8 - len);
        }
      }
    }
  }

  /** A declared header size at or past the end of the file reads as an empty record. */
  lemma LongHeaderReadsEmpty<M>(j: Json<M>, data: seq<Byte>)
    requires ReadHeader(data).Ok? && |data| <= ReadHeader(data).value.1
    ensures ReadDocument(j, data) == Ok(NewDocument(ReadHeader(data).value.0))
  {
    hide ReadHeader;
    ReadNone<M>(j, NewDocument(ReadHeader(data).value.0));
  }

  /** Cutting an accepted file at any byte. Inside the fixed header it is too short; within a
      longer declared header nothing is left to read; after that, exactly the cuts between records
      are accepted. */
  lemma CutDocument<M>(j: Json<M>, data: seq<Byte>, n: nat)
    requires ReadDocument(j, data).Ok? && n <= |data|
    ensures var h := ReadHeader(data).value.1;
            var r := ReadDocument(j, data[..n]);
            if n < HEADER_SIZE then r == Err(TooShort)
            else if n <= h then r == Ok(NewDocument(ReadHeader(data).value.0))
            else if Boundary(data[h..], n - h)
            then && r.Ok? && Begins(r.value, ReadDocument(j, data).value)
                 && ReadRecords(j, r.value, data[n..]) == ReadDocument(j, data)
            else r in {Err(TruncatedFraming), Err(PayloadPastEnd)}
  {
    hide ReadRecords, Begins, Boundary;
    if HEADER_SIZE <= n {
      var (hz, h) := ReadHeader(data).value;
      HeaderHead(data, n);
      if h < n {
        assert data[..n][h..] == data[h..][..n - h] && data[h..][n - h..] == data[n..];
        CutRecords(j, NewDocument(hz), data[h..], n - h);
      } else {
        LongHeaderReadsEmpty(j, data[..n]);
      }
    }
  }

  /** `m` bytes are the first `k` records, exactly. */
  ghost predicate CutAfter<M>(j: Json<M>, rs: seq<Record<M>>, k: int, m: int) {
    0 <= k <= |rs| && AllWire(j, rs[..k]) && m == |BytesOf(j, rs[..k])|
  }

  lemma {:induction false} BytesSplit<M>(j: Json<M>, rs: seq<Record<M>>, k: nat)
    requires AllWire(j, rs) && k <= |rs|
    ensures AllWire(j, rs[..k]) && BytesOf(j, rs[..k]) <= BytesOf(j, rs)
    decreases k
  {
    hide Wire, RecordBytes;
    if k > 0 {
      BytesSplit(j, rs[1..], k - 1);
      assert rs[..k][1..] == rs[1..][..k - 1];
      assert Wire(j, rs[0]);
    }
  }

  /** A cut that is not after some record leaves an incomplete one, which is refused. */
  lemma {:induction false} CutInside<M(!new)>(j: Json<M>, d: Document<M>, rs: seq<Record<M>>, m: nat)
    requires Inverse(j) && AllWire(j, rs) && m <= |BytesOf(j, rs)|
    requires forall k :: 0 <= k <= |rs| ==> !CutAfter(j, rs, k, m)
    ensures ReadRecords(j, d, BytesOf(j, rs)[..m]).Err?
    decreases |rs|
  {
    hide Wire, RecordBytes, Accept, ReadRecords;
    assert rs[..0] == [] && !CutAfter(j, rs, 0, m);
    if rs != [] {
      WireFits(j, rs[0]);
      var one, rest := RecordBytes(j, rs[0]), BytesOf(j, rs[1..]);
      var m' := m - |one|;
      if m' < 0 {
        assert (one + rest)[..m] == one[..m];
        Partial(j, d, rs[0], m);
      } else {
        assert (one + rest)[..m] == one + rest[..m'];
        ReadOne(j, d, rs[0], rest[..m']);
        if Accept(d, rs[0]).Ok? {
          forall k | 0 <= k <= |rs[1..]| ensures !CutAfter(j, rs[1..], k, m') {
            AfterOneMore(j, rs, k, m');
            assert !CutAfter(j, rs, k + 1, m);
          }
          CutInside(j, Accept(d, rs[0]).value, rs[1..], m');
        }
      }
    }
  }

  lemma WireFits<M>(j: Json<M>, r: Record<M>)
    requires Wire(j, r)
    ensures RecordFits(j, r)
  {
  }

  lemma AfterOneMore<M>(j: Json<M>, rs: seq<Record<M>>, k: nat, m: int)
    requires AllWire(j, rs) && rs != [] && k <= |rs| - 1 && RecordFits(j, rs[0])
    ensures CutAfter(j, rs[1..], k, m) ==> CutAfter(j, rs, k + 1, m + |RecordBytes(j, rs[0])|)
  {
    hide Wire, RecordBytes;
    assert rs[..k + 1][1..] == rs[1..][..k];
    assert forall r :: r in rs[..k + 1] ==> r in rs;
  }

  /** Part of a record. */
  lemma Partial<M>(j: Json<M>, d: Document<M>, r: Record<M>, m: nat)
    requires Wire(j, r) && 0 < m < |RecordBytes(j, r)|
    ensures ReadRecords(j, d, RecordBytes(j, r)[..m]).Err?
  {
    hide ApplyRecord, Framing, Frame, Payload, RecordFits;
    var bs := RecordBytes(j, r);
    FramingOfFrame(TypeOf(r), Payload(j, r), []);
    assert bs + [] == bs;
    if m < 8 {
      FramingShort(bs[..m]);
    } else {
      assert bs[..m][..8] == bs[..8];
      FramingHead(bs, bs[..m]);
    }
  }

  /** A write session cut anywhere after its header: it is readable only at the end of some emitted
      record, and there it reads as exactly the records before the cut. */
  lemma SessionCut<M(!new)>(j: Json<M>, tickHz: int, calls: seq<Record<M>>, n: nat)
    requires Inverse(j) && Open(tickHz).Ok?
    requires HEADER_SIZE <= n <= |Session(j, Open(tickHz).value, calls).stream|
    ensures var rs := Emitted(j, Open(tickHz).value, calls);
            var r := ReadDocument(j, Session(j, Open(tickHz).value, calls).stream[..n]);
            var m := n - HEADER_SIZE;
            && (forall k :: CutAfter(j, rs, k, m) ==> r == AcceptAll(NewDocument(tickHz), rs[..k]))
            && (r.Ok? ==> exists k :: CutAfter(j, rs, k, m))
            && (DistinctTicks(Expectations(rs)) && (exists k :: CutAfter(j, rs, k, m)) ==> r.Ok?)
  {
    hide ReadDocument, ReadRecords, Session, Emitted, AcceptAll, HeaderBytes, Write;
    var w := Open(tickHz).value;
    var rs, m := Emitted(j, w, calls), n - HEADER_SIZE;
    SessionStream(j, w, calls);
    var bytes := BytesOf(j, rs);
    assert (HeaderBytes(tickHz) + bytes)[..n] == HeaderBytes(tickHz) + bytes[..m];
    ReadAfterHeader(j, tickHz, bytes[..m]);
    forall k | CutAfter(j, rs, k, m)
      ensures ReadRecords(j, NewDocument(tickHz), bytes[..m]) == AcceptAll(NewDocument(tickHz), rs[..k])
    {
      CutReads(j, NewDocument(tickHz), rs, k, m);
    }
    if !exists k :: CutAfter(j, rs, k, m) {
      CutInside(j, NewDocument(tickHz), rs, m);
    } else if DistinctTicks(Expectations(rs)) {
      var k :| CutAfter(j, rs, k, m);
      SessionReadsBack(j, tickHz, calls);
      AcceptSome(NewDocument(tickHz), rs, k);
    }
  }

  lemma CutReads<M(!new)>(j: Json<M>, d: Document<M>, rs: seq<Record<M>>, k: nat, m: nat)
    requires Inverse(j) && AllWire(j, rs) && CutAfter(j, rs, k, m) && m <= |BytesOf(j, rs)|
    ensures ReadRecords(j, d, BytesOf(j, rs)[..m]) == AcceptAll(d, rs[..k])
  {
    hide ReadRecords, AcceptAll, BytesOf;
    BytesSplit(j, rs, k);
    assert BytesOf(j, rs)[..m] == BytesOf(j, rs[..k]);
    ReadAll(j, d, rs[..k]);
  }

  lemma {:induction false} AcceptSome<M>(d: Document<M>, rs: seq<Record<M>>, k: nat)
    requires AcceptAll(d, rs).Ok? && k <= |rs|
    ensures AcceptAll(d, rs[..k]).Ok?
    decreases k
  {
    hide Accept;
    if k > 0 {
      AcceptSome(Accept(d, rs[0]).value, rs[1..], k - 1);
      assert rs[..k][1..] == rs[1..][..k - 1];
    }
  }

  lemma HeaderHead(data: seq<Byte>, n: nat)
    requires HEADER_SIZE <= n <= |data|
    ensures ReadHeader(data[..n]) == ReadHeader(data)
  {
    assert data[..n][..16] == data[..16];
  }

  // -------------------------------------------------------------------------------------
  // Where the reader is more lenient than the format's description
  // -------------------------------------------------------------------------------------

  lemma EventError(bs: seq<Byte>)
    requires bs != []
    ensures ParseEvent(bs) != Err(BadRecordFlags)
  {
    hide Unpack;
  }

  lemma {:induction false} EventErrors(bs: seq<Byte>, count: nat, prev: Option<Key>)
    requires ParseEvents(bs, count, prev).Err?
    ensures ParseEvents(bs, count, prev).error != BadRecordFlags
    decreases count
  {
    hide ParseEvent, KeyLe;
    if count > 0 {
      if bs != [] { EventError(bs); }
      var e := NextEvent(bs, prev);
      if e.Ok? { EventErrors(bs[EventLen(e.value)..], count - 1, Some(KeyOf(e.value))); }
    }
  }

  lemma TickErrors(payload: seq<Byte>)
    ensures ParseTick(payload) != Err(BadRecordFlags)
  {
    hide ParseEvents;
    if 10 <= |payload| {
      var (_, count) := TickHead(payload);
      if ParseEvents(payload[10..], count, None).Err? { EventErrors(payload[10..], count, None); }
    }
  }

  /** A record is refused for its flags exactly when they are set and it is a tick, an expectation or a
      checkpoint; otherwise they change nothing. META records are not checked, which the format's
      description demands of every known type. */
  lemma FlagsRefusedExactly<M>(j: Json<M>, d: Document<M>, typ: int, flags: int, payload: seq<Byte>)
    ensures ApplyRecord(j, d, typ, flags, payload) == Err(BadRecordFlags)
            <==> flags != 0 && typ in {TICK_TYPE, EXPECTED_HASH_TYPE, RNG_CHECKPOINT_TYPE}
    ensures ApplyRecord(j, d, typ, flags, payload) != Err(BadRecordFlags)
            ==> ApplyRecord(j, d, typ, flags, payload) == ApplyRecord(j, d, typ, 0, payload)
  {
    hide ParseTick, Unpack;
    TickErrors(payload);
  }

  /** An expectation may stand between a tick and its checkpoint. */
  lemma CheckpointMayTrail<M>(d: Document<M>, t: TickRecord, x: ExpectedHash, c: Checkpoint)
    requires Accept(d, TickRec(t)).Ok? && !ExpectationSeen(d.expected, x.tick) && c.tick == t.tick
    requires LastKey(d.checkpoints, t.tick) == None
    ensures AcceptAll(d, [TickRec(t)] + ([ExpectedRec(x)] + ([CheckpointRec(c)] + []))).Ok?
  {
    var d1 := Accept(d, TickRec(t)).value;
    var d2 := Accept(d1, ExpectedRec(x)).value;
    var r1: seq<Record<M>> := [CheckpointRec(c)] + [];
    var r2: seq<Record<M>> := [ExpectedRec(x)] + r1;
    var r3: seq<Record<M>> := [TickRec(t)] + r2;
    assert r3[1..] == r2 && r2[1..] == r1 && r1[1..] == [];
    assert AcceptAll(d2, r1).Ok?;
    assert AcceptAll(d1, r2) == AcceptAll(d2, r1);
  }
}
