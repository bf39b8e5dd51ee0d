/** The bytes of the replay record, spelled out with the format's own numbers: record types 1 to 4, event
    codes 1 to 3, every field big-endian at its width. */
module WireLayout {
  import opened Prelude
  import opened Struct
  import opened Canonical
  import opened ReplayFormat
  import opened ReplayReader
  import opened ActorMap
  import opened HashLayout

  /** The first field of a packing: two's complement when signed, plain digits when not. */
  lemma PackHead(l: Layout, vs: seq<int>, w: nat, v: int)
    requires l != [] && Fits(l, vs) && l[0].w == w && vs[0] == v
    ensures Fits(l[1..], vs[1..])
    ensures Pack(l, vs) == Wrapped(w, v) + Pack(l[1..], vs[1..])
    ensures l[0].U? ==> v >= 0 && Pack(l, vs) == Digits(w, v) + Pack(l[1..], vs[1..])
  {
    hide Digits;
    PackWrapped(l, vs);
  }

  lemma PackLast(l: Layout, vs: seq<int>, w: nat, v: int)
    requires |l| == 1 && Fits(l, vs) && l[0] == U(w) && vs[0] == v
    ensures v >= 0 && Pack(l, vs) == Digits(w, v)
  {
    hide Digits;
    PackHead(l, vs, w, v);
    PackNone(l[1..], vs[1..]);
    assert Digits(w, v) + [] == Digits(w, v);
  }

  /** A spawn: code 1, the id, three positions and three velocities of eight bytes, the flags. */
  lemma SpawnLayout(e: Event)
    requires e.Spawn? && EventFits(e)
    ensures e.actorId >= 0 && e.flags >= 0
    ensures PackEvent(e)
            == [1] + (Digits(8, e.actorId) + (Wrapped(8, e.px) + (Wrapped(8, e.py) + (Wrapped(8, e.pz)
               + (Wrapped(8, e.vx) + (Wrapped(8, e.vy) + (Wrapped(8, e.vz) + Digits(4, e.flags))))))))
  {
    hide Digits, Wrapped, Pack;
    var l, vs := SPAWN, Fields(e);
    PackHead(l, vs, 8, e.actorId);
    PackHead(l[1..], vs[1..], 8, e.px);
    PackHead(l[1..][1..], vs[1..][1..], 8, e.py);
    PackHead(l[1..][1..][1..], vs[1..][1..][1..], 8, e.pz);
    SpawnTail(l[1..][1..][1..][1..], vs[1..][1..][1..][1..], e);
  }

  lemma SpawnTail(l: Layout, vs: seq<int>, e: Event)
    requires e.Spawn? && l == [S(8), S(8), S(8), U(4)] && vs == [e.vx, e.vy, e.vz, e.flags] && Fits(l, vs)
    ensures e.flags >= 0
    ensures Pack(l, vs) == Wrapped(8, e.vx) + (Wrapped(8, e.vy) + (Wrapped(8, e.vz) + Digits(4, e.flags)))
  {
    hide Digits, Wrapped, Pack;
    PackHead(l, vs, 8, e.vx);
    PackHead(l[1..], vs[1..], 8, e.vy);
    PackHead(l[1..][1..], vs[1..][1..], 8, e.vz);
    PackLast(l[1..][1..][1..], vs[1..][1..][1..], 4, e.flags);
  }

  /** A move: code 2, the id, the input tick, three signed pairs, one byte of flags. */
  lemma MoveLayout(e: Event)
    requires e.Move? && EventFits(e)
    ensures e.actorId >= 0 && e.inputTick >= 0 && e.flags >= 0
    ensures PackEvent(e)
            == [2] + (Digits(8, e.actorId) + (Digits(4, e.inputTick)
               + (Wrapped(2, e.mx) + (Wrapped(2, e.my) + (Wrapped(2, e.mz) + Digits(1, e.flags))))))
  {
    hide Digits, Wrapped, Pack;
    var l, vs := MOVE, Fields(e);
    PackHead(l, vs, 8, e.actorId);
    PackHead(l[1..], vs[1..], 4, e.inputTick);
    PackHead(l[1..][1..], vs[1..][1..], 2, e.mx);
    PackHead(l[1..][1..][1..], vs[1..][1..][1..], 2, e.my);
    PackHead(l[1..][1..][1..][1..], vs[1..][1..][1..][1..], 2, e.mz);
    PackLast(l[1..][1..][1..][1..][1..], vs[1..][1..][1..][1..][1..], 1, e.flags);
  }

  /** A despawn: code 3 and the id. */
  lemma DespawnLayout(e: Event)
    requires e.Despawn? && EventFits(e)
    ensures e.actorId >= 0 && PackEvent(e) == [3] + Digits(8, e.actorId)
  {
    hide Digits, Pack;
    PackLast(DESPAWN, Fields(e), 8, e.actorId);
  }

  // -------------------------------------------------------------------------------------
  // Records
  // -------------------------------------------------------------------------------------

  lemma FrameHead(typ: Byte, n: nat)
    requires Fits(RECORD, [typ, 0, 0, n])
    ensures Pack(RECORD, [typ, 0, 0, n]) == [typ] + ([0] + ([0, 0] + Digits(4, n)))
  {
    SmallDigits(typ);
    hide Digits, Pack, Wrapped;
    var l, vs := RECORD, [typ, 0, 0, n];
    PackHead(l, vs, 1, typ);
    PackHead(l[1..], vs[1..], 1, 0);
    PackHead(l[1..][1..], vs[1..][1..], 2, 0);
    PackLast(l[1..][1..][1..], vs[1..][1..][1..], 4, n);
  }

  lemma FrameLayout(typ: Byte, payload: seq<Byte>)
    requires |payload| < Pow(4)
    ensures Frame(typ, payload) == [typ, 0, 0, 0] + (Digits(4, |payload|) + payload)
  {
    hide Digits, Pack, Pow, Fits;
    HeadFits(typ, |payload|);
    FrameHead(typ, |payload|);
    Join(typ, Digits(4, |payload|), payload);
  }

  lemma HeadFits(typ: Byte, n: nat)
    requires n < Pow(4)
    ensures Fits(RECORD, [typ, 0, 0, n])
  {
    hide Pow;
    Widths();
  }

  lemma Join(typ: Byte, n: seq<Byte>, payload: seq<Byte>)
    ensures [typ] + ([0] + ([0, 0] + n)) + payload == [typ, 0, 0, 0] + (n + payload)
  {
    assert [typ] + ([0] + ([0, 0] + n)) == [typ, 0, 0, 0] + n;
    Assoc([typ, 0, 0, 0], n, payload);
  }

  lemma SmallDigits(b: Byte)
    ensures Digits(1, b) == [b] && Digits(1, 0) == [0] && Digits(2, 0) == [0, 0]
  {
    assert Digits(0, 0) == [];
  }

  /** The type number of a record on the wire. */
  function WireType<M>(r: Record<M>): Byte {
    if r.TickRec? then 1 else if r.MetaRec? then 2 else if r.ExpectedRec? then 3 else 4
  }

  /** Every record: its type, three zero bytes, the length of its payload in four, the payload. */
  lemma RecordLayout<M>(j: Json<M>, r: Record<M>)
    requires RecordFits(j, r)
    ensures RecordBytes(j, r) == [WireType(r), 0, 0, 0] + (Digits(4, |Payload(j, r)|) + Payload(j, r))
  {
    hide Digits, Pack, Payload;
    FrameLayout(TypeOf(r), Payload(j, r));
  }

  /** A tick: its number in eight bytes, the event count in two, the events one after the other. */
  lemma TickLayout<M>(j: Json<M>, t: TickRecord)
    requires RecordFits(j, TickRec(t))
    ensures t.tick >= 0
    ensures Payload(j, TickRec(t)) == Digits(8, t.tick) + (Digits(2, |t.events|) + PackEvents(t.events))
  {
    Widths();
    hide Digits, Pack, PackEvents;
    var vs := [t.tick, |t.events|];
    PackHead(TICK_HEAD, vs, 8, t.tick);
    PackLast(TICK_HEAD[1..], vs[1..], 2, |t.events|);
    Assoc(Digits(8, t.tick), Digits(2, |t.events|), PackEvents(t.events));
  }

  lemma EventsFollow(es: seq<Event>)
    requires AllFit(es) && es != []
    ensures EventFits(es[0]) && AllFit(es[1..]) && PackEvents(es) == PackEvent(es[0]) + PackEvents(es[1..])
  {
  }

  /** An expectation: tick and hash in eight bytes each. */
  lemma ExpectedLayout<M>(j: Json<M>, x: ExpectedHash)
    requires RecordFits(j, ExpectedRec(x))
    ensures x.tick >= 0 && x.hash >= 0 && Payload(j, ExpectedRec(x)) == Digits(8, x.tick) + Digits(8, x.hash)
  {
    hide Digits, Pack;
    var vs := [x.tick, x.hash];
    PackHead(EXPECTED, vs, 8, x.tick);
    PackLast(EXPECTED[1..], vs[1..], 8, x.hash);
  }

  /** A checkpoint: tick and stream key in eight bytes each, the length 40 in four, the state. */
  lemma CheckpointLayout<M>(j: Json<M>, c: Checkpoint)
    requires RecordFits(j, CheckpointRec(c))
    ensures c.tick >= 0 && c.streamKey >= 0 && |c.state| == 40
    ensures Payload(j, CheckpointRec(c))
            == Digits(8, c.tick) + (Digits(8, c.streamKey) + ([0, 0, 0, 40] + c.state))
  {
    Widths();
    Forty();
    hide Digits, Pack;
    var l, vs := CHECKPOINT_HEAD, [c.tick, c.streamKey, 40];
    PackHead(l, vs, 8, c.tick);
    PackHead(l[1..], vs[1..], 8, c.streamKey);
    PackLast(l[1..][1..], vs[1..][1..], 4, 40);
    assert Payload(j, CheckpointRec(c)) == Digits(8, c.tick) + (Digits(8, c.streamKey) + [0, 0, 0, 40]) + c.state;
  }

  lemma Forty()
    ensures Digits(4, 40) == [0, 0, 0, 40]
  {
    assert Digits(3, 0) == [0, 0, 0];
  }

  // -------------------------------------------------------------------------------------
  // Framing
  // -------------------------------------------------------------------------------------

  /** Four bytes, most significant first. */
  function Word(a: int, b: int, c: int, d: int): int { ((a * 256 + b) * 256 + c) * 256 + d }

  lemma FourValue(bs: seq<Byte>)
    requires |bs| == 4
    ensures Value(bs) == Word(bs[0], bs[1], bs[2], bs[3])
  {
    var b3, b2, b1 := bs[..3], bs[..2], bs[..1];
    assert b3[..2] == b2 && b2[..1] == b1 && b1[..0] == [];
    assert Value(b1) == bs[0] && Value(b2) == 256 * Value(b1) + bs[1] && Value(b3) == 256 * Value(b2) + bs[2];
  }

  lemma OneValue(b: Byte)
    ensures Value([b]) == b
  {
    assert [b][..0] == [];
  }

  lemma UnpackHead(l: Layout, bs: seq<Byte>, w: nat)
    requires l != [] && l[0] == U(w) && |bs| == Size(l)
    ensures w <= |bs| && |bs[w..]| == Size(l[1..])
    ensures Unpack(l, bs) == [Value(bs[..w])] + Unpack(l[1..], bs[w..])
  {
    DigitsValue(bs[..w]);
  }

  /** The four fields of the framing bytes. */
  lemma FramingFields(head: seq<Byte>)
    requires |head| == 8 && Size(RECORD) == 8
    ensures Unpack(RECORD, head) == [Value(head[..1]), Value(head[1..2]), Value(head[2..4]), Value(head[4..])]
  {
    hide Unpack, Value;
    var l1, l2, l3 := RECORD[1..], RECORD[1..][1..], RECORD[1..][1..][1..];
    UnpackHead(RECORD, head, 1);
    UnpackHead(l1, head[1..], 1);
    UnpackHead(l2, head[1..][1..], 2);
    UnpackHead(l3, head[1..][1..][2..], 4);
    UnpackEnd(head[1..][1..][2..][4..]);
    assert l3[1..] == [];
    assert head[1..][..1] == head[1..2] && head[1..][1..][..2] == head[2..4] && head[1..][1..][2..][..4] == head[4..];
  }

  lemma UnpackEnd(bs: seq<Byte>)
    requires bs == []
    ensures Size([]) == 0 && Unpack([], bs) == []
  {
  }

  /** The reader takes the type from the first byte, the flags from the second and the length from the last
      four of the eight framing bytes. */
  lemma FramingBytes(data: seq<Byte>)
    requires 8 <= |data|
    ensures var len := Word(data[4], data[5], data[6], data[7]);
            Framing(data) == if 8 + len <= |data| then Ok((data[0], data[1], len)) else Err(PayloadPastEnd)
  {
    hide Unpack, Value;
    Sizes();
    var head := data[..8];
    FramingFields(head);
    FourValue(head[4..]);
    OneValue(data[0]);
    OneValue(data[1]);
    assert head[..1] == [data[0]] && head[1..2] == [data[1]];
  }
}
