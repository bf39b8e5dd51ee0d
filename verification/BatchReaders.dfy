/** Replication payloads on the client: the full decoder, and the field-only readers that must agree
    with it on every payload. */
module BatchReaders {
  import opened Prelude
  import opened Struct

  const RECORD_SIZE: nat := 68
  const HEADER_SIZE: nat := 4
  const MARKER: int := 0x8000_0000

  /** Identity, position and velocity, then input tick, update counter and product level. */
  const STATE: Layout := [U(8), S(8), S(8), S(8), S(8), S(8), S(8), U(4), U(4), U(4)]
  const HEADER: Layout := [U(2), U(2)]

  datatype View = View(actorId: int, px: int, py: int, pz: int, vx: int, vy: int, vz: int,
                       inputTick: int, updateSeq: int, level: int)

  datatype Kind = Single | Batch | Other

  lemma Sizes()
    ensures Size(STATE) == RECORD_SIZE && Size(HEADER) == HEADER_SIZE
    ensures Size([U(8)]) == 8 && Size([U(4)]) == 4
  {
    assert [U(8)][1..] == [] && [U(4)][1..] == [];
  }

  predicate Marked(level: int) { level / MARKER % 2 == 1 }

  function Decode(rec: seq<Byte>): View
    requires |rec| == RECORD_SIZE
  {
    Sizes();
    var v := Unpack(STATE, rec);
    View(v[0], v[1], v[2], v[3], v[4], v[5], v[6], v[7], v[8], v[9])
  }

  function Count(payload: seq<Byte>): nat
    requires HEADER_SIZE <= |payload|
  {
    Sizes();
    var v := Unpack(HEADER, payload[..HEADER_SIZE]);
    assert FieldFits(HEADER[0], v[0]);
    v[0]
  }

  /** Up to `count` complete records; a truncated one ends the list. */
  function Records(body: seq<Byte>, count: nat): seq<View>
    decreases count
  {
    if count == 0 || |body| < RECORD_SIZE then []
    else [Decode(body[..RECORD_SIZE])] + Records(body[RECORD_SIZE..], count - 1)
  }

  /** What the full decoders return; None when the batch decoder refuses the payload. */
  function Full(kind: Kind, payload: seq<Byte>): Option<seq<View>> {
    match kind
    case Single => if |payload| < RECORD_SIZE then None else Some([Decode(payload[..RECORD_SIZE])])
    case Batch =>
      if |payload| < HEADER_SIZE then None else Some(Records(payload[HEADER_SIZE..], Count(payload)))
    case Other => None
  }

  function Views(kind: Kind, payload: seq<Byte>): seq<View> {
    if Full(kind, payload).Some? then Full(kind, payload).value else []
  }

  /** The states of one actor, in order. */
  function StatesFor(vs: seq<View>, id: int): seq<View> {
    if vs == [] then []
    else (if vs[0].actorId == id && !Marked(vs[0].level) then [vs[0]] else []) + StatesFor(vs[1..], id)
  }

  /** The ids of the state records, in order. */
  function StateIds(vs: seq<View>): seq<int> {
    if vs == [] then [] else (if Marked(vs[0].level) then [] else [vs[0].actorId]) + StateIds(vs[1..])
  }

  // -------------------------------------------------------------------------------------
  // Records
  // -------------------------------------------------------------------------------------

  predicate ViewFits(v: View) {
    Fits(STATE, [v.actorId, v.px, v.py, v.pz, v.vx, v.vy, v.vz, v.inputTick, v.updateSeq, v.level])
  }

  function Encode(v: View): (bs: seq<Byte>)
    requires ViewFits(v)
    ensures |bs| == RECORD_SIZE
  {
    Sizes();
    Pack(STATE, [v.actorId, v.px, v.py, v.pz, v.vx, v.vy, v.vz, v.inputTick, v.updateSeq, v.level])
  }

  /** Encoding and decoding a record are inverse to each other. */
  lemma RecordRoundTrip(v: View, rec: seq<Byte>)
    requires ViewFits(v) && |rec| == RECORD_SIZE
    ensures Decode(Encode(v)) == v
    ensures ViewFits(Decode(rec)) && Encode(Decode(rec)) == rec
  {
    Sizes();
    var vs := [v.actorId, v.px, v.py, v.pz, v.vx, v.vy, v.vz, v.inputTick, v.updateSeq, v.level];
    hide Pack, Unpack;
    UnpackPack(STATE, vs);
    PackUnpack(STATE, rec);
    var u := Unpack(STATE, rec);
    assert u == [u[0], u[1], u[2], u[3], u[4], u[5], u[6], u[7], u[8], u[9]];
  }

  /** The k-th decoded record is the k-th 68-byte slice. */
  lemma {:induction false} RecordAt(body: seq<Byte>, count: nat, k: nat)
    requires k < count && RECORD_SIZE * (k + 1) <= |body|
    ensures k < |Records(body, count)|
    ensures Records(body, count)[k] == Decode(body[RECORD_SIZE * k..RECORD_SIZE * (k + 1)])
    decreases count
  {
    hide Decode;
    if k == 0 {
      assert body[0..RECORD_SIZE] == body[..RECORD_SIZE];
    } else {
      var rest := body[RECORD_SIZE..];
      RecordAt(rest, count - 1, k - 1);
      assert rest[RECORD_SIZE * (k - 1)..RECORD_SIZE * k] == body[RECORD_SIZE * k..RECORD_SIZE * (k + 1)];
    }
  }

  // -------------------------------------------------------------------------------------
  // Single fields of a record
  // -------------------------------------------------------------------------------------

  /** The value of one field. */
  function FieldOf(f: Field, bs: seq<Byte>): int
    requires |bs| == f.w
  {
    DigitsValue(bs);
    Signed(f, Value(bs))
  }

  lemma UnpackCons(layout: Layout, bs: seq<Byte>)
    requires layout != [] && |bs| == Size(layout)
    ensures var w := layout[0].w;
            Unpack(layout, bs) == [FieldOf(layout[0], bs[..w])] + Unpack(layout[1..], bs[w..])
  {
  }

  lemma {:induction false} UnpackSplit(a: Layout, b: Layout, bs: seq<Byte>, n: nat)
    requires n == Size(a) && n + Size(b) == |bs|
    ensures Size(a + b) == |bs| && Unpack(a + b, bs) == Unpack(a, bs[..n]) + Unpack(b, bs[n..])
    decreases |a|
  {
    hide Unpack, FieldOf, Fits;
    SplitSize(a, b);
    if a == [] {
      assert a + b == b && bs[n..] == bs;
      assert Unpack(a, bs[..n]) == [] by { UnpackNone(bs[..n]); }
    } else {
      var w := a[0].w;
      assert (a + b)[1..] == a[1..] + b;
      UnpackSplit(a[1..], b, bs[w..], n - w);
      UnpackCons(a, bs[..n]);
      UnpackCons(a + b, bs);
      assert bs[w..][..n - w] == bs[..n][w..] && bs[w..][n - w..] == bs[n..];
      assert bs[..n][..w] == bs[..w];
    }
  }

  lemma UnpackNone(bs: seq<Byte>)
    requires bs == []
    ensures Unpack([], bs) == []
  {
  }

  function IdField(rec: seq<Byte>): int
    requires |rec| == RECORD_SIZE
  {
    Sizes();
    Unpack([U(8)], rec[..8])[0]
  }

  function LevelField(rec: seq<Byte>): int
    requires |rec| == RECORD_SIZE
  {
    Sizes();
    Unpack([U(4)], rec[64..])[0]
  }

  /** Reading the first and the last field alone gives what the full decoder puts there. */
  lemma FieldsAgree(rec: seq<Byte>)
    requires |rec| == RECORD_SIZE
    ensures IdField(rec) == Decode(rec).actorId && LevelField(rec) == Decode(rec).level
  {
    Sizes();
    hide Unpack;
    assert STATE == [U(8)] + STATE[1..] && STATE == STATE[..9] + [U(4)];
    SplitSize([U(8)], STATE[1..]);
    SplitSize(STATE[..9], [U(4)]);
    UnpackSplit([U(8)], STATE[1..], rec, 8);
    UnpackSplit(STATE[..9], [U(4)], rec, 64);
  }

  lemma {:induction false} SplitSize(a: Layout, b: Layout)
    ensures Size(a + b) == Size(a) + Size(b)
  {
    if a == [] {
      assert a + b == b;
    } else {
      assert (a + b)[1..] == a[1..] + b;
      SplitSize(a[1..], b);
    }
  }

  // -------------------------------------------------------------------------------------
  // The loops
  // -------------------------------------------------------------------------------------

  /** How many of `count` declared records are complete. */
  function Complete(size: nat, count: nat): nat {
    if count < size / RECORD_SIZE then count else size / RECORD_SIZE
  }

  lemma {:induction false} RecordsComplete(body: seq<Byte>, count: nat)
    ensures |Records(body, count)| == Complete(|body|, count)
    ensures Records(body, count) == Records(body, Complete(|body|, count))
    decreases count
  {
    if count > 0 && |body| >= RECORD_SIZE {
      RecordsComplete(body[RECORD_SIZE..], count - 1);
      assert (|body| - RECORD_SIZE) / RECORD_SIZE == |body| / RECORD_SIZE - 1;
    }
  }

  /** The record at an offset. */
  function At(payload: seq<Byte>, offset: nat): seq<Byte>
    requires offset + RECORD_SIZE <= |payload|
  {
    payload[offset..offset + RECORD_SIZE]
  }

  lemma RecordsCons(payload: seq<Byte>, offset: nat, n: nat)
    requires n > 0 && offset + RECORD_SIZE <= |payload|
    ensures Records(payload[offset..], n)
            == [Decode(At(payload, offset))] + Records(payload[offset + RECORD_SIZE..], n - 1)
  {
    assert payload[offset..][..RECORD_SIZE] == At(payload, offset);
    assert payload[offset..][RECORD_SIZE..] == payload[offset + RECORD_SIZE..];
  }

  /** The batch decoder: slices until one is short. */
  method DecodeBatch(payload: seq<Byte>) returns (r: Option<seq<View>>)
    ensures r == Full(Batch, payload)
  {
    hide Decode, Records, Count;
    if |payload| < HEADER_SIZE {
      return None;
    }
    var count := Count(payload);
    var views: seq<View> := [];
    var base := HEADER_SIZE;
    ghost var all := Records(payload[HEADER_SIZE..], count);
    assert [] + all == all;
    for i := 0 to count
      invariant HEADER_SIZE <= base <= |payload|
      invariant all == views + Records(payload[base..], count - i)
    {
      var rec := if base + RECORD_SIZE <= |payload| then payload[base..base + RECORD_SIZE] else payload[base..];
      if |rec| < RECORD_SIZE {
        ShortRecord(payload[base..], count - i);
        assert views + [] == views;
        return Some(views);
      }
      RecordsCons(payload, base, count - i);
      Assoc(views, [Decode(rec)], Records(payload[base + RECORD_SIZE..], count - i - 1));
      views := views + [Decode(rec)];
      base := base + RECORD_SIZE;
    }
    NoRecords(payload[base..]);
    assert views + [] == views;
    return Some(views);
  }

  lemma ShortRecord(body: seq<Byte>, n: nat)
    requires |body| < RECORD_SIZE
    ensures Records(body, n) == []
  {
  }

  /** Where the readers start and how many records they visit. */
  function Span(kind: Kind, payload: seq<Byte>): (r: (nat, nat))
    ensures r.0 + r.1 * RECORD_SIZE <= |payload|
  {
    match kind
    case Single => if |payload| >= RECORD_SIZE then (0, 1) else (0, 0)
    case Batch =>
      if |payload| < HEADER_SIZE then (0, 0)
      else (HEADER_SIZE, Complete(|payload| - HEADER_SIZE, Count(payload)))
    case Other => (0, 0)
  }

  /** The span covers exactly the records the full decoder returns. */
  lemma SpanIsViews(kind: Kind, payload: seq<Byte>)
    ensures Views(kind, payload) == Records(payload[Span(kind, payload).0..], Span(kind, payload).1)
  {
    hide Decode, Complete;
    match kind
    case Single =>
      if |payload| >= RECORD_SIZE {
        assert payload[0..] == payload;
        RecordsCons(payload, 0, 1);
        assert payload[..RECORD_SIZE] == At(payload, 0);
        assert Records(payload[RECORD_SIZE..], 0) == [];
      }
    case Batch =>
      if |payload| >= HEADER_SIZE { RecordsComplete(payload[HEADER_SIZE..], Count(payload)); }
    case Other =>
  }

  /** The per-actor reader yields exactly the decoded states of that actor, on every payload,
      truncated or over-long ones included. */
  method IterStatesFor(kind: Kind, payload: seq<Byte>, id: int) returns (states: seq<View>)
    ensures states == StatesFor(Views(kind, payload), id)
  {
    hide Decode, Span, IdField, LevelField, Marked, Records, StatesFor, Views;
    var (start, count) := Span(kind, payload);
    SpanIsViews(kind, payload);
    states := [];
    ghost var all := StatesFor(Views(kind, payload), id);
    assert [] + all == all;
    var offset := start;
    for i := 0 to count
      invariant offset == start + i * RECORD_SIZE
      invariant all == states + StatesFor(Records(payload[offset..], count - i), id)
    {
      assert offset + RECORD_SIZE <= start + count * RECORD_SIZE;
      ghost var rest := Records(payload[offset + RECORD_SIZE..], count - i - 1);
      RecordsCons(payload, offset, count - i);
      var rec := At(payload, offset);
      FieldsAgree(rec);
      StatesForCons(Decode(rec), rest, id);
      if IdField(rec) == id && !Marked(LevelField(rec)) {
        Assoc(states, [Decode(rec)], StatesFor(rest, id));
        states := states + [Decode(rec)];
      }
      offset := offset + RECORD_SIZE;
    }
    NoRecords(payload[offset..]);
    NoStates(id);
    assert states + [] == states;
  }

  /** The id reader yields exactly the ids of the decoded state records, in order. */
  method IterStateIds(kind: Kind, payload: seq<Byte>) returns (ids: seq<int>)
    ensures ids == StateIds(Views(kind, payload))
  {
    hide Decode, Span, IdField, LevelField, Marked, Records, StateIds, Views;
    var (start, count) := Span(kind, payload);
    SpanIsViews(kind, payload);
    ids := [];
    ghost var all := StateIds(Views(kind, payload));
    assert [] + all == all;
    var offset := start;
    for i := 0 to count
      invariant offset == start + i * RECORD_SIZE
      invariant all == ids + StateIds(Records(payload[offset..], count - i))
    {
      assert offset + RECORD_SIZE <= start + count * RECORD_SIZE;
      ghost var rest := Records(payload[offset + RECORD_SIZE..], count - i - 1);
      RecordsCons(payload, offset, count - i);
      var rec := At(payload, offset);
      FieldsAgree(rec);
      StateIdsCons(Decode(rec), rest);
      if !Marked(LevelField(rec)) {
        Assoc(ids, [IdField(rec)], StateIds(rest));
        ids := ids + [IdField(rec)];
      }
      offset := offset + RECORD_SIZE;
    }
    NoRecords(payload[offset..]);
    NoStates(0);
    assert ids + [] == ids;
  }

  lemma StatesForCons(v: View, vs: seq<View>, id: int)
    ensures StatesFor([v] + vs, id)
            == if v.actorId == id && !Marked(v.level) then [v] + StatesFor(vs, id) else StatesFor(vs, id)
  {
    assert ([v] + vs)[1..] == vs;
  }

  lemma StateIdsCons(v: View, vs: seq<View>)
    ensures StateIds([v] + vs) == if Marked(v.level) then StateIds(vs) else [v.actorId] + StateIds(vs)
  {
    assert ([v] + vs)[1..] == vs;
  }

  lemma NoStates(id: int)
    ensures StatesFor([], id) == [] && StateIds([]) == []
  {
  }

  lemma NoRecords(body: seq<Byte>)
    ensures Records(body, 0) == []
  {
  }
}
