/** The replication payload by byte offset: the header's count, every field of a record, the marker bit. */
module BatchLayout {
  import opened Prelude
  import opened Struct
  import opened BatchReaders
  import opened WireLayout

  /** The declared count is the first two bytes of the header. */
  lemma CountBytes(payload: seq<Byte>)
    requires 4 <= |payload|
    ensures Count(payload) == 256 * (payload[0] as int) + payload[1] as int
  {
    Sizes();
    var head := payload[..4];
    UnpackCons(HEADER, head);
    TwoValue(head[..2]);
    assert Count(payload) == Value(head[..2]);
  }

  lemma TwoValue(bs: seq<Byte>)
    requires |bs| == 2
    ensures Value(bs) == 256 * (bs[0] as int) + bs[1] as int
  {
    OneValue(bs[0]);
    assert bs[..1] == [bs[0]];
  }

  /** Where field `k` of a layout begins. */
  function Offset(layout: Layout, k: nat): nat
    requires k <= |layout|
  {
    if k == 0 then 0 else layout[0].w + Offset(layout[1..], k - 1)
  }

  /** Unpacking reads field `k` from its own bytes. */
  lemma {:induction false} UnpackAt(layout: Layout, bs: seq<Byte>, k: nat)
    requires k < |layout| && |bs| == Size(layout)
    ensures Offset(layout, k) + layout[k].w <= |bs|
    ensures Unpack(layout, bs)[k] == FieldOf(layout[k], bs[Offset(layout, k)..Offset(layout, k) + layout[k].w])
    decreases k
  {
    hide FieldOf, Unpack, Fits;
    var w := layout[0].w;
    UnpackCons(layout, bs);
    if k == 0 {
      assert bs[0..w] == bs[..w];
    } else {
      UnpackAt(layout[1..], bs[w..], k - 1);
      var o := Offset(layout[1..], k - 1);
      assert bs[w..][o..o + layout[k].w] == bs[w + o..w + o + layout[k].w];
    }
  }

  /** The offsets of a state record's fields. */
  lemma StateOffsets()
    ensures Offset(STATE, 1) == 8 && Offset(STATE, 2) == 16 && Offset(STATE, 3) == 24 && Offset(STATE, 4) == 32
    ensures Offset(STATE, 5) == 40 && Offset(STATE, 6) == 48 && Offset(STATE, 7) == 56 && Offset(STATE, 8) == 60
    ensures Offset(STATE, 9) == 64
  {
    forall k: nat | 0 < k < 8 ensures Offset(STATE, k) == 8 * k { FirstOffsets(STATE, k); }
    LastOffsets(STATE);
  }

  lemma {:induction false} FirstOffsets(l: Layout, k: nat)
    requires k <= |l| && forall i :: 0 <= i < k ==> l[i].w == 8
    ensures Offset(l, k) == 8 * k
  {
    if k > 0 { FirstOffsets(l[1..], k - 1); }
  }

  lemma LastOffsets(l: Layout)
    requires |l| == 10 && (forall i :: 0 <= i < 7 ==> l[i].w == 8) && l[7].w == 4 && l[8].w == 4
    ensures Offset(l, 8) == 60 && Offset(l, 9) == 64
  {
    FirstOffsets(l, 7);
    OffsetNext(l, 7);
    OffsetNext(l, 8);
  }

  lemma {:induction false} OffsetNext(l: Layout, k: nat)
    requires k < |l|
    ensures Offset(l, k + 1) == Offset(l, k) + l[k].w
    decreases k
  {
    if k > 0 { OffsetNext(l[1..], k - 1); }
  }

  /** Every field of a decoded record by its byte offset: the id, position and velocity of eight bytes each
      from 0, 8, 32, the input tick at 56, the update counter at 60, the product level at 64. */
  lemma RecordFields(rec: seq<Byte>)
    requires |rec| == 68
    ensures var v := Decode(rec);
            && v.actorId == FieldOf(U(8), rec[0..8])
            && v.px == FieldOf(S(8), rec[8..16]) && v.py == FieldOf(S(8), rec[16..24])
            && v.pz == FieldOf(S(8), rec[24..32]) && v.vx == FieldOf(S(8), rec[32..40])
            && v.vy == FieldOf(S(8), rec[40..48]) && v.vz == FieldOf(S(8), rec[48..56])
            && v.inputTick == FieldOf(U(4), rec[56..60]) && v.updateSeq == FieldOf(U(4), rec[60..64])
            && v.level == FieldOf(U(4), rec[64..68])
  {
    hide FieldOf, Unpack, Offset;
    Sizes();
    StateOffsets();
    forall k: nat | k < 10
      ensures Offset(STATE, k) + STATE[k].w <= 68
              && Unpack(STATE, rec)[k] == FieldOf(STATE[k], rec[Offset(STATE, k)..Offset(STATE, k) + STATE[k].w])
    {
      UnpackAt(STATE, rec, k);
    }
    assert Offset(STATE, 0) == 0 by { NoOffset(STATE); }
  }

  lemma NoOffset(l: Layout)
    ensures Offset(l, 0) == 0
  {
  }

  /** The states of an actor are the records with its id that are no membership events, in order. */
  lemma {:induction false} StatesForExactly(vs: seq<View>, id: int, k: nat)
    requires k <= |vs|
    ensures StatesFor(vs, id) == StatesFor(vs[..k], id) + StatesFor(vs[k..], id)
    ensures forall v :: v in StatesFor(vs, id) <==> v in vs && v.actorId == id && !Marked(v.level)
    decreases |vs|
  {
    hide Marked;
    if vs != [] {
      assert forall v :: v in vs <==> v == vs[0] || v in vs[1..];
      StatesForExactly(vs[1..], id, if k == 0 then 0 else k - 1);
      if k == 0 {
        assert vs[..0] == [] && vs[0..] == vs;
      } else {
        assert vs[..k][1..] == vs[1..][..k - 1] && vs[1..][k - 1..] == vs[k..];
      }
    }
  }

  /** The ids of the state records, in order, are those of the records that are no membership events. */
  lemma {:induction false} StateIdsExactly(vs: seq<View>, k: nat)
    requires k <= |vs|
    ensures StateIds(vs) == StateIds(vs[..k]) + StateIds(vs[k..])
    ensures forall id :: id in StateIds(vs) <==> StatesFor(vs, id) != []
    decreases |vs|
  {
    hide Marked;
    if vs != [] {
      StateIdsExactly(vs[1..], if k == 0 then 0 else k - 1);
      if k == 0 {
        assert vs[..0] == [] && vs[0..] == vs;
      } else {
        assert vs[..k][1..] == vs[1..][..k - 1] && vs[1..][k - 1..] == vs[k..];
      }
    }
  }

  /** A record is a membership event exactly when the top bit of its byte 64 is set. */
  lemma MarkedByte(rec: seq<Byte>)
    requires |rec| == 68
    ensures Marked(Decode(rec).level) <==> rec[64] >= 128
  {
    RecordFields(rec);
    hide Decode;
    FourValue(rec[64..68]);
    var level := Word(rec[64], rec[65], rec[66], rec[67]);
    assert FieldOf(U(4), rec[64..68]) == level;
  }
}
