/** Big-endian fixed-width packing, as the replay codec and the wire codecs use it: a layout is a
    sequence of integer fields, packing rejects a value outside its field, and unpacking reads
    exactly the layout's size. */
module Struct {

  type Byte = b: int | 0 <= b < 256

  /** 256 to the power `w`. */
  function Pow(w: nat): (p: nat)
    ensures 0 < p
  {
    if w == 0 then 1 else 256 * Pow(w - 1)
  }

  /** Big-endian digits, most significant first. */
  function Digits(w: nat, v: nat): (bs: seq<Byte>)
    ensures |bs| == w
  {
    if w == 0 then [] else Digits(w - 1, v / 256) + [v % 256]
  }

  function Value(bs: seq<Byte>): (v: nat) {
    if bs == [] then 0 else 256 * Value(bs[..|bs| - 1]) + bs[|bs| - 1]
  }

  lemma {:induction false} ValueDigits(w: nat, v: nat)
    requires v < Pow(w)
    ensures Value(Digits(w, v)) == v
  {
    if w > 0 {
      ValueDigits(w - 1, v / 256);
      assert Digits(w, v)[..w - 1] == Digits(w - 1, v / 256);
    }
  }

  lemma {:induction false} DigitsValue(bs: seq<Byte>)
    ensures Value(bs) < Pow(|bs|)
    ensures Digits(|bs|, Value(bs)) == bs
  {
    if bs != [] {
      var init := bs[..|bs| - 1];
      DigitsValue(init);
      assert bs == init + [bs[|bs| - 1]];
    }
  }

  /** One integer field of `w` bytes. */
  datatype Field = U(w: nat) | S(w: nat)

  predicate FieldFits(f: Field, v: int) {
    if f.U? then 0 <= v < Pow(f.w) else 0 <= 2 * v + Pow(f.w) && 2 * v < Pow(f.w)
  }

  /** Two's complement for a signed field. */
  function Raw(f: Field, v: int): (r: nat)
    requires FieldFits(f, v)
    ensures r < Pow(f.w)
  {
    if v < 0 then v + Pow(f.w) else v
  }

  function Signed(f: Field, r: nat): (v: int)
    requires r < Pow(f.w)
    ensures FieldFits(f, v) && Raw(f, v) == r
  {
    if f.S? && Pow(f.w) <= 2 * r then r - Pow(f.w) else r
  }

  type Layout = seq<Field>

  function Size(layout: Layout): nat {
    if layout == [] then 0 else layout[0].w + Size(layout[1..])
  }

  predicate Fits(layout: Layout, vs: seq<int>) {
    |vs| == |layout| && forall i :: 0 <= i < |vs| ==> FieldFits(layout[i], vs[i])
  }

  function Pack(layout: Layout, vs: seq<int>): (bs: seq<Byte>)
    requires Fits(layout, vs)
    ensures |bs| == Size(layout)
  {
    if layout == [] then []
    else Digits(layout[0].w, Raw(layout[0], vs[0])) + Pack(layout[1..], vs[1..])
  }

  function Unpack(layout: Layout, bs: seq<Byte>): (vs: seq<int>)
    requires |bs| == Size(layout)
    ensures Fits(layout, vs)
  {
    if layout == [] then []
    else
      var w := layout[0].w;
      DigitsValue(bs[..w]);
      [Signed(layout[0], Value(bs[..w]))] + Unpack(layout[1..], bs[w..])
  }

  lemma {:induction false} UnpackPack(layout: Layout, vs: seq<int>)
    requires Fits(layout, vs)
    ensures Unpack(layout, Pack(layout, vs)) == vs
  {
    if layout != [] {
      var w := layout[0].w;
      var head, tail := Digits(w, Raw(layout[0], vs[0])), Pack(layout[1..], vs[1..]);
      var bs := Pack(layout, vs);
      assert bs[..w] == head && bs[w..] == tail;
      ValueDigits(w, Raw(layout[0], vs[0]));
      UnpackPack(layout[1..], vs[1..]);
      assert Unpack(layout, bs) == [Signed(layout[0], Value(head))] + vs[1..];
    }
  }

  lemma {:induction false} PackUnpack(layout: Layout, bs: seq<Byte>)
    requires |bs| == Size(layout)
    ensures Pack(layout, Unpack(layout, bs)) == bs
  {
    if layout != [] {
      var w := layout[0].w;
      DigitsValue(bs[..w]);
      PackUnpack(layout[1..], bs[w..]);
      var vs := Unpack(layout, bs);
      assert vs[1..] == Unpack(layout[1..], bs[w..]);
      assert bs == bs[..w] + bs[w..];
    }
  }

  lemma PackNone(layout: Layout, vs: seq<int>)
    requires layout == [] && Fits(layout, vs)
    ensures Pack(layout, vs) == []
  {
  }
}
