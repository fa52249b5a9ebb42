/** Bytes as numbers, and little-endian words of any width. */
module Bytes {
  import opened Slices

  type Byte = b: int | 0 <= b < 256

  function Little(v: nat, width: nat): (r: seq<Byte>)
    ensures |r| == width
  {
    if width == 0 then [] else [v % 256] + Little(v / 256, width - 1)
  }

  function Number(b: seq<Byte>): nat
  {
    if b == [] then 0 else b[0] + 256 * Number(b[1..])
  }

  function Power256(n: nat): nat
  {
    if n == 0 then 1 else 256 * Power256(n - 1)
  }

  lemma {:induction false} NumberOfLittle(v: nat, width: nat)
    requires v < Power256(width)
    ensures Number(Little(v, width)) == v
  {
    if width > 0 {
      NumberOfLittle(v / 256, width - 1);
      assert Little(v, width)[1..] == Little(v / 256, width - 1);
    }
  }

  lemma {:induction false} NumberBound(b: seq<Byte>)
    ensures Number(b) < Power256(|b|)
  {
    if b != [] { NumberBound(b[1..]); }
  }

  // ----- Records of little-endian fields -----

  datatype Field = Field(width: nat, value: nat)

  function Encode(fs: seq<Field>): seq<Byte>
  {
    if fs == [] then [] else Encode(fs[..|fs| - 1]) + Little(fs[|fs| - 1].value, fs[|fs| - 1].width)
  }

  function Sum(widths: seq<nat>): nat
  {
    if widths == [] then 0 else Sum(widths[..|widths| - 1]) + widths[|widths| - 1]
  }

  function Decode(b: seq<Byte>, p: nat, widths: seq<nat>): (r: seq<nat>)
    requires p + Sum(widths) <= |b|
    ensures |r| == |widths|
  {
    if widths == [] then []
    else
      var init, w := widths[..|widths| - 1], widths[|widths| - 1];
      Decode(b, p, init) + [Number(b[p + Sum(init)..p + Sum(init) + w])]
  }

  function Widths(fs: seq<Field>): seq<nat> {
    seq(|fs|, i requires 0 <= i < |fs| => fs[i].width)
  }

  function Values(fs: seq<Field>): seq<nat> {
    seq(|fs|, i requires 0 <= i < |fs| => fs[i].value)
  }

  predicate Fit(fs: seq<Field>) {
    forall i | 0 <= i < |fs| :: fs[i].value < Power256(fs[i].width)
  }

  lemma EncodeSnoc(fs: seq<Field>, f: Field)
    ensures Encode(fs + [f]) == Encode(fs) + Little(f.value, f.width)
  {
    assert (fs + [f])[..|fs|] == fs;
  }

  lemma {:induction false} EncodeLength(fs: seq<Field>)
    ensures |Encode(fs)| == Sum(Widths(fs))
  {
    if fs != [] {
      EncodeLength(fs[..|fs| - 1]);
      assert Widths(fs)[..|fs| - 1] == Widths(fs[..|fs| - 1]);
    }
  }

  lemma FieldRead(b: seq<Byte>, q: nat, f: Field)
    requires Has(b, q, Little(f.value, f.width)) && f.value < Power256(f.width)
    ensures q + f.width <= |b| && Number(b[q..q + f.width]) == f.value
  {
    NumberOfLittle(f.value, f.width);
  }

  // Reading the fields where they were written gives their values.
  lemma {:induction false} DecodeInvertsEncode(b: seq<Byte>, p: nat, fs: seq<Field>)
    requires Has(b, p, Encode(fs)) && Fit(fs)
    ensures p + Sum(Widths(fs)) <= |b| && Decode(b, p, Widths(fs)) == Values(fs)
    decreases |fs|
  {
    hide Has, Number, Little, Power256;
    EncodeLength(fs);
    HasBound(b, p, Encode(fs));
    if fs != [] {
      var init, f := fs[..|fs| - 1], fs[|fs| - 1];
      HasSplit(b, p, Encode(init), Little(f.value, f.width));
      EncodeLength(init);
      DecodeInvertsEncode(b, p, init);
      FieldRead(b, p + Sum(Widths(init)), f);
      assert Widths(fs)[..|fs| - 1] == Widths(init);
      assert Widths(fs)[|fs| - 1] == f.width;
      assert Values(fs) == Values(init) + [f.value];
    }
  }

  // What is read from a field is a number of its width.
  lemma {:induction false} DecodeBound(b: seq<Byte>, p: nat, widths: seq<nat>, i: nat)
    requires p + Sum(widths) <= |b| && i < |widths|
    ensures Decode(b, p, widths)[i] < Power256(widths[i])
    decreases |widths|
  {
    var init, w := widths[..|widths| - 1], widths[|widths| - 1];
    if i == |init| {
      NumberBound(b[p + Sum(init)..p + Sum(init) + w]);
    } else {
      DecodeBound(b, p, init, i);
    }
  }
}
