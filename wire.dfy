/** Fixed-width unsigned integers on the wire and packed record layouts:
    a layout is a list of fields laid end to end with no padding, which is
    what both `#pragma pack(1)` C structs and Python `struct` formats with a
    byte-order prefix give. */
module Wire {
  import opened Common

  datatype ByteOrder = BigEndian | LittleEndian

  function Pow256(w: nat): (r: nat)
    ensures r >= 1
  {
    if w == 0 then 1 else 256 * Pow256(w - 1)
  }

  lemma DivBound(v: nat, w: nat)
    requires w > 0 && v < Pow256(w)
    ensures v / 256 < Pow256(w - 1)
  {
  }

  /** `v` as `w` octets, most significant first. */
  function EncodeBE(v: nat, w: nat): (r: seq<byte>)
    requires v < Pow256(w)
    ensures |r| == w
  {
    if w == 0 then [] else
      DivBound(v, w);
      EncodeBE(v / 256, w - 1) + [v % 256]
  }

  function DecodeBE(b: seq<byte>): (r: nat)
    ensures r < Pow256(|b|)
  {
    if b == [] then 0 else
      var hi := DecodeBE(b[..|b| - 1]);
      assert hi <= Pow256(|b| - 1) - 1;
      assert hi * 256 <= Pow256(|b|) - 256;
      hi * 256 + b[|b| - 1]
  }

  /** `v` as `w` octets, least significant first. */
  function EncodeLE(v: nat, w: nat): (r: seq<byte>)
    requires v < Pow256(w)
    ensures |r| == w
  {
    if w == 0 then [] else
      DivBound(v, w);
      [v % 256] + EncodeLE(v / 256, w - 1)
  }

  function DecodeLE(b: seq<byte>): (r: nat)
    ensures r < Pow256(|b|)
  {
    if b == [] then 0 else
      var hi := DecodeLE(b[1..]);
      assert hi <= Pow256(|b| - 1) - 1;
      assert 256 * hi <= Pow256(|b|) - 256;
      b[0] + 256 * hi
  }

  lemma {:induction false} DecodeEncodeBE(v: nat, w: nat)
    requires v < Pow256(w)
    ensures DecodeBE(EncodeBE(v, w)) == v
  {
    if w > 0 {
      DivBound(v, w);
      var e := EncodeBE(v, w);
      assert e[..w - 1] == EncodeBE(v / 256, w - 1);
      DecodeEncodeBE(v / 256, w - 1);
    }
  }

  lemma {:induction false} EncodeDecodeBE(b: seq<byte>)
    ensures EncodeBE(DecodeBE(b), |b|) == b
  {
    if b != [] {
      var init := b[..|b| - 1];
      EncodeDecodeBE(init);
      var v := DecodeBE(b);
      assert v == DecodeBE(init) * 256 + b[|b| - 1];
      assert v / 256 == DecodeBE(init) && v % 256 == b[|b| - 1];
      assert b == init + [b[|b| - 1]];
    }
  }

  lemma {:induction false} DecodeEncodeLE(v: nat, w: nat)
    requires v < Pow256(w)
    ensures DecodeLE(EncodeLE(v, w)) == v
  {
    if w > 0 {
      DivBound(v, w);
      var e := EncodeLE(v, w);
      assert e[1..] == EncodeLE(v / 256, w - 1);
      DecodeEncodeLE(v / 256, w - 1);
    }
  }

  lemma {:induction false} EncodeDecodeLE(b: seq<byte>)
    ensures EncodeLE(DecodeLE(b), |b|) == b
  {
    if b != [] {
      EncodeDecodeLE(b[1..]);
      var v := DecodeLE(b);
      assert v == b[0] + 256 * DecodeLE(b[1..]);
      assert v / 256 == DecodeLE(b[1..]) && v % 256 == b[0];
      assert b == [b[0]] + b[1..];
    }
  }

  function EncodeUint(o: ByteOrder, v: nat, w: nat): (r: seq<byte>)
    requires v < Pow256(w)
    ensures |r| == w
  {
    match o
    case BigEndian => EncodeBE(v, w)
    case LittleEndian => EncodeLE(v, w)
  }

  function DecodeUint(o: ByteOrder, b: seq<byte>): (r: nat)
    ensures r < Pow256(|b|)
  {
    match o
    case BigEndian => DecodeBE(b)
    case LittleEndian => DecodeLE(b)
  }

  lemma UintRoundTrip(o: ByteOrder, v: nat, w: nat)
    requires v < Pow256(w)
    ensures DecodeUint(o, EncodeUint(o, v, w)) == v
  {
    match o
    case BigEndian => DecodeEncodeBE(v, w);
    case LittleEndian => DecodeEncodeLE(v, w);
  }

  lemma UintRoundTripBytes(o: ByteOrder, b: seq<byte>)
    ensures EncodeUint(o, DecodeUint(o, b), |b|) == b
  {
    match o
    case BigEndian => EncodeDecodeBE(b);
    case LittleEndian => EncodeDecodeLE(b);
  }

  // ---------------------------------------------------------------------
  // Packed layouts

  /** An unsigned integer of `width` octets, or a byte array of `size`
      octets (a C `char[]`/`uint8_t[]` field, a Python `Ns` item). */
  datatype Field = Uint(width: nat) | Bytes(size: nat)
  datatype Value = UintVal(n: nat) | BytesVal(bytes: seq<byte>)
  type Layout = seq<Field>

  function Width(f: Field): nat
  {
    match f
    case Uint(w) => w
    case Bytes(n) => n
  }

  /** Total octets of a packed layout: the plain sum of its fields. */
  function Size(l: Layout): nat
  {
    if l == [] then 0 else Width(l[0]) + Size(l[1..])
  }

  /** Where field `i` starts: the sum of the widths before it. */
  function Offset(l: Layout, i: nat): nat
    requires i <= |l|
  {
    if i == 0 then 0 else Width(l[0]) + Offset(l[1..], i - 1)
  }

  predicate FitsField(f: Field, v: Value)
  {
    match f
    case Uint(w) => v.UintVal? && v.n < Pow256(w)
    case Bytes(n) => v.BytesVal? && |v.bytes| == n
  }

  predicate Fits(l: Layout, vs: seq<Value>)
  {
    |l| == |vs| && forall i :: 0 <= i < |l| ==> FitsField(l[i], vs[i])
  }

  function EncodeField(o: ByteOrder, f: Field, v: Value): (r: seq<byte>)
    requires FitsField(f, v)
    ensures |r| == Width(f)
  {
    match f
    case Uint(w) => EncodeUint(o, v.n, w)
    case Bytes(n) => v.bytes
  }

  function DecodeField(o: ByteOrder, f: Field, b: seq<byte>): (r: Value)
    requires |b| == Width(f)
    ensures FitsField(f, r)
  {
    match f
    case Uint(w) => UintVal(DecodeUint(o, b))
    case Bytes(n) => BytesVal(b)
  }

  /** The fields' encodings laid end to end. */
  function Encode(o: ByteOrder, l: Layout, vs: seq<Value>): (r: seq<byte>)
    requires Fits(l, vs)
    ensures |r| == Size(l)
  {
    if l == [] then [] else EncodeField(o, l[0], vs[0]) + Encode(o, l[1..], vs[1..])
  }

  function DecodeExact(o: ByteOrder, l: Layout, b: seq<byte>): (r: seq<Value>)
    requires |b| == Size(l)
    ensures Fits(l, r)
  {
    if l == [] then [] else
      var w := Width(l[0]);
      [DecodeField(o, l[0], b[..w])] + DecodeExact(o, l[1..], b[w..])
  }

  /** Reads a layout from the front of a buffer. A buffer shorter than the
      layout is malformed; octets after the layout are not looked at. */
  function Decode(o: ByteOrder, l: Layout, b: seq<byte>): (r: Option<seq<Value>>)
    ensures r.Some? <==> |b| >= Size(l)
    ensures r.Some? ==> Fits(l, r.value)
  {
    if |b| < Size(l) then None else Some(DecodeExact(o, l, b[..Size(l)]))
  }

  lemma {:induction false} DecodeExactEncode(o: ByteOrder, l: Layout, vs: seq<Value>)
    requires Fits(l, vs)
    ensures DecodeExact(o, l, Encode(o, l, vs)) == vs
  {
    if l != [] {
      var w := Width(l[0]);
      var head, tail := EncodeField(o, l[0], vs[0]), Encode(o, l[1..], vs[1..]);
      EncodeFront(o, l, vs);
      assert (head + tail)[..w] == head && (head + tail)[w..] == tail;
      FieldRoundTrip(o, l[0], vs[0]);
      DecodeExactEncode(o, l[1..], vs[1..]);
      assert vs == [vs[0]] + vs[1..];
    }
  }

  lemma FieldRoundTrip(o: ByteOrder, f: Field, v: Value)
    requires FitsField(f, v)
    ensures DecodeField(o, f, EncodeField(o, f, v)) == v
  {
    if f.Uint? {
      UintRoundTrip(o, v.n, f.width);
    }
  }

  lemma {:induction false} EncodeDecodeExact(o: ByteOrder, l: Layout, b: seq<byte>)
    requires |b| == Size(l)
    ensures Encode(o, l, DecodeExact(o, l, b)) == b
  {
    if l != [] {
      var w := Width(l[0]);
      var d := DecodeExact(o, l, b);
      assert d[1..] == DecodeExact(o, l[1..], b[w..]);
      EncodeDecodeExact(o, l[1..], b[w..]);
      if l[0].Uint? {
        UintRoundTripBytes(o, b[..w]);
      }
      assert EncodeField(o, l[0], d[0]) == b[..w];
      assert b == b[..w] + b[w..];
    }
  }

  /** Decoding what was encoded gives back the values, whatever follows. */
  lemma DecodeEncode(o: ByteOrder, l: Layout, vs: seq<Value>, rest: seq<byte>)
    requires Fits(l, vs)
    ensures Decode(o, l, Encode(o, l, vs) + rest) == Some(vs)
  {
    var e := Encode(o, l, vs);
    assert (e + rest)[..Size(l)] == e;
    DecodeExactEncode(o, l, vs);
  }

  /** A successful decode re-encodes to exactly the octets it read. */
  lemma EncodeDecode(o: ByteOrder, l: Layout, b: seq<byte>)
    requires |b| >= Size(l)
    ensures Decode(o, l, b).Some?
    ensures Encode(o, l, Decode(o, l, b).value) == b[..Size(l)]
  {
    EncodeDecodeExact(o, l, b[..Size(l)]);
  }

  lemma SliceOfAppend(a: seq<byte>, b: seq<byte>, j: nat, k: nat)
    requires j + k <= |b|
    ensures (a + b)[|a| + j..|a| + j + k] == b[j..j + k]
  {
  }

  /** Field `i` of an encoding sits at `Offset(l, i)` and is that field's own
      encoding. */
  lemma {:induction false} FieldAt(o: ByteOrder, l: Layout, vs: seq<Value>, i: nat)
    requires Fits(l, vs) && i < |l|
    ensures Offset(l, i) + Width(l[i]) <= Size(l)
    ensures Encode(o, l, vs)[Offset(l, i)..Offset(l, i) + Width(l[i])] == EncodeField(o, l[i], vs[i])
  {
    EncodeFront(o, l, vs);
    if i == 0 {
      assert Encode(o, l, vs)[0..Width(l[0])] == EncodeField(o, l[0], vs[0]);
    } else {
      FieldAt(o, l[1..], vs[1..], i - 1);
      FieldShift(o, l, vs, i);
    }
  }

  /** An encoding is its first field's encoding followed by the rest's. */
  lemma EncodeFront(o: ByteOrder, l: Layout, vs: seq<Value>)
    requires Fits(l, vs) && l != []
    ensures Fits(l[1..], vs[1..])
    ensures Encode(o, l, vs) == EncodeField(o, l[0], vs[0]) + Encode(o, l[1..], vs[1..])
  {
    assert Fits(l[1..], vs[1..]);
  }

  /** Field `i` of the rest of a layout is field `i + 1` of the whole. */
  lemma FieldShift(o: ByteOrder, l: Layout, vs: seq<Value>, i: nat)
    requires Fits(l, vs) && 0 < i < |l| && Fits(l[1..], vs[1..])
    requires Encode(o, l, vs) == EncodeField(o, l[0], vs[0]) + Encode(o, l[1..], vs[1..])
    requires Offset(l[1..], i - 1) + Width(l[1..][i - 1]) <= Size(l[1..])
    requires Encode(o, l[1..], vs[1..])[Offset(l[1..], i - 1)..Offset(l[1..], i - 1) + Width(l[1..][i - 1])]
             == EncodeField(o, l[1..][i - 1], vs[1..][i - 1])
    ensures Offset(l, i) + Width(l[i]) <= Size(l)
    ensures Encode(o, l, vs)[Offset(l, i)..Offset(l, i) + Width(l[i])] == EncodeField(o, l[i], vs[i])
  {
    assert l[1..][i - 1] == l[i] && vs[1..][i - 1] == vs[i];
    var head := EncodeField(o, l[0], vs[0]);
    var j := Offset(l[1..], i - 1);
    assert Offset(l, i) == |head| + j;
    SliceOfAppend(head, Encode(o, l[1..], vs[1..]), j, Width(l[i]));
  }

  /** The size of a layout followed by another is the sum of their sizes. */
  lemma {:induction false} SizeAppend(a: Layout, b: Layout)
    ensures Size(a + b) == Size(a) + Size(b)
  {
    if a == [] {
      assert a + b == b;
    } else {
      assert (a + b)[0] == a[0];
      assert (a + b)[1..] == a[1..] + b;
      SizeAppend(a[1..], b);
    }
  }
}
