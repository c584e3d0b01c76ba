// Base 128 varints (Protocol Buffers encoding, "Base 128 Varints"): the encoder that fills a buffer,
// the size function, and the decode loop that the generated code repeats inline for every number.
module Varint {
  import opened Bits
  import opened Common

  datatype Error =
    | UnexpectedEOF
    | IntOverflow
    | InvalidLength
    | UnexpectedEndOfGroup
    | EndGroupForNonGroup
    | IllegalTag
    | WrongWireType
    | IllegalWireType

  /** What the decode loop has seen when it stops: the exact (untruncated) value of the groups read, how
      many bytes it consumed and why it stopped. */
  datatype Read = Read(value: nat, len: nat, err: Option<Error>)

  /** The canonical encoding: 7-bit groups, least significant first, high bit set on all but the last. */
  function Encode(v: nat): (r: seq<byte>)
    ensures |r| >= 1
  {
    if v < 128 then [v] else [v % 128 + 128] + Encode(v / 128)
  }

  /** Reading a varint after `g` groups of it: at most ten groups, as `shift` must stay below 64. */
  function Decode(s: seq<byte>, g: nat): (r: Read)
    ensures r.len <= |s|
    ensures r.err.None? ==> r.len >= 1 && r.len + g <= 10
    decreases |s|
  {
    if 7 * g >= 64 then Read(0, 0, Some(IntOverflow))
    else if s == [] then Read(0, 0, Some(UnexpectedEOF))
    else if s[0] < 128 then Read(s[0], 1, None)
    else
      var r := Decode(s[1..], g + 1);
      Read(s[0] % 128 + 128 * r.value, r.len + 1, r.err)
  }

  /** Number of bits of x: math/bits.Len64. */
  function Len64(x: nat): nat {
    if x == 0 then 0 else 1 + Len64(x / 2)
  }

  /** Size of the encoding, computed from the bit length. */
  function Sov(x: nat): nat {
    (Len64(Or(x, 1)) + 6) / 7
  }

  lemma LenOr(x: nat)
    requires x > 0
    ensures Len64(Or(x, 1)) == Len64(x)
  {
    OrZero(x / 2);
  }

  lemma {:induction false} SovIsLength(x: nat)
    ensures Sov(x) == |Encode(x)|
  {
    if x == 0 {
      assert Len64(1) == 1;
    } else {
      LenOr(x);
      Len64Seven(x);
      if x >= 128 {
        SovIsLength(x / 128);
        LenOr(x / 128);
      }
    }
  }

  lemma Len64Seven(y: nat)
    requires y > 0
    ensures y >= 128 ==> Len64(y) == 7 + Len64(y / 128)
    ensures y < 128 ==> 1 <= Len64(y) <= 7
  {
    var y1 := y / 2;
    var y2 := y1 / 2;
    var y3 := y2 / 2;
    var y4 := y3 / 2;
    var y5 := y4 / 2;
    var y6 := y5 / 2;
    var y7 := y6 / 2;
    assert y7 == y / 128;
    assert Len64(y) == 1 + Len64(y1);
    assert Len64(y1) == if y1 == 0 then 0 else 1 + Len64(y2);
    assert Len64(y2) == if y2 == 0 then 0 else 1 + Len64(y3);
    assert Len64(y3) == if y3 == 0 then 0 else 1 + Len64(y4);
    assert Len64(y4) == if y4 == 0 then 0 else 1 + Len64(y5);
    assert Len64(y5) == if y5 == 0 then 0 else 1 + Len64(y6);
    assert Len64(y6) == if y6 == 0 then 0 else 1 + Len64(y7);
  }

  lemma HighGroups(v: nat, g: nat)
    requires g <= 9 && 128 <= v < Pow2(7 * (10 - g))
    ensures g < 9 && v / 128 < Pow2(7 * (9 - g))
  {
    Pow2Add(7, 7 * (9 - g));
    Pow2Widths();
    assert Pow2(0) == 1;
  }

  /** Decoding an encoding followed by anything gives the number back and stops right after it. */
  lemma {:induction false} RoundTrip(v: nat, t: seq<byte>, g: nat)
    requires g <= 9 && v < Pow2(7 * (10 - g))
    ensures Decode(Encode(v) + t, g) == Read(v, |Encode(v)|, None)
  {
    var s := Encode(v) + t;
    if v < 128 {
      assert s[0] == v;
    } else {
      HighGroups(v, g);
      var d: byte, e := v % 128 + 128, Encode(v / 128);
      assert Encode(v) == [d] + e;
      assert s[0] == d && s[1..] == e + t;
      RoundTrip(v / 128, t, g + 1);
    }
  }

  lemma RoundTrip64(v: uint64, t: seq<byte>)
    ensures Decode(Encode(v) + t, 0) == Read(v, |Encode(v)|, None)
    ensures |Encode(v)| <= 10
  {
    Pow2Widths();
    Pow2Add(64, 6);
    assert Pow2(6) >= 1;
    assert Pow2(70) >= TWO_64;
    RoundTrip(v, t, 0);
    assert Decode(Encode(v) + t, 0).len <= 10;
  }

  /** The result depends only on the bytes consumed. */
  lemma {:induction false} Local(s: seq<byte>, s': seq<byte>, g: nat)
    requires Decode(s, g).err.None?
    requires |s'| >= Decode(s, g).len && s'[..Decode(s, g).len] == s[..Decode(s, g).len]
    ensures Decode(s', g) == Decode(s, g)
    decreases |s|
  {
    var n := Decode(s, g).len;
    assert s'[0] == s'[..n][0] == s[..n][0] == s[0];
    if s[0] >= 128 {
      assert s'[1..][..n - 1] == s'[..n][1..] == s[..n][1..] == s[1..][..n - 1];
      Local(s[1..], s'[1..], g + 1);
    }
  }

  /** The canonical encoding is the shortest input that decodes to a number, also after truncation. */
  lemma {:induction false} Shortest(s: seq<byte>, g: nat, v: nat)
    requires Decode(s, g).err.None? && v <= Decode(s, g).value
    ensures |Encode(v)| <= Decode(s, g).len
    decreases |s|
  {
    if v >= 128 {
      assert s[0] >= 128;
      Shortest(s[1..], g + 1, v / 128);
    }
  }

  lemma HighBit(d: nat)
    requires d < 128
    ensures Or(d, 0x80) == d + 128
  {
    OrDisjoint(d, 1, 7);
    Pow2Widths();
  }

  lemma EncodeNext(done: seq<byte>, x: nat)
    requires x >= 128
    ensures |Encode(x)| == 1 + |Encode(x / 128)|
    ensures done + [x % 128 + 128] + Encode(x / 128) == done + Encode(x)
  {
    var d: byte, t := x % 128 + 128, Encode(x / 128);
    assert Encode(x) == [d] + t;
    Associate(done, [d], t);
  }

  /** encodeVarintMessage / encodeVarintAuthn: moves the offset back by Sov(v) and writes forwards. */
  method EncodeVarint(dAtA: array<byte>, offset: nat, v: uint64) returns (base: nat)
    requires Sov(v) <= offset <= dAtA.Length
    modifies dAtA
    ensures base == offset - |Encode(v)|
    ensures dAtA[..base] == old(dAtA[..base])
    ensures dAtA[base..] == Encode(v) + old(dAtA[offset..])
  {
    SovIsLength(v);
    var i := offset - Sov(v);
    base := i;
    var x: nat := v;
    while x >= 128
      invariant base <= i < offset && i + |Encode(x)| == offset
      invariant dAtA[base..i] + Encode(x) == Encode(v)
      invariant dAtA[..base] == old(dAtA[..base]) && dAtA[offset..] == old(dAtA[offset..])
    {
      ghost var done := dAtA[base..i];
      HighBit(x % 128);
      dAtA[i] := Or(x % 128, 0x80);
      assert dAtA[base..i + 1] == done + [x % 128 + 128];
      EncodeNext(done, x);
      x := x / 128;
      i := i + 1;
    }
    ghost var done := dAtA[base..i];
    dAtA[i] := x;
    assert dAtA[base..offset] == done + [x];
    assert dAtA[base..] == dAtA[base..offset] + dAtA[offset..];
  }

  /** Decode with the value of the groups before `s` carried along, as the loop does. */
  ghost function DecodeAcc(s: seq<byte>, g: nat, acc: nat): Read
    decreases |s|
  {
    if 7 * g >= 64 then Read(acc, 0, Some(IntOverflow))
    else if s == [] then Read(acc, 0, Some(UnexpectedEOF))
    else
      var acc' := acc + s[0] % 128 * Pow2(7 * g);
      if s[0] < 128 then Read(acc', 1, None)
      else
        var r := DecodeAcc(s[1..], g + 1, acc');
        r.(len := r.len + 1)
  }

  lemma {:induction false} DecodeAccIsDecode(s: seq<byte>, g: nat, acc: nat)
    ensures var r := Decode(s, g);
            DecodeAcc(s, g, acc) == Read(acc + Pow2(7 * g) * r.value, r.len, r.err)
    decreases |s|
  {
    if 7 * g < 64 && s != [] {
      if s[0] >= 128 {
        DecodeAccIsDecode(s[1..], g + 1, acc + s[0] % 128 * Pow2(7 * g));
        AccStep(acc, s[0] % 128, g, Decode(s[1..], g + 1).value);
      } else {
        AccStep(acc, s[0], g, 0);
      }
    }
  }

  lemma AccStep(acc: nat, d: nat, g: nat, rest: nat)
    ensures acc + Pow2(7 * g) * (d + 128 * rest) == acc + d * Pow2(7 * g) + Pow2(7 * (g + 1)) * rest
  {
    Pow2Add(7, 7 * g);
    Pow2Widths();
    Distribute(Pow2(7 * g), Pow2(7 * (g + 1)), d, rest);
  }

  lemma Distribute(p: nat, q: nat, d: nat, rest: nat)
    requires q == 128 * p
    ensures p * (d + 128 * rest) == d * p + q * rest
  {
    MulAdd(d, 128 * rest, p);
  }

  lemma GroupBound(acc: nat, d: nat, g: nat)
    requires acc < Pow2(7 * g) && d < 128
    ensures acc + d * Pow2(7 * g) < Pow2(7 * (g + 1))
  {
    Pow2Add(7, 7 * g);
    Pow2Octet();
    GroupFits(acc, d, Pow2(7 * g));
  }

  lemma GroupFits(acc: nat, d: nat, p: nat)
    requires acc < p && d < 128
    ensures acc + d * p < 128 * p
  {
    MulAdd(d, 1, p);
    MulMono(d + 1, 128, p);
  }

  /** One turn of the decode loop: or-ing in the next group carries the exact value along. */
  lemma NextGroup(s: seq<byte>, g: nat, acc: nat, width: nat) returns (acc': nat)
    requires s != [] && 7 * g < 64 && acc < Pow2(7 * g)
    ensures acc' < Pow2(7 * (g + 1))
    ensures Or(acc % Pow2(width), Shl(s[0] % 128, 7 * g, width)) == acc' % Pow2(width)
    ensures s[0] < 128 ==> DecodeAcc(s, g, acc) == Read(acc', 1, None)
    ensures s[0] >= 128 ==> var r := DecodeAcc(s[1..], g + 1, acc'); DecodeAcc(s, g, acc) == r.(len := r.len + 1)
  {
    acc' := acc + s[0] % 128 * Pow2(7 * g);
    OrGroup(acc, s[0] % 128, 7 * g, width);
    GroupBound(acc, s[0] % 128, g);
  }

  /** The decode loop, accumulating into a register of the given width by or-ing shifted groups. */
  method DecodeVarint(dAtA: seq<byte>, start: nat, width: nat)
    returns (v: nat, iNdEx: nat, err: Option<Error>)
    requires start <= |dAtA|
    ensures var r := Decode(dAtA[start..], 0);
            iNdEx == start + r.len && err == r.err && v == r.value % Pow2(width)
  {
    iNdEx, v, err := start, 0, None;
    DecodeAccIsDecode(dAtA[start..], 0, 0);
    ghost var g: nat, acc: nat := 0, 0;
    var shift := 0;
    while true
      invariant shift == 7 * g && iNdEx == start + g <= |dAtA|
      invariant acc < Pow2(7 * g) && v == acc % Pow2(width)
      invariant var rest := DecodeAcc(dAtA[iNdEx..], g, acc);
                DecodeAcc(dAtA[start..], 0, 0) == rest.(len := g + rest.len)
      decreases |dAtA| - iNdEx
    {
      if shift >= 64 {
        err := Some(IntOverflow);
        return;
      }
      if iNdEx >= |dAtA| {
        err := Some(UnexpectedEOF);
        return;
      }
      var b := dAtA[iNdEx];
      assert dAtA[iNdEx..][1..] == dAtA[iNdEx + 1..];
      iNdEx := iNdEx + 1;
      acc := NextGroup(dAtA[iNdEx - 1..], g, acc, width);
      v := Or(v, Shl(b % 128, shift, width));
      g := g + 1;
      if b < 128 {
        return;
      }
      shift := shift + 7;
    }
  }
}
