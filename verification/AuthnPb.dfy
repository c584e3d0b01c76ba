// mainflux.IssueReq: a string and a uint32. The other messages of authn.proto have one or two string
// fields and are covered by the same theorems of WireLaws.
module AuthnPb {
  import opened Bits
  import opened Common
  import Varint
  import opened Records
  import opened Wire
  import opened WireLaws

  type uint32 = x: nat | x < TWO_32

  class IssueReq {
    var Issuer: seq<byte>
    var Type: uint32
    var Unrecognized: seq<byte>

    ghost function Value(): (r: Record)
      reads this
      ensures Typed(r) && |r.fields| == 2
    {
      Record([Chunk(Issuer), Number(Type)], Unrecognized)
    }

    constructor ()
      ensures Value() == Empty(Value())
    {
      Issuer, Type, Unrecognized := [], 0, [];
      new;
      assert Value().fields == Empty(Value()).fields;
    }

    method Size() returns (n: nat)
      ensures n == |Encoded(Value())|
    {
      ghost var r := Value();
      SizeIsLength(r, 0);
      n := BytesSize(|Issuer|);
      assert SizeFrom(r, 0) == n + SizeFrom(r, 1);
      n := n + NumberSize(Type);
      n := n + |Unrecognized|;
    }

    method MarshalToSizedBuffer(dAtA: array<byte>) returns (n: nat)
      requires |Encoded(Value())| <= dAtA.Length < TWO_63
      modifies dAtA
      ensures n == old(|Encoded(Value())|)
      ensures dAtA[..] == old(dAtA[..dAtA.Length - n]) + old(Encoded(Value()))
    {
      ghost var r, base := Value(), dAtA[..];
      ghost var suf := SuffixesOf(r);
      assert r.fields[1] == Number(Type) && r.fields[0] == Chunk(Issuer);
      var i := dAtA.Length - |Unrecognized|;
      CopyInto(dAtA, i, Unrecognized);
      assert dAtA[..] == dAtA[..i] + dAtA[i..];
      i := PutNumberField(dAtA, i, 1, 0x10, Type, r, suf, base);
      i := PutField(dAtA, i, 0, 0xA, Issuer, r, suf, base);
      n := dAtA.Length - i;
    }

    method Marshal() returns (b: seq<byte>)
      requires |Encoded(Value())| < TWO_63
      ensures b == Encoded(Value())
    {
      var size := Size();
      var dAtA := new byte[size];
      var n := MarshalToSizedBuffer(dAtA);
      b := dAtA[..n];
      assert dAtA[..n] == dAtA[..];
    }

    method SetIssuer(bytes: seq<byte>)
      modifies this`Issuer
      ensures Value() == old(Value()).(fields := old(Value()).fields[0 := Chunk(bytes)])
    {
      Issuer := bytes;
      assert Value().fields == old(Value()).fields[0 := Chunk(bytes)];
    }

    method SetType(v: uint32)
      modifies this`Type
      ensures Value() == old(Value()).(fields := old(Value()).fields[1 := Number(v)])
    {
      Type := v;
      assert Value().fields == old(Value()).fields[1 := Number(v)];
    }

    method KeepUnknown(bytes: seq<byte>)
      modifies this`Unrecognized
      ensures Value() == old(Value()).(unknown := old(Value()).unknown + bytes)
    {
      Unrecognized := Unrecognized + bytes;
    }

    /** The branch of field 1. */
    method UnmarshalIssuer(dAtA: seq<byte>, start: nat, preIndex: nat, wireType: nat)
      returns (iNdEx: nat, err: Option<Varint.Error>)
      requires preIndex < start <= |dAtA|
      modifies this`Issuer
      ensures var st := if wireType != 2 then Step(old(Value()), 0, Some(Varint.WrongWireType))
                        else DecodeChunk(old(Value()), 0, dAtA[preIndex..], start - preIndex, preIndex);
              Value() == st.rec && err == st.err && (err.None? ==> iNdEx == preIndex + st.len)
    {
      iNdEx := start;
      if wireType != 2 {
        err := Some(Varint.WrongWireType);
        return;
      }
      var bytes;
      bytes, iNdEx, err := ReadBytes(dAtA, iNdEx, preIndex);
      if err.None? {
        SetIssuer(bytes);
      }
    }

    /** The branch of field 2. The generated loop accumulates into m.Type itself, so the value stays
        also on an error. */
    method UnmarshalType(dAtA: seq<byte>, start: nat, preIndex: nat, wireType: nat)
      returns (iNdEx: nat, err: Option<Varint.Error>)
      requires preIndex < start <= |dAtA|
      modifies this`Type
      ensures var st := if wireType != 0 then Step(old(Value()), 0, Some(Varint.WrongWireType))
                        else DecodeNumber(old(Value()), 1, dAtA[preIndex..], start - preIndex);
              Value() == st.rec && err == st.err && (err.None? ==> iNdEx == preIndex + st.len)
    {
      iNdEx := start;
      if wireType != 0 {
        err := Some(Varint.WrongWireType);
        return;
      }
      var v;
      v, iNdEx, err := ReadNumber(dAtA, iNdEx, preIndex);
      SetType(v);
    }

    /** The switch over the field number. */
    method UnmarshalField(dAtA: seq<byte>, start: nat, preIndex: nat, fieldNum: int, wireType: nat)
      returns (iNdEx: nat, err: Option<Varint.Error>)
      requires preIndex < start <= |dAtA| && fieldNum > 0
      modifies this
      ensures var st := DecodeField(old(Value()), fieldNum, wireType, dAtA[preIndex..], start - preIndex, preIndex);
              Value() == st.rec && err == st.err && (err.None? ==> iNdEx == preIndex + st.len)
    {
      if fieldNum == 1 {
        iNdEx, err := UnmarshalIssuer(dAtA, start, preIndex, wireType);
      } else if fieldNum == 2 {
        iNdEx, err := UnmarshalType(dAtA, start, preIndex, wireType);
      } else {
        var bytes;
        bytes, iNdEx, err := ReadUnknown(dAtA, preIndex);
        if err.None? {
          KeepUnknown(bytes);
        }
      }
    }

    /** One turn of the Unmarshal loop. */
    method UnmarshalRecord(dAtA: seq<byte>, preIndex: nat, ghost step: Decoder)
      returns (iNdEx: nat, err: Option<Varint.Error>)
      requires preIndex < |dAtA| && IsDecoder(step)
      modifies this
      ensures var st := step(old(Value()), dAtA[preIndex..], preIndex);
              Value() == st.rec && err == st.err && (err.None? ==> iNdEx == preIndex + st.len)
    {
      assert step(Value(), dAtA[preIndex..], preIndex) == DecodeRecord(Value(), dAtA[preIndex..], preIndex);
      var fieldNum, wireType;
      fieldNum, wireType, iNdEx, err := ReadTag(dAtA, preIndex);
      if err.None? {
        iNdEx, err := UnmarshalField(dAtA, iNdEx, preIndex, fieldNum, wireType);
      }
    }

    method Unmarshal(dAtA: seq<byte>) returns (err: Option<Varint.Error>)
      modifies this
      ensures Outcome(Value(), err) == Wire.Unmarshal(old(Value()), dAtA)
    {
      var l, iNdEx := |dAtA|, 0;
      ghost var step, whole := LoopDecoder(Value(), dAtA);
      while iNdEx < l
        invariant 0 <= iNdEx <= l
        invariant Run(step, Value(), dAtA[iNdEx..], iNdEx) == whole
        decreases l - iNdEx
      {
        LoopStep(step, Value(), dAtA, iNdEx);
        iNdEx, err := UnmarshalRecord(dAtA, iNdEx, step);
        if err.Some? {
          return;
        }
      }
      err := None;
    }
  }

  /** A request sent by one service arrives as it was at another. */
  method SendAndReceive(m: IssueReq) returns (m': IssueReq)
    requires |Encoded(m.Value())| < TWO_63 && IsUnknown(UnknownLen, 2, m.Unrecognized)
    ensures m'.Issuer == m.Issuer && m'.Type == m.Type && m'.Unrecognized == m.Unrecognized
  {
    var b := m.Marshal();
    m' := new IssueReq();
    RoundTrip(m.Value());
    assert Empty(m.Value()).fields == m'.Value().fields;
    var err := m'.Unmarshal(b);
    assert m'.Value() == m.Value();
    assert m'.Value().fields[0] == m.Value().fields[0] && m'.Value().fields[1] == m.Value().fields[1];
  }
}
