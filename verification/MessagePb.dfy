// mainflux.Message: the generated methods that size, encode and decode it.
module MessagePb {
  import opened Bits
  import opened Common
  import Varint
  import opened Records
  import opened Wire
  import opened WireLaws

  /** The size of a record of eight string or bytes fields. */
  lemma SizeOfEight(r: Record)
    requires |r.fields| == 8 && forall k :: 0 <= k < 8 ==> r.fields[k].Chunk?
    ensures |Encoded(r)| == FieldSize(r.fields[0]) + FieldSize(r.fields[1]) + FieldSize(r.fields[2])
                            + FieldSize(r.fields[3]) + FieldSize(r.fields[4]) + FieldSize(r.fields[5])
                            + FieldSize(r.fields[6]) + FieldSize(r.fields[7]) + |r.unknown|
  {
    var first: nat := 0;
    SizeIsLength(r, first);
    EightFields(r, first);
  }

  lemma EightFields(r: Record, first: nat)
    requires |r.fields| == 8 && first == 0
    ensures SizeFrom(r, first) == FieldSize(r.fields[0]) + FieldSize(r.fields[1]) + FieldSize(r.fields[2])
                                  + FieldSize(r.fields[3]) + FieldSize(r.fields[4]) + FieldSize(r.fields[5])
                                  + FieldSize(r.fields[6]) + FieldSize(r.fields[7]) + |r.unknown|
  {
    FieldsAdd(r, first);
    FieldsAdd(r, first + 4);
  }

  lemma FieldsAdd(r: Record, k: nat)
    requires k + 4 <= |r.fields|
    ensures SizeFrom(r, k) == FieldSize(r.fields[k]) + FieldSize(r.fields[k + 1]) + FieldSize(r.fields[k + 2])
                              + FieldSize(r.fields[k + 3]) + SizeFrom(r, k + 4)
  {
    FieldAdds(r, k);
    FieldAdds(r, k + 1);
    FieldAdds(r, k + 2);
    FieldAdds(r, k + 3);
  }

  class Message {
    var Channel: seq<byte>
    var Topic: seq<byte>
    var Subtopic: seq<byte>
    var Publisher: seq<byte>
    var Devname: seq<byte>
    var Protocol: seq<byte>
    var ContentType: seq<byte>
    var Payload: seq<byte>
    var Unrecognized: seq<byte>

    ghost function Fields(): (f: seq<Value>)
      reads this
      ensures |f| == 8
    {
      [Chunk(Channel), Chunk(Topic), Chunk(Subtopic), Chunk(Publisher),
       Chunk(Devname), Chunk(Protocol), Chunk(ContentType), Chunk(Payload)]
    }

    ghost function Value(): (r: Record)
      reads this
      ensures Typed(r) && |r.fields| == 8 && forall k :: 0 <= k < 8 ==> r.fields[k].Chunk?
    {
      Record(Fields(), Unrecognized)
    }

    /** A new message is empty. */
    constructor ()
      ensures Value() == Empty(Value())
    {
      Channel, Topic, Subtopic, Publisher, Devname, Protocol, ContentType, Payload := [], [], [], [], [], [], [], [];
      Unrecognized := [];
      new;
      assert Fields() == Empty(Value()).fields;
    }

    /** The fields one by one. */
    lemma FieldsAre()
      ensures var f := Value().fields;
              && f[0] == Chunk(Channel) && f[1] == Chunk(Topic) && f[2] == Chunk(Subtopic) && f[3] == Chunk(Publisher)
              && f[4] == Chunk(Devname) && f[5] == Chunk(Protocol) && f[6] == Chunk(ContentType)
              && f[7] == Chunk(Payload)
    {
    }

    method Size() returns (n: nat)
      ensures n == |Encoded(Value())|
    {
      FieldsAre();
      SizeOfEight(Value());
      n := 0;
      n := n + BytesSize(|Channel|);
      n := n + BytesSize(|Topic|);
      n := n + BytesSize(|Subtopic|);
      n := n + BytesSize(|Publisher|);
      n := n + BytesSize(|Devname|);
      n := n + BytesSize(|Protocol|);
      n := n + BytesSize(|ContentType|);
      n := n + BytesSize(|Payload|);
      n := n + |Unrecognized|;
    }

    /** Fills the end of the buffer backwards: exactly the encoding, and nothing in front of it. */
    method MarshalToSizedBuffer(dAtA: array<byte>) returns (n: nat)
      requires |Encoded(Value())| <= dAtA.Length < TWO_63
      modifies dAtA
      ensures n == old(|Encoded(Value())|)
      ensures dAtA[..] == old(dAtA[..dAtA.Length - n]) + old(Encoded(Value()))
    {
      ghost var r, base := Value(), dAtA[..];
      ghost var suf := SuffixesOf(r);
      FieldsAre();
      var i := dAtA.Length - |Unrecognized|;
      CopyInto(dAtA, i, Unrecognized);
      assert dAtA[..] == dAtA[..i] + dAtA[i..];
      i := PutField(dAtA, i, 7, 0x42, Payload, r, suf, base);
      i := PutField(dAtA, i, 6, 0x3A, ContentType, r, suf, base);
      i := PutField(dAtA, i, 5, 0x32, Protocol, r, suf, base);
      i := PutField(dAtA, i, 4, 0x2A, Devname, r, suf, base);
      i := PutField(dAtA, i, 3, 0x22, Publisher, r, suf, base);
      i := PutField(dAtA, i, 2, 0x1A, Subtopic, r, suf, base);
      i := PutField(dAtA, i, 1, 0x12, Topic, r, suf, base);
      i := PutField(dAtA, i, 0, 0xA, Channel, r, suf, base);
      n := dAtA.Length - i;
    }

    /** The front slice dAtA[:n] of a buffer of Size() bytes is all of it. */
    method Marshal() returns (b: seq<byte>)
      requires |Encoded(Value())| < TWO_63
      ensures b == Encoded(Value())
    {
      var size := Size();
      var dAtA := new byte[size];
      var n := MarshalToSizedBuffer(dAtA);
      b := dAtA[..n];
      assert dAtA[..n] == dAtA[..];
    }

    /** One turn of the Unmarshal loop. */
    method UnmarshalRecord(dAtA: seq<byte>, preIndex: nat, ghost step: Decoder)
      returns (iNdEx: nat, err: Option<Varint.Error>)
      requires preIndex < |dAtA| && IsDecoder(step)
      modifies this
      ensures var st := step(old(Value()), dAtA[preIndex..], preIndex);
              Value() == st.rec && err == st.err && (err.None? ==> iNdEx == preIndex + st.len)
    {
      assert step(Value(), dAtA[preIndex..], preIndex) == DecodeRecord(Value(), dAtA[preIndex..], preIndex);
      var fieldNum, wireType;
      fieldNum, wireType, iNdEx, err := ReadTag(dAtA, preIndex);
      if err.None? {
        iNdEx, err := UnmarshalField(dAtA, iNdEx, preIndex, fieldNum, wireType);
      }
    }

    /** The switch over the field number; the eight branches differ only in the field they set. */
    method UnmarshalField(dAtA: seq<byte>, start: nat, preIndex: nat, fieldNum: int, wireType: nat)
      returns (iNdEx: nat, err: Option<Varint.Error>)
      requires preIndex < start <= |dAtA| && fieldNum > 0
      modifies this
      ensures var st := DecodeField(old(Value()), fieldNum, wireType, dAtA[preIndex..], start - preIndex, preIndex);
              Value() == st.rec && err == st.err && (err.None? ==> iNdEx == preIndex + st.len)
    {
      var bytes;
      iNdEx := start;
      if fieldNum > 8 {
        bytes, iNdEx, err := ReadUnknown(dAtA, preIndex);
        if err.None? {
          KeepUnknown(bytes);
        }
        return;
      }
      if wireType != 2 {
        err := Some(Varint.WrongWireType);
        return;
      }
      bytes, iNdEx, err := ReadBytes(dAtA, iNdEx, preIndex);
      if err.Some? {
        return;
      }
      SetField(fieldNum, bytes);
    }

    method KeepUnknown(bytes: seq<byte>)
      modifies this`Unrecognized
      ensures Value() == old(Value()).(unknown := old(Value()).unknown + bytes)
    {
      Unrecognized := Unrecognized + bytes;
    }

    /** The assignments at the end of the eight field branches. */
    method SetField(fieldNum: int, bytes: seq<byte>)
      requires 1 <= fieldNum <= 8
      modifies this
      ensures Value() == old(Value()).(fields := old(Value()).fields[fieldNum - 1 := Chunk(bytes)])
    {
      match fieldNum {
        case 1 => Channel := bytes;
        case 2 => Topic := bytes;
        case 3 => Subtopic := bytes;
        case 4 => Publisher := bytes;
        case 5 => Devname := bytes;
        case 6 => Protocol := bytes;
        case 7 => ContentType := bytes;
        case _ => Payload := bytes;
      }
      assert Fields() == old(Fields())[fieldNum - 1 := Chunk(bytes)];
    }

    /** Decodes into this message; on an error the records before it stay applied. */
    method Unmarshal(dAtA: seq<byte>) returns (err: Option<Varint.Error>)
      modifies this
      ensures Outcome(Value(), err) == Wire.Unmarshal(old(Value()), dAtA)
    {
      var l, iNdEx := |dAtA|, 0;
      ghost var step, whole := LoopDecoder(Value(), dAtA);
      while iNdEx < l
        invariant 0 <= iNdEx <= l
        invariant Run(step, Value(), dAtA[iNdEx..], iNdEx) == whole
        decreases l - iNdEx
      {
        LoopStep(step, Value(), dAtA, iNdEx);
        iNdEx, err := UnmarshalRecord(dAtA, iNdEx, step);
        if err.Some? {
          return;
        }
      }
      err := None;
    }
  }

  /** A message that is published and received again is the same. */
  method PublishAndReceive(m: Message) returns (m': Message)
    requires |Encoded(m.Value())| < TWO_63 && IsUnknown(UnknownLen, 8, m.Unrecognized)
    ensures m'.Value() == m.Value()
  {
    var b := m.Marshal();
    m' := new Message();
    RoundTrip(m.Value());
    assert Empty(m.Value()).fields == m'.Fields();
    var err := m'.Unmarshal(b);
  }
}
