// What the wire format is for: round trip, concatenation ("Last One Wins"), preservation of unknown
// records and canonical re-encoding, for every message type of at most 15 string, bytes or uint32 fields.
module WireLaws {
  import opened Bits
  import opened Common
  import opened Varint
  import opened Records
  import opened Wire

  lemma DecoderAdvances()
    ensures Advances(DecodeRecord)
  {
  }

  /** On every byte string the decoder stops within it, and succeeds if and only if it has consumed all
      of it. */
  lemma WholeInput(r: Record, b: seq<byte>)
    ensures Consumed(DecodeRecord, r, b, 0) <= |b|
    ensures Unmarshal(r, b).err.None? <==> Consumed(DecodeRecord, r, b, 0) == |b|
  {
    DecoderAdvances();
    RunConsumes(DecodeRecord, r, b, 0);
  }

  lemma RecordLocal(r: Record, s: seq<byte>, t: seq<byte>, off: nat)
    requires DecodeRecord(r, s, off).err.None?
    ensures DecodeRecord(r, s + t, off) == DecodeRecord(r, s, off)
  {
    var tag := Varint.Decode(s, 0);
    assert (s + t)[..tag.len] == s[..tag.len];
    Varint.Local(s, s + t, 0);
    assert (s + t)[tag.len..] == s[tag.len..] + t;
    var num := ToInt32(tag.value % TWO_64 / 8);
    if num > |r.fields| {
      UnknownLocal(r, s, t, off);
    } else {
      BodyLocal(r, num - 1, s, t, tag.len, off);
    }
  }

  lemma UnknownLocal(r: Record, s: seq<byte>, t: seq<byte>, off: nat)
    requires DecodeUnknown(r, s, off).err.None?
    ensures DecodeUnknown(r, s + t, off) == DecodeUnknown(r, s, off)
  {
    var sk := Skip(s);
    assert (s + t)[..sk.len] == s[..sk.len];
    SkipLocal(s, s + t, 0, 0);
  }

  lemma BodyLocal(r: Record, k: nat, s: seq<byte>, t: seq<byte>, at: nat, off: nat)
    requires k < |r.fields| && 1 <= at <= |s|
    ensures DecodeChunk(r, k, s, at, off).err.None? ==>
              DecodeChunk(r, k, s + t, at, off) == DecodeChunk(r, k, s, at, off)
    ensures DecodeNumber(r, k, s, at).err.None? ==> DecodeNumber(r, k, s + t, at) == DecodeNumber(r, k, s, at)
  {
    var l := Varint.Decode(s[at..], 0);
    assert (s + t)[at..] == s[at..] + t;
    if l.err.None? {
      assert (s[at..] + t)[..l.len] == s[at..][..l.len];
      Varint.Local(s[at..], s[at..] + t, 0);
      var n, pos := l.value % TWO_64, at + l.len;
      if pos + n <= |s| {
        assert (s + t)[pos..pos + n] == s[pos..pos + n];
      }
    }
  }

  lemma DecoderLocal()
    ensures LocalStep(DecodeRecord)
  {
    forall r, s, t, off
      ensures LocalAt(DecodeRecord, r, s, t, off)
    {
      if s != [] && DecodeRecord(r, s, off).err.None? {
        RecordLocal(r, s, t, off);
      }
    }
  }

  lemma DecoderPositionFree()
    ensures PositionFree(DecodeRecord)
  {
    forall r, s, off, off'
      ensures PositionFreeAt(DecodeRecord, r, s, off, off')
    {
    }
  }

  /** Whenever b1 is accepted, Unmarshal of b1 ++ b2 succeeds exactly when b2 does after it, with the
      same message: the last value of a field wins and unknown bytes append. */
  lemma LastOneWins(r: Record, b1: seq<byte>, b2: seq<byte>)
    requires |b1| + |b2| < TWO_63
    requires Unmarshal(r, b1).err.None?
    ensures var whole, after := Unmarshal(r, b1 + b2), Unmarshal(Unmarshal(r, b1).rec, b2);
            whole.rec == after.rec && (whole.err.None? <==> after.err.None?)
  {
    DecoderLocal();
    DecoderPositionFree();
    RunLastOneWins(DecodeRecord, r, b1, b2);
  }

  // ----- Round trip ---------------------------------------------------------------------------------

  lemma Layout(w: byte, e: seq<byte>, b: seq<byte>, t: seq<byte>)
    ensures var s := [w] + e + b + t;
            s[0] == w && s[1..] == e + (b + t) && s[1 + |e|..1 + |e| + |b|] == b
  {
  }

  lemma ChunkReads(r: Record, k: nat, b: seq<byte>, t: seq<byte>, off: nat)
    requires Fits(r, k, Chunk(b)) && off + |EncodeField(k, Chunk(b))| + |t| < TWO_63
    ensures DecodeRecord(r, EncodeField(k, Chunk(b)) + t, off)
         == Step(r.(fields := r.fields[k := Chunk(b)]), |EncodeField(k, Chunk(b))|, None)
  {
    var w, e := 8 * (k + 1) + 2, Varint.Encode(|b|);
    var s := [w] + e + b + t;
    Layout(w, e, b, t);
    Varint.RoundTrip64(|b|, b + t);
    PieceReads(s, b, |e|, off);
    TagReads(r, k, s, off);
    assert EncodeField(k, Chunk(b)) + t == s;
  }

  lemma NumberLayout(w: byte, e: seq<byte>, t: seq<byte>)
    ensures var s := [w] + e + t; s[0] == w && s[1..] == e + t
  {
  }

  lemma NumberPiece(r: Record, k: nat, s: seq<byte>, n: nat, len: nat)
    requires k < |r.fields| && s != [] && n < TWO_32 && Varint.Decode(s[1..], 0) == Read(n, len, None)
    ensures DecodeNumber(r, k, s, 1) == Step(r.(fields := r.fields[k := Number(n)]), 1 + len, None)
  {
  }

  lemma NumberReads(r: Record, k: nat, n: nat, t: seq<byte>, off: nat)
    requires Fits(r, k, Number(n)) && off + |EncodeField(k, Number(n))| + |t| < TWO_63
    ensures DecodeRecord(r, EncodeField(k, Number(n)) + t, off)
         == Step(r.(fields := r.fields[k := Number(n)]), |EncodeField(k, Number(n))|, None)
  {
    var w, e := 8 * (k + 1), Varint.Encode(n);
    var s := [w] + e + t;
    NumberLayout(w, e, t);
    Varint.RoundTrip64(n, t);
    NumberPiece(r, k, s, n, |e|);
    TagReads(r, k, s, off);
    assert EncodeField(k, Number(n)) + t == s;
  }

  lemma PieceReads(s: seq<byte>, b: seq<byte>, el: nat, off: nat)
    requires |s| >= 1 + el + |b| && off + |s| < TWO_63 && s[1 + el..1 + el + |b|] == b
    requires Varint.Decode(s[1..], 0) == Read(|b|, el, None)
    ensures ReadChunk(s, 1, off) == Piece(b, 1 + el + |b|, None)
  {
  }

  lemma SmallTag(b: byte, num: nat, wireType: nat)
    requires b == 8 * num + wireType && wireType < 8
    ensures ToInt32(b % TWO_64 / 8) == num && b % TWO_64 % 8 == wireType
  {
    assert b % TWO_64 == b;
  }

  /** A one-byte tag of a declared field with the wire type of its kind. */
  lemma TagReads(r: Record, k: nat, s: seq<byte>, off: nat)
    requires k < |r.fields| <= 15 && s != []
    requires s[0] == 8 * (k + 1) + (if r.fields[k].Chunk? then 2 else 0)
    ensures DecodeRecord(r, s, off)
         == if r.fields[k].Chunk? then DecodeChunk(r, k, s, 1, off) else DecodeNumber(r, k, s, 1)
  {
    assert Varint.Decode(s, 0) == Read(s[0], 1, None);
    SmallTag(s[0], k + 1, if r.fields[k].Chunk? then 2 else 0);
  }

  lemma DecoderReads()
    ensures Reads(DecodeRecord)
  {
    forall r, k, v, t, off: nat
      ensures ReadsAt(DecodeRecord, r, k, v, t, off)
    {
      if Fits(r, k, v) && off + |EncodeField(k, v)| + |t| < TWO_63 {
        match v
        case Chunk(b) => ChunkReads(r, k, b, t, off);
        case Number(n) => NumberReads(r, k, n, t, off);
      }
    }
  }

  lemma DecoderKeeps()
    ensures Keeps(DecodeRecord, UnknownLen)
  {
    forall r, s, off
      ensures KeepsAt(DecodeRecord, UnknownLen, r, s, off)
    {
    }
  }

  /** Unmarshal of Marshal into an empty message returns exactly the message if and only if its unknown
      bytes are a concatenation of records that the decoder skips. */
  lemma RoundTrip(r: Record)
    requires Typed(r) && |Encoded(r)| < TWO_63
    ensures Unmarshal(Empty(r), Encoded(r)) == Outcome(r, None) <==> IsUnknown(UnknownLen, |r.fields|, r.unknown)
  {
    DecoderReads();
    DecoderKeeps();
    RunRoundTrip(DecodeRecord, UnknownLen, r);
  }

  // ----- Re-encoding --------------------------------------------------------------------------------

  /** A record taken by the skipper is by itself, and followed by anything, a skippable record. */
  lemma UnknownLenLocal(n: nat, u: seq<byte>, t: seq<byte>)
    requires UnknownLen(n, u) > 0
    ensures UnknownLen(n, u[..UnknownLen(n, u)] + t) == UnknownLen(n, u)
  {
    var c, tag := UnknownLen(n, u), Varint.Decode(u, 0);
    var w := u[..c] + t;
    assert w[..c] == u[..c];
    SkipLocal(u, w, 0, 0);
    TagWithinSkip(u);
    assert w[..tag.len] == w[..c][..tag.len] == u[..tag.len];
    Varint.Local(u, w, 0);
  }

  lemma TagWithinSkip(s: seq<byte>)
    requires Skip(s).err.None?
    ensures var tag := Varint.Decode(s, 0); tag.err.None? && tag.len <= Skip(s).len
  {
    assert s[0..] == s;
    var it := SkipItem(s, 0, 0);
    assert Varint.Decode(s, 0).len <= it.iNdEx <= Skip(s).len;
  }

  lemma ChopperLocal()
    ensures ChopLocal(UnknownLen)
  {
    forall n, u, t
      ensures ChopLocalAt(UnknownLen, n, u, t)
    {
      if UnknownLen(n, u) > 0 {
        UnknownLenLocal(n, u, t);
      }
    }
  }

  /** The canonical form of an accepted record is no longer than the record. */
  lemma RecordShrinks(r: Record, s: seq<byte>, off: nat)
    requires Typed(r) && s != []
    ensures var st := DecodeRecord(r, s, off);
            Typed(st.rec) && Empty(st.rec) == Empty(r) && (st.err.None? ==> |Encoded(st.rec)| <= |Encoded(r)| + st.len)
  {
    var st, tag := DecodeRecord(r, s, off), Varint.Decode(s, 0);
    var num := ToInt32(tag.value % TWO_64 / 8);
    if tag.err.None? && num > 0 {
      FieldShrinks(r, num, tag.value % TWO_64 % 8, s, tag.len, off);
    }
  }

  lemma FieldShrinks(r: Record, num: nat, wireType: nat, s: seq<byte>, at: nat, off: nat)
    requires Typed(r) && num > 0 && 1 <= at <= |s|
    ensures var st := DecodeField(r, num, wireType, s, at, off);
            Typed(st.rec) && Empty(st.rec) == Empty(r) && (st.err.None? ==> |Encoded(st.rec)| <= |Encoded(r)| + st.len)
  {
    var st := FieldTyped(r, num, wireType, s, at, off);
    if st.err.None? {
      FieldSizes(r, num, wireType, s, at, off);
    }
    SizeIsLength(r, 0);
    SizeIsLength(st.rec, 0);
  }

  lemma FieldTyped(r: Record, num: nat, wireType: nat, s: seq<byte>, at: nat, off: nat) returns (st: Step)
    requires Typed(r) && num > 0 && 1 <= at <= |s|
    ensures st == DecodeField(r, num, wireType, s, at, off) && Typed(st.rec) && Empty(st.rec) == Empty(r)
  {
    st := DecodeField(r, num, wireType, s, at, off);
    assert Empty(st.rec).fields == Empty(r).fields;
  }

  lemma FieldSizes(r: Record, num: nat, wireType: nat, s: seq<byte>, at: nat, off: nat)
    requires Typed(r) && num > 0 && 1 <= at <= |s|
    requires DecodeField(r, num, wireType, s, at, off).err.None?
    ensures var st := DecodeField(r, num, wireType, s, at, off); SizeFrom(st.rec, 0) <= SizeFrom(r, 0) + st.len
  {
    if num > |r.fields| {
      SizeUnknown(r, 0, s[..DecodeUnknown(r, s, off).len]);
    } else {
      ChunkShrinks(r, num - 1, s, at, off);
      NumberShrinks(r, num - 1, s, at);
    }
  }

  lemma ChunkShrinks(r: Record, k: nat, s: seq<byte>, at: nat, off: nat)
    requires k < |r.fields| && 1 <= at <= |s|
    ensures var st := DecodeChunk(r, k, s, at, off); st.err.None? ==> SizeFrom(st.rec, 0) <= SizeFrom(r, 0) + st.len
  {
    var p := ReadChunk(s, at, off);
    if p.err.None? {
      ShortestSize(s[at..], |p.bytes|);
      SizeUpdate(r, 0, k, Chunk(p.bytes));
    }
  }

  lemma NumberShrinks(r: Record, k: nat, s: seq<byte>, at: nat)
    requires k < |r.fields| && 1 <= at <= |s|
    ensures var st := DecodeNumber(r, k, s, at); st.err.None? ==> SizeFrom(st.rec, 0) <= SizeFrom(r, 0) + st.len
  {
    var x := Varint.Decode(s[at..], 0);
    if x.err.None? {
      ShortestSize(s[at..], x.value % TWO_32);
      SizeUpdate(r, 0, k, Number(x.value % TWO_32));
    }
  }

  lemma ShortestSize(s: seq<byte>, v: nat)
    requires Varint.Decode(s, 0).err.None? && v <= Varint.Decode(s, 0).value
    ensures BytesSize(v) <= 1 + v + Varint.Decode(s, 0).len && NumberSize(v) <= 1 + Varint.Decode(s, 0).len
  {
    Varint.Shortest(s, 0, v);
    Varint.SovIsLength(v);
  }

  lemma DecoderShrinks()
    ensures Shrinks(DecodeRecord)
  {
    forall r, s, off
      ensures ShrinksAt(DecodeRecord, r, s, off)
    {
      if Typed(r) && s != [] {
        RecordShrinks(r, s, off);
      }
    }
  }

  /** Marshal after Unmarshal is a canonical form: never longer than the accepted input, it decodes to
      the same message, and its unknown bytes decode to themselves. */
  lemma Canonical(r: Record, b: seq<byte>)
    requires Typed(r) && |b| < TWO_63
    requires Unmarshal(Empty(r), b).err.None?
    ensures var m := Unmarshal(Empty(r), b).rec;
            && Typed(m)
            && |Encoded(m)| <= |b|
            && Unmarshal(Empty(r), Encoded(m)) == Outcome(m, None)
            && Unmarshal(Empty(r), m.unknown) == Outcome(Empty(r).(unknown := m.unknown), None)
  {
    DecoderReads();
    DecoderKeeps();
    ChopperLocal();
    DecoderShrinks();
    CanonicalRun(DecodeRecord, UnknownLen, r, b);
  }
}
