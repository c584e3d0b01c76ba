// The wire format of the generated Protocol Buffers code (Protocol Buffers encoding, "Message Structure").
// The generated code of every message of the repository is the same text with the field list changed;
// MessagePb and AuthnPb tie the concrete methods to these functions.
module Wire {
  import opened Bits
  import opened Common
  import opened Varint
  import opened Records

  // ----- Skipping an unknown record -----------------------------------------------------------------

  /** Where one loop turn of skipMessage leaves the index and the group depth. */
  datatype Item = Item(iNdEx: nat, depth: nat, err: Option<Error>)

  datatype Skipped = Skipped(len: nat, err: Option<Error>)

  /** What follows a tag: index j is just behind it. */
  function SkipPayload(s: seq<byte>, j: nat, wireType: nat, depth: nat): (r: Item)
    requires j <= |s|
    ensures r.err.None? ==> r.iNdEx >= j
  {
    match wireType
    case 0 =>
      var v := Varint.Decode(s[j..], 0);
      Item(j + v.len, depth, v.err)
    case 1 => Item(j + 8, depth, None)
    case 2 =>
      var l := Varint.Decode(s[j..], 0);
      if l.err.Some? then Item(0, 0, l.err)
      else if l.value % TWO_64 >= TWO_63 then Item(0, 0, Some(InvalidLength))
      else Item(j + l.len + l.value % TWO_64, depth, None)
    case 3 => Item(j, depth + 1, None)
    case 4 => if depth == 0 then Item(0, 0, Some(UnexpectedEndOfGroup)) else Item(j, depth - 1, None)
    case 5 => Item(j + 4, depth, None)
    case _ => Item(0, 0, Some(IllegalWireType))
  }

  /** One turn of the skip loop: read a tag at index i and pass over its payload. */
  function SkipItem(s: seq<byte>, i: nat, depth: nat): (r: Item)
    requires i < |s|
    ensures r.err.None? ==> r.iNdEx > i
  {
    var tag := Varint.Decode(s[i..], 0);
    if tag.err.Some? then Item(0, 0, tag.err)
    else SkipPayload(s, i + tag.len, tag.value % TWO_64 % 8, depth)
  }

  /** The skip loop from index i inside `depth` open groups. */
  function SkipFrom(s: seq<byte>, i: nat, depth: nat): (r: Skipped)
    ensures r.err.None? ==> r.len > i
    decreases if i < |s| then |s| - i else 0
  {
    if i >= |s| then Skipped(0, Some(UnexpectedEOF)) else
    var it := SkipItem(s, i, depth);
    if it.err.Some? then Skipped(0, it.err)
    else if it.iNdEx >= TWO_63 then Skipped(0, Some(InvalidLength))
    else if it.depth == 0 then Skipped(it.iNdEx, None)
    else SkipFrom(s, it.iNdEx, it.depth)
  }

  function Skip(s: seq<byte>): Skipped {
    SkipFrom(s, 0, 0)
  }

  lemma SubAgree(s: seq<byte>, s': seq<byte>, n: nat, i: nat, k: nat)
    requires i + k <= n <= |s| && n <= |s'| && s[..n] == s'[..n]
    ensures s[i..][..k] == s'[i..][..k]
  {
    assert s[i..][..k] == s[..n][i..i + k];
    assert s'[i..][..k] == s'[..n][i..i + k];
  }

  lemma PayloadLocal(s: seq<byte>, s': seq<byte>, n: nat, j: nat, wireType: nat, depth: nat)
    requires j <= n <= |s| && n <= |s'| && s[..n] == s'[..n]
    requires var it := SkipPayload(s, j, wireType, depth); it.err.None? && it.iNdEx <= n
    ensures SkipPayload(s', j, wireType, depth) == SkipPayload(s, j, wireType, depth)
  {
    if wireType == 0 || wireType == 2 {
      SubAgree(s, s', n, j, Varint.Decode(s[j..], 0).len);
      Varint.Local(s[j..], s'[j..], 0);
    }
  }

  lemma ItemLocal(s: seq<byte>, s': seq<byte>, n: nat, i: nat, depth: nat)
    requires i < |s| && n <= |s| && n <= |s'| && s[..n] == s'[..n]
    requires var it := SkipItem(s, i, depth); it.err.None? && it.iNdEx <= n
    ensures i < |s'| && SkipItem(s', i, depth) == SkipItem(s, i, depth)
  {
    var tag := Varint.Decode(s[i..], 0);
    SubAgree(s, s', n, i, tag.len);
    Varint.Local(s[i..], s'[i..], 0);
    PayloadLocal(s, s', n, i + tag.len, tag.value % TWO_64 % 8, depth);
  }

  /** The skipper looks only at the bytes it passes over. */
  lemma {:induction false} SkipLocal(s: seq<byte>, s': seq<byte>, i: nat, depth: nat)
    requires var r := SkipFrom(s, i, depth);
             r.err.None? && r.len <= |s| && r.len <= |s'| && s[..r.len] == s'[..r.len]
    ensures SkipFrom(s', i, depth) == SkipFrom(s, i, depth)
    decreases if i < |s| then |s| - i else 0
  {
    var n := SkipFrom(s, i, depth).len;
    var it := SkipItem(s, i, depth);
    ItemLocal(s, s', n, i, depth);
    if it.depth != 0 {
      SkipLocal(s, s', it.iNdEx, it.depth);
    }
  }

  /** The switch over the wire type. */
  method SkipBody(dAtA: seq<byte>, j: nat, wireType: nat, open: nat)
    returns (iNdEx: nat, depth: nat, err: Option<Error>)
    requires j <= |dAtA|
    ensures var it := SkipPayload(dAtA, j, wireType, open);
            err == it.err && (err.None? ==> it == Item(iNdEx, depth, None))
  {
    Pow2Widths();
    iNdEx, depth, err := j, open, None;
    match wireType {
      case 0 =>
        var v;
        v, iNdEx, err := Varint.DecodeVarint(dAtA, iNdEx, 64);
      case 1 =>
        iNdEx := iNdEx + 8;
      case 2 =>
        var length;
        length, iNdEx, err := Varint.DecodeVarint(dAtA, iNdEx, 64);
        if err.Some? {
          return;
        }
        if length >= TWO_63 {
          err := Some(InvalidLength);
          return;
        }
        iNdEx := iNdEx + length;
      case 3 =>
        depth := depth + 1;
      case 4 =>
        if depth == 0 {
          err := Some(UnexpectedEndOfGroup);
          return;
        }
        depth := depth - 1;
      case 5 =>
        iNdEx := iNdEx + 4;
      case _ =>
        err := Some(IllegalWireType);
    }
  }

  /** One turn of the skip loop: the tag at index i and what it says to pass over. */
  method SkipTurn(dAtA: seq<byte>, i: nat, open: nat) returns (iNdEx: nat, depth: nat, err: Option<Error>)
    requires i < |dAtA|
    ensures var it := SkipItem(dAtA, i, open);
            err == it.err && (err.None? ==> it == Item(iNdEx, depth, None))
  {
    Pow2Widths();
    depth := open;
    var wire;
    wire, iNdEx, err := Varint.DecodeVarint(dAtA, i, 64);
    if err.None? {
      iNdEx, depth, err := SkipBody(dAtA, iNdEx, wire % 8, depth);
    }
  }

  /** skipMessage / skipAuthn. */
  method SkipRecord(dAtA: seq<byte>) returns (n: nat, err: Option<Error>)
    ensures Skipped(n, err) == Skip(dAtA)
  {
    var l := |dAtA|;
    var iNdEx, depth := 0, 0;
    while iNdEx < l
      invariant Skip(dAtA) == SkipFrom(dAtA, iNdEx, depth)
      decreases l - iNdEx
    {
      iNdEx, depth, err := SkipTurn(dAtA, iNdEx, depth);
      if err.Some? {
        return 0, err;
      }
      if iNdEx >= TWO_63 {
        return 0, Some(InvalidLength);
      }
      if depth == 0 {
        return iNdEx, None;
      }
    }
    return 0, Some(UnexpectedEOF);
  }

  // ----- Decoding a record --------------------------------------------------------------------------

  /** Conversion of a uint64 to int32. */
  function ToInt32(x: nat): int {
    var low := x % TWO_32;
    if low < 0x8000_0000 then low else low - TWO_32
  }

  /** One turn of the Unmarshal loop on the rest `s` of a buffer, found at index `off`. */
  function DecodeRecord(r: Record, s: seq<byte>, off: nat): (st: Step)
    ensures |st.rec.fields| == |r.fields|
    ensures st.err.None? ==> 1 <= st.len <= |s|
  {
    var tag := Varint.Decode(s, 0);
    if tag.err.Some? then Step(r, 0, tag.err) else
    var wire := tag.value % TWO_64;
    var num := ToInt32(wire / 8);
    if wire % 8 == 4 then Step(r, 0, Some(EndGroupForNonGroup))
    else if num <= 0 then Step(r, 0, Some(IllegalTag))
    else DecodeField(r, num, wire % 8, s, tag.len, off)
  }

  /** The switch over the field number; the tag takes the first `at` bytes. */
  function DecodeField(r: Record, num: nat, wireType: nat, s: seq<byte>, at: nat, off: nat): (st: Step)
    requires num > 0 && 1 <= at <= |s|
    ensures |st.rec.fields| == |r.fields|
    ensures st.err.None? ==> 1 <= st.len <= |s|
  {
    if num > |r.fields| then DecodeUnknown(r, s, off)
    else if r.fields[num - 1].Chunk? then
      if wireType != 2 then Step(r, 0, Some(WrongWireType)) else DecodeChunk(r, num - 1, s, at, off)
    else
      if wireType != 0 then Step(r, 0, Some(WrongWireType)) else DecodeNumber(r, num - 1, s, at)
  }

  datatype Piece = Piece(bytes: seq<byte>, len: nat, err: Option<Error>)

  /** A length-prefixed string whose length starts at index `at` of `s`. */
  function ReadChunk(s: seq<byte>, at: nat, off: nat): (p: Piece)
    requires 1 <= at <= |s|
    ensures p.err.None? ==> at <= p.len <= |s|
  {
    var l := Varint.Decode(s[at..], 0);
    if l.err.Some? then Piece([], 0, l.err) else
    var n, pos := l.value % TWO_64, at + l.len;
    if n >= TWO_63 || off + pos + n >= TWO_63 then Piece([], 0, Some(InvalidLength))
    else if pos + n > |s| then Piece([], 0, Some(UnexpectedEOF))
    else Piece(s[pos..pos + n], pos + n, None)
  }

  /** A string or bytes field: set only when it is complete. */
  function DecodeChunk(r: Record, k: nat, s: seq<byte>, at: nat, off: nat): (st: Step)
    requires k < |r.fields| && 1 <= at <= |s|
    ensures |st.rec.fields| == |r.fields|
    ensures st.err.None? ==> at <= st.len <= |s|
  {
    var p := ReadChunk(s, at, off);
    if p.err.Some? then Step(r, 0, p.err) else Step(r.(fields := r.fields[k := Chunk(p.bytes)]), p.len, None)
  }

  /** A uint32 field, accumulated in place: also an unfinished number leaves its low 32 bits. */
  function DecodeNumber(r: Record, k: nat, s: seq<byte>, at: nat): (st: Step)
    requires k < |r.fields| && 1 <= at <= |s|
    ensures |st.rec.fields| == |r.fields|
    ensures st.err.None? ==> at <= st.len <= |s|
  {
    var x := Varint.Decode(s[at..], 0);
    Step(r.(fields := r.fields[k := Number(x.value % TWO_32)]), at + x.len, x.err)
  }

  function DecodeUnknown(r: Record, s: seq<byte>, off: nat): (st: Step)
    ensures |st.rec.fields| == |r.fields|
    ensures st.err.None? ==> 1 <= st.len <= |s|
  {
    var sk := Skip(s);
    if sk.err.Some? then Step(r, 0, sk.err)
    else if off + sk.len >= TWO_63 then Step(r, 0, Some(InvalidLength))
    else if sk.len > |s| then Step(r, 0, Some(UnexpectedEOF))
    else Step(r.(unknown := r.unknown + s[..sk.len]), sk.len, None)
  }

  /** Length of the record at the front of u if a message with n declared fields keeps it as unknown. */
  function UnknownLen(n: nat, u: seq<byte>): (k: nat)
    ensures k <= |u|
  {
    var tag := Varint.Decode(u, 0);
    var wire := tag.value % TWO_64;
    var sk := Skip(u);
    if tag.err.None? && wire % 8 != 4 && ToInt32(wire / 8) > n && sk.err.None? && sk.len <= |u| then sk.len else 0
  }

  /** Unmarshal into a message that already holds `r`. */
  ghost function Unmarshal(r: Record, s: seq<byte>): Outcome {
    Run(DecodeRecord, r, s, 0)
  }

  // ----- Pieces shared by the generated methods -----------------------------------------------------

  /** The tag at the front of a record: field number and wire type, or an error. */
  method ReadTag(dAtA: seq<byte>, start: nat) returns (num: int, wireType: nat, iNdEx: nat, err: Option<Error>)
    requires start < |dAtA|
    ensures var tag := Varint.Decode(dAtA[start..], 0);
            && (tag.err.Some? ==> err == tag.err)
            && (tag.err.None? ==>
                  && iNdEx == start + tag.len
                  && num == ToInt32(tag.value % TWO_64 / 8) && wireType == tag.value % TWO_64 % 8
                  && err == if wireType == 4 then Some(EndGroupForNonGroup)
                            else if num <= 0 then Some(IllegalTag) else None)
  {
    Pow2Widths();
    var wire;
    wire, iNdEx, err := Varint.DecodeVarint(dAtA, start, 64);
    num, wireType := 0, 0;
    if err.Some? {
      return;
    }
    num, wireType := ToInt32(wire / 8), wire % 8;
    if wireType == 4 {
      err := Some(EndGroupForNonGroup);
    } else if num <= 0 {
      err := Some(IllegalTag);
    }
  }

  lemma SliceWithin(s: seq<byte>, at: nat, lo: nat, hi: nat)
    requires at <= lo <= hi <= |s|
    ensures s[at..][lo - at..hi - at] == s[lo..hi]
  {
  }

  /** The body of a string or bytes field: its length, the checks on it, and the bytes. */
  method ReadBytes(dAtA: seq<byte>, start: nat, preIndex: nat)
    returns (bytes: seq<byte>, iNdEx: nat, err: Option<Error>)
    requires preIndex < start <= |dAtA|
    ensures var p := ReadChunk(dAtA[preIndex..], start - preIndex, preIndex);
            err == p.err && (err.None? ==> bytes == p.bytes && iNdEx == preIndex + p.len)
  {
    Pow2Widths();
    var s := dAtA[preIndex..];
    assert s[start - preIndex..] == dAtA[start..];
    var length;
    bytes := [];
    length, iNdEx, err := Varint.DecodeVarint(dAtA, start, 64);
    if err.Some? {
      return;
    }
    if length >= TWO_63 {
      err := Some(InvalidLength);
      return;
    }
    var postIndex := iNdEx + length;
    if postIndex >= TWO_63 {
      err := Some(InvalidLength);
      return;
    }
    if postIndex > |dAtA| {
      err := Some(UnexpectedEOF);
      return;
    }
    bytes := dAtA[iNdEx..postIndex];
    SliceWithin(dAtA, preIndex, iNdEx, postIndex);
    iNdEx := postIndex;
  }

  /** The body of a uint32 field: the value is truncated as it is accumulated. */
  method ReadNumber(dAtA: seq<byte>, start: nat, preIndex: nat) returns (n: nat, iNdEx: nat, err: Option<Error>)
    requires preIndex < start <= |dAtA|
    ensures var x := Varint.Decode(dAtA[preIndex..][start - preIndex..], 0);
            n == x.value % TWO_32 < TWO_32 && err == x.err && (err.None? ==> iNdEx == start + x.len)
  {
    Pow2Widths();
    assert dAtA[preIndex..][start - preIndex..] == dAtA[start..];
    n, iNdEx, err := Varint.DecodeVarint(dAtA, start, 32);
  }

  /** The default branch: skip the record from its first byte and hand out its bytes. */
  method ReadUnknown(dAtA: seq<byte>, preIndex: nat) returns (bytes: seq<byte>, iNdEx: nat, err: Option<Error>)
    requires preIndex < |dAtA|
    ensures forall r :: var st := DecodeUnknown(r, dAtA[preIndex..], preIndex);
              err == st.err && (err.None? ==> st.rec == r.(unknown := r.unknown + bytes) && iNdEx == preIndex + st.len)
  {
    bytes, iNdEx := [], preIndex;
    var skippy;
    skippy, err := SkipRecord(dAtA[preIndex..]);
    if err.Some? {
      return;
    }
    if preIndex + skippy >= TWO_63 {
      err := Some(InvalidLength);
      return;
    }
    if preIndex + skippy > |dAtA| {
      err := Some(UnexpectedEOF);
      return;
    }
    bytes := dAtA[preIndex..preIndex + skippy];
    assert bytes == dAtA[preIndex..][..skippy];
    iNdEx := preIndex + skippy;
  }

  /** One `if len(x) > 0` block of MarshalToSizedBuffer: content, then its length, then the tag, each
      written in front of what is already there. */
  method PutBytes(dAtA: array<byte>, end: nat, k: nat, b: seq<byte>) returns (i: nat)
    requires k < 15 && end <= dAtA.Length < TWO_63
    requires |EncodeField(k, Chunk(b))| <= end
    modifies dAtA
    ensures i == end - |EncodeField(k, Chunk(b))|
    ensures dAtA[..i] == old(dAtA[..i])
    ensures dAtA[i..] == EncodeField(k, Chunk(b)) + old(dAtA[end..])
  {
    i := end;
    if |b| > 0 {
      i := i - |b|;
      ghost var s0, head := dAtA[..], [8 * (k + 1) + 2] + Varint.Encode(|b|);
      assert EncodeField(k, Chunk(b)) == head + b && |head| == 1 + |Varint.Encode(|b|)|;
      CopyInto(dAtA, i, b);
      ghost var s1, i1 := dAtA[..], i;
      assert s1[..i1] == s0[..i1] && s1[i1..] == b + s0[end..];
      i := PutHeader(dAtA, i, 8 * (k + 1) + 2, |b|);
      ghost var s2 := dAtA[..];
      assert s2[..i] == s1[..i] && s2[i..] == head + s1[i1..];
      InFront(s0, s1, s2, i, i1, end, head, b);
    }
  }

  /** Two writes, each just in front of the one before. */
  lemma InFront(s0: seq<byte>, s1: seq<byte>, s2: seq<byte>, i2: nat, i1: nat, end: nat,
                head: seq<byte>, body: seq<byte>)
    requires i2 <= i1 <= end <= |s0| && |s1| == |s2| == |s0|
    requires s1[..i1] == s0[..i1] && s1[i1..] == body + s0[end..]
    requires s2[..i2] == s1[..i2] && s2[i2..] == head + s1[i1..]
    ensures s2[..i2] == s0[..i2] && s2[i2..] == head + body + s0[end..]
  {
    assert s0[..i2] == s0[..i1][..i2];
    assert s1[..i2] == s1[..i1][..i2];
  }

  /** A length or number and the tag in front of it. */
  method PutHeader(dAtA: array<byte>, end: nat, tag: byte, n: uint64) returns (i: nat)
    requires 1 + |Varint.Encode(n)| <= end <= dAtA.Length
    modifies dAtA
    ensures i == end - 1 - |Varint.Encode(n)|
    ensures dAtA[..i] == old(dAtA[..i])
    ensures dAtA[i..] == [tag] + Varint.Encode(n) + old(dAtA[end..])
  {
    Varint.SovIsLength(n);
    i := Varint.EncodeVarint(dAtA, end, n);
    ghost var before := old(dAtA[..i]);
    i := i - 1;
    assert dAtA[..i] == before[..i];
    dAtA[i] := tag;
  }

  /** A nonzero uint32 field. */
  method PutNumber(dAtA: array<byte>, end: nat, k: nat, n: nat) returns (i: nat)
    requires k < 15 && end <= dAtA.Length && n < TWO_32
    requires |EncodeField(k, Number(n))| <= end
    modifies dAtA
    ensures i == end - |EncodeField(k, Number(n))|
    ensures dAtA[..i] == old(dAtA[..i])
    ensures dAtA[i..] == EncodeField(k, Number(n)) + old(dAtA[end..])
  {
    i := end;
    if n != 0 {
      i := PutHeader(dAtA, i, 8 * (k + 1), n);
    }
  }

  /** copy(dAtA[i:], b) with room for all of b. */
  method CopyInto(dAtA: array<byte>, i: nat, b: seq<byte>)
    requires i + |b| <= dAtA.Length
    modifies dAtA
    ensures dAtA[..i] == old(dAtA[..i]) && dAtA[i..] == b + old(dAtA[i + |b|..])
  {
    forall j | 0 <= j < |b| {
      dAtA[i + j] := b[j];
    }
    assert forall j :: 0 <= j < |b| ==> dAtA[i + j] == b[j];
  }

  /** suf[j] is the encoding of r from field j on, for j >= k. */
  ghost predicate Suffixes(r: Record, suf: seq<seq<byte>>, k: nat)
    requires k <= |r.fields| <= 15 && |suf| == |r.fields| + 1
    decreases |r.fields| - k
  {
    k == |r.fields| || (suf[k] == EncodeField(k, r.fields[k]) + suf[k + 1] && Suffixes(r, suf, k + 1))
  }

  lemma {:induction false} SuffixAt(r: Record, suf: seq<seq<byte>>, k: nat, j: nat)
    requires k <= j < |r.fields| <= 15 && |suf| == |r.fields| + 1 && Suffixes(r, suf, k)
    ensures suf[j] == EncodeField(j, r.fields[j]) + suf[j + 1]
    decreases j - k
  {
    if k < j {
      SuffixAt(r, suf, k + 1, j);
    }
  }

  lemma {:induction false} SuffixesFrom(r: Record, suf: seq<seq<byte>>, k: nat)
    requires k <= |r.fields| <= 15 && |suf| == |r.fields| + 1
    requires forall j :: 0 <= j <= |r.fields| ==> suf[j] == EncodeFrom(r, j)
    ensures Suffixes(r, suf, k)
    decreases |r.fields| - k
  {
    if k < |r.fields| {
      SuffixesFrom(r, suf, k + 1);
    }
  }

  lemma SuffixesOf(r: Record) returns (suf: seq<seq<byte>>)
    requires |r.fields| <= 15
    ensures |suf| == |r.fields| + 1 && suf[0] == Encoded(r) && suf[|r.fields|] == r.unknown
    ensures forall j :: 0 <= j <= |r.fields| ==> |suf[j]| <= |suf[0]|
    ensures Suffixes(r, suf, 0)
  {
    suf := seq(|r.fields| + 1, j requires 0 <= j <= |r.fields| => EncodeFrom(r, j));
    SuffixLengths(r);
    SuffixesFrom(r, suf, 0);
  }

  /** PutBytes in terms of the message that is being written: field k, whose tag the caller gives, goes in front of
      the encoding of the later fields. */
  method PutField(dAtA: array<byte>, end: nat, k: nat, tag: byte, b: seq<byte>,
                  ghost r: Record, ghost suf: seq<seq<byte>>, ghost base: seq<byte>)
    returns (i: nat)
    requires k < |r.fields| <= 15 && tag == 8 * (k + 1) + 2 && r.fields[k] == Chunk(b)
    requires |suf| == |r.fields| + 1 && Suffixes(r, suf, 0)
    requires dAtA.Length < TWO_63 && |suf[k]| <= dAtA.Length == |base|
    requires end == dAtA.Length - |suf[k + 1]| && dAtA[..] == base[..end] + suf[k + 1]
    modifies dAtA
    ensures i == dAtA.Length - |suf[k]| && dAtA[..] == base[..i] + suf[k]
  {
    SuffixAt(r, suf, 0, k);
    ghost var s0 := dAtA[..];
    assert dAtA[end..] == suf[k + 1] && dAtA[..end] == base[..end];
    i := PutBytes(dAtA, end, k, b);
    assert dAtA[..i] == s0[..end][..i] == base[..i];
    assert dAtA[..] == dAtA[..i] + dAtA[i..];
  }

  /** The same for a uint32 field. */
  method PutNumberField(dAtA: array<byte>, end: nat, k: nat, tag: byte, n: nat,
                        ghost r: Record, ghost suf: seq<seq<byte>>, ghost base: seq<byte>)
    returns (i: nat)
    requires k < |r.fields| <= 15 && tag == 8 * (k + 1) && r.fields[k] == Number(n) && n < TWO_32
    requires |suf| == |r.fields| + 1 && Suffixes(r, suf, 0)
    requires |suf[k]| <= dAtA.Length == |base|
    requires end == dAtA.Length - |suf[k + 1]| && dAtA[..] == base[..end] + suf[k + 1]
    modifies dAtA
    ensures i == dAtA.Length - |suf[k]| && dAtA[..] == base[..i] + suf[k]
  {
    SuffixAt(r, suf, 0, k);
    ghost var s0 := dAtA[..];
    assert dAtA[end..] == suf[k + 1] && dAtA[..end] == base[..end];
    i := PutNumber(dAtA, end, k, n);
    assert dAtA[..i] == s0[..end][..i] == base[..i];
    assert dAtA[..] == dAtA[..i] + dAtA[i..];
  }

  /** One turn of that loop. */
  lemma LoopStep(step: Decoder, r: Record, dAtA: seq<byte>, iNdEx: nat)
    requires Advances(step) && iNdEx < |dAtA|
    ensures var st := step(r, dAtA[iNdEx..], iNdEx);
            if st.err.Some? then Run(step, r, dAtA[iNdEx..], iNdEx) == Outcome(st.rec, st.err)
            else
              && iNdEx < iNdEx + st.len <= |dAtA|
              && Run(step, r, dAtA[iNdEx..], iNdEx)
              == Run(step, st.rec, dAtA[iNdEx + st.len..], iNdEx + st.len)
  {
    var st := step(r, dAtA[iNdEx..], iNdEx);
    assert st.err.None? ==> dAtA[iNdEx..][st.len..] == dAtA[iNdEx + st.len..];
  }

  /** step is the record decoder. */
  ghost predicate IsDecoder(step: Decoder) {
    forall r, s, off {:trigger DecodeRecord(r, s, off)} :: step(r, s, off) == DecodeRecord(r, s, off)
  }

  /** The loop of Unmarshal takes the records one by one. */
  lemma LoopDecoder(r: Record, dAtA: seq<byte>) returns (step: Decoder, whole: Outcome)
    ensures Advances(step) && whole == Unmarshal(r, dAtA) == Run(step, r, dAtA[0..], 0)
    ensures IsDecoder(step)
  {
    step, whole := DecodeRecord, Unmarshal(r, dAtA);
    assert dAtA[0..] == dAtA;
  }
}
