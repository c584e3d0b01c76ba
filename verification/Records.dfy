// Message values of the generated Protocol Buffers code, and the loop that decodes them, with the
// decoding of one record left as a parameter. The theorems here hold for every way of decoding a
// record that has the stated local properties; WireLaws shows that the generated code's has them.
module Records {
  import opened Bits
  import opened Common
  import opened Varint

  datatype Value = Chunk(bytes: seq<byte>) | Number(n: nat)

  /** A message: its declared fields in field-number order and the bytes of the unknown records. The
      constructor of each field is its declared type (string or bytes, or uint32). */
  datatype Record = Record(fields: seq<Value>, unknown: seq<byte>)

  predicate Typed(r: Record) {
    |r.fields| <= 15 && forall k :: 0 <= k < |r.fields| && r.fields[k].Number? ==> r.fields[k].n < TWO_32
  }

  function Zero(v: Value): Value {
    if v.Chunk? then Chunk([]) else Number(0)
  }

  /** The empty message of the same type: fields from index k on are zero, nothing unknown. */
  function Prefix(r: Record, k: nat): (p: Record)
    requires k <= |r.fields|
    ensures |p.fields| == |r.fields|
  {
    Record(seq(|r.fields|, i requires 0 <= i < |r.fields| => if i < k then r.fields[i] else Zero(r.fields[i])), [])
  }

  function Empty(r: Record): Record {
    Prefix(r, 0)
  }

  /** One field with number k + 1; zero values are omitted. */
  function EncodeField(k: nat, v: Value): (s: seq<byte>)
    requires k < 15
  {
    match v
    case Chunk(b) => if |b| == 0 then [] else [8 * (k + 1) + 2] + Varint.Encode(|b|) + b
    case Number(n) => if n == 0 then [] else [8 * (k + 1)] + Varint.Encode(n)
  }

  /** The fields from index k on, then the unknown bytes. */
  function EncodeFrom(r: Record, k: nat): (s: seq<byte>)
    requires k <= |r.fields| <= 15
    decreases |r.fields| - k
  {
    if k == |r.fields| then r.unknown else EncodeField(k, r.fields[k]) + EncodeFrom(r, k + 1)
  }

  function Encoded(r: Record): seq<byte>
    requires |r.fields| <= 15
  {
    EncodeFrom(r, 0)
  }

  // ----- The decoding loop --------------------------------------------------------------------------

  /** What one turn of the loop does to the message, how many bytes it takes, and its error. */
  datatype Step = Step(rec: Record, len: nat, err: Option<Error>)

  datatype Outcome = Outcome(rec: Record, err: Option<Error>)

  /** Decodes the record at the front of the rest of a buffer, found at the given index. */
  type Decoder = (Record, seq<byte>, nat) -> Step

  /** Length of the record at the front, if a decoder with n declared fields skips and keeps it; else 0. */
  type Chopper = (nat, seq<byte>) -> nat

  ghost predicate Advances(step: Decoder) {
    forall r: Record, s: seq<byte>, off: nat :: s != [] && step(r, s, off).err.None? ==> 1 <= step(r, s, off).len <= |s|
  }

  /** The Unmarshal loop: fields decoded before an error stay set. */
  ghost function Run(step: Decoder, r: Record, s: seq<byte>, off: nat): (o: Outcome)
    requires Advances(step)
    decreases |s|
  {
    if s == [] then Outcome(r, None) else
    var st := step(r, s, off);
    if st.err.Some? then Outcome(st.rec, st.err) else Run(step, st.rec, s[st.len..], off + st.len)
  }

  /** How many bytes the records take that the loop accepts before it stops. */
  ghost function Consumed(step: Decoder, r: Record, s: seq<byte>, off: nat): (n: nat)
    requires Advances(step)
    decreases |s|
  {
    if s == [] || step(r, s, off).err.Some? then 0 else
    var st := step(r, s, off);
    st.len + Consumed(step, st.rec, s[st.len..], off + st.len)
  }

  /** The loop stops within the input, and without an error if and only if it has taken all of it. */
  lemma {:induction false} RunConsumes(step: Decoder, r: Record, s: seq<byte>, off: nat)
    requires Advances(step)
    ensures Consumed(step, r, s, off) <= |s|
    ensures Run(step, r, s, off).err.None? <==> Consumed(step, r, s, off) == |s|
    decreases |s|
  {
    if s != [] {
      var st := step(r, s, off);
      if st.err.None? {
        RunConsumes(step, st.rec, s[st.len..], off + st.len);
      }
    }
  }

  // ----- Concatenation ------------------------------------------------------------------------------

  /** Bytes after an accepted record do not change how it is read. */
  ghost predicate LocalAt(step: Decoder, r: Record, s: seq<byte>, t: seq<byte>, off: nat) {
    s != [] && step(r, s, off).err.None? ==> step(r, s + t, off) == step(r, s, off)
  }

  ghost predicate LocalStep(step: Decoder) {
    forall r, s, t, off :: LocalAt(step, r, s, t, off)
  }

  /** Where a record lies decides only which error is reported. */
  ghost predicate PositionFree(step: Decoder) {
    forall r, s, off, off' :: PositionFreeAt(step, r, s, off, off')
  }

  ghost predicate PositionFreeAt(step: Decoder, r: Record, s: seq<byte>, off: nat, off': nat) {
    s != [] && off + |s| < TWO_63 && off' + |s| < TWO_63 ==>
      var st, st' := step(r, s, off), step(r, s, off');
      st.rec == st'.rec && (st.err.None? <==> st'.err.None?) && (st.err.None? ==> st.len == st'.len)
  }

  lemma RunStep(step: Decoder, r: Record, s: seq<byte>, off: nat)
    requires Advances(step) && s != [] && step(r, s, off).err.None?
    ensures var st := step(r, s, off);
            1 <= st.len <= |s| && Run(step, r, s, off) == Run(step, st.rec, s[st.len..], off + st.len)
  {
  }

  lemma DropConcat(a: seq<byte>, b: seq<byte>, n: nat)
    requires n <= |a|
    ensures (a + b)[n..] == a[n..] + b
  {
  }

  /** One record of the first part, followed by the second part. */
  lemma RunStepBoth(step: Decoder, r: Record, b1: seq<byte>, b2: seq<byte>, off: nat)
    requires Advances(step) && LocalAt(step, r, b1, b2, off) && b1 != [] && step(r, b1, off).err.None?
    ensures var st := step(r, b1, off);
            && 1 <= st.len <= |b1|
            && Run(step, r, b1, off) == Run(step, st.rec, b1[st.len..], off + st.len)
            && Run(step, r, b1 + b2, off) == Run(step, st.rec, b1[st.len..] + b2, off + st.len)
  {
    RunStep(step, r, b1, off);
    RunStep(step, r, b1 + b2, off);
    DropConcat(b1, b2, step(r, b1, off).len);
  }

  /** Decoding a concatenation is decoding the second part into the result of the first. */
  lemma {:induction false} RunConcatenation(step: Decoder, r: Record, b1: seq<byte>, b2: seq<byte>, off: nat)
    requires Advances(step) && LocalStep(step)
    requires Run(step, r, b1, off).err.None?
    ensures Run(step, r, b1 + b2, off) == Run(step, Run(step, r, b1, off).rec, b2, off + |b1|)
    decreases |b1|
  {
    if b1 == [] {
      assert b1 + b2 == b2;
    } else {
      var st := step(r, b1, off);
      assert LocalAt(step, r, b1, b2, off);
      RunStepBoth(step, r, b1, b2, off);
      RunConcatenation(step, st.rec, b1[st.len..], b2, off + st.len);
    }
  }

  lemma {:induction false} RunPositionFree(step: Decoder, r: Record, s: seq<byte>, off: nat, off': nat)
    requires Advances(step) && PositionFree(step)
    requires off + |s| < TWO_63 && off' + |s| < TWO_63
    ensures Run(step, r, s, off).rec == Run(step, r, s, off').rec
    ensures Run(step, r, s, off).err.None? <==> Run(step, r, s, off').err.None?
    decreases |s|
  {
    if s != [] {
      var st := step(r, s, off);
      assert PositionFreeAt(step, r, s, off, off');
      if st.err.None? {
        RunPositionFree(step, st.rec, s[st.len..], off + st.len, off' + st.len);
      }
    }
  }

  lemma RunLastOneWins(step: Decoder, r: Record, b1: seq<byte>, b2: seq<byte>)
    requires Advances(step) && LocalStep(step) && PositionFree(step)
    requires |b1| + |b2| < TWO_63 && Run(step, r, b1, 0).err.None?
    ensures var whole, after := Run(step, r, b1 + b2, 0), Run(step, Run(step, r, b1, 0).rec, b2, 0);
            whole.rec == after.rec && (whole.err.None? <==> after.err.None?)
  {
    RunConcatenation(step, r, b1, b2, 0);
    RunPositionFree(step, Run(step, r, b1, 0).rec, b2, |b1|, 0);
  }

  // ----- Unknown records ----------------------------------------------------------------------------

  ghost predicate ChopLocalAt(chop: Chopper, n: nat, u: seq<byte>, t: seq<byte>) {
    chop(n, u) > 0 ==> chop(n, u) <= |u| && chop(n, u[..chop(n, u)] + t) == chop(n, u)
  }

  ghost predicate ChopLocal(chop: Chopper) {
    forall n, u, t :: ChopLocalAt(chop, n, u, t)
  }

  /** A concatenation of records that a decoder with n declared fields skips and keeps. */
  ghost predicate IsUnknown(chop: Chopper, n: nat, u: seq<byte>)
    decreases |u|
  {
    u == [] || (0 < chop(n, u) <= |u| && IsUnknown(chop, n, u[chop(n, u)..]))
  }

  /** A decoder appends to the unknown bytes exactly the records that the chopper finds. */
  ghost predicate Keeps(step: Decoder, chop: Chopper) {
    forall r, s, off :: KeepsAt(step, chop, r, s, off)
  }

  ghost predicate KeepsAt(step: Decoder, chop: Chopper, r: Record, s: seq<byte>, off: nat) {
    s != [] ==>
      var st, c := step(r, s, off), chop(|r.fields|, s);
      && c <= |s|
      && (c > 0 && off + c < TWO_63 ==> st == Step(r.(unknown := r.unknown + s[..c]), c, None))
      && (c == 0 || off + c >= TWO_63 ==> st.rec.unknown == r.unknown)
      && (c > 0 && off + c >= TWO_63 ==> st.err.Some?)
      && |st.rec.fields| == |r.fields|
  }

  lemma {:induction false} UnknownAppend(chop: Chopper, n: nat, u: seq<byte>, w: seq<byte>)
    requires ChopLocal(chop) && IsUnknown(chop, n, u) && IsUnknown(chop, n, w)
    ensures IsUnknown(chop, n, u + w)
    decreases |u|
  {
    if u == [] {
      assert u + w == w;
    } else {
      var c := chop(n, u);
      assert ChopLocalAt(chop, n, u, u[c..] + w);
      assert u + w == u[..c] + (u[c..] + w);
      assert (u + w)[c..] == u[c..] + w;
      UnknownAppend(chop, n, u[c..], w);
    }
  }

  /** Unknown records are copied to the unknown bytes, in order. */
  lemma {:induction false} UnknownRun(step: Decoder, chop: Chopper, r: Record, u: seq<byte>, off: nat)
    requires Advances(step) && Keeps(step, chop)
    requires off + |u| < TWO_63 && IsUnknown(chop, |r.fields|, u)
    ensures Run(step, r, u, off) == Outcome(r.(unknown := r.unknown + u), None)
    decreases |u|
  {
    if u == [] {
      assert r.unknown + u == r.unknown;
    } else {
      var st := step(r, u, off);
      assert KeepsAt(step, chop, r, u, off);
      UnknownRun(step, chop, st.rec, u[st.len..], off + st.len);
      assert r.unknown + u == r.unknown + u[..st.len] + u[st.len..];
    }
  }

  /** The unknown bytes grow by at most what is read, and by that much only on unknown records. */
  lemma {:induction false} UnknownGrowth(step: Decoder, chop: Chopper, r: Record, s: seq<byte>, off: nat)
    requires Advances(step) && Keeps(step, chop)
    ensures |Run(step, r, s, off).rec.unknown| <= |r.unknown| + |s|
    ensures Run(step, r, s, off).err.None? && |Run(step, r, s, off).rec.unknown| == |r.unknown| + |s|
            ==> IsUnknown(chop, |r.fields|, s)
    decreases |s|
  {
    if s != [] {
      var st, c := step(r, s, off), chop(|r.fields|, s);
      assert KeepsAt(step, chop, r, s, off);
      if st.err.None? {
        UnknownGrowth(step, chop, st.rec, s[st.len..], off + st.len);
      }
    }
  }

  /** What an accepted input leaves in the unknown bytes is a concatenation of unknown records. */
  lemma {:induction false} UnknownKept(step: Decoder, chop: Chopper, r: Record, s: seq<byte>, off: nat)
    requires Advances(step) && Keeps(step, chop) && ChopLocal(chop)
    requires IsUnknown(chop, |r.fields|, r.unknown)
    ensures var o := Run(step, r, s, off);
            |o.rec.fields| == |r.fields| && IsUnknown(chop, |r.fields|, o.rec.unknown)
    decreases |s|
  {
    if s != [] {
      var n := |r.fields|;
      var st, c := step(r, s, off), chop(n, s);
      assert KeepsAt(step, chop, r, s, off);
      if st.rec.unknown != r.unknown {
        assert st.rec.unknown == r.unknown + s[..c];
        assert ChopLocalAt(chop, n, s, []);
        assert s[..c] + [] == s[..c] && s[..c][c..] == [];
        UnknownAppend(chop, n, r.unknown, s[..c]);
      }
      if st.err.None? {
        UnknownKept(step, chop, st.rec, s[st.len..], off + st.len);
      }
    }
  }

  // ----- Fields -------------------------------------------------------------------------------------

  /** A decoder reads an encoded field and sets it. */
  ghost predicate Reads(step: Decoder) {
    forall r, k, v, t, off :: ReadsAt(step, r, k, v, t, off)
  }

  ghost predicate ReadsAt(step: Decoder, r: Record, k: nat, v: Value, t: seq<byte>, off: nat) {
    Fits(r, k, v) && off + |EncodeField(k, v)| + |t| < TWO_63 ==>
      step(r, EncodeField(k, v) + t, off) == Step(r.(fields := r.fields[k := v]), |EncodeField(k, v)|, None)
  }

  /** A nonzero value of the type of field k. */
  predicate Fits(r: Record, k: nat, v: Value) {
    && k < |r.fields| <= 15 && v != Zero(v)
    && (v.Chunk? <==> r.fields[k].Chunk?) && (v.Number? ==> v.n < TWO_32)
  }

  lemma FieldRun(step: Decoder, r: Record, k: nat, t: seq<byte>, off: nat)
    requires Advances(step) && Reads(step)
    requires Typed(r) && k < |r.fields| && off + |EncodeField(k, r.fields[k])| + |t| < TWO_63
    ensures var s := EncodeField(k, r.fields[k]);
            Run(step, Prefix(r, k), s + t, off) == Run(step, Prefix(r, k + 1), t, off + |s|)
  {
    var p, v, s := Prefix(r, k), r.fields[k], EncodeField(k, r.fields[k]);
    assert p.fields[k := v] == Prefix(r, k + 1).fields;
    if v == Zero(v) {
      assert p.fields == p.fields[k := v];
      assert s + t == t;
    } else {
      assert ReadsAt(step, p, k, v, t, off);
      assert (s + t)[|s|..] == t;
    }
  }

  lemma {:induction false} FieldsRun(step: Decoder, r: Record, k: nat, off: nat)
    requires Advances(step) && Reads(step)
    requires Typed(r) && k <= |r.fields| && off + |EncodeFrom(r, k)| < TWO_63
    ensures |EncodeFrom(r, k)| >= |r.unknown|
    ensures Run(step, Prefix(r, k), EncodeFrom(r, k), off)
         == Run(step, r.(unknown := []), r.unknown, off + (|EncodeFrom(r, k)| - |r.unknown|))
    decreases |r.fields| - k
  {
    if k == |r.fields| {
      assert Prefix(r, k).fields == r.fields;
    } else {
      FieldRun(step, r, k, EncodeFrom(r, k + 1), off);
      FieldsRun(step, r, k + 1, off + |EncodeField(k, r.fields[k])|);
    }
  }

  /** Decoding the encoding of r into the empty message of its type returns r exactly when its unknown
      bytes are unknown records. */
  lemma RunRoundTrip(step: Decoder, chop: Chopper, r: Record)
    requires Advances(step) && Reads(step) && Keeps(step, chop)
    requires Typed(r) && |Encoded(r)| < TWO_63
    ensures Run(step, Empty(r), Encoded(r), 0) == Outcome(r, None) <==> IsUnknown(chop, |r.fields|, r.unknown)
  {
    var first: nat := 0;
    FieldsRun(step, r, first, first);
    UnknownExact(step, chop, r, |Encoded(r)| - |r.unknown|);
  }

  /** The unknown bytes come back exactly when they are unknown records. */
  lemma UnknownExact(step: Decoder, chop: Chopper, r: Record, off: nat)
    requires Advances(step) && Keeps(step, chop) && off + |r.unknown| < TWO_63
    ensures Run(step, r.(unknown := []), r.unknown, off) == Outcome(r, None) <==>
            IsUnknown(chop, |r.fields|, r.unknown)
  {
    var bare := r.(unknown := []);
    UnknownGrowth(step, chop, bare, r.unknown, off);
    if IsUnknown(chop, |r.fields|, r.unknown) {
      UnknownRun(step, chop, bare, r.unknown, off);
      assert bare.unknown + r.unknown == r.unknown;
    }
  }

  // ----- Sizes --------------------------------------------------------------------------------------

  /** Size of a string or bytes field of length l: tag, length and content, or nothing if it is empty. */
  function BytesSize(l: nat): nat {
    if l > 0 then 1 + l + Varint.Sov(l) else 0
  }

  /** Size of a uint32 field. */
  function NumberSize(n: nat): nat {
    if n != 0 then 1 + Varint.Sov(n) else 0
  }

  function FieldSize(v: Value): nat {
    match v case Chunk(b) => BytesSize(|b|) case Number(n) => NumberSize(n)
  }

  function SizeFrom(r: Record, k: nat): nat
    requires k <= |r.fields|
    decreases |r.fields| - k
  {
    if k == |r.fields| then |r.unknown| else FieldSize(r.fields[k]) + SizeFrom(r, k + 1)
  }

  lemma FieldAdds(r: Record, k: nat)
    requires k < |r.fields|
    ensures SizeFrom(r, k) == FieldSize(r.fields[k]) + SizeFrom(r, k + 1)
  {
  }

  /** The size computed field by field is the length of the encoding. */
  lemma {:induction false} SizeIsLength(r: Record, k: nat)
    requires k <= |r.fields| <= 15
    ensures SizeFrom(r, k) == |EncodeFrom(r, k)|
    decreases |r.fields| - k
  {
    if k < |r.fields| {
      match r.fields[k] {
        case Chunk(b) => Varint.SovIsLength(|b|);
        case Number(n) => Varint.SovIsLength(n);
      }
      SizeIsLength(r, k + 1);
    }
  }

  /** A record never grows the encoding of the message by more than its own length. */
  ghost predicate Shrinks(step: Decoder) {
    forall r, s, off :: ShrinksAt(step, r, s, off)
  }

  ghost predicate ShrinksAt(step: Decoder, r: Record, s: seq<byte>, off: nat) {
    Typed(r) && s != [] ==>
      var st := step(r, s, off);
      && Typed(st.rec) && Empty(st.rec) == Empty(r)
      && (st.err.None? ==> |Encoded(st.rec)| <= |Encoded(r)| + st.len)
  }

  lemma {:induction false} RunShrinks(step: Decoder, r: Record, s: seq<byte>, off: nat)
    requires Advances(step) && Shrinks(step) && Typed(r)
    requires Run(step, r, s, off).err.None?
    ensures Typed(Run(step, r, s, off).rec) && Empty(Run(step, r, s, off).rec) == Empty(r)
    ensures |Encoded(Run(step, r, s, off).rec)| <= |Encoded(r)| + |s|
    decreases |s|
  {
    if s != [] {
      var st := step(r, s, off);
      assert ShrinksAt(step, r, s, off);
      RunShrinks(step, st.rec, s[st.len..], off + st.len);
    }
  }

  /** Replacing a field changes the encoded size by at most the size of the new field. */
  lemma {:induction false} SizeUpdate(r: Record, j: nat, k: nat, v: Value)
    requires k < |r.fields| && j <= |r.fields|
    ensures SizeFrom(r.(fields := r.fields[k := v]), j) <= SizeFrom(r, j) + (if j <= k then FieldSize(v) else 0)
    decreases |r.fields| - j
  {
    if j < |r.fields| {
      SizeUpdate(r, j + 1, k, v);
    }
  }

  lemma {:induction false} SizeUnknown(r: Record, j: nat, u: seq<byte>)
    requires j <= |r.fields|
    ensures SizeFrom(r.(unknown := r.unknown + u), j) == SizeFrom(r, j) + |u|
    decreases |r.fields| - j
  {
    if j < |r.fields| {
      SizeUnknown(r, j + 1, u);
    }
  }

  lemma {:induction false} EmptySize(r: Record, k: nat)
    requires k <= |r.fields| <= 15
    ensures EncodeFrom(Empty(r), k) == []
    decreases |r.fields| - k
  {
    if k < |r.fields| {
      EmptySize(r, k + 1);
    }
  }

  lemma {:induction false} UnknownWithin(r: Record, k: nat)
    requires k <= |r.fields| <= 15
    ensures |r.unknown| <= |EncodeFrom(r, k)|
    decreases |r.fields| - k
  {
    if k < |r.fields| {
      UnknownWithin(r, k + 1);
      var f, rest := EncodeField(k, r.fields[k]), EncodeFrom(r, k + 1);
      assert EncodeFrom(r, k) == f + rest;
    }
  }

  /** Encoding what was decoded: a canonical form of the input. */
  lemma CanonicalRun(step: Decoder, chop: Chopper, r: Record, b: seq<byte>)
    requires Advances(step) && Reads(step) && Keeps(step, chop) && Shrinks(step) && ChopLocal(chop)
    requires Typed(r) && |b| < TWO_63
    requires Run(step, Empty(r), b, 0).err.None?
    ensures var m := Run(step, Empty(r), b, 0).rec;
            && Typed(m)
            && |Encoded(m)| <= |b|
            && Run(step, Empty(r), Encoded(m), 0) == Outcome(m, None)
            && Run(step, Empty(r), m.unknown, 0) == Outcome(Empty(r).(unknown := m.unknown), None)
  {
    var e := Empty(r);
    var m := Run(step, e, b, 0).rec;
    UnknownKept(step, chop, e, b, 0);
    RunShrinks(step, e, b, 0);
    EmptySize(r, 0);
    assert Empty(e) == e;
    RunRoundTrip(step, chop, m);
    UnknownWithin(m, 0);
    UnknownRun(step, chop, e, m.unknown, 0);
    assert e.unknown + m.unknown == m.unknown;
  }

  lemma {:induction false} SuffixFits(r: Record, k: nat)
    requires k <= |r.fields| <= 15
    ensures |EncodeFrom(r, k)| <= |Encoded(r)|
  {
    if k > 0 {
      SuffixFits(r, k - 1);
      assert EncodeFrom(r, k - 1) == EncodeField(k - 1, r.fields[k - 1]) + EncodeFrom(r, k);
    }
  }

  lemma SuffixLengths(r: Record)
    requires |r.fields| <= 15
    ensures forall k :: 0 <= k <= |r.fields| ==> |EncodeFrom(r, k)| <= |Encoded(r)|
  {
    forall k | 0 <= k <= |r.fields| ensures |EncodeFrom(r, k)| <= |Encoded(r)| {
      SuffixFits(r, k);
    }
  }
}
