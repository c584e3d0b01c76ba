// What the generated decoders make of records: a reference reading of syntax trees, which mentions neither the
// skipper nor the decode loops, and which Unmarshal follows on every input.
module WireMeaning {
  import opened Bits
  import opened Common
  import opened Varint
  import opened Records
  import opened Wire
  import opened WireGrammar
  import opened WireLaws

  /** The field number: what is above the wire type, as an int32. */
  function FieldNumber(t: Tree): int {
    ToInt32(NumberOf(t.tag) % TWO_64 / 8)
  }

  /** The conversion gives the one int32 that differs by a multiple of 2 to the 32. */
  lemma Int32Exact(x: nat, n: int)
    ensures ToInt32(x) == n <==> -0x8000_0000 <= n < 0x8000_0000 && exists q: int :: x - n == q * TWO_32
  {
    var low, q := x % TWO_32, x / TWO_32;
    assert x - low == q * TWO_32;
    assert x - (low - TWO_32) == (q + 1) * TWO_32;
    if -0x8000_0000 <= n < 0x8000_0000 && exists q: int :: x - n == q * TWO_32 {
      var p: int :| x - n == p * TWO_32;
      OneResidue(x, ToInt32(x), n, if low < 0x8000_0000 then q else q + 1, p);
    }
  }

  lemma OneResidue(x: int, a: int, b: int, p: int, q: int)
    requires x - a == p * TWO_32 && x - b == q * TWO_32
    requires -0x8000_0000 <= a < 0x8000_0000 && -0x8000_0000 <= b < 0x8000_0000
    ensures a == b
  {
    assert b - a == (p - q) * TWO_32;
  }

  /** A declared field must come with the wire type of its kind; any positive number will do for others. */
  predicate Accepts(r: Record, t: Tree) {
    && Good(t) && FieldNumber(t) > 0
    && (FieldNumber(t) <= |r.fields| ==>
          if r.fields[FieldNumber(t) - 1].Chunk? then t.payload.Delimited? else t.payload.Base128?)
  }

  /** A declared field is set, to the bytes or to the low 32 bits of the number; other records are kept. */
  function Meaning(r: Record, t: Tree): Record
    requires Accepts(r, t)
  {
    if FieldNumber(t) > |r.fields| then r.(unknown := r.unknown + Bytes(t)) else
    var v := if t.payload.Delimited? then Chunk(t.payload.body) else Number(NumberOf(t.payload.v) % TWO_32);
    r.(fields := r.fields[FieldNumber(t) - 1 := v])
  }

  // ----- One record ----------------------------------------------------------------------------------

  lemma TagRead(r: Record, s: seq<byte>, at: nat, off: nat)
    requires at <= |s| && IsVarint(s[..at]) && s[0] % 8 != 4
    ensures var num := ToInt32(NumberOf(s[..at]) % TWO_64 / 8);
            num > 0 ==> DecodeRecord(r, s, off) == DecodeField(r, num, s[0] % 8, s, at, off)
    ensures ToInt32(NumberOf(s[..at]) % TWO_64 / 8) <= 0 ==> DecodeRecord(r, s, off).err == Some(IllegalTag)
  {
    VarintExact(s, at);
    LowBits(s[..at]);
  }

  lemma ChunkRead(s: seq<byte>, at: nat, n: nat, off: nat, p: Payload)
    requires 1 <= at && p.Delimited? && GoodPayload(p) && LiesAt(s, at, n, PayloadBytes(p)) && off + n < TWO_63
    ensures ReadChunk(s, at, off) == Piece(p.body, n, None)
  {
    LiesSplit(s, at, n, p.count, p.body);
    VarintAt(s, at, at + |p.count|);
  }

  lemma NumberRead(s: seq<byte>, at: nat, n: nat, p: Payload)
    requires p.Base128? && GoodPayload(p) && LiesAt(s, at, n, PayloadBytes(p))
    ensures Decode(s[at..], 0) == Read(NumberOf(p.v), n - at, None)
  {
    VarintAt(s, at, n);
  }

  /** The bytes of an accepted tree are read as it means. */
  lemma TreeRead(r: Record, s: seq<byte>, n: nat, off: nat, t: Tree)
    requires Accepts(r, t) && LiesAt(s, 0, n, Bytes(t)) && off + n < TWO_63
    ensures DecodeRecord(r, s, off) == Step(Meaning(r, t), n, None)
  {
    var at := |t.tag|;
    LiesSplit(s, 0, n, t.tag, PayloadBytes(t.payload));
    assert s[..at] == s[0..at];
    TagRead(r, s, at, off);
    if FieldNumber(t) > |r.fields| {
      TreeSkipped(s, 0, n, t, 0);
      assert s[..n] == s[0..n];
    } else if t.payload.Delimited? {
      ChunkRead(s, at, n, off, t.payload);
    } else {
      NumberRead(s, at, n, t.payload);
    }
  }

  lemma ChunkTree(s: seq<byte>, at: nat, off: nat) returns (p: Payload)
    requires 1 <= at <= |s| && ReadChunk(s, at, off).err.None?
    ensures p.Delimited? && GoodPayload(p) && LiesAt(s, at, ReadChunk(s, at, off).len, PayloadBytes(p))
  {
    var n := ReadChunk(s, at, off).len;
    var m := VarintHere(s, at);
    p := Delimited(s[at..m], s[m..n]);
    LiesJoin(s, at, m, n, s[at..m], s[m..n]);
  }

  /** The payload of a declared field, which has been read. */
  lemma FieldTree(r: Record, num: nat, wireType: nat, s: seq<byte>, at: nat, off: nat) returns (p: Payload)
    requires 0 < num <= |r.fields| && 1 <= at <= |s| && DecodeField(r, num, wireType, s, at, off).err.None?
    ensures GoodPayload(p) && WireType(p) == wireType
    ensures if r.fields[num - 1].Chunk? then p.Delimited? else p.Base128?
    ensures LiesAt(s, at, DecodeField(r, num, wireType, s, at, off).len, PayloadBytes(p))
  {
    if r.fields[num - 1].Chunk? {
      p := ChunkTree(s, at, off);
    } else {
      var n := VarintHere(s, at);
      p := Base128(s[at..n]);
    }
  }

  lemma DecodedTag(r: Record, s: seq<byte>, off: nat) returns (at: nat)
    requires DecodeRecord(r, s, off).err.None?
    ensures 0 < at <= |s| && IsVarint(s[..at]) && s[0] % 8 != 4
    ensures var num := ToInt32(NumberOf(s[..at]) % TWO_64 / 8);
            num > 0 && DecodeRecord(r, s, off) == DecodeField(r, num, s[0] % 8, s, at, off)
  {
    at := Decode(s, 0).len;
    VarintExact(s, at);
    LowBits(s[..at]);
    TagRead(r, s, at, off);
  }

  /** What is read is an accepted tree. */
  lemma ReadTree(r: Record, s: seq<byte>, off: nat) returns (t: Tree)
    requires DecodeRecord(r, s, off).err.None?
    ensures Accepts(r, t) && LiesAt(s, 0, DecodeRecord(r, s, off).len, Bytes(t))
  {
    var n := DecodeRecord(r, s, off).len;
    var at := DecodedTag(r, s, off);
    var num := ToInt32(NumberOf(s[..at]) % TWO_64 / 8);
    assert s[0..at] == s[..at];
    if num > |r.fields| {
      t := Taken(s);
      TagIs(s, n, at, t);
    } else {
      var p := FieldTree(r, num, s[0] % 8, s, at, off);
      t := Tree(s[..at], p);
      LiesJoin(s, 0, at, n, s[0..at], PayloadBytes(p));
    }
  }

  /** A tag cannot be read in two ways. */
  lemma TagIs(s: seq<byte>, n: nat, at: nat, t: Tree)
    requires at <= |s| && IsVarint(s[..at]) && Good(t) && LiesAt(s, 0, n, Bytes(t))
    ensures t.tag == s[..at]
  {
    LiesSplit(s, 0, n, t.tag, PayloadBytes(t.payload));
    assert s[0..|t.tag|] == s[..|t.tag|];
    VarintExact(s, at);
    VarintExact(s, |t.tag|);
  }

  /** One turn of the Unmarshal loop accepts exactly the accepted trees and does to the message what they mean. */
  lemma RecordExact(r: Record, s: seq<byte>, off: nat, n: nat, r': Record)
    requires n <= |s| && off + |s| < TWO_63
    ensures DecodeRecord(r, s, off) == Step(r', n, None) <==>
            exists t :: Accepts(r, t) && s[..n] == Bytes(t) && r' == Meaning(r, t)
  {
    assert s[0..n] == s[..n];
    if DecodeRecord(r, s, off) == Step(r', n, None) {
      var t := ReadTree(r, s, off);
      TreeRead(r, s, n, off, t);
      assert Accepts(r, t) && s[..n] == Bytes(t) && r' == Meaning(r, t);
    }
    if exists t :: Accepts(r, t) && s[..n] == Bytes(t) && r' == Meaning(r, t) {
      var t :| Accepts(r, t) && s[..n] == Bytes(t) && r' == Meaning(r, t);
      TreeRead(r, s, n, off, t);
    }
  }

  /** What the tag alone decides: an end-group tag, a field number that is not positive, and the wrong wire type
      for a declared field are refused, in this order. */
  lemma TagRefused(r: Record, s: seq<byte>, at: nat, off: nat)
    requires at <= |s| && IsVarint(s[..at])
    ensures var num, wire, err := ToInt32(NumberOf(s[..at]) % TWO_64 / 8), s[0] % 8, DecodeRecord(r, s, off).err;
            && (err == Some(EndGroupForNonGroup) <==> wire == 4)
            && (err == Some(IllegalTag) <==> wire != 4 && num <= 0)
            && (err == Some(WrongWireType) <==>
                  wire != 4 && 0 < num <= |r.fields| && wire != if r.fields[num - 1].Chunk? then 2 else 0)
  {
    VarintExact(s, at);
    LowBits(s[..at]);
    var num := ToInt32(NumberOf(s[..at]) % TWO_64 / 8);
    if s[0] % 8 != 4 && num > 0 {
      TagRead(r, s, at, off);
      OtherErrors(r, num, s[0] % 8, s, at, off);
    }
  }

  lemma OtherErrors(r: Record, num: nat, wireType: nat, s: seq<byte>, at: nat, off: nat)
    requires num > 0 && 1 <= at <= |s|
    ensures DecodeField(r, num, wireType, s, at, off).err !in {Some(EndGroupForNonGroup), Some(IllegalTag)}
    ensures DecodeField(r, num, wireType, s, at, off).err == Some(WrongWireType) <==>
            num <= |r.fields| && wireType != if r.fields[num - 1].Chunk? then 2 else 0
  {
    VarintFails(s[at..], 0);
    SkipErrors(s, 0, 0);
  }

  /** Inside a record the skipper refuses an end of a group that has not begun, a length of 2 to the 63 or more, and
      the wire types 6 and 7. */
  lemma SkipRefused(s: seq<byte>, i: nat, j: nat, depth: nat, wireType: nat)
    requires i <= j <= |s| && Tagged(s[i..j], wireType)
    ensures wireType == 4 && depth == 0 ==> SkipFrom(s, i, depth).err == Some(UnexpectedEndOfGroup)
    ensures wireType > 5 ==> SkipFrom(s, i, depth).err == Some(IllegalWireType)
    ensures forall k :: j <= k <= |s| && wireType == 2 && IsVarint(s[j..k]) && NumberOf(s[j..k]) % TWO_64 >= TWO_63 ==>
              SkipFrom(s, i, depth).err == Some(InvalidLength)
  {
    ItemIs(s, i, j, depth, wireType);
    forall k | j <= k <= |s| && wireType == 2 && IsVarint(s[j..k]) && NumberOf(s[j..k]) % TWO_64 >= TWO_63
      ensures SkipFrom(s, i, depth).err == Some(InvalidLength)
    {
      VarintAt(s, j, k);
    }
  }

  lemma {:induction false} SkipErrors(s: seq<byte>, i: nat, depth: nat)
    ensures SkipFrom(s, i, depth).err
         in {None, Some(UnexpectedEOF), Some(IntOverflow), Some(InvalidLength), Some(UnexpectedEndOfGroup),
             Some(IllegalWireType)}
    decreases if i < |s| then |s| - i else 0
  {
    if i < |s| {
      VarintFails(s[i..], 0);
      var tag, it := Decode(s[i..], 0), SkipItem(s, i, depth);
      if tag.err.None? {
        VarintFails(s[i + tag.len..], 0);
      }
      if it.err.None? && it.depth != 0 {
        SkipErrors(s, it.iNdEx, it.depth);
      }
    }
  }

  // ----- Whole messages ------------------------------------------------------------------------------

  function Flatten(ts: seq<Tree>): seq<byte> {
    if ts == [] then [] else Bytes(ts[0]) + Flatten(ts[1..])
  }

  predicate AllAccepted(r: Record, ts: seq<Tree>) {
    forall i :: 0 <= i < |ts| ==> Accepts(r, ts[i])
  }

  /** Accepting depends on the declared fields only, and they stay declared. */
  lemma StaysAccepted(r: Record, t: Tree, ts: seq<Tree>)
    requires Accepts(r, t)
    ensures AllAccepted(Meaning(r, t), ts) <==> AllAccepted(r, ts)
  {
    var r' := Meaning(r, t);
    assert forall k :: 0 <= k < |r.fields| ==> (r'.fields[k].Chunk? <==> r.fields[k].Chunk?);
    assert forall u :: Accepts(r', u) <==> Accepts(r, u);
  }

  /** Record by record: the last value of a field wins, and unknown records are kept in order. */
  function Reading(r: Record, ts: seq<Tree>): Record
    requires AllAccepted(r, ts)
    decreases |ts|
  {
    if ts == [] then r else
    StaysAccepted(r, ts[0], ts[1..]);
    Reading(Meaning(r, ts[0]), ts[1..])
  }

  /** One turn of the loop on an accepted tree. */
  lemma TurnReads(step: Decoder, r: Record, t: Tree, rest: seq<byte>, off: nat)
    requires Advances(step) && IsDecoder(step) && Accepts(r, t) && off + |Bytes(t)| < TWO_63
    ensures Run(step, r, Bytes(t) + rest, off) == Run(step, Meaning(r, t), rest, off + |Bytes(t)|)
  {
    var s, n := Bytes(t) + rest, |Bytes(t)|;
    SliceOf(s, 0, |s|, n);
    assert s[0..n] == Bytes(t) && s[n..] == rest;
    TreeRead(r, s, n, off, t);
    assert step(r, s, off) == DecodeRecord(r, s, off);
    assert |t.tag| > 0;
    RunStep(step, r, s, off);
  }

  lemma {:induction false} ReadsAll(step: Decoder, r: Record, ts: seq<Tree>, off: nat)
    requires Advances(step) && IsDecoder(step) && AllAccepted(r, ts) && off + |Flatten(ts)| < TWO_63
    ensures Run(step, r, Flatten(ts), off) == Outcome(Reading(r, ts), None)
    decreases |ts|
  {
    if ts != [] {
      TurnReads(step, r, ts[0], Flatten(ts[1..]), off);
      StaysAccepted(r, ts[0], ts[1..]);
      ReadsAll(step, Meaning(r, ts[0]), ts[1..], off + |Bytes(ts[0])|);
    }
  }

  /** The first turn of a run that succeeds. */
  lemma FirstTree(step: Decoder, r: Record, s: seq<byte>, off: nat) returns (t: Tree, rest: seq<byte>)
    requires Advances(step) && IsDecoder(step) && off + |s| < TWO_63
    requires s != [] && Run(step, r, s, off).err.None?
    ensures Accepts(r, t) && s == Bytes(t) + rest && |rest| < |s|
    ensures Run(step, Meaning(r, t), rest, off + |Bytes(t)|) == Run(step, r, s, off)
  {
    var st := DecodeRecord(r, s, off);
    assert step(r, s, off) == st;
    RunStep(step, r, s, off);
    rest := s[st.len..];
    t := ReadTree(r, s, off);
    TreeRead(r, s, st.len, off, t);
    assert s == s[0..st.len] + rest;
  }

  lemma {:induction false} TreesOf(step: Decoder, r: Record, s: seq<byte>, off: nat) returns (ts: seq<Tree>)
    requires Advances(step) && IsDecoder(step) && off + |s| < TWO_63
    requires Run(step, r, s, off).err.None?
    ensures AllAccepted(r, ts) && s == Flatten(ts)
    decreases |s|
  {
    ts := [];
    if s != [] {
      var t, rest := FirstTree(step, r, s, off);
      var others := TreesOf(step, Meaning(r, t), rest, off + |Bytes(t)|);
      StaysAccepted(r, t, others);
      ts := [t] + others;
      assert ts[1..] == others;
    }
  }

  /** Unmarshal accepts exactly the concatenations of accepted records, and leaves the message as their
      reading says. */
  lemma UnmarshalExact(r: Record, b: seq<byte>, r': Record)
    requires |b| < TWO_63
    ensures Unmarshal(r, b) == Outcome(r', None) <==>
            exists ts :: AllAccepted(r, ts) && b == Flatten(ts) && r' == Reading(r, ts)
  {
    var step, whole := LoopDecoder(r, b);
    assert b[0..] == b;
    if whole == Outcome(r', None) {
      var ts := TreesOf(step, r, b, 0);
      ReadsAll(step, r, ts, 0);
      assert AllAccepted(r, ts) && b == Flatten(ts) && r' == Reading(r, ts);
    }
    if exists ts :: AllAccepted(r, ts) && b == Flatten(ts) && r' == Reading(r, ts) {
      var ts :| AllAccepted(r, ts) && b == Flatten(ts) && r' == Reading(r, ts);
      ReadsAll(step, r, ts, 0);
    }
  }

  // ----- Messages that are cut short ------------------------------------------------------------------

  /** From index i on, s has the front of the bytes but not all of them. */
  predicate CutAt(s: seq<byte>, i: nat, b: seq<byte>) {
    i <= |s| && |s| - i < |b| && s[i..] == b[..|s| - i]
  }

  lemma CutSplit(s: seq<byte>, i: nat, a: seq<byte>, b: seq<byte>)
    requires CutAt(s, i, a + b)
    ensures if |s| - i < |a| then CutAt(s, i, a) else LiesAt(s, i, i + |a|, a) && CutAt(s, i + |a|, b)
  {
    var n := |s| - i;
    if n < |a| {
      assert (a + b)[..n] == a[..n];
    } else {
      assert (a + b)[..n] == a + b[..n - |a|];
      SliceOf(s, i, |s|, |a|);
      assert s[i..|s|] == s[i..];
      assert s[i..|s|][..|a|] == a && s[i..|s|][|a|..] == b[..n - |a|];
    }
  }

  lemma {:induction false} HighBytes(s: seq<byte>, g: nat)
    requires |s| + g < 10 && forall i :: 0 <= i < |s| ==> s[i] >= 128
    ensures Decode(s, g).err == Some(UnexpectedEOF)
    decreases |s|
  {
    if s != [] {
      HighBytes(s[1..], g + 1);
    }
  }

  lemma VarintCut(s: seq<byte>, i: nat, v: seq<byte>)
    requires IsVarint(v) && CutAt(s, i, v)
    ensures Decode(s[i..], 0).err == Some(UnexpectedEOF)
  {
    HighBytes(s[i..], 0);
  }

  /** What the skipper makes of a cut record that would have ended at k. */
  predicate Short(r: Skipped, k: nat, depth: nat) {
    r.err == Some(UnexpectedEOF) || (depth == 0 && r == Skipped(k, None))
  }

  lemma PastEnd(s: seq<byte>, i: nat, k: nat, depth: nat)
    requires i < |s| < k < TWO_63 && SkipItem(s, i, depth) == Item(k, depth, None)
    ensures Short(SkipFrom(s, i, depth), k, depth)
  {
    OneTurn(s, i, k, depth, depth);
  }

  lemma ItemCut(s: seq<byte>, i: nat, depth: nat)
    requires i <= |s| && (i < |s| ==> SkipItem(s, i, depth).err == Some(UnexpectedEOF))
    ensures SkipFrom(s, i, depth).err == Some(UnexpectedEOF)
  {
  }

  lemma LeafCut(s: seq<byte>, j: nat, p: Payload, depth: nat)
    requires !p.Group? && GoodPayload(p) && CutAt(s, j, PayloadBytes(p))
    ensures var it := SkipPayload(s, j, WireType(p), depth);
            it.err == Some(UnexpectedEOF) || it == Item(j + |PayloadBytes(p)|, depth, None)
  {
    match p
    case Base128(v) => VarintCut(s, j, v);
    case Delimited(count, body) =>
      CutSplit(s, j, count, body);
      if |s| - j < |count| {
        VarintCut(s, j, count);
      } else {
        VarintAt(s, j, j + |count|);
      }
    case _ =>
  }

  lemma {:induction false} TreeCut(s: seq<byte>, i: nat, t: Tree, depth: nat)
    requires Good(t) && CutAt(s, i, Bytes(t)) && i + |Bytes(t)| < TWO_63
    ensures Short(SkipFrom(s, i, depth), i + |Bytes(t)|, depth)
    decreases t
  {
    var j := i + |t.tag|;
    CutSplit(s, i, t.tag, PayloadBytes(t.payload));
    if |s| < j {
      TagCut(s, i, t.tag, depth);
    } else {
      match t.payload
      case Group(items) =>
        ItemsCut(s, j, items, depth + 1);
        GroupCut(s, i, j, t, depth);
      case _ => LeafTreeCut(s, i, j, t, depth);
    }
  }

  lemma GroupCut(s: seq<byte>, i: nat, j: nat, t: Tree, depth: nat)
    requires Good(t) && t.payload.Group? && LiesAt(s, i, j, t.tag) && j < TWO_63
    requires SkipFrom(s, j, depth + 1).err == Some(UnexpectedEOF)
    ensures SkipFrom(s, i, depth).err == Some(UnexpectedEOF)
  {
    StartTurn(s, i, j, depth);
  }

  lemma LeafTreeCut(s: seq<byte>, i: nat, j: nat, t: Tree, depth: nat)
    requires Good(t) && !t.payload.Group? && i + |Bytes(t)| < TWO_63 && |s| < i + |Bytes(t)|
    requires j == i + |t.tag| && LiesAt(s, i, j, t.tag) && CutAt(s, j, PayloadBytes(t.payload))
    ensures Short(SkipFrom(s, i, depth), i + |Bytes(t)|, depth)
  {
    var wireType := WireType(t.payload);
    ItemIs(s, i, j, depth, wireType);
    LeafCut(s, j, t.payload, depth);
    if SkipPayload(s, j, wireType, depth).err.None? {
      PastEnd(s, i, i + |Bytes(t)|, depth);
    } else {
      ItemCut(s, i, depth);
    }
  }

  lemma {:induction false} ItemsCut(s: seq<byte>, i: nat, items: Items, open: nat)
    requires open > 0 && GoodItems(items) && CutAt(s, i, ItemsBytes(items)) && i + |ItemsBytes(items)| < TWO_63
    ensures SkipFrom(s, i, open).err == Some(UnexpectedEOF)
    decreases items
  {
    match items
    case End(tag) => TagCut(s, i, tag, open);
    case More(head, rest) =>
      var m := i + |Bytes(head)|;
      CutSplit(s, i, Bytes(head), ItemsBytes(rest));
      if |s| < m {
        TreeCut(s, i, head, open);
      } else {
        HeadSkipped(s, i, m, head, open);
        ItemsCut(s, m, rest, open);
      }
  }

  lemma TagCut(s: seq<byte>, i: nat, tag: seq<byte>, open: nat)
    requires IsVarint(tag) && CutAt(s, i, tag)
    ensures SkipFrom(s, i, open).err == Some(UnexpectedEOF)
  {
    VarintCut(s, i, tag);
    ItemCut(s, i, open);
  }

  lemma HeadSkipped(s: seq<byte>, i: nat, m: nat, head: Tree, open: nat)
    requires open > 0 && Good(head) && LiesAt(s, i, m, Bytes(head)) && m < TWO_63
    ensures SkipFrom(s, i, open) == SkipFrom(s, m, open)
  {
    TreeSkipped(s, i, m, head, open);
  }

  lemma ChunkCut(s: seq<byte>, at: nat, off: nat, p: Payload)
    requires 1 <= at && p.Delimited? && GoodPayload(p) && CutAt(s, at, PayloadBytes(p))
    requires off + at + |PayloadBytes(p)| < TWO_63
    ensures ReadChunk(s, at, off).err == Some(UnexpectedEOF)
  {
    CutSplit(s, at, p.count, p.body);
    if |s| - at < |p.count| {
      VarintCut(s, at, p.count);
    } else {
      VarintAt(s, at, at + |p.count|);
    }
  }

  lemma NumberCut(s: seq<byte>, at: nat, p: Payload)
    requires p.Base128? && GoodPayload(p) && CutAt(s, at, PayloadBytes(p))
    ensures Decode(s[at..], 0).err == Some(UnexpectedEOF)
  {
    VarintCut(s, at, p.v);
  }

  lemma UnknownCut(r: Record, s: seq<byte>, off: nat, t: Tree)
    requires Good(t) && CutAt(s, 0, Bytes(t)) && off + |Bytes(t)| < TWO_63
    ensures DecodeUnknown(r, s, off).err == Some(UnexpectedEOF)
  {
    TreeCut(s, 0, t, 0);
  }

  /** An accepted record that is cut short anywhere is refused as an unexpected end. */
  lemma RecordCut(r: Record, s: seq<byte>, off: nat, t: Tree)
    requires Accepts(r, t) && CutAt(s, 0, Bytes(t)) && off + |Bytes(t)| < TWO_63
    ensures DecodeRecord(r, s, off).err == Some(UnexpectedEOF)
  {
    var at := |t.tag|;
    assert s[0..] == s;
    CutSplit(s, 0, t.tag, PayloadBytes(t.payload));
    if |s| < at {
      VarintCut(s, 0, t.tag);
    } else {
      assert s[..at] == s[0..at];
      TagRead(r, s, at, off);
      if FieldNumber(t) > |r.fields| {
        UnknownCut(r, s, off, t);
      } else if t.payload.Delimited? {
        ChunkCut(s, at, off, t.payload);
      } else {
        NumberCut(s, at, t.payload);
      }
    }
  }

  lemma FirstCut(ts: seq<Tree>, n: nat)
    requires ts != [] && n < |Flatten(ts)|
    ensures if n < |Bytes(ts[0])| then CutAt(Flatten(ts)[..n], 0, Bytes(ts[0]))
            else Flatten(ts)[..n] == Bytes(ts[0]) + Flatten(ts[1..])[..n - |Bytes(ts[0])|]
  {
    var b := Flatten(ts)[..n];
    assert b[0..] == b;
  }

  lemma FirstCutRun(step: Decoder, r: Record, s: seq<byte>, t: Tree, off: nat)
    requires Advances(step) && IsDecoder(step) && Accepts(r, t)
    requires s != [] && CutAt(s, 0, Bytes(t)) && off + |Bytes(t)| < TWO_63
    ensures Run(step, r, s, off).err == Some(UnexpectedEOF)
  {
    RecordCut(r, s, off, t);
    assert step(r, s, off) == DecodeRecord(r, s, off);
  }

  /** How a run on the first n bytes ends, when k records are whole. */
  predicate Ends(err: Option<Error>, ts: seq<Tree>, n: nat, k: nat) {
    && k <= |ts| && |Flatten(ts[..k])| <= n <= |Flatten(ts)|
    && err == if n == |Flatten(ts[..k])| then None else Some(UnexpectedEOF)
  }

  lemma EndsNext(err: Option<Error>, ts: seq<Tree>, n: nat, k: nat)
    requires ts != [] && |Bytes(ts[0])| <= n && Ends(err, ts[1..], n - |Bytes(ts[0])|, k)
    ensures Ends(err, ts, n, k + 1)
  {
    assert ts[..k + 1][1..] == ts[1..][..k] && ts[..k + 1][0] == ts[0];
  }

  lemma {:induction false} CutRun(step: Decoder, r: Record, ts: seq<Tree>, n: nat, off: nat) returns (k: nat)
    requires Advances(step) && IsDecoder(step) && AllAccepted(r, ts)
    requires n < |Flatten(ts)| && off + |Flatten(ts)| < TWO_63
    ensures Ends(Run(step, r, Flatten(ts)[..n], off).err, ts, n, k)
    decreases |ts|
  {
    var first := |Bytes(ts[0])|;
    FirstCut(ts, n);
    if n < first {
      k := 0;
      if n > 0 {
        FirstCutRun(step, r, Flatten(ts)[..n], ts[0], off);
      }
    } else {
      var rest, m := ts[1..], n - first;
      StaysAccepted(r, ts[0], rest);
      TurnReads(step, r, ts[0], Flatten(rest)[..m], off);
      k := CutRun(step, Meaning(r, ts[0]), rest, m, off + first);
      EndsNext(Run(step, Meaning(r, ts[0]), Flatten(rest)[..m], off + first).err, ts, n, k);
      k := k + 1;
    }
  }

  /** The first n bytes of an accepted message are accepted when they end with a record, and otherwise
      refused as an unexpected end. */
  lemma CutExact(r: Record, ts: seq<Tree>, n: nat)
    requires AllAccepted(r, ts) && n < |Flatten(ts)| < TWO_63
    ensures var err := Unmarshal(r, Flatten(ts)[..n]).err;
            if exists k :: 0 <= k <= |ts| && |Flatten(ts[..k])| == n then err == None else err == Some(UnexpectedEOF)
  {
    var b := Flatten(ts)[..n];
    var step, whole := LoopDecoder(r, b);
    assert b[0..] == b;
    var k := CutRun(step, r, ts, n, 0);
    if exists i :: 0 <= i <= |ts| && |Flatten(ts[..i])| == n {
      var i :| 0 <= i <= |ts| && |Flatten(ts[..i])| == n;
      PrefixReads(r, ts, i);
      ReadsAll(step, r, ts[..i], 0);
    }
  }

  lemma {:induction false} PrefixReads(r: Record, ts: seq<Tree>, i: nat)
    requires i <= |ts|
    ensures |Flatten(ts[..i])| <= |Flatten(ts)| && Flatten(ts)[..|Flatten(ts[..i])|] == Flatten(ts[..i])
  {
    if i > 0 {
      assert ts[..i][1..] == ts[1..][..i - 1] && ts[..i][0] == ts[0];
      PrefixReads(r, ts[1..], i - 1);
    }
  }

  // ----- Unknown bytes -------------------------------------------------------------------------------

  /** Records of a message with n declared fields that are not among them. */
  predicate Kept(n: nat, ts: seq<Tree>) {
    forall i :: 0 <= i < |ts| ==> Good(ts[i]) && FieldNumber(ts[i]) > n
  }

  lemma KeptLength(n: nat, t: Tree, rest: seq<byte>)
    requires Good(t) && FieldNumber(t) > n && |Bytes(t)| < TWO_63
    ensures UnknownLen(n, Bytes(t) + rest) == |Bytes(t)|
  {
    var s, k := Bytes(t) + rest, |Bytes(t)|;
    assert s[0..k] == Bytes(t) && s[..k] == Bytes(t);
    TreeSkipped(s, 0, k, t, 0);
    LiesSplit(s, 0, k, t.tag, PayloadBytes(t.payload));
    assert s[0..|t.tag|] == s[..|t.tag|];
    VarintExact(s, |t.tag|);
    LowBits(t.tag);
  }

  lemma {:induction false} KeptIsUnknown(n: nat, ts: seq<Tree>)
    requires Kept(n, ts) && |Flatten(ts)| < TWO_63
    ensures IsUnknown(UnknownLen, n, Flatten(ts))
    decreases |ts|
  {
    if ts != [] {
      var rest := Flatten(ts[1..]);
      KeptLength(n, ts[0], rest);
      assert (Bytes(ts[0]) + rest)[|Bytes(ts[0])|..] == rest;
      assert |ts[0].tag| > 0;
      KeptIsUnknown(n, ts[1..]);
    }
  }

  lemma FirstKept(n: nat, u: seq<byte>) returns (t: Tree)
    requires UnknownLen(n, u) > 0
    ensures Good(t) && FieldNumber(t) > n && u[..UnknownLen(n, u)] == Bytes(t)
  {
    var at, k := Decode(u, 0).len, UnknownLen(n, u);
    t := Taken(u);
    assert u[0..k] == u[..k];
    VarintExact(u, at);
    TagIs(u, k, at, t);
  }

  lemma {:induction false} UnknownIsKept(n: nat, u: seq<byte>) returns (ts: seq<Tree>)
    requires IsUnknown(UnknownLen, n, u)
    ensures Kept(n, ts) && u == Flatten(ts)
    decreases |u|
  {
    ts := [];
    if u != [] {
      var k := UnknownLen(n, u);
      var t := FirstKept(n, u);
      var rest := UnknownIsKept(n, u[k..]);
      ts := [t] + rest;
      assert ts[1..] == rest && u == u[..k] + u[k..];
    }
  }

  /** Unmarshal of Marshal into an empty message gives the message back if and only if its unknown bytes
      are records, none of them of a declared field. */
  lemma RoundTripExact(r: Record)
    requires Typed(r) && |Encoded(r)| < TWO_63
    ensures Unmarshal(Empty(r), Encoded(r)) == Outcome(r, None) <==>
            exists ts :: Kept(|r.fields|, ts) && r.unknown == Flatten(ts)
  {
    WireLaws.RoundTrip(r);
    UnknownWithin(r, 0);
    if IsUnknown(UnknownLen, |r.fields|, r.unknown) {
      var ts := UnknownIsKept(|r.fields|, r.unknown);
    }
    if exists ts :: Kept(|r.fields|, ts) && r.unknown == Flatten(ts) {
      var ts :| Kept(|r.fields|, ts) && r.unknown == Flatten(ts);
      KeptIsUnknown(|r.fields|, ts);
    }
  }

  // ----- What Marshal writes -------------------------------------------------------------------------

  lemma EncodeIsVarint(v: uint64)
    ensures IsVarint(Varint.Encode(v)) && NumberOf(Varint.Encode(v)) == v
  {
    var e := Varint.Encode(v);
    Varint.RoundTrip64(v, []);
    assert e + [] == e && e[..|e|] == e;
    VarintExact(e, |e|);
  }

  /** A field that is not zero is written as one record, with its number, its wire type and its value. */
  lemma FieldIsTree(k: nat, v: Value) returns (t: Tree)
    requires k < 15 && v != Zero(v) && if v.Chunk? then |v.bytes| < TWO_63 else v.n < TWO_32
    ensures Good(t) && Bytes(t) == EncodeField(k, v) && FieldNumber(t) == k + 1
    ensures match v case Chunk(b) => t.payload.Delimited? && t.payload.body == b
                    case Number(n) => t.payload.Base128? && NumberOf(t.payload.v) == n
  {
    match v
    case Chunk(b) => t := ChunkIsTree(k + 1, 8 * (k + 1) + 2, b);
    case Number(n) => t := NumberIsTree(k + 1, 8 * (k + 1), n);
  }

  lemma ChunkIsTree(num: nat, tag: byte, b: seq<byte>) returns (t: Tree)
    requires tag == 8 * num + 2 < 128 && |b| < TWO_63
    ensures Good(t) && Bytes(t) == [tag] + Varint.Encode(|b|) + b && FieldNumber(t) == num
    ensures t.payload.Delimited? && t.payload.body == b
  {
    var count := Varint.Encode(|b|);
    OneByteTag(tag, num, 2);
    EncodeIsVarint(|b|);
    t := Tree([tag], Delimited(count, b));
    Associate([tag], count, b);
  }

  lemma NumberIsTree(num: nat, tag: byte, n: uint64) returns (t: Tree)
    requires tag == 8 * num < 128
    ensures Good(t) && Bytes(t) == [tag] + Varint.Encode(n) && FieldNumber(t) == num
    ensures t.payload.Base128? && NumberOf(t.payload.v) == n
  {
    OneByteTag(tag, num, 0);
    EncodeIsVarint(n);
    t := Tree([tag], Base128(Varint.Encode(n)));
  }

  lemma OneByteTag(b: byte, num: nat, wireType: nat)
    requires b == 8 * num + wireType < 128 && wireType < 8
    ensures Tagged([b], wireType) && ToInt32(NumberOf([b]) % TWO_64 / 8) == num
  {
    OneByte(b);
    SmallTag(b, num, wireType);
  }

  lemma OneByte(b: byte)
    requires b < 128
    ensures IsVarint([b]) && NumberOf([b]) == b
  {
    var s := [b];
    assert s[1..] == [] && NumberOf(s[1..]) == 0;
  }

  /** The records of the fields from k on that are not zero, by number. */
  ghost predicate Written(r: Record, k: nat, ts: seq<Tree>)
    requires k <= |r.fields|
    decreases |r.fields| - k
  {
    if k == |r.fields| then ts == []
    else if r.fields[k] == Zero(r.fields[k]) then Written(r, k + 1, ts)
    else
      && ts != [] && Good(ts[0]) && FieldNumber(ts[0]) == k + 1
      && (match r.fields[k]
          case Chunk(b) => ts[0].payload.Delimited? && ts[0].payload.body == b
          case Number(n) => ts[0].payload.Base128? && NumberOf(ts[0].payload.v) == n)
      && Written(r, k + 1, ts[1..])
  }

  lemma {:induction false} WrittenFrom(r: Record, k: nat) returns (ts: seq<Tree>)
    requires Typed(r) && k <= |r.fields| && |EncodeFrom(r, k)| < TWO_63
    ensures Written(r, k, ts) && EncodeFrom(r, k) == Flatten(ts) + r.unknown
    decreases |r.fields| - k
  {
    if k == |r.fields| {
      ts := [];
    } else {
      var v := r.fields[k];
      var rest := WrittenFrom(r, k + 1);
      if v == Zero(v) {
        ts := rest;
      } else {
        var t := FieldIsTree(k, v);
        ts := [t] + rest;
        assert ts[1..] == rest;
        Associate(Bytes(t), Flatten(rest), r.unknown);
      }
    }
  }

  /** Marshal writes the fields that are not zero, each once and by number, and then the unknown bytes. */
  lemma MarshalExact(r: Record)
    requires Typed(r) && |Encoded(r)| < TWO_63
    ensures exists ts :: Written(r, 0, ts) && Encoded(r) == Flatten(ts) + r.unknown
  {
    var ts := WrittenFrom(r, 0);
  }
}
