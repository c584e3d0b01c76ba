// docker/ssl/authorization.js: the password that nginx takes out of an MQTT CONNECT packet, and the
// packets of MQTT 3.1.1 (sections 2.2.3 and 3.1) for which it takes the right one.
module MqttConnect {
  import opened Bits
  import opened Common
  import Varint

  /** Refused: the call logs an error and returns ''. Thrown: it asks for a character past the end and
      calls a method of undefined. */
  datatype Outcome = Found(password: seq<byte>) | Refused | Thrown

  /** Where the parser believes a field to be: its first byte and its length. */
  datatype Span = Span(start: nat, len: nat)

  // ----- Two-byte lengths, through hexadecimal text --------------------------------------------------

  type Digit = d: nat | d < 16

  /** b.toString(16) */
  function Hex(b: byte): seq<Digit> {
    if b < 16 then [b] else [b / 16, b % 16]
  }

  /** parseInt(s, 16) */
  function ParseHex(s: seq<Digit>): nat {
    if s == [] then 0 else ParseHex(s[..|s| - 1]) * 16 + s[|s| - 1]
  }

  /** Number(s), when the text is a decimal number. */
  function Decimal(s: seq<Digit>): Option<nat> {
    if s == [] then Some(0)
    else if s[|s| - 1] >= 10 then None
    else
      match Decimal(s[..|s| - 1])
      case None => None
      case Some(n) => Some(n * 10 + s[|s| - 1])
  }

  /** calcLen: the low text is padded only when it compares below 2 as a number. */
  function CalcLen(msb: seq<Digit>, lsb: seq<Digit>): nat {
    var n := Decimal(lsb);
    ParseHex(msb + if n.Some? && n.value < 2 then [0] + lsb else lsb)
  }

  /** The length that a field's two prefix bytes give the parser. */
  function Length(m: byte, l: byte): nat {
    CalcLen(Hex(m), Hex(l))
  }

  /** The prefixes that calcLen reads as section 1.5.3 of MQTT 3.1.1 means them. */
  predicate Readable(m: byte, l: byte) {
    m == 0 || l < 2 || l >= 16
  }

  lemma DecimalBelowTwo(l: byte)
    ensures var n := Decimal(Hex(l)); n.Some? && n.value < 2 <==> l < 2
  {
    var h := Hex(l);
    if l < 16 {
      assert h[..0] == [];
    } else {
      assert h[..1] == [l / 16] && h[..1][..0] == [];
    }
  }

  lemma ParseHexLast(s: seq<Digit>, d: Digit)
    ensures ParseHex(s + [d]) == ParseHex(s) * 16 + d
  {
    assert (s + [d])[..|s|] == s;
  }

  lemma ParseHexOf(b: byte)
    ensures ParseHex(Hex(b)) == b
  {
    ParseHexLast([], Hex(b)[0]);
    assert [] + [Hex(b)[0]] == [Hex(b)[0]];
    if b >= 16 {
      ParseHexLast([b / 16], b % 16);
      assert Hex(b) == [b / 16] + [b % 16];
    }
  }

  lemma LengthIs(m: byte, l: byte)
    ensures Length(m, l) == if l < 2 || l >= 16 then m * 256 + l else m * 16 + l
  {
    DecimalBelowTwo(l);
    ParseHexOf(m);
    var h := Hex(m);
    if l < 2 {
      assert h + ([0] + [l]) == (h + [0]) + [l];
      ParseHexLast(h, 0);
      ParseHexLast(h + [0], l);
    } else if l < 16 {
      ParseHexLast(h, l);
    } else {
      assert h + [l / 16, l % 16] == (h + [l / 16]) + [l % 16];
      ParseHexLast(h, l / 16);
      ParseHexLast(h + [l / 16], l % 16);
    }
  }

  /** calcLen gives the big-endian value if and only if the prefix is readable; otherwise it gives less. */
  lemma LengthExact(m: byte, l: byte)
    ensures Length(m, l) == m * 256 + l <==> Readable(m, l)
    ensures Length(m, l) <= m * 256 + l
  {
    LengthIs(m, l);
  }

  /** How two prefix bytes become a length. */
  type Lengths = (byte, byte) -> nat

  // ----- The parser ----------------------------------------------------------------------------------

  /** How many bytes from position i up to 4 stand above 128 before the first that does not. */
  function Continued(data: seq<byte>, i: nat): (n: nat)
    decreases 5 - i
  {
    if i < 5 && i < |data| && data[i] > 128 then Continued(data, i + 1) + 1 else 0
  }

  /** They are the bytes from position 1 up to the first that is not above 128, at most four. */
  lemma ContinuedExact(data: seq<byte>)
    ensures var c := Continued(data, 1);
            && c <= 4 && c < (if |data| > 1 then |data| else 1)
            && (forall j :: 1 <= j <= c ==> data[j] > 128)
            && (c < 4 && c + 1 < |data| ==> data[c + 1] <= 128)
  {
    ContinuedFrom(data, 1);
  }

  lemma {:induction false} ContinuedFrom(data: seq<byte>, i: nat)
    requires 1 <= i <= 5
    ensures var c := Continued(data, i);
            && i + c <= 5 && (c > 0 ==> i + c <= |data|)
            && (forall j :: i <= j < i + c ==> data[j] > 128)
            && (i + c < 5 && i + c < |data| ==> data[i + c] <= 128)
    decreases 5 - i
  {
    if i < 5 && i < |data| && data[i] > 128 {
      ContinuedFrom(data, i + 1);
    }
  }

  function FlagsAt(data: seq<byte>): nat {
    1 + (1 + Continued(data, 1)) + 2 + 4 + 1
  }

  /** The spans the loop goes through for k fields from shift on, or None when it throws. */
  function Reads(length: Lengths, data: seq<byte>, shift: nat, k: nat): (r: Option<seq<Span>>)
    ensures r.Some? ==> |r.value| == k && forall i :: 0 <= i < k ==> r.value[i].start <= |data|
    decreases k
  {
    if k == 0 then Some([])
    else if shift + 1 >= |data| then None
    else
      var span := Span(shift + 2, length(data[shift], data[shift + 1]));
      match Reads(length, data, span.start + span.len, k - 1)
      case None => None
      case Some(rest) => Some([span] + rest)
  }

  /** The spans of a whole packet; None also for a packet whose flags are below 192. */
  function Spans(length: Lengths, data: seq<byte>): (r: Option<seq<Span>>)
    ensures r.Some? ==> |r.value| >= 3 && forall i :: 0 <= i < |r.value| ==> r.value[i].start <= |data|
  {
    var at := FlagsAt(data);
    if at < |data| && data[at] < 192 then None
    else Reads(length, data, at + 3, if at < |data| && data[at] >= 196 then 5 else 3)
  }

  /** data.substring(start, start + len) */
  function Substring(data: seq<byte>, span: Span): seq<byte>
    requires span.start <= |data|
  {
    data[span.start..if span.start + span.len <= |data| then span.start + span.len else |data|]
  }

  function Parsed(length: Lengths, data: seq<byte>): Outcome {
    var at := FlagsAt(data);
    if at < |data| && data[at] < 192 then Refused
    else
      match Spans(length, data)
      case None => Thrown
      case Some(spans) => Found(Substring(data, spans[|spans| - 1]))
  }

  function Prepend(done: seq<Span>, rest: Option<seq<Span>>): Option<seq<Span>> {
    if rest.None? then None else Some(done + rest.value)
  }

  lemma PrependNone(rest: Option<seq<Span>>)
    ensures Prepend([], rest) == rest
  {
    assert rest.Some? ==> [] + rest.value == rest.value;
  }

  /** The loop before a field: the spans so far, and k more to come from shift on. */
  predicate Reading(length: Lengths, data: seq<byte>, shift: nat, k: nat, done: seq<Span>, all: Option<seq<Span>>) {
    all == Prepend(done, Reads(length, data, shift, k))
  }

  /** One round of the loop. */
  lemma ReadsNext(length: Lengths, data: seq<byte>, shift: nat, k: nat, done: seq<Span>, all: Option<seq<Span>>)
    requires k > 0 && Reading(length, data, shift, k, done, all)
    ensures shift + 1 >= |data| ==> all == None
    ensures shift + 1 < |data| ==>
              var len := length(data[shift], data[shift + 1]);
              var more := done + [Span(shift + 2, len)];
              if k == 1 then all == Some(more) else Reading(length, data, shift + 2 + len, k - 1, more, all)
  {
    if shift + 1 < |data| {
      var span := Span(shift + 2, length(data[shift], data[shift + 1]));
      var rest := Reads(length, data, span.start + span.len, k - 1);
      if rest.Some? {
        assert done + ([span] + rest.value) == (done + [span]) + rest.value;
        assert rest.value == [] ==> (done + [span]) + rest.value == done + [span];
      }
    }
  }

  /** The loop over the remaining length: how many bytes it takes. */
  method LengthSize(data: seq<byte>) returns (lenSize: nat)
    ensures lenSize == 1 + Continued(data, 1)
  {
    lenSize := 1;
    var i := 1;
    while i < 5
      invariant 1 <= i <= 5 && lenSize == i
      invariant lenSize + Continued(data, i) == 1 + Continued(data, 1)
    {
      if i < |data| && data[i] > 128 {
        lenSize, i := lenSize + 1, i + 1;
      } else {
        break;
      }
    }
  }

  /** The loop over the length-prefixed fields; returns the span of the last. */
  method ReadFields(length: Lengths, data: seq<byte>, start: nat, fields: nat) returns (r: Option<Span>)
    requires fields > 0
    ensures var all := Reads(length, data, start, fields);
            if all.None? then r == None else r == Some(all.value[fields - 1])
  {
    var shift: nat, len: nat, i: nat := start, 0, 0;
    ghost var done: seq<Span>, all := [], Reads(length, data, start, fields);
    PrependNone(all);
    while i < fields
      invariant i <= fields && |done| == i
      invariant i < fields ==> Reading(length, data, shift, fields - i, done, all)
      invariant i == fields ==> all == Some(done) && done[|done| - 1] == Span(shift, len)
    {
      ReadsNext(length, data, shift, fields - i, done, all);
      if shift + 1 >= |data| {
        return None;
      }
      len := length(data[shift], data[shift + 1]);
      shift := shift + 2;
      done := done + [Span(shift, len)];
      if i != fields - 1 {
        shift := shift + len;
      }
      i := i + 1;
    }
    r := Some(Span(shift, len));
  }

  /** The whole call, once the number of fields is known. */
  lemma ParsedFields(length: Lengths, data: seq<byte>, at: nat, fields: nat)
    requires at == FlagsAt(data) && !(at < |data| && data[at] < 192)
    requires fields == if at < |data| && data[at] >= 196 then 5 else 3
    ensures var all := Reads(length, data, at + 3, fields);
            Parsed(length, data) == if all.None? then Thrown else Found(Substring(data, all.value[fields - 1]))
  {
    assert Spans(length, data) == Reads(length, data, at + 3, fields);
  }

  method ParsePackage(data: seq<byte>) returns (r: Outcome)
    ensures r == Parsed(Length, data)
  {
    var lenSize := LengthSize(data);
    var flagsPos := 1 + lenSize + 2 + 4 + 1;
    if flagsPos < |data| && data[flagsPos] < 192 {
      return Refused;
    }
    var fields: nat := if flagsPos < |data| && data[flagsPos] >= 196 then 5 else 3;
    ParsedFields(Length, data, flagsPos, fields);
    var span := ReadFields(Length, data, flagsPos + 1 + 2, fields);
    r := if span.None? then Thrown else Found(Substring(data, span.value));
  }

  // ----- CONNECT packets -----------------------------------------------------------------------------

  /** A CONNECT packet: fixed header byte, protocol name and level, flags, keep alive, and the fields of
      the payload in order (client identifier, will topic and will message, user name, password). */
  datatype Packet = Packet(header: byte, name: seq<byte>, level: byte, flags: byte, keepAlive: (byte, byte),
                           fields: seq<seq<byte>>)

  /** Section 3.1.2: both credential flags, reserved bit 0, and no will option without a will. */
  predicate FlagsWellFormed(flags: byte) {
    && flags / 64 == 3
    && flags % 2 == 0
    && ((flags / 4) % 2 == 0 ==> (flags / 8) % 8 == 0)
  }

  /** The parts have lengths that can be written. */
  predicate Framed(p: Packet) {
    && |p.name| == 4
    && (forall i :: 0 <= i < |p.fields| ==> |p.fields[i]| < 0x10000)
    && |Rest(p)| < 0x1000_0000
  }

  predicate WellFormed(p: Packet) {
    && Framed(p)
    && FlagsWellFormed(p.flags)
    && |p.fields| == (if (p.flags / 4) % 2 == 1 then 5 else 3)
  }

  function Field(f: seq<byte>): seq<byte>
    requires |f| < 0x10000
  {
    [|f| / 256, |f| % 256] + f
  }

  function Payload(fields: seq<seq<byte>>): seq<byte>
    requires forall i :: 0 <= i < |fields| ==> |fields[i]| < 0x10000
  {
    if fields == [] then [] else Field(fields[0]) + Payload(fields[1..])
  }

  /** Variable header and payload. */
  function Rest(p: Packet): seq<byte>
    requires forall i :: 0 <= i < |p.fields| ==> |p.fields[i]| < 0x10000
  {
    [0, 4] + p.name + [p.level, p.flags, p.keepAlive.0, p.keepAlive.1] + Payload(p.fields)
  }

  /** Section 2.2.3: the remaining length has the form of a Protocol Buffers varint. */
  function Bytes(p: Packet): seq<byte>
    requires Framed(p)
  {
    [p.header] + Varint.Encode(|Rest(p)|) + Rest(p)
  }

  predicate PrefixReadable(f: seq<byte>)
    requires |f| < 0x10000
  {
    Readable(|f| / 256, |f| % 256)
  }

  /** Where the fields really are, the first prefix standing at shift. */
  function TrueSpans(fields: seq<seq<byte>>, shift: nat): seq<Span> {
    if fields == [] then [] else [Span(shift + 2, |fields[0]|)] + TrueSpans(fields[1..], shift + 2 + |fields[0]|)
  }

  function FirstPrefix(p: Packet): nat
    requires Framed(p)
  {
    1 + |Varint.Encode(|Rest(p)|)| + 10
  }

  lemma {:induction false} EncodedSize(n: nat, k: nat)
    requires k >= 1 && n < Groups(k)
    ensures |Varint.Encode(n)| <= k
  {
    if n >= 128 {
      EncodedSize(n / 128, k - 1);
    }
  }

  /** 2 to the power of 7k */
  function Groups(k: nat): nat {
    if k == 0 then 1 else 128 * Groups(k - 1)
  }

  /** Counting continuation bytes finds the end of the remaining length unless one of them is 128. */
  lemma {:induction false} ContinuedIs(pre: seq<byte>, n: nat, post: seq<byte>)
    requires 1 <= |pre| && |pre| + |Varint.Encode(n)| <= 5
    ensures var c := Continued(pre + Varint.Encode(n) + post, |pre|);
            c < |Varint.Encode(n)| && (c == |Varint.Encode(n)| - 1 <==> 128 !in Varint.Encode(n))
    decreases n
  {
    var s := Varint.Encode(n);
    var data := pre + s + post;
    assert data[|pre|] == s[0];
    if n >= 128 {
      var t := Varint.Encode(n / 128);
      assert s == [s[0]] + t;
      ContinuedIs(pre + [s[0]], n / 128, post);
      assert (pre + [s[0]]) + t + post == data;
    }
  }

  /** The fields stand in data, one after the other, each with its prefix. */
  ghost predicate LaidOut(data: seq<byte>, shift: nat, fields: seq<seq<byte>>)
    decreases |fields|
  {
    fields == [] ||
    var f := fields[0];
    && |f| < 0x10000
    && shift + 2 + |f| <= |data|
    && data[shift] == |f| / 256
    && data[shift + 1] == |f| % 256
    && data[shift + 2..shift + 2 + |f|] == f
    && LaidOut(data, shift + 2 + |f|, fields[1..])
  }

  /** The head of the payload, seen in the whole packet. */
  lemma FieldAt(pre: seq<byte>, f: seq<byte>, more: seq<byte>, post: seq<byte>)
    requires |f| < 0x10000
    ensures var data := pre + (Field(f) + more) + post;
            && data == (pre + Field(f)) + more + post
            && |pre| + 2 + |f| <= |data|
            && data[|pre|] == |f| / 256
            && data[|pre| + 1] == |f| % 256
            && data[|pre| + 2..|pre| + 2 + |f|] == f
  {
  }

  lemma {:induction false} PayloadLaidOut(pre: seq<byte>, fields: seq<seq<byte>>, post: seq<byte>)
    requires forall i :: 0 <= i < |fields| ==> |fields[i]| < 0x10000
    ensures LaidOut(pre + Payload(fields) + post, |pre|, fields)
    decreases |fields|
  {
    if fields != [] {
      FieldAt(pre, fields[0], Payload(fields[1..]), post);
      PayloadLaidOut(pre + Field(fields[0]), fields[1..], post);
    }
  }

  /** calcLen gives a field's length if and only if its prefix is readable; otherwise it gives less. */
  lemma GuessExact(n: nat)
    requires n < 0x10000
    ensures Guess(Length, n) <= n && (Guess(Length, n) == n <==> Readable(n / 256, n % 256))
  {
    LengthExact(n / 256, n % 256);
  }

  /** What the two bytes of a true length become. */
  function Guess(length: Lengths, n: nat): nat
    requires n < 0x10000
  {
    length(n / 256, n % 256)
  }

  /** From the true place of the first prefix on, the loop finds every field if and only if every
      prefix gives its length. */
  lemma {:induction false} ReadsExact(length: Lengths, data: seq<byte>, shift: nat, fields: seq<seq<byte>>)
    requires LaidOut(data, shift, fields) && forall i :: 0 <= i < |fields| ==> |fields[i]| < 0x10000
    ensures Reads(length, data, shift, |fields|) == Some(TrueSpans(fields, shift)) <==>
            forall i :: 0 <= i < |fields| ==> Guess(length, |fields[i]|) == |fields[i]|
    decreases |fields|
  {
    if fields != [] {
      var f, more := fields[0], fields[1..];
      var at, len := shift + 2 + |f|, Guess(length, |f|);
      assert fields == [f] + more;
      assert Reads(length, data, shift, |fields|)
          == Prepend([Span(shift + 2, len)], Reads(length, data, shift + 2 + len, |more|));
      Heads(shift + 2, len, |f|, Reads(length, data, shift + 2 + len, |more|), TrueSpans(more, at));
      ReadsExact(length, data, at, more);
    }
  }

  lemma Heads(at: nat, a: nat, b: nat, rest: Option<seq<Span>>, t: seq<Span>)
    ensures Prepend([Span(at, a)], rest) == Some([Span(at, b)] + t) <==> a == b && rest == Some(t)
  {
    if rest.Some? {
      var x, y := [Span(at, a)] + rest.value, [Span(at, b)] + t;
      assert x[1..] == rest.value && y[1..] == t && x[0] == Span(at, a) && y[0] == Span(at, b);
    }
  }

  lemma FlagsMean(flags: byte)
    requires FlagsWellFormed(flags)
    ensures flags >= 192 && (flags >= 196 <==> (flags / 4) % 2 == 1)
  {
  }

  /** The exact condition: in every well-formed packet with both credentials, whatever follows it, the
      parser finds every field where it is if and only if no byte of the remaining length is 128 and
      every length prefix has high byte 0 or low byte outside 2..15. */
  lemma FieldsFoundExact(p: Packet, post: seq<byte>)
    requires WellFormed(p)
    ensures Spans(Length, Bytes(p) + post) == Some(TrueSpans(p.fields, FirstPrefix(p))) <==>
            128 !in Varint.Encode(|Rest(p)|) && forall i :: 0 <= i < |p.fields| ==> PrefixReadable(p.fields[i])
  {
    PacketLaidOut(p, post);
    var data, at := Loop(Length, p, post);
    ReadsExact(Length, data, at, p.fields);
    forall i | 0 <= i < |p.fields|
      ensures Guess(Length, |p.fields[i]|) == |p.fields[i]| <==> PrefixReadable(p.fields[i])
    {
      GuessExact(|p.fields[i]|);
    }
    if 128 in Varint.Encode(|Rest(p)|) {
      var spans := Spans(Length, data);
      assert spans.Some? ==> spans.value[0].start == FlagsAt(data) + 5;
      assert TrueSpans(p.fields, at)[0].start == at + 2;
    }
  }

  /** The byte k places into the variable header, seen in the whole packet. */
  lemma HeaderBytes(h: byte, len: seq<byte>, rest: seq<byte>, post: seq<byte>)
    requires |rest| >= 8
    ensures var data := [h] + len + rest + post;
            |data| > 1 + |len| + 7 && data[1 + |len| + 4..1 + |len| + 8] == rest[4..8]
    ensures [h] + len + rest + post == [h] + len + (rest + post)
  {
  }

  lemma HeaderFound(p: Packet, post: seq<byte>)
    requires Framed(p)
    ensures var data, at := Bytes(p) + post, FirstPrefix(p) - 3;
            && FlagsAt(data) <= at < |data| && FlagsAt(data) >= at - 3
            && (FlagsAt(data) == at <==> 128 !in Varint.Encode(|Rest(p)|))
            && data[at - 3..at + 1] == p.name[2..] + [p.level, p.flags]
  {
    var len, rest := Varint.Encode(|Rest(p)|), Rest(p);
    assert Groups(4) == 0x1000_0000;
    EncodedSize(|rest|, 4);
    assert rest[4..8] == p.name[2..] + [p.level, p.flags];
    HeaderBytes(p.header, len, rest, post);
    ContinuedIs([p.header], |rest|, rest + post);
  }

  /** The flags are the last of those bytes. */
  lemma FlagsFound(p: Packet, post: seq<byte>)
    requires Framed(p)
    ensures var data, at := Bytes(p) + post, FirstPrefix(p) - 3; at < |data| && data[at] == p.flags
  {
    HeaderFound(p, post);
    var data, at := Bytes(p) + post, FirstPrefix(p) - 3;
    assert data[at] == data[at - 3..at + 1][3];
  }

  /** The fields stand in the packet from the first prefix on. */
  lemma PacketLaidOut(p: Packet, post: seq<byte>)
    requires Framed(p)
    ensures LaidOut(Bytes(p) + post, FirstPrefix(p), p.fields)
  {
    var fixed := [0, 4] + p.name + [p.level, p.flags, p.keepAlive.0, p.keepAlive.1];
    var pre := [p.header] + Varint.Encode(|Rest(p)|) + fixed;
    assert pre + Payload(p.fields) + post == Bytes(p) + post;
    PayloadLaidOut(pre, p.fields, post);
  }

  /** The loop that reads the fields, and where it starts. */
  lemma Loop(length: Lengths, p: Packet, post: seq<byte>) returns (data: seq<byte>, at: nat)
    requires WellFormed(p)
    ensures data == Bytes(p) + post && at == FirstPrefix(p) && FlagsAt(data) + 3 <= at
    ensures FlagsAt(data) + 3 == at <==> 128 !in Varint.Encode(|Rest(p)|)
    ensures FlagsAt(data) + 3 == at ==>
              Spans(length, data) == Reads(length, data, at, |p.fields|) && Parsed(length, data) != Refused
  {
    data, at := Bytes(p) + post, FirstPrefix(p);
    HeaderFound(p, post);
    FlagsFound(p, post);
    FlagsMean(p.flags);
  }

  /** Where the last field's prefix stands. */
  function LastPrefix(shift: nat, fields: seq<seq<byte>>): nat
    requires fields != []
    decreases |fields|
  {
    if |fields| == 1 then shift else LastPrefix(shift + 2 + |fields[0]|, fields[1..])
  }

  lemma {:induction false} LastLies(data: seq<byte>, shift: nat, fields: seq<seq<byte>>)
    requires fields != [] && LaidOut(data, shift, fields)
    ensures var at, last := LastPrefix(shift, fields), fields[|fields| - 1];
            at + 2 + |last| <= |data| && data[at + 2..at + 2 + |last|] == last
    decreases |fields|
  {
    if |fields| > 1 {
      LastLies(data, shift + 2 + |fields[0]|, fields[1..]);
    }
  }

  lemma {:induction false} LastSpan(shift: nat, fields: seq<seq<byte>>)
    requires fields != []
    ensures var spans := TrueSpans(fields, shift);
            |spans| == |fields| && spans[|spans| - 1] == Span(LastPrefix(shift, fields) + 2, |fields[|fields| - 1]|)
    decreases |fields|
  {
    if |fields| > 1 {
      LastSpan(shift + 2 + |fields[0]|, fields[1..]);
    }
  }

  /** The last span holds the last field. */
  lemma LastField(data: seq<byte>, shift: nat, fields: seq<seq<byte>>)
    requires fields != [] && LaidOut(data, shift, fields)
    ensures var spans := TrueSpans(fields, shift);
            |spans| == |fields| && spans[|spans| - 1].start <= |data| &&
            Substring(data, spans[|spans| - 1]) == fields[|fields| - 1]
  {
    LastSpan(shift, fields);
    LastLies(data, shift, fields);
    SubstringAll(data, LastPrefix(shift, fields) + 2, fields[|fields| - 1]);
  }

  lemma SubstringAll(data: seq<byte>, at: nat, f: seq<byte>)
    requires at + |f| <= |data| && data[at..at + |f|] == f
    ensures Substring(data, Span(at, |f|)) == f
  {
  }

  /** For those packets the parser returns exactly the password field, with or without a will. */
  lemma PasswordFound(p: Packet, post: seq<byte>)
    requires WellFormed(p) && 128 !in Varint.Encode(|Rest(p)|)
    requires forall i :: 0 <= i < |p.fields| ==> PrefixReadable(p.fields[i])
    ensures Parsed(Length, Bytes(p) + post) == Found(p.fields[|p.fields| - 1])
  {
    FieldsFoundExact(p, post);
    PacketLaidOut(p, post);
    var data, at := Loop(Length, p, post);
    LastField(data, at, p.fields);
  }

  /** Sections 3.1.2.1 and 3.1.2.2: the name is "MQTT" and the level is 4. */
  predicate Version311(p: Packet) {
    p.name == [0x4D, 0x51, 0x54, 0x54] && p.level == 4
  }

  /** A remaining-length byte of 128 makes the parser take a byte of the name or the level for the flags:
      it refuses every such packet, and no other. */
  lemma RefusedExact(p: Packet, post: seq<byte>)
    requires WellFormed(p) && Version311(p)
    ensures Parsed(Length, Bytes(p) + post) == Refused <==> 128 in Varint.Encode(|Rest(p)|)
  {
    HeaderFound(p, post);
    var data, at := Loop(Length, p, post);
    if 128 in Varint.Encode(|Rest(p)|) {
      EarlyRefused(Length, data, at - 3, p.flags);
    }
  }

  /** A byte of the name or the level is taken for the flags. */
  lemma EarlyRefused(length: Lengths, data: seq<byte>, at: nat, flags: byte)
    requires 3 <= at < |data| && data[at - 3..at + 1] == [0x54, 0x54, 4, flags]
    requires at - 3 <= FlagsAt(data) < at
    ensures Parsed(length, data) == Refused
  {
    var window, i := data[at - 3..at + 1], FlagsAt(data);
    assert data[i] == window[i - (at - 3)];
  }

  /** Where the flags are found, a packet is refused exactly when it lacks a credential flag. */
  lemma CredentialsExact(p: Packet, post: seq<byte>)
    requires Framed(p) && 128 !in Varint.Encode(|Rest(p)|)
    ensures Parsed(Length, Bytes(p) + post) == Refused <==> p.flags / 64 != 3
  {
    HeaderFound(p, post);
    FlagsFound(p, post);
  }

  // ----- Packets that are cut short -------------------------------------------------------------------

  /** The first k bytes, or all if there are fewer. */
  function Front(f: seq<byte>, k: nat): seq<byte> {
    f[..if k < |f| then k else |f|]
  }

  /** On the first n bytes the loop gets to the last field if and only if both bytes of its length are there. */
  lemma {:induction false} CutReads(length: Lengths, data: seq<byte>, shift: nat, fields: seq<seq<byte>>, n: nat)
    requires fields != [] && LaidOut(data, shift, fields) && n <= |data|
    requires forall i :: 0 <= i < |fields| ==> |fields[i]| < 0x10000 && Guess(length, |fields[i]|) == |fields[i]|
    ensures var r, at := Reads(length, data[..n], shift, |fields|), LastPrefix(shift, fields);
            && shift <= at
            && (r.Some? <==> at + 2 <= n)
            && (r.Some? ==> r.value[|fields| - 1] == Span(at + 2, |fields[|fields| - 1]|))
    decreases |fields|
  {
    var f, more, cut := fields[0], fields[1..], data[..n];
    if |fields| > 1 {
      var next := shift + 2 + |f|;
      CutReads(length, data, next, more, n);
      if shift + 1 < n {
        assert cut[shift] == data[shift] && cut[shift + 1] == data[shift + 1];
        CutStep(length, cut, shift, |f|, |more|);
      }
    } else if shift + 1 < n {
      assert cut[shift] == data[shift] && cut[shift + 1] == data[shift + 1];
      CutStep(length, cut, shift, |f|, 0);
    }
  }

  lemma CutStep(length: Lengths, cut: seq<byte>, shift: nat, len: nat, k: nat)
    requires shift + 1 < |cut| && length(cut[shift], cut[shift + 1]) == len
    ensures var rest := Reads(length, cut, shift + 2 + len, k);
            Reads(length, cut, shift, k + 1) == Prepend([Span(shift + 2, len)], rest)
  {
  }

  /** Of a readable packet whose bytes have not all arrived, the call throws unless the password's length has; then
      it takes what is there of the password. */
  lemma CutExact(p: Packet, n: nat)
    requires WellFormed(p) && 128 !in Varint.Encode(|Rest(p)|) && n <= |Bytes(p)|
    requires forall i :: 0 <= i < |p.fields| ==> PrefixReadable(p.fields[i])
    ensures var at, password := LastPrefix(FirstPrefix(p), p.fields), p.fields[|p.fields| - 1];
            Parsed(Length, Bytes(p)[..n]) ==
              if n < at + 2 then Thrown
              else Found(Front(password, n - (at + 2)))
  {
    var data, first := FlagsPlace(p);
    FlagsMean(p.flags);
    forall i | 0 <= i < |p.fields| ensures Guess(Length, |p.fields[i]|) == |p.fields[i]| {
      GuessExact(|p.fields[i]|);
    }
    CutOutcome(Length, data, n, first, p.fields);
  }

  lemma FlagsPlace(p: Packet) returns (data: seq<byte>, first: nat)
    requires WellFormed(p) && 128 !in Varint.Encode(|Rest(p)|)
    ensures data == Bytes(p) && first == FirstPrefix(p) >= 3 && LaidOut(data, first, p.fields)
    ensures FlagsAt(data) == first - 3 < |data| && data[first - 3] == p.flags
  {
    data, first := Bytes(p), FirstPrefix(p);
    assert data + [] == data;
    PacketLaidOut(p, []);
    HeaderFound(p, []);
    FlagsFound(p, []);
  }

  lemma CutOutcome(length: Lengths, data: seq<byte>, n: nat, first: nat, fields: seq<seq<byte>>)
    requires first >= 3 && FlagsAt(data) == first - 3 < |data| && data[first - 3] >= 192 && n <= |data|
    requires |fields| == if data[first - 3] >= 196 then 5 else 3
    requires LaidOut(data, first, fields)
    requires forall i :: 0 <= i < |fields| ==> |fields[i]| < 0x10000 && Guess(length, |fields[i]|) == |fields[i]|
    ensures var at, password := LastPrefix(first, fields), fields[|fields| - 1];
            Parsed(length, data[..n]) ==
              if n < at + 2 then Thrown
              else Found(Front(password, n - (at + 2)))
  {
    var at, k := LastPrefix(first, fields), |fields|;
    CutReads(length, data, first, fields, n);
    CutSpans(length, data, n, first, k);
    if at + 2 <= n {
      LastLies(data, first, fields);
      CutSubstring(data, n, at + 2, fields[k - 1]);
    }
  }

  lemma CutSpans(length: Lengths, data: seq<byte>, n: nat, first: nat, fields: nat)
    requires first >= 3 && FlagsAt(data) == first - 3 < |data| && data[first - 3] >= 192 && n <= |data|
    requires fields == if data[first - 3] >= 196 then 5 else 3
    ensures var cut := data[..n];
            var r := Reads(length, cut, first, fields);
            && (n < first + 2 ==> r.None?)
            && Parsed(length, cut) == if r.None? then Thrown else Found(Substring(cut, r.value[fields - 1]))
  {
    var cut, at := data[..n], first - 3;
    CutFlags(data, cut, at, data[at]);
    if n > at {
      ParsedFields(length, cut, at, fields);
    } else {
      ParsedFields(length, cut, FlagsAt(cut), 3);
    }
  }

  /** The flags of a cut packet are found in their place or not at all. */
  lemma CutFlags(data: seq<byte>, cut: seq<byte>, at: nat, flags: byte)
    requires cut <= data && FlagsAt(data) == at < |data| && data[at] == flags
    ensures FlagsAt(cut) < |cut| ==> FlagsAt(cut) == at && cut[at] == flags
    ensures |cut| > at ==> FlagsAt(cut) == at
  {
    var from: nat := 1;
    ContinuedCut(data, cut, from);
  }

  lemma {:induction false} ContinuedCut(data: seq<byte>, cut: seq<byte>, i: nat)
    requires cut <= data
    ensures Continued(cut, i) <= Continued(data, i)
    ensures i + Continued(data, i) < |cut| ==> Continued(cut, i) == Continued(data, i)
    ensures Continued(cut, i) < Continued(data, i) ==> i + Continued(cut, i) >= |cut|
    decreases 5 - i
  {
    if i < 5 && i < |data| && data[i] > 128 && i < |cut| {
      assert cut[i] == data[i];
      ContinuedCut(data, cut, i + 1);
    }
  }

  lemma CutSubstring(data: seq<byte>, n: nat, at: nat, f: seq<byte>)
    requires at + |f| <= |data| && data[at..at + |f|] == f && at <= n <= |data|
    ensures Substring(data[..n], Span(at, |f|)) == Front(f, n - at)
  {
    var k := if n - at < |f| then n - at else |f|;
    assert data[..n][at..at + k] == data[at..at + |f|][..k];
  }

  /** When everything before the password is readable, the password comes out right if and only if its
      own prefix is readable; otherwise only a shorter part of it comes out. */
  lemma PasswordExact(p: Packet, post: seq<byte>)
    requires WellFormed(p) && 128 !in Varint.Encode(|Rest(p)|)
    requires forall i :: 0 <= i < |p.fields| - 1 ==> PrefixReadable(p.fields[i])
    ensures Parsed(Length, Bytes(p) + post) == Found(p.fields[|p.fields| - 1]) <==>
            PrefixReadable(p.fields[|p.fields| - 1])
  {
    var last := p.fields[|p.fields| - 1];
    if PrefixReadable(last) {
      PasswordFound(p, post);
    } else {
      forall i | 0 <= i < |p.fields| {
        GuessExact(|p.fields[i]|);
      }
      PasswordShort(Length, p, post);
    }
  }

  lemma PasswordShort(length: Lengths, p: Packet, post: seq<byte>)
    requires WellFormed(p) && 128 !in Varint.Encode(|Rest(p)|)
    requires forall i :: 0 <= i < |p.fields| - 1 ==> Guess(length, |p.fields[i]|) == |p.fields[i]|
    requires Guess(length, |p.fields[|p.fields| - 1]|) < |p.fields[|p.fields| - 1]|
    ensures var r := Parsed(length, Bytes(p) + post);
            r.Found? && |r.password| < |p.fields[|p.fields| - 1]|
  {
    PacketLaidOut(p, post);
    var data, at := Loop(length, p, post);
    LastTooShort(length, data, at, p.fields);
  }

  lemma {:induction false} LastTooShort(length: Lengths, data: seq<byte>, shift: nat, fields: seq<seq<byte>>)
    requires fields != [] && LaidOut(data, shift, fields) && forall i :: 0 <= i < |fields| ==> |fields[i]| < 0x10000
    requires forall i :: 0 <= i < |fields| - 1 ==> Guess(length, |fields[i]|) == |fields[i]|
    requires Guess(length, |fields[|fields| - 1]|) < |fields[|fields| - 1]|
    ensures var r := Reads(length, data, shift, |fields|);
            r.Some? && r.value[|fields| - 1].len < |fields[|fields| - 1]|
    decreases |fields|
  {
    if |fields| == 1 {
      assert Reads(length, data, shift, 1).Some?;
    } else {
      LastTooShort(length, data, shift + 2 + |fields[0]|, fields[1..]);
    }
  }

  // ----- Packets that are not read --------------------------------------------------------------------

  /** A CONNECT packet of a client with an empty identifier and user name, and with this password. */
  function Login(password: seq<byte>): Packet {
    Packet(0x10, [0x4D, 0x51, 0x54, 0x54], 4, 0xC2, (0, 60), [[], [], password])
  }

  lemma LoginSize(password: seq<byte>)
    requires |password| < 0x10000
    ensures WellFormed(Login(password)) && Version311(Login(password)) && |Rest(Login(password))| == 16 + |password|
  {
    var fields := Login(password).fields;
    var two, one := fields[1..], fields[2..];
    assert two[1..] == one && one == [password] && Payload(one[1..]) == [];
    assert Payload(fields) == Field([]) + Payload(two);
    assert Payload(two) == Field([]) + Payload(one);
    assert Payload(one) == Field(password) + [];
  }

  /** Such a packet with a password of 112 bytes has the remaining length 128 and is refused. */
  lemma LoginRefused(password: seq<byte>)
    requires |password| == 112
    ensures var p := Login(password); WellFormed(p) && Version311(p) && Parsed(Length, Bytes(p)) == Refused
  {
    var p := Login(password);
    LoginSize(password);
    assert Varint.Encode(128) == [128] + Varint.Encode(1);
    RefusedExact(p, []);
    assert Bytes(p) + [] == Bytes(p);
  }

  /** One with a password of 258 bytes is read, but the password comes out shorter. */
  lemma LoginCut(password: seq<byte>)
    requires |password| == 258
    ensures var p := Login(password);
            WellFormed(p) && Parsed(Length, Bytes(p)).Found? && |Parsed(Length, Bytes(p)).password| < 258
  {
    var p := Login(password);
    LoginSize(password);
    assert Varint.Encode(274) == [146] + Varint.Encode(2) == [146, 2];
    assert !Readable(258 / 256, 258 % 256);
    forall i | 0 <= i < 3 {
      GuessExact(|p.fields[i]|);
    }
    PasswordShort(Length, p, []);
    assert Bytes(p) + [] == Bytes(p);
  }
}
