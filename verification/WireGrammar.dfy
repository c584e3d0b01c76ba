// What a record is (Protocol Buffers encoding, "Message Structure" and "Groups"): syntax trees and the bytes
// they stand for. The skipper of the generated code passes over exactly the bytes of one tree.
module WireGrammar {
  import opened Bits
  import opened Common
  import opened Varint
  import opened Records
  import opened Wire

  // ----- The grammar ---------------------------------------------------------------------------------

  /** A tag and what it announces. */
  datatype Tree = Tree(tag: seq<byte>, payload: Payload)

  datatype Payload =
    | Base128(v: seq<byte>)
    | Eight(b: seq<byte>)
    | Delimited(count: seq<byte>, body: seq<byte>)
    | Group(items: Items)
    | Four(b: seq<byte>)

  /** Records up to an end-group tag. */
  datatype Items = End(tag: seq<byte>) | More(head: Tree, rest: Items)

  /** One to ten bytes, the high bit set on all but the last. */
  predicate IsVarint(s: seq<byte>) {
    1 <= |s| <= 10 && s[|s| - 1] < 128 && forall i :: 0 <= i < |s| - 1 ==> s[i] >= 128
  }

  /** The seven-bit groups, least significant first. */
  function NumberOf(s: seq<byte>): nat {
    if s == [] then 0 else s[0] % 128 + 128 * NumberOf(s[1..])
  }

  function WireType(p: Payload): nat {
    match p
    case Base128(_) => 0
    case Eight(_) => 1
    case Delimited(_, _) => 2
    case Group(_) => 3
    case Four(_) => 5
  }

  /** The lowest three bits of a tag are the wire type. */
  predicate Tagged(tag: seq<byte>, wireType: nat) {
    IsVarint(tag) && tag[0] % 8 == wireType
  }

  predicate Good(t: Tree) {
    Tagged(t.tag, WireType(t.payload)) && GoodPayload(t.payload)
  }

  /** A varint, eight bytes, a length and that many bytes, a group that ends, or four bytes. */
  predicate GoodPayload(p: Payload) {
    match p
    case Base128(v) => IsVarint(v)
    case Eight(b) => |b| == 8
    case Delimited(count, body) => IsVarint(count) && NumberOf(count) % TWO_64 == |body| < TWO_63
    case Group(items) => GoodItems(items)
    case Four(b) => |b| == 4
  }

  predicate GoodItems(items: Items) {
    match items
    case End(tag) => Tagged(tag, 4)
    case More(head, rest) => Good(head) && GoodItems(rest)
  }

  function Bytes(t: Tree): seq<byte> {
    t.tag + PayloadBytes(t.payload)
  }

  function PayloadBytes(p: Payload): seq<byte> {
    match p
    case Base128(v) => v
    case Eight(b) => b
    case Delimited(count, body) => count + body
    case Group(items) => ItemsBytes(items)
    case Four(b) => b
  }

  function ItemsBytes(items: Items): seq<byte> {
    match items
    case End(tag) => tag
    case More(head, rest) => Bytes(head) + ItemsBytes(rest)
  }

  // ----- Varints -------------------------------------------------------------------------------------

  lemma {:induction false} VarintRead(s: seq<byte>, g: nat)
    requires Decode(s, g).err.None?
    ensures var r := Decode(s, g);
            && 1 <= r.len <= |s| && r.len + g <= 10
            && s[r.len - 1] < 128 && (forall i :: 0 <= i < r.len - 1 ==> s[i] >= 128)
            && r.value == NumberOf(s[..r.len])
    decreases |s|
  {
    var r := Decode(s, g);
    assert s[..r.len][1..] == s[1..][..r.len - 1];
    if s[0] >= 128 {
      VarintRead(s[1..], g + 1);
      forall i | 0 <= i < r.len - 1 ensures s[i] >= 128 {
        if i > 0 {
          assert s[1..][i - 1] >= 128;
        }
      }
    } else {
      assert s[..1][1..] == [];
    }
  }

  lemma {:induction false} VarintIs(s: seq<byte>, g: nat, n: nat)
    requires 1 <= n <= |s| && n + g <= 10
    requires s[n - 1] < 128 && forall i :: 0 <= i < n - 1 ==> s[i] >= 128
    ensures Decode(s, g) == Read(NumberOf(s[..n]), n, None)
    decreases |s|
  {
    assert s[..n][1..] == s[1..][..n - 1];
    if n > 1 {
      VarintIs(s[1..], g + 1, n - 1);
    } else {
      assert s[..1][1..] == [];
    }
  }

  /** The decode loop takes the first n bytes for a number if and only if they are a varint, and then
      it reads the varint's value. */
  lemma VarintExact(s: seq<byte>, n: nat)
    requires n <= |s|
    ensures Decode(s, 0).err.None? && Decode(s, 0).len == n <==> IsVarint(s[..n])
    ensures IsVarint(s[..n]) ==> Decode(s, 0) == Read(NumberOf(s[..n]), n, None)
  {
    if IsVarint(s[..n]) {
      var p := s[..n];
      assert forall i :: 0 <= i < n ==> s[i] == p[i];
      VarintIs(s, 0, n);
    }
    if Decode(s, 0).err.None? && Decode(s, 0).len == n {
      VarintRead(s, 0);
    }
  }

  /** It fails exactly on bytes that all have the high bit set: as an overflow when there are ten or more of
      them in front, and otherwise as an unexpected end. */
  lemma {:induction false} VarintFails(s: seq<byte>, g: nat)
    requires g <= 10
    ensures Decode(s, g).err == Some(IntOverflow) <==>
            |s| + g >= 10 && forall i :: 0 <= i < 10 - g ==> s[i] >= 128
    ensures Decode(s, g).err == Some(UnexpectedEOF) <==>
            |s| + g < 10 && forall i :: 0 <= i < |s| ==> s[i] >= 128
    ensures Decode(s, g).err in {None, Some(IntOverflow), Some(UnexpectedEOF)}
    decreases |s|
  {
    if s != [] && s[0] >= 128 && g < 10 {
      VarintFails(s[1..], g + 1);
      assert forall i :: 0 <= i < |s| - 1 ==> s[1..][i] == s[i + 1];
      if |s| + g >= 10 && forall i :: 0 <= i < 9 - g ==> s[1..][i] >= 128 {
        forall i | 0 <= i < 10 - g ensures s[i] >= 128 {
          assert i > 0 ==> s[i] == s[1..][i - 1];
        }
      }
      if forall i :: 0 <= i < |s| - 1 ==> s[1..][i] >= 128 {
        forall i | 0 <= i < |s| ensures s[i] >= 128 {
          assert i > 0 ==> s[i] == s[1..][i - 1];
        }
      }
    }
  }

  lemma VarintAt(s: seq<byte>, i: nat, k: nat)
    requires i <= k <= |s| && IsVarint(s[i..k])
    ensures Decode(s[i..], 0) == Read(NumberOf(s[i..k]), k - i, None)
  {
    assert s[i..][..k - i] == s[i..k];
    VarintExact(s[i..], k - i);
  }

  lemma VarintHere(s: seq<byte>, i: nat) returns (k: nat)
    requires i <= |s| && Decode(s[i..], 0).err.None?
    ensures i < k <= |s| && IsVarint(s[i..k]) && Decode(s[i..], 0) == Read(NumberOf(s[i..k]), k - i, None)
  {
    var r := Decode(s[i..], 0);
    k := i + r.len;
    assert s[i..][..r.len] == s[i..k];
    VarintExact(s[i..], r.len);
  }

  lemma LowBits(s: seq<byte>)
    requires s != []
    ensures NumberOf(s) % TWO_64 % 8 == s[0] % 8
  {
    LowOf(NumberOf(s), s[0], NumberOf(s[1..]));
  }

  lemma LowOf(v: nat, b: byte, x: nat)
    requires v == b % 128 + 128 * x
    ensures v % TWO_64 % 8 == b % 8
  {
    var q, r := v / TWO_64, v % TWO_64;
    assert v == 8 * (0x2000_0000_0000_0000 * q) + r;
    AddEights(r, 0x2000_0000_0000_0000 * q);
    AddEights(b % 128, 16 * x);
    AddEights(b % 128, 16 * (b / 128));
  }

  lemma AddEights(r: nat, k: nat)
    ensures (8 * k + r) % 8 == r % 8
  {
  }

  // ----- The skipper takes the bytes of every tree -----------------------------------------------------

  /** The bytes lie in s from i to k. */
  predicate LiesAt(s: seq<byte>, i: nat, k: nat, b: seq<byte>) {
    i <= k <= |s| && s[i..k] == b
  }

  lemma LiesSplit(s: seq<byte>, i: nat, k: nat, a: seq<byte>, b: seq<byte>)
    requires LiesAt(s, i, k, a + b)
    ensures LiesAt(s, i, i + |a|, a) && LiesAt(s, i + |a|, k, b) && k == i + |a| + |b|
  {
    assert |s[i..k]| == |a + b|;
    assert a == (a + b)[..|a|] && b == (a + b)[|a|..];
    SliceOf(s, i, k, |a|);
  }

  lemma SliceOf(s: seq<byte>, i: nat, k: nat, a: nat)
    requires i + a <= k <= |s|
    ensures s[i..k][..a] == s[i..i + a] && s[i..k][a..] == s[i + a..k]
  {
  }

  /** What the skipper answers once it has come to index k inside that many groups. */
  function Onwards(s: seq<byte>, k: nat, depth: nat): Skipped {
    if depth == 0 then Skipped(k, None) else SkipFrom(s, k, depth)
  }

  lemma ItemIs(s: seq<byte>, i: nat, j: nat, depth: nat, wireType: nat)
    requires i <= j <= |s| && Tagged(s[i..j], wireType)
    ensures SkipItem(s, i, depth) == SkipPayload(s, j, wireType, depth)
  {
    VarintAt(s, i, j);
    LowBits(s[i..j]);
  }

  lemma OneTurn(s: seq<byte>, i: nat, k: nat, depth: nat, depth': nat)
    requires i < |s| && k < TWO_63 && SkipItem(s, i, depth) == Item(k, depth', None)
    ensures SkipFrom(s, i, depth) == Onwards(s, k, depth')
  {
  }

  lemma LeafSkipped(s: seq<byte>, j: nat, k: nat, p: Payload, depth: nat)
    requires !p.Group? && GoodPayload(p) && LiesAt(s, j, k, PayloadBytes(p))
    ensures SkipPayload(s, j, WireType(p), depth) == Item(k, depth, None)
  {
    match p
    case Base128(v) => VarintAt(s, j, k);
    case Delimited(count, body) =>
      LiesSplit(s, j, k, count, body);
      VarintAt(s, j, j + |count|);
    case Eight(b) => assert |s[j..k]| == |b|;
    case Four(b) => assert |s[j..k]| == |b|;
  }

  lemma {:induction false} TreeSkipped(s: seq<byte>, i: nat, k: nat, t: Tree, depth: nat)
    requires Good(t) && LiesAt(s, i, k, Bytes(t)) && k < TWO_63
    ensures SkipFrom(s, i, depth) == Onwards(s, k, depth)
    decreases t
  {
    var j := i + |t.tag|;
    LiesSplit(s, i, k, t.tag, PayloadBytes(t.payload));
    if t.payload.Group? {
      StartTurn(s, i, j, depth);
      ItemsSkipped(s, j, k, t.payload.items, depth);
    } else {
      ItemIs(s, i, j, depth, WireType(t.payload));
      LeafSkipped(s, j, k, t.payload, depth);
      OneTurn(s, i, k, depth, depth);
    }
  }

  lemma StartTurn(s: seq<byte>, i: nat, j: nat, depth: nat)
    requires i <= j <= |s| && j < TWO_63 && Tagged(s[i..j], 3)
    ensures SkipFrom(s, i, depth) == SkipFrom(s, j, depth + 1)
  {
    ItemIs(s, i, j, depth, 3);
    OneTurn(s, i, j, depth, depth + 1);
  }

  lemma {:induction false} ItemsSkipped(s: seq<byte>, i: nat, k: nat, items: Items, depth: nat)
    requires GoodItems(items) && LiesAt(s, i, k, ItemsBytes(items)) && k < TWO_63
    ensures SkipFrom(s, i, depth + 1) == Onwards(s, k, depth)
    decreases items
  {
    match items
    case End(tag) =>
      ItemIs(s, i, k, depth + 1, 4);
      OneTurn(s, i, k, depth + 1, depth);
    case More(head, rest) =>
      var m := i + |Bytes(head)|;
      LiesSplit(s, i, k, Bytes(head), ItemsBytes(rest));
      TreeSkipped(s, i, m, head, depth + 1);
      ItemsSkipped(s, m, k, rest, depth);
  }

  // ----- And nothing else ------------------------------------------------------------------------------

  /** What closes as many groups as there are elements. */
  predicate GoodAll(list: seq<Items>) {
    forall i :: 0 <= i < |list| ==> GoodItems(list[i])
  }

  function AllBytes(list: seq<Items>): seq<byte> {
    if list == [] then [] else ItemsBytes(list[0]) + AllBytes(list[1..])
  }

  /** Inside groups the skipper takes what closes them. */
  predicate Closes(s: seq<byte>, i: nat, k: nat, depth: nat, list: seq<Items>) {
    |list| == depth && GoodAll(list) && LiesAt(s, i, k, AllBytes(list))
  }

  lemma LiesJoin(s: seq<byte>, i: nat, m: nat, k: nat, a: seq<byte>, b: seq<byte>)
    requires LiesAt(s, i, m, a) && LiesAt(s, m, k, b)
    ensures LiesAt(s, i, k, a + b)
  {
    SliceOf(s, i, k, m - i);
    assert s[i..k] == s[i..k][..m - i] + s[i..k][m - i..];
  }

  lemma LeafIs(s: seq<byte>, j: nat, wireType: nat, depth: nat) returns (p: Payload)
    requires j <= |s| && wireType != 3 && wireType != 4
    requires var it := SkipPayload(s, j, wireType, depth); it.err.None? && it.iNdEx <= |s|
    ensures !p.Group? && GoodPayload(p) && WireType(p) == wireType
    ensures var it := SkipPayload(s, j, wireType, depth); it.depth == depth && LiesAt(s, j, it.iNdEx, PayloadBytes(p))
  {
    var k := SkipPayload(s, j, wireType, depth).iNdEx;
    match wireType
    case 0 =>
      var _ := VarintHere(s, j);
      p := Base128(s[j..k]);
    case 1 => p := Eight(s[j..k]);
    case 2 =>
      var m := VarintHere(s, j);
      p := Delimited(s[j..m], s[m..k]);
      LiesJoin(s, j, m, k, s[j..m], s[m..k]);
    case _ => p := Four(s[j..k]);
  }

  /** A record in front of what closes the groups. */
  lemma ClosesMore(s: seq<byte>, i: nat, m: nat, k: nat, t: Tree, depth: nat, list: seq<Items>)
    returns (all: seq<Items>)
    requires depth > 0 && Good(t) && LiesAt(s, i, m, Bytes(t)) && Closes(s, m, k, depth, list)
    ensures Closes(s, i, k, depth, all)
  {
    var first := More(t, list[0]);
    all := [first] + list[1..];
    assert all[1..] == list[1..];
    Associate(Bytes(t), ItemsBytes(list[0]), AllBytes(list[1..]));
    LiesJoin(s, i, m, k, Bytes(t), AllBytes(list));
  }

  lemma ClosesEnd(s: seq<byte>, i: nat, m: nat, k: nat, depth: nat, list: seq<Items>) returns (all: seq<Items>)
    requires i <= m <= |s| && Tagged(s[i..m], 4) && Closes(s, m, k, depth, list)
    ensures Closes(s, i, k, depth + 1, all)
  {
    all := [End(s[i..m])] + list;
    assert all[1..] == list;
    LiesJoin(s, i, m, k, s[i..m], AllBytes(list));
  }

  /** A start-group tag, what closes its group and what closes the groups around it. */
  lemma GroupIs(s: seq<byte>, i: nat, j: nat, k: nat, depth: nat, list: seq<Items>) returns (t: Tree, m: nat)
    requires i <= j <= |s| && Tagged(s[i..j], 3) && Closes(s, j, k, depth + 1, list)
    ensures Good(t) && LiesAt(s, i, m, Bytes(t)) && Closes(s, m, k, depth, list[1..])
  {
    t, m := Tree(s[i..j], Group(list[0])), j + |ItemsBytes(list[0])|;
    LiesSplit(s, j, k, ItemsBytes(list[0]), AllBytes(list[1..]));
    LiesJoin(s, i, j, m, s[i..j], ItemsBytes(list[0]));
  }

  lemma TurnIs(s: seq<byte>, i: nat, depth: nat) returns (j: nat, wireType: nat)
    requires SkipFrom(s, i, depth).err.None?
    ensures i < j <= |s| && Tagged(s[i..j], wireType) && SkipItem(s, i, depth) == SkipPayload(s, j, wireType, depth)
  {
    j := VarintHere(s, i);
    wireType := s[i] % 8;
    ItemIs(s, i, j, depth, wireType);
  }

  /** The trees the skipper takes: one, or what closes the groups it is in. */
  lemma {:induction false} Closed(s: seq<byte>, i: nat, depth: nat) returns (list: seq<Items>)
    requires depth > 0 && SkipFrom(s, i, depth).err.None? && SkipFrom(s, i, depth).len <= |s|
    ensures Closes(s, i, SkipFrom(s, i, depth).len, depth, list)
    decreases if i < |s| then |s| - i else 0
  {
    var k, it := SkipFrom(s, i, depth).len, SkipItem(s, i, depth);
    var j, wireType := TurnIs(s, i, depth);
    var rest := [];
    if it.depth > 0 {
      rest := Closed(s, it.iNdEx, it.depth);
    }
    if wireType == 3 {
      var t, m := GroupIs(s, i, j, k, depth, rest);
      list := ClosesMore(s, i, m, k, t, depth, rest[1..]);
    } else if wireType == 4 {
      list := ClosesEnd(s, i, j, k, it.depth, rest);
    } else {
      var p := LeafIs(s, j, wireType, depth);
      LiesJoin(s, i, j, it.iNdEx, s[i..j], PayloadBytes(p));
      list := ClosesMore(s, i, it.iNdEx, k, Tree(s[i..j], p), depth, rest);
    }
  }

  lemma Taken(s: seq<byte>) returns (t: Tree)
    requires Skip(s).err.None? && Skip(s).len <= |s|
    ensures Good(t) && LiesAt(s, 0, Skip(s).len, Bytes(t)) && Skip(s).len < TWO_63
  {
    var i, depth: nat := 0, 0;
    var k, it := Skip(s).len, SkipItem(s, i, depth);
    var j, wireType := TurnIs(s, i, depth);
    if wireType == 3 {
      var list := Closed(s, it.iNdEx, it.depth);
      var m;
      t, m := GroupIs(s, i, j, k, depth, list);
      SkipBounded(s, j, 1);
    } else {
      var p := LeafIs(s, j, wireType, depth);
      t := Tree(s[i..j], p);
      LiesJoin(s, i, j, k, s[i..j], PayloadBytes(p));
    }
  }

  lemma {:induction false} SkipBounded(s: seq<byte>, i: nat, depth: nat)
    requires SkipFrom(s, i, depth).err.None?
    ensures SkipFrom(s, i, depth).len < TWO_63
    decreases if i < |s| then |s| - i else 0
  {
    var it := SkipItem(s, i, depth);
    if it.depth != 0 {
      SkipBounded(s, it.iNdEx, it.depth);
    }
  }

  /** The skipper passes over the first n bytes of an input if and only if they are one record: a tag
      and a varint, eight bytes, a counted string, a group with its end, or four bytes. */
  lemma SkipExact(s: seq<byte>, n: nat)
    requires n <= |s|
    ensures Skip(s) == Skipped(n, None) <==> n < TWO_63 && exists t :: Good(t) && Bytes(t) == s[..n]
  {
    assert s[0..n] == s[..n];
    if Skip(s) == Skipped(n, None) {
      var t := Taken(s);
      assert Good(t) && Bytes(t) == s[..n];
    }
    if n < TWO_63 && exists t :: Good(t) && Bytes(t) == s[..n] {
      var t :| Good(t) && Bytes(t) == s[..n];
      TreeSkipped(s, 0, n, t, 0);
    }
  }
}
