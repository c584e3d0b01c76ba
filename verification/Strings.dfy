// The string operations of the adapters: splitting, joining and replacing.
module Strings {
  /** s.split(c): always at least one part. */
  function Split(s: string, c: char): (parts: seq<string>)
    ensures |parts| >= 1
  {
    if s == "" then [""]
    else
      var rest := Split(s[1..], c);
      if s[0] == c then [""] + rest else [[s[0]] + rest[0]] + rest[1..]
  }

  /** parts.join(c). */
  function Join(parts: seq<string>, c: char): string {
    if |parts| == 0 then "" else if |parts| == 1 then parts[0] else parts[0] + [c] + Join(parts[1..], c)
  }

  function NonEmpty(parts: seq<string>): seq<string> {
    if parts == [] then [] else (if parts[0] == "" then [] else [parts[0]]) + NonEmpty(parts[1..])
  }

  /** Every occurrence of a replaced by b. */
  function ReplaceAll(s: string, a: char, b: char): (r: string)
    ensures |r| == |s|
  {
    if s == "" then "" else [if s[0] == a then b else s[0]] + ReplaceAll(s[1..], a, b)
  }

  /** Index of the first a, or the length of s. */
  function IndexOf(s: string, a: char): (i: nat)
    ensures i <= |s| && (i < |s| ==> s[i] == a) && forall j :: 0 <= j < i ==> s[j] != a
    ensures a in s <==> i < |s|
  {
    if s == "" || s[0] == a then 0 else IndexOf(s[1..], a) + 1
  }

  /** s.replace(a, b) with a string pattern: the first occurrence only. */
  function ReplaceFirst(s: string, a: char, b: char): (r: string)
    ensures |r| == |s|
  {
    var i := IndexOf(s, a);
    if i < |s| then s[i := b] else s
  }

  /** The parts, with a character put in front of the first. */
  function Glue(h: char, parts: seq<string>): seq<string>
    requires parts != []
  {
    [[h] + parts[0]] + parts[1..]
  }

  lemma GlueConcat(h: char, x: seq<string>, y: seq<string>)
    requires x != []
    ensures Glue(h, x + y) == Glue(h, x) + y
  {
    assert (x + y)[0] == x[0] && (x + y)[1..] == x[1..] + y;
  }

  lemma SplitStep(h: char, t: string, c: char)
    ensures Split([h] + t, c) == if h == c then [""] + Split(t, c) else Glue(h, Split(t, c))
  {
    assert ([h] + t)[1..] == t;
  }

  lemma Uncons(a: string, c: char, b: string) returns (h: char, t: string)
    requires a != ""
    ensures a == [h] + t && a + [c] + b == [h] + (t + [c] + b)
  {
    h, t := a[0], a[1..];
  }

  /** The parts of two strings, one character further on. */
  lemma SplitAtStep(h: char, t: string, u: string, b: string, c: char)
    requires Split(u, c) == Split(t, c) + Split(b, c)
    ensures Split([h] + u, c) == Split([h] + t, c) + Split(b, c)
  {
    SplitStep(h, t, c);
    SplitStep(h, u, c);
    if h == c {
      EmptyConcat(Split(t, c), Split(b, c));
    } else {
      GlueConcat(h, Split(t, c), Split(b, c));
    }
  }

  lemma EmptyConcat(x: seq<string>, y: seq<string>)
    ensures [""] + (x + y) == [""] + x + y
  {
  }

  lemma {:induction false} SplitAt(a: string, b: string, c: char)
    ensures Split(a + [c] + b, c) == Split(a, c) + Split(b, c)
    decreases |a|
  {
    if a == "" {
      assert a + [c] + b == [c] + b;
      SplitStep(c, b, c);
    } else {
      var h, t := Uncons(a, c, b);
      SplitAt(t, b, c);
      SplitAtStep(h, t, t + [c] + b, b, c);
    }
  }

  lemma {:induction false} SplitWithout(s: string, c: char)
    ensures c !in s <==> Split(s, c) == [s]
    ensures c in s ==> |Split(s, c)| > 1
  {
    if s != "" {
      SplitWithout(s[1..], c);
      assert s == [s[0]] + s[1..];
    }
  }

  lemma {:induction false} SplitParts(s: string, c: char)
    ensures forall p :: p in Split(s, c) ==> c !in p
  {
    if s != "" {
      SplitParts(s[1..], c);
      var rest := Split(s[1..], c);
      forall p | p in Split(s, c) ensures c !in p {
        if s[0] != c && p != [s[0]] + rest[0] {
          assert p in rest[1..];
          assert p in rest;
        } else if s[0] != c {
          assert rest[0] in rest;
        }
      }
    }
  }

  /** A character of a part is a character of the string. */
  lemma {:induction false} SplitChars(s: string, c: char, x: char)
    requires x !in s
    ensures forall p :: p in Split(s, c) ==> x !in p
  {
    if s != "" {
      assert s == [s[0]] + s[1..];
      SplitChars(s[1..], c, x);
      var rest := Split(s[1..], c);
      forall p | p in Split(s, c) ensures x !in p {
        if s[0] != c && p != [s[0]] + rest[0] {
          assert p in rest[1..];
          assert p in rest;
        } else if s[0] != c {
          assert rest[0] in rest;
        }
      }
    }
  }

  ghost predicate Without(parts: seq<string>, c: char) {
    forall p :: p in parts ==> c !in p
  }

  /** Splitting undoes joining when the separator occurs in no part. */
  lemma {:induction false} SplitJoin(parts: seq<string>, c: char)
    requires parts != [] && Without(parts, c)
    ensures Split(Join(parts, c), c) == parts
  {
    SplitWithout(parts[0], c);
    if |parts| > 1 {
      SplitJoin(parts[1..], c);
      SplitAt(parts[0], Join(parts[1..], c), c);
      assert parts == [parts[0]] + parts[1..];
    }
  }

  lemma {:induction false} JoinConcat(a: seq<string>, b: seq<string>, c: char)
    requires a != [] && b != []
    ensures Join(a + b, c) == Join(a, c) + [c] + Join(b, c)
  {
    if |a| == 1 {
      assert (a + b)[1..] == b;
    } else {
      assert (a + b)[1..] == a[1..] + b;
      JoinConcat(a[1..], b, c);
      var x, y, z := a[0] + [c], Join(a[1..], c), [c] + Join(b, c);
      assert x + (y + z) == (x + y) + z;
      assert y + [c] + Join(b, c) == y + z;
    }
  }

  lemma {:induction false} ReplaceConcat(s: string, t: string, a: char, b: char)
    ensures ReplaceAll(s + t, a, b) == ReplaceAll(s, a, b) + ReplaceAll(t, a, b)
  {
    if s == "" {
      assert s + t == t;
    } else {
      assert (s + t)[1..] == s[1..] + t;
      ReplaceConcat(s[1..], t, a, b);
    }
  }

  lemma {:induction false} ReplaceNone(s: string, a: char, b: char)
    requires a !in s
    ensures ReplaceAll(s, a, b) == s
  {
    if s != "" {
      assert s == [s[0]] + s[1..];
      ReplaceNone(s[1..], a, b);
    }
  }

  /** Replacing the separator of joined parts. */
  lemma {:induction false} ReplaceJoin(parts: seq<string>, a: char, b: char)
    requires Without(parts, a)
    ensures ReplaceAll(Join(parts, a), a, b) == Join(parts, b)
  {
    if parts != [] {
      ReplaceNone(parts[0], a, b);
      if |parts| > 1 {
        ReplaceJoin(parts[1..], a, b);
        ReplaceConcat(parts[0] + [a], Join(parts[1..], a), a, b);
        ReplaceConcat(parts[0], [a], a, b);
        assert ReplaceAll([a], a, b) == [b];
      }
    }
  }

  lemma {:induction false} NonEmptyConcat(a: seq<string>, b: seq<string>)
    ensures NonEmpty(a + b) == NonEmpty(a) + NonEmpty(b)
  {
    if a == [] {
      assert a + b == b;
    } else {
      assert (a + b)[1..] == a[1..] + b;
      NonEmptyConcat(a[1..], b);
    }
  }

  lemma {:induction false} NonEmptyAll(a: seq<string>)
    requires "" !in a
    ensures NonEmpty(a) == a
  {
    if a != [] {
      NonEmptyAll(a[1..]);
    }
  }

  lemma {:induction false} NonEmptyIn(a: seq<string>, p: string)
    ensures p in NonEmpty(a) <==> p in a && p != ""
  {
    if a != [] {
      assert a == [a[0]] + a[1..];
      NonEmptyIn(a[1..], p);
    }
  }

  // ----- Replacing the first occurrence -------------------------------------------------------------

  /** Replacing the first a by b and then the first b by a gives the string back if and only if no b
      stands before the first a. */
  lemma SwapBack(s: string, a: char, b: char)
    requires a != b
    ensures ReplaceFirst(ReplaceFirst(s, a, b), b, a) == s <==> IndexOf(s, a) <= IndexOf(s, b)
  {
    var i, j, t := IndexOf(s, a), IndexOf(s, b), ReplaceFirst(s, a, b);
    FirstIs(t, b, if i < j then i else j);
    if i < |s| && j < i {
      assert ReplaceFirst(t, b, a)[j] == a;
    }
  }

  lemma FirstIs(s: string, a: char, i: nat)
    requires i <= |s| && (i < |s| ==> s[i] == a) && forall j :: 0 <= j < i ==> s[j] != a
    ensures IndexOf(s, a) == i
  {
  }

  /** Replacements of different characters do not interfere. */
  lemma ReplaceCommute(s: string, a: char, b: char, c: char, d: char)
    requires a != c && a != d && b != c && b != d
    ensures ReplaceFirst(ReplaceFirst(s, a, b), c, d) == ReplaceFirst(ReplaceFirst(s, c, d), a, b)
  {
    var i, j := IndexOf(s, a), IndexOf(s, c);
    FirstIs(ReplaceFirst(s, a, b), c, j);
    FirstIs(ReplaceFirst(s, c, d), a, i);
  }
}
