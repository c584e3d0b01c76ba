// Machine integers as the generated codec uses them, written out over unbounded naturals.
module Bits {
  type byte = x: int | 0 <= x < 256

  const TWO_32: nat := 0x1_0000_0000
  const TWO_63: nat := 0x8000_0000_0000_0000
  const TWO_64: nat := 0x1_0000_0000_0000_0000

  type uint64 = x: nat | x < TWO_64

  function Pow2(n: nat): (p: nat)
    ensures p > 0
  {
    if n == 0 then 1 else 2 * Pow2(n - 1)
  }

  /** Bitwise or of two naturals. */
  function Or(a: nat, b: nat): nat {
    if a == 0 then b
    else if b == 0 then a
    else (if a % 2 == 1 || b % 2 == 1 then 1 else 0) + 2 * Or(a / 2, b / 2)
  }

  /** Left shift in a register of the given width: the high bits fall off. */
  function Shl(x: nat, shift: nat, width: nat): (r: nat)
  {
    (x * Pow2(shift)) % Pow2(width)
  }

  lemma {:induction false} Pow2Add(a: nat, b: nat)
    ensures Pow2(a + b) == Pow2(a) * Pow2(b)
  {
    if a == 0 {
    } else {
      Pow2Add(a - 1, b);
    }
  }

  lemma Pow2Octet()
    ensures Pow2(7) == 128 && Pow2(8) == 256
  {
    assert Pow2(1) == 2 * Pow2(0);
    Pow2Add(1, 1);
    Pow2Add(2, 2);
    Pow2Add(4, 4);
    assert Pow2(8) == 2 * Pow2(7);
  }

  lemma Pow2Square(a: nat, p: nat)
    requires Pow2(a) == p
    ensures Pow2(2 * a) == p * p
  {
    Pow2Add(a, a);
  }

  lemma Pow2Widths()
    ensures Pow2(7) == 128 && Pow2(32) == TWO_32 && Pow2(63) == TWO_63 && Pow2(64) == TWO_64
  {
    Pow2Octet();
    var octet, last: nat := 8, 63;
    Pow2Square(octet, 256);
    Pow2Square(2 * octet, 0x1_0000);
    Pow2Square(4 * octet, TWO_32);
    assert Pow2(last + 1) == 2 * Pow2(last);
  }

  lemma {:induction false} OrZero(a: nat)
    ensures Or(a, 0) == a && Or(0, a) == a
  {
  }

  /** Or of numbers whose bits do not overlap is their sum. */
  lemma {:induction false} OrDisjoint(a: nat, g: nat, s: nat)
    requires a < Pow2(s)
    ensures Or(a, g * Pow2(s)) == a + g * Pow2(s)
  {
    if s == 0 {
    } else if a == 0 || g == 0 {
    } else {
      var h := g * Pow2(s - 1);
      assert g * Pow2(s) == 2 * h;
      OrDisjoint(a / 2, g, s - 1);
      assert Or(a, 2 * h) == a % 2 + 2 * Or(a / 2, h);
    }
  }

  lemma MulStrict(k: int, m: nat)
    ensures k >= 1 ==> k * m >= m
    ensures k <= -1 ==> k * m <= -(m as int)
  {
    if k >= 1 {
      assert (k - 1) * m >= 0;
    } else if k <= -1 {
      assert (-k - 1) * m >= 0;
    }
  }

  lemma ModUnique(x: nat, m: nat, q: nat, r: nat)
    requires r < m && x == q * m + r
    ensures x % m == r && x / m == q
  {
    var k := x / m - q;
    assert x == (x / m) * m + x % m;
    assert k * m == (x / m) * m - q * m;
    MulStrict(k, m);
  }

  /** Adding one 7-bit group to a register: or-ing the shifted group is addition modulo the width,
      even where the shift drops the group's high bits or the whole group. */
  lemma OrGroup(acc: nat, d: nat, shift: nat, width: nat)
    requires acc < Pow2(shift)
    ensures Or(acc % Pow2(width), Shl(d, shift, width)) == (acc + d * Pow2(shift)) % Pow2(width)
  {
    if shift <= width {
      var r := GroupInside(acc, d, shift, width);
      OrDisjoint(acc, r, shift);
    } else {
      Pow2Add(shift - width, width);
      OrGroupOutside(acc, d, Pow2(shift - width), Pow2(width));
    }
  }

  /** What remains of a shifted group in the register. */
  lemma GroupInside(acc: nat, d: nat, shift: nat, width: nat) returns (r: nat)
    requires acc < Pow2(shift) && shift <= width
    ensures acc % Pow2(width) == acc
    ensures (d * Pow2(shift)) % Pow2(width) == r * Pow2(shift)
    ensures (acc + d * Pow2(shift)) % Pow2(width) == acc + r * Pow2(shift)
  {
    var m, k := Pow2(width - shift), Pow2(shift);
    Pow2Add(width - shift, shift);
    r := Remains(acc, d, m, k);
  }

  lemma Remains(acc: nat, d: nat, m: nat, k: nat) returns (r: nat)
    requires acc < k && m > 0
    ensures m * k > 0 && acc % (m * k) == acc
    ensures (d * k) % (m * k) == r * k
    ensures (acc + d * k) % (m * k) == acc + r * k
  {
    r := d % m;
    assert d == (d / m) * m + r;
    SmallSum(acc, d / m, r, m, k);
    SmallSum(0, d / m, r, m, k);
  }

  lemma MulAdd(a: nat, b: nat, k: nat)
    ensures (a + b) * k == a * k + b * k
  {
  }

  lemma MulAssoc(a: nat, b: nat, k: nat)
    ensures (a * b) * k == a * (b * k)
  {
  }

  lemma MulMono(a: nat, b: nat, k: nat)
    requires a <= b
    ensures a * k <= b * k
  {
    MulAdd(a, b - a, k);
  }

  lemma SmallSum(acc: nat, q: nat, r: nat, m: nat, k: nat)
    requires acc < k && r < m
    ensures m * k > 0 && acc % (m * k) == acc && (acc + (q * m + r) * k) % (m * k) == acc + r * k
  {
    var w := m * k;
    MulMono(1, m, k);
    MulMono(r + 1, m, k);
    MulAdd(r, 1, k);
    MulAdd(q * m, r, k);
    MulAssoc(q, m, k);
    ModUnique(acc + (q * m + r) * k, w, q, acc + r * k);
    ModUnique(acc, w, 0, acc);
  }

  lemma OrGroupOutside(acc: nat, d: nat, m: nat, w: nat)
    requires w > 0
    ensures Or(acc % w, (d * (m * w)) % w) == (acc + d * (m * w)) % w
  {
    var q, t := d * m, acc / w;
    assert d * (m * w) == q * w;
    ModUnique(q * w, w, q, 0);
    OrZero(acc % w);
    assert acc + q * w == (t + q) * w + acc % w;
    ModUnique(acc + q * w, w, t + q, acc % w);
  }
}
