/** Networks written as `address/bits`, turned into ranges of addresses on 32-bit words. */
module Cidr {
  import opened Words
  import opened Rules

  // ---- bitwise operations on the low `n` bits ----

  function And(a: nat, b: nat, n: nat): nat {
    if n == 0 then 0 else 2 * And(a / 2, b / 2, n - 1) + if a % 2 == 1 && b % 2 == 1 then 1 else 0
  }

  function Or(a: nat, b: nat, n: nat): nat {
    if n == 0 then 0 else 2 * Or(a / 2, b / 2, n - 1) + if a % 2 == 1 || b % 2 == 1 then 1 else 0
  }

  function Not(a: u32): u32 {
    0xFFFF_FFFF - a
  }

  lemma DivUnique(a: nat, d: nat, q: nat, r: nat)
    requires a == d * q + r && r < d
    ensures a / d == q && a % d == r
  {
    if a / d < q {
      Monotone(d, a / d + 1, q);
    } else if a / d > q {
      Monotone(d, q + 1, a / d);
    }
  }

  lemma DivFacts(a: nat, d: nat)
    requires d > 0
    ensures a == d * (a / d) + a % d && a % d < d
  {
  }

  /** The remainder by a power of two, one bit at a time. */
  lemma HalfMod(a: nat, p: nat)
    requires p > 0
    ensures a % (2 * p) == 2 * ((a / 2) % p) + a % 2
  {
    var q, r := (a / 2) / p, (a / 2) % p;
    DivFacts(a / 2, p);
    assert 2 * (p * q) == (2 * p) * q;
    DivUnique(a, 2 * p, q, 2 * r + a % 2);
  }

  lemma ClearedHalf(a: nat, p: nat, d: nat)
    requires p > 0 && d == 2 * p
    ensures a - a % d == 2 * (a / 2 - (a / 2) % p)
  {
    HalfMod(a, p);
  }

  lemma {:induction false} Pow2Splits(n: nat, s: nat)
    requires s <= n
    ensures Pow2(s) <= Pow2(n)
    ensures s < n ==> Pow2(n) >= 2 * Pow2(s)
  {
    if s < n {
      Pow2Splits(n - 1, s);
    }
  }

  lemma Halves(p: nat, q: nat)
    requires 0 < q <= p
    ensures (2 * p - 1) / 2 == p - 1 && (2 * p - 1) % 2 == 1
    ensures (2 * p - 2 * q) / 2 == p - q && (2 * p - 2 * q) % 2 == 0
  {
  }

  lemma {:induction false} AndAll(a: nat, n: nat)
    requires a < Pow2(n)
    ensures And(a, Pow2(n) - 1, n) == a
  {
    if n > 0 {
      var p := Pow2(n - 1);
      Pow2Splits(n - 1, 0);
      Halves(p, p);
      AndAll(a / 2, n - 1);
      assert And(a, 2 * p - 1, n) == 2 * And(a / 2, p - 1, n - 1) + a % 2;
    }
  }

  lemma {:induction false} OrNone(a: nat, n: nat)
    requires a < Pow2(n)
    ensures Or(a, 0, n) == a
  {
    if n > 0 {
      OrNone(a / 2, n - 1);
    }
  }

  lemma MaskStep(a: nat, n: nat, p: nat, q: nat)
    requires n > 0 && 0 < q <= p && And(a / 2, p - q, n - 1) == a / 2 - (a / 2) % q
    ensures And(a, 2 * p - 2 * q, n) == a - a % (2 * q)
  {
    Halves(p, q);
    assert And(a, 2 * p - 2 * q, n) == 2 * And(a / 2, p - q, n - 1);
    ClearedHalf(a, q, 2 * q);
  }

  /** A mask of ones above the low `s` bits clears those bits. */
  lemma {:induction false} AndMask(a: nat, n: nat, s: nat, p: nat, q: nat)
    requires p == Pow2(n) && q == Pow2(s) && a < p && s <= n
    ensures q <= p && And(a, p - q, n) == a - a % q
    decreases n
  {
    Pow2Splits(n, s);
    if s == 0 {
      AndAll(a, n);
      assert a % 1 == 0;
    } else {
      var p', q' := Pow2(n - 1), Pow2(s - 1);
      Pow2Splits(s - 1, 0);
      AndMask(a / 2, n - 1, s - 1, p', q');
      MaskStep(a, n, p', q');
      assert p == 2 * p' && q == 2 * q';
    }
  }

  /** Ones in the low `s` bits set those bits. */
  lemma {:induction false} OrLow(a: nat, n: nat, s: nat, q: nat)
    requires a < Pow2(n) && s <= n && q == Pow2(s)
    ensures Or(a, q - 1, n) == a - a % q + q - 1
    decreases n
  {
    if s == 0 {
      OrNone(a, n);
      assert a % 1 == 0;
    } else {
      var q' := Pow2(s - 1);
      OrLow(a / 2, n - 1, s - 1, q');
      Halves(q', q');
      assert Or(a, 2 * q' - 1, n) == 2 * Or(a / 2, q' - 1, n - 1) + 1;
      ClearedHalf(a, q', 2 * q');
    }
  }

  // ---- ranges ----

  /** `0x00 - (1<<(32 - keepbits))` on 32 bits, or all ones. */
  function Mask(keepbits: int): u32
    requires keepbits <= 32
  {
    if keepbits > 0 then Wrap32(0 - Pow2(32 - keepbits)) else 0xFFFF_FFFF
  }

  /** Shifting by more than 32, or by a negative amount, has no meaning in the source language. */
  function RangeFromCidr(ip: u32, keepbits: int): (u32, u32)
    requires keepbits <= 32
  {
    Pow2Of32();
    var mask := Mask(keepbits);
    AndFits(ip, mask, 32);
    AndFits(Not(ip), Not(mask), 32);
    OrFits(ip, Not(mask), 32);
    var start: u32 := And(ip, mask, 32);
    var end: u32 :=
      if ip == 0 && mask == 0xFFFF_FFFF then 0xFFFF_FFFF
      else if ip == 0 then And(Not(ip), Not(mask), 32)
      else Or(ip, Not(mask), 32);
    (start, end)
  }

  lemma Pow2Of32()
    ensures Pow2(32) == 0x1_0000_0000
  {
    assert Pow2(8) == 256;
    assert Pow2(16) == 256 * Pow2(8);
    assert Pow2(24) == 256 * Pow2(16);
    assert Pow2(32) == 256 * Pow2(24);
  }

  lemma {:induction false} AndFits(a: nat, b: nat, n: nat)
    ensures And(a, b, n) < Pow2(n)
  {
    if n > 0 {
      AndFits(a / 2, b / 2, n - 1);
    }
  }

  lemma {:induction false} OrFits(a: nat, b: nat, n: nat)
    ensures Or(a, b, n) < Pow2(n)
  {
    if n > 0 {
      OrFits(a / 2, b / 2, n - 1);
    }
  }

  /** `x` agrees with `ip` on its top `k` bits. */
  predicate SamePrefix(x: u32, ip: u32, k: nat)
    requires k <= 32
  {
    x / Pow2(32 - k) == ip / Pow2(32 - k)
  }

  /** The mask of `k` ones. */
  lemma MaskValue(k: nat)
    requires 1 <= k <= 32
    ensures Pow2(32 - k) < 0x1_0000_0000
    ensures Mask(k) == 0x1_0000_0000 - Pow2(32 - k)
  {
    Pow2Of32();
    Pow2Splits(32, 32 - k);
    Wrap32Is(0 - Pow2(32 - k), -1, 0x1_0000_0000 - Pow2(32 - k));
  }

  /** The range in closed form: from the address with its low bits cleared, `2^(32-k)` addresses. */
  lemma RangeClosed(ip: u32, k: nat)
    requires 1 <= k <= 32 && !(ip == 0 && k == 32)
    ensures var size := Pow2(32 - k);
            RangeFromCidr(ip, k) == (ip - ip % size, ip - ip % size + size - 1)
  {
    MaskValue(k);
    Pow2Of32();
    if ip == 0 {
      OnesAbove(k);
      ZeroRange(k);
    } else {
      OtherRange(ip, k, Pow2(32 - k));
    }
  }

  lemma OtherRange(ip: u32, k: nat, size: nat)
    requires 1 <= k <= 32 && ip != 0 && size == Pow2(32 - k) && Mask(k) == 0x1_0000_0000 - size
    ensures RangeFromCidr(ip, k) == (ip - ip % size, ip - ip % size + size - 1)
  {
    assert Not(Mask(k)) == size - 1;
    OtherBits(ip, k, size);
  }

  lemma OtherBits(ip: u32, k: nat, size: nat)
    requires 1 <= k <= 32 && size == Pow2(32 - k) <= 0x1_0000_0000
    ensures And(ip, 0x1_0000_0000 - size, 32) == ip - ip % size && Or(ip, size - 1, 32) == ip - ip % size + size - 1
  {
    Pow2Of32();
    AndMask(ip, 32, 32 - k, 0x1_0000_0000, size);
    OrLow(ip, 32, 32 - k, size);
  }

  lemma ZeroRange(k: nat)
    requires 1 <= k < 32 && Mask(k) == 0x1_0000_0000 - Pow2(32 - k) && Mask(k) != 0xFFFF_FFFF
    ensures RangeFromCidr(0, k) == (0, Pow2(32 - k) - 1) && 0 % Pow2(32 - k) == 0
  {
    Pow2Of32();
    AndMask(0, 32, 32 - k, Pow2(32), Pow2(32 - k));
    AndLow(32, 32 - k);
    DivUnique(0, Pow2(32 - k), 0, 0);
    assert Not(0) == Pow2(32) - 1 && Not(Mask(k)) == Pow2(32 - k) - 1;
  }

  lemma OnesAbove(k: nat)
    requires 1 <= k < 32
    ensures Pow2(32 - k) > 1
  {
  }

  lemma {:induction false} AndLow(n: nat, s: nat)
    requires s <= n
    ensures And(Pow2(n) - 1, Pow2(s) - 1, n) == Pow2(s) - 1
  {
    if s == 0 {
      AndZero(Pow2(n) - 1, n);
    } else {
      var p, q := Pow2(n - 1), Pow2(s - 1);
      Halves(p, p);
      Halves(q, q);
      AndLow(n - 1, s - 1);
      assert And(2 * p - 1, 2 * q - 1, n) == 2 * And(p - 1, q - 1, n - 1) + 1;
    }
  }

  lemma {:induction false} AndZero(a: nat, n: nat)
    ensures And(a, 0, n) == 0
  {
    if n > 0 {
      AndZero(a / 2, n - 1);
    }
  }

  /** A block of `size` addresses that starts at a multiple of `size` is one value of `x / size`. */
  lemma BlockIsQuotient(x: nat, ip: nat, size: nat)
    requires size > 0
    ensures ip - ip % size <= x <= ip - ip % size + size - 1 <==> x / size == ip / size
  {
    DivFacts(ip, size);
    DivFacts(x, size);
    var start := ip - ip % size;
    assert start == size * (ip / size);
    if start <= x <= start + size - 1 {
      DivUnique(x, size, ip / size, x - start);
    }
  }

  /**
    The meaning of `ip/k` in a rule: the address is not 0 and agrees with `ip` on the top `k` bits;
    and the range holds `2^(32-k)` addresses (section 3.1 of RFC 4632).
   */
  lemma CidrMatches(ip: u32, k: nat, x: u32)
    requires 1 <= k <= 32 && !(ip == 0 && k == 32)
    ensures var (start, end) := RangeFromCidr(ip, k);
            && NO_RANGE.Assign((start, end)).enabled
            && (NO_RANGE.Assign((start, end)).InThis(x) <==> x != 0 && SamePrefix(x, ip, k))
            && end - start + 1 == Pow2(32 - k)
  {
    RangeClosed(ip, k);
    BlockIsQuotient(x, ip, Pow2(32 - k));
    if ip == 0 {
      OnesAbove(k);
    } else {
      BlockIsQuotient(ip, ip, Pow2(32 - k));
    }
  }

  ghost predicate CidrIsRight(ip: u32, k: nat)
    requires k <= 32
  {
    forall x: u32 :: NO_RANGE.Assign(RangeFromCidr(ip, k)).InThis(x) <==> x != 0 && SamePrefix(x, ip, k)
  }

  /** Without bits to keep, and with all 32, the mask is all ones. */
  lemma WholeMask(ip: u32, keepbits: int)
    requires keepbits <= 0 || keepbits == 32
    ensures RangeFromCidr(ip, keepbits) == if ip == 0 then (0, 0xFFFF_FFFF) else (ip, ip)
  {
    Pow2Of32();
    assert Pow2(0) == 1;
    MaskValue(32);
    AndAll(ip, 32);
    OrNone(ip, 32);
  }

  /** `x/0` keeps the single address, and `0.0.0.0/32` is the whole space: the only two exceptions. */
  lemma CidrExact(ip: u32, k: nat)
    requires k <= 32
    ensures CidrIsRight(ip, k) <==> !(ip == 0 && k == 32) && !(ip != 0 && k == 0)
  {
    if k == 0 {
      ZeroBits(ip);
    } else if ip == 0 && k == 32 {
      WholeMask(0, 32);
      assert Pow2(0) == 1;
      assert NO_RANGE.Assign((0, 0xFFFF_FFFF)).InThis(1) && !SamePrefix(1, 0, 32);
    } else {
      forall x: u32
        ensures NO_RANGE.Assign(RangeFromCidr(ip, k)).InThis(x) <==> x != 0 && SamePrefix(x, ip, k)
      {
        CidrMatches(ip, k, x);
      }
    }
  }

  lemma ZeroBits(ip: u32)
    ensures CidrIsRight(ip, 0) <==> ip == 0
  {
    WholeMask(ip, 0);
    Pow2Of32();
    forall x: u32
      ensures SamePrefix(x, ip, 0)
    {
      DivUnique(x, Pow2(32), 0, x);
      DivUnique(ip, Pow2(32), 0, ip);
    }
    if ip != 0 {
      var other: u32 := if ip == 1 then 2 else 1;
      assert !NO_RANGE.Assign((ip, ip)).InThis(other) && SamePrefix(other, ip, 0);
    }
  }

  // ---- addresses as they may be written ----

  /** An address, an address and a number of bits, or something that cannot be read. */
  datatype Address = Unreadable | Plain(ip: u32) | Net(ip: u32, bits: int)

  predicate Shiftable(a: Address) {
    a.Net? ==> a.bits <= 32
  }

  function RangeFromIp(a: Address): (u32, u32)
    requires Shiftable(a)
  {
    match a
    case Unreadable => (0, 0)
    case Plain(ip) => (ip, ip)
    case Net(ip, bits) => RangeFromCidr(ip, bits)
  }

  /**
    What a written address admits. What cannot be read, and the plain address 0.0.0.0, is no range
    at all; 0.0.0.0/32 is the whole space; without bits to keep, a network is its single address.
   */
  predicate Admits(a: Address, x: u32)
    requires Shiftable(a)
  {
    match a
    case Unreadable => true
    case Plain(ip) => ip == 0 || x == ip
    case Net(ip, bits) =>
      if ip == 0 && bits == 32 then x != 0
      else if bits <= 0 then if ip == 0 then x != 0 else x == ip
      else x != 0 && SamePrefix(x, ip, bits)
  }

  /** Every written address, turned into a range and assigned, admits exactly that. */
  lemma AddressMeaning(a: Address, x: u32)
    requires Shiftable(a)
    ensures NO_RANGE.Assign(RangeFromIp(a)).InThis(x) <==> Admits(a, x)
    ensures NO_RANGE.Assign(RangeFromIp(a)).enabled <==> !a.Unreadable? && a != Plain(0)
    ensures match a
            case Unreadable => NO_RANGE.Assign(RangeFromIp(a)).InThis(x)
            case Plain(ip) => NO_RANGE.Assign(RangeFromIp(a)).InThis(x) <==> ip == 0 || x == ip
            case Net(ip, bits) =>
              NO_RANGE.Assign(RangeFromIp(a)).InThis(x) <==>
              x != 0 && ((ip == 0 && (bits == 32 || bits <= 0)) || (bits <= 0 && x == ip)
                         || (bits > 0 && !(ip == 0 && bits == 32) && x / Pow2(32 - bits) == ip / Pow2(32 - bits)))
  {
    if a.Net? {
      if a.bits <= 0 || a.bits == 32 {
        WholeMask(a.ip, a.bits);
      }
      if a.bits > 0 && !(a.ip == 0 && a.bits == 32) {
        CidrMatches(a.ip, a.bits, x);
      }
    }
  }

  /** Of two networks one contains the other, or they are disjoint. */
  lemma NestedOrDisjoint(ip1: u32, k1: nat, ip2: u32, k2: nat)
    requires 1 <= k1 <= k2 <= 32 && !(ip1 == 0 && k1 == 32) && !(ip2 == 0 && k2 == 32)
    ensures var (s1, e1) := RangeFromCidr(ip1, k1);
            var (s2, e2) := RangeFromCidr(ip2, k2);
            (s1 <= s2 && e2 <= e1) || e2 < s1 || e1 < s2
  {
    RangeClosed(ip1, k1);
    RangeClosed(ip2, k2);
    SmallDividesBig(32 - k2, 32 - k1);
    var (s1, e1) := RangeFromCidr(ip1, k1);
    var (s2, e2) := RangeFromCidr(ip2, k2);
    BlocksOfPowers(s1, e1, s2, e2, Pow2(32 - k1), Pow2(32 - k2), ip1, ip2);
  }

  lemma BlocksOfPowers(s1: nat, e1: nat, s2: nat, e2: nat, big: nat, small: nat, ip1: nat, ip2: nat)
    requires big > 0 && small > 0 && exists m: nat :: big == small * m
    requires s1 == ip1 - ip1 % big && e1 == s1 + big - 1
    requires s2 == ip2 - ip2 % small && e2 == s2 + small - 1
    ensures (s1 <= s2 && e2 <= e1) || e2 < s1 || e1 < s2
  {
    var m: nat :| big == small * m;
    DivFacts(ip1, big);
    DivFacts(ip2, small);
    BlocksAt(s1, e1, s2, e2, small, m, ip1 / big, ip2 / small);
  }

  lemma BlocksAt(s1: nat, e1: nat, s2: nat, e2: nat, small: nat, m: nat, q1: nat, q2: nat)
    requires small > 0
    requires s1 == (small * m) * q1 && e1 == s1 + small * m - 1
    requires s2 == small * q2 && e2 == s2 + small - 1
    ensures (s1 <= s2 && e2 <= e1) || e2 < s1 || e1 < s2
  {
    Associate(small, m, q1);
    BlocksNest(small, m, m * q1, q2);
  }

  lemma Associate(a: nat, b: nat, c: nat)
    ensures (a * b) * c == a * (b * c)
  {
  }

  lemma {:induction false} SmallDividesBig(s: nat, t: nat)
    requires s <= t
    ensures exists m: nat :: Pow2(t) == Pow2(s) * m
    decreases t
  {
    if s == t {
      assert Pow2(t) == Pow2(s) * 1;
    } else {
      SmallDividesBig(s, t - 1);
      var m: nat :| Pow2(t - 1) == Pow2(s) * m;
      assert Pow2(t) == Pow2(s) * (2 * m);
    }
  }

  lemma BlocksNest(small: nat, m: nat, a: nat, b: nat)
    requires small > 0
    ensures (small * a <= small * b && small * b + small <= small * a + small * m)
            || small * b + small <= small * a
            || small * a + small * m <= small * b
  {
    var end, after := small * (a + m), small * (b + 1);
    assert end == small * a + small * m && after == small * b + small;
    if b < a {
      Monotone(small, b + 1, a);
    } else if b >= a + m {
      Monotone(small, a + m, b);
    } else {
      Monotone(small, a, b);
      Monotone(small, b + 1, a + m);
    }
  }
}
