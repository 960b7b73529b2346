/** How the simulator cuts an address into tag, set index and block offset with shifts. */
module AddressBits {

  // ---------------------------------------------------------------- address bits

  function Pow2(n: nat): (r: int)
    ensures r >= 1
  {
    if n == 0 then 1 else 2 * Pow2(n - 1)
  }

  const WORD := 0x1_0000_0000_0000_0000

  /** << and >> on uint64_t */
  function Shl(x: int, k: nat): int { (x * Pow2(k)) % WORD }
  function Shr(x: int, k: nat): int { x / Pow2(k) }

  function TagOf(addr: int, s: nat, b: nat): int {
    Shr(addr, s + b)
  }

  /** Clears the tag bits by shifting them out at the top, then drops the block offset. */
  function SetOf(addr: int, s: nat, b: nat): int
    requires s + b <= 64
  {
    var t: nat := 64 - s - b;
    Shr(Shl(addr, t), t + b)
  }

  lemma {:induction false} Pow2Sum(m: nat, n: nat)
    ensures Pow2(m + n) == Pow2(m) * Pow2(n)
  {
    if m > 0 {
      Pow2Sum(m - 1, n);
    }
  }

  lemma Pow2Word()
    ensures Pow2(64) == WORD
  {
    assert Pow2(4) == 16;
    Pow2Sum(4, 4);
    Pow2Sum(8, 8);
    Pow2Sum(16, 16);
    Pow2Sum(32, 32);
  }

  /** (x * c) mod (y * c) == (x mod y) * c */
  lemma ModScale(x: int, y: int, c: int)
    requires 0 <= x && 0 < y && 0 < c
    ensures 0 < y * c && (x * c) % (y * c) == (x % y) * c
  {
    var q, r := x / y, x % y;
    assert 0 < y * c;
    assert x * c == q * (y * c) + r * c by {
      assert x == q * y + r;
    }
    assert 0 <= r * c < y * c;
    QuotientUnique(x * c, y * c, q, r * c);
  }

  lemma MulAtLeast(k: int, y: int)
    requires 1 <= k && 0 < y
    ensures y <= k * y
  {
    if k > 1 {
      MulAtLeast(k - 1, y);
      assert k * y == (k - 1) * y + y;
    }
  }

  lemma ZeroMultiple(k: int, y: int)
    requires 0 < y && -y < k * y < y
    ensures k == 0
  {
    if k > 0 {
      MulAtLeast(k, y);
    } else if k < 0 {
      MulAtLeast(-k, y);
    }
  }

  lemma QuotientUnique(x: int, y: int, q: int, r: int)
    requires 0 < y && x == q * y + r && 0 <= r < y
    ensures x / y == q && x % y == r
  {
    var q', r' := x / y, x % y;
    assert x == q' * y + r' && 0 <= r' < y;
    assert (q - q') * y == r' - r;
    ZeroMultiple(q - q', y);
  }

  /** (x * c) / (y * c) == x / y */
  lemma DivScale(x: int, y: int, c: int)
    requires 0 <= x && 0 < y && 0 < c
    ensures 0 < y * c && (x * c) / (y * c) == x / y
  {
    var q, r := x / y, x % y;
    assert 0 < y * c;
    assert x * c == q * (y * c) + r * c by {
      assert x == q * y + r;
    }
    assert 0 <= r * c < y * c;
    QuotientUnique(x * c, y * c, q, r * c);
  }

  /** (x mod (u*v)) / v == (x / v) mod u, and x / (u*v) == (x / v) / u */
  lemma DivMod(x: int, u: int, v: int)
    requires 0 <= x && 0 < u && 0 < v
    ensures 0 < u * v && (x % (u * v)) / v == (x / v) % u && x / (u * v) == (x / v) / u
  {
    var d, o := x / v, x % v;
    var q, r := d / u, d % u;
    assert 0 < u * v;
    Nested(x, u, v, d, o, q, r);
    QuotientUnique(x, u * v, q, r * v + o);
    QuotientUnique(r * v + o, v, r, o);
  }

  /** Dividing by v and then by u. */
  lemma Nested(x: int, u: int, v: int, d: int, o: int, q: int, r: int)
    requires x == d * v + o && d == q * u + r && 0 <= o < v && 0 <= r < u
    ensures x == q * (u * v) + (r * v + o) && 0 <= r * v + o < u * v
  {
    assert d * v == q * (u * v) + r * v;
    var s := u - 1 - r;
    assert u * v == r * v + s * v + v;
    assert 0 <= s * v && 0 <= r * v;
  }

  /** The same on plain numbers: S sets, blocks of B bytes, T values of the bits shifted out. */
  lemma BitsArithmetic(addr: int, S: int, B: int, T: int, SB: int, BT: int, W: int)
    requires 0 <= addr && 0 < S && 0 < B && 0 < T && SB == S * B && BT == B * T && W == SB * T
    ensures 0 < SB && 0 < BT && 0 < W && ((addr * T) % W) / BT == (addr / B) % S
    ensures 0 <= (addr / B) % S < S && addr / SB == (addr / B) / S
  {
    assert 0 < S * B;
    ModScale(addr, S * B, T);
    DivScale(addr % (S * B), B, T);
    DivMod(addr, S, B);
  }

  /** The powers of two in the shift expressions. */
  lemma BitsPowers(s: nat, b: nat, t: nat)
    requires s + b + t == 64
    ensures Pow2(s + b) == Pow2(s) * Pow2(b) && Pow2(t + b) == Pow2(b) * Pow2(t) && WORD == Pow2(s + b) * Pow2(t)
  {
    hide Pow2;
    Pow2Word();
    Pow2Sum(s, b);
    Pow2Sum(s + b, t);
    Pow2Sum(b, t);
    assert t + b == b + t;
  }

  /** The shifts, written out. */
  lemma ShiftsAre(addr: int, s: nat, b: nat, t: nat)
    requires s + b + t == 64
    ensures SetOf(addr, s, b) == ((addr * Pow2(t)) % WORD) / Pow2(t + b) && TagOf(addr, s, b) == addr / Pow2(s + b)
  {
  }

  /** The shifts compute the low s bits of the block number and the rest above them. */
  lemma BitsOf(addr: int, s: nat, b: nat)
    requires 0 <= addr < WORD && 1 <= s && s + b <= 63
    ensures SetOf(addr, s, b) == (addr / Pow2(b)) % Pow2(s)
    ensures 0 <= SetOf(addr, s, b) < Pow2(s)
    ensures TagOf(addr, s, b) == (addr / Pow2(b)) / Pow2(s)
  {
    hide Pow2; hide SetOf; hide TagOf;
    var t: nat := 64 - s - b;
    BitsPowers(s, b, t);
    ShiftsAre(addr, s, b, t);
    BitsArithmetic(addr, Pow2(s), Pow2(b), Pow2(t), Pow2(s + b), Pow2(t + b), WORD);
  }

  lemma DivModEqual(d: int, d': int, u: int)
    requires 0 < u
    ensures d / u == d' / u && d % u == d' % u <==> d == d'
  {
    assert d == (d / u) * u + d % u && d' == (d' / u) * u + d' % u;
  }

  /** Two addresses have the same tag and set exactly if they lie in the same block. */
  lemma SameBlock(a: int, a': int, s: nat, b: nat)
    requires 0 <= a < WORD && 0 <= a' < WORD && 1 <= s && s + b <= 63
    ensures TagOf(a, s, b) == TagOf(a', s, b) && SetOf(a, s, b) == SetOf(a', s, b) <==> a / Pow2(b) == a' / Pow2(b)
  {
    hide Pow2; hide TagOf; hide SetOf;
    BitsOf(a, s, b);
    BitsOf(a', s, b);
    DivModEqual(a / Pow2(b), a' / Pow2(b), Pow2(s));
  }
}
