/** IPv4 addresses as four bytes, and the byte arithmetic the address store does on them. */
module IPv4 {

  type byte = b: int | 0 <= b < 256

  type Ip = s: seq<byte> | |s| == 4 witness [0, 0, 0, 0]

  const TWO_32 := 0x1_0000_0000

  type u32 = v: int | 0 <= v < 0x1_0000_0000

  /** The address as a number, first byte most significant. */
  function U32(ip: Ip): u32 {
    ip[0] as int * 0x100_0000 + ip[1] as int * 0x1_0000 + ip[2] as int * 0x100 + ip[3] as int
  }

  function FromU32(v: u32): (ip: Ip)
    ensures U32(ip) == v
  {
    var q1 := v / 0x100;
    var q2 := q1 / 0x100;
    [q2 / 0x100, q2 % 0x100, q1 % 0x100, v % 0x100]
  }

  /** Carries byte by byte, and stops at the first byte that did not wrap round. */
  method IncIP(ip: Ip) returns (v: Ip)
    ensures U32(v) == (U32(ip) + 1) % TWO_32
  {
    v := ip[3 := (ip[3] as int + 1) % 256];
    var i := 3;
    while i >= 0
      invariant -1 <= i <= 3
      invariant forall j | i < j <= 3 :: v[j] == 0 && ip[j] == 255
      invariant i >= 0 ==> v[i] == (ip[i] as int + 1) % 256
      invariant forall j | 0 <= j < i :: v[j] == ip[j]
      decreases i
    {
      if v[i] != 0 {
        break;
      }
      if i > 0 {
        v := v[i - 1 := (v[i - 1] as int + 1) % 256];
      }
      i := i - 1;
    }
  }

  /** Addition of 32-bit numbers, wrapping round. */
  function Plus(a: u32, b: u32): u32 {
    (a + b) % TWO_32
  }

  /** Addition on the big-endian 32-bit number. */
  function Ipv4Add(ip: Ip, add: u32): (out: Ip)
    ensures U32(out) == Plus(U32(ip), add)
  {
    FromU32(Plus(U32(ip), add))
  }

  // ----- bits -----

  function BitAnd(a: nat, b: nat): nat {
    if a == 0 || b == 0 then 0 else 2 * BitAnd(a / 2, b / 2) + (if a % 2 == 1 && b % 2 == 1 then 1 else 0)
  }

  function BitOr(a: nat, b: nat): nat {
    if a == 0 then b else if b == 0 then a
    else 2 * BitOr(a / 2, b / 2) + (if a % 2 == 1 || b % 2 == 1 then 1 else 0)
  }

  /** 2 to the power of `k`. */
  /** The i-th bit. */
  predicate Bit(a: nat, i: nat) {
    if i == 0 then a % 2 == 1 else Bit(a / 2, i - 1)
  }

  /** Both work bit by bit. */
  lemma {:induction false} BitAndBits(a: nat, b: nat, i: nat)
    ensures Bit(BitAnd(a, b), i) == (Bit(a, i) && Bit(b, i))
  {
    if a == 0 || b == 0 {
      ZeroBits(i);
    } else if i > 0 {
      BitAndBits(a / 2, b / 2, i - 1);
      assert BitAnd(a, b) / 2 == BitAnd(a / 2, b / 2);
    }
  }

  lemma {:induction false} BitOrBits(a: nat, b: nat, i: nat)
    ensures Bit(BitOr(a, b), i) == (Bit(a, i) || Bit(b, i))
  {
    if a == 0 || b == 0 {
      ZeroBits(i);
    } else if i > 0 {
      BitOrBits(a / 2, b / 2, i - 1);
      assert BitOr(a, b) / 2 == BitOr(a / 2, b / 2);
    }
  }

  lemma {:induction false} ZeroBits(i: nat)
    ensures !Bit(0, i)
  {
    if i > 0 {
      ZeroBits(i - 1);
    }
  }

  function Pow2(k: nat): (r: nat)
    ensures r > 0
  {
    if k == 0 then 1 else 2 * Pow2(k - 1)
  }

  lemma {:induction false} AndOnes(a: nat, w: nat)
    requires a < Pow2(w)
    ensures BitAnd(a, Pow2(w) - 1) == a
  {
    if a != 0 {
      AndOnes(a / 2, w - 1);
      assert (Pow2(w) - 1) / 2 == Pow2(w - 1) - 1;
    }
  }

  /** Masking with a run of ones above `j` zeros rounds down to a multiple of 2^j. */
  lemma {:induction false} AndMask(a: nat, j: nat, w: nat)
    requires j <= w && a < Pow2(w)
    ensures Pow2(j) <= Pow2(w)
    ensures BitAnd(a, Pow2(w) - Pow2(j)) == a - a % Pow2(j)
    decreases j
  {
    if j == 0 {
      AndOnes(a, w);
    } else {
      AndMask(a / 2, j - 1, w - 1);
      assert (Pow2(w) - Pow2(j)) / 2 == Pow2(w - 1) - Pow2(j - 1);
      ModDouble(a, Pow2(j - 1));
    }
  }

  lemma ModDouble(a: nat, m: nat)
    requires m > 0
    ensures a % (2 * m) == 2 * (a / 2 % m) + a % 2
  {
    var q, r := a / 2 / m, a / 2 % m;
    assert a == 2 * (q * m + r) + a % 2;
    assert a == q * (2 * m) + (2 * r + a % 2);
    DivModUnique(a, 2 * m, q, 2 * r + a % 2);
  }

  lemma DivModUnique(a: nat, m: nat, q: nat, r: nat)
    requires m > 0 && r < m && a == q * m + r
    ensures a % m == r
  {
    var q1, r1 := a / m, a % m;
    MulAtLeast(q1 - q, m);
    assert (q1 - q) * m == q1 * m - q * m == r - r1;
  }

  lemma MulAtLeast(d: int, m: int)
    requires m >= 0
    ensures d >= 1 ==> d * m >= m
    ensures d <= -1 ==> d * m <= -m
  {
  }

  /** Filling the low `j` bits of a multiple of 2^j. */
  lemma {:induction false} OrOnes(a: nat, j: nat)
    requires a % Pow2(j) == 0
    ensures BitOr(a, Pow2(j) - 1) == a + Pow2(j) - 1
  {
    if j > 0 && a != 0 {
      ModDouble(a, Pow2(j - 1));
      OrOnes(a / 2, j - 1);
      assert (Pow2(j) - 1) / 2 == Pow2(j - 1) - 1;
    }
  }

  // ----- CIDR blocks (section 3.1 of RFC 4632) -----

  lemma SmallPowers()
    ensures forall k | 0 <= k <= 8 :: 1 <= Pow2(k) <= 256
    ensures Pow2(8) == 256
  {
    assert Pow2(2) == 4 && Pow2(4) == 16 && Pow2(6) == 64 && Pow2(8) == 256;
    assert Pow2(1) == 2 && Pow2(3) == 8 && Pow2(5) == 32 && Pow2(7) == 128;
  }

  /** How many addresses byte `i` of a block with this prefix length ranges over. */
  function Span(prefix: nat, i: nat): (w: nat)
    requires prefix <= 32 && i < 4
    ensures 0 < w <= 256
  {
    SmallPowers();
    Pow2(FreeBits(prefix, i))
  }

  function FreeBits(prefix: nat, i: nat): (j: nat)
    requires prefix <= 32 && i < 4
    ensures j <= 8
  {
    if prefix >= 8 * (i + 1) then 0 else if prefix <= 8 * i then 8 else 8 * (i + 1) - prefix
  }

  /** Byte `i` of the mask: ones, then zeros. */
  function MaskByte(prefix: nat, i: nat): byte
    requires prefix <= 32 && i < 4
  {
    256 - Span(prefix, i)
  }

  /** Go's IPNet.Contains: the bytes agree under the mask. */
  predicate Contains(network: Ip, prefix: nat, ip: Ip)
    requires prefix <= 32
  {
    forall i | 0 <= i < 4 :: BitAnd(network[i], MaskByte(prefix, i)) == BitAnd(ip[i], MaskByte(prefix, i))
  }

  /** The network address of a parsed CIDR has no bits outside its mask. */
  predicate IsNetwork(network: Ip, prefix: nat)
    requires prefix <= 32
  {
    forall i | 0 <= i < 4 :: network[i] as int % Span(prefix, i) == 0
  }

  function Size(prefix: nat): nat
    requires prefix <= 32
  {
    Pow2(32 - prefix)
  }

  lemma MaskedByte(a: byte, prefix: nat, i: nat)
    requires prefix <= 32 && i < 4
    ensures BitAnd(a, MaskByte(prefix, i)) == a as int - a as int % Span(prefix, i)
  {
    SmallPowers();
    AndMask(a, FreeBits(prefix, i), 8);
  }

  /** `x` is in the block of width `w` that starts at `n`. */
  lemma InBlock(x: int, n: int, w: int)
    requires w > 0 && n % w == 0
    ensures x - x % w == n <==> n <= x < n + w
  {
    var q, p := x / w, n / w;
    assert x == q * w + x % w && n == p * w;
    MulAtLeast(q - p, w);
    assert (q - p) * w == q * w - p * w;
  }

  lemma ContainsByBytes(network: Ip, prefix: nat, ip: Ip)
    requires prefix <= 32 && IsNetwork(network, prefix)
    ensures Contains(network, prefix, ip) <==>
            forall i | 0 <= i < 4 :: network[i] <= ip[i] < network[i] as int + Span(prefix, i)
  {
    forall i | 0 <= i < 4
      ensures BitAnd(network[i], MaskByte(prefix, i)) == BitAnd(ip[i], MaskByte(prefix, i)) <==>
              network[i] <= ip[i] < network[i] as int + Span(prefix, i)
    {
      MaskedByte(network[i], prefix, i);
      MaskedByte(ip[i], prefix, i);
      InBlock(ip[i], network[i], Span(prefix, i));
    }
  }

  lemma Sizes(prefix: nat)
    requires prefix <= 32
    ensures prefix <= 8 ==> Size(prefix) == Span(prefix, 0) * 0x100_0000
    ensures 8 <= prefix <= 16 ==> Size(prefix) == Span(prefix, 1) * 0x1_0000
    ensures 16 <= prefix <= 24 ==> Size(prefix) == Span(prefix, 2) * 0x100
    ensures 24 <= prefix ==> Size(prefix) == Span(prefix, 3)
  {
    SmallPowers();
    if prefix <= 24 {
      PowSum(24 - prefix, 8);
    }
    if prefix <= 16 {
      PowSum(16 - prefix, 8);
    }
    if prefix <= 8 {
      PowSum(8 - prefix, 8);
    }
  }

  lemma {:induction false} PowSum(a: nat, b: nat)
    ensures Pow2(a + b) == Pow2(a) * Pow2(b)
  {
    if a > 0 {
      PowSum(a - 1, b);
    }
  }

  /** With the bytes before it equal and the bytes after it free, the byte that the mask
      splits decides. */
  lemma BlockOrder(n: Ip, x: Ip, k: nat, w: nat)
    requires k < 4 && 0 < w <= 256
    requires forall i | k < i < 4 :: n[i] == 0
    requires n[k] as int + w <= 256
    ensures (forall i | 0 <= i < k :: x[i] == n[i]) && n[k] <= x[k] < n[k] as int + w <==>
            U32(n) <= U32(x) < U32(n) + w * (if k == 0 then 0x100_0000 else if k == 1 then 0x1_0000 else if k == 2 then
                0x100 else 1)
  {
    if k == 0 {
    } else if k == 1 {
      assert x[0] == n[0] <==> forall i | 0 <= i < k :: x[i] == n[i];
    } else if k == 2 {
      assert x[0] == n[0] && x[1] == n[1] <==> forall i | 0 <= i < k :: x[i] == n[i];
    } else {
      assert x[0] == n[0] && x[1] == n[1] && x[2] == n[2] <==> forall i | 0 <= i < k :: x[i] == n[i];
    }
  }

  /** The byte that the mask splits. */
  function SplitByte(prefix: nat): (k: nat)
    requires prefix <= 32
    ensures k < 4
  {
    if prefix <= 8 then 0 else if prefix <= 16 then 1 else if prefix <= 24 then 2 else 3
  }

  lemma SplitSpans(prefix: nat)
    requires prefix <= 32
    ensures forall i | 0 <= i < SplitByte(prefix) :: Span(prefix, i) == 1
    ensures forall i | SplitByte(prefix) < i < 4 :: Span(prefix, i) == 256
    ensures var k := SplitByte(prefix);
            Size(prefix) == Span(prefix, k) * (if k == 0 then 0x100_0000 else if k == 1 then 0x1_0000
                else if k == 2 then
                0x100 else 1)
  {
    Sizes(prefix);
    SmallPowers();
    assert Pow2(0) == 1;
  }

  /** The block of a network address is the `Size(prefix)` addresses from it on. */
  lemma ContainsMeaning(network: Ip, prefix: nat, ip: Ip)
    requires prefix <= 32 && IsNetwork(network, prefix)
    ensures Contains(network, prefix, ip) <==> U32(network) <= U32(ip) < U32(network) + Size(prefix)
    ensures U32(network) + Size(prefix) <= TWO_32
  {
    var k := SplitByte(prefix);
    hide U32, Contains, Span, Size;
    ContainsByBytes(network, prefix, ip);
    SplitSpans(prefix);
    FitsSpan(network, prefix, k);
    BlockOrder(network, ip, k, Span(prefix, k));
    assert forall i | k < i < 4 :: 0 <= ip[i] < 256;
    BlockFits(network, k, Span(prefix, k));
  }

  lemma BlockFits(n: Ip, k: nat, w: nat)
    requires k < 4 && n[k] as int + w <= 256
    requires forall i | k < i < 4 :: n[i] == 0
    ensures U32(n) + w * (if k == 0 then 0x100_0000 else if k == 1 then 0x1_0000 else if k == 2 then 0x100 else
            1) <= TWO_32
  {
  }

  lemma FitsSpan(network: Ip, prefix: nat, k: nat)
    requires prefix <= 32 && IsNetwork(network, prefix) && k < 4
    ensures network[k] as int + Span(prefix, k) <= 256
  {
    FitsAbove(network[k], FreeBits(prefix, k));
  }

  /** Sets every bit outside the mask, byte by byte. */
  method Broadcast(network: Ip, prefix: nat) returns (b: Ip)
    requires prefix <= 32 && IsNetwork(network, prefix)
    ensures U32(b) == U32(network) + Size(prefix) - 1
  {
    b := [0, 0, 0, 0];
    for i := 0 to 4
      invariant forall j | 0 <= j < i :: b[j] as int == network[j] as int + Span(prefix, j) - 1
    {
      BroadcastByte(network[i], prefix, i);
      b := b[i := BitOr(network[i], 255 - MaskByte(prefix, i) as int)];
    }
    Sizes(prefix);
    SmallPowers();
    assert Pow2(0) == 1;
  }

  lemma BroadcastByte(a: byte, prefix: nat, i: nat)
    requires prefix <= 32 && i < 4 && a as int % Span(prefix, i) == 0
    ensures BitOr(a, 255 - MaskByte(prefix, i) as int) == a as int + Span(prefix, i) - 1 < 256
  {
    OrOnes(a, FreeBits(prefix, i));
    FitsAbove(a, FreeBits(prefix, i));
  }

  /** A byte that is a multiple of 2^j leaves room for the low `j` bits. */
  lemma FitsAbove(a: byte, j: nat)
    requires j <= 8 && a as int % Pow2(j) == 0
    ensures a as int + Pow2(j) <= 256
  {
    PowSum(8 - j, j);
    SmallPowers();
    Multiple(a, Pow2(8 - j), Pow2(j));
  }

  lemma Multiple(a: int, m: int, w: int)
    requires w > 0 && a % w == 0 && a < m * w
    ensures a + w <= m * w
  {
    var q := a / w;
    MulAtLeast(q - m, w);
    MulAtLeast(m - q, w);
    assert (q - m) * w == q * w - m * w;
    assert (m - q) * w == m * w - q * w;
  }
}
