/** CIDR blocks as arithmetic on integers: masking by shifts, membership and overlap (RFC 4632, section 3.1). */
module AddressBlocks {
  import opened Wrappers

  datatype Version = V4 | V6

  function MaxPrefix(v: Version): nat {
    match v
    case V4 => 32
    case V6 => 128
  }

  function Pow2(n: nat): (p: nat)
    ensures p >= 1
  {
    if n == 0 then 1 else 2 * Pow2(n - 1)
  }

  /** An address object. Its integer ignores the IPv6 scope; its text does not (RFC 4007, section 11). */
  datatype Address = Address(version: Version, value: nat, scope: Option<string>)

  datatype Network = Network(version: Version, base: nat, prefixLength: nat, scope: Option<string>)

  function Shift(n: Network): nat {
    if n.prefixLength <= MaxPrefix(n.version) then MaxPrefix(n.version) - n.prefixLength else 0
  }

  predicate ValidAddress(a: Address) {
    a.value < Pow2(MaxPrefix(a.version))
  }

  /** The host bits are zero, as `strict=False` leaves them, and the block is within the address space. */
  predicate ValidNetwork(n: Network) {
    && n.prefixLength <= MaxPrefix(n.version)
    && n.base % Pow2(Shift(n)) == 0
    && n.base + Pow2(Shift(n)) <= Pow2(MaxPrefix(n.version))
  }

  // (v >> s) << s
  function Masked(v: nat, s: nat): int {
    v / Pow2(s) * Pow2(s)
  }

  /** `address in network`, as the library masks it. */
  predicate InBlock(v: nat, n: Network) {
    Masked(v, Shift(n)) == n.base
  }

  function Broadcast(n: Network): nat {
    n.base + Pow2(Shift(n)) - 1
  }

  /** `a.overlaps(b)`: four end points are looked up. */
  predicate BlocksOverlap(a: Network, b: Network) {
    a.version == b.version &&
    (InBlock(a.base, b) || InBlock(Broadcast(a), b) || InBlock(b.base, a) || InBlock(Broadcast(b), a))
  }

  lemma MulAtLeast(d: int, p: int)
    requires p >= 0
    ensures d >= 1 ==> d * p >= p
    ensures d >= 0 ==> d * p >= 0
    ensures d <= -1 ==> d * p + p <= 0
  {
  }

  lemma DivisionUnique(v: int, q: int, r: nat, p: nat)
    requires v == q * p + r && r < p
    ensures v / p == q && v % p == r
  {
    var d := q - v / p;
    assert d * p == q * p - v / p * p;
    MulAtLeast(d, p);
  }

  lemma DivMod(v: nat, p: nat)
    requires p > 0
    ensures v / p * p <= v < v / p * p + p
    ensures v / p * p >= 0 && v / p * p % p == 0
  {
    var q, r := v / p, v % p;
    assert v == q * p + r;
    MulAtLeast(q, p);
    DivisionUnique(q * p, q, 0, p);
  }

  lemma MultiplesApart(a: nat, b: nat, p: nat)
    requires p > 0 && a % p == 0 && b % p == 0 && a < b
    ensures a + p <= b
  {
    var i, j := a / p, b / p;
    assert a == i * p && b == j * p;
    var d := j - i;
    assert d * p == j * p - i * p;
    MulAtLeast(d, p);
    MulAtLeast(-d, p);
  }

  /** Masking hits a stored base exactly when the block holds the address. */
  lemma InBlockIsInterval(v: nat, n: Network)
    requires ValidNetwork(n)
    ensures InBlock(v, n) <==> n.base <= v < n.base + Pow2(Shift(n))
  {
    var p := Pow2(Shift(n));
    var m := Masked(v, Shift(n));
    DivMod(v, p);
    if m < n.base {
      MultiplesApart(m, n.base, p);
    } else if n.base < m {
      MultiplesApart(n.base, m, p);
    }
  }

  /** The four end-point look-ups say exactly that some address lies in both blocks. */
  lemma OverlapsIffShared(a: Network, b: Network)
    requires ValidNetwork(a) && ValidNetwork(b)
    ensures BlocksOverlap(a, b) <==> a.version == b.version && exists v: nat :: InBlock(v, a) && InBlock(v, b)
  {
    if a.version == b.version {
      OwnEnds(a);
      OwnEnds(b);
      if v: nat :| InBlock(v, a) && InBlock(v, b) {
        InBlockIsInterval(v, a);
        InBlockIsInterval(v, b);
        InBlockIsInterval(a.base, b);
        InBlockIsInterval(b.base, a);
      }
    }
  }

  lemma OwnEnds(n: Network)
    requires ValidNetwork(n)
    ensures InBlock(n.base, n) && InBlock(Broadcast(n), n)
  {
    InBlockIsInterval(n.base, n);
    InBlockIsInterval(Broadcast(n), n);
  }

  /** A block of one address: the full prefix length. */
  lemma HostBlock(n: Network, v: nat)
    requires ValidNetwork(n) && n.prefixLength == MaxPrefix(n.version)
    ensures InBlock(v, n) <==> v == n.base
  {
    InBlockIsInterval(v, n);
  }
}
