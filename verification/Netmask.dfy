/**
 The netmask test of the manual IP settings: a bit trick on the 32-bit mask, compared with a
 bit-by-bit reading of what a netmask is.
 */
module Netmask {

  const WORD := 0x1_0000_0000  // one more than the largest uint32_t

  type Uint32 = n: int | 0 <= n < WORD

  // ---------- the operators of uint32_t ----------

  function Not(x: Uint32): Uint32 {
    WORD - 1 - x
  }

  function Increment(x: Uint32): Uint32 {
    (x + 1) % WORD
  }

  function And(a: nat, b: nat): nat {
    if a == 0 || b == 0 then 0
    else 2 * And(a / 2, b / 2) + if a % 2 == 1 && b % 2 == 1 then 1 else 0
  }

  /** valid_ipv4_netmask. */
  predicate ValidNetmask(mask: Uint32) {
    if mask == 0 then false
    else
      var x := Not(mask);
      var y := Increment(x);
      And(x, y) == 0
  }

  // ---------- what a netmask is ----------

  /** Reading `bits` bits from the lowest: zeros, then at least one bit, and only ones. */
  predicate ZerosThenOnes(mask: nat, bits: nat) {
    if bits == 0 then false
    else if mask % 2 == 0 then ZerosThenOnes(mask / 2, bits - 1)
    else OnlyOnes(mask, bits)
  }

  predicate OnlyOnes(mask: nat, bits: nat) {
    bits == 0 || (mask % 2 == 1 && OnlyOnes(mask / 2, bits - 1))
  }

  function Pow2(k: nat): (p: nat)
    ensures p >= 1
  {
    if k == 0 then 1 else 2 * Pow2(k - 1)
  }

  /** `prefix` one bits in front of `bits - prefix` zero bits. */
  predicate HasPrefix(mask: nat, bits: nat, prefix: nat) {
    1 <= prefix <= bits && mask == Pow2(bits) - Pow2(bits - prefix)
  }

  // ---------- the trick is right ----------

  lemma {:induction false} AndSelf(a: nat)
    ensures And(a, a) == a
  {
    if a > 0 {
      AndSelf(a / 2);
    }
  }

  predicate PowerOfTwo(n: nat) {
    n == 1 || (n > 0 && n % 2 == 0 && PowerOfTwo(n / 2))
  }

  /** A number and its successor share no bit exactly when the successor is a power of two. */
  lemma {:induction false} NeighboursDisjoint(x: nat)
    ensures And(x, x + 1) == 0 <==> PowerOfTwo(x + 1)
  {
    if x % 2 == 0 {
      AndSelf(x / 2);
    } else {
      NeighboursDisjoint(x / 2);
      assert (x + 1) / 2 == x / 2 + 1;
    }
  }

  lemma {:induction false} Pow2IsPowerOfTwo(k: nat)
    ensures PowerOfTwo(Pow2(k))
  {
    if k > 0 {
      Pow2IsPowerOfTwo(k - 1);
    }
  }

  function Log(n: nat): (k: nat)
    requires PowerOfTwo(n)
    ensures n == Pow2(k)
  {
    if n == 1 then 0 else 1 + Log(n / 2)
  }

  lemma WordIsPow2()
    ensures Pow2(32) == WORD
  {
    assert Pow2(8) == 0x100;
    assert Pow2(16) == 0x1_0000;
    assert Pow2(24) == 0x100_0000;
  }

  /** The bit trick accepts exactly the masks with a prefix length from 1 to 32. */
  lemma TrickFindsPrefixes(mask: Uint32)
    ensures ValidNetmask(mask) <==> exists p: nat :: HasPrefix(mask, 32, p)
  {
    WordIsPow2();
    TrickFindsPrefixesIn(mask, 32);
  }

  lemma TrickFindsPrefixesIn(mask: Uint32, bits: nat)
    requires Pow2(bits) == WORD
    ensures ValidNetmask(mask) <==> exists p: nat :: HasPrefix(mask, bits, p)
  {
    NeighboursDisjoint(Not(mask));
    if ValidNetmask(mask) {
      var k := Log(WORD - mask);
      if k >= bits {
        Pow2Grows(bits, k);
      }
      assert HasPrefix(mask, bits, bits - k);
    }
    if p: nat :| HasPrefix(mask, bits, p) {
      Pow2IsPowerOfTwo(bits - p);
      Pow2Grows(bits - p, bits - 1);
    }
  }

  lemma {:induction false} Pow2Grows(a: nat, b: nat)
    requires a <= b
    ensures Pow2(a) <= Pow2(b)
  {
    if a < b {
      Pow2Grows(a, b - 1);
    }
  }

  lemma {:induction false} OnlyOnesIsFull(mask: nat, bits: nat)
    requires mask < Pow2(bits)
    ensures OnlyOnes(mask, bits) <==> mask == Pow2(bits) - 1
  {
    if bits > 0 {
      OnlyOnesIsFull(mask / 2, bits - 1);
    }
  }

  /** Scanning the bits finds exactly the masks with a prefix, at every width. */
  lemma {:induction false} ScanFindsPrefixes(mask: nat, bits: nat)
    requires mask < Pow2(bits)
    ensures ZerosThenOnes(mask, bits) <==> exists p: nat :: HasPrefix(mask, bits, p)
  {
    if bits > 0 {
      var half, rest := mask / 2, bits - 1;
      assert Pow2(bits) == 2 * Pow2(rest);
      if mask % 2 == 0 {
        ScanFindsPrefixes(half, rest);
        if p: nat :| HasPrefix(half, rest, p) {
          assert HasPrefix(mask, bits, p);
        }
        if p: nat :| HasPrefix(mask, bits, p) {
          assert p < bits;
          assert HasPrefix(half, rest, p);
        }
      } else {
        OnlyOnesIsFull(mask, bits);
        if mask == Pow2(bits) - 1 {
          assert HasPrefix(mask, bits, bits);
        }
        if p: nat :| HasPrefix(mask, bits, p) {
          assert p == bits;
        }
      }
    }
  }

  /** The bit trick accepts exactly what the bit-by-bit reading accepts. */
  lemma TrickIsTheScan(mask: Uint32)
    ensures ValidNetmask(mask) <==> ZerosThenOnes(mask, 32)
  {
    WordIsPow2();
    TrickFindsPrefixes(mask);
    ScanFindsPrefixes(mask, 32);
  }
}
