// do_div of utils.c, 64 by 32 bits in two steps, and get_ticks, which uses it.
module Division {
  import opened Layout

  type Word32 = w: nat | w < TWO_32

  // The divl instruction: upper:low divided by base. It faults unless the quotient fits.
  function Divl(upper: Word32, low: Word32, base: Word32): (r: (Word32, Word32))
    requires 0 < base && upper < base
    ensures upper * TWO_32 + low == r.0 * base + r.1 && r.1 < base
  {
    var n := upper * TWO_32 + low;
    QuotientFits(upper, low, base);
    DivMod(n, base);
    (n / base, n % base)
  }

  lemma DivMod(n: nat, base: nat)
    requires base > 0
    ensures n == (n / base) * base + n % base && 0 <= n % base < base && n / base >= 0
  {
  }

  lemma MulMono(a: nat, b: nat, k: nat)
    requires a <= b
    ensures a * k <= b * k
  {
  }

  lemma MulCancel(a: nat, b: nat, k: nat)
    requires a * k < b * k
    ensures a < b
  {
    if b <= a { MulMono(b, a, k); }
  }

  lemma QuotientFits(upper: Word32, low: Word32, base: Word32)
    requires 0 < base && upper < base
    ensures (upper * TWO_32 + low) / base < TWO_32
  {
    var n := upper * TWO_32 + low;
    DivMod(n, base);
    assert n < (upper + 1) * TWO_32 <= base * TWO_32;
    MulCancel(n / base, TWO_32, base);
  }

  // do_div on the two halves of n: the quotient's halves and the remainder. The upper half
  // handed to divl is below the base, so the instruction never faults.
  function DoDiv(high: Word32, low: Word32, base: Word32): (r: (Word32, Word32, Word32))
    requires 0 < base
    ensures high * TWO_32 + low == (r.0 * TWO_32 + r.1) * base + r.2 && r.2 < base
  {
    if high != 0 then
      DivMod(high, base);
      Smaller(high, base);
      var (q, m) := Divl(high % base, low, base);
      Recombine(high, low, base, q, m);
      (high / base, q, m)
    else
      var (q, m) := Divl(0, low, base);
      (0, q, m)
  }

  lemma Smaller(n: nat, base: nat)
    requires base > 0
    ensures n / base <= n
  {
    DivMod(n, base);
    MulMono(1, base, n / base);
  }

  lemma Recombine(high: nat, low: nat, base: nat, q: nat, m: nat)
    requires base > 0 && (high % base) * TWO_32 + low == q * base + m
    ensures high * TWO_32 + low == ((high / base) * TWO_32 + q) * base + m
  {
    DivMod(high, base);
    calc {
      high * TWO_32 + low;
      ((high / base) * base + high % base) * TWO_32 + low;
      ((high / base) * base) * TWO_32 + ((high % base) * TWO_32 + low);
      ((high / base) * base) * TWO_32 + (q * base + m);
      ((high / base) * TWO_32) * base + q * base + m;
      ((high / base) * TWO_32 + q) * base + m;
    }
  }

  // Quotient and remainder are determined by what DoDiv promises.
  lemma DivisionUnique(n: nat, base: nat, q1: nat, r1: nat, q2: nat, r2: nat)
    requires base > 0 && n == q1 * base + r1 && r1 < base && n == q2 * base + r2 && r2 < base
    ensures q1 == q2 && r1 == r2
  {
    assert q2 * base < (q1 + 1) * base && q1 * base < (q2 + 1) * base;
    MulCancel(q2, q1 + 1, base);
    MulCancel(q1, q2 + 1, base);
  }

  const CYCLES_PER_TICK := 109000

  // get_ticks on a reading of the time-stamp counter; only 32 bits of the quotient come back.
  function GetTicks(edx: Word32, eax: Word32): (ticks: Word32)
    ensures ticks == ((edx * TWO_32 + eax) / CYCLES_PER_TICK) % TWO_32
  {
    var (qh, ql, m) := DoDiv(edx, eax, CYCLES_PER_TICK);
    LowHalf(edx * TWO_32 + eax, CYCLES_PER_TICK, qh, ql, m);
    ql
  }

  lemma LowHalf(n: nat, base: nat, qh: nat, ql: Word32, m: nat)
    requires base > 0 && n == (qh * TWO_32 + ql) * base + m && m < base
    ensures (n / base) % TWO_32 == ql
  {
    DivMod(n, base);
    DivisionUnique(n, base, qh * TWO_32 + ql, m, n / base, n % base);
    assert (qh * TWO_32 + ql) % TWO_32 == ql;
  }
}
