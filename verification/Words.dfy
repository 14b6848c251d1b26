/**
 Unsigned machine words as naturals, with the bit operations the kernel applies to them
 written out as arithmetic.
 */
module Words {

  const WORD_LIMIT: nat := 0x1_0000_0000_0000_0000

  const PAGE_SIZE: nat := 4096

  function Pow2(k: nat): (p: nat)
    ensures p > 0
  {
    if k == 0 then 1 else 2 * Pow2(k - 1)
  }

  /** Bitwise inclusive or. */
  function Or(a: nat, b: nat): nat
  {
    if a == 0 then b
    else if b == 0 then a
    else 2 * Or(a / 2, b / 2) + (if a % 2 == 1 || b % 2 == 1 then 1 else 0)
  }

  /** Truncation of an address computation to 64 bits. */
  function Wrap(n: int): nat
  {
    n % WORD_LIMIT
  }

  function RoundDown(a: nat): nat
  {
    a / PAGE_SIZE * PAGE_SIZE
  }

  /** The unsigned round-up macro; the subtraction and the result wrap. */
  function RoundUp(a: nat): nat
  {
    Wrap((Wrap(a - 1) / PAGE_SIZE + 1) * PAGE_SIZE)
  }

  lemma RoundUpFacts(a: nat) returns (n: nat)
    requires 0 < a < WORD_LIMIT - PAGE_SIZE
    ensures RoundUp(a) == n * PAGE_SIZE && a <= n * PAGE_SIZE < a + PAGE_SIZE
  {
    n := (a - 1) / PAGE_SIZE + 1;
  }

  /** A word whose low k bits are clear or-ed with a word of k bits is their sum. */
  lemma {:induction false} OrIsSum(k: nat, x: nat, y: nat)
    requires y < Pow2(k)
    ensures Or(Pow2(k) * x, y) == Pow2(k) * x + y
  {
    if k > 0 && x > 0 && y > 0 {
      var h := Pow2(k - 1) * x;
      assert Pow2(k) * x == 2 * h;
      assert h > 0;
      OrIsSum(k - 1, x, y / 2);
    }
  }

  predicate Bit(w: nat, k: nat)
    decreases k
  {
    if k == 0 then w % 2 == 1 else Bit(w / 2, k - 1)
  }

  /** Setting a bit adds its weight, unless it is set already. */
  lemma {:induction false} OrBit(w: nat, k: nat)
    ensures Or(w, Pow2(k)) == if Bit(w, k) then w else w + Pow2(k)
    decreases k
  {
    if w == 0 {
      ZeroHasNoBits(k);
    } else if k == 0 {
      OrOdd(w);
    } else {
      OrBit(w / 2, k - 1);
    }
  }

  /** The low n bits of a word do not depend on the rest. */
  lemma {:induction false} BitOfLow(n: nat, h: nat, l: nat, k: nat)
    requires k < n
    ensures Bit(Pow2(n) * h + l, k) == Bit(l, k)
    decreases k
  {
    var x := Pow2(n - 1) * h;
    assert Pow2(n) * h == 2 * x;
    if k > 0 {
      assert (2 * x + l) / 2 == x + l / 2;
      BitOfLow(n - 1, h, l / 2, k - 1);
    }
  }

  lemma {:induction false} ZeroHasNoBits(k: nat)
    ensures !Bit(0, k)
  {
    if k > 0 { ZeroHasNoBits(k - 1); }
  }

  lemma {:induction false} OrOdd(x: nat)
    ensures Or(x, 1) == if x % 2 == 1 then x else x + 1
  {
    if x > 0 {
      assert Or(x / 2, 0) == x / 2;
    }
  }
}
