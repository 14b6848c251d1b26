/**
 What print reads (kernel/syscall.c, spike_interface/spike_utils.c): the user's text is the
 format string, read byte by byte through the kernel's identity map.
 */
module Print {
  import opened Words
  import opened Layout
  import opened Pmm
  import Format

  const PERCENT: nat := 37

  /** How reading a text ends; a conversion takes whatever the argument registers hold. */
  datatype Reading = Ended | RanOff | Conversion

  /** The kernel's map covers the address, and there is memory behind it. */
  predicate Reachable(m: Memory, pa: nat) {
    0x8000_0000 <= pa < 0x8800_0000 && pa / PAGE_SIZE in m
  }

  /** Byte j of a word, the lowest one first. */
  function ByteOf(w: nat, j: nat): nat {
    if j == 0 then w % 256 else ByteOf(w / 256, j - 1)
  }

  function Pow256(n: nat): (p: nat)
    ensures p > 0
  {
    if n == 0 then 1 else 256 * Pow256(n - 1)
  }

  /** The number that the lowest n bytes of a word spell, the first one counting least. */
  function BytesUpTo(w: nat, n: nat): nat {
    if n == 0 then 0 else BytesUpTo(w, n - 1) + ByteOf(w, n - 1) * Pow256(n - 1)
  }

  lemma {:induction false} BytesShift(w: nat, n: nat)
    ensures BytesUpTo(w, n + 1) == w % 256 + 256 * BytesUpTo(w / 256, n)
  {
    if n > 0 {
      BytesShift(w, n - 1);
      Regroup(ByteOf(w, n), Pow256(n - 1));
    }
  }

  lemma Regroup(b: nat, p: nat)
    ensures b * (256 * p) == 256 * (b * p)
  {
  }

  /** The bytes of a word make it up, the first one counting least. */
  lemma {:induction false} BytesMakeWord(w: nat, n: nat)
    ensures BytesUpTo(w, n) == w % Pow256(n)
  {
    if n > 0 {
      BytesShift(w, n - 1);
      BytesMakeWord(w / 256, n - 1);
      LowestByte(w, Pow256(n - 1));
    }
  }

  lemma LowestByte(w: nat, p: nat)
    requires p > 0
    ensures w % (256 * p) == w % 256 + 256 * (w / 256 % p)
  {
    var q, r := w / 256, w % 256;
    var a, b := q / p, q % p;
    assert q == a * p + b;
    assert w == 256 * (a * p + b) + r == a * (256 * p) + (256 * b + r);
    Format.ModUnique(w, 256 * p, a, 256 * b + r);
  }

  function ByteAt(m: Memory, pa: nat): nat {
    ByteOf(Entry(m, pa / PAGE_SIZE, pa % PAGE_SIZE / 8), pa % 8)
  }

  /** A byte of text that is neither the end nor the start of a conversion. */
  predicate Letter(m: Memory, pa: nat) {
    Reachable(m, pa) && ByteAt(m, pa) != 0 && ByteAt(m, pa) != PERCENT
  }

  ghost predicate Letters(m: Memory, pa: nat, n: nat) {
    forall a: nat :: pa <= a < pa + n ==> Letter(m, a)
  }

  ghost predicate EndsAfter(m: Memory, pa: nat, n: nat) {
    Letters(m, pa, n) && Reachable(m, pa + n) && ByteAt(m, pa + n) == 0
  }

  ghost predicate RunsOffAfter(m: Memory, pa: nat, n: nat) {
    Letters(m, pa, n) && !Reachable(m, pa + n)
  }

  /** The loop of vsnprintf over its format, up to the first conversion. */
  method ReadText(m: Memory, pa: nat) returns (r: Reading, n: nat)
    ensures match r
      case Ended => EndsAfter(m, pa, n)
      case RanOff => RunsOffAfter(m, pa, n)
      case Conversion => Letters(m, pa, n) && Reachable(m, pa + n) && ByteAt(m, pa + n) == 0x25
    ensures forall k: nat :: EndsAfter(m, pa, k) ==> r == Ended && k == n
    ensures forall k: nat :: RunsOffAfter(m, pa, k) ==> r == RanOff && k == n
  {
    hide ByteAt;
    n := 0;
    while Letter(m, pa + n)
      invariant Letters(m, pa, n)
      decreases 0x8800_0000 - (pa + n)
    {
      n := n + 1;
    }
    r := if !Reachable(m, pa + n) then RanOff else if ByteAt(m, pa + n) == 0 then Ended else Conversion;
    forall k: nat | EndsAfter(m, pa, k) ensures r == Ended && k == n { OneEnd(m, pa, n, k); }
    forall k: nat | RunsOffAfter(m, pa, k) ensures r == RanOff && k == n { OneEnd(m, pa, n, k); }
  }

  /** The text has one first byte that is no letter. */
  lemma OneEnd(m: Memory, pa: nat, n: nat, k: nat)
    requires Letters(m, pa, n) && !Letter(m, pa + n) && Letters(m, pa, k) && !Letter(m, pa + k)
    ensures k == n
  {
    hide Letter;
  }

  // ---- texts that lie in user pages ----

  /** Every byte before a + n lies in a page of a program. */
  ghost predicate InUserPages(s: State, pa: nat, n: nat) {
    forall a: nat :: pa <= a < pa + n ==> a / PAGE_SIZE in s.roles && UserRole(s.roles[a / PAGE_SIZE])
  }

  predicate UserRole(role: Role) {
    role.Private? || role.Code?
  }

  /** The text at pa ends, without a conversion, inside user pages. */
  ghost predicate TextEnds(s: State, pa: nat) {
    exists n: nat :: EndsAfter(s.mem, pa, n) && InUserPages(s, pa, n + 1)
  }

  /** The text at pa runs out of the kernel's map or of memory, without a conversion, from user pages. */
  ghost predicate TextRunsOff(s: State, pa: nat) {
    exists n: nat :: RunsOffAfter(s.mem, pa, n) && InUserPages(s, pa, n)
  }

  /** The same words in user pages. */
  ghost predicate SameUserPages(s: State, s': State) {
    && s'.roles == s.roles && s'.mem.Keys == s.mem.Keys
    && (forall f :: f in s.roles && f in s.mem && UserRole(s.roles[f]) ==> f in s'.mem && s'.mem[f] == s.mem[f])
  }

  lemma LettersStay(s: State, s': State, pa: nat, n: nat)
    requires SameUserPages(s, s') && InUserPages(s, pa, n) && Letters(s.mem, pa, n)
    ensures InUserPages(s', pa, n) && Letters(s'.mem, pa, n)
  {
    hide ByteOf;
    forall a: nat | pa <= a < pa + n ensures Letter(s'.mem, a) {
      assert Letter(s.mem, a) && a / PAGE_SIZE in s.mem.Keys && a / PAGE_SIZE in s.roles;
    }
  }

  lemma TextStays(s: State, s': State, pa: nat)
    requires SameUserPages(s, s')
    ensures TextEnds(s, pa) ==> TextEnds(s', pa)
    ensures TextRunsOff(s, pa) ==> TextRunsOff(s', pa)
  {
    hide ByteOf, Letters;
    if TextEnds(s, pa) {
      var n: nat :| EndsAfter(s.mem, pa, n) && InUserPages(s, pa, n + 1);
      LettersStay(s, s', pa, n);
      assert (pa + n) / PAGE_SIZE in s.roles && (pa + n) / PAGE_SIZE in s.mem.Keys;
      assert EndsAfter(s'.mem, pa, n) && InUserPages(s', pa, n + 1);
    }
    if TextRunsOff(s, pa) {
      var n: nat :| RunsOffAfter(s.mem, pa, n) && InUserPages(s, pa, n);
      LettersStay(s, s', pa, n);
      assert (pa + n) / PAGE_SIZE in s.mem.Keys <==> (pa + n) / PAGE_SIZE in s'.mem.Keys;
      assert RunsOffAfter(s'.mem, pa, n) && InUserPages(s', pa, n);
    }
  }
}
