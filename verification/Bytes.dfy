/**
 Block copies (util/string.c) inside one byte memory, given by offsets from an 8-aligned base.
 */
module Bytes {

  type Byte = bv8

  const WORD: nat := 8

  /** Bytes [dst, dst + n) are the old bytes [src, src + n); all others are as before. */
  ghost predicate Copied(now: seq<Byte>, before: seq<Byte>, dst: nat, src: nat, n: nat) {
    && dst + n <= |before| && src + n <= |before|
    && now == before[..dst] + before[src..src + n] + before[dst + n..]
  }

  /** As Copied, for bytes lo .. hi-1 of the block only. */
  ghost predicate Partly(now: seq<Byte>, before: seq<Byte>, dst: nat, src: nat, lo: nat, hi: nat) {
    && |now| == |before| && lo <= hi && dst + hi <= |before| && src + hi <= |before|
    && forall i {:trigger now[i]} :: 0 <= i < |now| ==>
         now[i] == if dst + lo <= i < dst + hi then before[src + (i - dst)] else before[i]
  }

  lemma NoneYet(before: seq<Byte>, dst: nat, src: nat, k: nat)
    requires dst + k <= |before| && src + k <= |before|
    ensures Partly(before, before, dst, src, k, k)
  {
  }

  lemma AllDone(now: seq<Byte>, before: seq<Byte>, dst: nat, src: nat, n: nat)
    requires Partly(now, before, dst, src, 0, n)
    ensures Copied(now, before, dst, src, n)
  {
    var all := before[..dst] + before[src..src + n] + before[dst + n..];
    forall i | 0 <= i < |now| ensures now[i] == all[i] {
    }
  }

  /** Copying up, the source byte is still old unless the destination has passed over it. */
  lemma StepUp(now: seq<Byte>, before: seq<Byte>, dst: nat, src: nat, k: nat)
    requires Partly(now, before, dst, src, 0, k) && dst + k < |now| && src + k < |now|
    requires dst <= src || src + k < dst
    ensures Partly(now[dst + k := now[src + k]], before, dst, src, 0, k + 1)
  {
    assert now[src + k] == before[src + k];
  }

  /** Copying down, likewise. */
  lemma StepDown(now: seq<Byte>, before: seq<Byte>, dst: nat, src: nat, k: nat, n: nat)
    requires Partly(now, before, dst, src, k, n) && k > 0 && src < dst
    ensures Partly(now[dst + k - 1 := now[src + k - 1]], before, dst, src, k - 1, n)
  {
    assert now[src + k - 1] == before[src + k - 1];
  }

  /** memmove: right for every overlap. */
  method MemMove(mem: array<Byte>, dst: nat, src: nat, n: nat)
    requires dst + n <= mem.Length && src + n <= mem.Length
    modifies mem
    ensures Copied(mem[..], old(mem[..]), dst, src, n)
  {
    hide Partly, Copied;
    ghost var before := mem[..];
    if src < dst && src + n > dst {
      var d, s := dst + n, src + n;
      NoneYet(before, dst, src, n);
      while s > src
        invariant src <= s <= src + n && d == dst + (s - src)
        invariant Partly(mem[..], before, dst, src, s - src, n)
      {
        StepDown(mem[..], before, dst, src, s - src, n);
        d, s := d - 1, s - 1;
        mem[d] := mem[s];
      }
    } else {
      var d, s := dst, src;
      NoneYet(before, dst, src, 0);
      while s < src + n
        invariant src <= s <= src + n && d == dst + (s - src)
        invariant Partly(mem[..], before, dst, src, 0, s - src)
      {
        StepUp(mem[..], before, dst, src, s - src);
        mem[d] := mem[s];
        d, s := d + 1, s + 1;
      }
    }
    AllDone(mem[..], before, dst, src, n);
  }

  /** A machine word is loaded and stored as a whole. */
  function WithWord(m: seq<Byte>, d: nat, word: seq<Byte>): (r: seq<Byte>)
    requires |word| == WORD && d + WORD <= |m|
    ensures |r| == |m|
  {
    m[..d] + word + m[d + WORD..]
  }

  lemma StepWord(now: seq<Byte>, before: seq<Byte>, dst: nat, src: nat, k: nat)
    requires Partly(now, before, dst, src, 0, k) && dst + k + WORD <= |now| && src + k + WORD <= |now|
    requires dst + k <= src || src + k + WORD <= dst
    ensures Partly(WithWord(now, dst + k, now[src + k..src + k + WORD]), before, dst, src, 0, k + WORD)
  {
    var word := now[src + k..src + k + WORD];
    forall j | 0 <= j < WORD ensures word[j] == before[src + k + j] {
      assert now[src + k + j] == before[src + k + j];
    }
    var r := WithWord(now, dst + k, word);
    forall i | 0 <= i < |r| ensures r[i] == if dst <= i < dst + (k + WORD) then before[src + (i - dst)] else before[i] {
      if dst + k <= i < dst + k + WORD { assert r[i] == word[i - (dst + k)]; }
      else { assert r[i] == now[i]; }
    }
  }

  method CopyWord(mem: array<Byte>, d: nat, s: nat)
    requires d + WORD <= mem.Length && s + WORD <= mem.Length
    modifies mem
    ensures mem[..] == WithWord(old(mem[..]), d, old(mem[s..s + WORD]))
  {
    var word := mem[s..s + WORD];
    forall i | 0 <= i < WORD { mem[d + i] := word[i]; }
    ghost var r := WithWord(old(mem[..]), d, word);
    forall i | 0 <= i < |r| ensures mem[i] == r[i] {
      if d <= i < d + WORD { assert mem[d + (i - d)] == word[i - d]; }
    }
  }

  /** memcpy: words while both ends are aligned and a word is left, then bytes; the regions are disjoint. */
  method MemCpy(mem: array<Byte>, dest: nat, src: nat, len: nat)
    requires dest + len <= mem.Length && src + len <= mem.Length
    requires dest + len <= src || src + len <= dest
    modifies mem
    ensures Copied(mem[..], old(mem[..]), dest, src, len)
  {
    hide Partly, Copied, WithWord;
    var d, s := dest, src;
    ghost var before := mem[..];
    NoneYet(before, dest, src, 0);
    if dest % WORD == 0 && src % WORD == 0 {
      while d < dest + len - (WORD - 1)
        invariant dest <= d <= dest + len && s == src + (d - dest)
        invariant Partly(mem[..], before, dest, src, 0, d - dest)
      {
        StepWord(mem[..], before, dest, src, d - dest);
        assert mem[..][s..s + WORD] == mem[s..s + WORD];
        CopyWord(mem, d, s);
        d, s := d + WORD, s + WORD;
      }
    }
    CopyTail(mem, dest, src, d, len, before);
  }

  /** The byte loop of memcpy, from d on. */
  method CopyTail(mem: array<Byte>, dest: nat, src: nat, from: nat, len: nat, ghost before: seq<Byte>)
    requires dest + len <= mem.Length && src + len <= mem.Length && dest <= from <= dest + len
    requires dest + len <= src || src + len <= dest
    requires Partly(mem[..], before, dest, src, 0, from - dest)
    modifies mem
    ensures Copied(mem[..], before, dest, src, len)
  {
    hide Partly, Copied;
    var d, s := from, src + (from - dest);
    while d < dest + len
      invariant dest <= d <= dest + len && s == src + (d - dest)
      invariant Partly(mem[..], before, dest, src, 0, d - dest)
    {
      StepUp(mem[..], before, dest, src, d - dest);
      mem[d] := mem[s];
      d, s := d + 1, s + 1;
    }
    AllDone(mem[..], before, dest, src, len);
  }
}
