/** Memory as an array of bytes: `memcpy` and `memmove` of lib.c, little-endian fields, rounding. */
module Memory {
  type byte = x: int | 0 <= x < 256

  /** Where byte `i` of an ascending byte-by-byte copy comes from: once the copy reads what it has
      itself written, the first `dst - src` bytes repeat. */
  function CopySource(dst: nat, src: nat, i: nat): (k: nat)
    ensures src <= k <= src + i
  {
    if src < dst then src + i % (dst - src) else src + i
  }

  /** Byte `a` after `n` bytes have been copied in ascending order. */
  function CopiedByte(m: seq<byte>, dst: nat, src: nat, n: nat, a: nat): byte
    requires dst + n <= |m| && src + n <= |m| && a < |m|
  {
    if dst <= a < dst + n then m[CopySource(dst, src, a - dst)] else m[a]
  }

  /** Memory `m` with `n` bytes copied in ascending order. */
  function Copied(m: seq<byte>, dst: nat, src: nat, n: nat): (r: seq<byte>)
    requires dst + n <= |m| && src + n <= |m|
    ensures |r| == |m| && forall a | 0 <= a < |m| :: r[a] == CopiedByte(m, dst, src, n, a)
  {
    seq(|m|, a requires 0 <= a < |m| => CopiedByte(m, dst, src, n, a))
  }

  /** Memory `m` with the `n` bytes at `src` now also at `dst`. */
  function Moved(m: seq<byte>, dst: nat, src: nat, n: nat): (r: seq<byte>)
    requires dst + n <= |m| && src + n <= |m|
    ensures |r| == |m| && forall a | 0 <= a < |m| :: r[a] == MovedByte(m, dst, src, n, a)
  {
    seq(|m|, a requires 0 <= a < |m| => MovedByte(m, dst, src, n, a))
  }

  function MovedByte(m: seq<byte>, dst: nat, src: nat, n: nat, a: nat): byte
    requires dst + n <= |m| && src + n <= |m| && a < |m|
  {
    if dst <= a < dst + n then m[src + (a - dst)] else m[a]
  }

  /** The branch of `memmove` that copies downwards. */
  predicate Overtakes(dst: nat, src: nat, n: nat) {
    src < dst < src + n
  }

  lemma Repeats(i: nat, d: nat)
    requires 0 < d <= i
    ensures (i - d) % d == i % d
  {
    var q, r := i / d, i % d;
    assert i - d == (q - 1) * d + r;
    ModOf(i - d, q - 1, r, d);
  }

  lemma FarMultiple(k: int, d: nat)
    ensures k >= 1 ==> k * d >= d
    ensures k <= -1 ==> k * d + d <= 0
  {
    assert k >= 1 ==> k * d == (k - 1) * d + d;
    assert k <= -1 ==> k * d == (k + 1) * d - d;
  }

  lemma ModOf(x: nat, q: nat, r: nat, d: nat)
    requires x == q * d + r && r < d
    ensures x % d == r
  {
    var p, s := x / d, x % d;
    var k := p - q;
    assert k * d == p * d - q * d == r - s;
    FarMultiple(k, d);
  }

  /** Byte `i` is read from the untouched source, or from bytes the copy has already written. */
  lemma CopyRead(dst: nat, src: nat, i: nat)
    ensures if dst <= src + i < dst + i then CopySource(dst, src, src + i - dst) == CopySource(dst, src, i)
            else CopySource(dst, src, i) == src + i
  {
    if src < dst {
      if dst <= src + i {
        Repeats(i, dst - src);
      } else {
        ModOf(i, 0, i, dst - src);
      }
    }
  }

  lemma CopiedOutside(m: seq<byte>, dst: nat, src: nat, n: nat)
    requires dst + n <= |m| && src + n <= |m|
    ensures var r := Copied(m, dst, src, n); r[..dst] == m[..dst] && r[dst + n..] == m[dst + n..]
  {
    hide CopySource;
  }

  lemma CopiedByteNear(m: seq<byte>, dst: nat, src: nat, n: nat, i: nat)
    requires dst + n <= |m| && src + n <= |m| && src < dst && i < n
    ensures CopiedByte(m, dst, src, n, dst + i) == CopiedByte(m, dst, src, n, src + i)
  {
    CopyRead(dst, src, i);
    hide CopySource;
  }

  /** Copying upwards, the destination ends up equal to what is then in the source. */
  lemma CopiedInside(m: seq<byte>, dst: nat, src: nat, n: nat)
    requires dst + n <= |m| && src + n <= |m|
    ensures src >= dst ==> Copied(m, dst, src, n)[dst..dst + n] == m[src..src + n]
    ensures src < dst ==> Copied(m, dst, src, n)[dst..dst + n] == Copied(m, dst, src, n)[src..src + n]
  {
    var r := Copied(m, dst, src, n);
    if src < dst {
      hide CopiedByte;
      var to, from := r[dst..dst + n], r[src..src + n];
      forall i | 0 <= i < n ensures to[i] == from[i] {
        CopiedByteNear(m, dst, src, n, i);
        assert r[dst + i] == CopiedByte(m, dst, src, n, dst + i);
        assert r[src + i] == CopiedByte(m, dst, src, n, src + i);
      }
    }
  }

  /** `memcpy`. */
  method Memcpy(mem: array<byte>, dst: nat, src: nat, n: nat) returns (r: nat)
    requires dst + n <= mem.Length && src + n <= mem.Length
    modifies mem
    ensures r == dst && mem[..] == Copied(old(mem[..]), dst, src, n)
  {
    hide CopySource;
    ghost var was := mem[..];
    var i := 0;
    while i < n
      invariant 0 <= i <= n
      invariant forall a | 0 <= a < mem.Length :: mem[a] == CopiedByte(was, dst, src, i, a)
    {
      CopyRead(dst, src, i);
      assert mem[src + i] == CopiedByte(was, dst, src, i, src + i) == CopiedByte(was, dst, src, i + 1, dst + i);
      mem[dst + i] := mem[src + i];
      i := i + 1;
    }
    r := dst;
  }

  /** A copy that does not overtake its source is a move. */
  lemma MovedWhole(m: seq<byte>, dst: nat, src: nat, n: nat)
    requires dst + n <= |m| && src + n <= |m| && !Overtakes(dst, src, n)
    ensures Copied(m, dst, src, n) == Moved(m, dst, src, n)
  {
    forall i: nat | i < n ensures CopySource(dst, src, i) == src + i {
      if src < dst {
        ModOf(i, 0, i, dst - src);
      }
    }
  }

  /** `memmove`: ascending or descending, so that overlap never matters. */
  method Memmove(mem: array<byte>, dst: nat, src: nat, n: nat) returns (r: nat)
    requires dst + n <= mem.Length && src + n <= mem.Length
    modifies mem
    ensures r == dst && mem[..] == Moved(old(mem[..]), dst, src, n)
    ensures mem[..dst] == old(mem[..dst]) && mem[dst + n..] == old(mem[dst + n..])
    ensures mem[dst..dst + n] == old(mem[src..src + n])
  {
    ghost var was := mem[..];
    if src < dst && src + n > dst {
      var left := n;
      while left > 0
        invariant 0 <= left <= n
        invariant forall a | 0 <= a < mem.Length ::
            mem[a] == if a < dst + left then was[a] else MovedByte(was, dst, src, n, a)
      {
        left := left - 1;
        mem[dst + left] := mem[src + left];
      }
    } else {
      MovedWhole(was, dst, src, n);
      var _ := Memcpy(mem, dst, src, n);
    }
    r := dst;
  }

  function Marked(size: nat, a: nat): seq<byte> {
    seq(size, i => if i == a then 1 else 0)
  }

  /** `memcpy` moves every memory's bytes as `memmove` does, exactly when the copy does not overtake
      its own source. */
  lemma CopyIsMoveIff(size: nat, dst: nat, src: nat, n: nat)
    requires dst + n <= size && src + n <= size
    ensures !Overtakes(dst, src, n) <==>
            forall m: seq<byte> | |m| == size :: Copied(m, dst, src, n) == Moved(m, dst, src, n)
  {
    if Overtakes(dst, src, n) {
      var d := dst - src;
      var m := Marked(size, dst);
      assert CopySource(dst, src, d) == src;
      assert Copied(m, dst, src, n)[dst + d] == m[src];
      assert Moved(m, dst, src, n)[dst + d] == m[dst];
      assert Copied(m, dst, src, n) != Moved(m, dst, src, n);
    } else {
      forall m: seq<byte> | |m| == size ensures Copied(m, dst, src, n) == Moved(m, dst, src, n) {
        MovedWhole(m, dst, src, n);
      }
    }
  }

  // ----- Fields and rounding -----

  /** The little-endian 16-bit field at `at`. */
  function Half(m: seq<byte>, at: nat): (w: nat)
    requires at + 2 <= |m|
    ensures w < 0x1_0000
  {
    var lo: int, hi: int := m[at], m[at + 1];
    lo + 0x100 * hi
  }

  /** The little-endian 32-bit field at `at`. */
  function Word(m: seq<byte>, at: nat): (w: nat)
    requires at + 4 <= |m|
    ensures w < 0x1_0000_0000
  {
    Half(m, at) + 0x1_0000 * Half(m, at + 2)
  }

  function RoundDown(a: nat, unit: nat): (r: nat)
    requires unit > 0
    ensures r <= a
  {
    a - a % unit
  }

  function RoundUp(a: nat, unit: nat): (r: nat)
    requires unit > 0
    ensures r >= a
  {
    if a % unit == 0 then a else a + (unit - a % unit)
  }
}
