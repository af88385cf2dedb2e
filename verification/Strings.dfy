// memmove, memcpy and memset of string.c on one byte-addressed memory.
module Strings {

  type byte = x: int | 0 <= x < 256

  // For every overlap of the two ranges.
  method Memmove(mem: array<byte>, dst: nat, src: nat, n: nat)
    requires dst + n <= mem.Length && src + n <= mem.Length
    modifies mem
    ensures mem[dst..dst + n] == old(mem[src..src + n])
    ensures forall a :: 0 <= a < mem.Length && !(dst <= a < dst + n) ==> mem[a] == old(mem[a])
  {
    var s, d, left := src, dst, n;
    if s < d && s + n > d {
      s, d := s + n, d + n;
      while left > 0
        invariant 0 <= left <= n && s == src + left && d == dst + left
        invariant forall a :: dst + left <= a < dst + n ==> mem[a] == old(mem[a - dst + src])
        invariant forall a :: 0 <= a < mem.Length && !(dst + left <= a < dst + n) ==> mem[a] == old(mem[a])
      {
        left := left - 1;
        s, d := s - 1, d - 1;
        mem[d] := mem[s];
      }
    } else {
      while left > 0
        invariant 0 <= left <= n && s == src + (n - left) && d == dst + (n - left)
        invariant forall a :: dst <= a < dst + (n - left) ==> mem[a] == old(mem[a - dst + src])
        invariant forall a :: 0 <= a < mem.Length && !(dst <= a < dst + (n - left)) ==> mem[a] == old(mem[a])
      {
        left := left - 1;
        mem[d] := mem[s];
        s, d := s + 1, d + 1;
      }
    }
  }

  method Memcpy(mem: array<byte>, dst: nat, src: nat, n: nat)
    requires dst + n <= mem.Length && src + n <= mem.Length
    modifies mem
    ensures mem[dst..dst + n] == old(mem[src..src + n])
    ensures forall a :: 0 <= a < mem.Length && !(dst <= a < dst + n) ==> mem[a] == old(mem[a])
  {
    Memmove(mem, dst, src, n);
  }

  // (c << 24) | (c << 16) | (c << 8) | c
  function Replicate(c: byte): nat { c * 0x100_0000 + c * 0x1_0000 + c * 0x100 + c }

  // Byte k of a 32-bit word, lowest first.
  function ByteOf(w: nat, k: nat): byte {
    match k
    case 0 => w % 256
    case 1 => w / 256 % 256
    case 2 => w / 256 / 256 % 256
    case _ => w / 256 / 256 / 256 % 256
  }

  /** The four bytes, lowest first, make up the word. */
  lemma WordBytes(w: nat)
    requires w < 0x1_0000_0000
    ensures ByteOf(w, 0) + 0x100 * ByteOf(w, 1) + 0x1_0000 * ByteOf(w, 2) + 0x100_0000 * ByteOf(w, 3) == w
  {
    var a, b, c := w / 256, w / 256 / 256, w / 256 / 256 / 256;
    assert w == 256 * a + w % 256 && a == 256 * b + a % 256 && b == 256 * c + b % 256 && c < 256;
  }

  /** Every byte of the word that the fast path stores is the fill byte. */
  lemma ReplicateBytes(c: byte, k: nat)
    requires k < 4
    ensures ByteOf(Replicate(c), k) == c
  {
    assert Replicate(c) == 256 * (c * 0x1_0000 + c * 0x100 + c) + c;
    assert Replicate(c) / 256 == 256 * (c * 0x100 + c) + c;
    assert Replicate(c) / 256 / 256 == 256 * c + c;
  }

  // rep stosl
  method Stosl(mem: array<byte>, dst: nat, w: nat, cnt: nat)
    requires dst + 4 * cnt <= mem.Length
    modifies mem
    ensures forall a :: dst <= a < dst + 4 * cnt ==> mem[a] == ByteOf(w, (a - dst) % 4)
    ensures forall a :: 0 <= a < mem.Length && !(dst <= a < dst + 4 * cnt) ==> mem[a] == old(mem[a])
  {
    var i := 0;
    while i < cnt
      invariant 0 <= i <= cnt
      invariant forall a :: dst <= a < dst + 4 * i ==> mem[a] == ByteOf(w, (a - dst) % 4)
      invariant forall a :: 0 <= a < mem.Length && !(dst <= a < dst + 4 * i) ==> mem[a] == old(mem[a])
    {
      var p := dst + 4 * i;
      mem[p], mem[p + 1], mem[p + 2], mem[p + 3] := ByteOf(w, 0), ByteOf(w, 1), ByteOf(w, 2), ByteOf(w, 3);
      i := i + 1;
    }
  }

  // rep stosb
  method Stosb(mem: array<byte>, dst: nat, c: byte, cnt: nat)
    requires dst + cnt <= mem.Length
    modifies mem
    ensures forall a :: dst <= a < dst + cnt ==> mem[a] == c
    ensures forall a :: 0 <= a < mem.Length && !(dst <= a < dst + cnt) ==> mem[a] == old(mem[a])
  {
    var i := 0;
    while i < cnt
      invariant 0 <= i <= cnt
      invariant forall a :: dst <= a < dst + i ==> mem[a] == c
      invariant forall a :: 0 <= a < mem.Length && !(dst <= a < dst + i) ==> mem[a] == old(mem[a])
    {
      mem[dst + i] := c;
      i := i + 1;
    }
  }

  // Both paths fill with the low byte of c. dst is also the address, for the alignment test.
  method Memset(mem: array<byte>, dst: nat, c: int, n: nat)
    requires dst + n <= mem.Length
    modifies mem
    ensures forall a :: dst <= a < dst + n ==> mem[a] == c % 256
    ensures forall a :: 0 <= a < mem.Length && !(dst <= a < dst + n) ==> mem[a] == old(mem[a])
  {
    if dst % 4 == 0 && n % 4 == 0 {
      var b: byte := c % 256;
      Stosl(mem, dst, Replicate(b), n / 4);
      forall a | dst <= a < dst + n ensures mem[a] == b { ReplicateBytes(b, (a - dst) % 4); }
    } else {
      Stosb(mem, dst, c % 256, n);
    }
  }
}
