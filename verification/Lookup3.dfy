/**
 Bob Jenkins' lookup3 (src/lib/lookup3.cc): the same hash computed by reading the key as
 32-bit words, as 16-bit halfwords or byte by byte. 32-bit words are numbers modulo 2^32.
 */
module Lookup3 {
  import opened Arithmetic
  import opened Bytes

  type u32 = x: int | 0 <= x < 0x1_0000_0000

  datatype Words = Words(a: u32, b: u32, c: u32)

  function Add(x: u32, y: u32): u32 {
    (x + y) % 0x1_0000_0000
  }

  function Sub(x: u32, y: u32): u32 {
    (x - y) % 0x1_0000_0000
  }

  /** Exclusive or of the lowest n bits. */
  function XorBits(x: nat, y: nat, n: nat): nat {
    if n == 0 then 0
    else (if x % 2 == y % 2 then 0 else 1) + 2 * XorBits(x / 2, y / 2, n - 1)
  }

  lemma {:induction false} XorBitsBound(x: nat, y: nat, n: nat)
    ensures XorBits(x, y, n) < Pow2(n)
  {
    if n > 0 {
      XorBitsBound(x / 2, y / 2, n - 1);
    }
  }

  lemma {:induction false} XorBitsTwice(x: nat, y: nat, n: nat)
    requires x < Pow2(n)
    ensures XorBits(XorBits(x, y, n), y, n) == x
  {
    if n > 0 {
      XorBitsTwice(x / 2, y / 2, n - 1);
      var r := XorBits(x / 2, y / 2, n - 1);
      var bit := if x % 2 == y % 2 then 0 else 1;
      assert (bit + 2 * r) % 2 == bit && (bit + 2 * r) / 2 == r;
    }
  }

  lemma Pow2Is()
    ensures Pow2(32) == 0x1_0000_0000
  {
    assert Pow2(8) == 0x100;
    assert Pow2(16) == 0x1_0000;
    assert Pow2(24) == 0x100_0000;
  }

  function Xor(x: u32, y: u32): u32 {
    XorBitsBound(x, y, 32);
    Pow2Is();
    XorBits(x, y, 32)
  }

  /** A left rotation by k bits is k left rotations by one bit. */
  function Rot(x: u32, k: nat): u32 {
    if k == 0 then x else
    var y := Rot(x, k - 1);
    2 * y % 0x1_0000_0000 + y / 0x8000_0000
  }

  // ---------------------------------------------------------------- mix and final

  /** One line of mix: x -= z; x ^= rot(z,k); z += y. The result is (x, z). */
  function MixLine(x: u32, y: u32, z: u32, k: nat): (u32, u32) {
    (Xor(Sub(x, z), Rot(z, k)), Add(z, y))
  }

  function Mix(s: Words): Words {
    var Words(a, b, c) := s;
    var (a, c) := MixLine(a, b, c, 4);
    var (b, a) := MixLine(b, c, a, 6);
    var (c, b) := MixLine(c, a, b, 8);
    var (a, c) := MixLine(a, b, c, 16);
    var (b, a) := MixLine(b, c, a, 19);
    var (c, b) := MixLine(c, a, b, 4);
    Words(a, b, c)
  }

  /** One step of final: x ^= y; x -= rot(y,k). */
  function FinalStep(x: u32, y: u32, k: nat): u32 {
    Sub(Xor(x, y), Rot(y, k))
  }

  function Final(s: Words): Words {
    var Words(a, b, c) := s;
    var c := FinalStep(c, b, 14);
    var a := FinalStep(a, c, 11);
    var b := FinalStep(b, a, 25);
    var c := FinalStep(c, b, 16);
    var a := FinalStep(a, c, 4);
    var b := FinalStep(b, a, 14);
    var c := FinalStep(c, b, 24);
    Words(a, b, c)
  }

  function UnmixLine(x: u32, y: u32, z: u32, k: nat): (u32, u32) {
    var z := Sub(z, y);
    (Add(Xor(x, Rot(z, k)), z), z)
  }

  /** The lines of mix undone in reverse. */
  function Unmix(s: Words): Words {
    var Words(a, b, c) := s;
    var (c, b) := UnmixLine(c, a, b, 4);
    var (b, a) := UnmixLine(b, c, a, 19);
    var (a, c) := UnmixLine(a, b, c, 16);
    var (c, b) := UnmixLine(c, a, b, 8);
    var (b, a) := UnmixLine(b, c, a, 6);
    var (a, c) := UnmixLine(a, b, c, 4);
    Words(a, b, c)
  }

  lemma XorTwice(x: u32, y: u32)
    ensures Xor(Xor(x, y), y) == x
  {
    Pow2Is();
    XorBitsTwice(x, y, 32);
  }

  lemma MixLineInverse(x: u32, y: u32, z: u32, k: nat)
    ensures var (x', z') := MixLine(x, y, z, k); UnmixLine(x', y, z', k) == (x, z)
  {
    SubUndoesAdd(z, y);
    XorTwice(Sub(x, z), Rot(z, k));
    AddUndoesSub(x, z);
  }

  lemma SubUndoesAdd(x: u32, y: u32)
    ensures Sub(Add(x, y), y) == x
  {
  }

  lemma AddUndoesSub(x: u32, y: u32)
    ensures Add(Sub(x, y), y) == x
  {
  }

  /** mix is reversible: whatever was in (a,b,c) can be recovered. */
  lemma MixIsReversible(s: Words)
    ensures Unmix(Mix(s)) == s
  {
    var Words(a0, b0, c0) := s;
    var (a1, c1) := MixLine(a0, b0, c0, 4);
    var (b1, a2) := MixLine(b0, c1, a1, 6);
    var (c2, b2) := MixLine(c1, a2, b1, 8);
    var (a3, c3) := MixLine(a2, b2, c2, 16);
    var (b3, a4) := MixLine(b2, c3, a3, 19);
    MixLineInverse(a0, b0, c0, 4);
    MixLineInverse(b0, c1, a1, 6);
    MixLineInverse(c1, a2, b1, 8);
    MixLineInverse(a2, b2, c2, 16);
    MixLineInverse(b2, c3, a3, 19);
    MixLineInverse(c3, a4, b3, 4);
  }

  function UnfinalStep(x: u32, y: u32, k: nat): u32 {
    Xor(Add(x, Rot(y, k)), y)
  }

  /** The steps of final undone in reverse. */
  function Unfinal(s: Words): Words {
    var Words(a, b, c) := s;
    var c := UnfinalStep(c, b, 24);
    var b := UnfinalStep(b, a, 14);
    var a := UnfinalStep(a, c, 4);
    var c := UnfinalStep(c, b, 16);
    var b := UnfinalStep(b, a, 25);
    var a := UnfinalStep(a, c, 11);
    var c := UnfinalStep(c, b, 14);
    Words(a, b, c)
  }

  lemma FinalStepInverse(x: u32, y: u32, k: nat)
    ensures UnfinalStep(FinalStep(x, y, k), y, k) == x
  {
    AddUndoesSub(Xor(x, y), Rot(y, k));
    XorTwice(x, y);
  }

  /** final is reversible as well: it loses nothing but what the caller throws away. */
  lemma FinalIsReversible(s: Words)
    ensures Unfinal(Final(s)) == s
  {
    var Words(a0, b0, c0) := s;
    var c1 := FinalStep(c0, b0, 14);
    var a1 := FinalStep(a0, c1, 11);
    var b1 := FinalStep(b0, a1, 25);
    var c2 := FinalStep(c1, b1, 16);
    var a2 := FinalStep(a1, c2, 4);
    var b2 := FinalStep(b1, a2, 14);
    FinalStepInverse(c0, b0, 14);
    FinalStepInverse(a0, c1, 11);
    FinalStepInverse(b0, a1, 25);
    FinalStepInverse(c1, b1, 16);
    FinalStepInverse(a1, c2, 4);
    FinalStepInverse(b1, a2, 14);
    FinalStepInverse(c2, b2, 24);
  }

  // ---------------------------------------------------------------- rotation and exclusive or, bit by bit

  /** Rotating by k bits puts the high k bits h below the low ones l. */
  lemma {:induction false} RotIs(x: u32, k: nat, h: nat, l: nat)
    requires k <= 32 && x == Pow2(32 - k) * h + l && l < Pow2(32 - k)
    ensures Rot(x, k) == l * Pow2(k) + h
  {
    Pow2Is();
    if k == 0 {
      NothingAbove(x, h, l);
    } else {
      var p, q := Pow2(32 - k), Pow2(k - 1);
      Pow2Product(32 - k, k);
      Halve(p, h, l);
      RotIs(x, k - 1, h / 2, h % 2 * p + l);
      RotNext(x, p, q, h, l, Rot(x, k - 1));
    }
  }

  lemma NothingAbove(x: u32, h: nat, l: nat)
    requires x == 0x1_0000_0000 * h + l
    ensures h == 0 && x == l
  {}

  lemma Halve(p: nat, h: nat, l: nat)
    requires l < p
    ensures p * h + l == (2 * p) * (h / 2) + (h % 2 * p + l) && h % 2 * p + l < 2 * p
  {
    assert p * h == p * (2 * (h / 2) + h % 2) == p * (2 * (h / 2)) + p * (h % 2);
    assert p * (2 * (h / 2)) == (2 * p) * (h / 2);
  }

  lemma RotNext(x: u32, p: nat, q: nat, h: nat, l: nat, y: u32)
    requires p * (2 * q) == 0x1_0000_0000 && x == p * h + l && l < p && y == (h % 2 * p + l) * q + h / 2
    ensures 2 * y % 0x1_0000_0000 + y / 0x8000_0000 == l * (2 * q) + h
  {
    Halve(p, h, l);
    HighPart(x, p, q, h / 2, h % 2 * p + l);
    LowPart(l, p, q, h / 2);
    RotateBit(y, p, q, h / 2, h % 2, l);
  }

  lemma {:induction false} Pow2Product(a: nat, b: nat)
    ensures Pow2(a) * Pow2(b) == Pow2(a + b)
  {
    if a > 0 {
      Pow2Product(a - 1, b);
      assert (2 * Pow2(a - 1)) * Pow2(b) == 2 * (Pow2(a - 1) * Pow2(b));
    }
  }

  lemma RotateBit(y: nat, p: nat, q: nat, h: nat, bit: nat, low: nat)
    requires p * (2 * q) == 0x1_0000_0000 && y == (bit * p + low) * q + h && bit <= 1 && low * q + h < p * q
    ensures 2 * y % 0x1_0000_0000 + y / 0x8000_0000 == low * (2 * q) + (2 * h + bit)
  {
    assert (bit * p + low) * q == bit * (p * q) + low * q;
    assert p * (2 * q) == 2 * (p * q);
    assert low * (2 * q) == 2 * (low * q);
    TopBit(y, bit, low * q + h);
  }

  lemma TopBit(y: nat, bit: nat, rest: nat)
    requires y == bit * 0x8000_0000 + rest && bit <= 1 && rest < 0x8000_0000
    ensures 2 * y % 0x1_0000_0000 + y / 0x8000_0000 == 2 * rest + bit
  {}

  lemma HighPart(x: nat, p: nat, q: nat, h: nat, l: nat)
    requires p > 0 && x < p * (2 * q) && x == (2 * p) * h + l
    ensures h < q
  {
    assert q * (2 * p) == p * (2 * q) && h * (2 * p) == (2 * p) * h;
    if h >= q {
      MulMono(q, h, 2 * p);
    }
  }

  lemma LowPart(low: nat, p: nat, q: nat, h: nat)
    requires low < p && h < q
    ensures low * q + h < p * q
  {
    MulMono(low + 1, p, q);
    assert (low + 1) * q == low * q + q;
  }

  /** Bit i of the exclusive or is set exactly if the bits of the two differ. */
  lemma {:induction false} XorBitAt(x: nat, y: nat, n: nat, i: nat)
    requires i < n
    ensures XorBits(x, y, n) / Pow2(i) % 2 == if x / Pow2(i) % 2 == y / Pow2(i) % 2 then 0 else 1
  {
    var r := XorBits(x / 2, y / 2, n - 1);
    var bit := if x % 2 == y % 2 then 0 else 1;
    assert (bit + 2 * r) / 2 == r && (bit + 2 * r) % 2 == bit;
    if i > 0 {
      XorBitAt(x / 2, y / 2, n - 1, i - 1);
      HalfFirst(x, Pow2(i - 1));
      HalfFirst(y, Pow2(i - 1));
      HalfFirst(bit + 2 * r, Pow2(i - 1));
    }
  }

  lemma HalfFirst(x: nat, p: nat)
    requires p > 0
    ensures x / (2 * p) == x / 2 / p
  {
    var q, r := x / 2 / p, x / 2 % p;
    assert x / 2 == p * q + r;
    assert x == 2 * (p * q) + (2 * r + x % 2);
    assert 2 * (p * q) == (2 * p) * q;
    ModUnique(x, 2 * p, q, 2 * r + x % 2);
  }

  // ---------------------------------------------------------------- the reference

  /** A little-endian word. */
  function Quad(b0: Byte, b1: Byte, b2: Byte, b3: Byte): u32 {
    var x0: int, x1: int, x2: int, x3: int := b0, b1, b2, b3;
    x0 + x1 * 0x100 + x2 * 0x1_0000 + x3 * 0x100_0000
  }

  function At(s: seq<Byte>, i: nat): Byte {
    if i < |s| then s[i] else 0
  }

  /** Word i of a block: bytes past the block's end count as zero. */
  function WordAt(block: seq<Byte>, i: nat): u32 {
    Quad(At(block, 4 * i), At(block, 4 * i + 1), At(block, 4 * i + 2), At(block, 4 * i + 3))
  }

  function AddBlock(s: Words, block: seq<Byte>): Words {
    Words(Add(s.a, WordAt(block, 0)), Add(s.b, WordAt(block, 1)), Add(s.c, WordAt(block, 2)))
  }

  /** Full blocks are mixed in, the last one is finished; an empty key is not mixed at all. */
  function Absorb(key: seq<Byte>, s: Words): u32
    decreases |key|
  {
    if |key| > 12 then Absorb(key[12..], Mix(AddBlock(s, key[..12])))
    else if |key| == 0 then s.c
    else Final(AddBlock(s, key)).c
  }

  function Start(length: nat, initval: u32): Words {
    var x := Add(Add(0xdeadbeef, length % 0x1_0000_0000), initval);
    Words(x, x, x)
  }

  /** The hash of a key, defined without regard to how it is read. */
  function Hash(key: seq<Byte>, initval: u32): u32 {
    Absorb(key, Start(|key|, initval))
  }

  // ---------------------------------------------------------------- reading memory

  /** Aligned little-endian reads from the memory at the key. */
  function Read32(mem: seq<Byte>, p: nat): u32
    requires p + 4 <= |mem|
  {
    Quad(mem[p], mem[p + 1], mem[p + 2], mem[p + 3])
  }

  function Read16(mem: seq<Byte>, p: nat): u32
    requires p + 2 <= |mem|
  {
    var lo: int, hi: int := mem[p], mem[p + 1];
    lo + hi * 0x100
  }

  /** The first n bytes at p, as the low bytes of a word. */
  function Low(mem: seq<Byte>, p: nat, n: nat): u32
    requires p + n <= |mem|
  {
    WordAt(mem[p..p + n], 0)
  }

  lemma LowIs(mem: seq<Byte>, p: nat, n: nat)
    requires p + n <= |mem|
    ensures Low(mem, p, n)
         == Quad(if n > 0 then mem[p] else 0, if n > 1 then mem[p + 1] else 0,
                 if n > 2 then mem[p + 2] else 0, if n > 3 then mem[p + 3] else 0)
  {
  }

  /** The 32-bit version reads the whole word and masks off what lies past the end; taking a
      word modulo a power of two is masking it. */
  method AddMasked(x: u32, mem: seq<Byte>, p: nat, n: nat) returns (r: u32)
    requires n <= 4 && p + n <= |mem| && (n > 0 ==> p + 4 <= |mem|)
    ensures r == Add(x, Low(mem, p, n))
  {
    LowIs(mem, p, n);
    if n == 0 { return x; }
    var w := Read32(mem, p);
    QuadMasks(mem[p], mem[p + 1], mem[p + 2], mem[p + 3]);
    if n == 4 { return Add(x, w); }
    if n == 3 { return Add(x, w % 0x100_0000); }
    if n == 2 { return Add(x, w % 0x1_0000); }
    return Add(x, w % 0x100);
  }

  /** The 16-bit version: whole halfwords, and a last odd byte. */
  method AddHalves(x: u32, mem: seq<Byte>, p: nat, n: nat) returns (r: u32)
    requires n <= 4 && p + n <= |mem|
    ensures r == Add(x, Low(mem, p, n))
  {
    LowIs(mem, p, n);
    if n == 0 { return x; }
    if n == 1 { return Add(x, mem[p]); }
    if n == 2 { return Add(x, Read16(mem, p)); }
    if n == 3 {
      AddTwice(x, Shifted(mem[p + 2], 0x1_0000), Read16(mem, p));
      return Add(Add(x, Shifted(mem[p + 2], 0x1_0000)), Read16(mem, p));
    }
    return Add(x, Read16(mem, p) + Read16(mem, p + 2) * 0x1_0000);
  }

  /** The byte version: one addition for each byte, highest first in the last block. */
  method AddBytes(x: u32, mem: seq<Byte>, p: nat, n: nat) returns (r: u32)
    requires n <= 4 && p + n <= |mem|
    ensures r == Add(x, Low(mem, p, n))
  {
    LowIs(mem, p, n);
    r := x;
    ghost var sum: u32 := 0;
    if n >= 4 { r := Add(r, Shifted(mem[p + 3], 0x100_0000)); sum := Shifted(mem[p + 3], 0x100_0000); }
    if n >= 3 { r, sum := Accumulate(x, r, sum, mem[p + 2], 0x1_0000); }
    if n >= 2 { r, sum := Accumulate(x, r, sum, mem[p + 1], 0x100); }
    if n >= 1 { r, sum := Accumulate(x, r, sum, mem[p], 1); }
  }

  function Shifted(b: Byte, unit: nat): u32
    requires unit in {1, 0x100, 0x1_0000, 0x100_0000}
  {
    var v: int := b;
    v * unit
  }

  /** Adding to r, which is x plus sum, adds to the sum. */
  method Accumulate(ghost x: u32, r: u32, ghost sum: nat, b: Byte, unit: nat) returns (r': u32, ghost sum': u32)
    requires unit in {1, 0x100, 0x1_0000}
    requires sum <= 0x1_0000_0000 - 256 * unit && r == Add(x, sum)
    ensures sum' == sum + Shifted(b, unit) <= 0x1_0000_0000 - unit && r' == Add(x, sum')
  {
    AddTwice(x, sum, Shifted(b, unit));
    r', sum' := Add(r, Shifted(b, unit)), sum + Shifted(b, unit);
  }

  lemma AddTwice(x: u32, y: u32, z: u32)
    requires y + z < 0x1_0000_0000
    ensures Add(Add(x, y), z) == Add(x, y + z)
  {
  }

  lemma QuadMasks(b0: Byte, b1: Byte, b2: Byte, b3: Byte)
    ensures Quad(b0, b1, b2, b3) % 0x100_0000 == Quad(b0, b1, b2, 0)
    ensures Quad(b0, b1, b2, b3) % 0x1_0000 == Quad(b0, b1, 0, 0)
    ensures Quad(b0, b1, b2, b3) % 0x100 == Quad(b0, 0, 0, 0)
  {
  }

  // ---------------------------------------------------------------- the three versions

  /** A last block of n bytes splits into the parts that fall into each word. */
  function Part(n: nat, i: nat): (k: nat)
    ensures k <= 4 && (4 * i <= n ==> 4 * i + k <= n)
  {
    if n <= 4 * i then 0 else if n >= 4 * i + 4 then 4 else n - 4 * i
  }

  lemma BlockWords(mem: seq<Byte>, p: nat, n: nat, i: nat)
    requires n <= 12 && p + n <= |mem| && i < 3
    ensures WordAt(mem[p..p + n], i) == if 4 * i <= n then Low(mem, p + 4 * i, Part(n, i)) else 0
  {
    var block, k := mem[p..p + n], Part(n, i);
    if 4 * i <= n {
      var part := mem[p + 4 * i..p + 4 * i + k];
      assert forall j :: 0 <= j < 4 ==> At(part, j) == At(block, 4 * i + j);
    }
  }

  /** The memory from p on that the 32-bit version may read: whole words up to the key's end. */
  predicate WordsReadable(mem: seq<Byte>, p: nat, n: nat) {
    p + n <= |mem| && p + (n + 3) / 4 * 4 <= |mem|
  }

  lemma WordsReadableStep(mem: seq<Byte>, p: nat, n: nat)
    requires n > 12 && WordsReadable(mem, p, n)
    ensures WordsReadable(mem, p, 12) && WordsReadable(mem, p + 12, n - 12)
  {
  }

  method BlockByWords(s: Words, mem: seq<Byte>, p: nat, n: nat) returns (r: Words)
    requires n <= 12 && WordsReadable(mem, p, n)
    ensures r == AddBlock(s, mem[p..p + n])
  {
    BlockWords(mem, p, n, 0);
    BlockWords(mem, p, n, 1);
    BlockWords(mem, p, n, 2);
    var a := AddMasked(s.a, mem, p, Part(n, 0));
    var b, c := s.b, s.c;
    if n > 4 { b := AddMasked(b, mem, p + 4, Part(n, 1)); }
    if n > 8 { c := AddMasked(c, mem, p + 8, Part(n, 2)); }
    r := Words(a, b, c);
  }

  method BlockByHalves(s: Words, mem: seq<Byte>, p: nat, n: nat) returns (r: Words)
    requires n <= 12 && p + n <= |mem|
    ensures r == AddBlock(s, mem[p..p + n])
  {
    BlockWords(mem, p, n, 0);
    BlockWords(mem, p, n, 1);
    BlockWords(mem, p, n, 2);
    var a := AddHalves(s.a, mem, p, Part(n, 0));
    var b, c := s.b, s.c;
    if n > 4 { b := AddHalves(b, mem, p + 4, Part(n, 1)); }
    if n > 8 { c := AddHalves(c, mem, p + 8, Part(n, 2)); }
    r := Words(a, b, c);
  }

  method BlockByBytes(s: Words, mem: seq<Byte>, p: nat, n: nat) returns (r: Words)
    requires n <= 12 && p + n <= |mem|
    ensures r == AddBlock(s, mem[p..p + n])
  {
    BlockWords(mem, p, n, 0);
    BlockWords(mem, p, n, 1);
    BlockWords(mem, p, n, 2);
    var a := AddBytes(s.a, mem, p, Part(n, 0));
    var b, c := s.b, s.c;
    if n > 4 { b := AddBytes(b, mem, p + 4, Part(n, 1)); }
    if n > 8 { c := AddBytes(c, mem, p + 8, Part(n, 2)); }
    r := Words(a, b, c);
  }

  /** The loop all three versions share, in the shape of each: whole blocks, then the rest. */
  lemma AbsorbStep(mem: seq<Byte>, p: nat, n: nat, s: Words)
    requires p + n <= |mem|
    ensures n > 12 ==> Absorb(mem[p..p + n], s) == Absorb(mem[p + 12..p + n], Mix(AddBlock(s, mem[p..p + 12])))
    ensures n == 0 ==> Absorb(mem[p..p + n], s) == s.c
    ensures 0 < n <= 12 ==> Absorb(mem[p..p + n], s) == Final(AddBlock(s, mem[p..p + n])).c
  {
    if n > 12 {
      assert mem[p..p + n][..12] == mem[p..p + 12];
      assert mem[p..p + n][12..] == mem[p + 12..p + n];
    }
  }

  method LastByWords(mem: seq<Byte>, p: nat, n: nat, s: Words) returns (h: u32)
    requires n <= 12 && WordsReadable(mem, p, n)
    ensures h == Absorb(mem[p..p + n], s)
  {
    AbsorbStep(mem, p, n, s);
    if n == 0 { return s.c; }
    var r := BlockByWords(s, mem, p, n);
    return Final(r).c;
  }

  method HashByWords(mem: seq<Byte>, length: nat, initval: u32) returns (h: u32)
    requires WordsReadable(mem, 0, length)
    ensures h == Hash(mem[..length], initval)
  {
    var s, p, n := Start(length, initval), 0, length;
    while n > 12
      invariant p + n == length && WordsReadable(mem, p, n)
      invariant Absorb(mem[p..p + n], s) == Absorb(mem[..length], Start(length, initval))
      decreases n
    {
      AbsorbStep(mem, p, n, s);
      WordsReadableStep(mem, p, n);
      s := BlockByWords(s, mem, p, 12);
      s, p, n := Mix(s), p + 12, n - 12;
    }
    h := LastByWords(mem, p, n, s);
  }

  method HashByHalves(mem: seq<Byte>, length: nat, initval: u32) returns (h: u32)
    requires length <= |mem|
    ensures h == Hash(mem[..length], initval)
  {
    var s, p, n := Start(length, initval), 0, length;
    while n > 12
      invariant p + n == length
      invariant Absorb(mem[p..p + n], s) == Absorb(mem[..length], Start(length, initval))
      decreases n
    {
      AbsorbStep(mem, p, n, s);
      s := BlockByHalves(s, mem, p, 12);
      s, p, n := Mix(s), p + 12, n - 12;
    }
    AbsorbStep(mem, p, n, s);
    if n == 0 { return s.c; }
    s := BlockByHalves(s, mem, p, n);
    return Final(s).c;
  }

  method HashByBytes(mem: seq<Byte>, length: nat, initval: u32) returns (h: u32)
    requires length <= |mem|
    ensures h == Hash(mem[..length], initval)
  {
    var s, p, n := Start(length, initval), 0, length;
    while n > 12
      invariant p + n == length
      invariant Absorb(mem[p..p + n], s) == Absorb(mem[..length], Start(length, initval))
      decreases n
    {
      AbsorbStep(mem, p, n, s);
      s := BlockByBytes(s, mem, p, 12);
      s, p, n := Mix(s), p + 12, n - 12;
    }
    AbsorbStep(mem, p, n, s);
    if n == 0 { return s.c; }
    s := BlockByBytes(s, mem, p, n);
    return Final(s).c;
  }

  /** hashlittle on a little-endian machine picks a version by the key's alignment. The result
      depends on the key alone: not on its address, and not on what lies behind it. */
  method HashLittle(address: nat, mem: seq<Byte>, length: nat, initval: u32) returns (h: u32)
    requires length <= |mem| && (address % 4 == 0 ==> WordsReadable(mem, 0, length))
    ensures h == Hash(mem[..length], initval)
  {
    if address % 4 == 0 {
      h := HashByWords(mem, length, initval);
    } else if address % 2 == 0 {
      h := HashByHalves(mem, length, initval);
    } else {
      h := HashByBytes(mem, length, initval);
    }
  }
}
