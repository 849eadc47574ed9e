/** Byte strings, fixed-width integer fields and block copies shared by the wire formats. */
module Bytes {
  import opened Arithmetic

  type Byte = b: int | 0 <= b < 256

  datatype Option<+T> = None | Some(value: T)

  /** The number of values a field of k bytes can hold. */
  function Range(k: nat): (r: nat)
    ensures r > 0
  {
    if k == 0 then 1 else 256 * Range(k - 1)
  }

  const U32_RANGE: nat := 0x1_0000_0000
  const U64_RANGE: nat := 0x1_0000_0000_0000_0000

  lemma RangeValues()
    ensures Range(4) == U32_RANGE && Range(8) == U64_RANGE
  {
    assert Range(2) == 0x1_0000;
    assert Range(4) == 0x1_0000_0000;
    assert Range(6) == 0x1_0000_0000_0000;
  }

  /** A k-byte little-endian field: the low byte comes first. */
  function Le(v: nat, k: nat): (s: seq<Byte>)
    ensures |s| == k
  {
    if k == 0 then [] else [v % 256] + Le(v / 256, k - 1)
  }

  function FromLe(s: seq<Byte>): (v: nat) {
    if s == [] then 0 else s[0] + 256 * FromLe(s[1..])
  }

  lemma {:induction false} LeRoundTrip(v: nat, k: nat)
    ensures FromLe(Le(v, k)) == v % Range(k)
    ensures v < Range(k) ==> FromLe(Le(v, k)) == v
  {
    if k > 0 {
      LeRoundTrip(v / 256, k - 1);
      assert Le(v, k)[1..] == Le(v / 256, k - 1);
      ModSplit(v, Range(k - 1));
    }
  }

  lemma {:induction false} FromLeRoundTrip(s: seq<Byte>)
    ensures FromLe(s) < Range(|s|)
    ensures Le(FromLe(s), |s|) == s
  {
    if s != [] {
      FromLeRoundTrip(s[1..]);
      assert s == [s[0]] + s[1..];
    }
  }

  /** A k-byte big-endian field: the low byte comes last. */
  function Be(v: nat, k: nat): (s: seq<Byte>)
    ensures |s| == k
  {
    if k == 0 then [] else Be(v / 256, k - 1) + [v % 256]
  }

  function FromBe(s: seq<Byte>): (v: nat) {
    if s == [] then 0 else 256 * FromBe(s[..|s| - 1]) + s[|s| - 1]
  }

  lemma {:induction false} BeRoundTrip(v: nat, k: nat)
    ensures FromBe(Be(v, k)) == v % Range(k)
    ensures v < Range(k) ==> FromBe(Be(v, k)) == v
  {
    if k > 0 {
      BeRoundTrip(v / 256, k - 1);
      assert Be(v, k)[..k - 1] == Be(v / 256, k - 1);
      ModSplit(v, Range(k - 1));
    }
  }

  lemma {:induction false} FromBeRoundTrip(s: seq<Byte>)
    ensures FromBe(s) < Range(|s|)
    ensures Be(FromBe(s), |s|) == s
  {
    if s != [] {
      FromBeRoundTrip(s[..|s| - 1]);
      assert s == s[..|s| - 1] + [s[|s| - 1]];
    }
  }

  lemma ModSplit(v: nat, r: nat)
    requires r > 0
    ensures v % (256 * r) == v % 256 + 256 * ((v / 256) % r)
  {
    var q := v / 256 / r;
    var low := v % 256 + 256 * ((v / 256) % r);
    assert v / 256 == q * r + (v / 256) % r;
    assert v == 256 * (q * r) + low;
    assert 256 * (q * r) == (256 * r) * q;
    assert 0 <= low < 256 * r;
    ModUnique(v, 256 * r, q, low);
  }

  /** memcpy of src into dst starting at off. */
  method CopyInto(dst: array<Byte>, off: nat, src: seq<Byte>)
    requires off + |src| <= dst.Length
    modifies dst
    ensures dst[..] == old(dst[..off]) + src + old(dst[off + |src|..])
  {
    for k := 0 to |src|
      invariant dst[..] == old(dst[..off]) + src[..k] + old(dst[off + k..])
    {
      dst[off + k] := src[k];
    }
  }

  /** Copy to the pointer and advance it. */
  method Put(buf: array<Byte>, ptr: nat, src: seq<Byte>) returns (next: nat)
    requires ptr + |src| <= buf.Length
    modifies buf
    ensures next == ptr + |src| && buf[..next] == old(buf[..ptr]) + src
  {
    CopyInto(buf, ptr, src);
    next := ptr + |src|;
    assert buf[..next] == buf[..][..next];
  }

  /** A serialized protocol message: its type name and its contents. */
  datatype Message = Message(kind: seq<Byte>, data: seq<Byte>)

  lemma Cut(a: seq<Byte>, b: seq<Byte>, c: seq<Byte>)
    ensures (a + b + c)[|a|..|a| + |b|] == b
  {
  }

  lemma SliceOf(s: seq<Byte>, pad: seq<Byte>, from: nat, to: nat)
    requires from <= to <= |s|
    ensures (s + pad)[from..to] == s[from..to]
  {}

  lemma Regroup(a: seq<Byte>, b: seq<Byte>, c: seq<Byte>)
    ensures a + (b + c) == a + b + c
  {
  }

  /** Unsigned additions, which wrap around. */
  function Add32(a: nat, b: nat): nat
    requires a < 0x1_0000_0000 && b < 0x1_0000_0000
  {
    if a + b < 0x1_0000_0000 then a + b else a + b - 0x1_0000_0000
  }

  function Add64(a: nat, b: nat): nat
    requires a < 0x1_0000_0000_0000_0000 && b < 0x1_0000_0000_0000_0000
  {
    if a + b < 0x1_0000_0000_0000_0000 then a + b else a + b - 0x1_0000_0000_0000_0000
  }

  lemma Add32IsModular(a: nat, b: nat)
    requires b < 0x1_0000_0000
    ensures Add32(a % 0x1_0000_0000, b) == (a + b) % 0x1_0000_0000
  {}

  lemma Add64IsModular(a: nat, b: nat)
    requires b < 0x1_0000_0000_0000_0000
    ensures Add64(a % 0x1_0000_0000_0000_0000, b) == (a + b) % 0x1_0000_0000_0000_0000
  {}
}
