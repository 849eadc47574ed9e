/**
 Latency profiles (src/lib/latency.cc): distributions of samples in power-of-two buckets, and
 the merging of one profile into another.
 */
module Latency {
  import opened Arithmetic
  import opened Bytes

  // ---------------------------------------------------------------- buckets

  /** The integer logarithm, and zero for zero. */
  function Log2(v: nat): nat {
    if v < 2 then 0 else 1 + Log2(v / 2)
  }

  lemma {:induction false} Log2Bounds(v: nat)
    requires v > 0
    ensures Pow2(Log2(v)) <= v < Pow2(Log2(v) + 1)
  {
    if v >= 2 {
      Log2Bounds(v / 2);
    }
  }

  lemma {:induction false} Log2OfPow2(b: nat)
    ensures Log2(Pow2(b)) == b
  {
    if b > 0 {
      Log2OfPow2(b - 1);
    }
  }

  lemma {:induction false} Log2Below(v: nat, n: nat)
    requires n > 0 && v < Pow2(n)
    ensures Log2(v) < n
  {
    if v >= 2 && n > 1 {
      Log2Below(v / 2, n - 1);
    }
  }

  lemma {:induction false} Pow2Add(a: nat, b: nat)
    ensures Pow2(a + b) == Pow2(a) * Pow2(b)
  {
    if b > 0 {
      Pow2Add(a, b - 1);
      assert Pow2(a) * (2 * Pow2(b - 1)) == 2 * (Pow2(a) * Pow2(b - 1));
    }
  }

  lemma {:induction false} Pow2Below(a: nat, b: nat)
    requires a < b
    ensures Pow2(a) < Pow2(b)
  {
    if a + 1 < b {
      Pow2Below(a, b - 1);
    }
  }

  lemma Pow2Of64()
    ensures Pow2(64) == 0x1_0000_0000_0000_0000
  {
    assert Pow2(8) == 256;
    Pow2Add(8, 8);
    Pow2Add(16, 16);
    Pow2Add(32, 32);
  }

  /** The shift loop finds the power of two at or below the value. */
  method BucketOf(val: nat) returns (bucket: nat)
    requires val < 0x1_0000_0000_0000_0000
    ensures bucket == Log2(val) < 64
    ensures val > 0 ==> Pow2(bucket) <= val < Pow2(bucket + 1)
  {
    bucket := 0;
    var v := val / 2;
    while v > 0
      invariant bucket + (if v > 0 then 1 + Log2(v) else 0) == Log2(val)
    {
      v := v / 2;
      bucket := bucket + 1;
    }
    Pow2Of64();
    Log2Below(val, 64);
    if val > 0 {
      Log2Bounds(val);
    }
  }

  // ---------------------------------------------------------------- distributions

  datatype Dist = Dist(kind: int, min: nat, max: nat, total: nat, count: nat, buckets: seq<nat>)

  type Pool = seq<Dist>

  datatype Sample = Sample(kind: int, val: nat)

  /** A distribution of the pool as the constructor leaves it, once it has a type. */
  function Empty(kind: int): Dist {
    Dist(kind, 0xFFFF_FFFF_FFFF_FFFF, 0, 0, 0, seq(65, _ => 0))
  }

  /** Counters within their widths; no 64-bit value reaches the last bucket. */
  predicate Sound(d: Dist) {
    && d.min < 0x1_0000_0000_0000_0000 && d.max < 0x1_0000_0000_0000_0000
    && d.total < 0x1_0000_0000_0000_0000 && d.count < 0x1_0000_0000_0000_0000
    && 0 <= d.kind < 127 && SoundBuckets(d.buckets)
  }

  predicate SoundBuckets(buckets: seq<nat>) {
    && |buckets| == 65 && buckets[64] == 0
    && forall b :: 0 <= b < 65 ==> buckets[b] < 0x1_0000_0000
  }

  predicate SoundPool(pool: Pool) {
    && (forall k :: 0 <= k < |pool| ==> Sound(pool[k]))
    && (forall j, k :: 0 <= j < k < |pool| ==> pool[j].kind != pool[k].kind)
  }

  function Bumped(buckets: seq<nat>, b: nat, count: nat): seq<nat>
    requires b < |buckets| && buckets[b] < 0x1_0000_0000 && count < 0x1_0000_0000
  {
    buckets[b := Add32(buckets[b], count)]
  }

  /** One more sample. */
  function AddVal(d: Dist, val: nat): Dist
    requires Sound(d) && val < 0x1_0000_0000_0000_0000 && Log2(val) < 64
  {
    Dist(d.kind, if val < d.min then val else d.min, if val > d.max then val else d.max,
         Add64(d.total, val), Add64(d.count, 1), Bumped(d.buckets, Log2(val), 1))
  }

  function SumBuckets(x: seq<nat>, y: seq<nat>): seq<nat>
    requires SoundBuckets(x) && SoundBuckets(y)
  {
    seq(65, b requires 0 <= b < 65 => Add32(x[b], y[b]))
  }

  /** The second distribution's minimum, maximum, total and count taken into the first. */
  function AddTotals(d: Dist, e: Dist): Dist
    requires Sound(d) && Sound(e)
  {
    Dist(d.kind, if e.min < d.min then e.min else d.min, if e.max > d.max then e.max else d.max,
         Add64(d.total, e.total), Add64(d.count, e.count), d.buckets)
  }

  function Combine(d: Dist, e: Dist): Dist
    requires Sound(d) && Sound(e)
  {
    AddTotals(d, e).(buckets := SumBuckets(d.buckets, e.buckets))
  }

  lemma SumBucketsBumped(x: seq<nat>, y: seq<nat>, b: nat, count: nat)
    requires SoundBuckets(x) && SoundBuckets(y) && b < 64 && count < 0x1_0000_0000
    ensures SumBuckets(x, Bumped(y, b, count)) == Bumped(SumBuckets(x, y), b, count)
  {}

  lemma SoundResults(d: Dist, e: Dist, val: nat)
    requires Sound(d) && Sound(e) && Log2(val) < 64
    requires val < 0x1_0000_0000_0000_0000
    ensures Sound(Combine(d, e)) && Sound(AddVal(e, val))
  {}

  /** A sample counted on one side of a merge counts once in the result. */
  lemma CombineAddVal(d: Dist, e: Dist, val: nat)
    requires Sound(d) && Sound(e) && Log2(val) < 64
    requires val < 0x1_0000_0000_0000_0000
    ensures Sound(Combine(d, e)) && Sound(AddVal(e, val))
    ensures Combine(d, AddVal(e, val)) == AddVal(Combine(d, e), val)
  {
    SoundResults(d, e, val);
    SumBucketsBumped(d.buckets, e.buckets, Log2(val), 1);
  }

  lemma CombineEmpty(d: Dist)
    requires Sound(d)
    ensures Combine(d, Empty(d.kind)) == d && Combine(Empty(d.kind), d) == d
  {
    assert SumBuckets(d.buckets, Empty(d.kind).buckets) == d.buckets;
    assert SumBuckets(Empty(d.kind).buckets, d.buckets) == d.buckets;
  }

  // ---------------------------------------------------------------- pools

  /** The index of a type's distribution, or the pool's length. */
  function Find(pool: Pool, kind: int): (k: nat)
    ensures k <= |pool|
    ensures k < |pool| ==> pool[k].kind == kind
    ensures forall j :: 0 <= j < k ==> pool[j].kind != kind
  {
    if pool == [] || pool[0].kind == kind then 0 else 1 + Find(pool[1..], kind)
  }

  lemma FindIs(pool: Pool, kind: int, k: nat)
    requires k <= |pool| && (k < |pool| ==> pool[k].kind == kind)
    requires forall j :: 0 <= j < k ==> pool[j].kind != kind
    ensures Find(pool, kind) == k
  {
    assert Find(pool, kind) < |pool| ==> pool[Find(pool, kind)].kind == kind;
  }

  predicate Has(pool: Pool, kind: int) {
    Find(pool, kind) < |pool|
  }

  function At(pool: Pool, kind: int): Dist {
    if Has(pool, kind) then pool[Find(pool, kind)] else Empty(kind)
  }

  function Kinds(pool: Pool): seq<int> {
    seq(|pool|, k requires 0 <= k < |pool| => pool[k].kind)
  }

  /** A pool is known by its types in order and by what it has for each. */
  lemma SamePool(p: Pool, q: Pool)
    requires SoundPool(p) && SoundPool(q) && Kinds(p) == Kinds(q)
    requires forall k :: 0 <= k < |p| ==> At(p, p[k].kind) == At(q, p[k].kind)
    ensures p == q
  {
    assert |p| == |Kinds(p)| == |q|;
    forall k | 0 <= k < |p|
      ensures p[k] == q[k]
    {
      assert Kinds(p)[k] == Kinds(q)[k];
      assert At(p, p[k].kind) == p[k] && At(q, q[k].kind) == q[k];
    }
  }

  /** The first sample of a type takes the next distribution of the pool. */
  function Touched(pool: Pool, kind: int): Pool {
    if Has(pool, kind) then pool else pool + [Empty(kind)]
  }

  /** Five distributions are all there are. */
  predicate Fits(pool: Pool, kind: int) {
    Has(pool, kind) || |pool| < 5
  }

  function Recorded(pool: Pool, x: Sample): Pool
    requires SoundPool(pool) && SoundSample(x)
  {
    TouchedHas(pool, x.kind);
    var q := Touched(pool, x.kind);
    var k := Find(q, x.kind);
    q[k := AddVal(q[k], x.val)]
  }

  predicate SoundSample(x: Sample) {
    0 <= x.kind < 127 && x.val < 0x1_0000_0000_0000_0000 && Log2(x.val) < 64
  }

  lemma TouchedHas(pool: Pool, kind: int)
    requires SoundPool(pool) && 0 <= kind < 127
    ensures SoundPool(Touched(pool, kind)) && Has(Touched(pool, kind), kind)
    ensures forall t :: Has(pool, t) || t == kind ==> Find(Touched(pool, kind), t) == Find(pool, t)
    ensures forall t :: Has(Touched(pool, kind), t) <==> Has(pool, t) || t == kind
    ensures forall t :: At(Touched(pool, kind), t) == At(pool, t)
    ensures Kinds(Touched(pool, kind)) == if Has(pool, kind) then Kinds(pool) else Kinds(pool) + [kind]
  {
    var q := Touched(pool, kind);
    FindIs(q, kind, Find(pool, kind));
    forall t
      ensures Find(q, t) == if Has(pool, t) || t == kind then Find(pool, t) else |q|
      ensures At(q, t) == At(pool, t)
    {
      FindIs(q, t, if Has(pool, t) || t == kind then Find(pool, t) else |q|);
    }
  }

  /** Changing one distribution in place. */
  lemma UpdatedPool(pool: Pool, k: nat, d: Dist)
    requires SoundPool(pool) && k < |pool| && Sound(d) && d.kind == pool[k].kind
    ensures SoundPool(pool[k := d]) && Kinds(pool[k := d]) == Kinds(pool)
    ensures forall t :: Find(pool[k := d], t) == Find(pool, t)
    ensures forall t :: At(pool[k := d], t) == if t == d.kind then d else At(pool, t)
  {
    var q := pool[k := d];
    FindIs(pool, d.kind, k);
    forall t
      ensures Find(q, t) == Find(pool, t)
      ensures At(q, t) == if t == d.kind then d else At(pool, t)
    {
      FindIs(q, t, Find(pool, t));
      assert Has(pool, t) && t != d.kind ==> q[Find(pool, t)] == pool[Find(pool, t)];
    }
  }

  // ---------------------------------------------------------------- merging

  /** The types of a merged pool: the first pool's, then the others in the order of the second. */
  function Types(p: Pool, q: Pool): seq<int> {
    if q == [] then Kinds(p) else
    var ts, kind := Types(p, q[..|q| - 1]), q[|q| - 1].kind;
    if kind in ts then ts else ts + [kind]
  }

  lemma {:induction false} TypesDistinct(p: Pool, q: Pool)
    requires SoundPool(p) && SoundPool(q)
    ensures forall j, k :: 0 <= j < k < |Types(p, q)| ==> Types(p, q)[j] != Types(p, q)[k]
    ensures forall t :: t in Types(p, q) <==> Has(p, t) || Has(q, t)
    ensures forall t <- Types(p, q) :: 0 <= t < 127
  {
    if q == [] {
      HasKind(p);
      assert forall t :: Has(p, t) ==> Sound(At(p, t));
    } else {
      var rest := q[..|q| - 1];
      TypesDistinct(p, rest);
      assert Sound(q[|q| - 1]);
      forall t
        ensures Has(q, t) <==> Has(rest, t) || t == q[|q| - 1].kind
      {
        FindIs(q, t, if Has(rest, t) || t == q[|q| - 1].kind then Find(rest, t) else |q|);
      }
    }
  }

  lemma HasKind(p: Pool)
    ensures forall t :: t in Kinds(p) <==> Has(p, t)
  {
    forall t
      ensures t in Kinds(p) <==> Has(p, t)
    {
      if Has(p, t) {
        assert Kinds(p)[Find(p, t)] == t;
      }
    }
  }

  /** Two pools merged: for each type the two distributions combined. */
  function Merged(p: Pool, q: Pool): Pool
    requires SoundPool(p) && SoundPool(q)
  {
    TypesDistinct(p, q);
    var ts := Types(p, q);
    seq(|ts|, k requires 0 <= k < |ts| => Combine(At(p, ts[k]), At(q, ts[k])))
  }

  lemma MergedMeans(p: Pool, q: Pool)
    requires SoundPool(p) && SoundPool(q)
    ensures SoundPool(Merged(p, q)) && Kinds(Merged(p, q)) == Types(p, q)
    ensures forall t :: 0 <= t < 127 ==> At(Merged(p, q), t) == Combine(At(p, t), At(q, t))
  {
    var ts, r := Types(p, q), Merged(p, q);
    TypesDistinct(p, q);
    HasKind(r);
    forall k | 0 <= k < |r|
      ensures Sound(r[k]) && r[k].kind == ts[k]
    {
      SoundResults(At(p, ts[k]), At(q, ts[k]), 0);
    }
    assert Kinds(r) == ts;
    forall t | 0 <= t < 127
      ensures At(r, t) == Combine(At(p, t), At(q, t))
    {
      CombineEmpty(Empty(t));
      assert t in ts <==> Has(r, t);
    }
  }

  // ---------------------------------------------------------------- recording

  /** Samples recorded one after another. No result means the pool was too small. */
  ghost function Record(pool: Pool, xs: seq<Sample>): (r: Option<Pool>)
    requires SoundPool(pool) && forall x <- xs :: SoundSample(x)
    ensures r.Some? ==> SoundPool(r.value)
  {
    if xs == [] then Some(pool) else
    var x := xs[|xs| - 1];
    var before := Record(pool, xs[..|xs| - 1]);
    if before.Some? && Fits(before.value, x.kind) then
      RecordedMeans(before.value, x);
      Some(Recorded(before.value, x))
    else None
  }

  lemma RecordedMeans(pool: Pool, x: Sample)
    requires SoundPool(pool) && SoundSample(x)
    ensures SoundPool(Recorded(pool, x))
    ensures Kinds(Recorded(pool, x)) == if Has(pool, x.kind) then Kinds(pool) else Kinds(pool) + [x.kind]
    ensures forall t :: At(Recorded(pool, x), t) == if t == x.kind then AddVal(At(pool, t), x.val) else At(pool, t)
  {
    TouchedHas(pool, x.kind);
    var q := Touched(pool, x.kind);
    var k := Find(q, x.kind);
    SoundResults(q[k], q[k], x.val);
    UpdatedPool(q, k, AddVal(q[k], x.val));
    assert At(q, x.kind) == q[k];
  }

  /** Types depends on the second pool's types only. */
  lemma {:induction false} TypesByKinds(p: Pool, q: Pool, q': Pool)
    requires Kinds(q) == Kinds(q')
    ensures Types(p, q) == Types(p, q')
  {
    assert |q| == |Kinds(q)| == |q'|;
    if q != [] {
      var n := |q| - 1;
      assert Kinds(q)[n] == Kinds(q')[n];
      assert Kinds(q[..n]) == Kinds(q)[..n] == Kinds(q')[..n] == Kinds(q'[..n]);
      TypesByKinds(p, q[..n], q'[..n]);
    }
  }

  /** Recording one more sample before a merge is the same as recording it after. */
  lemma RecordAfterMerge(p: Pool, q: Pool, x: Sample)
    requires SoundPool(p) && SoundPool(q) && SoundSample(x)
    ensures SoundPool(Recorded(q, x)) && SoundPool(Merged(p, q))
    ensures Merged(p, Recorded(q, x)) == Recorded(Merged(p, q), x)
  {
    KindsAfterSample(p, q, x);
    var r := Merged(p, Recorded(q, x));
    forall k | 0 <= k < |r|
      ensures At(r, r[k].kind) == At(Recorded(Merged(p, q), x), r[k].kind)
    {
      assert Sound(r[k]);
      SampleCombines(p, q, x, r[k].kind);
    }
    SamePool(r, Recorded(Merged(p, q), x));
  }

  lemma KindsAfterSample(p: Pool, q: Pool, x: Sample)
    requires SoundPool(p) && SoundPool(q) && SoundSample(x)
    ensures SoundPool(Recorded(q, x)) && SoundPool(Merged(p, q))
    ensures SoundPool(Merged(p, Recorded(q, x))) && SoundPool(Recorded(Merged(p, q), x))
    ensures Kinds(Merged(p, Recorded(q, x))) == Kinds(Recorded(Merged(p, q), x))
  {
    RecordedMeans(q, x);
    MergedMeans(p, q);
    MergedMeans(p, Recorded(q, x));
    RecordedMeans(Merged(p, q), x);
    TypesAfterSample(p, q, x);
    HasKind(Merged(p, q));
  }

  lemma SampleCombines(p: Pool, q: Pool, x: Sample, t: int)
    requires SoundPool(p) && SoundPool(q) && SoundSample(x) && 0 <= t < 127
    requires SoundPool(Recorded(q, x)) && SoundPool(Merged(p, q))
    ensures At(Merged(p, Recorded(q, x)), t) == At(Recorded(Merged(p, q), x), t)
  {
    RecordedMeans(q, x);
    MergedMeans(p, q);
    MergedMeans(p, Recorded(q, x));
    RecordedMeans(Merged(p, q), x);
    CombineAddVal(At(p, t), At(q, t), x.val);
  }

  lemma TypesAfterSample(p: Pool, q: Pool, x: Sample)
    requires SoundPool(p) && SoundPool(q) && SoundSample(x)
    ensures Types(p, Recorded(q, x)) == if x.kind in Types(p, q) then Types(p, q) else Types(p, q) + [x.kind]
  {
    var q' := Recorded(q, x);
    RecordedMeans(q, x);
    TypesDistinct(p, q);
    if Has(q, x.kind) {
      TypesByKinds(p, q, q');
    } else {
      TypesByKinds(p, q + [Empty(x.kind)], q');
      assert (q + [Empty(x.kind)])[..|q|] == q;
    }
  }

  /** Merging a profile is recording its samples, in the order in which they were recorded: the same
      pool, order and all, or in both cases too many types. Counters may wrap around. */
  lemma {:induction false} MergeIsRecording(p: Pool, xs: seq<Sample>)
    requires SoundPool(p) && |p| <= 5 && forall x <- xs :: SoundSample(x)
    requires Record([], xs).Some?
    ensures var r := Merged(p, Record([], xs).value);
            Record(p, xs) == if |r| <= 5 then Some(r) else None
  {
    if xs == [] {
      MergedMeans(p, []);
      MergedNothing(p);
    } else {
      var x, before := xs[|xs| - 1], xs[..|xs| - 1];
      MergeIsRecording(p, before);
      var q := Record([], before).value;
      RecordAfterMerge(p, q, x);
      RecordedMeans(Merged(p, q), x);
      assert |Recorded(Merged(p, q), x)| == |Merged(p, q)| + if Has(Merged(p, q), x.kind) then 0 else 1;
    }
  }

  lemma MergedNothing(p: Pool)
    requires SoundPool(p)
    ensures Merged(p, []) == p
  {
    MergedMeans(p, []);
    forall k | 0 <= k < |p|
      ensures At(Merged(p, []), p[k].kind) == At(p, p[k].kind)
    {
      assert Sound(p[k]);
      FindIs(p, p[k].kind, k);
      CombineEmpty(p[k]);
    }
    SamePool(Merged(p, []), p);
  }

  // ---------------------------------------------------------------- what the counters mean

  /** The values of one type. */
  function ValuesOf(xs: seq<Sample>, kind: int): seq<nat> {
    if xs == [] then [] else
    ValuesOf(xs[..|xs| - 1], kind) + if xs[|xs| - 1].kind == kind then [xs[|xs| - 1].val] else []
  }

  function Total(vs: seq<nat>): nat {
    if vs == [] then 0 else Total(vs[..|vs| - 1]) + vs[|vs| - 1]
  }

  /** How many values have a given logarithm. */
  function CountIn(vs: seq<nat>, b: nat): nat {
    if vs == [] then 0 else CountIn(vs[..|vs| - 1], b) + if Log2(vs[|vs| - 1]) == b then 1 else 0
  }

  predicate IsLeast(vs: seq<nat>, m: nat) {
    (forall v <- vs :: m <= v) && (m in vs || (vs == [] && m == 0xFFFF_FFFF_FFFF_FFFF))
  }

  predicate IsGreatest(vs: seq<nat>, m: nat) {
    (forall v <- vs :: v <= m) && (m in vs || (vs == [] && m == 0))
  }

  /** A distribution describes the values. */
  predicate Describes(d: Dist, vs: seq<nat>) {
    && IsLeast(vs, d.min) && IsGreatest(vs, d.max)
    && d.total == Total(vs) % 0x1_0000_0000_0000_0000
    && d.count == |vs| % 0x1_0000_0000_0000_0000
    && |d.buckets| == 65
    && forall b :: 0 <= b < 65 ==> d.buckets[b] == CountIn(vs, b) % 0x1_0000_0000
  }

  lemma DescribesMore(d: Dist, vs: seq<nat>, v: nat)
    requires Sound(d) && Describes(d, vs) && v < 0x1_0000_0000_0000_0000 && Log2(v) < 64
    ensures Describes(AddVal(d, v), vs + [v])
  {
    var more := vs + [v];
    assert more[..|vs|] == vs;
    Add64IsModular(Total(vs), v);
    Add64IsModular(|vs|, 1);
    BucketsCount(d.buckets, vs, v);
    LeastAndGreatest(d, vs, v);
  }

  lemma BucketsCount(buckets: seq<nat>, vs: seq<nat>, v: nat)
    requires SoundBuckets(buckets) && Log2(v) < 64
    requires forall b :: 0 <= b < 65 ==> buckets[b] == CountIn(vs, b) % 0x1_0000_0000
    ensures forall b :: 0 <= b < 65 ==> Bumped(buckets, Log2(v), 1)[b] == CountIn(vs + [v], b) % 0x1_0000_0000
  {
    assert (vs + [v])[..|vs|] == vs;
    Add32IsModular(CountIn(vs, Log2(v)), 1);
  }

  lemma LeastAndGreatest(d: Dist, vs: seq<nat>, v: nat)
    requires Sound(d) && IsLeast(vs, d.min) && IsGreatest(vs, d.max)
    requires v < 0x1_0000_0000_0000_0000 && Log2(v) < 64
    ensures IsLeast(vs + [v], AddVal(d, v).min) && IsGreatest(vs + [v], AddVal(d, v).max)
  {
    assert (vs + [v])[|vs|] == v;
  }

  /** Recording into an empty profile gives, for every type, the distribution of its values. */
  lemma {:induction false} RecordDescribes(xs: seq<Sample>, kind: int)
    requires (forall x <- xs :: SoundSample(x)) && Record([], xs).Some? && 0 <= kind < 127
    ensures Describes(At(Record([], xs).value, kind), ValuesOf(xs, kind))
  {
    if xs != [] {
      var x, before := xs[|xs| - 1], xs[..|xs| - 1];
      var pool := Record([], before).value;
      RecordDescribes(before, kind);
      RecordedAt(pool, x, kind);
      if x.kind == kind {
        DescribesMore(At(pool, kind), ValuesOf(before, kind), x.val);
      } else {
        assert ValuesOf(xs, kind) == ValuesOf(before, kind);
      }
    }
  }

  lemma RecordedAt(pool: Pool, x: Sample, t: int)
    requires SoundPool(pool) && SoundSample(x) && 0 <= t < 127
    ensures At(Recorded(pool, x), t) == if t == x.kind then AddVal(At(pool, t), x.val) else At(pool, t)
  {
    RecordedMeans(pool, x);
  }

  /** Some bucket is not empty. Only then does a merge see the distribution's buckets. */
  predicate Live(d: Dist) {
    exists b :: 0 <= b < |d.buckets| && d.buckets[b] != 0
  }

  /** Distributions of fewer than 2^32 samples are live. */
  lemma FewSamplesAreLive(xs: seq<Sample>, d: Dist)
    requires (forall x <- xs :: SoundSample(x)) && Record([], xs).Some? && |xs| < 0x1_0000_0000
    requires d in Record([], xs).value
    ensures Live(d)
  {
    var pool := Record([], xs).value;
    var k :| 0 <= k < |pool| && pool[k] == d;
    FindIs(pool, d.kind, k);
    RecordDescribes(xs, d.kind);
    RecordHasValue(xs, d.kind);
    ValuesBound(xs, d.kind);
    DescribedIsLive(d, ValuesOf(xs, d.kind));
  }

  lemma DescribedIsLive(d: Dist, vs: seq<nat>)
    requires Describes(d, vs) && 0 < |vs| < 0x1_0000_0000 && forall v <- vs :: Log2(v) < 64
    ensures Live(d)
  {
    var b := Log2(vs[|vs| - 1]);
    CountAtMost(vs[..|vs| - 1], b);
    assert d.buckets[b] == CountIn(vs, b) % 0x1_0000_0000;
  }

  lemma {:induction false} RecordHasValue(xs: seq<Sample>, kind: int)
    requires (forall x <- xs :: SoundSample(x)) && Record([], xs).Some?
    requires Has(Record([], xs).value, kind)
    ensures ValuesOf(xs, kind) != []
  {
    if xs != [] && xs[|xs| - 1].kind != kind {
      var x, before := xs[|xs| - 1], xs[..|xs| - 1];
      var pool := Record([], before).value;
      RecordedMeans(pool, x);
      HasKind(pool);
      HasKind(Recorded(pool, x));
      RecordHasValue(before, kind);
    }
  }

  lemma {:induction false} ValuesBound(xs: seq<Sample>, kind: int)
    requires forall x <- xs :: SoundSample(x)
    ensures |ValuesOf(xs, kind)| <= |xs| && forall v <- ValuesOf(xs, kind) :: Log2(v) < 64
  {
    if xs != [] {
      ValuesBound(xs[..|xs| - 1], kind);
      assert SoundSample(xs[|xs| - 1]);
    }
  }

  lemma {:induction false} CountAtMost(vs: seq<nat>, b: nat)
    ensures CountIn(vs, b) <= |vs|
  {
    if vs != [] {
      CountAtMost(vs[..|vs| - 1], b);
    }
  }
}
