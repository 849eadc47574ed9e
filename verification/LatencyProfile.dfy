/**
 A latency profile as an object that is updated in place (src/lib/latency.cc).
 */
module LatencyProfile {
  import opened Arithmetic
  import opened Bytes
  import opened Latency

  datatype Outcome = Done | Panic | BadPointer

  /** One type's count added to a bucket. */
  function Hist(pool: Pool, kind: int, b: nat, count: nat): Pool
    requires SoundPool(pool) && 0 <= kind < 127 && b < 64 && count < 0x1_0000_0000
  {
    TouchedHas(pool, kind);
    var q := Touched(pool, kind);
    var k := Find(q, kind);
    assert Sound(q[k]);
    q[k := q[k].(buckets := Bumped(q[k].buckets, b, count))]
  }

  lemma HistMeans(pool: Pool, kind: int, b: nat, count: nat)
    requires SoundPool(pool) && 0 <= kind < 127 && b < 64 && count < 0x1_0000_0000
    ensures SoundPool(Hist(pool, kind, b, count))
    ensures Kinds(Hist(pool, kind, b, count)) == if Has(pool, kind) then Kinds(pool) else Kinds(pool) + [kind]
    ensures Sound(At(pool, kind))
    ensures forall t :: At(Hist(pool, kind, b, count), t) ==
              if t == kind then At(pool, t).(buckets := Bumped(At(pool, t).buckets, b, count)) else At(pool, t)
  {
    TouchedHas(pool, kind);
    var q := Touched(pool, kind);
    var k := Find(q, kind);
    assert Sound(q[k]) && q[k] == At(pool, kind);
    UpdatedPool(q, k, q[k].(buckets := Bumped(q[k].buckets, b, count)));
  }

  /** The distributions whose types a merge finds in the buckets. */
  function LiveOnes(q: Pool): Pool {
    if q == [] then [] else LiveOnes(q[..|q| - 1]) + if Live(q[|q| - 1]) then [q[|q| - 1]] else []
  }

  /** A distribution's buckets added to those of its type. */
  ghost function WithBuckets(pool: Pool, d: Dist): Pool
    requires SoundPool(pool) && Sound(d)
  {
    if !Live(d) then pool else
    TouchedHas(pool, d.kind);
    var q := Touched(pool, d.kind);
    var k := Find(q, d.kind);
    q[k := q[k].(buckets := SumBuckets(q[k].buckets, d.buckets))]
  }

  lemma WithBucketsMeans(pool: Pool, d: Dist)
    requires SoundPool(pool) && Sound(d)
    ensures SoundPool(WithBuckets(pool, d)) && Sound(At(pool, d.kind)) && |WithBuckets(pool, d)| >= |pool|
    ensures Kinds(WithBuckets(pool, d)) ==
              if Has(pool, d.kind) || !Live(d) then Kinds(pool) else Kinds(pool) + [d.kind]
    ensures forall t :: At(WithBuckets(pool, d), t) ==
              if t == d.kind then At(pool, t).(buckets := SumBuckets(At(pool, t).buckets, d.buckets)) else At(pool, t)
  {
    TouchedHas(pool, d.kind);
    var q := Touched(pool, d.kind);
    var k := Find(q, d.kind);
    if Live(d) {
      SoundResults(q[k], d, 0);
      UpdatedPool(q, k, q[k].(buckets := SumBuckets(q[k].buckets, d.buckets)));
    } else {
      assert SumBuckets(q[k].buckets, d.buckets) == q[k].buckets;
    }
  }

  /** The first n buckets of a distribution. */
  function Upto(d: Dist, n: nat): Dist
    requires n <= |d.buckets|
  {
    d.(buckets := d.buckets[..n] + seq(|d.buckets| - n, _ => 0))
  }

  lemma NextBucketKinds(pool: Pool, d: Dist, b: nat)
    requires SoundPool(pool) && Sound(d) && b < 64 && d.buckets[b] != 0
    ensures Sound(Upto(d, b)) && Sound(Upto(d, b + 1))
    ensures SoundPool(WithBuckets(pool, Upto(d, b))) && SoundPool(WithBuckets(pool, Upto(d, b + 1)))
    ensures var after := Hist(WithBuckets(pool, Upto(d, b)), d.kind, b, d.buckets[b]);
            SoundPool(after) && Kinds(after) == Kinds(WithBuckets(pool, Upto(d, b + 1)))
  {
    WithBucketsMeans(pool, Upto(d, b));
    WithBucketsMeans(pool, Upto(d, b + 1));
    HistMeans(WithBuckets(pool, Upto(d, b)), d.kind, b, d.buckets[b]);
    assert Upto(d, b + 1).buckets[b] != 0;
    HasKind(pool);
    HasKind(WithBuckets(pool, Upto(d, b)));
  }

  lemma UptoBumped(x: seq<nat>, d: Dist, b: nat)
    requires SoundBuckets(x) && Sound(d) && b < 64
    ensures SoundBuckets(Upto(d, b).buckets) && SoundBuckets(Upto(d, b + 1).buckets)
    ensures SumBuckets(x, Upto(d, b + 1).buckets) == Bumped(SumBuckets(x, Upto(d, b).buckets), b, d.buckets[b])
  {
    assert Upto(d, b + 1).buckets == Bumped(Upto(d, b).buckets, b, d.buckets[b]);
    SumBucketsBumped(x, Upto(d, b).buckets, b, d.buckets[b]);
  }

  lemma NextBucketAt(pool: Pool, d: Dist, b: nat, t: int)
    requires SoundPool(pool) && Sound(d) && b < 64 && d.buckets[b] != 0
    requires Sound(Upto(d, b)) && Sound(Upto(d, b + 1)) && SoundPool(WithBuckets(pool, Upto(d, b)))
    ensures At(WithBuckets(pool, Upto(d, b + 1)), t) ==
              At(Hist(WithBuckets(pool, Upto(d, b)), d.kind, b, d.buckets[b]), t)
  {
    var x, y := Upto(d, b), Upto(d, b + 1);
    WithBucketsMeans(pool, x);
    WithBucketsMeans(pool, y);
    HistMeans(WithBuckets(pool, x), d.kind, b, d.buckets[b]);
    UptoBumped(At(pool, d.kind).buckets, d, b);
  }

  lemma NextBucket(pool: Pool, d: Dist, b: nat)
    requires SoundPool(pool) && Sound(d) && b < 64 && d.buckets[b] != 0
    ensures Sound(Upto(d, b)) && Sound(Upto(d, b + 1)) && SoundPool(WithBuckets(pool, Upto(d, b)))
    ensures WithBuckets(pool, Upto(d, b + 1)) == Hist(WithBuckets(pool, Upto(d, b)), d.kind, b, d.buckets[b])
  {
    NextBucketKinds(pool, d, b);
    forall t
      ensures At(WithBuckets(pool, Upto(d, b + 1)), t) ==
                At(Hist(WithBuckets(pool, Upto(d, b)), d.kind, b, d.buckets[b]), t)
    {
      NextBucketAt(pool, d, b, t);
    }
    SamePool(WithBuckets(pool, Upto(d, b + 1)), Hist(WithBuckets(pool, Upto(d, b)), d.kind, b, d.buckets[b]));
  }

  /** A value taken into minimum, maximum, total and count. */
  function Totalled(d: Dist, val: nat): Dist
    requires Sound(d) && val < 0x1_0000_0000_0000_0000
  {
    Dist(d.kind, if val < d.min then val else d.min, if val > d.max then val else d.max,
         Add64(d.total, val), Add64(d.count, 1), d.buckets)
  }

  /** Counting a sample in its bucket and then in the totals is recording it. */
  lemma HistThenTotals(pool: Pool, x: Sample)
    requires SoundPool(pool) && SoundSample(x)
    ensures var q := Hist(pool, x.kind, Log2(x.val), 1);
            var k := Find(q, x.kind);
            && SoundPool(q) && k < |q| && Sound(q[k]) && Sound(Totalled(q[k], x.val))
            && q[k := Totalled(q[k], x.val)] == Recorded(pool, x)
  {
    TouchedHas(pool, x.kind);
    var q := Touched(pool, x.kind);
    var k := Find(q, x.kind);
    UpdatedPool(q, k, q[k].(buckets := Bumped(q[k].buckets, Log2(x.val), 1)));
    SoundResults(q[k], q[k], x.val);
  }

  /** All the distributions' buckets, one after another. */
  ghost function FoldBuckets(pool: Pool, q: Pool): (r: Pool)
    requires SoundPool(pool) && SoundPool(q)
    ensures SoundPool(r)
  {
    if q == [] then pool else
    var before := FoldBuckets(pool, q[..|q| - 1]);
    WithBucketsMeans(before, q[|q| - 1]);
    WithBuckets(before, q[|q| - 1])
  }

  lemma FoldNext(pool: Pool, q: Pool, i: nat)
    requires SoundPool(pool) && SoundPool(q) && i < |q|
    ensures SoundPool(q[..i]) && SoundPool(q[..i + 1])
    ensures FoldBuckets(pool, q[..i + 1]) == WithBuckets(FoldBuckets(pool, q[..i]), q[i])
  {
    assert q[..i + 1][..i] == q[..i] && q[..i + 1][i] == q[i];
  }

  lemma {:induction false} FoldBucketsGrows(pool: Pool, q: Pool, n: nat)
    requires SoundPool(pool) && SoundPool(q) && n <= |q|
    ensures |FoldBuckets(pool, q[..n])| <= |FoldBuckets(pool, q)|
  {
    if n < |q| {
      var rest := q[..|q| - 1];
      assert rest[..n] == q[..n];
      FoldBucketsGrows(pool, rest, n);
      WithBucketsMeans(FoldBuckets(pool, rest), q[|q| - 1]);
    } else {
      assert q[..n] == q;
    }
  }

  lemma FoldFails(pool: Pool, q: Pool, i: nat)
    requires SoundPool(pool) && SoundPool(q) && i < |q|
    requires |WithBuckets(FoldBuckets(pool, q[..i]), q[i])| > 5
    ensures |FoldBuckets(pool, q)| > 5
  {
    FoldNext(pool, q, i);
    FoldBucketsGrows(pool, q, i + 1);
  }

  lemma {:induction false} FoldBucketsKinds(pool: Pool, q: Pool)
    requires SoundPool(pool) && SoundPool(q)
    ensures Kinds(FoldBuckets(pool, q)) == Types(pool, LiveOnes(q))
  {
    if q != [] {
      var rest, d := q[..|q| - 1], q[|q| - 1];
      FoldBucketsKinds(pool, rest);
      WithBucketsMeans(FoldBuckets(pool, rest), d);
      HasKind(FoldBuckets(pool, rest));
      if Live(d) {
        assert LiveOnes(q)[..|LiveOnes(rest)|] == LiveOnes(rest);
      } else {
        assert LiveOnes(q) == LiveOnes(rest);
      }
    }
  }

  lemma AtLast(q: Pool, t: int)
    requires SoundPool(q) && q != []
    ensures At(q, t) == if t == q[|q| - 1].kind then q[|q| - 1] else At(q[..|q| - 1], t)
    ensures t == q[|q| - 1].kind ==> At(q[..|q| - 1], t) == Empty(t)
  {
    var rest, d := q[..|q| - 1], q[|q| - 1];
    if t == d.kind {
      FindIs(q, t, |rest|);
      FindIs(rest, t, |rest|);
    } else {
      FindIs(q, t, if Has(rest, t) then Find(rest, t) else |q|);
    }
  }

  lemma WithBucketsAt(pool: Pool, d: Dist, t: int)
    requires SoundPool(pool) && Sound(d)
    ensures At(WithBuckets(pool, d), t) ==
              if t == d.kind then At(pool, t).(buckets := SumBuckets(At(pool, t).buckets, d.buckets)) else At(pool, t)
  {
    WithBucketsMeans(pool, d);
  }

  lemma {:induction false} FoldBucketsAt(pool: Pool, q: Pool, t: int)
    requires SoundPool(pool) && SoundPool(q) && 0 <= t < 127
    ensures At(FoldBuckets(pool, q), t) ==
              At(pool, t).(buckets := SumBuckets(At(pool, t).buckets, At(q, t).buckets))
  {
    CombineEmpty(At(pool, t));
    if q != [] {
      AtLast(q, t);
      FoldBucketsAt(pool, q[..|q| - 1], t);
      WithBucketsAt(FoldBuckets(pool, q[..|q| - 1]), q[|q| - 1], t);
    }
  }

  lemma TooManyTypes(p: Pool, d: Dist, b: nat, pool: Pool)
    requires SoundPool(p) && |p| <= 5 && Sound(d) && b < 65 && d.buckets[b] != 0
    requires Sound(Upto(d, b)) && pool == WithBuckets(p, Upto(d, b)) && |pool| == 5 && !Has(pool, d.kind)
    ensures |WithBuckets(p, d)| > 5
  {
    WithBucketsMeans(p, Upto(d, b));
    WithBucketsMeans(p, d);
    HasKind(p);
    HasKind(pool);
    assert Kinds(pool) == Kinds(p);
    assert |Kinds(WithBuckets(p, d))| == |p| + 1;
  }

  /** The totals of the types below n have been taken over from q. */
  ghost predicate TotalsUpto(before: Pool, q: Pool, pool: Pool, n: nat) {
    && SoundPool(before) && SoundPool(q) && SoundPool(pool) && Kinds(pool) == Kinds(before)
    && (forall t :: t < n && Has(q, t) ==> Has(pool, t))
    && forall t :: 0 <= t < 127 ==> At(pool, t) == TotalsAt(before, q, n, t)
  }

  function TotalsAt(before: Pool, q: Pool, n: nat, t: int): Dist
    requires SoundPool(before) && SoundPool(q) && 0 <= t < 127
  {
    if t < n && Has(q, t) then AddTotals(At(before, t), At(q, t)) else At(before, t)
  }

  lemma NextTotals(before: Pool, q: Pool, pool: Pool, n: nat, d: Dist)
    requires TotalsUpto(before, q, pool, n) && n < 127
    requires Has(q, n) ==> Has(pool, n) && d == AddTotals(At(pool, n), At(q, n))
    ensures Has(q, n) ==>
              && TotalsUpto(before, q, pool[Find(pool, n) := d], n + 1)
              && forall t :: Find(pool[Find(pool, n) := d], t) == Find(pool, t)
    ensures !Has(q, n) ==> TotalsUpto(before, q, pool, n + 1)
  {
    if Has(q, n) {
      SoundResults(At(pool, n), At(q, n), 0);
      UpdatedPool(pool, Find(pool, n), d);
      var r := pool[Find(pool, n) := d];
      forall t | 0 <= t < 127
        ensures At(r, t) == TotalsAt(before, q, n + 1, t)
      {
        assert At(pool, t) == TotalsAt(before, q, n, t);
      }
    }
  }

  lemma {:induction false} TypesOfLive(p: Pool, q: Pool)
    requires forall d <- q :: Live(d) || Has(p, d.kind)
    ensures Types(p, LiveOnes(q)) == Types(p, q)
    ensures forall t <- Kinds(p) :: t in Types(p, q)
  {
    if q != [] {
      var rest, d := q[..|q| - 1], q[|q| - 1];
      TypesOfLive(p, rest);
      HasKind(p);
      if Live(d) {
        assert LiveOnes(q)[..|LiveOnes(rest)|] == LiveOnes(rest);
      } else {
        assert d in q && LiveOnes(q) == LiveOnes(rest);
      }
    }
  }

  lemma SameKinds(p: Pool, q: Pool)
    requires Kinds(p) == Kinds(q)
    ensures forall t :: Has(p, t) <==> Has(q, t)
  {
    HasKind(p);
    HasKind(q);
  }

  lemma AllTypesFound(before: Pool, q: Pool, pool: Pool)
    requires TotalsUpto(before, q, pool, 127)
    ensures forall d <- q :: Has(before, d.kind)
  {
    SameKinds(before, pool);
    forall k | 0 <= k < |q|
      ensures Has(before, q[k].kind)
    {
      FindIs(q, q[k].kind, k);
      assert Sound(q[k]);
    }
  }

  /** After the buckets, a type is there if it was or if its buckets are not all empty. */
  lemma FoundTypes(p: Pool, q: Pool)
    requires SoundPool(p) && SoundPool(q)
    ensures (forall d <- q :: Has(FoldBuckets(p, q), d.kind)) <==> forall d <- q :: Live(d) || Has(p, d.kind)
  {
    forall k | 0 <= k < |q|
      ensures Has(FoldBuckets(p, q), q[k].kind) <==> Live(q[k]) || Has(p, q[k].kind)
    {
      FoundType(p, q, k);
    }
  }

  lemma FoundLast(p: Pool, q: Pool, t: int)
    requires SoundPool(p) && SoundPool(q) && q != []
    ensures Has(FoldBuckets(p, q), t) <==>
              Has(FoldBuckets(p, q[..|q| - 1]), t) || (Live(q[|q| - 1]) && q[|q| - 1].kind == t)
  {
    WithBucketsHas(FoldBuckets(p, q[..|q| - 1]), q[|q| - 1], t);
  }

  lemma WithBucketsHas(pool: Pool, d: Dist, t: int)
    requires SoundPool(pool) && Sound(d)
    ensures Has(WithBuckets(pool, d), t) <==> Has(pool, t) || (Live(d) && d.kind == t)
  {
    WithBucketsMeans(pool, d);
    HasKind(pool);
    HasKind(WithBuckets(pool, d));
  }

  lemma {:induction false} FoundType(p: Pool, q: Pool, k: nat)
    requires SoundPool(p) && SoundPool(q) && k < |q|
    ensures Has(FoldBuckets(p, q), q[k].kind) <==> Live(q[k]) || Has(p, q[k].kind)
  {
    FoundLast(p, q, q[k].kind);
    if k < |q| - 1 {
      FoundType(p, q[..|q| - 1], k);
    } else {
      NotYetFound(p, q[..k], q[k].kind);
    }
  }

  lemma {:induction false} NotYetFound(p: Pool, q: Pool, t: int)
    requires SoundPool(p) && SoundPool(q) && forall k :: 0 <= k < |q| ==> q[k].kind != t
    ensures Has(FoldBuckets(p, q), t) <==> Has(p, t)
  {
    if q != [] {
      FoundLast(p, q, t);
      NotYetFound(p, q[..|q| - 1], t);
    }
  }

  /** Buckets first and totals then make the merged pool. */
  lemma BucketsThenTotals(p: Pool, q: Pool, pool: Pool)
    requires SoundPool(p) && SoundPool(q) && TotalsUpto(FoldBuckets(p, q), q, pool, 127)
    requires forall d <- q :: Live(d) || Has(p, d.kind)
    ensures pool == Merged(p, q)
  {
    TypesOfLive(p, q);
    FoldBucketsKinds(p, q);
    MergedMeans(p, q);
    forall k | 0 <= k < |pool|
      ensures At(pool, pool[k].kind) == At(Merged(p, q), pool[k].kind)
    {
      var t := pool[k].kind;
      assert Sound(pool[k]);
      FoldBucketsAt(p, q, t);
      CombineEmpty(At(p, t));
    }
    SamePool(pool, Merged(p, q));
  }

  lemma {:induction false} AllLive(q: Pool)
    requires forall d <- q :: Live(d)
    ensures LiveOnes(q) == q
  {
    if q != [] {
      AllLive(q[..|q| - 1]);
      assert q[|q| - 1] in q;
    }
  }

  /** What a merge of a profile of fewer than 2^32 samples does, recording those samples does:
      the same pool, or too many types for both, and never a bad pointer. */
  lemma SumIsRecording(p: Pool, xs: seq<Sample>)
    requires SoundPool(p) && |p| <= 5 && (forall x <- xs :: SoundSample(x))
    requires Record([], xs).Some? && |xs| < 0x1_0000_0000
    ensures var q := Record([], xs).value;
            && (forall d <- q :: Live(d))
            && Record(p, xs) == if |Types(p, LiveOnes(q))| <= 5 then Some(Merged(p, q)) else None
  {
    var q := Record([], xs).value;
    forall d <- q
      ensures Live(d)
    {
      FewSamplesAreLive(xs, d);
    }
    AllLive(q);
    MergedLength(p, q);
    MergeIsRecording(p, xs);
  }

  lemma MergedLength(p: Pool, q: Pool)
    requires SoundPool(p) && SoundPool(q)
    ensures |Merged(p, q)| == |Types(p, q)|
  {}

  // ---------------------------------------------------------------- buckets that wrap around

  function Ones(n: nat): seq<Sample> {
    seq(n, _ => Sample(0, 1))
  }

  lemma {:induction false} RecordOnes(n: nat)
    ensures (forall x <- Ones(n) :: SoundSample(x)) && Record([], Ones(n)).Some?
    ensures Kinds(Record([], Ones(n)).value) == if n == 0 then [] else [0]
  {
    assert forall x <- Ones(n) :: x == Sample(0, 1);
    if n > 0 {
      RecordOnes(n - 1);
      assert Ones(n)[..n - 1] == Ones(n - 1);
      var before := Record([], Ones(n - 1)).value;
      HasKind(before);
      RecordedMeans(before, Sample(0, 1));
    }
  }

  lemma {:induction false} CountOnes(n: nat, b: nat)
    ensures ValuesOf(Ones(n), 0) == seq(n, _ => 1)
    ensures CountIn(seq(n, _ => 1), b) == if b == 0 then n else 0
  {
    if n > 0 {
      assert Ones(n)[..n - 1] == Ones(n - 1);
      var vs: seq<nat> := seq(n, _ => 1);
      assert vs[..n - 1] == seq(n - 1, _ => 1);
      CountOnes(n - 1, b);
    }
  }

  /** After 2^32 samples of 1 every bucket reads zero, and a merge into an empty profile finds no type
      there and follows a null pointer. */
  lemma WrappedBuckets()
    ensures var xs := Ones(0x1_0000_0000);
            && (forall x <- xs :: SoundSample(x)) && Record([], xs).Some?
            && var q := Record([], xs).value;
            && |q| == 1 && q[0].kind == 0 && !Live(q[0])
            && |Types([], LiveOnes(q))| == 0 && !Has([], 0)
  {
    var xs := Ones(0x1_0000_0000);
    RecordOnes(0x1_0000_0000);
    var q := Record([], xs).value;
    assert |q| == |Kinds(q)| == 1 && q[0].kind == Kinds(q)[0] == 0;
    FindIs(q, 0, 0);
    RecordDescribes(xs, 0);
    forall b | 0 <= b < 65
      ensures q[0].buckets[b] == 0
    {
      CountOnes(0x1_0000_0000, b);
    }
    assert q[..0] == [];
    assert LiveOnes(q) == LiveOnes(q[..0]) + [] == [];
  }

  // ---------------------------------------------------------------- a profile merged into itself

  /** Adding buckets to a type that is there changes its distribution only. */
  lemma WithBucketsIndex(p: Pool, d: Dist, j: nat)
    requires SoundPool(p) && Sound(d) && j < |p| && p[j].kind == d.kind
    ensures var w := WithBuckets(p, d);
            && |w| == |p| && w[j] == p[j].(buckets := SumBuckets(p[j].buckets, d.buckets))
            && forall k :: 0 <= k < |p| && k != j ==> w[k] == p[k]
  {
    FindIs(p, d.kind, j);
    if !Live(d) {
      assert SumBuckets(p[j].buckets, d.buckets) == p[j].buckets;
    }
  }

  /** While its own buckets are added to a distribution, those still to come have not changed. */
  lemma OwnBucket(p: Pool, i: nat, b: nat)
    requires SoundPool(p) && i < |p| && b < 65 && Sound(Upto(p[i], b))
    ensures var w := WithBuckets(p, Upto(p[i], b));
            |w| == |p| && w[i].kind == p[i].kind && |w[i].buckets| == 65 && w[i].buckets[b] == p[i].buckets[b]
  {
    WithBucketsIndex(p, Upto(p[i], b), i);
  }

  /** While the distributions of a profile are added to themselves, those still to come have not changed. */
  lemma {:induction false} OwnFold(q: Pool, i: nat)
    requires SoundPool(q) && i <= |q|
    ensures SoundPool(q[..i])
    ensures var w := FoldBuckets(q, q[..i]);
            |w| == |q| && Kinds(w) == Kinds(q) && forall k :: i <= k < |q| ==> w[k] == q[k]
  {
    if i > 0 {
      OwnFold(q, i - 1);
      FoldNext(q, q, i - 1);
      WithBucketsIndex(FoldBuckets(q, q[..i - 1]), q[i - 1], i - 1);
    }
  }

  predicate SameTotals(d: Dist, e: Dist) {
    d.min == e.min && d.max == e.max && d.total == e.total && d.count == e.count
  }

  lemma OwnTotals(q: Pool, before: Pool, pool: Pool, n: nat)
    requires SoundPool(q) && before == FoldBuckets(q, q) && TotalsUpto(before, q, pool, n) && n < 127
    ensures SameTotals(At(pool, n), At(q, n))
  {
    FoldBucketsAt(q, q, n);
  }

  // ---------------------------------------------------------------- the object

  method TakeTotals(d: Dist, ds: Dist) returns (e: Dist)
    requires Sound(d) && Sound(ds)
    ensures e == AddTotals(d, ds)
  {
    e := d;
    if ds.min < e.min {
      e := e.(min := ds.min);
    }
    if ds.max > e.max {
      e := e.(max := ds.max);
    }
    e := e.(total := Add64(e.total, ds.total), count := Add64(e.count, ds.count));
  }

  class Profile {
    var dists: map<int, nat>
    var pool: Pool

    ghost predicate Valid()
      reads this
    {
      && SoundPool(pool) && |pool| <= 5
      && (forall t :: t in dists <==> Has(pool, t))
      && (forall t <- dists :: dists[t] == Find(pool, t))
    }

    constructor ()
      ensures Valid() && pool == []
    {
      dists, pool := map[], [];
    }

    /** The index of a type's distribution, taken from the pool the first time; none when the pool is used up. */
    method Slot(kind: int) returns (at: Option<nat>)
      requires Valid() && 0 <= kind < 127
      modifies this
      ensures Valid()
      ensures at.Some? <==> Fits(old(pool), kind)
      ensures at.Some? ==> pool == Touched(old(pool), kind) && at.value == Find(pool, kind) < |pool|
      ensures at.None? ==> pool == old(pool)
    {
      if kind !in dists {
        if |pool| == 5 {
          return None;
        }
        dists, pool := dists[kind := |pool|], pool + [Empty(kind)];
        TouchedHas(old(pool), kind);
      }
      at := Some(dists[kind]);
    }

    method AddHist(kind: int, val: nat, count: nat) returns (at: Option<nat>)
      requires Valid() && 0 <= kind < 127 && val < 0x1_0000_0000_0000_0000 && count < 0x1_0000_0000
      modifies this
      ensures Valid() && Log2(val) < 64
      ensures at.Some? <==> Fits(old(pool), kind)
      ensures at.Some? ==> pool == Hist(old(pool), kind, Log2(val), count) && at.value == Find(pool, kind) < |pool|
      ensures at.None? ==> pool == old(pool)
    {
      at := Slot(kind);
      var b := BucketOf(val);
      if at.Some? {
        var d := pool[at.value].(buckets := Bumped(pool[at.value].buckets, b, count));
        UpdatedPool(pool, at.value, d);
        pool := pool[at.value := d];
      }
    }

    method Add(kind: int, val: nat) returns (ok: bool)
      requires Valid() && 0 <= kind < 127 && val < 0x1_0000_0000_0000_0000
      modifies this
      ensures Valid() && SoundSample(Sample(kind, val))
      ensures ok <==> Fits(old(pool), kind)
      ensures pool == if ok then Recorded(old(pool), Sample(kind, val)) else old(pool)
    {
      var at := AddHist(kind, val, 1);
      if at.None? {
        return false;
      }
      HistThenTotals(old(pool), Sample(kind, val));
      var d := pool[at.value];
      if val < d.min {
        d := d.(min := val);
      }
      if val > d.max {
        d := d.(max := val);
      }
      d := d.(total := Add64(d.total, val), count := Add64(d.count, 1));
      UpdatedPool(pool, at.value, d);
      pool := pool[at.value := d];
      ok := true;
    }

    /** The buckets of the summand's i-th distribution, each read when its turn comes. */
    method SumBucketsOf(summand: Profile, i: nat, ghost d: Dist) returns (ok: bool)
      requires Valid() && summand.Valid() && i < |summand.pool| && summand.pool[i] == d
      modifies this
      ensures Valid()
      ensures ok <==> |WithBuckets(old(pool), d)| <= 5
      ensures ok ==> pool == WithBuckets(old(pool), d)
    {
      for b := 0 to 65
        invariant Valid() && Sound(Upto(d, b)) && pool == WithBuckets(old(pool), Upto(d, b))
      {
        if summand == this {
          OwnBucket(old(pool), i, b);
        }
        var count := summand.pool[i].buckets[b];
        if count == 0 {
          assert Upto(d, b + 1).buckets == Upto(d, b).buckets;
        } else {
          NextBucket(old(pool), d, b);
          Pow2Of64();
          Log2OfPow2(b);
          Pow2Below(b, 64);
          ghost var was := pool;
          var at := AddHist(summand.pool[i].kind, Pow2(b), count);
          if at.None? {
            TooManyTypes(old(pool), d, b, was);
            return false;
          }
        }
      }
      assert Upto(d, 65).buckets == d.buckets;
      ok := true;
    }

    /** The first loop of Latency_Sum: every bucket of every distribution in use. */
    method SumAllBuckets(summand: Profile, ghost q: Pool) returns (ok: bool)
      requires Valid() && summand.Valid() && summand.pool == q
      modifies this
      ensures Valid()
      ensures ok <==> |FoldBuckets(old(pool), q)| <= 5
      ensures ok ==> pool == FoldBuckets(old(pool), q)
    {
      var i := 0;
      ghost var was := pool;
      while i < |summand.pool|
        invariant i <= |summand.pool| == |q| && Valid()
        invariant pool == FoldBuckets(was, q[..i])
        decreases |q| - i
      {
        if summand == this {
          OwnFold(q, i);
        }
        FoldNext(was, q, i);
        ok := SumBucketsOf(summand, i, q[i]);
        if !ok {
          FoldFails(was, q, i);
          return;
        }
        i := i + 1;
        if summand == this {
          OwnFold(q, i);
        }
      }
      assert q[..|q|] == q;
      ok := true;
    }

    /** The second loop: the totals of every type. Fails where the type has no distribution here. */
    method SumTotals(summand: Profile, ghost q: Pool) returns (ok: bool)
      requires Valid() && summand.Valid() && SoundPool(q)
      requires summand != this ==> summand.pool == q
      requires summand == this ==> pool == FoldBuckets(q, q) && Kinds(pool) == Kinds(q)
      modifies this
      ensures ok <==> forall d <- q :: Has(old(pool), d.kind)
      ensures ok ==> Valid() && TotalsUpto(old(pool), q, pool, 127)
    {
      for n := 0 to 127
        invariant Valid() && TotalsUpto(old(pool), q, pool, n)
      {
        if summand == this {
          SameKinds(q, pool);
          OwnTotals(q, old(pool), pool, n);
        }
        assert n in summand.dists <==> Has(q, n);
        if n in summand.dists {
          if n !in dists {
            SameKinds(old(pool), pool);
            assert q[Find(q, n)] in q;
            return false;
          }
          assert SameTotals(summand.pool[summand.dists[n]], At(q, n));
          var d := TakeTotals(pool[dists[n]], summand.pool[summand.dists[n]]);
          NextTotals(old(pool), q, pool, n, d);
          pool := pool[dists[n] := d];
        } else {
          NextTotals(old(pool), q, pool, n, Empty(n));
        }
      }
      AllTypesFound(old(pool), q, pool);
      ok := true;
    }

    /** Latency_Sum. The summand may be the destination itself. */
    method Sum(summand: Profile) returns (outcome: Outcome)
      requires Valid() && summand.Valid()
      modifies this
      ensures outcome == Panic <==> |Types(old(pool), LiveOnes(old(summand.pool)))| > 5
      ensures outcome == Done <==>
                && |Types(old(pool), LiveOnes(old(summand.pool)))| <= 5
                && forall d <- old(summand.pool) :: Live(d) || Has(old(pool), d.kind)
      ensures outcome == Done ==> Valid() && pool == Merged(old(pool), old(summand.pool))
    {
      ghost var p, q := pool, summand.pool;
      FoldBucketsKinds(p, q);
      var fits := SumAllBuckets(summand, q);
      if !fits {
        return Panic;
      }
      FoundTypes(p, q);
      if summand == this {
        OwnFold(q, |q|);
        assert q[..|q|] == q;
      }
      var found := SumTotals(summand, q);
      if !found {
        return BadPointer;
      }
      BucketsThenTotals(p, q, pool);
      outcome := Done;
    }
  }
}
