/**
 Batched signatures (src/lib/batched_sigs.cc and batched_sigs.h): one root signature for a
 whole batch of messages, with a hash path for each message that a verifier walks back up.
 */
module BatchedSigs {
  import opened Arithmetic
  import opened Bytes
  import opened MerkleTree
  import opened TreeHeight

  // ---------------------------------------------------------------- integer fields

  /** packInt: four bytes, high byte first. */
  function PackInt(i: nat): (s: seq<Byte>)
    ensures |s| == 4
  {
    Be(i, 4)
  }

  /** unpackInt. */
  function UnpackInt(s: seq<Byte>): nat
    requires |s| == 4
  {
    FromBe(s)
  }

  /** The two are inverse on every 32-bit value and on every four bytes. */
  lemma PackIntRoundTrip(i: nat, s: seq<Byte>)
    requires i < U32_RANGE && |s| == 4
    ensures UnpackInt(PackInt(i)) == i
    ensures PackInt(UnpackInt(s)) == s && UnpackInt(s) < U32_RANGE
  {
    RangeValues();
    BeRoundTrip(i, 4);
    FromBeRoundTrip(s);
  }

  /** The bytes of packInt, written out. */
  lemma PackIntBytes(i: nat)
    requires i < U32_RANGE
    ensures PackInt(i) == [i / 0x100_0000, i / 0x1_0000 % 256, i / 256 % 256, i % 256]
  {
    assert Be(i, 4) == Be(i / 256, 3) + [i % 256];
    assert Be(i / 256, 3) == Be(i / 256 / 256, 2) + [i / 256 % 256];
    assert Be(i / 256 / 256, 2) == Be(i / 256 / 256 / 256, 1) + [i / 256 / 256 % 256];
    assert Be(i / 256 / 256 / 256, 1) == [] + [i / 256 / 256 / 256 % 256];
  }

  /** Conversion of an unsigned 64-bit value to a 32-bit int. */
  function ToInt(x: nat): int {
    var low := x % 0x1_0000_0000;
    if low < 0x8000_0000 then low else low - 0x1_0000_0000
  }

  /** Node numbers, and a sibling number one group past them, fit in an int. */
  predicate FitsInt(n: nat, m: nat)
    requires n >= 1 && m >= 2
  {
    LastLeaf(n, m) + m < 0x7fff_ffff
  }

  // ---------------------------------------------------------------- signing

  /** A signing scheme: the hash, the root signature of a fixed size, and the tree's arity. */
  datatype Scheme = Scheme(H: Hasher, sign: Digest -> seq<Byte>, sigSize: nat, m: nat) {
    ghost predicate Valid() {
      m >= 2 && forall d: Digest :: |sign(d)| == sigSize
    }
  }

  /** The signature of message i: root signature, batch size, index, and the path's digests. */
  function Signature(sch: Scheme, msgs: seq<seq<Byte>>, i: nat): seq<Byte>
    requires sch.m >= 2 && i < |msgs|
  {
    Head(sch, msgs) + PackInt(i)
    + Proof(sch.H, msgs, sch.m, FirstLeaf(|msgs|, sch.m) + i)
  }

  /** One store into the tree: slot dst receives a digest of slots lo .. hi-1. */
  datatype Store = Store(dst: nat, lo: nat, hi: nat)

  /** The step at which slot k is stored: leaves first, left to right, then the internal
      nodes from the last down to the root. */
  function StoreStep(first: nat, last: nat, k: nat): nat
    requires k <= last
  {
    if k >= first then k - first else last - k
  }

  /** Every slot is stored exactly once, and before any step reads it. */
  ghost predicate SoundOrder(first: nat, last: nat, log: seq<Store>) {
    && (forall t :: 0 <= t < |log| ==> log[t].dst <= last && StoreStep(first, last, log[t].dst) == t)
    && (forall t, k: nat :: 0 <= t < |log| && log[t].lo <= k < log[t].hi ==> StoredBefore(first, last, k, t))
  }

  predicate StoredBefore(first: nat, last: nat, k: nat, t: nat) {
    k <= last && StoreStep(first, last, k) < t
  }

  lemma SlotStored(t: seq<Byte>, k: nat, d: Digest, t': seq<Byte>)
    requires (k + 1) * 32 <= |t|
    requires t' == t[..k * 32] + d + t[(k + 1) * 32..]
    ensures |t'| == |t| && Slot(t', k) == d
    ensures forall j: nat :: j != k && (j + 1) * 32 <= |t| ==> Slot(t', j) == Slot(t, j)
  {
    forall j: nat | j != k && (j + 1) * 32 <= |t|
      ensures Slot(t', j) == Slot(t, j)
    {
      if j < k {
        assert t'[..k * 32] == t[..k * 32];
        assert Slot(t', j) == t'[..k * 32][j * 32..(j + 1) * 32];
      } else {
        var a, b := (j - k - 1) * 32, (j - k) * 32;
        assert t'[(k + 1) * 32..] == t[(k + 1) * 32..];
        assert Slot(t', j) == t'[(k + 1) * 32..][a..b];
        assert Slot(t, j) == t[(k + 1) * 32..][a..b];
      }
    }
  }

  /** Store a digest of slots lo .. hi-1 in slot k of the tree, and note it in the log. */
  method PutSlot(tree: array<Byte>, k: nat, d: Digest, ghost lo: nat, ghost hi: nat, ghost log: seq<Store>)
    returns (ghost longer: seq<Store>)
    requires (k + 1) * 32 <= tree.Length
    modifies tree
    ensures longer == log + [Store(k, lo, hi)]
    ensures Slot(tree[..], k) == d
    ensures forall j: nat :: j != k && (j + 1) * 32 <= tree.Length ==>
              Slot(tree[..], j) == old(Slot(tree[..], j))
  {
    ghost var t := tree[..];
    CopyInto(tree, k * 32, d);
    assert tree[..] == t[..k * 32] + d + t[(k + 1) * 32..] by {
      assert old(tree[..k * 32]) == t[..k * 32];
      assert old(tree[(k + 1) * 32..]) == t[(k + 1) * 32..];
    }
    SlotStored(t, k, d, tree[..]);
    longer := log + [Store(k, lo, hi)];
  }

  /** Adding the next store keeps the order sound. */
  lemma NextStore(first: nat, last: nat, log: seq<Store>, s: Store)
    requires SoundOrder(first, last, log)
    requires s.dst <= last && StoreStep(first, last, s.dst) == |log|
    requires forall k: nat :: s.lo <= k < s.hi ==> StoredBefore(first, last, k, |log|)
    ensures SoundOrder(first, last, log + [s])
  {
    var log' := log + [s];
    forall t, k: nat | 0 <= t < |log'| && log'[t].lo <= k < log'[t].hi
      ensures StoredBefore(first, last, k, t)
    {
      if t < |log| { assert log'[t] == log[t]; }
    }
  }

  /** The slots from p on hold their nodes' digests. */
  ghost predicate FilledFrom(H: Hasher, msgs: seq<seq<Byte>>, m: nat, t: seq<Byte>, p: nat, q: nat)
    requires |msgs| >= 1 && m >= 2
    requires q <= LastLeaf(|msgs|, m) + 1 && |t| == (LastLeaf(|msgs|, m) + 1) * 32
  {
    forall k :: p <= k < q ==> Slot(t, k) == NodeHash(H, msgs, m, k)
  }

  method FillLeaves(H: Hasher, msgs: seq<seq<Byte>>, m: nat, tree: array<Byte>) returns (ghost log: seq<Store>)
    requires |msgs| >= 1 && m >= 2 && tree.Length == (LastLeaf(|msgs|, m) + 1) * 32
    modifies tree
    ensures FilledFrom(H, msgs, m, tree[..], FirstLeaf(|msgs|, m), LastLeaf(|msgs|, m) + 1)
    ensures |log| == |msgs| && SoundOrder(FirstLeaf(|msgs|, m), LastLeaf(|msgs|, m), log)
  {
    var first, last := FirstLeaf(|msgs|, m), LastLeaf(|msgs|, m);
    log := [];
    for i := 0 to |msgs|
      invariant |log| == i && SoundOrder(first, last, log)
      invariant FilledFrom(H, msgs, m, tree[..], first, first + i)
    {
      NextStore(first, last, log, Store(first + i, 0, 0));
      log := PutSlot(tree, first + i, H(msgs[i]), 0, 0, log);
    }
  }

  /** The first sibling and the parent of i, which is the last child of p. */
  method GroupOf(n: nat, m: nat, i: nat, ghost p: nat) returns (l: nat, parent: nat)
    requires n >= 1 && m >= 2 && p < FirstLeaf(n, m) && i == LastChild(n, m, p)
    ensures parent == p && l == FirstChild(p, m) <= i <= LastLeaf(n, m)
  {
    InternalNodeHasTwoChildren(n, m, p);
    ChildrenOfParent(n, m, p, i);
    SourceIndices(i, m);
    l, parent := (i - 1) / m * m + 1, (i - 1) / m;
  }

  /** One round of the upward loop: i is the last child of p, and p receives its digest. */
  method HashGroup(H: Hasher, msgs: seq<seq<Byte>>, m: nat, tree: array<Byte>, i: nat, ghost p: nat,
                   ghost log: seq<Store>)
    returns (l: nat, ghost longer: seq<Store>)
    requires |msgs| >= 1 && m >= 2 && tree.Length == (LastLeaf(|msgs|, m) + 1) * 32
    requires p < FirstLeaf(|msgs|, m) && i == LastChild(|msgs|, m, p)
    requires FilledFrom(H, msgs, m, tree[..], p + 1, LastLeaf(|msgs|, m) + 1)
    modifies tree
    ensures l == FirstChild(p, m) && longer == log + [Store(p, l, i + 1)]
    ensures FilledFrom(H, msgs, m, tree[..], p, LastLeaf(|msgs|, m) + 1)
  {
    var parent;
    l, parent := GroupOf(|msgs|, m, i, p);
    SlotsAreDigests(H, msgs, m, tree[..], l, i + 1);
    longer := PutSlot(tree, parent, H(tree[..][l * 32..(i + 1) * 32]), l, i + 1, log);
  }

  /** Fill the tree: the message digests, then the parents from the right end to the root. */
  method BuildTree(H: Hasher, msgs: seq<seq<Byte>>, m: nat) returns (tree: array<Byte>, ghost log: seq<Store>)
    requires |msgs| >= 1 && m >= 2
    ensures fresh(tree) && tree.Length == (LastLeaf(|msgs|, m) + 1) * 32
    ensures FilledFrom(H, msgs, m, tree[..], 0, LastLeaf(|msgs|, m) + 1)
    ensures |log| == LastLeaf(|msgs|, m) + 1
    ensures SoundOrder(FirstLeaf(|msgs|, m), LastLeaf(|msgs|, m), log)
  {
    NodeCountIsExact(|msgs|, m);
    tree := new Byte[NodeCount(|msgs|, m) * 32];
    log := FillLeaves(H, msgs, m, tree);
    log := FillParents(H, msgs, m, tree, log);
  }

  method FillParents(H: Hasher, msgs: seq<seq<Byte>>, m: nat, tree: array<Byte>, ghost before: seq<Store>)
    returns (ghost log: seq<Store>)
    requires |msgs| >= 1 && m >= 2 && tree.Length == (LastLeaf(|msgs|, m) + 1) * 32
    requires FilledFrom(H, msgs, m, tree[..], FirstLeaf(|msgs|, m), LastLeaf(|msgs|, m) + 1)
    requires |before| == |msgs| && SoundOrder(FirstLeaf(|msgs|, m), LastLeaf(|msgs|, m), before)
    modifies tree
    ensures FilledFrom(H, msgs, m, tree[..], 0, LastLeaf(|msgs|, m) + 1)
    ensures |log| == LastLeaf(|msgs|, m) + 1
    ensures SoundOrder(FirstLeaf(|msgs|, m), LastLeaf(|msgs|, m), log)
  {
    var n := |msgs|;
    ghost var first, last := FirstLeaf(n, m), LastLeaf(n, m);
    var i: int := LastLeaf(n, m);
    ghost var p := first;
    log := before;
    GroupEnds(n, m, p);
    while i > 1
      invariant 0 <= p <= first
      invariant i == if p == 0 then 0 else LastChild(n, m, p - 1)
      invariant p > 0 ==> i > 1
      invariant |log| == last + 1 - p && SoundOrder(first, last, log)
      invariant FilledFrom(H, msgs, m, tree[..], p, last + 1)
      decreases p
    {
      p := p - 1;
      GroupEnds(n, m, p);
      NextStore(first, last, log, Store(p, FirstChild(p, m), i + 1));
      var l;
      l, log := HashGroup(H, msgs, m, tree, i, p, log);
      i := i - (i - l) - 1;
    }
  }

  /** The node just before the children of p (for the first leaf, the last leaf) ends the
      group of children of p - 1; so the loop meets every group at its last member. */
  lemma GroupEnds(n: nat, m: nat, p: nat)
    requires n >= 1 && m >= 2 && p <= FirstLeaf(n, m)
    ensures p == FirstLeaf(n, m) == 0 ==> LastLeaf(n, m) == 0
    ensures p == FirstLeaf(n, m) > 0 ==> LastLeaf(n, m) == LastChild(n, m, p - 1) > 1
    ensures p < FirstLeaf(n, m) ==> LastChild(n, m, p) <= LastLeaf(n, m)
    ensures p < FirstLeaf(n, m) && p == 0 ==> FirstChild(p, m) - 1 == 0
    ensures p < FirstLeaf(n, m) && p > 0 ==> FirstChild(p, m) - 1 == LastChild(n, m, p - 1) > 1
  {
    if p > 0 {
      InternalNodeHasTwoChildren(n, m, p - 1);
    }
    if p < FirstLeaf(n, m) {
      InternalNodeHasTwoChildren(n, m, p);
    } else {
      FirstLeafBounds(n, m);
      FirstChildIs(p, m);
      assert p * m == p * (m - 1) + p;
    }
  }

  // ---------------------------------------------------------------- signature extraction

  /** memcpy of src to offset off of a buffer whose first off bytes are already final. */
  method Append(sig: array<Byte>, off: nat, src: seq<Byte>)
    requires off + |src| <= sig.Length
    modifies sig
    ensures sig[..off + |src|] == old(sig[..off]) + src
  {
    CopyInto(sig, off, src);
    assert sig[..off + |src|] == sig[..][..off + |src|];
  }

  /** Copy the siblings of j to offset off, and step to the parent. The source does not look at the size
      of the buffer; ok is false where it would write past the end. */
  method AppendGroup(H: Hasher, msgs: seq<seq<Byte>>, m: nat, tree: seq<Byte>, sig: array<Byte>, off: nat, j: nat)
    returns (ok: bool, count: nat, parent: nat)
    requires |msgs| >= 1 && m >= 2 && 1 <= j <= LastLeaf(|msgs|, m) && off <= sig.Length
    requires |tree| == (LastLeaf(|msgs|, m) + 1) * 32
    requires FilledFrom(H, msgs, m, tree, 0, LastLeaf(|msgs|, m) + 1)
    modifies sig
    ensures parent == Parent(j, m) < j && parent < FirstLeaf(|msgs|, m)
    ensures count * 32 == |ChildDigests(H, msgs, m, parent)| && (ok <==> off + count * 32 <= sig.Length)
    ensures ok ==> sig[..off + count * 32] == old(sig[..off]) + ChildDigests(H, msgs, m, parent)
  {
    var p, lo, hi := SiblingRange(|msgs|, m, j);
    parent, count := p, hi - lo + 1;
    ok := off + count * 32 <= sig.Length;
    if ok {
      SlotsAreDigests(H, msgs, m, tree, lo, hi + 1);
      Append(sig, off, tree[lo * 32..(hi + 1) * 32]);
    }
  }

  /** The copied bytes grow by exactly the group that leaves the rest of the proof. */
  lemma PathGrows(H: Hasher, msgs: seq<seq<Byte>>, m: nat, j: nat, head: seq<Byte>)
    requires |msgs| >= 1 && m >= 2 && 1 <= j <= LastLeaf(|msgs|, m)
    requires Parent(j, m) < FirstLeaf(|msgs|, m)
    ensures Proof(H, msgs, m, j) == ChildDigests(H, msgs, m, Parent(j, m)) + Proof(H, msgs, m, Parent(j, m))
    ensures head + ChildDigests(H, msgs, m, Parent(j, m)) + Proof(H, msgs, m, Parent(j, m))
         == head + Proof(H, msgs, m, j)
  {
  }

  /** One level of the path, with what is copied and what is still to come. */
  method AppendLevel(H: Hasher, msgs: seq<seq<Byte>>, m: nat, tree: seq<Byte>, sig: array<Byte>, off: nat, j: nat,
                     ghost whole: seq<Byte>)
    returns (ok: bool, count: nat, parent: nat)
    requires |msgs| >= 1 && m >= 2 && 1 <= j <= LastLeaf(|msgs|, m)
    requires |tree| == (LastLeaf(|msgs|, m) + 1) * 32
    requires FilledFrom(H, msgs, m, tree, 0, LastLeaf(|msgs|, m) + 1)
    requires off <= sig.Length && sig[..off] + Proof(H, msgs, m, j) == whole
    modifies sig
    ensures parent < j
    ensures ok ==> off + count * 32 <= sig.Length && sig[..off + count * 32] + Proof(H, msgs, m, parent) == whole
    ensures !ok ==> |whole| > sig.Length
  {
    ghost var head := sig[..off];
    ok, count, parent := AppendGroup(H, msgs, m, tree, sig, off, j);
    PathGrows(H, msgs, m, j, head);
  }

  /** Copy the sibling groups of a leaf into the buffer, level by level up to the root. */
  method AppendLevels(H: Hasher, msgs: seq<seq<Byte>>, m: nat, tree: seq<Byte>, sig: array<Byte>, start: nat, leaf: nat,
                      ghost whole: seq<Byte>)
    returns (ok: bool, h: nat)
    requires |msgs| >= 1 && m >= 2 && leaf <= LastLeaf(|msgs|, m)
    requires |tree| == (LastLeaf(|msgs|, m) + 1) * 32
    requires FilledFrom(H, msgs, m, tree, 0, LastLeaf(|msgs|, m) + 1)
    requires start <= sig.Length && sig[..start] + Proof(H, msgs, m, leaf) == whole
    modifies sig
    ensures ok ==> start + h * 32 <= sig.Length && sig[..start + h * 32] == whole
    ensures !ok ==> |whole| > sig.Length
  {
    ok, h := true, 0;
    var off: nat, j: nat := start, leaf;
    while ok && j >= 1
      invariant ok ==> off <= sig.Length && j <= LastLeaf(|msgs|, m) && sig[..off] + Proof(H, msgs, m, j) == whole
      invariant ok ==> off == start + h * 32
      invariant !ok ==> |whole| > sig.Length
      decreases ok, j
    {
      var count;
      ok, count, j := AppendLevel(H, msgs, m, tree, sig, off, j, whole);
      h, off := h + count, off + count * 32;
    }
    if ok {
      assert sig[..off] + [] == sig[..off];
    }
  }

  method AppendPath(H: Hasher, msgs: seq<seq<Byte>>, m: nat, tree: seq<Byte>, sig: array<Byte>, start: nat, leaf: nat)
    returns (ok: bool, h: nat)
    requires |msgs| >= 1 && m >= 2 && leaf <= LastLeaf(|msgs|, m)
    requires |tree| == (LastLeaf(|msgs|, m) + 1) * 32
    requires FilledFrom(H, msgs, m, tree, 0, LastLeaf(|msgs|, m) + 1)
    requires start <= sig.Length
    modifies sig
    ensures ok <==> start + PathDigests(|msgs|, m, leaf) * 32 <= sig.Length
    ensures ok ==> start + h * 32 <= sig.Length
    ensures ok ==> sig[..start + h * 32] == old(sig[..start]) + Proof(H, msgs, m, leaf)
  {
    ProofLength(H, msgs, m, leaf);
    ok, h := AppendLevels(H, msgs, m, tree, sig, start, leaf, sig[..start] + Proof(H, msgs, m, leaf));
  }

  /** The path of message i fits in so many slots. */
  predicate PathFits(n: nat, m: nat, slots: nat, i: nat)
    requires m >= 2 && i < n
  {
    PathDigests(n, m, FirstLeaf(n, m) + i) <= slots
  }

  /** The signature of message i: its index and its path go after the shared head. */
  method SignOne(sch: Scheme, msgs: seq<seq<Byte>>, tree: seq<Byte>, sig: array<Byte>, i: nat, ghost slots: nat)
    returns (ok: bool, s: seq<Byte>)
    requires sch.Valid() && i < |msgs|
    requires |tree| == (LastLeaf(|msgs|, sch.m) + 1) * 32
    requires FilledFrom(sch.H, msgs, sch.m, tree, 0, LastLeaf(|msgs|, sch.m) + 1)
    requires sig.Length == sch.sigSize + 8 + slots * 32
    requires sig[..sch.sigSize + 4] == Head(sch, msgs)
    modifies sig
    ensures ok <==> PathFits(|msgs|, sch.m, slots, i)
    ensures ok ==> s == Signature(sch, msgs, i) && sig[..sch.sigSize + 4] == Head(sch, msgs)
  {
    Append(sig, sch.sigSize + 4, PackInt(i));
    var start := sch.sigSize + 8;
    var h;
    ok, h := AppendPath(sch.H, msgs, sch.m, tree, sig, start, FirstLeaf(|msgs|, sch.m) + i);
    s := [];
    if ok {
      s := sig[..start + h * 32];
      assert sig[..sch.sigSize + 4] == s[..sch.sigSize + 4];
    }
  }

  method SignAll(sch: Scheme, msgs: seq<seq<Byte>>, tree: seq<Byte>, sig: array<Byte>, ghost slots: nat)
    returns (ok: bool, out: seq<seq<Byte>>)
    requires sch.Valid() && |msgs| >= 1
    requires |tree| == (LastLeaf(|msgs|, sch.m) + 1) * 32
    requires FilledFrom(sch.H, msgs, sch.m, tree, 0, LastLeaf(|msgs|, sch.m) + 1)
    requires sig.Length == sch.sigSize + 8 + slots * 32
    requires sig[..sch.sigSize + 4] == Head(sch, msgs)
    modifies sig
    ensures ok <==> forall i :: 0 <= i < |msgs| ==> PathFits(|msgs|, sch.m, slots, i)
    ensures ok ==> |out| == |msgs| && forall i :: 0 <= i < |msgs| ==> out[i] == Signature(sch, msgs, i)
  {
    out := [];
    for i := 0 to |msgs|
      invariant |out| == i && sig[..sch.sigSize + 4] == Head(sch, msgs)
      invariant forall k :: 0 <= k < i ==> PathFits(|msgs|, sch.m, slots, k) && out[k] == Signature(sch, msgs, k)
    {
      var s;
      ok, s := SignOne(sch, msgs, tree, sig, i, slots);
      if !ok {
        return;
      }
      out := out + [s];
    }
    ok := true;
  }

  /** EmptyMessage stands for the exception that an empty message raises, Overflow for a write past the end of
      the buffer, which a height cached for a larger arity makes too small. */
  datatype Batch = Signed(sigs: seq<seq<Byte>>) | EmptyMessage | Overflow

  /** generateBatchedSignatures, with the thread's table of heights. */
  method GenerateBatchedSignatures(sch: Scheme, msgs: seq<seq<Byte>>, cache: HeightCache) returns (batch: Batch)
    requires sch.Valid() && |msgs| > 0 && FitsInt(|msgs|, sch.m)
    modifies cache
    ensures batch == EmptyMessage <==> [] in msgs
    ensures batch.Signed? <==>
              && [] !in msgs
              && var height := Lookup(old(cache.heights), |msgs|, sch.m)[|msgs|];
              forall i :: 0 <= i < |msgs| ==> PathFits(|msgs|, sch.m, Slots(sch.m, height), i)
    ensures batch.Signed? ==> |batch.sigs| == |msgs|
    ensures batch.Signed? ==> forall i :: 0 <= i < |msgs| ==> batch.sigs[i] == Signature(sch, msgs, i)
  {
    if [] in msgs {
      return EmptyMessage;
    }
    var nodes, _ := BuildTree(sch.H, msgs, sch.m);
    var tree := nodes[..];
    var height := cache.GetTreeHeight(|msgs|, sch.m);
    var sig := new Byte[BufferSize(sch, height)];
    PutHead(sch, msgs, tree, sig);
    var ok, out := SignAll(sch, msgs, tree, sig, Slots(sch.m, height));
    batch := if ok then Signed(out) else Overflow;
  }

  /** The largest signature the source makes room for. */
  function BufferSize(sch: Scheme, height: nat): nat {
    sch.sigSize + 4 + 4 + Slots(sch.m, height) * 32
  }

  /** The digests it has room for, for a tree of the given height. */
  function Slots(m: nat, height: nat): nat {
    m * height + 1
  }

  lemma SlotsGrow(m: nat, a: nat, b: nat)
    requires a <= b
    ensures Slots(m, a) <= Slots(m, b)
  {
    MulMono(a, b, m);
  }

  /** A height cached for an arity that is no larger, for the same one included, is large enough. */
  lemma SmallerArityFits(n: nat, m: nat, arity: nat, i: nat)
    requires 2 <= arity <= m && i < n
    ensures PathFits(n, m, Slots(m, Height(n, arity)), i)
  {
    PathByHeight(n, m, FirstLeaf(n, m) + i);
    HeightShrinks(n, n, arity, m);
    SlotsGrow(m, Height(n, m), Height(n, arity));
  }

  /** A height cached for a larger arity need not be: five messages at arity 8 have height one, which leaves
      room for three digests at arity 2, and the last message's path has six. */
  lemma LargerArityOverflows()
    ensures Lookup(TableAfter([Call(5, 8)]), 5, 2)[5] == 1 && !PathFits(5, 2, Slots(2, 1), 4)
  {
    assert [Call(5, 8)][..0] == [];
    assert Height(5, 8) == 1;
    assert TableAfter([Call(5, 8)]) == Lookup([], 5, 8);
    PathOfFive();
  }

  lemma PathOfFive()
    ensures FirstLeaf(5, 2) == 4 && PathDigests(5, 2, 8) == 6
  {
    DivUnique(4, 1, 4);
    assert Parent(8, 2) == 3 && Parent(3, 2) == 1 && Parent(1, 2) == 0;
    assert FirstChild(0, 2) == 1 && FirstChild(1, 2) == 3 && FirstChild(2, 2) == 5 && FirstChild(3, 2) == 7;
    assert PathDigests(5, 2, 1) == 2;
    assert PathDigests(5, 2, 3) == 4;
  }

  /** What all signatures of a batch share: the root signature and the batch size. */
  function Head(sch: Scheme, msgs: seq<seq<Byte>>): seq<Byte>
    requires sch.m >= 2 && |msgs| >= 1
  {
    sch.sign(NodeHash(sch.H, msgs, sch.m, 0)) + PackInt(|msgs|)
  }

  /** Sign the digest in the root slot and put the shared head into the buffer. */
  method PutHead(sch: Scheme, msgs: seq<seq<Byte>>, tree: seq<Byte>, sig: array<Byte>)
    requires sch.Valid() && |msgs| >= 1
    requires |tree| == (LastLeaf(|msgs|, sch.m) + 1) * 32
    requires FilledFrom(sch.H, msgs, sch.m, tree, 0, LastLeaf(|msgs|, sch.m) + 1)
    requires sch.sigSize + 4 <= sig.Length
    modifies sig
    ensures sig[..sch.sigSize + 4] == Head(sch, msgs)
  {
    var root: Digest := tree[..32];
    assert root == Slot(tree, 0) == NodeHash(sch.H, msgs, sch.m, 0);
    Append(sig, 0, sch.sign(root));
    Append(sig, sch.sigSize, PackInt(|msgs|));
  }
}
