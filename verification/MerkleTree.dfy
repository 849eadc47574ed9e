/**
 The m-ary hash tree of src/lib/batched_sigs.cc, in heap order: node p has the children
 p*m+1 .. p*m+m, cut off at the last leaf, and the n leaves occupy the highest indices.
 */
module MerkleTree {
  import opened Arithmetic
  import opened Bytes

  /** BLAKE3_OUT_LEN bytes. */
  type Digest = d: seq<Byte> | |d| == 32 witness seq(32, _ => 0)

  /** BLAKE3, kept opaque: any total function from byte strings to digests. */
  type Hasher = seq<Byte> -> Digest

  // ---------------------------------------------------------------- index arithmetic

  /** The index of the first leaf, by the rounded-up division the source writes out. */
  function FirstLeaf(n: nat, m: nat): nat
    requires n >= 1 && m >= 2
  {
    Div(n - 1 + (m - 2), m - 1)
  }

  function LastLeaf(n: nat, m: nat): nat
    requires n >= 1 && m >= 2
  {
    FirstLeaf(n, m) + n - 1
  }

  /** The number of slots the source allocates for the tree. */
  function NodeCount(n: nat, m: nat): nat
    requires n >= 1 && m >= 2
  {
    Div(m * (n - 1) + (m - 2), m - 1) + 1
  }

  function Parent(j: nat, m: nat): nat
    requires j >= 1 && m >= 2
  {
    Div(j - 1, m)
  }

  /** The first child of p, counted up one group of m at a time. */
  function FirstChild(p: nat, m: nat): (c: nat)
    requires m >= 2
    ensures c > p
  {
    if p == 0 then 1 else FirstChild(p - 1, m) + m
  }

  lemma {:induction false} FirstChildIs(p: nat, m: nat)
    requires m >= 2
    ensures FirstChild(p, m) == p * m + 1
  {
    if p > 0 {
      FirstChildIs(p - 1, m);
      assert p * m == (p - 1) * m + m;
    }
  }

  /** The last child of p that exists. */
  function LastChild(n: nat, m: nat, p: nat): nat
    requires n >= 1 && m >= 2
  {
    if FirstChild(p, m) + m - 1 > LastLeaf(n, m) then LastLeaf(n, m) else FirstChild(p, m) + m - 1
  }

  /** The source's index arithmetic for the parent and the leftmost sibling of j. */
  lemma SourceIndices(j: nat, m: nat)
    requires m >= 2 && j >= 1
    ensures (j - 1) / m == Parent(j, m) < j
    ensures (j - 1) / m * m + 1 == FirstChild(Parent(j, m), m) <= j < FirstChild(Parent(j, m), m) + m
  {
    DivIsDivision(j - 1, m);
    DivBounds(j - 1, m);
    DivShrinks(j - 1, m);
    FirstChildIs(Parent(j, m), m);
  }

  /** What the rounded-up division pins down, free of any division. */
  lemma FirstLeafBounds(n: nat, m: nat)
    requires n >= 1 && m >= 2
    ensures n - 1 <= FirstLeaf(n, m) * (m - 1) <= n + m - 3
  {
    DivBounds(n - 1 + (m - 2), m - 1);
  }

  /** The allocation is exactly the internal nodes followed by the n leaves. */
  lemma NodeCountIsExact(n: nat, m: nat)
    requires n >= 1 && m >= 2
    ensures NodeCount(n, m) == FirstLeaf(n, m) + n
    ensures NodeCount(n, m) == LastLeaf(n, m) + 1
  {
    var L := FirstLeaf(n, m);
    DivBounds(n - 1 + (m - 2), m - 1);
    assert (n - 1 + L) * (m - 1) == m * (n - 1) - (n - 1) + L * (m - 1);
    DivUnique(m * (n - 1) + (m - 2), m - 1, n - 1 + L);
  }

  /** Every internal node has at least two children, so no digest hashes a single node. */
  lemma InternalNodeHasTwoChildren(n: nat, m: nat, p: nat)
    requires n >= 1 && m >= 2 && p < FirstLeaf(n, m)
    ensures FirstChild(p, m) + 1 <= LastChild(n, m, p) <= LastLeaf(n, m)
  {
    FirstLeafBounds(n, m);
    FirstChildIs(p, m);
    ChildBound(n, m, FirstLeaf(n, m), p);
  }

  lemma ChildBound(n: nat, m: nat, L: nat, p: nat)
    requires n >= 1 && m >= 2 && p < L && L * (m - 1) <= n + m - 3
    ensures p * m + 2 <= L + n - 1
  {
    MulMono(p, L - 1, m);
    assert (L - 1) * m == L * (m - 1) + L - m;
  }

  /** Every node but the root hangs below an internal node: no leaf is ever a parent. */
  lemma ParentIsInternal(n: nat, m: nat, j: nat)
    requires n >= 1 && m >= 2 && 1 <= j <= LastLeaf(n, m)
    ensures Parent(j, m) < FirstLeaf(n, m)
    ensures FirstChild(Parent(j, m), m) <= j <= LastChild(n, m, Parent(j, m))
    ensures Parent(j, m) < j
  {
    SourceIndices(j, m);
    FirstLeafBounds(n, m);
    FirstChildIs(Parent(j, m), m);
    ParentBound(n, m, FirstLeaf(n, m), Parent(j, m), j);
  }

  /** The group of j: its parent, its leftmost sibling, and the right end cut off at the last leaf. */
  method SiblingRange(n: nat, m: nat, j: nat) returns (p: nat, lo: nat, hi: nat)
    requires n >= 1 && m >= 2 && 1 <= j <= LastLeaf(n, m)
    ensures p == Parent(j, m) < FirstLeaf(n, m) && p < j
    ensures lo == FirstChild(p, m) <= j <= hi && hi == LastChild(n, m, p) <= LastLeaf(n, m)
  {
    SourceIndices(j, m);
    ParentIsInternal(n, m, j);
    p := (j - 1) / m;
    lo := (j - 1) / m * m + 1;
    hi := lo + m - 1;
    if hi > LastLeaf(n, m) {
      hi := LastLeaf(n, m);
    }
  }

  lemma ParentBound(n: nat, m: nat, L: nat, p: nat, j: nat)
    requires n >= 1 && m >= 2 && n - 1 <= L * (m - 1)
    requires p * m + 1 <= j <= L + n - 1
    ensures p < L
  {
    assert L * m == L * (m - 1) + L;
    if p >= L {
      MulMono(L, p, m);
    }
  }

  /** The children of p are exactly the nodes whose parent is p. */
  lemma ChildrenOfParent(n: nat, m: nat, p: nat, j: nat)
    requires n >= 1 && m >= 2 && 1 <= j <= LastLeaf(n, m)
    ensures Parent(j, m) == p <==> FirstChild(p, m) <= j <= LastChild(n, m, p)
  {
    ParentIsInternal(n, m, j);
    FirstChildIs(p, m);
    if FirstChild(p, m) <= j <= LastChild(n, m, p) {
      DivUnique(j - 1, m, p);
    }
  }

  // ---------------------------------------------------------------- the tree's meaning

  /** The digest that belongs at node j: a message digest at a leaf, and at an internal
      node the digest of its children's digests laid end to end. */
  function NodeHash(H: Hasher, msgs: seq<seq<Byte>>, m: nat, j: nat): Digest
    requires |msgs| >= 1 && m >= 2 && j <= LastLeaf(|msgs|, m)
    decreases LastLeaf(|msgs|, m) + 1 - j, 0
  {
    var L := FirstLeaf(|msgs|, m);
    if j >= L then
      H(msgs[j - L])
    else
      InternalNodeHasTwoChildren(|msgs|, m, j);
      H(Digests(H, msgs, m, FirstChild(j, m), LastChild(|msgs|, m, j) + 1))
  }

  /** The digests of nodes lo .. hi-1 laid end to end. */
  function Digests(H: Hasher, msgs: seq<seq<Byte>>, m: nat, lo: nat, hi: nat): (s: seq<Byte>)
    requires |msgs| >= 1 && m >= 2 && lo <= hi <= LastLeaf(|msgs|, m) + 1
    ensures |s| == (hi - lo) * 32
    decreases LastLeaf(|msgs|, m) + 1 - lo, 1
  {
    if lo == hi then [] else NodeHash(H, msgs, m, lo) + Digests(H, msgs, m, lo + 1, hi)
  }

  /** The digests of the children of internal node p. */
  function ChildDigests(H: Hasher, msgs: seq<seq<Byte>>, m: nat, p: nat): (s: seq<Byte>)
    requires |msgs| >= 1 && m >= 2 && p < FirstLeaf(|msgs|, m)
    ensures |s| == (LastChild(|msgs|, m, p) + 1 - FirstChild(p, m)) * 32
    ensures NodeHash(H, msgs, m, p) == H(s)
  {
    InternalNodeHasTwoChildren(|msgs|, m, p);
    Digests(H, msgs, m, FirstChild(p, m), LastChild(|msgs|, m, p) + 1)
  }

  /** The sibling groups from node j up to the children of the root. */
  function Proof(H: Hasher, msgs: seq<seq<Byte>>, m: nat, j: nat): seq<Byte>
    requires |msgs| >= 1 && m >= 2 && j <= LastLeaf(|msgs|, m)
  {
    if j == 0 then []
    else
      ParentIsInternal(|msgs|, m, j);
      ChildDigests(H, msgs, m, Parent(j, m)) + Proof(H, msgs, m, Parent(j, m))
  }

  /** How many digests that is, which depends on the shape of the tree alone. */
  function PathDigests(n: nat, m: nat, j: nat): nat
    requires n >= 1 && m >= 2 && j <= LastLeaf(n, m)
  {
    if j == 0 then 0
    else
      ParentIsInternal(n, m, j);
      LastChild(n, m, Parent(j, m)) + 1 - FirstChild(Parent(j, m), m) + PathDigests(n, m, Parent(j, m))
  }

  lemma {:induction false} ProofLength(H: Hasher, msgs: seq<seq<Byte>>, m: nat, j: nat)
    requires |msgs| >= 1 && m >= 2 && j <= LastLeaf(|msgs|, m)
    ensures |Proof(H, msgs, m, j)| == PathDigests(|msgs|, m, j) * 32
  {
    if j > 0 {
      ParentIsInternal(|msgs|, m, j);
      ProofLength(H, msgs, m, Parent(j, m));
    }
  }

  /** Slot k of a run of digests is that node's own digest. */
  lemma {:induction false} DigestsAt(H: Hasher, msgs: seq<seq<Byte>>, m: nat, lo: nat, hi: nat, k: nat)
    requires |msgs| >= 1 && m >= 2 && lo <= k < hi <= LastLeaf(|msgs|, m) + 1
    ensures Digests(H, msgs, m, lo, hi)[(k - lo) * 32..(k - lo + 1) * 32] == NodeHash(H, msgs, m, k)
    decreases hi - lo
  {
    var s := Digests(H, msgs, m, lo, hi);
    if k == lo {
      assert s[..32] == NodeHash(H, msgs, m, lo);
    } else {
      DigestsAt(H, msgs, m, lo + 1, hi, k);
      var rest := Digests(H, msgs, m, lo + 1, hi);
      assert s[32..] == rest;
      var a := (k - lo - 1) * 32;
      assert s[32..][a..a + 32] == s[32 + a..32 + a + 32];
    }
  }

  /** Slot k of a group of siblings is the digest of the parent's child k. */
  lemma ChildSlot(H: Hasher, msgs: seq<seq<Byte>>, m: nat, p: nat, k: nat)
    requires |msgs| >= 1 && m >= 2 && p < FirstLeaf(|msgs|, m) && FirstChild(p, m) + k <= LastChild(|msgs|, m, p)
    ensures (k + 1) * 32 <= |ChildDigests(H, msgs, m, p)| && FirstChild(p, m) + k <= LastLeaf(|msgs|, m)
    ensures ChildDigests(H, msgs, m, p)[k * 32..(k + 1) * 32] == NodeHash(H, msgs, m, FirstChild(p, m) + k)
  {
    InternalNodeHasTwoChildren(|msgs|, m, p);
    DigestsAt(H, msgs, m, FirstChild(p, m), LastChild(|msgs|, m, p) + 1, FirstChild(p, m) + k);
  }

  /** A byte buffer that holds node k's digest in slot k for lo <= k < hi holds that run. */
  lemma {:induction false} SlotsAreDigests(H: Hasher, msgs: seq<seq<Byte>>, m: nat, t: seq<Byte>, lo: nat, hi: nat)
    requires |msgs| >= 1 && m >= 2 && lo <= hi <= LastLeaf(|msgs|, m) + 1
    requires hi * 32 <= |t|
    requires forall k :: lo <= k < hi ==> Slot(t, k) == NodeHash(H, msgs, m, k)
    ensures t[lo * 32..hi * 32] == Digests(H, msgs, m, lo, hi)
    decreases hi - lo
  {
    if lo < hi {
      SlotsAreDigests(H, msgs, m, t, lo + 1, hi);
      FirstSlot(t, lo, hi);
      assert Digests(H, msgs, m, lo, hi) == NodeHash(H, msgs, m, lo) + Digests(H, msgs, m, lo + 1, hi);
    }
  }

  lemma FirstSlot(t: seq<Byte>, lo: nat, hi: nat)
    requires lo < hi && hi * 32 <= |t|
    ensures t[lo * 32..hi * 32] == Slot(t, lo) + t[(lo + 1) * 32..hi * 32]
  {}

  /** The bytes of node k in a buffer of digests. */
  function Slot(t: seq<Byte>, k: nat): (s: seq<Byte>)
    requires (k + 1) * 32 <= |t|
  {
    t[k * 32..(k + 1) * 32]
  }
}
