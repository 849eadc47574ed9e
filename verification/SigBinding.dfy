/**
 What an accepted signature proves about its message (src/lib/batched_sigs.h). The verifier takes
 the index from the signature and does not compare it with the batch size, so the walk may start
 anywhere: at a leaf, at an internal node, in the part of the last group of siblings that is cut
 off, or beyond all groups.
 */
module SigBinding {
  import opened Bytes
  import opened MerkleTree
  import opened BatchedSigs
  import opened SigVerifier

  /** For a start past the last leaf L, at L + 1 + k in the last group of siblings, the verifier compares with
      slot k behind the group: with this node, one of the siblings of the group's parent. */
  function SlotBehind(n: nat, m: nat, k: nat): nat
    requires n >= 1 && m >= 2 && FirstLeaf(n, m) > 1
  {
    FirstChild(Parent(FirstLeaf(n, m) - 1, m), m) + k
  }

  /** The start is in the last group of siblings, but past the last leaf. */
  predicate CutOff(n: nat, m: nat, j: int)
    requires n >= 1 && m >= 2
  {
    FirstLeaf(n, m) > 0 && LastLeaf(n, m) < j < FirstChild(FirstLeaf(n, m), m)
  }

  /** Indices that let a message in that was never signed: the walk starts before the leaves, or cut
      off with nothing behind the group or with an internal node there. */
  predicate Loose(n: nat, m: nat, i: nat)
    requires n >= 1 && m >= 2
  {
    var j, first := StartNode(n, m, i), FirstLeaf(n, m);
    n >= 2 && (j < first || (CutOff(n, m, j) && (first == 1 || SlotBehind(n, m, j - LastLeaf(n, m) - 1) < first)))
  }

  /** The two different strings with one digest that an accepted message which was not signed shows. */
  ghost predicate NamedCollision(H: Hasher, msgs: seq<seq<Byte>>, m: nat, rest: seq<Byte>, i: nat, message: seq<Byte>)
    requires |msgs| >= 1 && m >= 2
  {
    var n := |msgs|;
    var j, first := StartNode(n, m, i), FirstLeaf(n, m);
    if j < first then n == 1 && Collision(H, message, msgs[0])
    else if j <= LastLeaf(n, m) then
      Collision(H, message, msgs[j - first]) || CollisionAbove(H, msgs, m, rest, j)
    else if CutOff(n, m, j) then
      || CollisionAbove(H, msgs, m, Behind(H, msgs, m, rest), first - 1)
      || (first > 1 && var v := SlotBehind(n, m, j - LastLeaf(n, m) - 1);
          first <= v <= LastLeaf(n, m) && Collision(H, message, msgs[v - first]))
    else
      Collision(H, [], msgs[0]) || CollisionAbove(H, msgs, m, rest, first)
  }

  // ---------------------------------------------------------------- where a walk can go

  lemma {:induction false} FirstChildGrows(p: nat, q: nat, m: nat)
    requires m >= 2 && p < q
    ensures FirstChild(p, m) + m <= FirstChild(q, m)
  {
    if p + 1 < q {
      FirstChildGrows(p, q - 1, m);
    }
  }

  /** The last group of siblings belongs to the node before the first leaf and holds the last leaf. */
  lemma LastGroup(n: nat, m: nat)
    requires n >= 1 && m >= 2
    ensures LastLeaf(n, m) < FirstChild(FirstLeaf(n, m), m)
    ensures FirstLeaf(n, m) > 0 ==> FirstChild(FirstLeaf(n, m) - 1, m) < LastLeaf(n, m)
  {
    var first := FirstLeaf(n, m);
    FirstLeafBounds(n, m);
    FirstChildIs(first, m);
    assert first * m == first * (m - 1) + first;
    if first > 0 {
      InternalNodeHasTwoChildren(n, m, first - 1);
    }
  }

  lemma ParentBetween(p: nat, m: nat, j: nat)
    requires m >= 2 && FirstChild(p, m) <= j < FirstChild(p, m) + m
    ensures Parent(j, m) == p
  {
    SourceIndices(j, m);
    if Parent(j, m) < p {
      FirstChildGrows(Parent(j, m), p, m);
    } else if p < Parent(j, m) {
      FirstChildGrows(p, Parent(j, m), m);
    }
  }

  /** A walk that ends at the batch's root read the batch's own group above j, or a collision. */
  lemma OwnGroup(H: Hasher, msgs: seq<seq<Byte>>, m: nat, rest: seq<Byte>, j: nat, hash: Digest, rootSig: seq<Byte>)
    requires |msgs| >= 1 && m >= 2 && FitsInt(|msgs|, m) && 1 <= j <= LastLeaf(|msgs|, m)
    requires Walk(H, rest, m, LastLeaf(|msgs|, m), j, hash, rootSig) == Root(NodeHash(H, msgs, m, 0), rootSig)
    ensures Parent(j, m) < FirstLeaf(|msgs|, m)
    ensures var own := ChildDigests(H, msgs, m, Parent(j, m));
            |own| <= |rest| && (rest[..|own|] == own || CollisionAbove(H, msgs, m, rest, j))
  {
    LevelRead(H, msgs, m, rest, j, hash);
    var p := Parent(j, m);
    var own := ChildDigests(H, msgs, m, p);
    WalkBinds(H, msgs, m, rest[|own|..], p, H(rest[..|own|]), rootSig);
  }

  /** Beyond all groups, a walk can only go on to the first leaf, and with the digest of nothing. */
  lemma PastAllGroups(H: Hasher, msgs: seq<seq<Byte>>, m: nat, rest: seq<Byte>, j: nat, hash: Digest,
                      rootSig: seq<Byte>)
    requires |msgs| >= 1 && m >= 2 && FitsInt(|msgs|, m) && j >= FirstChild(FirstLeaf(|msgs|, m), m)
    requires Walk(H, rest, m, LastLeaf(|msgs|, m), j, hash, rootSig) == Root(NodeHash(H, msgs, m, 0), rootSig)
    ensures || H([]) == NodeHash(H, msgs, m, FirstLeaf(|msgs|, m))
            || CollisionAbove(H, msgs, m, rest, FirstLeaf(|msgs|, m))
  {
    var n := |msgs|;
    var first, p := FirstLeaf(n, m), Parent(j, m);
    LastGroup(n, m);
    SourceIndices(j, m);
    if p < first {
      FirstChildGrows(p, first, m);
    } else if first < p {
      FirstChildGrows(first, p, m);
    }
    assert ReadLevel(rest, m, LastLeaf(n, m), j, hash) == Climb(0) && p == first;
    assert rest[0..] == rest && rest[..0] == [];
    WalkBinds(H, msgs, m, rest, first, H([]), rootSig);
  }

  lemma CutOffPlace(n: nat, m: nat, j: nat)
    requires n >= 1 && m >= 2 && CutOff(n, m, j)
    ensures Parent(j, m) == FirstLeaf(n, m) - 1
    ensures var l := FirstChild(FirstLeaf(n, m) - 1, m);
            l < LastLeaf(n, m) < j < l + m && LastChild(n, m, FirstLeaf(n, m) - 1) == LastLeaf(n, m)
  {
    LastGroup(n, m);
    ParentBetween(FirstLeaf(n, m) - 1, m, j);
  }

  /** In the cut-off part of the last group the verifier passes the group, whatever the index. */
  lemma CutOffLevel(n: nat, m: nat, j: nat, rest: seq<Byte>, hash: Digest)
    requires n >= 1 && m >= 2 && FitsInt(n, m) && CutOff(n, m, j)
    ensures var l, last := FirstChild(FirstLeaf(n, m) - 1, m), LastLeaf(n, m);
            && l < last < j
            && ReadLevel(rest, m, last, j, hash) ==
                 if |rest| < (j - l + 1) * 32 then Stop(OutOfRange)
                 else if rest[(j - l) * 32..(j - l) * 32 + 32] != hash then Stop(Rejected)
                 else Climb((last - l + 1) * 32)
  {
    CutOffPlace(n, m, j);
    CutSibling(FirstChild(FirstLeaf(n, m) - 1, m), m, LastLeaf(n, m));
  }

  lemma CutSibling(l: nat, m: nat, last: nat)
    requires m >= 2 && l <= last < l + m - 1 && last + m < 0x7fff_ffff
    ensures RightmostSibling(l, m, last) == last
  {}

  /** The groups of other internal nodes are full. */
  lemma FullGroup(H: Hasher, msgs: seq<seq<Byte>>, m: nat, k: nat)
    requires |msgs| >= 1 && m >= 2 && FirstLeaf(|msgs|, m) > 1 && k < m
    ensures var p := Parent(FirstLeaf(|msgs|, m) - 1, m);
            && p < FirstLeaf(|msgs|, m) - 1 && FirstChild(p, m) + k <= LastLeaf(|msgs|, m)
            && |ChildDigests(H, msgs, m, p)| == m * 32
            && ChildDigests(H, msgs, m, p)[k * 32..(k + 1) * 32] == NodeHash(H, msgs, m, FirstChild(p, m) + k)
  {
    var n, first := |msgs|, FirstLeaf(|msgs|, m);
    var p := Parent(first - 1, m);
    SourceIndices(first - 1, m);
    FirstChildGrows(p, first - 1, m);
    LastGroup(n, m);
    ChildSlot(H, msgs, m, p, k);
  }

  /** The comparison in the cut-off part was with a slot behind the group, and the walk goes on. */
  ghost predicate ClimbedCutOff(H: Hasher, msgs: seq<seq<Byte>>, m: nat, rest: seq<Byte>, k: nat, hash: Digest,
                                rootSig: seq<Byte>)
    requires |msgs| >= 1 && m >= 2 && FirstLeaf(|msgs|, m) > 0
  {
    var own := ChildDigests(H, msgs, m, FirstLeaf(|msgs|, m) - 1);
    && |own| + (k + 1) * 32 <= |rest| && hash == rest[|own|..][k * 32..(k + 1) * 32]
    && Walk(H, rest[|own|..], m, LastLeaf(|msgs|, m), FirstLeaf(|msgs|, m) - 1, H(rest[..|own|]), rootSig)
       == Root(NodeHash(H, msgs, m, 0), rootSig)
  }

  lemma CutOffClimbs(H: Hasher, msgs: seq<seq<Byte>>, m: nat, rest: seq<Byte>, j: nat, hash: Digest,
                     rootSig: seq<Byte>)
    requires |msgs| >= 1 && m >= 2 && FitsInt(|msgs|, m) && CutOff(|msgs|, m, j)
    ensures Walk(H, rest, m, LastLeaf(|msgs|, m), j, hash, rootSig) == Root(NodeHash(H, msgs, m, 0), rootSig) <==>
              ClimbedCutOff(H, msgs, m, rest, j - LastLeaf(|msgs|, m) - 1, hash, rootSig)
  {
    var own := ChildDigests(H, msgs, m, FirstLeaf(|msgs|, m) - 1);
    CutOffPlace(|msgs|, m, j);
    CutOffSlot(|msgs|, m, j, rest, hash, |own|);
    CutOffGoesOn(H, rest, |own|, m, LastLeaf(|msgs|, m), j, hash, rootSig);
  }

  lemma CutOffSlot(n: nat, m: nat, j: nat, rest: seq<Byte>, hash: Digest, size: nat)
    requires n >= 1 && m >= 2 && FitsInt(n, m) && CutOff(n, m, j)
    requires size == (LastLeaf(n, m) - FirstChild(FirstLeaf(n, m) - 1, m) + 1) * 32
    ensures var k := j - LastLeaf(n, m) - 1;
            ReadLevel(rest, m, LastLeaf(n, m), j, hash) ==
              if |rest| < size + (k + 1) * 32 then Stop(OutOfRange)
              else if rest[size..][k * 32..(k + 1) * 32] != hash then Stop(Rejected)
              else Climb(size)
  {
    CutOffLevel(n, m, j, rest, hash);
    SlotFrom(rest, size, j - LastLeaf(n, m) - 1);
  }

  lemma CutOffGoesOn(H: Hasher, rest: seq<Byte>, size: nat, m: nat, last: nat, j: nat, hash: Digest, rootSig: seq<Byte>)
    requires m >= 2 && j >= 1
    ensures var level := ReadLevel(rest, m, last, j, hash);
            var now := Walk(H, rest, m, last, j, hash, rootSig);
            && (level.Stop? ==> now == level.verdict && !now.Root?)
            && (level == Climb(size) ==>
                  now == Walk(H, rest[size..], m, last, Parent(j, m), H(rest[..size]), rootSig))
  {}

  lemma SlotFrom(rest: seq<Byte>, from: nat, k: nat)
    ensures from + (k + 1) * 32 <= |rest| ==>
              rest[from..][k * 32..(k + 1) * 32] == rest[from + k * 32..from + k * 32 + 32]
  {}

  lemma SlotIsNode(H: Hasher, msgs: seq<seq<Byte>>, m: nat, above: seq<Byte>, k: nat)
    requires |msgs| >= 1 && m >= 2 && FirstLeaf(|msgs|, m) > 1 && k < m && (k + 1) * 32 <= |above|
    requires Parent(FirstLeaf(|msgs|, m) - 1, m) < FirstLeaf(|msgs|, m)
    requires var group := ChildDigests(H, msgs, m, Parent(FirstLeaf(|msgs|, m) - 1, m));
             |group| <= |above| && above[..|group|] == group
    ensures var v := SlotBehind(|msgs|, m, k);
            v <= LastLeaf(|msgs|, m) && above[k * 32..(k + 1) * 32] == NodeHash(H, msgs, m, v)
  {
    FullGroup(H, msgs, m, k);
    var group := ChildDigests(H, msgs, m, Parent(FirstLeaf(|msgs|, m) - 1, m));
    assert above[..|group|][k * 32..(k + 1) * 32] == above[k * 32..(k + 1) * 32];
  }

  lemma BehindGroup(H: Hasher, msgs: seq<seq<Byte>>, m: nat, above: seq<Byte>, k: nat, digest: Digest,
                    rootSig: seq<Byte>)
    requires |msgs| >= 1 && m >= 2 && FitsInt(|msgs|, m) && FirstLeaf(|msgs|, m) > 1
    requires k < m && (k + 1) * 32 <= |above|
    requires Walk(H, above, m, LastLeaf(|msgs|, m), FirstLeaf(|msgs|, m) - 1, digest, rootSig)
          == Root(NodeHash(H, msgs, m, 0), rootSig)
    ensures var v := SlotBehind(|msgs|, m, k);
            || CollisionAbove(H, msgs, m, above, FirstLeaf(|msgs|, m) - 1)
            || (v <= LastLeaf(|msgs|, m) && above[k * 32..(k + 1) * 32] == NodeHash(H, msgs, m, v))
  {
    OwnGroup(H, msgs, m, above, FirstLeaf(|msgs|, m) - 1, digest, rootSig);
    if !CollisionAbove(H, msgs, m, above, FirstLeaf(|msgs|, m) - 1) {
      SlotIsNode(H, msgs, m, above, k);
    }
  }

  /** The bytes behind the last group of siblings. */
  function Behind(H: Hasher, msgs: seq<seq<Byte>>, m: nat, rest: seq<Byte>): seq<Byte>
    requires |msgs| >= 1 && m >= 2 && FirstLeaf(|msgs|, m) > 0
  {
    var size := |ChildDigests(H, msgs, m, FirstLeaf(|msgs|, m) - 1)|;
    if size <= |rest| then rest[size..] else []
  }

  /** From the cut-off part, a walk that ends at the batch's root started at the digest of the node
      behind the group, or it shows a collision. */
  lemma CutOffReads(H: Hasher, msgs: seq<seq<Byte>>, m: nat, rest: seq<Byte>, k: nat, hash: Digest,
                    rootSig: seq<Byte>)
    requires |msgs| >= 1 && m >= 2 && FitsInt(|msgs|, m) && FirstLeaf(|msgs|, m) > 1 && k < m
    requires ClimbedCutOff(H, msgs, m, rest, k, hash, rootSig)
    ensures || CollisionAbove(H, msgs, m, Behind(H, msgs, m, rest), FirstLeaf(|msgs|, m) - 1)
            || (SlotBehind(|msgs|, m, k) <= LastLeaf(|msgs|, m) &&
                hash == NodeHash(H, msgs, m, SlotBehind(|msgs|, m, k)))
  {
    var own := ChildDigests(H, msgs, m, FirstLeaf(|msgs|, m) - 1);
    BehindGroup(H, msgs, m, rest[|own|..], k, H(rest[..|own|]), rootSig);
  }

  // ---------------------------------------------------------------- binding

  /** The verifier accepts the message under a signature that names this size and index, and ends at the
      batch's root. */
  ghost predicate AcceptedUnder(sch: Scheme, msgs: seq<seq<Byte>>, count: nat, i: nat, signature: seq<Byte>,
                                message: seq<Byte>)
    requires sch.m >= 2 && |msgs| >= 1
  {
    && |signature| >= sch.sigSize + 8
    && ClaimedCount(sch.sigSize, signature) == count && ClaimedIndex(sch.sigSize, signature) == i
    && Verify(sch, signature, message) == Root(NodeHash(sch.H, msgs, sch.m, 0), signature[..sch.sigSize])
  }

  /** The same with the batch's own size. */
  ghost predicate AcceptedAs(sch: Scheme, msgs: seq<seq<Byte>>, i: nat, signature: seq<Byte>, message: seq<Byte>)
    requires sch.m >= 2 && |msgs| >= 1
  {
    AcceptedUnder(sch, msgs, |msgs|, i, signature, message)
  }

  function PathOf(sch: Scheme, signature: seq<Byte>): seq<Byte>
    requires |signature| >= sch.sigSize + 8
  {
    signature[sch.sigSize + 8..]
  }

  lemma BindsAtLeaf(H: Hasher, msgs: seq<seq<Byte>>, m: nat, rest: seq<Byte>, j: nat, message: seq<Byte>,
                    rootSig: seq<Byte>)
    requires |msgs| >= 1 && m >= 2 && FitsInt(|msgs|, m) && FirstLeaf(|msgs|, m) <= j <= LastLeaf(|msgs|, m)
    requires Walk(H, rest, m, LastLeaf(|msgs|, m), j, H(message), rootSig) == Root(NodeHash(H, msgs, m, 0), rootSig)
    ensures var own := msgs[j - FirstLeaf(|msgs|, m)];
            message == own || Collision(H, message, own) || CollisionAbove(H, msgs, m, rest, j)
  {
    LeafDigest(H, msgs, m, j - FirstLeaf(|msgs|, m));
    WalkBinds(H, msgs, m, rest, j, H(message), rootSig);
  }

  lemma BindsInCutOff(H: Hasher, msgs: seq<seq<Byte>>, m: nat, rest: seq<Byte>, k: nat, message: seq<Byte>,
                      rootSig: seq<Byte>)
    requires |msgs| >= 1 && m >= 2 && FitsInt(|msgs|, m) && FirstLeaf(|msgs|, m) > 1 && k < m
    requires SlotBehind(|msgs|, m, k) >= FirstLeaf(|msgs|, m)
    requires ClimbedCutOff(H, msgs, m, rest, k, H(message), rootSig)
    ensures var first, v := FirstLeaf(|msgs|, m), SlotBehind(|msgs|, m, k);
            || CollisionAbove(H, msgs, m, Behind(H, msgs, m, rest), first - 1)
            || (v <= LastLeaf(|msgs|, m) && (message == msgs[v - first] || Collision(H, message, msgs[v - first])))
  {
    CutOffReads(H, msgs, m, rest, k, H(message), rootSig);
    var v := SlotBehind(|msgs|, m, k);
    if v <= LastLeaf(|msgs|, m) {
      LeafDigest(H, msgs, m, v - FirstLeaf(|msgs|, m));
    }
  }

  lemma BindsPastLeaves(H: Hasher, msgs: seq<seq<Byte>>, m: nat, rest: seq<Byte>, i: nat, message: seq<Byte>,
                        rootSig: seq<Byte>)
    requires |msgs| >= 1 && m >= 2 && FitsInt(|msgs|, m) && [] !in msgs && !Loose(|msgs|, m, i)
    requires StartNode(|msgs|, m, i) > LastLeaf(|msgs|, m)
    requires Walk(H, rest, m, LastLeaf(|msgs|, m), StartNode(|msgs|, m, i), H(message), rootSig)
          == Root(NodeHash(H, msgs, m, 0), rootSig)
    ensures message in msgs || NamedCollision(H, msgs, m, rest, i, message)
  {
    var n, j := |msgs|, StartNode(|msgs|, m, i);
    LastGroup(n, m);
    if CutOff(n, m, j) {
      CutOffClimbs(H, msgs, m, rest, j, H(message), rootSig);
      NamedInCutOff(H, msgs, m, rest, i, message, rootSig);
    } else {
      PastAllGroups(H, msgs, m, rest, j, H(message), rootSig);
      NamedBeyond(H, msgs, m, rest, i, message);
    }
  }

  lemma NamedInCutOff(H: Hasher, msgs: seq<seq<Byte>>, m: nat, rest: seq<Byte>, i: nat, message: seq<Byte>,
                      rootSig: seq<Byte>)
    requires |msgs| >= 1 && m >= 2 && FitsInt(|msgs|, m) && !Loose(|msgs|, m, i)
    requires CutOff(|msgs|, m, StartNode(|msgs|, m, i))
    requires ClimbedCutOff(H, msgs, m, rest, StartNode(|msgs|, m, i) - LastLeaf(|msgs|, m) - 1, H(message), rootSig)
    ensures message in msgs || NamedCollision(H, msgs, m, rest, i, message)
  {
    var n := |msgs|;
    LastGroup(n, m);
    BindsInCutOff(H, msgs, m, rest, StartNode(n, m, i) - LastLeaf(n, m) - 1, message, rootSig);
  }

  lemma NamedBeyond(H: Hasher, msgs: seq<seq<Byte>>, m: nat, rest: seq<Byte>, i: nat, message: seq<Byte>)
    requires |msgs| >= 1 && m >= 2 && [] !in msgs
    requires StartNode(|msgs|, m, i) > LastLeaf(|msgs|, m) && !CutOff(|msgs|, m, StartNode(|msgs|, m, i))
    requires || H([]) == NodeHash(H, msgs, m, FirstLeaf(|msgs|, m))
             || CollisionAbove(H, msgs, m, rest, FirstLeaf(|msgs|, m))
    ensures NamedCollision(H, msgs, m, rest, i, message)
  {
    LeafDigest(H, msgs, m, 0);
  }

  /** What the verifier accepts under the batch's own size is a message of the batch, and with an index
      i below it the message i, or it shows a collision -- except at loose indices. */
  lemma AcceptedMessageIsSigned(sch: Scheme, msgs: seq<seq<Byte>>, i: nat, signature: seq<Byte>, message: seq<Byte>)
    requires sch.m >= 2 && |msgs| >= 1 && FitsInt(|msgs|, sch.m) && [] !in msgs && i < U32_RANGE
    requires AcceptedAs(sch, msgs, i, signature, message)
    ensures i < |msgs| ==> message == msgs[i] || NamedCollision(sch.H, msgs, sch.m, PathOf(sch, signature), i, message)
    ensures !Loose(|msgs|, sch.m, i) ==>
              message in msgs || NamedCollision(sch.H, msgs, sch.m, PathOf(sch, signature), i, message)
  {
    var n, H, rest, rootSig := |msgs|, sch.H, PathOf(sch, signature), signature[..sch.sigSize];
    var j := StartNode(n, sch.m, i);
    LeafIndex(n, sch.m, i);
    OwnStart(sch, n, signature, message);
    if FirstLeaf(n, sch.m) <= j <= LastLeaf(n, sch.m) {
      BindsAtLeaf(H, msgs, sch.m, rest, j, message, rootSig);
    } else if j > LastLeaf(n, sch.m) {
      if !Loose(n, sch.m, i) {
        BindsPastLeaves(H, msgs, sch.m, rest, i, message, rootSig);
      }
    } else {
      LeafDigest(H, msgs, sch.m, 0);
    }
  }

  // ---------------------------------------------------------------- loose indices

  /** A path that walks to the root makes a signature that is accepted. */
  lemma AcceptedWith(sch: Scheme, msgs: seq<seq<Byte>>, i: nat, rest: seq<Byte>, message: seq<Byte>)
    returns (signature: seq<Byte>)
    requires sch.Valid() && |msgs| >= 1 && FitsInt(|msgs|, sch.m) && i < U32_RANGE && message != []
    requires var root := NodeHash(sch.H, msgs, sch.m, 0);
             Walk(sch.H, rest, sch.m, LastLeaf(|msgs|, sch.m), StartNode(|msgs|, sch.m, i), sch.H(message), sch.sign(root))
             == Root(root, sch.sign(root))
    ensures AcceptedAs(sch, msgs, i, signature, message) && PathOf(sch, signature) == rest
    ensures signature[..sch.sigSize] == sch.sign(NodeHash(sch.H, msgs, sch.m, 0))
  {
    var rootSig := sch.sign(NodeHash(sch.H, msgs, sch.m, 0));
    signature := rootSig + PackInt(|msgs|) + PackInt(i) + rest;
    OwnSizes(|msgs|, sch.m);
    SignatureFields(sch.sigSize, |msgs|, i, rootSig, rest);
    OwnStart(sch, |msgs|, signature, message);
  }

  /** A start before the leaves is an internal node, whose digests are hashed like a message. */
  lemma InnerNodeWalks(H: Hasher, msgs: seq<seq<Byte>>, m: nat, j: int, rootSig: seq<Byte>)
    returns (rest: seq<Byte>, message: seq<Byte>)
    requires |msgs| >= 2 && m >= 2 && FitsInt(|msgs|, m) && j < FirstLeaf(|msgs|, m) && FirstLeaf(|msgs|, m) > 0
    ensures |message| >= 64
    ensures Walk(H, rest, m, LastLeaf(|msgs|, m), j, H(message), rootSig) == Root(NodeHash(H, msgs, m, 0), rootSig)
  {
    var p := if j < 1 then 0 else j;
    InternalNodeHasTwoChildren(|msgs|, m, p);
    message := ChildDigests(H, msgs, m, p);
    rest := if j < 1 then [] else Proof(H, msgs, m, p);
    WalkCompletes(H, msgs, m, p, rootSig);
  }

  /** With nothing behind the only group, the verifier compares with bytes that nothing signs. */
  lemma NothingBehindWalks(H: Hasher, msgs: seq<seq<Byte>>, m: nat, j: nat, message: seq<Byte>, rootSig: seq<Byte>)
    returns (rest: seq<Byte>)
    requires |msgs| >= 1 && m >= 2 && FitsInt(|msgs|, m) && CutOff(|msgs|, m, j) && FirstLeaf(|msgs|, m) == 1
    ensures Walk(H, rest, m, LastLeaf(|msgs|, m), j, H(message), rootSig) == Root(NodeHash(H, msgs, m, 0), rootSig)
  {
    var own, k := ChildDigests(H, msgs, m, 0), j - LastLeaf(|msgs|, m) - 1;
    var free := own + seq(k * 32, _ => 0);
    rest := free + H(message);
    CutOffLevel(|msgs|, m, j, rest, H(message));
    assert rest[|free|..|free| + 32] == H(message);
    assert rest[..|own|] == own;
  }

  /** With an internal node behind the last group, its digests are accepted like a message. */
  lemma SlotBehindWalks(H: Hasher, msgs: seq<seq<Byte>>, m: nat, j: nat, rootSig: seq<Byte>)
    returns (rest: seq<Byte>, message: seq<Byte>)
    requires |msgs| >= 2 && m >= 2 && FitsInt(|msgs|, m) && CutOff(|msgs|, m, j) && FirstLeaf(|msgs|, m) > 1
    requires SlotBehind(|msgs|, m, j - LastLeaf(|msgs|, m) - 1) < FirstLeaf(|msgs|, m)
    ensures |message| >= 64 && Behind(H, msgs, m, rest) == Proof(H, msgs, m, FirstLeaf(|msgs|, m) - 1)
    ensures Walk(H, rest, m, LastLeaf(|msgs|, m), j, H(message), rootSig) == Root(NodeHash(H, msgs, m, 0), rootSig)
  {
    var first, k := FirstLeaf(|msgs|, m), j - LastLeaf(|msgs|, m) - 1;
    LastGroup(|msgs|, m);
    rest := SlotBehindClimbs(H, msgs, m, k, rootSig);
    InternalNodeHasTwoChildren(|msgs|, m, SlotBehind(|msgs|, m, k));
    message := ChildDigests(H, msgs, m, SlotBehind(|msgs|, m, k));
    CutOffClimbs(H, msgs, m, rest, j, H(message), rootSig);
  }

  lemma SlotBehindClimbs(H: Hasher, msgs: seq<seq<Byte>>, m: nat, k: nat, rootSig: seq<Byte>)
    returns (rest: seq<Byte>)
    requires |msgs| >= 2 && m >= 2 && FitsInt(|msgs|, m) && FirstLeaf(|msgs|, m) > 1 && k < m
    ensures Behind(H, msgs, m, rest) == Proof(H, msgs, m, FirstLeaf(|msgs|, m) - 1)
    ensures SlotBehind(|msgs|, m, k) <= LastLeaf(|msgs|, m)
    ensures ClimbedCutOff(H, msgs, m, rest, k, NodeHash(H, msgs, m, SlotBehind(|msgs|, m, k)), rootSig)
  {
    var first := FirstLeaf(|msgs|, m);
    var own, above := ChildDigests(H, msgs, m, first - 1), Proof(H, msgs, m, first - 1);
    rest := own + above;
    assert rest[..|own|] == own && rest[|own|..] == above;
    SlotOfProof(H, msgs, m, k);
    WalkCompletes(H, msgs, m, first - 1, rootSig);
  }

  lemma SlotOfProof(H: Hasher, msgs: seq<seq<Byte>>, m: nat, k: nat)
    requires |msgs| >= 1 && m >= 2 && FirstLeaf(|msgs|, m) > 1 && k < m
    ensures SlotBehind(|msgs|, m, k) <= LastLeaf(|msgs|, m)
    ensures var above := Proof(H, msgs, m, FirstLeaf(|msgs|, m) - 1);
            (k + 1) * 32 <= |above| && above[k * 32..(k + 1) * 32] == NodeHash(H, msgs, m, SlotBehind(|msgs|, m, k))
  {
    FullGroup(H, msgs, m, k);
    var above := Proof(H, msgs, m, FirstLeaf(|msgs|, m) - 1);
    var group := ChildDigests(H, msgs, m, Parent(FirstLeaf(|msgs|, m) - 1, m));
    assert above[..|group|] == group;
    assert above[..|group|][k * 32..(k + 1) * 32] == above[k * 32..(k + 1) * 32];
  }

  /** A path the signer made shows no collision. */
  lemma {:induction false} NoCollisionInProof(H: Hasher, msgs: seq<seq<Byte>>, m: nat, j: nat)
    requires |msgs| >= 1 && m >= 2 && j <= LastLeaf(|msgs|, m)
    ensures !CollisionAbove(H, msgs, m, Proof(H, msgs, m, j), j)
  {
    if j > 0 {
      ParentIsInternal(|msgs|, m, j);
      var own := ChildDigests(H, msgs, m, Parent(j, m));
      assert Proof(H, msgs, m, j)[..|own|] == own;
      assert Proof(H, msgs, m, j)[|own|..] == Proof(H, msgs, m, Parent(j, m));
      NoCollisionInProof(H, msgs, m, Parent(j, m));
    }
  }

  lemma LooseBehind(H: Hasher, msgs: seq<seq<Byte>>, m: nat, i: nat, rootSig: seq<Byte>)
    returns (rest: seq<Byte>, message: seq<Byte>)
    requires |msgs| >= 1 && m >= 2 && FitsInt(|msgs|, m) && Loose(|msgs|, m, i)
    requires StartNode(|msgs|, m, i) >= FirstLeaf(|msgs|, m) > 1
    ensures |message| >= 64 && !NamedCollision(H, msgs, m, rest, i, message)
    ensures Walk(H, rest, m, LastLeaf(|msgs|, m), StartNode(|msgs|, m, i), H(message), rootSig)
         == Root(NodeHash(H, msgs, m, 0), rootSig)
  {
    rest, message := SlotBehindWalks(H, msgs, m, StartNode(|msgs|, m, i), rootSig);
    NoCollisionInProof(H, msgs, m, FirstLeaf(|msgs|, m) - 1);
  }

  lemma LooseCutOff(H: Hasher, msgs: seq<seq<Byte>>, m: nat, i: nat, rootSig: seq<Byte>)
    returns (rest: seq<Byte>, message: seq<Byte>)
    requires |msgs| >= 1 && m >= 2 && FitsInt(|msgs|, m) && Loose(|msgs|, m, i)
    requires StartNode(|msgs|, m, i) >= FirstLeaf(|msgs|, m)
    ensures |message| >= 64 && !NamedCollision(H, msgs, m, rest, i, message)
    ensures Walk(H, rest, m, LastLeaf(|msgs|, m), StartNode(|msgs|, m, i), H(message), rootSig)
         == Root(NodeHash(H, msgs, m, 0), rootSig)
  {
    if FirstLeaf(|msgs|, m) == 1 {
      message := seq(64, _ => 0);
      rest := NothingBehindWalks(H, msgs, m, StartNode(|msgs|, m, i), message, rootSig);
    } else {
      rest, message := LooseBehind(H, msgs, m, i, rootSig);
    }
  }

  /** At a loose index something that was not signed is accepted: for every batch whose messages are
      shorter than two digests, and without any collision. */
  lemma LooseAccepts(sch: Scheme, msgs: seq<seq<Byte>>, i: nat) returns (signature: seq<Byte>, message: seq<Byte>)
    requires sch.Valid() && |msgs| >= 1 && FitsInt(|msgs|, sch.m) && i < U32_RANGE && Loose(|msgs|, sch.m, i)
    requires forall x <- msgs :: |x| < 64
    ensures AcceptedAs(sch, msgs, i, signature, message) && message !in msgs
    ensures !NamedCollision(sch.H, msgs, sch.m, PathOf(sch, signature), i, message)
    ensures signature[..sch.sigSize] == sch.sign(NodeHash(sch.H, msgs, sch.m, 0))
  {
    var rootSig := sch.sign(NodeHash(sch.H, msgs, sch.m, 0));
    var rest;
    if StartNode(|msgs|, sch.m, i) < FirstLeaf(|msgs|, sch.m) {
      FirstLeafBounds(|msgs|, sch.m);
      rest, message := InnerNodeWalks(sch.H, msgs, sch.m, StartNode(|msgs|, sch.m, i), rootSig);
    } else {
      rest, message := LooseCutOff(sch.H, msgs, sch.m, i, rootSig);
    }
    signature := AcceptedWith(sch, msgs, i, rest, message);
  }

  /** Index i binds in batches of n: whatever is accepted was signed, or a collision is shown. */
  ghost predicate Binding(sch: Scheme, n: nat, i: nat)
    requires n >= 1 && sch.m >= 2
  {
    forall msgs, signature, message :: |msgs| == n && [] !in msgs && AcceptedAs(sch, msgs, i, signature, message) ==>
      message in msgs || NamedCollision(sch.H, msgs, sch.m, PathOf(sch, signature), i, message)
  }

  /** Exactly the loose indices do not bind. */
  lemma BindsIffNotLoose(sch: Scheme, n: nat, i: nat)
    requires sch.Valid() && n >= 1 && FitsInt(n, sch.m) && i < U32_RANGE
    ensures Binding(sch, n, i) <==> !Loose(n, sch.m, i)
  {
    if Loose(n, sch.m, i) {
      var msgs := seq(n, _ => [0]);
      var signature, message := LooseAccepts(sch, msgs, i);
      assert [] !in msgs;
    } else {
      forall msgs, signature, message | |msgs| == n && [] !in msgs && AcceptedAs(sch, msgs, i, signature, message)
        ensures message in msgs || NamedCollision(sch.H, msgs, sch.m, PathOf(sch, signature), i, message)
      {
        AcceptedMessageIsSigned(sch, msgs, i, signature, message);
      }
    }
  }

  lemma StraightWalk(sch: Scheme, signature: seq<Byte>, message: seq<Byte>)
    requires sch.m >= 2 && message != [] && |signature| >= sch.sigSize + 8
    requires ToInt(ClaimedFirstLeaf(ClaimedCount(sch.sigSize, signature), sch.m)
                   + ClaimedIndex(sch.sigSize, signature)) < 1
    ensures Verify(sch, signature, message) == Root(sch.H(message), signature[..sch.sigSize])
  {}

  /** Whatever batch size a signature names: with an index that puts the start before node 1, the
      message is hashed straight to the root, and the root's own digests are accepted. */
  lemma StraightToRoot(sch: Scheme, msgs: seq<seq<Byte>>, count: nat, i: nat) returns (signature: seq<Byte>)
    requires sch.Valid() && |msgs| >= 2 && count < U32_RANGE && i < U32_RANGE
    requires ToInt(ClaimedFirstLeaf(count, sch.m) + i) < 1
    ensures FirstLeaf(|msgs|, sch.m) > 0 && |signature| >= sch.sigSize + 8
    ensures ClaimedCount(sch.sigSize, signature) == count && ClaimedIndex(sch.sigSize, signature) == i
    ensures var root := NodeHash(sch.H, msgs, sch.m, 0);
            Verify(sch, signature, ChildDigests(sch.H, msgs, sch.m, 0)) == Root(root, sch.sign(root))
  {
    var rootSig := sch.sign(NodeHash(sch.H, msgs, sch.m, 0));
    FirstLeafBounds(|msgs|, sch.m);
    InternalNodeHasTwoChildren(|msgs|, sch.m, 0);
    signature := rootSig + PackInt(count) + PackInt(i) + [];
    SignatureFields(sch.sigSize, count, i, rootSig, []);
    StraightWalk(sch, signature, ChildDigests(sch.H, msgs, sch.m, 0));
  }
}
