/**
 What a signature proves that names another batch size than the batch's own (src/lib/batched_sigs.h).
 The verifier believes the size: it decides where the walk starts and how long the groups of digests are.
 */
module SigSizes {
  import opened Bytes
  import opened MerkleTree
  import opened BatchedSigs
  import opened SigVerifier
  import opened SigBinding

  // ---------------------------------------------------------------- walks under a last leaf that is told

  /** The bytes the verifier takes for the children of p, when the last leaf is the one it was told. */
  function GroupSize(m: nat, maxLeaf: int, p: nat): int
    requires m >= 2
  {
    (RightmostSibling(FirstChild(p, m), m, maxLeaf) - FirstChild(p, m) + 1) * 32
  }

  /** Some group of digests read on the way up from j, with sizes by the last leaf told, differs from the
      batch's own group at the same place, yet hashes to the same digest. */
  ghost predicate CollisionUnder(H: Hasher, msgs: seq<seq<Byte>>, m: nat, maxLeaf: int, rest: seq<Byte>, j: nat)
    requires |msgs| >= 1 && m >= 2 && j <= LastLeaf(|msgs|, m)
  {
    j > 0 && (
      ParentIsInternal(|msgs|, m, j);
      var p := Parent(j, m);
      var size := GroupSize(m, maxLeaf, p);
      && 0 <= size <= |rest|
      && (Collision(H, rest[..size], ChildDigests(H, msgs, m, p)) || CollisionUnder(H, msgs, m, maxLeaf, rest[size..], p)))
  }

  /** The sizes of the groups above j are those of the batch's own tree. */
  ghost predicate SizesMatch(n: nat, m: nat, maxLeaf: int, j: nat)
    requires n >= 1 && m >= 2 && j <= LastLeaf(n, m)
  {
    j > 0 ==> (
      ParentIsInternal(n, m, j);
      RightmostSibling(FirstChild(Parent(j, m), m), m, maxLeaf) == LastChild(n, m, Parent(j, m))
      && SizesMatch(n, m, maxLeaf, Parent(j, m)))
  }

  /** A level that is passed has its digest at j's slot. */
  lemma PassedLevel(rest: seq<Byte>, m: nat, maxLeaf: int, j: nat, hash: Digest)
    requires m >= 2 && j >= 1 && ReadLevel(rest, m, maxLeaf, j, hash).Climb?
    ensures FirstChild(Parent(j, m), m) <= j && Parent(j, m) < j
    ensures var size, k := GroupSize(m, maxLeaf, Parent(j, m)), j - FirstChild(Parent(j, m), m);
            && 0 <= size <= |rest| && ReadLevel(rest, m, maxLeaf, j, hash) == Climb(size)
            && (k + 1) * 32 <= |rest| && rest[k * 32..(k + 1) * 32] == hash
  {
    SourceIndices(j, m);
  }

  /** If the group read is the batch's own, the digest compared is the batch's own. */
  lemma OwnGroupOwnDigest(H: Hasher, msgs: seq<seq<Byte>>, m: nat, rest: seq<Byte>, j: nat, size: nat, hash: Digest)
    requires |msgs| >= 1 && m >= 2 && 1 <= j <= LastLeaf(|msgs|, m) && size <= |rest|
    requires Parent(j, m) < FirstLeaf(|msgs|, m) && FirstChild(Parent(j, m), m) <= j
    requires rest[..size] == ChildDigests(H, msgs, m, Parent(j, m))
    requires var k := j - FirstChild(Parent(j, m), m); (k + 1) * 32 <= |rest| && rest[k * 32..(k + 1) * 32] == hash
    ensures hash == NodeHash(H, msgs, m, j)
  {
    var k := j - FirstChild(Parent(j, m), m);
    ParentIsInternal(|msgs|, m, j);
    ChildSlot(H, msgs, m, Parent(j, m), k);
    SlotOfHead(rest, size, k);
  }

  /** Whatever last leaf the verifier was told, a walk from a node of the batch's tree to its root started at
      that node's digest or ran through a collision; through one in any case if the sizes do not match. */
  lemma {:induction false} WalkBindsUnder(H: Hasher, msgs: seq<seq<Byte>>, m: nat, maxLeaf: int, rest: seq<Byte>,
                                          j: nat, hash: Digest, rootSig: seq<Byte>)
    requires |msgs| >= 1 && m >= 2 && j <= LastLeaf(|msgs|, m)
    requires Walk(H, rest, m, maxLeaf, j, hash, rootSig) == Root(NodeHash(H, msgs, m, 0), rootSig)
    ensures hash == NodeHash(H, msgs, m, j) || CollisionUnder(H, msgs, m, maxLeaf, rest, j)
    ensures SizesMatch(|msgs|, m, maxLeaf, j) || CollisionUnder(H, msgs, m, maxLeaf, rest, j)
  {
    if j > 0 {
      var p := Parent(j, m);
      var size := GroupSize(m, maxLeaf, p);
      ParentIsInternal(|msgs|, m, j);
      PassedLevel(rest, m, maxLeaf, j, hash);
      WalkBindsUnder(H, msgs, m, maxLeaf, rest[size..], p, H(rest[..size]), rootSig);
      if !CollisionUnder(H, msgs, m, maxLeaf, rest, j) {
        assert rest[..size] == ChildDigests(H, msgs, m, p);
        OwnGroupOwnDigest(H, msgs, m, rest, j, size, hash);
      }
    }
  }

  /** With matching sizes the batch's own proof walks to the root. */
  lemma {:induction false} MatchingWalks(H: Hasher, msgs: seq<seq<Byte>>, m: nat, maxLeaf: int, j: nat,
                                         rootSig: seq<Byte>)
    requires |msgs| >= 1 && m >= 2 && j <= LastLeaf(|msgs|, m) && SizesMatch(|msgs|, m, maxLeaf, j)
    ensures Walk(H, Proof(H, msgs, m, j), m, maxLeaf, j, NodeHash(H, msgs, m, j), rootSig)
         == Root(NodeHash(H, msgs, m, 0), rootSig)
    ensures !CollisionUnder(H, msgs, m, maxLeaf, Proof(H, msgs, m, j), j)
  {
    if j > 0 {
      var p := Parent(j, m);
      ParentIsInternal(|msgs|, m, j);
      MatchingWalks(H, msgs, m, maxLeaf, p, rootSig);
      MatchingLevel(H, msgs, m, maxLeaf, j);
    }
  }

  lemma MatchingLevel(H: Hasher, msgs: seq<seq<Byte>>, m: nat, maxLeaf: int, j: nat)
    requires |msgs| >= 1 && m >= 2 && 1 <= j <= LastLeaf(|msgs|, m) && SizesMatch(|msgs|, m, maxLeaf, j)
    ensures Parent(j, m) < FirstLeaf(|msgs|, m) && Parent(j, m) < j
    ensures var path, own := Proof(H, msgs, m, j), ChildDigests(H, msgs, m, Parent(j, m));
            && |own| <= |path| && path[..|own|] == own && path[|own|..] == Proof(H, msgs, m, Parent(j, m))
            && GroupSize(m, maxLeaf, Parent(j, m)) == |own|
            && ReadLevel(path, m, maxLeaf, j, NodeHash(H, msgs, m, j)) == Climb(|own|)
  {
    var p := Parent(j, m);
    ParentIsInternal(|msgs|, m, j);
    SourceIndices(j, m);
    var path, own := Proof(H, msgs, m, j), ChildDigests(H, msgs, m, p);
    ChildSlot(H, msgs, m, p, j - FirstChild(p, m));
    SlotOfHead(path, |own|, j - FirstChild(p, m));
    assert path[..|own|] == own && path[|own|..] == Proof(H, msgs, m, p);
  }

  // ---------------------------------------------------------------- starts inside the batch's tree

  /** The node the walk starts at when the signature names this size and index. */
  function StartUnder(m: nat, count: nat, i: nat): int
    requires m >= 2
  {
    ToInt(ClaimedFirstLeaf(count, m) + i)
  }

  /** A start before node 1 is a start at the root. */
  function NodeUnder(m: nat, count: nat, i: nat): nat
    requires m >= 2
  {
    if StartUnder(m, count, i) < 1 then 0 else StartUnder(m, count, i)
  }

  /** What is hashed into a node: a message at a leaf, the children's digests above. */
  function Content(H: Hasher, msgs: seq<seq<Byte>>, m: nat, j: nat): (s: seq<Byte>)
    requires |msgs| >= 1 && m >= 2 && j <= LastLeaf(|msgs|, m)
    ensures NodeHash(H, msgs, m, j) == H(s)
  {
    if j < FirstLeaf(|msgs|, m) then ChildDigests(H, msgs, m, j) else msgs[j - FirstLeaf(|msgs|, m)]
  }

  /** The two different strings with one digest that an accepted message shows which is not that content. */
  ghost predicate NamedUnder(H: Hasher, msgs: seq<seq<Byte>>, m: nat, maxLeaf: int, rest: seq<Byte>, j: nat,
                             message: seq<Byte>)
    requires |msgs| >= 1 && m >= 2 && j <= LastLeaf(|msgs|, m)
  {
    Collision(H, message, Content(H, msgs, m, j)) || CollisionUnder(H, msgs, m, maxLeaf, rest, j)
  }

  lemma WalkOf(sch: Scheme, count: nat, i: nat, signature: seq<Byte>, message: seq<Byte>)
    requires sch.m >= 2 && message != [] && |signature| >= sch.sigSize + 8
    requires ClaimedCount(sch.sigSize, signature) == count && ClaimedIndex(sch.sigSize, signature) == i
    ensures Verify(sch, signature, message)
         == Walk(sch.H, PathOf(sch, signature), sch.m, ClaimedLastLeaf(count, sch.m), NodeUnder(sch.m, count, i),
                 sch.H(message), signature[..sch.sigSize])
  {}

  /** Whatever size and index a signature names: if the walk starts at a node of the batch's tree, what is
      accepted is that node's content, and the groups have their sizes in the batch's tree; or a collision
      is named. */
  lemma AcceptedIsContent(sch: Scheme, msgs: seq<seq<Byte>>, count: nat, i: nat, signature: seq<Byte>, message: seq<Byte>)
    requires sch.m >= 2 && |msgs| >= 1 && NodeUnder(sch.m, count, i) <= LastLeaf(|msgs|, sch.m)
    requires AcceptedUnder(sch, msgs, count, i, signature, message)
    ensures var j, maxLeaf := NodeUnder(sch.m, count, i), ClaimedLastLeaf(count, sch.m);
            || (message == Content(sch.H, msgs, sch.m, j) && SizesMatch(|msgs|, sch.m, maxLeaf, j))
            || NamedUnder(sch.H, msgs, sch.m, maxLeaf, PathOf(sch, signature), j, message)
  {
    WalkOf(sch, count, i, signature, message);
    WalkBindsUnder(sch.H, msgs, sch.m, ClaimedLastLeaf(count, sch.m), PathOf(sch, signature),
                   NodeUnder(sch.m, count, i), sch.H(message), signature[..sch.sigSize]);
  }

  /** And where the sizes match, that content is accepted without a collision. */
  lemma ContentIsAccepted(sch: Scheme, msgs: seq<seq<Byte>>, count: nat, i: nat) returns (signature: seq<Byte>)
    requires sch.Valid() && |msgs| >= 1 && count < U32_RANGE && i < U32_RANGE
    requires NodeUnder(sch.m, count, i) <= LastLeaf(|msgs|, sch.m)
    requires SizesMatch(|msgs|, sch.m, ClaimedLastLeaf(count, sch.m), NodeUnder(sch.m, count, i))
    requires Content(sch.H, msgs, sch.m, NodeUnder(sch.m, count, i)) != []
    ensures var j, maxLeaf := NodeUnder(sch.m, count, i), ClaimedLastLeaf(count, sch.m);
            var message := Content(sch.H, msgs, sch.m, j);
            && AcceptedUnder(sch, msgs, count, i, signature, message)
            && !NamedUnder(sch.H, msgs, sch.m, maxLeaf, PathOf(sch, signature), j, message)
  {
    var j, root := NodeUnder(sch.m, count, i), NodeHash(sch.H, msgs, sch.m, 0);
    var rest, rootSig := Proof(sch.H, msgs, sch.m, j), sch.sign(root);
    signature := rootSig + PackInt(count) + PackInt(i) + rest;
    SignatureFields(sch.sigSize, count, i, rootSig, rest);
    MatchingWalks(sch.H, msgs, sch.m, ClaimedLastLeaf(count, sch.m), j, rootSig);
    WalkOf(sch, count, i, signature, Content(sch.H, msgs, sch.m, j));
  }

  /** Size and index bind in batches of n: whatever is accepted was signed, or a collision is named. */
  ghost predicate BindingUnder(sch: Scheme, n: nat, count: nat, i: nat)
    requires n >= 1 && sch.m >= 2 && NodeUnder(sch.m, count, i) <= LastLeaf(n, sch.m)
  {
    forall msgs, signature, message ::
      |msgs| == n && [] !in msgs && AcceptedUnder(sch, msgs, count, i, signature, message) ==>
      || message in msgs
      || NamedUnder(sch.H, msgs, sch.m, ClaimedLastLeaf(count, sch.m), PathOf(sch, signature),
                    NodeUnder(sch.m, count, i), message)
  }

  /** A size and an index whose walk starts inside the batch's tree bind if and only if it starts at a leaf or
      the sizes of the groups above do not all match. */
  lemma BindsUnderIff(sch: Scheme, n: nat, count: nat, i: nat)
    requires sch.Valid() && n >= 1 && count < U32_RANGE && i < U32_RANGE
    requires NodeUnder(sch.m, count, i) <= LastLeaf(n, sch.m)
    ensures BindingUnder(sch, n, count, i) <==>
              || NodeUnder(sch.m, count, i) >= FirstLeaf(n, sch.m)
              || !SizesMatch(n, sch.m, ClaimedLastLeaf(count, sch.m), NodeUnder(sch.m, count, i))
  {
    var j := NodeUnder(sch.m, count, i);
    if j < FirstLeaf(n, sch.m) && SizesMatch(n, sch.m, ClaimedLastLeaf(count, sch.m), j) {
      var msgs := seq(n, _ => [0]);
      InternalNodeHasTwoChildren(n, sch.m, j);
      assert |Content(sch.H, msgs, sch.m, j)| >= 64;
      var signature := ContentIsAccepted(sch, msgs, count, i);
      assert [] !in msgs && Content(sch.H, msgs, sch.m, j) !in msgs;
    } else {
      forall msgs, signature, message
        | |msgs| == n && [] !in msgs && AcceptedUnder(sch, msgs, count, i, signature, message)
        ensures || message in msgs
                || NamedUnder(sch.H, msgs, sch.m, ClaimedLastLeaf(count, sch.m), PathOf(sch, signature), j, message)
      {
        AcceptedIsContent(sch, msgs, count, i, signature, message);
      }
    }
  }

  // ---------------------------------------------------------------- starts beyond the last leaf

  /** The walk comes into the batch's tree at node a, with whole digests as group: they are the content of a,
      or a collision is named. */
  ghost predicate EntersAt(H: Hasher, msgs: seq<seq<Byte>>, m: nat, maxLeaf: int, a: nat, group: seq<Byte>, above: seq<Byte>)
    requires |msgs| >= 1 && m >= 2
  {
    && a <= LastLeaf(|msgs|, m) && |group| % 32 == 0
    && (group == Content(H, msgs, m, a) || NamedUnder(H, msgs, m, maxLeaf, above, a, group))
  }

  /** From beyond the last leaf a walk to the batch's root enters the tree somewhere, and reads there, as digests,
      a message of the batch or the digests of the last group. */
  lemma {:induction false} BeyondLeaves(H: Hasher, msgs: seq<seq<Byte>>, m: nat, maxLeaf: int, rest: seq<Byte>, j: nat,
                                        hash: Digest, rootSig: seq<Byte>)
    returns (a: nat, group: seq<Byte>, above: seq<Byte>)
    requires |msgs| >= 1 && m >= 2 && j > LastLeaf(|msgs|, m)
    requires Walk(H, rest, m, maxLeaf, j, hash, rootSig) == Root(NodeHash(H, msgs, m, 0), rootSig)
    ensures EntersAt(H, msgs, m, maxLeaf, a, group, above)
    ensures |group| + |above| <= |rest| && rest[|rest| - |group| - |above|..] == group + above
  {
    PassedLevel(rest, m, maxLeaf, j, hash);
    var p := Parent(j, m);
    var size := GroupSize(m, maxLeaf, p);
    if p <= LastLeaf(|msgs|, m) {
      a, group, above := p, rest[..size], rest[size..];
      WalkBindsUnder(H, msgs, m, maxLeaf, above, a, H(group), rootSig);
      assert rest[..size] + rest[size..] == rest;
    } else {
      a, group, above := BeyondLeaves(H, msgs, m, maxLeaf, rest[size..], p, H(rest[..size]), rootSig);
      assert rest[size..][|rest| - size - |group| - |above|..] == rest[|rest| - |group| - |above|..];
    }
  }

  /** So one message that happens to be two digests is enough: under size 2 the string with the first of them
      is accepted. */
  lemma MessageAsDigests(sch: Scheme, x: seq<Byte>, y: seq<Byte>)
    requires sch.Valid() && FitsInt(2, sch.m) && x != []
    ensures var msgs := [sch.H(x) + sch.H(y)];
            var root := NodeHash(sch.H, msgs, sch.m, 0);
            && StartUnder(sch.m, 2, 0) > LastLeaf(1, sch.m) && (|x| != 64 ==> x !in msgs)
            && Verify(sch, sch.sign(root) + PackInt(2) + PackInt(0) + msgs[0], x) == Root(root, sch.sign(root))
  {
    var msgs := [sch.H(x) + sch.H(y)];
    var root := NodeHash(sch.H, msgs, sch.m, 0);
    SmallTrees(sch.m);
    OwnSizes(2, sch.m);
    TwoDigestsWalk(sch.H, sch.m, x, y, sch.sign(root));
    SignatureFields(sch.sigSize, 2, 0, sch.sign(root), msgs[0]);
    WalkOf(sch, 2, 0, sch.sign(root) + PackInt(2) + PackInt(0) + msgs[0], x);
  }

  lemma TwoDigestsWalk(H: Hasher, m: nat, x: seq<Byte>, y: seq<Byte>, rootSig: seq<Byte>)
    requires m >= 2 && FitsInt(2, m)
    ensures Walk(H, H(x) + H(y), m, 2, 1, H(x), rootSig) == Root(H(H(x) + H(y)), rootSig)
  {
    SmallTrees(m);
    var rest := H(x) + H(y);
    assert rest[..64] == rest && rest[0..32] == H(x);
    assert ReadLevel(rest, m, 2, 1, H(x)) == Climb(64);
  }

  lemma SmallTrees(m: nat)
    requires m >= 2
    ensures FirstLeaf(1, m) == 0 && FirstLeaf(2, m) == 1 && LastLeaf(2, m) == 2 && Parent(1, m) == 0
  {
    FirstLeafBounds(1, m);
    FirstLeafBounds(2, m);
    SourceIndices(1, m);
  }
}
