/**
 The verifier of src/lib/batched_sigs.h: it recomputes the root digest from a message and
 the digests a signature carries. A signature is untrusted input, so every read is checked.
 */
module SigVerifier {
  import opened Arithmetic
  import opened Bytes
  import opened MerkleTree
  import opened BatchedSigs

  /** Root: the walk reached the root with this digest and found this root signature.
      Rejected: a digest on the path did not match. OutOfRange: a read outside the signature
      or the message, where the source throws or leaves the buffer. */
  datatype Verdict = Root(hash: Digest, rootSig: seq<Byte>) | Rejected | OutOfRange

  /** One level of the path: climb past a group of so many bytes, or stop. */
  datatype Level = Climb(size: nat) | Stop(verdict: Verdict)

  /** Node j's digest must stand at its place in the next group of digests. */
  function ReadLevel(rest: seq<Byte>, m: nat, maxLeaf: int, j: nat, hash: Digest): (v: Level)
    requires m >= 2 && j >= 1
    ensures v.Climb? ==> v.size <= |rest|
    ensures v.Stop? ==> !v.verdict.Root?
  {
    SourceIndices(j, m);
    var l := FirstChild(Parent(j, m), m);
    var at, size := (j - l) * 32, (RightmostSibling(l, m, maxLeaf) - l + 1) * 32;
    if |rest| < at + 32 then Stop(OutOfRange)
    else if rest[at..at + 32] != hash then Stop(Rejected)
    else if size < 0 || |rest| < size then Stop(OutOfRange)
    else Climb(size)
  }

  /** The walk from node j up, with the digests still unread in rest. */
  function Walk(H: Hasher, rest: seq<Byte>, m: nat, maxLeaf: int, j: int, hash: Digest, rootSig: seq<Byte>): Verdict
    requires m >= 2
    decreases j
  {
    if j < 1 then Root(hash, rootSig) else
    SourceIndices(j, m);
    match ReadLevel(rest, m, maxLeaf, j, hash)
    case Stop(verdict) => verdict
    case Climb(size) => Walk(H, rest[size..], m, maxLeaf, Parent(j, m), H(rest[..size]), rootSig)
  }

  /** The right end of a sibling group, cut off at the last leaf, in int arithmetic. */
  function RightmostSibling(l: nat, m: nat, maxLeaf: int): int
    requires m >= 2
  {
    if ToInt(l + m - 1) > maxLeaf then maxLeaf else ToInt(l + m - 1)
  }

  /** The first leaf as the verifier computes it from an untrusted n: n - 1 wraps at zero. */
  function ClaimedFirstLeaf(n: nat, m: nat): nat
    requires m >= 2
  {
    Div((if n == 0 then U32_RANGE - 1 else n - 1) + (m - 2), m - 1)
  }

  function ClaimedLastLeaf(n: nat, m: nat): int
    requires m >= 2
  {
    ToInt(if ClaimedFirstLeaf(n, m) + n == 0 then U64_RANGE - 1 else ClaimedFirstLeaf(n, m) + n - 1)
  }

  /** The batch size and the index a signature claims. */
  function ClaimedCount(sigSize: nat, signature: seq<Byte>): nat
    requires |signature| >= sigSize + 8
  {
    UnpackInt(signature[sigSize..sigSize + 4])
  }

  function ClaimedIndex(sigSize: nat, signature: seq<Byte>): nat
    requires |signature| >= sigSize + 8
  {
    UnpackInt(signature[sigSize + 4..sigSize + 8])
  }

  function Verify(sch: Scheme, signature: seq<Byte>, message: seq<Byte>): Verdict
    requires sch.m >= 2
  {
    if |signature| < sch.sigSize + 8 || message == [] then OutOfRange else
    var n, i := ClaimedCount(sch.sigSize, signature), ClaimedIndex(sch.sigSize, signature);
    Walk(sch.H, signature[sch.sigSize + 8..], sch.m, ClaimedLastLeaf(n, sch.m),
         ToInt(ClaimedFirstLeaf(n, sch.m) + i), sch.H(message), signature[..sch.sigSize])
  }

  /** A level that is passed, with its place in the signature. */
  lemma ClimbStep(H: Hasher, signature: seq<Byte>, from: nat, size: nat, m: nat, maxLeaf: int, j: nat,
                  hash: Digest, rootSig: seq<Byte>)
    requires m >= 2 && j >= 1 && from <= |signature|
    requires ReadLevel(signature[from..], m, maxLeaf, j, hash) == Climb(size)
    ensures from + size <= |signature|
    ensures Walk(H, signature[from..], m, maxLeaf, j, hash, rootSig)
         == Walk(H, signature[from + size..], m, maxLeaf, Parent(j, m), H(signature[from..from + size]), rootSig)
  {
    assert signature[from..][..size] == signature[from..from + size];
    assert signature[from..][size..] == signature[from + size..];
  }

  /** computeBatchedSignatureHash: the loop with its digest counter h. */
  method ComputeBatchedSignatureHash(sch: Scheme, signature: seq<Byte>, message: seq<Byte>) returns (v: Verdict)
    requires sch.m >= 2
    ensures v == Verify(sch, signature, message)
  {
    if |signature| < sch.sigSize + 8 || message == [] {
      return OutOfRange;
    }
    var m, start := sch.m, sch.sigSize + 8;
    var rootSig := signature[..sch.sigSize];
    var n := UnpackInt(signature[sch.sigSize..sch.sigSize + 4]);
    var i := UnpackInt(signature[sch.sigSize + 4..start]);
    var hash := sch.H(message);
    var h: nat := 0;
    var maxLeaf := ClaimedLastLeaf(n, m);
    var j := ToInt(ClaimedFirstLeaf(n, m) + i);
    ghost var result := Walk(sch.H, signature[start..], m, maxLeaf, j, hash, rootSig);
    var level := Climb(0);
    while level.Climb? && j >= 1
      invariant start + h * 32 <= |signature|
      invariant level.Climb? ==> result == Walk(sch.H, signature[start + h * 32..], m, maxLeaf, j, hash, rootSig)
      invariant level.Stop? ==> result == level.verdict
      decreases level.Climb?, j
    {
      level, h, j, hash := ClimbLevel(sch.H, signature, start, h, m, maxLeaf, j, hash, rootSig);
    }
    v := if level.Stop? then level.verdict else Root(hash, rootSig);
  }

  /** The body of the loop: the same result is still to be computed from the parent. */
  method ClimbLevel(H: Hasher, signature: seq<Byte>, start: nat, h: nat, m: nat, maxLeaf: int, j: nat, hash: Digest,
                    ghost rootSig: seq<Byte>)
    returns (level: Level, above: nat, parent: nat, digest: Digest)
    requires m >= 2 && j >= 1 && start + h * 32 <= |signature|
    ensures var now := Walk(H, signature[start + h * 32..], m, maxLeaf, j, hash, rootSig);
            match level
            case Stop(verdict) => now == verdict && above == h
            case Climb(_) =>
              && start + above * 32 <= |signature| && parent < j
              && now == Walk(H, signature[start + above * 32..], m, maxLeaf, parent, digest, rootSig)
  {
    var count;
    level, count := CheckLevel(signature, start, h, m, maxLeaf, j, hash);
    above, parent, digest := h, j, hash;
    if level.Climb? {
      SourceIndices(j, m);
      ClimbStep(H, signature, start + h * 32, level.size, m, maxLeaf, j, hash, rootSig);
      above, parent := h + count, (j - 1) / m;
      digest := H(signature[start + h * 32..start + above * 32]);
    }
  }

  /** The body of the loop up to the hashing, reading through offsets into the signature. */
  method CheckLevel(signature: seq<Byte>, start: nat, h: nat, m: nat, maxLeaf: int, j: nat, hash: Digest)
    returns (level: Level, count: int)
    requires m >= 2 && j >= 1 && start + h * 32 <= |signature|
    ensures level == ReadLevel(signature[start + h * 32..], m, maxLeaf, j, hash)
    ensures level.Climb? ==> level.size == count * 32
  {
    SourceIndices(j, m);
    var leftmost := (j - 1) / m * m + 1;
    var rightmost := RightmostSibling(leftmost, m, maxLeaf);
    count := rightmost - leftmost + 1;
    var pos := start + (h + (j - leftmost)) * 32;
    ghost var rest, at := signature[start + h * 32..], (j - leftmost) * 32;
    if pos + 32 > |signature| {
      return Stop(OutOfRange), count;
    }
    assert signature[pos..pos + 32] == rest[at..at + 32];
    if hash != signature[pos..pos + 32] {
      return Stop(Rejected), count;
    }
    if count < 0 || start + (h + count) * 32 > |signature| {
      return Stop(OutOfRange), count;
    }
    return Climb(count * 32), count;
  }

  // ---------------------------------------------------------------- honest sizes

  /** The node the walk starts at, for a batch's own size and any index. */
  function StartNode(n: nat, m: nat, i: nat): int
    requires n >= 1 && m >= 2
  {
    ToInt(FirstLeaf(n, m) + i)
  }

  /** For a batch whose node numbers fit in an int, the verifier's int arithmetic is exact. */
  lemma OwnSizes(n: nat, m: nat)
    requires n >= 1 && m >= 2 && FitsInt(n, m)
    ensures ClaimedFirstLeaf(n, m) == FirstLeaf(n, m) && ClaimedLastLeaf(n, m) == LastLeaf(n, m)
    ensures n < U32_RANGE && FirstLeaf(n, m) < 0x7fff_ffff
  {
    NodeCountIsExact(n, m);
  }

  lemma LeafIndex(n: nat, m: nat, i: nat)
    requires n >= 1 && m >= 2 && FitsInt(n, m) && i < U32_RANGE
    ensures i < n <==> FirstLeaf(n, m) <= StartNode(n, m, i) <= LastLeaf(n, m)
    ensures i < n ==> StartNode(n, m, i) == FirstLeaf(n, m) + i
  {
    OwnSizes(n, m);
    RangeValues();
    IntOfSum(FirstLeaf(n, m), i);
  }

  /** Only indices below 2^31 - F give nodes from F on. */
  lemma IntOfSum(first: nat, i: nat)
    requires first < 0x7fff_ffff && i < 0x1_0000_0000
    ensures ToInt(first + i) >= first ==> ToInt(first + i) == first + i
    ensures first + i < 0x8000_0000 ==> ToInt(first + i) == first + i
  {}

  /** What the verifier does with the batch's own size and any index. */
  lemma OwnStart(sch: Scheme, n: nat, signature: seq<Byte>, message: seq<Byte>)
    requires sch.m >= 2 && n >= 1 && FitsInt(n, sch.m) && message != []
    requires |signature| >= sch.sigSize + 8 && ClaimedCount(sch.sigSize, signature) == n
    ensures Verify(sch, signature, message)
         == Walk(sch.H, signature[sch.sigSize + 8..], sch.m, LastLeaf(n, sch.m),
                 StartNode(n, sch.m, ClaimedIndex(sch.sigSize, signature)), sch.H(message), signature[..sch.sigSize])
  {
    OwnSizes(n, sch.m);
  }

  lemma HonestGroup(n: nat, m: nat, j: nat)
    requires n >= 1 && m >= 2 && FitsInt(n, m) && 1 <= j <= LastLeaf(n, m)
    ensures RightmostSibling(FirstChild(Parent(j, m), m), m, LastLeaf(n, m)) == LastChild(n, m, Parent(j, m))
  {
    NodeCountIsExact(n, m);
    SourceIndices(j, m);
  }

  // ---------------------------------------------------------------- completeness

  /** The walk over a proof the signer made ends at the signed root. */
  lemma {:induction false} WalkCompletes(H: Hasher, msgs: seq<seq<Byte>>, m: nat, j: nat, rootSig: seq<Byte>)
    requires |msgs| >= 1 && m >= 2 && FitsInt(|msgs|, m) && j <= LastLeaf(|msgs|, m)
    ensures Walk(H, Proof(H, msgs, m, j), m, LastLeaf(|msgs|, m), j, NodeHash(H, msgs, m, j), rootSig)
         == Root(NodeHash(H, msgs, m, 0), rootSig)
  {
    if j > 0 {
      var n, p := |msgs|, Parent(j, m);
      ParentIsInternal(n, m, j);
      HonestGroup(n, m, j);
      var group, rest := ChildDigests(H, msgs, m, p), Proof(H, msgs, m, p);
      var at := (j - FirstChild(p, m)) * 32;
      DigestsAt(H, msgs, m, FirstChild(p, m), LastChild(n, m, p) + 1, j);
      assert (group + rest)[at..at + 32] == group[at..at + 32];
      assert (group + rest)[..|group|] == group && (group + rest)[|group|..] == rest;
      WalkCompletes(H, msgs, m, p, rootSig);
    }
  }

  /** Every signature of a batch verifies: for all batches, arities and indices the verifier
      returns the digest that was signed, with its signature. */
  lemma SignatureVerifies(sch: Scheme, msgs: seq<seq<Byte>>, i: nat)
    requires sch.Valid() && i < |msgs| && FitsInt(|msgs|, sch.m) && [] !in msgs
    ensures var root := NodeHash(sch.H, msgs, sch.m, 0);
            Verify(sch, Signature(sch, msgs, i), msgs[i]) == Root(root, sch.sign(root))
  {
    var leaf, root := FirstLeaf(|msgs|, sch.m) + i, NodeHash(sch.H, msgs, sch.m, 0);
    LeafWalks(sch.H, msgs, sch.m, i, leaf, Root(root, sch.sign(root)));
    SignatureIs(sch, msgs, i, leaf, root);
    FieldsVerify(sch, |msgs|, i, leaf, Root(root, sch.sign(root)), Proof(sch.H, msgs, sch.m, leaf),
                 Signature(sch, msgs, i), msgs[i]);
  }

  lemma LeafWalks(H: Hasher, msgs: seq<seq<Byte>>, m: nat, i: nat, leaf: nat, v: Verdict)
    requires m >= 2 && i < |msgs| && FitsInt(|msgs|, m) && leaf == FirstLeaf(|msgs|, m) + i
    requires v.Root? && v.hash == NodeHash(H, msgs, m, 0)
    ensures Walk(H, Proof(H, msgs, m, leaf), m, LastLeaf(|msgs|, m), leaf, H(msgs[i]), v.rootSig) == v
  {
    LeafDigest(H, msgs, m, i);
    WalkCompletes(H, msgs, m, leaf, v.rootSig);
  }

  lemma SignatureIs(sch: Scheme, msgs: seq<seq<Byte>>, i: nat, leaf: nat, root: Digest)
    requires sch.Valid() && i < |msgs| && leaf == FirstLeaf(|msgs|, sch.m) + i
    requires root == NodeHash(sch.H, msgs, sch.m, 0)
    ensures |sch.sign(root)| == sch.sigSize
    ensures Signature(sch, msgs, i)
         == sch.sign(root) + PackInt(|msgs|) + PackInt(i) + Proof(sch.H, msgs, sch.m, leaf)
  {}

  /** The verifier takes a signature apart into the fields the signer put together. */
  lemma FieldsVerify(sch: Scheme, n: nat, i: nat, leaf: nat, v: Verdict, rest: seq<Byte>, signature: seq<Byte>,
                     message: seq<Byte>)
    requires sch.m >= 2 && i < n && FitsInt(n, sch.m) && v.Root? && |v.rootSig| == sch.sigSize && message != []
    requires leaf == FirstLeaf(n, sch.m) + i
    requires signature == v.rootSig + PackInt(n) + PackInt(i) + rest
    requires Walk(sch.H, rest, sch.m, LastLeaf(n, sch.m), leaf, sch.H(message), v.rootSig) == v
    ensures Verify(sch, signature, message) == v
  {
    OwnSizes(n, sch.m);
    LeafIndex(n, sch.m, i);
    SignatureFields(sch.sigSize, n, i, v.rootSig, rest);
    OwnStart(sch, n, signature, message);
  }

  lemma SignatureFields(sigSize: nat, n: nat, i: nat, rootSig: seq<Byte>, rest: seq<Byte>)
    requires |rootSig| == sigSize && n < U32_RANGE && i < U32_RANGE
    ensures var sig := rootSig + PackInt(n) + PackInt(i) + rest;
            && |sig| >= sigSize + 8 && sig[..sigSize] == rootSig && sig[sigSize + 8..] == rest
            && ClaimedCount(sigSize, sig) == n && ClaimedIndex(sigSize, sig) == i
  {
    var sig := rootSig + PackInt(n) + PackInt(i) + rest;
    assert sig[sigSize..sigSize + 4] == PackInt(n);
    assert sig[sigSize + 4..sigSize + 8] == PackInt(i);
    PackIntRoundTrip(n, PackInt(n));
    PackIntRoundTrip(i, PackInt(i));
  }

  // ---------------------------------------------------------------- binding

  /** Two different byte strings with one digest. */
  predicate Collision(H: Hasher, x: seq<Byte>, y: seq<Byte>) {
    x != y && H(x) == H(y)
  }

  /** Some group of digests read on the way up from j differs from the batch's own group at
      the same place in the tree, yet hashes to the same digest. */
  ghost predicate CollisionAbove(H: Hasher, msgs: seq<seq<Byte>>, m: nat, rest: seq<Byte>, j: nat)
    requires |msgs| >= 1 && m >= 2 && j <= LastLeaf(|msgs|, m)
  {
    j > 0 && (
      ParentIsInternal(|msgs|, m, j);
      var p := Parent(j, m);
      var own := ChildDigests(H, msgs, m, p);
      && |own| <= |rest|
      && (Collision(H, rest[..|own|], own) || CollisionAbove(H, msgs, m, rest[|own|..], p)))
  }

  lemma SlotOfHead(rest: seq<Byte>, size: nat, k: nat)
    requires (k + 1) * 32 <= size <= |rest|
    ensures rest[..size][k * 32..(k + 1) * 32] == rest[k * 32..k * 32 + 32]
  {}

  /** What passing the check at node j of the batch's own tree says about the digests read. */
  lemma LevelRead(H: Hasher, msgs: seq<seq<Byte>>, m: nat, rest: seq<Byte>, j: nat, hash: Digest)
    requires |msgs| >= 1 && m >= 2 && FitsInt(|msgs|, m) && 1 <= j <= LastLeaf(|msgs|, m)
    requires ReadLevel(rest, m, LastLeaf(|msgs|, m), j, hash).Climb?
    ensures Parent(j, m) < FirstLeaf(|msgs|, m) && Parent(j, m) < j
    ensures var own := ChildDigests(H, msgs, m, Parent(j, m));
            && ReadLevel(rest, m, LastLeaf(|msgs|, m), j, hash) == Climb(|own|)
            && (rest[..|own|] == own ==> hash == NodeHash(H, msgs, m, j))
  {
    var n, p := |msgs|, Parent(j, m);
    ParentIsInternal(n, m, j);
    HonestGroup(n, m, j);
    ChildSlot(H, msgs, m, p, j - FirstChild(p, m));
    SlotOfHead(rest, |ChildDigests(H, msgs, m, p)|, j - FirstChild(p, m));
  }

  /** From the root back down: a walk that ends at the batch's root started from the batch's
      own digest at j, or ran through a collision. */
  lemma {:induction false} WalkBinds(H: Hasher, msgs: seq<seq<Byte>>, m: nat, rest: seq<Byte>, j: nat,
                                     hash: Digest, rootSig: seq<Byte>)
    requires |msgs| >= 1 && m >= 2 && FitsInt(|msgs|, m) && j <= LastLeaf(|msgs|, m)
    requires Walk(H, rest, m, LastLeaf(|msgs|, m), j, hash, rootSig).Root?
    requires Walk(H, rest, m, LastLeaf(|msgs|, m), j, hash, rootSig).hash == NodeHash(H, msgs, m, 0)
    ensures hash == NodeHash(H, msgs, m, j) || CollisionAbove(H, msgs, m, rest, j)
  {
    if j > 0 {
      var p := Parent(j, m);
      LevelRead(H, msgs, m, rest, j, hash);
      var own := ChildDigests(H, msgs, m, p);
      WalkBinds(H, msgs, m, rest[|own|..], p, H(rest[..|own|]), rootSig);
    }
  }

  lemma LeafDigest(H: Hasher, msgs: seq<seq<Byte>>, m: nat, i: nat)
    requires m >= 2 && i < |msgs|
    ensures FirstLeaf(|msgs|, m) + i <= LastLeaf(|msgs|, m)
    ensures NodeHash(H, msgs, m, FirstLeaf(|msgs|, m) + i) == H(msgs[i])
  {
  }
}
