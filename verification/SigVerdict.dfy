/**
 Which answer the verifier of batched signatures gives (src/lib/batched_sigs.h): a root digest, a rejection,
 or a read outside the signature. Said level by level, with the offset of each group in the signature.
 */
module SigVerdict {
  import opened Arithmetic
  import opened Bytes
  import opened MerkleTree
  import opened TreeHeight
  import opened BatchedSigs
  import opened SigVerifier
  import opened SigBinding
  import opened SigSizes

  /** What a walk is given: the bytes after the header, the arity, the last leaf, the start and its digest. */
  datatype Path = Path(H: Hasher, rest: seq<Byte>, m: nat, maxLeaf: int, start: nat, hash: Digest) {

    predicate Valid() {
      m >= 2
    }

    /** The node t levels up. */
    function Node(t: nat): nat
      requires Valid()
    {
      if t == 0 then start else if Node(t - 1) == 0 then 0 else Parent(Node(t - 1), m)
    }

    /** Where the digests of level t start: behind the groups of all levels below. */
    function Offset(t: nat): int
      requires Valid()
    {
      if t == 0 then 0
      else if Node(t - 1) == 0 then Offset(t - 1)
      else Offset(t - 1) + GroupSize(m, maxLeaf, Parent(Node(t - 1), m))
    }

    /** The digest that arrives at level t: the message's, and then that of the group below. */
    function DigestAt(t: nat): Digest
      requires Valid()
    {
      if t == 0 then hash
      else if 0 <= Offset(t - 1) <= Offset(t) <= |rest| then H(rest[Offset(t - 1)..Offset(t)])
      else hash
    }

    /** Where level t is compared. */
    function SlotAt(t: nat): int
      requires Valid()
    {
      if Node(t) == 0 then Offset(t) else Offset(t) + (Node(t) - FirstChild(Parent(Node(t), m), m)) * 32
    }

    predicate HasDigest(t: nat)
      requires Valid()
    {
      0 <= SlotAt(t) && SlotAt(t) + 32 <= |rest|
    }

    predicate Agrees(t: nat)
      requires Valid()
    {
      HasDigest(t) && rest[SlotAt(t)..SlotAt(t) + 32] == DigestAt(t)
    }

    predicate HasGroup(t: nat)
      requires Valid()
    {
      0 <= Offset(t) <= Offset(t + 1) <= |rest|
    }

    ghost predicate PassedUpTo(n: nat)
      requires Valid()
    {
      forall t: nat :: t < n ==> Passed(t)
    }

    predicate Passed(t: nat)
      requires Valid()
    {
      Agrees(t) && HasGroup(t)
    }

    /** Level t is reached, and what stands there is another digest. */
    ghost predicate DiffersAt(t: nat)
      requires Valid()
    {
      t < Depth(start, m) && PassedUpTo(t) && HasDigest(t) && !Agrees(t)
    }

    /** Level t is reached, and its digest, or else its group, is not all there. */
    ghost predicate EndsAt(t: nat)
      requires Valid()
    {
      t < Depth(start, m) && PassedUpTo(t) && (!HasDigest(t) || (Agrees(t) && !HasGroup(t)))
    }

    function Verdict(rootSig: seq<Byte>): Verdict
      requires Valid()
    {
      Walk(H, rest, m, maxLeaf, start, hash, rootSig)
    }
  }

  lemma {:induction false} NodeDepth(x: Path, t: nat)
    requires x.Valid() && t <= Depth(x.start, x.m)
    ensures Depth(x.Node(t), x.m) == Depth(x.start, x.m) - t
    ensures t < Depth(x.start, x.m) <==> x.Node(t) > 0
  {
    if t > 0 {
      NodeDepth(x, t - 1);
    }
  }

  /** What the verifier does at a level it has reached. */
  lemma LevelAt(x: Path, t: nat)
    requires x.Valid() && t < Depth(x.start, x.m) && 0 <= x.Offset(t) <= |x.rest|
    ensures x.Node(t) > 0
    ensures ReadLevel(x.rest[x.Offset(t)..], x.m, x.maxLeaf, x.Node(t), x.DigestAt(t)) ==
              if !x.HasDigest(t) then Stop(OutOfRange)
              else if !x.Agrees(t) then Stop(Rejected)
              else if !x.HasGroup(t) then Stop(OutOfRange)
              else Climb(x.Offset(t + 1) - x.Offset(t))
  {
    NodeDepth(x, t);
    var j, off := x.Node(t), x.Offset(t);
    SourceIndices(j, x.m);
    var k := j - FirstChild(Parent(j, x.m), x.m);
    if x.HasDigest(t) {
      assert x.rest[off..][k * 32..k * 32 + 32] == x.rest[off + k * 32..off + k * 32 + 32];
    }
  }

  /** The walk has come to level t. */
  ghost predicate Reaches(x: Path, t: nat, rootSig: seq<Byte>)
    requires x.Valid()
  {
    && 0 <= x.Offset(t) <= |x.rest|
    && x.Verdict(rootSig) == Walk(x.H, x.rest[x.Offset(t)..], x.m, x.maxLeaf, x.Node(t), x.DigestAt(t), rootSig)
  }

  lemma ReachesStart(x: Path, rootSig: seq<Byte>)
    requires x.Valid()
    ensures Reaches(x, 0, rootSig)
  {
    assert x.rest[0..] == x.rest;
  }

  lemma PassedGoesOn(x: Path, t: nat, next: nat, rootSig: seq<Byte>)
    requires x.Valid() && t < Depth(x.start, x.m) && x.Passed(t) && Reaches(x, t, rootSig) && next == t + 1
    ensures Reaches(x, next, rootSig)
  {
    LevelAt(x, t);
    var from, size := x.Offset(t), x.Offset(t + 1) - x.Offset(t);
    ClimbStep(x.H, x.rest, from, size, x.m, x.maxLeaf, x.Node(t), x.DigestAt(t), rootSig);
  }

  lemma PassedAt(x: Path, n: nat, t: nat)
    requires x.Valid() && x.PassedUpTo(n) && t < n
    ensures x.Passed(t) && x.PassedUpTo(t)
  {}

  /** After the levels passed, the rest of the walk is left. */
  lemma {:induction false} WalkAfter(x: Path, t: nat, rootSig: seq<Byte>)
    requires x.Valid() && t <= Depth(x.start, x.m) && x.PassedUpTo(t)
    ensures Reaches(x, t, rootSig)
  {
    if t == 0 {
      ReachesStart(x, rootSig);
    } else {
      var u: nat := t - 1;
      PassedAt(x, t, u);
      WalkAfter(x, u, rootSig);
      PassedGoesOn(x, u, t, rootSig);
    }
  }

  lemma Stops(x: Path, t: nat, rootSig: seq<Byte>)
    requires x.Valid()
    ensures x.DiffersAt(t) ==> x.Verdict(rootSig) == Rejected
    ensures x.EndsAt(t) ==> x.Verdict(rootSig) == OutOfRange
  {
    if x.DiffersAt(t) || x.EndsAt(t) {
      WalkAfter(x, t, rootSig);
      LevelAt(x, t);
    }
  }

  lemma {:induction false} FirstNotPassed(x: Path, n: nat) returns (t: nat)
    requires x.Valid() && !x.PassedUpTo(n)
    ensures t < n && x.PassedUpTo(t) && !x.Passed(t)
  {
    if x.PassedUpTo(n - 1) {
      t := n - 1;
    } else {
      t := FirstNotPassed(x, n - 1);
    }
  }

  /** The walk ends at the root exactly if every level is there and agrees, and then with the digest of the last
      group; it is rejected exactly if the first level that is not passed has another digest; and it leaves the
      signature exactly if that level's digest or group is cut short. */
  lemma WalkVerdict(x: Path, rootSig: seq<Byte>)
    requires x.Valid()
    ensures var v, d := x.Verdict(rootSig), Depth(x.start, x.m);
            && (v.Root? <==> x.PassedUpTo(d))
            && (v.Root? ==> v == Root(x.DigestAt(d), rootSig))
            && (v == Rejected <==> exists t: nat :: x.DiffersAt(t))
            && (v == OutOfRange <==> exists t: nat :: x.EndsAt(t))
  {
    var d := Depth(x.start, x.m);
    forall t: nat
      ensures x.DiffersAt(t) ==> x.Verdict(rootSig) == Rejected
      ensures x.EndsAt(t) ==> x.Verdict(rootSig) == OutOfRange
    {
      Stops(x, t, rootSig);
    }
    if x.PassedUpTo(d) {
      WalkAfter(x, d, rootSig);
      NodeDepth(x, d);
    } else {
      var t := FirstNotPassed(x, d);
      assert x.DiffersAt(t) || x.EndsAt(t);
    }
  }

  /** The path a signature puts the verifier on. */
  function PathFor(sch: Scheme, signature: seq<Byte>, message: seq<Byte>): Path
    requires sch.m >= 2 && |signature| >= sch.sigSize + 8
  {
    var count, i := ClaimedCount(sch.sigSize, signature), ClaimedIndex(sch.sigSize, signature);
    Path(sch.H, PathOf(sch, signature), sch.m, ClaimedLastLeaf(count, sch.m), NodeUnder(sch.m, count, i), sch.H(message))
  }

  /** The same for the whole verifier and any bytes as signature: what is too short for its header, or has no
      message, is a read outside. */
  lemma VerifyVerdict(sch: Scheme, signature: seq<Byte>, message: seq<Byte>)
    requires sch.m >= 2
    ensures |signature| < sch.sigSize + 8 || message == [] ==> Verify(sch, signature, message) == OutOfRange
    ensures |signature| >= sch.sigSize + 8 && message != [] ==>
              var v, x := Verify(sch, signature, message), PathFor(sch, signature, message);
              var d := Depth(x.start, sch.m);
              && (v.Root? <==> x.PassedUpTo(d))
              && (v.Root? ==> v == Root(x.DigestAt(d), signature[..sch.sigSize]))
              && (v == Rejected <==> exists t: nat :: x.DiffersAt(t))
              && (v == OutOfRange <==> exists t: nat :: x.EndsAt(t))
  {
    if |signature| >= sch.sigSize + 8 && message != [] {
      var x := PathFor(sch, signature, message);
      WalkOf(sch, ClaimedCount(sch.sigSize, signature), ClaimedIndex(sch.sigSize, signature), signature, message);
      WalkVerdict(x, signature[..sch.sigSize]);
    }
  }

  // ---------------------------------------------------------------- generated signatures

  lemma GeneratedFields(sch: Scheme, msgs: seq<seq<Byte>>, i: nat)
    requires sch.Valid() && i < |msgs| && FitsInt(|msgs|, sch.m)
    ensures var signature, leaf := Signature(sch, msgs, i), FirstLeaf(|msgs|, sch.m) + i;
            && |signature| >= sch.sigSize + 8 && leaf <= LastLeaf(|msgs|, sch.m)
            && ClaimedCount(sch.sigSize, signature) == |msgs| && ClaimedIndex(sch.sigSize, signature) == i
            && PathOf(sch, signature) == Proof(sch.H, msgs, sch.m, leaf)
  {
    var leaf, root := FirstLeaf(|msgs|, sch.m) + i, NodeHash(sch.H, msgs, sch.m, 0);
    OwnSizes(|msgs|, sch.m);
    SignatureIs(sch, msgs, i, leaf, root);
    FieldsOf(sch, |msgs|, i, sch.sign(root), Proof(sch.H, msgs, sch.m, leaf), Signature(sch, msgs, i));
  }

  lemma FieldsOf(sch: Scheme, n: nat, i: nat, rootSig: seq<Byte>, rest: seq<Byte>, signature: seq<Byte>)
    requires |rootSig| == sch.sigSize && n < U32_RANGE && i < U32_RANGE
    requires signature == rootSig + PackInt(n) + PackInt(i) + rest
    ensures |signature| >= sch.sigSize + 8 && PathOf(sch, signature) == rest
    ensures ClaimedCount(sch.sigSize, signature) == n && ClaimedIndex(sch.sigSize, signature) == i
  {
    SignatureFields(sch.sigSize, n, i, rootSig, rest);
  }

  lemma OwnNode(n: nat, m: nat, i: nat)
    requires m >= 2 && i < n && FitsInt(n, m)
    ensures NodeUnder(m, n, i) == FirstLeaf(n, m) + i && ClaimedLastLeaf(n, m) == LastLeaf(n, m)
  {
    OwnSizes(n, m);
    LeafIndex(n, m, i);
  }

  /** Generated signature i, or what is left of it, puts the verifier at leaf i, with its proof to read. */
  lemma PathForGenerated(sch: Scheme, msgs: seq<seq<Byte>>, i: nat, signature: seq<Byte>, message: seq<Byte>)
    requires sch.Valid() && i < |msgs| && FitsInt(|msgs|, sch.m)
    requires sch.sigSize + 8 <= |signature| && signature <= Signature(sch, msgs, i)
    ensures var x, leaf := PathFor(sch, signature, message), FirstLeaf(|msgs|, sch.m) + i;
            && leaf <= LastLeaf(|msgs|, sch.m) && PathOf(sch, signature) <= Proof(sch.H, msgs, sch.m, leaf)
            && x == Path(sch.H, PathOf(sch, signature), sch.m, LastLeaf(|msgs|, sch.m), leaf, sch.H(message))
  {
    GeneratedFields(sch, msgs, i);
    HeaderOfPrefix(sch, signature, Signature(sch, msgs, i));
    OwnNode(|msgs|, sch.m, i);
  }

  lemma HeaderOfPrefix(sch: Scheme, signature: seq<Byte>, whole: seq<Byte>)
    requires sch.sigSize + 8 <= |signature| && signature <= whole
    ensures ClaimedCount(sch.sigSize, signature) == ClaimedCount(sch.sigSize, whole)
    ensures ClaimedIndex(sch.sigSize, signature) == ClaimedIndex(sch.sigSize, whole)
    ensures PathOf(sch, signature) <= PathOf(sch, whole)
  {
    var k := sch.sigSize;
    assert signature[k..k + 4] == whole[k..k + 4] && signature[k + 4..k + 8] == whole[k + 4..k + 8];
  }

  /** With a generated signature, a message with another digest than the one signed is rejected. */
  lemma OtherMessageRejected(sch: Scheme, msgs: seq<seq<Byte>>, i: nat, message: seq<Byte>)
    requires sch.Valid() && i < |msgs| && FitsInt(|msgs|, sch.m) && |msgs| >= 2
    requires message != [] && sch.H(message) != sch.H(msgs[i])
    ensures Verify(sch, Signature(sch, msgs, i), message) == Rejected
  {
    var signature := Signature(sch, msgs, i);
    GeneratedFields(sch, msgs, i);
    PathForGenerated(sch, msgs, i, signature, message);
    LeafDiffers(sch.H, msgs, sch.m, i, PathFor(sch, signature, message));
    VerifyVerdict(sch, signature, message);
  }

  lemma LeafDiffers(H: Hasher, msgs: seq<seq<Byte>>, m: nat, i: nat, x: Path)
    requires m >= 2 && i < |msgs| && |msgs| >= 2 && x.H == H && x.m == m && x.start == FirstLeaf(|msgs|, m) + i
    requires x.start <= LastLeaf(|msgs|, m) && x.rest == Proof(H, msgs, m, x.start) && x.hash != H(msgs[i])
    ensures x.DiffersAt(0)
  {
    FirstLeafBounds(|msgs|, m);
    LeafDigest(H, msgs, m, i);
    FirstSlotOfProof(H, msgs, m, x.start);
    DiffersAtOnce(x, NodeHash(H, msgs, m, x.start));
  }

  lemma DiffersAtOnce(x: Path, own: Digest)
    requires x.Valid() && x.start >= 1 && own != x.hash && FirstChild(Parent(x.start, x.m), x.m) <= x.start
    requires var at := (x.start - FirstChild(Parent(x.start, x.m), x.m)) * 32;
             at + 32 <= |x.rest| && x.rest[at..at + 32] == own
    ensures x.DiffersAt(0)
  {}

  lemma SlotInHead(path: seq<Byte>, own: seq<Byte>, k: nat)
    requires own <= path && (k + 1) * 32 <= |own|
    ensures path[k * 32..k * 32 + 32] == own[k * 32..(k + 1) * 32]
  {}

  /** The proof of a node begins with its group, which has the node's digest in its slot. */
  lemma FirstSlotOfProof(H: Hasher, msgs: seq<seq<Byte>>, m: nat, j: nat)
    requires |msgs| >= 1 && m >= 2 && 1 <= j <= LastLeaf(|msgs|, m)
    ensures FirstChild(Parent(j, m), m) <= j
    ensures var at := (j - FirstChild(Parent(j, m), m)) * 32;
            at + 32 <= |Proof(H, msgs, m, j)| && Proof(H, msgs, m, j)[at..at + 32] == NodeHash(H, msgs, m, j)
  {
    var p := Parent(j, m);
    ParentIsInternal(|msgs|, m, j);
    SlotOfNode(H, msgs, m, j, p, j - FirstChild(p, m), ChildDigests(H, msgs, m, p));
    ProofHead(H, msgs, m, j);
    SlotInHead(Proof(H, msgs, m, j), ChildDigests(H, msgs, m, p), j - FirstChild(p, m));
  }

  lemma SlotOfNode(H: Hasher, msgs: seq<seq<Byte>>, m: nat, j: nat, p: nat, k: nat, own: seq<Byte>)
    requires |msgs| >= 1 && m >= 2 && p < FirstLeaf(|msgs|, m) && j == FirstChild(p, m) + k <= LastChild(|msgs|, m, p)
    requires own == ChildDigests(H, msgs, m, p)
    ensures j <= LastLeaf(|msgs|, m) && (k + 1) * 32 <= |own| && own[k * 32..(k + 1) * 32] == NodeHash(H, msgs, m, j)
  {
    ChildSlot(H, msgs, m, p, k);
  }

  lemma ProofHead(H: Hasher, msgs: seq<seq<Byte>>, m: nat, j: nat)
    requires |msgs| >= 1 && m >= 2 && 1 <= j <= LastLeaf(|msgs|, m) && Parent(j, m) < FirstLeaf(|msgs|, m)
    ensures ChildDigests(H, msgs, m, Parent(j, m)) <= Proof(H, msgs, m, j)
  {}

  /** Nodes and offsets do not depend on the bytes. */
  lemma {:induction false} SameShape(x: Path, y: Path, t: nat)
    requires x.Valid() && y == x.(rest := y.rest)
    ensures x.Node(t) == y.Node(t) && x.Offset(t) == y.Offset(t) && x.SlotAt(t) == y.SlotAt(t)
  {
    if t > 0 {
      SameShape(x, y, t - 1);
    }
  }

  /** What a prefix of the bytes passes, and what it compares with, is what the whole passes and compares with. */
  lemma PrefixAgrees(x: Path, y: Path, t: nat)
    requires x.Valid() && y == x.(rest := y.rest) && y.rest <= x.rest && y.PassedUpTo(t)
    ensures y.HasDigest(t) ==> (y.Agrees(t) <==> x.Agrees(t))
  {
    SameShape(x, y, t);
    PrefixDigest(x, y, t);
    if y.HasDigest(t) {
      SliceOfPrefix(y.rest, x.rest, y.SlotAt(t), y.SlotAt(t) + 32);
    }
  }

  lemma PrefixDigest(x: Path, y: Path, t: nat)
    requires x.Valid() && y == x.(rest := y.rest) && y.rest <= x.rest && y.PassedUpTo(t)
    ensures y.DigestAt(t) == x.DigestAt(t)
  {
    if t > 0 {
      var u: nat := t - 1;
      SameShape(x, y, t);
      SameShape(x, y, u);
      PassedAt(y, t, u);
      SliceOfPrefix(y.rest, x.rest, y.Offset(u), y.Offset(t));
    }
  }

  lemma SliceOfPrefix(part: seq<Byte>, whole: seq<Byte>, from: nat, to: nat)
    requires part <= whole && from <= to <= |part|
    ensures part[from..to] == whole[from..to]
  {}

  /** One level less from the parent. */
  lemma {:induction false} FromParent(x: Path, y: Path, t: nat)
    requires x.Valid() && x.start > 0 && y == x.(start := Parent(x.start, x.m))
    ensures x.Node(t + 1) == y.Node(t) && x.Offset(t + 1) == GroupSize(x.m, x.maxLeaf, y.start) + y.Offset(t)
  {
    if t > 0 {
      FromParent(x, y, t - 1);
    }
  }

  /** In the batch's own tree the last offset is the length of the proof. */
  lemma {:induction false} LastOffset(x: Path, n: nat)
    requires x.Valid() && n >= 1 && FitsInt(n, x.m) && x.maxLeaf == LastLeaf(n, x.m) && x.start <= LastLeaf(n, x.m)
    ensures x.Offset(Depth(x.start, x.m)) == PathDigests(n, x.m, x.start) * 32
    decreases x.start
  {
    if x.start > 0 {
      var y := x.(start := Parent(x.start, x.m));
      ParentIsInternal(n, x.m, x.start);
      HonestGroup(n, x.m, x.start);
      LastOffset(y, n);
      FromParent(x, y, Depth(y.start, x.m));
    }
  }

  /** A walk over part of a path that would be accepted leaves the part. */
  lemma PartEnds(x: Path, y: Path, rootSig: seq<Byte>)
    requires x.Valid() && y == x.(rest := y.rest) && y.rest <= x.rest && |y.rest| < x.Offset(Depth(x.start, x.m))
    requires x.PassedUpTo(Depth(x.start, x.m))
    ensures y.Verdict(rootSig) == OutOfRange
  {
    var d := Depth(x.start, x.m);
    WalkVerdict(y, rootSig);
    if y.PassedUpTo(d) {
      WalkAfter(y, d, rootSig);
      SameShape(x, y, d);
    }
    forall t: nat ensures !y.DiffersAt(t) {
      if y.DiffersAt(t) {
        PassedAt(x, d, t);
        PrefixAgrees(x, y, t);
      }
    }
  }

  /** A generated signature cut short anywhere is a read outside, for its own message. */
  lemma CutShortLeaves(sch: Scheme, msgs: seq<seq<Byte>>, i: nat, k: nat)
    requires sch.Valid() && i < |msgs| && FitsInt(|msgs|, sch.m) && [] !in msgs
    requires k < |Signature(sch, msgs, i)|
    ensures Verify(sch, Signature(sch, msgs, i)[..k], msgs[i]) == OutOfRange
  {
    var whole := Signature(sch, msgs, i);
    if k >= sch.sigSize + 8 {
      GeneratedPasses(sch, msgs, i);
      PathForGenerated(sch, msgs, i, whole, msgs[i]);
      PathForGenerated(sch, msgs, i, whole[..k], msgs[i]);
      PartVerdict(sch, whole[..k], PathFor(sch, whole, msgs[i]), msgs[i]);
    }
  }

  lemma GeneratedPasses(sch: Scheme, msgs: seq<seq<Byte>>, i: nat)
    requires sch.Valid() && i < |msgs| && FitsInt(|msgs|, sch.m) && [] !in msgs
    ensures |Signature(sch, msgs, i)| >= sch.sigSize + 8
    ensures var x := PathFor(sch, Signature(sch, msgs, i), msgs[i]);
            x.PassedUpTo(Depth(x.start, sch.m)) && x.Offset(Depth(x.start, sch.m)) == |x.rest|
  {
    var whole := Signature(sch, msgs, i);
    GeneratedFields(sch, msgs, i);
    PathForGenerated(sch, msgs, i, whole, msgs[i]);
    SignatureVerifies(sch, msgs, i);
    VerifyVerdict(sch, whole, msgs[i]);
    var x := PathFor(sch, whole, msgs[i]);
    LastOffset(x, |msgs|);
    ProofLength(sch.H, msgs, sch.m, x.start);
  }

  lemma PartVerdict(sch: Scheme, part: seq<Byte>, x: Path, message: seq<Byte>)
    requires sch.m >= 2 && |part| >= sch.sigSize + 8 && message != [] && x.Valid()
    requires var y := PathFor(sch, part, message); y == x.(rest := y.rest) && y.rest <= x.rest && |y.rest| < |x.rest|
    requires x.PassedUpTo(Depth(x.start, x.m)) && x.Offset(Depth(x.start, x.m)) == |x.rest|
    ensures Verify(sch, part, message) == OutOfRange
  {
    PartEnds(x, PathFor(sch, part, message), part[..sch.sigSize]);
    WalkOf(sch, ClaimedCount(sch.sigSize, part), ClaimedIndex(sch.sigSize, part), part, message);
  }

  // ---------------------------------------------------------------- a size of zero

  /** A signature that names size 0 under arity 2: the unsigned subtraction wraps around, so the walk starts at
      node i - 1, as an int, with a last leaf of -2. It is accepted exactly if it starts at the root, and then
      with the digest of the message itself. */
  lemma SizeZero(sch: Scheme, signature: seq<Byte>, message: seq<Byte>)
    requires sch.m == 2 && |signature| >= sch.sigSize + 8 && message != [] && ClaimedCount(sch.sigSize, signature) == 0
    ensures var v, i := Verify(sch, signature, message), ClaimedIndex(sch.sigSize, signature);
            && (v.Root? <==> (i <= 1 || i > 0x8000_0000))
            && (v.Root? ==> v == Root(sch.H(message), signature[..sch.sigSize]))
  {
    PackIntRoundTrip(0, signature[sch.sigSize + 4..sch.sigSize + 8]);
    ZeroSizes(ClaimedIndex(sch.sigSize, signature));
    var x := PathFor(sch, signature, message);
    VerifyVerdict(sch, signature, message);
    if x.start >= 1 {
      SourceIndices(x.start, 2);
      assert x.Offset(1) < 0;
      assert Depth(x.start, 2) >= 1 && !x.Passed(0);
    }
  }

  lemma ZeroSizes(i: nat)
    requires i < U32_RANGE
    ensures ClaimedFirstLeaf(0, 2) == 0xffff_ffff && ClaimedLastLeaf(0, 2) == -2
    ensures StartUnder(2, 0, i) == if i <= 0x8000_0000 then i - 1 else i - 1 - 0x1_0000_0000
  {
    DivUnique(0xffff_ffff, 1, 0xffff_ffff);
  }
}
