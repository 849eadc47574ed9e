/**
 The height bound of src/lib/batched_sigs.cc: how often n can be divided by m, the
 per-thread table that caches it, and why it bounds every path in the tree.
 */
module TreeHeight {
  import opened Arithmetic
  import opened Bytes
  import opened MerkleTree

  /** How many divisions by m bring n down to zero. */
  function Height(n: nat, m: nat): (h: nat)
    requires m >= 2
    ensures n > 0 ==> h > 0
  {
    if n == 0 then 0 else DivShrinks(n, m); 1 + Height(Div(n, m), m)
  }

  function Pow(m: nat, h: nat): nat {
    if h == 0 then 1 else m * Pow(m, h - 1)
  }

  /** The number of steps from node j up to the root. */
  function Depth(j: nat, m: nat): nat
    requires m >= 2
  {
    if j == 0 then 0 else DivShrinks(j - 1, m); 1 + Depth(Div(j - 1, m), m)
  }

  lemma {:induction false} HeightBoundsPower(n: nat, m: nat)
    requires m >= 2
    ensures n < Pow(m, Height(n, m))
    ensures n > 0 ==> Pow(m, Height(n, m) - 1) <= n
  {
    if n > 0 {
      DivShrinks(n, m);
      HeightBoundsPower(Div(n, m), m);
      DivBelow(n, m, Pow(m, Height(Div(n, m), m)));
      if Div(n, m) > 0 {
        DivBelow(n, m, Pow(m, Height(Div(n, m), m) - 1));
      }
    }
  }

  /** The last node of the complete tree of depth d. */
  function LastOfDepth(m: nat, d: nat): nat {
    if d == 0 then 0 else m * LastOfDepth(m, d - 1) + m
  }

  lemma {:induction false} DepthBound(j: nat, m: nat, d: nat)
    requires m >= 2 && j <= LastOfDepth(m, d)
    ensures Depth(j, m) <= d
    decreases d
  {
    if j > 0 {
      var w := LastOfDepth(m, d - 1);
      assert m * (w + 1) == m * w + m;
      DivBelow(j - 1, m, w + 1);
      DepthBound(Div(j - 1, m), m, d - 1);
    }
  }

  lemma {:induction false} CompleteTreeSize(m: nat, d: nat)
    requires m >= 2
    ensures LastOfDepth(m, d) * (m - 1) + m == m * Pow(m, d)
  {
    if d > 0 {
      CompleteTreeSize(m, d - 1);
      Factor(m, LastOfDepth(m, d - 1));
    }
  }

  lemma Factor(m: nat, w: nat)
    requires m >= 2
    ensures (m * w + m) * (m - 1) + m == m * (w * (m - 1) + m)
  {
    assert (m * w) * (m - 1) == m * (w * (m - 1));
    assert (m * w + m) * (m - 1) == (m * w) * (m - 1) + m * (m - 1);
  }

  /** Every node of the tree over n leaves lies within Height(n, m) steps of the root. */
  lemma DepthAtMostHeight(n: nat, m: nat, j: nat)
    requires n >= 1 && m >= 2 && j <= LastLeaf(n, m)
    ensures Depth(j, m) <= Height(n, m)
  {
    var h, L := Height(n, m), FirstLeaf(n, m);
    HeightBoundsPower(n, m);
    CompleteTreeSize(m, h);
    FirstLeafBounds(n, m);
    LeavesFit(n, m, L, LastOfDepth(m, h), Pow(m, h));
    DepthBound(j, m, h);
  }

  lemma LeavesFit(n: nat, m: nat, L: nat, w: nat, q: nat)
    requires n >= 1 && m >= 2 && n < q
    requires L * (m - 1) <= n + m - 3 && w * (m - 1) + m == m * q
    ensures L + n - 1 <= w
  {
    assert (L + n - 1) * (m - 1) == L * (m - 1) + m * (n - 1) - (n - 1);
    assert (w + 1) * (m - 1) == w * (m - 1) + m - 1;
    assert n * m == m * (n - 1) + m;
    MulMono(n, q, m);
    if L + n - 1 > w {
      MulMono(w + 1, L + n - 1, m - 1);
    }
  }

  /** The room for m digests on each of h levels. */
  function Room(m: nat, h: nat): nat {
    if h == 0 then 0 else m * 32 + Room(m, h - 1)
  }

  lemma {:induction false} RoomIs(m: nat, h: nat)
    ensures Room(m, h) == (m * h) * 32
  {
    if h > 0 {
      RoomIs(m, h - 1);
      assert m * h == m * (h - 1) + m;
    }
  }

  lemma {:induction false} RoomGrows(m: nat, d: nat, h: nat)
    requires d <= h
    ensures Room(m, d) <= Room(m, h)
    decreases h
  {
    if d < h {
      RoomGrows(m, d, h - 1);
    }
  }

  lemma {:induction false} PathByDepth(n: nat, m: nat, j: nat)
    requires n >= 1 && m >= 2 && j <= LastLeaf(n, m)
    ensures PathDigests(n, m, j) * 32 <= Room(m, Depth(j, m))
  {
    if j > 0 {
      ParentIsInternal(n, m, j);
      PathByDepth(n, m, Parent(j, m));
    }
  }

  lemma PathByHeight(n: nat, m: nat, j: nat)
    requires n >= 1 && m >= 2 && j <= LastLeaf(n, m)
    ensures PathDigests(n, m, j) <= m * Height(n, m)
  {
    PathByDepth(n, m, j);
    DepthAtMostHeight(n, m, j);
    RoomGrows(m, Depth(j, m), Height(n, m));
    RoomIs(m, Height(n, m));
  }

  /** The buffer the source allocates for m * Height digests holds every proof. */
  lemma ProofSize(H: Hasher, msgs: seq<seq<Byte>>, m: nat, j: nat)
    requires |msgs| >= 1 && m >= 2 && j <= LastLeaf(|msgs|, m)
    ensures |Proof(H, msgs, m, j)| <= (m * Height(|msgs|, m)) * 32
  {
    PathByHeight(|msgs|, m, j);
    ProofLength(H, msgs, m, j);
  }

  /** More to divide, by less, takes no fewer divisions. */
  lemma {:induction false} HeightShrinks(n: nat, k: nat, a: nat, b: nat)
    requires 2 <= a <= b && k <= n
    ensures Height(k, b) <= Height(n, a)
  {
    if k > 0 {
      DivMonotone(n, k, a, b);
      DivShrinks(n, a);
      HeightShrinks(Div(n, a), Div(k, b), a, b);
    }
  }

  lemma {:induction false} DivMonotone(n: nat, k: nat, a: nat, b: nat)
    requires 1 <= a <= b && k <= n
    ensures Div(k, b) <= Div(n, a)
  {
    if k >= b {
      DivMonotone(n - a, k - b, a, b);
    }
  }

  // ---------------------------------------------------------------- the cached table

  /** vector::resize(k, 0): cut the table to k entries, or pad it with zeros. */
  function Resized(t: seq<nat>, k: nat): (r: seq<nat>)
    ensures |r| == k
    ensures forall i :: 0 <= i < k ==> r[i] == if i < |t| then t[i] else 0
  {
    if k <= |t| then t[..k] else t + seq(k - |t|, _ => 0)
  }

  /** The table after a request for n with arity m; its last entry is the answer. */
  function Lookup(t: seq<nat>, n: nat, m: nat): (r: seq<nat>)
    requires m >= 2
    ensures |r| == n + 1
  {
    var u := Resized(t, n + 1);
    if u[n] == 0 then u[n := Height(n, m)] else u
  }

  /** The thread-local table of heights. */
  class HeightCache {
    var heights: seq<nat>

    constructor ()
      ensures heights == []
    {
      heights := [];
    }

    /** getTreeHeight: look the height up, counting the divisions when the entry is unset. */
    method GetTreeHeight(n: nat, m: nat) returns (h: nat)
      requires m >= 2
      modifies this
      ensures heights == Lookup(old(heights), n, m)
      ensures h == heights[n]
    {
      heights := Resized(heights, n + 1);
      if heights[n] == 0 {
        var k: nat := n;
        ghost var t := heights;
        while k > 0
          invariant |heights| == n + 1 && heights == t[n := heights[n]]
          invariant heights[n] + Height(k, m) == Height(n, m)
        {
          DivIsDivision(k, m);
          DivShrinks(k, m);
          k := k / m;
          heights := heights[n := heights[n] + 1];
        }
      }
      h := heights[n];
    }
  }

  datatype Call = Call(n: nat, m: nat)

  /** The table after a whole run of requests on one thread. */
  function TableAfter(calls: seq<Call>): seq<nat>
    requires forall c <- calls :: c.m >= 2
  {
    if calls == [] then [] else
    var c := calls[|calls| - 1];
    Lookup(TableAfter(calls[..|calls| - 1]), c.n, c.m)
  }

  /** The request that computed the entry for n: the earliest one for n since the table was
      last cut below n. None when the entry is unset. */
  function Origin(calls: seq<Call>, n: nat): (o: Option<Call>)
    ensures o.Some? ==> o.value in calls
  {
    if calls == [] then None else
    var c, before := calls[|calls| - 1], Origin(calls[..|calls| - 1], n);
    if c.n < n then None
    else if c.n == n && before.None? then Some(c)
    else before
  }

  lemma {:induction false} EntryOrigin(calls: seq<Call>, n: nat)
    requires forall c <- calls :: c.m >= 2
    ensures var t := TableAfter(calls);
            match Origin(calls, n)
            case None => n < |t| ==> t[n] == 0
            case Some(c) => n < |t| && t[n] == Height(n, c.m) && c.n == n
  {
    if calls != [] {
      EntryOrigin(calls[..|calls| - 1], n);
    }
  }

  /** Over any run of requests, growing and shrinking the table, the answer is the height for
      the arity of the request that filled the entry. */
  lemma AnswerOfRun(calls: seq<Call>, n: nat, m: nat)
    requires m >= 2 && forall c <- calls :: c.m >= 2
    ensures var answer := Lookup(TableAfter(calls), n, m)[n];
            var from := if Origin(calls, n).Some? then Origin(calls, n).value.m else m;
            answer == Height(n, from)
  {
    EntryOrigin(calls, n);
  }

  /** On a thread that always uses one arity the table agrees with the plain count. */
  lemma OneArityAgrees(calls: seq<Call>, n: nat, m: nat)
    requires m >= 2 && forall c <- calls :: c.m == m
    ensures Lookup(TableAfter(calls), n, m)[n] == Height(n, m)
  {
    EntryOrigin(calls, n);
  }

  /** With a second arity on the same thread it need not. */
  lemma TwoAritiesDisagree()
    ensures Lookup(TableAfter([Call(4, 2)]), 4, 4)[4] != Height(4, 4)
  {
    assert TableAfter([Call(4, 2)]) == Lookup([], 4, 2) by {
      assert [Call(4, 2)][..0] == [];
    }
    assert Height(4, 2) == 1 + Height(2, 2) == 3;
    assert Height(4, 4) == 1 + Height(1, 4) == 2;
  }
}
