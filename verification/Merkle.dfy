/**
 The Merkle tree of a block's transactions: built as one flat vector layer after layer, with branches
 read out of it and checked by hashing back up (src/main.h:873-917). The pair hash is an input.
 */
module Merkle {
  import opened Wrappers

  type Hash = nat
  type PairHash = (Hash, Hash) -> Hash

  /** The index next to i in its pair: `i ^ 1`. */
  function Sibling(i: nat): nat { if i % 2 == 0 then i + 1 else i - 1 }

  /** The next layer: pairs are hashed, and an odd last element is paired with itself. */
  function Up(h: PairHash, layer: seq<Hash>): (up: seq<Hash>)
    requires layer != []
    ensures |up| == (|layer| + 1) / 2
  {
    seq((|layer| + 1) / 2, i requires 0 <= i < (|layer| + 1) / 2 => h(layer[2 * i], layer[Min(2 * i + 1, |layer| - 1)]))
  }

  /** The parent of position i is the hash of the pair at i. */
  lemma UpAt(h: PairHash, layer: seq<Hash>, i: nat)
    requires i < |layer|
    ensures i / 2 < |Up(h, layer)|
    ensures Up(h, layer)[i / 2] == Combine(h, layer[i], layer[Min(Sibling(i), |layer| - 1)], i)
  {
    var k := i / 2;
    assert i == 2 * k || i == 2 * k + 1;
    UpPair(h, layer, k);
  }

  function Tree(h: PairHash, layer: seq<Hash>): seq<Hash>
    decreases |layer|
  {
    if |layer| <= 1 then layer else layer + Tree(h, Up(h, layer))
  }

  function Root(h: PairHash, layer: seq<Hash>): Hash
    decreases |layer|
  {
    if layer == [] then 0 else if |layer| == 1 then layer[0] else Root(h, Up(h, layer))
  }

  function Branch(h: PairHash, layer: seq<Hash>, i: nat): (b: seq<Hash>)
    requires i < |layer|
    decreases |layer|
  {
    if |layer| == 1 then [] else [layer[Min(Sibling(i), |layer| - 1)]] + Branch(h, Up(h, layer), i / 2)
  }

  function Combine(h: PairHash, x: Hash, other: Hash, i: int): Hash {
    if i % 2 == 1 then h(other, x) else h(x, other)
  }

  /** Hashing up a branch; the index is halved downwards at each step, whatever its sign. */
  function Climb(h: PairHash, x: Hash, branch: seq<Hash>, i: int): Hash
    decreases |branch|
  {
    if branch == [] then x else Climb(h, Combine(h, x, branch[0], i), branch[1..], i / 2)
  }

  function Depth(n: nat): nat
    decreases n
  {
    if n <= 1 then 0 else 1 + Depth((n + 1) / 2)
  }

  /** Two halves of 2^d leaves each: the root is the hash of the left root and the right root, in this order. */
  lemma {:induction false} RootJoins(h: PairHash, s: seq<Hash>, t: seq<Hash>, d: nat)
    requires |s| == Power(d) && |t| == Power(d)
    ensures Root(h, s + t) == h(Root(h, s), Root(h, t))
    decreases d
  {
    if d == 0 {
      TwoLeaves(h, s[0], t[0]);
      assert s + t == [s[0], t[0]];
    } else {
      var k: nat, us, ut := d - 1, Up(h, s), Up(h, t);
      assert Power(d) == 2 * Power(k);
      HalvesUp(h, s, t, Power(k), us, ut);
      RootJoins(h, us, ut, k);
    }
  }

  lemma HalvesUp(h: PairHash, s: seq<Hash>, t: seq<Hash>, p: nat, us: seq<Hash>, ut: seq<Hash>)
    requires p > 0 && |s| == 2 * p && |t| == 2 * p && us == Up(h, s) && ut == Up(h, t)
    ensures |us| == p && |ut| == p
    ensures Root(h, s) == Root(h, us) && Root(h, t) == Root(h, ut) && Root(h, s + t) == Root(h, us + ut)
  {
    UpJoins(h, s, t, us, ut);
    RootUp(h, s, us);
    RootUp(h, t, ut);
    RootUp(h, s + t, us + ut);
  }

  lemma TwoLeaves(h: PairHash, a: Hash, b: Hash)
    ensures Root(h, [a, b]) == h(a, b) && Root(h, [a]) == a
  {
    UpPair(h, [a, b], 0);
    assert Up(h, [a, b]) == [h(a, b)];
  }

  function Power(d: nat): (p: nat)
    ensures p > 0
  {
    if d == 0 then 1 else 2 * Power(d - 1)
  }

  lemma UpJoins(h: PairHash, s: seq<Hash>, t: seq<Hash>, us: seq<Hash>, ut: seq<Hash>)
    requires s != [] && t != [] && |s| % 2 == 0 && |t| % 2 == 0 && us == Up(h, s) && ut == Up(h, t)
    ensures Up(h, s + t) == us + ut
  {
    var u := Up(h, s + t);
    forall i | 0 <= i < |u| ensures u[i] == (us + ut)[i] {
      UpPair(h, s + t, i);
      if i < |us| { UpPair(h, s, i); } else { UpShifted(h, s, t, i, i - |us|); }
    }
  }

  lemma UpShifted(h: PairHash, s: seq<Hash>, t: seq<Hash>, i: nat, k: nat)
    requires |s| % 2 == 0 && |t| % 2 == 0 && 2 * i == |s| + 2 * k && k < |t| / 2
    ensures Up(h, t)[k] == h((s + t)[2 * i], (s + t)[2 * i + 1])
  {
    UpPair(h, t, k);
  }

  /** The branch of every leaf leads from that leaf to the root. */
  lemma {:induction false} BranchReachesRoot(h: PairHash, layer: seq<Hash>, i: nat)
    requires i < |layer|
    ensures |Branch(h, layer, i)| == Depth(|layer|)
    ensures Climb(h, layer[i], Branch(h, layer, i), i) == Root(h, layer)
    decreases |layer|
  {
    if |layer| > 1 {
      UpAt(h, layer, i);
      BranchReachesRoot(h, Up(h, layer), i / 2);
      assert Branch(h, layer, i)[1..] == Branch(h, Up(h, layer), i / 2);
    }
  }

  ghost predicate Separates(h: PairHash, a: Hash, b: Hash, c: Hash, d: Hash) {
    h(a, b) == h(c, d) ==> a == c && b == d
  }

  ghost predicate Injective(h: PairHash) {
    forall a, b, c, d {:trigger Separates(h, a, b, c, d)} :: Separates(h, a, b, c, d)
  }

  lemma CombineInjective(h: PairHash, x: Hash, y: Hash, x': Hash, y': Hash, i: int)
    requires Injective(h) && Combine(h, x, y, i) == Combine(h, x', y', i)
    ensures x == x' && y == y'
  {
    assert Separates(h, x, y, x', y') && Separates(h, y, x, y', x');
  }

  /** With an injective pair hash, a branch of the tree's depth that reaches the root at index i starts
      from leaf i and is that leaf's branch. */
  lemma {:induction false} OnlyTheLeaf(h: PairHash, layer: seq<Hash>, i: nat, x: Hash, branch: seq<Hash>)
    requires Injective(h) && i < |layer| && |branch| == Depth(|layer|) && Climb(h, x, branch, i) == Root(h, layer)
    ensures x == layer[i] && branch == Branch(h, layer, i)
    decreases |layer|
  {
    if |layer| > 1 {
      UpAt(h, layer, i);
      var up, rest, y := Up(h, layer), branch[1..], branch[0];
      var z := Combine(h, x, y, i);
      assert |rest| == Depth(|up|);
      OnlyTheLeaf(h, up, i / 2, z, rest);
      CombineInjective(h, x, y, layer[i], layer[Min(Sibling(i), |layer| - 1)], i);
      assert branch == [y] + rest;
    }
  }

  /** With an injective pair hash, the root fixes the leaves among all lists of one length... */
  lemma {:induction false} RootFixesLeaves(h: PairHash, a: seq<Hash>, b: seq<Hash>)
    requires Injective(h) && |a| == |b| && Root(h, a) == Root(h, b)
    ensures a == b
    decreases |a|
  {
    if |a| > 1 {
      RootFixesLeaves(h, Up(h, a), Up(h, b));
      forall i | 0 <= i < |a| ensures a[i] == b[i] {
        UpAt(h, a, i);
        UpAt(h, b, i);
        var s := Min(Sibling(i), |a| - 1);
        CombineInjective(h, a[i], a[s], b[i], b[s], i);
      }
    }
  }

  lemma UpPair(h: PairHash, layer: seq<Hash>, k: nat)
    requires k < (|layer| + 1) / 2
    ensures Up(h, layer)[k] == h(layer[2 * k], layer[Min(2 * k + 1, |layer| - 1)])
  {
  }

  lemma RootUp(h: PairHash, a: seq<Hash>, up: seq<Hash>)
    requires |a| > 1 && up == Up(h, a)
    ensures Root(h, a) == Root(h, up)
  {
  }

  lemma SameUp(h: PairHash, a: seq<Hash>, b: seq<Hash>, n: nat)
    requires |a| == 2 * n - 1 && |a| > 1 && b == a + [a[|a| - 1]]
    ensures Up(h, b) == Up(h, a)
  {
    forall k | 0 <= k < n ensures Up(h, b)[k] == Up(h, a)[k] {
      UpPair(h, a, k);
      UpPair(h, b, k);
    }
  }

  /** ...but not their number: a list of odd length has the root of the list with its last leaf repeated. */
  lemma RepeatedLeaf(h: PairHash, a: seq<Hash>)
    requires |a| % 2 == 1 && |a| > 1
    ensures Root(h, a + [a[|a| - 1]]) == Root(h, a)
  {
    var b, n := a + [a[|a| - 1]], (|a| + 1) / 2;
    assert |a| == 2 * n - 1 && |b| == 2 * n;
    SameUp(h, a, b, n);
    RootUp(h, a, Up(h, a));
    RootUp(h, b, Up(h, a));
  }

  // ----- exactly when two lists have the same root -----

  /** Where the way down given by the low d bits of j ends in a list of n leaves: a step to the right past
      the end of a layer stays at its last element. */
  function Way(n: nat, d: nat, j: nat): (i: nat)
    requires 0 < n
    ensures i < n
  {
    if d == 0 then 0 else Min(2 * Way((n + 1) / 2, d - 1, j / 2) + j % 2, n - 1)
  }

  predicate Alike(a: seq<Hash>, b: seq<Hash>, d: nat, j: nat)
    requires a != [] && b != []
  {
    a[Way(|a|, d, j)] == b[Way(|b|, d, j)]
  }

  /** Every way down through d layers ends at equal leaves. */
  ghost predicate SameLeaves(a: seq<Hash>, b: seq<Hash>, d: nat)
    requires a != [] && b != []
  {
    forall j: nat {:trigger Alike(a, b, d, j)} :: Alike(a, b, d, j)
  }

  /** The two leaves below a position of the next layer. */
  lemma WayStep(h: PairHash, a: seq<Hash>, up: seq<Hash>, d: nat, e: nat, j: nat)
    requires |a| > 1 && d == e + 1 && up == Up(h, a)
    ensures up[Way(|up|, e, j)] == h(a[Way(|a|, d, 2 * j)], a[Way(|a|, d, 2 * j + 1)])
  {
    assert (2 * j) / 2 == j && (2 * j + 1) / 2 == j;
    UpPair(h, a, Way(|up|, e, j));
  }

  lemma PairAlike(h: PairHash, a: seq<Hash>, b: seq<Hash>, x: seq<Hash>, y: seq<Hash>, d: nat, e: nat, j: nat)
    requires Injective(h) && |a| > 1 && |b| > 1 && d == e + 1 && x == Up(h, a) && y == Up(h, b)
    ensures Alike(x, y, e, j) <==> Alike(a, b, d, 2 * j) && Alike(a, b, d, 2 * j + 1)
  {
    WayStep(h, a, x, d, e, j);
    WayStep(h, b, y, d, e, j);
    assert Separates(h, a[Way(|a|, d, 2 * j)], a[Way(|a|, d, 2 * j + 1)], b[Way(|b|, d, 2 * j)], b[Way(|b|, d, 2 * j + 1)]);
  }

  lemma LayerAlike(h: PairHash, a: seq<Hash>, b: seq<Hash>, x: seq<Hash>, y: seq<Hash>, d: nat, e: nat)
    requires Injective(h) && |a| > 1 && |b| > 1 && d == e + 1 && x == Up(h, a) && y == Up(h, b)
    ensures SameLeaves(x, y, e) <==> SameLeaves(a, b, d)
  {
    if SameLeaves(x, y, e) {
      forall k: nat ensures Alike(a, b, d, k) {
        AlikeBelow(h, a, b, x, y, d, e, k, k / 2);
      }
    }
    if SameLeaves(a, b, d) {
      forall j: nat ensures Alike(x, y, e, j) {
        PairAlike(h, a, b, x, y, d, e, j);
      }
    }
  }

  lemma AlikeBelow(h: PairHash, a: seq<Hash>, b: seq<Hash>, x: seq<Hash>, y: seq<Hash>, d: nat, e: nat, k: nat, j: nat)
    requires Injective(h) && |a| > 1 && |b| > 1 && d == e + 1 && x == Up(h, a) && y == Up(h, b) && j == k / 2
    requires SameLeaves(x, y, e)
    ensures Alike(a, b, d, k)
  {
    PairAlike(h, a, b, x, y, d, e, j);
    assert Alike(x, y, e, j);
    var l, r := 2 * j, 2 * j + 1;
    assert Alike(a, b, d, l) && Alike(a, b, d, r);
    assert k == l || k == r;
  }

  /** With an injective pair hash, lists of one depth have the same root exactly when every way down ends
      at equal leaves. */
  lemma {:induction false} SameRootIff(h: PairHash, a: seq<Hash>, b: seq<Hash>)
    requires Injective(h) && a != [] && b != [] && Depth(|a|) == Depth(|b|)
    ensures Root(h, a) == Root(h, b) <==> SameLeaves(a, b, Depth(|a|))
    decreases |a|
  {
    if |a| == 1 {
      assert Alike(a, b, 0, 0) <==> a[0] == b[0];
    } else {
      var x, y := Up(h, a), Up(h, b);
      SameRootIff(h, x, y);
      LayerAlike(h, a, b, x, y, Depth(|a|), Depth(|x|));
    }
  }

  /** The k-th layer above a list. */
  function Above(h: PairHash, layer: seq<Hash>, k: nat): (up: seq<Hash>)
    requires layer != [] && k <= Depth(|layer|)
    ensures up != [] && Depth(|up|) == Depth(|layer|) - k && Root(h, up) == Root(h, layer)
    decreases k
  {
    if k == 0 then layer else Above(h, Up(h, layer), k - 1)
  }

  /** In general the layer of the deeper list that is as deep as the other list takes its place: nothing
      tells a leaf from a hash of leaves. */
  lemma RootsEqualIff(h: PairHash, a: seq<Hash>, b: seq<Hash>, k: nat)
    requires Injective(h) && a != [] && b != [] && Depth(|a|) == Depth(|b|) + k
    ensures Root(h, a) == Root(h, b) <==> SameLeaves(Above(h, a, k), b, Depth(|b|))
  {
    SameRootAt(h, Above(h, a, k), b, Root(h, a), Depth(|b|));
  }

  lemma SameRootAt(h: PairHash, up: seq<Hash>, b: seq<Hash>, root: Hash, d: nat)
    requires Injective(h) && up != [] && b != [] && Depth(|up|) == d == Depth(|b|) && Root(h, up) == root
    ensures root == Root(h, b) <==> SameLeaves(up, b, d)
  {
    SameRootIff(h, up, b);
  }

  // ----- the vector -----

  /** One more layer of the vector: what is done, the current layer, and the tree above it. */
  lemma LayerStep(h: PairHash, done: seq<Hash>, layer: seq<Hash>, leaves: seq<Hash>)
    requires |layer| > 1 && done + Tree(h, layer) == Tree(h, leaves) && Root(h, layer) == Root(h, leaves)
    ensures (done + layer) + Tree(h, Up(h, layer)) == Tree(h, leaves) && Root(h, Up(h, layer)) == Root(h, leaves)
  {
    assert done + (layer + Tree(h, Up(h, layer))) == (done + layer) + Tree(h, Up(h, layer));
  }

  method BuildMerkleTree(h: PairHash, leaves: seq<Hash>) returns (tree: seq<Hash>, root: Hash)
    ensures tree == Tree(h, leaves) && root == Root(h, leaves)
  {
    tree := leaves;
    var j: nat, size: nat := 0, |leaves|;
    ghost var done, layer := [], leaves;
    assert [] + leaves == leaves && [] + Tree(h, leaves) == Tree(h, leaves);
    while size > 1
      invariant |done| == j && |layer| == size && tree == done + layer && (size == 0 ==> j == 0)
      invariant done + Tree(h, layer) == Tree(h, leaves) && Root(h, layer) == Root(h, leaves)
      decreases size
    {
      tree := AppendLayer(h, tree, j, size, done, layer);
      LayerStep(h, done, layer, leaves);
      done, layer := done + layer, Up(h, layer);
      j := j + size;
      size := (size + 1) / 2;
    }
    root := if tree == [] then 0 else tree[|tree| - 1];
  }

  method AppendLayer(h: PairHash, before: seq<Hash>, j: nat, size: nat, ghost done: seq<Hash>, ghost layer: seq<Hash>)
    returns (tree: seq<Hash>)
    requires size > 1 && |done| == j && |layer| == size && before == done + layer
    ensures tree == before + Up(h, layer)
  {
    tree := before;
    var i := 0;
    ghost var k: nat := 0;
    while i < size
      invariant i == 2 * k && k <= |Up(h, layer)|
      invariant tree == before + Up(h, layer)[..k]
    {
      var i2 := Min(i + 1, size - 1);
      assert layer[i] == before[j + i] && layer[i2] == before[j + i2];
      UpPair(h, layer, k);
      tree := tree + [h(tree[j + i], tree[j + i2])];
      i := i + 2;
      k := k + 1;
    }
    assert Up(h, layer)[..k] == Up(h, layer);
  }

  /** The vector from j on is the tree over the layer. */
  ghost predicate TreeFrom(h: PairHash, tree: seq<Hash>, j: nat, layer: seq<Hash>) {
    j <= |tree| && tree[j..] == Tree(h, layer)
  }

  lemma TreeStep(h: PairHash, tree: seq<Hash>, j: nat, layer: seq<Hash>, i: nat)
    requires |layer| > 1 && TreeFrom(h, tree, j, layer) && i < |layer|
    ensures j + |layer| <= |tree| && tree[j + i] == layer[i] && TreeFrom(h, tree, j + |layer|, Up(h, layer))
  {
    var t := tree[j..];
    assert t == layer + Tree(h, Up(h, layer));
    assert t[i] == layer[i] && t[|layer|..] == Tree(h, Up(h, layer));
    assert tree[j + |layer|..] == t[|layer|..];
  }

  lemma BranchStep(h: PairHash, layer: seq<Hash>, n: nat, branch: seq<Hash>)
    requires |layer| > 1 && n < |layer|
    ensures n / 2 < |Up(h, layer)|
    ensures branch + Branch(h, layer, n) == (branch + [layer[Min(Sibling(n), |layer| - 1)]]) + Branch(h, Up(h, layer), n / 2)
  {
    UpAt(h, layer, n);
    Regroup(branch, layer[Min(Sibling(n), |layer| - 1)], Branch(h, Up(h, layer), n / 2));
  }

  /** The branch collected below position n of a layer; the vector goes on with that layer at j. */
  ghost predicate Climbing(h: PairHash, whole: seq<Hash>, tree: seq<Hash>, j: nat, layer: seq<Hash>, n: nat, branch: seq<Hash>) {
    TreeFrom(h, tree, j, layer) && n < |layer| && branch + Branch(h, layer, n) == whole
  }

  /** One layer up: the sibling's hash joins the branch. */
  lemma TakeStep(h: PairHash, whole: seq<Hash>, tree: seq<Hash>, j: nat, layer: seq<Hash>, i: nat, n: nat, branch: seq<Hash>,
                 j': nat, up: seq<Hash>, n': nat)
    requires |layer| > 1 && Climbing(h, whole, tree, j, layer, n, branch) && i == Min(Sibling(n), |layer| - 1)
    requires j' == j + |layer| && up == Up(h, layer) && n' == n / 2
    ensures j + i < |tree| && |up| == (|layer| + 1) / 2 && Climbing(h, whole, tree, j', up, n', branch + [tree[j + i]])
  {
    TreeStep(h, tree, j, layer, i);
    BranchStep(h, layer, n, branch);
  }

  lemma Regroup(a: seq<Hash>, x: Hash, b: seq<Hash>)
    ensures a + ([x] + b) == (a + [x]) + b
  {
  }

  method GetMerkleBranch(h: PairHash, leaves: seq<Hash>, index: nat) returns (branch: seq<Hash>)
    requires index < |leaves|
    ensures branch == Branch(h, leaves, index)
  {
    var tree, root := BuildMerkleTree(h, leaves);
    branch := [];
    var j: nat, size: nat, n: nat := 0, |leaves|, index;
    ghost var layer := leaves;
    assert tree[0..] == tree;
    while size > 1
      invariant |layer| == size && Climbing(h, Branch(h, leaves, index), tree, j, layer, n, branch)
      decreases size
    {
      var i := Min(Sibling(n), size - 1);
      ghost var up := Up(h, layer);
      TakeStep(h, Branch(h, leaves, index), tree, j, layer, i, n, branch, j + size, up, n / 2);
      branch := branch + [tree[j + i]];
      n := n / 2;
      j := j + size;
      size := (size + 1) / 2;
      layer := up;
    }
    assert Branch(h, layer, n) == [];
  }

  /** Index -1 stands for a transaction that is in no block. */
  method CheckMerkleBranch(h: PairHash, hash: Hash, branch: seq<Hash>, index: int) returns (r: Hash)
    ensures r == if index == -1 then 0 else Climb(h, hash, branch, index)
  {
    if index == -1 {
      return 0;
    }
    var n := index;
    r := hash;
    assert branch[0..] == branch;
    for k := 0 to |branch|
      invariant Climb(h, r, branch[k..], n) == Climb(h, hash, branch, index)
    {
      var other := branch[k];
      assert branch[k..][0] == other && branch[k..][1..] == branch[k + 1..];
      if n % 2 == 1 {
        r := h(other, r);
      } else {
        r := h(r, other);
      }
      n := n / 2;
    }
  }
}
