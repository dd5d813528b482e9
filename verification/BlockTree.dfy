/**
 The in-memory block tree: `Prev`/`Next` links, fork finding, reorganisation and the height lookup
 with its one-entry cache (src/main.cpp:986-1003, 2774-2980; src/main.h:1003-1155).

 `Prev`, the height and the chain trust of a block never change once it is indexed, so they are
 constants here; `Next` is the field the source rewrites. `ChainState` joins the tree with the database.
 */
module BlockTree {

  class BlockIndex {
    const prev: BlockIndex?
    const height: nat
    const trust: nat
    var next: BlockIndex?

    constructor (parent: BlockIndex?, work: nat)
      ensures prev == parent && next == null
      ensures height == if parent == null then 0 else parent.height + 1
      ensures trust == (if parent == null then 0 else parent.trust) + work
    {
      prev := parent;
      height := if parent == null then 0 else parent.height + 1;
      trust := (if parent == null then 0 else parent.trust) + work;
      next := null;
    }
  }

  /** Heights count the steps to a block without a parent, and trust never falls along the way. */
  ghost predicate Linked(b: BlockIndex)
    decreases b.height
  {
    if b.prev == null then b.height == 0
    else b.prev.height + 1 == b.height && b.prev.trust <= b.trust && Linked(b.prev)
  }

  /** a is b or one of its ancestors. */
  ghost predicate IsAncestor(a: BlockIndex, b: BlockIndex)
    requires Linked(b)
    decreases b.height
  {
    a == b || (b.prev != null && IsAncestor(a, b.prev))
  }

  /** The ancestor of b at a height: what walking `Prev` from b finds. */
  ghost function At(b: BlockIndex, h: nat): (a: BlockIndex)
    requires Linked(b) && h <= b.height
    ensures Linked(a) && a.height == h && IsAncestor(a, b) && a.trust <= b.trust
    decreases b.height
  {
    if b.height == h then b else At(b.prev, h)
  }

  /** How many blocks of the branch come after the first one that beats the trust: those left for later. */
  ghost function Postponed(b: BlockIndex, trust: nat): (n: nat)
    requires Linked(b)
    ensures n <= b.height
    decreases b.height
  {
    if b.prev == null || b.prev.trust <= trust then 0 else 1 + Postponed(b.prev, trust)
  }

  lemma {:induction false} AncestorIsAt(a: BlockIndex, b: BlockIndex)
    requires Linked(b) && IsAncestor(a, b)
    ensures Linked(a) && a.height <= b.height && At(b, a.height) == a && a.trust <= b.trust
    decreases b.height
  {
    if a != b {
      AncestorIsAt(a, b.prev);
    }
  }

  lemma {:induction false} AtAt(b: BlockIndex, h: nat, k: nat)
    requires Linked(b) && k <= h <= b.height
    ensures At(At(b, h), k) == At(b, k)
    decreases b.height
  {
    if b.height > h {
      AtAt(b.prev, h, k);
    }
  }

  /** What the `Next` field of b has to be when tip is the best block. */
  ghost function NextOn(tip: BlockIndex, b: BlockIndex): BlockIndex?
    requires Linked(tip)
  {
    if IsAncestor(b, tip) && b != tip then (AncestorIsAt(b, tip); At(tip, b.height + 1)) else null
  }

  /** Moving the tip from a block's parent to the block changes one `Next` field only. */
  lemma NextOnStep(p: BlockIndex, b: BlockIndex)
    requires Linked(p) && p.prev != null
    ensures NextOn(p, b) == if b == p.prev then p else NextOn(p.prev, b)
  {
    if IsAncestor(b, p.prev) {
      AncestorIsAt(b, p.prev);
    }
  }

  /** The last common block of two branches. */
  ghost predicate IsFork(f: BlockIndex, a: BlockIndex, b: BlockIndex)
    requires Linked(a) && Linked(b)
  {
    && IsAncestor(f, a) && IsAncestor(f, b)
    && forall h :: 0 <= h <= a.height && h <= b.height && At(a, h) == At(b, h) ==> h <= f.height
  }

  /** The blocks from tip down to, and without, height h. */
  ghost function Branch(tip: BlockIndex, h: nat): seq<BlockIndex>
    requires Linked(tip) && h <= tip.height
    decreases tip.height
  {
    if tip.height == h then [] else [tip] + Branch(tip.prev, h)
  }

  lemma BranchHead(tip: BlockIndex, h: nat, bs: seq<BlockIndex>, b: BlockIndex, rest: seq<BlockIndex>)
    requires Linked(tip) && h <= tip.height && bs == Branch(tip, h) && bs != [] && b == bs[0] && rest == bs[1..]
    ensures b == tip && tip.prev != null && h <= tip.prev.height && rest == Branch(tip.prev, h) && At(tip, h) == At(tip.prev, h)
  {
  }

  lemma {:induction false} BranchLast(tip: BlockIndex, h: nat, bs: seq<BlockIndex>)
    requires Linked(tip) && h <= tip.height && bs == Branch(tip, h) && bs != []
    ensures var b := bs[|bs| - 1];
      && h < tip.height && b == At(tip, h + 1) && b.height == h + 1 && b.prev == At(tip, h) && Linked(b)
      && bs[..|bs| - 1] == Branch(tip, h + 1)
    decreases tip.height
  {
    if tip.height > h + 1 {
      var rest := Branch(tip.prev, h);
      BranchLast(tip.prev, h, rest);
      assert bs[..|bs| - 1] == [tip] + rest[..|rest| - 1];
    }
  }

  /** What is left to connect when b, on the branch to tip, is the last block connected. */
  ghost predicate Left(tip: BlockIndex, b: BlockIndex, rest: seq<BlockIndex>) {
    Linked(tip) && b.height <= tip.height && b == At(tip, b.height) && rest == Branch(tip, b.height)
  }

  lemma LeftStep(tip: BlockIndex, b: BlockIndex, rest: seq<BlockIndex>, next: BlockIndex, rest': seq<BlockIndex>)
    requires Left(tip, b, rest) && rest != [] && next == rest[|rest| - 1] && rest' == rest[..|rest| - 1]
    ensures Linked(next) && next.prev == b && Left(tip, next, rest') && IsAncestor(next, tip)
  {
    BranchLast(tip, b.height, rest);
  }

  lemma {:induction false} LeftDown(tip: BlockIndex, b: BlockIndex, rest: seq<BlockIndex>)
    requires Left(tip, b, rest) && b.prev != null
    ensures Linked(b) && Left(tip, b.prev, rest + [b])
    decreases tip.height
  {
    if b == tip {
      assert Branch(tip, tip.prev.height) == [tip];
    } else {
      var above := Branch(tip.prev, b.height);
      LeftDown(tip.prev, b, above);
      assert rest + [b] == [tip] + (above + [b]);
    }
  }

  lemma LeftLength(tip: BlockIndex, b: BlockIndex, rest: seq<BlockIndex>)
    requires Left(tip, b, rest)
    ensures |rest| <= tip.height && b == At(tip, tip.height - |rest|) && (rest == [] ==> b == tip)
  {
    BranchLength(tip, b.height);
  }

  lemma {:induction false} BranchLength(tip: BlockIndex, h: nat)
    requires Linked(tip) && h <= tip.height
    ensures |Branch(tip, h)| == tip.height - h
    decreases tip.height
  {
    if tip.height > h {
      BranchLength(tip.prev, h);
    }
  }

  /** The first block of the branch to tip that beats the trust; tip itself if its parent does not. */
  ghost function Overtakes(tip: BlockIndex, trust: nat): (b: BlockIndex)
    requires Linked(tip)
    ensures Linked(b) && b.height <= tip.height && b == At(tip, b.height)
  {
    At(tip, tip.height - Postponed(tip, trust))
  }

  /** The first block of the branch to tip that beats the trust: it does, unless it is tip itself, and its parent
      does not. */
  ghost predicate FirstAbove(start: BlockIndex, tip: BlockIndex, trust: nat)
    requires Linked(tip)
  {
    && Linked(start) && start.height <= tip.height
    && IsAncestor(start, tip) && (start == tip || start.trust > trust)
    && (start.prev == null || start.prev.trust <= trust)
  }

  lemma {:induction false} OvertakesFirst(tip: BlockIndex, trust: nat)
    requires Linked(tip)
    ensures FirstAbove(Overtakes(tip, trust), tip, trust)
    decreases tip.height
  {
    if Postponed(tip, trust) > 0 {
      OvertakesFirst(tip.prev, trust);
    }
  }

  /** There is only one such block. */
  lemma {:induction false} FirstAboveUnique(start: BlockIndex, tip: BlockIndex, trust: nat)
    requires Linked(tip) && FirstAbove(start, tip, trust)
    ensures start == Overtakes(tip, trust)
    decreases tip.height
  {
    if start == tip {
    } else {
      AncestorIsAt(start, tip.prev);
      FirstAboveUnique(start, tip.prev, trust);
    }
  }

  lemma NextOfAt(tip: BlockIndex, k: nat)
    requires Linked(tip) && k < tip.height
    ensures NextOn(tip, At(tip, k)) == At(tip, k + 1)
  {
  }

  class Chain {
    var blocks: set<BlockIndex>
    var genesis: BlockIndex?
    var best: BlockIndex?
    var bestHeight: int
    var lastFound: BlockIndex?

    constructor ()
      ensures Valid() && genesis == null
    {
      blocks, genesis, best, bestHeight, lastFound := {}, null, null, -1, null;
    }

    ghost predicate NodeOk(b: BlockIndex)
      reads this`blocks, this`genesis
    {
      Linked(b) && (b.prev != null ==> b.prev in blocks) && (b.height == 0 ==> b == genesis)
    }

    ghost predicate Has(b: BlockIndex)
      reads this`blocks, this`genesis
    {
      b in blocks && NodeOk(b)
    }

    /** The index is one tree: every block hangs off the genesis block. */
    ghost predicate Tree()
      reads this`blocks, this`genesis, this`best, this`bestHeight
    {
      && (forall b {:trigger NodeOk(b)} :: b in blocks ==> NodeOk(b))
      && (best != null ==> Has(best) && bestHeight == best.height && genesis in blocks)
      && (genesis != null ==> genesis in blocks && genesis.height == 0)
      && (genesis == null ==> best == null && blocks == {})
    }

    /** Exactly the main chain is linked forward, up to the given tip. */
    ghost predicate LinkedTo(tip: BlockIndex)
      reads this`blocks, blocks
      requires Linked(tip)
    {
      forall b :: b in blocks ==> b.next == NextOn(tip, b)
    }

    ghost predicate Valid()
      reads this, blocks
    {
      && Tree()
      && (best != null ==> LinkedTo(best))
      && (lastFound != null ==> best != null && IsAncestor(lastFound, best) && Has(lastFound))
    }

    /** `IsInMainChain` (src/main.h:1155), without the no-reorganisation shortcut flag. */
    predicate IsInMainChain(b: BlockIndex)
      reads this, b
    {
      b.next != null || b == best
    }

    lemma MainChainIsAncestors(b: BlockIndex)
      requires Valid() && best != null && Has(b)
      ensures IsInMainChain(b) <==> IsAncestor(b, best)
    {
    }

    lemma InTree(b: BlockIndex, h: nat)
      requires Tree() && Has(b) && h <= b.height
      ensures Linked(b) && Has(At(b, h))
      decreases b.height
    {
      if b.height > h {
        InTree(b.prev, h);
      }
    }

    lemma HasAncestor(a: BlockIndex, b: BlockIndex)
      requires Tree() && Has(b) && IsAncestor(a, b)
      ensures Has(a)
    {
      AncestorIsAt(a, b);
      InTree(b, a.height);
    }

    /** Every two indexed blocks share the genesis block. */
    lemma SharedRoot(b: BlockIndex)
      requires Tree() && Has(b)
      ensures genesis != null && Linked(b) && IsAncestor(genesis, b)
    {
      InTree(b, 0);
    }

    method FindFork(a: BlockIndex, b: BlockIndex) returns (fork: BlockIndex)
      requires Tree() && Has(a) && Has(b)
      ensures Has(fork) && IsFork(fork, a, b)
    {
      SharedRoot(a);
      SharedRoot(b);
      AncestorIsAt(genesis, a);
      AncestorIsAt(genesis, b);
      fork := a;
      var longer: BlockIndex := b;
      while fork != longer
        invariant Has(fork) && Has(longer) && fork.height <= a.height && longer.height <= b.height
        invariant fork == At(a, fork.height) && longer == At(b, longer.height)
        invariant forall h :: 0 <= h <= a.height && h <= b.height && At(a, h) == At(b, h) ==> h <= fork.height && h <= longer.height
        decreases fork.height + longer.height
      {
        while longer.height > fork.height
          invariant Has(longer) && longer.height <= b.height && longer == At(b, longer.height)
          invariant forall h :: 0 <= h <= a.height && h <= b.height && At(a, h) == At(b, h) ==> h <= longer.height
          decreases longer.height
        {
          AtAt(b, longer.height, longer.height - 1);
          longer := longer.prev;
        }
        if fork == longer {
          break;
        }
        assert At(a, 0) == At(b, 0);
        assert fork.height > 0;
        AtAt(a, fork.height, fork.height - 1);
        fork := fork.prev;
      }
    }

    /** The block at a height of the main chain, found by walking from the nearest of the genesis
        block, the best block and the last answer. */
    method FindBlockByHeight(h: nat) returns (r: BlockIndex?)
      requires Valid() && best != null
      modifies this`lastFound
      ensures Valid()
      ensures r == if h > best.height then null else At(best, h)
    {
      if h > bestHeight {
        return null;
      }
      SharedRoot(best);
      AncestorIsAt(genesis, best);
      var b := if h < bestHeight / 2 then genesis else best;
      if lastFound != null && Abs(h - b.height) > Abs(h - lastFound.height) {
        AncestorIsAt(lastFound, best);
        b := lastFound;
      }
      b := WalkBack(b, h);
      b := WalkForward(b, h);
      lastFound := b;
      r := b;
    }

    method WalkBack(start: BlockIndex, h: nat) returns (b: BlockIndex)
      requires Tree() && best != null && Has(start) && start.height <= best.height && start == At(best, start.height)
      requires h <= best.height
      ensures Has(b) && b.height <= h && b == At(best, b.height)
    {
      b := start;
      while b.height > h
        invariant Has(b) && b.height <= best.height && b == At(best, b.height)
        decreases b.height
      {
        AtAt(best, b.height, b.height - 1);
        b := b.prev;
      }
    }

    method WalkForward(start: BlockIndex, h: nat) returns (b: BlockIndex)
      requires Tree() && best != null && LinkedTo(best) && h <= best.height
      requires Has(start) && start.height <= h && start == At(best, start.height)
      ensures Has(b) && b == At(best, h)
    {
      b := start;
      while b.height < h
        invariant Has(b) && b.height <= h && b == At(best, b.height)
        decreases h - b.height
      {
        InTree(best, b.height + 1);
        NextOfAt(best, b.height);
        b := b.next;
      }
    }

    /** Collect the blocks from tip down to the fork. */
    method Collect(tip: BlockIndex, fork: BlockIndex) returns (path: seq<BlockIndex>)
      requires Tree() && Has(tip) && IsAncestor(fork, tip)
      ensures fork.height <= tip.height && path == Branch(tip, fork.height)
    {
      AncestorIsAt(fork, tip);
      path := [];
      var b: BlockIndex := tip;
      while b != fork
        invariant Has(b) && fork.height <= b.height <= tip.height && IsAncestor(fork, b)
        invariant path + Branch(b, fork.height) == Branch(tip, fork.height)
        decreases b.height
      {
        AncestorIsAt(fork, b.prev);
        assert Branch(b, fork.height) == [b] + Branch(b.prev, fork.height);
        path := path + [b];
        b := b.prev;
      }
    }

    /** Clear the forward links of the blocks of the old branch, last one first. */
    method Unlink(disconnect: seq<BlockIndex>, fork: BlockIndex)
      requires Tree() && best != null && LinkedTo(best) && fork.height <= best.height && fork == At(best, fork.height)
      requires disconnect == Branch(best, fork.height)
      modifies blocks
      ensures LinkedTo(fork)
    {
      var rest := disconnect;
      ghost var b: BlockIndex := best;
      while rest != []
        invariant Has(b) && LinkedTo(b) && fork.height <= b.height && fork == At(b, fork.height) && rest == Branch(b, fork.height)
        decreases |rest|
      {
        var last, rest' := rest[0], rest[1..];
        BranchHead(b, fork.height, rest, last, rest');
        Disconnect(last);
        b, rest := b.prev, rest';
      }
    }

    /** Set the forward links along the new branch, from the fork on. */
    method Relink(tip: BlockIndex, connect: seq<BlockIndex>, fork: BlockIndex)
      requires Tree() && Has(tip) && Linked(fork) && Left(tip, fork, connect) && LinkedTo(fork)
      modifies blocks
      ensures LinkedTo(tip)
    {
      var rest := connect;
      ghost var b: BlockIndex := fork;
      while rest != []
        invariant Linked(b) && Left(tip, b, rest) && LinkedTo(b)
        decreases |rest|
      {
        var next, front := rest[|rest| - 1], rest[..|rest| - 1];
        LeftStep(tip, b, rest, next, front);
        HasAncestor(next, tip);
        Connect(next);
        b, rest := next, front;
      }
      LeftLength(tip, b, rest);
    }

    /** Attach one block to the end of the linked chain. */
    method Connect(b: BlockIndex)
      requires Tree() && Has(b) && b.prev != null && LinkedTo(b.prev)
      modifies blocks
      ensures LinkedTo(b)
    {
      b.prev.next := b;
      forall x | x in blocks ensures x.next == NextOn(b, x) {
        NextOnStep(b, x);
      }
    }

    /** Detach the last block of the linked chain. */
    method Disconnect(b: BlockIndex)
      requires Tree() && Has(b) && b.prev != null && LinkedTo(b)
      modifies blocks
      ensures LinkedTo(b.prev)
    {
      b.prev.next := null;
      forall x | x in blocks ensures x.next == NextOn(b.prev, x) {
        NextOnStep(b, x);
      }
    }

    /** Index a block below an indexed parent (src/main.cpp:3036-3050). */
    method AddBlock(parent: BlockIndex, work: nat) returns (b: BlockIndex)
      requires Valid() && Has(parent)
      modifies this`blocks
      ensures Valid() && Has(b) && fresh(b) && b.prev == parent && blocks == old(blocks) + {b}
      ensures b.height == parent.height + 1 && b.trust == parent.trust + work && b.next == null
    {
      b := new BlockIndex(parent, work);
      if best != null && IsAncestor(b, best) {
        AncestorIsAt(b, best);
        InTree(best, b.height);
        assert false;
      }
      ghost var before := blocks;
      label L:
      blocks := blocks + {b};
      forall x | x in before ensures NodeOk(x) {
        assert old@L(NodeOk(x));
      }
    }

    /** The first block: it becomes both the genesis and the best block (src/main.cpp:2913-2917, 2975-2980). */
    method AddGenesis(work: nat) returns (b: BlockIndex)
      requires Valid() && genesis == null
      modifies this
      ensures Valid() && genesis == best == b && blocks == {b} && fresh(b)
      ensures b.prev == null && b.height == 0 && b.trust == work
    {
      b := new BlockIndex(null, work);
      blocks := {b};
      genesis, best, bestHeight, lastFound := b, b, 0, null;
    }

    /** Announce a block as the best one (src/main.cpp:2975-2980). */
    method Adopt(tip: BlockIndex)
      requires Tree() && genesis != null && Has(tip)
      modifies this`best, this`bestHeight, this`lastFound
      ensures best == tip && Tree() && (Valid() <==> LinkedTo(tip))
    {
      best := tip;
      lastFound := null;
      bestHeight := tip.height;
      assert Tree() by {
        forall b | b in blocks ensures NodeOk(b) {
          assert old(NodeOk(b));
        }
      }
    }

    /** Walk back to the first block of the new branch that already beats the best block. */
    method Postpone(tip: BlockIndex) returns (intermediate: BlockIndex, secondary: seq<BlockIndex>)
      requires Tree() && best != null && Has(tip)
      ensures Has(intermediate) && intermediate == Overtakes(tip, best.trust) && Left(tip, intermediate, secondary)
      ensures |secondary| == Postponed(tip, best.trust)
      ensures IsAncestor(intermediate, tip) && (intermediate == tip || intermediate.trust > best.trust)
      ensures intermediate.prev == null || intermediate.prev.trust <= best.trust
      ensures forall b :: b in secondary ==> b.prev != null && b.prev.trust > best.trust
    {
      intermediate, secondary := tip, [];
      while intermediate.prev != null && intermediate.prev.trust > best.trust
        invariant Has(intermediate) && Left(tip, intermediate, secondary)
        invariant |secondary| + Postponed(intermediate, best.trust) == Postponed(tip, best.trust)
        invariant forall b :: b in secondary ==> b.prev != null && b.prev.trust > best.trust
        decreases intermediate.height
      {
        LeftDown(tip, intermediate, secondary);
        secondary := secondary + [intermediate];
        intermediate := intermediate.prev;
      }
      LeftLength(tip, intermediate, secondary);
      OvertakesFirst(tip, best.trust);
    }

    lemma Behind(tip: BlockIndex, missing: nat)
      requires Tree() && Has(tip) && 0 < missing <= tip.height && LinkedTo(At(tip, tip.height - missing))
      ensures !LinkedTo(tip)
    {
      InTree(tip, tip.height - missing);
      StaleLink(At(tip, tip.height - missing), tip);
    }

    /** Forward links that stop at an ancestor of the tip do not describe the tip's chain. */
    lemma StaleLink(reached: BlockIndex, tip: BlockIndex)
      requires Tree() && Has(tip) && Has(reached) && IsAncestor(reached, tip) && reached != tip
      requires LinkedTo(reached)
      ensures !LinkedTo(tip)
    {
      AncestorIsAt(reached, tip);
      NextOnStep(tip, tip.prev);
      if IsAncestor(tip.prev, reached) {
        AncestorIsAt(tip.prev, reached);
      }
      assert NextOn(reached, tip.prev) == null;
    }
  }

  function Abs(x: int): nat { if x < 0 then -x else x }
}
