/**
 The block tree and the transaction index together (src/main.cpp:2774-2980): extending the best chain,
 reorganising to another branch and connecting the postponed blocks, each with what it does to the index.

 The contents of blocks come from `disk`. Reading a block and the checks on it that the index does not make
 are one yes/no input per block (`io`), and so is the commit of a reorganisation.
 */
module ChainState {
  import opened Wrappers
  import opened TxIndex
  import opened TxDb
  import opened BlockTree

  type Disk = map<BlockIndex, seq<Placed>>

  function Txs(disk: Disk, b: BlockIndex): seq<Placed> { if b in disk then disk[b] else [] }

  /** The blocks of a chain whose transactions are in the index: all but the first one, which
      `SetBestChain` announces without connecting it. */
  ghost function Contents(disk: Disk, tip: BlockIndex): seq<seq<Placed>>
    requires Linked(tip)
    decreases tip.height
  {
    if tip.prev == null then [] else Contents(disk, tip.prev) + [Txs(disk, tip)]
  }

  /** Block k of the contents is the one stored for the ancestor at height k + 1. */
  lemma {:induction false} ContentsAt(disk: Disk, tip: BlockIndex, k: nat)
    requires Linked(tip) && k < tip.height && At(tip, k + 1) in disk
    ensures |Contents(disk, tip)| == tip.height && Contents(disk, tip)[k] == disk[At(tip, k + 1)]
    decreases tip.height
  {
    ContentsLength(disk, tip);
    if k + 1 < tip.height {
      ContentsAt(disk, tip.prev, k);
    } else {
      ContentsLength(disk, tip.prev);
    }
  }

  lemma {:induction false} ContentsLength(disk: Disk, tip: BlockIndex)
    requires Linked(tip)
    ensures |Contents(disk, tip)| == tip.height
    decreases tip.height
  {
    if tip.height > 0 {
      ContentsLength(disk, tip.prev);
    }
  }

  lemma {:induction false} ContentsSame(disk: Disk, disk': Disk, tip: BlockIndex)
    requires Linked(tip) && forall a: BlockIndex | a in disk.Keys + disk'.Keys :: IsAncestor(a, tip) ==> Txs(disk, a) == Txs(disk', a)
    ensures Contents(disk, tip) == Contents(disk', tip)
    decreases tip.height
  {
    if tip.prev != null {
      ContentsSame(disk, disk', tip.prev);
    }
  }

  /** Disconnecting the given blocks, in the given order. */
  ghost function UndoAll(disk: Disk, idx: Index, bs: seq<BlockIndex>): Option<Index>
    decreases |bs|
  {
    if bs == [] then Some(idx)
    else
      match DisconnectAll(idx, Txs(disk, bs[0]))
      case None => None
      case Some(idx1) => UndoAll(disk, idx1, bs[1..])
  }

  /** The transactions of the blocks above height h, in the order of the chain. */
  ghost function BranchTxs(disk: Disk, tip: BlockIndex, h: nat): seq<Placed>
    requires Linked(tip) && h <= tip.height
    decreases tip.height
  {
    if tip.height == h then [] else BranchTxs(disk, tip.prev, h) + Txs(disk, tip)
  }

  /** Undoing the blocks of a branch is undoing their transactions, last one first. */
  lemma {:induction false} UndoIsDisconnect(disk: Disk, idx: Index, tip: BlockIndex, h: nat)
    requires Linked(tip) && h <= tip.height
    ensures UndoAll(disk, idx, Branch(tip, h)) == DisconnectAll(idx, BranchTxs(disk, tip, h))
    decreases tip.height
  {
    if tip.height > h {
      DisconnectJoin(idx, BranchTxs(disk, tip.prev, h), Txs(disk, tip));
      assert Branch(tip, h)[1..] == Branch(tip.prev, h);
      if DisconnectAll(idx, Txs(disk, tip)).Some? {
        UndoIsDisconnect(disk, DisconnectAll(idx, Txs(disk, tip)).value, tip.prev, h);
      }
    }
  }

  /** A branch can be undone exactly when every output that its inputs spent is in the index and none of their
      ids was used again higher up. */
  lemma UndoableIff(disk: Disk, idx: Index, tip: BlockIndex, h: nat)
    requires Linked(tip) && h <= tip.height
    ensures UndoAll(disk, idx, Branch(tip, h)).Some? <==> Undoable(idx, BranchTxs(disk, tip, h))
  {
    UndoIsDisconnect(disk, idx, tip, h);
    DisconnectIff(idx, BranchTxs(disk, tip, h));
  }

  ghost predicate AllRead(io: BlockIndex -> bool, bs: seq<BlockIndex>) { forall i :: 0 <= i < |bs| ==> io(bs[i]) }

  lemma ReadHead(io: BlockIndex -> bool, bs: seq<BlockIndex>, first: BlockIndex, rest: seq<BlockIndex>)
    requires bs != [] && first == bs[0] && rest == bs[1..]
    ensures AllRead(io, bs) <==> io(first) && AllRead(io, rest)
  {
    assert bs == [first] + rest;
  }

  lemma ReadStep(io: BlockIndex -> bool, bs: seq<BlockIndex>, last: BlockIndex, front: seq<BlockIndex>)
    requires bs != [] && last == bs[|bs| - 1] && front == bs[..|bs| - 1]
    ensures AllRead(io, bs) <==> AllRead(io, front) && io(last)
  {
  }

  /** The index stands at a block: it is that of the chain up to there, but for lost entries of fully spent
      transactions. */
  ghost predicate IndexAt(disk: Disk, idx: Index, b: BlockIndex)
    requires Linked(b)
  {
    Reflects(ChainDb(Contents(disk, b), idx))
  }

  /** Connecting a block above the one where the index stands succeeds exactly when connecting the whole
      chain from scratch does. */
  lemma ConnectsIff(disk: Disk, idx: Index, b: BlockIndex)
    requires Linked(b) && b.prev != null && WellPlaced(Txs(disk, b)) && IndexAt(disk, idx, b.prev)
    ensures ConnectAll(idx, idx, Txs(disk, b)).Some? <==> Build(Contents(disk, b)).Some?
    ensures ConnectAll(idx, idx, Txs(disk, b)).Some? ==> IndexAt(disk, ConnectAll(idx, idx, Txs(disk, b)).value, b)
  {
    var before, txs := Contents(disk, b.prev), Txs(disk, b);
    assert Contents(disk, b) == before + [txs] && (before + [txs])[..|before|] == before;
    var full := Build(before).value;
    ConnectAllForgets(full, idx, full, idx, txs);
    if ConnectAll(idx, idx, txs).Some? {
      ConnectReflects(before, idx, txs);
    }
  }

  lemma DisconnectsTo(disk: Disk, idx: Index, b: BlockIndex)
    requires Linked(b) && b.prev != null && IndexAt(disk, idx, b) && DisconnectAll(idx, Txs(disk, b)).Some?
    ensures IndexAt(disk, DisconnectAll(idx, Txs(disk, b)).value, b.prev)
  {
    var before, txs := Contents(disk, b.prev), Txs(disk, b);
    LastDisconnected(Contents(disk, b), before, txs, idx, DisconnectAll(idx, txs).value);
  }

  /** No block above height h uses an id again that the chain below it left in the index. */
  ghost predicate NewIds(disk: Disk, tip: BlockIndex, h: nat)
    requires Linked(tip) && h <= tip.height
    decreases tip.height
  {
    tip.height > h ==>
      && Build(Contents(disk, tip.prev)).Some? && Ids(Txs(disk, tip)) !! Build(Contents(disk, tip.prev)).value.Keys
      && NewIds(disk, tip.prev, h)
  }

  /** Undoing a branch without reused ids never fails and gives exactly the index of the chain up to the fork. */
  lemma {:induction false} UndoesExactly(disk: Disk, idx: Index, tip: BlockIndex, h: nat)
    requires Linked(tip) && h <= tip.height && NewIds(disk, tip, h) && Build(Contents(disk, tip)) == Some(idx)
    ensures UndoAll(disk, idx, Branch(tip, h)).Some?
    ensures UndoAll(disk, idx, Branch(tip, h)) == Build(Contents(disk, At(tip, h)))
    decreases tip.height
  {
    if tip.height > h {
      var before, txs := Contents(disk, tip.prev), Txs(disk, tip);
      var idx1 := Build(before).value;
      NewIdsUndone(Contents(disk, tip), before, txs, idx, idx1);
      UndoesExactly(disk, idx1, tip.prev, h);
      UndoFirst(disk, idx, Branch(tip, h), tip, Branch(tip.prev, h), idx1);
    }
  }

  lemma NewIdsUndone(blocks: seq<seq<Placed>>, before: seq<seq<Placed>>, txs: seq<Placed>, idx: Index, idx1: Index)
    requires blocks == before + [txs] && Build(blocks) == Some(idx) && Build(before) == Some(idx1) && Ids(txs) !! idx1.Keys
    ensures DisconnectAll(idx, txs) == Some(idx1)
  {
    assert blocks[..|blocks| - 1] == before && blocks[|blocks| - 1] == txs;
    DisconnectBuilds(blocks, idx);
    assert idx1 - Ids(txs) == idx1;
  }

  lemma UndoFirst(disk: Disk, idx: Index, bs: seq<BlockIndex>, first: BlockIndex, rest: seq<BlockIndex>, idx1: Index)
    requires bs == [first] + rest && DisconnectAll(idx, Txs(disk, first)) == Some(idx1)
    ensures UndoAll(disk, idx, bs) == UndoAll(disk, idx1, rest)
  {
    assert bs[1..] == rest;
  }

  lemma {:induction false} BuildDown(disk: Disk, tip: BlockIndex, h: nat)
    requires Linked(tip) && h <= tip.height && Build(Contents(disk, tip)).Some?
    ensures Build(Contents(disk, At(tip, h))).Some?
    decreases tip.height
  {
    if tip.height > h {
      var before := Contents(disk, tip.prev);
      assert Contents(disk, tip)[..|before|] == before;
      BuildDown(disk, tip.prev, h);
    }
  }

  lemma NotBuilt(disk: Disk, tip: BlockIndex, b: BlockIndex)
    requires Linked(tip) && b.height <= tip.height && b == At(tip, b.height)
    ensures Build(Contents(disk, b)).None? ==> Build(Contents(disk, tip)).None?
  {
    if Build(Contents(disk, tip)).Some? {
      BuildDown(disk, tip, b.height);
    }
  }

  /** The last common block, with its place on both branches. */
  ghost predicate Forked(fork: BlockIndex, a: BlockIndex, b: BlockIndex)
    requires Linked(a) && Linked(b)
  {
    && IsFork(fork, a, b) && fork.height <= a.height && fork.height <= b.height
    && fork == At(a, fork.height) && fork == At(b, fork.height)
  }

  /** Every block on both sides of the fork can be read and passes its checks, the outputs spent on the old side
      are all in the index with ids not used again there, and the new chain connects from scratch. */
  ghost predicate CanSwitch(disk: Disk, idx: Index, best: BlockIndex, tip: BlockIndex, io: BlockIndex -> bool, fork: BlockIndex)
    requires Linked(best) && Linked(tip) && Forked(fork, best, tip)
  {
    && AllRead(io, Branch(best, fork.height)) && AllRead(io, Branch(tip, fork.height))
    && Undoable(idx, BranchTxs(disk, best, fork.height)) && Build(Contents(disk, tip)).Some?
  }

  /** The given blocks can be read and pass their checks, and the whole chain connects from scratch. */
  ghost predicate Completes(disk: Disk, tip: BlockIndex, rest: seq<BlockIndex>, io: BlockIndex -> bool)
    requires Linked(tip)
  {
    AllRead(io, rest) && Build(Contents(disk, tip)).Some?
  }

  lemma ExtendIsSwitch(disk: Disk, idx: Index, best: BlockIndex, tip: BlockIndex, io: BlockIndex -> bool)
    requires Linked(tip) && tip.prev == best
    ensures FirstAbove(tip, tip, best.trust) && Forked(best, best, tip)
    ensures CanSwitch(disk, idx, best, tip, io, best) <==> io(tip) && Build(Contents(disk, tip)).Some?
  {
    assert Branch(best, best.height) == [] && Branch(tip, best.height) == [tip];
    assert [tip][0] == tip;
  }

  class Node {
    const chain: Chain
    const db: Database
    var disk: Disk

    ghost predicate Stored()
      reads this`disk
    {
      forall b {:trigger disk[b]} :: b in disk ==> WellPlaced(disk[b])
    }

    lemma StoredTxs(b: BlockIndex)
      requires Stored()
      ensures WellPlaced(Txs(disk, b))
    {
    }

    /** The forward links and the index both stand at a block. */
    ghost predicate StandsAt(b: BlockIndex)
      reads this`disk, chain, chain.blocks, db
    {
      chain.Tree() && chain.Has(b) && chain.LinkedTo(b) && IndexAt(disk, db.index, b)
    }

    /** Links and index stand that many blocks before tip. */
    ghost predicate StandsBehind(tip: BlockIndex, missing: nat)
      reads this`disk, chain, chain.blocks, db
    {
      Linked(tip) && missing <= tip.height && StandsAt(At(tip, tip.height - missing))
    }

    /** The best block is where links and index stand. */
    ghost predicate Valid()
      reads this`disk, chain, chain.blocks, db
    {
      && Stored() && chain.Valid() && (forall b {:trigger b in disk} :: b in disk ==> b in chain.blocks)
      && (if chain.best == null then db.index == map[] else IndexAt(disk, db.index, chain.best))
    }

    constructor ()
      ensures Valid() && chain.genesis == null && chain.best == null && fresh(chain) && fresh(db)
    {
      chain := new Chain();
      db := new Database();
      disk := map[];
    }

    method AddGenesis(work: nat) returns (b: BlockIndex)
      requires Valid() && chain.genesis == null
      modifies this, chain
      ensures Valid() && fresh(b) && chain.genesis == chain.best == b && chain.blocks == {b} && b.trust == work
    {
      b := chain.AddGenesis(work);
      assert disk == map[];
      assert Contents(disk, b) == [];
    }

    /** Store and index a block below an indexed parent. */
    method AddBlock(parent: BlockIndex, work: nat, txs: seq<Placed>) returns (b: BlockIndex)
      requires Valid() && chain.best != null && chain.Has(parent) && WellPlaced(txs)
      modifies this`disk, chain`blocks
      ensures Valid() && fresh(b) && chain.Has(b) && chain.blocks == old(chain.blocks) + {b} && disk == old(disk)[b := txs]
      ensures b.prev == parent && b.height == parent.height + 1 && b.trust == parent.trust + work && chain.best == old(chain.best)
    {
      ghost var best := chain.best;
      b := chain.AddBlock(parent, work);
      ghost var before := disk;
      disk := disk[b := txs];
      forall a: BlockIndex | a in before.Keys + disk.Keys && IsAncestor(a, best) ensures Txs(before, a) == Txs(disk, a) {
        AncestorIsAt(a, best);
      }
      ContentsSame(before, disk, best);
    }

    method DisconnectOne(b: BlockIndex, io: BlockIndex -> bool) returns (ok: bool)
      requires Linked(b) && b.prev != null && IndexAt(disk, db.index, b)
      modifies db
      ensures ok <==> io(b) && DisconnectAll(old(db.index), Txs(disk, b)).Some?
      ensures ok ==> DisconnectAll(old(db.index), Txs(disk, b)) == Some(db.index) && IndexAt(disk, db.index, b.prev)
    {
      if !io(b) {
        return false;
      }
      ghost var idx := db.index;
      ok := db.DisconnectBlock(Txs(disk, b));
      if ok {
        DisconnectsTo(disk, idx, b);
      }
    }

    /** Connect one block above the one where the index stands, or change nothing. */
    method ConnectOne(b: BlockIndex, io: BlockIndex -> bool) returns (ok: bool)
      requires Stored() && Linked(b) && b.prev != null && IndexAt(disk, db.index, b.prev)
      modifies db
      ensures ok <==> io(b) && Build(Contents(disk, b)).Some?
      ensures ok ==> IndexAt(disk, db.index, b)
      ensures ok && b in disk ==> BlockSound(old(db.index), disk[b]) && Offers(old(db.index), disk[b], db.index)
      ensures !ok ==> db.index == old(db.index)
    {
      if !io(b) {
        return false;
      }
      StoredTxs(b);
      ConnectsIff(disk, db.index, b);
      ok := db.ConnectBlock(Txs(disk, b));
    }

    /** Disconnect the blocks of a branch, last one first; the index ends at the fork. */
    method Undo(tip: BlockIndex, bs: seq<BlockIndex>, ghost fork: BlockIndex, io: BlockIndex -> bool) returns (ok: bool)
      requires Linked(tip) && fork.height <= tip.height && fork == At(tip, fork.height) && bs == Branch(tip, fork.height)
      requires IndexAt(disk, db.index, tip)
      modifies db
      ensures ok <==> AllRead(io, bs) && Undoable(old(db.index), BranchTxs(disk, tip, fork.height))
      ensures ok ==> IndexAt(disk, db.index, fork)
    {
      UndoableIff(disk, db.index, tip, fork.height);
      ok := UndoBlocks(tip, bs, fork, io);
    }

    method UndoBlocks(tip: BlockIndex, bs: seq<BlockIndex>, ghost fork: BlockIndex, io: BlockIndex -> bool) returns (ok: bool)
      requires Linked(tip) && fork.height <= tip.height && fork == At(tip, fork.height) && bs == Branch(tip, fork.height)
      requires IndexAt(disk, db.index, tip)
      modifies db
      ensures ok <==> AllRead(io, bs) && UndoAll(disk, old(db.index), bs).Some?
      ensures ok ==> IndexAt(disk, db.index, fork)
    {
      ghost var b: BlockIndex := tip;
      var rest := bs;
      while rest != []
        invariant Linked(b) && fork.height <= b.height && fork == At(b, fork.height)
        invariant rest == Branch(b, fork.height) && IndexAt(disk, db.index, b)
        invariant UndoAll(disk, old(db.index), bs) == UndoAll(disk, db.index, rest)
        invariant AllRead(io, bs) <==> AllRead(io, rest)
        decreases |rest|
      {
        var last, rest' := rest[0], rest[1..];
        BranchHead(b, fork.height, rest, last, rest');
        ReadHead(io, rest, last, rest');
        ok := DisconnectOne(last, io);
        if !ok {
          return;
        }
        b, rest := b.prev, rest';
      }
      ok := true;
    }

    /** Connect the blocks of a branch, given from the tip down, starting at the fork. */
    method Redo(tip: BlockIndex, bs: seq<BlockIndex>, ghost fork: BlockIndex, io: BlockIndex -> bool) returns (ok: bool)
      requires Stored() && Linked(tip) && fork.height <= tip.height && fork == At(tip, fork.height) && bs == Branch(tip, fork.height)
      requires IndexAt(disk, db.index, fork)
      modifies db
      ensures ok <==> AllRead(io, bs) && Build(Contents(disk, tip)).Some?
      ensures ok ==> IndexAt(disk, db.index, tip)
    {
      ghost var b: BlockIndex := fork;
      var rest := bs;
      while rest != []
        invariant Left(tip, b, rest) && Linked(b) && IndexAt(disk, db.index, b)
        invariant AllRead(io, bs) <==> AllRead(io, rest)
        decreases |rest|
      {
        var next, front := rest[|rest| - 1], rest[..|rest| - 1];
        LeftStep(tip, b, rest, next, front);
        ReadStep(io, rest, next, front);
        ok := ConnectOne(next, io);
        if !ok {
          NotBuilt(disk, tip, next);
          return;
        }
        b, rest := next, front;
      }
      LeftLength(tip, b, rest);
      ok := true;
    }

    /** The fork and the two lists of blocks, each from its tip down. */
    method Paths(tip: BlockIndex) returns (fork: BlockIndex, disconnect: seq<BlockIndex>, connect: seq<BlockIndex>)
      requires chain.Tree() && chain.best != null && chain.Has(tip)
      ensures Forked(fork, chain.best, tip)
      ensures disconnect == Branch(chain.best, fork.height) && connect == Branch(tip, fork.height)
    {
      fork := chain.FindFork(chain.best, tip);
      AncestorIsAt(fork, chain.best);
      AncestorIsAt(fork, tip);
      disconnect := chain.Collect(chain.best, fork);
      connect := chain.Collect(tip, fork);
    }

    /** The memory part: the forward links leave the old branch and follow the new one. */
    method Relink(tip: BlockIndex, disconnect: seq<BlockIndex>, connect: seq<BlockIndex>, fork: BlockIndex)
      requires chain.Tree() && chain.best != null && chain.Has(tip) && chain.LinkedTo(chain.best) && Forked(fork, chain.best, tip)
      requires disconnect == Branch(chain.best, fork.height) && connect == Branch(tip, fork.height)
      modifies chain.blocks
      ensures chain.LinkedTo(tip)
    {
      chain.Unlink(disconnect, fork);
      chain.Relink(tip, connect, fork);
    }

    /** The database part. */
    method Replay(best: BlockIndex, tip: BlockIndex, disconnect: seq<BlockIndex>, connect: seq<BlockIndex>, ghost fork: BlockIndex, io: BlockIndex -> bool)
      returns (ok: bool)
      requires Stored() && Linked(best) && Linked(tip) && Forked(fork, best, tip)
      requires disconnect == Branch(best, fork.height) && connect == Branch(tip, fork.height) && IndexAt(disk, db.index, best)
      modifies db
      ensures ok <==> CanSwitch(disk, old(db.index), best, tip, io, fork)
      ensures ok ==> IndexAt(disk, db.index, tip)
    {
      ok := Undo(best, disconnect, fork, io);
      if ok {
        ok := Redo(tip, connect, fork, io);
      }
    }

    /** Switch from the best block to another branch: find the fork, disconnect down to it, connect up to the
        tip, and when all of it is committed, move the forward links. */
    method Reorganize(tip: BlockIndex, io: BlockIndex -> bool, commit: bool) returns (ok: bool, ghost fork: BlockIndex)
      requires Stored() && chain.Tree() && chain.best != null && StandsAt(chain.best) && chain.Has(tip)
      modifies chain.blocks, db
      ensures Forked(fork, chain.best, tip)
      ensures ok <==> commit && CanSwitch(disk, old(db.index), chain.best, tip, io, fork)
      ensures ok ==> StandsAt(tip)
      ensures !ok ==> chain.LinkedTo(chain.best)
    {
      var f, disconnect, connect := Paths(tip);
      fork := f;
      ok := Replay(chain.best, tip, disconnect, connect, f, io);
      ok := ok && commit;
      if ok {
        Relink(tip, disconnect, connect, f);
      }
    }

    /** Connect the postponed blocks as far as that goes. */
    method Reconnect(tip: BlockIndex, postponed: seq<BlockIndex>, ghost start: BlockIndex, io: BlockIndex -> bool) returns (missing: nat)
      requires Stored() && chain.Has(tip) && StandsAt(start) && Left(tip, start, postponed)
      modifies chain.blocks, db
      ensures missing <= |postponed| && StandsBehind(tip, missing)
      ensures missing == 0 <==> Completes(disk, tip, postponed, io)
    {
      ghost var b: BlockIndex := start;
      var rest := postponed;
      var ok := true;
      LeftLength(tip, b, rest);
      while ok && rest != []
        invariant StandsAt(b) && Left(tip, b, rest) && |rest| <= |postponed|
        invariant Completes(disk, tip, postponed, io) <==> Completes(disk, tip, rest, io)
        invariant !ok ==> rest != [] && !Completes(disk, tip, rest, io)
        decreases ok, |rest|
      {
        ok, b, rest := AttachNext(tip, b, rest, io);
      }
      LeftLength(tip, b, rest);
      missing := |rest|;
    }

    method AttachNext(tip: BlockIndex, ghost b: BlockIndex, rest: seq<BlockIndex>, io: BlockIndex -> bool)
      returns (ok: bool, ghost b': BlockIndex, rest': seq<BlockIndex>)
      requires Stored() && chain.Has(tip) && StandsAt(b) && Left(tip, b, rest) && rest != []
      modifies chain.blocks, db
      ensures StandsAt(b') && Left(tip, b', rest') && (Completes(disk, tip, rest, io) <==> Completes(disk, tip, rest', io))
      ensures if ok then |rest'| == |rest| - 1 else rest' == rest && !Completes(disk, tip, rest, io)
    {
      b', rest' := b, rest;
      var next, front := rest[|rest| - 1], rest[..|rest| - 1];
      LeftStep(tip, b, rest, next, front);
      chain.HasAncestor(next, tip);
      ReadStep(io, rest, next, front);
      ok := Attach(next, io);
      if ok {
        b', rest' := next, front;
      } else {
        NotBuilt(disk, tip, next);
      }
    }

    /** Connect one block to the linked chain and to the index (src/main.cpp:2884-2905), or change neither. */
    method Attach(b: BlockIndex, io: BlockIndex -> bool) returns (ok: bool)
      requires Stored() && chain.Has(b) && b.prev != null && StandsAt(b.prev)
      modifies chain.blocks, db
      ensures ok <==> io(b) && Build(Contents(disk, b)).Some?
      ensures ok ==> StandsAt(b)
      ensures !ok ==> StandsAt(b.prev) && db.index == old(db.index)
    {
      ok := ConnectOne(b, io);
      if ok {
        chain.Connect(b);
      }
    }

    /** A failed reorganisation leaves the index as it was: its writes are one database transaction. */
    method ReorganizeOrAbort(tip: BlockIndex, io: BlockIndex -> bool, commit: bool) returns (ok: bool, ghost fork: BlockIndex)
      requires Stored() && chain.Tree() && chain.best != null && StandsAt(chain.best) && chain.Has(tip)
      modifies chain.blocks, db
      ensures Forked(fork, chain.best, tip)
      ensures ok <==> commit && CanSwitch(disk, old(db.index), chain.best, tip, io, fork)
      ensures ok ==> StandsAt(tip)
      ensures !ok ==> db.index == old(db.index) && chain.LinkedTo(chain.best)
    {
      var saved := db.index;
      ok, fork := Reorganize(tip, io, commit);
      if !ok {
        db.index := saved;
      }
    }

    /** The other branch: reorganise to the first block that beats the best one, and then connect the rest. */
    method SwitchTo(tip: BlockIndex, io: BlockIndex -> bool, commit: bool)
      returns (ok: bool, missing: nat, ghost start: BlockIndex, ghost fork: BlockIndex)
      requires Stored() && chain.Tree() && chain.best != null && StandsAt(chain.best) && chain.Has(tip)
      modifies chain.blocks, db
      ensures FirstAbove(start, tip, chain.best.trust) && Forked(fork, chain.best, start)
      ensures ok <==> commit && CanSwitch(disk, old(db.index), chain.best, start, io, fork)
      ensures !ok ==> db.index == old(db.index) && chain.LinkedTo(chain.best)
      ensures ok ==> missing <= tip.height - start.height && StandsBehind(tip, missing)
      ensures ok ==> (missing == 0 <==> Completes(disk, tip, Branch(tip, start.height), io))
    {
      missing := 0;
      var intermediate, postponed := chain.Postpone(tip);
      start := intermediate;
      ok, fork := ReorganizeOrAbort(intermediate, io, commit);
      if ok {
        missing := Reconnect(tip, postponed, intermediate, io);
      }
    }

    /** The best block's own child: the fork is the best block and nothing is postponed. */
    method Extend(tip: BlockIndex, io: BlockIndex -> bool, commit: bool) returns (ok: bool, ghost fork: BlockIndex)
      requires Stored() && chain.Tree() && chain.best != null && StandsAt(chain.best) && chain.Has(tip) && tip.prev == chain.best
      modifies chain.blocks, db
      ensures FirstAbove(tip, tip, chain.best.trust) && Forked(fork, chain.best, tip)
      ensures ok <==> commit && CanSwitch(disk, old(db.index), chain.best, tip, io, fork)
      ensures !ok ==> db.index == old(db.index) && chain.LinkedTo(chain.best)
      ensures ok ==> StandsAt(tip)
    {
      fork := chain.best;
      ExtendIsSwitch(disk, db.index, chain.best, tip, io);
      ok := commit;
      if ok {
        ok := Attach(tip, io);
      }
    }

    /** Make a block the best one. Either nothing changes, exactly when the switch cannot be made; or the block
        becomes the best one, with links and index at it or, when postponed blocks could not be connected,
        behind it. */
    method SetBestChain(tip: BlockIndex, io: BlockIndex -> bool, commit: bool)
      returns (ok: bool, missing: nat, ghost start: BlockIndex, ghost fork: BlockIndex)
      requires Valid() && chain.best != null && chain.Has(tip)
      modifies chain`best, chain`bestHeight, chain`lastFound, chain.blocks, db
      ensures IsAncestor(start, tip) && (start == tip || start.trust > old(chain.best.trust))
      ensures start.prev == null || start.prev.trust <= old(chain.best.trust)
      ensures Linked(start) && start.height <= tip.height && Forked(fork, old(chain.best), start)
      ensures ok <==> commit && CanSwitch(disk, old(db.index), old(chain.best), start, io, fork)
      ensures !ok ==> Valid() && chain.best == old(chain.best) && db.index == old(db.index)
      ensures ok ==> chain.best == tip && missing <= tip.height - start.height && StandsBehind(tip, missing)
      ensures ok ==> (missing == 0 <==> Completes(disk, tip, Branch(tip, start.height), io))
      ensures ok ==> (Valid() <==> missing == 0)
    {
      if tip.prev == chain.best {
        ok, fork := Extend(tip, io, commit);
        missing, start := 0, tip;
      } else {
        ok, missing, start, fork := SwitchTo(tip, io, commit);
      }
      if ok {
        Announce(tip, missing);
      }
    }

    method Announce(tip: BlockIndex, ghost missing: nat)
      requires Stored() && chain.best != null && chain.Has(tip) && StandsBehind(tip, missing)
      requires forall b {:trigger b in disk} :: b in disk ==> b in chain.blocks
      modifies chain`best, chain`bestHeight, chain`lastFound
      ensures chain.best == tip && StandsBehind(tip, missing) && (Valid() <==> missing == 0)
    {
      if missing > 0 {
        chain.Behind(tip, missing);
      }
      chain.Adopt(tip);
    }
  }
}
