/**
 Where a transaction's outputs rest, how long a frozen one stays frozen, and what each history record says
 (src/main.cpp:2006-2203).
 */
module Freezing {
  import opened Wrappers
  import opened Balances

  predicate IsFrozen(db: Db, c: Coin) { KeyOf(c) in db.frozen }

  // ----- the stake flag -----

  /** Input i is the last flagged one of the first n. */
  predicate LastFlagged(tx: Transfer, n: nat, i: nat)
    requires n <= |tx.ins|
  {
    i < n && tx.ins[i].freeze.Flagged? && forall j :: i < j < n ==> tx.ins[j].freeze.NotFlagged?
  }

  /** A flagged input that is still queued, or whose lock time is well over the block time. */
  predicate StillLocked(db: Db, tx: Transfer, c: Coin) {
    c.freeze.Flagged? && (QueueKey(c.freeze.lockTime, c.out) in db.queue || c.freeze.lockTime > tx.blockTime + 1000)
  }

  /** The last flagged input of the first n is still locked. */
  ghost predicate StakeLocks(db: Db, tx: Transfer, n: nat)
    requires n <= |tx.ins|
  {
    exists i: nat {:trigger LastFlagged(tx, n, i)} :: LastFlagged(tx, n, i) && StillLocked(db, tx, tx.ins[i])
  }

  lemma StakeLocksNext(db: Db, tx: Transfer, n: nat, n': nat)
    requires n' == n + 1 <= |tx.ins|
    ensures StakeLocks(db, tx, n') <==> if tx.ins[n].freeze.Flagged? then StillLocked(db, tx, tx.ins[n]) else StakeLocks(db, tx, n)
  {
    if tx.ins[n].freeze.Flagged? {
      assert LastFlagged(tx, n', n);
    } else {
      assert forall i: nat :: LastFlagged(tx, n', i) <==> LastFlagged(tx, n, i);
    }
  }

  /** The inputs from n on are queued as they were. */
  ghost predicate SameQueued(db: Db, now: Db, tx: Transfer, n: nat) {
    forall i {:trigger tx.ins[i]} :: n <= i < |tx.ins| && tx.ins[i].freeze.Flagged? ==>
      (QueueKey(tx.ins[i].freeze.lockTime, tx.ins[i].out) in now.queue <==> QueueKey(tx.ins[i].freeze.lockTime, tx.ins[i].out) in db.queue)
  }

  lemma {:induction false} StakeFlag(db: Db, tx: Transfer, n: nat, r: Work)
    requires n <= |tx.ins| && r == SpendIns(Work(db, map[], false), tx, n)
    requires forall i, j :: 0 <= i < j < |tx.ins| ==> tx.ins[i].out != tx.ins[j].out
    ensures r.stakeFrozen <==> tx.isCoinStake && StakeLocks(db, tx, n)
    ensures SameQueued(db, r.db, tx, n)
    decreases n
  {
    if n > 0 {
      var k: nat := n - 1;
      var m := SpendIns(Work(db, map[], false), tx, k);
      StakeFlag(db, tx, k, m);
      StakeLocksNext(db, tx, k, n);
      assert tx.ins[k] == tx.ins[k];
    }
  }

  // ----- where outputs rest -----

  /** In the frozen table and the queue, or in the unspent table, and in no other. */
  predicate Rests(db: Db, c: Coin, frozen: bool) {
    if frozen then
      && c.freeze.Flagged? && KeyOf(c) in db.frozen && db.frozen[KeyOf(c)] == Row(c.value, c.freeze.lockTime) && KeyOf(c) !in db.unspent
      && QueueKey(c.freeze.lockTime, c.out) in db.queue && db.queue[QueueKey(c.freeze.lockTime, c.out)] == Queued(c.address, c.value)
    else
      && KeyOf(c) in db.unspent && db.unspent[KeyOf(c)] == RowFor(c) && KeyOf(c) !in db.frozen
      && (c.freeze.Flagged? ==> QueueKey(c.freeze.lockTime, c.out) !in db.queue)
  }

  lemma OutputRests(w: Work, tx: Transfer, c: Coin, r: Work)
    requires Unrecorded(w.db, c.out) && r == OutputStep(w, tx, c)
    ensures Rests(r.db, c, c.freeze.Flagged? && (tx.isCoinStake ==> w.stakeFrozen)) && r.stakeFrozen == w.stakeFrozen
  {
  }

  lemma OutputElsewhere(w: Work, tx: Transfer, c: Coin, r: Work, d: Coin, frozen: bool)
    requires Rests(w.db, d, frozen) && d.out != c.out && r == OutputStep(w, tx, c)
    ensures Rests(r.db, d, frozen) && r.stakeFrozen == w.stakeFrozen
  {
  }

  lemma {:induction false} OutputsRestFrom(w: Work, tx: Transfer, n: nat, i: nat, r: Work)
    requires Mid(w) && i < n <= |tx.outs| && r == CreateOuts(w, tx, n)
    requires forall i :: 0 <= i < |tx.outs| ==> Unrecorded(w.db, tx.outs[i].out)
    requires forall i, j :: 0 <= i < j < |tx.outs| ==> tx.outs[i].out != tx.outs[j].out
    ensures Rests(r.db, tx.outs[i], tx.outs[i].freeze.Flagged? && (tx.isCoinStake ==> w.stakeFrozen))
    decreases n
  {
    var k: nat := n - 1;
    var m := CreateOuts(w, tx, k);
    FlagKept(w, tx, k, m);
    if i == k {
      CreateOutsKeeps(w, tx, k);
      OutputRests(m, tx, tx.outs[i], r);
    } else {
      OutputsRestFrom(w, tx, k, i, m);
      OutputElsewhere(m, tx, tx.outs[k], r, tx.outs[i], tx.outs[i].freeze.Flagged? && (tx.isCoinStake ==> w.stakeFrozen));
    }
  }

  lemma {:induction false} FlagKept(w: Work, tx: Transfer, n: nat, r: Work)
    requires n <= |tx.outs| && r == CreateOuts(w, tx, n)
    ensures r.stakeFrozen == w.stakeFrozen
    decreases n
  {
    if n > 0 {
      FlagKept(w, tx, n - 1, CreateOuts(w, tx, n - 1));
    }
  }

  lemma CommitRests(w: Work, c: Coin, frozen: bool)
    requires Rests(w.db, c, frozen)
    ensures Rests(Commit(w), c, frozen)
  {
  }

  /** Each output of a genuine transaction rests in the frozen table and the queue exactly when it is flagged
      and, in a coin stake, the last flagged input was still locked; else in the unspent table. */
  lemma OutputsRest(db: Db, live: set<Coin>, tx: Transfer, i: nat)
    requires Balanced(db) && Tracks(db, live) && Genuine(live, tx) && i < |tx.outs|
    ensures Rests(ConnectUtxo(db, tx), tx.outs[i], tx.outs[i].freeze.Flagged? && (tx.isCoinStake ==> StakeLocks(db, tx, |tx.ins|)))
  {
    var w := Work(db, map[], false);
    StartsInLine(db);
    GenuineConnectable(db, live, tx);
    SpendInsKeeps(w, tx, |tx.ins|);
    var m := SpendIns(w, tx, |tx.ins|);
    StakeFlag(db, tx, |tx.ins|, m);
    var r := CreateOuts(m, tx, |tx.outs|);
    OutputsRestFrom(m, tx, |tx.outs|, i, r);
    CommitRests(r, tx.outs[i], tx.outs[i].freeze.Flagged? && (tx.isCoinStake ==> StakeLocks(db, tx, |tx.ins|)));
  }

  /** An ordinary transaction freezes exactly its flagged outputs. */
  lemma OrdinaryFreezes(db: Db, live: set<Coin>, tx: Transfer, c: Coin)
    requires Balanced(db) && Tracks(db, live) && Genuine(live, tx) && !tx.isCoinStake && c in tx.outs
    ensures var r := ConnectUtxo(db, tx);
      && (KeyOf(c) in r.frozen <==> c.freeze.Flagged?) && (KeyOf(c) in r.unspent <==> c.freeze.NotFlagged?)
      && (c.freeze.Flagged? ==> QueueKey(c.freeze.lockTime, c.out) in r.queue)
  {
    var i :| 0 <= i < |tx.outs| && tx.outs[i] == c;
    OutputsRest(db, live, tx, i);
  }

  /** A coin stake freezes its flagged outputs exactly when its last flagged input was queued or locked for more
      than a thousand seconds after the block. */
  lemma StakeFreezes(db: Db, live: set<Coin>, tx: Transfer, c: Coin, i: nat)
    requires Balanced(db) && Tracks(db, live) && Genuine(live, tx) && tx.isCoinStake && c in tx.outs && c.freeze.Flagged?
    requires i < |tx.ins| && tx.ins[i].freeze.Flagged? && forall j :: i < j < |tx.ins| ==> tx.ins[j].freeze.NotFlagged?
    ensures KeyOf(c) in ConnectUtxo(db, tx).frozen <==>
      QueueKey(tx.ins[i].freeze.lockTime, tx.ins[i].out) in db.queue || tx.ins[i].freeze.lockTime > tx.blockTime + 1000
  {
    var k :| 0 <= k < |tx.outs| && tx.outs[k] == c;
    OutputsRest(db, live, tx, k);
    assert LastFlagged(tx, |tx.ins|, i);
    assert forall j: nat {:trigger LastFlagged(tx, |tx.ins|, j)} :: LastFlagged(tx, |tx.ins|, j) ==> j == i;
  }

  // ----- how long a coin stays frozen -----

  lemma FrozenIsQueued(db: Db, live: set<Coin>, c: Coin)
    requires Paired(db) && Tracks(db, live) && c in live
    ensures IsFrozen(db, c) <==> c.freeze.Flagged? && QueueKey(c.freeze.lockTime, c.out) in db.queue
  {
    assert Filed(db, c);
    if IsFrozen(db, c) { assert FrozenRowOk(db, KeyOf(c)); }
    if c.freeze.Flagged? && QueueKey(c.freeze.lockTime, c.out) in db.queue {
      var q := QueueKey(c.freeze.lockTime, c.out);
      assert QueueRowOk(db, q);
      assert Holds(db, Key(db.queue[q].address, q.out)) && Holds(db, KeyOf(c));
    }
  }

  lemma {:induction false} SpendInsElsewhere(w: Work, tx: Transfer, n: nat, c: Coin, r: Work)
    requires n <= |tx.ins| && r == SpendIns(w, tx, n) && forall i :: 0 <= i < |tx.ins| ==> tx.ins[i].out != c.out
    ensures IsFrozen(r.db, c) <==> IsFrozen(w.db, c)
    decreases n
  {
    if n > 0 {
      SpendInsElsewhere(w, tx, n - 1, c, SpendIns(w, tx, n - 1));
    }
  }

  lemma {:induction false} CreateOutsElsewhere(w: Work, tx: Transfer, n: nat, c: Coin, r: Work)
    requires n <= |tx.outs| && r == CreateOuts(w, tx, n) && forall i :: 0 <= i < |tx.outs| ==> tx.outs[i].out != c.out
    ensures IsFrozen(r.db, c) <==> IsFrozen(w.db, c)
    decreases n
  {
    if n > 0 {
      CreateOutsElsewhere(w, tx, n - 1, c, CreateOuts(w, tx, n - 1));
    }
  }

  /** A transaction that does not spend a coin leaves it where it is. */
  lemma ConnectElsewhere(db: Db, live: set<Coin>, tx: Transfer, c: Coin)
    requires Tracks(db, live) && Genuine(live, tx) && c in live && c !in tx.ins
    ensures c in After(live, tx) && (IsFrozen(ConnectUtxo(db, tx), c) <==> IsFrozen(db, c))
  {
    var w := Work(db, map[], false);
    forall i | 0 <= i < |tx.ins| ensures tx.ins[i].out != c.out { assert tx.ins[i] in tx.ins; }
    SpendInsElsewhere(w, tx, |tx.ins|, c, SpendIns(w, tx, |tx.ins|));
    CreateOutsElsewhere(SpendIns(w, tx, |tx.ins|), tx, |tx.outs|, c, CreateOuts(SpendIns(w, tx, |tx.ins|), tx, |tx.outs|));
  }

  /** A release takes a coin out of the frozen table exactly when its lock time has come. */
  lemma ReleaseFrees(db: Db, live: set<Coin>, t: nat, due: seq<QueueKey>, c: Coin, r: Db)
    requires Balanced(db) && Tracks(db, live) && DueAt(db, t, due) && c in live && ReleaseAll(db, due) == Some(r)
    ensures IsFrozen(r, c) <==> IsFrozen(db, c) && c.freeze.Flagged? && c.freeze.lockTime > t
  {
    ReleaseDue(db, t, due);
    ReleaseAllTracks(db, due, live, r);
    FrozenIsQueued(db, live, c);
    FrozenIsQueued(r, live, c);
  }

  /** No transaction of the run spends the coin. */
  predicate Kept(steps: seq<Step>, c: Coin) {
    forall i :: 0 <= i < |steps| && steps[i].ConnectStep? ==> c !in steps[i].tx.ins
  }

  /** No release of the run is at or after the time. */
  predicate NoneDue(steps: seq<Step>, lockTime: nat) {
    forall i :: 0 <= i < |steps| && steps[i].ReleaseStep? ==> steps[i].blockTime < lockTime
  }

  /** A frozen coin that is not spent stays frozen exactly until a release at or after its lock time. */
  lemma {:induction false} StaysFrozen(db: Db, live: set<Coin>, steps: seq<Step>, db': Db, live': set<Coin>, c: Coin)
    requires Balanced(db) && Tracks(db, live) && Reaches(db, live, steps, db', live') && c in live && Kept(steps, c)
    ensures c in live' && (IsFrozen(db', c) <==> IsFrozen(db, c) && c.freeze.Flagged? && NoneDue(steps, c.freeze.lockTime))
    decreases |steps|
  {
    if steps == [] {
      assert Filed(db, c);
    } else {
      var rest := steps[1..];
      assert Kept(rest, c) by { assert forall i :: 0 <= i < |rest| ==> rest[i] == steps[i + 1]; }
      assert forall t: nat :: NoneDue(steps, t) <==> NoneDue(rest, t) && (steps[0].ReleaseStep? ==> steps[0].blockTime < t) by {
        assert forall i :: 0 < i < |steps| ==> steps[i] == rest[i - 1];
        assert forall i :: 0 <= i < |rest| ==> rest[i] == steps[i + 1];
      }
      match steps[0]
      case ConnectStep(tx) =>
        assert c !in steps[0].tx.ins;
        GenuineConnectable(db, live, tx);
        ConnectBalances(db, tx);
        ConnectTracks(db, tx, live);
        ConnectElsewhere(db, live, tx, c);
        StaysFrozen(ConnectUtxo(db, tx), After(live, tx), rest, db', live', c);
      case ReleaseStep(t) =>
        var due :| DueAt(db, t, due) && ReleaseAll(db, due).Some? && Reaches(ReleaseAll(db, due).value, live, rest, db', live');
        var db1 := ReleaseAll(db, due).value;
        ReleaseDue(db, t, due);
        ReleaseAllTracks(db, due, live, db1);
        ReleaseFrees(db, live, t, due, c, db1);
        StaysFrozen(db1, live, rest, db', live', c);
    }
  }

  /** Over a whole run: an output of an ordinary transaction that is still unspent is frozen exactly when it is
      flagged and no release since then was at or after its lock time. */
  lemma FrozenUntilDue(before: seq<Step>, db: Db, live: set<Coin>, tx: Transfer, c: Coin, after: seq<Step>, db': Db, live': set<Coin>)
    requires Reaches(EMPTY_DB, {}, before, db, live) && Genuine(live, tx) && !tx.isCoinStake && c in tx.outs
    requires Reaches(ConnectUtxo(db, tx), After(live, tx), after, db', live') && Kept(after, c)
    ensures c in live' && (IsFrozen(db', c) <==> c.freeze.Flagged? && NoneDue(after, c.freeze.lockTime))
  {
    EmptyBalanced();
    RunBalances(EMPTY_DB, {}, before, db, live);
    GenuineConnectable(db, live, tx);
    ConnectBalances(db, tx);
    ConnectTracks(db, tx, live);
    OrdinaryFreezes(db, live, tx, c);
    StaysFrozen(ConnectUtxo(db, tx), After(live, tx), after, db', live', c);
  }

  // ----- the history -----

  /** Whether a transaction pays or spends from an address. */
  predicate Concerns(tx: Transfer, n: nat, m: nat, a: Address)
    requires n <= |tx.ins| && m <= |tx.outs|
  {
    (exists i :: 0 <= i < n && tx.ins[i].address == a) || (exists i :: 0 <= i < m && tx.outs[i].address == a)
  }

  /** The records under construction: one for every address seen so far, starting at its last balance. */
  ghost predicate Started(db: Db, w: Work, tx: Transfer, n: nat, m: nat)
    requires n <= |tx.ins| && m <= |tx.outs|
  {
    && w.db.history == db.history
    && (forall a {:trigger a in w.pending} :: a in w.pending <==> Concerns(tx, n, m, a))
    && forall a {:trigger w.pending[a]} :: a in w.pending ==> w.pending[a].balance == Latest(db, a).balance
  }

  lemma {:induction false} InsStarted(db: Db, tx: Transfer, n: nat, r: Work)
    requires n <= |tx.ins| && r == SpendIns(Work(db, map[], false), tx, n)
    ensures Started(db, r, tx, n, 0)
    decreases n
  {
    if n > 0 {
      var k: nat := n - 1;
      var w := SpendIns(Work(db, map[], false), tx, k);
      InsStarted(db, tx, k, w);
      ConcernsNext(tx, k, n, 0, 0);
      StartedOne(db, w, tx, k, n, 0, 0, tx.ins[k].address, r);
    }
  }

  lemma ConcernsNext(tx: Transfer, n: nat, n': nat, m: nat, m': nat)
    requires n <= n' <= |tx.ins| && m <= m' <= |tx.outs| && ((n' == n + 1 && m' == m) || (n' == n && m' == m + 1))
    ensures forall a {:trigger Concerns(tx, n', m', a)} ::
      Concerns(tx, n', m', a) <==> Concerns(tx, n, m, a) || a == if n' > n then tx.ins[n].address else tx.outs[m].address
  {
  }

  lemma StartedOne(db: Db, w: Work, tx: Transfer, n: nat, n': nat, m: nat, m': nat, x: Address, r: Work)
    requires n <= |tx.ins| && m <= |tx.outs| && n' <= |tx.ins| && m' <= |tx.outs| && Started(db, w, tx, n, m)
    requires forall a {:trigger Concerns(tx, n', m', a)} :: Concerns(tx, n', m', a) <==> Concerns(tx, n, m, a) || a == x
    requires r.db.history == w.db.history && x in r.pending && r.pending == w.pending[x := r.pending[x]]
    requires r.pending[x].balance == Pending(w, x).balance
    ensures Started(db, r, tx, n', m')
  {
  }

  lemma {:induction false} OutsStarted(db: Db, tx: Transfer, w: Work, m: nat, r: Work)
    requires m <= |tx.outs| && Started(db, w, tx, |tx.ins|, 0) && r == CreateOuts(w, tx, m)
    ensures Started(db, r, tx, |tx.ins|, m)
    decreases m
  {
    if m > 0 {
      var k: nat := m - 1;
      var v := CreateOuts(w, tx, k);
      OutsStarted(db, tx, w, k, v);
      ConcernsNext(tx, |tx.ins|, |tx.ins|, k, m);
      StartedOne(db, v, tx, |tx.ins|, |tx.ins|, k, m, tx.outs[k].address, r);
    }
  }

  /** A record that carries the change from one balance to the next, as a debit or a credit. */
  predicate Carries(b: Balance, from: int) {
    b.balance == from + b.debit - b.credit && b.debit >= 0 && b.credit >= 0 && (b.debit == 0 || b.credit == 0)
  }

  /** Each address that a transaction concerns gets one more record, which carries its last balance to the new
      one; all other histories stay. */
  lemma HistoryGrows(db: Db, tx: Transfer, a: Address)
    ensures var old', new' := Records(db, a), Records(ConnectUtxo(db, tx), a);
      if Concerns(tx, |tx.ins|, |tx.outs|, a)
      then |new'| == |old'| + 1 && new'[..|old'|] == old' && Carries(new'[|old'|], Latest(db, a).balance)
      else new' == old'
  {
    var w := SpendIns(Work(db, map[], false), tx, |tx.ins|);
    InsStarted(db, tx, |tx.ins|, w);
    var r := CreateOuts(w, tx, |tx.outs|);
    OutsStarted(db, tx, w, |tx.outs|, r);
    RecordsAfter(r, a);
  }

  lemma RecordsAfter(w: Work, a: Address)
    ensures Records(Commit(w), a) == if a in w.pending then Records(w.db, a) + [Settled(w.pending[a])] else Records(w.db, a)
  {
  }

  /** A release appends one record to its address: the amount as a debit, the balance as it was, and the frozen
      amount less by it. */
  lemma ReleaseRecord(db: Db, q: QueueKey, r: Db, a: Address)
    requires Balanced(db) && q in db.queue && Release(db, q) == Some(r)
    ensures var old', new', item := Records(db, a), Records(r, a), db.queue[q];
      if a == item.address
      then new' == old' + [Balance(item.amount, 0, Latest(db, a).balance, Latest(db, a).frozen - item.amount)]
      else new' == old'
    ensures Key(db.queue[q].address, q.out) in r.unspent && Key(db.queue[q].address, q.out) !in r.frozen && q !in r.queue
  {
    assert QueueRowOk(db, q);
  }
}
