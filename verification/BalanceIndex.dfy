/**
 The balance index as the tables that `ConnectUtxo` and `ProcessFrozenQueue` update row by row
 (src/main.cpp:2003-2153, 2157-2203).
 */
module BalanceIndex {
  import opened Wrappers
  import opened Balances

  class Tables {
    var unspent: map<Key, Row>
    var frozen: map<Key, Row>
    var queue: map<QueueKey, Queued>
    var history: map<Address, seq<Balance>>

    ghost function View(): Db
      reads this
    {
      Db(unspent, frozen, queue, history)
    }

    constructor ()
      ensures View() == Db(map[], map[], map[], map[])
    {
      unspent, frozen, queue, history := map[], map[], map[], map[];
    }

    /** The record that collects an address's changes, starting from its last one. */
    method Record(pending: map<Address, Balance>, a: Address) returns (b: Balance)
      ensures b == Pending(Work(View(), pending, false), a)
    {
      if a in pending {
        return pending[a];
      }
      b := NO_BALANCE;
      if a in history && |history[a]| > 0 {
        b := history[a][|history[a]| - 1];
      }
      b := b.(debit := 0, credit := 0);
    }

    method SpendInput(tx: Transfer, c: Coin, before: map<Address, Balance>, wasFrozen: bool)
        returns (pending: map<Address, Balance>, stakeFrozen: bool)
      modifies this`unspent, this`frozen, this`queue
      ensures Work(View(), pending, stakeFrozen) == InputStep(Work(old(View()), before, wasFrozen), tx, c)
    {
      var isFrozen := false;
      stakeFrozen := wasFrozen;
      var b := Record(before, c.address);
      if c.freeze.Flagged? {
        isFrozen := QueueKey(c.freeze.lockTime, c.out) in queue;
        if tx.isCoinStake {
          stakeFrozen := isFrozen;
          if c.freeze.lockTime > tx.blockTime + 1000 {
            stakeFrozen := true;
          }
        }
        queue := queue - {QueueKey(c.freeze.lockTime, c.out)};
      }
      if KeyOf(c) in unspent {
        unspent := unspent - {KeyOf(c)};
      } else {
        frozen := frozen - {KeyOf(c)};
      }
      b := b.(credit := b.credit + c.value);
      if isFrozen {
        b := b.(frozen := b.frozen - c.value);
      }
      pending := before[c.address := b];
    }

    method CreateOutput(tx: Transfer, c: Coin, before: map<Address, Balance>, stakeFrozen: bool)
        returns (pending: map<Address, Balance>)
      modifies this`unspent, this`frozen, this`queue
      ensures Work(View(), pending, stakeFrozen) == OutputStep(Work(old(View()), before, stakeFrozen), tx, c)
      ensures c.freeze.Flagged? && (!tx.isCoinStake || stakeFrozen) ==>
        KeyOf(c) in frozen && QueueKey(c.freeze.lockTime, c.out) in queue && unspent == old(unspent)
      ensures !(c.freeze.Flagged? && (!tx.isCoinStake || stakeFrozen)) ==>
        KeyOf(c) in unspent && frozen == old(frozen) && queue == old(queue)
    {
      var isFrozen, row := false, Row(c.value, 0);
      var b := Record(before, c.address);
      if c.freeze.Flagged? {
        row := row.(lockTime := c.freeze.lockTime);
        isFrozen := if tx.isCoinStake then stakeFrozen else true;
      }
      b := b.(debit := b.debit + c.value);
      if isFrozen {
        frozen := frozen[KeyOf(c) := row];
        queue := queue[QueueKey(row.lockTime, c.out) := Queued(c.address, row.amount)];
        b := b.(frozen := b.frozen + c.value);
      } else {
        unspent := unspent[KeyOf(c) := row];
      }
      pending := before[c.address := b];
    }

    /** Move a transaction's coins and append one record per touched address. */
    method ConnectUtxo(tx: Transfer)
      modifies this
      ensures View() == Balances.ConnectUtxo(old(View()), tx)
    {
      var pending: map<Address, Balance>, stakeFrozen := map[], false;
      ghost var start := Work(View(), map[], false);
      for j := 0 to |tx.ins|
        invariant Work(View(), pending, stakeFrozen) == SpendIns(start, tx, j)
      {
        pending, stakeFrozen := SpendInput(tx, tx.ins[j], pending, stakeFrozen);
      }
      ghost var spent := Work(View(), pending, stakeFrozen);
      for j := 0 to |tx.outs|
        invariant Work(View(), pending, stakeFrozen) == CreateOuts(spent, tx, j)
      {
        pending := CreateOutput(tx, tx.outs[j], pending, stakeFrozen);
      }
      WriteHistory(pending, stakeFrozen);
    }

    /** Write the collected records, each with only its net change as debit or credit. */
    method WriteHistory(pending: map<Address, Balance>, ghost stakeFrozen: bool)
      modifies this`history
      ensures View() == Commit(Work(old(View()), pending, stakeFrozen))
    {
      var left := pending.Keys;
      ghost var db := View();
      assert Appended(db, pending, {}) == history;
      while left != {}
        invariant left <= pending.Keys && history == Appended(db, pending, pending.Keys - left)
        decreases left
      {
        var a :| a in left;
        ghost var done := pending.Keys - left;
        AppendRecord(a, pending[a]);
        left := left - {a};
        AppendedNext(db, pending, done, a, pending.Keys - left);
      }
      assert pending.Keys - left == pending.Keys;
    }

    method AppendRecord(a: Address, pending: Balance)
      modifies this`history
      ensures history == old(history)[a := Records(old(View()), a) + [Settled(pending)]]
    {
      var b := pending;
      var diff := b.debit - b.credit;
      if diff < 0 {
        b := b.(debit := 0, credit := -diff);
      } else if diff > 0 {
        b := b.(debit := diff, credit := 0);
      } else {
        b := b.(debit := 0, credit := 0);
      }
      b := b.(balance := b.balance + diff);
      history := history[a := (if a in history then history[a] else []) + [b]];
    }

    /** Release every queued output whose lock time has come. */
    method ProcessFrozenQueue(blockTime: nat)
      requires Balanced(View())
      modifies this
      ensures Balanced(View())
      ensures forall q :: q in queue <==> q in old(queue) && q.lockTime > blockTime
      ensures forall a :: Latest(View(), a).balance == Latest(old(View()), a).balance
    {
      var due := set q | q in queue && q.lockTime <= blockTime;
      while due != {}
        invariant Balanced(View())
        invariant forall q :: q in due ==> q in queue && q.lockTime <= blockTime
        invariant forall q :: q in queue ==> q in old(queue)
        invariant forall q :: q in old(queue) && q !in queue ==> q.lockTime <= blockTime
        invariant forall q :: q in queue && q.lockTime <= blockTime ==> q in due
        invariant forall a :: Latest(View(), a).balance == Latest(old(View()), a).balance
        decreases due
      {
        var q :| q in due;
        ReleaseBalances(View(), q);
        ReleaseEntry(q);
        due := due - {q};
      }
    }

    method ReleaseEntry(q: QueueKey)
      requires q in queue && Release(View(), q).Some?
      modifies this
      ensures View() == Release(old(View()), q).value
    {
      var item := queue[q];
      queue := queue - {q};
      var records := history[item.address];
      var b := records[|records| - 1];
      b := b.(credit := 0, debit := item.amount);
      b := b.(frozen := b.frozen - item.amount);
      history := history[item.address := records + [b]];
      var k := Key(item.address, q.out);
      var row := frozen[k];
      frozen := frozen - {k};
      unspent := unspent[k := row];
    }
  }
}
