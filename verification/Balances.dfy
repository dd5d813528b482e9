/**
 The per-address balance index with its frozen outputs (src/main.cpp:1984-2153, 2157-2203; the
 tables are the record kinds of src/txdb-leveldb.h:411-452): connecting a transaction moves its
 inputs and outputs between the unspent table, the frozen table and the time-ordered queue and
 appends one history record per touched address; a block then releases what its time unlocks.

 A coin stands for an input or output that pays a plain address; other outputs are skipped by the
 source and do not appear. Peg fractions are represented by the two facts the code reads from them:
 whether a freeze flag is set, and the lock time.
 */
module Balances {
  import opened Wrappers
  import opened TxIndex

  type Address = nat

  // ----- sums over finite maps -----

  ghost function Sum<K(!new)>(m: map<K, int>): int {
    if m.Keys == {} then 0 else var k :| k in m; m[k] + Sum(m - {k})
  }

  lemma {:induction false} SumRemove<K(!new)>(m: map<K, int>, k: K)
    requires k in m
    ensures Sum(m) == m[k] + Sum(m - {k})
    decreases |m.Keys|
  {
    var k0 :| k0 in m && Sum(m) == m[k0] + Sum(m - {k0});
    if k0 != k {
      SumRemove(m - {k0}, k);
      SumRemove(m - {k}, k0);
      assert m - {k0} - {k} == m - {k} - {k0};
    }
  }

  lemma SumAdd<K(!new)>(m: map<K, int>, k: K, v: int)
    requires k !in m
    ensures Sum(m[k := v]) == Sum(m) + v
  {
    SumRemove(m[k := v], k);
    assert m[k := v] - {k} == m;
  }

  // ----- the tables -----

  datatype Key = Key(address: Address, out: OutPoint)
  datatype QueueKey = QueueKey(lockTime: nat, out: OutPoint)

  /** A row of the unspent or the frozen table. */
  datatype Row = Row(amount: nat, lockTime: nat)

  datatype Queued = Queued(address: Address, amount: nat)

  /** A history record; the last one of an address is its current balance. */
  datatype Balance = Balance(debit: int, credit: int, balance: int, frozen: int)

  datatype Db = Db(
    unspent: map<Key, Row>, frozen: map<Key, Row>, queue: map<QueueKey, Queued>,
    history: map<Address, seq<Balance>>)

  const NO_BALANCE := Balance(0, 0, 0, 0)

  function Latest(db: Db, a: Address): Balance {
    if a in db.history && |db.history[a]| > 0 then db.history[a][|db.history[a]| - 1] else NO_BALANCE
  }

  ghost function Amounts(t: map<Key, Row>, a: Address): map<Key, int> {
    map k | k in t && k.address == a :: t[k].amount
  }

  ghost function QueueAmounts(q: map<QueueKey, Queued>, a: Address): map<QueueKey, int> {
    map k | k in q && q[k].address == a :: q[k].amount
  }

  /** What an address holds according to the tables. */
  ghost function Holdings(db: Db, a: Address): int { Sum(Amounts(db.unspent, a)) + Sum(Amounts(db.frozen, a)) }

  ghost function Queues(db: Db, a: Address): int { Sum(QueueAmounts(db.queue, a)) }

  // ----- the invariant -----

  predicate FrozenRowOk(db: Db, k: Key)
    requires k in db.frozen
  {
    var q := QueueKey(db.frozen[k].lockTime, k.out);
    k !in db.unspent && q in db.queue && db.queue[q] == Queued(k.address, db.frozen[k].amount)
  }

  predicate QueueRowOk(db: Db, q: QueueKey)
    requires q in db.queue
  {
    var k := Key(db.queue[q].address, q.out);
    k in db.frozen && db.frozen[k] == Row(db.queue[q].amount, q.lockTime)
  }

  predicate Holds(db: Db, k: Key) { k in db.unspent || k in db.frozen }

  /** The frozen table and the queue hold the same outputs, no output is both frozen and unspent, and
      every recorded output belongs to one address. */
  ghost predicate Paired(db: Db) {
    && (forall k, l {:trigger Holds(db, k), Holds(db, l)} :: Holds(db, k) && Holds(db, l) && k.out == l.out ==> k == l)
    && (forall k {:trigger FrozenRowOk(db, k)} :: k in db.frozen ==> FrozenRowOk(db, k))
    && (forall q {:trigger QueueRowOk(db, q)} :: q in db.queue ==> QueueRowOk(db, q))
  }

  ghost predicate BalanceOk(db: Db, a: Address, b: Balance) {
    b.balance == Holdings(db, a) && b.frozen == Queues(db, a)
  }

  function Records(db: Db, a: Address): seq<Balance> { if a in db.history then db.history[a] else [] }

  predicate HasRecord(db: Db, k: Key) { |Records(db, k.address)| > 0 }

  /** Every latest record agrees with the tables, and an address with frozen outputs has a record. */
  ghost predicate Balanced(db: Db) {
    && Paired(db)
    && (forall k {:trigger HasRecord(db, k)} :: k in db.frozen ==> HasRecord(db, k))
    && forall a {:trigger BalanceOk(db, a, Latest(db, a))} :: BalanceOk(db, a, Latest(db, a))
  }

  // ----- one transaction -----

  /** Freeze information carried by an output's fractions; `NotFlagged` also covers missing fractions. */
  datatype Freeze = NotFlagged | Flagged(lockTime: nat)

  datatype Coin = Coin(address: Address, out: OutPoint, value: nat, freeze: Freeze)

  datatype Transfer = Transfer(isCoinStake: bool, blockTime: nat, ins: seq<Coin>, outs: seq<Coin>)

  /** The tables and the records under construction for the touched addresses. */
  datatype Work = Work(db: Db, pending: map<Address, Balance>, stakeFrozen: bool)

  function Pending(w: Work, a: Address): Balance {
    if a in w.pending then w.pending[a] else Latest(w.db, a).(debit := 0, credit := 0)
  }

  function KeyOf(c: Coin): Key { Key(c.address, c.out) }

  function InputStep(w: Work, tx: Transfer, c: Coin): Work {
    var db := w.db;
    var frozen := c.freeze.Flagged? && QueueKey(c.freeze.lockTime, c.out) in db.queue;
    var stakeFrozen := if tx.isCoinStake && c.freeze.Flagged? then frozen || c.freeze.lockTime > tx.blockTime + 1000 else w.stakeFrozen;
    var queue := if c.freeze.Flagged? then db.queue - {QueueKey(c.freeze.lockTime, c.out)} else db.queue;
    var db1 := if KeyOf(c) in db.unspent then db.(queue := queue, unspent := db.unspent - {KeyOf(c)})
               else db.(queue := queue, frozen := db.frozen - {KeyOf(c)});
    var b := Pending(w, c.address);
    var b1 := b.(credit := b.credit + c.value, frozen := if frozen then b.frozen - c.value else b.frozen);
    Work(db1, w.pending[c.address := b1], stakeFrozen)
  }

  function OutputStep(w: Work, tx: Transfer, c: Coin): Work {
    var db := w.db;
    var frozen := c.freeze.Flagged? && (if tx.isCoinStake then w.stakeFrozen else true);
    var row := Row(c.value, if c.freeze.Flagged? then c.freeze.lockTime else 0);
    var db1 := if frozen then
                 db.(frozen := db.frozen[KeyOf(c) := row],
                     queue := db.queue[QueueKey(row.lockTime, c.out) := Queued(c.address, c.value)])
               else db.(unspent := db.unspent[KeyOf(c) := row]);
    var b := Pending(w, c.address);
    var b1 := b.(debit := b.debit + c.value, frozen := if frozen then b.frozen + c.value else b.frozen);
    Work(db1, w.pending[c.address := b1], w.stakeFrozen)
  }

  /** The record that is written: only the net change is kept as debit or credit. */
  function Settled(b: Balance): Balance {
    var diff := b.debit - b.credit;
    Balance(if diff > 0 then diff else 0, if diff < 0 then -diff else 0, b.balance + diff, b.frozen)
  }

  /** The histories with the settled records of some addresses appended. */
  function Appended(db: Db, pending: map<Address, Balance>, done: set<Address>): map<Address, seq<Balance>>
    requires done <= pending.Keys
  {
    map a | a in db.history.Keys + done :: if a in done then Records(db, a) + [Settled(pending[a])] else db.history[a]
  }

  lemma AppendedNext(db: Db, pending: map<Address, Balance>, done: set<Address>, a: Address, done': set<Address>)
    requires done <= pending.Keys && a in pending && done' == done + {a}
    ensures Appended(db, pending, done') == Appended(db, pending, done)[a := Records(db, a) + [Settled(pending[a])]]
  {
  }

  function Commit(w: Work): Db {
    w.db.(history := Appended(w.db, w.pending, w.pending.Keys))
  }

  // ----- each step keeps the balances in line -----

  /** In the middle of a transaction the pending records already account for the moved coins. */
  ghost predicate InLine(w: Work, a: Address) {
    var b := Pending(w, a);
    b.balance + b.debit - b.credit == Holdings(w.db, a) && b.frozen == Queues(w.db, a)
  }

  predicate Touched(w: Work, k: Key) { k.address in w.pending || HasRecord(w.db, k) }

  ghost predicate Mid(w: Work) {
    && Paired(w.db)
    && (forall k {:trigger Touched(w, k)} :: k in w.db.frozen ==> Touched(w, k))
    && forall a {:trigger InLine(w, a)} :: InLine(w, a)
  }

  /** An input spends a recorded output of its address, with the freeze flag and lock time it was created with. */
  predicate SpendsRecorded(db: Db, c: Coin) {
    var k := KeyOf(c);
    if k in db.frozen then db.frozen[k].amount == c.value && c.freeze == Flagged(db.frozen[k].lockTime)
    else k in db.unspent && db.unspent[k].amount == c.value
  }

  /** An output that no table has seen yet. */
  predicate Unrecorded(db: Db, out: OutPoint) {
    && (forall k {:trigger k in db.unspent} :: k in db.unspent ==> k.out != out)
    && (forall k {:trigger k in db.frozen} :: k in db.frozen ==> k.out != out)
    && (forall q {:trigger q in db.queue} :: q in db.queue ==> q.out != out)
  }

  lemma AmountsRemove(t: map<Key, Row>, k: Key, a: Address)
    requires k in t
    ensures Sum(Amounts(t - {k}, a)) == Sum(Amounts(t, a)) - if k.address == a then t[k].amount else 0
  {
    if k.address == a {
      assert Amounts(t - {k}, a) == Amounts(t, a) - {k};
      SumRemove(Amounts(t, a), k);
    } else {
      assert Amounts(t - {k}, a) == Amounts(t, a);
    }
  }

  lemma AmountsAdd(t: map<Key, Row>, k: Key, row: Row, a: Address)
    requires k !in t
    ensures Sum(Amounts(t[k := row], a)) == Sum(Amounts(t, a)) + if k.address == a then row.amount else 0
  {
    if k.address == a {
      assert Amounts(t[k := row], a) == Amounts(t, a)[k := row.amount];
      SumAdd(Amounts(t, a), k, row.amount);
    } else {
      assert Amounts(t[k := row], a) == Amounts(t, a);
    }
  }

  lemma QueueRemove(q: map<QueueKey, Queued>, k: QueueKey, a: Address)
    requires k in q
    ensures Sum(QueueAmounts(q - {k}, a)) == Sum(QueueAmounts(q, a)) - if q[k].address == a then q[k].amount else 0
  {
    if q[k].address == a {
      assert QueueAmounts(q - {k}, a) == QueueAmounts(q, a) - {k};
      SumRemove(QueueAmounts(q, a), k);
    } else {
      assert QueueAmounts(q - {k}, a) == QueueAmounts(q, a);
    }
  }

  lemma QueueAdd(q: map<QueueKey, Queued>, k: QueueKey, row: Queued, a: Address)
    requires k !in q
    ensures Sum(QueueAmounts(q[k := row], a)) == Sum(QueueAmounts(q, a)) + if row.address == a then row.amount else 0
  {
    if row.address == a {
      assert QueueAmounts(q[k := row], a) == QueueAmounts(q, a)[k := row.amount];
      SumAdd(QueueAmounts(q, a), k, row.amount);
    } else {
      assert QueueAmounts(q[k := row], a) == QueueAmounts(q, a);
    }
  }

  lemma SpendKeeps(w: Work, tx: Transfer, c: Coin)
    requires Mid(w) && SpendsRecorded(w.db, c)
    ensures Mid(InputStep(w, tx, c))
  {
    var db, w', k := w.db, InputStep(w, tx, c), KeyOf(c);
    SpendEffect(w, tx, c);
    SpendPaired(w, tx, c);
    forall l | l in w'.db.frozen ensures Touched(w', l) { assert Touched(w, l); }
    forall a ensures InLine(w', a) {
      assert InLine(w, a);
      if k in db.frozen {
        AmountsRemove(db.frozen, k, a);
        QueueRemove(db.queue, QueueKey(db.frozen[k].lockTime, k.out), a);
      } else {
        AmountsRemove(db.unspent, k, a);
      }
    }
  }

  /** What an input step does to the tables: a frozen output leaves table and queue, an unspent one the table. */
  lemma SpendEffect(w: Work, tx: Transfer, c: Coin)
    requires Paired(w.db) && SpendsRecorded(w.db, c)
    ensures var db, w', k := w.db, InputStep(w, tx, c), KeyOf(c);
            var b := Pending(w, c.address);
            if k in db.frozen then
              var q := QueueKey(db.frozen[k].lockTime, k.out);
              && q in db.queue && db.queue[q] == Queued(c.address, c.value)
              && w'.db == db.(frozen := db.frozen - {k}, queue := db.queue - {q})
              && w'.pending == w.pending[c.address := b.(credit := b.credit + c.value, frozen := b.frozen - c.value)]
            else
              && w'.db == db.(unspent := db.unspent - {k})
              && w'.pending == w.pending[c.address := b.(credit := b.credit + c.value)]
  {
    var db, k := w.db, KeyOf(c);
    if k in db.frozen {
      assert FrozenRowOk(db, k);
    } else if c.freeze.Flagged? {
      var q := QueueKey(c.freeze.lockTime, c.out);
      if q in db.queue {
        assert QueueRowOk(db, q);
        assert Holds(db, Key(db.queue[q].address, q.out)) && Holds(db, k);
      }
      assert q !in db.queue;
      assert db.queue - {q} == db.queue;
    }
  }

  lemma SpendPaired(w: Work, tx: Transfer, c: Coin)
    requires Paired(w.db) && SpendsRecorded(w.db, c)
    ensures Paired(InputStep(w, tx, c).db)
  {
    SpendEffect(w, tx, c);
    var db, db', k := w.db, InputStep(w, tx, c).db, KeyOf(c);
    RemovedPaired(db, db', k);
  }

  lemma RemovedPaired(db: Db, db': Db, k: Key)
    requires Paired(db)
    requires (k in db.frozen && db' == db.(frozen := db.frozen - {k}, queue := db.queue - {QueueKey(db.frozen[k].lockTime, k.out)}))
          || (k !in db.frozen && db' == db.(unspent := db.unspent - {k}))
    ensures Paired(db')
  {
    forall l | l in db'.frozen ensures FrozenRowOk(db', l) {
      assert FrozenRowOk(db, l);
      assert Holds(db, l) && (k in db.frozen ==> Holds(db, k));
    }
    forall q | q in db'.queue ensures QueueRowOk(db', q) {
      assert QueueRowOk(db, q);
    }
    forall l, m | Holds(db', l) && Holds(db', m) && l.out == m.out ensures l == m {
      assert Holds(db, l) && Holds(db, m);
    }
  }

  lemma CreateKeeps(w: Work, tx: Transfer, c: Coin)
    requires Mid(w) && Unrecorded(w.db, c.out)
    ensures Mid(OutputStep(w, tx, c))
  {
    var db, w', k := w.db, OutputStep(w, tx, c), KeyOf(c);
    CreatePaired(w, tx, c);
    forall l | l in w'.db.frozen ensures Touched(w', l) { if l != k { assert Touched(w, l); } }
    forall a ensures InLine(w', a) { CreateInLine(w, tx, c, a, w'); }
  }

  lemma CreateInLine(w: Work, tx: Transfer, c: Coin, a: Address, w': Work)
    requires Mid(w) && Unrecorded(w.db, c.out) && w' == OutputStep(w, tx, c)
    ensures InLine(w', a)
  {
    var row := Row(c.value, if c.freeze.Flagged? then c.freeze.lockTime else 0);
    assert InLine(w, a);
    if c.freeze.Flagged? && (if tx.isCoinStake then w.stakeFrozen else true) {
      FrozenAdded(w.db, w'.db, c, row, QueueKey(row.lockTime, c.out), a);
    } else {
      AmountsAdd(w.db.unspent, KeyOf(c), row, a);
    }
  }

  lemma FrozenAdded(db: Db, db': Db, c: Coin, row: Row, q: QueueKey, a: Address)
    requires Unrecorded(db, c.out) && row.amount == c.value && q == QueueKey(row.lockTime, c.out) && db'.unspent == db.unspent
    requires db'.frozen == db.frozen[KeyOf(c) := row] && db'.queue == db.queue[q := Queued(c.address, c.value)]
    ensures Holdings(db', a) == Holdings(db, a) + if c.address == a then c.value else 0
    ensures Queues(db', a) == Queues(db, a) + if c.address == a then c.value else 0
  {
    AmountsAdd(db.frozen, KeyOf(c), row, a);
    QueueAdd(db.queue, q, Queued(c.address, c.value), a);
  }

  lemma CreatePaired(w: Work, tx: Transfer, c: Coin)
    requires Paired(w.db) && Unrecorded(w.db, c.out)
    ensures Paired(OutputStep(w, tx, c).db)
  {
    var db, db', k := w.db, OutputStep(w, tx, c).db, KeyOf(c);
    forall l | l in db'.frozen ensures FrozenRowOk(db', l) {
      if l != k { assert FrozenRowOk(db, l); }
    }
    forall q | q in db'.queue ensures QueueRowOk(db', q) {
      if q in db.queue { assert QueueRowOk(db, q); }
    }
    forall l, m | Holds(db', l) && Holds(db', m) && l.out == m.out ensures l == m {
      assert l != k ==> Holds(db, l);
      assert m != k ==> Holds(db, m);
    }
  }

  lemma CommitBalances(w: Work)
    requires Mid(w)
    ensures Balanced(Commit(w))
  {
    var db := Commit(w);
    forall k | k in db.frozen ensures FrozenRowOk(db, k) { assert FrozenRowOk(w.db, k); }
    forall q | q in db.queue ensures QueueRowOk(db, q) { assert QueueRowOk(w.db, q); }
    forall l, m | Holds(db, l) && Holds(db, m) && l.out == m.out ensures l == m {
      assert Holds(w.db, l) && Holds(w.db, m);
    }
    forall k | k in db.frozen ensures HasRecord(db, k) { assert Touched(w, k); }
    forall a ensures BalanceOk(db, a, Latest(db, a)) {
      assert InLine(w, a);
      if a in w.pending {
        assert db.history[a] == Records(w.db, a) + [Settled(w.pending[a])];
      }
    }
  }

  lemma StartsInLine(db: Db)
    requires Balanced(db)
    ensures Mid(Work(db, map[], false))
  {
    forall k | k in db.frozen ensures Touched(Work(db, map[], false), k) { assert HasRecord(db, k); }
    forall a ensures InLine(Work(db, map[], false), a) {
      assert BalanceOk(db, a, Latest(db, a));
    }
  }

  // ----- a whole transaction -----

  function SpendIns(w: Work, tx: Transfer, n: nat): Work
    requires n <= |tx.ins|
  {
    if n == 0 then w else InputStep(SpendIns(w, tx, n - 1), tx, tx.ins[n - 1])
  }

  function CreateOuts(w: Work, tx: Transfer, n: nat): Work
    requires n <= |tx.outs|
  {
    if n == 0 then w else OutputStep(CreateOuts(w, tx, n - 1), tx, tx.outs[n - 1])
  }

  function ConnectUtxo(db: Db, tx: Transfer): Db {
    Commit(CreateOuts(SpendIns(Work(db, map[], false), tx, |tx.ins|), tx, |tx.outs|))
  }

  /** What connecting relies on: inputs are recorded and distinct, outputs are new and distinct. */
  predicate Connectable(db: Db, tx: Transfer) {
    && (forall i :: 0 <= i < |tx.ins| ==> SpendsRecorded(db, tx.ins[i]))
    && (forall i, j :: 0 <= i < j < |tx.ins| ==> tx.ins[i].out != tx.ins[j].out)
    && (forall i :: 0 <= i < |tx.outs| ==> Unrecorded(db, tx.outs[i].out))
    && (forall i, j :: 0 <= i < j < |tx.outs| ==> tx.outs[i].out != tx.outs[j].out)
  }

  lemma {:induction false} SpendInsKeeps(w: Work, tx: Transfer, n: nat)
    requires Mid(w) && Connectable(w.db, tx) && n <= |tx.ins|
    ensures var r := SpendIns(w, tx, n);
            && Mid(r)
            && (forall i :: n <= i < |tx.ins| ==> SpendsRecorded(r.db, tx.ins[i]))
            && (forall i :: 0 <= i < |tx.outs| ==> Unrecorded(r.db, tx.outs[i].out))
  {
    if n > 0 {
      SpendInsKeeps(w, tx, n - 1);
      var r, c := SpendIns(w, tx, n - 1), tx.ins[n - 1];
      SpendKeeps(r, tx, c);
      forall i | n <= i < |tx.ins| ensures SpendsRecorded(InputStep(r, tx, c).db, tx.ins[i]) {
        SpendElsewhere(r, tx, c, tx.ins[i]);
      }
      forall i | 0 <= i < |tx.outs| ensures Unrecorded(InputStep(r, tx, c).db, tx.outs[i].out) {
        assert Unrecorded(r.db, tx.outs[i].out);
      }
    }
  }

  lemma SpendElsewhere(w: Work, tx: Transfer, c: Coin, d: Coin)
    requires Paired(w.db) && SpendsRecorded(w.db, c) && SpendsRecorded(w.db, d) && c.out != d.out
    ensures SpendsRecorded(InputStep(w, tx, c).db, d)
  {
    SpendEffect(w, tx, c);
  }

  lemma {:induction false} CreateOutsKeeps(w: Work, tx: Transfer, n: nat)
    requires Mid(w) && n <= |tx.outs|
    requires forall i :: 0 <= i < |tx.outs| ==> Unrecorded(w.db, tx.outs[i].out)
    requires forall i, j :: 0 <= i < j < |tx.outs| ==> tx.outs[i].out != tx.outs[j].out
    ensures var r := CreateOuts(w, tx, n);
            Mid(r) && (forall i :: n <= i < |tx.outs| ==> Unrecorded(r.db, tx.outs[i].out))
  {
    if n > 0 {
      CreateOutsKeeps(w, tx, n - 1);
      var r, c := CreateOuts(w, tx, n - 1), tx.outs[n - 1];
      CreateKeeps(r, tx, c);
      forall i | n <= i < |tx.outs| ensures Unrecorded(OutputStep(r, tx, c).db, tx.outs[i].out) {
        assert Unrecorded(r.db, tx.outs[i].out);
      }
    }
  }

  /** Connecting a transaction keeps every address's latest record equal to what the tables hold. */
  lemma ConnectBalances(db: Db, tx: Transfer)
    requires Balanced(db) && Connectable(db, tx)
    ensures Balanced(ConnectUtxo(db, tx))
  {
    StartsInLine(db);
    var w := Work(db, map[], false);
    SpendInsKeeps(w, tx, |tx.ins|);
    CreateOutsKeeps(SpendIns(w, tx, |tx.ins|), tx, |tx.outs|);
    CommitBalances(CreateOuts(SpendIns(w, tx, |tx.ins|), tx, |tx.outs|));
  }

  // ----- the frozen queue -----

  /** Unfreeze one queued output: it moves to the unspent table and the frozen amount shrinks. */
  function Release(db: Db, q: QueueKey): Option<Db>
    requires q in db.queue
  {
    var item := db.queue[q];
    var k := Key(item.address, q.out);
    if |Records(db, item.address)| == 0 || k !in db.frozen then None
    else
      var last := Latest(db, item.address);
      var record := last.(credit := 0, debit := item.amount, frozen := last.frozen - item.amount);
      Some(Db(db.unspent[k := db.frozen[k]], db.frozen - {k}, db.queue - {q},
              db.history[item.address := Records(db, item.address) + [record]]))
  }

  /** Releasing never hits an error exit and keeps the balances. */
  lemma ReleaseBalances(db: Db, q: QueueKey)
    requires Balanced(db) && q in db.queue
    ensures Release(db, q).Some? && Balanced(Release(db, q).value)
  {
    assert QueueRowOk(db, q);
    var item := db.queue[q];
    var k := Key(item.address, q.out);
    assert FrozenRowOk(db, k) && HasRecord(db, k);
    var db' := Release(db, q).value;
    ReleasePaired(db, q);
    forall a ensures BalanceOk(db', a, Latest(db', a)) {
      assert BalanceOk(db, a, Latest(db, a));
      AmountsRemove(db.frozen, k, a);
      AmountsAdd(db.unspent, k, db.frozen[k], a);
      QueueRemove(db.queue, q, a);
    }
    forall l | l in db'.frozen ensures HasRecord(db', l) {
      assert HasRecord(db, l);
    }
  }

  lemma ReleasePaired(db: Db, q: QueueKey)
    requires Paired(db) && q in db.queue && Release(db, q).Some?
    ensures Paired(Release(db, q).value)
  {
    assert QueueRowOk(db, q);
    var k := Key(db.queue[q].address, q.out);
    var db' := Release(db, q).value;
    forall l | l in db'.frozen ensures FrozenRowOk(db', l) {
      assert FrozenRowOk(db, l) && Holds(db, l) && Holds(db, k);
    }
    forall r | r in db'.queue ensures QueueRowOk(db', r) {
      assert QueueRowOk(db, r);
      var l := Key(db.queue[r].address, r.out);
      assert Holds(db, l) && Holds(db, k);
      assert db.frozen[l].lockTime == r.lockTime && db.frozen[k].lockTime == q.lockTime;
    }
    forall l, m | Holds(db', l) && Holds(db', m) && l.out == m.out ensures l == m {
      assert Holds(db, l) && Holds(db, m);
    }
  }

  // ----- releasing what is due -----

  datatype Step = ConnectStep(tx: Transfer) | ReleaseStep(blockTime: nat)

  /** Release the queue entries of a sequence that are still there. */
  function ReleaseAll(db: Db, due: seq<QueueKey>): Option<Db>
    decreases |due|
  {
    if due == [] then Some(db)
    else if due[0] !in db.queue then None
    else
      match Release(db, due[0])
      case None => None
      case Some(db1) => ReleaseAll(db1, due[1..])
  }

  /** What the range read returns: every entry up to the block time, once. */
  ghost predicate DueAt(db: Db, blockTime: nat, due: seq<QueueKey>) {
    && (forall i, j :: 0 <= i < j < |due| ==> due[i] != due[j])
    && (forall q :: q in due <==> q in db.queue && q.lockTime <= blockTime)
  }

  lemma {:induction false} ReleaseAllBalances(db: Db, due: seq<QueueKey>)
    requires Balanced(db)
    requires forall i :: 0 <= i < |due| ==> due[i] in db.queue
    requires forall i, j :: 0 <= i < j < |due| ==> due[i] != due[j]
    ensures ReleaseAll(db, due).Some? && Balanced(ReleaseAll(db, due).value)
    ensures ReleaseAll(db, due).value.queue == db.queue - (set q | q in due)
    decreases |due|
  {
    if due == [] {
      assert db.queue - (set q | q in due) == db.queue;
    } else {
      ReleaseBalances(db, due[0]);
      var db1 := Release(db, due[0]).value;
      assert forall i :: 0 <= i < |due[1..]| ==> due[1..][i] == due[i + 1];
      ReleaseAllBalances(db1, due[1..]);
      assert (set q | q in due) == (set q | q in due[1..]) + {due[0]};
    }
  }

  /** After a block's release nothing whose time has come is left in the queue. */
  lemma ReleaseDue(db: Db, blockTime: nat, due: seq<QueueKey>)
    requires Balanced(db) && DueAt(db, blockTime, due)
    ensures ReleaseAll(db, due).Some? && Balanced(ReleaseAll(db, due).value)
    ensures forall q :: q in ReleaseAll(db, due).value.queue <==> q in db.queue && q.lockTime > blockTime
  {
    assert forall i :: 0 <= i < |due| ==> due[i] in due;
    ReleaseAllBalances(db, due);
  }

  // ----- the coins behind the rows -----

  /** The row that an output gets, frozen or not. */
  function RowFor(c: Coin): Row { Row(c.value, if c.freeze.Flagged? then c.freeze.lockTime else 0) }

  predicate Filed(db: Db, c: Coin) {
    var k := KeyOf(c);
    if k in db.frozen then db.frozen[k] == RowFor(c) && c.freeze.Flagged? && k !in db.unspent
    else k in db.unspent && db.unspent[k] == RowFor(c)
  }

  predicate IsLive(live: set<Coin>, k: Key) { exists c :: c in live && KeyOf(c) == k }

  /** The rows of both tables are those of the live coins, one for each. */
  ghost predicate Tracks(db: Db, live: set<Coin>) {
    && (forall c, d {:trigger c in live, d in live} :: c in live && d in live && c.out == d.out ==> c == d)
    && (forall c {:trigger Filed(db, c)} :: c in live ==> Filed(db, c))
    && (forall k {:trigger Holds(db, k)} :: Holds(db, k) ==> IsLive(live, k))
  }

  predicate Unused(live: set<Coin>, out: OutPoint) { forall c :: c in live ==> c.out != out }

  /** What the chain guarantees of a transaction: it spends different live coins, as they were created, and
      its outputs have outpoints of their own that no live coin has. */
  predicate Genuine(live: set<Coin>, tx: Transfer) {
    && (forall i :: 0 <= i < |tx.ins| ==> tx.ins[i] in live)
    && (forall i, j :: 0 <= i < j < |tx.ins| ==> tx.ins[i] != tx.ins[j])
    && (forall i :: 0 <= i < |tx.outs| ==> Unused(live, tx.outs[i].out))
    && (forall i, j :: 0 <= i < j < |tx.outs| ==> tx.outs[i].out != tx.outs[j].out)
  }

  function Coins(cs: seq<Coin>, n: nat): set<Coin>
    requires n <= |cs|
  {
    set i | 0 <= i < n :: cs[i]
  }

  /** The live coins after a transaction. */
  function After(live: set<Coin>, tx: Transfer): set<Coin> {
    live - Coins(tx.ins, |tx.ins|) + Coins(tx.outs, |tx.outs|)
  }

  lemma CoinsNext(cs: seq<Coin>, n: nat, n': nat)
    requires n' == n + 1 <= |cs|
    ensures Coins(cs, n') == Coins(cs, n) + {cs[n]}
  {
  }

  lemma LiveRecorded(db: Db, live: set<Coin>, c: Coin)
    requires Tracks(db, live) && c in live
    ensures SpendsRecorded(db, c)
  {
    assert Filed(db, c);
  }

  lemma UnusedUnrecorded(db: Db, live: set<Coin>, out: OutPoint)
    requires Paired(db) && Tracks(db, live) && Unused(live, out)
    ensures Unrecorded(db, out)
  {
    forall k | Holds(db, k) ensures k.out != out {
      assert IsLive(live, k);
    }
    forall k | k in db.unspent ensures k.out != out { assert Holds(db, k); }
    forall k | k in db.frozen ensures k.out != out { assert Holds(db, k); }
    forall q | q in db.queue ensures q.out != out {
      assert QueueRowOk(db, q) && Holds(db, Key(db.queue[q].address, q.out));
    }
  }

  /** A genuine transaction finds its inputs in the tables and its outputs not yet there. */
  lemma GenuineConnectable(db: Db, live: set<Coin>, tx: Transfer)
    requires Paired(db) && Tracks(db, live) && Genuine(live, tx)
    ensures Connectable(db, tx)
  {
    forall i | 0 <= i < |tx.ins| ensures SpendsRecorded(db, tx.ins[i]) {
      LiveRecorded(db, live, tx.ins[i]);
    }
    forall i | 0 <= i < |tx.outs| ensures Unrecorded(db, tx.outs[i].out) {
      UnusedUnrecorded(db, live, tx.outs[i].out);
    }
  }

  lemma SpendTracks(w: Work, tx: Transfer, c: Coin, live: set<Coin>, live': set<Coin>, db': Db)
    requires Paired(w.db) && Tracks(w.db, live) && c in live && live' == live - {c} && db' == InputStep(w, tx, c).db
    ensures Tracks(db', live')
  {
    LiveRecorded(w.db, live, c);
    SpendEffect(w, tx, c);
    assert Filed(w.db, c);
    forall d | d in live' ensures Filed(db', d) { assert Filed(w.db, d); }
    forall k | Holds(db', k) ensures IsLive(live', k) {
      assert Holds(w.db, k);
      var d :| d in live && KeyOf(d) == k;
      assert d in live';
    }
  }

  lemma CreateTracks(w: Work, tx: Transfer, c: Coin, live: set<Coin>, live': set<Coin>, db': Db)
    requires Tracks(w.db, live) && Unused(live, c.out) && Unrecorded(w.db, c.out)
    requires live' == live + {c} && db' == OutputStep(w, tx, c).db
    ensures Tracks(db', live')
  {
    forall d | d in live' ensures Filed(db', d) {
      if d != c { assert Filed(w.db, d); }
    }
    forall k | Holds(db', k) ensures IsLive(live', k) {
      if k == KeyOf(c) {
        assert c in live';
      } else {
        assert Holds(w.db, k);
        var d :| d in live && KeyOf(d) == k;
        assert d in live';
      }
    }
  }

  lemma {:induction false} SpendInsTracks(w: Work, tx: Transfer, n: nat, live: set<Coin>, live': set<Coin>, r: Work)
    requires Mid(w) && Tracks(w.db, live) && Genuine(live, tx) && n <= |tx.ins|
    requires live' == live - Coins(tx.ins, n) && r == SpendIns(w, tx, n)
    ensures Tracks(r.db, live')
    decreases n
  {
    GenuineConnectable(w.db, live, tx);
    if n == 0 {
      assert live' == live;
    } else {
      var k: nat := n - 1;
      var m, left, c := SpendIns(w, tx, k), live - Coins(tx.ins, k), tx.ins[k];
      SpendInsTracks(w, tx, k, live, left, m);
      SpendInsKeeps(w, tx, k);
      CoinsNext(tx.ins, k, n);
      assert c in left;
      SpendTracks(m, tx, c, left, live', r.db);
    }
  }

  lemma LiveNext(live: set<Coin>, outs: seq<Coin>, k: nat, n: nat, sofar: set<Coin>, c: Coin, live': set<Coin>)
    requires n == k + 1 <= |outs| && c == outs[k] && sofar == live + Coins(outs, k) && live' == live + Coins(outs, n)
    requires Unused(live, c.out) && forall i, j :: 0 <= i < j < |outs| ==> outs[i].out != outs[j].out
    ensures live' == sofar + {c} && Unused(sofar, c.out)
  {
    CoinsNext(outs, k, n);
  }

  lemma {:induction false} CreateOutsTracks(w: Work, tx: Transfer, n: nat, live: set<Coin>, live': set<Coin>, r: Work)
    requires Mid(w) && Tracks(w.db, live) && n <= |tx.outs|
    requires forall i :: 0 <= i < |tx.outs| ==> Unused(live, tx.outs[i].out) && Unrecorded(w.db, tx.outs[i].out)
    requires forall i, j :: 0 <= i < j < |tx.outs| ==> tx.outs[i].out != tx.outs[j].out
    requires live' == live + Coins(tx.outs, n) && r == CreateOuts(w, tx, n)
    ensures Tracks(r.db, live')
    decreases n
  {
    if n == 0 {
      assert live' == live;
    } else {
      var k: nat := n - 1;
      var m, sofar, c := CreateOuts(w, tx, k), live + Coins(tx.outs, k), tx.outs[k];
      CreateOutsTracks(w, tx, k, live, sofar, m);
      CreateOutsKeeps(w, tx, k);
      LiveNext(live, tx.outs, k, n, sofar, c, live');
      CreateTracks(m, tx, c, sofar, live', r.db);
    }
  }

  lemma ConnectTracks(db: Db, tx: Transfer, live: set<Coin>)
    requires Balanced(db) && Tracks(db, live) && Genuine(live, tx)
    ensures Tracks(ConnectUtxo(db, tx), After(live, tx))
  {
    var w := Work(db, map[], false);
    StartsInLine(db);
    GenuineConnectable(db, live, tx);
    var m, left := SpendIns(w, tx, |tx.ins|), live - Coins(tx.ins, |tx.ins|);
    SpendInsTracks(w, tx, |tx.ins|, live, left, m);
    SpendInsKeeps(w, tx, |tx.ins|);
    forall i | 0 <= i < |tx.outs| ensures Unused(left, tx.outs[i].out) { assert Unused(live, tx.outs[i].out); }
    var r := CreateOuts(m, tx, |tx.outs|);
    CreateOutsTracks(m, tx, |tx.outs|, left, After(live, tx), r);
    SameTables(r.db, Commit(r), After(live, tx));
  }

  lemma SameTables(db: Db, db': Db, live: set<Coin>)
    requires Tracks(db, live) && db'.unspent == db.unspent && db'.frozen == db.frozen
    ensures Tracks(db', live)
  {
    forall c | c in live ensures Filed(db', c) { assert Filed(db, c); }
    forall k | Holds(db', k) ensures IsLive(live, k) { assert Holds(db, k); }
  }

  lemma ReleaseTracks(db: Db, q: QueueKey, live: set<Coin>, db': Db)
    requires Paired(db) && Tracks(db, live) && q in db.queue && Release(db, q) == Some(db')
    ensures Tracks(db', live)
  {
    assert QueueRowOk(db, q);
    forall c | c in live ensures Filed(db', c) { assert Filed(db, c); }
    forall k | Holds(db', k) ensures IsLive(live, k) { assert Holds(db, k); }
  }

  lemma {:induction false} ReleaseAllTracks(db: Db, due: seq<QueueKey>, live: set<Coin>, db': Db)
    requires Balanced(db) && Tracks(db, live) && ReleaseAll(db, due) == Some(db')
    ensures Tracks(db', live)
    decreases |due|
  {
    if due != [] {
      var db1 := Release(db, due[0]).value;
      ReleaseBalances(db, due[0]);
      ReleaseTracks(db, due[0], live, db1);
      ReleaseAllTracks(db1, due[1..], live, db');
    }
  }

  // ----- balances are sums of coins -----

  ghost function Values(live: set<Coin>, a: Address): map<Coin, int> {
    map c | c in live && c.address == a :: c.value
  }

  /** What an address owns. */
  ghost function Owned(live: set<Coin>, a: Address): int { Sum(Values(live, a)) }

  lemma OwnedRemove(live: set<Coin>, c: Coin, a: Address)
    requires c in live
    ensures Owned(live, a) == Owned(live - {c}, a) + if c.address == a then c.value else 0
  {
    if c.address == a {
      assert Values(live - {c}, a) == Values(live, a) - {c};
      SumRemove(Values(live, a), c);
    } else {
      assert Values(live - {c}, a) == Values(live, a);
    }
  }

  /** The tables without the row of a coin. */
  function Without(db: Db, c: Coin): Db {
    db.(unspent := db.unspent - {KeyOf(c)}, frozen := db.frozen - {KeyOf(c)})
  }

  lemma WithoutTracks(db: Db, live: set<Coin>, c: Coin, db': Db, live': set<Coin>)
    requires Tracks(db, live) && c in live && db' == Without(db, c) && live' == live - {c}
    ensures Tracks(db', live')
  {
    forall d | d in live' ensures Filed(db', d) { assert Filed(db, d); }
    forall k | Holds(db', k) ensures IsLive(live', k) {
      assert Holds(db, k);
      var d :| d in live && KeyOf(d) == k;
      assert d in live';
    }
  }

  lemma WithoutHoldings(db: Db, c: Coin, a: Address)
    requires Filed(db, c)
    ensures Holdings(db, a) == Holdings(Without(db, c), a) + if c.address == a then c.value else 0
  {
    var k := KeyOf(c);
    if k in db.frozen {
      AmountsRemove(db.frozen, k, a);
      assert db.unspent - {k} == db.unspent;
    } else {
      AmountsRemove(db.unspent, k, a);
      assert db.frozen - {k} == db.frozen;
    }
  }

  /** What the tables hold for an address is what its live coins are worth. */
  lemma {:induction false} HoldingsAreCoins(db: Db, live: set<Coin>, a: Address)
    requires Tracks(db, live)
    ensures Holdings(db, a) == Owned(live, a)
    decreases |live|
  {
    if live == {} {
      forall k ensures !Holds(db, k) {
        assert Holds(db, k) ==> IsLive(live, k);
      }
      assert Values(live, a).Keys == {};
      assert forall k :: k in db.unspent ==> Holds(db, k);
      assert forall k :: k in db.frozen ==> Holds(db, k);
      assert Amounts(db.unspent, a).Keys == {} && Amounts(db.frozen, a).Keys == {};
    } else {
      var c :| c in live;
      assert Filed(db, c);
      WithoutTracks(db, live, c, Without(db, c), live - {c});
      HoldingsAreCoins(Without(db, c), live - {c}, a);
      WithoutHoldings(db, c, a);
      OwnedRemove(live, c, a);
    }
  }

  // ----- every run -----

  /** A run over the chain's transactions: each is genuine for the coins then live, and each release takes
      what is due, in whatever order the range read gives it. */
  ghost predicate Reaches(db: Db, live: set<Coin>, steps: seq<Step>, db': Db, live': set<Coin>)
    decreases |steps|
  {
    if steps == [] then db' == db && live' == live
    else
      match steps[0]
      case ConnectStep(tx) => Genuine(live, tx) && Reaches(ConnectUtxo(db, tx), After(live, tx), steps[1..], db', live')
      case ReleaseStep(t) =>
        exists due :: DueAt(db, t, due) && ReleaseAll(db, due).Some? && Reaches(ReleaseAll(db, due).value, live, steps[1..], db', live')
  }

  lemma {:induction false} RunBalances(db: Db, live: set<Coin>, steps: seq<Step>, db': Db, live': set<Coin>)
    requires Balanced(db) && Tracks(db, live) && Reaches(db, live, steps, db', live')
    ensures Balanced(db') && Tracks(db', live')
    decreases |steps|
  {
    if steps != [] {
      match steps[0]
      case ConnectStep(tx) =>
        GenuineConnectable(db, live, tx);
        ConnectBalances(db, tx);
        ConnectTracks(db, tx, live);
        RunBalances(ConnectUtxo(db, tx), After(live, tx), steps[1..], db', live');
      case ReleaseStep(t) =>
        var due :| DueAt(db, t, due) && ReleaseAll(db, due).Some? && Reaches(ReleaseAll(db, due).value, live, steps[1..], db', live');
        var db1 := ReleaseAll(db, due).value;
        ReleaseDue(db, t, due);
        ReleaseAllTracks(db, due, live, db1);
        RunBalances(db1, live, steps[1..], db', live');
    }
  }

  const EMPTY_DB := Db(map[], map[], map[], map[])

  lemma EmptyBalanced()
    ensures Balanced(EMPTY_DB) && Tracks(EMPTY_DB, {})
  {
    forall a ensures BalanceOk(EMPTY_DB, a, Latest(EMPTY_DB, a)) {
      assert Amounts(EMPTY_DB.unspent, a).Keys == {} && QueueAmounts(EMPTY_DB.queue, a).Keys == {};
    }
  }

  /** Every run from empty tables: the latest balance of each address is the value of its live coins, which
      is the sum of its unspent and frozen rows; its frozen amount is the sum of its queue entries; and table
      and queue hold the same outputs. */
  lemma EveryRunBalances(steps: seq<Step>, db': Db, live': set<Coin>)
    requires Reaches(EMPTY_DB, {}, steps, db', live')
    ensures Paired(db') && Tracks(db', live')
    ensures forall a :: Latest(db', a).balance == Owned(live', a) == Holdings(db', a)
    ensures forall a :: Latest(db', a).frozen == Queues(db', a)
  {
    EmptyBalanced();
    RunBalances(EMPTY_DB, {}, steps, db', live');
    forall a ensures Latest(db', a).balance == Owned(live', a) == Holdings(db', a) && Latest(db', a).frozen == Queues(db', a) {
      assert BalanceOk(db', a, Latest(db', a));
      HoldingsAreCoins(db', live', a);
    }
  }

  /** No run gets stuck at a release: whatever is due can be released, in any order. */
  lemma ReleaseNeverFails(steps: seq<Step>, db: Db, live: set<Coin>, t: nat, due: seq<QueueKey>)
    requires Reaches(EMPTY_DB, {}, steps, db, live) && DueAt(db, t, due)
    ensures ReleaseAll(db, due).Some?
  {
    EmptyBalanced();
    RunBalances(EMPTY_DB, {}, steps, db, live);
    ReleaseDue(db, t, due);
  }
}
