/**
 The transaction index with its spent pointers (src/main.h:614-664): connecting a block marks the
 outputs it spends and adds its transactions (src/main.cpp:1880-1947, 2500-2575, 2676-2681),
 disconnecting it undoes both (src/main.cpp:1394-1456, 2398-2409).

 A transaction is identified by its id. Signature, maturity, time and value checks are one
 yes/no input per transaction; coin mints are not modelled.
 */
module TxIndex {
  import opened Wrappers
  import opened BigNum

  type TxId = nat

  datatype OutPoint = OutPoint(hash: TxId, n: nat)

  /** A position on disk; `NullPos` is what `SetNull` writes. */
  datatype DiskPos = NullPos | DiskPos(file: nat, blockPos: nat, txPos: nat)

  datatype TxOut = TxOut(value: nat, script: seq<Byte>)

  datatype Tx = Tx(id: TxId, isCoinBase: bool, vin: seq<OutPoint>, vout: seq<TxOut>)

  /** A transaction as it sits in a block: with its position on disk and the outcome of the checks
      that this model takes as given. */
  datatype Placed = Placed(tx: Tx, pos: DiskPos, checksPass: bool)

  datatype Entry = Entry(pos: DiskPos, spent: seq<DiskPos>)

  type Index = map<TxId, Entry>

  function NewEntry(p: Placed): Entry { Entry(p.pos, seq(|p.tx.vout|, _ => NullPos)) }

  predicate Known(idx: Index, o: OutPoint) {
    o.hash in idx && o.n < |idx[o.hash].spent|
  }

  predicate Spendable(idx: Index, o: OutPoint) {
    Known(idx, o) && idx[o.hash].spent[o.n] == NullPos
  }

  function SetSpent(idx: Index, o: OutPoint, v: DiskPos): Index
    requires Known(idx, o)
  {
    idx[o.hash := idx[o.hash].(spent := idx[o.hash].spent[o.n := v])]
  }

  // ----- what connecting and disconnecting mean -----

  /** Spending the inputs one after the other; fails on an unknown or already spent output. */
  function SpendAll(idx: Index, vin: seq<OutPoint>, pos: DiskPos): Option<Index>
    decreases |vin|
  {
    if vin == [] then Some(idx)
    else if !Spendable(idx, vin[0]) then None
    else SpendAll(SetSpent(idx, vin[0], pos), vin[1..], pos)
  }

  function UnspendAll(idx: Index, vin: seq<OutPoint>): Option<Index>
    decreases |vin|
  {
    if vin == [] then Some(idx)
    else if !Known(idx, vin[0]) then None
    else UnspendAll(SetSpent(idx, vin[0], NullPos), vin[1..])
  }

  function Inputs(p: Placed): seq<OutPoint> { if p.tx.isCoinBase then [] else p.tx.vin }

  predicate FullySpent(e: Entry) { NullPos !in e.spent }

  /** BIP 30: an id may only be reused when the index, as it was before the block, has no unspent
      output under it. */
  predicate Overwrites(db: Index, id: TxId) { id in db && !FullySpent(db[id]) }

  function ConnectTx(db: Index, idx: Index, p: Placed): Option<Index> {
    if Overwrites(db, p.tx.id) || (!p.tx.isCoinBase && !p.checksPass) then None
    else
      match SpendAll(idx, Inputs(p), p.pos)
      case None => None
      case Some(idx1) => Some(idx1[p.tx.id := NewEntry(p)])
  }

  function DisconnectTx(idx: Index, p: Placed): Option<Index> {
    match UnspendAll(idx, Inputs(p))
    case None => None
    case Some(idx1) => Some(idx1 - {p.tx.id})
  }

  function ConnectAll(db: Index, idx: Index, txs: seq<Placed>): Option<Index>
    decreases |txs|
  {
    if txs == [] then Some(idx)
    else
      match ConnectTx(db, idx, txs[0])
      case None => None
      case Some(idx1) => ConnectAll(db, idx1, txs[1..])
  }

  /** Last transaction first. */
  function DisconnectAll(idx: Index, txs: seq<Placed>): Option<Index>
    decreases |txs|
  {
    if txs == [] then Some(idx)
    else
      match DisconnectTx(idx, txs[|txs| - 1])
      case None => None
      case Some(idx1) => DisconnectAll(idx1, txs[..|txs| - 1])
  }

  // ----- a closed form: all slots of a set at once -----

  function MarkEntry(h: TxId, e: Entry, outs: set<OutPoint>, v: DiskPos): Entry {
    Entry(e.pos, seq(|e.spent|, n requires 0 <= n < |e.spent| => if OutPoint(h, n) in outs then v else e.spent[n]))
  }

  function Mark(idx: Index, outs: set<OutPoint>, v: DiskPos): Index {
    map h | h in idx :: MarkEntry(h, idx[h], outs, v)
  }

  predicate Distinct(vin: seq<OutPoint>) {
    forall i, j :: 0 <= i < j < |vin| ==> vin[i] != vin[j]
  }

  function Outs(vin: seq<OutPoint>): set<OutPoint> { set o | o in vin }

  lemma MarkFirst(idx: Index, o: OutPoint, rest: set<OutPoint>, v: DiskPos)
    requires Known(idx, o)
    ensures Mark(SetSpent(idx, o, v), rest, v) == Mark(idx, rest + {o}, v)
  {
    var a, b := Mark(SetSpent(idx, o, v), rest, v), Mark(idx, rest + {o}, v);
    assert a.Keys == b.Keys;
    forall h | h in a ensures a[h] == b[h] {
      assert a[h].spent == b[h].spent;
    }
  }

  lemma MarkNothing(idx: Index, v: DiskPos)
    ensures Mark(idx, {}, v) == idx
  {
    forall h | h in idx ensures Mark(idx, {}, v)[h] == idx[h] {
      assert MarkEntry(h, idx[h], {}, v).spent == idx[h].spent;
    }
  }

  /** Spending succeeds exactly on distinct unspent outputs, and then marks precisely those. */
  lemma {:induction false} SpendAllIs(idx: Index, vin: seq<OutPoint>, pos: DiskPos)
    requires pos != NullPos
    ensures SpendAll(idx, vin, pos).Some? <==> Distinct(vin) && forall i :: 0 <= i < |vin| ==> Spendable(idx, vin[i])
    ensures SpendAll(idx, vin, pos).Some? ==> SpendAll(idx, vin, pos).value == Mark(idx, Outs(vin), pos)
    decreases |vin|
  {
    if vin == [] {
      assert Outs(vin) == {};
      MarkNothing(idx, pos);
    } else if Spendable(idx, vin[0]) {
      var idx1 := SetSpent(idx, vin[0], pos);
      SpendAllIs(idx1, vin[1..], pos);
      assert forall o :: Spendable(idx1, o) <==> Spendable(idx, o) && o != vin[0];
      assert Outs(vin) == Outs(vin[1..]) + {vin[0]};
      MarkFirst(idx, vin[0], Outs(vin[1..]), pos);
      HeadTail(idx, idx1, vin);
    }
  }

  lemma HeadTail(idx: Index, idx1: Index, vin: seq<OutPoint>)
    requires vin != [] && Spendable(idx, vin[0])
    requires forall o :: Spendable(idx1, o) <==> Spendable(idx, o) && o != vin[0]
    ensures (Distinct(vin) && forall i :: 0 <= i < |vin| ==> Spendable(idx, vin[i]))
       <==> (Distinct(vin[1..]) && forall i :: 0 <= i < |vin[1..]| ==> Spendable(idx1, vin[1..][i]))
  {
    var rest := vin[1..];
    if Distinct(rest) && forall i :: 0 <= i < |rest| ==> Spendable(idx1, rest[i]) {
      forall i | 0 <= i < |vin| ensures Spendable(idx, vin[i]) {
        if i > 0 { assert vin[i] == rest[i - 1]; }
      }
      forall i, j | 0 <= i < j < |vin| ensures vin[i] != vin[j] {
        assert vin[j] == rest[j - 1];
        if i > 0 { assert vin[i] == rest[i - 1]; }
      }
    }
  }

  lemma {:induction false} UnspendAllIs(idx: Index, vin: seq<OutPoint>)
    ensures UnspendAll(idx, vin).Some? <==> forall i :: 0 <= i < |vin| ==> Known(idx, vin[i])
    ensures UnspendAll(idx, vin).Some? ==> UnspendAll(idx, vin).value == Mark(idx, Outs(vin), NullPos)
    decreases |vin|
  {
    if vin == [] {
      assert Outs(vin) == {};
      MarkNothing(idx, NullPos);
    } else if Known(idx, vin[0]) {
      var idx1 := SetSpent(idx, vin[0], NullPos);
      UnspendAllIs(idx1, vin[1..]);
      assert forall o :: Known(idx1, o) <==> Known(idx, o);
      assert Outs(vin) == Outs(vin[1..]) + {vin[0]};
      MarkFirst(idx, vin[0], Outs(vin[1..]), NullPos);
      assert forall i :: 0 < i < |vin| ==> vin[i] == vin[1..][i - 1];
    }
  }

  lemma MarkUndone(idx: Index, outs: set<OutPoint>, v: DiskPos)
    requires forall o :: o in outs ==> Spendable(idx, o)
    ensures Mark(Mark(idx, outs, v), outs, NullPos) == idx
  {
    forall h | h in idx ensures Mark(Mark(idx, outs, v), outs, NullPos)[h] == idx[h] {
      var e := MarkEntry(h, MarkEntry(h, idx[h], outs, v), outs, NullPos);
      forall n | 0 <= n < |idx[h].spent| ensures e.spent[n] == idx[h].spent[n] {
        if OutPoint(h, n) in outs { assert Spendable(idx, OutPoint(h, n)); }
      }
      assert e.spent == idx[h].spent;
    }
  }

  // ----- disconnecting undoes connecting -----

  function Ids(txs: seq<Placed>): set<TxId> { set i | 0 <= i < |txs| :: txs[i].tx.id }

  predicate WellPlaced(txs: seq<Placed>) {
    && (forall i :: 0 <= i < |txs| ==> txs[i].pos != NullPos)
    && (forall i, j :: 0 <= i < j < |txs| ==> txs[i].tx.id != txs[j].tx.id)
  }

  lemma {:induction false} DisconnectHeadLast(idx: Index, txs: seq<Placed>)
    requires txs != []
    ensures DisconnectAll(idx, txs)
         == match DisconnectAll(idx, txs[1..]) case None => None case Some(idx1) => DisconnectTx(idx1, txs[0])
    decreases |txs|
  {
    if |txs| > 1 {
      var last := |txs| - 1;
      assert txs[1..][|txs[1..]| - 1] == txs[last];
      assert txs[1..][..|txs[1..]| - 1] == txs[..last][1..];
      match DisconnectTx(idx, txs[last])
      case None =>
      case Some(idx1) => DisconnectHeadLast(idx1, txs[..last]);
    }
  }

  lemma TxUndone(idx: Index, p: Placed, gone: set<TxId>)
    requires p.pos != NullPos && p.tx.id !in gone
    requires SpendAll(idx, Inputs(p), p.pos).Some?
    requires forall h :: h in gone + {p.tx.id} && h in idx ==> FullySpent(idx[h])
    ensures var idx1 := SpendAll(idx, Inputs(p), p.pos).value[p.tx.id := NewEntry(p)];
            DisconnectTx(idx1 - gone, p) == Some(idx - gone - {p.tx.id})
  {
    var vin, outs := Inputs(p), Outs(Inputs(p));
    SpendAllIs(idx, vin, p.pos);
    var idx1 := Mark(idx, outs, p.pos)[p.tx.id := NewEntry(p)];
    forall i | 0 <= i < |vin| ensures Known(idx1 - gone, vin[i]) && vin[i].hash !in gone + {p.tx.id} {
      assert Spendable(idx, vin[i]);
      assert idx[vin[i].hash].spent[vin[i].n] in idx[vin[i].hash].spent;
    }
    UnspendAllIs(idx1 - gone, vin);
    MarkUndone(idx, outs, p.pos);
    var lhs, rhs := Mark(idx1 - gone, outs, NullPos) - {p.tx.id}, idx - gone - {p.tx.id};
    forall h | h in rhs ensures lhs[h] == rhs[h] {
      assert idx1[h] == Mark(idx, outs, p.pos)[h];
      assert Mark(Mark(idx, outs, p.pos), outs, NullPos)[h] == idx[h];
    }
    assert lhs.Keys == rhs.Keys;
    assert lhs == rhs;
  }

  /** Connecting a block and disconnecting it again leaves the index as it was, without the entries
      of any transactions that the block replaced. */
  lemma {:induction false} BlockUndone(db: Index, idx: Index, txs: seq<Placed>)
    requires WellPlaced(txs) && ConnectAll(db, idx, txs).Some?
    requires forall h :: h in Ids(txs) && h in idx ==> FullySpent(idx[h])
    ensures DisconnectAll(ConnectAll(db, idx, txs).value, txs) == Some(idx - Ids(txs))
    decreases |txs|
  {
    if txs == [] {
      assert idx - Ids(txs) == idx;
    } else {
      var p, rest := txs[0], txs[1..];
      var idx1 := ConnectTx(db, idx, p).value;
      assert forall i :: 0 <= i < |rest| ==> rest[i] == txs[i + 1];
      assert Ids(txs) == Ids(rest) + {p.tx.id};
      SpendAllIs(idx, Inputs(p), p.pos);
      forall h | h in Ids(rest) && h in idx1 ensures FullySpent(idx1[h]) {
        assert h != p.tx.id;
        StaysSpent(idx, h, Outs(Inputs(p)), p.pos);
      }
      BlockUndone(db, idx1, rest);
      var r := ConnectAll(db, idx, txs).value;
      DisconnectHeadLast(r, txs);
      TxUndone(idx, p, Ids(rest));
      assert idx - Ids(rest) - {p.tx.id} == idx - Ids(txs);
    }
  }

  lemma StaysSpent(idx: Index, h: TxId, outs: set<OutPoint>, v: DiskPos)
    requires v != NullPos && h in idx && FullySpent(idx[h])
    ensures FullySpent(Mark(idx, outs, v)[h])
  {
    var e := MarkEntry(h, idx[h], outs, v);
    forall n | 0 <= n < |e.spent| ensures e.spent[n] != NullPos {
      assert idx[h].spent[n] in idx[h].spent;
    }
  }

  /** The index is restored exactly when the block brought only ids that were not in it. */
  lemma ConnectDisconnect(db: Index, txs: seq<Placed>)
    requires WellPlaced(txs) && ConnectAll(db, db, txs).Some?
    ensures DisconnectAll(ConnectAll(db, db, txs).value, txs) == Some(db) <==> Ids(txs) !! db.Keys
  {
    ConnectedIdsSpent(db, db, txs);
    BlockUndone(db, db, txs);
    if Ids(txs) !! db.Keys {
      assert db - Ids(txs) == db;
    } else {
      var h :| h in Ids(txs) && h in db;
      assert h !in db - Ids(txs);
    }
  }

  /** A block that uses the id of a fully spent transaction again connects and is not undone. */
  lemma ReusedIdNotRestored(id: TxId, pos: DiskPos, spender: DiskPos)
    requires pos != NullPos && spender != NullPos
    ensures var db, txs := map[id := Entry(pos, [spender])], [Placed(Tx(id, true, [], [TxOut(1, [])]), pos, true)];
      && WellPlaced(txs) && ConnectAll(db, db, txs).Some?
      && DisconnectAll(ConnectAll(db, db, txs).value, txs) == Some(map[])
  {
    var db, p := map[id := Entry(pos, [spender])], Placed(Tx(id, true, [], [TxOut(1, [])]), pos, true);
    assert FullySpent(db[id]);
    assert ConnectAll(db, db, [p]) == ConnectAll(db, db[id := NewEntry(p)], []);
    BlockUndone(db, db, [p]);
    assert [p][0].tx.id == id;
    assert db - Ids([p]) == map[];
  }

  lemma {:induction false} ConnectedIdsSpent(db: Index, idx: Index, txs: seq<Placed>)
    requires ConnectAll(db, idx, txs).Some?
    ensures forall h :: h in Ids(txs) ==> !Overwrites(db, h)
    decreases |txs|
  {
    if txs != [] {
      var rest := txs[1..];
      assert forall i :: 0 <= i < |rest| ==> rest[i] == txs[i + 1];
      ConnectedIdsSpent(db, ConnectTx(db, idx, txs[0]).value, rest);
      assert Ids(txs) == Ids(rest) + {txs[0].tx.id};
    }
  }

  // ----- when connecting succeeds -----

  /** The checks of a transaction passed; a coinbase has none. */
  predicate Passed(p: Placed) { p.tx.isCoinBase || p.checksPass }

  /** Output o is there for the i-th transaction of a block: an earlier one of the block creates it, or it is
      unspent in the database. */
  ghost predicate Available(db: Index, txs: seq<Placed>, i: nat, o: OutPoint)
    requires i <= |txs|
  {
    (exists j :: 0 <= j < i && txs[j].tx.id == o.hash && o.n < |txs[j].tx.vout|) || Spendable(db, o)
  }

  /** One of the first i transactions spends o. */
  ghost predicate SpentIn(txs: seq<Placed>, i: nat, o: OutPoint)
    requires i <= |txs|
  {
    exists j, k :: 0 <= j < i && Spends(txs, j, k, o)
  }

  /** The inputs of the i-th transaction are different outputs that are there and that no earlier one spends. */
  ghost predicate InputsFree(db: Index, txs: seq<Placed>, i: nat)
    requires i < |txs|
  {
    && Distinct(Inputs(txs[i]))
    && forall k :: 0 <= k < |Inputs(txs[i])| ==> Available(db, txs, i, Inputs(txs[i])[k]) && !SpentIn(txs, i, Inputs(txs[i])[k])
  }

  ghost predicate TxSound(db: Index, txs: seq<Placed>, i: nat)
    requires i < |txs|
  {
    Passed(txs[i]) && !Overwrites(db, txs[i].tx.id) && InputsFree(db, txs, i)
  }

  ghost predicate BlockSound(db: Index, txs: seq<Placed>) {
    forall i: nat {:trigger TxSound(db, txs, i)} :: i < |txs| ==> TxSound(db, txs, i)
  }

  lemma {:induction false} ConnectJoin(db: Index, idx: Index, a: seq<Placed>, b: seq<Placed>, ab: seq<Placed>)
    requires ab == a + b
    ensures ConnectAll(db, idx, ab) == match ConnectAll(db, idx, a) case None => None case Some(idx1) => ConnectAll(db, idx1, b)
    decreases |a|
  {
    if a == [] {
      assert ab == b;
    } else {
      assert ab[0] == a[0] && ab[1..] == a[1..] + b;
      if ConnectTx(db, idx, a[0]).Some? {
        ConnectJoin(db, ConnectTx(db, idx, a[0]).value, a[1..], b, ab[1..]);
      }
    }
  }

  /** What can be spent after some transactions of a block. */
  ghost predicate Offers(db: Index, txs: seq<Placed>, idx: Index) {
    forall o {:trigger Spendable(idx, o)} :: Spendable(idx, o) <==> Available(db, txs, |txs|, o) && !SpentIn(txs, |txs|, o)
  }

  lemma SpentInNext(txs: seq<Placed>, p: Placed, all: seq<Placed>, o: OutPoint)
    requires all == txs + [p]
    ensures SpentIn(all, |txs|, o) <==> SpentIn(txs, |txs|, o)
    ensures SpentIn(all, |all|, o) <==> SpentIn(txs, |txs|, o) || o in Inputs(p)
  {
    if SpentIn(txs, |txs|, o) {
      var j, k :| 0 <= j < |txs| && Spends(txs, j, k, o);
      assert Spends(all, j, k, o);
    }
    if SpentIn(all, |all|, o) {
      var j, k :| 0 <= j < |all| && Spends(all, j, k, o);
      if j < |txs| { assert Spends(txs, j, k, o); } else { assert all[j] == p; }
    }
    if o in Inputs(p) {
      var k :| 0 <= k < |Inputs(p)| && Inputs(p)[k] == o;
      assert Spends(all, |txs|, k, o);
    }
    if SpentIn(all, |txs|, o) {
      var j, k :| 0 <= j < |txs| && Spends(all, j, k, o);
      assert Spends(txs, j, k, o);
    }
  }

  lemma AvailableNext(db: Index, txs: seq<Placed>, p: Placed, all: seq<Placed>, o: OutPoint)
    requires all == txs + [p]
    ensures Available(db, all, |txs|, o) <==> Available(db, txs, |txs|, o)
    ensures Available(db, all, |all|, o) <==> Available(db, txs, |txs|, o) || (p.tx.id == o.hash && o.n < |p.tx.vout|)
  {
    assert all[|txs|] == p;
    assert forall j :: 0 <= j < |txs| ==> all[j] == txs[j];
  }

  lemma SoundBefore(db: Index, txs: seq<Placed>, p: Placed, all: seq<Placed>, i: nat)
    requires all == txs + [p] && i < |txs|
    ensures TxSound(db, all, i) <==> TxSound(db, txs, i)
  {
    assert all[i] == txs[i];
    forall o ensures Available(db, all, i, o) <==> Available(db, txs, i, o) {
      assert forall j :: 0 <= j < i ==> all[j] == txs[j];
    }
    forall o ensures SpentIn(all, i, o) <==> SpentIn(txs, i, o) {
      assert forall j, k :: 0 <= j < i ==> (Spends(all, j, k, o) <==> Spends(txs, j, k, o));
    }
  }

  lemma LastSound(db: Index, txs: seq<Placed>, p: Placed, all: seq<Placed>, idx: Index)
    requires all == txs + [p] && Offers(db, txs, idx) && p.pos != NullPos
    ensures TxSound(db, all, |txs|) <==> ConnectTx(db, idx, p).Some?
  {
    assert all[|txs|] == p;
    SpendAllIs(idx, Inputs(p), p.pos);
    forall k | 0 <= k < |Inputs(p)|
      ensures Available(db, all, |txs|, Inputs(p)[k]) && !SpentIn(all, |txs|, Inputs(p)[k]) <==> Spendable(idx, Inputs(p)[k]) {
      AvailableNext(db, txs, p, all, Inputs(p)[k]);
      SpentInNext(txs, p, all, Inputs(p)[k]);
    }
  }

  lemma SpentEntry(db: Index, o: OutPoint)
    requires !Overwrites(db, o.hash)
    ensures !Spendable(db, o)
  {
    if Known(db, o) {
      assert db[o.hash].spent[o.n] in db[o.hash].spent;
    }
  }

  /** Nothing of a new id is there before its transaction. */
  lemma NewIdAbsent(db: Index, txs: seq<Placed>, p: Placed, all: seq<Placed>, o: OutPoint, i: nat)
    requires all == txs + [p] && !Overwrites(db, p.tx.id) && o.hash == p.tx.id && i <= |txs|
    requires forall j :: 0 <= j < |txs| ==> txs[j].tx.id != p.tx.id
    ensures !Available(db, all, i, o) && !Available(db, txs, i, o)
  {
    SpentEntry(db, o);
    assert forall j :: 0 <= j < i ==> all[j] == txs[j];
  }

  lemma NewIdUnspent(db: Index, txs: seq<Placed>, p: Placed, all: seq<Placed>, o: OutPoint)
    requires all == txs + [p] && BlockSound(db, all) && o.hash == p.tx.id
    requires forall j :: 0 <= j < |txs| ==> txs[j].tx.id != p.tx.id
    ensures !SpentIn(all, |all|, o) && !Available(db, txs, |txs|, o)
  {
    assert all[|txs|] == p && TxSound(db, all, |txs|);
    NewIdAbsent(db, txs, p, all, o, |txs|);
    forall j: nat, k: nat | j < |all| ensures !Spends(all, j, k, o) {
      assert TxSound(db, all, j);
      NewIdAbsent(db, txs, p, all, o, j);
    }
  }

  lemma OffersNext(db: Index, txs: seq<Placed>, p: Placed, all: seq<Placed>, idx: Index, idx': Index)
    requires all == txs + [p] && Offers(db, txs, idx) && BlockSound(db, all) && ConnectTx(db, idx, p) == Some(idx')
    requires p.pos != NullPos && forall j :: 0 <= j < |txs| ==> txs[j].tx.id != p.tx.id
    ensures Offers(db, all, idx')
  {
    SpendAllIs(idx, Inputs(p), p.pos);
    forall o ensures Spendable(idx', o) <==> Available(db, all, |all|, o) && !SpentIn(all, |all|, o) {
      AvailableNext(db, txs, p, all, o);
      SpentInNext(txs, p, all, o);
      if o.hash == p.tx.id {
        NewIdUnspent(db, txs, p, all, o);
      } else {
        assert Spendable(idx', o) <==> Spendable(idx, o) && o !in Inputs(p);
      }
    }
  }

  /** Exactly when a block connects, told from its transactions: all checks pass, no id still has an unspent
      output in the database, and all inputs are different outputs that are there to be spent. */
  lemma {:induction false} ConnectIff(db: Index, txs: seq<Placed>)
    requires WellPlaced(txs)
    ensures ConnectAll(db, db, txs).Some? <==> BlockSound(db, txs)
    ensures ConnectAll(db, db, txs).Some? ==> Offers(db, txs, ConnectAll(db, db, txs).value)
    decreases |txs|
  {
    if txs == [] {
      forall o ensures Spendable(db, o) <==> Available(db, txs, 0, o) && !SpentIn(txs, 0, o) { }
    } else {
      var front, p := txs[..|txs| - 1], txs[|txs| - 1];
      ConnectIff(db, front);
      ConnectJoin(db, db, front, [p], txs);
      forall i: nat | i < |front| ensures TxSound(db, txs, i) <==> TxSound(db, front, i) { SoundBefore(db, front, p, txs, i); }
      LastConnects(db, front, p, txs);
    }
  }

  lemma LastConnects(db: Index, txs: seq<Placed>, p: Placed, all: seq<Placed>)
    requires all == txs + [p] && WellPlaced(all)
    requires ConnectAll(db, db, txs).Some? <==> BlockSound(db, txs)
    requires ConnectAll(db, db, txs).Some? ==> Offers(db, txs, ConnectAll(db, db, txs).value)
    requires ConnectAll(db, db, all) == match ConnectAll(db, db, txs) case None => None case Some(idx1) => ConnectAll(db, idx1, [p])
    requires forall i: nat {:trigger TxSound(db, all, i)} :: i < |txs| ==> (TxSound(db, all, i) <==> TxSound(db, txs, i))
    ensures ConnectAll(db, db, all).Some? <==> BlockSound(db, all)
    ensures ConnectAll(db, db, all).Some? ==> Offers(db, all, ConnectAll(db, db, all).value)
  {
    assert all[|txs|] == p && forall j :: 0 <= j < |txs| ==> all[j] == txs[j];
    if BlockSound(db, txs) {
      var idx := ConnectAll(db, db, txs).value;
      LastSound(db, txs, p, all, idx);
      ConnectOneTx(db, idx, p);
      assert BlockSound(db, all) <==> TxSound(db, all, |txs|);
      if BlockSound(db, all) {
        OffersNext(db, txs, p, all, idx, ConnectTx(db, idx, p).value);
      }
    } else {
      var i: nat :| i < |txs| && !TxSound(db, txs, i);
      assert !TxSound(db, all, i);
    }
  }

  lemma ConnectOneTx(db: Index, idx: Index, p: Placed)
    ensures ConnectAll(db, idx, [p]) == ConnectTx(db, idx, p)
  {
    if ConnectTx(db, idx, p).Some? {
      assert ConnectAll(db, ConnectTx(db, idx, p).value, [p][1..]) == ConnectTx(db, idx, p);
    }
  }

  lemma {:induction false} ConnectedPassed(db: Index, idx: Index, txs: seq<Placed>)
    requires ConnectAll(db, idx, txs).Some?
    ensures forall i :: 0 <= i < |txs| ==> txs[i].tx.isCoinBase || txs[i].checksPass
    decreases |txs|
  {
    if txs != [] {
      ConnectedPassed(db, ConnectTx(db, idx, txs[0]).value, txs[1..]);
      assert forall i :: 0 < i < |txs| ==> txs[i] == txs[1..][i - 1];
    }
  }

  /** No chain whose blocks connect holds a transaction whose checks failed. */
  lemma {:induction false} BuildPassed(blocks: seq<seq<Placed>>)
    requires Build(blocks).Some?
    ensures forall b, i :: 0 <= b < |blocks| && 0 <= i < |blocks[b]| ==> blocks[b][i].tx.isCoinBase || blocks[b][i].checksPass
    decreases |blocks|
  {
    if blocks != [] {
      var front, last := blocks[..|blocks| - 1], blocks[|blocks| - 1];
      BuildPassed(front);
      ConnectedPassed(Build(front).value, Build(front).value, last);
      assert forall b :: 0 <= b < |front| ==> blocks[b] == front[b];
    }
  }

  // ----- when disconnecting succeeds -----

  /** The output that input k of transaction i spent is in the index, and no later transaction has its id. */
  predicate InputKept(idx: Index, txs: seq<Placed>, i: int, k: int)
    requires 0 <= i < |txs| && 0 <= k < |Inputs(txs[i])|
  {
    Known(idx, Inputs(txs[i])[k]) && forall j :: i < j < |txs| ==> txs[j].tx.id != Inputs(txs[i])[k].hash
  }

  ghost predicate Undoable(idx: Index, txs: seq<Placed>) {
    forall i, k {:trigger InputKept(idx, txs, i, k)} :: 0 <= i < |txs| && 0 <= k < |Inputs(txs[i])| ==> InputKept(idx, txs, i, k)
  }

  lemma DisconnectTxKnown(idx: Index, p: Placed)
    ensures DisconnectTx(idx, p).Some? <==> forall k :: 0 <= k < |Inputs(p)| ==> Known(idx, Inputs(p)[k])
    ensures DisconnectTx(idx, p).Some? ==>
      forall o {:trigger Known(idx, o)} :: Known(DisconnectTx(idx, p).value, o) <==> Known(idx, o) && o.hash != p.tx.id
  {
    UnspendAllIs(idx, Inputs(p));
  }

  lemma UndoableLast(idx: Index, txs: seq<Placed>, front: seq<Placed>, p: Placed, idx1: Index)
    requires txs == front + [p] && DisconnectTx(idx, p) == Some(idx1)
    ensures Undoable(idx, txs) <==> Undoable(idx1, front)
  {
    DisconnectTxKnown(idx, p);
    if Undoable(idx, txs) {
      forall i, k | 0 <= i < |front| && 0 <= k < |Inputs(front[i])| ensures InputKept(idx1, front, i, k) {
        assert txs[i] == front[i] && InputKept(idx, txs, i, k);
        assert txs[|front|] == p;
        assert forall j :: i < j < |front| ==> front[j] == txs[j];
      }
    }
    if Undoable(idx1, front) {
      forall i, k | 0 <= i < |txs| && 0 <= k < |Inputs(txs[i])| ensures InputKept(idx, txs, i, k) {
        if i < |front| {
          assert txs[i] == front[i] && InputKept(idx1, front, i, k);
        }
      }
    }
  }

  /** Disconnecting a list of transactions, last one first, fails exactly when some input names an output that
      the index does not have, or an id that a later transaction of the list used again. */
  lemma {:induction false} DisconnectIff(idx: Index, txs: seq<Placed>)
    ensures DisconnectAll(idx, txs).Some? <==> Undoable(idx, txs)
    decreases |txs|
  {
    if txs != [] {
      var front, p := txs[..|txs| - 1], txs[|txs| - 1];
      DisconnectTxKnown(idx, p);
      if DisconnectTx(idx, p).Some? {
        var idx1 := DisconnectTx(idx, p).value;
        UndoableLast(idx, txs, front, p, idx1);
        DisconnectIff(idx1, front);
      } else {
        var k :| 0 <= k < |Inputs(p)| && !Known(idx, Inputs(p)[k]);
        assert !InputKept(idx, txs, |txs| - 1, k);
      }
    }
  }

  lemma {:induction false} DisconnectJoin(idx: Index, a: seq<Placed>, b: seq<Placed>)
    ensures DisconnectAll(idx, a + b) == match DisconnectAll(idx, b) case None => None case Some(idx1) => DisconnectAll(idx1, a)
    decreases |b|
  {
    if b == [] {
      assert a + b == a;
    } else {
      var front := b[..|b| - 1];
      assert (a + b)[..|a + b| - 1] == a + front && (a + b)[|a + b| - 1] == b[|b| - 1];
      if DisconnectTx(idx, b[|b| - 1]).Some? {
        DisconnectJoin(DisconnectTx(idx, b[|b| - 1]).value, a, front);
      }
    }
  }

  // ----- the spent pointers of a whole chain -----

  /** Where the last transaction with an id is, or -1. */
  function LastPlace(txs: seq<Placed>, h: TxId): (i: int)
    ensures -1 <= i < |txs| && (i >= 0 ==> txs[i].tx.id == h)
    ensures forall j :: i < j < |txs| ==> txs[j].tx.id != h
  {
    if txs == [] then -1
    else if txs[|txs| - 1].tx.id == h then |txs| - 1
    else LastPlace(txs[..|txs| - 1], h)
  }

  lemma LastPlaceAppend(txs: seq<Placed>, p: Placed, h: TxId)
    ensures LastPlace(txs + [p], h) == if p.tx.id == h then |txs| else LastPlace(txs, h)
  {
    assert (txs + [p])[..|txs|] == txs;
  }

  /** Input k of the i-th transaction spends o. */
  predicate Spends(txs: seq<Placed>, i: int, k: int, o: OutPoint) {
    0 <= i < |txs| && 0 <= k < |Inputs(txs[i])| && Inputs(txs[i])[k] == o
  }

  /** It spends the output of the last transaction that has this id, not of one that was replaced. */
  predicate SpendsLatest(txs: seq<Placed>, i: int, k: int, o: OutPoint) {
    Spends(txs, i, k, o) && i > LastPlace(txs, o.hash)
  }

  ghost predicate IsSpent(txs: seq<Placed>, o: OutPoint) { exists i, k :: SpendsLatest(txs, i, k, o) }

  predicate EntryOf(idx: Index, p: Placed) {
    p.tx.id in idx && idx[p.tx.id].pos == p.pos && |idx[p.tx.id].spent| == |p.tx.vout|
  }

  predicate EntryLatest(idx: Index, txs: seq<Placed>, h: TxId) {
    LastPlace(txs, h) >= 0 && EntryOf(idx, txs[LastPlace(txs, h)])
  }

  /** Output n of the i-th transaction is spent before the j-th. */
  ghost predicate SpentBetween(txs: seq<Placed>, i: int, j: int, n: nat)
    requires 0 <= i < |txs|
  {
    exists m, k :: i < m < j && Spends(txs, m, k, OutPoint(txs[i].tx.id, n))
  }

  /** An id comes back only after every output of its earlier transaction has been spent (the Specification
      section of BIP 30). */
  ghost predicate Replaceable(txs: seq<Placed>, i: int, j: int) {
    0 <= i < j < |txs| && txs[i].tx.id == txs[j].tx.id ==> forall n: nat :: n < |txs[i].tx.vout| ==> SpentBetween(txs, i, j, n)
  }

  /** The index says exactly what the transactions of the chain say: which outputs exist, which are spent,
      and by which transaction. Where an id occurs more than once, it speaks of the last one. */
  ghost predicate Represents(idx: Index, txs: seq<Placed>) {
    && (forall i :: 0 <= i < |txs| ==> txs[i].pos != NullPos) && idx.Keys == Ids(txs)
    && (forall h {:trigger EntryLatest(idx, txs, h)} :: h in idx ==> EntryLatest(idx, txs, h))
    && (forall i, k, o {:trigger SpendsLatest(txs, i, k, o)} ::
          SpendsLatest(txs, i, k, o) ==> Known(idx, o) && idx[o.hash].spent[o.n] == txs[i].pos)
    && (forall o {:trigger Known(idx, o)} ::
          Known(idx, o) && idx[o.hash].spent[o.n] != NullPos ==> IsSpent(txs, o))
    && (forall i, k, j, l, o {:trigger SpendsLatest(txs, i, k, o), SpendsLatest(txs, j, l, o)} ::
          SpendsLatest(txs, i, k, o) && SpendsLatest(txs, j, l, o) ==> i == j && k == l)
    && (forall i, j {:trigger Replaceable(txs, i, j)} :: Replaceable(txs, i, j))
  }

  /** An output's slot is taken exactly when one and only one input of the chain spends it, and it
      then holds that transaction's position. */
  lemma SpentByExactlyOne(idx: Index, txs: seq<Placed>, o: OutPoint)
    requires Represents(idx, txs) && Known(idx, o)
    ensures idx[o.hash].spent[o.n] != NullPos <==> IsSpent(txs, o)
    ensures forall i, k, j, l :: SpendsLatest(txs, i, k, o) && SpendsLatest(txs, j, l, o) ==> i == j && k == l
    ensures forall i, k :: SpendsLatest(txs, i, k, o) ==> idx[o.hash].spent[o.n] == txs[i].pos
  {
    if i, k :| SpendsLatest(txs, i, k, o) {
      assert txs[i].pos != NullPos;
    }
  }

  lemma SpentNotSpendable(idx: Index, txs: seq<Placed>)
    requires Represents(idx, txs)
    ensures forall i, k, o {:trigger SpendsLatest(txs, i, k, o)} :: SpendsLatest(txs, i, k, o) ==> !Spendable(idx, o)
  {
    forall i, k, o | SpendsLatest(txs, i, k, o) ensures !Spendable(idx, o) {
      assert txs[i].pos != NullPos;
    }
  }

  lemma IdsAppend(txs: seq<Placed>, p: Placed)
    ensures Ids(txs + [p]) == Ids(txs) + {p.tx.id}
  {
    var txs' := txs + [p];
    assert txs'[|txs|] == p;
    forall h | h in Ids(txs) ensures h in Ids(txs') {
      var i :| 0 <= i < |txs| && txs[i].tx.id == h;
      assert txs'[i].tx.id == h;
    }
  }

  /** Spends of the latest transactions, with one more transaction at the end. */
  lemma SpendsAppend(txs: seq<Placed>, p: Placed, i: int, k: int, o: OutPoint)
    ensures SpendsLatest(txs + [p], i, k, o)
       <==> o.hash != p.tx.id && (SpendsLatest(txs, i, k, o) || (i == |txs| && 0 <= k < |Inputs(p)| && Inputs(p)[k] == o))
  {
    LastPlaceAppend(txs, p, o.hash);
  }

  /** The index after one more transaction. Its id is new, or that of a fully spent transaction. */
  lemma AppendTx(db: Index, idx: Index, txs: seq<Placed>, p: Placed, idx': Index)
    requires Represents(idx, txs) && p.pos != NullPos && (p.tx.id in idx ==> FullySpent(idx[p.tx.id]))
    requires ConnectTx(db, idx, p) == Some(idx')
    ensures Represents(idx', txs + [p])
  {
    var vin, outs, txs' := Inputs(p), Outs(Inputs(p)), txs + [p];
    SpendAllIs(idx, vin, p.pos);
    IdsAppend(txs, p);
    AppendEntries(idx, idx', txs, p, outs);
    AppendSpends(idx, idx', txs, p, outs);
    AppendSlots(idx, idx', txs, p, outs);
    AppendUnique(idx, txs, p);
    AppendReplaces(idx, txs, p);
  }

  lemma AppendEntries(idx: Index, idx': Index, txs: seq<Placed>, p: Placed, outs: set<OutPoint>)
    requires Represents(idx, txs) && idx' == Mark(idx, outs, p.pos)[p.tx.id := NewEntry(p)]
    ensures forall h {:trigger EntryLatest(idx', txs + [p], h)} :: h in idx' ==> EntryLatest(idx', txs + [p], h)
  {
    forall h | h in idx' ensures EntryLatest(idx', txs + [p], h) {
      LastPlaceAppend(txs, p, h);
      if h != p.tx.id { assert EntryLatest(idx, txs, h); }
    }
  }

  lemma AppendSpends(idx: Index, idx': Index, txs: seq<Placed>, p: Placed, outs: set<OutPoint>)
    requires Represents(idx, txs) && outs == Outs(Inputs(p)) && idx' == Mark(idx, outs, p.pos)[p.tx.id := NewEntry(p)]
    requires forall i :: 0 <= i < |Inputs(p)| ==> Spendable(idx, Inputs(p)[i])
    ensures forall i, k, o {:trigger SpendsLatest(txs + [p], i, k, o)} ::
              SpendsLatest(txs + [p], i, k, o) ==> Known(idx', o) && idx'[o.hash].spent[o.n] == (txs + [p])[i].pos
  {
    SpentNotSpendable(idx, txs);
    assert forall o :: o in outs ==> Spendable(idx, o);
    forall i, k, o | SpendsLatest(txs + [p], i, k, o) ensures Known(idx', o) && idx'[o.hash].spent[o.n] == (txs + [p])[i].pos {
      SpendsAppend(txs, p, i, k, o);
      if i < |txs| {
        assert SpendsLatest(txs, i, k, o);
        assert o !in outs && OutPoint(o.hash, o.n) == o;
      } else {
        assert o in Inputs(p) && Spendable(idx, Inputs(p)[k]) && OutPoint(o.hash, o.n) == o;
      }
    }
  }

  lemma AppendSlots(idx: Index, idx': Index, txs: seq<Placed>, p: Placed, outs: set<OutPoint>)
    requires Represents(idx, txs) && outs == Outs(Inputs(p)) && idx' == Mark(idx, outs, p.pos)[p.tx.id := NewEntry(p)]
    ensures forall o {:trigger Known(idx', o)} ::
              Known(idx', o) && idx'[o.hash].spent[o.n] != NullPos ==> IsSpent(txs + [p], o)
  {
    forall o | Known(idx', o) && idx'[o.hash].spent[o.n] != NullPos ensures IsSpent(txs + [p], o) {
      assert o.hash != p.tx.id && OutPoint(o.hash, o.n) == o;
      if o in outs {
        var m :| 0 <= m < |Inputs(p)| && Inputs(p)[m] == o;
        SpendsAppend(txs, p, |txs|, m, o);
      } else {
        assert Known(idx, o) && idx[o.hash].spent[o.n] != NullPos;
        var i, k :| SpendsLatest(txs, i, k, o);
        SpendsAppend(txs, p, i, k, o);
      }
    }
  }

  lemma AppendUnique(idx: Index, txs: seq<Placed>, p: Placed)
    requires Represents(idx, txs) && Distinct(Inputs(p))
    requires forall i :: 0 <= i < |Inputs(p)| ==> Spendable(idx, Inputs(p)[i])
    ensures forall i, k, j, l, o {:trigger SpendsLatest(txs + [p], i, k, o), SpendsLatest(txs + [p], j, l, o)} ::
              SpendsLatest(txs + [p], i, k, o) && SpendsLatest(txs + [p], j, l, o) ==> i == j && k == l
  {
    SpentNotSpendable(idx, txs);
    forall i, k, j, l, o | SpendsLatest(txs + [p], i, k, o) && SpendsLatest(txs + [p], j, l, o) ensures i == j && k == l {
      SpendsAppend(txs, p, i, k, o);
      SpendsAppend(txs, p, j, l, o);
      assert i == |txs| ==> Spendable(idx, Inputs(p)[k]);
      assert j == |txs| ==> Spendable(idx, Inputs(p)[l]);
    }
  }

  lemma AppendReplaces(idx: Index, txs: seq<Placed>, p: Placed)
    requires Represents(idx, txs) && (p.tx.id in idx ==> FullySpent(idx[p.tx.id]))
    ensures forall i, j {:trigger Replaceable(txs + [p], i, j)} :: Replaceable(txs + [p], i, j)
  {
    var txs' := txs + [p];
    forall i, j ensures Replaceable(txs', i, j) {
      if 0 <= i < j < |txs'| && txs'[i].tx.id == txs'[j].tx.id {
        forall n: nat | n < |txs'[i].tx.vout| ensures SpentBetween(txs', i, j, n) {
          SpentEarlier(idx, txs, p, i, j, n);
          var m, k :| i < m < j && Spends(txs, m, k, OutPoint(txs[i].tx.id, n));
          assert Spends(txs', m, k, OutPoint(txs'[i].tx.id, n));
        }
      }
    }
  }

  lemma SpentEarlier(idx: Index, txs: seq<Placed>, p: Placed, i: int, j: int, n: nat)
    requires Represents(idx, txs) && (p.tx.id in idx ==> FullySpent(idx[p.tx.id]))
    requires 0 <= i < j <= |txs| && txs[i].tx.id == (txs + [p])[j].tx.id && n < |txs[i].tx.vout|
    ensures SpentBetween(txs, i, j, n)
  {
    var h := txs[i].tx.id;
    if j < |txs| {
      assert Replaceable(txs, i, j);
    } else {
      assert h in Ids(txs) && EntryLatest(idx, txs, h);
      var last := LastPlace(txs, h);
      if i == last {
        assert idx[h].spent[n] in idx[h].spent && Known(idx, OutPoint(h, n));
        var m, k :| SpendsLatest(txs, m, k, OutPoint(h, n));
        assert Spends(txs, m, k, OutPoint(h, n));
      } else {
        assert Replaceable(txs, i, last);
        assert SpentBetween(txs, i, last, n);
      }
    }
  }

  // ----- every run of connecting and disconnecting blocks -----

  datatype ChainDb = ChainDb(blocks: seq<seq<Placed>>, index: Index)

  datatype Step = Connect(txs: seq<Placed>) | Disconnect

  function Flatten(blocks: seq<seq<Placed>>): seq<Placed> {
    if blocks == [] then [] else Flatten(blocks[..|blocks| - 1]) + blocks[|blocks| - 1]
  }

  /** One successful step. */
  function Next(c: ChainDb, step: Step): Option<ChainDb> {
    match step
    case Connect(txs) =>
      if !WellPlaced(txs) then None
      else
        (match ConnectAll(c.index, c.index, txs)
         case None => None
         case Some(idx) => Some(ChainDb(c.blocks + [txs], idx)))
    case Disconnect =>
      if c.blocks == [] then None
      else
        match DisconnectAll(c.index, c.blocks[|c.blocks| - 1])
        case None => None
        case Some(idx) => Some(ChainDb(c.blocks[..|c.blocks| - 1], idx))
  }

  function Run(c: ChainDb, steps: seq<Step>): Option<ChainDb>
    decreases |steps|
  {
    if steps == [] then Some(c)
    else
      match Next(c, steps[0])
      case None => None
      case Some(c1) => Run(c1, steps[1..])
  }

  /** The index that connecting the blocks from scratch gives. */
  function Build(blocks: seq<seq<Placed>>): Option<Index>
    decreases |blocks|
  {
    if blocks == [] then Some(map[])
    else
      match Build(blocks[..|blocks| - 1])
      case None => None
      case Some(idx) =>
        var txs := blocks[|blocks| - 1];
        if !WellPlaced(txs) then None else ConnectAll(idx, idx, txs)
  }

  /** The ids of a block are new, or those of fully spent transactions. */
  ghost predicate MayConnect(idx: Index, txs: seq<Placed>) {
    WellPlaced(txs) && forall h :: h in Ids(txs) && h in idx ==> FullySpent(idx[h])
  }

  lemma MayConnectRest(db: Index, idx: Index, txs: seq<Placed>, p: Placed, rest: seq<Placed>, idx1: Index)
    requires MayConnect(idx, txs) && txs != [] && p == txs[0] && rest == txs[1..] && ConnectTx(db, idx, p) == Some(idx1)
    ensures p.pos != NullPos && (p.tx.id in idx ==> FullySpent(idx[p.tx.id])) && MayConnect(idx1, rest)
  {
    assert p.tx.id in Ids(txs);
    assert forall i :: 0 <= i < |rest| ==> rest[i] == txs[i + 1];
    SpendAllIs(idx, Inputs(p), p.pos);
    forall h | h in Ids(rest) && h in idx1 ensures FullySpent(idx1[h]) {
      assert h in Ids(txs) && h != p.tx.id;
      StaysSpent(idx, h, Outs(Inputs(p)), p.pos);
    }
  }

  lemma {:induction false} AppendAll(db: Index, idx: Index, done: seq<Placed>, txs: seq<Placed>, all: seq<Placed>, r: Index)
    requires Represents(idx, done) && MayConnect(idx, txs) && ConnectAll(db, idx, txs) == Some(r) && all == done + txs
    ensures Represents(r, all)
    decreases |txs|
  {
    if txs == [] {
      assert all == done;
    } else {
      var p, rest, more := txs[0], txs[1..], done + [txs[0]];
      var idx1 := ConnectTx(db, idx, p).value;
      MayConnectRest(db, idx, txs, p, rest, idx1);
      AppendTx(db, idx, done, p, idx1);
      assert all == more + rest;
      AppendAll(db, idx1, more, rest, all, r);
    }
  }

  lemma ConnectsWhenAllowed(db: Index, txs: seq<Placed>)
    requires WellPlaced(txs) && ConnectAll(db, db, txs).Some?
    ensures MayConnect(db, txs)
  {
    ConnectedIdsSpent(db, db, txs);
  }

  lemma {:induction false} BuildRepresents(blocks: seq<seq<Placed>>)
    requires Build(blocks).Some?
    ensures Represents(Build(blocks).value, Flatten(blocks))
    decreases |blocks|
  {
    if blocks != [] {
      var front, last := blocks[..|blocks| - 1], blocks[|blocks| - 1];
      BuildRepresents(front);
      var idx := Build(front).value;
      ConnectsWhenAllowed(idx, last);
      AppendAll(idx, idx, Flatten(front), last, Flatten(blocks), Build(blocks).value);
    }
  }

  // ----- what a replaced transaction leaves behind -----

  /** The index, except for entries of fully spent transactions that were lost. */
  ghost predicate Forgets(full: Index, idx: Index) {
    && idx.Keys <= full.Keys
    && (forall h {:trigger idx[h]} :: h in idx ==> idx[h] == full[h])
    && (forall h {:trigger FullySpent(full[h])} :: h in full && h !in idx ==> FullySpent(full[h]))
  }

  lemma ForgetsTrans(a: Index, b: Index, c: Index)
    requires Forgets(a, b) && Forgets(b, c)
    ensures Forgets(a, c)
  {
    forall h | h in a && h !in c ensures FullySpent(a[h]) {
      if h in b { assert FullySpent(b[h]); }
    }
  }

  /** The lost entries make no difference to what can be spent or overwritten. */
  lemma ForgetsSame(full: Index, idx: Index)
    requires Forgets(full, idx)
    ensures forall o {:trigger Spendable(full, o)} {:trigger Spendable(idx, o)} :: Spendable(full, o) <==> Spendable(idx, o)
    ensures forall h {:trigger Overwrites(full, h)} {:trigger Overwrites(idx, h)} :: Overwrites(full, h) <==> Overwrites(idx, h)
  {
    forall o ensures Spendable(full, o) <==> Spendable(idx, o) {
      if Spendable(full, o) {
        assert full[o.hash].spent[o.n] in full[o.hash].spent;
        assert !FullySpent(full[o.hash]);
      }
    }
  }

  lemma MarkForgets(full: Index, idx: Index, outs: set<OutPoint>, v: DiskPos)
    requires Forgets(full, idx) && (v != NullPos || forall o :: o in outs ==> o.hash in idx)
    ensures Forgets(Mark(full, outs, v), Mark(idx, outs, v))
  {
    var f := Mark(full, outs, v);
    forall h | h in f && h !in idx ensures FullySpent(f[h]) {
      assert FullySpent(full[h]);
      if v != NullPos {
        StaysSpent(full, h, outs, v);
      } else {
        assert f[h].spent == full[h].spent;
      }
    }
  }

  /** Connecting succeeds on both or on neither, and keeps the relation. */
  lemma ConnectTxForgets(dbF: Index, db: Index, full: Index, idx: Index, p: Placed)
    requires Forgets(dbF, db) && Forgets(full, idx) && p.pos != NullPos
    ensures ConnectTx(dbF, full, p).Some? <==> ConnectTx(db, idx, p).Some?
    ensures ConnectTx(db, idx, p).Some? ==> Forgets(ConnectTx(dbF, full, p).value, ConnectTx(db, idx, p).value)
  {
    ForgetsSame(dbF, db);
    ForgetsSame(full, idx);
    SpendAllIs(full, Inputs(p), p.pos);
    SpendAllIs(idx, Inputs(p), p.pos);
    if ConnectTx(db, idx, p).Some? {
      var f, g := Mark(full, Outs(Inputs(p)), p.pos), Mark(idx, Outs(Inputs(p)), p.pos);
      MarkForgets(full, idx, Outs(Inputs(p)), p.pos);
      SameEntryForgets(f, g, p.tx.id, NewEntry(p));
    }
  }

  lemma SameEntryForgets(full: Index, idx: Index, id: TxId, e: Entry)
    requires Forgets(full, idx)
    ensures Forgets(full[id := e], idx[id := e])
  {
    var f, g := full[id := e], idx[id := e];
    forall h | h in f && h !in g ensures FullySpent(f[h]) { assert FullySpent(full[h]); }
  }

  lemma {:induction false} ConnectAllForgets(dbF: Index, db: Index, full: Index, idx: Index, txs: seq<Placed>)
    requires Forgets(dbF, db) && Forgets(full, idx) && forall i :: 0 <= i < |txs| ==> txs[i].pos != NullPos
    ensures ConnectAll(dbF, full, txs).Some? <==> ConnectAll(db, idx, txs).Some?
    ensures ConnectAll(db, idx, txs).Some? ==> Forgets(ConnectAll(dbF, full, txs).value, ConnectAll(db, idx, txs).value)
    decreases |txs|
  {
    if txs != [] {
      ConnectTxForgets(dbF, db, full, idx, txs[0]);
      if ConnectTx(db, idx, txs[0]).Some? {
        ConnectAllForgets(dbF, db, ConnectTx(dbF, full, txs[0]).value, ConnectTx(db, idx, txs[0]).value, txs[1..]);
      }
    }
  }

  lemma DisconnectTxForgets(full: Index, idx: Index, p: Placed)
    requires Forgets(full, idx) && DisconnectTx(idx, p).Some?
    ensures DisconnectTx(full, p).Some? && Forgets(DisconnectTx(full, p).value, DisconnectTx(idx, p).value)
  {
    var vin := Inputs(p);
    UnspendAllIs(idx, vin);
    assert forall i :: 0 <= i < |vin| ==> Known(idx, vin[i]) ==> Known(full, vin[i]);
    UnspendAllIs(full, vin);
    var f, g := Mark(full, Outs(vin), NullPos), Mark(idx, Outs(vin), NullPos);
    MarkForgets(full, idx, Outs(vin), NullPos);
    forall h | h in f - {p.tx.id} && h !in g - {p.tx.id} ensures FullySpent((f - {p.tx.id})[h]) { assert FullySpent(f[h]); }
  }

  lemma {:induction false} DisconnectAllForgets(full: Index, idx: Index, txs: seq<Placed>)
    requires Forgets(full, idx) && DisconnectAll(idx, txs).Some?
    ensures DisconnectAll(full, txs).Some? && Forgets(DisconnectAll(full, txs).value, DisconnectAll(idx, txs).value)
    decreases |txs|
  {
    if txs != [] {
      var p := txs[|txs| - 1];
      DisconnectTxForgets(full, idx, p);
      DisconnectAllForgets(DisconnectTx(full, p).value, DisconnectTx(idx, p).value, txs[..|txs| - 1]);
    }
  }

  /** Disconnecting the last block gives the index of the shorter chain, without the entries of any
      transactions that the block had replaced. */
  lemma DisconnectBuilds(blocks: seq<seq<Placed>>, full: Index)
    requires blocks != [] && Build(blocks) == Some(full)
    ensures var front, last := blocks[..|blocks| - 1], blocks[|blocks| - 1];
      && Build(front).Some? && DisconnectAll(full, last) == Some(Build(front).value - Ids(last))
      && Forgets(Build(front).value, Build(front).value - Ids(last))
  {
    var front, last := blocks[..|blocks| - 1], blocks[|blocks| - 1];
    var idx := Build(front).value;
    ConnectsWhenAllowed(idx, last);
    BlockUndone(idx, idx, last);
    forall h | h in idx && h !in idx - Ids(last) ensures FullySpent(idx[h]) { assert h in Ids(last); }
  }

  /** The index is that of the blocks connected from scratch, but for lost entries of spent transactions. */
  ghost predicate Reflects(c: ChainDb) {
    Build(c.blocks).Some? && Forgets(Build(c.blocks).value, c.index)
  }

  lemma BuildSnoc(blocks: seq<seq<Placed>>, txs: seq<Placed>)
    requires Build(blocks).Some? && WellPlaced(txs)
    ensures Build(blocks + [txs]) == ConnectAll(Build(blocks).value, Build(blocks).value, txs)
  {
    assert (blocks + [txs])[..|blocks|] == blocks;
  }

  lemma ConnectReflects(blocks: seq<seq<Placed>>, idx: Index, txs: seq<Placed>)
    requires Reflects(ChainDb(blocks, idx)) && WellPlaced(txs) && ConnectAll(idx, idx, txs).Some?
    ensures Reflects(ChainDb(blocks + [txs], ConnectAll(idx, idx, txs).value))
  {
    var full := Build(blocks).value;
    BuildSnoc(blocks, txs);
    ConnectAllForgets(full, idx, full, idx, txs);
  }

  lemma DisconnectReflects(blocks: seq<seq<Placed>>, idx: Index)
    requires blocks != [] && Reflects(ChainDb(blocks, idx)) && DisconnectAll(idx, blocks[|blocks| - 1]).Some?
    ensures Reflects(ChainDb(blocks[..|blocks| - 1], DisconnectAll(idx, blocks[|blocks| - 1]).value))
  {
    var front, last := blocks[..|blocks| - 1], blocks[|blocks| - 1];
    LastDisconnected(blocks, front, last, idx, DisconnectAll(idx, last).value);
  }

  lemma LastDisconnected(blocks: seq<seq<Placed>>, front: seq<seq<Placed>>, last: seq<Placed>, idx: Index, r: Index)
    requires blocks != [] && front == blocks[..|blocks| - 1] && last == blocks[|blocks| - 1]
    requires Reflects(ChainDb(blocks, idx)) && DisconnectAll(idx, last) == Some(r)
    ensures Reflects(ChainDb(front, r))
  {
    var full := Build(blocks).value;
    DisconnectBuilds(blocks, full);
    DisconnectAllForgets(full, idx, last);
    ForgetsTrans(Build(front).value, Build(front).value - Ids(last), r);
  }

  lemma NextKeeps(c: ChainDb, step: Step)
    requires Reflects(c) && Next(c, step).Some?
    ensures Reflects(Next(c, step).value)
  {
    match step
    case Connect(txs) => ConnectReflects(c.blocks, c.index, txs);
    case Disconnect => DisconnectReflects(c.blocks, c.index);
  }

  /** After every run, however blocks were connected and disconnected on the way and whichever fully spent
      ids they used again, the index is the one that connecting the remaining blocks from scratch gives, but
      for lost entries whose outputs are all spent; and that one says exactly which input of those blocks
      spends which output. */
  lemma {:induction false} RunRepresents(c: ChainDb, steps: seq<Step>)
    requires Reflects(c) && Run(c, steps).Some?
    ensures var r := Run(c, steps).value;
            Reflects(r) && Represents(Build(r.blocks).value, Flatten(r.blocks))
    decreases |steps|
  {
    if steps == [] {
      BuildRepresents(c.blocks);
    } else {
      NextKeeps(c, steps[0]);
      RunRepresents(Next(c, steps[0]).value, steps[1..]);
    }
  }

  /** What the slots of the index say after every run from an empty index. */
  lemma RunSlots(steps: seq<Step>, o: OutPoint)
    requires Run(ChainDb([], map[]), steps).Some? && Known(Run(ChainDb([], map[]), steps).value.index, o)
    ensures var r := Run(ChainDb([], map[]), steps).value;
      var txs := Flatten(r.blocks);
      && (r.index[o.hash].spent[o.n] != NullPos <==> IsSpent(txs, o))
      && (forall i, k, j, l :: SpendsLatest(txs, i, k, o) && SpendsLatest(txs, j, l, o) ==> i == j && k == l)
      && (forall i, k :: SpendsLatest(txs, i, k, o) ==> r.index[o.hash].spent[o.n] == txs[i].pos)
  {
    RunRepresents(ChainDb([], map[]), steps);
    var r := Run(ChainDb([], map[]), steps).value;
    var full := Build(r.blocks).value;
    assert r.index[o.hash] == full[o.hash] && Known(full, o);
    SpentByExactlyOne(full, Flatten(r.blocks), o);
  }
}
