/**
 The database side of connecting and disconnecting blocks, in the source's form: a working copy of
 the inputs' entries, the block's queued changes, and the index they are written to
 (src/main.cpp:1394-1456, 1645-1745, 1880-1947, 2398-2409, 2500-2575, 2676-2681).
 */
module TxDb {
  import opened Wrappers
  import opened TxIndex

  class Database {
    var index: Index

    constructor ()
      ensures index == map[]
    {
      index := map[];
    }

    /** Copy the entries that a transaction's inputs refer to, preferring queued changes. */
    method FetchInputs(queued: Index, vin: seq<OutPoint>) returns (ok: bool, inputs: Index)
      ensures ok <==> forall i :: 0 <= i < |vin| ==> Known(index + queued, vin[i])
      ensures ok ==> (forall i :: 0 <= i < |vin| ==> vin[i].hash in inputs)
      ensures forall h :: h in inputs ==> h in index + queued && inputs[h] == (index + queued)[h]
    {
      inputs := map[];
      for i := 0 to |vin|
        invariant forall j :: 0 <= j < i ==> vin[j].hash in inputs
        invariant forall h :: h in inputs ==> h in index + queued && inputs[h] == (index + queued)[h]
      {
        var h := vin[i].hash;
        if h !in inputs {
          if h in queued {
            inputs := inputs[h := queued[h]];
          } else if h in index {
            inputs := inputs[h := index[h]];
          } else {
            assert !Known(index + queued, vin[i]);
            return false, inputs;
          }
        }
      }
      for i := 0 to |vin|
        invariant forall j :: 0 <= j < i ==> Known(index + queued, vin[j])
      {
        if vin[i].n >= |inputs[vin[i].hash].spent| {
          assert !Known(index + queued, vin[i]);
          return false, inputs;
        }
      }
      ok := true;
    }

    /** Mark a transaction's inputs as spent in the working copy and queue the changed entries. */
    method ConnectInputs(fetched: Index, before: Index, p: Placed) returns (ok: bool, queued: Index)
      requires forall i :: 0 <= i < |Inputs(p)| ==> Known(index + before, Inputs(p)[i]) && Inputs(p)[i].hash in fetched
      requires forall h :: h in fetched ==> h in index + before && fetched[h] == (index + before)[h]
      ensures ok <==> (p.tx.isCoinBase || p.checksPass) && SpendAll(index + before, Inputs(p), p.pos).Some?
      ensures ok ==> index + queued == SpendAll(index + before, Inputs(p), p.pos).value
    {
      queued := before;
      if p.tx.isCoinBase {
        return true, queued;
      }
      if !p.checksPass {
        return false, queued;
      }
      var vin, inputs := p.tx.vin, fetched;
      assert vin[0..] == vin == Inputs(p);
      forall j | 0 <= j < |vin| ensures vin[j].hash in inputs && Known(index + queued, vin[j]) {
        assert vin[j] == Inputs(p)[j];
      }
      for i := 0 to |vin|
        invariant forall j :: i <= j < |vin| ==> vin[j].hash in inputs && Known(index + queued, vin[j])
        invariant forall h :: h in inputs ==> h in index + queued && inputs[h] == (index + queued)[h]
        invariant SpendAll(index + before, vin, p.pos) == SpendAll(index + queued, vin[i..], p.pos)
      {
        var o := vin[i];
        assert vin[i..][0] == o && vin[i..][1..] == vin[i + 1..];
        if inputs[o.hash].spent[o.n] != NullPos {
          return false, queued;
        }
        inputs := inputs[o.hash := inputs[o.hash].(spent := inputs[o.hash].spent[o.n := p.pos])];
        ghost var next := SetSpent(index + queued, o, p.pos);
        queued := queued[o.hash := inputs[o.hash]];
        assert index + queued == next;
        assert forall j :: i < j < |vin| ==> Known(next, vin[j]);
      }
      ok := true;
    }

    /** Connect one transaction of a block on top of the queued changes. */
    method ConnectTransaction(before: Index, p: Placed) returns (ok: bool, queued: Index)
      ensures ok <==> ConnectTx(index, index + before, p).Some?
      ensures ok ==> index + queued == ConnectTx(index, index + before, p).value
      ensures ok ==> (p.tx.isCoinBase || p.checksPass) && (p.tx.id in index ==> NullPos !in index[p.tx.id].spent)
    {
      queued := before;
      if p.tx.id in index && NullPos in index[p.tx.id].spent {
        return false, queued;
      }
      var inputs: Index := map[];
      if !p.tx.isCoinBase {
        ok, inputs := FetchInputs(before, p.tx.vin);
        if !ok {
          if p.checksPass { UnknownFails(index + before, p.tx.vin, p.pos); }
          return;
        }
      }
      ok, queued := ConnectInputs(inputs, before, p);
      if ok {
        ghost var spent := index + queued;
        queued := queued[p.tx.id := NewEntry(p)];
        assert index + queued == spent[p.tx.id := NewEntry(p)];
      }
    }

    /** Connect all transactions of a block, or change nothing. */
    method ConnectBlock(txs: seq<Placed>) returns (ok: bool)
      modifies this
      ensures ok <==> ConnectAll(old(index), old(index), txs).Some?
      ensures index == if ok then ConnectAll(old(index), old(index), txs).value else old(index)
      ensures ok ==> forall i :: 0 <= i < |txs| ==> txs[i].tx.isCoinBase || txs[i].checksPass
      ensures WellPlaced(txs) ==> (ok <==> BlockSound(old(index), txs))
      ensures WellPlaced(txs) && ok ==> Offers(old(index), txs, index)
    {
      if WellPlaced(txs) { ConnectIff(index, txs); }
      var queued: Index := map[];
      assert index + queued == index && txs[0..] == txs;
      for i := 0 to |txs|
        invariant index == old(index)
        invariant ConnectAll(index, index, txs) == ConnectAll(index, index + queued, txs[i..])
      {
        assert txs[i..][0] == txs[i] && txs[i..][1..] == txs[i + 1..];
        ok, queued := ConnectTransaction(queued, txs[i]);
        if !ok {
          return;
        }
      }
      ConnectedPassed(index, index, txs);
      index := index + queued;
      ok := true;
    }

    /** Clear a transaction's spent pointers and erase its entry. */
    method DisconnectInputs(p: Placed) returns (ok: bool)
      modifies this
      ensures ok <==> DisconnectTx(old(index), p).Some?
      ensures ok ==> index == DisconnectTx(old(index), p).value
    {
      var vin := Inputs(p);
      assert vin[0..] == vin;
      for i := 0 to |vin|
        invariant UnspendAll(old(index), vin) == UnspendAll(index, vin[i..])
      {
        var o := vin[i];
        assert vin[i..][0] == o && vin[i..][1..] == vin[i + 1..];
        if o.hash !in index || o.n >= |index[o.hash].spent| {
          return false;
        }
        index := index[o.hash := index[o.hash].(spent := index[o.hash].spent[o.n := NullPos])];
      }
      index := index - {p.tx.id};
      ok := true;
    }

    /** Disconnect a block, last transaction first. */
    method DisconnectBlock(txs: seq<Placed>) returns (ok: bool)
      modifies this
      ensures ok <==> DisconnectAll(old(index), txs).Some?
      ensures ok ==> index == DisconnectAll(old(index), txs).value
    {
      var i := |txs|;
      assert txs[..i] == txs;
      while i > 0
        invariant 0 <= i <= |txs|
        invariant DisconnectAll(old(index), txs) == DisconnectAll(index, txs[..i])
      {
        i := i - 1;
        assert txs[..i + 1][i] == txs[i] && txs[..i + 1][..i] == txs[..i];
        ok := DisconnectInputs(txs[i]);
        if !ok {
          return;
        }
      }
      ok := true;
    }
  }

  lemma {:induction false} UnknownFails(idx: Index, vin: seq<OutPoint>, pos: DiskPos)
    requires exists i :: 0 <= i < |vin| && !Known(idx, vin[i])
    ensures SpendAll(idx, vin, pos).None?
    decreases |vin|
  {
    if Spendable(idx, vin[0]) {
      var idx1 := SetSpent(idx, vin[0], pos);
      var i :| 0 <= i < |vin| && !Known(idx, vin[i]);
      assert vin[1..][i - 1] == vin[i] && !Known(idx1, vin[i]);
      UnknownFails(idx1, vin[1..], pos);
    }
  }
}
