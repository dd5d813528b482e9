/**
 The money-supply counter that connecting a block updates (src/main.cpp:2536-2565, 2634-2637) against
 the value that is really left in unspent outputs (src/main.h:358-383 for the output and burn sums,
 src/main.cpp:3185-3197 for the shape of a proof-of-stake block, 2593-2618 for its reward check).
 */
module MoneySupply {
  import opened Wrappers
  import opened TxIndex
  import opened ScriptCode
  import opened ScriptMachine
  import V = ScriptVerify

  // ----- sums over outputs -----

  function ValueOut(vout: seq<TxOut>): (v: nat) {
    if vout == [] then 0 else ValueOut(vout[..|vout| - 1]) + vout[|vout| - 1].value
  }

  predicate Burned(out: TxOut) { V.StartsWithReturn(out.script) }

  function ValueBurn(vout: seq<TxOut>): (v: nat) {
    if vout == [] then 0
    else ValueBurn(vout[..|vout| - 1]) + if Burned(vout[|vout| - 1]) then vout[|vout| - 1].value else 0
  }

  /** What an output adds to the spendable total. */
  function Spendable1(out: TxOut): nat { if Burned(out) then 0 else out.value }

  /** The part of a transaction's output value that is neither spent nor burned. */
  function Left(vout: seq<TxOut>, spent: seq<DiskPos>): nat {
    if vout == [] then 0
    else
      var n := |vout| - 1;
      Left(vout[..n], spent) + if n < |spent| && spent[n] == NullPos then Spendable1(vout[n]) else 0
  }

  /** The value left in all unspent outputs of the chain that are not OP_RETURN outputs. `later` holds the
      ids that occur again further on: only the last transaction with an id can have something left. */
  function UnspentBefore(idx: Index, txs: seq<Placed>, later: set<TxId>): nat {
    if txs == [] then 0
    else
      var n, tx := |txs| - 1, txs[|txs| - 1].tx;
      UnspentBefore(idx, txs[..n], later + {tx.id})
        + if tx.id in later || tx.id !in idx then 0 else Left(tx.vout, idx[tx.id].spent)
  }

  function Unspent(idx: Index, txs: seq<Placed>): nat { UnspentBefore(idx, txs, {}) }

  /** The output an input refers to. */
  function OutputAt(txs: seq<Placed>, o: OutPoint): Option<TxOut> {
    if txs == [] then None
    else
      var tx := txs[|txs| - 1].tx;
      if tx.id == o.hash then (if o.n < |tx.vout| then Some(tx.vout[o.n]) else None)
      else OutputAt(txs[..|txs| - 1], o)
  }

  lemma {:induction false} OutputIs(txs: seq<Placed>, o: OutPoint)
    ensures var i := LastPlace(txs, o.hash);
      OutputAt(txs, o) == if i >= 0 && o.n < |txs[i].tx.vout| then Some(txs[i].tx.vout[o.n]) else None
    decreases |txs|
  {
    if txs != [] {
      OutputIs(txs[..|txs| - 1], o);
    }
  }

  lemma KnownOutput(idx: Index, txs: seq<Placed>, o: OutPoint)
    requires Represents(idx, txs) && Known(idx, o)
    ensures OutputAt(txs, o).Some?
  {
    assert EntryLatest(idx, txs, o.hash);
    OutputIs(txs, o);
  }

  function ValueIn(txs: seq<Placed>, vin: seq<OutPoint>): nat
    decreases |vin|
  {
    if vin == [] then 0
    else (match OutputAt(txs, vin[0]) case None => 0 case Some(out) => out.value) + ValueIn(txs, vin[1..])
  }

  /** The part of the input value that comes out of OP_RETURN outputs. */
  function BurnedIn(txs: seq<Placed>, vin: seq<OutPoint>): nat
    decreases |vin|
  {
    if vin == [] then 0
    else (match OutputAt(txs, vin[0]) case None => 0 case Some(out) => if Burned(out) then out.value else 0)
         + BurnedIn(txs, vin[1..])
  }

  // ----- one slot -----

  lemma {:induction false} LeftElsewhere(vout: seq<TxOut>, spent: seq<DiskPos>, n: nat, v: DiskPos)
    requires n < |spent| && |vout| <= n
    ensures Left(vout, spent[n := v]) == Left(vout, spent)
    decreases |vout|
  {
    if vout != [] {
      LeftElsewhere(vout[..|vout| - 1], spent, n, v);
    }
  }

  lemma {:induction false} LeftAfterSpend(vout: seq<TxOut>, spent: seq<DiskPos>, n: nat, v: DiskPos)
    requires n < |vout| && n < |spent| && spent[n] == NullPos && v != NullPos
    ensures Left(vout, spent[n := v]) + Spendable1(vout[n]) == Left(vout, spent)
    decreases |vout|
  {
    var last := |vout| - 1;
    if n < last {
      LeftAfterSpend(vout[..last], spent, n, v);
    } else {
      LeftElsewhere(vout[..last], spent, n, v);
    }
  }

  lemma {:induction false} LeftFresh(vout: seq<TxOut>, spent: seq<DiskPos>)
    requires |vout| <= |spent| && forall n :: 0 <= n < |spent| ==> spent[n] == NullPos
    ensures Left(vout, spent) + ValueBurn(vout) == ValueOut(vout)
    decreases |vout|
  {
    if vout != [] {
      LeftFresh(vout[..|vout| - 1], spent);
    }
  }

  lemma {:induction false} LeftNothing(vout: seq<TxOut>, e: Entry)
    requires FullySpent(e)
    ensures Left(vout, e.spent) == 0
    decreases |vout|
  {
    if vout != [] {
      var n := |vout| - 1;
      LeftNothing(vout[..n], e);
      assert n < |e.spent| ==> e.spent[n] in e.spent;
    }
  }

  /** Entries of later ids do not matter. */
  lemma {:induction false} UnspentElsewhere(idx: Index, idx': Index, txs: seq<Placed>, later: set<TxId>)
    requires forall h :: h !in later ==> (h in idx <==> h in idx') && (h in idx ==> idx[h] == idx'[h])
    ensures UnspentBefore(idx, txs, later) == UnspentBefore(idx', txs, later)
    decreases |txs|
  {
    if txs != [] {
      UnspentElsewhere(idx, idx', txs[..|txs| - 1], later + {txs[|txs| - 1].tx.id});
    }
  }

  /** A fully spent transaction has nothing left, so it does not matter that its id comes again. */
  lemma {:induction false} UnspentWithout(idx: Index, txs: seq<Placed>, later: set<TxId>, h: TxId, later': set<TxId>)
    requires (h in idx ==> FullySpent(idx[h])) && later' == later + {h}
    ensures UnspentBefore(idx, txs, later') == UnspentBefore(idx, txs, later)
    decreases |txs|
  {
    if txs != [] {
      var tx := txs[|txs| - 1].tx;
      assert later' + {tx.id} == (later + {tx.id}) + {h};
      UnspentWithout(idx, txs[..|txs| - 1], later + {tx.id}, h, later' + {tx.id});
      if tx.id == h && h in idx {
        LeftNothing(tx.vout, idx[h]);
      }
    }
  }

  /** Neither do entries that were lost after their outputs were all spent. */
  lemma {:induction false} UnspentForgets(full: Index, idx: Index, txs: seq<Placed>, later: set<TxId>)
    requires Forgets(full, idx)
    ensures UnspentBefore(full, txs, later) == UnspentBefore(idx, txs, later)
    decreases |txs|
  {
    if txs != [] {
      var tx := txs[|txs| - 1].tx;
      UnspentForgets(full, idx, txs[..|txs| - 1], later + {tx.id});
      if tx.id in full && tx.id !in idx {
        assert FullySpent(full[tx.id]);
        LeftNothing(tx.vout, full[tx.id]);
      }
    }
  }

  lemma {:induction false} UnspentAfterSpend(idx: Index, txs: seq<Placed>, later: set<TxId>, o: OutPoint, v: DiskPos)
    requires Spendable(idx, o) && v != NullPos && o.hash !in later && OutputAt(txs, o).Some?
    ensures UnspentBefore(SetSpent(idx, o, v), txs, later) + Spendable1(OutputAt(txs, o).value) == UnspentBefore(idx, txs, later)
    decreases |txs|
  {
    var idx', tx, front := SetSpent(idx, o, v), txs[|txs| - 1].tx, txs[..|txs| - 1];
    if tx.id == o.hash {
      UnspentElsewhere(idx, idx', front, later + {tx.id});
      LeftAfterSpend(tx.vout, idx[o.hash].spent, o.n, v);
    } else {
      UnspentAfterSpend(idx, front, later + {tx.id}, o, v);
    }
  }

  /** Spending inputs takes their value out of the unspent total, except for what was burned anyway. */
  lemma {:induction false} UnspentAfterSpends(idx: Index, txs: seq<Placed>, vin: seq<OutPoint>, v: DiskPos)
    requires v != NullPos && SpendAll(idx, vin, v).Some?
    requires Found(txs, vin)
    ensures Unspent(SpendAll(idx, vin, v).value, txs) + ValueIn(txs, vin) == Unspent(idx, txs) + BurnedIn(txs, vin)
    decreases |vin|
  {
    if vin != [] {
      UnspentAfterSpend(idx, txs, {}, vin[0], v);
      UnspentAfterSpends(SetSpent(idx, vin[0], v), txs, vin[1..], v);
    }
  }

  /** Every input refers to an output of the chain. */
  predicate Found(txs: seq<Placed>, vin: seq<OutPoint>) {
    forall i :: 0 <= i < |vin| ==> OutputAt(txs, vin[i]).Some?
  }

  lemma InputsKnown(idx: Index, txs: seq<Placed>, p: Placed)
    requires Represents(idx, txs) && p.pos != NullPos && SpendAll(idx, Inputs(p), p.pos).Some?
    ensures Found(txs, Inputs(p))
  {
    SpendAllIs(idx, Inputs(p), p.pos);
    forall i | 0 <= i < |Inputs(p)| ensures OutputAt(txs, Inputs(p)[i]).Some? {
      assert Spendable(idx, Inputs(p)[i]);
      KnownOutput(idx, txs, Inputs(p)[i]);
    }
  }

  /** Connecting one transaction, whose id is new or that of a fully spent one. */
  lemma UnspentAfterTx(db: Index, idx: Index, txs: seq<Placed>, p: Placed, idx': Index)
    requires Found(txs, Inputs(p)) && p.pos != NullPos && (p.tx.id in idx ==> FullySpent(idx[p.tx.id]))
    requires ConnectTx(db, idx, p) == Some(idx')
    ensures Unspent(idx', txs + [p]) + ValueIn(txs, Inputs(p)) + ValueBurn(p.tx.vout)
         == Unspent(idx, txs) + BurnedIn(txs, Inputs(p)) + ValueOut(p.tx.vout)
  {
    UnspentAfterSpends(idx, txs, Inputs(p), p.pos);
    SpendAllIs(idx, Inputs(p), p.pos);
    var idx1, h := SpendAll(idx, Inputs(p), p.pos).value, p.tx.id;
    if h in idx {
      StaysSpent(idx, h, Outs(Inputs(p)), p.pos);
    }
    Appended(idx1, txs, p, idx');
  }

  lemma Appended(idx: Index, txs: seq<Placed>, p: Placed, idx': Index)
    requires (p.tx.id in idx ==> FullySpent(idx[p.tx.id])) && idx' == idx[p.tx.id := NewEntry(p)]
    ensures Unspent(idx', txs + [p]) + ValueBurn(p.tx.vout) == Unspent(idx, txs) + ValueOut(p.tx.vout)
  {
    var h := p.tx.id;
    assert (txs + [p])[..|txs|] == txs && {} + {h} == {h};
    UnspentElsewhere(idx, idx', txs, {h});
    UnspentWithout(idx, txs, {}, h, {h});
    LeftFresh(p.tx.vout, NewEntry(p).spent);
  }

  // ----- the counters of a block -----

  predicate IsEmpty(out: TxOut) { out.value == 0 && out.script == [] }

  predicate IsCoinStake(tx: Tx) {
    !tx.isCoinBase && |tx.vin| > 0 && |tx.vout| >= 2 && IsEmpty(tx.vout[0])
  }

  datatype Totals = Totals(valueIn: int, valueOut: int, burn: int, fees: int, stakeReward: int)

  function AddTx(t: Totals, done: seq<Placed>, p: Placed): Totals {
    var outValue := ValueOut(p.tx.vout);
    if p.tx.isCoinBase then t.(valueOut := t.valueOut + outValue)
    else
      var inValue := ValueIn(done, p.tx.vin);
      var t1 := t.(valueIn := t.valueIn + inValue, valueOut := t.valueOut + outValue, burn := t.burn + ValueBurn(p.tx.vout));
      if IsCoinStake(p.tx) then t1.(stakeReward := outValue - inValue)
      else t1.(fees := t.fees + inValue - outValue)
  }

  function AddTxs(t: Totals, done: seq<Placed>, txs: seq<Placed>): Totals
    decreases |txs|
  {
    if txs == [] then t else AddTxs(AddTx(t, done, txs[0]), done + [txs[0]], txs[1..])
  }

  /** How far a block moves `nMoneySupply`. */
  function SupplyChange(done: seq<Placed>, txs: seq<Placed>): int {
    Net(AddTxs(Totals(0, 0, 0, 0, 0), done, txs))
  }

  /** OP_RETURN value that a block creates in coinbase outputs: the counter does not leave it out. */
  function CoinBaseBurns(txs: seq<Placed>): nat
    decreases |txs|
  {
    if txs == [] then 0
    else (if txs[0].tx.isCoinBase then ValueBurn(txs[0].tx.vout) else 0) + CoinBaseBurns(txs[1..])
  }

  /** OP_RETURN value that a block spends. */
  function BurnsSpent(done: seq<Placed>, txs: seq<Placed>): nat
    decreases |txs|
  {
    if txs == [] then 0 else BurnedIn(done, Inputs(txs[0])) + BurnsSpent(done + [txs[0]], txs[1..])
  }

  function Net(t: Totals): int { t.valueOut - t.valueIn - t.burn }

  lemma NetAfterTx(t: Totals, done: seq<Placed>, p: Placed)
    ensures Net(AddTx(t, done, p)) + ValueIn(done, Inputs(p)) + ValueBurn(p.tx.vout)
         == Net(t) + ValueOut(p.tx.vout) + if p.tx.isCoinBase then ValueBurn(p.tx.vout) else 0
  {
  }

  /** The inputs of a block refer to outputs of the chain or of the block before them. */
  predicate AllFound(done: seq<Placed>, txs: seq<Placed>)
    decreases |txs|
  {
    txs != [] ==> Found(done, Inputs(txs[0])) && AllFound(done + [txs[0]], txs[1..])
  }

  lemma {:induction false} ConnectedFound(db: Index, idx: Index, done: seq<Placed>, txs: seq<Placed>)
    requires Represents(idx, done) && MayConnect(idx, txs) && ConnectAll(db, idx, txs).Some?
    ensures AllFound(done, txs)
    decreases |txs|
  {
    if txs != [] {
      var idx1 := ConnectTx(db, idx, txs[0]).value;
      MayConnectRest(db, idx, txs, txs[0], txs[1..], idx1);
      InputsKnown(idx, done, txs[0]);
      AppendTx(db, idx, done, txs[0], idx1);
      ConnectedFound(db, idx1, done + [txs[0]], txs[1..]);
    }
  }

  lemma {:induction false} TotalsTrackUnspent(db: Index, idx: Index, done: seq<Placed>, txs: seq<Placed>, all: seq<Placed>, r: Index, t: Totals)
    requires AllFound(done, txs) && MayConnect(idx, txs) && ConnectAll(db, idx, txs) == Some(r) && all == done + txs
    ensures Net(AddTxs(t, done, txs)) - Net(t) + BurnsSpent(done, txs) == Unspent(r, all) - Unspent(idx, done) + CoinBaseBurns(txs)
    decreases |txs|
  {
    if txs == [] {
      assert all == done;
    } else {
      var p, rest, more := txs[0], txs[1..], done + [txs[0]];
      var idx1 := ConnectTx(db, idx, p).value;
      MayConnectRest(db, idx, txs, p, rest, idx1);
      HeadTracks(db, idx, done, p, more, idx1, t);
      assert all == more + rest;
      TotalsTrackUnspent(db, idx1, more, rest, all, r, AddTx(t, done, p));
    }
  }

  lemma HeadTracks(db: Index, idx: Index, done: seq<Placed>, p: Placed, more: seq<Placed>, idx': Index, t: Totals)
    requires Found(done, Inputs(p)) && p.pos != NullPos && (p.tx.id in idx ==> FullySpent(idx[p.tx.id]))
    requires ConnectTx(db, idx, p) == Some(idx') && more == done + [p]
    ensures Net(AddTx(t, done, p)) - Net(t) + BurnedIn(done, Inputs(p))
         == Unspent(idx', more) - Unspent(idx, done) + if p.tx.isCoinBase then ValueBurn(p.tx.vout) else 0
  {
    UnspentAfterTx(db, idx, done, p, idx');
    NetAfterTx(t, done, p);
  }

  /** The loop totals of a block track the unspent value of the chain it extends. */
  lemma BlockTracksUnspent(idx: Index, done: seq<Placed>, txs: seq<Placed>, r: Index)
    requires Represents(idx, done) && WellPlaced(txs) && ConnectAll(idx, idx, txs) == Some(r)
    ensures SupplyChange(done, txs) + BurnsSpent(done, txs) == Unspent(r, done + txs) - Unspent(idx, done) + CoinBaseBurns(txs)
  {
    ConnectsWhenAllowed(idx, txs);
    ConnectedFound(idx, idx, done, txs);
    TotalsTrackUnspent(idx, idx, done, txs, done + txs, r, Totals(0, 0, 0, 0, 0));
  }

  /** The counter moves exactly with the unspent value when, and only when, as much OP_RETURN value is
      created in coinbase outputs as is spent. */
  lemma SupplyTracksUnspent(idx: Index, done: seq<Placed>, txs: seq<Placed>, r: Index)
    requires Represents(idx, done) && WellPlaced(txs) && ConnectAll(idx, idx, txs) == Some(r)
    ensures SupplyChange(done, txs) == Unspent(r, done + txs) - Unspent(idx, done)
            <==> CoinBaseBurns(txs) == BurnsSpent(done, txs)
  {
    BlockTracksUnspent(idx, done, txs, r);
  }

  // ----- proof-of-stake blocks -----

  /** The shape that `CheckBlock` demands of a proof-of-stake block. */
  predicate ProofOfStakeShape(txs: seq<Placed>) {
    && |txs| >= 2
    && txs[0].tx.isCoinBase && |txs[0].tx.vout| == 1 && IsEmpty(txs[0].tx.vout[0])
    && IsCoinStake(txs[1].tx)
    && forall i :: 2 <= i < |txs| ==> !txs[i].tx.isCoinBase && !IsCoinStake(txs[i].tx)
  }

  lemma {:induction false} OrdinaryTotals(t: Totals, done: seq<Placed>, txs: seq<Placed>)
    requires forall i :: 0 <= i < |txs| ==> !txs[i].tx.isCoinBase && !IsCoinStake(txs[i].tx)
    ensures var t' := AddTxs(t, done, txs);
            && t'.valueOut - t'.valueIn + t'.fees == t.valueOut - t.valueIn + t.fees
            && t'.stakeReward == t.stakeReward && t'.burn >= t.burn
    ensures CoinBaseBurns(txs) == 0
    decreases |txs|
  {
    if txs != [] {
      OrdinaryTotals(AddTx(t, done, txs[0]), done + [txs[0]], txs[1..]);
    }
  }

  lemma StakeTotals(done: seq<Placed>, txs: seq<Placed>)
    requires ProofOfStakeShape(txs)
    ensures var t := AddTxs(Totals(0, 0, 0, 0, 0), done, txs);
            t.valueOut - t.valueIn + t.fees == t.stakeReward && t.burn >= 0
    ensures CoinBaseBurns(txs) == 0
  {
    var zero := Totals(0, 0, 0, 0, 0);
    var cb, cs := txs[0], txs[1];
    assert ValueOut(cb.tx.vout) == 0 && ValueBurn(cb.tx.vout) == 0 by {
      assert cb.tx.vout[..0] == [];
    }
    var t1 := AddTx(zero, done, cb);
    var t2 := AddTx(t1, done + [cb], cs);
    var rest := txs[2..];
    assert txs[1..][0] == cs && txs[1..][1..] == rest;
    assert AddTxs(zero, done, txs) == AddTxs(t2, done + [cb] + [cs], rest);
    assert CoinBaseBurns(txs) == CoinBaseBurns(txs[1..]) == CoinBaseBurns(rest);
    OrdinaryTotals(t2, done + [cb] + [cs], rest);
  }

  /** The reward check: the stake may not take more than the subsidy and the block's fees. */
  predicate RewardAccepted(done: seq<Placed>, txs: seq<Placed>, subsidy: int) {
    var t := AddTxs(Totals(0, 0, 0, 0, 0), done, txs);
    t.stakeReward <= subsidy + t.fees
  }

  /** Some input script, in some surroundings, makes the output's script accept. */
  ghost predicate Unlocked(out: TxOut) {
    exists env: Env, scriptSig: Script :: V.Accepts(env, scriptSig, out.script)
  }

  ghost predicate InputUnlocked(done: seq<Placed>, o: OutPoint) {
    OutputAt(done, o).Some? ==> Unlocked(OutputAt(done, o).value)
  }

  /** The scripts of all inputs of a block have been run and accepted. */
  ghost predicate ScriptsChecked(done: seq<Placed>, txs: seq<Placed>)
    decreases |txs|
  {
    txs != [] ==>
      && (forall o {:trigger InputUnlocked(done, o)} :: o in Inputs(txs[0]) ==> InputUnlocked(done, o))
      && ScriptsChecked(done + [txs[0]], txs[1..])
  }

  lemma UnlockedNotBurned(out: TxOut)
    requires Unlocked(out)
    ensures !Burned(out)
  {
    var env: Env, scriptSig: Script :| V.Accepts(env, scriptSig, out.script);
    if Burned(out) {
      V.ReturnNeverAccepts(env, scriptSig, out.script);
    }
  }

  lemma {:induction false} NothingBurnedIn(done: seq<Placed>, vin: seq<OutPoint>)
    requires forall o {:trigger InputUnlocked(done, o)} :: o in vin ==> InputUnlocked(done, o)
    ensures BurnedIn(done, vin) == 0
    decreases |vin|
  {
    if vin != [] {
      assert InputUnlocked(done, vin[0]);
      if OutputAt(done, vin[0]).Some? {
        UnlockedNotBurned(OutputAt(done, vin[0]).value);
      }
      NothingBurnedIn(done, vin[1..]);
    }
  }

  /** Where scripts are checked, no OP_RETURN output is ever spent. */
  lemma {:induction false} NoBurnsSpent(done: seq<Placed>, txs: seq<Placed>)
    requires ScriptsChecked(done, txs)
    ensures BurnsSpent(done, txs) == 0
    decreases |txs|
  {
    if txs != [] {
      NothingBurnedIn(done, Inputs(txs[0]));
      NoBurnsSpent(done + [txs[0]], txs[1..]);
    }
  }

  /** A proof-of-stake block whose scripts were checked moves the counter by exactly the change of the
      unspent value, and never up by more than the subsidy without fees. */
  lemma StakeBlockSupply(idx: Index, done: seq<Placed>, txs: seq<Placed>, r: Index, subsidy: int)
    requires Represents(idx, done) && WellPlaced(txs) && ConnectAll(idx, idx, txs) == Some(r)
    requires ProofOfStakeShape(txs) && RewardAccepted(done, txs, subsidy) && ScriptsChecked(done, txs)
    ensures SupplyChange(done, txs) == Unspent(r, done + txs) - Unspent(idx, done)
    ensures SupplyChange(done, txs) <= subsidy
  {
    StakeTotals(done, txs);
    NoBurnsSpent(done, txs);
    SupplyTracksUnspent(idx, done, txs, r);
  }

  /** The running sums of `ConnectBlock`, in the order it makes them. */
  method BlockTotals(done: seq<Placed>, txs: seq<Placed>) returns (t: Totals)
    ensures t == AddTxs(Totals(0, 0, 0, 0, 0), done, txs)
  {
    t := Totals(0, 0, 0, 0, 0);
    var seen := done;
    assert txs[0..] == txs;
    for i := 0 to |txs|
      invariant AddTxs(Totals(0, 0, 0, 0, 0), done, txs) == AddTxs(t, seen, txs[i..])
    {
      assert txs[i..][0] == txs[i] && txs[i..][1..] == txs[i + 1..];
      t := CountTx(t, seen, txs[i]);
      seen := seen + [txs[i]];
    }
  }

  /** One turn of that loop. */
  method CountTx(t: Totals, done: seq<Placed>, p: Placed) returns (r: Totals)
    ensures r == AddTx(t, done, p)
  {
    var tx := p.tx;
    var outValue: int := ValueOut(tx.vout);
    r := t;
    if tx.isCoinBase {
      r := r.(valueOut := r.valueOut + outValue);
    } else {
      var inValue: int := ValueIn(done, tx.vin);
      r := r.(valueIn := r.valueIn + inValue);
      r := r.(valueOut := r.valueOut + outValue);
      r := r.(burn := r.burn + ValueBurn(tx.vout));
      if !IsCoinStake(tx) {
        r := r.(fees := r.fees + inValue - outValue);
      }
      if IsCoinStake(tx) {
        r := r.(stakeReward := outValue - inValue);
      }
    }
  }

  // ----- the counter of a whole chain -----

  function Supply(blocks: seq<seq<Placed>>): int
    decreases |blocks|
  {
    if blocks == [] then 0
    else
      var front := blocks[..|blocks| - 1];
      Supply(front) + SupplyChange(Flatten(front), blocks[|blocks| - 1])
  }

  function AllCoinBaseBurns(blocks: seq<seq<Placed>>): nat
    decreases |blocks|
  {
    if blocks == [] then 0 else AllCoinBaseBurns(blocks[..|blocks| - 1]) + CoinBaseBurns(blocks[|blocks| - 1])
  }

  function AllBurnsSpent(blocks: seq<seq<Placed>>): nat
    decreases |blocks|
  {
    if blocks == [] then 0
    else
      var front := blocks[..|blocks| - 1];
      AllBurnsSpent(front) + BurnsSpent(Flatten(front), blocks[|blocks| - 1])
  }

  lemma {:induction false} SupplyOfChain(blocks: seq<seq<Placed>>)
    requires Build(blocks).Some?
    ensures Supply(blocks) + AllBurnsSpent(blocks)
         == Unspent(Build(blocks).value, Flatten(blocks)) + AllCoinBaseBurns(blocks)
    decreases |blocks|
  {
    if blocks != [] {
      var front, last := blocks[..|blocks| - 1], blocks[|blocks| - 1];
      SupplyOfChain(front);
      BuildRepresents(front);
      BlockTracksUnspent(Build(front).value, Flatten(front), last, Build(blocks).value);
    }
  }

  /** After every run of connecting and disconnecting blocks the counter of the best block is the value
      of the unspent outputs, plus what coinbases burned, minus what was spent out of burned outputs. */
  lemma SupplyOfRun(steps: seq<Step>)
    requires Run(ChainDb([], map[]), steps).Some?
    ensures var r := Run(ChainDb([], map[]), steps).value;
            Supply(r.blocks) + AllBurnsSpent(r.blocks) == Unspent(r.index, Flatten(r.blocks)) + AllCoinBaseBurns(r.blocks)
  {
    RunRepresents(ChainDb([], map[]), steps);
    var r := Run(ChainDb([], map[]), steps).value;
    SupplyOfChain(r.blocks);
    UnspentForgets(Build(r.blocks).value, r.index, Flatten(r.blocks), {});
  }
}
