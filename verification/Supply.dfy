// How much money there is: what a block may add, and what any chain adds up to.
module Supply {
  import opened Wrappers
  import opened Sums
  import opened Basics
  import opened Coins
  import opened Ledger
  import opened BlockRules
  import opened UndoProofs
  import opened Nonlinear

  ghost function Values(m: Utxo): map<Hash, int>
  {
    map k | k in m :: OutsValue(m[k].vout)
  }

  /** The value of all unspent outputs of a view. */
  ghost function Total(m: Utxo): int
  {
    MapSum(Values(m))
  }

  // ----- how the total moves -----

  lemma {:induction false} PrunedHasNoValue(vout: seq<TxOut>)
    requires forall i :: 0 <= i < |vout| ==> vout[i].IsNull()
    ensures OutsValue(vout) == 0
  {
    if vout != [] {
      PrunedHasNoValue(vout[..|vout| - 1]);
    }
  }

  lemma TotalPut(m: Utxo, k: Hash, c: Coins)
    ensures Total(Put(m, k, c))
            == Total(m) - (if k in m then OutsValue(m[k].vout) else 0) + OutsValue(c.vout)
  {
    var v := OutsValue(c.vout);
    MapSumUpdate(Values(m), k, v);
    if c.IsPruned() {
      PrunedHasNoValue(c.vout);
      assert Values(m - {k}) == Values(m) - {k};
    } else {
      assert Values(m[k := c]) == Values(m)[k := v];
    }
  }

  lemma RecordBelowTotal(m: Utxo, k: Hash)
    requires ViewOk(m)
    ensures Total(m) >= 0
    ensures k in m ==> 0 <= OutsValue(m[k].vout) <= Total(m)
  {
    forall j | j in m ensures Values(m)[j] >= 0 {
      OutsValueBounds(m[j].vout, 0);
    }
    MapSumNonNegative(Values(m));
    if k in m {
      MapSumRemove(Values(m), k);
      MapSumNonNegative(Values(m) - {k});
    }
  }

  lemma TotalSpendOut(m: Utxo, p: OutPoint)
    requires IsAvailable(m, p)
    ensures Total(SpendOut(m, p).0) == Total(m) - OutputAt(m, p).value
  {
    var c := m[p.hash];
    OutsValueUpdate(c.vout, p.n, NULL_OUT);
    OutsValueTrim(c.vout[p.n := NULL_OUT]);
    TotalPut(m, p.hash, c.(vout := SpendAt(c.vout, p.n)));
  }

  // Spending the inputs of a transaction takes away exactly its value in.
  lemma {:induction false} TotalSpendAll(m: Utxo, vin: seq<TxIn>)
    requires InputsDistinct(vin) && HaveInputs(m, vin)
    ensures Total(SpendAll(m, vin).0) == Total(m) - ValueIn(m, vin)
  {
    if vin != [] {
      var k := |vin| - 1;
      var m1 := SpendAll(m, vin[..k]).0;
      TotalSpendAll(m, vin[..k]);
      RemovesOneMore(m, vin, m1);
      TotalSpendOut(m1, vin[k].prevout);
    }
  }

  lemma {:induction false} SpendAllElsewhere(m: Utxo, vin: seq<TxIn>, k: Hash)
    requires InputsDistinct(vin) && HaveInputs(m, vin)
    requires forall i :: 0 <= i < |vin| ==> vin[i].prevout.hash != k
    ensures k in SpendAll(m, vin).0 <==> k in m
    ensures k in m ==> SpendAll(m, vin).0[k] == m[k]
  {
    if vin != [] {
      var n := |vin| - 1;
      SpendAllElsewhere(m, vin[..n], k);
      RemovesOneMore(m, vin, SpendAll(m, vin[..n]).0);
    }
  }

  lemma FromTxValue(tx: Tx, height: int)
    requires OutputTotal(tx.vout).Ok?
    ensures 0 <= OutsValue(FromTx(tx, height).vout) <= OutputTotal(tx.vout).value <= MAX_MONEY
  {
    OutputTotalIsValue(tx.vout);
    var w := WithoutUnspendable(tx.vout);
    OutsValueTrim(w);
    UnspendableOnlyBurns(tx.vout);
    OutsValueBounds(w, 0);
  }

  // ----- one block -----

  /** The coinbase outputs are still there, untouched, while the rest of the block is connected. */
  predicate HoldsCoinbase(m: Utxo, coinbase: Tx, height: int)
  {
    var c := FromTx(coinbase, height);
    if c.IsPruned() then coinbase.hash !in m else coinbase.hash in m && m[coinbase.hash] == c
  }

  /** After the coinbase, fees are paid out of what was unspent before the block. */
  ghost predicate Balanced(m: Utxo, st: Progress, coinbase: Tx, height: int)
  {
    && HoldsCoinbase(st.utxo, coinbase, height)
    && st.fees >= 0
    && Total(st.utxo) + st.fees <= Total(m) + OutsValue(FromTx(coinbase, height).vout)
  }

  lemma ConnectTxKeepsBalance(m: Utxo, st: Progress, coinbase: Tx, tx: Tx, i: nat, height: int)
    requires InputsDistinct(tx.vin) && OutputTotal(tx.vout).Ok? && height > 0
    requires coinbase.IsCoinbase() && !tx.IsCoinbase()
    requires tx.hash != coinbase.hash && tx.hash !in st.utxo
    requires Balanced(m, st, coinbase, height)
    requires ConnectTx(st, tx, i, height).Ok?
    ensures Balanced(m, ConnectTx(st, tx, i, height).value, coinbase, height)
  {
    hide OutputTotal;
    var u := st.utxo;
    ScanInputsFacts(u, tx.vin, height);
    TotalSpendAll(u, tx.vin);
    // An immature coinbase cannot be spent, so none of the inputs touches it.
    if coinbase.hash in u {
      assert u[coinbase.hash].coinbase && u[coinbase.hash].height == height;
    }
    SpendAllElsewhere(u, tx.vin, coinbase.hash);
    TotalPut(SpendAll(u, tx.vin).0, tx.hash, FromTx(tx, height));
    FromTxValue(tx, height);
  }

  lemma CoinbaseBalanced(m: Utxo, vtx: seq<Tx>, height: int)
    requires |vtx| == 1 && vtx[0].IsCoinbase() && InputsDistinctInBlock(vtx)
    requires OverwritesNothing(m, vtx)
    requires ConnectTxs(m, vtx, height).Ok?
    ensures Balanced(m, ConnectTxs(m, vtx, height).value, vtx[0], height)
  {
    assert vtx[..0] == [];
    TotalPut(m, vtx[0].hash, FromTx(vtx[0], height));
  }

  lemma {:induction false} ConnectTxsBalanced(m: Utxo, vtx: seq<Tx>, height: int)
    requires vtx != [] && InputsDistinctInBlock(vtx) && CoinbaseFirst(vtx) && TxidsDistinct(vtx)
    requires ViewOk(m) && height > 0 && OverwritesNothing(m, vtx)
    requires ConnectTxs(m, vtx, height).Ok?
    ensures Balanced(m, ConnectTxs(m, vtx, height).value, vtx[0], height)
    decreases |vtx|
  {
    hide OutputTotal, InputsDistinct, ViewOk, Balanced, FromTx;
    var k := |vtx| - 1;
    if k == 0 {
      CoinbaseBalanced(m, vtx, height);
    } else {
      CoinbaseFirstPrefix(vtx, k);
      assert TxidsDistinct(vtx[..k]) && OverwritesNothing(m, vtx[..k]);
      var st := ConnectTxs(m, vtx[..k], height).value;
      ConnectTxsBalanced(m, vtx[..k], height);
      ConnectTxsFacts(m, vtx[..k], height);
      NewTxidIsAbsent(m, vtx, st.utxo, k);
      ConnectTxKeepsBalance(m, st, vtx[0], vtx[k], k, height);
    }
  }

  // Fees collected up to any point of a block never exceed the value that was
  // unspent before it.
  lemma FeesBounded(m: Utxo, vtx: seq<Tx>, height: int)
    requires vtx != [] && InputsDistinctInBlock(vtx) && CoinbaseFirst(vtx) && TxidsDistinct(vtx)
    requires ViewOk(m) && height > 0 && OverwritesNothing(m, vtx)
    requires ConnectTxs(m, vtx, height).Ok?
    ensures 0 <= ConnectTxs(m, vtx, height).value.fees <= Total(m)
    ensures Total(ConnectTxs(m, vtx, height).value.utxo) <= Total(m) + MAX_MONEY
  {
    hide OutputTotal, InputsDistinct;
    var st := ConnectTxs(m, vtx, height).value;
    ConnectTxsBalanced(m, vtx, height);
    ConnectTxsFacts(m, vtx, height);
    RecordBelowTotal(st.utxo, vtx[0].hash);
    FromTxValue(vtx[0], height);
    if FromTx(vtx[0], height).IsPruned() {
      PrunedHasNoValue(FromTx(vtx[0], height).vout);
    }
  }

  lemma {:induction false} ValueInNonNegative(m: Utxo, vin: seq<TxIn>)
    requires ViewOk(m) && HaveInputs(m, vin)
    ensures ValueIn(m, vin) >= 0
  {
    if vin != [] {
      ValueInNonNegative(m, vin[..|vin| - 1]);
    }
  }

  lemma {:induction false} ValueInBounded(m: Utxo, vin: seq<TxIn>, n: nat)
    requires ViewOk(m) && InputsDistinct(vin) && HaveInputs(m, vin) && n <= |vin|
    ensures HaveInputs(m, vin[..n]) && 0 <= ValueIn(m, vin[..n]) <= Total(m)
  {
    assert forall i :: 0 <= i < n ==> vin[..n][i] == vin[i];
    TotalSpendAll(m, vin[..n]);
    SpendAllKeepsViewOk(m, vin[..n]);
    RecordBelowTotal(SpendAll(m, vin[..n]).0, 0);
    ValueInNonNegative(m, vin[..n]);
  }

  const MAX_INT64: int := 0x7fff_ffff_ffff_ffff

  // The unchecked sums of `getvaluein` and of the running fees fit 64 bits, for
  // every transaction that is reached, accepted or not.
  lemma NoAmountOverflows(m: Utxo, vtx: seq<Tx>, height: int, k: nat, n: nat)
    requires 0 < k < |vtx| && InputsDistinctInBlock(vtx) && CoinbaseFirst(vtx) && TxidsDistinct(vtx[..k])
    requires ViewOk(m) && height > 0 && OverwritesNothing(m, vtx) && Total(m) <= MAX_MONEY
    requires ConnectTxs(m, vtx[..k], height).Ok?
    requires HaveInputs(ConnectTxs(m, vtx[..k], height).value.utxo, vtx[k].vin) && n <= |vtx[k].vin|
    ensures var st := ConnectTxs(m, vtx[..k], height).value;
            && HaveInputs(st.utxo, vtx[k].vin[..n])
            && 0 <= ValueIn(st.utxo, vtx[k].vin[..n]) < MAX_INT64
            && -MAX_INT64 < st.fees + ValueIn(st.utxo, vtx[k].vin) - OutputTotal(vtx[k].vout).value < MAX_INT64
  {
    hide InputsDistinct, ViewOk, ConnectTxs;
    CoinbaseFirstPrefix(vtx, k);
    assert OverwritesNothing(m, vtx[..k]) && InputsDistinctInBlock(vtx[..k]);
    var st := ConnectTxs(m, vtx[..k], height).value;
    FeesBounded(m, vtx[..k], height);
    ConnectTxsFacts(m, vtx[..k], height);
    ValueInBounded(st.utxo, vtx[k].vin, n);
    ValueInBounded(st.utxo, vtx[k].vin, |vtx[k].vin|);
    assert vtx[k].vin[..|vtx[k].vin|] == vtx[k].vin;
    FromTxValue(vtx[k], height);
  }

  // An accepted block adds at most its subsidy to the unspent value.
  lemma BlockAddsAtMostSubsidy(m: Utxo, vtx: seq<Tx>, height: nat, interval: int, scriptsOk: bool)
    requires ViewOk(m) && height > 0 && interval > 0 && CollisionFree(vtx)
    requires ConnectBlock(m, vtx, height, interval, scriptsOk).Ok?
    ensures var st := ConnectBlock(m, vtx, height, interval, scriptsOk).value;
            && Total(st.utxo) <= Total(m) + Subsidy(height, interval)
            && 0 <= st.fees <= Total(m)
  {
    hide Subsidy, OutputTotal;
    BlockOkIffNoError(vtx);
    assert vtx[..|vtx|] == vtx;
    AcceptedTxidsDistinct(m, vtx, height, |vtx|);
    ConnectTxsBalanced(m, vtx, height);
    FeesBounded(m, vtx, height);
    FromTxValue(vtx[0], height);
  }

  // ----- the subsidy schedule -----

  function SubsidySum(n: nat, interval: int): nat
    requires interval > 0
  {
    if n == 0 then 0 else SubsidySum(n - 1, interval) + Subsidy(n, interval)
  }

  function EraSubsidy(era: nat): nat
  {
    if era >= 64 then 0 else ShiftRight(50 * COIN, era)
  }

  lemma NextHeight(n: nat, interval: int)
    requires interval > 0
    ensures if n % interval == interval - 1
            then (n + 1) / interval == n / interval + 1 && (n + 1) % interval == 0
            else (n + 1) / interval == n / interval && (n + 1) % interval == n % interval + 1
  {
    var q, r := n / interval, n % interval;
    if r == interval - 1 {
      Distribute(interval, q, 1);
      DivModUnique(n + 1, interval, q + 1, 0);
    } else {
      DivModUnique(n + 1, interval, q, r + 1);
    }
  }

  // One height further on: what the schedule has paid and may still pay does not grow.
  lemma PotentialFalls(interval: int, r: int, s: int, r': int, s': int)
    requires 0 <= r < interval && 0 <= s && 0 <= s'
    requires if r == interval - 1 then r' == 0 && 2 * s' <= s else r' == r + 1 && s' == s
    ensures (2 * interval - 1 - r') * s' + s' <= (2 * interval - 1 - r) * s
  {
    if r == interval - 1 {
      MulMonotonic(interval, 2 * s', s);
      Distribute(s', 2 * interval - 1, 1);
    } else {
      Distribute(s, 2 * interval - 1 - r', 1);
    }
  }

  lemma EraHalves(era: nat)
    ensures 2 * EraSubsidy(era + 1) <= EraSubsidy(era)
  {
  }

  // What was paid out so far, plus what the current era and all later ones can
  // still pay, stays below twice the first era.
  lemma {:induction false} SubsidySumBounded(n: nat, interval: int)
    requires interval > 0
    ensures SubsidySum(n, interval) + (2 * interval - 1 - n % interval) * EraSubsidy(n / interval)
            <= 2 * interval * EraSubsidy(0)
  {
    if n == 0 {
      DivModUnique(0, interval, 0, 0);
      MulMonotonic(EraSubsidy(0), 2 * interval - 1, 2 * interval);
    } else {
      SubsidySumBounded(n - 1, interval);
      NextHeight(n - 1, interval);
      EraHalves((n - 1) / interval);
      var r, r' := (n - 1) % interval, n % interval;
      PotentialFalls(interval, r, EraSubsidy((n - 1) / interval), r', EraSubsidy(n / interval));
      assert Subsidy(n, interval) == EraSubsidy(n / interval);
    }
  }

  // No chain pays out more than two full first eras.
  lemma SubsidySumWithinTwoEras(n: nat, interval: int)
    requires interval > 0
    ensures SubsidySum(n, interval) <= 2 * interval * (50 * COIN)
  {
    SubsidySumBounded(n, interval);
    hide SubsidySum;
    var rest := 2 * interval - 1 - n % interval;
    MulMonotonic(rest, 0, EraSubsidy(n / interval));
    assert EraSubsidy(0) == 50 * COIN;
  }

  // With the halving interval of the main network that is the largest valid amount.
  lemma SubsidiesWithinMaxMoney(n: nat)
    ensures SubsidySum(n, 210_000) <= MAX_MONEY
  {
    hide SubsidySum;
    SubsidySumWithinTwoEras(n, 210_000);
  }
}
