// Disconnecting a block undoes connecting it.
module UndoProofs {
  import opened Wrappers
  import opened Basics
  import opened Coins
  import opened Ledger
  import opened BlockRules

  lemma FromTxIsRecordOk(tx: Tx, height: int)
    requires OutputTotal(tx.vout).Ok? && height > 0
    ensures !FromTx(tx, height).IsPruned() ==> RecordOk(FromTx(tx, height))
    ensures FromTx(tx, height).IsClean()
  {
    OutputTotalIsValue(tx.vout);
    TrimIsLongestCleanPrefix(WithoutUnspendable(tx.vout));
  }

  lemma UpdateCoinsFacts(m: Utxo, tx: Tx, height: int)
    requires ViewOk(m) && height > 0
    requires OutputTotal(tx.vout).Ok? && InputsDistinct(tx.vin)
    requires !tx.IsCoinbase() ==> HaveInputs(m, tx.vin)
    ensures ViewOk(UpdateCoins(m, tx, height).0)
    ensures UpdateCoins(m, tx, height).0.Keys <= m.Keys + {tx.hash}
  {
    FromTxIsRecordOk(tx, height);
    if !tx.IsCoinbase() {
      SpendAllKeepsViewOk(m, tx.vin);
    }
  }

  ghost function Txids(vtx: seq<Tx>): set<Hash>
  {
    set i | 0 <= i < |vtx| :: vtx[i].hash
  }

  // What one accepted transaction does to the view and to the undo data.
  lemma ConnectTxFacts(st: Progress, tx: Tx, i: nat, height: int)
    requires InputsDistinct(tx.vin) && OutputTotal(tx.vout).Ok?
    requires ViewOk(st.utxo) && height > 0
    requires ConnectTx(st, tx, i, height).Ok?
    ensures !tx.IsCoinbase() ==> HaveInputs(st.utxo, tx.vin)
    ensures var next := ConnectTx(st, tx, i, height).value;
            var (m', undo) := UpdateCoins(st.utxo, tx, height);
            && next.utxo == m'
            && ViewOk(m') && m'.Keys <= st.utxo.Keys + {tx.hash}
            && next.undo == (if i == 0 then st.undo else st.undo + [undo])
            && (!tx.IsCoinbase() ==> |undo| == |tx.vin|)
  {
    UpdateCoinsFacts(st.utxo, tx, height);
  }

  lemma CoinbaseFirstPrefix(vtx: seq<Tx>, n: nat)
    requires CoinbaseFirst(vtx) && n <= |vtx|
    ensures CoinbaseFirst(vtx[..n])
  {
    assert forall i :: 0 <= i < n ==> vtx[..n][i] == vtx[i];
  }

  lemma TxidsPrefix(vtx: seq<Tx>, n: nat)
    requires n < |vtx|
    ensures Txids(vtx[..n]) + {vtx[n].hash} <= Txids(vtx)
  {
    forall h | h in Txids(vtx[..n]) ensures h in Txids(vtx) {
      var i :| 0 <= i < n && vtx[..n][i].hash == h;
      assert vtx[i].hash == h;
    }
  }

  // The same invariant of the view holds before and after every transaction.
  lemma {:induction false} ConnectTxsFacts(m: Utxo, vtx: seq<Tx>, height: int)
    requires InputsDistinctInBlock(vtx) && CoinbaseFirst(vtx)
    requires ViewOk(m) && height > 0
    requires ConnectTxs(m, vtx, height).Ok?
    ensures ViewOk(ConnectTxs(m, vtx, height).value.utxo)
    ensures ConnectTxs(m, vtx, height).value.utxo.Keys <= m.Keys + Txids(vtx)
    ensures vtx != [] ==> UndoFits(vtx, ConnectTxs(m, vtx, height).value.undo)
    ensures vtx == [] ==> ConnectTxs(m, vtx, height).value.undo == []
    decreases |vtx|
  {
    hide ConnectTx, UpdateCoins, OutputTotal, InputsDistinct, HaveInputs, ViewOk;
    if vtx != [] {
      var k := |vtx| - 1;
      CoinbaseFirstPrefix(vtx, k);
      ConnectTxsFacts(m, vtx[..k], height);
      var st := ConnectTxs(m, vtx[..k], height).value;
      ConnectTxFacts(st, vtx[k], k, height);
      TxidsPrefix(vtx, k);
    }
  }

  // Undoing one transaction, right after it was connected.
  lemma DisconnectTxUndoesUpdate(m: Utxo, tx: Tx, height: int)
    requires ViewOk(m) && height > 0 && tx.hash !in m
    requires OutputTotal(tx.vout).Ok? && InputsDistinct(tx.vin)
    requires !tx.IsCoinbase() ==> HaveInputs(m, tx.vin)
    ensures DisconnectTx(UpdateCoins(m, tx, height).0, tx,
                         if tx.IsCoinbase() then None else Some(UpdateCoins(m, tx, height).1), height)
            == Some(m)
  {
    var m1 := if tx.IsCoinbase() then m else SpendAll(m, tx.vin).0;
    if !tx.IsCoinbase() {
      SpendAllKeepsViewOk(m, tx.vin);
      UndoAllUndoesSpendAll(m, tx.vin);
    }
    var c := FromTx(tx, height);
    ClearUnspendableIdempotent(tx.vout);
    assert Trim(WithoutUnspendable(EMPTY_COINS.vout)) == [];
    assert Put(m1, tx.hash, c) - {tx.hash} == m1;
  }

  lemma NewTxidIsAbsent(m: Utxo, vtx: seq<Tx>, m': Utxo, k: nat)
    requires k < |vtx| && TxidsDistinct(vtx) && OverwritesNothing(m, vtx)
    requires m'.Keys <= m.Keys + Txids(vtx[..k])
    ensures vtx[k].hash !in m'
  {
    if vtx[k].hash in Txids(vtx[..k]) {
      var i :| 0 <= i < k && vtx[..k][i].hash == vtx[k].hash;
      assert vtx[i].hash == vtx[k].hash;
    }
  }

  // Main induction: unwinding the transactions from last to first.
  lemma {:induction false} DisconnectTxsUndoesConnectTxs(m: Utxo, vtx: seq<Tx>, height: int)
    requires InputsDistinctInBlock(vtx) && CoinbaseFirst(vtx) && TxidsDistinct(vtx)
    requires ViewOk(m) && height > 0 && OverwritesNothing(m, vtx)
    requires ConnectTxs(m, vtx, height).Ok?
    ensures var st := ConnectTxs(m, vtx, height).value;
            && (vtx != [] ==> UndoFits(vtx, st.undo))
            && DisconnectTxs(st.utxo, vtx, st.undo, height) == Some(m)
    decreases |vtx|
  {
    hide ConnectTx, UpdateCoins, DisconnectTx, OutputTotal, InputsDistinct, HaveInputs, ViewOk;
    ConnectTxsFacts(m, vtx, height);
    if vtx != [] {
      var k := |vtx| - 1;
      CoinbaseFirstPrefix(vtx, k);
      assert TxidsDistinct(vtx[..k]) && OverwritesNothing(m, vtx[..k]);
      ConnectTxsFacts(m, vtx[..k], height);
      var st0 := ConnectTxs(m, vtx[..k], height).value;
      var st := ConnectTxs(m, vtx, height).value;
      ConnectTxFacts(st0, vtx[k], k, height);
      NewTxidIsAbsent(m, vtx, st0.utxo, k);
      DisconnectTxUndoesUpdate(st0.utxo, vtx[k], height);
      assert k > 0 ==> st.undo[..k - 1] == st0.undo;
      DisconnectTxsUndoesConnectTxs(m, vtx[..k], height);
    }
  }

  // ----- distinct ids need not be assumed -----

  /** Transactions of the block with one id are one transaction. */
  predicate CollisionFree(vtx: seq<Tx>)
  {
    forall i, j :: 0 <= i < |vtx| && 0 <= j < |vtx| && vtx[i].hash == vtx[j].hash ==> vtx[i] == vtx[j]
  }

  lemma {:induction false} ConnectTxsPrefix(m: Utxo, vtx: seq<Tx>, height: int, n: nat)
    requires InputsDistinctInBlock(vtx) && n <= |vtx|
    requires ConnectTxs(m, vtx, height).Ok?
    ensures InputsDistinctInBlock(vtx[..n]) && ConnectTxs(m, vtx[..n], height).Ok?
    decreases |vtx|
  {
    if n == |vtx| {
      assert vtx[..n] == vtx;
    } else {
      ConnectTxsPrefix(m, vtx[..|vtx| - 1], height, n);
      assert vtx[..|vtx| - 1][..n] == vtx[..n];
    }
  }

  /** The view after the first `n` transactions. */
  function ViewAfter(m: Utxo, vtx: seq<Tx>, height: int, n: nat): Utxo
    requires n <= |vtx| && InputsDistinctInBlock(vtx) && ConnectTxs(m, vtx, height).Ok?
  {
    ConnectTxsPrefix(m, vtx, height, n);
    ConnectTxs(m, vtx[..n], height).value.utxo
  }

  lemma ViewAfterStep(m: Utxo, vtx: seq<Tx>, height: int, n: nat)
    requires n < |vtx| && InputsDistinctInBlock(vtx) && CoinbaseFirst(vtx)
    requires ViewOk(m) && height > 0
    requires ConnectTxs(m, vtx, height).Ok?
    ensures !vtx[n].IsCoinbase() ==> HaveInputs(ViewAfter(m, vtx, height, n), vtx[n].vin)
    ensures ViewAfter(m, vtx, height, n + 1) == UpdateCoins(ViewAfter(m, vtx, height, n), vtx[n], height).0
    ensures ViewAfter(m, vtx, height, n).Keys <= m.Keys + Txids(vtx[..n])
    ensures ViewOk(ViewAfter(m, vtx, height, n))
  {
    hide ConnectTx, UpdateCoins, OutputTotal, InputsDistinct, HaveInputs, ViewOk;
    ConnectTxsPrefix(m, vtx, height, n + 1);
    ConnectTxsPrefix(m, vtx, height, n);
    assert vtx[..n + 1][..n] == vtx[..n];
    CoinbaseFirstPrefix(vtx, n);
    ConnectTxsFacts(m, vtx[..n], height);
    ConnectTxFacts(ConnectTxs(m, vtx[..n], height).value, vtx[n], n, height);
  }

  // A transaction leaves outputs of other transactions alone, except those it spends.
  lemma UpdateCoinsElsewhere(m: Utxo, tx: Tx, height: int, q: OutPoint)
    requires !tx.IsCoinbase() ==> InputsDistinct(tx.vin) && HaveInputs(m, tx.vin)
    requires q.hash != tx.hash
    ensures IsAvailable(UpdateCoins(m, tx, height).0, q)
            <==> IsAvailable(m, q) && (tx.IsCoinbase() || !Spends(tx.vin, q))
  {
  }

  // An output that is spent at one point and unspent later was added in between.
  lemma {:induction false} UnspentAgainWasAdded(m: Utxo, vtx: seq<Tx>, height: int, j: nat, k: nat, p: OutPoint)
    requires j <= k <= |vtx| && InputsDistinctInBlock(vtx) && CoinbaseFirst(vtx)
    requires ViewOk(m) && height > 0
    requires ConnectTxs(m, vtx, height).Ok?
    requires !IsAvailable(ViewAfter(m, vtx, height, j), p)
    requires IsAvailable(ViewAfter(m, vtx, height, k), p)
    ensures exists i :: j <= i < k && vtx[i].hash == p.hash
    decreases k - j
  {
    hide UpdateCoins, OutputTotal, InputsDistinct, HaveInputs, ViewOk, ConnectTxs, ViewAfter;
    if k > j && vtx[k - 1].hash != p.hash {
      ViewAfterStep(m, vtx, height, k - 1);
      UpdateCoinsElsewhere(ViewAfter(m, vtx, height, k - 1), vtx[k - 1], height, p);
      UnspentAgainWasAdded(m, vtx, height, j, k - 1, p);
    }
  }

  lemma DistinctInPrefix(vtx: seq<Tx>, k: nat, i: nat, j: nat)
    requires i < j < k <= |vtx| && TxidsDistinct(vtx[..k])
    ensures vtx[i].hash != vtx[j].hash
  {
    assert vtx[..k][i].hash != vtx[..k][j].hash;
  }

  // The second copy of a transaction would need an output the first copy
  // spent, so the transaction that made that output would be repeated earlier.
  lemma RepeatedTransactionRefused(m: Utxo, vtx: seq<Tx>, height: int, j: nat, k: nat)
    requires InputsDistinctInBlock(vtx) && CoinbaseFirst(vtx) && CollisionFree(vtx)
    requires forall i :: 0 <= i < |vtx| ==> vtx[i].vin != []
    requires ViewOk(m) && height > 0 && OverwritesNothing(m, vtx)
    requires ConnectTxs(m, vtx, height).Ok?
    requires j < k < |vtx| && TxidsDistinct(vtx[..k])
    ensures vtx[j].hash != vtx[k].hash
  {
    hide UpdateCoins, OutputTotal, ViewOk, ConnectTxs, ViewAfter, Spends;
    if vtx[j].hash == vtx[k].hash {
      assert vtx[j] == vtx[k];
      var p := vtx[k].vin[0].prevout;
      ViewAfterStep(m, vtx, height, j);
      ViewAfterStep(m, vtx, height, k);
      SpendsIffInput(vtx[j].vin, p);
      var again: nat := j;
      if vtx[j].hash != p.hash {
        UpdateCoinsElsewhere(ViewAfter(m, vtx, height, j), vtx[j], height, p);
        UnspentAgainWasAdded(m, vtx, height, j + 1, k, p);
        again :| j + 1 <= again < k && vtx[again].hash == p.hash;
      }
      assert p.hash !in m;
      assert p.hash in Txids(vtx[..j]);
      var first :| 0 <= first < j && vtx[..j][first].hash == p.hash;
      DistinctInPrefix(vtx, k, first, again);
    }
  }

  lemma {:induction false} AcceptedTxidsDistinct(m: Utxo, vtx: seq<Tx>, height: int, n: nat)
    requires InputsDistinctInBlock(vtx) && CoinbaseFirst(vtx) && CollisionFree(vtx)
    requires forall i :: 0 <= i < |vtx| ==> vtx[i].vin != []
    requires ViewOk(m) && height > 0 && OverwritesNothing(m, vtx)
    requires ConnectTxs(m, vtx, height).Ok?
    requires n <= |vtx|
    ensures TxidsDistinct(vtx[..n])
    decreases n
  {
    hide OutputTotal, InputsDistinct, ViewOk, ConnectTxs;
    if n > 0 {
      var k := n - 1;
      AcceptedTxidsDistinct(m, vtx, height, k);
      forall j | 0 <= j < k ensures vtx[j].hash != vtx[k].hash {
        RepeatedTransactionRefused(m, vtx, height, j, k);
      }
      assert forall i, j :: 0 <= i < j < k ==> vtx[..k][i].hash != vtx[..k][j].hash;
    }
  }

  // ----- the theorem -----

  // For every sound view and every accepted block, disconnecting with the
  // recorded undo data is clean and gives the view back, also when later
  // transactions of the block spend outputs of earlier ones.
  lemma DisconnectUndoesConnect(m: Utxo, vtx: seq<Tx>, height: nat, interval: int, scriptsOk: bool)
    requires ViewOk(m) && height > 0 && interval > 0 && CollisionFree(vtx)
    requires ConnectBlock(m, vtx, height, interval, scriptsOk).Ok?
    ensures var st := ConnectBlock(m, vtx, height, interval, scriptsOk).value;
            && UndoFits(vtx, st.undo)
            && DisconnectTxs(st.utxo, vtx, st.undo, height) == Some(m)
  {
    BlockOkIffNoError(vtx);
    assert vtx[..|vtx|] == vtx;
    AcceptedTxidsDistinct(m, vtx, height, |vtx|);
    DisconnectTxsUndoesConnectTxs(m, vtx, height);
  }

  // Every accepted block leads from a sound view to a sound view.
  lemma ConnectKeepsViewOk(m: Utxo, vtx: seq<Tx>, height: nat, interval: int, scriptsOk: bool)
    requires ViewOk(m) && height > 0 && interval > 0
    requires ConnectBlock(m, vtx, height, interval, scriptsOk).Ok?
    ensures ViewOk(ConnectBlock(m, vtx, height, interval, scriptsOk).value.utxo)
  {
    BlockOkIffNoError(vtx);
    ConnectTxsFacts(m, vtx, height);
  }
}
