// Disconnecting is clean only where connecting leads back: what a clean
// disconnect restores connects to the same view and the same undo data.
module UndoExact {
  import opened Wrappers
  import opened Basics
  import opened Coins
  import opened Ledger
  import opened BlockRules
  import opened UndoProofs

  /** Undo data as `UpdateCoins` records them: an output, and metadata for the last one of a record only. */
  predicate InUndoOk(u: TxInUndo)
  {
    && !u.out.IsNull() && !u.out.IsUnspendable() && MoneyRange(u.out.value) && u.height >= 0
    && (u.height == 0 ==> !u.coinbase && u.version == 0)
  }

  predicate TxUndoOk(undo: TxUndo)
  {
    forall i :: 0 <= i < |undo| ==> InUndoOk(undo[i])
  }

  /** A record without outputs that can never be spent. */
  predicate AllSpendable(c: Coins)
  {
    forall i :: 0 <= i < |c.vout| ==> c.vout[i].IsNull() || !c.vout[i].IsUnspendable()
  }

  ghost predicate HoldsSpendable(m: Utxo)
  {
    ViewOk(m) && forall k :: k in m ==> AllSpendable(m[k])
  }

  // ----- one input -----

  lemma {:induction false} TrimNulls(vout: seq<TxOut>, n: nat)
    requires n <= |vout| && (n > 0 ==> !vout[n - 1].IsNull()) && forall i :: n <= i < |vout| ==> vout[i].IsNull()
    ensures Trim(vout) == vout[..n]
    decreases |vout|
  {
    if |vout| > n {
      TrimNulls(vout[..|vout| - 1], n);
      assert vout[..|vout| - 1][..n] == vout[..n];
    } else {
      assert vout[..n] == vout;
    }
  }

  /** `r` is `vout` with `out` at place `n`, which was empty. */
  lemma PaddedIs(vout: seq<TxOut>, n: nat, out: TxOut)
    requires !out.IsNull() && (vout != [] ==> !vout[|vout| - 1].IsNull())
    ensures var w := RestoreAt(vout, n, out);
            && |w| == (if n < |vout| then |vout| else n + 1) && w[n] == out && !w[|w| - 1].IsNull()
            && (n >= |vout| ==> w[..|vout|] == vout && forall i :: |vout| <= i < n ==> w[i] == NULL_OUT)
  {
  }

  lemma CleanStays(vout: seq<TxOut>)
    requires vout != [] ==> !vout[|vout| - 1].IsNull()
    ensures Trim(vout) == vout
  {
  }

  lemma SpentInside(vout: seq<TxOut>, n: nat, out: TxOut)
    requires n < |vout| && vout[n].IsNull() && NullsAreCanonical(vout)
    ensures RestoreAt(vout, n, out)[n := NULL_OUT] == vout
  {
  }

  lemma SpentBeyond(vout: seq<TxOut>, n: nat, w: seq<TxOut>)
    requires (vout != [] ==> !vout[|vout| - 1].IsNull()) && |w| == n + 1 > |vout| && w[..|vout|] == vout
    requires forall i :: |vout| <= i < n ==> w[i] == NULL_OUT
    ensures Trim(w[n := NULL_OUT]) == vout
  {
    var back := w[n := NULL_OUT];
    assert back[..|vout|] == vout;
    hide Trim;
    TrimNulls(back, |vout|);
  }

  // Putting an output back where there was none, and spending it.
  lemma RestoredIs(vout: seq<TxOut>, n: nat, out: TxOut, r: seq<TxOut>)
    requires (vout != [] ==> !vout[|vout| - 1].IsNull()) && NullsAreCanonical(vout)
    requires !out.IsNull() && (n < |vout| ==> vout[n].IsNull()) && r == Trim(RestoreAt(vout, n, out))
    ensures r == RestoreAt(vout, n, out) && n < |r| && r[n] == out && !r[|r| - 1].IsNull()
    ensures Trim(r[n := NULL_OUT]) == vout
  {
    hide RestoreAt, Trim, NullsAreCanonical;
    PaddedIs(vout, n, out);
    CleanStays(RestoreAt(vout, n, out));
    CleanStays(vout);
    if n < |vout| {
      SpentInside(vout, n, out);
    } else {
      SpentBeyond(vout, n, RestoreAt(vout, n, out));
    }
  }

  lemma RestoredRecord(c: Coins, undo: TxInUndo, n: nat, r: seq<TxOut>)
    requires c.IsClean() && NullsAreCanonical(c.vout) && ValuesInRange(c.vout) && c.height > 0 && !c.IsAvailable(n) && InUndoOk(undo)
    requires AllSpendable(c) && r == Trim(RestoreAt(c.vout, n, undo.out))
    ensures AllSpendable(c.(vout := r)) && RecordOk(c.(vout := r)) && c.(vout := r).IsAvailable(n) && r[n] == undo.out && SpendAt(r, n) == c.vout
  {
    RestoredIs(c.vout, n, undo.out, r);
    assert !r[n].IsNull();
  }

  lemma PutRemoved(m: Utxo, k: Hash, c: Coins, c': Coins)
    requires !c.IsPruned() && (if k in m then m[k] == c' && !c'.IsPruned() else c'.IsPruned())
    ensures k in Put(m, k, c) && Put(m, k, c)[k] == c && Put(Put(m, k, c), k, c') == m
  {
    hide Coins.IsPruned;
  }

  // What one undo entry puts back, spending takes out again, with the same undo data.
  lemma SpendUndoesApply(m: Utxo, undo: TxInUndo, p: OutPoint)
    requires HoldsSpendable(m) && InUndoOk(undo) && ApplyTxInUndo(m, undo, p).Some?
    ensures var m1 := ApplyTxInUndo(m, undo, p).value;
            HoldsSpendable(m1) && IsAvailable(m1, p) && SpendOut(m1, p) == (m, undo)
  {
    var c0 := if undo.height != 0 then Coins(undo.coinbase, [], undo.height, undo.version) else m[p.hash];
    if undo.height == 0 {
      assert RecordOk(m[p.hash]) && AllSpendable(m[p.hash]);
    }
    var r := Trim(RestoreAt(c0.vout, p.n, undo.out));
    RestoredRecord(c0, undo, p.n, r);
    hide Trim, RestoreAt, SpendAt;
    PutRemoved(m, p.hash, c0.(vout := r), c0);
  }

  // ----- one transaction -----

  lemma StillAvailable(m0: Utxo, vin: seq<TxIn>, m1: Utxo)
    requires vin != [] && HaveInputs(m0, vin[..|vin| - 1]) && Removes(m0, vin[..|vin| - 1], m1) && IsAvailable(m1, vin[|vin| - 1].prevout)
    ensures HaveInputs(m0, vin)
  {
    var k := |vin| - 1;
    assert IsAvailable(m0, vin[k].prevout);
    forall i | 0 <= i < |vin| ensures IsAvailable(m0, vin[i].prevout) {
      assert i < k ==> vin[..k][i] == vin[i];
    }
  }

  lemma UndoPrefix(vin: seq<TxIn>, undos: TxUndo)
    requires vin != [] && |undos| == |vin| && TxUndoOk(undos) && InputsDistinct(vin)
    ensures var k := |vin| - 1;
            undos == undos[..k] + [undos[k]] && InUndoOk(undos[k]) && TxUndoOk(undos[..k]) && InputsDistinct(vin[..k])
  {
    hide InUndoOk;
  }

  lemma NothingUndone(m: Utxo)
    ensures UndoAll(m, [], []) == Some(m) && HaveInputs(m, []) && InputsDistinct([]) && SpendAll(m, []) == (m, [])
  {
  }

  lemma UndoAllNext(m: Utxo, vin: seq<TxIn>, undos: TxUndo)
    requires vin != [] && |undos| == |vin| && UndoAll(m, vin, undos).Some?
    ensures var k := |vin| - 1;
            var m1 := ApplyTxInUndo(m, undos[k], vin[k].prevout);
            m1.Some? && UndoAll(m1.value, vin[..k], undos[..k]) == UndoAll(m, vin, undos)
  {
    hide ApplyTxInUndo;
  }

  lemma SpendAllNext(m0: Utxo, vin: seq<TxIn>, m1: Utxo, undos: TxUndo)
    requires vin != [] && InputsDistinct(vin) && HaveInputs(m0, vin[..|vin| - 1]) && SpendAll(m0, vin[..|vin| - 1]) == (m1, undos)
    requires IsAvailable(m1, vin[|vin| - 1].prevout)
    ensures HaveInputs(m0, vin)
    ensures SpendAll(m0, vin) == (SpendOut(m1, vin[|vin| - 1].prevout).0, undos + [SpendOut(m1, vin[|vin| - 1].prevout).1])
  {
    StillAvailable(m0, vin, m1);
    hide SpendOut, IsAvailable;
  }

  lemma {:induction false} SpendAllUndoesUndoAll(m: Utxo, vin: seq<TxIn>, undos: TxUndo)
    requires HoldsSpendable(m) && TxUndoOk(undos) && |undos| == |vin| && InputsDistinct(vin) && UndoAll(m, vin, undos).Some?
    ensures var m0 := UndoAll(m, vin, undos).value;
            HoldsSpendable(m0) && HaveInputs(m0, vin) && SpendAll(m0, vin) == (m, undos)
    decreases |vin|
  {
    if vin == [] {
      NothingUndone(m);
    } else {
      var k := |vin| - 1;
      hide *;
      UndoPrefix(vin, undos);
      UndoAllNext(m, vin, undos);
      SpendUndoesApply(m, undos[k], vin[k].prevout);
      var m1 := ApplyTxInUndo(m, undos[k], vin[k].prevout).value;
      SpendAllUndoesUndoAll(m1, vin[..k], undos[..k]);
      SpendAllNext(UndoAll(m, vin, undos).value, vin, m1, undos[..k]);
    }
  }

  lemma {:induction false} SpendableStays(vout: seq<TxOut>)
    requires (vout != [] ==> !vout[|vout| - 1].IsNull()) && NullsAreCanonical(vout)
    requires forall i :: 0 <= i < |vout| ==> vout[i].IsNull() || !vout[i].IsUnspendable()
    ensures Trim(WithoutUnspendable(vout)) == vout
  {
    assert WithoutUnspendable(vout) == vout;
    TrimNulls(vout, |vout|);
    assert vout[..|vout|] == vout;
  }

  // The outputs that are held are those the transaction makes.
  lemma HeldRecord(m: Utxo, tx: Tx, height: int)
    requires HoldsSpendable(m) && HoldsOutputs(m, tx, height) && tx.version >= 0
    ensures Put(m - {tx.hash}, tx.hash, FromTx(tx, height)) == m
  {
    if tx.hash in m {
      var c := m[tx.hash];
      assert RecordOk(c) && AllSpendable(c);
      SpendableStays(c.vout);
      assert c.(vout := c.vout) == c;
      assert !c.IsPruned();
    } else {
      assert Trim(WithoutUnspendable([])) == [];
    }
    hide Trim, WithoutUnspendable, Coins.IsPruned, RecordOk, AllSpendable;
  }

  lemma WithoutKeepsSpendable(m: Utxo, k: Hash)
    requires HoldsSpendable(m)
    ensures HoldsSpendable(m - {k})
  {
  }

  // A transaction whose disconnect is clean connects again.
  lemma ReconnectTx(m: Utxo, tx: Tx, undo: Option<TxUndo>, height: int)
    requires HoldsSpendable(m) && tx.version >= 0 && InputsDistinct(tx.vin)
    requires (undo.None? <==> tx.IsCoinbase()) && (undo.Some? ==> |undo.value| == |tx.vin| && TxUndoOk(undo.value))
    requires DisconnectTx(m, tx, undo, height).Some?
    ensures var m0 := DisconnectTx(m, tx, undo, height).value;
            && HoldsSpendable(m0) && (!tx.IsCoinbase() ==> HaveInputs(m0, tx.vin))
            && UpdateCoins(m0, tx, height) == (m, if undo.None? then [] else undo.value)
  {
    HeldRecord(m, tx, height);
    WithoutKeepsSpendable(m, tx.hash);
    if undo.Some? {
      SpendAllUndoesUndoAll(m - {tx.hash}, tx.vin, undo.value);
    }
    hide HoldsSpendable, HoldsOutputs, FromTx, SpendAll, UndoAll, HaveInputs, TxUndoOk, Put;
  }

  // ----- the whole block -----

  /** Connecting without asking for values: the view and the undo data, when all inputs are there. */
  ghost function Replay(m: Utxo, vtx: seq<Tx>, height: int): Option<(Utxo, seq<TxUndo>)>
  {
    if vtx == [] then Some((m, []))
    else
      var k := |vtx| - 1;
      match Replay(m, vtx[..k], height)
      case None => None
      case Some((m1, undos)) =>
        if vtx[k].IsCoinbase() then Some((UpdateCoins(m1, vtx[k], height).0, undos))
        else if InputsDistinct(vtx[k].vin) && HaveInputs(m1, vtx[k].vin) then
          var (m2, undo) := UpdateCoins(m1, vtx[k], height);
          Some((m2, undos + [undo]))
        else None
  }

  ghost predicate UndoDataOk(undo: seq<TxUndo>)
  {
    forall i :: 0 <= i < |undo| ==> TxUndoOk(undo[i])
  }

  predicate Plain(vtx: seq<Tx>)
  {
    forall i :: 0 <= i < |vtx| ==> vtx[i].version >= 0 && InputsDistinct(vtx[i].vin)
  }

  lemma DisconnectNext(m: Utxo, vtx: seq<Tx>, undo: seq<TxUndo>, height: int, last: Option<TxUndo>, rest: seq<TxUndo>)
    requires vtx != [] && UndoFits(vtx, undo) && DisconnectTxs(m, vtx, undo, height).Some?
    requires var k := |vtx| - 1; last == (if k == 0 then None else Some(undo[k - 1])) && rest == if k == 0 then [] else undo[..k - 1]
    ensures var k := |vtx| - 1;
            && (last.Some? ==> |last.value| == |vtx[k].vin|) && (if k == 0 then rest == [] else UndoFits(vtx[..k], rest))
            && undo == rest + (if last.None? then [] else [last.value])
            && DisconnectTx(m, vtx[k], last, height).Some?
            && DisconnectTxs(DisconnectTx(m, vtx[k], last, height).value, vtx[..k], rest, height) == DisconnectTxs(m, vtx, undo, height)
  {
    hide DisconnectTx;
  }

  lemma ReplayNext(m0: Utxo, vtx: seq<Tx>, height: int, m1: Utxo, undos: seq<TxUndo>)
    requires vtx != [] && Replay(m0, vtx[..|vtx| - 1], height) == Some((m1, undos))
    requires var tx := vtx[|vtx| - 1]; InputsDistinct(tx.vin) && (!tx.IsCoinbase() ==> HaveInputs(m1, tx.vin))
    ensures var tx := vtx[|vtx| - 1];
            Replay(m0, vtx, height)
            == Some((UpdateCoins(m1, tx, height).0, if tx.IsCoinbase() then undos else undos + [UpdateCoins(m1, tx, height).1]))
  {
    hide UpdateCoins, HaveInputs, InputsDistinct;
  }

  // Main result on disconnecting: when it is clean, with undo data as they are
  // recorded, the block connects to the view and the undo data it came from.
  lemma {:induction false} ReconnectBlock(m: Utxo, vtx: seq<Tx>, undo: seq<TxUndo>, height: int)
    requires HoldsSpendable(m) && CoinbaseFirst(vtx) && Plain(vtx) && UndoDataOk(undo)
    requires if vtx == [] then undo == [] else UndoFits(vtx, undo)
    requires DisconnectTxs(m, vtx, undo, height).Some?
    ensures var m0 := DisconnectTxs(m, vtx, undo, height).value;
            HoldsSpendable(m0) && Replay(m0, vtx, height) == Some((m, undo))
    decreases |vtx|
  {
    if vtx != [] {
      var k := |vtx| - 1;
      var last, rest := if k == 0 then None else Some(undo[k - 1]), if k == 0 then [] else undo[..k - 1];
      DisconnectNext(m, vtx, undo, height, last, rest);
      CoinbaseFirstPrefix(vtx, k);
      assert Plain(vtx[..k]) && vtx[k].version >= 0 && InputsDistinct(vtx[k].vin) && (vtx[k].IsCoinbase() <==> k == 0);
      assert UndoDataOk(rest) && (last.Some? ==> TxUndoOk(last.value));
      hide HoldsSpendable, DisconnectTx, DisconnectTxs, UpdateCoins, HaveInputs, InputsDistinct, TxUndoOk, Replay, UndoFits;
      ReconnectTx(m, vtx[k], last, height);
      var m1 := DisconnectTx(m, vtx[k], last, height).value;
      ReconnectBlock(m1, vtx[..k], rest, height);
      ReplayNext(DisconnectTxs(m, vtx, undo, height).value, vtx, height, m1, rest);
    }
  }

  // ----- recorded undo data are of that kind -----

  lemma SpendOutRecords(m: Utxo, p: OutPoint)
    requires HoldsSpendable(m) && IsAvailable(m, p)
    ensures InUndoOk(SpendOut(m, p).1) && HoldsSpendable(SpendOut(m, p).0)
  {
    SpendOutKeepsViewOk(m, p);
    var c := m[p.hash];
    assert RecordOk(c) && AllSpendable(c);
    var w := c.vout[p.n := NULL_OUT];
    TrimIsLongestCleanPrefix(w);
    var c' := c.(vout := Trim(w));
    assert AllSpendable(c');
    hide Trim, RecordOk;
  }

  lemma {:induction false} SpendAllRecords(m: Utxo, vin: seq<TxIn>)
    requires HoldsSpendable(m) && InputsDistinct(vin) && HaveInputs(m, vin)
    ensures TxUndoOk(SpendAll(m, vin).1) && HoldsSpendable(SpendAll(m, vin).0)
  {
    if vin != [] {
      var k := |vin| - 1;
      SpendAllRecords(m, vin[..k]);
      RemovesOneMore(m, vin, SpendAll(m, vin[..k]).0);
      SpendOutRecords(SpendAll(m, vin[..k]).0, vin[k].prevout);
      hide HoldsSpendable, SpendOut, InUndoOk, IsAvailable;
    }
  }

  lemma NewRecordIsSpendable(tx: Tx, height: int)
    ensures AllSpendable(FromTx(tx, height))
  {
    TrimIsLongestCleanPrefix(WithoutUnspendable(tx.vout));
  }

  lemma PutSpendable(m: Utxo, k: Hash, c: Coins)
    requires HoldsSpendable(m) && AllSpendable(c) && (!c.IsPruned() ==> RecordOk(c))
    ensures HoldsSpendable(Put(m, k, c))
  {
    hide AllSpendable, RecordOk, Coins.IsPruned;
  }

  // Connecting a transaction records such undo data, and keeps such views.
  lemma UpdateCoinsRecords(m: Utxo, tx: Tx, height: int)
    requires HoldsSpendable(m) && height > 0 && OutputTotal(tx.vout).Ok? && InputsDistinct(tx.vin)
    requires !tx.IsCoinbase() ==> HaveInputs(m, tx.vin)
    ensures TxUndoOk(UpdateCoins(m, tx, height).1) && HoldsSpendable(UpdateCoins(m, tx, height).0)
  {
    if !tx.IsCoinbase() {
      SpendAllRecords(m, tx.vin);
    }
    NewRecordIsSpendable(tx, height);
    FromTxIsRecordOk(tx, height);
    var m1 := if tx.IsCoinbase() then m else SpendAll(m, tx.vin).0;
    hide HoldsSpendable, AllSpendable, RecordOk, FromTx, SpendAll, OutputTotal, Coins.IsPruned, Put;
    PutSpendable(m1, tx.hash, FromTx(tx, height));
  }

  lemma {:induction false} ConnectTxsRecords(m: Utxo, vtx: seq<Tx>, height: int)
    requires InputsDistinctInBlock(vtx) && CoinbaseFirst(vtx) && HoldsSpendable(m) && height > 0 && ConnectTxs(m, vtx, height).Ok?
    ensures UndoDataOk(ConnectTxs(m, vtx, height).value.undo) && HoldsSpendable(ConnectTxs(m, vtx, height).value.utxo)
    decreases |vtx|
  {
    if vtx != [] {
      var k := |vtx| - 1;
      CoinbaseFirstPrefix(vtx, k);
      ConnectTxsRecords(m, vtx[..k], height);
      var st := ConnectTxs(m, vtx[..k], height).value;
      assert ViewOk(st.utxo) && InputsDistinct(vtx[k].vin) && OutputTotal(vtx[k].vout).Ok?;
      ConnectTxFacts(st, vtx[k], k, height);
      UpdateCoinsRecords(st.utxo, vtx[k], height);
      hide HoldsSpendable, TxUndoOk, ViewOk, ConnectTx, UpdateCoins, OutputTotal, InputsDistinct, HaveInputs;
    }
  }
}
