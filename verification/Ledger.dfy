// What connecting and disconnecting a block mean for the set of unspent
// outputs, as functions on one map from transaction ids to records.  A record
// with no unspent output is the same as no record.
module Ledger {
  import opened Wrappers
  import opened Basics
  import opened Coins

  type Utxo = map<Hash, Coins>

  datatype TxInUndo = TxInUndo(out: TxOut, coinbase: bool, height: int, version: int)

  type TxUndo = seq<TxInUndo>

  /** The view after a record was modified to `c`. */
  function Put(m: Utxo, k: Hash, c: Coins): Utxo
  {
    if c.IsPruned() then m - {k} else m[k := c]
  }

  predicate IsAvailable(m: Utxo, p: OutPoint)
  {
    p.hash in m && m[p.hash].IsAvailable(p.n)
  }

  function OutputAt(m: Utxo, p: OutPoint): TxOut
    requires IsAvailable(m, p)
  {
    m[p.hash].vout[p.n]
  }

  // ----- what every view satisfies -----

  predicate RecordOk(c: Coins)
  {
    && c.IsClean() && !c.IsPruned()
    && NullsAreCanonical(c.vout)
    && ValuesInRange(c.vout)
    && c.height > 0
  }

  /** Holds of the empty view, and is kept by every connected block; see `ConnectKeepsViewOk`. */
  ghost predicate ViewOk(m: Utxo)
  {
    forall k :: k in m ==> RecordOk(m[k])
  }

  // ----- one input -----

  function SpendOut(m: Utxo, p: OutPoint): (r: (Utxo, TxInUndo))
    requires IsAvailable(m, p)
  {
    var c := m[p.hash];
    var c' := c.(vout := SpendAt(c.vout, p.n));
    var undo := if |c'.vout| == 0 then TxInUndo(c.vout[p.n], c.coinbase, c.height, c.version)
                else TxInUndo(c.vout[p.n], false, 0, 0);
    (Put(m, p.hash, c'), undo)
  }

  /** The view after putting an output back, or `None` when the undo data does not fit the view. */
  function ApplyTxInUndo(m: Utxo, undo: TxInUndo, p: OutPoint): Option<Utxo>
  {
    if undo.height != 0 then
      if p.hash in m then None
      else Some(Put(m, p.hash,
                    Coins(undo.coinbase, Trim(RestoreAt([], p.n, undo.out)), undo.height, undo.version)))
    else if p.hash !in m || m[p.hash].IsAvailable(p.n) then None
    else
      var c := m[p.hash];
      Some(Put(m, p.hash, c.(vout := Trim(RestoreAt(c.vout, p.n, undo.out)))))
  }

  lemma SpendOutKeepsViewOk(m: Utxo, p: OutPoint)
    requires ViewOk(m) && IsAvailable(m, p)
    ensures ViewOk(SpendOut(m, p).0)
  {
    var c := m[p.hash];
    var w := c.vout[p.n := NULL_OUT];
    TrimIsLongestCleanPrefix(w);
    var c' := c.(vout := Trim(w));
    if !c'.IsPruned() {
      assert RecordOk(c');
    }
  }

  // Spending an output leaves every other output where it was.
  lemma SpendOutElsewhere(m: Utxo, p: OutPoint, q: OutPoint)
    requires IsAvailable(m, p)
    ensures IsAvailable(SpendOut(m, p).0, q) <==> q != p && IsAvailable(m, q)
    ensures q != p && IsAvailable(m, q) ==> OutputAt(SpendOut(m, p).0, q) == OutputAt(m, q)
  {
    var c := m[p.hash];
    var w := c.vout[p.n := NULL_OUT];
    TrimIsLongestCleanPrefix(w);
    var t := Trim(w);
    assert forall i :: 0 <= i < |t| ==> t[i] == w[i];
    if q.hash == p.hash && q.n < |w| && q != p {
      assert w[q.n] == c.vout[q.n];
    }
  }

  lemma PutBack(m: Utxo, k: Hash, c: Coins, c': Coins)
    requires k in m && m[k] == c' && !c'.IsPruned()
    ensures Put(Put(m, k, c), k, c') == m
  {
    hide Coins.IsPruned;
  }

  // The last output was spent: the record went, and comes back whole.
  lemma UndoesLastSpend(m: Utxo, p: OutPoint, c: Coins)
    requires IsAvailable(m, p) && m[p.hash] == c && c.height != 0
    requires SpendAt(c.vout, p.n) == [] && RestoreAt([], p.n, c.vout[p.n]) == c.vout && Trim(c.vout) == c.vout
    ensures ApplyTxInUndo(SpendOut(m, p).0, SpendOut(m, p).1, p) == Some(m)
  {
    hide SpendAt, RestoreAt, Trim;
    assert Coins(c.coinbase, c.vout, c.height, c.version) == c;
    assert c.(vout := []).IsPruned() && !c.IsPruned();
    hide Coins.IsPruned;
    PutBack(m, p.hash, c.(vout := []), c);
  }

  // Other outputs are left: the record stays, and gets its output back.
  lemma UndoesPartialSpend(m: Utxo, p: OutPoint, c: Coins)
    requires IsAvailable(m, p) && m[p.hash] == c
    requires SpendAt(c.vout, p.n) != [] && !SpendAt(c.vout, p.n)[|SpendAt(c.vout, p.n)| - 1].IsNull()
    requires p.n < |SpendAt(c.vout, p.n)| ==> SpendAt(c.vout, p.n)[p.n].IsNull()
    requires RestoreAt(SpendAt(c.vout, p.n), p.n, c.vout[p.n]) == c.vout && Trim(c.vout) == c.vout
    ensures ApplyTxInUndo(SpendOut(m, p).0, SpendOut(m, p).1, p) == Some(m)
  {
    hide SpendAt, RestoreAt, Trim;
    var c' := c.(vout := SpendAt(c.vout, p.n));
    assert !c'.IsPruned() && !c.IsPruned() && !c'.IsAvailable(p.n);
    hide Coins.IsPruned;
    PutBack(m, p.hash, c', c);
  }

  lemma ApplyUndoesSpend(m: Utxo, p: OutPoint)
    requires ViewOk(m) && IsAvailable(m, p)
    ensures ApplyTxInUndo(SpendOut(m, p).0, SpendOut(m, p).1, p) == Some(m)
  {
    var c := m[p.hash];
    assert RecordOk(c);
    RestoreUndoesSpend(c, p.n);
    TrimIsLongestCleanPrefix(c.vout[p.n := NULL_OUT]);
    TrimOfClean(c);
    if SpendAt(c.vout, p.n) == [] {
      UndoesLastSpend(m, p, c);
    } else {
      assert p.n < |SpendAt(c.vout, p.n)| ==> SpendAt(c.vout, p.n)[p.n].IsNull();
      UndoesPartialSpend(m, p, c);
    }
  }

  // ----- all inputs of a transaction -----

  predicate InputsDistinct(vin: seq<TxIn>)
  {
    forall i, j :: 0 <= i < j < |vin| ==> vin[i].prevout != vin[j].prevout
  }

  predicate HaveInputs(m: Utxo, vin: seq<TxIn>)
  {
    forall i :: 0 <= i < |vin| ==> IsAvailable(m, vin[i].prevout)
  }

  predicate Spends(vin: seq<TxIn>, p: OutPoint)
  {
    vin != [] && (vin[|vin| - 1].prevout == p || Spends(vin[..|vin| - 1], p))
  }

  lemma {:induction false} SpendsIffInput(vin: seq<TxIn>, p: OutPoint)
    ensures Spends(vin, p) <==> exists i :: 0 <= i < |vin| && vin[i].prevout == p
  {
    if vin != [] {
      var k := |vin| - 1;
      SpendsIffInput(vin[..k], p);
      if Spends(vin[..k], p) {
        var i :| 0 <= i < k && vin[..k][i].prevout == p;
        assert vin[i].prevout == p;
      }
      if i :| 0 <= i < |vin| && vin[i].prevout == p && i != k {
        assert vin[..k][i].prevout == p;
      }
    }
  }

  /** `m'` is `m` without the outputs that `vin` spends. */
  ghost predicate Removes(m: Utxo, vin: seq<TxIn>, m': Utxo)
  {
    && (forall q :: IsAvailable(m', q) <==> IsAvailable(m, q) && !Spends(vin, q))
    && (forall q :: IsAvailable(m', q) ==> OutputAt(m', q) == OutputAt(m, q))
    && m'.Keys <= m.Keys
  }

  lemma RemovesOneMore(m: Utxo, vin: seq<TxIn>, m1: Utxo)
    requires InputsDistinct(vin) && HaveInputs(m, vin) && vin != []
    requires Removes(m, vin[..|vin| - 1], m1)
    ensures IsAvailable(m1, vin[|vin| - 1].prevout)
    ensures Removes(m, vin, SpendOut(m1, vin[|vin| - 1].prevout).0)
  {
    var k := |vin| - 1;
    var p := vin[k].prevout;
    SpendsIffInput(vin[..k], p);
    forall q
      ensures IsAvailable(SpendOut(m1, p).0, q) <==> q != p && IsAvailable(m1, q)
      ensures IsAvailable(SpendOut(m1, p).0, q) ==> OutputAt(SpendOut(m1, p).0, q) == OutputAt(m1, q)
    {
      SpendOutElsewhere(m1, p, q);
    }
  }

  /** Spends the inputs from first to last. */
  function SpendAll(m: Utxo, vin: seq<TxIn>): (r: (Utxo, TxUndo))
    requires InputsDistinct(vin) && HaveInputs(m, vin)
    ensures |r.1| == |vin|
    ensures Removes(m, vin, r.0)
  {
    if vin == [] then (m, [])
    else
      var k := |vin| - 1;
      var (m1, undos) := SpendAll(m, vin[..k]);
      RemovesOneMore(m, vin, m1);
      var (m2, undo) := SpendOut(m1, vin[k].prevout);
      (m2, undos + [undo])
  }

  /** Puts the inputs back from last to first. */
  function UndoAll(m: Utxo, vin: seq<TxIn>, undos: TxUndo): Option<Utxo>
    requires |undos| == |vin|
    decreases |vin|
  {
    if vin == [] then Some(m)
    else
      var k := |vin| - 1;
      match ApplyTxInUndo(m, undos[k], vin[k].prevout)
      case None => None
      case Some(m1) => UndoAll(m1, vin[..k], undos[..k])
  }

  lemma {:induction false} SpendAllKeepsViewOk(m: Utxo, vin: seq<TxIn>)
    requires ViewOk(m) && InputsDistinct(vin) && HaveInputs(m, vin)
    ensures ViewOk(SpendAll(m, vin).0)
  {
    if vin != [] {
      var k := |vin| - 1;
      SpendAllKeepsViewOk(m, vin[..k]);
      RemovesOneMore(m, vin, SpendAll(m, vin[..k]).0);
      SpendOutKeepsViewOk(SpendAll(m, vin[..k]).0, vin[k].prevout);
    }
  }

  lemma {:induction false} UndoAllUndoesSpendAll(m: Utxo, vin: seq<TxIn>)
    requires ViewOk(m) && InputsDistinct(vin) && HaveInputs(m, vin)
    ensures UndoAll(SpendAll(m, vin).0, vin, SpendAll(m, vin).1) == Some(m)
  {
    if vin != [] {
      var k := |vin| - 1;
      var (m1, undos) := SpendAll(m, vin[..k]);
      RemovesOneMore(m, vin, m1);
      SpendAllKeepsViewOk(m, vin[..k]);
      ApplyUndoesSpend(m1, vin[k].prevout);
      assert SpendAll(m, vin).1[..k] == undos;
      UndoAllUndoesSpendAll(m, vin[..k]);
    }
  }
}
