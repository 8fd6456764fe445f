// The rules a block must meet to be connected, and what connecting and
// disconnecting it do to the set of unspent outputs.
module BlockRules {
  import opened Wrappers
  import opened Basics
  import opened Coins
  import opened Ledger

  const COINBASE_MATURITY := 100

  datatype Reject =
    | VinEmpty | VoutEmpty | Oversize | VoutNegative | VoutTooLarge | VoutTotalTooLarge | DuplicateInputs
    | CoinbaseScriptSize | PrevoutNull
    | BlockLength | CoinbaseMissing | CoinbaseMultiple | TooManySigOps
    | OverwritesUnspent
    | InputsMissingOrSpent | PrematureSpendOfCoinbase | InputValuesOutOfRange
    | InBelowOut | FeeOutOfRange
    | CoinbasePaysTooMuch | ScriptFailed

  // ----- one transaction by itself -----

  /** The sum of the outputs; an error as soon as a value or a partial sum leaves the money range. */
  function OutputTotal(vout: seq<TxOut>): Result<int, Reject>
  {
    if vout == [] then Ok(0)
    else
      var k := |vout| - 1;
      match OutputTotal(vout[..k])
      case Err(e) => Err(e)
      case Ok(total) =>
        if vout[k].value < 0 then Err(VoutNegative)
        else if vout[k].value > MAX_MONEY then Err(VoutTooLarge)
        else if !MoneyRange(total + vout[k].value) then Err(VoutTotalTooLarge)
        else Ok(total + vout[k].value)
  }

  lemma {:induction false} OutputTotalIsValue(vout: seq<TxOut>)
    requires OutputTotal(vout).Ok?
    ensures OutputTotal(vout).value == OutsValue(vout)
    ensures MoneyRange(OutsValue(vout)) && ValuesInRange(vout)
    ensures forall i :: 0 <= i < |vout| ==> !vout[i].IsNull()
  {
    if vout != [] {
      OutputTotalIsValue(vout[..|vout| - 1]);
    }
  }

  lemma {:induction false} OutputTotalPrefix(vout: seq<TxOut>, n: nat)
    requires n <= |vout|
    ensures OutputTotal(vout[..n]).Err? ==> OutputTotal(vout) == OutputTotal(vout[..n])
    decreases |vout|
  {
    if n == |vout| {
      assert vout[..n] == vout;
    } else {
      var k := |vout| - 1;
      OutputTotalPrefix(vout[..k], n);
      assert vout[..k][..n] == vout[..n];
    }
  }

  const MAX_BLOCK_SIGOPS := 20_000

  ghost function TransactionError(tx: Tx): Option<Reject>
  {
    if tx.vin == [] then Some(VinEmpty)
    else if tx.vout == [] then Some(VoutEmpty)
    else if tx.size > MAX_BLOCK_SIZE then Some(Oversize)
    else if OutputTotal(tx.vout).Err? then Some(OutputTotal(tx.vout).error)
    else if !InputsDistinct(tx.vin) then Some(DuplicateInputs)
    else if tx.IsCoinbase() then
      if 2 <= |tx.vin[0].scriptSig| <= 100 then None else Some(CoinbaseScriptSize)
    else if exists i :: 0 <= i < |tx.vin| && tx.vin[i].prevout.IsNull() then Some(PrevoutNull)
    else None
  }

  // ----- the transactions of a block, without looking at the view -----

  predicate CoinbaseFirst(vtx: seq<Tx>)
  {
    forall i :: 0 <= i < |vtx| ==> (vtx[i].IsCoinbase() <==> i == 0)
  }

  function TotalSize(vtx: seq<Tx>): nat
  {
    if vtx == [] then 0 else TotalSize(vtx[..|vtx| - 1]) + vtx[|vtx| - 1].size
  }

  function TotalSigOps(vtx: seq<Tx>): nat
  {
    if vtx == [] then 0 else TotalSigOps(vtx[..|vtx| - 1]) + vtx[|vtx| - 1].sigOps
  }

  const HEADER_SIZE := 80

  function BlockSize(vtx: seq<Tx>): nat
  {
    HEADER_SIZE + GetSizeOfCompactSize(|vtx|) + TotalSize(vtx)
  }

  ghost predicate BlockOk(vtx: seq<Tx>)
  {
    && vtx != [] && |vtx| <= MAX_BLOCK_SIZE && BlockSize(vtx) <= MAX_BLOCK_SIZE
    && CoinbaseFirst(vtx)
    && (forall i :: 0 <= i < |vtx| ==> TransactionError(vtx[i]).None?)
    && TotalSigOps(vtx) <= MAX_BLOCK_SIGOPS
  }

  ghost function FirstTransactionError(vtx: seq<Tx>): Option<Reject>
  {
    if vtx == [] then None
    else
      match FirstTransactionError(vtx[..|vtx| - 1])
      case Some(e) => Some(e)
      case None => TransactionError(vtx[|vtx| - 1])
  }

  ghost function BlockError(vtx: seq<Tx>): Option<Reject>
  {
    if vtx == [] || |vtx| > MAX_BLOCK_SIZE || BlockSize(vtx) > MAX_BLOCK_SIZE then Some(BlockLength)
    else if !vtx[0].IsCoinbase() then Some(CoinbaseMissing)
    else if !CoinbaseFirst(vtx) then Some(CoinbaseMultiple)
    else if FirstTransactionError(vtx).Some? then FirstTransactionError(vtx)
    else if TotalSigOps(vtx) > MAX_BLOCK_SIGOPS then Some(TooManySigOps)
    else None
  }

  lemma {:induction false} NoErrorIffAllOk(vtx: seq<Tx>)
    ensures FirstTransactionError(vtx).None? <==> forall i :: 0 <= i < |vtx| ==> TransactionError(vtx[i]).None?
  {
    if vtx != [] {
      var k := |vtx| - 1;
      NoErrorIffAllOk(vtx[..k]);
      assert (forall i :: 0 <= i < |vtx| ==> TransactionError(vtx[i]).None?) <==>
             (forall i :: 0 <= i < k ==> TransactionError(vtx[..k][i]).None?) && TransactionError(vtx[k]).None?;
    }
  }

  lemma BlockOkIffNoError(vtx: seq<Tx>)
    ensures BlockOk(vtx) <==> BlockError(vtx).None?
  {
    NoErrorIffAllOk(vtx);
  }

  predicate TxidsDistinct(vtx: seq<Tx>)
  {
    forall i, j :: 0 <= i < j < |vtx| ==> vtx[i].hash != vtx[j].hash
  }

  // ----- one transaction against the view -----

  function ValueIn(m: Utxo, vin: seq<TxIn>): int
    requires HaveInputs(m, vin)
  {
    if vin == [] then 0
    else ValueIn(m, vin[..|vin| - 1]) + OutputAt(m, vin[|vin| - 1].prevout).value
  }

  /** Walks the inputs in order; the first one that is immature or out of range decides the error. */
  function ScanInputs(m: Utxo, vin: seq<TxIn>, height: int): Result<int, Reject>
    requires HaveInputs(m, vin)
  {
    if vin == [] then Ok(0)
    else
      var k := |vin| - 1;
      match ScanInputs(m, vin[..k], height)
      case Err(e) => Err(e)
      case Ok(total) =>
        var p := vin[k].prevout;
        var value := OutputAt(m, p).value;
        if m[p.hash].coinbase && height - m[p.hash].height < COINBASE_MATURITY then Err(PrematureSpendOfCoinbase)
        else if !MoneyRange(value) || !MoneyRange(total + value) then Err(InputValuesOutOfRange)
        else Ok(total + value)
  }

  /** The fee, or why the inputs are refused. */
  function CheckTxInputs(m: Utxo, tx: Tx, height: int): Result<int, Reject>
    requires OutputTotal(tx.vout).Ok?
  {
    if !HaveInputs(m, tx.vin) then Err(InputsMissingOrSpent)
    else
      match ScanInputs(m, tx.vin, height)
      case Err(e) => Err(e)
      case Ok(total) =>
        var fee := total - OutputTotal(tx.vout).value;
        if fee < 0 then Err(InBelowOut)
        else if !MoneyRange(fee) then Err(FeeOutOfRange)
        else Ok(fee)
  }

  lemma {:induction false} ScanInputsFacts(m: Utxo, vin: seq<TxIn>, height: int)
    requires HaveInputs(m, vin) && ScanInputs(m, vin, height).Ok?
    ensures ScanInputs(m, vin, height).value == ValueIn(m, vin)
    ensures forall i :: 0 <= i < |vin| ==>
              !m[vin[i].prevout.hash].coinbase || height - m[vin[i].prevout.hash].height >= COINBASE_MATURITY
  {
    if vin != [] {
      ScanInputsFacts(m, vin[..|vin| - 1], height);
    }
  }

  lemma {:induction false} ScanInputsPrefix(m: Utxo, vin: seq<TxIn>, height: int, n: nat)
    requires HaveInputs(m, vin) && n <= |vin|
    ensures ScanInputs(m, vin[..n], height).Err? ==> ScanInputs(m, vin, height) == ScanInputs(m, vin[..n], height)
    decreases |vin|
  {
    if n == |vin| {
      assert vin[..n] == vin;
    } else {
      ScanInputsPrefix(m, vin[..|vin| - 1], height, n);
      assert vin[..|vin| - 1][..n] == vin[..n];
    }
  }

  // ----- updating the view -----

  /** The view and the undo data after a transaction: inputs spent, outputs added. */
  function UpdateCoins(m: Utxo, tx: Tx, height: int): (Utxo, TxUndo)
    requires !tx.IsCoinbase() ==> InputsDistinct(tx.vin) && HaveInputs(m, tx.vin)
  {
    var (m1, undo) := if tx.IsCoinbase() then (m, []) else SpendAll(m, tx.vin);
    (Put(m1, tx.hash, FromTx(tx, height)), undo)
  }

  datatype Progress = Progress(utxo: Utxo, fees: int, undo: seq<TxUndo>)

  predicate InputsDistinctInBlock(vtx: seq<Tx>)
  {
    forall i :: 0 <= i < |vtx| ==> InputsDistinct(vtx[i].vin) && OutputTotal(vtx[i].vout).Ok?
  }

  /** The `i`th transaction of a block. */
  function ConnectTx(st: Progress, tx: Tx, i: nat, height: int): Result<Progress, Reject>
    requires InputsDistinct(tx.vin) && OutputTotal(tx.vout).Ok?
  {
    if tx.IsCoinbase() then
      var (m', undo) := UpdateCoins(st.utxo, tx, height);
      Ok(Progress(m', st.fees, if i == 0 then st.undo else st.undo + [undo]))
    else
      match CheckTxInputs(st.utxo, tx, height)
      case Err(e) => Err(e)
      case Ok(fee) =>
        var (m', undo) := UpdateCoins(st.utxo, tx, height);
        Ok(Progress(m', st.fees + fee, if i == 0 then st.undo else st.undo + [undo]))
  }

  function ConnectTxs(m: Utxo, vtx: seq<Tx>, height: int): Result<Progress, Reject>
    requires InputsDistinctInBlock(vtx)
    decreases |vtx|
  {
    if vtx == [] then Ok(Progress(m, 0, []))
    else
      var k := |vtx| - 1;
      match ConnectTxs(m, vtx[..k], height)
      case Err(e) => Err(e)
      case Ok(st) => ConnectTx(st, vtx[k], k, height)
  }

  /** `value >> k` for a non-negative value. */
  function ShiftRight(value: nat, k: nat): nat
  {
    if k == 0 then value else ShiftRight(value, k - 1) / 2
  }

  function Subsidy(height: nat, interval: int): nat
    requires interval > 0
  {
    if height / interval >= 64 then 0 else ShiftRight(50 * COIN, height / interval)
  }

  predicate OverwritesNothing(m: Utxo, vtx: seq<Tx>)
  {
    forall i :: 0 <= i < |vtx| ==> vtx[i].hash !in m
  }

  /** Connecting a block above genesis; `scriptsOk` is the verdict of its script checks. */
  ghost function ConnectBlock(m: Utxo, vtx: seq<Tx>, height: nat, interval: int, scriptsOk: bool): Result<Progress, Reject>
    requires interval > 0
  {
    if BlockError(vtx).Some? then Err(BlockError(vtx).value)
    else if !OverwritesNothing(m, vtx) then Err(OverwritesUnspent)
    else
      assert InputsDistinctInBlock(vtx) by { BlockOkIffNoError(vtx); }
      match ConnectTxs(m, vtx, height)
      case Err(e) => Err(e)
      case Ok(st) =>
        assert OutputTotal(vtx[0].vout).Ok? by { assert InputsDistinctInBlock(vtx); }
        if OutputTotal(vtx[0].vout).value > st.fees + Subsidy(height, interval) then Err(CoinbasePaysTooMuch)
        else if !scriptsOk then Err(ScriptFailed)
        else Ok(st)
  }

  // ----- disconnecting -----

  /** The view holds exactly the spendable outputs of the transaction; a negative version is not compared. */
  predicate HoldsOutputs(m: Utxo, tx: Tx, height: int)
  {
    var outs := if tx.hash in m then m[tx.hash] else EMPTY_COINS;
    var cleared := outs.(vout := Trim(WithoutUnspendable(outs.vout)));
    var expected := FromTx(tx, height);
    (if expected.version < 0 then cleared.(version := expected.version) else cleared).Same(expected)
  }

  /** `None` when the view does not hold the outputs of the transaction, or the undo data does not fit. */
  function DisconnectTx(m: Utxo, tx: Tx, undo: Option<TxUndo>, height: int): Option<Utxo>
    requires undo.Some? ==> |undo.value| == |tx.vin|
  {
    if !HoldsOutputs(m, tx, height) then None
    else if undo.None? then Some(m - {tx.hash})
    else UndoAll(m - {tx.hash}, tx.vin, undo.value)
  }

  predicate UndoFits(vtx: seq<Tx>, undo: seq<TxUndo>)
  {
    && |undo| + 1 == |vtx|
    && forall i :: 0 < i < |vtx| ==> |undo[i - 1]| == |vtx[i].vin|
  }

  /** Undoes the transactions from last to first. */
  function DisconnectTxs(m: Utxo, vtx: seq<Tx>, undo: seq<TxUndo>, height: int): Option<Utxo>
    requires vtx != [] ==> UndoFits(vtx, undo)
    decreases |vtx|
  {
    if vtx == [] then Some(m)
    else
      var k := |vtx| - 1;
      match DisconnectTx(m, vtx[k], if k == 0 then None else Some(undo[k - 1]), height)
      case None => None
      case Some(m1) => DisconnectTxs(m1, vtx[..k], if k == 0 then [] else undo[..k - 1], height)
  }
}
