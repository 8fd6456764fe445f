// What the errors of a refused block mean: each names a rule that the block breaks.
module BlockErrors {
  import opened Wrappers
  import opened Basics
  import opened Sums
  import opened Nonlinear
  import opened Coins
  import opened Ledger
  import opened BlockRules
  import opened UndoProofs
  import opened BlockMeaning

  // ----- one transaction by itself -----

  /** The output at `k` is wrong by itself, or the sum up to it is. */
  ghost predicate OutputWrong(e: Reject, vout: seq<TxOut>, k: nat)
  {
    && k < |vout|
    && match e
       case VoutNegative => vout[k].value < 0
       case VoutTooLarge => vout[k].value > 21_000_000 * 100_000_000
       case VoutTotalTooLarge => !Amount(Sum(ValuesOf(vout[..k + 1])))
       case _ => false
  }

  lemma LastSum(vout: seq<TxOut>)
    requires vout != []
    ensures Sum(ValuesOf(vout)) == Sum(ValuesOf(vout[..|vout| - 1])) + vout[|vout| - 1].value
  {
    assert ValuesOf(vout)[..|vout| - 1] == ValuesOf(vout[..|vout| - 1]);
  }

  lemma {:induction false} OutputTotalError(vout: seq<TxOut>) returns (k: nat)
    requires OutputTotal(vout).Err?
    ensures OutputWrong(OutputTotal(vout).error, vout, k)
  {
    var n := |vout| - 1;
    if OutputTotal(vout[..n]).Err? {
      k := OutputTotalError(vout[..n]);
      assert vout[..n][..k + 1] == vout[..k + 1];
    } else {
      k := n;
      OutputTotalExact(vout[..n]);
      LastSum(vout);
      assert vout[..n + 1] == vout;
    }
  }

  predicate IsNullPoint(p: OutPoint)
  {
    p == OutPoint(0, 0xffff_ffff)
  }

  /** The rule that a transaction breaks by itself. */
  ghost predicate BreaksAlone(e: Reject, tx: Tx)
  {
    match e
    case VinEmpty => tx.vin == []
    case VoutEmpty => tx.vout == []
    case Oversize => tx.size > 1_000_000
    case DuplicateInputs => exists i, j :: 0 <= i < j < |tx.vin| && tx.vin[i].prevout == tx.vin[j].prevout
    case CoinbaseScriptSize => IsMint(tx) && !(2 <= |tx.vin[0].scriptSig| <= 100)
    case PrevoutNull => !IsMint(tx) && exists i :: 0 <= i < |tx.vin| && IsNullPoint(tx.vin[i].prevout)
    case _ => exists k :: OutputWrong(e, tx.vout, k)
  }

  lemma TransactionErrorMeans(tx: Tx)
    requires TransactionError(tx).Some?
    ensures BreaksAlone(TransactionError(tx).value, tx)
  {
    if OutputTotal(tx.vout).Err? {
      var k := OutputTotalError(tx.vout);
    }
    hide OutputTotal, OutputWrong;
  }

  lemma {:induction false} FirstErrorAt(vtx: seq<Tx>) returns (i: nat)
    requires FirstTransactionError(vtx).Some?
    ensures i < |vtx| && TransactionError(vtx[i]) == FirstTransactionError(vtx)
  {
    var k := |vtx| - 1;
    if FirstTransactionError(vtx[..k]).Some? {
      i := FirstErrorAt(vtx[..k]);
    } else {
      i := k;
    }
  }

  // ----- inputs -----

  /** A coinbase that is not a hundred blocks deep. */
  ghost predicate Shallow(coin: Option<Unspent>, height: int)
  {
    coin.Some? && coin.value.coinbase && height - coin.value.height < 100
  }

  /** What is wrong with spending the coins. */
  ghost predicate SpendWrong(e: Reject, coins: seq<Option<Unspent>>, tx: Tx, height: int)
  {
    match e
    case InputsMissingOrSpent => exists j :: 0 <= j < |coins| && coins[j].None?
    case PrematureSpendOfCoinbase => exists j :: 0 <= j < |coins| && Shallow(coins[j], height)
    case InputValuesOutOfRange => !AmountsAddUp(InValues(coins))
    case InBelowOut => Left(coins, tx) < 0
    case FeeOutOfRange => Left(coins, tx) > 21_000_000 * 100_000_000
    case _ => false
  }

  lemma {:induction false} ScanError(m: Utxo, vin: seq<TxIn>, height: int) returns (j: nat)
    requires HaveInputs(m, vin) && ScanInputs(m, vin, height).Err?
    ensures match ScanInputs(m, vin, height).error
            case PrematureSpendOfCoinbase => j < |vin| && Shallow(Looks(m, vin)[j], height)
            case InputValuesOutOfRange => !AmountsAddUp(InValues(Looks(m, vin)))
            case _ => false
  {
    var k := |vin| - 1;
    LooksPrefix(m, vin);
    var values := InValues(Looks(m, vin));
    assert values[..k] == InValues(Looks(m, vin[..k]));
    AmountsPrefix(values);
    AvailableIffLook(m, vin[k].prevout);
    hide AmountsAddUp, InValues;
    if ScanInputs(m, vin[..k], height).Err? {
      j := ScanError(m, vin[..k], height);
      hide Look, Shallow;
      assert j < k ==> Looks(m, vin)[j] == Looks(m, vin[..k])[j];
    } else {
      j := k;
      ScanInputsExact(m, vin[..k], height);
    }
  }

  lemma CheckTxInputsError(m: Utxo, tx: Tx, height: int)
    requires OutputTotal(tx.vout).Ok? && CheckTxInputs(m, tx, height).Err?
    ensures SpendWrong(CheckTxInputs(m, tx, height).error, Looks(m, tx.vin), tx, height)
  {
    InputsLook(m, tx.vin);
    OutputTotalExact(tx.vout);
    if HaveInputs(m, tx.vin) {
      if ScanInputs(m, tx.vin, height).Err? {
        var j := ScanError(m, tx.vin, height);
      } else {
        ScanInputsExact(m, tx.vin, height);
      }
    }
    hide Looks, InValues, OutputTotal, ScanInputs, ValuesOf, AmountsAddUp, HaveInputs;
  }

  // ----- the whole block -----

  lemma {:induction false} ConnectTxsError(m: Utxo, vtx: seq<Tx>, height: int) returns (i: nat)
    requires InputsDistinctInBlock(vtx) && CoinbaseFirst(vtx) && CollisionFree(vtx)
    requires (forall i :: 0 <= i < |vtx| ==> vtx[i].vin != []) && ViewOk(m) && height > 0 && OverwritesNothing(m, vtx)
    requires ConnectTxs(m, vtx, height).Err?
    ensures 0 < i < |vtx| && SpendWrong(ConnectTxs(m, vtx, height).error, CoinsFor(m, vtx, height, i), vtx[i], height)
    decreases |vtx|
  {
    hide SpendWrong, CoinsFor, Looks, CheckTxInputs, UpdateCoins, ViewOk, OutputTotal, InputsDistinct;
    var k := |vtx| - 1;
    CoinbaseFirstPrefix(vtx, k);
    assert InputsDistinctInBlock(vtx[..k]) && OverwritesNothing(m, vtx[..k]) && CollisionFree(vtx[..k]);
    if ConnectTxs(m, vtx[..k], height).Err? {
      i := ConnectTxsError(m, vtx[..k], height);
      CoinsForPrefix(m, vtx, height, i);
    } else {
      i := k;
      DistinctWhenConnected(m, vtx[..k], height);
      NextCoins(m, vtx, height);
      CheckTxInputsError(ConnectTxs(m, vtx[..k], height).value.utxo, vtx[k], height);
    }
  }

  ghost predicate SpendWrongAt(e: Reject, m: Utxo, vtx: seq<Tx>, height: int, i: int)
  {
    0 < i < |vtx| && SpendWrong(e, CoinsFor(m, vtx, height, i), vtx[i], height)
  }

  ghost predicate BreaksAloneAt(e: Reject, vtx: seq<Tx>, i: int)
  {
    0 <= i < |vtx| && BreaksAlone(e, vtx[i])
  }

  /** The rule that a block breaks. */
  ghost predicate Breaks(e: Reject, m: Utxo, vtx: seq<Tx>, height: nat, interval: int, scriptsOk: bool)
    requires interval > 0
  {
    match e
    case BlockLength => vtx == [] || |vtx| > 1_000_000 || 80 + GetSizeOfCompactSize(|vtx|) + Sum(Sizes(vtx)) > 1_000_000
    case CoinbaseMissing => vtx != [] && !IsMint(vtx[0])
    case CoinbaseMultiple => exists i :: 0 < i < |vtx| && IsMint(vtx[i])
    case TooManySigOps => Sum(SigOps(vtx)) > 20_000
    case OverwritesUnspent => exists i :: 0 <= i < |vtx| && vtx[i].hash in m
    case CoinbasePaysTooMuch =>
      && vtx != []
      && Sum(ValuesOf(vtx[0].vout)) > Sum(Fees(m, vtx, height)) + if height / interval < 64 then 50 * 100_000_000 / Pow2(height / interval) else 0
    case ScriptFailed => !scriptsOk
    case _ => (exists i :: BreaksAloneAt(e, vtx, i)) || exists i :: SpendWrongAt(e, m, vtx, height, i)
  }

  // The rules for a transaction by itself have errors of their own.
  lemma AloneIsOther(e: Reject, tx: Tx)
    requires BreaksAlone(e, tx)
    ensures e !in {BlockLength, CoinbaseMissing, CoinbaseMultiple, TooManySigOps, OverwritesUnspent, CoinbasePaysTooMuch, ScriptFailed}
  {
  }

  lemma BlockErrorMeans(m: Utxo, vtx: seq<Tx>, height: nat, interval: int, scriptsOk: bool)
    requires interval > 0 && BlockError(vtx).Some?
    ensures Breaks(BlockError(vtx).value, m, vtx, height, interval, scriptsOk)
  {
    TotalsAreSums(vtx);
    if vtx != [] && vtx[0].IsCoinbase() && CoinbaseFirst(vtx) && FirstTransactionError(vtx).Some? {
      var i := FirstErrorAt(vtx);
      TransactionErrorMeans(vtx[i]);
      AloneIsOther(TransactionError(vtx[i]).value, vtx[i]);
      assert BreaksAloneAt(TransactionError(vtx[i]).value, vtx, i);
    }
    hide TransactionError, FirstTransactionError, BreaksAlone, TotalSize, TotalSigOps, Sum, SpendWrongAt;
  }

  lemma SpendIsOther(e: Reject, coins: seq<Option<Unspent>>, tx: Tx, height: int)
    requires SpendWrong(e, coins, tx, height)
    ensures e !in {BlockLength, CoinbaseMissing, CoinbaseMultiple, TooManySigOps, OverwritesUnspent, CoinbasePaysTooMuch, ScriptFailed}
  {
  }

  lemma SpendErrorMeans(m: Utxo, vtx: seq<Tx>, height: nat, interval: int, scriptsOk: bool)
    requires ViewOk(m) && height > 0 && interval > 0 && CollisionFree(vtx) && BlockOk(vtx) && OverwritesNothing(m, vtx)
    requires InputsDistinctInBlock(vtx) && ConnectTxs(m, vtx, height).Err?
    ensures Breaks(ConnectTxs(m, vtx, height).error, m, vtx, height, interval, scriptsOk)
  {
    FitsParts(vtx);
    var i := ConnectTxsError(m, vtx, height);
    var e := ConnectTxs(m, vtx, height).error;
    SpendIsOther(e, CoinsFor(m, vtx, height, i), vtx[i], height);
    assert SpendWrongAt(e, m, vtx, height, i);
    hide SpendWrong, SpendWrongAt, ConnectTxs, BreaksAloneAt, Fees, Sum;
  }

  /** Which check the error of a block comes from. */
  lemma WhereRefused(m: Utxo, vtx: seq<Tx>, height: nat, interval: int, scriptsOk: bool)
    requires interval > 0 && ConnectBlock(m, vtx, height, interval, scriptsOk).Err?
    ensures var e := ConnectBlock(m, vtx, height, interval, scriptsOk).error;
            if BlockError(vtx).Some? then e == BlockError(vtx).value
            else if !OverwritesNothing(m, vtx) then e == OverwritesUnspent
            else
              && BlockOk(vtx) && InputsDistinctInBlock(vtx) && vtx != []
              && if ConnectTxs(m, vtx, height).Err? then e == ConnectTxs(m, vtx, height).error
                 else if OutputTotal(vtx[0].vout).Ok? && OutputTotal(vtx[0].vout).value > ConnectTxs(m, vtx, height).value.fees + Subsidy(height, interval)
                 then e == CoinbasePaysTooMuch
                 else !scriptsOk && e == ScriptFailed
  {
    BlockOkIffNoError(vtx);
    if BlockOk(vtx) {
      FitsParts(vtx);
    }
    hide BlockError, ConnectTxs, Subsidy, OutputTotal, InputsDistinct, BlockOk;
  }

  lemma OverwriteMeans(m: Utxo, vtx: seq<Tx>, height: nat, interval: int, scriptsOk: bool)
    requires interval > 0 && !OverwritesNothing(m, vtx)
    ensures Breaks(OverwritesUnspent, m, vtx, height, interval, scriptsOk)
  {
  }

  lemma ScriptMeans(m: Utxo, vtx: seq<Tx>, height: nat, interval: int, scriptsOk: bool)
    requires interval > 0 && !scriptsOk
    ensures Breaks(ScriptFailed, m, vtx, height, interval, scriptsOk)
  {
  }

  lemma PaysTooMuchMeans(m: Utxo, vtx: seq<Tx>, height: nat, interval: int, scriptsOk: bool)
    requires ViewOk(m) && height > 0 && interval > 0 && CollisionFree(vtx) && BlockOk(vtx) && OverwritesNothing(m, vtx)
    requires InputsDistinctInBlock(vtx) && ConnectTxs(m, vtx, height).Ok? && vtx != [] && OutputTotal(vtx[0].vout).Ok?
    requires OutputTotal(vtx[0].vout).value > ConnectTxs(m, vtx, height).value.fees + Subsidy(height, interval)
    ensures Breaks(CoinbasePaysTooMuch, m, vtx, height, interval, scriptsOk)
  {
    FitsParts(vtx);
    hide ConnectTxs, Fees, Sum, ValuesOf, Subsidy, OutputTotal, ViewOk, Pow2, AllMaySpend, BlockOk;
    ConnectTxsExact(m, vtx, height);
    SubsidyExact(height, interval);
    OutputTotalExact(vtx[0].vout);
  }

  // Main result on errors: whatever a block is refused with, it breaks that rule.
  lemma ErrorMeans(m: Utxo, vtx: seq<Tx>, height: nat, interval: int, scriptsOk: bool)
    requires ViewOk(m) && height > 0 && interval > 0 && CollisionFree(vtx)
    requires ConnectBlock(m, vtx, height, interval, scriptsOk).Err?
    ensures Breaks(ConnectBlock(m, vtx, height, interval, scriptsOk).error, m, vtx, height, interval, scriptsOk)
  {
    hide *;
    WhereRefused(m, vtx, height, interval, scriptsOk);
    if BlockError(vtx).Some? {
      BlockErrorMeans(m, vtx, height, interval, scriptsOk);
    } else if !OverwritesNothing(m, vtx) {
      OverwriteMeans(m, vtx, height, interval, scriptsOk);
    } else if ConnectTxs(m, vtx, height).Err? {
      SpendErrorMeans(m, vtx, height, interval, scriptsOk);
    } else if OutputTotal(vtx[0].vout).Ok? && OutputTotal(vtx[0].vout).value > ConnectTxs(m, vtx, height).value.fees + Subsidy(height, interval) {
      PaysTooMuchMeans(m, vtx, height, interval, scriptsOk);
    } else {
      ScriptMeans(m, vtx, height, interval, scriptsOk);
    }
  }
}
