// Checking, connecting and disconnecting blocks on a layered view.  Every
// method here is tied to the functions of `Ledger` and `BlockRules` on the
// plain map that the view stands for.
module ChainState {
  import opened Wrappers
  import opened Basics
  import opened Coins
  import opened Ledger
  import opened BlockRules
  import opened CoinsCache

  // ----- checks that look at no view -----

  method GetValueOut(vout: seq<TxOut>) returns (r: Result<int, Reject>)
    ensures r == OutputTotal(vout)
  {
    var total := 0;
    for i := 0 to |vout|
      invariant OutputTotal(vout[..i]) == Ok(total)
    {
      assert vout[..i + 1][..i] == vout[..i];
      OutputTotalPrefix(vout, i + 1);
      if vout[i].value < 0 {
        return Err(VoutNegative);
      }
      if vout[i].value > MAX_MONEY {
        return Err(VoutTooLarge);
      }
      total := total + vout[i].value;
      if !MoneyRange(total) {
        return Err(VoutTotalTooLarge);
      }
    }
    assert vout[..|vout|] == vout;
    r := Ok(total);
  }

  method CheckTransaction(tx: Tx) returns (r: Option<Reject>)
    ensures r == TransactionError(tx)
  {
    if tx.vin == [] {
      return Some(VinEmpty);
    }
    if tx.vout == [] {
      return Some(VoutEmpty);
    }
    if tx.size > MAX_BLOCK_SIZE {
      return Some(Oversize);
    }
    var total := GetValueOut(tx.vout);
    if total.Err? {
      return Some(total.error);
    }
    var seen: set<OutPoint> := {};
    for i := 0 to |tx.vin|
      invariant forall p :: p in seen <==> exists j :: 0 <= j < i && tx.vin[j].prevout == p
      invariant InputsDistinct(tx.vin[..i])
    {
      if tx.vin[i].prevout in seen {
        return Some(DuplicateInputs);
      }
      seen := seen + {tx.vin[i].prevout};
    }
    assert tx.vin[..|tx.vin|] == tx.vin;
    if tx.IsCoinbase() {
      if |tx.vin[0].scriptSig| < 2 || |tx.vin[0].scriptSig| > 100 {
        return Some(CoinbaseScriptSize);
      }
    } else {
      for i := 0 to |tx.vin|
        invariant forall j :: 0 <= j < i ==> !tx.vin[j].prevout.IsNull()
      {
        if tx.vin[i].prevout.IsNull() {
          return Some(PrevoutNull);
        }
      }
    }
    r := None;
  }

  method GetBlockSize(vtx: seq<Tx>) returns (size: nat)
    ensures size == BlockSize(vtx)
  {
    size := HEADER_SIZE + GetSizeOfCompactSize(|vtx|);
    for i := 0 to |vtx|
      invariant size == HEADER_SIZE + GetSizeOfCompactSize(|vtx|) + TotalSize(vtx[..i])
    {
      assert vtx[..i + 1][..i] == vtx[..i];
      size := size + vtx[i].size;
    }
    assert vtx[..|vtx|] == vtx;
  }

  lemma {:induction false} FirstErrorOfPrefix(vtx: seq<Tx>, n: nat)
    requires n <= |vtx| && FirstTransactionError(vtx[..n]).Some?
    ensures FirstTransactionError(vtx) == FirstTransactionError(vtx[..n])
    decreases |vtx|
  {
    if n == |vtx| {
      assert vtx[..n] == vtx;
    } else {
      assert vtx[..|vtx| - 1][..n] == vtx[..n];
      FirstErrorOfPrefix(vtx[..|vtx| - 1], n);
    }
  }

  method CheckBlock(vtx: seq<Tx>) returns (r: Option<Reject>)
    ensures r == BlockError(vtx)
  {
    if vtx == [] || |vtx| > MAX_BLOCK_SIZE {
      return Some(BlockLength);
    }
    var size := GetBlockSize(vtx);
    if size > MAX_BLOCK_SIZE {
      return Some(BlockLength);
    }
    if !vtx[0].IsCoinbase() {
      return Some(CoinbaseMissing);
    }
    for i := 1 to |vtx|
      invariant forall j :: 1 <= j < i ==> !vtx[j].IsCoinbase()
    {
      if vtx[i].IsCoinbase() {
        return Some(CoinbaseMultiple);
      }
    }
    for i := 0 to |vtx|
      invariant FirstTransactionError(vtx[..i]).None?
    {
      assert vtx[..i + 1][..i] == vtx[..i];
      r := CheckTransaction(vtx[i]);
      if r.Some? {
        FirstErrorOfPrefix(vtx, i + 1);
        return;
      }
    }
    var nSigOps := 0;
    for i := 0 to |vtx|
      invariant nSigOps == TotalSigOps(vtx[..i])
    {
      assert vtx[..i + 1][..i] == vtx[..i];
      nSigOps := nSigOps + vtx[i].sigOps;
    }
    assert vtx[..|vtx|] == vtx;
    r := if nSigOps > MAX_BLOCK_SIGOPS then Some(TooManySigOps) else None;
  }

  // ----- reading the view -----

  /** A record that describes `k` in a map answers the same about every output. */
  lemma DescribedAvailability(m: Utxo, k: Hash, c: Coins)
    requires Describes(m, k, c)
    ensures forall n: nat :: c.IsAvailable(n) <==> k in m && m[k].IsAvailable(n)
  {
  }

  method HasInputs(view: CoinsViewCache, tx: Tx) returns (ok: bool)
    requires view.Valid()
    modifies view.Repr
    ensures view.Valid() && view.Meaning == old(view.Meaning) && view.Best == old(view.Best)
    ensures view.hashBlock == old(view.hashBlock)
    ensures view.Base() == old(view.Base()) && view.BaseBest() == old(view.BaseBest())
    ensures ok <==> tx.IsCoinbase() || HaveInputs(view.Meaning, tx.vin)
  {
    hide CoinsViewCache.Valid, CoinsViewCache.Base, CoinsViewCache.BaseBest;
    if !tx.IsCoinbase() {
      for i := 0 to |tx.vin|
        invariant view.Valid() && view.Meaning == old(view.Meaning) && view.Best == old(view.Best)
        invariant view.hashBlock == old(view.hashBlock)
        invariant view.Base() == old(view.Base()) && view.BaseBest() == old(view.BaseBest())
        invariant forall j :: 0 <= j < i ==> IsAvailable(view.Meaning, tx.vin[j].prevout)
      {
        var prevout := tx.vin[i].prevout;
        var coins := view.FetchCoins(prevout.hash);
        if coins.Some? {
          DescribedAvailability(view.Meaning, prevout.hash, coins.value);
        }
        if coins.None? || !coins.value.IsAvailable(prevout.n) {
          return false;
        }
      }
    }
    ok := true;
  }

  method GetValueIn(view: CoinsViewCache, tx: Tx) returns (total: int)
    requires view.Valid() && (tx.IsCoinbase() || HaveInputs(view.Meaning, tx.vin))
    modifies view.Repr
    ensures view.Valid() && view.Meaning == old(view.Meaning) && view.Best == old(view.Best)
    ensures view.hashBlock == old(view.hashBlock)
    ensures view.Base() == old(view.Base()) && view.BaseBest() == old(view.BaseBest())
    ensures total == if tx.IsCoinbase() then 0 else ValueIn(view.Meaning, tx.vin)
  {
    hide CoinsViewCache.Valid, CoinsViewCache.Base, CoinsViewCache.BaseBest;
    total := 0;
    if tx.IsCoinbase() {
      return;
    }
    for i := 0 to |tx.vin|
      invariant view.Valid() && view.Meaning == old(view.Meaning) && view.Best == old(view.Best)
      invariant view.hashBlock == old(view.hashBlock)
      invariant view.Base() == old(view.Base()) && view.BaseBest() == old(view.BaseBest())
      invariant total == ValueIn(view.Meaning, tx.vin[..i])
    {
      var prevout := tx.vin[i].prevout;
      assert IsAvailable(view.Meaning, prevout);
      var coins := view.FetchCoins(prevout.hash);
      assert tx.vin[..i + 1][..i] == tx.vin[..i];
      total := total + coins.value.vout[prevout.n].value;
    }
    assert tx.vin[..|tx.vin|] == tx.vin;
  }

  /** `None` when the inputs are fine. */
  method InputsError(view: CoinsViewCache, tx: Tx, height: int) returns (r: Option<Reject>)
    requires view.Valid() && !tx.IsCoinbase() && OutputTotal(tx.vout).Ok?
    modifies view.Repr
    ensures view.Valid() && view.Meaning == old(view.Meaning) && view.Best == old(view.Best)
    ensures view.hashBlock == old(view.hashBlock)
    ensures view.Base() == old(view.Base()) && view.BaseBest() == old(view.BaseBest())
    ensures match CheckTxInputs(view.Meaning, tx, height)
            case Err(e) => r == Some(e)
            case Ok(_) => r == None
  {
    hide CoinsViewCache.Valid, CoinsViewCache.Base, CoinsViewCache.BaseBest;
    var have := HasInputs(view, tx);
    if !have {
      return Some(InputsMissingOrSpent);
    }
    var valueIn := 0;
    for i := 0 to |tx.vin|
      invariant view.Valid() && view.Meaning == old(view.Meaning) && view.Best == old(view.Best)
      invariant view.hashBlock == old(view.hashBlock)
      invariant view.Base() == old(view.Base()) && view.BaseBest() == old(view.BaseBest())
      invariant ScanInputs(view.Meaning, tx.vin[..i], height) == Ok(valueIn)
    {
      var prevout := tx.vin[i].prevout;
      assert IsAvailable(view.Meaning, prevout);
      var coins := view.FetchCoins(prevout.hash);
      assert tx.vin[..i + 1][..i] == tx.vin[..i];
      ScanInputsPrefix(view.Meaning, tx.vin, height, i + 1);
      if coins.value.coinbase {
        if height - coins.value.height < COINBASE_MATURITY {
          return Some(PrematureSpendOfCoinbase);
        }
      }
      valueIn := valueIn + coins.value.vout[prevout.n].value;
      if !MoneyRange(coins.value.vout[prevout.n].value) || !MoneyRange(valueIn) {
        return Some(InputValuesOutOfRange);
      }
    }
    assert tx.vin[..|tx.vin|] == tx.vin;
    var valueOut := GetValueOut(tx.vout);
    if valueIn < valueOut.value {
      return Some(InBelowOut);
    }
    var fee := valueIn - valueOut.value;
    if !MoneyRange(fee) {
      return Some(FeeOutOfRange);
    }
    r := None;
  }

  // ----- connecting -----

  method SpendInput(view: CoinsViewCache, p: OutPoint) returns (undo: TxInUndo)
    requires view.Valid() && IsAvailable(view.Meaning, p)
    modifies view.Repr
    ensures view.Valid() && view.Best == old(view.Best) && view.hashBlock == old(view.hashBlock)
    ensures view.Base() == old(view.Base()) && view.BaseBest() == old(view.BaseBest())
    ensures (view.Meaning, undo) == SpendOut(old(view.Meaning), p)
  {
    hide CoinsViewCache.Valid, CoinsViewCache.Modifying, CoinsViewCache.Base, CoinsViewCache.BaseBest;
    var coins, usage := view.ModifyCoins(p.hash);
    undo := TxInUndo(coins.vout[p.n], false, 0, 0);
    var ok, spent := Spend(coins, p.n);
    assert ok;
    TrimTwice(coins.vout[p.n := NULL_OUT]);
    if |spent.vout| == 0 {
      undo := undo.(height := spent.height, coinbase := spent.coinbase, version := spent.version);
    }
    view.EndModify(p.hash, spent, usage);
  }

  method SpendInputs(view: CoinsViewCache, vin: seq<TxIn>) returns (undo: TxUndo)
    requires view.Valid() && InputsDistinct(vin) && HaveInputs(view.Meaning, vin)
    modifies view.Repr
    ensures view.Valid() && view.Best == old(view.Best) && view.hashBlock == old(view.hashBlock)
    ensures view.Base() == old(view.Base()) && view.BaseBest() == old(view.BaseBest())
    ensures (view.Meaning, undo) == SpendAll(old(view.Meaning), vin)
  {
    hide CoinsViewCache.Valid, CoinsViewCache.Modifying, CoinsViewCache.Base, CoinsViewCache.BaseBest;
    hide Removes;
    undo := [];
    for i := 0 to |vin|
      invariant view.Valid() && view.Best == old(view.Best) && view.hashBlock == old(view.hashBlock)
      invariant view.Base() == old(view.Base()) && view.BaseBest() == old(view.BaseBest())
      invariant (view.Meaning, undo) == SpendAll(old(view.Meaning), vin[..i])
    {
      assert vin[..i + 1][..i] == vin[..i];
      RemovesOneMore(old(view.Meaning), vin[..i + 1], view.Meaning);
      var txInUndo := SpendInput(view, vin[i].prevout);
      undo := undo + [txInUndo];
    }
    assert vin[..|vin|] == vin;
  }

  /** Spends the inputs of a transaction and adds its outputs. */
  method UpdateCoins(view: CoinsViewCache, tx: Tx, height: int) returns (undo: TxUndo)
    requires view.Valid()
    requires !tx.IsCoinbase() ==> InputsDistinct(tx.vin) && HaveInputs(view.Meaning, tx.vin)
    modifies view.Repr
    ensures view.Valid() && view.Best == old(view.Best) && view.hashBlock == old(view.hashBlock)
    ensures view.Base() == old(view.Base()) && view.BaseBest() == old(view.BaseBest())
    ensures (view.Meaning, undo) == BlockRules.UpdateCoins(old(view.Meaning), tx, height)
  {
    hide CoinsViewCache.Valid, CoinsViewCache.Modifying, CoinsViewCache.Base, CoinsViewCache.BaseBest;
    undo := [];
    if !tx.IsCoinbase() {
      undo := SpendInputs(view, tx.vin);
    }
    var coins, usage := view.ModifyCoins(tx.hash);
    coins := ClearUnspendable(Coins(tx.IsCoinbase(), tx.vout, height, tx.version));
    TrimOfClean(coins);
    view.EndModify(tx.hash, coins, usage);
  }

  lemma AcceptableParts(vtx: seq<Tx>)
    requires BlockOk(vtx)
    ensures InputsDistinctInBlock(vtx)
    ensures forall i :: 0 <= i < |vtx| ==> OutputTotal(vtx[i].vout).Ok?
  {
    assert forall i :: 0 <= i < |vtx| ==> TransactionError(vtx[i]).None?;
  }

  /** BIP 30: an id of the block still has unspent outputs. */
  method OverwritesSome(view: CoinsViewCache, vtx: seq<Tx>) returns (r: bool)
    requires view.Valid()
    modifies view.Repr
    ensures view.Valid() && view.Meaning == old(view.Meaning) && view.Best == old(view.Best)
    ensures view.hashBlock == old(view.hashBlock)
    ensures view.Base() == old(view.Base()) && view.BaseBest() == old(view.BaseBest())
    ensures r <==> !OverwritesNothing(view.Meaning, vtx)
  {
    hide CoinsViewCache.Valid, CoinsViewCache.Base, CoinsViewCache.BaseBest;
    for i := 0 to |vtx|
      invariant view.Valid() && view.Meaning == old(view.Meaning) && view.Best == old(view.Best)
      invariant view.hashBlock == old(view.hashBlock)
      invariant view.Base() == old(view.Base()) && view.BaseBest() == old(view.BaseBest())
      invariant forall j :: 0 <= j < i ==> vtx[j].hash !in view.Meaning
    {
      var coins := view.FetchCoins(vtx[i].hash);
      if coins.Some? && !coins.value.IsPruned() {
        return true;
      }
    }
    r := false;
  }

  lemma {:induction false} ConnectTxsErrorOfPrefix(m: Utxo, vtx: seq<Tx>, height: int, n: nat)
    requires n <= |vtx| && InputsDistinctInBlock(vtx)
    ensures InputsDistinctInBlock(vtx[..n])
    ensures ConnectTxs(m, vtx[..n], height).Err? ==> ConnectTxs(m, vtx, height) == ConnectTxs(m, vtx[..n], height)
    decreases |vtx|
  {
    hide ConnectTx, OutputTotal, InputsDistinct;
    if n == |vtx| {
      assert vtx[..n] == vtx;
    } else {
      ConnectTxsErrorOfPrefix(m, vtx[..|vtx| - 1], height, n);
      assert vtx[..|vtx| - 1][..n] == vtx[..n];
    }
  }

  lemma InputsChecked(m: Utxo, tx: Tx, height: int)
    requires OutputTotal(tx.vout).Ok?
    ensures !HaveInputs(m, tx.vin) ==> CheckTxInputs(m, tx, height) == Err(InputsMissingOrSpent)
  {
  }

  lemma FeeIsDifference(m: Utxo, tx: Tx, height: int)
    requires OutputTotal(tx.vout).Ok? && CheckTxInputs(m, tx, height).Ok?
    ensures HaveInputs(m, tx.vin)
    ensures CheckTxInputs(m, tx, height).value == ValueIn(m, tx.vin) - OutputTotal(tx.vout).value
  {
    ScanInputsFacts(m, tx.vin, height);
  }

  /** One transaction of a block: the fees and the undo data so far, or why it is refused. */
  method ConnectOne(view: CoinsViewCache, tx: Tx, i: nat, height: int, fees: int, undo: seq<TxUndo>)
    returns (r: Result<(int, seq<TxUndo>), Reject>)
    requires view.Valid() && InputsDistinct(tx.vin) && OutputTotal(tx.vout).Ok?
    modifies view.Repr
    ensures view.Valid() && view.Best == old(view.Best) && view.hashBlock == old(view.hashBlock)
    ensures view.Base() == old(view.Base()) && view.BaseBest() == old(view.BaseBest())
    ensures match ConnectTx(Progress(old(view.Meaning), fees, undo), tx, i, height)
            case Err(e) => r == Err(e)
            case Ok(st) => r == Ok((st.fees, st.undo)) && view.Meaning == st.utxo
  {
    hide CoinsViewCache.Valid, CoinsViewCache.Base, CoinsViewCache.BaseBest, CheckTxInputs, HaveInputs, BlockRules.UpdateCoins;
    var fees, undo := fees, undo;
    if !tx.IsCoinbase() {
      var have := HasInputs(view, tx);
      InputsChecked(view.Meaning, tx, height);
      if !have {
        return Err(InputsMissingOrSpent);
      }
      var valueIn := GetValueIn(view, tx);
      var valueOut := GetValueOut(tx.vout);
      fees := fees + (valueIn - valueOut.value);
      var err := InputsError(view, tx, height);
      if err.Some? {
        return Err(err.value);
      }
      FeeIsDifference(view.Meaning, tx, height);
    }
    var txUndo := UpdateCoins(view, tx, height);
    r := Ok((fees, if i > 0 then undo + [txUndo] else undo));
  }

  /** All transactions in order: the fees and the undo data, or why the first bad one is refused. */
  method ConnectAll(view: CoinsViewCache, vtx: seq<Tx>, height: int) returns (r: Result<(int, seq<TxUndo>), Reject>)
    requires view.Valid() && InputsDistinctInBlock(vtx)
    modifies view.Repr
    ensures view.Valid() && view.Best == old(view.Best) && view.hashBlock == old(view.hashBlock)
    ensures view.Base() == old(view.Base()) && view.BaseBest() == old(view.BaseBest())
    ensures match ConnectTxs(old(view.Meaning), vtx, height)
            case Err(e) => r == Err(e)
            case Ok(st) => r == Ok((st.fees, st.undo)) && view.Meaning == st.utxo
  {
    hide CoinsViewCache.Valid, CoinsViewCache.Base, CoinsViewCache.BaseBest, ConnectTx, OutputTotal, InputsDistinct;
    var fees, undo := 0, [];
    for i := 0 to |vtx|
      invariant view.Valid() && view.Best == old(view.Best) && view.hashBlock == old(view.hashBlock)
      invariant view.Base() == old(view.Base()) && view.BaseBest() == old(view.BaseBest())
      invariant ConnectTxs(old(view.Meaning), vtx[..i], height) == Ok(Progress(view.Meaning, fees, undo))
    {
      ConnectTxsErrorOfPrefix(old(view.Meaning), vtx, height, i + 1);
      assert vtx[..i + 1][..i] == vtx[..i];
      var next := ConnectOne(view, vtx[i], i, height, fees, undo);
      if next.Err? {
        return Err(next.error);
      }
      fees, undo := next.value.0, next.value.1;
    }
    assert vtx[..|vtx|] == vtx;
    r := Ok((fees, undo));
  }

  /** Connects a block above genesis; on success the undo data. */
  method ConnectBlock(view: CoinsViewCache, vtx: seq<Tx>, height: nat, prevHash: Hash, blockHash: Hash,
                      interval: int, scriptsOk: bool, justCheck: bool)
    returns (r: Result<seq<TxUndo>, Reject>)
    requires view.Valid() && view.Best == prevHash && blockHash != 0 && interval > 0
    modifies view.Repr
    ensures view.Valid()
    ensures view.Base() == old(view.Base()) && view.BaseBest() == old(view.BaseBest())
    ensures match BlockRules.ConnectBlock(old(view.Meaning), vtx, height, interval, scriptsOk)
            case Err(e) => r == Err(e)
            case Ok(st) => r == Ok(st.undo) && view.Meaning == st.utxo
    ensures r.Ok? ==> view.Best == if justCheck then prevHash else blockHash
    ensures r.Ok? && !justCheck ==> view.hashBlock == blockHash
  {
    hide CoinsViewCache.Valid, CoinsViewCache.Base, CoinsViewCache.BaseBest;
    hide ConnectTxs, OutputTotal, InputsDistinct, Subsidy, TransactionError;
    var err := CheckBlock(vtx);
    if err.Some? {
      return Err(err.value);
    }
    BlockOkIffNoError(vtx);
    AcceptableParts(vtx);
    var best := view.GetBestBlock();
    assert best == prevHash;
    var overwrites := OverwritesSome(view, vtx);
    if overwrites {
      return Err(OverwritesUnspent);
    }
    var done := ConnectAll(view, vtx, height);
    if done.Err? {
      return Err(done.error);
    }
    var fees := done.value.0;
    var coinbaseOut := GetValueOut(vtx[0].vout);
    if coinbaseOut.value > fees + Subsidy(height, interval) {
      return Err(CoinbasePaysTooMuch);
    }
    if !scriptsOk {
      return Err(ScriptFailed);
    }
    r := Ok(done.value.1);
    if !justCheck {
      view.SetBestBlock(blockHash);
    }
  }

  // ----- disconnecting -----

  lemma PrunedIffAbsent(m: Utxo, k: Hash, c: Coins)
    requires Stored(m) && Describes(m, k, c)
    ensures c.IsPruned() <==> k !in m
  {
  }

  lemma RestoredOutput(vout: seq<TxOut>, n: nat)
    requires n < |vout| && !vout[n].IsNull()
    ensures n < |Trim(vout)| && Trim(vout)[n] == vout[n]
  {
    TrimIsLongestCleanPrefix(vout);
  }

  /** The record that an output is put back into: the one there is, or a new one with what the undo data say. */
  function RecordToRestore(before: Coins, undo: TxInUndo): Coins
  {
    if undo.height != 0 then EMPTY_COINS.(coinbase := undo.coinbase, height := undo.height, version := undo.version) else before
  }

  method PutBack(before: Coins, undo: TxInUndo, n: nat) returns (coins: Coins, clean: bool)
    ensures var r := RecordToRestore(before, undo);
            && coins == r.(vout := RestoreAt(r.vout, n, undo.out))
            && (clean <==> (undo.height != 0 <==> before.IsPruned()) && !r.IsAvailable(n))
  {
    clean, coins := true, before;
    if undo.height != 0 {
      if !coins.IsPruned() {
        clean := false;
      }
      coins := EMPTY_COINS.(coinbase := undo.coinbase, height := undo.height, version := undo.version);
    } else {
      if coins.IsPruned() {
        clean := false;
      }
    }
    if coins.IsAvailable(n) {
      clean := false;
    }
    if |coins.vout| < n + 1 {
      coins := coins.(vout := Pad(coins.vout, n + 1));
    }
    coins := coins.(vout := coins.vout[n := undo.out]);
  }

  lemma PutBackIsUndo(m: Utxo, undo: TxInUndo, p: OutPoint, before: Coins, coins: Coins, clean: bool)
    requires Stored(m) && Describes(m, p.hash, before)
    requires var r := RecordToRestore(before, undo);
             && coins == r.(vout := RestoreAt(r.vout, p.n, undo.out))
             && (clean <==> (undo.height != 0 <==> before.IsPruned()) && !r.IsAvailable(p.n))
    ensures clean == Ledger.ApplyTxInUndo(m, undo, p).Some?
    ensures clean ==> Put(m, p.hash, coins.(vout := Trim(coins.vout))) == Ledger.ApplyTxInUndo(m, undo, p).value
  {
    PrunedIffAbsent(m, p.hash, before);
    EmptyIsPruned();
  }

  lemma PutBackIsThere(m: Utxo, undo: TxInUndo, p: OutPoint, vout: seq<TxOut>, coins: Coins)
    requires coins.vout == RestoreAt(vout, p.n, undo.out) && !undo.out.IsNull()
    ensures var m' := Put(m, p.hash, coins.(vout := Trim(coins.vout)));
            IsAvailable(m', p) && OutputAt(m', p) == undo.out
  {
    assert coins.vout[p.n] == undo.out;
    RestoredOutput(coins.vout, p.n);
    assert coins.(vout := Trim(coins.vout)).IsAvailable(p.n);
  }

  /** Puts one output back; false when the undo data does not fit the view. */
  method ApplyTxInUndo(view: CoinsViewCache, undo: TxInUndo, p: OutPoint) returns (clean: bool)
    requires view.Valid()
    modifies view.Repr
    ensures view.Valid() && view.Best == old(view.Best) && view.hashBlock == old(view.hashBlock)
    ensures view.Base() == old(view.Base()) && view.BaseBest() == old(view.BaseBest())
    ensures clean == Ledger.ApplyTxInUndo(old(view.Meaning), undo, p).Some?
    ensures clean ==> view.Meaning == Ledger.ApplyTxInUndo(old(view.Meaning), undo, p).value
    ensures !undo.out.IsNull() ==> IsAvailable(view.Meaning, p) && OutputAt(view.Meaning, p) == undo.out
    ensures forall k :: k != p.hash ==>
              (k in view.Meaning <==> k in old(view.Meaning)) &&
              (k in view.Meaning ==> view.Meaning[k] == old(view.Meaning)[k])
  {
    hide CoinsViewCache.Valid, CoinsViewCache.Modifying, CoinsViewCache.Base, CoinsViewCache.BaseBest;
    hide Describes, Stored, Ledger.ApplyTxInUndo, IsAvailable, OutputAt, RestoreAt, Trim, RecordToRestore;
    var before, usage := view.ModifyCoins(p.hash);
    var coins;
    coins, clean := PutBack(before, undo, p.n);
    PutBackIsUndo(view.Meaning, undo, p, before, coins, clean);
    if !undo.out.IsNull() {
      PutBackIsThere(view.Meaning, undo, p, RecordToRestore(before, undo).vout, coins);
    }
    view.EndModify(p.hash, coins, usage);
  }

  datatype DisconnectError = BlockAndUndoInconsistent | TransactionAndUndoInconsistent

  /** Undoing the first `n` transactions. */
  function StillToUndo(m: Utxo, vtx: seq<Tx>, undo: seq<TxUndo>, height: int, n: nat): Option<Utxo>
    requires UndoFits(vtx, undo) && n <= |vtx|
  {
    DisconnectTxs(m, vtx[..n], if n == 0 then [] else undo[..n - 1], height)
  }

  lemma StillToUndoEnds(m: Utxo, vtx: seq<Tx>, undo: seq<TxUndo>, height: int)
    requires UndoFits(vtx, undo)
    ensures StillToUndo(m, vtx, undo, height, |vtx|) == DisconnectTxs(m, vtx, undo, height)
    ensures StillToUndo(m, vtx, undo, height, 0) == Some(m)
  {
    assert vtx[..|vtx|] == vtx && undo[..|vtx| - 1] == undo;
  }

  lemma StillToUndoStep(m: Utxo, vtx: seq<Tx>, undo: seq<TxUndo>, height: int, n: nat)
    requires UndoFits(vtx, undo) && n < |vtx|
    ensures StillToUndo(m, vtx, undo, height, n + 1)
            == match DisconnectTx(m, vtx[n], if n == 0 then None else Some(undo[n - 1]), height)
               case None => None
               case Some(m1) => StillToUndo(m1, vtx, undo, height, n)
  {
    hide DisconnectTx;
    assert vtx[..n + 1][..n] == vtx[..n];
    assert n > 0 ==> undo[..n][..n - 1] == undo[..n - 1];
  }

  lemma UndoAllLast(m: Utxo, vin: seq<TxIn>, undo: TxUndo, j: nat)
    requires |undo| == |vin| && j < |vin|
    ensures UndoAll(m, vin[..j + 1], undo[..j + 1]) ==
            match Ledger.ApplyTxInUndo(m, undo[j], vin[j].prevout)
            case None => None
            case Some(m1) => UndoAll(m1, vin[..j], undo[..j])
  {
    hide Ledger.ApplyTxInUndo;
    assert vin[..j + 1][..j] == vin[..j] && undo[..j + 1][..j] == undo[..j];
  }

  /** Puts the spent outputs back, last input first. */
  method UndoInputs(view: CoinsViewCache, undo: TxUndo, vin: seq<TxIn>) returns (fits: bool)
    requires view.Valid() && |undo| == |vin|
    modifies view.Repr
    ensures view.Valid() && view.Best == old(view.Best) && view.hashBlock == old(view.hashBlock)
    ensures view.Base() == old(view.Base()) && view.BaseBest() == old(view.BaseBest())
    ensures fits == UndoAll(old(view.Meaning), vin, undo).Some?
    ensures fits ==> view.Meaning == UndoAll(old(view.Meaning), vin, undo).value
  {
    hide CoinsViewCache.Valid, CoinsViewCache.Base, CoinsViewCache.BaseBest, Ledger.ApplyTxInUndo;
    var j := |vin|;
    fits := true;
    assert vin[..j] == vin && undo[..j] == undo;
    while j > 0
      invariant 0 <= j <= |vin|
      invariant view.Valid() && view.Best == old(view.Best) && view.hashBlock == old(view.hashBlock)
      invariant view.Base() == old(view.Base()) && view.BaseBest() == old(view.BaseBest())
      invariant if fits then UndoAll(old(view.Meaning), vin, undo) == UndoAll(view.Meaning, vin[..j], undo[..j])
                else UndoAll(old(view.Meaning), vin, undo) == None
    {
      j := j - 1;
      UndoAllLast(view.Meaning, vin, undo, j);
      var ok := ApplyTxInUndo(view, undo[j], vin[j].prevout);
      fits := fits && ok;
    }
  }

  // What is fully spent stays so when unspendable outputs are cleared.
  lemma PrunedStaysPruned(c: Coins)
    requires c.IsPruned()
    ensures Trim(WithoutUnspendable(c.vout)) == []
  {
    assert c.(vout := WithoutUnspendable(c.vout)).IsPruned();
    PrunedIffTrimEmpty(c.(vout := WithoutUnspendable(c.vout)));
  }

  method RemoveOutputs(view: CoinsViewCache, tx: Tx, height: int) returns (clean: bool)
    requires view.Valid()
    modifies view.Repr
    ensures view.Valid() && view.Best == old(view.Best) && view.hashBlock == old(view.hashBlock)
    ensures view.Base() == old(view.Base()) && view.BaseBest() == old(view.BaseBest())
    ensures clean == HoldsOutputs(old(view.Meaning), tx, height)
    ensures view.Meaning == old(view.Meaning) - {tx.hash}
  {
    hide CoinsViewCache.Valid, CoinsViewCache.Modifying, CoinsViewCache.Base, CoinsViewCache.BaseBest;
    var outs, usage := view.ModifyCoins(tx.hash);
    if tx.hash !in view.Meaning {
      PrunedStaysPruned(outs);
      PrunedStaysPruned(EMPTY_COINS);
    }
    outs := ClearUnspendable(outs);
    var outsBlock := ClearUnspendable(Coins(tx.IsCoinbase(), tx.vout, height, tx.version));
    if outsBlock.version < 0 {
      outs := outs.(version := outsBlock.version);
    }
    clean := outs.Same(outsBlock);
    view.EndModify(tx.hash, EMPTY_COINS, usage);
  }

  /** Removes the outputs of one transaction and puts its inputs back. */
  method DisconnectOne(view: CoinsViewCache, tx: Tx, undo: Option<TxUndo>, height: int) returns (clean: bool)
    requires view.Valid() && (undo.Some? ==> |undo.value| == |tx.vin|)
    modifies view.Repr
    ensures view.Valid() && view.Best == old(view.Best) && view.hashBlock == old(view.hashBlock)
    ensures view.Base() == old(view.Base()) && view.BaseBest() == old(view.BaseBest())
    ensures clean == DisconnectTx(old(view.Meaning), tx, undo, height).Some?
    ensures clean ==> view.Meaning == DisconnectTx(old(view.Meaning), tx, undo, height).value
  {
    hide CoinsViewCache.Valid, CoinsViewCache.Modifying, CoinsViewCache.Base, CoinsViewCache.BaseBest;
    clean := RemoveOutputs(view, tx, height);
    if undo.Some? {
      var ok := UndoInputs(view, undo.value, tx.vin);
      clean := clean && ok;
    }
  }

  /** Disconnects a block; `Ok(true)` when the view and the undo data matched it exactly. */
  method DisconnectBlock(view: CoinsViewCache, vtx: seq<Tx>, undo: seq<TxUndo>, height: int, prevHash: Hash)
    returns (r: Result<bool, DisconnectError>)
    requires view.Valid() && prevHash != 0
    modifies view.Repr
    ensures view.Valid()
    ensures view.Base() == old(view.Base()) && view.BaseBest() == old(view.BaseBest())
    ensures r.Ok? <==> UndoFits(vtx, undo)
    ensures r.Ok? ==> view.Best == prevHash && view.hashBlock == prevHash
    ensures r.Ok? ==> r.value == DisconnectTxs(old(view.Meaning), vtx, undo, height).Some?
    ensures r == Ok(true) ==> view.Meaning == DisconnectTxs(old(view.Meaning), vtx, undo, height).value
  {
    hide CoinsViewCache.Valid, CoinsViewCache.Modifying, CoinsViewCache.Base, CoinsViewCache.BaseBest;
    if |undo| + 1 != |vtx| {
      return Err(BlockAndUndoInconsistent);
    }
    hide DisconnectTx, DisconnectTxs, StillToUndo;
    var clean := true;
    ghost var start := view.Meaning;
    var i := |vtx|;
    if UndoFits(vtx, undo) {
      StillToUndoEnds(view.Meaning, vtx, undo, height);
    }
    while i > 0
      invariant 0 <= i <= |vtx|
      invariant view.Valid()
      invariant view.Base() == old(view.Base()) && view.BaseBest() == old(view.BaseBest())
      invariant forall j :: i <= j < |vtx| && j > 0 ==> |undo[j - 1]| == |vtx[j].vin|
      invariant UndoFits(vtx, undo) ==>
                  DisconnectTxs(start, vtx, undo, height) == if clean then StillToUndo(view.Meaning, vtx, undo, height, i) else None
    {
      i := i - 1;
      if UndoFits(vtx, undo) {
        StillToUndoStep(view.Meaning, vtx, undo, height, i);
      }
      if i > 0 && |undo[i - 1]| != |vtx[i].vin| {
        return Err(TransactionAndUndoInconsistent);
      }
      var ok := DisconnectOne(view, vtx[i], if i == 0 then None else Some(undo[i - 1]), height);
      clean := clean && ok;
    }
    if UndoFits(vtx, undo) {
      StillToUndoEnds(view.Meaning, vtx, undo, height);
    }
    view.SetBestBlock(prevHash);
    r := Ok(clean);
  }

  // ----- whole blocks on top of the tip -----

  /** Connects a block on a throw-away cache over the tip; only an accepted block reaches the tip. */
  method ConnectTip(tip: CoinsViewCache, vtx: seq<Tx>, height: nat, prevHash: Hash, blockHash: Hash,
                    interval: int, scriptsOk: bool)
    returns (r: Result<seq<TxUndo>, Reject>)
    requires tip.Valid() && tip.Best == prevHash && blockHash != 0 && interval > 0
    modifies tip.Repr
    ensures tip.Valid()
    ensures match BlockRules.ConnectBlock(old(tip.Meaning), vtx, height, interval, scriptsOk)
            case Err(e) => r == Err(e) && tip.Meaning == old(tip.Meaning) && tip.Best == prevHash
            case Ok(st) => r == Ok(st.undo) && tip.Meaning == st.utxo && tip.Best == blockHash
  {
    var view := new CoinsViewCache.OverCache(tip);
    r := ConnectBlock(view, vtx, height, prevHash, blockHash, interval, scriptsOk, false);
    if r.Ok? {
      view.Flush();
    }
  }

  /** Disconnects a block on a throw-away cache; an unclean result never reaches the tip. */
  method DisconnectTip(tip: CoinsViewCache, vtx: seq<Tx>, undo: seq<TxUndo>, height: nat, prevHash: Hash)
    returns (ok: bool)
    requires tip.Valid() && prevHash != 0
    modifies tip.Repr
    ensures tip.Valid()
    ensures ok <==> UndoFits(vtx, undo) && DisconnectTxs(old(tip.Meaning), vtx, undo, height).Some?
    ensures if ok then tip.Best == prevHash && tip.Meaning == DisconnectTxs(old(tip.Meaning), vtx, undo, height).value
            else tip.Best == old(tip.Best) && tip.Meaning == old(tip.Meaning)
  {
    var view := new CoinsViewCache.OverCache(tip);
    var r := DisconnectBlock(view, vtx, undo, height, prevHash);
    ok := r == Ok(true);
    if ok {
      view.Flush();
    }
  }
}
