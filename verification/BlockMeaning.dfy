// What an accepted block means, without the functions that connect it: which
// outputs are unspent afterwards, and exactly which blocks are accepted.
module BlockMeaning {
  import opened Wrappers
  import opened Basics
  import opened Sums
  import opened Nonlinear
  import opened Coins
  import opened Ledger
  import opened BlockRules
  import opened UndoProofs

  datatype Unspent = Unspent(out: TxOut, coinbase: bool, height: int, version: int)

  /** What a view says about an output. */
  function Look(m: Utxo, q: OutPoint): Option<Unspent>
  {
    if q.hash in m && q.n < |m[q.hash].vout| && m[q.hash].vout[q.n].value != -1
    then Some(Unspent(m[q.hash].vout[q.n], m[q.hash].coinbase, m[q.hash].height, m[q.hash].version))
    else None
  }

  /** The transaction makes the output, and it can be spent: its script does not start with OP_RETURN. */
  predicate Makes(tx: Tx, q: OutPoint)
  {
    q.hash == tx.hash && q.n < |tx.vout| && (tx.vout[q.n].script == [] || tx.vout[q.n].script[0] != 0x6a)
  }

  predicate Takes(tx: Tx, q: OutPoint)
  {
    !tx.IsCoinbase() && exists j :: 0 <= j < |tx.vin| && tx.vin[j].prevout == q
  }

  // ----- one transaction -----

  lemma AvailableIffLook(m: Utxo, q: OutPoint)
    ensures IsAvailable(m, q) <==> Look(m, q).Some?
    ensures IsAvailable(m, q) ==> OutputAt(m, q) == Look(m, q).value.out
  {
  }

  lemma SpendOutLooks(m: Utxo, p: OutPoint, q: OutPoint)
    requires IsAvailable(m, p)
    ensures Look(SpendOut(m, p).0, q) == if q == p then None else Look(m, q)
  {
    var c := m[p.hash];
    var w := c.vout[p.n := NULL_OUT];
    TrimIsLongestCleanPrefix(w);
    var t := Trim(w);
    assert forall i :: 0 <= i < |t| ==> t[i] == w[i];
    if q.hash == p.hash && q.n < |w| {
      assert q != p ==> w[q.n] == c.vout[q.n];
      assert q.n >= |t| ==> w[q.n].IsNull();
    }
  }

  lemma {:induction false} SpendAllLooks(m: Utxo, vin: seq<TxIn>, q: OutPoint)
    requires InputsDistinct(vin) && HaveInputs(m, vin)
    ensures Look(SpendAll(m, vin).0, q) == if Spends(vin, q) then None else Look(m, q)
  {
    if vin != [] {
      var k := |vin| - 1;
      SpendAllLooks(m, vin[..k], q);
      RemovesOneMore(m, vin, SpendAll(m, vin[..k]).0);
      SpendOutLooks(SpendAll(m, vin[..k]).0, vin[k].prevout, q);
    }
  }

  lemma RecordLooks(tx: Tx, height: int, q: OutPoint)
    requires OutputTotal(tx.vout).Ok? && q.hash == tx.hash
    ensures var c := FromTx(tx, height);
            (q.n < |c.vout| && c.vout[q.n].value != -1 <==> Makes(tx, q)) && (Makes(tx, q) ==> c.vout[q.n] == tx.vout[q.n])
  {
    OutputTotalIsValue(tx.vout);
    var w := WithoutUnspendable(tx.vout);
    TrimIsLongestCleanPrefix(w);
    if q.n < |w| {
      assert !tx.vout[q.n].IsNull();
      assert w[q.n] == if tx.vout[q.n].IsUnspendable() then NULL_OUT else tx.vout[q.n];
      assert q.n >= |Trim(w)| ==> w[q.n].IsNull();
    }
  }

  // The outputs of a transaction enter the view as they are, those it spends
  // leave it, and everything else stays.
  lemma UpdateCoinsLooks(m: Utxo, tx: Tx, height: int, q: OutPoint)
    requires OutputTotal(tx.vout).Ok? && (!tx.IsCoinbase() ==> InputsDistinct(tx.vin) && HaveInputs(m, tx.vin))
    ensures Look(UpdateCoins(m, tx, height).0, q)
            == if q.hash == tx.hash then
                 if Makes(tx, q) then Some(Unspent(tx.vout[q.n], tx.IsCoinbase(), height, tx.version)) else None
               else if Takes(tx, q) then None
               else Look(m, q)
  {
    if q.hash == tx.hash {
      RecordLooks(tx, height, q);
    } else if !tx.IsCoinbase() {
      SpendAllLooks(m, tx.vin, q);
      SpendsIffInput(tx.vin, q);
    }
    hide Trim, WithoutUnspendable, OutputTotal;
  }

  // ----- all transactions of a block -----

  /** Which of the transactions made the output. */
  ghost predicate MadeAt(vtx: seq<Tx>, i: int, q: OutPoint)
  {
    0 <= i < |vtx| && Makes(vtx[i], q)
  }

  ghost predicate Taken(vtx: seq<Tx>, q: OutPoint)
  {
    exists i :: 0 <= i < |vtx| && Takes(vtx[i], q)
  }

  /** What is known of an output after the transactions: made by one of them or there before, and taken by none. */
  ghost function Coin(m: Utxo, vtx: seq<Tx>, height: int, q: OutPoint): Option<Unspent>
  {
    if Taken(vtx, q) then None
    else if exists i :: MadeAt(vtx, i, q) then
      var i :| MadeAt(vtx, i, q);
      Some(Unspent(vtx[i].vout[q.n], i == 0, height, vtx[i].version))
    else Look(m, q)
  }

  lemma MakerIsUnique(vtx: seq<Tx>, i: int, j: int, q: OutPoint)
    requires TxidsDistinct(vtx) && MadeAt(vtx, i, q) && MadeAt(vtx, j, q)
    ensures i == j
  {
    assert vtx[i].hash == vtx[j].hash;
  }

  // What an accepted transaction spends was there before, or made earlier in the block.
  lemma TakenWasKnown(m: Utxo, vtx: seq<Tx>, height: int, i: nat, q: OutPoint)
    requires InputsDistinctInBlock(vtx) && CoinbaseFirst(vtx) && ViewOk(m) && height > 0
    requires ConnectTxs(m, vtx, height).Ok? && i < |vtx| && Takes(vtx[i], q)
    ensures q.hash in m || exists j :: 0 <= j < i && vtx[j].hash == q.hash
  {
    ViewAfterStep(m, vtx, height, i);
    hide UpdateCoins, OutputTotal, ViewOk, ConnectTxs, ViewAfter;
    if q.hash !in m {
      assert q.hash in Txids(vtx[..i]);
      var j :| 0 <= j < i && vtx[..i][j].hash == q.hash;
      assert vtx[j].hash == q.hash;
    }
  }

  // Its own outputs are never taken by the block's transactions up to it.
  lemma NewIsUntaken(m: Utxo, vtx: seq<Tx>, height: int, q: OutPoint)
    requires InputsDistinctInBlock(vtx) && CoinbaseFirst(vtx) && ViewOk(m) && height > 0
    requires ConnectTxs(m, vtx, height).Ok? && OverwritesNothing(m, vtx) && TxidsDistinct(vtx)
    requires vtx != [] && q.hash == vtx[|vtx| - 1].hash
    ensures !Taken(vtx, q)
  {
    hide OutputTotal, ConnectTxs, ViewOk;
    if i :| 0 <= i < |vtx| && Takes(vtx[i], q) {
      TakenWasKnown(m, vtx, height, i, q);
    }
  }

  lemma CoinOfLast(m: Utxo, vtx: seq<Tx>, height: int, q: OutPoint)
    requires vtx != [] && TxidsDistinct(vtx) && OverwritesNothing(m, vtx) && CoinbaseFirst(vtx)
    requires q.hash == vtx[|vtx| - 1].hash && !Taken(vtx, q)
    ensures var tx := vtx[|vtx| - 1];
            Coin(m, vtx, height, q) == if Makes(tx, q) then Some(Unspent(tx.vout[q.n], tx.IsCoinbase(), height, tx.version)) else None
  {
    var k := |vtx| - 1;
    forall i | MadeAt(vtx, i, q) ensures i == k {
      assert vtx[i].hash == vtx[k].hash;
    }
    assert Makes(vtx[k], q) ==> MadeAt(vtx, k, q);
    assert vtx[k].hash !in m;
  }

  lemma TakenMore(vtx: seq<Tx>, q: OutPoint)
    requires vtx != []
    ensures Taken(vtx, q) <==> Taken(vtx[..|vtx| - 1], q) || Takes(vtx[|vtx| - 1], q)
  {
    var k := |vtx| - 1;
    if i :| 0 <= i < |vtx| && Takes(vtx[i], q) && i < k {
      assert Takes(vtx[..k][i], q);
    }
    if i :| 0 <= i < k && Takes(vtx[..k][i], q) {
      assert Takes(vtx[i], q);
    }
  }

  lemma CoinOfOthers(m: Utxo, vtx: seq<Tx>, height: int, q: OutPoint)
    requires vtx != [] && TxidsDistinct(vtx) && q.hash != vtx[|vtx| - 1].hash
    ensures Coin(m, vtx, height, q)
            == if Takes(vtx[|vtx| - 1], q) then None else Coin(m, vtx[..|vtx| - 1], height, q)
  {
    var k := |vtx| - 1;
    TakenMore(vtx, q);
    forall i: int ensures MadeAt(vtx, i, q) <==> MadeAt(vtx[..k], i, q) {
    }
    forall i, j | MadeAt(vtx, i, q) && MadeAt(vtx, j, q) ensures i == j {
      MakerIsUnique(vtx, i, j, q);
    }
    hide Taken, Takes;
  }

  lemma NothingConnected(m: Utxo, height: int, q: OutPoint)
    ensures Coin(m, [], height, q) == Look(m, q)
  {
  }

  // Main result on the view after a block: an output is unspent exactly when it
  // was there before or a transaction of the block made it, and none spends it.
  lemma {:induction false} ConnectedLooks(m: Utxo, vtx: seq<Tx>, height: int, q: OutPoint)
    requires InputsDistinctInBlock(vtx) && CoinbaseFirst(vtx) && TxidsDistinct(vtx)
    requires ViewOk(m) && height > 0 && OverwritesNothing(m, vtx) && ConnectTxs(m, vtx, height).Ok?
    ensures Look(ConnectTxs(m, vtx, height).value.utxo, q) == Coin(m, vtx, height, q)
    decreases |vtx|
  {
    hide ConnectTx, UpdateCoins, OutputTotal, InputsDistinct, HaveInputs, ViewOk, Look, Coin, Takes, Makes, Taken;
    if vtx != [] {
      var k := |vtx| - 1;
      CoinbaseFirstPrefix(vtx, k);
      assert TxidsDistinct(vtx[..k]) && OverwritesNothing(m, vtx[..k]);
      ConnectTxsFacts(m, vtx[..k], height);
      var st := ConnectTxs(m, vtx[..k], height).value;
      ConnectTxFacts(st, vtx[k], k, height);
      UpdateCoinsLooks(st.utxo, vtx[k], height, q);
      if q.hash == vtx[k].hash {
        NewIsUntaken(m, vtx, height, q);
        CoinOfLast(m, vtx, height, q);
      } else {
        CoinOfOthers(m, vtx, height, q);
        ConnectedLooks(m, vtx[..k], height, q);
      }
    } else {
      NothingConnected(m, height, q);
    }
  }

  // ----- which transactions are accepted -----

  /** Zero to 21 million coins, in units of a hundred millionth. */
  predicate Amount(n: int)
  {
    0 <= n <= 21_000_000 * 100_000_000
  }

  /** The sum of the first `n` values is an amount. */
  predicate SumFits(values: seq<int>, n: nat)
    requires n <= |values|
  {
    Amount(Sum(values[..n]))
  }

  /** Every value and every partial sum is an amount. */
  ghost predicate AmountsAddUp(values: seq<int>)
  {
    && (forall i :: 0 <= i < |values| ==> Amount(values[i]))
    && (forall n :: 0 <= n <= |values| ==> SumFits(values, n))
  }

  lemma FitsInPrefix(values: seq<int>, n: nat)
    requires values != [] && n < |values|
    ensures SumFits(values[..|values| - 1], n) <==> SumFits(values, n)
  {
    assert values[..|values| - 1][..n] == values[..n];
  }

  lemma WholeFits(values: seq<int>)
    ensures SumFits(values, |values|) <==> Amount(Sum(values))
  {
    assert values[..|values|] == values;
  }

  lemma AmountsPrefix(values: seq<int>)
    requires values != []
    ensures var k := |values| - 1;
            AmountsAddUp(values) <==> AmountsAddUp(values[..k]) && Amount(values[k]) && Amount(Sum(values))
  {
    var k := |values| - 1;
    WholeFits(values);
    forall n | 0 <= n <= k ensures SumFits(values[..k], n) <==> SumFits(values, n) {
      FitsInPrefix(values, n);
    }
    hide Amount, Sum, SumFits;
    assert forall i :: 0 <= i < k ==> values[..k][i] == values[i];
  }

  function ValuesOf(vout: seq<TxOut>): seq<int>
  {
    seq(|vout|, i requires 0 <= i < |vout| => vout[i].value)
  }

  lemma {:induction false} OutputTotalExact(vout: seq<TxOut>)
    ensures OutputTotal(vout).Ok? <==> AmountsAddUp(ValuesOf(vout))
    ensures OutputTotal(vout).Ok? ==> OutputTotal(vout).value == Sum(ValuesOf(vout))
  {
    if vout != [] {
      var k := |vout| - 1;
      OutputTotalExact(vout[..k]);
      var values := ValuesOf(vout);
      assert values[..k] == ValuesOf(vout[..k]);
      AmountsPrefix(values);
      hide AmountsAddUp;
    } else {
      assert ValuesOf(vout) == [];
    }
  }

  /** What a transaction must meet by itself. */
  ghost predicate WellFormed(tx: Tx)
  {
    && tx.vin != [] && tx.vout != [] && tx.size <= 1_000_000
    && AmountsAddUp(ValuesOf(tx.vout))
    && (forall i, j :: 0 <= i < j < |tx.vin| ==> tx.vin[i].prevout != tx.vin[j].prevout)
    && (if |tx.vin| == 1 && tx.vin[0].prevout == OutPoint(0, 0xffff_ffff) then 2 <= |tx.vin[0].scriptSig| <= 100
        else forall i :: 0 <= i < |tx.vin| ==> tx.vin[i].prevout != OutPoint(0, 0xffff_ffff))
  }

  lemma TransactionExact(tx: Tx)
    ensures TransactionError(tx).None? <==> WellFormed(tx)
  {
    OutputTotalExact(tx.vout);
    hide OutputTotal, AmountsAddUp, ValuesOf;
  }

  /** The values that are spent. */
  function InValues(coins: seq<Option<Unspent>>): seq<int>
  {
    seq(|coins|, j requires 0 <= j < |coins| => if coins[j].Some? then coins[j].value.out.value else 0)
  }

  /** What a transaction leaves as a fee. */
  function Left(coins: seq<Option<Unspent>>, tx: Tx): int
  {
    Sum(InValues(coins)) - Sum(ValuesOf(tx.vout))
  }

  /**
   * A transaction may spend the coins its inputs name: all of them are there, coinbases
   * are a hundred blocks deep, and amounts are in range, as is what is left as a fee.
   */
  ghost predicate MaySpend(coins: seq<Option<Unspent>>, tx: Tx, height: int)
  {
    && (forall j :: 0 <= j < |coins| ==> coins[j].Some?)
    && (forall j :: 0 <= j < |coins| && coins[j].value.coinbase ==> height - coins[j].value.height >= 100)
    && AmountsAddUp(InValues(coins)) && Amount(Left(coins, tx))
  }

  ghost function Looks(m: Utxo, vin: seq<TxIn>): (r: seq<Option<Unspent>>)
    ensures |r| == |vin|
  {
    seq(|vin|, j requires 0 <= j < |vin| => Look(m, vin[j].prevout))
  }

  lemma InputsLook(m: Utxo, vin: seq<TxIn>)
    ensures HaveInputs(m, vin) <==> forall j :: 0 <= j < |vin| ==> Looks(m, vin)[j].Some?
  {
    forall j | 0 <= j < |vin| ensures IsAvailable(m, vin[j].prevout) <==> Looks(m, vin)[j].Some? {
      AvailableIffLook(m, vin[j].prevout);
    }
    hide Look;
  }

  lemma LooksPrefix(m: Utxo, vin: seq<TxIn>)
    requires vin != [] && HaveInputs(m, vin)
    ensures var k := |vin| - 1;
            && Looks(m, vin)[..k] == Looks(m, vin[..k]) && HaveInputs(m, vin[..k])
            && (forall j :: 0 <= j < |vin| ==> Looks(m, vin)[j].Some?) && (forall j :: 0 <= j < k ==> Looks(m, vin[..k])[j].Some?)
            && InValues(Looks(m, vin)) == InValues(Looks(m, vin[..k])) + [OutputAt(m, vin[k].prevout).value]
  {
    InputsLook(m, vin);
    InputsLook(m, vin[..|vin| - 1]);
    AvailableIffLook(m, vin[|vin| - 1].prevout);
    hide Look;
  }

  ghost predicate Deep(coins: seq<Option<Unspent>>, height: int)
    requires forall j :: 0 <= j < |coins| ==> coins[j].Some?
  {
    forall j :: 0 <= j < |coins| && coins[j].value.coinbase ==> height - coins[j].value.height >= 100
  }

  lemma DeepPrefix(coins: seq<Option<Unspent>>, height: int)
    requires coins != [] && forall j :: 0 <= j < |coins| ==> coins[j].Some?
    ensures var k := |coins| - 1;
            Deep(coins, height) <==> Deep(coins[..k], height) && (coins[k].value.coinbase ==> height - coins[k].value.height >= 100)
  {
    var k := |coins| - 1;
    assert forall j :: 0 <= j < k ==> coins[..k][j] == coins[j];
  }

  lemma {:induction false} ScanInputsExact(m: Utxo, vin: seq<TxIn>, height: int)
    requires HaveInputs(m, vin)
    ensures forall j :: 0 <= j < |vin| ==> Looks(m, vin)[j].Some?
    ensures ScanInputs(m, vin, height).Ok? <==> Deep(Looks(m, vin), height) && AmountsAddUp(InValues(Looks(m, vin)))
    ensures ScanInputs(m, vin, height).Ok? ==> ScanInputs(m, vin, height).value == Sum(InValues(Looks(m, vin)))
  {
    InputsLook(m, vin);
    if vin != [] {
      var k := |vin| - 1;
      LooksPrefix(m, vin);
      ScanInputsExact(m, vin[..k], height);
      DeepPrefix(Looks(m, vin), height);
      var values := InValues(Looks(m, vin));
      assert values[..k] == InValues(Looks(m, vin[..k]));
      AmountsPrefix(values);
      AvailableIffLook(m, vin[k].prevout);
      hide Deep, AmountsAddUp, InValues;
    } else {
      assert InValues(Looks(m, vin)) == [];
    }
  }

  // The inputs of a transaction are accepted exactly when it may spend what the view says of them.
  lemma CheckTxInputsExact(m: Utxo, tx: Tx, height: int)
    requires OutputTotal(tx.vout).Ok?
    ensures CheckTxInputs(m, tx, height).Ok? <==> MaySpend(Looks(m, tx.vin), tx, height)
    ensures CheckTxInputs(m, tx, height).Ok? ==>
              MaySpend(Looks(m, tx.vin), tx, height) && CheckTxInputs(m, tx, height).value == Left(Looks(m, tx.vin), tx)
  {
    InputsLook(m, tx.vin);
    OutputTotalExact(tx.vout);
    if HaveInputs(m, tx.vin) {
      ScanInputsExact(m, tx.vin, height);
    }
    hide Looks, InValues, OutputTotal, ScanInputs, ValuesOf, AmountsAddUp, HaveInputs;
  }

  // ----- which blocks are accepted -----

  /** What the inputs of the `i`th transaction name, when those before it are connected. */
  ghost function CoinsFor(m: Utxo, vtx: seq<Tx>, height: int, i: nat): (r: seq<Option<Unspent>>)
    requires i < |vtx|
    ensures |r| == |vtx[i].vin|
  {
    seq(|vtx[i].vin|, j requires 0 <= j < |vtx[i].vin| => Coin(m, vtx[..i], height, vtx[i].vin[j].prevout))
  }

  ghost predicate MaySpendAt(m: Utxo, vtx: seq<Tx>, height: int, i: nat)
    requires i < |vtx|
  {
    MaySpend(CoinsFor(m, vtx, height, i), vtx[i], height)
  }

  /** Every transaction but the coinbase may spend what its inputs name at that point. */
  ghost predicate AllMaySpend(m: Utxo, vtx: seq<Tx>, height: int)
  {
    forall i :: 0 < i < |vtx| ==> MaySpendAt(m, vtx, height, i)
  }

  ghost function Fees(m: Utxo, vtx: seq<Tx>, height: int): (r: seq<int>)
    ensures |r| == |vtx|
  {
    seq(|vtx|, i requires 0 <= i < |vtx| => if i == 0 then 0 else Left(CoinsFor(m, vtx, height, i), vtx[i]))
  }

  lemma CoinsForPrefix(m: Utxo, vtx: seq<Tx>, height: int, i: nat)
    requires vtx != [] && i < |vtx| - 1
    ensures CoinsFor(m, vtx[..|vtx| - 1], height, i) == CoinsFor(m, vtx, height, i) && vtx[..|vtx| - 1][i] == vtx[i]
  {
    assert vtx[..|vtx| - 1][..i] == vtx[..i];
  }

  lemma AllMaySpendPrefix(m: Utxo, vtx: seq<Tx>, height: int)
    requires vtx != []
    ensures var k := |vtx| - 1;
            AllMaySpend(m, vtx, height)
            <==> AllMaySpend(m, vtx[..k], height) && (k > 0 ==> MaySpendAt(m, vtx, height, k))
  {
    var k := |vtx| - 1;
    forall i | 0 < i < k ensures MaySpendAt(m, vtx[..k], height, i) <==> MaySpendAt(m, vtx, height, i) {
      CoinsForPrefix(m, vtx, height, i);
    }
    hide MaySpendAt;
  }

  lemma FeesPrefix(m: Utxo, vtx: seq<Tx>, height: int)
    requires vtx != []
    ensures var k := |vtx| - 1;
            && Fees(m, vtx, height)[..k] == Fees(m, vtx[..k], height)
            && Fees(m, vtx, height)[k] == if k == 0 then 0 else Left(CoinsFor(m, vtx, height, k), vtx[k])
  {
    var k := |vtx| - 1;
    forall i | 0 < i < k ensures Left(CoinsFor(m, vtx[..k], height, i), vtx[..k][i]) == Left(CoinsFor(m, vtx, height, i), vtx[i]) {
      CoinsForPrefix(m, vtx, height, i);
    }
    hide CoinsFor, Left;
  }

  lemma NextCoins(m: Utxo, vtx: seq<Tx>, height: int)
    requires vtx != [] && InputsDistinctInBlock(vtx) && CoinbaseFirst(vtx) && TxidsDistinct(vtx[..|vtx| - 1])
    requires ViewOk(m) && height > 0 && OverwritesNothing(m, vtx) && ConnectTxs(m, vtx[..|vtx| - 1], height).Ok?
    ensures var k := |vtx| - 1;
            Looks(ConnectTxs(m, vtx[..k], height).value.utxo, vtx[k].vin) == CoinsFor(m, vtx, height, k)
  {
    var k := |vtx| - 1;
    CoinbaseFirstPrefix(vtx, k);
    assert OverwritesNothing(m, vtx[..k]);
    hide ConnectTxs, Look, Coin, ViewOk, OutputTotal;
    var m1 := ConnectTxs(m, vtx[..k], height).value.utxo;
    forall j | 0 <= j < |vtx[k].vin| ensures Look(m1, vtx[k].vin[j].prevout) == Coin(m, vtx[..k], height, vtx[k].vin[j].prevout) {
      ConnectedLooks(m, vtx[..k], height, vtx[k].vin[j].prevout);
    }
  }

  lemma ConnectTxExact(st: Progress, tx: Tx, i: nat, height: int)
    requires InputsDistinct(tx.vin) && OutputTotal(tx.vout).Ok?
    ensures ConnectTx(st, tx, i, height).Ok? <==> tx.IsCoinbase() || MaySpend(Looks(st.utxo, tx.vin), tx, height)
    ensures ConnectTx(st, tx, i, height).Ok? ==>
              ConnectTx(st, tx, i, height).value.fees
              == st.fees + if tx.IsCoinbase() then 0 else Left(Looks(st.utxo, tx.vin), tx)
  {
    CheckTxInputsExact(st.utxo, tx, height);
    hide CheckTxInputs, MaySpend, Left, Looks, OutputTotal, InputsDistinct;
  }

  lemma DistinctWhenConnected(m: Utxo, vtx: seq<Tx>, height: int)
    requires InputsDistinctInBlock(vtx) && CoinbaseFirst(vtx) && CollisionFree(vtx)
    requires (forall i :: 0 <= i < |vtx| ==> vtx[i].vin != []) && ViewOk(m) && height > 0 && OverwritesNothing(m, vtx)
    requires ConnectTxs(m, vtx, height).Ok?
    ensures TxidsDistinct(vtx)
  {
    assert vtx[..|vtx|] == vtx;
    AcceptedTxidsDistinct(m, vtx, height, |vtx|);
  }

  lemma NothingToSpend(m: Utxo, height: int)
    ensures AllMaySpend(m, [], height) && Fees(m, [], height) == []
  {
  }

  lemma {:induction false} ConnectTxsExact(m: Utxo, vtx: seq<Tx>, height: int)
    requires InputsDistinctInBlock(vtx) && CoinbaseFirst(vtx) && CollisionFree(vtx)
    requires (forall i :: 0 <= i < |vtx| ==> vtx[i].vin != []) && ViewOk(m) && height > 0 && OverwritesNothing(m, vtx)
    ensures ConnectTxs(m, vtx, height).Ok? <==> AllMaySpend(m, vtx, height)
    ensures ConnectTxs(m, vtx, height).Ok? ==> ConnectTxs(m, vtx, height).value.fees == Sum(Fees(m, vtx, height))
    decreases |vtx|
  {
    hide ConnectTx, AllMaySpend, MaySpend, CoinsFor, Fees, Left, Looks, ViewOk, OutputTotal, InputsDistinct;
    if vtx != [] {
      var k := |vtx| - 1;
      CoinbaseFirstPrefix(vtx, k);
      assert InputsDistinctInBlock(vtx[..k]) && OverwritesNothing(m, vtx[..k]) && CollisionFree(vtx[..k]);
      ConnectTxsExact(m, vtx[..k], height);
      AllMaySpendPrefix(m, vtx, height);
      FeesPrefix(m, vtx, height);
      if ConnectTxs(m, vtx[..k], height).Ok? {
        DistinctWhenConnected(m, vtx[..k], height);
        NextCoins(m, vtx, height);
        ConnectTxExact(ConnectTxs(m, vtx[..k], height).value, vtx[k], k, height);
      }
    } else {
      NothingToSpend(m, height);
    }
  }

  // ----- the subsidy -----

  lemma {:induction false} ShiftDivides(v: nat, k: nat)
    ensures ShiftRight(v, k) == v / Pow2(k)
  {
    if k > 0 {
      ShiftDivides(v, k - 1);
      DivTwice(v, Pow2(k - 1), 2);
    }
  }

  // Fifty coins, halved after every interval; nothing after 64 halvings.
  lemma SubsidyExact(height: nat, interval: int)
    requires interval > 0
    ensures Subsidy(height, interval) == if height / interval < 64 then 50 * 100_000_000 / Pow2(height / interval) else 0
  {
    hide ShiftRight, Pow2;
    if height / interval < 64 {
      ShiftDivides(50 * COIN, height / interval);
    }
  }

  // ----- the verdict on a block -----

  function Sizes(vtx: seq<Tx>): seq<int>
  {
    seq(|vtx|, i requires 0 <= i < |vtx| => vtx[i].size)
  }

  function SigOps(vtx: seq<Tx>): seq<int>
  {
    seq(|vtx|, i requires 0 <= i < |vtx| => vtx[i].sigOps)
  }

  lemma {:induction false} TotalsAreSums(vtx: seq<Tx>)
    ensures TotalSize(vtx) == Sum(Sizes(vtx)) && TotalSigOps(vtx) == Sum(SigOps(vtx))
  {
    if vtx != [] {
      var k := |vtx| - 1;
      TotalsAreSums(vtx[..k]);
      assert Sizes(vtx)[..k] == Sizes(vtx[..k]) && SigOps(vtx)[..k] == SigOps(vtx[..k]);
    }
  }

  predicate IsMint(tx: Tx)
  {
    |tx.vin| == 1 && tx.vin[0].prevout == OutPoint(0, 0xffff_ffff)
  }

  /** What a block must meet by itself. */
  ghost predicate BlockFits(vtx: seq<Tx>)
  {
    && 0 < |vtx| <= 1_000_000 && 80 + GetSizeOfCompactSize(|vtx|) + Sum(Sizes(vtx)) <= 1_000_000
    && (forall i :: 0 <= i < |vtx| ==> (IsMint(vtx[i]) <==> i == 0) && WellFormed(vtx[i]))
    && Sum(SigOps(vtx)) <= 20_000
  }

  lemma BlockExact(vtx: seq<Tx>)
    ensures BlockError(vtx).None? <==> BlockFits(vtx)
  {
    BlockOkIffNoError(vtx);
    TotalsAreSums(vtx);
    forall i | 0 <= i < |vtx| ensures TransactionError(vtx[i]).None? <==> WellFormed(vtx[i]) {
      TransactionExact(vtx[i]);
    }
    hide TransactionError, WellFormed, BlockError, TotalSize, TotalSigOps, Sum;
  }

  /** No transaction has the id of one with unspent outputs, all may spend, and the coinbase pays at most fees and subsidy. */
  ghost predicate BlockPays(m: Utxo, vtx: seq<Tx>, height: nat, interval: int)
    requires interval > 0 && vtx != []
  {
    && (forall i :: 0 <= i < |vtx| ==> vtx[i].hash !in m)
    && AllMaySpend(m, vtx, height)
    && Sum(ValuesOf(vtx[0].vout)) <= Sum(Fees(m, vtx, height)) + if height / interval < 64 then 50 * 100_000_000 / Pow2(height / interval) else 0
  }

  lemma FitsParts(vtx: seq<Tx>)
    requires BlockOk(vtx)
    ensures vtx != [] && InputsDistinctInBlock(vtx) && CoinbaseFirst(vtx)
    ensures forall i :: 0 <= i < |vtx| ==> vtx[i].vin != []
  {
    forall i | 0 <= i < |vtx| ensures vtx[i].vin != [] && InputsDistinct(vtx[i].vin) && OutputTotal(vtx[i].vout).Ok? {
      assert TransactionError(vtx[i]).None?;
    }
  }

  // Main result on the verdict: a block is connected if and only if it meets the
  // rules by itself, its transactions may spend what they name, and it pays.
  lemma ConnectBlockExact(m: Utxo, vtx: seq<Tx>, height: nat, interval: int, scriptsOk: bool)
    requires ViewOk(m) && height > 0 && interval > 0 && CollisionFree(vtx)
    ensures ConnectBlock(m, vtx, height, interval, scriptsOk).Ok?
            <==> BlockFits(vtx) && BlockPays(m, vtx, height, interval) && scriptsOk
  {
    BlockExact(vtx);
    BlockOkIffNoError(vtx);
    if BlockOk(vtx) {
      FitsParts(vtx);
      SubsidyExact(height, interval);
      OutputTotalExact(vtx[0].vout);
      if OverwritesNothing(m, vtx) {
        ConnectTxsExact(m, vtx, height);
      }
    }
    hide BlockError, BlockOk, BlockFits, ConnectTxs, AllMaySpend, Fees, ValuesOf, Subsidy, OutputTotal, ViewOk, InputsDistinct, Pow2;
  }

  // Main result on the view: after an accepted block an output is unspent exactly
  // when it was before or the block made it, and the block does not spend it.
  lemma ConnectBlockLooks(m: Utxo, vtx: seq<Tx>, height: nat, interval: int, scriptsOk: bool, q: OutPoint)
    requires ViewOk(m) && height > 0 && interval > 0 && CollisionFree(vtx)
    requires ConnectBlock(m, vtx, height, interval, scriptsOk).Ok?
    ensures Look(ConnectBlock(m, vtx, height, interval, scriptsOk).value.utxo, q) == Coin(m, vtx, height, q)
    ensures ConnectBlock(m, vtx, height, interval, scriptsOk).value.fees == Sum(Fees(m, vtx, height))
  {
    BlockOkIffNoError(vtx);
    FitsParts(vtx);
    hide BlockOk, BlockError, Look, Coin, Fees, OutputTotal, ViewOk, ConnectTxs, Subsidy;
    ConnectTxsExact(m, vtx, height);
    DistinctWhenConnected(m, vtx, height);
    ConnectedLooks(m, vtx, height, q);
  }

  // ----- what a view is -----

  /** Every output can be named. */
  ghost predicate OutputsNamed(m: Utxo)
  {
    forall k :: k in m ==> |m[k].vout| <= 0x1_0000_0000
  }

  lemma OutputByLook(m: Utxo, m': Utxo, k: Hash, n: Uint32)
    requires k in m && n < |m[k].vout| && !m[k].vout[n].IsNull() && forall q :: Look(m, q) == Look(m', q)
    ensures k in m' && n < |m'[k].vout| && m'[k].vout[n] == m[k].vout[n]
    ensures m'[k].coinbase == m[k].coinbase && m'[k].height == m[k].height && m'[k].version == m[k].version
  {
    assert Look(m, OutPoint(k, n)) == Look(m', OutPoint(k, n));
  }

  lemma RecordByLooks(m: Utxo, m': Utxo, k: Hash)
    requires ViewOk(m) && ViewOk(m') && OutputsNamed(m) && OutputsNamed(m') && k in m && forall q :: Look(m, q) == Look(m', q)
    ensures k in m' && m[k] == m'[k]
  {
    var c := m[k];
    assert RecordOk(c);
    OutputByLook(m, m', k, |c.vout| - 1);
    var c' := m'[k];
    assert RecordOk(c');
    OutputByLook(m', m, k, |c'.vout| - 1);
    forall n | 0 <= n < |c.vout| ensures c.vout[n] == c'.vout[n] {
      if !c.vout[n].IsNull() {
        OutputByLook(m, m', k, n);
      } else if !c'.vout[n].IsNull() {
        OutputByLook(m', m, k, n);
      }
    }
  }

  // Two sound views that say the same of every output are the same.
  lemma SameLooksSameView(m: Utxo, m': Utxo)
    requires ViewOk(m) && ViewOk(m') && OutputsNamed(m) && OutputsNamed(m') && forall q :: Look(m, q) == Look(m', q)
    ensures m == m'
  {
    forall k | k in m ensures k in m' && m[k] == m'[k] {
      RecordByLooks(m, m', k);
    }
    forall k | k in m' ensures k in m {
      RecordByLooks(m', m, k);
    }
  }
}
