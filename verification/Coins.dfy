// Transactions, and the pruned record a view keeps of one: its metadata and
// those of its outputs that are still unspent.
module Coins {
  import opened Basics

  const COIN: int := 100_000_000

  const MAX_MONEY: int := 21_000_000 * COIN

  const OP_RETURN: int := 0x6a

  const MAX_UINT32: int := 0xffff_ffff

  type Byte = b: int | 0 <= b < 256

  type Uint32 = n: int | 0 <= n <= MAX_UINT32

  predicate MoneyRange(value: int)
  {
    0 <= value <= MAX_MONEY
  }

  datatype OutPoint = OutPoint(hash: Hash, n: Uint32) {
    predicate IsNull()
    {
      hash == 0 && n == MAX_UINT32
    }
  }

  datatype TxIn = TxIn(prevout: OutPoint, scriptSig: seq<Byte>)

  datatype TxOut = TxOut(value: int, script: seq<Byte>) {
    predicate IsNull()
    {
      value == -1
    }

    predicate IsUnspendable()
    {
      |script| > 0 && script[0] == OP_RETURN
    }
  }

  const NULL_OUT := TxOut(-1, [])

  /** `size` is the length of the serialised form, `sigOps` the number of signature operations in its scripts. */
  datatype Tx = Tx(hash: Hash, version: int, vin: seq<TxIn>, vout: seq<TxOut>, size: nat, sigOps: nat) {
    predicate IsCoinbase()
    {
      |vin| == 1 && vin[0].prevout.IsNull()
    }
  }

  datatype Coins = Coins(coinbase: bool, vout: seq<TxOut>, height: int, version: int) {
    predicate IsPruned()
    {
      forall i :: 0 <= i < |vout| ==> vout[i].IsNull()
    }

    predicate IsAvailable(n: nat)
    {
      n < |vout| && !vout[n].IsNull()
    }

    /** What `Cleanup` establishes: no spent output at the end of the array. */
    predicate IsClean()
    {
      |vout| > 0 ==> !vout[|vout| - 1].IsNull()
    }

    /** Two fully spent records count as equal, whatever their metadata. */
    predicate Same(that: Coins)
    {
      (IsPruned() && that.IsPruned()) || this == that
    }
  }

  const EMPTY_COINS := Coins(false, [], 0, 0)

  // ----- dropping spent outputs at the end -----

  function Trim(vout: seq<TxOut>): seq<TxOut>
  {
    if |vout| > 0 && vout[|vout| - 1].IsNull() then Trim(vout[..|vout| - 1]) else vout
  }

  lemma {:induction false} TrimIsLongestCleanPrefix(vout: seq<TxOut>)
    ensures Trim(vout) <= vout
    ensures |Trim(vout)| > 0 ==> !vout[|Trim(vout)| - 1].IsNull()
    ensures forall i :: |Trim(vout)| <= i < |vout| ==> vout[i].IsNull()
  {
    if |vout| > 0 && vout[|vout| - 1].IsNull() {
      TrimIsLongestCleanPrefix(vout[..|vout| - 1]);
    }
  }

  lemma PrunedIffTrimEmpty(c: Coins)
    ensures c.IsPruned() <==> Trim(c.vout) == []
    ensures c.(vout := Trim(c.vout)).IsPruned() <==> c.IsPruned()
  {
    TrimIsLongestCleanPrefix(c.vout);
    var t := Trim(c.vout);
    if |t| > 0 {
      assert !c.vout[|t| - 1].IsNull();
      assert t[|t| - 1] == c.vout[|t| - 1];
    }
  }

  lemma TrimOfClean(c: Coins)
    requires c.IsClean()
    ensures c.(vout := Trim(c.vout)) == c
  {
  }

  lemma TrimTwice(vout: seq<TxOut>)
    ensures Trim(Trim(vout)) == Trim(vout)
  {
    TrimIsLongestCleanPrefix(vout);
  }

  method Cleanup(c: Coins) returns (r: Coins)
    ensures r == c.(vout := Trim(c.vout)) && r.IsClean()
  {
    var n := |c.vout|;
    assert c.vout[..n] == c.vout;
    while n > 0 && c.vout[n - 1].IsNull()
      invariant 0 <= n <= |c.vout|
      invariant Trim(c.vout[..n]) == Trim(c.vout)
    {
      assert c.vout[..n][..n - 1] == c.vout[..n - 1];
      n := n - 1;
    }
    r := c.(vout := c.vout[..n]);
  }

  // ----- spending one output, and putting it back -----

  function SpendAt(vout: seq<TxOut>, n: nat): seq<TxOut>
    requires n < |vout|
  {
    Trim(vout[n := NULL_OUT])
  }

  method Spend(c: Coins, n: nat) returns (ok: bool, r: Coins)
    ensures ok == c.IsAvailable(n)
    ensures r == if ok then c.(vout := SpendAt(c.vout, n)) else c
  {
    if n >= |c.vout| || c.vout[n].IsNull() {
      return false, c;
    }
    r := c.(vout := c.vout[n := NULL_OUT]);
    r := Cleanup(r);
    ok := true;
  }

  function Pad(vout: seq<TxOut>, size: nat): seq<TxOut>
  {
    if |vout| < size then vout + seq(size - |vout|, _ => NULL_OUT) else vout
  }

  function RestoreAt(vout: seq<TxOut>, n: nat, out: TxOut): seq<TxOut>
  {
    Pad(vout, n + 1)[n := out]
  }

  /** Spent outputs carry nothing but the null marker. */
  predicate NullsAreCanonical(vout: seq<TxOut>)
  {
    forall i :: 0 <= i < |vout| && vout[i].IsNull() ==> vout[i] == NULL_OUT
  }

  lemma RestoreUndoesSpend(c: Coins, n: nat)
    requires c.IsClean() && NullsAreCanonical(c.vout) && c.IsAvailable(n)
    ensures RestoreAt(SpendAt(c.vout, n), n, c.vout[n]) == c.vout
  {
    var w := c.vout[n := NULL_OUT];
    TrimIsLongestCleanPrefix(w);
    if n < |c.vout| - 1 {
      assert Trim(w) == w;
    }
  }

  // ----- taking a record from a transaction -----

  function WithoutUnspendable(vout: seq<TxOut>): seq<TxOut>
  {
    seq(|vout|, i requires 0 <= i < |vout| => if vout[i].IsUnspendable() then NULL_OUT else vout[i])
  }

  function FromTx(tx: Tx, height: int): Coins
  {
    Coins(tx.IsCoinbase(), Trim(WithoutUnspendable(tx.vout)), height, tx.version)
  }

  method ClearUnspendable(c: Coins) returns (r: Coins)
    ensures r == c.(vout := Trim(WithoutUnspendable(c.vout))) && r.IsClean()
  {
    var vout := c.vout;
    for i := 0 to |vout|
      invariant |vout| == |c.vout|
      invariant forall j :: 0 <= j < i ==> vout[j] == WithoutUnspendable(c.vout)[j]
      invariant forall j :: i <= j < |vout| ==> vout[j] == c.vout[j]
    {
      if vout[i].IsUnspendable() {
        vout := vout[i := NULL_OUT];
      }
    }
    assert vout == WithoutUnspendable(c.vout);
    r := Cleanup(c.(vout := vout));
  }

  // Clearing a record a second time changes nothing.
  lemma ClearUnspendableIdempotent(vout: seq<TxOut>)
    ensures Trim(WithoutUnspendable(Trim(WithoutUnspendable(vout)))) == Trim(WithoutUnspendable(vout))
  {
    var w := WithoutUnspendable(vout);
    var t := Trim(w);
    TrimIsLongestCleanPrefix(w);
    assert WithoutUnspendable(t) == t;
  }

  // ----- values -----

  function OutsValue(vout: seq<TxOut>): int
  {
    if vout == [] then 0
    else OutsValue(vout[..|vout| - 1]) +
         if vout[|vout| - 1].IsNull() then 0 else vout[|vout| - 1].value
  }

  lemma {:induction false} OutsValueUpdate(vout: seq<TxOut>, n: nat, out: TxOut)
    requires n < |vout|
    ensures OutsValue(vout[n := out]) ==
            OutsValue(vout) - (if vout[n].IsNull() then 0 else vout[n].value) + if out.IsNull() then 0 else out.value
  {
    var k := |vout| - 1;
    if n == k {
      assert vout[n := out][..k] == vout[..k];
    } else {
      OutsValueUpdate(vout[..k], n, out);
      assert vout[n := out][..k] == vout[..k][n := out];
    }
  }

  lemma {:induction false} OutsValueTrim(vout: seq<TxOut>)
    ensures OutsValue(Trim(vout)) == OutsValue(vout)
  {
    if |vout| > 0 && vout[|vout| - 1].IsNull() {
      OutsValueTrim(vout[..|vout| - 1]);
    }
  }

  predicate ValuesInRange(vout: seq<TxOut>)
  {
    forall i :: 0 <= i < |vout| && !vout[i].IsNull() ==> MoneyRange(vout[i].value)
  }

  lemma {:induction false} OutsValueBounds(vout: seq<TxOut>, n: nat)
    requires ValuesInRange(vout)
    ensures OutsValue(vout) >= 0
    ensures n < |vout| && !vout[n].IsNull() ==> vout[n].value <= OutsValue(vout)
  {
    if vout != [] {
      OutsValueBounds(vout[..|vout| - 1], n);
    }
  }

  // Dropping unspendable outputs can only lower the value.
  lemma {:induction false} UnspendableOnlyBurns(vout: seq<TxOut>)
    requires ValuesInRange(vout)
    ensures OutsValue(WithoutUnspendable(vout)) <= OutsValue(vout)
  {
    if vout != [] {
      var k := |vout| - 1;
      UnspendableOnlyBurns(vout[..k]);
      assert WithoutUnspendable(vout)[..k] == WithoutUnspendable(vout[..k]);
    }
  }
}
