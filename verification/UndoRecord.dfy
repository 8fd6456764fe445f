// The stored form of what undoing one input needs.  Height, flag and version
// are there only for the last output of a transaction.
module UndoRecord {
  import opened Wrappers
  import opened Coins
  import opened Ledger
  import opened VarInt
  import opened ScriptCodec

  function UndoCode(u: TxInUndo): int
  {
    u.height * 2 + if u.coinbase then 1 else 0
  }

  function UndoSerialized(curve: Curve, u: TxInUndo): seq<Byte>
  {
    Written(UndoCode(u)) + (if u.height > 0 then Written(u.version) else []) + WriteOut(curve, u.out)
  }

  /** Reads into a fresh entry, whose version is zero unless one is stored. */
  function UndoUnserialized(curve: Curve, s: seq<Byte>): Option<Read<TxInUndo>>
  {
    match ReadFrom(s, 0)
    case None => None
    case Some(code) =>
      var height := code.value / 2;
      match if height > 0 then ReadFrom(code.rest, 0) else Some(Read(0, code.rest))
      case None => None
      case Some(version) =>
        match ReadOut(curve, version.rest)
        case None => None
        case Some(out) => Some(Read(TxInUndo(out.value, code.value % 2 == 1, height, version.value), out.rest))
  }

  lemma CodeHalves(height: nat, coinbase: bool)
    ensures var code := height * 2 + if coinbase then 1 else 0;
            code / 2 == height && (code % 2 == 1 <==> coinbase)
  {
  }

  // Undo data comes back unchanged exactly when its version is not negative
  // and, without a height, is zero.
  lemma StoredUndoComesBack(curve: Curve, u: TxInUndo, rest: seq<Byte>)
    requires Lawful(curve) && MoneyRange(u.out.value) && u.height >= 0
    ensures UndoUnserialized(curve, UndoSerialized(curve, u) + rest) == Some(Read(u, rest))
            <==> u.version >= 0 && (u.height == 0 ==> u.version == 0)
  {
    hide Written, ReadFrom, WriteOut, ReadOut, Lawful;
    var tail := WriteOut(curve, u.out) + rest;
    ReadWriteOut(curve, u.out, rest);
    CodeHalves(u.height, u.coinbase);
    if u.height > 0 {
      ReadWritten(UndoCode(u), Written(u.version) + tail);
      ReadWritten(u.version, tail);
      assert UndoSerialized(curve, u) + rest == Written(UndoCode(u)) + (Written(u.version) + tail);
    } else {
      ReadWritten(UndoCode(u), tail);
      assert UndoSerialized(curve, u) + rest == Written(UndoCode(u)) + tail;
    }
  }
}
