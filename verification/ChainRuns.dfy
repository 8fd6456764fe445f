// Whole runs of the node's view: blocks connected on top and disconnected
// again, in any order.
module ChainRuns {
  import opened Wrappers
  import opened Coins
  import opened Ledger
  import opened BlockRules
  import opened UndoProofs
  import opened Supply

  /** The active blocks above genesis, the undo data on disk for each, and the view. */
  datatype Active = Active(blocks: seq<seq<Tx>>, undos: seq<seq<TxUndo>>, view: Utxo)

  datatype Step = ConnectTip(vtx: seq<Tx>, scriptsOk: bool) | DisconnectTip

  const START := Active([], [], map[])

  /** A refused block leaves the view alone: it was tried on a cache that is thrown away. */
  ghost function Apply(s: Active, step: Step, interval: int): Option<Active>
    requires interval > 0 && |s.undos| == |s.blocks|
    ensures Apply(s, step, interval).Some? ==>
              |Apply(s, step, interval).value.undos| == |Apply(s, step, interval).value.blocks|
  {
    match step
    case ConnectTip(vtx, scriptsOk) =>
      (match ConnectBlock(s.view, vtx, |s.blocks| + 1, interval, scriptsOk)
       case Err(_) => Some(s)
       case Ok(st) => Some(Active(s.blocks + [vtx], s.undos + [st.undo], st.utxo)))
    case DisconnectTip =>
      if s.blocks == [] then Some(s)
      else
        var n := |s.blocks| - 1;
        if s.blocks[n] != [] && !UndoFits(s.blocks[n], s.undos[n]) then None
        else
          match DisconnectTxs(s.view, s.blocks[n], s.undos[n], n + 1)
          case None => None
          case Some(m) => Some(Active(s.blocks[..n], s.undos[..n], m))
  }

  /** The state after all steps; `None` once a disconnect was not clean. */
  ghost function Run(steps: seq<Step>, interval: int): (r: Option<Active>)
    requires interval > 0
    ensures r.Some? ==> |r.value.undos| == |r.value.blocks|
  {
    if steps == [] then Some(START)
    else
      match Run(steps[..|steps| - 1], interval)
      case None => None
      case Some(s) => Apply(s, steps[|steps| - 1], interval)
  }

  ghost predicate AcceptedAs(before: Utxo, vtx: seq<Tx>, height: nat, interval: int, undo: seq<TxUndo>, after: Utxo)
    requires interval > 0
  {
    var r := ConnectBlock(before, vtx, height, interval, true);
    r.Ok? && r.value.undo == undo && r.value.utxo == after
  }

  /** The view that the active blocks alone determine, and the undo data they record. */
  ghost predicate IsChain(s: Active, interval: int)
    requires interval > 0 && |s.undos| == |s.blocks|
    decreases |s.blocks|
  {
    if s.blocks == [] then s.view == map[]
    else
      var n := |s.blocks| - 1;
      exists before: Utxo ::
        && IsChain(Active(s.blocks[..n], s.undos[..n], before), interval)
        && CollisionFree(s.blocks[n])
        && AcceptedAs(before, s.blocks[n], n + 1, interval, s.undos[n], s.view)
  }

  lemma SameInitAndLast<T>(a: seq<T>, b: seq<T>)
    requires a != [] && |a| == |b| && a[..|a| - 1] == b[..|a| - 1] && a[|a| - 1] == b[|a| - 1]
    ensures a == b
  {
    assert a == a[..|a| - 1] + [a[|a| - 1]] == b;
  }

  // The blocks determine the view: how the node got to them does not matter.
  lemma {:induction false} ChainDeterminesView(s: Active, s': Active, interval: int)
    requires interval > 0 && |s.undos| == |s.blocks| && |s'.undos| == |s'.blocks|
    requires IsChain(s, interval) && IsChain(s', interval)
    requires s.blocks == s'.blocks
    ensures s == s'
    decreases |s.blocks|
  {
    hide ConnectBlock;
    if s.blocks == [] {
    } else {
      var n := |s.blocks| - 1;
      var before :|
        && IsChain(Active(s.blocks[..n], s.undos[..n], before), interval)
        && AcceptedAs(before, s.blocks[n], n + 1, interval, s.undos[n], s.view);
      var before' :|
        && IsChain(Active(s'.blocks[..n], s'.undos[..n], before'), interval)
        && AcceptedAs(before', s'.blocks[n], n + 1, interval, s'.undos[n], s'.view);
      ChainDeterminesView(Active(s.blocks[..n], s.undos[..n], before), Active(s'.blocks[..n], s'.undos[..n], before'), interval);
      hide IsChain;
      SameInitAndLast(s.undos, s'.undos);
    }
  }

  lemma EmptyView()
    ensures ViewOk(map[]) && Total(map[]) == 0
  {
    assert Values(map[]) == map[];
  }

  lemma {:induction false} ChainSupply(s: Active, interval: int)
    requires interval > 0 && |s.undos| == |s.blocks| && IsChain(s, interval)
    ensures ViewOk(s.view)
    ensures 0 <= Total(s.view) <= SubsidySum(|s.blocks|, interval)
    decreases |s.blocks|
  {
    hide ConnectBlock, Subsidy, ViewOk;
    if s.blocks == [] {
      EmptyView();
    } else {
      var n := |s.blocks| - 1;
      var before :|
        && IsChain(Active(s.blocks[..n], s.undos[..n], before), interval)
        && AcceptedAs(before, s.blocks[n], n + 1, interval, s.undos[n], s.view);
      ChainSupply(Active(s.blocks[..n], s.undos[..n], before), interval);
      ConnectKeepsViewOk(before, s.blocks[n], n + 1, interval, true);
      BlockAddsAtMostSubsidy(before, s.blocks[n], n + 1, interval, true);
      RecordBelowTotal(s.view, 0);
    }
  }

  predicate StepOk(step: Step)
  {
    step.ConnectTip? ==> CollisionFree(step.vtx)
  }

  lemma ExtendChain(s: Active, vtx: seq<Tx>, st: Progress, interval: int)
    requires interval > 0 && |s.undos| == |s.blocks|
    requires IsChain(s, interval) && CollisionFree(vtx)
    requires ConnectBlock(s.view, vtx, |s.blocks| + 1, interval, true) == Ok(st)
    ensures IsChain(Active(s.blocks + [vtx], s.undos + [st.undo], st.utxo), interval)
  {
    hide ConnectBlock, CollisionFree;
    var t := Active(s.blocks + [vtx], s.undos + [st.undo], st.utxo);
    var n := |s.blocks|;
    assert Active(t.blocks[..n], t.undos[..n], s.view) == s;
    assert AcceptedAs(s.view, t.blocks[n], n + 1, interval, t.undos[n], t.view);
  }

  lemma ScriptsOkWhenAccepted(m: Utxo, vtx: seq<Tx>, height: nat, interval: int, scriptsOk: bool)
    requires interval > 0 && ConnectBlock(m, vtx, height, interval, scriptsOk).Ok?
    ensures scriptsOk
  {
    BlockOkIffNoError(vtx);
  }

  lemma ApplyKeepsChain(s: Active, step: Step, interval: int)
    requires interval > 0 && |s.undos| == |s.blocks|
    requires IsChain(s, interval) && StepOk(step)
    ensures Apply(s, step, interval).Some? && IsChain(Apply(s, step, interval).value, interval)
  {
    hide ConnectBlock, DisconnectTxs;
    match step
    case ConnectTip(vtx, scriptsOk) =>
      var r := ConnectBlock(s.view, vtx, |s.blocks| + 1, interval, scriptsOk);
      if r.Ok? {
        ScriptsOkWhenAccepted(s.view, vtx, |s.blocks| + 1, interval, scriptsOk);
        ExtendChain(s, vtx, r.value, interval);
      }
    case DisconnectTip =>
      if s.blocks != [] {
        var n := |s.blocks| - 1;
        var before :|
          && IsChain(Active(s.blocks[..n], s.undos[..n], before), interval)
          && AcceptedAs(before, s.blocks[n], n + 1, interval, s.undos[n], s.view);
        ChainSupply(Active(s.blocks[..n], s.undos[..n], before), interval);
        DisconnectUndoesConnect(before, s.blocks[n], n + 1, interval, true);
      }
  }

  // Main theorem on runs.  Whatever blocks are offered and however often the
  // node reorganises: no disconnect is ever unclean, the view is the one that
  // the active blocks alone determine, and the money in it never exceeds the
  // subsidies of those blocks.
  lemma {:induction false} EveryRunIsSound(steps: seq<Step>, interval: int)
    requires interval > 0
    requires forall i :: 0 <= i < |steps| ==> StepOk(steps[i])
    ensures Run(steps, interval).Some?
    ensures var s := Run(steps, interval).value;
            && IsChain(s, interval)
            && ViewOk(s.view)
            && 0 <= Total(s.view) <= SubsidySum(|s.blocks|, interval)
            && (interval == 210_000 ==> Total(s.view) <= MAX_MONEY)
  {
    hide Apply, SubsidySum, ViewOk;
    if steps == [] {
      assert IsChain(START, interval);
    } else {
      var k := |steps| - 1;
      EveryRunIsSound(steps[..k], interval);
      ApplyKeepsChain(Run(steps[..k], interval).value, steps[k], interval);
    }
    var s := Run(steps, interval).value;
    ChainSupply(s, interval);
    if interval == 210_000 {
      SubsidiesWithinMaxMoney(|s.blocks|);
    }
  }

  // Two histories that end with the same active blocks end with the same view.
  lemma HistoryDoesNotMatter(steps: seq<Step>, steps': seq<Step>, interval: int)
    requires interval > 0
    requires forall i :: 0 <= i < |steps| ==> StepOk(steps[i])
    requires forall i :: 0 <= i < |steps'| ==> StepOk(steps'[i])
    requires Run(steps, interval).Some? && Run(steps', interval).Some?
    requires Run(steps, interval).value.blocks == Run(steps', interval).value.blocks
    ensures Run(steps, interval).value.view == Run(steps', interval).value.view
  {
    hide Run, IsChain;
    EveryRunIsSound(steps, interval);
    EveryRunIsSound(steps', interval);
    ChainDeterminesView(Run(steps, interval).value, Run(steps', interval).value, interval);
  }
}
