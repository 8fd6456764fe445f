// When a step endangers the self-check: for every step the condition under which
// it goes on to pass is exact, since otherwise some run makes it fail.
module BlockGuards {
  import opened Basics
  import opened BlockIndex
  import opened BlockLinking
  import opened BlockPruning
  import opened BlockCheck
  import opened BlockRuns

  // ----- an entry that is lost from sight -----

  /** It was received, is not linked, and no link leads back to it. */
  ghost predicate Lost(s: State, b: CBlockIndex)
  {
    && Counted(s.t, []) && Complete(s.t, [], s.failed, {b}) && s.tip != null
    && b in s.t.blocks && s.t.tx[b] >= 1 && !IsLinked(s.t, b) && !InVain(s.t, s.failed, b)
    && (forall l :: l in s.t.unlinked ==> l.child != b)
    && (forall c :: c in s.candidates ==> IsLinked(s.t, c))
  }

  /** The number of entries from `b` down that are not linked. */
  ghost function UnlinkedBelow(t: Tables, b: CBlockIndex): nat
    requires Tree(b)
    decreases b.nHeight
  {
    (if IsLinked(t, b) then 0 else 1) + if b.pprev == null then 0 else UnlinkedBelow(t, b.pprev)
  }

  /** The lowest entry from `b` down above only linked ones. */
  ghost function Lowest(t: Tables, b: CBlockIndex): CBlockIndex
    requires Tree(b)
    decreases b.nHeight
  {
    if ParentLinked(t, b) then b else Lowest(t, b.pprev)
  }

  lemma {:induction false} LowestIs(t: Tables, b: CBlockIndex)
    requires Shape(t) && b in t.blocks && Tree(b) && !IsLinked(t, b)
    ensures var a := Lowest(t, b);
            a in t.blocks && Tree(a) && !IsLinked(t, a) && ParentLinked(t, a) && Under(a, b) && a.nHeight <= b.nHeight
    decreases b.nHeight
  {
    if !ParentLinked(t, b) {
      LowestIs(t, b.pprev);
    }
  }

  lemma {:induction false} StuckAbove(tx: map<CBlockIndex, nat>, failed: set<CBlockIndex>, a: CBlockIndex, b: CBlockIndex)
    requires Tree(b) && Under(a, b) && Tree(a) && Stuck(tx, failed, a)
    ensures Stuck(tx, failed, b)
    decreases b.nHeight
  {
    if a != b {
      StuckAbove(tx, failed, a, b.pprev);
    }
  }

  lemma {:induction false} FewerUnlinked(t: Tables, t': Tables, a: CBlockIndex, b: CBlockIndex)
    requires Tree(b) && forall c: CBlockIndex :: IsLinked(t, c) ==> IsLinked(t', c)
    ensures UnlinkedBelow(t', b) <= UnlinkedBelow(t, b)
    ensures Under(a, b) && !IsLinked(t, a) && IsLinked(t', a) ==> UnlinkedBelow(t', b) < UnlinkedBelow(t, b)
    decreases b.nHeight
  {
    if b.pprev != null {
      FewerUnlinked(t, t', a, b.pprev);
    }
  }

  // The lowest unlinked ancestor was never received, and can come.
  lemma LowestCanCome(s: State, b: CBlockIndex)
    requires Lost(s, b) && !ParentLinked(s.t, b) && Tree(b)
    ensures b.pprev != null && b.pprev in s.t.blocks && Tree(b.pprev) && !IsLinked(s.t, b.pprev)
    ensures CanHappen(s, BlockArrives(Lowest(s.t, b.pprev), 1)) && ParentLinked(s.t, Lowest(s.t, b.pprev))
    ensures Under(Lowest(s.t, b.pprev), b) && Lowest(s.t, b.pprev) != b && !IsLinked(s.t, Lowest(s.t, b.pprev))
  {
    LowestIs(s.t, b.pprev);
    var a := Lowest(s.t, b.pprev);
    if Stuck(s.t.tx, s.failed, a) {
      StuckAbove(s.t.tx, s.failed, a, b.pprev);
    }
    assert a.pprev != null && Link(a.pprev, a) in s.t.unlinked ==> LinkOk(s.t, Link(a.pprev, a));
  }

  lemma ComesBackParts(s: State, b: CBlockIndex, a: CBlockIndex)
    requires Lost(s, b) && Enabled(s, BlockArrives(a, 1)) && ParentLinked(s.t, a) && a != b
    ensures var s' := After(s, BlockArrives(a, 1));
            && Complete(s'.t, [], s.failed, {b}) && b in s'.t.chainTx && !IsLinked(s'.t, b)
            && (forall l :: l in s'.t.unlinked ==> l.child != b)
  {
    var t1 := WithData(s.t, a, 1);
    ArrivedQueued(s.t, a, 1);
    ArrivedWaits(s.t, s.failed, {b}, a, 1);
    DrainWaits(t1, [a], s.candidates, s.tip, s.failed, {b});
    ArrivedAt(s.t, a, 1, b);
    DrainSkips(t1, [a], s.candidates, s.tip, b);
    hide Counted, Complete, Drain, Tree, InVain;
  }

  lemma AncestorLinked(s: State, a: CBlockIndex)
    requires Enabled(s, BlockArrives(a, 1)) && ParentLinked(s.t, a)
    ensures var s' := After(s, BlockArrives(a, 1));
            && IsLinked(s'.t, a) && Counted(s'.t, []) && s'.t.blocks == s.t.blocks && s'.t.tx == s.t.tx[a := 1] && a in s.t.blocks
            && s'.failed == s.failed && s'.tip == s.tip
            && (forall c: CBlockIndex :: IsLinked(s.t, c) ==> IsLinked(s'.t, c))
            && (forall c :: c in s'.candidates && c !in s.candidates ==> IsLinked(s'.t, c))
  {
    ReceivedKeeps(s.t, s.candidates, s.failed, a, 1, ParentFailed(s, a), s.tip);
    ArrivedQueued(s.t, a, 1);
    LinkedAgain(s.t, a, 1, s.candidates, s.tip);
    var s' := After(s, BlockArrives(a, 1));
    assert s'.t == Drain(WithData(s.t, a, 1), [a], s.candidates, s.tip).0;
    hide Counted, Drain, NothingLost, Received;
  }

  lemma LostIsReceived(s: State, b: CBlockIndex)
    requires Lost(s, b)
    ensures b in s.t.tx && s.t.tx[b] >= 1
  {
    CountedShape(s.t);
  }

  // When an ancestor arrives, the entry stays lost, and fewer are unlinked below.
  lemma StaysLost(s: State, b: CBlockIndex, a: CBlockIndex)
    requires Lost(s, b) && Enabled(s, BlockArrives(a, 1)) && ParentLinked(s.t, a) && a != b && !IsLinked(s.t, a)
    requires Tree(b) && Under(a, b)
    ensures Lost(After(s, BlockArrives(a, 1)), b)
    ensures UnlinkedBelow(After(s, BlockArrives(a, 1)).t, b) < UnlinkedBelow(s.t, b)
  {
    hide Counted, Complete, Arrives, InVain, Tree, After, Under, UnlinkedBelow, IsLinked;
    var s' := After(s, BlockArrives(a, 1));
    ComesBackParts(s, b, a);
    AncestorLinked(s, a);
    InVainStays(s.t, s'.t, s.failed, a, b);
    LostIsReceived(s, b);
    FewerUnlinked(s.t, s'.t, a, b);
  }

  // Once its parent is linked, the check fails for the entry.
  lemma LostFails(s: State, b: CBlockIndex)
    requires Lost(s, b) && ParentLinked(s.t, b)
    ensures !Passes(s)
  {
    CountedShape(s.t);
    assert Tree(b);
    if b.pprev != null {
      LinkedIsProcessed(s.t, b.pprev);
    }
    OldestIsNull(Unprocessed(s.t), b);
    hide Counted, Complete, InVain, Competes, HasLink;
    assert NoneIn(Unprocessed(s.t), b);
    hide Oldest;
    assert !CheckPasses(s, b);
  }

  // Main result on lost entries: the ancestors can arrive, and then the check fails.
  lemma {:induction false} LostIsFound(s: State, b: CBlockIndex) returns (events: seq<Event>, s': State)
    requires Lost(s, b) && Tree(b)
    ensures Run(s, events, s') && !Passes(s')
    ensures forall e :: e in events ==> e.BlockArrives?
    decreases UnlinkedBelow(s.t, b)
  {
    if ParentLinked(s.t, b) {
      LostFails(s, b);
      events, s' := [], s;
    } else {
      LowestCanCome(s, b);
      var e := BlockArrives(Lowest(s.t, b.pprev), 1);
      StaysLost(s, b, e.b);
      var more;
      more, s' := LostIsFound(After(s, e), b);
      events := [e] + more;
      assert events[1..] == more;
      hide Lost, Passes, CanHappen, After, Tree;
    }
  }

  // ----- steps that are not safe -----

  lemma LinksAreOk(t: Tables)
    requires Counted(t, [])
    ensures forall l :: l in t.unlinked ==> LinkOk(t, l)
  {
  }

  // The entry itself is the only one that is not complete.
  lemma ForgottenWaits(t: Tables, failed: set<CBlockIndex>, b: CBlockIndex, n: nat)
    requires Arrives(t, b, n) && b !in failed && Complete(t, [], failed, {})
    ensures Complete(WithData(t, b, n), [], failed, {b})
  {
    ArrivedWaits(t, failed, {}, b, n);
    hide Arrives, InVain, HasLink;
  }

  lemma TipIsThere(s: State, b: CBlockIndex)
    requires Inv(s) && b in s.t.blocks && b.pprev != null
    ensures s.tip != null
  {
  }

  lemma DeletedWaits(t: Tables, t': Tables, failed: set<CBlockIndex>, b: CBlockIndex)
    requires Prunes(t, t', b) && Complete(t, [], failed, {})
    ensures Complete(t', [], failed, {b})
  {
    hide Tree, Stuck, HasLink, IsLinked;
    forall c | c in t'.tx && t'.tx[c] >= 1 && !IsLinked(t', c) && c !in {b} ensures HasLink(t', c) || InVain(t', failed, c) {
      PrunedAt(t, t', b, c);
    }
  }

  lemma DeletableIsReceived(s: State, b: CBlockIndex)
    requires Sound(s) && b in s.t.data && !IsLinked(s.t, b) && !InVain(s.t, s.failed, b)
    ensures b in s.t.blocks && b in s.t.tx && s.t.tx[b] >= 1 && b.pprev != null && Tree(b)
    ensures Complete(s.t, [], s.failed, {}) && Counted(s.t, []) && forall c :: c in s.candidates ==> IsLinked(s.t, c)
  {
    hide Grounded, Offered, TipOk, Stuck, LinkOk, CountOk;
    assert s.t.tx[b] >= 1 && HasLink(s.t, b);
  }

  // Deleting the data of a waiting block.
  lemma DeletedIsLost(s: State, b: CBlockIndex)
    requires Inv(s) && Enabled(s, DataDeleted(b)) && !Safe(s, DataDeleted(b))
    ensures Lost(After(s, DataDeleted(b)), b) && Tree(b)
  {
    hide Counted, Tree, Stuck, Pruned, Sound, Complete, HasLink;
    DeletableIsReceived(s, b);
    PruneKeeps(s.t, b, s.candidates, s.failed, s.tip);
    LinksAreOk(s.t);
    PrunedIs(s.t, b);
    TipIsThere(s, b);
    DeletedWaits(s.t, Pruned(s.t, b), s.failed, b);
  }

  lemma ArrivedParts(t: Tables, failed: set<CBlockIndex>, b: CBlockIndex, n: nat)
    requires Arrives(t, b, n) && !ParentLinked(t, b) && b !in failed && !InVain(t, failed, b.pprev)
    ensures var t' := WithData(t, b, n);
            && Counted(t', []) && b in t'.blocks && b in t'.tx && t'.tx[b] >= 1 && !IsLinked(t', b) && t'.chainTx == t.chainTx
            && !InVain(t', failed, b) && forall l :: l in t'.unlinked ==> l.child != b
    ensures Tree(b)
  {
    ArrivedUnlinked(t, b, n);
    ArrivedLinks(t, b, n);
    InVainAbove(t, failed, b, n);
    CountedShape(t);
    hide Counted, InVain;
  }

  // Leaving a new block without a link.
  lemma ForgottenGetsLost(s: State, b: CBlockIndex, n: nat)
    requires Inv(s) && Enabled(s, BlockArrives(b, n)) && !NotForgotten(s.t, s.failed, b, ParentFailed(s, b))
    ensures Lost(After(s, BlockArrives(b, n)), b) && Tree(b)
  {
    TipIsThere(s, b);
    hide Counted, Tree, InVain, Arrives, Complete, Grounded, Offered, TipOk;
    ArrivedParts(s.t, s.failed, b, n);
    ForgottenWaits(s.t, s.failed, b, n);
  }

  // A block that was deleted while it was a candidate gets a new sequence id.
  lemma GetsNewId(t: Tables, candidates: set<CBlockIndex>, failed: set<CBlockIndex>, b: CBlockIndex, n: nat, parentFailed: bool, tip: CBlockIndex)
    requires Arrives(t, b, n) && ParentLinked(t, b) && TipOk(t, [], tip)
    ensures var t' := Received(t, candidates, b, n, parentFailed, tip).0;
            && b in t'.seqs && t'.seqs[b] == t.next
            && tip in t'.seqs && tip in t.seqs && t'.seqs[tip] == t.seqs[tip] && t.seqs[tip] < t.next
  {
    var t1 := WithData(t, b, n);
    ArrivedQueued(t, b, n);
    ArrivedLinks(t, b, n);
    assert b != tip;
    assert CountOk(t, [], tip);
    DrainSkips(t1, [b], candidates, tip, tip);
    DrainNext(t1, [b], candidates, tip);
    var t2, kids := LinkFront(t1, b), Children(t1.unlinked, b);
    var more := if Competes(t2, b, tip) then {b} else {};
    assert b in kids ==> Link(b, b) in t1.unlinked;
    DrainSkips(t2, [b][1..] + kids, candidates + more, tip, b);
    hide Counted, Drain, Tree;
  }

  lemma FallsBehind(s: State, b: CBlockIndex, n: nat)
    requires Inv(s) && Enabled(s, BlockArrives(b, n)) && b in s.candidates && !Heavier(b, s.tip)
    ensures !Passes(After(s, BlockArrives(b, n)))
  {
    var s' := After(s, BlockArrives(b, n));
    assert IsLinked(s.t, b) && Competes(s.t, b, s.tip) && TipOk(s.t, [], s.tip);
    LinkedParent(s.t, b);
    GetsNewId(s.t, s.candidates, s.failed, b, n, ParentFailed(s, b), s.tip);
    ReceivedKeeps(s.t, s.candidates, s.failed, b, n, ParentFailed(s, b), s.tip);
    CountedShape(s'.t);
    hide Counted, Arrives, Received, NothingLost, Oldest, Active, HasLink;
    assert b in s'.candidates && !Competes(s'.t, b, s'.tip);
    assert Tree(b) ==> !CheckPasses(s', b);
  }

  lemma SafeAlwaysPasses(s: State, e: Event)
    requires Inv(s) && CanHappen(s, e)
    ensures forall events, s' :: Run(After(s, e), events, s') ==> Passes(s')
  {
    EventKeeps(s, e);
    hide Inv, Passes, CanHappen;
    forall events, s' | Run(After(s, e), events, s') ensures Passes(s') {
      EveryRunPassesCheck(After(s, e), events, s');
    }
  }

  lemma UnsafeCanFail(s: State, e: Event)
    requires Inv(s) && Enabled(s, e) && !Safe(s, e)
    ensures exists events, s' :: Run(After(s, e), events, s') && !Passes(s')
  {
    var s1 := After(s, e);
    hide Inv, Lost, Enabled, NotForgotten, Heavier, InVain, Passes, After;
    if e.DataDeleted? {
      DeletedIsLost(s, e.b);
      var events, s' := LostIsFound(s1, e.b);
    } else if NotForgotten(s.t, s.failed, e.b, ParentFailed(s, e.b)) {
      FallsBehind(s, e.b, e.n);
      assert Run(s1, [], s1);
    } else {
      ForgottenGetsLost(s, e.b, e.n);
      var events, s' := LostIsFound(s1, e.b);
    }
  }

  // Main result on steps: the self-check passes however the run goes on, if and
  // only if the step is safe.
  lemma SafeIsExact(s: State, e: Event)
    requires Inv(s) && Enabled(s, e)
    ensures (forall events, s' :: Run(After(s, e), events, s') ==> Passes(s')) <==> Safe(s, e)
  {
    if Safe(s, e) {
      SafeAlwaysPasses(s, e);
    } else {
      UnsafeCanFail(s, e);
    }
    hide *;
  }
}
