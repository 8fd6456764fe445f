// Runs of a block store: headers and blocks arrive, blocks fail, old data is
// deleted, chains that cannot be used are removed, and the tip moves.
module BlockRuns {
  import opened Basics
  import opened BlockIndex
  import opened BlockLinking
  import opened BlockPruning
  import opened BlockCheck
  import opened BlockArrival

  /** `failedValid` are the entries that failed themselves, `failed` are all with a failure mark. */
  datatype State = State(t: Tables, candidates: set<CBlockIndex>, failed: set<CBlockIndex>, failedValid: set<CBlockIndex>,
                         tip: CBlockIndex?, havePruned: bool)

  datatype Event =
    | HeaderArrives(b: CBlockIndex)
    | BlockArrives(b: CBlockIndex, n: nat)
    | BlockFails(b: CBlockIndex, erased: bool)
    | DataDeleted(b: CBlockIndex)
    | ChainRemoved(x: CBlockIndex, gone: set<CBlockIndex>, links: seq<Link>)
    | TipMoves(p: CBlockIndex)

  // ----- steps -----

  /** When the code takes the step. */
  ghost predicate Enabled(s: State, e: Event)
  {
    match e
    case HeaderArrives(b) =>
      b !in s.t.blocks && Tree(b) && if b.pprev == null then s.t.blocks == {} else b.pprev in s.t.blocks && s.tip != null
    case BlockArrives(b, n) => Arrives(s.t, b, n) && b !in s.failed
    case BlockFails(b, erased) => b in s.t.blocks && !Active(s.tip, b)
    case DataDeleted(b) => b in s.t.data && b != s.tip
    case ChainRemoved(x, gone, links) =>
      TakesOut(s.t, s.failed, x, gone, links) && forall c :: c in gone + {x} ==> !Active(s.tip, c)
    case TipMoves(p) => p in s.t.data && IsLinked(s.t, p) && Competes(s.t, p, s.tip) && Tree(p) && UsableFrom(s.t.data, s.failed, s.tip, p)
  }

  ghost predicate ParentFailed(s: State, b: CBlockIndex)
  {
    b.pprev != null && b.pprev in s.failed
  }

  ghost function After(s: State, e: Event): State
    requires Enabled(s, e)
  {
    match e
    case HeaderArrives(b) => s.(t := WithEntry(s.t, b))
    case BlockArrives(b, n) =>
      var (t', candidates') := Received(s.t, s.candidates, b, n, ParentFailed(s, b), s.tip);
      s.(t := t', candidates := candidates')
    case BlockFails(b, erased) =>
      s.(failed := s.failed + {b}, failedValid := s.failedValid + {b}, candidates := s.candidates - if erased then {b} else {})
    case DataDeleted(b) => s.(t := Pruned(s.t, b), havePruned := true)
    case ChainRemoved(x, gone, links) =>
      s.(t := s.t.(unlinked := s.t.unlinked + links), candidates := s.candidates - gone - {x},
         failed := s.failed + if x in s.failed then gone else {})
    case TipMoves(p) => s.(tip := p, candidates := NotWorse(s.t, s.candidates, p))
  }

  /**
   * The condition on a step under which the self-check goes on to pass: a block
   * that arrives is not forgotten, and as a candidate it does not fall behind the
   * tip; deleted data does not belong to a waiting block, unless that waits in vain.
   */
  ghost predicate Safe(s: State, e: Event)
  {
    match e
    case BlockArrives(b, n) =>
      NotForgotten(s.t, s.failed, b, ParentFailed(s, b)) && (b in s.candidates ==> Heavier(b, s.tip))
    case DataDeleted(b) => IsLinked(s.t, b) || InVain(s.t, s.failed, b)
    case _ => true
  }

  ghost predicate CanHappen(s: State, e: Event)
  {
    Enabled(s, e) && Safe(s, e)
  }

  // ----- what every step keeps -----

  /** There is one first block; before a chain is active, there is nothing else. */
  ghost predicate Rooted(t: Tables, tip: CBlockIndex?)
  {
    && (forall b, c :: b in t.blocks && c in t.blocks && b.pprev == null && c.pprev == null ==> b == c)
    && (tip == null ==> forall b :: b in t.blocks ==> b.pprev == null)
  }

  ghost predicate Sound(s: State)
  {
    && Counted(s.t, []) && NothingLost(s.t, [], s.candidates, s.failed, s.tip)
    && Settled(s.t, [], s.candidates, s.tip) && NoneWaits(s.t, s.tip)
  }

  ghost predicate Marked(s: State)
  {
    Founded(s.failed, s.failedValid) && TipUnmarked(s.failed, s.tip)
  }

  ghost predicate Inv(s: State)
  {
    Sound(s) && Marked(s) && Rooted(s.t, s.tip) && (!s.havePruned ==> Missing(s.t) == Unprocessed(s.t))
  }

  const EMPTY_STORE := State(Tables({}, {}, map[], map[], map[], [], 1), {}, {}, {}, null, false)

  lemma EmptyStoreInv()
    ensures Inv(EMPTY_STORE)
  {
  }

  lemma CountedShape(t: Tables)
    requires Counted(t, [])
    ensures Shape(t)
  {
  }

  lemma HeaderEvent(s: State, b: CBlockIndex)
    requires Inv(s) && Enabled(s, HeaderArrives(b))
    ensures Inv(After(s, HeaderArrives(b)))
  {
    hide Tree, NothingLost, Settled, Founded, Counted, TipUnmarked, Active;
    assert Shape(s.t) by {
      CountedShape(s.t);
    }
    HeaderKeeps(s.t, b, s.candidates, s.failed, s.tip);
    HeaderSettles(s.t, b, s.candidates, s.tip);
    var t' := WithEntry(s.t, b);
    assert s.t.tx.Keys == s.t.blocks && s.t.data <= s.t.blocks;
    assert Missing(t') == Missing(s.t) + {b} && Unprocessed(t') == Unprocessed(s.t) + {b};
  }

  lemma TipInStore(s: State)
    requires Sound(s) && s.tip != null
    ensures s.tip in s.t.blocks && IsLinked(s.t, s.tip) && Tree(s.tip)
  {
  }

  lemma ReceivedWaitsForNone(s: State, b: CBlockIndex, n: nat)
    requires Sound(s) && Enabled(s, BlockArrives(b, n))
    ensures NoneWaits(After(s, BlockArrives(b, n)).t, s.tip)
  {
    ReceivedLinks(s.t, s.candidates, b, n, ParentFailed(s, b), s.tip);
    hide NothingLost, Settled, Arrives, Received, Under;
    if b.pprev != null && Active(s.tip, b.pprev) {
      TipInStore(s);
      LinkedDown(s.t, s.tip, b.pprev);
    }
    hide Counted;
  }

  lemma ReceivedMissing(t: Tables, t': Tables, b: CBlockIndex, n: nat)
    requires t.tx.Keys == t.blocks && b in t.blocks && n >= 1
    requires t'.blocks == t.blocks && t'.data == t.data + {b} && t'.tx == t.tx[b := n]
    ensures Missing(t) == Unprocessed(t) ==> Missing(t') == Unprocessed(t')
  {
    assert Missing(t') == Missing(t) - {b};
    assert Unprocessed(t') == Unprocessed(t) - {b};
  }

  lemma ArrivesInStore(t: Tables, b: CBlockIndex, n: nat)
    requires Arrives(t, b, n)
    ensures t.tx.Keys == t.blocks && b in t.blocks && n >= 1
  {
  }

  lemma BlockEvent(s: State, b: CBlockIndex, n: nat)
    requires Inv(s) && CanHappen(s, BlockArrives(b, n))
    ensures Inv(After(s, BlockArrives(b, n)))
  {
    hide NothingLost, Settled, Arrives, Received, NotForgotten, Heavier, Founded, TipUnmarked, Active;
    ReceivedKeeps(s.t, s.candidates, s.failed, b, n, ParentFailed(s, b), s.tip);
    ReceivedSettles(s.t, s.candidates, s.failed, b, n, ParentFailed(s, b), s.tip);
    ReceivedWaitsForNone(s, b, n);
    ArrivesInStore(s.t, b, n);
    ReceivedMissing(s.t, After(s, BlockArrives(b, n)).t, b, n);
    hide Counted, NoneWaits;
  }

  lemma SettledHasTip(s: State)
    requires Sound(s)
    ensures s.tip != null ==> s.tip in s.candidates
  {
  }

  lemma FailedKeeps(t: Tables, candidates: set<CBlockIndex>, failed: set<CBlockIndex>, tip: CBlockIndex?, b: CBlockIndex, erased: bool)
    requires NothingLost(t, [], candidates, failed, tip)
    ensures NothingLost(t, [], candidates - (if erased then {b} else {}), failed + {b}, tip)
  {
    MoreFailedWaits(t, failed, failed + {b});
    hide Complete, Grounded, Worse, HasLink;
    forall c | c in t.data && Eligible(t, failed + {b}, tip, c) ensures c in candidates - (if erased then {b} else {}) || HasLink(t, c) {
      FewerFailed(failed, failed + {b}, c);
      assert Eligible(t, failed, tip, c);
    }
  }

  lemma FailEvent(s: State, b: CBlockIndex, erased: bool)
    requires Inv(s) && Enabled(s, BlockFails(b, erased))
    ensures Inv(After(s, BlockFails(b, erased)))
  {
    hide Tree, NothingLost, Settled, Founded, Counted, TipUnmarked;
    assert Tree(b) && (s.tip != null ==> Tree(s.tip)) by {
      CountedShape(s.t);
      if s.tip != null { TipInStore(s); }
    }
    FailedKeeps(s.t, s.candidates, s.failed, s.tip, b, erased);
    OneMoreFailed(s.failed, s.failedValid, b);
    TipStaysUnmarked(s.failed, {b}, s.tip);
    assert b != s.tip;
    SettledHasTip(s);
    FewerLinksSettle(s.t, s.t, s.candidates, After(s, BlockFails(b, erased)).candidates, s.tip);
  }

  lemma DeleteEvent(s: State, b: CBlockIndex)
    requires Inv(s) && CanHappen(s, DataDeleted(b))
    ensures Inv(After(s, DataDeleted(b)))
  {
    hide Tree, NothingLost, Settled, Founded, TipUnmarked, Active, InVain;
    PruneKeeps(s.t, b, s.candidates, s.failed, s.tip);
    PrunedIs(s.t, b);
    SettledHasTip(s);
    FewerLinksSettle(s.t, Pruned(s.t, b), s.candidates, s.candidates, s.tip);
    hide Counted, Pruned;
  }

  lemma TipNotRemoved(s: State, x: CBlockIndex, gone: set<CBlockIndex>, links: seq<Link>)
    requires Sound(s) && Enabled(s, ChainRemoved(x, gone, links))
    ensures s.tip != null ==> s.tip !in gone && s.tip != x
  {
    if s.tip != null {
      TipInStore(s);
      assert Active(s.tip, s.tip);
    }
  }

  lemma RemovedParents(t: Tables, failed: set<CBlockIndex>, x: CBlockIndex, gone: set<CBlockIndex>, links: seq<Link>)
    requires TakesOut(t, failed, x, gone, links)
    ensures forall l :: l in links ==> l.child in gone && l.parent in gone + {x}
  {
    hide Tree;
  }

  lemma RemoveEvent(s: State, x: CBlockIndex, gone: set<CBlockIndex>, links: seq<Link>)
    requires Inv(s) && Enabled(s, ChainRemoved(x, gone, links))
    ensures Inv(After(s, ChainRemoved(x, gone, links)))
  {
    var s' := After(s, ChainRemoved(x, gone, links));
    SettledHasTip(s);
    TipNotRemoved(s, x, gone, links);
    hide Tree, NothingLost, Settled, Founded, Counted, TipUnmarked, Active;
    TakenOutKeeps(s.t, s.candidates, s.failed, s.tip, x, gone, links, s'.failed);
    MarkingKeeps(s.t, s.failed, s.failedValid, x, gone, links);
    TipStaysUnmarked(s.failed, if x in s.failed then gone else {}, s.tip);
    FewerLinksSettle(s.t, s'.t, s.candidates, s'.candidates, s.tip);
    hide TakesOut;
    assert NoneWaits(s'.t, s.tip) by {
      RemovedParents(s.t, s.failed, x, gone, links);
    }
  }

  lemma TipEvent(s: State, p: CBlockIndex)
    requires Inv(s) && Enabled(s, TipMoves(p))
    ensures Inv(After(s, TipMoves(p)))
  {
    hide Tree, NothingLost, Settled, NoneWaits, Founded, TipUnmarked, Competes, UsableFrom, Counted;
    NewTipKeeps(s.t, s.candidates, s.failed, s.tip, p);
  }

  lemma EventKeeps(s: State, e: Event)
    requires Inv(s) && CanHappen(s, e)
    ensures Inv(After(s, e))
  {
    match e
    case HeaderArrives(b) => HeaderEvent(s, b);
    case BlockArrives(b, n) => BlockEvent(s, b, n);
    case BlockFails(b, erased) => FailEvent(s, b, erased);
    case DataDeleted(b) => DeleteEvent(s, b);
    case ChainRemoved(x, gone, links) => RemoveEvent(s, x, gone, links);
    case TipMoves(p) => TipEvent(s, p);
    hide *;
  }

  // ----- the self-check -----

  /** The oldest entry of the set down from `b`, or null. */
  ghost function Oldest(s: set<CBlockIndex>, b: CBlockIndex): CBlockIndex?
    requires Tree(b)
    decreases b.nHeight
  {
    if b.pprev != null && Oldest(s, b.pprev) != null then Oldest(s, b.pprev)
    else if b in s then b
    else null
  }

  lemma {:induction false} OldestIsNull(s: set<CBlockIndex>, b: CBlockIndex)
    requires Tree(b)
    ensures Oldest(s, b) == null <==> NoneIn(s, b)
    decreases b.nHeight
  {
    if b.pprev != null {
      OldestIsNull(s, b.pprev);
    }
  }

  /** What the self-check asserts of one entry about the first block, counts, marks, candidates and waiting links. */
  ghost predicate CheckPasses(s: State, b: CBlockIndex)
    requires Shape(s.t) && b in s.t.blocks && Tree(b)
  {
    var t := s.t;
    var firstInvalid, firstMissing, firstNeverProcessed := Oldest(s.failedValid, b), Oldest(Missing(t), b), Oldest(Unprocessed(t), b);
    && (b.pprev == null ==> Active(s.tip, b))
    && (t.chainTx[b] == 0 ==> t.seqs[b] == 0)
    && (if s.havePruned then b in t.data ==> t.tx[b] > 0
        else (b in t.data <==> t.tx[b] != 0) && firstMissing == firstNeverProcessed)
    && (firstNeverProcessed != null <==> t.chainTx[b] == 0)
    && (firstInvalid == null ==> b !in s.failed)
    && (if Competes(t, b, s.tip) && firstNeverProcessed == null
        then firstInvalid == null && (firstMissing == null || b == s.tip) ==> b in s.candidates
        else b !in s.candidates)
    && (b.pprev != null && b in t.data && firstNeverProcessed != null && firstInvalid == null ==> HasLink(t, b))
    && (b !in t.data ==> !HasLink(t, b))
    && (firstMissing == null ==> !HasLink(t, b))
    && (b.pprev != null && b in t.data && firstNeverProcessed == null && firstMissing != null ==>
          s.havePruned && (Competes(t, b, s.tip) && b !in s.candidates && firstInvalid == null ==> HasLink(t, b)))
  }

  /** The self-check of the whole store. */
  ghost predicate Passes(s: State)
  {
    && Shape(s.t)
    && if s.tip == null then |s.t.blocks| <= 1 else forall b :: b in s.t.blocks ==> Tree(b) && CheckPasses(s, b)
  }

  lemma {:induction false} FirstIsActive(t: Tables, tip: CBlockIndex?, a: CBlockIndex, b: CBlockIndex)
    requires Shape(t) && Rooted(t, tip) && a in t.blocks && b in t.blocks && b.pprev == null && Tree(a)
    ensures Under(b, a)
    decreases a.nHeight
  {
    if a.pprev != null {
      FirstIsActive(t, tip, a.pprev, b);
    }
  }

  lemma AllSame<T>(s: set<T>)
    requires forall x, y :: x in s && y in s ==> x == y
    ensures |s| <= 1
  {
    if s != {} {
      var x :| x in s;
      assert s == {x};
    }
  }

  lemma CheckFlags(s: State, b: CBlockIndex)
    requires Inv(s) && b in s.t.blocks && Tree(b)
    ensures Oldest(s.failedValid, b) == null <==> NoneIn(s.failed, b)
    ensures Oldest(Missing(s.t), b) == null <==> NoneIn(Missing(s.t), b)
    ensures Oldest(Unprocessed(s.t), b) == null <==> IsLinked(s.t, b)
    ensures Oldest(Missing(s.t), b) == null ==> IsLinked(s.t, b) && !HasLink(s.t, b)
  {
    OldestIsNull(s.failedValid, b);
    OldestIsNull(Missing(s.t), b);
    OldestIsNull(Unprocessed(s.t), b);
    MarksMean(s.failed, s.failedValid, b);
    LinkedIsAllProcessed(s.t, s.failed, b);
    if NoneIn(Missing(s.t), b) {
      NothingWaitsAbove(s.t, s.failed, b);
      PresentIsProcessed(s.t, b);
    }
  }

  lemma ActiveFirst(s: State, b: CBlockIndex)
    requires Inv(s) && s.tip != null && b in s.t.blocks && b.pprev == null
    ensures Active(s.tip, b)
  {
    TipInStore(s);
    FirstIsActive(s.t, s.tip, s.tip, b);
  }

  lemma {:induction false} UnmarkedIsNotStuck(tx: map<CBlockIndex, nat>, failed: set<CBlockIndex>, b: CBlockIndex)
    requires Tree(b) && NoneIn(failed, b)
    ensures !Stuck(tx, failed, b)
    decreases b.nHeight
  {
    if b.pprev != null {
      UnmarkedIsNotStuck(tx, failed, b.pprev);
    }
  }

  lemma CheckFacts(s: State, b: CBlockIndex)
    requires Inv(s) && b in s.t.blocks && Tree(b)
    ensures b in s.t.chainTx && b in s.t.seqs && b in s.t.tx
    ensures s.t.chainTx[b] == 0 ==> s.t.seqs[b] == 0
    ensures b in s.t.data ==> s.t.tx[b] > 0
    ensures b in s.failed ==> !NoneIn(s.failed, b)
    ensures b in s.candidates ==> IsLinked(s.t, b) && Competes(s.t, b, s.tip)
    ensures s.tip == b ==> b in s.candidates
    ensures HasLink(s.t, b) ==> b in s.t.data
    ensures b in s.t.data && !IsLinked(s.t, b) && NoneIn(s.failed, b) ==> HasLink(s.t, b)
    ensures b in s.t.data && IsLinked(s.t, b) && Competes(s.t, b, s.tip) && NoneIn(s.failed, b) ==> b in s.candidates || HasLink(s.t, b)
  {
    if HasLink(s.t, b) {
      assert LinkOk(s.t, Link(b.pprev, b));
    }
    hide Tree, TotalTx, CountOk, LinkOk, Worse;
    if b in s.t.data && NoneIn(s.failed, b) {
      UnmarkedIsNotStuck(s.t.tx, s.failed, b);
      if Competes(s.t, b, s.tip) && IsLinked(s.t, b) {
        assert Eligible(s.t, s.failed, s.tip, b);
      }
    }
  }

  lemma SelfCheckPasses(s: State, b: CBlockIndex)
    requires Inv(s) && s.tip != null && b in s.t.blocks
    ensures Shape(s.t) && Tree(b) && CheckPasses(s, b)
    ensures IsLinked(s.t, b) ==> s.t.chainTx[b] == TotalTx(s.t.tx, b)
  {
    CountedShape(s.t);
    CheckFlags(s, b);
    CheckFacts(s, b);
    if b.pprev == null {
      ActiveFirst(s, b);
    }
    if IsLinked(s.t, b) {
      assert CountOk(s.t, [], b);
    }
    assert !s.havePruned ==> (b in Missing(s.t) <==> b in Unprocessed(s.t));
    hide Sound, Marked, Rooted, Tree, TotalTx, CountOk, LinkOk, Competes, NoneIn, Oldest, HasLink, Active;
  }

  // Main result on the self-check: what every step keeps makes it pass.
  lemma InvPasses(s: State)
    requires Inv(s)
    ensures Passes(s)
  {
    CountedShape(s.t);
    hide CheckPasses, Sound, Marked, Tree;
    if s.tip == null {
      AllSame(s.t.blocks);
    } else {
      forall b | b in s.t.blocks ensures Tree(b) && CheckPasses(s, b) {
        SelfCheckPasses(s, b);
      }
    }
  }

  // ----- runs -----

  /** The events happen one after the other, from `s` to `s'`. */
  ghost predicate Run(s: State, events: seq<Event>, s': State)
    decreases |events|
  {
    if events == [] then s' == s
    else CanHappen(s, events[0]) && Run(After(s, events[0]), events[1..], s')
  }

  // Main result on runs: whatever arrives, fails, goes and is removed, and
  // wherever the tip moves, the self-check passes.
  lemma {:induction false} EveryRunPassesCheck(s: State, events: seq<Event>, s': State)
    requires Inv(s) && Run(s, events, s')
    ensures Inv(s') && Passes(s')
    decreases |events|
  {
    hide Inv, After, Enabled, Safe, Passes;
    if events == [] {
      InvPasses(s');
    } else {
      EventKeeps(s, events[0]);
      EveryRunPassesCheck(After(s, events[0]), events[1..], s');
    }
  }

  // In particular from an empty store on.
  lemma RunsFromNothingPassCheck(events: seq<Event>, s: State)
    requires Run(EMPTY_STORE, events, s)
    ensures Inv(s) && Passes(s)
  {
    EmptyStoreInv();
    EveryRunPassesCheck(EMPTY_STORE, events, s);
  }

  // The first block becomes the tip.
  lemma FirstBlockBecomesTip(b: CBlockIndex, n: nat)
    requires Tree(b) && b.pprev == null && n >= 1
    ensures exists s :: Run(EMPTY_STORE, [HeaderArrives(b), BlockArrives(b, n), TipMoves(b)], s) && s.tip == b
  {
    var s1 := After(EMPTY_STORE, HeaderArrives(b));
    EmptyStoreInv();
    HeaderEvent(EMPTY_STORE, b);
    var s2 := After(s1, BlockArrives(b, n));
    ReceivedKeeps(s1.t, {}, {}, b, n, false, null);
    ArrivedQueued(s1.t, b, n);
    LinkedAgain(s1.t, b, n, {}, null);
    hide Inv, Arrives, Received, Counted, NothingLost;
    var s3 := After(s2, TipMoves(b));
    var e1, e2, e3 := HeaderArrives(b), BlockArrives(b, n), TipMoves(b);
    assert [e1, e2, e3][1..] == [e2, e3] && [e2, e3][1..] == [e3] && [e3][1..] == [];
    assert Run(s3, [], s3);
    assert Run(s2, [e3], s3);
    assert Run(s1, [e2, e3], s3);
  }

  // ----- stores that delete nothing -----

  /** Headers and blocks in any order, and a tip that moves. */
  predicate OnlyAdds(e: Event)
  {
    e.HeaderArrives? || e.BlockArrives? || e.TipMoves?
  }

  lemma GrowthKeepsOrder(s: State, e: Event)
    requires Inv(s) && CanHappen(s, e) && OnlyAdds(e) && s.failed == {} && Linking(s.t, [])
    ensures After(s, e).failed == {} && Linking(After(s, e).t, [])
  {
    match e
    case HeaderArrives(b) => NewEntryKeeps(s.t, b);
    case BlockArrives(b, n) =>
      assert s.tip != null ==> IsLinked(s.t, s.tip);
      ReceivedInOrder(s.t, s.candidates, b, n, ParentFailed(s, b), s.tip);
    case TipMoves(p) =>
    hide Inv, Linking, Arrives, Received;
  }

  lemma {:induction false} GrowingRunKeepsOrder(s: State, events: seq<Event>, s': State)
    requires Inv(s) && Run(s, events, s') && s.failed == {} && Linking(s.t, [])
    requires forall e :: e in events ==> OnlyAdds(e)
    ensures Linking(s'.t, [])
    decreases |events|
  {
    if events != [] {
      hide Inv, Linking, After, Enabled, Safe;
      EventKeeps(s, events[0]);
      GrowthKeepsOrder(s, events[0]);
      GrowingRunKeepsOrder(After(s, events[0]), events[1..], s');
    }
  }

  lemma LinkingShape(t: Tables)
    requires Linking(t, [])
    ensures Shape(t)
  {
  }

  // Main result on stores that delete nothing: over every run, in whatever order
  // blocks arrive, counts, sequence ids and waiting links say exactly which blocks
  // have all their ancestors.
  lemma GrowingRunsAreOrdered(events: seq<Event>, s: State)
    requires Run(EMPTY_STORE, events, s) && forall e :: e in events ==> OnlyAdds(e)
    ensures forall b :: b in s.t.blocks ==>
              Tree(b) && b in s.t.chainTx && s.t.chainTx[b] == if AllReceived(s.t.data, b) then TotalTx(s.t.tx, b) else 0
    ensures forall b :: b in s.t.blocks && b.pprev != null && IsLinked(s.t, b) ==>
              b in s.t.seqs && b.pprev in s.t.seqs && s.t.seqs[b.pprev] < s.t.seqs[b] < s.t.next
    ensures forall p, c :: Link(p, c) in s.t.unlinked <==> c in s.t.data && c.pprev == p && Tree(p) && !AllReceived(s.t.data, p)
  {
    EmptyStoreInv();
    GrowingRunKeepsOrder(EMPTY_STORE, events, s);
    LinkingMeans(s.t);
    LinkingShape(s.t);
    hide Run, Inv, Linking;
  }
}
