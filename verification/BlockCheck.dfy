// What the self-check of the block index relies on besides counts and links:
// the active chain, the candidates that can replace it, and the failure marks.
module BlockCheck {
  import opened Basics
  import opened BlockIndex
  import opened BlockLinking
  import opened BlockPruning

  // ----- the active chain -----

  ghost predicate Under(a: CBlockIndex, b: CBlockIndex)
    requires Tree(b)
    decreases b.nHeight
  {
    a == b || (b.pprev != null && Under(a, b.pprev))
  }

  /** An entry of the chain that ends in the tip. */
  ghost predicate Active(tip: CBlockIndex?, a: CBlockIndex)
  {
    tip != null && Tree(tip) && Under(a, tip)
  }

  /** Nothing waits for an entry of the active chain. */
  ghost predicate NoneWaits(t: Tables, tip: CBlockIndex?)
  {
    forall l :: l in t.unlinked ==> !Active(tip, l.parent)
  }

  // An entry that is linked has only linked entries below.
  lemma {:induction false} LinkedDown(t: Tables, b: CBlockIndex, a: CBlockIndex)
    requires Counted(t, []) && b in t.blocks && IsLinked(t, b) && Tree(b) && Under(a, b)
    ensures a in t.blocks && IsLinked(t, a)
    decreases b.nHeight
  {
    LinkedParent(t, b);
    if a != b {
      LinkedDown(t, b.pprev, a);
    }
  }

  // ----- what was never received -----

  ghost function Unprocessed(t: Tables): set<CBlockIndex>
  {
    set b | b in t.tx && t.tx[b] == 0
  }

  lemma {:induction false} StuckIsUnprocessed(t: Tables, failed: set<CBlockIndex>, b: CBlockIndex)
    requires Tree(b) && Stuck(t.tx, failed, b)
    ensures !NoneIn(Unprocessed(t), b)
    decreases b.nHeight
  {
    if b.pprev != null && Stuck(t.tx, failed, b.pprev) {
      StuckIsUnprocessed(t, failed, b.pprev);
    }
  }

  lemma {:induction false} LinkedIsProcessed(t: Tables, b: CBlockIndex)
    requires Counted(t, []) && b in t.blocks && IsLinked(t, b)
    ensures Tree(b) && NoneIn(Unprocessed(t), b)
    decreases b.nHeight
  {
    assert CountOk(t, [], b);
    if b.pprev != null {
      LinkedIsProcessed(t, b.pprev);
    }
  }

  lemma LinkedIsNotInVain(t: Tables, failed: set<CBlockIndex>, b: CBlockIndex)
    requires Counted(t, []) && b in t.blocks && IsLinked(t, b)
    ensures !InVain(t, failed, b)
  {
    LinkedIsProcessed(t, b);
    if InVain(t, failed, b) {
      StuckIsUnprocessed(t, failed, b);
    }
  }

  // Counts say exactly which entries have all their ancestors.
  lemma {:induction false} LinkedIsAllProcessed(t: Tables, failed: set<CBlockIndex>, b: CBlockIndex)
    requires Counted(t, []) && Complete(t, [], failed, {}) && b in t.blocks
    ensures Tree(b) && (IsLinked(t, b) <==> NoneIn(Unprocessed(t), b))
    decreases b.nHeight
  {
    LinkedParent(t, b);
    if b.pprev != null {
      LinkedIsAllProcessed(t, failed, b.pprev);
    }
    if IsLinked(t, b) {
      assert CountOk(t, [], b);
    } else if t.tx[b] >= 1 {
      if HasLink(t, b) {
        assert LinkOk(t, Link(b.pprev, b));
      } else {
        StuckIsUnprocessed(t, failed, b);
      }
    }
  }

  /** Entries without data. */
  ghost function Missing(t: Tables): set<CBlockIndex>
  {
    t.blocks - t.data
  }

  lemma {:induction false} PresentIsProcessed(t: Tables, b: CBlockIndex)
    requires Shape(t) && b in t.blocks && Tree(b) && NoneIn(Missing(t), b)
    ensures NoneIn(Unprocessed(t), b)
    decreases b.nHeight
  {
    if b.pprev != null {
      PresentIsProcessed(t, b.pprev);
    }
  }

  // Where no data is missing, nothing waits.
  lemma {:induction false} NothingWaitsAbove(t: Tables, failed: set<CBlockIndex>, b: CBlockIndex)
    requires Shape(t) && Grounded(t, [], failed) && b in t.blocks && Tree(b) && NoneIn(Missing(t), b)
    ensures forall l :: l in t.unlinked ==> l.parent != b
    ensures !HasLink(t, b)
    decreases b.nHeight
  {
    if b.pprev != null {
      NothingWaitsAbove(t, failed, b.pprev);
    }
    PresentIsProcessed(t, b);
    if InVain(t, failed, b) {
      StuckIsUnprocessed(t, failed, b);
    }
    forall l | l in t.unlinked ensures l.parent != b {
      assert l.parent !in t.data || HasLink(t, l.parent) || InVain(t, failed, l.parent);
    }
  }

  // ----- candidates -----

  ghost predicate Heavier(c: CBlockIndex, tip: CBlockIndex?)
  {
    tip == null || c.nChainWork > tip.nChainWork
  }

  /** Candidates are linked, as good as the tip, and wait for nothing; the tip is one of them. */
  ghost predicate Settled(t: Tables, queue: seq<CBlockIndex>, candidates: set<CBlockIndex>, tip: CBlockIndex?)
  {
    && (forall c :: c in candidates ==> (IsLinked(t, c) || c in queue) && Competes(t, c, tip) && !HasLink(t, c))
    && (forall c :: c in queue ==> !HasLink(t, c) && (c in candidates ==> Heavier(c, tip)))
    && (tip != null ==> tip in candidates)
  }

  // An entry linked now comes after the tip, so it competes exactly with more work.
  lemma NewCompetes(t: Tables, t': Tables, p: CBlockIndex, queue: seq<CBlockIndex>, kids: seq<CBlockIndex>, tip: CBlockIndex?)
    requires Counted(t, queue) && p in queue && Relinked(t, t', p, kids) && TipOk(t, queue, tip)
    ensures Competes(t', p, tip) <==> Heavier(p, tip)
  {
    hide Tree, HasLink;
    if tip != null {
      assert CountOk(t, queue, tip);
    }
  }

  lemma SeqsStay(t: Tables, t': Tables, p: CBlockIndex, kids: seq<CBlockIndex>, c: CBlockIndex, tip: CBlockIndex?)
    requires Relinked(t, t', p, kids) && c != p && p != tip && Competes(t, c, tip)
    ensures Competes(t', c, tip)
  {
    hide Worse;
  }

  lemma RelinkedCandidates(t: Tables, t': Tables, p: CBlockIndex, queue: seq<CBlockIndex>, kids: seq<CBlockIndex>, rest: seq<CBlockIndex>,
                           candidates: set<CBlockIndex>, tip: CBlockIndex?)
    requires Counted(t, queue) && p in queue && Relinked(t, t', p, kids) && NextQueue(queue, kids, p, rest)
    requires TipOk(t, queue, tip) && Settled(t, queue, candidates, tip)
    ensures var candidates' := candidates + (if Competes(t', p, tip) then {p} else {});
            forall c :: c in candidates' ==> (IsLinked(t', c) || c in rest) && Competes(t', c, tip) && !HasLink(t', c)
  {
    hide Tree, Worse, HasLink, CountOk, LinkOk;
    NewCompetes(t, t', p, queue, kids, tip);
    var candidates' := candidates + (if Competes(t', p, tip) then {p} else {});
    forall c | c in candidates' ensures (IsLinked(t', c) || c in rest) && Competes(t', c, tip) && !HasLink(t', c) {
      RelinkedAt(t, t', p, kids, c);
      if c != p {
        assert Competes(t, c, tip);
        SeqsStay(t, t', p, kids, c, tip);
      }
    }
  }

  lemma KidWaits(t: Tables, p: CBlockIndex, queue: seq<CBlockIndex>, kids: seq<CBlockIndex>, c: CBlockIndex)
    requires Counted(t, queue) && c in kids && forall x :: x in kids ==> Link(p, x) in t.unlinked
    ensures HasLink(t, c) && c.pprev == p
  {
    assert LinkOk(t, Link(p, c));
  }

  lemma RelinkedQueue(t: Tables, t': Tables, p: CBlockIndex, queue: seq<CBlockIndex>, kids: seq<CBlockIndex>, rest: seq<CBlockIndex>,
                      candidates: set<CBlockIndex>, tip: CBlockIndex?)
    requires Counted(t, queue) && p in queue && Relinked(t, t', p, kids) && NextQueue(queue, kids, p, rest)
    requires TipOk(t, queue, tip) && Settled(t, queue, candidates, tip)
    ensures var candidates' := candidates + (if Competes(t', p, tip) then {p} else {});
            forall c :: c in rest ==> !HasLink(t', c) && (c in candidates' ==> Heavier(c, tip))
  {
    hide Tree, Worse, CountOk, LinkOk;
    NewCompetes(t, t', p, queue, kids, tip);
    var candidates' := candidates + (if Competes(t', p, tip) then {p} else {});
    forall c | c in rest ensures !HasLink(t', c) && (c in candidates' ==> Heavier(c, tip)) {
      RelinkedAt(t, t', p, kids, c);
      if c in kids {
        KidWaits(t, p, queue, kids, c);
      }
    }
  }

  lemma RelinkedSettled(t: Tables, t': Tables, p: CBlockIndex, queue: seq<CBlockIndex>, kids: seq<CBlockIndex>, rest: seq<CBlockIndex>,
                        candidates: set<CBlockIndex>, tip: CBlockIndex?)
    requires Counted(t, queue) && p in queue && Relinked(t, t', p, kids) && NextQueue(queue, kids, p, rest)
    requires TipOk(t, queue, tip) && Settled(t, queue, candidates, tip)
    ensures Settled(t', rest, candidates + (if Competes(t', p, tip) then {p} else {}), tip)
  {
    RelinkedCandidates(t, t', p, queue, kids, rest, candidates, tip);
    RelinkedQueue(t, t', p, queue, kids, rest, candidates, tip);
    hide Counted, Relinked, NextQueue, TipOk, HasLink, Competes, Heavier, IsLinked;
  }

  lemma {:induction false} DrainSettles(t: Tables, queue: seq<CBlockIndex>, candidates: set<CBlockIndex>, failed: set<CBlockIndex>, tip: CBlockIndex?)
    requires Counted(t, queue) && NothingLost(t, queue, candidates, failed, tip) && Settled(t, queue, candidates, tip)
    ensures var (t', candidates') := Drain(t, queue, candidates, tip); Settled(t', [], candidates', tip)
    decreases |t.unlinked| + |queue|
  {
    if queue != [] {
      DrainNext(t, queue, candidates, tip);
      var p := queue[0];
      var t1, kids := LinkFront(t, p), Children(t.unlinked, p);
      var rest, more := queue[1..] + kids, if Competes(t1, p, tip) then {p} else {};
      FrontIsQueued(queue);
      RelinkedLosesNothing(t, t1, p, queue, kids, rest, candidates, failed, tip);
      RelinkedSettled(t, t1, p, queue, kids, rest, candidates, tip);
      hide Counted, NothingLost, Settled, LinkFront, Children, Relinked, NextQueue, Competes;
      DrainSettles(t1, rest, candidates + more, failed, tip);
    } else {
      hide Counted, NothingLost, Settled;
    }
  }

  lemma ArrivedSettles(t: Tables, candidates: set<CBlockIndex>, b: CBlockIndex, n: nat, tip: CBlockIndex?)
    requires Arrives(t, b, n) && Settled(t, [], candidates, tip) && (b in candidates ==> Heavier(b, tip))
    ensures Settled(WithData(t, b, n), [b], candidates, tip)
  {
    ArrivedLinks(t, b, n);
    hide Counted, Worse, Heavier;
    forall c | c in candidates ensures IsLinked(WithData(t, b, n), c) || c in [b] {
      ArrivedAt(t, b, n, c);
    }
  }

  lemma WaitingSettles(t: Tables, candidates: set<CBlockIndex>, b: CBlockIndex, n: nat, linked: bool, tip: CBlockIndex?)
    requires Arrives(t, b, n) && !ParentLinked(t, b) && b.pprev != null && Settled(t, [], candidates, tip)
    ensures Settled(Waiting(t, b, n, linked), [], candidates, tip)
  {
    ArrivedUnlinked(t, b, n);
    WaitingParts(t, b, n, linked);
    hide Arrives, Worse, Heavier, Waiting;
  }

  // Candidates after a block has arrived; a candidate that had lost its data must be heavier than the tip.
  lemma ReceivedSettles(t: Tables, candidates: set<CBlockIndex>, failed: set<CBlockIndex>, b: CBlockIndex, n: nat, parentFailed: bool,
                        tip: CBlockIndex?)
    requires Arrives(t, b, n) && b !in failed && NothingLost(t, [], candidates, failed, tip)
    requires Settled(t, [], candidates, tip) && (b in candidates ==> Heavier(b, tip))
    ensures var (t', candidates') := Received(t, candidates, b, n, parentFailed, tip); Settled(t', [], candidates', tip)
  {
    if ParentLinked(t, b) {
      ArrivedQueued(t, b, n);
      ArrivedLosesNothing(t, candidates, failed, b, n, tip);
      ArrivedSettles(t, candidates, b, n, tip);
      DrainSettles(WithData(t, b, n), [b], candidates, failed, tip);
    } else {
      WaitingSettles(t, candidates, b, n, !parentFailed, tip);
    }
    hide Arrives, NothingLost, Settled, Counted;
  }

  lemma ReceivedLinks(t: Tables, candidates: set<CBlockIndex>, b: CBlockIndex, n: nat, parentFailed: bool, tip: CBlockIndex?)
    requires Arrives(t, b, n)
    ensures forall l :: l in Received(t, candidates, b, n, parentFailed, tip).0.unlinked ==>
              l in t.unlinked || (b.pprev != null && l == Link(b.pprev, b) && !IsLinked(t, b.pprev))
  {
    if ParentLinked(t, b) {
      ArrivedQueued(t, b, n);
      DrainKeeps(WithData(t, b, n), [b], candidates, {}, tip);
    }
    hide Arrives, Counted, NothingLost;
  }

  lemma HeaderSettles(t: Tables, b: CBlockIndex, candidates: set<CBlockIndex>, tip: CBlockIndex?)
    requires Shape(t) && b !in t.blocks && Settled(t, [], candidates, tip)
    ensures Settled(WithEntry(t, b), [], candidates, tip)
  {
    hide Tree, Worse, Heavier;
    forall c | c in candidates ensures IsLinked(WithEntry(t, b), c) && Competes(WithEntry(t, b), c, tip) && !HasLink(WithEntry(t, b), c) {
      assert c in t.blocks && c != b;
    }
  }

  lemma FewerLinksSettle(t: Tables, t': Tables, candidates: set<CBlockIndex>, candidates': set<CBlockIndex>, tip: CBlockIndex?)
    requires Settled(t, [], candidates, tip) && candidates' <= candidates && (tip != null ==> tip in candidates')
    requires t'.chainTx == t.chainTx && t'.seqs == t.seqs
    requires forall l :: l in t'.unlinked ==> l in t.unlinked || l.child !in candidates'
    ensures Settled(t', [], candidates', tip)
  {
    hide Worse, Heavier;
  }

  // ----- failure marks -----

  /** Only entries with a failed one at or below them carry marks. */
  ghost predicate Founded(failed: set<CBlockIndex>, failedValid: set<CBlockIndex>)
  {
    failedValid <= failed && forall b :: b in failed ==> Tree(b) && !NoneIn(failedValid, b)
  }

  lemma {:induction false} MarksMean(failed: set<CBlockIndex>, failedValid: set<CBlockIndex>, b: CBlockIndex)
    requires Founded(failed, failedValid) && Tree(b)
    ensures NoneIn(failed, b) <==> NoneIn(failedValid, b)
    decreases b.nHeight
  {
    if b.pprev != null {
      MarksMean(failed, failedValid, b.pprev);
    }
  }

  lemma {:induction false} AboveIsFailed(t: Tables, failed: set<CBlockIndex>, failedValid: set<CBlockIndex>, x: CBlockIndex, gone: set<CBlockIndex>,
                                         links: seq<Link>, s: CBlockIndex)
    requires TakesOut(t, failed, x, gone, links) && x in failed && Founded(failed, failedValid) && (s in gone || s == x) && Tree(s)
    ensures !NoneIn(failedValid, s)
    decreases s.nHeight
  {
    if s in gone {
      AboveIsFailed(t, failed, failedValid, x, gone, links, s.pprev);
    }
  }

  // Marking the entries above a failed one.
  lemma MarkingKeeps(t: Tables, failed: set<CBlockIndex>, failedValid: set<CBlockIndex>, x: CBlockIndex, gone: set<CBlockIndex>, links: seq<Link>)
    requires TakesOut(t, failed, x, gone, links) && Founded(failed, failedValid)
    ensures Founded(failed + if x in failed then gone else {}, failedValid)
  {
    if x in failed {
      forall s | s in gone ensures Tree(s) && !NoneIn(failedValid, s) {
        AboveIsFailed(t, failed, failedValid, x, gone, links, s);
      }
    }
  }

  lemma OneMoreFailed(failed: set<CBlockIndex>, failedValid: set<CBlockIndex>, b: CBlockIndex)
    requires Founded(failed, failedValid) && Tree(b)
    ensures Founded(failed + {b}, failedValid + {b})
  {
    forall c | c in failed + {b} ensures Tree(c) && !NoneIn(failedValid + {b}, c) {
      if Tree(c) && NoneIn(failedValid + {b}, c) {
        FewerFailed(failedValid, failedValid + {b}, c);
      }
    }
  }

  lemma {:induction false} UnmarkedBelow(failed: set<CBlockIndex>, more: set<CBlockIndex>, b: CBlockIndex)
    requires Tree(b) && NoneIn(failed, b) && forall c :: c in more ==> !Under(c, b)
    ensures NoneIn(failed + more, b)
    decreases b.nHeight
  {
    if b.pprev != null {
      UnmarkedBelow(failed, more, b.pprev);
    }
  }

  /** No entry of the active chain failed. */
  ghost predicate TipUnmarked(failed: set<CBlockIndex>, tip: CBlockIndex?)
  {
    tip != null ==> Tree(tip) && NoneIn(failed, tip)
  }

  lemma TipStaysUnmarked(failed: set<CBlockIndex>, more: set<CBlockIndex>, tip: CBlockIndex?)
    requires TipUnmarked(failed, tip) && forall c :: c in more ==> !Active(tip, c)
    ensures TipUnmarked(failed + more, tip)
  {
    if tip != null {
      UnmarkedBelow(failed, more, tip);
    }
  }

  // ----- the tip moves -----

  /** Down to the active chain every entry has its data and did not fail. */
  ghost predicate UsableFrom(data: set<CBlockIndex>, failed: set<CBlockIndex>, tip: CBlockIndex?, b: CBlockIndex)
    requires Tree(b)
    decreases b.nHeight
  {
    Active(tip, b) || (b in data && b !in failed && (b.pprev != null ==> UsableFrom(data, failed, tip, b.pprev)))
  }

  lemma {:induction false} ActiveUnmarked(failed: set<CBlockIndex>, b: CBlockIndex, a: CBlockIndex)
    requires Tree(b) && NoneIn(failed, b) && Under(a, b)
    ensures Tree(a) && NoneIn(failed, a)
    decreases b.nHeight
  {
    if a != b {
      ActiveUnmarked(failed, b.pprev, a);
    }
  }

  lemma {:induction false} UsableIsUnmarked(data: set<CBlockIndex>, failed: set<CBlockIndex>, tip: CBlockIndex?, b: CBlockIndex)
    requires Tree(b) && UsableFrom(data, failed, tip, b) && TipUnmarked(failed, tip)
    ensures NoneIn(failed, b)
    decreases b.nHeight
  {
    if Active(tip, b) {
      ActiveUnmarked(failed, tip, b);
    } else if b.pprev != null {
      UsableIsUnmarked(data, failed, tip, b.pprev);
    }
  }

  lemma {:induction false} UnderUnder(a: CBlockIndex, b: CBlockIndex, c: CBlockIndex)
    requires Tree(c) && Under(b, c) && Tree(b) && Under(a, b)
    ensures Under(a, c)
    decreases c.nHeight
  {
    if b != c {
      UnderUnder(a, b, c.pprev);
    }
  }

  // Nothing waits for an entry that can be used, or for one below.
  lemma {:induction false} NoneWaitsUnder(t: Tables, failed: set<CBlockIndex>, tip: CBlockIndex?, b: CBlockIndex, l: Link)
    requires Counted(t, []) && Grounded(t, [], failed) && NoneWaits(t, tip) && l in t.unlinked
    requires b in t.blocks && IsLinked(t, b) && Tree(b) && UsableFrom(t.data, failed, tip, b)
    ensures !Under(l.parent, b)
    decreases b.nHeight
  {
    if Under(l.parent, b) {
      if Active(tip, b) {
        UnderUnder(l.parent, b, tip);
      } else {
        LinkedParent(t, b);
        LinkedIsNotInVain(t, failed, b);
        if l.parent != b {
          NoneWaitsUnder(t, failed, tip, b.pprev, l);
        } else {
          assert HasLink(t, b);
          assert Under(b.pprev, b.pprev);
          NoneWaitsUnder(t, failed, tip, b.pprev, Link(b.pprev, b));
        }
      }
    }
  }

  // A better tip that can be used waits for nothing, so it is a candidate.
  lemma TipIsCandidate(t: Tables, candidates: set<CBlockIndex>, failed: set<CBlockIndex>, tip: CBlockIndex?, p: CBlockIndex)
    requires Counted(t, []) && NothingLost(t, [], candidates, failed, tip) && NoneWaits(t, tip) && TipUnmarked(failed, tip)
    requires p in t.data && IsLinked(t, p) && Competes(t, p, tip) && Tree(p) && UsableFrom(t.data, failed, tip, p)
    ensures NoneIn(failed, p) && NoneWaits(t, p) && p in candidates && forall l :: l in t.unlinked ==> l.child != p
  {
    UsableIsUnmarked(t.data, failed, tip, p);
    forall l | l in t.unlinked ensures !Under(l.parent, p) && l.child != p {
      NoneWaitsUnder(t, failed, tip, p, l);
      assert LinkOk(t, l);
    }
    hide Counted, Tree, NoneIn, Worse;
    assert Eligible(t, failed, tip, p);
  }

  lemma NotWorseTwice(a: CBlockIndex, i: nat, b: CBlockIndex, j: nat, c: CBlockIndex, k: nat)
    requires !Worse(a, i, b, j) && !Worse(b, j, c, k)
    ensures !Worse(a, i, c, k)
  {
  }

  lemma CompetesWithBetter(t: Tables, c: CBlockIndex, p: CBlockIndex, tip: CBlockIndex?)
    requires Competes(t, c, p) && Competes(t, p, tip)
    ensures Competes(t, c, tip)
  {
    if tip != null {
      NotWorseTwice(c, t.seqs[c], p, t.seqs[p], tip, t.seqs[tip]);
    }
  }

  /** The candidates that are left when `p` becomes the tip. */
  ghost function NotWorse(t: Tables, candidates: set<CBlockIndex>, p: CBlockIndex): set<CBlockIndex>
  {
    set c | c in candidates && Competes(t, c, p)
  }

  lemma NewTipOffers(t: Tables, candidates: set<CBlockIndex>, failed: set<CBlockIndex>, tip: CBlockIndex?, p: CBlockIndex)
    requires Offered(t, [], candidates, failed, tip) && Competes(t, p, tip)
    ensures Offered(t, [], NotWorse(t, candidates, p), failed, p)
  {
    hide Tree, NoneIn, HasLink, Competes;
    forall b | b in t.data && Eligible(t, failed, p, b) ensures b in NotWorse(t, candidates, p) || HasLink(t, b) {
      CompetesWithBetter(t, b, p, tip);
      assert Eligible(t, failed, tip, b);
    }
  }

  // Moving the tip keeps what was received in sight.
  lemma NewTipKeeps(t: Tables, candidates: set<CBlockIndex>, failed: set<CBlockIndex>, tip: CBlockIndex?, p: CBlockIndex)
    requires Counted(t, []) && NothingLost(t, [], candidates, failed, tip) && NoneWaits(t, tip) && TipUnmarked(failed, tip)
    requires Settled(t, [], candidates, tip)
    requires p in t.data && IsLinked(t, p) && Competes(t, p, tip) && Tree(p) && UsableFrom(t.data, failed, tip, p)
    ensures NothingLost(t, [], NotWorse(t, candidates, p), failed, p) && Settled(t, [], NotWorse(t, candidates, p), p)
    ensures NoneWaits(t, p) && TipUnmarked(failed, p)
  {
    TipIsCandidate(t, candidates, failed, tip, p);
    NewTipOffers(t, candidates, failed, tip, p);
    assert p in t.seqs && !Worse(p, t.seqs[p], p, t.seqs[p]);
    hide Tree, NoneIn, HasLink, Worse, Complete, Grounded, Offered, Counted, Eligible;
  }
}
