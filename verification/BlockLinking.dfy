// Blocks that arrive before their parents: which entries count as linked, and
// what is kept for the others.
module BlockLinking {
  import opened BlockIndex
  import opened Basics

  datatype Link = Link(parent: CBlockIndex, child: CBlockIndex)

  /** The tables of a block store as values; `data` are the entries whose block was received. */
  datatype Tables = Tables(blocks: set<CBlockIndex>, data: set<CBlockIndex>, tx: map<CBlockIndex, nat>,
                           chainTx: map<CBlockIndex, nat>, seqs: map<CBlockIndex, nat>, unlinked: seq<Link>, next: nat)

  ghost predicate Shape(t: Tables)
  {
    && t.tx.Keys == t.blocks && t.chainTx.Keys == t.blocks && t.seqs.Keys == t.blocks && t.data <= t.blocks
    && (forall b :: b in t.blocks ==> Tree(b) && (b.pprev != null ==> b.pprev in t.blocks))
    && (forall b :: b in t.data ==> t.tx[b] >= 1)
  }

  predicate IsLinked(t: Tables, b: CBlockIndex)
  {
    b in t.chainTx && t.chainTx[b] != 0
  }

  predicate ParentLinked(t: Tables, b: CBlockIndex)
  {
    b.pprev == null || IsLinked(t, b.pprev)
  }

  /** A linked entry continues its parent; any other has neither count nor sequence id. */
  ghost predicate EntryOk(t: Tables, b: CBlockIndex)
    requires Shape(t) && b in t.blocks
  {
    if t.chainTx[b] == 0 then t.seqs[b] == 0
    else
      && b in t.data && ParentLinked(t, b)
      && t.chainTx[b] == (if b.pprev == null then 0 else t.chainTx[b.pprev]) + t.tx[b]
      && 1 <= t.seqs[b] < t.next
      && (b.pprev != null ==> t.seqs[b.pprev] < t.seqs[b])
  }

  /** Received entries that are neither linked nor queued wait for their parent. */
  ghost predicate Waits(t: Tables, queue: seq<CBlockIndex>, b: CBlockIndex)
  {
    b in t.data && !IsLinked(t, b) && b !in queue
  }

  ghost predicate QueueOk(t: Tables, queue: seq<CBlockIndex>)
  {
    && NoRepeats(queue)
    && forall b :: b in queue ==> b in t.data && !IsLinked(t, b) && ParentLinked(t, b)
  }

  ghost predicate UnlinkedOk(t: Tables, queue: seq<CBlockIndex>)
  {
    && NoRepeats(t.unlinked)
    && (forall l :: l in t.unlinked ==> l.parent == l.child.pprev && Waits(t, queue, l.child) && !IsLinked(t, l.parent))
    && (forall b :: b in t.data && Waits(t, queue, b) ==> b.pprev != null && Link(b.pprev, b) in t.unlinked)
  }

  ghost predicate Linking(t: Tables, queue: seq<CBlockIndex>)
  {
    && Shape(t)
    && (forall b :: b in t.blocks ==> EntryOk(t, b))
    && QueueOk(t, queue)
    && UnlinkedOk(t, queue)
  }

  // ----- what the tables mean when nothing is queued -----

  ghost predicate AllReceived(data: set<CBlockIndex>, b: CBlockIndex)
    requires Tree(b)
    decreases b.nHeight
  {
    b in data && (b.pprev != null ==> AllReceived(data, b.pprev))
  }

  /** Transactions in a block and all its ancestors. */
  ghost function TotalTx(tx: map<CBlockIndex, nat>, b: CBlockIndex): nat
    requires Tree(b)
    decreases b.nHeight
  {
    (if b in tx then tx[b] else 0) + if b.pprev == null then 0 else TotalTx(tx, b.pprev)
  }

  lemma {:induction false} LinkedIsAllReceived(t: Tables, b: CBlockIndex)
    requires Linking(t, []) && b in t.blocks
    ensures Tree(b) && (IsLinked(t, b) <==> AllReceived(t.data, b))
    ensures t.chainTx[b] == if AllReceived(t.data, b) then TotalTx(t.tx, b) else 0
    decreases b.nHeight
  {
    assert EntryOk(t, b);
    if b.pprev != null {
      LinkedIsAllReceived(t, b.pprev);
      if b in t.data && IsLinked(t, b.pprev) && !IsLinked(t, b) {
        assert Waits(t, [], b);
      }
    } else if b in t.data && !IsLinked(t, b) {
      assert Waits(t, [], b);
    }
  }

  lemma LinkIsWaiting(t: Tables, p: CBlockIndex, c: CBlockIndex)
    requires Linking(t, [])
    ensures Link(p, c) in t.unlinked <==> c in t.data && c.pprev == p && Tree(p) && !AllReceived(t.data, p)
  {
    if Link(p, c) in t.unlinked {
      assert Waits(t, [], c);
      assert c in t.blocks && p in t.blocks;
      LinkedIsAllReceived(t, p);
    }
    if c in t.data && c.pprev == p && Tree(p) && !AllReceived(t.data, p) {
      assert c in t.blocks && p in t.blocks;
      LinkedIsAllReceived(t, p);
      assert EntryOk(t, c);
      assert Waits(t, [], c);
    }
  }

  // Main result on linking: counts, sequence ids and the waiting links say
  // exactly which blocks have all their ancestors.
  lemma LinkingMeans(t: Tables)
    requires Linking(t, [])
    ensures forall b :: b in t.blocks ==>
              Tree(b) && t.chainTx[b] == if AllReceived(t.data, b) then TotalTx(t.tx, b) else 0
    ensures forall b :: b in t.blocks && b.pprev != null && IsLinked(t, b) ==> t.seqs[b.pprev] < t.seqs[b] < t.next
    ensures forall p, c :: Link(p, c) in t.unlinked <==> c in t.data && c.pprev == p && Tree(p) && !AllReceived(t.data, p)
  {
    forall b | b in t.blocks
      ensures Tree(b) && (IsLinked(t, b) <==> AllReceived(t.data, b))
      ensures t.chainTx[b] == if AllReceived(t.data, b) then TotalTx(t.tx, b) else 0
    {
      LinkedIsAllReceived(t, b);
    }
    forall b | b in t.blocks && b.pprev != null && IsLinked(t, b) ensures t.seqs[b.pprev] < t.seqs[b] < t.next {
      assert EntryOk(t, b);
    }
    forall p: CBlockIndex, c: CBlockIndex
      ensures Link(p, c) in t.unlinked <==> c in t.data && c.pprev == p && Tree(p) && !AllReceived(t.data, p)
    {
      LinkIsWaiting(t, p, c);
    }
  }

  // ----- one round of the queue -----

  function Children(u: seq<Link>, b: CBlockIndex): seq<CBlockIndex>
  {
    if u == [] then []
    else Children(u[..|u| - 1], b) + if u[|u| - 1].parent == b then [u[|u| - 1].child] else []
  }

  function Others(u: seq<Link>, b: CBlockIndex): seq<Link>
  {
    if u == [] then []
    else Others(u[..|u| - 1], b) + if u[|u| - 1].parent == b then [] else [u[|u| - 1]]
  }

  lemma {:induction false} OthersAre(u: seq<Link>, b: CBlockIndex)
    ensures forall l :: l in Others(u, b) <==> l in u && l.parent != b
    ensures forall c :: c in Children(u, b) <==> Link(b, c) in u
    ensures NoRepeats(u) ==> NoRepeats(Others(u, b)) && NoRepeats(Children(u, b))
  {
    if u != [] {
      var k := |u| - 1;
      OthersAre(u[..k], b);
      assert u == u[..k] + [u[k]];
      if NoRepeats(u) {
        assert u[k] !in u[..k];
        if u[k].parent == b {
          assert u[k] == Link(b, u[k].child);
          assert u[k].child !in Children(u[..k], b);
        } else {
          assert u[k] !in Others(u[..k], b);
        }
      }
    }
  }

  lemma OtherAt(u: seq<Link>, b: CBlockIndex, l: Link)
    ensures l in Others(u, b) <==> l in u && l.parent != b
  {
    OthersAre(u, b);
  }

  lemma ChildAt(u: seq<Link>, b: CBlockIndex, c: CBlockIndex)
    ensures c in Children(u, b) <==> Link(b, c) in u
  {
    OthersAre(u, b);
  }

  /** The front of the queue is linked, and what waited for it is queued. */
  ghost function LinkFront(t: Tables, b: CBlockIndex): Tables
    requires Shape(t) && b in t.blocks
  {
    t.(chainTx := t.chainTx[b := (if b.pprev == null then 0 else t.chainTx[b.pprev]) + t.tx[b]],
       seqs := t.seqs[b := t.next],
       next := t.next + 1,
       unlinked := Others(t.unlinked, b))
  }

  lemma LinkFrontEntries(t: Tables, queue: seq<CBlockIndex>)
    requires Linking(t, queue) && queue != [] && t.next >= 1 && queue[0] in queue && queue[0] in t.data
    ensures Shape(LinkFront(t, queue[0]))
    ensures forall c :: c in t.blocks ==> EntryOk(LinkFront(t, queue[0]), c)
  {
    var b := queue[0];
    var t' := LinkFront(t, b);
    forall c | c in t.blocks ensures EntryOk(t', c) {
      assert EntryOk(t, c);
      if c == b && b.pprev != null {
        assert b.pprev != b;
        assert EntryOk(t, b.pprev);
      }
    }
  }

  ghost predicate KidOk(t: Tables, queue: seq<CBlockIndex>, b: CBlockIndex, c: CBlockIndex)
  {
    c !in queue && c in t.data && !IsLinked(t, c) && c.pprev == b && c != b
  }

  lemma JoinNoRepeats<T>(s: seq<T>, t: seq<T>)
    requires NoRepeats(s) && NoRepeats(t) && forall x :: x in t ==> x !in s
    ensures NoRepeats(s + t)
  {
    forall i, j | 0 <= i < j < |s + t| ensures (s + t)[i] != (s + t)[j] {
      if i < |s| <= j {
        assert t[j - |s|] in t && s[i] in s;
      }
    }
  }

  lemma QueueTail(queue: seq<CBlockIndex>, c: CBlockIndex)
    requires NoRepeats(queue) && queue != []
    ensures c in queue[1..] <==> c in queue && c != queue[0]
  {
    if c in queue && c != queue[0] {
      var i :| 0 <= i < |queue| && queue[i] == c;
      assert queue[1..][i - 1] == c;
    }
    if c in queue[1..] {
      var i :| 0 <= i < |queue[1..]| && queue[1..][i] == c;
      assert queue[i + 1] == c;
    }
  }

  lemma LinkFrontQueue(t: Tables, queue: seq<CBlockIndex>)
    requires Linking(t, queue) && queue != [] && queue[0] in t.data && queue[0] in queue
    ensures QueueOk(LinkFront(t, queue[0]), queue[1..] + Children(t.unlinked, queue[0]))
  {
    var b := queue[0];
    var t', rest, kids := LinkFront(t, b), queue[1..], Children(t.unlinked, b);
    OthersAre(t.unlinked, b);
    hide Children, Others, Tree, EntryOk;
    assert t.tx[b] >= 1;
    forall c | c in kids ensures KidOk(t, queue, b, c) {
      ChildAt(t.unlinked, b, c);
      assert Link(b, c) in t.unlinked;
      assert Waits(t, queue, c);
    }
    assert NoRepeats(rest);
    forall c | c in kids ensures c !in rest {
      QueueTail(queue, c);
      assert KidOk(t, queue, b, c);
    }
    JoinNoRepeats(rest, kids);
    hide NoRepeats, UnlinkedOk;
    forall c | c in rest + kids ensures c in t'.data && !IsLinked(t', c) && ParentLinked(t', c) {
      if c in rest {
        QueueTail(queue, c);
      } else {
        assert KidOk(t, queue, b, c);
      }
    }
  }

  lemma LinkFrontUnlinked(t: Tables, queue: seq<CBlockIndex>)
    requires Linking(t, queue) && queue != [] && queue[0] in t.data && queue[0] in queue
    ensures UnlinkedOk(LinkFront(t, queue[0]), queue[1..] + Children(t.unlinked, queue[0]))
  {
    var b := queue[0];
    var t', kids := LinkFront(t, b), Children(t.unlinked, b);
    var q' := queue[1..] + kids;
    OthersAre(t.unlinked, b);
    hide Children, Others, Tree;
    assert t.tx[b] >= 1;
    forall c ensures c in q' <==> (c in queue && c != b) || c in kids {
      QueueTail(queue, c);
    }
    forall l | l in t'.unlinked
      ensures l.parent == l.child.pprev && Waits(t', q', l.child) && !IsLinked(t', l.parent)
    {
      OtherAt(t.unlinked, b, l);
      assert Waits(t, queue, l.child);
      ChildAt(t.unlinked, b, l.child);
      assert Link(b, l.child) !in t.unlinked;
    }
    forall c | c in t'.data && Waits(t', q', c) ensures c.pprev != null && Link(c.pprev, c) in t'.unlinked {
      assert c != b;
      assert Waits(t, queue, c);
      ChildAt(t.unlinked, b, c);
      OtherAt(t.unlinked, b, Link(c.pprev, c));
    }
  }

  lemma LinkFrontKeeps(t: Tables, queue: seq<CBlockIndex>)
    requires Linking(t, queue) && queue != [] && t.next >= 1
    ensures queue[0] in t.blocks
    ensures Linking(LinkFront(t, queue[0]), queue[1..] + Children(t.unlinked, queue[0]))
  {
    var b := queue[0];
    assert b in queue;
    assert b in t.data;
    var t', q' := LinkFront(t, b), queue[1..] + Children(t.unlinked, b);
    assert t.tx[b] >= 1;
    OthersAre(t.unlinked, b);
    LinkFrontEntries(t, queue);
    LinkFrontQueue(t, queue);
    LinkFrontUnlinked(t, queue);
  }

  // ----- receiving a block -----

  /** Data for an entry, before it is linked or left waiting. */
  ghost function WithData(t: Tables, b: CBlockIndex, n: nat): Tables
    requires b in t.blocks
  {
    t.(data := t.data + {b}, tx := t.tx[b := n], chainTx := t.chainTx[b := 0])
  }

  lemma UnreceivedIsUnlinked(t: Tables, b: CBlockIndex)
    requires Linking(t, []) && b in t.blocks && b !in t.data
    ensures t.chainTx[b] == 0 && t.seqs[b] == 0 && t.chainTx[b := 0] == t.chainTx
    ensures forall c :: c in t.blocks && c.pprev == b ==> !IsLinked(t, c)
  {
    assert EntryOk(t, b);
    forall c | c in t.blocks && c.pprev == b ensures !IsLinked(t, c) {
      assert EntryOk(t, c);
    }
  }

  lemma WithDataEntries(t: Tables, b: CBlockIndex, n: nat)
    requires Linking(t, []) && b in t.blocks && b !in t.data && n >= 1
    ensures Shape(WithData(t, b, n))
    ensures forall c :: c in t.blocks ==> EntryOk(WithData(t, b, n), c)
    ensures forall c :: IsLinked(WithData(t, b, n), c) <==> IsLinked(t, c)
  {
    UnreceivedIsUnlinked(t, b);
    var t' := WithData(t, b, n);
    forall c | c in t.blocks ensures EntryOk(t', c) {
      assert EntryOk(t, c);
    }
  }

  lemma QueuedWhenParentLinked(t: Tables, b: CBlockIndex, n: nat)
    requires Linking(t, []) && b in t.blocks && b !in t.data && n >= 1 && ParentLinked(t, b)
    ensures Linking(WithData(t, b, n), [b])
  {
    WithDataEntries(t, b, n);
    UnreceivedIsUnlinked(t, b);
    var t' := WithData(t, b, n);
    hide EntryOk, Tree;
    forall l | l in t'.unlinked
      ensures l.parent == l.child.pprev && Waits(t', [b], l.child) && !IsLinked(t', l.parent)
    {
      assert Waits(t, [], l.child);
    }
    forall c | c in t'.data && Waits(t', [b], c) ensures c.pprev != null && Link(c.pprev, c) in t'.unlinked {
      assert Waits(t, [], c);
    }
  }

  lemma WaitingEntries(t: Tables, b: CBlockIndex, n: nat)
    requires Linking(t, []) && b in t.blocks && b !in t.data && n >= 1 && b.pprev != null
    ensures var t' := WithData(t, b, n).(unlinked := t.unlinked + [Link(b.pprev, b)]);
            && Shape(t') && (forall c :: c in t.blocks ==> EntryOk(t', c))
            && !IsLinked(t, b) && (forall c :: c in t.blocks ==> (IsLinked(t', c) <==> IsLinked(t, c)))
            && t'.chainTx == t.chainTx
  {
    WithDataEntries(t, b, n);
    UnreceivedIsUnlinked(t, b);
    var t1 := WithData(t, b, n);
    var t' := t1.(unlinked := t.unlinked + [Link(b.pprev, b)]);
    forall c | c in t.blocks ensures EntryOk(t', c) {
      assert EntryOk(t1, c);
    }
  }

  lemma NoLinkBefore(t: Tables, b: CBlockIndex)
    requires Linking(t, []) && b !in t.data
    ensures forall l :: l in t.unlinked ==> l.child != b
  {
    forall l | l in t.unlinked ensures l.child != b {
      assert Waits(t, [], l.child);
    }
  }

  lemma WaitingOtherwise(t: Tables, b: CBlockIndex, n: nat)
    requires Linking(t, []) && b in t.blocks && b !in t.data && n >= 1 && !ParentLinked(t, b)
    ensures b.pprev != null
    ensures Linking(WithData(t, b, n).(unlinked := t.unlinked + [Link(b.pprev, b)]), [])
  {
    var t' := WithData(t, b, n).(unlinked := t.unlinked + [Link(b.pprev, b)]);
    WaitingEntries(t, b, n);
    NoLinkBefore(t, b);
    hide EntryOk, Tree, Shape;
    forall l | l in t'.unlinked
      ensures l.parent == l.child.pprev && Waits(t', [], l.child) && !IsLinked(t', l.parent)
    {
      if l in t.unlinked {
        assert Waits(t, [], l.child);
      }
    }
    forall c | c in t'.data && Waits(t', [], c) ensures c.pprev != null && Link(c.pprev, c) in t'.unlinked {
      if c != b {
        assert Waits(t, [], c);
      }
    }
    assert NoRepeats(t'.unlinked);
    hide NoRepeats, Waits;
  }

  // A received entry without link under an unlinked parent would be forgotten.
  lemma ForgottenOtherwise(t: Tables, b: CBlockIndex, n: nat)
    requires Linking(t, []) && b in t.blocks && b !in t.data && n >= 1 && !ParentLinked(t, b)
    ensures !Linking(WithData(t, b, n), [])
  {
    UnreceivedIsUnlinked(t, b);
    NoLinkBefore(t, b);
    assert Waits(WithData(t, b, n), [], b);
  }

  // ----- a header arrives -----

  ghost function WithEntry(t: Tables, b: CBlockIndex): Tables
  {
    t.(blocks := t.blocks + {b}, tx := t.tx[b := 0], chainTx := t.chainTx[b := 0], seqs := t.seqs[b := 0])
  }

  lemma NewEntryShape(t: Tables, b: CBlockIndex)
    requires Shape(t) && b !in t.blocks && Tree(b) && (b.pprev != null ==> b.pprev in t.blocks)
    ensures Shape(WithEntry(t, b))
  {
    hide Tree;
  }

  lemma OldEntryOk(t: Tables, b: CBlockIndex, c: CBlockIndex)
    requires Shape(t) && Shape(WithEntry(t, b)) && b !in t.blocks && c in t.blocks && EntryOk(t, c)
    ensures EntryOk(WithEntry(t, b), c)
  {
    hide Tree;
    assert c.pprev != null ==> c.pprev in t.blocks;
  }

  lemma NewEntryEntries(t: Tables, b: CBlockIndex)
    requires Shape(t) && b !in t.blocks && Tree(b) && (b.pprev != null ==> b.pprev in t.blocks)
    requires forall c :: c in t.blocks ==> EntryOk(t, c)
    ensures Shape(WithEntry(t, b))
    ensures forall c :: c in WithEntry(t, b).blocks ==> EntryOk(WithEntry(t, b), c)
  {
    var t' := WithEntry(t, b);
    NewEntryShape(t, b);
    forall c | c in t'.blocks ensures EntryOk(t', c) {
      if c != b {
        OldEntryOk(t, b, c);
      }
    }
  }

  lemma NewEntryKeeps(t: Tables, b: CBlockIndex)
    requires Linking(t, []) && b !in t.blocks && Tree(b) && (b.pprev != null ==> b.pprev in t.blocks)
    ensures Linking(WithEntry(t, b), [])
  {
    NewEntryEntries(t, b);
    var t' := WithEntry(t, b);
    hide Tree, EntryOk;
    forall l | l in t'.unlinked ensures l.parent == l.child.pprev && Waits(t', [], l.child) && !IsLinked(t', l.parent) {
      assert Waits(t, [], l.child);
    }
    forall c | c in t'.data && Waits(t', [], c) ensures c.pprev != null && Link(c.pprev, c) in t'.unlinked {
      assert Waits(t, [], c);
    }
  }
}
