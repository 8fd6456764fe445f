// Runs of reads, modifications, flushes, and opening and closing of layers,
// against a stack of plain maps.
module CacheRuns {
  import opened Wrappers
  import opened Basics
  import opened Coins
  import opened Ledger
  import opened CoinsCache

  datatype Op =
    | Get(k: Hash)
    | Have(k: Hash)
    | Modify(k: Hash, c: Coins)
    | GetBest
    | SetBest(hash: Hash)
    | Open
    | Flush
    | Close

  /** What a reader sees: an unspent record, or nothing. */
  datatype Answer = Record(c: Option<Coins>) | Known(yes: bool) | Best(hash: Hash) | Done

  function Lookup(m: Utxo, k: Hash): Option<Coins>
  {
    if k in m then Some(m[k]) else None
  }

  /**
   * The open layers as plain maps, the database and the layers over it, and the top;
   * and their best blocks in the same order, zero where a layer knows none.
   */
  datatype Maps = Maps(below: seq<Utxo>, top: Utxo, hashes: seq<Hash>)

  predicate WellFormed(s: Maps)
  {
    s.below != [] && |s.hashes| == |s.below| + 1
  }

  /** One operation on plain maps. */
  function PlainStep(s: Maps, op: Op): (r: (Maps, Answer))
    requires WellFormed(s)
    ensures WellFormed(r.0)
  {
    var n := |s.below| - 1;
    match op
    case Get(k) => (s, Record(Lookup(s.top, k)))
    case Have(k) => (s, Known(k in s.top))
    case Modify(k, c) => (s.(top := Put(s.top, k, c.(vout := Trim(c.vout)))), Done)
    case GetBest => (s.(hashes := Answered(s.hashes)), Best(BestOf(s.hashes)))
    case SetBest(hash) => (s.(hashes := s.hashes[..n + 1] + [hash]), Done)
    case Open => (s.(below := s.below + [s.top], hashes := s.hashes + [0]), Done)
    case Flush => (s.(below := s.below[..n] + [s.top], hashes := Flushed(s.hashes)), Done)
    case Close => (if n > 0 then Maps(s.below[..n], s.below[n], s.hashes[..n + 1]) else s, Done)
  }

  function PlainRun(s: Maps, ops: seq<Op>): (r: (Maps, seq<Answer>))
    requires WellFormed(s)
    ensures WellFormed(r.0)
  {
    if ops == [] then (s, [])
    else
      var k := |ops| - 1;
      var (s1, answers) := PlainRun(s, ops[..k]);
      var (s2, answer) := PlainStep(s1, ops[k]);
      (s2, answers + [answer])
  }

  // ----- the best block of a stack -----

  // A question is answered with the best block, and changes none at any layer.
  lemma {:induction false} AnsweredIsBest(hashes: seq<Hash>)
    requires hashes != []
    ensures Answered(hashes)[|hashes| - 1] == BestOf(hashes)
    ensures forall i :: 0 < i <= |hashes| ==> BestOf(Answered(hashes)[..i]) == BestOf(hashes[..i])
  {
    var n := |hashes| - 1;
    if n > 0 && hashes[n] == 0 {
      AnsweredIsBest(hashes[..n]);
      var r := Answered(hashes);
      forall i | 0 < i <= |hashes| ensures BestOf(r[..i]) == BestOf(hashes[..i]) {
        if i <= n {
          assert r[..i] == Answered(hashes[..n])[..i] && hashes[..n][..i] == hashes[..i];
        } else {
          assert r[..i] == r && hashes[..i] == hashes && r[..n] == Answered(hashes[..n]);
          assert Answered(hashes[..n])[..n] == Answered(hashes[..n]) && hashes[..n][..n] == hashes[..n];
        }
      }
    }
  }

  lemma BestOfTop(below: seq<Hash>, h: Hash)
    ensures BestOf(below + [h]) == if below == [] || h != 0 then h else BestOf(below)
  {
    assert (below + [h])[..|below|] == below;
  }

  lemma FlushedTop(lower: seq<Hash>, a: Hash, h: Hash)
    ensures Flushed(lower + [a, h]) == lower + [if lower == [] && h == 0 then a else h] + [h]
  {
    assert (lower + [a, h])[..|lower|] == lower;
  }

  lemma TopTwo(lower: seq<Hash>, a: Hash, h: Hash)
    ensures lower + [a, h] == lower + [a] + [h] && (lower + [a, h])[..|lower| + 1] == lower + [a]
  {
  }

  // Writing down the top, which says `h`, over a layer that says `a`: the best block
  // stays if and only if the top knows one, or that layer has nothing of its own to
  // forget; the layer below then has the same.
  lemma FlushedBest(lower: seq<Hash>, a: Hash, h: Hash)
    ensures var r := Flushed(lower + [a, h]);
            && (BestOf(r) == BestOf(lower + [a, h]) <==> h != 0 || lower == [] || BestOf(lower + [a]) == BestOf(lower))
            && BestOf(r[..|lower| + 1]) == BestOf(r)
  {
    hide *;
    var a' := if lower == [] && h == 0 then a else h;
    TopTwo(lower, a, h);
    TopTwo(lower, a', h);
    FlushedTop(lower, a, h);
    BestOfTop(lower, a);
    BestOfTop(lower + [a], h);
    BestOfTop(lower, a');
    BestOfTop(lower + [a'], h);
  }

  // It does get lost: a layer with a best block of its own forgets it when a layer
  // over it that never asked is written down.
  lemma UnaskedFlushForgets(s: Maps, hash: Hash)
    requires WellFormed(s) && |s.below| >= 2 && hash != 0
    ensures var s1 := PlainStep(s, SetBest(hash)).0;
            var s2 := PlainStep(PlainStep(s1, Open).0, Flush).0;
            && PlainStep(s1, GetBest).1 == Best(hash)
            && PlainStep(s2, GetBest).1 == Best(BestOf(s.hashes[..|s.below|]))
  {
    var lower := s.hashes[..|s.below|];
    BestOfTop(lower, hash);
    assert lower + [hash] + [0] == lower + [hash, 0];
    FlushedTop(lower, hash, 0);
    BestOfTop(lower, 0);
    BestOfTop(lower + [0], 0);
    hide BestOf, Answered, Flushed;
  }

  // A cache that holds several maps below has a cache for its parent.
  lemma MapsOfCache(top: CoinsViewCache)
    requires top.Valid()
    ensures top.Below != []
    ensures if top.parent == null then |top.Below| == 1
            else top.parent.Valid() && top.parent.db == top.db && top.parent.Repr <= top.Repr &&
                 top.Below == top.parent.Below + [top.parent.Meaning] && top.parent.Below != [] &&
                 top.Hashes == top.parent.Hashes + [top.hashBlock]
  {
  }

  lemma {:induction false} LayersHaveHashes(top: CoinsViewCache)
    requires top.Valid()
    ensures |top.Hashes| == |top.Below| + 1
    decreases top.Repr
  {
    if top.parent != null {
      LayersHaveHashes(top.parent);
    }
  }

  lemma LastHash(top: CoinsViewCache)
    requires top.Valid()
    ensures |top.Hashes| >= 2 && top.Hashes[|top.Hashes| - 1] == top.hashBlock
  {
    top.HasHashes();
  }

  method Step(top: CoinsViewCache, op: Op) returns (top': CoinsViewCache, answer: Answer)
    requires top.Valid() && top.Below != []
    modifies top.Repr
    ensures top'.Valid() && top'.db == top.db && fresh(top'.Repr - top.Repr) && top'.Below != []
    ensures |old(top.Hashes)| == |old(top.Below)| + 1
    ensures (Maps(top'.Below, top'.Meaning, top'.Hashes), answer)
            == PlainStep(Maps(old(top.Below), old(top.Meaning), old(top.Hashes)), op)
  {
    MapsOfCache(top);
    LayersHaveHashes(top);
    hide CoinsViewCache.Modifying, CoinsViewCache.Valid, CoinsViewCache.Layer, CoinsViewCache.Base, Answered, Flushed, BestOf;
    top', answer := top, Done;
    if op.Get? {
      var c := top.FetchCoins(op.k);
      answer := Record(if c.Some? && !c.value.IsPruned() then c else None);
    } else if op.Have? {
      var yes := top.HaveCoins(op.k);
      answer := Known(yes);
    } else if op.Modify? {
      var _, usage := top.ModifyCoins(op.k);
      top.EndModify(op.k, op.c, usage);
    } else if op.GetBest? {
      AnsweredIsBest(top.Hashes);
      var best := top.GetBestBlock();
      LastHash(top);
      answer := Best(best);
    } else if op.SetBest? {
      top.SetBestBlock(op.hash);
    } else if op.Open? {
      top' := new CoinsViewCache.OverCache(top);
    } else if op.Flush? {
      top.Flush();
    } else if top.parent != null {
      top' := top.parent;
    }
  }

  // Main theorem on caches: for every run, from any contents of the database,
  // the layered caches answer like plain maps and a stack of best blocks, and end
  // up meaning the same.
  method Run(db: CoinsViewDB, ops: seq<Op>) returns (top: CoinsViewCache, answers: seq<Answer>)
    requires db.Valid()
    modifies db
    ensures top.Valid() && top.db == db
    ensures (Maps(top.Below, top.Meaning, top.Hashes), answers)
            == PlainRun(Maps([old(db.coins)], old(db.coins), [old(db.bestBlock), 0]), ops)
  {
    hide CoinsViewCache.Valid, CoinsViewCache.Layer, PlainStep;
    assert ops[..0] == [];
    top := new CoinsViewCache.OverDB(db);
    answers := [];
    for i := 0 to |ops|
      invariant top.Valid() && top.db == db && fresh(top.Repr - {db}) && top.Below != []
      invariant (Maps(top.Below, top.Meaning, top.Hashes), answers)
                == PlainRun(Maps([old(db.coins)], old(db.coins), [old(db.bestBlock), 0]), ops[..i])
    {
      assert ops[..i + 1][..i] == ops[..i];
      var answer: Answer;
      top, answer := Step(top, ops[i]);
      answers := answers + [answer];
    }
    assert ops[..|ops|] == ops;
  }
}
