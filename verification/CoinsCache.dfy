// The layered view of unspent outputs: a database at the bottom and caches on
// top of each other.  Each layer means one plain map; see `Effective`.
module CoinsCache {
  import opened Wrappers
  import opened Sums
  import opened Basics
  import opened Coins
  import opened Ledger

  datatype Entry = Entry(coins: Coins, isDirty: bool, isFresh: bool)

  type Entries = map<Hash, Entry>

  // ----- what a layer means -----

  /** The map that `entries` stand for on top of `base`. */
  function Effective(base: Utxo, entries: Entries): Utxo
  {
    map k | k in base.Keys + entries.Keys && (k in entries ==> !entries[k].coins.IsPruned())
      :: if k in entries then entries[k].coins else base[k]
  }

  /** `c` is what the view `m` says about `k`: its record, or something fully spent. */
  predicate Describes(m: Utxo, k: Hash, c: Coins)
  {
    if k in m then c == m[k] else c.IsPruned()
  }

  /** `parentKeys` are the keys the parent holds when the parent is a cache. */
  predicate EntryOk(base: Utxo, parentKeys: Option<set<Hash>>, k: Hash, e: Entry)
  {
    && e.coins.IsClean()
    && (e.isFresh ==> k !in base)
    && (!e.isDirty ==> Describes(base, k, e.coins))
    && (!e.isFresh && parentKeys.Some? ==> k in parentKeys.value)
  }

  ghost predicate LayerOk(base: Utxo, parentKeys: Option<set<Hash>>, entries: Entries)
  {
    forall k :: k in entries ==> EntryOk(base, parentKeys, k, entries[k])
  }

  /** Records as a view stores them: cleaned up and not fully spent. */
  ghost predicate Stored(m: Utxo)
  {
    forall k :: k in m ==> m[k].IsClean() && !m[k].IsPruned()
  }

  // An entry that agrees with the base does not change the meaning.
  lemma PulledInEntry(base: Utxo, entries: Entries, k: Hash, e: Entry)
    requires Stored(base) && k !in entries && Describes(base, k, e.coins)
    ensures Effective(base, entries[k := e]) == Effective(base, entries)
    ensures Describes(Effective(base, entries), k, e.coins)
  {
  }

  lemma EntryDescribed(base: Utxo, entries: Entries, k: Hash)
    ensures k in entries ==> Describes(Effective(base, entries), k, entries[k].coins)
    ensures k !in entries ==> (k in Effective(base, entries) <==> k in base)
  {
  }

  lemma EffectiveIsStored(base: Utxo, parentKeys: Option<set<Hash>>, entries: Entries)
    requires Stored(base) && LayerOk(base, parentKeys, entries)
    ensures Stored(Effective(base, entries))
  {
  }

  lemma MoreKeys(m: Utxo, entries: Entries, keys: set<Hash>, keys': set<Hash>)
    requires LayerOk(m, Some(keys), entries) && keys <= keys'
    ensures LayerOk(m, Some(keys'), entries)
  {
    assert forall k :: k in entries ==> EntryOk(m, Some(keys), k, entries[k]);
  }

  lemma KeysGrew(m: Utxo, entries: Entries, keys: Option<set<Hash>>, keys': Option<set<Hash>>)
    requires LayerOk(m, keys, entries)
    requires if keys.Some? then keys'.Some? && keys.value <= keys'.value else keys'.None?
    ensures LayerOk(m, keys', entries)
  {
    hide LayerOk;
    if keys.Some? { MoreKeys(m, entries, keys.value, keys'.value); }
  }

  // Writing a modified record, and dropping a fresh one, both mean the plain update.
  lemma WriteEntry(base: Utxo, entries: Entries, k: Hash, e: Entry)
    ensures Effective(base, entries[k := e]) == Put(Effective(base, entries), k, e.coins)
  {
    hide Coins.IsPruned;
  }

  lemma EraseEntry(base: Utxo, entries: Entries, k: Hash, c: Coins)
    requires k !in base && c.IsPruned()
    ensures Effective(base, entries - {k}) == Put(Effective(base, entries), k, c)
  {
    hide Coins.IsPruned;
  }

  lemma EmptyIsPruned()
    ensures EMPTY_COINS.IsPruned() && EMPTY_COINS.IsClean()
  {
  }

  lemma Remarked(base: Utxo, entries: Entries, k: Hash)
    requires k in entries
    ensures Effective(base, entries[k := entries[k].(isDirty := true)]) == Effective(base, entries)
  {
  }

  lemma EffectiveOfNothing(base: Utxo)
    ensures Effective(base, map[]) == base
    ensures forall keys :: LayerOk(base, keys, map[])
  {
  }

  /** What pushing one entry down does to the view that receives it. */
  function Pushed(m: Utxo, k: Hash, e: Entry): Utxo
  {
    if e.isDirty then Put(m, k, e.coins) else m
  }

  // The layer invariant is kept entry by entry.
  lemma LayerWith(base: Utxo, parentKeys: Option<set<Hash>>, entries: Entries, k: Hash, e: Entry)
    requires LayerOk(base, parentKeys, entries) && EntryOk(base, parentKeys, k, e)
    ensures LayerOk(base, parentKeys, entries[k := e])
  {
    hide EntryOk;
  }

  lemma LayerWithout(base: Utxo, parentKeys: Option<set<Hash>>, entries: Entries, k: Hash)
    requires LayerOk(base, parentKeys, entries)
    ensures LayerOk(base, parentKeys, entries - {k})
  {
    hide EntryOk;
  }

  lemma LayerAt(base: Utxo, parentKeys: Option<set<Hash>>, entries: Entries, k: Hash)
    requires LayerOk(base, parentKeys, entries) && k in entries
    ensures EntryOk(base, parentKeys, k, entries[k])
  {
    hide EntryOk;
  }

  lemma EntryIsClean(base: Utxo, parentKeys: Option<set<Hash>>, k: Hash, e: Entry)
    requires EntryOk(base, parentKeys, k, e)
    ensures e.coins.IsClean()
  {
  }

  lemma StoredAt(m: Utxo, k: Hash)
    requires Stored(m) && k in m
    ensures m[k].IsClean() && !m[k].IsPruned()
  {
    hide Coins.IsPruned, Coins.IsClean;
  }

  lemma FreshIsNotBelow(base: Utxo, parentKeys: Option<set<Hash>>, k: Hash, e: Entry)
    requires EntryOk(base, parentKeys, k, e) && e.isFresh
    ensures k !in base
  {
  }

  lemma ChangedEntryOk(base: Utxo, parentKeys: Option<set<Hash>>, k: Hash, e: Entry, c: Coins)
    requires EntryOk(base, parentKeys, k, e) && c.IsClean()
    ensures EntryOk(base, parentKeys, k, e.(coins := c, isDirty := true))
  {
    hide Coins.IsPruned, Coins.IsClean;
  }

  // A record read from the base is FRESH when it is fully spent, as the base cannot hold it then.
  lemma PulledEntryOk(base: Utxo, parentKeys: Option<set<Hash>>, k: Hash, c: Coins, isDirty: bool)
    requires Stored(base) && Describes(base, k, c) && c.IsClean()
    requires parentKeys.Some? ==> k in parentKeys.value
    ensures EntryOk(base, parentKeys, k, Entry(c, isDirty, c.IsPruned()))
  {
    hide Coins.IsPruned, Coins.IsClean;
    if k in base { StoredAt(base, k); }
  }

  lemma NewEntryOk(base: Utxo, parentKeys: Option<set<Hash>>, k: Hash, c: Coins)
    requires k !in base && c.IsClean()
    ensures EntryOk(base, parentKeys, k, Entry(c, true, true))
  {
    hide Coins.IsPruned, Coins.IsClean;
  }

  // What a modifier opens when the view below answers `r`.
  lemma OpenedEntryOk(base: Utxo, parentKeys: Option<set<Hash>>, k: Hash, r: Option<Coins>)
    requires Stored(base)
    requires if r.Some? then Describes(base, k, r.value) && r.value.IsClean() else k !in base
    requires r.Some? && parentKeys.Some? ==> k in parentKeys.value
    ensures r.None? ==> Describes(base, k, EMPTY_COINS)
    ensures r.None? ==> EntryOk(base, parentKeys, k, Entry(EMPTY_COINS, true, true))
    ensures r.Some? ==> EntryOk(base, parentKeys, k, Entry(r.value, true, r.value.IsPruned()))
  {
    hide Coins.IsPruned, Coins.IsClean, EntryOk, Stored;
    if r.Some? {
      PulledEntryOk(base, parentKeys, k, r.value, true);
    } else {
      EmptyIsPruned();
      NewEntryOk(base, parentKeys, k, EMPTY_COINS);
    }
  }

  lemma PushedAt(m: Utxo, k: Hash, e: Entry, j: Hash)
    requires j != k
    ensures j in Pushed(m, k, e) <==> j in m
    ensures j in m ==> Pushed(m, k, e)[j] == m[j]
  {
    hide Coins.IsPruned;
  }

  lemma PushedIsStored(m: Utxo, k: Hash, e: Entry)
    requires Stored(m) && e.coins.IsClean()
    ensures Stored(Pushed(m, k, e))
  {
    hide Coins.IsPruned, Coins.IsClean;
  }

  lemma LayerByEntries(m: Utxo, keys: Option<set<Hash>>, entries: Entries)
    requires forall j :: j in entries ==> EntryOk(m, keys, j, entries[j])
    ensures LayerOk(m, keys, entries)
  {
    hide EntryOk;
  }

  lemma PushedRestOk(m: Utxo, keys: Option<set<Hash>>, todo: Entries, k: Hash, keys': Option<set<Hash>>)
    requires LayerOk(m, keys, todo) && k in todo
    requires keys'.Some? ==> keys.Some? && keys.value - {k} <= keys'.value
    ensures LayerOk(Pushed(m, k, todo[k]), keys', todo - {k})
  {
    hide Coins.IsPruned, Coins.IsClean, Pushed, LayerOk;
    var m' := Pushed(m, k, todo[k]);
    forall j | j in todo - {k}
      ensures EntryOk(m', keys', j, todo[j])
    {
      LayerAt(m, keys, todo, j);
      PushedAt(m, k, todo[k], j);
    }
    LayerByEntries(m', keys', todo - {k});
  }

  lemma PushedMeansTheSame(m: Utxo, keys: Option<set<Hash>>, todo: Entries, k: Hash)
    requires Stored(m) && k in todo && EntryOk(m, keys, k, todo[k])
    ensures Effective(Pushed(m, k, todo[k]), todo - {k}) == Effective(m, todo)
  {
    hide Coins.IsPruned, Coins.IsClean;
    if k in m { StoredAt(m, k); }
  }

  // Pushing entries down one by one, in any order, keeps what the child meant.
  lemma PushOne(m: Utxo, keys: Option<set<Hash>>, todo: Entries, k: Hash, keys': Option<set<Hash>>)
    requires Stored(m) && LayerOk(m, keys, todo) && k in todo
    requires keys'.Some? ==> keys.Some? && keys.value - {k} <= keys'.value
    ensures EntryOk(m, keys, k, todo[k])
    ensures Stored(Pushed(m, k, todo[k]))
    ensures LayerOk(Pushed(m, k, todo[k]), keys', todo - {k})
    ensures Effective(Pushed(m, k, todo[k]), todo - {k}) == Effective(m, todo)
  {
    hide *;
    LayerAt(m, keys, todo, k);
    EntryIsClean(m, keys, k, todo[k]);
    PushedIsStored(m, k, todo[k]);
    PushedRestOk(m, keys, todo, k, keys');
    PushedMeansTheSame(m, keys, todo, k);
  }

  // ----- memory accounting -----

  function MallocUsage(alloc: nat): nat
  {
    (alloc + 31) / 16 * 16
  }

  // Blocks of sixteen bytes, with room for the bookkeeping of the heap.
  lemma MallocUsageIs(alloc: nat)
    ensures MallocUsage(alloc) % 16 == 0 && alloc + 16 <= MallocUsage(alloc) < alloc + 32
  {
  }

  const SIZE_OF_TXOUT := 32

  function ScriptsUsage(vout: seq<TxOut>): nat
  {
    if vout == [] then 0
    else ScriptsUsage(vout[..|vout| - 1]) + MallocUsage(|vout[|vout| - 1].script|)
  }

  function DynamicUsage(c: Coins): nat
  {
    MallocUsage(|c.vout| * SIZE_OF_TXOUT) + ScriptsUsage(c.vout)
  }

  ghost function Usages(entries: Entries): map<Hash, int>
  {
    map k | k in entries :: DynamicUsage(entries[k].coins)
  }

  ghost function UsageOf(entries: Entries): int
  {
    MapSum(Usages(entries))
  }

  lemma UsageUpdate(entries: Entries, k: Hash, e: Entry)
    ensures UsageOf(entries[k := e]) == UsageOf(entries - {k}) + DynamicUsage(e.coins)
    ensures UsageOf(entries) == UsageOf(entries - {k}) + if k in entries then DynamicUsage(entries[k].coins) else 0
    ensures UsageOf(entries - {k}) >= 0
  {
    hide DynamicUsage;
    MapSumUpdate(Usages(entries), k, DynamicUsage(e.coins));
    assert Usages(entries[k := e]) == Usages(entries)[k := DynamicUsage(e.coins)];
    assert Usages(entries - {k}) == Usages(entries) - {k};
    MapSumNonNegative(Usages(entries - {k}));
  }

  lemma UsageEmpty()
    ensures UsageOf(map[]) == 0
  {
    assert Usages(map[]) == map[];
  }

  // ----- the bottom: the coin database -----

  class CoinsViewDB {
    var coins: Utxo
    var bestBlock: Hash

    ghost predicate Valid()
      reads this
    {
      Stored(coins)
    }

    constructor ()
      ensures Valid() && coins == map[] && bestBlock == 0
    {
      coins, bestBlock := map[], 0;
    }

    method BatchWrite(mapCoins: Entries, hashBlock: Hash)
      requires Valid() && LayerOk(coins, None, mapCoins)
      modifies this
      ensures Valid()
      ensures coins == Effective(old(coins), mapCoins)
      ensures bestBlock == if hashBlock != 0 then hashBlock else old(bestBlock)
    {
      hide LayerOk, Effective;
      var todo := mapCoins;
      while todo != map[]
        invariant Valid() && LayerOk(coins, None, todo) && bestBlock == old(bestBlock)
        invariant Effective(coins, todo) == Effective(old(coins), mapCoins)
        decreases |todo|
      {
        var k :| k in todo;
        PushOne(coins, None, todo, k, None);
        if todo[k].isDirty {
          if todo[k].coins.IsPruned() {
            coins := coins - {k};
          } else {
            coins := coins[k := todo[k].coins];
          }
        }
        todo := todo - {k};
      }
      EffectiveOfNothing(coins);
      if hashBlock != 0 {
        bestBlock := hashBlock;
      }
    }
  }

  // ----- the best block -----

  /** What a stack of best blocks says on top: the uppermost that is known; the first is the database's. */
  function BestOf(hashes: seq<Hash>): Hash
    requires hashes != []
  {
    var n := |hashes| - 1;
    if n == 0 || hashes[n] != 0 then hashes[n] else BestOf(hashes[..n])
  }

  /** The stack after a question for the best block: every cache that was asked remembers the answer. */
  function Answered(hashes: seq<Hash>): (r: seq<Hash>)
    requires hashes != []
    ensures |r| == |hashes|
  {
    var n := |hashes| - 1;
    if n == 0 || hashes[n] != 0 then hashes
    else
      var below := Answered(hashes[..n]);
      below + [below[n - 1]]
  }

  lemma AnsweredTop(below: seq<Hash>, h: Hash)
    requires below != []
    ensures h != 0 ==> Answered(below + [h]) == below + [h]
    ensures h == 0 ==> Answered(below + [h]) == Answered(below) + [Answered(below)[|below| - 1]]
    ensures Answered([below[0]]) == [below[0]]
  {
    assert (below + [h])[..|below|] == below;
  }

  /** The stack after the top was written down: a cache below takes what is known on top, the database only a known one. */
  function Flushed(hashes: seq<Hash>): (r: seq<Hash>)
    requires |hashes| >= 2
    ensures |r| == |hashes|
  {
    var n := |hashes| - 1;
    hashes[..n - 1] + [if n == 1 && hashes[n] == 0 then hashes[0] else hashes[n], hashes[n]]
  }

  // ----- a cache over another view -----

  class CoinsViewCache {
    const parent: CoinsViewCache?
    const db: CoinsViewDB
    var entries: Entries
    var hashBlock: Hash
    var hasModifier: bool
    var cachedCoinsUsage: int
    ghost const Repr: set<object>

    /** The plain map and the best block that this view stands for. */
    ghost var Meaning: Utxo
    ghost var Best: Hash

    /** The maps that the views below stand for, the database first. */
    ghost var Below: seq<Utxo>

    /** The best blocks as the layers have them, zero for unknown, the database first and this one last. */
    ghost var Hashes: seq<Hash>

    ghost function Base(): Utxo
      reads this, db, parent
    {
      if parent == null then db.coins else parent.Meaning
    }

    ghost function BaseBest(): Hash
      reads this, db, parent
    {
      if parent == null then db.bestBlock else parent.Best
    }

    ghost function BaseHashes(): seq<Hash>
      reads db, parent
    {
      if parent == null then [db.bestBlock] else parent.Hashes
    }

    ghost function ParentKeys(): Option<set<Hash>>
      reads this, parent
    {
      if parent == null then None else Some(parent.entries.Keys)
    }

    /** The entries of this layer, seen from the layer below. */
    ghost predicate Layer()
      reads this, db, parent
    {
      && Stored(Base())
      && LayerOk(Base(), ParentKeys(), entries)
      && Meaning == Effective(Base(), entries)
      && Below == (if parent == null then [db.coins] else parent.Below + [parent.Meaning])
      && Best == (if hashBlock != 0 then hashBlock else BaseBest())
      && Hashes == BaseHashes() + [hashBlock]
    }

    ghost predicate Footprint()
      reads this
    {
      && this in Repr && db in Repr
      && (parent != null ==> parent in Repr && parent.Repr < Repr && this !in parent.Repr && parent.db == db)
    }

    /** No modifier is open, and the usage counter is the sum over the entries. */
    ghost predicate Valid()
      reads this, Repr
      ensures Valid() ==> this in Repr
      decreases Repr
    {
      && Footprint() && db.Valid() && (parent != null ==> parent.Valid())
      && Layer()
      && !hasModifier && cachedCoinsUsage == UsageOf(entries)
    }

    /** The record of `k` is open for modification; it counted `usageBefore` bytes. */
    ghost predicate Modifying(k: Hash, usageBefore: int)
      reads this, Repr
      ensures Modifying(k, usageBefore) ==> this in Repr
    {
      && Footprint() && db.Valid() && (parent != null ==> parent.Valid())
      && Layer()
      && hasModifier && k in entries && entries[k].isDirty
      && cachedCoinsUsage == UsageOf(entries - {k}) + usageBefore
    }

    /** A cache directly over the database. */
    constructor OverDB(db: CoinsViewDB)
      requires db.Valid()
      ensures Valid() && parent == null && this.db == db && Repr == {this, db}
      ensures Meaning == db.coins && Best == db.bestBlock && Below == [db.coins]
      ensures Hashes == [db.bestBlock, 0]
    {
      this.parent, this.db := null, db;
      entries, hashBlock, hasModifier, cachedCoinsUsage := map[], 0, false, 0;
      Repr, Meaning, Best, Below := {this, db}, db.coins, db.bestBlock, [db.coins];
      Hashes := [db.bestBlock, 0];
      new;
      UsageEmpty();
    }

    /** A cache over another cache. */
    constructor OverCache(base: CoinsViewCache)
      requires base.Valid()
      ensures Valid() && parent == base && db == base.db && Repr == {this} + base.Repr
      ensures Meaning == base.Meaning && Best == base.Best && Below == base.Below + [base.Meaning]
      ensures Hashes == base.Hashes + [0]
    {
      this.parent, this.db := base, base.db;
      entries, hashBlock, hasModifier, cachedCoinsUsage := map[], 0, false, 0;
      Repr, Meaning, Best, Below := {this} + base.Repr, base.Meaning, base.Best, base.Below + [base.Meaning];
      Hashes := base.Hashes + [0];
      new;
      UsageEmpty();
    }

    // ----- reading -----

    lemma FetchedIs(k: Hash)
      requires Layer() && k in entries
      ensures Describes(Meaning, k, entries[k].coins) && entries[k].coins.IsClean()
      ensures k in Meaning <==> !entries[k].coins.IsPruned()
    {
      hide Effective, LayerOk, Stored, Coins.IsPruned, Coins.IsClean;
      EntryDescribed(Base(), entries, k);
      EffectiveIsStored(Base(), ParentKeys(), entries);
      LayerAt(Base(), ParentKeys(), entries, k);
      if k in Meaning { StoredAt(Meaning, k); }
    }

    method FetchCoins(k: Hash) returns (r: Option<Coins>)
      requires Valid()
      modifies Repr
      ensures Valid() && Meaning == old(Meaning) && Best == old(Best)
      ensures Base() == old(Base()) && BaseBest() == old(BaseBest()) && Below == old(Below)
      ensures r.Some? <==> k in entries
      ensures if r.Some? then r.value == entries[k].coins && Describes(Meaning, k, r.value) && r.value.IsClean()
              else k !in Meaning
      ensures r.Some? ==> (k in Meaning <==> !r.value.IsPruned())
      ensures old(entries).Keys <= entries.Keys && hashBlock == old(hashBlock) && Hashes == old(Hashes)
      decreases Repr, 1
    {
      hide DynamicUsage, UsageOf, Effective, Describes, EntryOk, LayerOk, Stored, Coins.IsPruned, Coins.IsClean, CoinsViewCache.BaseHashes;
      EntryDescribed(Base(), entries, k);
      if k in entries {
        FetchedIs(k);
        return Some(entries[k].coins);
      }
      ghost var keys := ParentKeys();
      r := BaseGetCoins(k);
      KeysGrew(Base(), entries, keys, ParentKeys());
      if r.None? {
        return;
      }
      var e := Entry(r.value, false, r.value.IsPruned());
      PulledEntryOk(Base(), ParentKeys(), k, r.value, false);
      LayerWith(Base(), ParentKeys(), entries, k, e);
      PulledInEntry(Base(), entries, k, e);
      UsageUpdate(entries, k, e);
      assert entries - {k} == entries;
      entries := entries[k := e];
      cachedCoinsUsage := cachedCoinsUsage + DynamicUsage(r.value);
      FetchedIs(k);
    }

    /** `base->getcoins`: may fill the caches below, but means the same afterwards. */
    method BaseGetCoins(k: Hash) returns (r: Option<Coins>)
      requires Footprint() && db.Valid() && (parent != null ==> parent.Valid()) && Stored(Base())
      modifies if parent == null then {} else parent.Repr
      ensures db.Valid() && (parent != null ==> parent.Valid())
      ensures Base() == old(Base()) && BaseBest() == old(BaseBest())
      ensures if r.Some? then Describes(Base(), k, r.value) && r.value.IsClean() else k !in Base()
      ensures r.Some? && parent != null ==> k in parent.entries
      ensures BaseHashes() == old(BaseHashes())
      ensures parent != null ==> parent.Below == old(parent.Below)
      ensures parent != null ==> old(parent.entries).Keys <= parent.entries.Keys
      decreases Repr, 0
    {
      if parent == null {
        r := if k in db.coins then Some(db.coins[k]) else None;
      } else {
        r := parent.FetchCoins(k);
      }
    }

    /** Asks for any output at all instead of looking for an unspent one; the same, as records are kept clean. */
    method HaveCoins(k: Hash) returns (r: bool)
      requires Valid()
      modifies Repr
      ensures Valid() && Meaning == old(Meaning) && Best == old(Best)
      ensures Base() == old(Base()) && BaseBest() == old(BaseBest()) && Below == old(Below)
      ensures r <==> k in Meaning
      ensures Hashes == old(Hashes)
    {
      var c := FetchCoins(k);
      r := c.Some? && c.value.vout != [];
    }

    lemma HasHashes()
      requires Valid()
      ensures |Hashes| >= 2 && (parent != null ==> |parent.Hashes| >= 2)
      decreases Repr
    {
      if parent != null {
        parent.HasHashes();
      }
    }

    method GetBestBlock() returns (r: Hash)
      requires Valid()
      modifies Repr
      ensures Valid() && Meaning == old(Meaning) && Best == old(Best)
      ensures Base() == old(Base()) && BaseBest() == old(BaseBest()) && Below == old(Below)
      ensures r == Best && hashBlock == r && entries == old(entries) && Hashes == Answered(old(Hashes))
      decreases Repr
    {
      hide UsageOf, Effective, LayerOk, Stored, Answered;
      ghost var below := BaseHashes();
      HasHashes();
      AnsweredTop(below, hashBlock);
      if hashBlock == 0 {
        if parent == null {
          hashBlock := db.bestBlock;
        } else {
          hashBlock := parent.GetBestBlock();
        }
        Hashes := Answered(below + [0]);
      }
      r := hashBlock;
    }

    method SetBestBlock(hash: Hash)
      requires Valid()
      modifies this
      ensures Valid() && Meaning == old(Meaning) && hashBlock == hash && Best == if hash != 0 then hash else BaseBest()
      ensures Base() == old(Base()) && BaseBest() == old(BaseBest()) && Below == old(Below)
      ensures |old(Hashes)| >= 2 && Hashes == old(Hashes)[..|old(Hashes)| - 1] + [hash]
    {
      hide UsageOf, Effective, LayerOk, Stored, CoinsViewCache.BaseHashes;
      HasHashes();
      hashBlock, Best := hash, if hash != 0 then hash else BaseBest();
      Hashes := Hashes[..|Hashes| - 1] + [hash];
    }

    // ----- modifying one record -----

    /** Opens the record of `k`; it is marked as modified from now on. */
    method ModifyCoins(k: Hash) returns (c: Coins, usageBefore: int)
      requires Valid()
      modifies Repr
      ensures Modifying(k, usageBefore) && Stored(Meaning) && Meaning == old(Meaning) && Best == old(Best)
      ensures Base() == old(Base()) && BaseBest() == old(BaseBest()) && Below == old(Below)
      ensures hashBlock == old(hashBlock) && Hashes == old(Hashes)
      ensures c == entries[k].coins && Describes(Meaning, k, c) && c.IsClean()
    {
      hide DynamicUsage, UsageOf, Effective, Describes, EntryOk, LayerOk, Stored, Coins.IsPruned, Coins.IsClean, CoinsViewCache.BaseHashes;
      EffectiveIsStored(Base(), ParentKeys(), entries);
      if k !in entries {
        usageBefore := 0;
        ghost var keys := ParentKeys();
        var r := BaseGetCoins(k);
        KeysGrew(Base(), entries, keys, ParentKeys());
        EmptyIsPruned();
        var e := if r.None? then Entry(EMPTY_COINS, true, true) else Entry(r.value, true, r.value.IsPruned());
        OpenedEntryOk(Base(), ParentKeys(), k, r);
        LayerWith(Base(), ParentKeys(), entries, k, e);
        PulledInEntry(Base(), entries, k, e);
        assert entries[k := e] - {k} == entries;
        entries := entries[k := e];
      } else {
        usageBefore := DynamicUsage(entries[k].coins);
        UsageUpdate(entries, k, entries[k]);
        Remarked(Base(), entries, k);
        var e := entries[k].(isDirty := true);
        LayerAt(Base(), ParentKeys(), entries, k);
        EntryIsClean(Base(), ParentKeys(), k, entries[k]);
        ChangedEntryOk(Base(), ParentKeys(), k, entries[k], entries[k].coins);
        LayerWith(Base(), ParentKeys(), entries, k, e);
        assert entries[k := e] - {k} == entries - {k};
        entries := entries[k := e];
      }
      FetchedIs(k);
      hasModifier := true;
      c := entries[k].coins;
    }

    /** Closes the record of `k`, leaving `c` in it. */
    method EndModify(k: Hash, c: Coins, usageBefore: int)
      requires Modifying(k, usageBefore)
      modifies this
      ensures Valid() && Best == old(Best) && hashBlock == old(hashBlock) && Hashes == old(Hashes)
      ensures Base() == old(Base()) && BaseBest() == old(BaseBest()) && Below == old(Below)
      ensures Meaning == Put(old(Meaning), k, c.(vout := Trim(c.vout)))
    {
      hide DynamicUsage, UsageOf, Effective, EntryOk, LayerOk, Stored, Coins.IsPruned, Coins.IsClean;
      hasModifier := false;
      var r := Cleanup(c);
      var e := entries[k].(coins := r);
      LayerAt(Base(), ParentKeys(), entries, k);
      ChangedEntryOk(Base(), ParentKeys(), k, entries[k], r);
      UsageUpdate(entries, k, e);
      cachedCoinsUsage := cachedCoinsUsage - usageBefore;
      if e.isFresh && r.IsPruned() {
        FreshIsNotBelow(Base(), ParentKeys(), k, entries[k]);
        EraseEntry(Base(), entries, k, r);
        LayerWithout(Base(), ParentKeys(), entries, k);
        entries := entries - {k};
      } else {
        WriteEntry(Base(), entries, k, e);
        LayerWith(Base(), ParentKeys(), entries, k, e);
        entries := entries[k := e];
        cachedCoinsUsage := cachedCoinsUsage + DynamicUsage(r);
      }
      Meaning := Put(Meaning, k, r);
    }

    // ----- pushing to the view below -----

    /** The base has no record of `k` either, or the child would have pulled it in here. */
    method MoveUp(k: Hash, c: Coins)
      requires Valid() && k !in entries && k !in Base() && c.IsClean()
      modifies this
      ensures Valid() && Best == old(Best) && hashBlock == old(hashBlock) && Below == old(Below) && Hashes == old(Hashes)
      ensures Meaning == Put(old(Meaning), k, c) && entries.Keys == old(entries).Keys + {k}
    {
      hide DynamicUsage, UsageOf, Effective, EntryOk, LayerOk, Stored, Coins.IsPruned, Coins.IsClean;
      var e := Entry(c, true, true);
      NewEntryOk(Base(), ParentKeys(), k, c);
      LayerWith(Base(), ParentKeys(), entries, k, e);
      UsageUpdate(entries, k, e);
      WriteEntry(Base(), entries, k, e);
      assert entries - {k} == entries;
      entries := entries[k := e];
      cachedCoinsUsage := cachedCoinsUsage + DynamicUsage(e.coins);
      Meaning := Put(Meaning, k, c);
    }

    method DropFresh(k: Hash, c: Coins)
      requires Valid() && k in entries && entries[k].isFresh && c.IsPruned()
      modifies this
      ensures Valid() && Best == old(Best) && hashBlock == old(hashBlock) && Below == old(Below) && Hashes == old(Hashes)
      ensures Meaning == Put(old(Meaning), k, c) && entries.Keys == old(entries).Keys - {k}
    {
      hide DynamicUsage, UsageOf, Effective, EntryOk, LayerOk, Stored, Coins.IsPruned, Coins.IsClean;
      LayerAt(Base(), ParentKeys(), entries, k);
      FreshIsNotBelow(Base(), ParentKeys(), k, entries[k]);
      LayerWithout(Base(), ParentKeys(), entries, k);
      UsageUpdate(entries, k, entries[k]);
      EraseEntry(Base(), entries, k, c);
      cachedCoinsUsage := cachedCoinsUsage - DynamicUsage(entries[k].coins);
      entries := entries - {k};
      Meaning := Put(Meaning, k, c);
    }

    method Replace(k: Hash, c: Coins)
      requires Valid() && k in entries && c.IsClean()
      modifies this
      ensures Valid() && Best == old(Best) && hashBlock == old(hashBlock) && Below == old(Below) && Hashes == old(Hashes)
      ensures Meaning == Put(old(Meaning), k, c) && entries.Keys == old(entries).Keys
    {
      hide DynamicUsage, UsageOf, Effective, EntryOk, LayerOk, Stored, Coins.IsPruned, Coins.IsClean;
      var e := entries[k].(coins := c, isDirty := true);
      LayerAt(Base(), ParentKeys(), entries, k);
      ChangedEntryOk(Base(), ParentKeys(), k, entries[k], c);
      LayerWith(Base(), ParentKeys(), entries, k, e);
      UsageUpdate(entries, k, e);
      WriteEntry(Base(), entries, k, e);
      cachedCoinsUsage := cachedCoinsUsage - DynamicUsage(entries[k].coins);
      entries := entries[k := e];
      cachedCoinsUsage := cachedCoinsUsage + DynamicUsage(e.coins);
      Meaning := Put(Meaning, k, c);
    }

    /** Takes over one entry of a child. */
    method TakeOver(k: Hash, it: Entry)
      requires Valid() && EntryOk(Meaning, Some(entries.Keys), k, it)
      modifies this
      ensures Valid() && Best == old(Best) && hashBlock == old(hashBlock) && Below == old(Below) && Hashes == old(Hashes)
      ensures Meaning == Pushed(old(Meaning), k, it)
      ensures old(entries.Keys) - {k} <= entries.Keys
    {
      hide DynamicUsage, UsageOf, Effective, LayerOk, Coins.IsPruned, Coins.IsClean;
      EntryDescribed(Base(), entries, k);
      if it.isDirty {
        if k !in entries {
          if !it.coins.IsPruned() {
            assert it.isFresh;
            MoveUp(k, it.coins);
          } else {
            assert Meaning - {k} == Meaning;
          }
        } else {
          if entries[k].isFresh && it.coins.IsPruned() {
            DropFresh(k, it.coins);
          } else {
            Replace(k, it.coins);
          }
        }
      }
    }

    /** Takes over the modified entries of a child. */
    method BatchWrite(mapCoins: Entries, hashBlockIn: Hash)
      requires Valid() && LayerOk(Meaning, Some(entries.Keys), mapCoins)
      modifies this
      ensures Valid() && hashBlock == hashBlockIn && Below == old(Below)
      ensures Meaning == Effective(old(Meaning), mapCoins)
      ensures Best == if hashBlockIn != 0 then hashBlockIn else BaseBest()
      ensures |old(Hashes)| >= 2 && Hashes == old(Hashes)[..|old(Hashes)| - 1] + [hashBlockIn]
    {
      hide DynamicUsage, UsageOf, Effective, LayerOk, Stored, EntryOk, Pushed, Flushed, Answered;
      assert !hasModifier;
      var todo := mapCoins;
      while todo != map[]
        invariant Valid() && LayerOk(Meaning, Some(entries.Keys), todo) && Below == old(Below) && Hashes == old(Hashes)
        invariant Effective(Meaning, todo) == Effective(old(Meaning), mapCoins)
        decreases |todo|
      {
        var k :| k in todo;
        ghost var keys := entries.Keys;
        EffectiveIsStored(Base(), ParentKeys(), entries);
        PushOne(Meaning, Some(keys), todo, k, Some(keys - {k}));
        TakeOver(k, todo[k]);
        MoreKeys(Meaning, todo - {k}, keys - {k}, entries.Keys);
        todo := todo - {k};
      }
      EffectiveOfNothing(Meaning);
      hashBlock := hashBlockIn;
      Best := if hashBlockIn != 0 then hashBlockIn else BaseBest();
      Hashes := Hashes[..|Hashes| - 1] + [hashBlockIn];
    }

    /** `base->BatchWrite`: the view below now means what this cache means. */
    method WriteDown()
      requires Valid()
      modifies if parent == null then {db as object} else {parent}
      ensures db.Valid() && (parent != null ==> parent.Valid())
      ensures Stored(Base()) && Base() == Meaning
      ensures parent == null ==> BaseBest() == Best
      ensures parent != null ==> BaseBest() == if hashBlock != 0 then hashBlock else parent.BaseBest()
      ensures parent != null ==> parent.hashBlock == hashBlock && parent.Below == old(parent.Below)
      ensures |Hashes| >= 2
      ensures BaseHashes() + [hashBlock] == Flushed(Hashes)
    {
      hide UsageOf, Effective, LayerOk, Stored;
      EffectiveIsStored(Base(), ParentKeys(), entries);
      if parent == null {
        db.BatchWrite(entries, hashBlock);
      } else {
        parent.BatchWrite(entries, hashBlock);
      }
    }

    /** Forgets every entry, now that the view below holds what they said. */
    method ClearEntries()
      requires Footprint() && db.Valid() && (parent != null ==> parent.Valid())
      requires Stored(Base()) && Base() == Meaning && !hasModifier
      requires |Below| == (if parent == null then 1 else |parent.Below| + 1)
      requires parent != null ==> Below[..|Below| - 1] == parent.Below
      requires |Hashes| >= 2 && BaseHashes() + [hashBlock] == Flushed(Hashes)
      modifies `entries, `cachedCoinsUsage, `Best, `Below, `Hashes
      ensures Valid() && entries == map[] && Hashes == Flushed(old(Hashes))
      ensures Best == if hashBlock != 0 then hashBlock else BaseBest()
      ensures Below == old(Below)[..|old(Below)| - 1] + [Meaning]
    {
      hide UsageOf, Effective, LayerOk, Stored, Flushed, CoinsViewCache.BaseHashes;
      entries, cachedCoinsUsage := map[], 0;
      Best := if hashBlock != 0 then hashBlock else BaseBest();
      Below := Below[..|Below| - 1] + [Meaning];
      Hashes := Flushed(Hashes);
      EffectiveOfNothing(Base());
      UsageEmpty();
      assert Layer();
    }

    /** Pushes everything to the base, which then means what this cache meant. */
    method Flush()
      requires Valid()
      modifies Repr
      ensures Valid() && Meaning == old(Meaning) && Base() == old(Meaning)
      ensures Below == old(Below)[..|old(Below)| - 1] + [old(Meaning)]
      ensures entries == map[] && hashBlock == old(hashBlock)
      ensures |old(Hashes)| >= 2 && Hashes == Flushed(old(Hashes))
      ensures old(hashBlock) != 0 || parent == null ==> Best == old(Best) && BaseBest() == old(Best)
      ensures parent != null ==> parent.hashBlock == old(hashBlock)
    {
      hide UsageOf, Effective, LayerOk, Stored, Flushed, CoinsViewCache.BaseHashes;
      WriteDown();
      ClearEntries();
    }
  }
}
