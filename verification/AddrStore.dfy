// Saving the address manager and loading it into a new one.  The tried table,
// bucket positions and reference counts are not stored but worked out again.
module AddrStore {
  import opened Wrappers
  import opened Basics
  import opened AddrBook

  /** What is written; entries lose what is kept in memory only. */
  datatype Saved = Saved(nNew: int, nTried: int, nUBuckets: int, news: seq<Info>, trieds: seq<Info>, buckets: seq<seq<int>>)

  /** An entry as it is read back. */
  function Strip(e: Info): Info
  {
    e.(lastTry := 0, refCount := 0, inTried := false, randomPos := -1)
  }

  // ----- numbering ids -----

  /** Each element of a list with its place. */
  function Numbering(s: seq<int>): (r: map<int, int>)
    ensures forall x :: x in r <==> x in s
    ensures forall x :: x in r ==> 0 <= r[x] < |s| && s[r[x]] == x
  {
    if s == [] then map[]
    else
      assert s == s[..|s| - 1] + [s[|s| - 1]];
      Numbering(s[..|s| - 1])[s[|s| - 1] := |s| - 1]
  }

  lemma NumberingAt(s: seq<int>, k: nat)
    requires NoRepeats(s) && k < |s|
    ensures Numbering(s)[s[k]] == k
  {
    assert s[Numbering(s)[s[k]]] == s[k];
  }

  lemma NumberingPrefix(s: seq<int>, t: seq<int>, x: int)
    requires NoRepeats(s + t) && x in s
    ensures Numbering(s + t)[x] == Numbering(s)[x]
  {
    var k := Numbering(s)[x];
    assert (s + t)[k] == x;
    NumberingAt(s + t, k);
  }

  /** The elements that belong to a set, in order. */
  function Select(order: seq<int>, keep: set<int>): (r: seq<int>)
    ensures forall x :: x in r <==> x in order && x in keep
  {
    if order == [] then []
    else
      var k := |order| - 1;
      assert order == order[..k] + [order[k]];
      if order[k] in keep then Select(order[..k], keep) + [order[k]] else Select(order[..k], keep)
  }

  lemma {:induction false} SelectNoRepeats(order: seq<int>, keep: set<int>)
    requires NoRepeats(order)
    ensures NoRepeats(Select(order, keep))
  {
    if order != [] {
      var k := |order| - 1;
      SelectNoRepeats(order[..k], keep);
      assert order[k] !in order[..k];
    }
  }

  lemma SelectCounts(order: seq<int>, keep: set<int>, all: set<int>)
    requires NoRepeats(order) && keep <= all && all == set x | x in order
    ensures |Select(order, keep)| == |keep|
  {
    SelectNoRepeats(order, keep);
    assert keep == set x | x in Select(order, keep);
    ListsOnce(Select(order, keep), keep);
  }

  // ----- saving -----

  function Referenced(info: Infos): set<int>
  {
    set id | id in info && info[id].refCount != 0
  }

  function Tried(info: Infos): set<int>
  {
    set id | id in info && info[id].inTried
  }

  /** `order` is the order in which the map of entries is walked. */
  ghost predicate IsOrder(order: seq<int>, b: Book)
  {
    NoRepeats(order) && b.info.Keys == set x | x in order
  }

  /** The ids in increasing order, in which the map is really walked. */
  function Ascending(ids: set<int>, n: nat): (r: seq<int>)
    ensures forall x :: x in r <==> x in ids && 0 <= x < n
  {
    if n == 0 then [] else Ascending(ids, n - 1) + if n - 1 in ids then [n - 1] else []
  }

  lemma {:induction false} AscendingNoRepeats(ids: set<int>, n: nat)
    ensures NoRepeats(Ascending(ids, n))
  {
    if n > 0 {
      AscendingNoRepeats(ids, n - 1);
      assert n - 1 !in Ascending(ids, n - 1);
    }
  }

  lemma AscendingIsOrder(h: Hasher, b: Book)
    requires Inv(h, b)
    ensures b.idCount >= 0 && IsOrder(Ascending(b.info.Keys, b.idCount), b)
  {
    assert IdsOk(b.info, b.idCount);
    AscendingNoRepeats(b.info.Keys, b.idCount);
    hide Inv;
  }

  lemma AscendingStep(ids: set<int>, n: nat, keep: set<int>)
    requires keep <= ids
    ensures Select(Ascending(ids, n + 1), keep) == Select(Ascending(ids, n), keep) + if n in keep then [n] else []
  {
    var s := Ascending(ids, n);
    if n in ids {
      assert (s + [n])[..|s|] == s;
    } else {
      assert s + [] == s;
    }
  }

  lemma {:induction false} AscendingGrows(ids: set<int>, m: nat, n: nat, keep: set<int>)
    requires keep <= ids && m <= n
    ensures |Select(Ascending(ids, m), keep)| <= |Select(Ascending(ids, n), keep)|
  {
    if m < n {
      AscendingGrows(ids, m, n - 1, keep);
      AscendingStep(ids, n - 1, keep);
    }
  }

  function Stripped(info: Infos, ids: seq<int>): seq<Info>
    requires forall i :: 0 <= i < |ids| ==> ids[i] in info
  {
    seq(|ids|, i requires 0 <= i < |ids| => Strip(info[ids[i]]))
  }

  /** Indices of the entries in the first `n` places of a bucket. */
  function BucketList(b: Book, number: map<int, int>, bucket: nat, n: nat): seq<int>
    requires forall s :: s in b.newTable ==> b.newTable[s] in number
  {
    if n == 0 then []
    else
      BucketList(b, number, bucket, n - 1) +
      if Slot(bucket, n - 1) in b.newTable then [number[b.newTable[Slot(bucket, n - 1)]]] else []
  }

  predicate CanSave(b: Book, order: seq<int>)
  {
    && (forall x :: x in order ==> x in b.info)
    && |Select(order, Referenced(b.info))| <= b.nNew
    && |Select(order, Tried(b.info))| <= b.nTried
    && (forall s :: s in b.newTable ==> b.newTable[s] in Select(order, Referenced(b.info)))
  }

  function Save(b: Book, order: seq<int>): Saved
    requires CanSave(b, order)
  {
    var news, trieds := Select(order, Referenced(b.info)), Select(order, Tried(b.info));
    assert forall i :: 0 <= i < |news| ==> news[i] in news;
    assert forall i :: 0 <= i < |trieds| ==> trieds[i] in trieds;
    Saved(b.nNew, b.nTried, NEW_BUCKETS, Stripped(b.info, news), Stripped(b.info, trieds),
          seq(NEW_BUCKETS, bucket requires 0 <= bucket < NEW_BUCKETS => BucketList(b, Numbering(news), bucket, BUCKET_SIZE)))
  }

  /** `es` is what is written of the entries `ids`. */
  ghost predicate Wrote(info: Infos, ids: seq<int>, es: seq<Info>)
  {
    |es| == |ids| && forall i :: 0 <= i < |ids| ==> ids[i] in info && es[i] == Strip(info[ids[i]])
  }

  ghost predicate Numbers(ids: seq<int>, number: map<int, int>)
  {
    forall i :: 0 <= i < |ids| ==> ids[i] in number && number[ids[i]] == i
  }

  lemma WroteNothing(info: Infos, keep: set<int>, keys: set<int>)
    ensures Select(Ascending(keys, 0), keep) == [] && Wrote(info, [], []) && Numbers([], map[])
  {
  }

  lemma WroteMore(info: Infos, ids: seq<int>, es: seq<Info>, id: int)
    requires Wrote(info, ids, es) && id in info
    ensures Wrote(info, ids + [id], es + [Strip(info[id])]) && |es| == |ids|
  {
  }

  lemma NumbersMore(ids: seq<int>, number: map<int, int>, id: int)
    requires Numbers(ids, number) && id !in ids
    ensures Numbers(ids, number[id := |ids|]) && Numbers(ids + [id], number[id := |ids|])
  {
  }

  lemma SlotsInList(b: Book, order: seq<int>, number: map<int, int>)
    requires CanSave(b, order) && Numbers(Select(order, Referenced(b.info)), number)
    ensures forall s :: s in b.newTable ==> b.newTable[s] in number
    ensures var news := Select(order, Referenced(b.info));
            forall s :: s in b.newTable ==>
              b.newTable[s] in Numbering(news) && number[b.newTable[s]] == Numbering(news)[b.newTable[s]]
  {
    var news := Select(order, Referenced(b.info));
    hide Select, Referenced, Tried;
    forall s | s in b.newTable
      ensures b.newTable[s] in number && b.newTable[s] in Numbering(news) && number[b.newTable[s]] == Numbering(news)[b.newTable[s]]
    {
      assert b.newTable[s] in news;
      var k := Numbering(news)[b.newTable[s]];
      assert news[k] == b.newTable[s];
    }
  }

  lemma SameEntriesWritten(b: Book, order: seq<int>, v: Saved)
    requires CanSave(b, order)
    requires Wrote(b.info, Select(order, Referenced(b.info)), v.news) && Wrote(b.info, Select(order, Tried(b.info)), v.trieds)
    ensures v.news == Save(b, order).news && v.trieds == Save(b, order).trieds
    ensures Save(b, order).nNew == b.nNew && Save(b, order).nTried == b.nTried && Save(b, order).nUBuckets == NEW_BUCKETS
  {
    hide Select, Referenced, Tried, Numbering, BucketList, Strip;
  }

  lemma {:induction false} SameNumbers(b: Book, r: map<int, int>, r': map<int, int>, bucket: nat, n: nat)
    requires forall s :: s in b.newTable ==> b.newTable[s] in r && b.newTable[s] in r' && r[b.newTable[s]] == r'[b.newTable[s]]
    ensures BucketList(b, r, bucket, n) == BucketList(b, r', bucket, n)
  {
    if n > 0 {
      SameNumbers(b, r, r', bucket, n - 1);
    }
  }

  lemma SameBuckets(b: Book, order: seq<int>, number: map<int, int>, v: Saved)
    requires CanSave(b, order) && |v.buckets| == NEW_BUCKETS
    requires var news := Select(order, Referenced(b.info));
             forall s :: s in b.newTable ==>
               && b.newTable[s] in number && b.newTable[s] in Numbering(news)
               && number[b.newTable[s]] == Numbering(news)[b.newTable[s]]
    requires forall k :: 0 <= k < NEW_BUCKETS ==> v.buckets[k] == BucketList(b, number, k, BUCKET_SIZE)
    ensures v.buckets == Save(b, order).buckets
  {
    hide Select, Referenced, Tried, Numbering, BucketList, Strip;
    var news := Select(order, Referenced(b.info));
    forall k | 0 <= k < NEW_BUCKETS ensures v.buckets[k] == Save(b, order).buckets[k] {
      SameNumbers(b, number, Numbering(news), k, BUCKET_SIZE);
    }
  }

  // What the loops write is what is saved.
  lemma SameSaved(b: Book, order: seq<int>, number: map<int, int>, v: Saved)
    requires CanSave(b, order) && Numbers(Select(order, Referenced(b.info)), number)
    requires forall s :: s in b.newTable ==> b.newTable[s] in number
    requires v.nNew == b.nNew && v.nTried == b.nTried && v.nUBuckets == NEW_BUCKETS == |v.buckets|
    requires Wrote(b.info, Select(order, Referenced(b.info)), v.news) && Wrote(b.info, Select(order, Tried(b.info)), v.trieds)
    requires forall k :: 0 <= k < NEW_BUCKETS ==> v.buckets[k] == BucketList(b, number, k, BUCKET_SIZE)
    ensures v == Save(b, order)
  {
    SlotsInList(b, order, number);
    SameBuckets(b, order, number, v);
    SameEntriesWritten(b, order, v);
    hide Select, Referenced, Tried, Numbering, Numbers, Wrote, BucketList, CanSave, Save;
  }

  // ----- loading -----

  /** One entry of the new table; when the stored buckets cannot be used it goes to its primary bucket. */
  function LoadOneNew(h: Hasher, b: Book, usable: bool, id: int, e: Info): Book
  {
    var b1 := b.(info := b.info[id := e.(randomPos := |b.random|)], addr := b.addr[e.service.ip := id], random := b.random + [id]);
    var slot := NewSlot(h, NewBucket(h, e.service, e.source), e.service);
    if usable || slot in b.newTable then b1 else Link(b1, slot, id)
  }

  /** After `n` entries of the new table. */
  function LoadNews(h: Hasher, v: Saved, n: nat): Book
    requires n <= |v.news|
  {
    if n == 0 then EMPTY.(nNew := v.nNew, nTried := v.nTried)
    else LoadOneNew(h, LoadNews(h, v, n - 1), v.nUBuckets == NEW_BUCKETS, n - 1, v.news[n - 1])
  }

  /**
   * One tried entry; it is lost when its slot is taken.  Id -1, which a file
   * with a negative count can lead to, reads as an empty place.
   */
  function LoadOneTried(h: Hasher, b: Book, e: Info): Book
  {
    var slot := TriedSlot(h, e.service);
    if slot in b.triedTable then b.(nTried := b.nTried - 1)
    else
      b.(info := b.info[b.idCount := e.(randomPos := |b.random|, inTried := true)],
         addr := b.addr[e.service.ip := b.idCount],
         random := b.random + [b.idCount],
         triedTable := if b.idCount == -1 then b.triedTable else b.triedTable[slot := b.idCount],
         idCount := b.idCount + 1)
  }

  lemma LoadOneTriedCounts(h: Hasher, b: Book, e: Info, k: int)
    ensures LoadOneTried(h, b.(nTried := b.nTried - k), e)
            == LoadOneTried(h, b, e).(nTried := LoadOneTried(h, b, e).nTried - k)
  {
    hide TriedSlot;
  }

  function LoadTrieds(h: Hasher, v: Saved, b: Book, n: nat): Book
    requires n <= |v.trieds|
  {
    if n == 0 then b else LoadOneTried(h, LoadTrieds(h, v, b, n - 1), v.trieds[n - 1])
  }

  /** One index of a bucket list; it is dropped when it cannot be placed. */
  function LoadIndex(h: Hasher, b: Book, usable: bool, nNew: int, bucket: nat, index: int): Book
  {
    if 0 <= index < nNew && index in b.info then
      var slot := NewSlot(h, bucket, b.info[index].service);
      if usable && slot !in b.newTable && b.info[index].refCount < NEW_BUCKETS_PER_ADDRESS then Link(b, slot, index) else b
    else b
  }

  function LoadBucket(h: Hasher, b: Book, usable: bool, nNew: int, bucket: nat, list: seq<int>): Book
  {
    if list == [] then b
    else LoadIndex(h, LoadBucket(h, b, usable, nNew, bucket, list[..|list| - 1]), usable, nNew, bucket, list[|list| - 1])
  }

  function LoadBuckets(h: Hasher, v: Saved, b: Book, n: nat): Book
    requires n <= |v.buckets|
  {
    if n == 0 then b
    else LoadBucket(h, LoadBuckets(h, v, b, n - 1), v.nUBuckets == NEW_BUCKETS, v.nNew, n - 1, v.buckets[n - 1])
  }

  /** Entries that got no reference are deleted; `None` when an assert fails. */
  function Prune(b: Book, ids: seq<int>): Option<Book>
  {
    if ids == [] then Some(b)
    else
      match Prune(b, ids[..|ids| - 1])
      case None => None
      case Some(b1) =>
        var id := ids[|ids| - 1];
        if id in b1.info && !b1.info[id].inTried && b1.info[id].refCount == 0 then
          if CanDelete(b1, id) then Some(Delete(b1, id)) else None
        else Some(b1)
  }

  /** Loading into a new manager, up to the pruning; version 1 of the format. */
  function LoadTables(h: Hasher, v: Saved): Book
  {
    LoadBuckets(h, v, LoadTrieds(h, v, LoadNews(h, v, |v.news|).(idCount := v.nNew), |v.trieds|), |v.buckets|)
  }

  // ----- what is loaded, as a renaming of what was saved -----

  /** `all` lists the entries in their new order, and `r` maps each old id to its new one. */
  ghost predicate Renames(all: seq<int>, r: map<int, int>, info: Infos)
  {
    && NoRepeats(all)
    && r.Keys == info.Keys
    && (forall id :: id in r ==> 0 <= r[id] < |all| && all[r[id]] == id)
    && (forall k :: 0 <= k < |all| ==> all[k] in r && r[all[k]] == k)
  }

  lemma RenamedId(all: seq<int>, r: map<int, int>, info: Infos, id: int)
    requires Renames(all, r, info) && id in info
    ensures id in r && 0 <= r[id] < |all| && all[r[id]] == id
  {
  }

  lemma RenamedPlace(all: seq<int>, r: map<int, int>, info: Infos, k: nat)
    requires Renames(all, r, info) && k < |all|
    ensures all[k] in info && all[k] in r && r[all[k]] == k
  {
  }

  /** The entry with new id `k`, when the slots of `done` were placed. */
  ghost function LoadedInfo(h: Hasher, e: Info, id: int, k: int, done: Table): Info
  {
    Strip(e).(inTried := e.inTried, randomPos := k, refCount := |Buckets(h, e.service, done, id)|)
  }

  /** The part of a map into ids that leads to new ids below `n`. */
  ghost function Below<K>(m: map<K, int>, r: map<int, int>, n: nat): map<K, int>
    requires forall x :: x in m ==> m[x] in r
  {
    map x | x in m && r[m[x]] < n :: r[m[x]]
  }

  ghost function LoadedInfos(h: Hasher, info: Infos, all: seq<int>, n: nat, done: Table): Infos
    requires n <= |all| && forall k :: 0 <= k < n ==> all[k] in info
  {
    map k: int | 0 <= k < n :: LoadedInfo(h, info[all[k]], all[k], k, done)
  }

  /** The manager after the first `n` entries of `all` and the slots of `done`. */
  ghost function Loaded(h: Hasher, b: Book, all: seq<int>, r: map<int, int>, n: nat, done: Table): Book
    requires Renames(all, r, b.info) && n <= |all|
    requires forall s :: s in done ==> done[s] in r
    requires forall s :: s in b.triedTable ==> b.triedTable[s] in r
    requires forall a :: a in b.addr ==> b.addr[a] in r
  {
    Book(LoadedInfos(h, b.info, all, n, done),
         Below(b.addr, r, n),
         seq(n, k => k),
         Below(done, r, |all|),
         Below(b.triedTable, r, n),
         b.nNew, b.nTried, n)
  }

  lemma TablesAreRenamed(h: Hasher, b: Book, all: seq<int>, r: map<int, int>)
    requires Inv(h, b) && Renames(all, r, b.info)
    ensures forall s :: s in b.newTable ==> b.newTable[s] in r
    ensures forall s :: s in b.triedTable ==> b.triedTable[s] in r
    ensures forall a :: a in b.addr ==> b.addr[a] in r
  {
  }

  lemma NothingDone(h: Hasher, s: Service, id: int)
    ensures Buckets(h, s, map[], id) == {}
  {
  }

  ghost predicate TablesAreIn(b: Book, r: map<int, int>)
  {
    && (forall s :: s in b.newTable ==> b.newTable[s] in r)
    && (forall s :: s in b.triedTable ==> b.triedTable[s] in r)
    && (forall a :: a in b.addr ==> b.addr[a] in r)
  }

  lemma BelowSkips<K>(m: map<K, int>, r: map<int, int>, n: nat)
    requires forall x :: x in m ==> m[x] in r && r[m[x]] != n
    ensures Below(m, r, n + 1) == Below(m, r, n)
  {
  }

  lemma AddrOfId(info: Infos, addr: map<NetAddr, int>, id: int)
    requires AddrOk(info, addr) && id in info
    ensures info[id].service.ip in addr && addr[info[id].service.ip] == id
  {
  }

  // Only its own network address leads to an entry.
  lemma AddrOfNext(b: Book, all: seq<int>, r: map<int, int>, n: nat)
    requires AddrOk(b.info, b.addr) && Renames(all, r, b.info) && n < |all|
    ensures all[n] in b.info
    ensures forall a :: a in b.addr ==> b.addr[a] in r && (r[b.addr[a]] == n <==> a == b.info[all[n]].service.ip)
    ensures b.info[all[n]].service.ip in b.addr
  {
    RenamedPlace(all, r, b.info, n);
    AddrOfId(b.info, b.addr, all[n]);
    forall a | a in b.addr ensures b.addr[a] in r && (r[b.addr[a]] == n <==> a == b.info[all[n]].service.ip) {
      RenamedId(all, r, b.info, b.addr[a]);
    }
  }

  lemma BelowNext<K>(m: map<K, int>, r: map<int, int>, n: nat, x: K)
    requires forall y :: y in m ==> m[y] in r && (r[m[y]] == n <==> y == x)
    requires x in m
    ensures Below(m, r, n + 1) == Below(m, r, n)[x := n] && x !in Below(m, r, n)
  {
  }

  lemma LoadedInfosNext(h: Hasher, info: Infos, all: seq<int>, n: nat)
    requires n < |all| && forall k :: 0 <= k <= n ==> all[k] in info
    ensures LoadedInfos(h, info, all, n + 1, map[]) ==
            LoadedInfos(h, info, all, n, map[])[n := Strip(info[all[n]]).(inTried := info[all[n]].inTried, randomPos := n)]
  {
    NothingDone(h, info[all[n]].service, all[n]);
    hide Buckets;
  }

  lemma BelowNothing<K>(r: map<int, int>, n: nat)
    ensures Below<K>(map[], r, n) == map[]
  {
  }

  // The parts of the loaded manager, one entry further on.
  lemma LoadedParts(h: Hasher, b: Book, all: seq<int>, r: map<int, int>, n: nat)
    requires TablesAreIn(b, r) && Renames(all, r, b.info) && n < |all| && AddrOk(b.info, b.addr)
    ensures all[n] in b.info
    ensures var x, y := Loaded(h, b, all, r, n, map[]), Loaded(h, b, all, r, n + 1, map[]);
            var e := b.info[all[n]];
            && y.info == x.info[n := Strip(e).(inTried := e.inTried, randomPos := n)]
            && y.random == x.random + [n] && |x.random| == n
            && y.addr == x.addr[e.service.ip := n]
            && y.newTable == x.newTable == map[]
            && x.triedTable == Below(b.triedTable, r, n) && y.triedTable == Below(b.triedTable, r, n + 1)
            && y.nNew == x.nNew && y.nTried == x.nTried && x.idCount == n && y.idCount == n + 1
  {
    forall k | 0 <= k <= n ensures all[k] in b.info {
      RenamedPlace(all, r, b.info, k);
    }
    AddrOfNext(b, all, r, n);
    BelowNext(b.addr, r, n, b.info[all[n]].service.ip);
    LoadedInfosNext(h, b.info, all, n);
    hide Renames, LoadedInfos, AddrOk, Strip;
    BelowNothing<Slot>(r, |all|);
    hide Below;
  }

  // An untried entry, loaded next.
  lemma LoadNewStep(h: Hasher, b: Book, all: seq<int>, r: map<int, int>, n: nat)
    requires Inv(h, b) && Renames(all, r, b.info) && n < |all| && all[n] in b.info && !b.info[all[n]].inTried
    ensures TablesAreIn(b, r)
    ensures LoadOneNew(h, Loaded(h, b, all, r, n, map[]), true, n, Strip(b.info[all[n]])).(idCount := n + 1)
            == Loaded(h, b, all, r, n + 1, map[])
  {
    TablesAreRenamed(h, b, all, r);
    LoadedParts(h, b, all, r, n);
    forall s | s in b.triedTable ensures r[b.triedTable[s]] != n {
      assert b.info[b.triedTable[s]].inTried;
      RenamedId(all, r, b.info, b.triedTable[s]);
    }
    BelowSkips(b.triedTable, r, n);
    hide Renames, Consistent, Loaded, NewSlot, NewBucket;
  }

  lemma TriedSlotOfId(h: Hasher, info: Infos, table: Table, id: int)
    requires TriedOk(h, info, table) && id in info && info[id].inTried
    ensures TriedSlot(h, info[id].service) in table && table[TriedSlot(h, info[id].service)] == id
  {
  }

  lemma TriedSlotOfNext(h: Hasher, b: Book, all: seq<int>, r: map<int, int>, n: nat)
    requires TriedOk(h, b.info, b.triedTable) && Renames(all, r, b.info) && n < |all|
    requires all[n] in b.info && b.info[all[n]].inTried
    ensures forall s :: s in b.triedTable ==> b.triedTable[s] in r && (r[b.triedTable[s]] == n <==> s == TriedSlot(h, b.info[all[n]].service))
    ensures TriedSlot(h, b.info[all[n]].service) in b.triedTable
  {
    RenamedPlace(all, r, b.info, n);
    TriedSlotOfId(h, b.info, b.triedTable, all[n]);
    forall s | s in b.triedTable
      ensures b.triedTable[s] in r && (r[b.triedTable[s]] == n <==> s == TriedSlot(h, b.info[all[n]].service))
    {
      RenamedId(all, r, b.info, b.triedTable[s]);
    }
  }

  // A tried entry, loaded next: its slot is free, because no other tried entry has it.
  lemma LoadTriedStep(h: Hasher, b: Book, all: seq<int>, r: map<int, int>, n: nat)
    requires Inv(h, b) && Renames(all, r, b.info) && n < |all| && all[n] in b.info && b.info[all[n]].inTried
    ensures TablesAreIn(b, r)
    ensures LoadOneTried(h, Loaded(h, b, all, r, n, map[]), Strip(b.info[all[n]])) == Loaded(h, b, all, r, n + 1, map[])
  {
    TablesAreRenamed(h, b, all, r);
    LoadedParts(h, b, all, r, n);
    TriedSlotOfNext(h, b, all, r, n);
    BelowNext(b.triedTable, r, n, TriedSlot(h, b.info[all[n]].service));
    hide Renames, Consistent, Loaded, TriedSlot;
  }

  // The entry of a slot that is placed next.
  lemma LoadedSlot(h: Hasher, b: Book, all: seq<int>, r: map<int, int>, done: Table, slot: Slot)
    requires Renames(all, r, b.info) && TablesAreIn(b, r) && NewOk(h, b.info, b.newTable)
    requires slot in b.newTable && slot !in done && b.newTable[slot] in r
    requires forall s :: s in done ==> s in b.newTable && done[s] == b.newTable[s]
    ensures b.newTable[slot] in b.info
    ensures var id, x := b.newTable[slot], Loaded(h, b, all, r, |all|, done);
            && r[id] in x.info && x.info[r[id]].service == b.info[id].service
            && x.info[r[id]].refCount == |Buckets(h, b.info[id].service, done, id)|
            && slot !in x.newTable && slot == NewSlot(h, slot.bucket, b.info[id].service)
  {
    RenamedId(all, r, b.info, b.newTable[slot]);
    hide Buckets, NewSlot;
  }

  lemma BelowWith<K>(m: map<K, int>, r: map<int, int>, n: nat, x: K, id: int)
    requires forall y :: y in m ==> m[y] in r
    requires id in r && r[id] < n
    ensures forall y :: y in m[x := id] ==> (if y == x then id else m[y]) in r
    ensures Below(m[x := id], r, n) == Below(m, r, n)[x := r[id]]
  {
  }

  // One more slot adds one reference to its entry and none to the others.
  lemma LinkCounts(h: Hasher, b: Book, all: seq<int>, r: map<int, int>, done: Table, slot: Slot)
    requires Renames(all, r, b.info) && NewOk(h, b.info, b.newTable)
    requires slot in b.newTable && slot !in done
    ensures forall j :: 0 <= j < |all| ==> all[j] in b.info
    ensures b.newTable[slot] in r && 0 <= r[b.newTable[slot]] < |all|
    ensures var x, k := LoadedInfos(h, b.info, all, |all|, done), r[b.newTable[slot]];
            LoadedInfos(h, b.info, all, |all|, done[slot := b.newTable[slot]]) == x[k := x[k].(refCount := x[k].refCount + 1)]
  {
    var id := b.newTable[slot];
    InBuckets(h, b.info, b.newTable, slot);
    RenamedId(all, r, b.info, id);
    var x, y := LoadedInfos(h, b.info, all, |all|, done), LoadedInfos(h, b.info, all, |all|, done[slot := id]);
    hide NewOk, Buckets, Renames;
    forall j | 0 <= j < |all|
      ensures y[j] == if j == r[id] then x[j].(refCount := x[j].refCount + 1) else x[j]
    {
      RenamedPlace(all, r, b.info, j);
      BucketsWith(h, b.info[all[j]].service, done, slot, all[j], id);
    }
  }

  lemma LinkLoaded(h: Hasher, b: Book, all: seq<int>, r: map<int, int>, done: Table, slot: Slot)
    requires Renames(all, r, b.info) && TablesAreIn(b, r) && NewOk(h, b.info, b.newTable)
    requires slot in b.newTable && slot !in done
    requires forall s :: s in done ==> s in b.newTable && done[s] == b.newTable[s]
    ensures r[b.newTable[slot]] in Loaded(h, b, all, r, |all|, done).info
    ensures Link(Loaded(h, b, all, r, |all|, done), slot, r[b.newTable[slot]])
            == Loaded(h, b, all, r, |all|, done[slot := b.newTable[slot]])
  {
    LinkCounts(h, b, all, r, done, slot);
    BelowWith(done, r, |all|, slot, b.newTable[slot]);
    assert r[b.newTable[slot]] in LoadedInfos(h, b.info, all, |all|, done);
    hide Below, NewOk, LoadedInfos, Renames;
  }

  lemma {:induction false} SubsetSize(a: set<nat>, b: set<nat>)
    requires a <= b
    ensures |a| <= |b|
  {
    if a != {} {
      var x :| x in a;
      SubsetSize(a - {x}, b - {x});
    }
  }

  lemma RoomLeft(h: Hasher, b: Book, done: Table, slot: Slot)
    requires NewOk(h, b.info, b.newTable) && RefsOk(h, b.info, b.newTable, {})
    requires slot in b.newTable && slot !in done
    requires forall s :: s in done ==> s in b.newTable && done[s] == b.newTable[s]
    ensures b.newTable[slot] in b.info
    ensures |Buckets(h, b.info[b.newTable[slot]].service, done, b.newTable[slot])| < NEW_BUCKETS_PER_ADDRESS
  {
    var id := b.newTable[slot];
    InBuckets(h, b.info, b.newTable, slot);
    assert RefOk(h, b.info[id], b.newTable, id, {});
    var some, every := Buckets(h, b.info[id].service, done, id), Buckets(h, b.info[id].service, b.newTable, id);
    assert slot.bucket !in some && some + {slot.bucket} <= every;
    SubsetSize(some + {slot.bucket}, every);
  }

  // A slot of the new table, placed next: it is free, and its entry has room.
  lemma LoadSlotStep(h: Hasher, b: Book, all: seq<int>, r: map<int, int>, done: Table, slot: Slot)
    requires NewOk(h, b.info, b.newTable) && RefsOk(h, b.info, b.newTable, {})
    requires Renames(all, r, b.info) && slot in b.newTable && slot !in done
    requires forall s :: s in done ==> s in b.newTable && done[s] == b.newTable[s]
    requires b.newTable[slot] in r && 0 <= r[b.newTable[slot]] < b.nNew && TablesAreIn(b, r)
    ensures LoadIndex(h, Loaded(h, b, all, r, |all|, done), true, b.nNew, slot.bucket, r[b.newTable[slot]])
            == Loaded(h, b, all, r, |all|, done[slot := b.newTable[slot]])
  {
    hide Loaded, Buckets, NewOk, RefsOk, Renames, TablesAreIn;
    LoadedSlot(h, b, all, r, done, slot);
    RoomLeft(h, b, done, slot);
    LinkLoaded(h, b, all, r, done, slot);
  }

  // ----- the whole load -----

  lemma EmptyBelow<K>(r: map<int, int>, n: nat)
    ensures Below<K>(map[], r, n) == map[]
  {
  }

  lemma NoInfos(h: Hasher, info: Infos, all: seq<int>)
    ensures LoadedInfos(h, info, all, 0, map[]) == map[]
  {
  }

  lemma NoneBelow<K>(all: seq<int>, r: map<int, int>, info: Infos, m: map<K, int>)
    requires Renames(all, r, info)
    requires forall x :: x in m ==> m[x] in r
    ensures Below(m, r, 0) == map[]
  {
    forall x | x in m ensures r[m[x]] >= 0 {
      RenamedId(all, r, info, m[x]);
    }
  }

  lemma LoadedNothing(h: Hasher, b: Book, all: seq<int>, r: map<int, int>)
    requires TablesAreIn(b, r) && Renames(all, r, b.info)
    ensures EMPTY.(nNew := b.nNew, nTried := b.nTried) == Loaded(h, b, all, r, 0, map[])
  {
    hide Renames, LoadedInfos, Below;
    NoneBelow(all, r, b.info, b.addr);
    NoneBelow(all, r, b.info, b.triedTable);
    EmptyBelow<Slot>(r, |all|);
    NoInfos(h, b.info, all);
    hide TablesAreIn;
  }

  lemma IdCountUnused(h: Hasher, x: Book, id: int, e: Info)
    ensures LoadOneNew(h, x, true, id, e).(idCount := id + 1) == LoadOneNew(h, x.(idCount := id), true, id, e).(idCount := id + 1)
  {
  }

  lemma {:induction false} LoadNewsIs(h: Hasher, b: Book, all: seq<int>, r: map<int, int>, v: Saved, n: nat)
    requires Inv(h, b) && Renames(all, r, b.info) && TablesAreIn(b, r)
    requires v.nUBuckets == NEW_BUCKETS && v.nNew == b.nNew && v.nTried == b.nTried
    requires n <= |v.news| <= |all|
    requires forall k :: 0 <= k < |v.news| ==> all[k] in b.info && !b.info[all[k]].inTried && v.news[k] == Strip(b.info[all[k]])
    ensures LoadNews(h, v, n).(idCount := n) == Loaded(h, b, all, r, n, map[])
  {
    hide Inv, Renames, Loaded, TablesAreIn, LoadOneNew;
    if n == 0 {
      LoadedNothing(h, b, all, r);
    } else {
      LoadNewsIs(h, b, all, r, v, n - 1);
      var x := LoadNews(h, v, n - 1);
      LoadNewStep(h, b, all, r, n - 1);
      IdCountUnused(h, x, n - 1, v.news[n - 1]);
    }
  }

  ghost predicate SavesTried(b: Book, all: seq<int>, v: Saved, k: nat)
    requires k < |v.trieds| && |v.news| + |v.trieds| == |all|
  {
    var id := all[|v.news| + k];
    id in b.info && b.info[id].inTried && v.trieds[k] == Strip(b.info[id])
  }

  lemma {:induction false} LoadTriedsIs(h: Hasher, b: Book, all: seq<int>, r: map<int, int>, v: Saved, n: nat)
    requires Inv(h, b) && Renames(all, r, b.info) && TablesAreIn(b, r)
    requires n <= |v.trieds| && |v.news| + |v.trieds| == |all|
    requires forall k :: 0 <= k < |v.trieds| ==> SavesTried(b, all, v, k)
    ensures LoadTrieds(h, v, Loaded(h, b, all, r, |v.news|, map[]), n) == Loaded(h, b, all, r, |v.news| + n, map[])
  {
    hide Inv, Renames, Loaded, TablesAreIn, LoadOneTried;
    if n > 0 {
      LoadTriedsIs(h, b, all, r, v, n - 1);
      assert SavesTried(b, all, v, n - 1);
      LoadTriedStep(h, b, all, r, |v.news| + n - 1);
    }
  }

  /** The slots of the first `bucket` buckets, and of the first `n` places of the next. */
  ghost function SlotsBefore(table: Table, bucket: nat, n: nat): Table
  {
    map s | s in table && (s.bucket < bucket || (s.bucket == bucket && s.pos < n)) :: table[s]
  }

  /** New ids below `nNew` are those of untried entries. */
  ghost predicate NewsFirst(b: Book, r: map<int, int>)
  {
    forall s :: s in b.newTable ==> b.newTable[s] in r && 0 <= r[b.newTable[s]] < b.nNew
  }

  lemma InvTables(h: Hasher, b: Book)
    requires Inv(h, b)
    ensures NewOk(h, b.info, b.newTable) && RefsOk(h, b.info, b.newTable, {})
  {
    hide RandomOk, AddrOk, NewOk, RefsOk, TriedOk, CountsOk, IdsOk;
  }

  lemma SlotsMore(table: Table, bucket: nat, n: nat)
    ensures var slot, done := Slot(bucket, n), SlotsBefore(table, bucket, n);
            && slot !in done && (forall s :: s in done ==> s in table && done[s] == table[s])
            && SlotsBefore(table, bucket, n + 1) == if slot in table then done[slot := table[slot]] else done
  {
  }

  lemma {:induction false} LoadBucketIs(h: Hasher, b: Book, all: seq<int>, r: map<int, int>, bucket: nat, n: nat)
    requires Inv(h, b) && Renames(all, r, b.info) && TablesAreIn(b, r) && NewsFirst(b, r)
    ensures LoadBucket(h, Loaded(h, b, all, r, |all|, SlotsBefore(b.newTable, bucket, 0)), true, b.nNew, bucket,
                       BucketList(b, r, bucket, n))
            == Loaded(h, b, all, r, |all|, SlotsBefore(b.newTable, bucket, n))
  {
    hide Inv, Renames, Loaded, LoadIndex, NewOk, RefsOk, SlotsBefore;
    if n == 0 {
      assert BucketList(b, r, bucket, 0) == [];
    } else {
      InvTables(h, b);
      LoadBucketIs(h, b, all, r, bucket, n - 1);
      var slot := Slot(bucket, n - 1);
      var list := BucketList(b, r, bucket, n - 1);
      var done := SlotsBefore(b.newTable, bucket, n - 1);
      SlotsMore(b.newTable, bucket, n - 1);
      if slot in b.newTable {
        LoadSlotStep(h, b, all, r, done, slot);
        var grown := list + [r[b.newTable[slot]]];
        assert BucketList(b, r, bucket, n) == grown && grown[..|grown| - 1] == list;
      } else {
        assert BucketList(b, r, bucket, n) == list;
      }
    }
  }

  lemma PlacesInBucket(h: Hasher, info: Infos, table: Table)
    requires NewOk(h, info, table)
    ensures forall s :: s in table ==> s.bucket < NEW_BUCKETS && s.pos < BUCKET_SIZE
  {
  }

  lemma {:induction false} LoadBucketsIs(h: Hasher, b: Book, all: seq<int>, r: map<int, int>, v: Saved, n: nat)
    requires Inv(h, b) && Renames(all, r, b.info) && TablesAreIn(b, r) && NewsFirst(b, r)
    requires v.nUBuckets == NEW_BUCKETS && v.nNew == b.nNew && n <= |v.buckets| == NEW_BUCKETS
    requires forall k :: 0 <= k < |v.buckets| ==> v.buckets[k] == BucketList(b, r, k, BUCKET_SIZE)
    ensures LoadBuckets(h, v, Loaded(h, b, all, r, |all|, map[]), n)
            == Loaded(h, b, all, r, |all|, SlotsBefore(b.newTable, n, 0))
  {
    hide Renames, Loaded, LoadBucket, RandomOk, AddrOk, RefsOk, TriedOk, CountsOk, IdsOk;
    if n == 0 {
      assert SlotsBefore(b.newTable, 0, 0) == map[];
    } else {
      LoadBucketsIs(h, b, all, r, v, n - 1);
      LoadBucketIs(h, b, all, r, n - 1, BUCKET_SIZE);
      PlacesInBucket(h, b.info, b.newTable);
      assert SlotsBefore(b.newTable, n - 1, BUCKET_SIZE) == SlotsBefore(b.newTable, n, 0);
    }
  }

  lemma {:induction false} PruneNothing(b: Book, ids: seq<int>)
    requires forall id :: id in b.info ==> b.info[id].inTried || b.info[id].refCount != 0
    ensures Prune(b, ids) == Some(b)
  {
    if ids != [] {
      PruneNothing(b, ids[..|ids| - 1]);
    }
  }

  // ----- the round trip -----

  /** The entries in their new order: those with references first, then the tried ones. */
  function NewOrder(b: Book, order: seq<int>): seq<int>
  {
    Select(order, Referenced(b.info)) + Select(order, Tried(b.info))
  }

  lemma SidesAreWhole(h: Hasher, b: Book)
    requires Inv(h, b)
    ensures Referenced(b.info) == NewIds(b.info) && Tried(b.info) == TriedIds(b.info)
    ensures Referenced(b.info) !! Tried(b.info) && Referenced(b.info) + Tried(b.info) == b.info.Keys
  {
    forall id | id in b.info ensures b.info[id].refCount != 0 <==> !b.info[id].inTried {
      assert RefOk(h, b.info[id], b.newTable, id, {});
      if b.info[id].inTried {
        TriedHasNoRefs(h, b, id, {});
      }
    }
  }

  lemma SelectsSlots(b: Book, order: seq<int>)
    requires b.info.Keys == set x | x in order
    requires Referenced(b.info) <= b.info.Keys
    requires forall s :: s in b.newTable ==> b.newTable[s] in Referenced(b.info)
    requires |Select(order, Referenced(b.info))| == b.nNew && |Select(order, Tried(b.info))| == b.nTried
    ensures CanSave(b, order)
  {
    hide Tried, Select;
    forall s | s in b.newTable ensures b.newTable[s] in Select(order, Referenced(b.info)) {
      assert b.newTable[s] in b.info.Keys;
    }
    forall x | x in order ensures x in b.info {
      assert x in b.info.Keys;
    }
  }

  lemma BothSides(order: seq<int>, a: set<int>, b: set<int>)
    requires NoRepeats(order) && a !! b
    ensures NoRepeats(Select(order, a) + Select(order, b))
  {
    SelectNoRepeats(order, a);
    SelectNoRepeats(order, b);
    var s, t := Select(order, a), Select(order, b);
    forall i, j | 0 <= i < j < |s + t| ensures (s + t)[i] != (s + t)[j] {
      if i < |s| <= j {
        assert s[i] in s && t[j - |s|] in t;
      }
    }
  }

  lemma NewOrderCovers(b: Book, order: seq<int>)
    requires b.info.Keys == set x | x in order
    requires Referenced(b.info) + Tried(b.info) == b.info.Keys && Referenced(b.info) !! Tried(b.info)
    requires NoRepeats(order)
    ensures b.info.Keys == set x | x in NewOrder(b, order)
    ensures NoRepeats(NewOrder(b, order))
  {
    BothSides(order, Referenced(b.info), Tried(b.info));
    hide Referenced, Tried, Select, NoRepeats;
    forall x ensures x in b.info.Keys <==> x in NewOrder(b, order) {
      assert x in b.info.Keys <==> x in Referenced(b.info) || x in Tried(b.info);
    }
  }

  lemma InInfo(h: Hasher, b: Book)
    requires Inv(h, b)
    ensures NewIds(b.info) <= b.info.Keys && TriedIds(b.info) <= b.info.Keys
    ensures |NewIds(b.info)| == b.nNew && |TriedIds(b.info)| == b.nTried
  {
  }

  lemma SlotsReferenced(h: Hasher, b: Book)
    requires Inv(h, b)
    ensures forall s :: s in b.newTable ==> b.newTable[s] in Referenced(b.info)
  {
    SidesAreWhole(h, b);
    forall s | s in b.newTable ensures b.newTable[s] in Referenced(b.info) {
      InBuckets(h, b.info, b.newTable, s);
    }
  }

  lemma NumberingRenames(all: seq<int>, info: Infos)
    requires NoRepeats(all) && info.Keys == set x | x in all
    ensures Renames(all, Numbering(all), info)
  {
    forall k | 0 <= k < |all| ensures all[k] in Numbering(all) && Numbering(all)[all[k]] == k {
      NumberingAt(all, k);
    }
    assert Numbering(all).Keys == info.Keys;
  }

  lemma SaveFits(h: Hasher, b: Book, order: seq<int>)
    requires Inv(h, b) && IsOrder(order, b)
    ensures CanSave(b, order)
    ensures |Select(order, Referenced(b.info))| == b.nNew && |Select(order, Tried(b.info))| == b.nTried
    ensures Renames(NewOrder(b, order), Numbering(NewOrder(b, order)), b.info)
  {
    hide Inv, Referenced, Tried, Numbering, NoRepeats, Renames, Select, NewIds, TriedIds, CanSave, NewOrder;
    SidesAreWhole(h, b);
    InInfo(h, b);
    SlotsReferenced(h, b);
    SelectCounts(order, Referenced(b.info), b.info.Keys);
    SelectCounts(order, Tried(b.info), b.info.Keys);
    SelectsSlots(b, order);
    NewOrderCovers(b, order);
    NumberingRenames(NewOrder(b, order), b.info);
  }

  /** The same manager with its ids renamed, its random order reset, and the last tries forgotten. */
  ghost function Reloaded(h: Hasher, b: Book, order: seq<int>): Book
    requires Inv(h, b) && IsOrder(order, b)
  {
    SaveFits(h, b, order);
    TablesAreRenamed(h, b, NewOrder(b, order), Numbering(NewOrder(b, order)));
    Loaded(h, b, NewOrder(b, order), Numbering(NewOrder(b, order)), |NewOrder(b, order)|, b.newTable)
  }

  lemma SaveHeader(b: Book, order: seq<int>)
    requires CanSave(b, order)
    ensures var v := Save(b, order);
            && v.nUBuckets == NEW_BUCKETS == |v.buckets| && v.nNew == b.nNew && v.nTried == b.nTried
            && |v.news| == |Select(order, Referenced(b.info))|
  {
  }

  lemma NewsShape(h: Hasher, b: Book, order: seq<int>)
    requires Inv(h, b) && CanSave(b, order)
    ensures var v, all := Save(b, order), NewOrder(b, order);
            && |v.news| + |v.trieds| == |all|
            && (forall k :: 0 <= k < |v.news| ==> all[k] in b.info && !b.info[all[k]].inTried && v.news[k] == Strip(b.info[all[k]]))
  {
    SidesAreWhole(h, b);
    hide Inv, Numbering, BucketList, Strip;
    var v, all := Save(b, order), NewOrder(b, order);
    var news, trieds := Select(order, Referenced(b.info)), Select(order, Tried(b.info));
    assert all == news + trieds;
    forall k | 0 <= k < |v.news| ensures all[k] in b.info && !b.info[all[k]].inTried && v.news[k] == Strip(b.info[all[k]]) {
      assert all[k] == news[k] && news[k] in news && news[k] in NewIds(b.info);
    }
  }

  lemma TriedsShape(h: Hasher, b: Book, order: seq<int>)
    requires Inv(h, b) && CanSave(b, order)
    ensures var v, all := Save(b, order), NewOrder(b, order);
            && |v.news| + |v.trieds| == |all|
            && (forall k :: 0 <= k < |v.trieds| ==> SavesTried(b, all, v, k))
  {
    hide Inv, Numbering, BucketList, Strip, Referenced;
    var v, all := Save(b, order), NewOrder(b, order);
    var news, trieds := Select(order, Referenced(b.info)), Select(order, Tried(b.info));
    assert all == news + trieds;
    forall k | 0 <= k < |v.trieds| ensures SavesTried(b, all, v, k) {
      assert all[|v.news| + k] == trieds[k] && trieds[k] in trieds && trieds[k] in Tried(b.info);
    }
  }

  lemma BucketsShape(h: Hasher, b: Book, order: seq<int>)
    requires Inv(h, b) && CanSave(b, order) && TablesAreIn(b, Numbering(NewOrder(b, order)))
    requires |Select(order, Referenced(b.info))| == b.nNew && Renames(NewOrder(b, order), Numbering(NewOrder(b, order)), b.info)
    ensures var v, r := Save(b, order), Numbering(NewOrder(b, order));
            && NewsFirst(b, r)
            && (forall k :: 0 <= k < |v.buckets| ==> v.buckets[k] == BucketList(b, r, k, BUCKET_SIZE))
  {
    hide Inv, Strip, Referenced, Tried, BucketList;
    var v, r := Save(b, order), Numbering(NewOrder(b, order));
    var news, trieds := Select(order, Referenced(b.info)), Select(order, Tried(b.info));
    assert NewOrder(b, order) == news + trieds;
    hide Numbering, NewOrder, Select;
    forall s | s in b.newTable ensures b.newTable[s] in r && r[b.newTable[s]] == Numbering(news)[b.newTable[s]] {
      NumberingPrefix(news, trieds, b.newTable[s]);
    }
    forall k | 0 <= k < |v.buckets| ensures v.buckets[k] == BucketList(b, r, k, BUCKET_SIZE) {
      SameNumbers(b, Numbering(news), r, k, BUCKET_SIZE);
    }
  }

  lemma SavedShape(h: Hasher, b: Book, order: seq<int>)
    requires Inv(h, b) && IsOrder(order, b)
    ensures CanSave(b, order)
    ensures var v := Save(b, order);
            var all := NewOrder(b, order);
            var r := Numbering(all);
            && v.nUBuckets == NEW_BUCKETS == |v.buckets| && v.nNew == b.nNew == |v.news| && v.nTried == b.nTried
            && |v.news| + |v.trieds| == |all|
            && TablesAreIn(b, r) && NewsFirst(b, r)
            && (forall k :: 0 <= k < |v.news| ==> all[k] in b.info && !b.info[all[k]].inTried && v.news[k] == Strip(b.info[all[k]]))
            && (forall k :: 0 <= k < |v.trieds| ==> SavesTried(b, all, v, k))
            && (forall k :: 0 <= k < |v.buckets| ==> v.buckets[k] == BucketList(b, r, k, BUCKET_SIZE))
  {
    hide Inv, CanSave, Save, Renames, NewOrder, Select, Numbering, Referenced, Strip, NewsFirst, BucketList, SavesTried, IsOrder;
    SaveFits(h, b, order);
    TablesAreRenamed(h, b, NewOrder(b, order), Numbering(NewOrder(b, order)));
    NewsShape(h, b, order);
    TriedsShape(h, b, order);
    BucketsShape(h, b, order);
    SaveHeader(b, order);
  }

  lemma Referred(h: Hasher, b: Book)
    requires Inv(h, b)
    ensures forall id :: id in b.info ==> b.info[id].inTried || b.info[id].refCount != 0
  {
    forall id | id in b.info ensures b.info[id].inTried || b.info[id].refCount != 0 {
      assert RefOk(h, b.info[id], b.newTable, id, {});
    }
  }

  lemma AllSlots(h: Hasher, b: Book)
    requires Inv(h, b)
    ensures SlotsBefore(b.newTable, NEW_BUCKETS, 0) == b.newTable
  {
    PlacesInBucket(h, b.info, b.newTable);
  }

  ghost predicate Mapped<K>(m: map<K, int>, r: map<int, int>, m': map<K, int>)
  {
    m'.Keys == m.Keys && forall x :: x in m ==> m[x] in r && m'[x] == r[m[x]]
  }

  lemma WholeBelow<K>(all: seq<int>, r: map<int, int>, info: Infos, m: map<K, int>)
    requires Renames(all, r, info) && forall x :: x in m ==> m[x] in r
    ensures Mapped(m, r, Below(m, r, |all|))
  {
    forall x | x in m ensures r[m[x]] < |all| {
      RenamedId(all, r, info, m[x]);
    }
  }

  lemma RenamedSize(all: seq<int>, r: map<int, int>, info: Infos)
    requires Renames(all, r, info)
    ensures |all| == |info|
  {
    assert info.Keys == set x | x in all by {
      forall id | id in info ensures id in all {
        RenamedId(all, r, info, id);
      }
    }
    ListsOnce(all, info.Keys);
  }

  // ----- a renamed manager is as consistent as the first one -----

  lemma MappedAt<K>(m: map<K, int>, r: map<int, int>, m': map<K, int>, x: K)
    requires Mapped(m, r, m')
    ensures x in m <==> x in m'
    ensures x in m ==> m[x] in r && m'[x] == r[m[x]]
  {
  }

  ghost predicate EntryMoved(info: Infos, info': Infos, id: int, k: int)
  {
    id in info && k in info' && info'[k] == info[id].(lastTry := 0, randomPos := k)
  }

  ghost predicate EntriesMoved(info: Infos, info': Infos, all: seq<int>)
  {
    && (forall k :: k in info' <==> 0 <= k < |all|)
    && (forall k :: 0 <= k < |all| ==> EntryMoved(info, info', all[k], k))
  }

  lemma MovedAt(info: Infos, info': Infos, all: seq<int>, k: int)
    requires EntriesMoved(info, info', all)
    ensures k in info' <==> 0 <= k < |all|
    ensures k in info' ==> EntryMoved(info, info', all[k], k)
  {
  }

  /** `b'` is `b` with ids renamed, the random order reset and the last tries forgotten. */
  ghost predicate Moved(b: Book, b': Book, all: seq<int>, r: map<int, int>)
  {
    && Renames(all, r, b.info)
    && EntriesMoved(b.info, b'.info, all)
    && Mapped(b.addr, r, b'.addr) && Mapped(b.newTable, r, b'.newTable) && Mapped(b.triedTable, r, b'.triedTable)
    && b'.random == seq(|all|, k => k)
    && b'.nNew == b.nNew && b'.nTried == b.nTried && b'.idCount == |all| == |b.info|
  }

  lemma MovedRandomOk(b: Book, b': Book, all: seq<int>)
    requires EntriesMoved(b.info, b'.info, all) && b'.random == seq(|all|, k => k) && b'.idCount == |all|
    ensures RandomOk(b'.info, b'.random) && IdsOk(b'.info, b'.idCount)
  {
    hide EntriesMoved;
    forall k: int ensures k in b'.info <==> 0 <= k < |all| {
      MovedAt(b.info, b'.info, all, k);
    }
    forall k | k in b'.info ensures b'.info[k].randomPos == k {
      MovedAt(b.info, b'.info, all, k);
    }
  }

  lemma MovedAddrOk(b: Book, b': Book, all: seq<int>, r: map<int, int>)
    requires Renames(all, r, b.info) && EntriesMoved(b.info, b'.info, all) && Mapped(b.addr, r, b'.addr)
    requires AddrOk(b.info, b.addr)
    ensures AddrOk(b'.info, b'.addr)
  {
    hide EntriesMoved, Renames, Mapped;
    forall k | k in b'.info ensures b'.info[k].service.ip in b'.addr && b'.addr[b'.info[k].service.ip] == k {
      MovedAt(b.info, b'.info, all, k);
      RenamedPlace(all, r, b.info, k);
      MappedAt(b.addr, r, b'.addr, b.info[all[k]].service.ip);
    }
    forall a | a in b'.addr ensures b'.addr[a] in b'.info && b'.info[b'.addr[a]].service.ip == a {
      MappedAt(b.addr, r, b'.addr, a);
      RenamedId(all, r, b.info, b.addr[a]);
      MovedAt(b.info, b'.info, all, b'.addr[a]);
    }
  }

  lemma MovedNewOk(h: Hasher, b: Book, b': Book, all: seq<int>, r: map<int, int>)
    requires Renames(all, r, b.info) && EntriesMoved(b.info, b'.info, all) && Mapped(b.newTable, r, b'.newTable)
    requires NewOk(h, b.info, b.newTable)
    ensures NewOk(h, b'.info, b'.newTable)
  {
    hide EntriesMoved, Renames, Mapped, NewSlot;
    forall s | s in b'.newTable
      ensures && b'.newTable[s] in b'.info && !b'.info[b'.newTable[s]].inTried
              && s.bucket < NEW_BUCKETS && s == NewSlot(h, s.bucket, b'.info[b'.newTable[s]].service)
    {
      MappedAt(b.newTable, r, b'.newTable, s);
      RenamedId(all, r, b.info, b.newTable[s]);
      MovedAt(b.info, b'.info, all, b'.newTable[s]);
    }
  }

  lemma RenamedOne(all: seq<int>, r: map<int, int>, info: Infos, x: int, y: int)
    requires Renames(all, r, info) && x in r && y in r
    ensures r[x] == r[y] <==> x == y
  {
    RenamedId(all, r, info, x);
    RenamedId(all, r, info, y);
  }

  lemma MovedBuckets(h: Hasher, info: Infos, table: Table, table': Table, all: seq<int>, r: map<int, int>, service: Service, k: int)
    requires Renames(all, r, info) && Mapped(table, r, table') && 0 <= k < |all|
    ensures Buckets(h, service, table', k) == Buckets(h, service, table, all[k])
  {
    RenamedPlace(all, r, info, k);
    hide Mapped, Renames, NewSlot;
    forall s | s in table ensures s in table' && (table'[s] == k <==> table[s] == all[k]) {
      MappedAt(table, r, table', s);
      RenamedOne(all, r, info, table[s], all[k]);
    }
    assert forall s :: s in table <==> s in table' by {
      forall s ensures s in table <==> s in table' {
        MappedAt(table, r, table', s);
      }
    }
  }

  lemma MovedRefsOk(h: Hasher, b: Book, b': Book, all: seq<int>, r: map<int, int>)
    requires Renames(all, r, b.info) && EntriesMoved(b.info, b'.info, all) && Mapped(b.newTable, r, b'.newTable)
    requires RefsOk(h, b.info, b.newTable, {})
    ensures RefsOk(h, b'.info, b'.newTable, {})
  {
    hide EntriesMoved, Renames, Mapped, Buckets;
    forall k | k in b'.info ensures RefOk(h, b'.info[k], b'.newTable, k, {}) {
      MovedAt(b.info, b'.info, all, k);
      assert RefOk(h, b.info[all[k]], b.newTable, all[k], {});
      MovedBuckets(h, b.info, b.newTable, b'.newTable, all, r, b'.info[k].service, k);
    }
  }

  lemma MovedTriedOk(h: Hasher, b: Book, b': Book, all: seq<int>, r: map<int, int>)
    requires Renames(all, r, b.info) && EntriesMoved(b.info, b'.info, all) && Mapped(b.triedTable, r, b'.triedTable)
    requires TriedOk(h, b.info, b.triedTable)
    ensures TriedOk(h, b'.info, b'.triedTable)
  {
    hide EntriesMoved, Renames, Mapped, TriedSlot;
    forall s | s in b'.triedTable
      ensures b'.triedTable[s] in b'.info && b'.info[b'.triedTable[s]].inTried && s == TriedSlot(h, b'.info[b'.triedTable[s]].service)
    {
      MappedAt(b.triedTable, r, b'.triedTable, s);
      RenamedId(all, r, b.info, b.triedTable[s]);
      MovedAt(b.info, b'.info, all, b'.triedTable[s]);
    }
    forall k | k in b'.info && b'.info[k].inTried
      ensures TriedSlot(h, b'.info[k].service) in b'.triedTable && b'.triedTable[TriedSlot(h, b'.info[k].service)] == k
      ensures b'.info[k].lastSuccess != 0
    {
      MovedAt(b.info, b'.info, all, k);
      RenamedPlace(all, r, b.info, k);
      MappedAt(b.triedTable, r, b'.triedTable, TriedSlot(h, b.info[all[k]].service));
    }
  }

  ghost predicate IsImage(all: seq<int>, ids: set<int>, places: set<int>)
  {
    && (forall k :: k in places ==> 0 <= k < |all|)
    && (forall k :: 0 <= k < |all| ==> (k in places <==> all[k] in ids))
  }

  lemma MovedClass(b: Book, b': Book, all: seq<int>, r: map<int, int>)
    requires Renames(all, r, b.info) && EntriesMoved(b.info, b'.info, all)
    ensures IsImage(all, NewIds(b.info), NewIds(b'.info)) && IsImage(all, TriedIds(b.info), TriedIds(b'.info))
    ensures NewIds(b.info) <= r.Keys && TriedIds(b.info) <= r.Keys
  {
    hide EntriesMoved;
    forall k: int ensures k in b'.info ==> 0 <= k < |all| && EntryMoved(b.info, b'.info, all[k], k) {
      MovedAt(b.info, b'.info, all, k);
    }
    forall k | 0 <= k < |all| ensures EntryMoved(b.info, b'.info, all[k], k) {
      MovedAt(b.info, b'.info, all, k);
    }
  }

  lemma Member<T>(s: set<T>) returns (x: T)
    requires s != {}
    ensures x in s
  {
    x :| x in s;
  }

  lemma EmptyImage(all: seq<int>, ids: set<int>, places: set<int>)
    requires IsImage(all, ids, places) && ids == {}
    ensures places == {}
  {
    if places != {} {
      var k := Member(places);
    }
  }

  lemma LessOne(all: seq<int>, r: map<int, int>, info: Infos, ids: set<int>, places: set<int>, id: int)
    requires Renames(all, r, info) && IsImage(all, ids, places) && ids <= r.Keys && id in ids
    ensures id in r && r[id] in places && IsImage(all, ids - {id}, places - {r[id]})
  {
    RenamedId(all, r, info, id);
    forall k | 0 <= k < |all| ensures k in places - {r[id]} <==> all[k] in ids - {id} {
      RenamedPlace(all, r, info, k);
    }
  }

  lemma {:induction false} ImageSize(all: seq<int>, r: map<int, int>, info: Infos, ids: set<int>, places: set<int>)
    requires Renames(all, r, info) && IsImage(all, ids, places) && ids <= r.Keys
    ensures |places| == |ids|
    decreases |ids|
  {
    hide Renames, IsImage;
    if |ids| == 0 {
      EmptyImage(all, ids, places);
    } else {
      var id := Member(ids);
      LessOne(all, r, info, ids, places, id);
      ImageSize(all, r, info, ids - {id}, places - {r[id]});
    }
  }

  // The renaming is one to one, so each class keeps its size.
  lemma MovedCountsOk(b: Book, b': Book, all: seq<int>, r: map<int, int>)
    requires Renames(all, r, b.info) && EntriesMoved(b.info, b'.info, all)
    requires CountsOk(b.info, b.nNew, b.nTried, {}) && b'.nNew == b.nNew && b'.nTried == b.nTried
    ensures CountsOk(b'.info, b'.nNew, b'.nTried, {})
  {
    MovedClass(b, b', all, r);
    hide EntriesMoved, Renames;
    ImageSize(all, r, b.info, NewIds(b.info), NewIds(b'.info));
    ImageSize(all, r, b.info, TriedIds(b.info), TriedIds(b'.info));
  }

  lemma MovedInv(h: Hasher, b: Book, b': Book, all: seq<int>, r: map<int, int>)
    requires Inv(h, b) && Moved(b, b', all, r)
    ensures Inv(h, b')
  {
    hide Renames, EntriesMoved, Mapped, RandomOk, AddrOk, NewOk, RefsOk, TriedOk, CountsOk, IdsOk;
    MovedRandomOk(b, b', all);
    MovedAddrOk(b, b', all, r);
    MovedNewOk(h, b, b', all, r);
    MovedRefsOk(h, b, b', all, r);
    MovedTriedOk(h, b, b', all, r);
    MovedCountsOk(b, b', all, r);
  }

  // ----- the main theorem -----

  lemma LoadedIs(h: Hasher, b: Book, all: seq<int>, r: map<int, int>)
    requires Renames(all, r, b.info) && TablesAreIn(b, r)
    ensures forall k :: 0 <= k < |all| ==> all[k] in b.info
    ensures Loaded(h, b, all, r, |all|, b.newTable)
            == Book(LoadedInfos(h, b.info, all, |all|, b.newTable), Below(b.addr, r, |all|), seq(|all|, k => k),
                    Below(b.newTable, r, |all|), Below(b.triedTable, r, |all|), b.nNew, b.nTried, |all|)
  {
  }

  lemma LoadedEntries(h: Hasher, info: Infos, table: Table, all: seq<int>, r: map<int, int>)
    requires Renames(all, r, info) && RefsOk(h, info, table, {})
    ensures forall k :: 0 <= k < |all| ==> all[k] in info
    ensures EntriesMoved(info, LoadedInfos(h, info, all, |all|, table), all)
  {
    hide Buckets;
    var info' := LoadedInfos(h, info, all, |all|, table);
    forall k | 0 <= k < |all| ensures EntryMoved(info, info', all[k], k) {
      RenamedPlace(all, r, info, k);
      assert RefOk(h, info[all[k]], table, all[k], {});
    }
  }

  lemma LoadedAll(h: Hasher, b: Book, all: seq<int>, r: map<int, int>)
    requires Renames(all, r, b.info) && TablesAreIn(b, r) && RefsOk(h, b.info, b.newTable, {})
    ensures Moved(b, Loaded(h, b, all, r, |all|, b.newTable), all, r)
  {
    hide Renames, RefsOk, Buckets, Below, LoadedInfos, EntriesMoved, Mapped;
    WholeBelow(all, r, b.info, b.addr);
    WholeBelow(all, r, b.info, b.newTable);
    WholeBelow(all, r, b.info, b.triedTable);
    RenamedSize(all, r, b.info);
    LoadedEntries(h, b.info, b.newTable, all, r);
    LoadedIs(h, b, all, r);
  }

  lemma ReloadedMoved(h: Hasher, b: Book, order: seq<int>)
    requires Inv(h, b) && IsOrder(order, b)
    ensures Moved(b, Reloaded(h, b, order), NewOrder(b, order), Numbering(NewOrder(b, order)))
  {
    SaveFits(h, b, order);
    var all := NewOrder(b, order);
    var r := Numbering(all);
    TablesAreRenamed(h, b, all, r);
    assert RefsOk(h, b.info, b.newTable, {});
    LoadedAll(h, b, all, r);
    hide Inv, IsOrder, Numbering, NewOrder, Loaded, Moved;
  }

  lemma LoadedWhole(h: Hasher, b: Book, order: seq<int>)
    requires Inv(h, b) && IsOrder(order, b)
    ensures CanSave(b, order)
    ensures LoadTables(h, Save(b, order)) == Reloaded(h, b, order)
  {
    hide Inv, Renames, Loaded, TablesAreIn, NewsFirst, LoadBuckets, LoadNews, LoadTrieds, Save, CanSave, Numbering, SavesTried, NewOrder, IsOrder;
    SaveFits(h, b, order);
    SavedShape(h, b, order);
    AllSlots(h, b);
    var v, all := Save(b, order), NewOrder(b, order);
    var r := Numbering(all);
    LoadNewsIs(h, b, all, r, v, |v.news|);
    LoadTriedsIs(h, b, all, r, v, |v.trieds|);
    LoadBucketsIs(h, b, all, r, v, NEW_BUCKETS);
  }

  // Main theorem on storing: from every consistent manager, saving and loading
  // into a new one loses no entry and no reference, whatever the order in
  // which the entries are walked.
  lemma LoadUndoesSave(h: Hasher, b: Book, order: seq<int>, ids: seq<int>)
    requires Inv(h, b) && IsOrder(order, b)
    ensures CanSave(b, order)
    ensures LoadTables(h, Save(b, order)) == Reloaded(h, b, order)
    ensures Prune(LoadTables(h, Save(b, order)), ids) == Some(Reloaded(h, b, order))
    ensures Moved(b, Reloaded(h, b, order), NewOrder(b, order), Numbering(NewOrder(b, order)))
    ensures Inv(h, Reloaded(h, b, order))
  {
    hide Inv, Moved, Reloaded, NewOrder, Numbering, IsOrder, LoadTables, Save;
    LoadedWhole(h, b, order);
    ReloadedMoved(h, b, order);
    MovedInv(h, b, Reloaded(h, b, order), NewOrder(b, order), Numbering(NewOrder(b, order)));
    Referred(h, Reloaded(h, b, order));
    PruneNothing(Reloaded(h, b, order), ids);
  }

  // ----- any file -----

  /**
   * A file with as many entries and buckets as its counts say, none where a
   * count is negative; entries come without what is kept in memory only.
   */
  predicate WellFormed(v: Saved)
  {
    && |v.news| == Max(0, v.nNew) && |v.trieds| == Max(0, v.nTried) && |v.buckets| == Max(0, v.nUBuckets)
    && (forall k :: 0 <= k < |v.news| ==> v.news[k] == Strip(v.news[k]))
    && (forall k :: 0 <= k < |v.trieds| ==> v.trieds[k] == Strip(v.trieds[k]))
  }

  /** What holds of the entries while any such file is loaded. */
  ghost predicate EntriesOk(b: Book, n: int)
  {
    RandomOk(b.info, b.random) && forall id :: id in b.info ==> id < n && (id < 0 ==> b.info[id].inTried)
  }

  ghost predicate HasIds(b: Book, n: int)
  {
    forall k :: 0 <= k < n ==> k in b.info
  }

  lemma IdsKept(b: Book, b': Book, n: int)
    requires HasIds(b, n) && b.info.Keys <= b'.info.Keys
    ensures HasIds(b', n)
  {
    forall k | 0 <= k < n ensures k in b'.info {
      assert k in b.info.Keys;
    }
  }

  lemma LoadOneNewEntries(h: Hasher, b: Book, usable: bool, n: nat, e: Info)
    requires EntriesOk(b, n) && HasIds(b, n)
    ensures var b' := LoadOneNew(h, b, usable, n, e);
            EntriesOk(b', n + 1) && HasIds(b', n + 1) && b'.nNew == b.nNew && b'.nTried == b.nTried
  {
    CreateRandomOk(b.info, b.random, n, e.(randomPos := |b.random|));
    hide NewSlot, NewBucket;
  }

  lemma NoEntries(v: Saved)
    ensures EntriesOk(EMPTY.(nNew := v.nNew, nTried := v.nTried), 0) && HasIds(EMPTY.(nNew := v.nNew, nTried := v.nTried), 0)
  {
  }

  lemma {:induction false} LoadNewsEntries(h: Hasher, v: Saved, n: nat)
    requires n <= |v.news|
    ensures EntriesOk(LoadNews(h, v, n), n) && HasIds(LoadNews(h, v, n), n)
    ensures LoadNews(h, v, n).nNew == v.nNew && LoadNews(h, v, n).nTried == v.nTried
    ensures n == 0 ==> LoadNews(h, v, n).info == map[]
  {
    hide EntriesOk, HasIds, LoadOneNew;
    if n > 0 {
      LoadNewsEntries(h, v, n - 1);
      LoadOneNewEntries(h, LoadNews(h, v, n - 1), v.nUBuckets == NEW_BUCKETS, n - 1, v.news[n - 1]);
    } else {
      NoEntries(v);
    }
  }

  lemma {:induction false} LoadTriedsEntries(h: Hasher, v: Saved, b: Book, n: nat)
    requires n <= |v.trieds| && EntriesOk(b, b.idCount)
    ensures EntriesOk(LoadTrieds(h, v, b, n), LoadTrieds(h, v, b, n).idCount)
    ensures b.info.Keys <= LoadTrieds(h, v, b, n).info.Keys && LoadTrieds(h, v, b, n).nNew == b.nNew
  {
    if n > 0 {
      LoadTriedsEntries(h, v, b, n - 1);
      var b1 := LoadTrieds(h, v, b, n - 1);
      CreateRandomOk(b1.info, b1.random, b1.idCount, v.trieds[n - 1].(randomPos := |b1.random|, inTried := true));
    }
  }

  lemma {:induction false} LoadBucketEntries(h: Hasher, b: Book, usable: bool, nNew: int, bucket: nat, list: seq<int>)
    requires EntriesOk(b, b.idCount)
    ensures var b' := LoadBucket(h, b, usable, nNew, bucket, list);
            b'.idCount == b.idCount && EntriesOk(b', b.idCount) && b'.info.Keys == b.info.Keys
  {
    if list != [] {
      LoadBucketEntries(h, b, usable, nNew, bucket, list[..|list| - 1]);
    }
  }

  lemma {:induction false} LoadBucketsEntries(h: Hasher, v: Saved, b: Book, n: nat)
    requires n <= |v.buckets| && EntriesOk(b, b.idCount)
    ensures var b' := LoadBuckets(h, v, b, n);
            b'.idCount == b.idCount && EntriesOk(b', b.idCount) && b'.info.Keys == b.info.Keys
  {
    hide EntriesOk;
    if n > 0 {
      LoadBucketsEntries(h, v, b, n - 1);
      LoadBucketEntries(h, LoadBuckets(h, v, b, n - 1), v.nUBuckets == NEW_BUCKETS, v.nNew, n - 1, v.buckets[n - 1]);
    }
  }

  /** What pruning does: entries without references are gone, all others stay. */
  ghost predicate PrunedTo(b: Book, ids: seq<int>, b': Book)
  {
    && b'.idCount == b.idCount && EntriesOk(b', b.idCount) && b'.info.Keys <= b.info.Keys
    && (forall id :: id in b'.info && id in ids ==> b'.info[id].inTried || b'.info[id].refCount != 0)
    && (forall id :: id in b.info && (b.info[id].inTried || b.info[id].refCount != 0) ==> id in b'.info)
    && (forall id :: id in b'.info ==> SameEntry(b.info[id], b'.info[id]))
  }

  lemma PrunedMore(b: Book, ids: seq<int>, id: int, b1: Book, b2: Book)
    requires PrunedTo(b, ids, b1) && EntriesOk(b2, b.idCount) && b2.idCount == b.idCount
    requires id in b1.info && !b1.info[id].inTried && b1.info[id].refCount == 0
    requires b2.info.Keys == b1.info.Keys - {id}
    requires forall j :: j in b1.info && j != id ==> SameEntry(b1.info[j], b2.info[j])
    ensures PrunedTo(b, ids + [id], b2)
  {
    hide EntriesOk;
  }

  lemma PrunedSame(b: Book, ids: seq<int>, id: int, b1: Book)
    requires PrunedTo(b, ids, b1) && (id in b1.info ==> b1.info[id].inTried || b1.info[id].refCount != 0)
    ensures PrunedTo(b, ids + [id], b1)
  {
    hide EntriesOk;
  }

  lemma PruneStep(b: Book, ids: seq<int>)
    requires ids != [] && Prune(b, ids[..|ids| - 1]).Some?
    requires var b1, id := Prune(b, ids[..|ids| - 1]).value, ids[|ids| - 1];
             id in b1.info && !b1.info[id].inTried && b1.info[id].refCount == 0 && CanDelete(b1, id)
    ensures Prune(b, ids) == Some(Delete(Prune(b, ids[..|ids| - 1]).value, ids[|ids| - 1]))
  {
  }

  lemma DropLastOk(b: Book, id: int)
    requires EntriesOk(b, b.idCount) && b.random != [] && b.random[|b.random| - 1] == id
    ensures EntriesOk(DropLast(b, id), b.idCount) && DropLast(b, id).idCount == b.idCount && DropLast(b, id).info.Keys == b.info.Keys - {id}
    ensures forall j :: j in b.info && j != id ==> DropLast(b, id).info[j] == b.info[j]
  {
  }

  lemma DeleteEntries(b: Book, id: int)
    requires EntriesOk(b, b.idCount) && id in b.info && !b.info[id].inTried && b.info[id].refCount == 0
    ensures CanDelete(b, id) && Delete(b, id).idCount == b.idCount && EntriesOk(Delete(b, id), b.idCount)
    ensures Delete(b, id).info.Keys == b.info.Keys - {id}
    ensures forall j :: j in b.info && j != id ==> SameEntry(b.info[j], Delete(b, id).info[j])
  {
    hide RandomOk, SwapRandom, Delete, DropLast;
    CanDeleteWhen(b, id);
    var b1 := SwapRandom(b, b.info[id].randomPos, |b.random| - 1);
    SwapRandomOk(b, b.info[id].randomPos, |b.random| - 1);
    SwapToEnd(b, id);
    DropLastOk(b1, id);
    DeleteIsDrop(b, id);
  }

  lemma {:induction false} PruneEntries(b: Book, ids: seq<int>)
    requires EntriesOk(b, b.idCount)
    ensures Prune(b, ids).Some? && PrunedTo(b, ids, Prune(b, ids).value)
  {
    if ids != [] {
      var init, id := ids[..|ids| - 1], ids[|ids| - 1];
      PruneEntries(b, init);
      var b1 := Prune(b, init).value;
      assert ids == init + [id];
      if id in b1.info && !b1.info[id].inTried && b1.info[id].refCount == 0 {
        DeleteEntries(b1, id);
        PruneStep(b, ids);
        PrunedMore(b, init, id, b1, Delete(b1, id));
      } else {
        PrunedSame(b, init, id, b1);
      }
      hide PrunedTo, EntriesOk, Delete, CanDelete;
    }
  }

  lemma PruneStart(b: Book, keys: set<int>)
    ensures Prune(b, Ascending(keys, 0)) == Some(b)
  {
  }

  lemma PruneNext(b: Book, keys: set<int>, id: nat)
    requires Prune(b, Ascending(keys, id)).Some? && Prune(b, Ascending(keys, id)).value.info.Keys <= keys
    ensures var b1 := Prune(b, Ascending(keys, id)).value;
            Prune(b, Ascending(keys, id + 1))
            == if id in b1.info && !b1.info[id].inTried && b1.info[id].refCount == 0
               then if CanDelete(b1, id) then Some(Delete(b1, id)) else None
               else Some(b1)
  {
    var ids := Ascending(keys, id);
    assert (ids + [id])[..|ids|] == ids && ids + [] == ids;
    hide CanDelete, Delete;
  }

  // A negative count of new entries leaves none, and ids start below zero.
  lemma NewsBelowCount(h: Hasher, v: Saved)
    requires |v.news| == Max(0, v.nNew) && EntriesOk(LoadNews(h, v, |v.news|), |v.news|)
    requires v.nNew < 0 ==> LoadNews(h, v, |v.news|).info == map[]
    ensures EntriesOk(LoadNews(h, v, |v.news|), v.nNew)
  {
  }

  lemma LoadTablesEntries(h: Hasher, v: Saved)
    requires WellFormed(v)
    ensures var b := LoadTables(h, v); EntriesOk(b, b.idCount)
  {
    LoadNewsEntries(h, v, |v.news|);
    var b := LoadNews(h, v, |v.news|).(idCount := v.nNew);
    NewsBelowCount(h, v);
    LoadTriedsEntries(h, v, b, |v.trieds|);
    LoadBucketsEntries(h, v, LoadTrieds(h, v, b, |v.trieds|), |v.buckets|);
  }

  // Loading never trips an assert of `delete` or of the swap, whatever the file holds.
  lemma LoadNeverFails(h: Hasher, v: Saved, ids: seq<int>)
    requires WellFormed(v)
    ensures Prune(LoadTables(h, v), ids).Some?
  {
    LoadTablesEntries(h, v);
    PruneEntries(LoadTables(h, v), ids);
  }
}
