// Loading files that were not written with the same number of buckets: what
// comes out after pruning is consistent.
module AddrLoad {
  import opened Basics
  import opened Wrappers
  import opened AddrBook
  import opened AddrStore
  import opened AddrMeaning

  // ----- the files -----

  ghost predicate DistinctIps(es: seq<Info>)
  {
    forall i, j :: 0 <= i < j < |es| ==> es[i].service.ip != es[j].service.ip
  }

  /** Counts are right, no network address is listed twice, and tried entries succeeded once. */
  ghost predicate Loadable(v: Saved)
  {
    && WellFormed(v) && v.nNew >= 0 && v.nTried >= 0
    && DistinctIps(v.news + v.trieds)
    && forall k :: 0 <= k < |v.trieds| ==> v.trieds[k].lastSuccess != 0
  }

  function Ips(es: seq<Info>): set<NetAddr>
  {
    set e | e in es :: e.service.ip
  }

  // ----- one more entry -----

  lemma AddRefs(h: Hasher, info: Infos, table: Table, id: int, e: Info, loose: set<int>)
    requires NewOk(h, info, table) && RefsOk(h, info, table, loose) && id !in info
    requires e.refCount == 0 && Buckets(h, e.service, table, id) == {}
    ensures NewOk(h, info[id := e], table) && RefsOk(h, info[id := e], table, loose + {id})
  {
    hide Buckets;
    var info' := info[id := e];
    forall j | j in info' ensures RefOk(h, info'[j], table, j, loose + {id}) {
      assert j != id ==> RefOk(h, info[j], table, j, loose);
    }
  }

  lemma AddRest(h: Hasher, b: Book, e: Info)
    requires AddrOk(b.info, b.addr) && TriedOk(h, b.info, b.triedTable) && CountsOk(b.info, b.nNew, b.nTried, {})
    requires IdsOk(b.info, b.idCount) && e.service.ip !in b.addr && !e.inTried
    ensures var id := b.idCount;
            var info' := b.info[id := e];
            && AddrOk(info', b.addr[e.service.ip := id]) && TriedOk(h, info', b.triedTable)
            && CountsOk(info', b.nNew + 1, b.nTried, {}) && IdsOk(info', id + 1)
  {
    hide AddrOk, TriedOk, CountsOk;
    AddrWith(b.info, b.addr, b.idCount, e);
    TriedWithUntried(h, b.info, b.triedTable, b.idCount, e);
    AddedCounts(b.info, b.idCount, e, b.nNew, b.nTried, {});
  }

  // A fresh untried entry without references, not yet counted as in order.
  lemma AddUntried(h: Hasher, b: Book, e: Info, loose: set<int>)
    requires Consistent(h, b, loose, {}) && e.service.ip !in b.addr
    requires e.refCount == 0 && !e.inTried && e.randomPos == |b.random|
    ensures var id := b.idCount;
            Consistent(h, b.(info := b.info[id := e], addr := b.addr[e.service.ip := id], random := b.random + [id],
                             idCount := id + 1, nNew := b.nNew + 1), loose + {id}, {})
  {
    hide Buckets;
    var id := b.idCount;
    CreateRandomOk(b.info, b.random, id, e);
    NotInTable(h, b.info, b.newTable, id, e.service);
    AddRefs(h, b.info, b.newTable, id, e, loose);
    AddRest(h, b, e);
    hide RandomOk, RefsOk, TriedOk, AddrOk;
  }

  lemma TriedNeedsNoRefs(h: Hasher, info: Infos, table: Table, id: int, loose: set<int>)
    requires RefsOk(h, info, table, loose + {id}) && id in info && info[id].inTried
    ensures RefsOk(h, info, table, loose)
  {
    hide Buckets;
    forall j | j in info ensures RefOk(h, info[j], table, j, loose) {
      assert RefOk(h, info[j], table, j, loose + {id});
    }
  }

  lemma AddTriedSlot(h: Hasher, b: Book, e: Info)
    requires TriedOk(h, b.info, b.triedTable) && b.idCount !in b.info && TriedSlot(h, e.service) !in b.triedTable
    requires e.inTried && e.lastSuccess != 0
    ensures TriedOk(h, b.info[b.idCount := e], b.triedTable[TriedSlot(h, e.service) := b.idCount])
  {
    hide TriedSlot;
  }

  lemma AddTriedRest(h: Hasher, b: Book, e: Info)
    requires AddrOk(b.info, b.addr) && TriedOk(h, b.info, b.triedTable) && CountsOk(b.info, b.nNew, b.nTried, {})
    requires IdsOk(b.info, b.idCount) && e.service.ip !in b.addr && e.inTried && e.lastSuccess != 0
    requires TriedSlot(h, e.service) !in b.triedTable
    ensures var id := b.idCount;
            var info' := b.info[id := e];
            && AddrOk(info', b.addr[e.service.ip := id]) && TriedOk(h, info', b.triedTable[TriedSlot(h, e.service) := id])
            && CountsOk(info', b.nNew, b.nTried + 1, {}) && IdsOk(info', id + 1)
  {
    hide TriedSlot, AddrOk, TriedOk, CountsOk;
    AddrWith(b.info, b.addr, b.idCount, e);
    AddTriedSlot(h, b, e);
    AddedCounts(b.info, b.idCount, e, b.nNew, b.nTried, {});
  }

  // An entry in its free tried slot.
  lemma AddTried(h: Hasher, b: Book, e: Info, loose: set<int>)
    requires Consistent(h, b, loose, {}) && e.service.ip !in b.addr && TriedSlot(h, e.service) !in b.triedTable
    requires e.refCount == 0 && e.inTried && e.lastSuccess != 0 && e.randomPos == |b.random|
    ensures var id := b.idCount;
            Consistent(h, b.(info := b.info[id := e], addr := b.addr[e.service.ip := id], random := b.random + [id],
                             triedTable := b.triedTable[TriedSlot(h, e.service) := id],
                             idCount := id + 1, nTried := b.nTried + 1), loose, {})
  {
    hide Buckets, TriedSlot;
    var id := b.idCount;
    CreateRandomOk(b.info, b.random, id, e);
    NotInTable(h, b.info, b.newTable, id, e.service);
    AddRefs(h, b.info, b.newTable, id, e, loose);
    TriedNeedsNoRefs(h, b.info[id := e], b.newTable, id, loose);
    AddTriedRest(h, b, e);
    hide RandomOk, RefsOk, TriedOk, AddrOk;
  }

  // ----- the entries of a file -----

  /** The book with counters that cover only what was loaded so far. */
  function SoFar(b: Book, nNew: int, nTried: int): Book
  {
    b.(nNew := b.nNew - nNew, nTried := b.nTried - nTried)
  }

  lemma NothingLoaded(h: Hasher, v: Saved)
    requires Loadable(v)
    ensures var b := LoadNews(h, v, 0);
            && Consistent(h, SoFar(b.(idCount := 0), |v.news|, |v.trieds|), b.info.Keys, {})
            && b.addr.Keys == Ips(v.news[..0]) && b.triedTable == map[]
  {
    EmptyInv(h);
    assert SoFar(LoadNews(h, v, 0).(idCount := 0), |v.news|, |v.trieds|) == EMPTY;
  }

  lemma IpsMore(es: seq<Info>, e: Info)
    ensures Ips(es + [e]) == Ips(es) + {e.service.ip}
  {
    assert forall x :: x in es + [e] <==> x in es || x == e;
  }

  lemma NewIp(v: Saved, n: nat)
    requires DistinctIps(v.news + v.trieds) && n < |v.news|
    ensures v.news[n].service.ip !in Ips(v.news[..n])
  {
    var all := v.news + v.trieds;
    assert all[n] == v.news[n];
    forall e | e in v.news[..n] ensures e.service.ip != v.news[n].service.ip {
      var i :| 0 <= i < n && v.news[i] == e;
      assert all[i] == e;
    }
  }

  lemma SoFarLinked(b: Book, slot: Slot, n: nat, r: nat, t: nat)
    requires n in b.info
    ensures Link(b, slot, n).info.Keys == b.info.Keys
    ensures SoFar(Link(b, slot, n).(idCount := n + 1), r, t) == Link(SoFar(b.(idCount := n + 1), r, t), slot, n)
  {
  }

  lemma SoFarParts(b: Book, n: nat, r: nat, t: nat)
    ensures var b' := SoFar(b.(idCount := n + 1), r, t); b'.info == b.info && b'.newTable == b.newTable
  {
  }

  lemma SlotIsFit(h: Hasher, bucket: nat, s: Service)
    requires bucket < NEW_BUCKETS
    ensures NewSlot(h, bucket, s).bucket == bucket < NEW_BUCKETS
    ensures NewSlot(h, bucket, s) == NewSlot(h, NewSlot(h, bucket, s).bucket, s)
  {
  }

  lemma PrimaryLinked(h: Hasher, b1: Book, now1: Book, n: nat, e: Info, r: nat, t: nat)
    requires now1 == SoFar(b1.(idCount := n + 1), r, t) && Consistent(h, now1, b1.info.Keys, {})
    requires n in b1.info && b1.info[n].service == e.service && b1.info[n].refCount == 0 && !b1.info[n].inTried
    requires NewSlot(h, NewBucket(h, e.service, e.source), e.service) !in b1.newTable
    ensures var b' := Link(b1, NewSlot(h, NewBucket(h, e.service, e.source), e.service), n);
            Consistent(h, SoFar(b'.(idCount := n + 1), r, t), b'.info.Keys, {})
  {
    SlotIsFit(h, NewBucket(h, e.service, e.source), e.service);
    hide Consistent, NewSlot, NewBucket;
    var slot := NewSlot(h, NewBucket(h, e.service, e.source), e.service);
    SoFarLinked(b1, slot, n, r, t);
    SoFarParts(b1, n, r, t);
    hide Link, SoFar;
    LinkKeeps(h, now1, slot, n, b1.info.Keys, {});
    MoreLoose(h, Link(now1, slot, n), b1.info.Keys - {n}, b1.info.Keys, {});
  }

  lemma NoRefsYet(h: Hasher, b: Book, n: int, s: Service)
    requires Consistent(h, b, b.info.Keys, {}) && b.idCount == n
    ensures n !in b.info
  {
  }

  lemma OneNewLoaded(h: Hasher, b: Book, usable: bool, n: nat, e: Info, r: nat, t: nat)
    requires Consistent(h, SoFar(b.(idCount := n), r + 1, t), b.info.Keys, {})
    requires e == Strip(e) && e.service.ip !in b.addr
    ensures var b' := LoadOneNew(h, b, usable, n, e);
            && Consistent(h, SoFar(b'.(idCount := n + 1), r, t), b'.info.Keys, {})
            && b'.addr.Keys == b.addr.Keys + {e.service.ip} && b'.triedTable == b.triedTable
  {
    hide Consistent, NewSlot, NewBucket;
    var now := SoFar(b.(idCount := n), r + 1, t);
    var e' := e.(randomPos := |b.random|);
    AddUntried(h, now, e', b.info.Keys);
    NoRefsYet(h, now, n, e.service);
    var b1 := b.(info := b.info[n := e'], addr := b.addr[e.service.ip := n], random := b.random + [n]);
    var now1 := SoFar(b1.(idCount := n + 1), r, t);
    assert b1.info.Keys == b.info.Keys + {n};
    assert Consistent(h, now1, b1.info.Keys, {});
    if !usable && NewSlot(h, NewBucket(h, e.service, e.source), e.service) !in b.newTable {
      PrimaryLinked(h, b1, now1, n, e, r, t);
    }
  }

  lemma {:induction false} NewsLoaded(h: Hasher, v: Saved, n: nat)
    requires Loadable(v) && n <= |v.news|
    ensures var b := LoadNews(h, v, n);
            && Consistent(h, SoFar(b.(idCount := n), |v.news| - n, |v.trieds|), b.info.Keys, {})
            && b.addr.Keys == Ips(v.news[..n]) && b.triedTable == map[]
  {
    hide Consistent, LoadOneNew;
    if n == 0 {
      NothingLoaded(h, v);
    } else {
      NewsLoaded(h, v, n - 1);
      var b := LoadNews(h, v, n - 1);
      NewIp(v, n - 1);
      IpsMore(v.news[..n - 1], v.news[n - 1]);
      assert v.news[..n] == v.news[..n - 1] + [v.news[n - 1]];
      assert v.news[n - 1] == Strip(v.news[n - 1]);
      OneNewLoaded(h, b, v.nUBuckets == NEW_BUCKETS, n - 1, v.news[n - 1], |v.news| - n, |v.trieds|);
    }
  }

  lemma TriedIp(v: Saved, n: nat)
    requires DistinctIps(v.news + v.trieds) && n < |v.trieds|
    ensures v.trieds[n].service.ip !in Ips(v.news + v.trieds[..n])
  {
    var all := v.news + v.trieds;
    var k := |v.news| + n;
    assert all[k] == v.trieds[n];
    forall e | e in v.news + v.trieds[..n] ensures e.service.ip != v.trieds[n].service.ip {
      var i :| 0 <= i < k && (v.news + v.trieds[..n])[i] == e;
      assert all[i] == e;
    }
  }

  lemma IdIsNew(h: Hasher, b: Book)
    requires Consistent(h, b, b.info.Keys, {})
    ensures b.idCount !in b.info && b.idCount >= 0
  {
  }

  lemma OneTriedLoaded(h: Hasher, b: Book, e: Info, t: nat)
    requires Consistent(h, SoFar(b, 0, t + 1), b.info.Keys, {})
    requires e == Strip(e) && e.lastSuccess != 0 && e.service.ip !in b.addr
    ensures var b' := LoadOneTried(h, b, e);
            && Consistent(h, SoFar(b', 0, t), b'.info.Keys, {})
            && b'.addr.Keys <= b.addr.Keys + {e.service.ip} && b'.newTable == b.newTable
  {
    hide Consistent, TriedSlot;
    var now := SoFar(b, 0, t + 1);
    var slot := TriedSlot(h, e.service);
    IdIsNew(h, now);
    if slot !in b.triedTable {
      AddTried(h, now, e.(randomPos := |b.random|, inTried := true), b.info.Keys);
      var b' := LoadOneTried(h, b, e);
      assert b'.info.Keys == b.info.Keys + {b.idCount};
      MoreLoose(h, SoFar(b', 0, t), b.info.Keys, b'.info.Keys, {});
    }
  }

  lemma {:induction false} TriedsLoaded(h: Hasher, v: Saved, b: Book, n: nat)
    requires Loadable(v) && n <= |v.trieds|
    requires Consistent(h, SoFar(b, 0, |v.trieds|), b.info.Keys, {}) && b.addr.Keys == Ips(v.news)
    ensures var b' := LoadTrieds(h, v, b, n);
            && Consistent(h, SoFar(b', 0, |v.trieds| - n), b'.info.Keys, {})
            && b'.addr.Keys <= Ips(v.news + v.trieds[..n])
            && b'.newTable == b.newTable
  {
    hide Consistent, LoadOneTried;
    if n == 0 {
      assert v.news + v.trieds[..0] == v.news;
    } else {
      TriedsLoaded(h, v, b, n - 1);
      TriedIp(v, n - 1);
      assert v.news + v.trieds[..n] == v.news + v.trieds[..n - 1] + [v.trieds[n - 1]];
      IpsMore(v.news + v.trieds[..n - 1], v.trieds[n - 1]);
      assert v.trieds[n - 1] == Strip(v.trieds[n - 1]);
      OneTriedLoaded(h, LoadTrieds(h, v, b, n - 1), v.trieds[n - 1], |v.trieds| - n);
    }
  }

  // ----- the buckets of a file, and pruning -----

  lemma IndexLoaded(h: Hasher, b: Book, usable: bool, nNew: int, bucket: nat, index: int, loose: set<int>)
    requires Consistent(h, b, loose, {}) && (usable ==> bucket < NEW_BUCKETS)
    requires forall id :: id in b.info && id < nNew ==> !b.info[id].inTried
    ensures var b' := LoadIndex(h, b, usable, nNew, bucket, index);
            && Consistent(h, b', loose, {}) && b'.info.Keys == b.info.Keys
            && forall id :: id in b'.info && id < nNew ==> !b'.info[id].inTried
  {
    hide Consistent, NewSlot;
    if 0 <= index < nNew && index in b.info && usable {
      var slot := NewSlot(h, bucket, b.info[index].service);
      SlotIsFit(h, bucket, b.info[index].service);
      if slot !in b.newTable && b.info[index].refCount < NEW_BUCKETS_PER_ADDRESS {
        LinkKeeps(h, b, slot, index, loose, {});
        MoreLoose(h, Link(b, slot, index), loose - {index}, loose, {});
      }
    }
  }

  lemma {:induction false} BucketLoaded(h: Hasher, b: Book, usable: bool, nNew: int, bucket: nat, list: seq<int>, loose: set<int>)
    requires Consistent(h, b, loose, {}) && (usable ==> bucket < NEW_BUCKETS)
    requires forall id :: id in b.info && id < nNew ==> !b.info[id].inTried
    ensures var b' := LoadBucket(h, b, usable, nNew, bucket, list);
            && Consistent(h, b', loose, {}) && b'.info.Keys == b.info.Keys
            && forall id :: id in b'.info && id < nNew ==> !b'.info[id].inTried
  {
    if list != [] {
      BucketLoaded(h, b, usable, nNew, bucket, list[..|list| - 1], loose);
      var b1 := LoadBucket(h, b, usable, nNew, bucket, list[..|list| - 1]);
      hide Consistent, LoadIndex;
      IndexLoaded(h, b1, usable, nNew, bucket, list[|list| - 1], loose);
    }
  }

  lemma {:induction false} BucketsLoaded(h: Hasher, v: Saved, b: Book, n: nat, loose: set<int>)
    requires Loadable(v) && n <= |v.buckets|
    requires Consistent(h, b, loose, {}) && forall id :: id in b.info && id < v.nNew ==> !b.info[id].inTried
    ensures var b' := LoadBuckets(h, v, b, n);
            && Consistent(h, b', loose, {}) && b'.info.Keys == b.info.Keys
            && forall id :: id in b'.info && id < v.nNew ==> !b'.info[id].inTried
  {
    hide Consistent, LoadBucket;
    if n > 0 {
      BucketsLoaded(h, v, b, n - 1, loose);
      BucketLoaded(h, LoadBuckets(h, v, b, n - 1), v.nUBuckets == NEW_BUCKETS, v.nNew, n - 1, v.buckets[n - 1], loose);
    }
  }

  function Members(s: seq<int>): set<int>
  {
    set x | x in s
  }

  lemma MembersOfNothing(loose: set<int>)
    ensures loose - Members([]) == loose
  {
  }

  lemma MembersMore(ids: seq<int>, id: int, loose: set<int>)
    ensures loose - Members(ids + [id]) == loose - Members(ids) - {id}
  {
    assert Members(ids + [id]) == Members(ids) + {id};
  }

  lemma FewerLoose(h: Hasher, info: Infos, table: Table, id: int, loose: set<int>)
    requires RefsOk(h, info, table, loose) && (id in info ==> info[id].inTried || info[id].refCount != 0)
    ensures RefsOk(h, info, table, loose - {id})
  {
    hide Buckets;
    forall j | j in info ensures RefOk(h, info[j], table, j, loose - {id}) {
      assert RefOk(h, info[j], table, j, loose);
    }
  }

  lemma PrunedOne(h: Hasher, b: Book, id: int, loose: set<int>)
    requires Consistent(h, b, loose, {})
    ensures id in b.info && !b.info[id].inTried && b.info[id].refCount == 0 ==>
              CanDelete(b, id) && Consistent(h, Delete(b, id), loose - {id}, {}) && Delete(b, id).info.Keys <= b.info.Keys
    ensures !(id in b.info && !b.info[id].inTried && b.info[id].refCount == 0) ==> Consistent(h, b, loose - {id}, {})
  {
    if id in b.info && !b.info[id].inTried && b.info[id].refCount == 0 {
      CanDeleteWhen(b, id);
      hide Consistent, Delete, CanDelete;
      DeleteKeeps(h, b, id, loose, {});
    } else {
      FewerLoose(h, b.info, b.newTable, id, loose);
      hide RefsOk, RandomOk, AddrOk, NewOk, TriedOk, CountsOk;
    }
  }

  // Pruning takes the entries without references, so none of those it looked at is loose.
  lemma {:induction false} Pruned(h: Hasher, b: Book, ids: seq<int>, loose: set<int>)
    requires Consistent(h, b, loose, {})
    ensures Prune(b, ids).Some?
    ensures Consistent(h, Prune(b, ids).value, loose - Members(ids), {})
    ensures Prune(b, ids).value.info.Keys <= b.info.Keys
  {
    hide Consistent, Delete, CanDelete, Members;
    if ids == [] {
      MembersOfNothing(loose);
    } else {
      var init, id := ids[..|ids| - 1], ids[|ids| - 1];
      Pruned(h, b, init, loose);
      var b1 := Prune(b, init).value;
      MembersMore(init, id, loose);
      assert ids == init + [id];
      PrunedOne(h, b1, id, loose - Members(init));
    }
  }

  // ----- the whole load -----

  lemma {:induction false} NewsAreUntried(h: Hasher, v: Saved, n: nat)
    requires Loadable(v) && n <= |v.news|
    ensures forall id :: id in LoadNews(h, v, n).info ==> !LoadNews(h, v, n).info[id].inTried
  {
    if n > 0 {
      NewsAreUntried(h, v, n - 1);
      assert v.news[n - 1] == Strip(v.news[n - 1]);
      hide NewSlot, NewBucket;
    }
  }

  lemma {:induction false} TriedsAbove(h: Hasher, v: Saved, b: Book, n: nat)
    requires n <= |v.trieds| && b.idCount >= v.nNew && forall id :: id in b.info ==> !b.info[id].inTried
    ensures var b' := LoadTrieds(h, v, b, n);
            b'.idCount >= v.nNew && forall id :: id in b'.info && id < v.nNew ==> !b'.info[id].inTried
  {
    hide TriedSlot;
    if n > 0 {
      TriedsAbove(h, v, b, n - 1);
    }
  }

  // Before pruning only references may be missing.
  lemma TablesLoaded(h: Hasher, v: Saved)
    requires Loadable(v)
    ensures Consistent(h, LoadTables(h, v), LoadTables(h, v).info.Keys, {})
  {
    var b1 := LoadNews(h, v, |v.news|).(idCount := v.nNew);
    hide Consistent;
    NewsLoaded(h, v, |v.news|);
    assert v.news[..|v.news|] == v.news;
    assert SoFar(b1, 0, |v.trieds|) == SoFar(LoadNews(h, v, |v.news|).(idCount := |v.news|), 0, |v.trieds|);
    NewsAreUntried(h, v, |v.news|);
    TriedsLoaded(h, v, b1, |v.trieds|);
    TriedsAbove(h, v, b1, |v.trieds|);
    var b2 := LoadTrieds(h, v, b1, |v.trieds|);
    assert SoFar(b2, 0, 0) == b2;
    BucketsLoaded(h, v, b2, |v.buckets|, b2.info.Keys);
  }

  lemma NoneLoose(h: Hasher, b: Book, loose: set<int>)
    requires Consistent(h, b, loose, {}) && loose == {}
    ensures Inv(h, b)
  {
  }

  // Whatever the number of buckets and their contents: loading a file without
  // repeated addresses and pruning gives a consistent manager.
  lemma LoadGivesConsistent(h: Hasher, v: Saved, ids: seq<int>)
    requires Loadable(v) && LoadTables(h, v).info.Keys <= Members(ids)
    ensures Prune(LoadTables(h, v), ids).Some? && Inv(h, Prune(LoadTables(h, v), ids).value)
  {
    hide Consistent;
    TablesLoaded(h, v);
    var b := LoadTables(h, v);
    Pruned(h, b, ids, b.info.Keys);
    NoneLoose(h, Prune(b, ids).value, b.info.Keys - Members(ids));
  }

  // The same for pruning in increasing order of ids, as the map is walked.
  lemma WalkGivesConsistent(h: Hasher, v: Saved)
    requires Loadable(v)
    ensures var b := LoadTables(h, v);
            var ids := Ascending(b.info.Keys, Max(0, b.idCount));
            Prune(b, ids).Some? && Inv(h, Prune(b, ids).value)
  {
    TablesLoaded(h, v);
    var b := LoadTables(h, v);
    assert IdsOk(b.info, b.idCount);
    assert b.info.Keys <= Members(Ascending(b.info.Keys, Max(0, b.idCount)));
    hide Consistent, LoadTables;
    LoadGivesConsistent(h, v, Ascending(b.info.Keys, Max(0, b.idCount)));
  }

  /** Entries as they come from a file, the tried ones with a success. */
  ghost predicate PlainEntries(v: Saved)
  {
    && |v.news| == v.nNew && |v.trieds| == v.nTried
    && (forall k :: 0 <= k < |v.news| ==> v.news[k] == Strip(v.news[k]))
    && (forall k :: 0 <= k < |v.trieds| ==> v.trieds[k].lastSuccess != 0 && v.trieds[k] == Strip(v.trieds[k]))
  }

  lemma LoadableParts(v: Saved, v': Saved)
    requires PlainEntries(v) && DistinctIps(v.news + v.trieds)
    requires v' == v.(nUBuckets := |v'.buckets|, buckets := v'.buckets)
    ensures Loadable(v')
  {
    hide DistinctIps;
  }

  lemma OrderRenames(h: Hasher, b: Book, order: seq<int>)
    requires Inv(h, b) && IsOrder(order, b)
    ensures Renames(NewOrder(b, order), Numbering(NewOrder(b, order)), b.info)
  {
    SaveFits(h, b, order);
  }

  ghost predicate SavedAs(b: Book, all: seq<int>, e: Info, k: nat)
  {
    k < |all| && all[k] in b.info && e == Strip(b.info[all[k]])
  }

  ghost predicate AllSaved(b: Book, all: seq<int>, es: seq<Info>)
  {
    |es| == |all| && forall k :: 0 <= k < |es| ==> SavedAs(b, all, es[k], k)
  }

  lemma SavedParts(b: Book, all: seq<int>, v: Saved)
    requires |v.news| == v.nNew && |v.trieds| == v.nTried && |v.news| + |v.trieds| == |all|
    requires forall k :: 0 <= k < |v.news + v.trieds| ==> SavedAs(b, all, (v.news + v.trieds)[k], k)
    requires forall k :: 0 <= k < |v.news| ==> v.news[k] == Strip(v.news[k])
    requires forall k :: 0 <= k < |v.trieds| ==> v.trieds[k].lastSuccess != 0 && v.trieds[k] == Strip(v.trieds[k])
    ensures AllSaved(b, all, v.news + v.trieds) && PlainEntries(v)
  {
    hide Strip, SavedAs;
  }

  lemma TriedCount(b: Book, order: seq<int>)
    requires CanSave(b, order) && |Select(order, Tried(b.info))| == b.nTried
    ensures |Save(b, order).trieds| == Save(b, order).nTried
  {
  }

  lemma AllSavedAs(b: Book, all: seq<int>, v: Saved)
    requires |v.news| + |v.trieds| == |all|
    requires forall k :: 0 <= k < |v.news| ==> all[k] in b.info && !b.info[all[k]].inTried && v.news[k] == Strip(b.info[all[k]])
    requires forall k :: 0 <= k < |v.trieds| ==> SavesTried(b, all, v, k)
    ensures forall k :: 0 <= k < |v.news + v.trieds| ==> SavedAs(b, all, (v.news + v.trieds)[k], k)
  {
    forall k | 0 <= k < |v.news + v.trieds| ensures SavedAs(b, all, (v.news + v.trieds)[k], k) {
      if k >= |v.news| {
        assert SavesTried(b, all, v, k - |v.news|);
      }
    }
  }

  lemma TriedSucceeded(h: Hasher, b: Book, id: int)
    requires Inv(h, b) && id in b.info && b.info[id].inTried
    ensures b.info[id].lastSuccess != 0
  {
  }

  lemma SavedEntries(h: Hasher, b: Book, all: seq<int>, v: Saved)
    requires Inv(h, b) && |v.news| + |v.trieds| == |all|
    requires forall k :: 0 <= k < |v.news| ==> all[k] in b.info && v.news[k] == Strip(b.info[all[k]])
    requires forall k :: 0 <= k < |v.trieds| ==> SavesTried(b, all, v, k)
    ensures forall k :: 0 <= k < |v.news| ==> v.news[k] == Strip(v.news[k])
    ensures forall k :: 0 <= k < |v.trieds| ==> v.trieds[k].lastSuccess != 0 && v.trieds[k] == Strip(v.trieds[k])
  {
    hide Inv;
    forall k | 0 <= k < |v.trieds| ensures v.trieds[k].lastSuccess != 0 && v.trieds[k] == Strip(v.trieds[k]) {
      assert SavesTried(b, all, v, k);
      TriedSucceeded(h, b, all[|v.news| + k]);
    }
  }

  lemma SavedFacts(h: Hasher, b: Book, order: seq<int>)
    requires Inv(h, b) && IsOrder(order, b) && CanSave(b, order)
    ensures var v, all := Save(b, order), NewOrder(b, order);
            AllSaved(b, all, v.news + v.trieds) && PlainEntries(v)
  {
    hide *;
    SaveFits(h, b, order);
    SavedShape(h, b, order);
    TriedCount(b, order);
    var v, all := Save(b, order), NewOrder(b, order);
    AllSavedAs(b, all, v);
    SavedEntries(h, b, all, v);
    SavedParts(b, all, v);
  }

  lemma SavedIpsDistinct(h: Hasher, b: Book, all: seq<int>, r: map<int, int>, es: seq<Info>)
    requires Inv(h, b) && Renames(all, r, b.info) && AllSaved(b, all, es)
    ensures DistinctIps(es)
  {
    hide Renames;
    forall i, j | 0 <= i < j < |es| ensures es[i].service.ip != es[j].service.ip {
      assert SavedAs(b, all, es[i], i) && SavedAs(b, all, es[j], j);
      AddrOfId(b.info, b.addr, all[i]);
      AddrOfId(b.info, b.addr, all[j]);
      RenamedPlace(all, r, b.info, i);
      RenamedPlace(all, r, b.info, j);
    }
  }

  lemma SavedIsLoadable(h: Hasher, b: Book, order: seq<int>, buckets: seq<seq<int>>)
    requires Inv(h, b) && IsOrder(order, b) && CanSave(b, order)
    ensures Loadable(Save(b, order).(nUBuckets := |buckets|, buckets := buckets))
  {
    hide *;
    SavedFacts(h, b, order);
    var v, all := Save(b, order), NewOrder(b, order);
    OrderRenames(h, b, order);
    SavedIpsDistinct(h, b, all, Numbering(all), v.news + v.trieds);
    LoadableParts(v, v.(nUBuckets := |buckets|, buckets := buckets));
  }

  // In particular a manager saved by a program with another number of buckets
  // loads into a consistent one, whatever is listed for the buckets.
  lemma OtherBucketCountLoads(h: Hasher, b: Book, order: seq<int>, buckets: seq<seq<int>>, ids: seq<int>)
    requires Inv(h, b) && IsOrder(order, b)
    ensures CanSave(b, order)
    ensures var v := Save(b, order).(nUBuckets := |buckets|, buckets := buckets);
            LoadTables(h, v).info.Keys <= Members(ids) ==>
              Prune(LoadTables(h, v), ids).Some? && Inv(h, Prune(LoadTables(h, v), ids).value)
  {
    SaveFits(h, b, order);
    var v := Save(b, order).(nUBuckets := |buckets|, buckets := buckets);
    SavedIsLoadable(h, b, order, buckets);
    if LoadTables(h, v).info.Keys <= Members(ids) {
      LoadGivesConsistent(h, v, ids);
    }
  }

  // ----- which slots are taken with another number of buckets -----

  function HomeOf(h: Hasher, e: Info): Slot
  {
    Home(h, e.service, e.source)
  }

  /** Each home of one of the first `n` entries holds the first of them. */
  ghost predicate FirstAtHome(h: Hasher, es: seq<Info>, t: Table, n: nat)
    requires n <= |es|
  {
    && (forall k :: 0 <= k < n ==> HomeOf(h, es[k]) in t)
    && (forall s :: s in t ==> 0 <= t[s] < n && HomeOf(h, es[t[s]]) == s && forall j :: 0 <= j < t[s] ==> HomeOf(h, es[j]) != s)
  }

  lemma LoadOneNewTable(h: Hasher, b: Book, id: int, e: Info)
    ensures LoadOneNew(h, b, false, id, e).newTable
            == if HomeOf(h, e) in b.newTable then b.newTable else b.newTable[HomeOf(h, e) := id]
  {
  }

  lemma OneMoreAtHome(h: Hasher, es: seq<Info>, t: Table, n: nat)
    requires n < |es| && FirstAtHome(h, es, t, n)
    ensures FirstAtHome(h, es, if HomeOf(h, es[n]) in t then t else t[HomeOf(h, es[n]) := n], n + 1)
  {
    hide HomeOf;
  }

  lemma NextNewTable(h: Hasher, v: Saved, n: nat)
    requires 0 < n <= |v.news| && v.nUBuckets != NEW_BUCKETS
    ensures var t := LoadNews(h, v, n - 1).newTable;
            LoadNews(h, v, n).newTable
            == if HomeOf(h, v.news[n - 1]) in t then t else t[HomeOf(h, v.news[n - 1]) := n - 1]
  {
    LoadOneNewTable(h, LoadNews(h, v, n - 1), n - 1, v.news[n - 1]);
    hide LoadOneNew, HomeOf;
  }

  lemma NothingAtHome(h: Hasher, v: Saved)
    ensures FirstAtHome(h, v.news, LoadNews(h, v, 0).newTable, 0)
  {
  }

  lemma {:induction false} LoadNewsTable(h: Hasher, v: Saved, n: nat)
    requires n <= |v.news| && v.nUBuckets != NEW_BUCKETS
    ensures FirstAtHome(h, v.news, LoadNews(h, v, n).newTable, n)
  {
    hide *;
    if n == 0 {
      NothingAtHome(h, v);
    } else {
      LoadNewsTable(h, v, n - 1);
      NextNewTable(h, v, n);
      OneMoreAtHome(h, v.news, LoadNews(h, v, n - 1).newTable, n - 1);
    }
  }

  lemma LoadOneTriedTable(h: Hasher, b: Book, e: Info)
    ensures LoadOneTried(h, b, e).newTable == b.newTable
  {
  }

  lemma {:induction false} LoadTriedsTable(h: Hasher, v: Saved, b: Book, n: nat)
    requires n <= |v.trieds|
    ensures LoadTrieds(h, v, b, n).newTable == b.newTable
  {
    if n > 0 {
      LoadTriedsTable(h, v, b, n - 1);
      LoadOneTriedTable(h, LoadTrieds(h, v, b, n - 1), v.trieds[n - 1]);
    }
  }

  lemma {:induction false} LoadBucketUnusable(h: Hasher, b: Book, nNew: int, bucket: nat, list: seq<int>)
    ensures LoadBucket(h, b, false, nNew, bucket, list) == b
  {
    if list != [] {
      LoadBucketUnusable(h, b, nNew, bucket, list[..|list| - 1]);
    }
  }

  lemma {:induction false} LoadBucketsUnusable(h: Hasher, v: Saved, b: Book, n: nat)
    requires n <= |v.buckets| && v.nUBuckets != NEW_BUCKETS
    ensures LoadBuckets(h, v, b, n) == b
  {
    if n > 0 {
      LoadBucketsUnusable(h, v, b, n - 1);
      LoadBucketUnusable(h, b, v.nNew, n - 1, v.buckets[n - 1]);
    }
  }

  lemma {:induction false} PruneTable(b: Book, ids: seq<int>)
    requires Prune(b, ids).Some?
    ensures Prune(b, ids).value.newTable == b.newTable
  {
    if ids != [] {
      PruneTable(b, ids[..|ids| - 1]);
      var b1 := Prune(b, ids[..|ids| - 1]).value;
      if CanDelete(b1, ids[|ids| - 1]) {
        DeleteTables(b1, ids[|ids| - 1]);
      }
      hide Delete, CanDelete;
    }
  }

  // With another number of buckets the listed places are ignored: every slot of the
  // new table is the home of some entry, by its own source, and holds the first
  // entry of the file with that home.
  lemma OtherBucketCountTable(h: Hasher, v: Saved, ids: seq<int>)
    requires v.nUBuckets != NEW_BUCKETS && Prune(LoadTables(h, v), ids).Some?
    ensures FirstAtHome(h, v.news, Prune(LoadTables(h, v), ids).value.newTable, |v.news|)
  {
    PruneTable(LoadTables(h, v), ids);
    LoadNewsTable(h, v, |v.news|);
    var b1 := LoadNews(h, v, |v.news|).(idCount := v.nNew);
    LoadTriedsTable(h, v, b1, |v.trieds|);
    LoadBucketsUnusable(h, v, LoadTrieds(h, v, b1, |v.trieds|), |v.buckets|);
    hide FirstAtHome, LoadNews, LoadTrieds, LoadBuckets, Prune;
  }
}
