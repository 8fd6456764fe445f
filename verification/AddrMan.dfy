// The address manager as an object: maps, a vector, and two tables of ids.
module AddrMan {
  import opened Wrappers
  import opened Basics
  import opened AddrBook
  import Store = AddrStore
  import Load = AddrLoad

  // ----- tables of ids, where -1 is an empty place -----

  ghost function AllSlots(buckets: nat): set<Slot>
  {
    set b: nat, p: nat | b < buckets && p < BUCKET_SIZE :: Slot(b, p)
  }

  ghost function TableOf(a: array2<int>): Table
    requires a.Length1 == BUCKET_SIZE
    reads a
  {
    map s | s in AllSlots(a.Length0) && a[s.bucket, s.pos] != -1 :: a[s.bucket, s.pos]
  }

  method WriteSlot(a: array2<int>, s: Slot, v: int)
    requires a.Length1 == BUCKET_SIZE && s.bucket < a.Length0 && s.pos < BUCKET_SIZE
    modifies a
    ensures TableOf(a) == if v == -1 then old(TableOf(a)) - {s} else old(TableOf(a))[s := v]
  {
    assert s in AllSlots(a.Length0);
    a[s.bucket, s.pos] := v;
  }

  lemma ReadSlot(a: array2<int>, s: Slot)
    requires a.Length1 == BUCKET_SIZE && s.bucket < a.Length0 && s.pos < BUCKET_SIZE
    ensures s in TableOf(a) <==> a[s.bucket, s.pos] != -1
    ensures s in TableOf(a) ==> TableOf(a)[s] == a[s.bucket, s.pos]
  {
    assert s in AllSlots(a.Length0);
  }

  lemma GetAddrStep(b: Book, n: nat, ids: seq<int>, limit: nat, rnd: nat -> nat, now: int)
    requires CanShuffle(b) && n < |b.random| && |ids| < limit
    requires var b1 := SwapRandom(b, n, Pick(b, n, rnd)); CanShuffle(b1) && |b1.random| == |b.random| && b1.random[n] in b1.info
    ensures var b1 := SwapRandom(b, n, Pick(b, n, rnd));
            GetAddrFrom(b, n, ids, limit, rnd, now)
            == GetAddrFrom(b1, n + 1, if IsTerrible(b1.info[b1.random[n]], now) then ids else ids + [b1.random[n]], limit, rnd, now)
  {
  }

  lemma GetAddrEnds(b: Book, n: nat, ids: seq<int>, limit: nat, rnd: nat -> nat, now: int)
    requires CanShuffle(b) && (n >= |b.random| || |ids| >= limit)
    ensures GetAddrFrom(b, n, ids, limit, rnd, now) == (b, ids)
  {
  }

  function AddressOf(e: Info): Address
  {
    Address(e.service, e.services, e.time)
  }

  ghost predicate ShowsEntries(info: Infos, ids: seq<int>, out: seq<Address>)
  {
    |ids| == |out| && forall i :: 0 <= i < |out| ==> ids[i] in info && out[i] == AddressOf(info[ids[i]])
  }

  // A swap keeps all entries apart from their places.
  lemma SwapShows(b: Book, i: int, j: int, ids: seq<int>, out: seq<Address>)
    requires CanShuffle(b) && 0 <= i < |b.random| && 0 <= j < |b.random|
    requires ShowsEntries(b.info, ids, out)
    ensures b.random[i] in b.info && b.random[j] in b.info
    ensures var b1 := SwapRandom(b, i, j);
            && CanShuffle(b1) && |b1.random| == |b.random| && b1.random[i] in b1.info
            && ShowsEntries(b1.info, ids, out)
  {
  }

  class CAddrMan {
    const h: Hasher
    var nIdCount: int
    var mapInfo: Infos
    var mapAddr: map<NetAddr, int>
    var vRandom: seq<int>
    var nTried: int
    const vvTried: array2<int>
    var nNew: int
    const vvNew: array2<int>

    ghost predicate Shape()
    {
      && vvNew.Length0 == NEW_BUCKETS && vvNew.Length1 == BUCKET_SIZE
      && vvTried.Length0 == TRIED_BUCKETS && vvTried.Length1 == BUCKET_SIZE
      && vvNew != vvTried
    }

    ghost function State(): Book
      requires Shape()
      reads this, vvNew, vvTried
    {
      Book(mapInfo, mapAddr, vRandom, TableOf(vvNew), TableOf(vvTried), nNew, nTried, nIdCount)
    }

    ghost predicate Valid()
      reads this, vvNew, vvTried
    {
      Shape() && Inv(h, State())
    }

    constructor (h: Hasher)
      ensures Valid() && this.h == h && State() == EMPTY && fresh(vvNew) && fresh(vvTried)
    {
      this.h := h;
      vRandom, mapInfo, mapAddr := [], map[], map[];
      vvNew := new int[NEW_BUCKETS, BUCKET_SIZE]((i, j) => -1);
      vvTried := new int[TRIED_BUCKETS, BUCKET_SIZE]((i, j) => -1);
      nIdCount, nTried, nNew := 0, 0, 0;
      new;
      assert TableOf(vvNew) == map[] && TableOf(vvTried) == map[];
      EmptyInv(h);
    }

    // ----- helpers; their asserts are preconditions -----

    method Lookup(ip: NetAddr) returns (r: Option<int>)
      requires Shape()
      ensures r == Find(State(), ip)
    {
      if ip !in mapAddr {
        return None;
      }
      r := if mapAddr[ip] in mapInfo then Some(mapAddr[ip]) else None;
    }

    method CreateEntry(a: Address, source: NetAddr) returns (id: int)
      requires Shape()
      modifies this
      ensures State() == Create(old(State()), a, source) && id == old(nIdCount)
    {
      id := nIdCount;
      nIdCount := nIdCount + 1;
      mapInfo := mapInfo[id := Info(a.service, a.services, a.time, source, 0, 0, 0, 0, false, -1)];
      mapAddr := mapAddr[a.service.ip := id];
      mapInfo := mapInfo[id := mapInfo[id].(randomPos := |vRandom|)];
      vRandom := vRandom + [id];
    }

    method Swap(i: int, j: int)
      requires Shape() && 0 <= i < |vRandom| && 0 <= j < |vRandom|
      requires vRandom[i] in mapInfo && vRandom[j] in mapInfo
      modifies this
      ensures State() == SwapRandom(old(State()), i, j)
    {
      if i == j {
        return;
      }
      var id1, id2 := vRandom[i], vRandom[j];
      mapInfo := mapInfo[id1 := mapInfo[id1].(randomPos := j)];
      mapInfo := mapInfo[id2 := mapInfo[id2].(randomPos := i)];
      vRandom := vRandom[i := id2];
      vRandom := vRandom[j := id1];
    }

    method DeleteEntry(id: int)
      requires Shape() && CanDelete(State(), id)
      modifies this
      ensures State() == Delete(old(State()), id)
    {
      var ip := mapInfo[id].service.ip;
      Swap(mapInfo[id].randomPos, |vRandom| - 1);
      vRandom := vRandom[..|vRandom| - 1];
      mapAddr := mapAddr - {ip};
      mapInfo := mapInfo - {id};
      nNew := nNew - 1;
    }

    /** Takes one reference off the entry of a slot, and the entry off the slot. */
    method UnlinkSlot(slot: Slot)
      requires Shape() && slot.bucket < NEW_BUCKETS && slot.pos < BUCKET_SIZE
      requires slot in State().newTable && State().newTable[slot] in mapInfo
      modifies this, vvNew
      ensures State() == Unlink(old(State()), slot)
    {
      ReadSlot(vvNew, slot);
      var id := vvNew[slot.bucket, slot.pos];
      mapInfo := mapInfo[id := mapInfo[id].(refCount := mapInfo[id].refCount - 1)];
      WriteSlot(vvNew, slot, -1);
    }

    method ClearNewSlot(slot: Slot)
      requires Shape() && slot.bucket < NEW_BUCKETS && slot.pos < BUCKET_SIZE
      requires CanClearNew(State(), slot)
      modifies this, vvNew
      ensures State() == ClearNew(old(State()), slot)
    {
      ReadSlot(vvNew, slot);
      if vvNew[slot.bucket, slot.pos] != -1 {
        var idDelete := vvNew[slot.bucket, slot.pos];
        UnlinkSlot(slot);
        if mapInfo[idDelete].refCount == 0 {
          DeleteEntry(idDelete);
        }
      }
    }

    method PutEntryInTried(slot: Slot, id: int)
      requires Shape() && slot.bucket < TRIED_BUCKETS && slot.pos < BUCKET_SIZE && id in mapInfo && id != -1
      modifies this, vvTried
      ensures State() == PutInTried(old(State()), slot, id)
    {
      WriteSlot(vvTried, slot, id);
      nTried := nTried + 1;
      mapInfo := mapInfo[id := mapInfo[id].(inTried := true)];
    }

    lemma EvictNothing(h: Hasher, b: Book, slot: Slot)
      requires slot !in b.triedTable
      ensures CanEvict(h, b, slot) && Evict(h, b, slot) == b
    {
    }

    method UnlinkEverywhere(id: int)
      requires Shape() && id in mapInfo && id != -1
      modifies this, vvNew
      ensures State() == UnlinkAll(h, old(State()), id, NEW_BUCKETS)
    {
      for bucket := 0 to NEW_BUCKETS
        invariant State() == UnlinkAll(h, old(State()), id, bucket)
      {
        var slot := NewSlot(h, bucket, mapInfo[id].service);
        ReadSlot(vvNew, slot);
        if vvNew[slot.bucket, slot.pos] == id {
          UnlinkSlot(slot);
        }
      }
    }

    method TakeOutEntry(slot: Slot, idEvict: int)
      requires Shape() && slot.bucket < TRIED_BUCKETS && slot.pos < BUCKET_SIZE
      requires slot in State().triedTable && State().triedTable[slot] == idEvict && idEvict in mapInfo
      modifies this`mapInfo, this`nTried, vvTried
      ensures State() == TakeOut(old(State()), slot)
    {
      mapInfo := mapInfo[idEvict := mapInfo[idEvict].(inTried := false)];
      WriteSlot(vvTried, slot, -1);
      nTried := nTried - 1;
    }

    /** Moves the entry of a tried slot back to the new table. */
    method EvictEntry(slot: Slot)
      requires Shape() && slot.bucket < TRIED_BUCKETS && slot.pos < BUCKET_SIZE
      requires slot in State().triedTable && State().triedTable[slot] != -1
      requires CanEvict(h, State(), slot)
      modifies this, vvNew, vvTried
      ensures State() == Evict(h, old(State()), slot)
    {
      ReadSlot(vvTried, slot);
      var idEvict := vvTried[slot.bucket, slot.pos];
      var target := EvictedSlot(h, mapInfo[idEvict]);
      TakeOutEntry(slot, idEvict);
      ClearNewSlot(target);
      mapInfo := mapInfo[idEvict := mapInfo[idEvict].(refCount := 1)];
      WriteSlot(vvNew, target, idEvict);
      nNew := nNew + 1;
    }

    method MakeTriedEntry(id: int)
      requires Shape() && CanMakeTried(h, State(), id) && id != -1
      requires forall s :: s in State().triedTable ==> State().triedTable[s] != -1
      modifies this, vvNew, vvTried
      ensures State() == MakeTried(h, old(State()), id)
    {
      hide UnlinkAll, Evict, CanEvict;
      UnlinkEverywhere(id);
      nNew := nNew - 1;
      assert mapInfo[id].refCount == 0;
      var slot := TriedSlot(h, mapInfo[id].service);
      ReadSlot(vvTried, slot);
      if vvTried[slot.bucket, slot.pos] != -1 {
        EvictEntry(slot);
      } else {
        EvictNothing(h, State(), slot);
      }
      PutEntryInTried(slot, id);
    }

    // ----- the public operations -----

    /** In which round the search that begins at `start` looks at bucket `m`. */
    function StepsTo(m: nat, start: nat): (k: nat)
      requires m < NEW_BUCKETS
      ensures k < NEW_BUCKETS && (k + start) % NEW_BUCKETS == m
    {
      (m + NEW_BUCKETS - start % NEW_BUCKETS) % NEW_BUCKETS
    }

    /** Looks for a bucket that holds the entry, starting anywhere. */
    method SearchBuckets(id: int, start: nat) returns (r: bool)
      requires Shape() && id in mapInfo && id != -1
      ensures r <==> InSomeBucket(h, State(), id)
    {
      r := false;
      for n := 0 to NEW_BUCKETS
        invariant forall m: nat :: m < NEW_BUCKETS && StepsTo(m, start) < n ==> !HoldsAt(h, State(), id, m)
      {
        var bucket := (n + start) % NEW_BUCKETS;
        var slot := NewSlot(h, bucket, mapInfo[id].service);
        ReadSlot(vvNew, slot);
        if vvNew[slot.bucket, slot.pos] == id {
          assert HoldsAt(h, State(), id, bucket);
          return true;
        }
      }
    }

    lemma IdsAreReal(h: Hasher, b: Book)
      requires Inv(h, b)
      ensures b.idCount != -1
      ensures forall id :: id in b.info ==> id != -1
      ensures forall s :: s in b.triedTable ==> b.triedTable[s] != -1
    {
    }

    /** Marks a service good; `start` is the bucket at which the search begins. */
    method MarkAsGood(s: Service, time: int, start: nat)
      requires Valid() && time != 0
      modifies this, vvNew, vvTried
      ensures Valid() && CanGood(h, old(State()), s, time) && State() == Good(h, old(State()), s, time)
    {
      hide Inv, CanMakeTried;
      GoodKeeps(h, State(), s, time);
      ghost var before := State();
      IdsAreReal(h, before);
      var found := Lookup(s.ip);
      if found.None? {
        return;
      }
      var id := found.value;
      if mapInfo[id].service != s {
        return;
      }
      mapInfo := mapInfo[id := mapInfo[id].(lastSuccess := time, lastTry := time, attempts := 0)];
      if mapInfo[id].inTried {
        return;
      }
      var inBucket := SearchBuckets(id, start);
      if !inBucket {
        return;
      }
      MakeTriedEntry(id);
    }

    method MarkAttempt(s: Service, time: int)
      requires Valid()
      modifies this
      ensures Valid() && State() == Attempt(old(State()), s, time)
    {
      hide Inv;
      AttemptKeeps(h, State(), s, time);
      var found := Lookup(s.ip);
      if found.None? || mapInfo[found.value].service != s {
        return;
      }
      var id := found.value;
      mapInfo := mapInfo[id := mapInfo[id].(lastTry := time)];
      mapInfo := mapInfo[id := mapInfo[id].(attempts := mapInfo[id].attempts + 1)];
      assert mapInfo == old(mapInfo)[id := mapInfo[id]];
    }

    method MarkConnected(s: Service, time: int)
      requires Valid()
      modifies this
      ensures Valid() && State() == Connected(old(State()), s, time)
    {
      hide Inv;
      AttemptKeeps(h, State(), s, time);
      var found := Lookup(s.ip);
      if found.None? || mapInfo[found.value].service != s {
        return;
      }
      var id := found.value;
      if time - mapInfo[id].time > 20 * 60 {
        mapInfo := mapInfo[id := mapInfo[id].(time := time)];
      }
    }

    method RefreshEntry(id: int, a: Address, source: NetAddr, penalty: int, now: int)
      requires Shape() && Find(State(), a.service.ip) == Some(id)
      modifies this`mapInfo
      ensures id in old(mapInfo) && id in mapInfo
      ensures (State(), id) == Prepared(old(State()), a, source, penalty, now)
    {
      hide Refresh;
      mapInfo := mapInfo[id := Refresh(mapInfo[id], a, penalty, now)];
    }

    /** A new entry, counted as untried, with its time reduced by the penalty. */
    method CreateNewEntry(a: Address, source: NetAddr, penalty: int, now: int) returns (id: int)
      requires Shape() && Find(State(), a.service.ip).None?
      modifies this
      ensures Shape() && id == old(nIdCount) && id in mapInfo
      ensures (State(), id) == Prepared(old(State()), a, source, penalty, now)
    {
      id := CreateEntry(a, source);
      mapInfo := mapInfo[id := mapInfo[id].(time := Max(0, mapInfo[id].time - penalty))];
      nNew := nNew + 1;
    }

    method PlaceEntry(slot: Slot, id: int, now: int)
      requires Shape() && slot.bucket < NEW_BUCKETS && slot.pos < BUCKET_SIZE && id != -1
      requires CanPlace(State(), slot, id, now)
      modifies this, vvNew
      ensures State() == Place(old(State()), slot, id, now)
    {
      hide ClearNew, CanClearNew, Delete, CanDelete, IsTerrible;
      ReadSlot(vvNew, slot);
      if vvNew[slot.bucket, slot.pos] != id {
        var insert := vvNew[slot.bucket, slot.pos] == -1;
        if !insert {
          var existing := mapInfo[vvNew[slot.bucket, slot.pos]];
          if IsTerrible(existing, now) || (existing.refCount > 1 && mapInfo[id].refCount == 0) {
            insert := true;
          }
        }
        if insert {
          ClearNewSlot(slot);
          mapInfo := mapInfo[id := mapInfo[id].(refCount := mapInfo[id].refCount + 1)];
          WriteSlot(vvNew, slot, id);
        } else if mapInfo[id].refCount == 0 {
          DeleteEntry(id);
        }
      }
    }

    method AddAddress(a: Address, source: NetAddr, penalty: int, c: Chance) returns (isNew: bool)
      requires Valid()
      modifies this, vvNew
      ensures Valid() && CanAdd(h, old(State()), a, source, penalty, c)
      ensures (State(), isNew) == Add(h, old(State()), a, source, penalty, c)
    {
      hide Inv, CanPlace, CanClearNew, CanDelete, Prepared;
      AddKeeps(h, State(), a, source, penalty, c);
      ghost var before := State();
      IdsAreReal(h, before);
      if !c.routable {
        return false;
      }
      isNew := false;
      var found := Lookup(a.service.ip);
      var id: int;
      if found.Some? {
        id := found.value;
        RefreshEntry(id, a, source, penalty, c.now);
        if AddStops(mapInfo[id], a, c.lucky) {
          return;
        }
      } else {
        id := CreateNewEntry(a, source, penalty, c.now);
        isNew := true;
      }
      PlaceEntry(AddSlot(h, mapInfo[id].service, source), id, c.now);
    }

    /** A random selection; `ids` are the entries behind the addresses. */
    method GetAddresses(rnd: nat -> nat, now: int) returns (out: seq<Address>, ghost ids: seq<int>)
      requires Valid()
      modifies this
      ensures Valid() && CanShuffle(old(State())) && (State(), ids) == GetAddr(old(State()), rnd, now)
      ensures |out| == |ids| <= GETADDR_MAX
      ensures forall i :: 0 <= i < |out| ==> ids[i] in mapInfo && out[i] == AddressOf(mapInfo[ids[i]])
    {
      hide Inv, IsTerrible, SwapRandom, CanShuffle, TableOf, GetAddrFrom;
      GetAddrKeeps(h, State(), rnd, now);
      ghost var before := State();
      var nNodes := GETADDR_MAX_PCT * |vRandom| / 100;
      if nNodes > GETADDR_MAX {
        nNodes := GETADDR_MAX;
      }
      out, ids := [], [];
      var n := 0;
      while n < |vRandom| && |out| < nNodes
        invariant 0 <= n <= |vRandom| && |out| == |ids| <= nNodes
        invariant CanShuffle(State())
        invariant GetAddrFrom(State(), n, ids, nNodes, rnd, now) == GetAddr(before, rnd, now)
        invariant ShowsEntries(mapInfo, ids, out)
        decreases |vRandom| - n
      {
        var pos := rnd(n) % (|vRandom| - n) + n;
        SwapShows(State(), n, pos, ids, out);
        GetAddrStep(State(), n, ids, nNodes, rnd, now);
        Swap(n, pos);
        var e := mapInfo[vRandom[n]];
        if !IsTerrible(e, now) {
          out, ids := out + [AddressOf(e)], ids + [vRandom[n]];
        }
        n := n + 1;
      }
      GetAddrEnds(State(), n, ids, nNodes, rnd, now);
    }

    // ----- saving and loading -----

    method SerializeNews() returns (unkIds: map<int, int>, news: seq<Info>)
      requires Shape() && nIdCount >= 0
      requires |Store.Select(Store.Ascending(mapInfo.Keys, nIdCount), Store.Referenced(mapInfo))| == nNew
      ensures var ids := Store.Select(Store.Ascending(mapInfo.Keys, nIdCount), Store.Referenced(mapInfo));
              Store.Wrote(mapInfo, ids, news) && Store.Numbers(ids, unkIds)
    {
      hide Store.Select, Store.Ascending, Store.Wrote, Store.Numbers;
      ghost var keys, keep := mapInfo.Keys, Store.Referenced(mapInfo);
      ghost var ids := [];
      unkIds, news := map[], [];
      Store.WroteNothing(mapInfo, keep, keys);
      for id := 0 to nIdCount
        invariant ids == Store.Select(Store.Ascending(keys, id), keep)
        invariant Store.Wrote(mapInfo, ids, news) && Store.Numbers(ids, unkIds)
        invariant |news| == |ids| && forall x :: x in ids ==> x < id
      {
        Store.AscendingStep(keys, id, keep);
        if id in mapInfo {
          Store.NumbersMore(ids, unkIds, id);
          unkIds := unkIds[id := |news|];
          if mapInfo[id].refCount != 0 {
            Store.AscendingGrows(keys, id + 1, nIdCount, keep);
            Store.WroteMore(mapInfo, ids, news, id);
            assert |news| != nNew;
            news := news + [Store.Strip(mapInfo[id])];
            ids := ids + [id];
          }
        }
      }
    }

    method SerializeTrieds() returns (trieds: seq<Info>)
      requires Shape() && nIdCount >= 0
      requires |Store.Select(Store.Ascending(mapInfo.Keys, nIdCount), Store.Tried(mapInfo))| == nTried
      ensures Store.Wrote(mapInfo, Store.Select(Store.Ascending(mapInfo.Keys, nIdCount), Store.Tried(mapInfo)), trieds)
    {
      hide Store.Select, Store.Ascending, Store.Wrote;
      ghost var keys, keep := mapInfo.Keys, Store.Tried(mapInfo);
      ghost var ids := [];
      trieds := [];
      Store.WroteNothing(mapInfo, keep, keys);
      for id := 0 to nIdCount
        invariant ids == Store.Select(Store.Ascending(keys, id), keep)
        invariant Store.Wrote(mapInfo, ids, trieds)
      {
        Store.AscendingStep(keys, id, keep);
        if id in mapInfo && mapInfo[id].inTried {
          Store.AscendingGrows(keys, id + 1, nIdCount, keep);
          Store.WroteMore(mapInfo, ids, trieds, id);
          assert |trieds| != nTried;
          trieds := trieds + [Store.Strip(mapInfo[id])];
          ids := ids + [id];
        }
      }
    }

    /** For each bucket the numbers of its entries. */
    method SerializeBuckets(unkIds: map<int, int>) returns (buckets: seq<seq<int>>)
      requires Shape() && forall s :: s in State().newTable ==> State().newTable[s] in unkIds
      ensures |buckets| == NEW_BUCKETS
      ensures forall k :: 0 <= k < NEW_BUCKETS ==> buckets[k] == Store.BucketList(State(), unkIds, k, BUCKET_SIZE)
    {
      hide TableOf;
      buckets := [];
      for bucket := 0 to NEW_BUCKETS
        invariant |buckets| == bucket
        invariant forall k :: 0 <= k < bucket ==> buckets[k] == Store.BucketList(State(), unkIds, k, BUCKET_SIZE)
      {
        var nSize := 0;
        for i := 0 to BUCKET_SIZE
          invariant nSize == |Store.BucketList(State(), unkIds, bucket, i)|
        {
          ReadSlot(vvNew, Slot(bucket, i));
          if vvNew[bucket, i] != -1 {
            nSize := nSize + 1;
          }
        }
        var list: seq<int> := [];
        for i := 0 to BUCKET_SIZE
          invariant list == Store.BucketList(State(), unkIds, bucket, i)
        {
          ReadSlot(vvNew, Slot(bucket, i));
          if vvNew[bucket, i] != -1 {
            list := list + [unkIds[vvNew[bucket, i]]];
          }
        }
        assert nSize == |list|;
        buckets := buckets + [list];
      }
    }

    /** What goes to the disk. */
    method Serialize() returns (v: Store.Saved)
      requires Valid()
      ensures nIdCount >= 0 && Store.CanSave(State(), Store.Ascending(mapInfo.Keys, nIdCount))
      ensures v == Store.Save(State(), Store.Ascending(mapInfo.Keys, nIdCount))
    {
      Store.AscendingIsOrder(h, State());
      ghost var order := Store.Ascending(mapInfo.Keys, nIdCount);
      Store.SaveFits(h, State(), order);
      hide Inv, Store.Select, Store.BucketList, Store.Numbering, Store.Ascending, TableOf, Store.IsOrder;
      var unkIds, news := SerializeNews();
      var trieds := SerializeTrieds();
      Store.SlotsInList(State(), order, unkIds);
      var buckets := SerializeBuckets(unkIds);
      v := Store.Saved(nNew, nTried, NEW_BUCKETS, news, trieds, buckets);
      Store.SameSaved(State(), order, unkIds, v);
    }

    lemma NewSlotFits(h: Hasher, bucket: nat, s: Service)
      ensures NewSlot(h, bucket, s).bucket == bucket && NewSlot(h, bucket, s).pos < BUCKET_SIZE
    {
    }

    method LoadNewEntry(n: int, e: Info, usable: bool)
      requires Shape() && n >= 0
      modifies this, vvNew
      ensures State() == Store.LoadOneNew(h, old(State()), usable, n, e) && nNew == old(nNew)
    {
      hide TableOf, NewSlot;
      mapInfo := mapInfo[n := e.(randomPos := |vRandom|)];
      mapAddr := mapAddr[e.service.ip := n];
      vRandom := vRandom + [n];
      if !usable {
        var slot := NewSlot(h, NewBucket(h, e.service, e.source), e.service);
        NewSlotFits(h, NewBucket(h, e.service, e.source), e.service);
        ReadSlot(vvNew, slot);
        if vvNew[slot.bucket, slot.pos] == -1 {
          WriteSlot(vvNew, slot, n);
          mapInfo := mapInfo[n := mapInfo[n].(refCount := mapInfo[n].refCount + 1)];
        }
      }
    }

    method LoadNewEntries(v: Store.Saved)
      requires Shape() && Store.WellFormed(v) && State() == EMPTY.(nNew := v.nNew, nTried := v.nTried)
      modifies this, vvNew
      ensures State() == Store.LoadNews(h, v, |v.news|)
    {
      hide TableOf, Store.LoadOneNew;
      var n := 0;
      while n < nNew
        invariant 0 <= n <= |v.news| && nNew == v.nNew && State() == Store.LoadNews(h, v, n)
      {
        LoadNewEntry(n, v.news[n], v.nUBuckets == NEW_BUCKETS);
        n := n + 1;
      }
    }

    lemma TriedSlotFits(h: Hasher, s: Service)
      ensures TriedSlot(h, s).bucket < TRIED_BUCKETS && TriedSlot(h, s).pos < BUCKET_SIZE
    {
    }

    /** One tried entry; it is lost when its slot is taken. */
    method LoadTriedEntry(entry: Info) returns (lost: bool)
      requires Shape()
      modifies this`mapInfo, this`mapAddr, this`vRandom, this`nIdCount, vvTried
      ensures State().(nTried := nTried - if lost then 1 else 0) == Store.LoadOneTried(h, old(State()), entry)
    {
      hide TableOf, TriedSlot;
      var e := entry;
      var slot := TriedSlot(h, e.service);
      TriedSlotFits(h, e.service);
      ReadSlot(vvTried, slot);
      lost := vvTried[slot.bucket, slot.pos] != -1;
      if !lost {
        e := e.(randomPos := |vRandom|, inTried := true);
        vRandom := vRandom + [nIdCount];
        mapInfo := mapInfo[nIdCount := e];
        mapAddr := mapAddr[e.service.ip := nIdCount];
        WriteSlot(vvTried, slot, nIdCount);
        nIdCount := nIdCount + 1;
      }
    }

    method LoadTriedEntries(v: Store.Saved)
      requires Shape() && Store.WellFormed(v) && nTried == v.nTried
      modifies this, vvTried
      ensures State() == Store.LoadTrieds(h, v, old(State()), |v.trieds|)
    {
      hide TableOf, Store.LoadOneTried;
      var nLost := 0;
      var n := 0;
      while n < nTried
        invariant 0 <= n <= |v.trieds| && nTried == v.nTried
        invariant State().(nTried := nTried - nLost) == Store.LoadTrieds(h, v, old(State()), n)
      {
        ghost var before := State();
        var lost := LoadTriedEntry(v.trieds[n]);
        Store.LoadOneTriedCounts(h, before, v.trieds[n], nLost);
        if lost {
          nLost := nLost + 1;
        }
        n := n + 1;
      }
      nTried := nTried - nLost;
    }

    method LoadPositions(v: Store.Saved)
      requires Shape() && Store.WellFormed(v) && nNew == v.nNew
      requires Store.HasIds(State(), nNew)
      modifies this, vvNew
      ensures State() == Store.LoadBuckets(h, v, old(State()), |v.buckets|)
    {
      hide TableOf, Position;
      ghost var b := State();
      var usable := v.nUBuckets == NEW_BUCKETS;
      for bucket := 0 to |v.buckets|
        invariant nNew == v.nNew && Store.HasIds(State(), nNew)
        invariant State() == Store.LoadBuckets(h, v, b, bucket)
      {
        ghost var b1 := State();
        var list := v.buckets[bucket];
        for n := 0 to |list|
          invariant nNew == v.nNew && Store.HasIds(State(), nNew)
          invariant State() == Store.LoadBucket(h, b1, usable, nNew, bucket, list[..n])
        {
          assert list[..n + 1][..n] == list[..n];
          var index := list[n];
          if 0 <= index < nNew {
            var slot := NewSlot(h, bucket, mapInfo[index].service);
            if usable {
              NewSlotFits(h, bucket, mapInfo[index].service);
              ReadSlot(vvNew, slot);
              if vvNew[slot.bucket, slot.pos] == -1 && mapInfo[index].refCount < NEW_BUCKETS_PER_ADDRESS {
                mapInfo := mapInfo[index := mapInfo[index].(refCount := mapInfo[index].refCount + 1)];
                WriteSlot(vvNew, slot, index);
              }
            }
          }
        }
        assert list[..|list|] == list;
      }
    }

    method PruneUnreferenced()
      requires Shape() && Store.EntriesOk(State(), nIdCount)
      modifies this
      ensures Store.Prune(old(State()), Store.Ascending(old(mapInfo.Keys), Max(0, old(nIdCount)))) == Some(State())
    {
      hide TableOf, Store.EntriesOk, CanDelete, Delete, Store.Prune;
      ghost var b := State();
      Store.PruneStart(b, b.info.Keys);
      for id := 0 to Max(0, nIdCount)
        invariant nIdCount == b.idCount && mapInfo.Keys <= b.info.Keys && Store.EntriesOk(State(), nIdCount)
        invariant Store.Prune(b, Store.Ascending(b.info.Keys, id)) == Some(State())
      {
        Store.PruneNext(b, b.info.Keys, id);
        if id in mapInfo && !mapInfo[id].inTried && mapInfo[id].refCount == 0 {
          Store.DeleteEntries(State(), id);
          DeleteEntry(id);
        }
      }
    }

    method ReadEntries(v: Store.Saved)
      requires Shape() && State() == EMPTY && Store.WellFormed(v)
      modifies this, vvNew, vvTried
      ensures var b := Store.LoadTables(h, v);
              Store.Prune(b, Store.Ascending(b.info.Keys, Max(0, b.idCount))) == Some(State())
    {
      hide Store.LoadNews, Store.LoadTrieds, Store.LoadBuckets, Store.Prune, Store.Ascending, TableOf;
      nNew, nTried := v.nNew, v.nTried;
      LoadNewEntries(v);
      Store.LoadNewsEntries(h, v, |v.news|);
      Store.NewsBelowCount(h, v);
      nIdCount := nNew;
      ghost var b1 := State();
      Store.LoadTriedsEntries(h, v, b1, |v.trieds|);
      LoadTriedEntries(v);
      ghost var b2 := State();
      Store.LoadBucketsEntries(h, v, b2, |v.buckets|);
      Store.IdsKept(b1, b2, nNew);
      LoadPositions(v);
      PruneUnreferenced();
    }

    /** Loads a file into a newly made manager. */
    method Unserialize(v: Store.Saved)
      requires Shape() && State() == EMPTY && Store.WellFormed(v)
      modifies this, vvNew, vvTried
      ensures var b := Store.LoadTables(h, v);
              Store.Prune(b, Store.Ascending(b.info.Keys, Max(0, b.idCount))) == Some(State())
      ensures Load.Loadable(v) ==> Valid()
    {
      hide Inv, Store.Prune, Store.LoadTables, Store.Ascending, TableOf;
      ReadEntries(v);
      if Load.Loadable(v) {
        Load.WalkGivesConsistent(h, v);
      }
    }
  }
}
