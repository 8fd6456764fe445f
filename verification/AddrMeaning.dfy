// What the operations of the address manager mean, seen by network address:
// entries, and which of them holds which slot, without ids and counters.
module AddrMeaning {
  import opened Wrappers
  import opened Basics
  import opened AddrBook

  /** Entries by network address, and the network address in each taken slot of the two tables. */
  datatype View = View(entries: map<NetAddr, Info>, news: map<Slot, NetAddr>, tried: map<Slot, NetAddr>)

  function Plain(e: Info): Info
  {
    e.(randomPos := 0)
  }

  function EntriesOf(info: Infos, addr: map<NetAddr, int>): map<NetAddr, Info>
  {
    map ip | ip in addr && addr[ip] in info :: Plain(info[addr[ip]])
  }

  function SlotsOf(info: Infos, table: Table): map<Slot, NetAddr>
  {
    map s | s in table && table[s] in info :: info[table[s]].service.ip
  }

  function See(b: Book): View
  {
    View(EntriesOf(b.info, b.addr), SlotsOf(b.info, b.newTable), SlotsOf(b.info, b.triedTable))
  }

  /** The place in a bucket of the new table. */
  function NewPlace(h: Hasher, bucket: nat, s: Service): Slot
  {
    Slot(bucket, h.position(true, bucket, s) % 64)
  }

  /** Where an address goes that was heard of from a source. */
  function Home(h: Hasher, s: Service, source: NetAddr): Slot
  {
    NewPlace(h, h.fromSource(s.ip, source) % 1024, s)
  }

  function TriedHome(h: Hasher, s: Service): Slot
  {
    Slot(h.tried(s) % 256, h.position(false, h.tried(s) % 256, s) % 64)
  }

  /**
   * Not worth keeping: not tried in the last minute, and from the future, not seen for
   * thirty days, never reached in three attempts, or failed ten times within a week.
   */
  predicate Stale(e: Info, now: int)
  {
    && (e.lastTry == 0 || e.lastTry < now - 60)
    && (|| e.time > now + 600 || e.time == 0 || now - e.time > 30 * 86_400
        || (e.lastSuccess == 0 && e.attempts >= 3)
        || (now - e.lastSuccess > 7 * 86_400 && e.attempts >= 10))
  }

  lemma TerribleIsStale(e: Info, now: int)
    ensures IsTerrible(e, now) <==> Stale(e, now)
  {
  }

  /** The entry of a new slot loses it, and goes with its last one. */
  function Dropped(v: View, slot: Slot): View
  {
    if slot !in v.news || v.news[slot] !in v.entries then v
    else
      var ip := v.news[slot];
      var e := v.entries[ip];
      View(if e.refCount == 1 then v.entries - {ip} else v.entries[ip := e.(refCount := e.refCount - 1)], v.news - {slot}, v.tried)
  }

  /** An entry gets one more slot. */
  function Entered(v: View, slot: Slot, ip: NetAddr): View
  {
    if ip !in v.entries then v
    else View(v.entries[ip := v.entries[ip].(refCount := v.entries[ip].refCount + 1)], v.news[slot := ip], v.tried)
  }

  // ----- steps on books, seen by network address -----

  /** What the views of a book rely on. */
  ghost predicate Readable(b: Book)
  {
    && AddrOk(b.info, b.addr)
    && (forall s :: s in b.newTable ==> b.newTable[s] in b.info)
    && (forall s :: s in b.triedTable ==> b.triedTable[s] in b.info)
  }

  lemma ConsistentIsReadable(h: Hasher, b: Book, loose: set<int>, uncounted: set<int>)
    requires Consistent(h, b, loose, uncounted)
    ensures Readable(b)
  {
    hide RandomOk, RefsOk, CountsOk, IdsOk, NewSlot, TriedSlot;
  }

  lemma SeenByAddr(b: Book, id: int)
    requires Readable(b) && id in b.info
    ensures var ip := b.info[id].service.ip;
            ip in See(b).entries && See(b).entries[ip] == Plain(b.info[id]) && b.addr[ip] == id
  {
  }

  lemma SeenInSlot(b: Book, slot: Slot)
    requires Readable(b)
    ensures slot in See(b).news <==> slot in b.newTable
    ensures slot in b.newTable ==> See(b).news[slot] == b.info[b.newTable[slot]].service.ip
    ensures slot in See(b).tried <==> slot in b.triedTable
    ensures slot in b.triedTable ==> See(b).tried[slot] == b.info[b.triedTable[slot]].service.ip
  {
  }

  // ----- entries and slots after one change -----

  lemma EntriesUpdate(info: Infos, addr: map<NetAddr, int>, id: int, e: Info)
    requires AddrOk(info, addr) && id in info && e.service == info[id].service
    ensures EntriesOf(info[id := e], addr) == EntriesOf(info, addr)[e.service.ip := Plain(e)]
  {
  }

  lemma EntriesWith(info: Infos, addr: map<NetAddr, int>, id: int, e: Info)
    requires AddrOk(info, addr) && id !in info && e.service.ip !in addr
    ensures EntriesOf(info[id := e], addr[e.service.ip := id]) == EntriesOf(info, addr)[e.service.ip := Plain(e)]
  {
    hide Plain;
  }

  lemma SlotsSame(info: Infos, info': Infos, table: Table)
    requires forall s :: s in table ==> table[s] in info && table[s] in info' && info'[table[s]].service == info[table[s]].service
    ensures SlotsOf(info', table) == SlotsOf(info, table)
  {
  }

  lemma SlotsWithout(info: Infos, table: Table, slot: Slot)
    ensures SlotsOf(info, table - {slot}) == SlotsOf(info, table) - {slot}
  {
  }

  lemma SlotsWith(info: Infos, table: Table, slot: Slot, id: int)
    requires id in info
    ensures SlotsOf(info, table[slot := id]) == SlotsOf(info, table)[slot := info[id].service.ip]
  {
  }

  lemma EntriesSame(info: Infos, info': Infos, addr: map<NetAddr, int>)
    requires AddrOk(info, addr) && SameEntries(info, info')
    ensures EntriesOf(info', addr) == EntriesOf(info, addr)
  {
    forall id | id in info ensures Plain(info'[id]) == Plain(info[id]) {
      assert SameEntry(info[id], info'[id]);
    }
  }

  lemma EntriesWithout(info: Infos, info': Infos, addr: map<NetAddr, int>, id: int)
    requires AddrOk(info, addr) && id in info
    requires info'.Keys == info.Keys - {id} && forall j :: j in info && j != id ==> SameEntry(info[j], info'[j])
    ensures EntriesOf(info', addr - {info[id].service.ip}) == EntriesOf(info, addr) - {info[id].service.ip}
  {
    var ip := info[id].service.ip;
    forall j | j in info && j != id ensures j in info' && Plain(info'[j]) == Plain(info[j]) {
      assert SameEntry(info[j], info'[j]);
    }
    forall a | a in addr && a != ip ensures addr[a] != id && addr[a] in info {
    }
    hide AddrOk, Plain;
  }

  lemma SameEntriesSeen(b: Book, b': Book)
    requires Readable(b) && SameEntries(b.info, b'.info)
    requires b'.addr == b.addr && b'.newTable == b.newTable && b'.triedTable == b.triedTable
    ensures See(b') == See(b)
  {
    forall id | id in b.info ensures b'.info[id].service == b.info[id].service {
      assert SameEntry(b.info[id], b'.info[id]);
    }
    EntriesSame(b.info, b'.info, b.addr);
    SlotsSame(b.info, b'.info, b.newTable);
    SlotsSame(b.info, b'.info, b.triedTable);
    hide EntriesOf, SlotsOf, SameEntries, Readable;
  }

  lemma UpdateReadable(b: Book, id: int, e: Info)
    requires Readable(b) && id in b.info && e.service == b.info[id].service
    ensures Readable(b.(info := b.info[id := e]))
  {
  }

  lemma UpdateSeen(b: Book, id: int, e: Info)
    requires Readable(b) && id in b.info && e.service == b.info[id].service
    ensures var b' := b.(info := b.info[id := e]);
            Readable(b') && See(b') == See(b).(entries := See(b).entries[e.service.ip := Plain(e)])
  {
    UpdateReadable(b, id, e);
    EntriesUpdate(b.info, b.addr, id, e);
    SlotsSame(b.info, b.info[id := e], b.newTable);
    SlotsSame(b.info, b.info[id := e], b.triedTable);
    hide EntriesOf, SlotsOf, Plain, Readable;
  }

  lemma UnlinkReadable(b: Book, slot: Slot)
    requires Readable(b) && slot in b.newTable
    ensures Readable(Unlink(b, slot))
  {
  }

  lemma UnlinkIs(b: Book, slot: Slot, id: int, e: Info)
    requires slot in b.newTable && b.newTable[slot] == id && id in b.info && e == b.info[id].(refCount := b.info[id].refCount - 1)
    ensures Unlink(b, slot) == Book(b.info[id := e], b.addr, b.random, b.newTable - {slot}, b.triedTable, b.nNew, b.nTried, b.idCount)
  {
  }

  lemma UnlinkSeen(b: Book, slot: Slot, id: int, e: Info)
    requires Readable(b) && slot in b.newTable && b.newTable[slot] == id
    requires id in b.info && e == b.info[id].(refCount := b.info[id].refCount - 1)
    ensures Readable(Unlink(b, slot))
    ensures See(Unlink(b, slot)) == View(See(b).entries[e.service.ip := Plain(e)], See(b).news - {slot}, See(b).tried)
  {
    UnlinkReadable(b, slot);
    UnlinkIs(b, slot, id, e);
    hide Readable, EntriesOf, SlotsOf, Plain, Unlink;
    UpdateSeen(b, id, e);
    SlotsWithout(b.info[id := e], b.newTable, slot);
  }

  lemma LinkReadable(b: Book, slot: Slot, id: int)
    requires Readable(b) && id in b.info
    ensures Readable(Link(b, slot, id))
  {
  }

  lemma LinkIs(b: Book, slot: Slot, id: int, e: Info)
    requires id in b.info && e == b.info[id].(refCount := b.info[id].refCount + 1)
    ensures Link(b, slot, id) == Book(b.info[id := e], b.addr, b.random, b.newTable[slot := id], b.triedTable, b.nNew, b.nTried, b.idCount)
    ensures Plain(e) == Plain(b.info[id]).(refCount := Plain(b.info[id]).refCount + 1) && e.service == b.info[id].service
  {
  }

  lemma LinkSeen(b: Book, slot: Slot, id: int)
    requires Readable(b) && id in b.info
    ensures Readable(Link(b, slot, id)) && See(Link(b, slot, id)) == Entered(See(b), slot, b.info[id].service.ip)
  {
    LinkReadable(b, slot, id);
    SeenByAddr(b, id);
    var e := b.info[id].(refCount := b.info[id].refCount + 1);
    LinkIs(b, slot, id, e);
    hide Readable, EntriesOf, SlotsOf, Plain, Link;
    UpdateSeen(b, id, e);
    SlotsWith(b.info[id := e], b.newTable, slot, id);
  }

  lemma DeleteAddr(b: Book, id: int)
    requires CanDelete(b, id)
    ensures Delete(b, id).addr == b.addr - {b.info[id].service.ip}
  {
  }

  /** No slot holds the entry. */
  ghost predicate Nowhere(b: Book, id: int)
  {
    && (forall s :: s in b.newTable ==> b.newTable[s] != id)
    && (forall s :: s in b.triedTable ==> b.triedTable[s] != id)
  }

  lemma OtherServices(info: Infos, info': Infos, id: int)
    requires forall j :: j in info && j != id ==> j in info' && SameEntry(info[j], info'[j])
    ensures forall j :: j in info && j != id ==> j in info' && info'[j].service == info[j].service
  {
  }

  lemma OtherSlotsSame(info: Infos, info': Infos, id: int, table: Table)
    requires forall j :: j in info && j != id ==> j in info' && SameEntry(info[j], info'[j])
    requires forall s :: s in table ==> table[s] in info && table[s] != id
    ensures SlotsOf(info', table) == SlotsOf(info, table)
  {
    OtherServices(info, info', id);
    hide SameEntry, SlotsOf;
    SlotsSame(info, info', table);
  }

  lemma WithoutEntrySeen(b: Book, b': Book, id: int)
    requires Readable(b) && id in b.info && Nowhere(b, id)
    requires b'.info.Keys == b.info.Keys - {id} && forall j :: j in b.info && j != id ==> SameEntry(b.info[j], b'.info[j])
    requires b'.addr == b.addr - {b.info[id].service.ip} && b'.newTable == b.newTable && b'.triedTable == b.triedTable
    ensures See(b') == View(See(b).entries - {b.info[id].service.ip}, See(b).news, See(b).tried)
  {
    hide AddrOk, EntriesOf, SlotsOf, SameEntry;
    EntriesWithout(b.info, b'.info, b.addr, id);
    OtherSlotsSame(b.info, b'.info, id, b.newTable);
    OtherSlotsSame(b.info, b'.info, id, b.triedTable);
  }

  lemma NothingHolds(h: Hasher, b: Book, id: int, loose: set<int>, uncounted: set<int>)
    requires Consistent(h, b, loose, uncounted) && id in b.info && !b.info[id].inTried && b.info[id].refCount == 0
    ensures Nowhere(b, id)
  {
    NoRefsNotInTable(h, b, id, loose);
    hide RandomOk, AddrOk, NewOk, RefsOk, CountsOk, IdsOk, TriedSlot;
  }

  lemma DeleteSeen(h: Hasher, b: Book, id: int, loose: set<int>, uncounted: set<int>)
    requires Consistent(h, b, loose, uncounted) && CanDelete(b, id) && id !in uncounted
    ensures See(Delete(b, id)) == View(See(b).entries - {b.info[id].service.ip}, See(b).news, See(b).tried)
  {
    ConsistentIsReadable(h, b, loose, uncounted);
    NothingHolds(h, b, id, loose, uncounted);
    DeleteKeeps(h, b, id, loose, uncounted);
    DeleteTables(b, id);
    DeleteAddr(b, id);
    hide *;
    hide Delete;
    WithoutEntrySeen(b, Delete(b, id), id);
  }

  lemma UnlinkedEntry(b: Book, slot: Slot)
    requires slot in b.newTable && b.newTable[slot] in b.info
    ensures var id := b.newTable[slot];
            && id in Unlink(b, slot).info && Unlink(b, slot).info[id].service == b.info[id].service
            && Unlink(b, slot).info[id].refCount == b.info[id].refCount - 1
            && Unlink(b, slot).info[id].inTried == b.info[id].inTried
  {
  }

  lemma DroppedIs(v: View, slot: Slot, ip: NetAddr, e: Info, v1: View)
    requires slot in v.news && v.news[slot] == ip && ip in v.entries && v.entries[ip] == e
    requires v1 == View(v.entries[ip := e.(refCount := e.refCount - 1)], v.news - {slot}, v.tried)
    ensures Dropped(v, slot) == if e.refCount == 1 then View(v1.entries - {ip}, v1.news, v1.tried) else v1
  {
    assert v.entries[ip := e.(refCount := e.refCount - 1)] - {ip} == v.entries - {ip};
  }

  lemma ClearNewSeen(h: Hasher, b: Book, slot: Slot, loose: set<int>, uncounted: set<int>)
    requires Consistent(h, b, loose, uncounted)
    requires slot in b.newTable ==> b.newTable[slot] !in loose && b.newTable[slot] !in uncounted
    ensures CanClearNew(b, slot) && See(ClearNew(b, slot)) == Dropped(See(b), slot)
  {
    ConsistentIsReadable(h, b, loose, uncounted);
    ClearNewKeeps(h, b, slot, loose, uncounted);
    SeenInSlot(b, slot);
    if slot in b.newTable {
      var id := b.newTable[slot];
      SeenByAddr(b, id);
      UnlinkKeeps(h, b, slot, loose, uncounted);
      UntriedInTable(h, b, slot, loose, uncounted);
      UnlinkSeen(b, slot, id, b.info[id].(refCount := b.info[id].refCount - 1));
      UnlinkedEntry(b, slot);
      hide Consistent, See, Delete, CanDelete, Unlink, Readable, Dropped;
      DroppedIs(See(b), slot, b.info[id].service.ip, Plain(b.info[id]), See(Unlink(b, slot)));
      if b.info[id].refCount == 1 {
        DeleteSeen(h, Unlink(b, slot), id, loose + {id}, uncounted);
      }
    } else {
      hide Consistent, See, Readable;
    }
  }

  // ----- adding an address -----

  /** The slot is free for another entry, which has no slot yet when `first`. */
  predicate GivesWay(v: View, slot: Slot, first: bool, now: int)
  {
    slot in v.news && v.news[slot] in v.entries ==>
      Stale(v.entries[v.news[slot]], now) || (v.entries[v.news[slot]].refCount > 1 && first)
  }

  lemma YieldsSeen(b: Book, slot: Slot, id: int, now: int)
    requires Readable(b) && id in b.info
    ensures Yields(b, slot, id, now) <==> GivesWay(See(b), slot, b.info[id].refCount == 0, now)
  {
    SeenInSlot(b, slot);
    if slot in b.newTable {
      SeenByAddr(b, b.newTable[slot]);
      TerribleIsStale(b.info[b.newTable[slot]], now);
      TerribleIsStale(Plain(b.info[b.newTable[slot]]), now);
    }
    hide See, Readable, IsTerrible;
  }

  lemma ServiceStays(h: Hasher, b: Book, slot: Slot, id: int, loose: set<int>, uncounted: set<int>)
    requires Consistent(h, b, loose, uncounted) && id in b.info && (slot in b.newTable ==> b.newTable[slot] != id)
    requires slot in b.newTable ==> b.newTable[slot] !in loose && b.newTable[slot] !in uncounted
    ensures CanClearNew(b, slot) && Consistent(h, ClearNew(b, slot), loose, uncounted)
    ensures id in ClearNew(b, slot).info && ClearNew(b, slot).info[id].service == b.info[id].service
  {
    ClearNewKeeps(h, b, slot, loose, uncounted);
    hide Consistent, ClearNew;
    assert SameEntry(b.info[id], ClearNew(b, slot).info[id]);
  }

  lemma PlaceSeen(h: Hasher, b: Book, slot: Slot, id: int, now: int, loose: set<int>)
    requires Consistent(h, b, loose, {}) && loose <= {id} && (slot in b.newTable ==> b.newTable[slot] != id)
    requires id in b.info && !b.info[id].inTried && CanPlace(b, slot, id, now)
    ensures var v, ip := See(b), b.info[id].service.ip;
            See(Place(b, slot, id, now))
            == if GivesWay(v, slot, b.info[id].refCount == 0, now) then Entered(Dropped(v, slot), slot, ip)
               else if b.info[id].refCount == 0 then View(v.entries - {ip}, v.news, v.tried)
               else v
  {
    ConsistentIsReadable(h, b, loose, {});
    YieldsSeen(b, slot, id, now);
    if Yields(b, slot, id, now) {
      ServiceStays(h, b, slot, id, loose, {});
      ClearNewSeen(h, b, slot, loose, {});
      ConsistentIsReadable(h, ClearNew(b, slot), loose, {});
      hide Consistent, See, Yields, GivesWay, ClearNew, CanClearNew, Link, Entered, Dropped, Readable;
      LinkSeen(ClearNew(b, slot), slot, id);
    } else if b.info[id].refCount == 0 {
      DeleteSeen(h, b, id, loose, {});
      hide Consistent, See, Yields, GivesWay, Delete, CanDelete;
    } else {
      hide Consistent, See, Yields, GivesWay;
    }
  }

  lemma AddSlotIsHome(h: Hasher, s: Service, source: NetAddr)
    ensures AddSlot(h, s, source) == Home(h, s, source)
  {
  }

  lemma FoundIffSeen(b: Book, ip: NetAddr)
    requires Readable(b)
    ensures Find(b, ip).Some? <==> ip in See(b).entries
    ensures Find(b, ip).Some? ==> Find(b, ip).value in b.info && b.info[Find(b, ip).value].service.ip == ip
    ensures Find(b, ip).Some? ==> See(b).entries[ip] == Plain(b.info[Find(b, ip).value])
  {
    assert ip in EntriesOf(b.info, b.addr) <==> ip in b.addr && b.addr[ip] in b.info;
    hide Plain;
  }

  lemma WithEntrySeen(b: Book, b': Book, id: int, e: Info)
    requires Readable(b) && id !in b.info && e.service.ip !in b.addr
    requires b'.info == b.info[id := e] && b'.addr == b.addr[e.service.ip := id]
    requires b'.newTable == b.newTable && b'.triedTable == b.triedTable
    ensures See(b') == See(b).(entries := See(b).entries[e.service.ip := Plain(e)])
  {
    SlotsSame(b.info, b'.info, b.newTable);
    SlotsSame(b.info, b'.info, b.triedTable);
    EntriesWith(b.info, b.addr, id, e);
    hide EntriesOf, SlotsOf, AddrOk, Plain;
  }

  lemma NewIdIsFree(h: Hasher, b: Book, loose: set<int>, uncounted: set<int>)
    requires Consistent(h, b, loose, uncounted)
    ensures b.idCount !in b.info
  {
    hide RandomOk, AddrOk, NewOk, RefsOk, TriedOk, CountsOk;
  }

  /** The entry for an address that was not known. */
  function NewEntry(a: Address, source: NetAddr, penalty: int, refCount: int): Info
  {
    Info(a.service, a.services, if a.time > penalty then a.time - penalty else 0, source, 0, 0, 0, refCount, false, 0)
  }

  lemma PreparedNewSeen(h: Hasher, b: Book, a: Address, source: NetAddr, penalty: int, now: int)
    requires Inv(h, b) && Find(b, a.service.ip).None?
    ensures var (b1, id) := Prepared(b, a, source, penalty, now);
            && See(b1) == See(b).(entries := See(b).entries[a.service.ip := NewEntry(a, source, penalty, 0)])
            && id in b1.info && b1.info[id].service == a.service && b1.info[id].refCount == 0 && !b1.info[id].inTried
            && b1.newTable == b.newTable && id !in b.info
  {
    ConsistentIsReadable(h, b, {}, {});
    NewIdIsFree(h, b, {}, {});
    var (b1, id) := Prepared(b, a, source, penalty, now);
    hide Consistent, See;
    assert a.service.ip !in b.addr;
    assert b1.info == b.info[id := b1.info[id]];
    WithEntrySeen(b, b1, id, b1.info[id]);
  }

  lemma NotInSlots(h: Hasher, b: Book, id: int)
    requires Inv(h, b) && id !in b.info
    ensures forall s :: s in b.newTable ==> b.newTable[s] != id
  {
    hide RandomOk, AddrOk, RefsOk, TriedOk, CountsOk, IdsOk, NewSlot;
  }

  lemma EnteredWithNew(v: View, slot: Slot, ip: NetAddr, e: Info, now: int)
    requires ip !in v.entries && forall s :: s in v.news ==> v.news[s] != ip
    ensures var v1 := v.(entries := v.entries[ip := e]);
            && Entered(Dropped(v1, slot), slot, ip)
               == (var w := Dropped(v, slot); View(w.entries[ip := e.(refCount := e.refCount + 1)], w.news[slot := ip], w.tried))
            && View(v1.entries - {ip}, v1.news, v1.tried) == v
            && (GivesWay(v1, slot, true, now) <==> GivesWay(v, slot, true, now))
  {
    var v1 := v.(entries := v.entries[ip := e]);
    assert v1.entries - {ip} == v.entries;
    if slot in v.news && v.news[slot] in v.entries {
      var o := v.news[slot];
      var eo := v.entries[o].(refCount := v.entries[o].refCount - 1);
      assert v.entries[ip := e] - {o} == (v.entries - {o})[ip := e];
      assert v.entries[ip := e][o := eo] == v.entries[o := eo][ip := e];
    }
    hide Stale;
  }

  lemma SeenNews(b: Book, ip: NetAddr)
    requires Readable(b) && ip !in See(b).entries
    ensures forall s :: s in See(b).news ==> See(b).news[s] != ip
  {
    forall s | s in See(b).news ensures See(b).news[s] != ip {
      SeenByAddr(b, b.newTable[s]);
    }
  }

  // An address that was not known: its entry takes its home slot when that is
  // empty, or held by a stale entry or by one with other slots.  Otherwise nothing
  // changes, although the answer is still that it is new.
  lemma AddNew(h: Hasher, b: Book, a: Address, source: NetAddr, penalty: int, c: Chance)
    requires Inv(h, b) && c.routable && a.service.ip !in See(b).entries
    ensures CanAdd(h, b, a, source, penalty, c)
    ensures var v, slot := See(b), Home(h, a.service, source);
            var (b', isNew) := Add(h, b, a, source, penalty, c);
            && isNew
            && See(b') == if GivesWay(v, slot, true, c.now) then
                            var w := Dropped(v, slot);
                            View(w.entries[a.service.ip := NewEntry(a, source, penalty, 1)], w.news[slot := a.service.ip], w.tried)
                          else v
  {
    AddKeeps(h, b, a, source, penalty, c);
    ConsistentIsReadable(h, b, {}, {});
    FoundIffSeen(b, a.service.ip);
    PreparedNewSeen(h, b, a, source, penalty, c.now);
    PreparedKeeps(h, b, a, source, penalty, c.now);
    SeenNews(b, a.service.ip);
    var (b1, id) := Prepared(b, a, source, penalty, c.now);
    NotInSlots(h, b, id);
    AddSlotIsHome(h, a.service, source);
    var slot := Home(h, a.service, source);
    hide Consistent, See, Place, CanPlace, Prepared, Home, AddSlot, Readable, Dropped, Entered, GivesWay;
    PlaceSeen(h, b1, slot, id, c.now, {id});
    EnteredWithNew(See(b), slot, a.service.ip, NewEntry(a, source, penalty, 0), c.now);
  }

  /** A known entry after an announcement: a later time, well apart from its own, and all services. */
  function Told(e: Info, a: Address, penalty: int, now: int): Info
  {
    var apart := if now - a.time < 86_400 then 3_600 else 86_400;
    e.(time := if a.time != 0 && (e.time == 0 || e.time < a.time - apart - penalty)
               then if a.time > penalty then a.time - penalty else 0
               else e.time,
       services := e.services + a.services)
  }

  lemma RefreshIsTold(e: Info, a: Address, penalty: int, now: int)
    ensures Plain(Refresh(e, a, penalty, now)) == Told(Plain(e), a, penalty, now) && Refresh(e, a, penalty, now).service == e.service
  {
  }

  lemma PreparedKnownSeen(h: Hasher, b: Book, a: Address, source: NetAddr, penalty: int, now: int)
    requires Inv(h, b) && Find(b, a.service.ip).Some?
    ensures var (b1, id) := Prepared(b, a, source, penalty, now);
            var e := See(b).entries[a.service.ip];
            && a.service.ip in See(b).entries && id in b1.info && Plain(b1.info[id]) == Told(e, a, penalty, now)
            && e.service.ip == a.service.ip
            && See(b1) == See(b).(entries := See(b).entries[a.service.ip := Told(e, a, penalty, now)])
  {
    ConsistentIsReadable(h, b, {}, {});
    FoundIffSeen(b, a.service.ip);
    var id := Find(b, a.service.ip).value;
    RefreshIsTold(b.info[id], a, penalty, now);
    assert Plain(b.info[id]).service == b.info[id].service;
    hide Consistent, See, Readable, Refresh, Told, Plain, Find;
    UpdateSeen(b, id, Refresh(b.info[id], a, penalty, now));
  }

  lemma KnownHasRefs(h: Hasher, b: Book, id: int)
    requires Inv(h, b) && id in b.info && !b.info[id].inTried
    ensures b.info[id].refCount >= 1
  {
    hide RandomOk, AddrOk, NewOk, TriedOk, CountsOk, IdsOk, Buckets;
    assert RefOk(h, b.info[id], b.newTable, id, {});
  }

  /** Nothing more is done for a known entry: no news, tried, in eight slots, or out of luck. */
  predicate Settled(e: Info, a: Address, lucky: bool)
  {
    || a.time == 0 || (e.time != 0 && a.time <= e.time)
    || e.inTried || e.refCount == 8 || (e.refCount > 0 && !lucky)
  }

  lemma HeldSeen(b: Book, slot: Slot, id: int)
    requires Readable(b) && id in b.info
    ensures slot in b.newTable && b.newTable[slot] == id <==> slot in See(b).news && See(b).news[slot] == b.info[id].service.ip
  {
    if slot in b.newTable {
      SeenByAddr(b, b.newTable[slot]);
      SeenByAddr(b, id);
    }
  }

  lemma NotSettled(e: Info, a: Address, lucky: bool)
    requires !AddStops(e, a, lucky)
    ensures !e.inTried
  {
  }

  // A known address: its entry is told, and takes one more slot when there is news,
  // it is untried and in fewer than eight, it is lucky, and the slot for this source
  // is not its own and is empty or held by a stale entry.
  lemma AddKnown(h: Hasher, b: Book, a: Address, source: NetAddr, penalty: int, c: Chance)
    requires Inv(h, b) && c.routable && a.service.ip in See(b).entries
    ensures CanAdd(h, b, a, source, penalty, c)
    ensures var ip := a.service.ip;
            var e := Told(See(b).entries[ip], a, penalty, c.now);
            var v := See(b).(entries := See(b).entries[ip := e]);
            var slot := Home(h, e.service, source);
            var (b', isNew) := Add(h, b, a, source, penalty, c);
            && !isNew
            && See(b') == if Settled(e, a, c.lucky) || (slot in v.news && v.news[slot] == ip) || !GivesWay(v, slot, false, c.now) then v
                          else Entered(Dropped(v, slot), slot, ip)
  {
    AddKeeps(h, b, a, source, penalty, c);
    ConsistentIsReadable(h, b, {}, {});
    FoundIffSeen(b, a.service.ip);
    PreparedKnownSeen(h, b, a, source, penalty, c.now);
    PreparedKeeps(h, b, a, source, penalty, c.now);
    var (b1, id) := Prepared(b, a, source, penalty, c.now);
    ConsistentIsReadable(h, b1, {}, {});
    AddSlotIsHome(h, b1.info[id].service, source);
    var slot := Home(h, b1.info[id].service, source);
    HeldSeen(b1, slot, id);
    assert AddStops(b1.info[id], a, c.lucky) == Settled(Plain(b1.info[id]), a, c.lucky);
    hide Consistent, See, Prepared, Home, AddSlot, Readable, Dropped, Entered, GivesWay, Told, Settled, AddStops, Yields, Link, ClearNew, Delete;
    if !AddStops(b1.info[id], a, c.lucky) && !(slot in b1.newTable && b1.newTable[slot] == id) {
      NotSettled(b1.info[id], a, c.lucky);
      KnownHasRefs(h, b1, id);
      PlaceSeen(h, b1, slot, id, c.now, {});
    }
  }

  // An address that cannot be reached from elsewhere is refused.
  lemma AddUnroutable(h: Hasher, b: Book, a: Address, source: NetAddr, penalty: int, c: Chance)
    requires !c.routable
    ensures CanAdd(h, b, a, source, penalty, c) && Add(h, b, a, source, penalty, c) == (b, false)
  {
  }

  // ----- attempts and connections -----

  lemma FoundServiceSeen(b: Book, s: Service)
    requires Readable(b)
    ensures FindService(b, s).Some? <==> s.ip in See(b).entries && See(b).entries[s.ip].service == s
    ensures FindService(b, s).Some? ==>
              FindService(b, s).value in b.info && See(b).entries[s.ip] == Plain(b.info[FindService(b, s).value])
  {
    FoundIffSeen(b, s.ip);
    hide See, Readable;
  }

  function OneAttempt(e: Info, time: int): Info
  {
    e.(lastTry := time, attempts := e.attempts + 1)
  }

  lemma AttemptIs(b: Book, s: Service, time: int)
    ensures var found := FindService(b, s);
            Attempt(b, s, time) == if found.None? then b else b.(info := b.info[found.value := OneAttempt(b.info[found.value], time)])
  {
    hide FindService;
  }

  lemma OneAttemptIsPlain(e: Info, time: int)
    ensures Plain(OneAttempt(e, time)) == OneAttempt(Plain(e), time) && OneAttempt(e, time).service == e.service
  {
  }

  // An attempt is noted in the entry of exactly this service, and nowhere else.
  lemma AttemptMeans(h: Hasher, b: Book, s: Service, time: int)
    requires Inv(h, b)
    ensures var v := See(b);
            See(Attempt(b, s, time))
            == if s.ip in v.entries && v.entries[s.ip].service == s then v.(entries := v.entries[s.ip := OneAttempt(v.entries[s.ip], time)])
               else v
  {
    ConsistentIsReadable(h, b, {}, {});
    FoundServiceSeen(b, s);
    AttemptIs(b, s, time);
    var found := FindService(b, s);
    hide Consistent, See, Readable, FindService, Attempt, OneAttempt, Plain;
    if found.Some? {
      OneAttemptIsPlain(b.info[found.value], time);
      UpdateSeen(b, found.value, OneAttempt(b.info[found.value], time));
    }
  }

  // A connection moves the time of exactly this service, when it is more than
  // twenty minutes later.
  lemma ConnectedMeans(h: Hasher, b: Book, s: Service, time: int)
    requires Inv(h, b)
    ensures var v := See(b);
            See(Connected(b, s, time))
            == if s.ip in v.entries && v.entries[s.ip].service == s && time - v.entries[s.ip].time > 1200 then
                 v.(entries := v.entries[s.ip := v.entries[s.ip].(time := time)])
               else v
  {
    ConsistentIsReadable(h, b, {}, {});
    FoundServiceSeen(b, s);
    var found := FindService(b, s);
    hide Consistent, See, Readable, FindService;
    if found.Some? {
      UpdateSeen(b, found.value, b.info[found.value].(time := time));
    }
  }

  // ----- marking an address good -----

  /** The entry leaves all its slots. */
  function Withdrawn(v: View, ip: NetAddr): View
  {
    if ip !in v.entries then v
    else View(v.entries[ip := v.entries[ip].(refCount := 0)], map s | s in v.news && v.news[s] != ip :: v.news[s], v.tried)
  }

  /** The entry of a tried slot goes back to its home slot in the new table, and whoever is there loses it. */
  function SentBack(h: Hasher, v: View, slot: Slot): View
  {
    if slot !in v.tried || v.tried[slot] !in v.entries then v
    else
      var ip := v.tried[slot];
      var e := v.entries[ip];
      var home := Home(h, e.service, e.source);
      var w := Dropped(View(v.entries[ip := e.(inTried := false)], v.news, v.tried - {slot}), home);
      View(w.entries[ip := e.(inTried := false, refCount := 1)], w.news[home := ip], w.tried)
  }

  /** The entry gets its one slot in the tried table. */
  function Promoted(h: Hasher, v: View, ip: NetAddr): View
  {
    if ip !in v.entries then v
    else
      var slot := TriedHome(h, v.entries[ip].service);
      var w := SentBack(h, Withdrawn(v, ip), slot);
      if ip !in w.entries then w
      else View(w.entries[ip := w.entries[ip].(inTried := true)], w.news, w.tried[slot := ip])
  }

  lemma {:induction false} UnlinkAllLeaves(h: Hasher, b: Book, id: int, n: nat)
    requires id in b.info
    ensures forall s :: s in b.newTable && b.newTable[s] != id ==>
              s in UnlinkAll(h, b, id, n).newTable && UnlinkAll(h, b, id, n).newTable[s] == b.newTable[s]
  {
    if n > 0 {
      UnlinkAllLeaves(h, b, id, n - 1);
    }
  }

  lemma FilteredTable(table: Table, table': Table, id: int)
    requires table'.Keys <= table.Keys && forall s :: s in table' ==> table'[s] == table[s] && table'[s] != id
    requires forall s :: s in table && table[s] != id ==> s in table'
    ensures table' == (map s | s in table && table[s] != id :: table[s])
  {
  }

  lemma {:induction false} UnlinkAllSame(h: Hasher, b: Book, id: int, n: nat)
    requires id in b.info
    ensures UnlinkAll(h, b, id, n).newTable.Keys <= b.newTable.Keys
    ensures forall s :: s in UnlinkAll(h, b, id, n).newTable ==> UnlinkAll(h, b, id, n).newTable[s] == b.newTable[s]
  {
    if n > 0 {
      UnlinkAllSame(h, b, id, n - 1);
    }
  }

  lemma UnlinkAllIs(h: Hasher, b: Book, id: int)
    requires Inv(h, b) && id in b.info && !b.info[id].inTried
    ensures var b1 := UnlinkAll(h, b, id, NEW_BUCKETS);
            && b1.info == b.info[id := b.info[id].(refCount := 0)]
            && b1.newTable == (map s | s in b.newTable && b.newTable[s] != id :: b.newTable[s])
            && b1.addr == b.addr && b1.triedTable == b.triedTable
            && Consistent(h, b1.(nNew := b1.nNew - 1), {id}, {id})
  {
    UnlinkedEverywhere(h, b, id);
    UnlinkAllLeaves(h, b, id, NEW_BUCKETS);
    UnlinkAllSame(h, b, id, NEW_BUCKETS);
    var b1 := UnlinkAll(h, b, id, NEW_BUCKETS);
    NothingHolds(h, b1.(nNew := b1.nNew - 1), id, {id}, {id});
    hide Consistent, UnlinkAll;
    FilteredTable(b.newTable, b1.newTable, id);
  }

  lemma SlotsFiltered(info: Infos, addr: map<NetAddr, int>, table: Table, id: int)
    requires AddrOk(info, addr) && id in info && forall s :: s in table ==> table[s] in info
    ensures var v := SlotsOf(info, table);
            SlotsOf(info, map s | s in table && table[s] != id :: table[s]) == (map s | s in v && v[s] != info[id].service.ip :: v[s])
  {
    forall s | s in table ensures table[s] != id <==> info[table[s]].service.ip != info[id].service.ip {
    }
  }

  lemma WithdrawnIs(v: View, ip: NetAddr, e: Info, news: map<Slot, NetAddr>)
    requires ip in v.entries && Plain(e) == v.entries[ip].(refCount := 0)
    requires news == (map s | s in v.news && v.news[s] != ip :: v.news[s])
    ensures Withdrawn(v, ip) == View(v.entries[ip := Plain(e)], news, v.tried)
  {
  }

  lemma WithdrawnParts(b: Book, b1: Book, id: int, e: Info)
    requires Readable(b) && id in b.info && e == b.info[id].(refCount := 0)
    requires b1.info == b.info[id := e] && b1.addr == b.addr && b1.triedTable == b.triedTable
    requires b1.newTable == (map s | s in b.newTable && b.newTable[s] != id :: b.newTable[s])
    ensures See(b1) == Withdrawn(See(b), b.info[id].service.ip)
  {
    SeenByAddr(b, id);
    SlotsFiltered(b.info, b.addr, b.newTable, id);
    SlotsSame(b.info, b1.info, b1.newTable);
    hide EntriesOf, SlotsOf, AddrOk, Withdrawn;
    UpdateSeen(b, id, e);
    WithdrawnIs(See(b), e.service.ip, e, See(b1).news);
  }

  lemma WithdrawnSeen(h: Hasher, b: Book, id: int)
    requires Inv(h, b) && id in b.info && !b.info[id].inTried
    ensures See(UnlinkAll(h, b, id, NEW_BUCKETS)) == Withdrawn(See(b), b.info[id].service.ip)
  {
    ConsistentIsReadable(h, b, {}, {});
    UnlinkAllIs(h, b, id);
    hide Consistent, See, UnlinkAll, Readable, Withdrawn;
    WithdrawnParts(b, UnlinkAll(h, b, id, NEW_BUCKETS), id, b.info[id].(refCount := 0));
  }

  lemma TakeOutSeen(b: Book, slot: Slot)
    requires Readable(b) && slot in b.triedTable
    ensures var e := b.info[b.triedTable[slot]].(inTried := false);
            && Readable(TakeOut(b, slot))
            && See(TakeOut(b, slot)) == View(See(b).entries[e.service.ip := Plain(e)], See(b).news, See(b).tried - {slot})
  {
    var e := b.info[b.triedTable[slot]].(inTried := false);
    UpdateReadable(b, b.triedTable[slot], e);
    hide AddrOk, EntriesOf, SlotsOf, Plain;
    UpdateSeen(b, b.triedTable[slot], e);
    SlotsWithout(b.info[b.triedTable[slot] := e], b.triedTable, slot);
  }

  /** What `Evict` does when its slot is taken. */
  lemma EvictIs(h: Hasher, b: Book, slot: Slot, id: int)
    requires Consistent(h, b, {id}, {id}) && id in b.info && b.info[id].refCount == 0 && slot in b.triedTable
    ensures b.triedTable[slot] in b.info
    ensures var o := b.triedTable[slot];
            var b1, target := TakeOut(b, slot), EvictedSlot(h, b.info[o]);
            && o in b1.info && Consistent(h, b1, {id} + {o}, {id} + {o})
            && (target in b1.newTable ==> b1.newTable[target] !in {id} + {o})
            && CanClearNew(b1, target) && o in ClearNew(b1, target).info
            && ClearNew(b1, target).info[o].refCount == 0 && ClearNew(b1, target).info[o].service == b.info[o].service
            && Consistent(h, ClearNew(b1, target), {id} + {o}, {id} + {o})
            && CanEvict(h, b, slot)
            && Evict(h, b, slot) == Link(ClearNew(b1, target), target, o).(nNew := ClearNew(b1, target).nNew + 1)
  {
    hide RandomOk, AddrOk, IdsOk, TriedOk, CountsOk, RefsOk, NewOk;
    TakeOutKeeps(h, b, slot, {id}, {id});
    var o := b.triedTable[slot];
    var target := EvictedSlot(h, b.info[o]);
    UncountedIsNew(b, id, {id});
    NoRefsNotInTable(h, b, id, {id});
    ClearNewKeeps(h, TakeOut(b, slot), target, {id} + {o}, {id} + {o});
    assert SameEntry(TakeOut(b, slot).info[o], ClearNew(TakeOut(b, slot), target).info[o]);
  }

  lemma CountersUnseen(b: Book, n: int)
    ensures See(b.(nNew := n)) == See(b)
  {
  }

  lemma HomeOfEvicted(h: Hasher, e: Info)
    ensures EvictedSlot(h, e) == Home(h, Plain(e).service, Plain(e).source)
  {
  }

  lemma SentBackIs(h: Hasher, v: View, slot: Slot, ip: NetAddr, e: Info, w: View)
    requires slot in v.tried && v.tried[slot] == ip && ip in v.entries && v.entries[ip] == e && e.refCount == 0
    requires var home := Home(h, e.service, e.source);
             w == Dropped(View(v.entries[ip := e.(inTried := false)], v.news, v.tried - {slot}), home)
    requires var home := Home(h, e.service, e.source); home in v.news ==> v.news[home] != ip
    ensures Entered(w, Home(h, e.service, e.source), ip) == SentBack(h, v, slot)
  {
    hide Home;
  }

  lemma SentBackSeen(h: Hasher, b: Book, slot: Slot, id: int)
    requires Consistent(h, b, {id}, {id}) && id in b.info && b.info[id].refCount == 0
    ensures CanEvict(h, b, slot) && See(Evict(h, b, slot)) == SentBack(h, See(b), slot)
  {
    ConsistentIsReadable(h, b, {id}, {id});
    SeenInSlot(b, slot);
    if slot in b.triedTable {
      EvictIs(h, b, slot, id);
      var o := b.triedTable[slot];
      var b1, target := TakeOut(b, slot), EvictedSlot(h, b.info[o]);
      var b2 := ClearNew(b1, target);
      TakeOutKeeps(h, b, slot, {id}, {id});
      SeenByAddr(b, o);
      HeldSeen(b, target, o);
      HomeOfEvicted(h, b.info[o]);
      TakeOutSeen(b, slot);
      hide Consistent, See, Readable, TakeOut, ClearNew, CanClearNew, Evict, CanEvict, EvictedSlot, Link, Home, Dropped, Entered, SentBack;
      ClearNewSeen(h, b1, target, {id} + {o}, {id} + {o});
      ConsistentIsReadable(h, b2, {id} + {o}, {id} + {o});
      LinkSeen(b2, target, o);
      CountersUnseen(Link(b2, target, o), b2.nNew + 1);
      SentBackIs(h, See(b), slot, b.info[o].service.ip, Plain(b.info[o]), See(b2));
    } else {
      hide Consistent, See, Readable;
    }
  }

  lemma PutInTriedSeen(b: Book, slot: Slot, id: int)
    requires Readable(b) && id in b.info
    ensures var ip, v := b.info[id].service.ip, See(b);
            ip in v.entries &&
            See(PutInTried(b, slot, id)) == View(v.entries[ip := v.entries[ip].(inTried := true)], v.news, v.tried[slot := ip])
  {
    SeenByAddr(b, id);
    var e := b.info[id].(inTried := true);
    assert Plain(e) == Plain(b.info[id]).(inTried := true);
    hide Readable, EntriesOf, SlotsOf, Plain;
    UpdateSeen(b, id, e);
    SlotsWith(b.info[id := e], b.triedTable, slot, id);
  }

  lemma TriedSlotIsHome(h: Hasher, s: Service)
    ensures TriedSlot(h, s) == TriedHome(h, s)
  {
  }

  /** `b2` is what is left when an entry was withdrawn from the new table, and out of the count. */
  lemma WithdrawnBook(h: Hasher, b: Book, id: int, b1: Book, b2: Book)
    requires Inv(h, b) && id in b.info && !b.info[id].inTried
    requires b1 == UnlinkAll(h, b, id, NEW_BUCKETS) && b2 == b1.(nNew := b1.nNew - 1)
    ensures Consistent(h, b2, {id}, {id}) && See(b2) == Withdrawn(See(b), b.info[id].service.ip)
    ensures id in b2.info && b2.info[id].refCount == 0 && b2.info[id].service == b.info[id].service
  {
    UnlinkAllIs(h, b, id);
    WithdrawnSeen(h, b, id);
    CountersUnseen(b1, b1.nNew - 1);
    hide Consistent, See, UnlinkAll, Withdrawn;
  }

  lemma MovedSeen(h: Hasher, b: Book, slot: Slot, id: int, s: Service)
    requires Consistent(h, b, {id}, {id}) && id in b.info && b.info[id].refCount == 0 && b.info[id].service == s
    ensures CanEvict(h, b, slot) && id in Evict(h, b, slot).info
    ensures var w := SentBack(h, See(b), slot);
            && s.ip in w.entries
            && See(PutInTried(Evict(h, b, slot), slot, id)) == View(w.entries[s.ip := w.entries[s.ip].(inTried := true)], w.news, w.tried[slot := s.ip])
  {
    EvictKeeps(h, b, slot, id);
    SentBackSeen(h, b, slot, id);
    ConsistentIsReadable(h, Evict(h, b, slot), {id}, {id});
    hide Consistent, See, Readable, Evict, CanEvict, PutInTried, SentBack;
    PutInTriedSeen(Evict(h, b, slot), slot, id);
  }

  lemma PromotedIs(h: Hasher, v: View, ip: NetAddr, s: Service)
    requires ip in v.entries && v.entries[ip].service == s
    ensures var slot := TriedHome(h, s);
            var w := SentBack(h, Withdrawn(v, ip), slot);
            ip in w.entries ==> Promoted(h, v, ip) == View(w.entries[ip := w.entries[ip].(inTried := true)], w.news, w.tried[slot := ip])
  {
    hide SentBack, Withdrawn, TriedHome;
  }

  lemma MakeTriedIs(h: Hasher, b: Book, id: int, b1: Book, b2: Book, slot: Slot)
    requires CanMakeTried(h, b, id) && b1 == UnlinkAll(h, b, id, NEW_BUCKETS) && b2 == b1.(nNew := b1.nNew - 1)
    requires slot == TriedSlot(h, b.info[id].service) && CanEvict(h, b2, slot) && id in Evict(h, b2, slot).info
    ensures MakeTried(h, b, id) == PutInTried(Evict(h, b2, slot), slot, id)
  {
    hide UnlinkAll, CanEvict, Evict, TriedSlot, PutInTried;
  }

  lemma PromotedSeen(h: Hasher, b: Book, id: int)
    requires Inv(h, b) && id in b.info && !b.info[id].inTried && b.info[id].lastSuccess != 0
    ensures CanMakeTried(h, b, id) && See(MakeTried(h, b, id)) == Promoted(h, See(b), b.info[id].service.ip)
  {
    ConsistentIsReadable(h, b, {}, {});
    var s := b.info[id].service;
    TriedSlotIsHome(h, s);
    SeenByAddr(b, id);
    assert See(b).entries[s.ip].service == s;
    hide *;
    MakeTriedKeeps(h, b, id);
    var b1, slot := UnlinkAll(h, b, id, NEW_BUCKETS), TriedSlot(h, s);
    var b2 := b1.(nNew := b1.nNew - 1);
    WithdrawnBook(h, b, id, b1, b2);
    MovedSeen(h, b2, slot, id, s);
    MakeTriedIs(h, b, id, b1, b2, slot);
    PromotedIs(h, See(b), s.ip, s);
  }

  // Marking a service good: its entry notes the success; an untried one leaves the
  // new table for its slot in the tried table, whose entry goes back to the new one.
  lemma GoodMeans(h: Hasher, b: Book, s: Service, time: int)
    requires Inv(h, b) && time != 0
    ensures CanGood(h, b, s, time)
    ensures var v := See(b);
            See(Good(h, b, s, time))
            == if s.ip in v.entries && v.entries[s.ip].service == s then
                 var v1 := v.(entries := v.entries[s.ip := v.entries[s.ip].(lastSuccess := time, lastTry := time, attempts := 0)]);
                 if v.entries[s.ip].inTried then v1 else Promoted(h, v1, s.ip)
               else v
  {
    GoodKeeps(h, b, s, time);
    ConsistentIsReadable(h, b, {}, {});
    FoundServiceSeen(b, s);
    var found := FindService(b, s);
    if found.Some? {
      var id := found.value;
      var e := b.info[id].(lastSuccess := time, lastTry := time, attempts := 0);
      TouchKeeps(h, b, id, e, {}, {});
      UpdateSeen(b, id, e);
      hide Consistent, See, Readable, MakeTried, CanMakeTried, Promoted, InSomeBucket;
      if !b.info[id].inTried {
        UntriedIsInSomeBucket(h, MarkGood(b, id, time), id);
        PromotedSeen(h, MarkGood(b, id, time), id);
      }
    } else {
      hide Consistent, See, Readable;
    }
  }

  // ----- handing out addresses -----

  /** The entries worth handing out. */
  ghost function Fine(info: Infos, now: int): set<int>
  {
    set id | id in info && !Stale(info[id], now)
  }

  /** All of them in the first `n` places are among `out`. */
  ghost predicate TakesFine(b: Book, n: nat, out: seq<int>, now: int)
  {
    forall id :: id in b.info && b.info[id].randomPos < n && !Stale(b.info[id], now) ==> id in out
  }

  lemma PlaceHolder(b: Book, n: nat, id: int)
    requires RandomOk(b.info, b.random) && id in b.info && b.info[id].randomPos == n < |b.random|
    ensures b.random[n] == id
  {
  }

  lemma RandomPlaces(b: Book, id: int)
    requires RandomOk(b.info, b.random) && id in b.info
    ensures 0 <= b.info[id].randomPos < |b.random|
  {
  }

  lemma OneMoreTaken(b: Book, b1: Book, n: nat, out: seq<int>, now: int)
    requires RandomOk(b1.info, b1.random) && n < |b1.random| && TakesFine(b, n, out, now) && b1.random[n] in b1.info
    requires forall id :: id in b1.info && b1.info[id].randomPos < n ==> id in b.info && b1.info[id] == b.info[id]
    ensures TakesFine(b1, n + 1, if IsTerrible(b1.info[b1.random[n]], now) then out else out + [b1.random[n]], now)
  {
    TerribleIsStale(b1.info[b1.random[n]], now);
    hide IsTerrible, Stale, RandomOk;
    forall id | id in b1.info && b1.info[id].randomPos < n + 1 && !Stale(b1.info[id], now)
      ensures id in if IsTerrible(b1.info[b1.random[n]], now) then out else out + [b1.random[n]]
    {
      RandomPlaces(b1, id);
      if b1.info[id].randomPos == n {
        PlaceHolder(b1, n, id);
      }
    }
  }

  // Entries before place `n` stand there also before the swap.
  lemma SwapKeepsEarlier(b: Book, n: nat, k: nat)
    requires RandomOk(b.info, b.random) && n <= k < |b.random|
    ensures b.random[n] in b.info && b.random[k] in b.info
    ensures var b1 := SwapRandom(b, n, k);
            forall id :: id in b1.info && b1.info[id].randomPos < n ==> id in b.info && b1.info[id] == b.info[id]
  {
  }

  lemma RandomOfConsistent(h: Hasher, b: Book)
    requires Inv(h, b)
    ensures RandomOk(b.info, b.random)
  {
  }

  lemma TakesNext(b: Book, n: nat, out: seq<int>, rnd: nat -> nat, now: int)
    requires RandomOk(b.info, b.random) && n < |b.random| && TakesFine(b, n, out, now)
    ensures CanShuffle(b)
    ensures var b1 := PickNext(b, n, rnd);
            && b1.random != [] && n < |b1.random| && b1.random[n] in b1.info
            && TakesFine(b1, n + 1, if IsTerrible(b1.info[b1.random[n]], now) then out else out + [b1.random[n]], now)
  {
    PickBounds(b, n, rnd);
    SwapKeepsEarlier(b, n, Pick(b, n, rnd));
    SwapRandomOk(b, n, Pick(b, n, rnd));
    hide TakesFine, IsTerrible;
    OneMoreTaken(b, PickNext(b, n, rnd), n, out, now);
  }

  lemma Shufflable(b: Book)
    requires RandomOk(b.info, b.random)
    ensures CanShuffle(b)
  {
  }

  lemma {:induction false} GetAddrFromTakesFine(h: Hasher, b: Book, n: nat, out: seq<int>, limit: nat, rnd: nat -> nat, now: int)
    requires Inv(h, b) && CanShuffle(b) && |out| <= limit && n <= |b.random|
    requires Picked(b, n, out, now) && TakesFine(b, n, out, now)
    ensures var (b', out') := GetAddrFrom(b, n, out, limit, rnd, now);
            |out'| == limit || TakesFine(b', |b'.random|, out', now)
    decreases |b.random| - n
  {
    hide AddrOk, IdsOk, TriedOk, CountsOk, RefsOk, NewOk, RandomOk, Picked, TakesFine, SameEntries, IsTerrible, SwapRandom, Pick;
    if n < |b.random| && |out| < limit {
      PickBounds(b, n, rnd);
      var b1 := PickNext(b, n, rnd);
      SwapRandomKeeps(h, b, n, Pick(b, n, rnd), {}, {});
      PickedNext(b, n, out, rnd, now);
      TakesNext(b, n, out, rnd, now);
      RandomOfConsistent(h, b1);
      Shufflable(b1);
      var out1 := if IsTerrible(b1.info[b1.random[n]], now) then out else out + [b1.random[n]];
      GetAddrFromTakesFine(h, b1, n + 1, out1, limit, rnd, now);
    }
  }

  lemma StaleSame(e: Info, e': Info, now: int)
    requires SameEntry(e, e')
    ensures Stale(e, now) <==> Stale(e', now)
  {
  }

  lemma FineSame(info: Infos, info': Infos, now: int)
    requires SameEntries(info, info')
    ensures Fine(info, now) == Fine(info', now)
  {
    forall id | id in info ensures Stale(info[id], now) <==> Stale(info'[id], now) {
      StaleSame(info[id], info'[id], now);
    }
    hide Stale, SameEntry;
  }

  lemma {:induction false} DistinctCount(s: seq<int>, keys: set<int>)
    requires (forall i, j :: 0 <= i < j < |s| ==> s[i] != s[j]) && forall i :: 0 <= i < |s| ==> s[i] in keys
    ensures |s| <= |keys|
    ensures (forall x :: x in keys ==> x in s) ==> |s| == |keys|
  {
    if s != [] {
      var k := |s| - 1;
      assert s == s[..k] + [s[k]];
      DistinctCount(s[..k], keys - {s[k]});
      assert |keys| == |keys - {s[k]}| + 1;
      if forall x :: x in keys ==> x in s {
        forall x | x in keys - {s[k]} ensures x in s[..k] {
          assert x in s;
        }
      }
    } else if forall x :: x in keys ==> x in s {
      assert keys == {};
    }
  }

  lemma PickedAreFine(b: Book, out: seq<int>, now: int)
    requires Picked(b, |b.random|, out, now)
    ensures forall i :: 0 <= i < |out| ==> out[i] in Fine(b.info, now)
    ensures forall i, j :: 0 <= i < j < |out| ==> out[i] != out[j]
  {
    forall i | 0 <= i < |out| ensures out[i] in Fine(b.info, now) {
      TerribleIsStale(b.info[out[i]], now);
    }
  }

  lemma AllFineTaken(b: Book, out: seq<int>, now: int)
    requires RandomOk(b.info, b.random) && TakesFine(b, |b.random|, out, now)
    ensures forall id :: id in Fine(b.info, now) ==> id in out
  {
  }

  lemma NothingTaken(b: Book, now: int)
    requires RandomOk(b.info, b.random)
    ensures Picked(b, 0, [], now) && TakesFine(b, 0, [], now)
  {
  }

  // Main result on handing out: different fine entries, and as many as there are up
  // to 23 percent of all and 2500; entries and tables stay as they are.
  lemma GetAddrMeans(h: Hasher, b: Book, rnd: nat -> nat, now: int)
    requires Inv(h, b)
    ensures CanShuffle(b)
    ensures var (b', out) := GetAddr(b, rnd, now);
            && |out| == Min(Min(23 * |b.info.Keys| / 100, 2500), |Fine(b.info, now)|)
            && (forall i :: 0 <= i < |out| ==> out[i] in Fine(b.info, now))
            && (forall i, j :: 0 <= i < j < |out| ==> out[i] != out[j])
            && SameEntries(b.info, b'.info)
  {
    GetAddrKeeps(h, b, rnd, now);
    RandomOfConsistent(h, b);
    RandomListsKeys(b.info, b.random);
    NothingTaken(b, now);
    GetAddrFromTakesFine(h, b, 0, [], GetAddrLimit(b), rnd, now);
    var (b', out) := GetAddr(b, rnd, now);
    RandomOfConsistent(h, b');
    FineSame(b.info, b'.info, now);
    hide Consistent, RandomOk, Picked, TakesFine, Fine, SameEntries, GetAddrFrom, CanShuffle;
    PickedAreFine(b', out, now);
    DistinctCount(out, Fine(b.info, now));
    if |out| != GetAddrLimit(b) {
      AllFineTaken(b', out, now);
    }
  }

  // ----- the self-check -----

  predicate Held(h: Hasher, b: Book, id: int, k: nat)
  {
    id in b.info && NewPlace(h, k, b.info[id].service) in b.newTable && b.newTable[NewPlace(h, k, b.info[id].service)] == id
  }

  /** The buckets of the new table that hold an entry. */
  ghost function HeldAt(h: Hasher, b: Book, id: int): set<nat>
  {
    set k: nat | k < 1024 && Held(h, b, id, k)
  }

  lemma BucketsAreHeld(h: Hasher, b: Book, id: int)
    requires id in b.info
    ensures Buckets(h, b.info[id].service, b.newTable, id) == HeldAt(h, b, id)
  {
  }

  lemma EntryChecks(h: Hasher, b: Book, id: int)
    requires Inv(h, b) && id in b.info
    ensures b.info[id].inTried ==> b.info[id].refCount == 0
    ensures !b.info[id].inTried ==> 1 <= b.info[id].refCount <= 8
    ensures b.info[id].refCount == |HeldAt(h, b, id)|
  {
    assert RefOk(h, b.info[id], b.newTable, id, {});
    BucketsAreHeld(h, b, id);
    if b.info[id].inTried {
      TriedHasNoRefs(h, b, id, {});
    }
    hide Buckets, HeldAt;
  }

  // What `check_` looks for, in its own terms, is never found wrong.
  lemma SelfCheckFindsNothing(h: Hasher, b: Book)
    requires Inv(h, b)
    ensures |b.random| == b.nTried + b.nNew
    ensures forall id :: id in b.info ==>
              var e := b.info[id];
              && (e.inTried ==> e.lastSuccess != 0 && e.refCount == 0)
              && (!e.inTried ==> 1 <= e.refCount <= 8)
              && e.service.ip in b.addr && b.addr[e.service.ip] == id
              && 0 <= e.randomPos < |b.random| && b.random[e.randomPos] == id
    ensures |set id | id in b.info && b.info[id].inTried| == b.nTried && |set id | id in b.info && !b.info[id].inTried| == b.nNew
    ensures forall s :: s in b.triedTable ==>
              && b.triedTable[s] in b.info && b.info[b.triedTable[s]].inTried
              && s == TriedHome(h, b.info[b.triedTable[s]].service)
    ensures forall id :: id in b.info && b.info[id].inTried ==>
              TriedHome(h, b.info[id].service) in b.triedTable && b.triedTable[TriedHome(h, b.info[id].service)] == id
    ensures forall s :: s in b.newTable ==>
              && b.newTable[s] in b.info && !b.info[b.newTable[s]].inTried
              && s.bucket < 1024 && s == NewPlace(h, s.bucket, b.info[b.newTable[s]].service)
    ensures forall id :: id in b.info ==>
              b.info[id].refCount == |HeldAt(h, b, id)|
  {
    RandomListsBothClasses(h, b);
    assert NewIds(b.info) == set id | id in b.info && !b.info[id].inTried;
    assert TriedIds(b.info) == set id | id in b.info && b.info[id].inTried;
    hide Buckets, RefsOk, HeldAt;
    forall id | id in b.info
      ensures b.info[id].inTried ==> b.info[id].refCount == 0
      ensures !b.info[id].inTried ==> 1 <= b.info[id].refCount <= 8
      ensures b.info[id].refCount == |HeldAt(h, b, id)|
    {
      EntryChecks(h, b, id);
    }
  }
}
