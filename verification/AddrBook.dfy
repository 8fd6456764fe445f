// The tables of the address manager as one value, what each of its operations
// does to them, and the consistency that `check_` looks for.
module AddrBook {
  import opened Wrappers
  import opened Basics

  type NetAddr = nat

  datatype Service = Service(ip: NetAddr, port: nat)

  /** An address as peers announce it. */
  datatype Address = Address(service: Service, services: set<nat>, time: int)

  datatype Info = Info(service: Service, services: set<nat>, time: int, source: NetAddr,
                       lastTry: int, lastSuccess: int, attempts: int,
                       refCount: int, inTried: bool, randomPos: int)

  const NEW_BUCKETS := 1024
  const TRIED_BUCKETS := 256
  const BUCKET_SIZE := 64
  const NEW_BUCKETS_PER_ADDRESS := 8

  /** The keyed hashes, before they are reduced to a bucket or a position. */
  datatype Hasher = Hasher(tried: Service -> nat, fromSource: (NetAddr, NetAddr) -> nat, position: (bool, nat, Service) -> nat)

  datatype Slot = Slot(bucket: nat, pos: nat)

  type Table = map<Slot, int>

  function TriedBucket(h: Hasher, s: Service): nat
  {
    h.tried(s) % TRIED_BUCKETS
  }

  function NewBucket(h: Hasher, s: Service, source: NetAddr): nat
  {
    h.fromSource(s.ip, source) % NEW_BUCKETS
  }

  function Position(h: Hasher, isNew: bool, bucket: nat, s: Service): nat
  {
    h.position(isNew, bucket, s) % BUCKET_SIZE
  }

  function NewSlot(h: Hasher, bucket: nat, s: Service): Slot
  {
    Slot(bucket, Position(h, true, bucket, s))
  }

  function TriedSlot(h: Hasher, s: Service): Slot
  {
    Slot(TriedBucket(h, s), Position(h, false, TriedBucket(h, s), s))
  }

  type Infos = map<int, Info>

  datatype Book = Book(info: Infos, addr: map<NetAddr, int>, random: seq<int>,
                       newTable: Table, triedTable: Table, nNew: int, nTried: int, idCount: int)

  const EMPTY := Book(map[], map[], [], map[], map[], 0, 0, 0)

  // ----- consistency -----

  /** `random` lists every id once, and each entry knows its place. */
  ghost predicate RandomOk(info: Infos, random: seq<int>)
  {
    && (forall id :: id in info ==> 0 <= info[id].randomPos < |random| && random[info[id].randomPos] == id)
    && (forall i :: 0 <= i < |random| ==> random[i] in info && info[random[i]].randomPos == i)
  }

  /** `addr` finds each entry by its network address. */
  ghost predicate AddrOk(info: Infos, addr: map<NetAddr, int>)
  {
    && (forall id :: id in info ==> info[id].service.ip in addr && addr[info[id].service.ip] == id)
    && (forall a :: a in addr ==> addr[a] in info && info[addr[a]].service.ip == a)
  }

  /** The new table holds untried entries, each at its hashed position of some bucket. */
  ghost predicate NewOk(h: Hasher, info: Infos, table: Table)
  {
    forall s :: s in table ==>
      && table[s] in info && !info[table[s]].inTried
      && s.bucket < NEW_BUCKETS && s == NewSlot(h, s.bucket, info[table[s]].service)
  }

  /** The buckets of the new table that hold `id`. */
  ghost function Buckets(h: Hasher, service: Service, table: Table, id: int): set<nat>
  {
    set b: nat | b < NEW_BUCKETS && NewSlot(h, b, service) in table && table[NewSlot(h, b, service)] == id
  }

  ghost predicate RefOk(h: Hasher, e: Info, table: Table, id: int, loose: set<int>)
  {
    && e.refCount == |Buckets(h, e.service, table, id)| <= NEW_BUCKETS_PER_ADDRESS
    && (!e.inTried && id !in loose ==> e.refCount >= 1)
  }

  /** Reference counts are exact; untried entries have between one and eight, except those in `loose`. */
  ghost predicate RefsOk(h: Hasher, info: Infos, table: Table, loose: set<int>)
  {
    forall id :: id in info ==> RefOk(h, info[id], table, id, loose)
  }

  /** The tried table holds exactly the tried entries, each in its one slot. */
  ghost predicate TriedOk(h: Hasher, info: Infos, table: Table)
  {
    && (forall s :: s in table ==> table[s] in info && info[table[s]].inTried && s == TriedSlot(h, info[table[s]].service))
    && (forall id :: id in info && info[id].inTried ==>
          TriedSlot(h, info[id].service) in table && table[TriedSlot(h, info[id].service)] == id)
    && (forall id :: id in info && info[id].inTried ==> info[id].lastSuccess != 0)
  }

  ghost function NewIds(info: Infos): set<int>
  {
    set id | id in info && !info[id].inTried
  }

  ghost function TriedIds(info: Infos): set<int>
  {
    set id | id in info && info[id].inTried
  }

  /** The two counters; `uncounted` untried entries are not in the first. */
  ghost predicate CountsOk(info: Infos, nNew: int, nTried: int, uncounted: set<int>)
  {
    && uncounted <= NewIds(info)
    && nNew == |NewIds(info)| - |uncounted|
    && nTried == |TriedIds(info)|
  }

  ghost predicate IdsOk(info: Infos, idCount: int)
  {
    0 <= idCount && forall id :: id in info ==> 0 <= id < idCount
  }

  ghost predicate Consistent(h: Hasher, b: Book, loose: set<int>, uncounted: set<int>)
  {
    && RandomOk(b.info, b.random)
    && AddrOk(b.info, b.addr)
    && NewOk(h, b.info, b.newTable)
    && RefsOk(h, b.info, b.newTable, loose)
    && TriedOk(h, b.info, b.triedTable)
    && CountsOk(b.info, b.nNew, b.nTried, uncounted)
    && IdsOk(b.info, b.idCount)
  }

  ghost predicate Inv(h: Hasher, b: Book)
  {
    Consistent(h, b, {}, {})
  }

  lemma EmptyInv(h: Hasher)
    ensures Inv(h, EMPTY)
  {
  }

  // ----- the operations -----

  function Create(b: Book, a: Address, source: NetAddr): Book
  {
    var id := b.idCount;
    b.(idCount := id + 1,
       info := b.info[id := Info(a.service, a.services, a.time, source, 0, 0, 0, 0, false, |b.random|)],
       addr := b.addr[a.service.ip := id],
       random := b.random + [id])
  }

  function SwapRandom(b: Book, i: int, j: int): Book
    requires 0 <= i < |b.random| && 0 <= j < |b.random|
    requires b.random[i] in b.info && b.random[j] in b.info
  {
    if i == j then b
    else
      var id1, id2 := b.random[i], b.random[j];
      var info1 := b.info[id1 := b.info[id1].(randomPos := j)];
      b.(info := info1[id2 := info1[id2].(randomPos := i)], random := b.random[i := id2][j := id1])
  }

  /** The asserts of `delete` and of the swap it makes. */
  predicate CanDelete(b: Book, id: int)
  {
    && id in b.info && !b.info[id].inTried && b.info[id].refCount == 0
    && 0 <= b.info[id].randomPos < |b.random|
    && b.random[b.info[id].randomPos] in b.info && b.random[|b.random| - 1] in b.info
  }

  function Delete(b: Book, id: int): Book
    requires CanDelete(b, id)
  {
    var b1 := SwapRandom(b, b.info[id].randomPos, |b.random| - 1);
    b1.(random := b1.random[..|b1.random| - 1], addr := b1.addr - {b.info[id].service.ip},
        info := b1.info - {id}, nNew := b1.nNew - 1)
  }

  /** The entry of a slot of the new table loses one reference. */
  function Unlink(b: Book, slot: Slot): Book
    requires slot in b.newTable && b.newTable[slot] in b.info
  {
    var id := b.newTable[slot];
    b.(info := b.info[id := b.info[id].(refCount := b.info[id].refCount - 1)], newTable := b.newTable - {slot})
  }

  function Link(b: Book, slot: Slot, id: int): Book
    requires id in b.info
  {
    b.(info := b.info[id := b.info[id].(refCount := b.info[id].refCount + 1)], newTable := b.newTable[slot := id])
  }

  predicate CanClearNew(b: Book, slot: Slot)
  {
    slot in b.newTable ==>
      var id := b.newTable[slot];
      && id in b.info && b.info[id].refCount > 0
      && (b.info[id].refCount == 1 ==> CanDelete(Unlink(b, slot), id))
  }

  function ClearNew(b: Book, slot: Slot): Book
    requires CanClearNew(b, slot)
  {
    if slot !in b.newTable then b
    else
      var id := b.newTable[slot];
      var b1 := Unlink(b, slot);
      if b1.info[id].refCount == 0 then Delete(b1, id) else b1
  }

  /** Removes `id` from the first `n` buckets of the new table. */
  function UnlinkAll(h: Hasher, b: Book, id: int, n: nat): (r: Book)
    requires id in b.info
    ensures id in r.info && r.info[id].service == b.info[id].service
    ensures r == b.(info := b.info[id := b.info[id].(refCount := r.info[id].refCount)], newTable := r.newTable)
  {
    if n == 0 then b
    else
      var b1 := UnlinkAll(h, b, id, n - 1);
      var slot := NewSlot(h, n - 1, b.info[id].service);
      if slot in b1.newTable && b1.newTable[slot] == id then Unlink(b1, slot) else b1
  }

  function EvictedSlot(h: Hasher, e: Info): Slot
  {
    NewSlot(h, NewBucket(h, e.service, e.source), e.service)
  }

  /** The entry of a tried slot is no longer tried. */
  function TakeOut(b: Book, slot: Slot): Book
    requires slot in b.triedTable && b.triedTable[slot] in b.info
  {
    var old_ := b.triedTable[slot];
    b.(info := b.info[old_ := b.info[old_].(inTried := false)], triedTable := b.triedTable - {slot}, nTried := b.nTried - 1)
  }

  predicate CanEvict(h: Hasher, b: Book, slot: Slot)
  {
    slot in b.triedTable ==>
      && b.triedTable[slot] in b.info
      && var b1 := TakeOut(b, slot);
         var target := EvictedSlot(h, b.info[b.triedTable[slot]]);
         CanClearNew(b1, target) && b.triedTable[slot] in ClearNew(b1, target).info
  }

  /** Makes room in a tried slot: its entry goes back to the new table, clearing whatever is there. */
  function Evict(h: Hasher, b: Book, slot: Slot): Book
    requires CanEvict(h, b, slot)
  {
    if slot !in b.triedTable then b
    else
      var evicted := b.triedTable[slot];
      var target := EvictedSlot(h, b.info[evicted]);
      var b2 := ClearNew(TakeOut(b, slot), target);
      b2.(info := b2.info[evicted := b2.info[evicted].(refCount := 1)],
          newTable := b2.newTable[target := evicted], nNew := b2.nNew + 1)
  }

  function PutInTried(b: Book, slot: Slot, id: int): Book
    requires id in b.info
  {
    b.(info := b.info[id := b.info[id].(inTried := true)], triedTable := b.triedTable[slot := id], nTried := b.nTried + 1)
  }

  /** The asserts of `maketried`. */
  predicate CanMakeTried(h: Hasher, b: Book, id: int)
  {
    id in b.info &&
    var b1 := UnlinkAll(h, b, id, NEW_BUCKETS);
    var b2 := b1.(nNew := b1.nNew - 1);
    var slot := TriedSlot(h, b.info[id].service);
    b1.info[id].refCount == 0 && CanEvict(h, b2, slot) && id in Evict(h, b2, slot).info
  }

  function MakeTried(h: Hasher, b: Book, id: int): Book
    requires CanMakeTried(h, b, id)
  {
    var b1 := UnlinkAll(h, b, id, NEW_BUCKETS);
    var slot := TriedSlot(h, b.info[id].service);
    PutInTried(Evict(h, b1.(nNew := b1.nNew - 1), slot), slot, id)
  }

  /** The id of an address, if it is known; entries are found by network address only. */
  function Find(b: Book, ip: NetAddr): Option<int>
  {
    if ip in b.addr && b.addr[ip] in b.info then Some(b.addr[ip]) else None
  }

  /** The id of exactly this service, port included. */
  function FindService(b: Book, s: Service): Option<int>
  {
    var found := Find(b, s.ip);
    if found.Some? && b.info[found.value].service == s then found else None
  }

  predicate HoldsAt(h: Hasher, b: Book, id: int, n: nat)
    requires id in b.info
  {
    NewSlot(h, n, b.info[id].service) in b.newTable && b.newTable[NewSlot(h, n, b.info[id].service)] == id
  }

  predicate InSomeBucket(h: Hasher, b: Book, id: int)
    requires id in b.info
  {
    exists n: nat :: n < NEW_BUCKETS && HoldsAt(h, b, id, n)
  }

  function MarkGood(b: Book, id: int, time: int): Book
    requires id in b.info
  {
    b.(info := b.info[id := b.info[id].(lastSuccess := time, lastTry := time, attempts := 0)])
  }

  predicate CanGood(h: Hasher, b: Book, s: Service, time: int)
  {
    var found := FindService(b, s);
    found.Some? && !b.info[found.value].inTried ==>
      var b1 := MarkGood(b, found.value, time);
      InSomeBucket(h, b1, found.value) ==> CanMakeTried(h, b1, found.value)
  }

  function Good(h: Hasher, b: Book, s: Service, time: int): Book
    requires CanGood(h, b, s, time)
  {
    var found := FindService(b, s);
    if found.None? then b
    else
      var id := found.value;
      var b1 := MarkGood(b, id, time);
      if b.info[id].inTried || !InSomeBucket(h, b1, id) then b1 else MakeTried(h, b1, id)
  }

  function Attempt(b: Book, s: Service, time: int): Book
  {
    var found := FindService(b, s);
    if found.None? then b
    else
      var e := b.info[found.value];
      b.(info := b.info[found.value := e.(lastTry := time, attempts := e.attempts + 1)])
  }

  function Connected(b: Book, s: Service, time: int): Book
  {
    var found := FindService(b, s);
    if found.None? || time - b.info[found.value].time <= 20 * 60 then b
    else b.(info := b.info[found.value := b.info[found.value].(time := time)])
  }

  /** What the outside world decides while an address is added. */
  datatype Chance = Chance(routable: bool, now: int, lucky: bool)

  const DAY := 24 * 60 * 60
  const HORIZON_DAYS := 30
  const RETRIES := 3
  const MAX_FAILURES := 10
  const MIN_FAIL_DAYS := 7

  predicate IsTerrible(e: Info, now: int)
  {
    if e.lastTry != 0 && e.lastTry >= now - 60 then false
    else if e.time > now + 10 * 60 then true
    else if e.time == 0 || now - e.time > HORIZON_DAYS * DAY then true
    else if e.lastSuccess == 0 && e.attempts >= RETRIES then true
    else now - e.lastSuccess > MIN_FAIL_DAYS * DAY && e.attempts >= MAX_FAILURES
  }

  /** Time and services of a known entry are updated from an announcement. */
  function Refresh(e: Info, a: Address, penalty: int, now: int): Info
  {
    var interval := if now - a.time < DAY then 60 * 60 else DAY;
    var time := if a.time != 0 && (e.time == 0 || e.time < a.time - interval - penalty) then Max(0, a.time - penalty) else e.time;
    e.(time := time, services := e.services + a.services)
  }

  /** Nothing more is done for a known entry. */
  predicate AddStops(e: Info, a: Address, lucky: bool)
  {
    || a.time == 0 || (e.time != 0 && a.time <= e.time)
    || e.inTried
    || e.refCount == NEW_BUCKETS_PER_ADDRESS
    || (e.refCount > 0 && !lucky)
  }

  /** The entry of the slot, or nothing, gives way to `id`. */
  predicate Yields(b: Book, slot: Slot, id: int, now: int)
    requires id in b.info && (slot in b.newTable ==> b.newTable[slot] in b.info)
  {
    slot in b.newTable ==>
      || IsTerrible(b.info[b.newTable[slot]], now)
      || (b.info[b.newTable[slot]].refCount > 1 && b.info[id].refCount == 0)
  }

  predicate CanPlace(b: Book, slot: Slot, id: int, now: int)
  {
    && id in b.info && (slot in b.newTable ==> b.newTable[slot] in b.info)
    && (!(slot in b.newTable && b.newTable[slot] == id) ==>
          if Yields(b, slot, id, now) then CanClearNew(b, slot) && id in ClearNew(b, slot).info
          else b.info[id].refCount == 0 ==> CanDelete(b, id))
  }

  function Place(b: Book, slot: Slot, id: int, now: int): Book
    requires CanPlace(b, slot, id, now)
  {
    if slot in b.newTable && b.newTable[slot] == id then b
    else if Yields(b, slot, id, now) then Link(ClearNew(b, slot), slot, id)
    else if b.info[id].refCount == 0 then Delete(b, id) else b
  }

  function AddSlot(h: Hasher, a: Service, source: NetAddr): Slot
  {
    NewSlot(h, NewBucket(h, a, source), a)
  }

  /** The book with a known entry refreshed, or a new entry created and counted. */
  function Prepared(b: Book, a: Address, source: NetAddr, penalty: int, now: int): (Book, int)
  {
    match Find(b, a.service.ip)
    case Some(id) => (b.(info := b.info[id := Refresh(b.info[id], a, penalty, now)]), id)
    case None =>
      var b1 := Create(b, a, source);
      var id := b.idCount;
      (b1.(info := b1.info[id := b1.info[id].(time := Max(0, a.time - penalty))], nNew := b1.nNew + 1), id)
  }

  predicate CanAdd(h: Hasher, b: Book, a: Address, source: NetAddr, penalty: int, c: Chance)
  {
    c.routable ==>
      var (b1, id) := Prepared(b, a, source, penalty, c.now);
      (Find(b, a.service.ip).Some? && AddStops(b1.info[id], a, c.lucky)) ||
      CanPlace(b1, AddSlot(h, b1.info[id].service, source), id, c.now)
  }

  /** The new state, and whether an entry was created for the address. */
  function Add(h: Hasher, b: Book, a: Address, source: NetAddr, penalty: int, c: Chance): (Book, bool)
    requires CanAdd(h, b, a, source, penalty, c)
  {
    if !c.routable then (b, false)
    else
      var known := Find(b, a.service.ip).Some?;
      var (b1, id) := Prepared(b, a, source, penalty, c.now);
      if known && AddStops(b1.info[id], a, c.lucky) then (b1, false)
      else (Place(b1, AddSlot(h, b1.info[id].service, source), id, c.now), !known)
  }

  /** The next pick for place `n`, at or after it. */
  function Pick(b: Book, n: nat, rnd: nat -> nat): int
    requires n < |b.random|
  {
    rnd(n) % (|b.random| - n) + n
  }

  ghost predicate CanShuffle(b: Book)
  {
    forall i :: 0 <= i < |b.random| ==> b.random[i] in b.info
  }

  /** Walks on from place `n`: swap a random later entry here, and hand it out unless it is terrible. */
  function GetAddrFrom(b: Book, n: nat, out: seq<int>, limit: nat, rnd: nat -> nat, now: int): (Book, seq<int>)
    requires CanShuffle(b)
    decreases |b.random| - n
  {
    if n >= |b.random| || |out| >= limit then (b, out)
    else
      var b1 := SwapRandom(b, n, Pick(b, n, rnd));
      GetAddrFrom(b1, n + 1, if IsTerrible(b1.info[b1.random[n]], now) then out else out + [b1.random[n]], limit, rnd, now)
  }

  const GETADDR_MAX_PCT := 23
  const GETADDR_MAX := 2500

  function GetAddrLimit(b: Book): nat
  {
    var n := GETADDR_MAX_PCT * |b.random| / 100;
    if n > GETADDR_MAX then GETADDR_MAX else n
  }

  function GetAddr(b: Book, rnd: nat -> nat, now: int): (Book, seq<int>)
    requires CanShuffle(b)
  {
    GetAddrFrom(b, 0, [], GetAddrLimit(b), rnd, now)
  }

  // ----- parts of the consistency that look at some fields only -----

  /** The same ids, at the same services, on the same sides. */
  ghost predicate Alike(info: Infos, info': Infos)
  {
    && info'.Keys == info.Keys
    && forall id :: id in info ==>
         && info'[id].service == info[id].service
         && info'[id].inTried == info[id].inTried
         && (info[id].inTried && info[id].lastSuccess != 0 ==> info'[id].lastSuccess != 0)
  }

  lemma AlikeAt(info: Infos, info': Infos, id: int)
    requires Alike(info, info')
    ensures id in info <==> id in info'
    ensures id in info ==>
              && info'[id].service == info[id].service && info'[id].inTried == info[id].inTried
              && (info[id].inTried && info[id].lastSuccess != 0 ==> info'[id].lastSuccess != 0)
  {
  }

  lemma AlikeParts(h: Hasher, info: Infos, info': Infos, b: Book, uncounted: set<int>)
    requires Alike(info, info')
    ensures AddrOk(info, b.addr) ==> AddrOk(info', b.addr)
    ensures NewOk(h, info, b.newTable) ==> NewOk(h, info', b.newTable)
    ensures TriedOk(h, info, b.triedTable) ==> TriedOk(h, info', b.triedTable)
    ensures CountsOk(info, b.nNew, b.nTried, uncounted) ==> CountsOk(info', b.nNew, b.nTried, uncounted)
    ensures IdsOk(info, b.idCount) ==> IdsOk(info', b.idCount)
  {
    forall id
      ensures id in info <==> id in info'
      ensures id in info ==>
                && info'[id].service == info[id].service && info'[id].inTried == info[id].inTried
                && (info[id].inTried && info[id].lastSuccess != 0 ==> info'[id].lastSuccess != 0)
    {
      AlikeAt(info, info', id);
    }
    assert NewIds(info') == NewIds(info) && TriedIds(info') == TriedIds(info);
  }

  /** Everything but the place in the random order. */
  predicate SameEntry(e: Info, e': Info)
  {
    e' == e.(randomPos := e'.randomPos)
  }

  ghost predicate SameEntries(info: Infos, info': Infos)
  {
    info'.Keys == info.Keys && forall id :: id in info ==> SameEntry(info[id], info'[id])
  }

  lemma SameEntriesRefs(h: Hasher, info: Infos, info': Infos, table: Table, loose: set<int>)
    requires SameEntries(info, info') && RefsOk(h, info, table, loose)
    ensures RefsOk(h, info', table, loose)
  {
    hide Buckets;
    forall id | id in info' ensures RefOk(h, info'[id], table, id, loose) {
      assert SameEntry(info[id], info'[id]) && RefOk(h, info[id], table, id, loose);
    }
  }

  // ----- the random order -----

  lemma CreateRandomOk(info: Infos, random: seq<int>, id: int, e: Info)
    requires RandomOk(info, random) && id !in info && e.randomPos == |random|
    ensures RandomOk(info[id := e], random + [id])
  {
  }

  lemma SwapRandomSame(b: Book, i: int, j: int)
    requires RandomOk(b.info, b.random) && 0 <= i < |b.random| && 0 <= j < |b.random|
    ensures SameEntries(b.info, SwapRandom(b, i, j).info)
  {
  }

  lemma SwapRandomOk(b: Book, i: int, j: int)
    requires RandomOk(b.info, b.random) && 0 <= i < |b.random| && 0 <= j < |b.random|
    ensures RandomOk(SwapRandom(b, i, j).info, SwapRandom(b, i, j).random)
    ensures SameEntries(b.info, SwapRandom(b, i, j).info)
  {
    SwapRandomSame(b, i, j);
    if i != j {
      var b' := SwapRandom(b, i, j);
      var id1, id2 := b.random[i], b.random[j];
      assert id1 != id2;
      forall id | id in b'.info
        ensures b'.info[id].randomPos == if id == id1 then j else if id == id2 then i else b.info[id].randomPos
      {
      }
      forall k | 0 <= k < |b'.random|
        ensures b'.random[k] == if k == i then id2 else if k == j then id1 else b.random[k]
      {
      }
      hide SwapRandom;
      forall id | id in b'.info ensures 0 <= b'.info[id].randomPos < |b'.random| && b'.random[b'.info[id].randomPos] == id {
        assert id in b.info;
      }
      forall k | 0 <= k < |b'.random| ensures b'.random[k] in b'.info && b'.info[b'.random[k]].randomPos == k {
        assert b.random[k] in b.info;
      }
    }
  }

  lemma SwapRandomKeeps(h: Hasher, b: Book, i: int, j: int, loose: set<int>, uncounted: set<int>)
    requires Consistent(h, b, loose, uncounted) && 0 <= i < |b.random| && 0 <= j < |b.random|
    ensures Consistent(h, SwapRandom(b, i, j), loose, uncounted)
  {
    hide NewOk, RefsOk, TriedOk, AddrOk, CountsOk, IdsOk;
    var info' := SwapRandom(b, i, j).info;
    SwapRandomOk(b, i, j);
    assert forall id :: id in b.info ==> SameEntry(b.info[id], info'[id]);
    AlikeParts(h, b.info, info', b, uncounted);
    SameEntriesRefs(h, b.info, info', b.newTable, loose);
  }

  // ----- buckets of one id -----

  lemma NotInTable(h: Hasher, info: Infos, table: Table, id: int, service: Service)
    requires NewOk(h, info, table) && id !in info
    ensures Buckets(h, service, table, id) == {}
  {
  }

  lemma InBuckets(h: Hasher, info: Infos, table: Table, s: Slot)
    requires NewOk(h, info, table) && s in table
    ensures table[s] in info && !info[table[s]].inTried
    ensures s.bucket in Buckets(h, info[table[s]].service, table, table[s])
  {
  }

  lemma BucketsWithout(h: Hasher, service: Service, table: Table, slot: Slot, id: int)
    requires slot in table
    ensures table[slot] != id ==> Buckets(h, service, table - {slot}, id) == Buckets(h, service, table, id)
    ensures table[slot] == id && slot == NewSlot(h, slot.bucket, service) ==>
              Buckets(h, service, table - {slot}, id) == Buckets(h, service, table, id) - {slot.bucket}
  {
  }

  lemma BucketsWith(h: Hasher, service: Service, table: Table, slot: Slot, id: int, owner: int)
    requires slot !in table
    ensures owner != id ==> Buckets(h, service, table[slot := owner], id) == Buckets(h, service, table, id)
    ensures owner == id && slot == NewSlot(h, slot.bucket, service) && slot.bucket < NEW_BUCKETS ==>
              && slot.bucket !in Buckets(h, service, table, id)
              && Buckets(h, service, table[slot := owner], id) == Buckets(h, service, table, id) + {slot.bucket}
  {
  }

  // ----- the counters, and the lookup by address -----

  lemma AddedIds(info: Infos, id: int, e: Info)
    requires id !in info
    ensures NewIds(info[id := e]) == if e.inTried then NewIds(info) else NewIds(info) + {id}
    ensures TriedIds(info[id := e]) == if e.inTried then TriedIds(info) + {id} else TriedIds(info)
    ensures id !in NewIds(info) && id !in TriedIds(info)
  {
  }

  lemma AddedCounts(info: Infos, id: int, e: Info, nNew: int, nTried: int, uncounted: set<int>)
    requires CountsOk(info, nNew, nTried, uncounted) && id !in info
    ensures e.inTried ==> CountsOk(info[id := e], nNew, nTried + 1, uncounted)
    ensures !e.inTried ==> CountsOk(info[id := e], nNew + 1, nTried, uncounted)
  {
    AddedIds(info, id, e);
    hide NewIds, TriedIds;
  }

  lemma DroppedCounts(info: Infos, id: int, nNew: int, nTried: int, uncounted: set<int>)
    requires CountsOk(info, nNew, nTried, uncounted) && id in info && !info[id].inTried && id !in uncounted
    ensures CountsOk(info - {id}, nNew - 1, nTried, uncounted)
  {
    assert NewIds(info - {id}) == NewIds(info) - {id} && TriedIds(info - {id}) == TriedIds(info);
  }

  lemma UntriedCounts(info: Infos, id: int, nNew: int, nTried: int, uncounted: set<int>)
    requires CountsOk(info, nNew, nTried, uncounted) && id in info && info[id].inTried
    ensures CountsOk(info[id := info[id].(inTried := false)], nNew, nTried - 1, uncounted + {id})
  {
    var info' := info[id := info[id].(inTried := false)];
    assert NewIds(info') == NewIds(info) + {id} && TriedIds(info') == TriedIds(info) - {id};
    assert id !in uncounted;
  }

  lemma TriedCounts(info: Infos, id: int, nNew: int, nTried: int, uncounted: set<int>)
    requires CountsOk(info, nNew, nTried, uncounted) && id in uncounted
    ensures CountsOk(info[id := info[id].(inTried := true)], nNew, nTried + 1, uncounted - {id})
  {
    var info' := info[id := info[id].(inTried := true)];
    assert NewIds(info') == NewIds(info) - {id} && TriedIds(info') == TriedIds(info) + {id};
  }

  lemma UncountedMore(info: Infos, nNew: int, nTried: int, id: int, uncounted: set<int>)
    requires CountsOk(info, nNew + 1, nTried, uncounted) && id in info && !info[id].inTried && id !in uncounted
    ensures CountsOk(info, nNew, nTried, uncounted + {id})
  {
  }

  lemma AddrWith(info: Infos, addr: map<NetAddr, int>, id: int, e: Info)
    requires AddrOk(info, addr) && id !in info && e.service.ip !in addr
    ensures AddrOk(info[id := e], addr[e.service.ip := id])
  {
  }

  lemma AddrWithout(info: Infos, addr: map<NetAddr, int>, id: int)
    requires AddrOk(info, addr) && id in info
    ensures AddrOk(info - {id}, addr - {info[id].service.ip})
  {
  }

  lemma TriedWithUntried(h: Hasher, info: Infos, table: Table, id: int, e: Info)
    requires TriedOk(h, info, table) && id !in info && !e.inTried
    ensures TriedOk(h, info[id := e], table)
  {
    hide TriedSlot;
  }

  lemma TriedWithoutUntried(h: Hasher, info: Infos, table: Table, id: int)
    requires TriedOk(h, info, table) && id in info && !info[id].inTried
    ensures TriedOk(h, info - {id}, table)
  {
    hide TriedSlot;
  }

  lemma RandomWithout(info: Infos, random: seq<int>, id: int)
    requires RandomOk(info, random) && id in info && random != [] && random[|random| - 1] == id
    ensures RandomOk(info - {id}, random[..|random| - 1])
  {
  }

  // ----- creating and deleting entries -----

  lemma CreateTables(h: Hasher, info: Infos, table: Table, id: int, e: Info)
    requires NewOk(h, info, table) && RefsOk(h, info, table, {}) && id !in info
    requires e.refCount == 0 && !e.inTried
    ensures NewOk(h, info[id := e], table) && RefsOk(h, info[id := e], table, {id})
  {
    hide Buckets;
    NotInTable(h, info, table, id, e.service);
    var info' := info[id := e];
    forall j | j in info' ensures RefOk(h, info'[j], table, j, {id}) {
      assert j != id ==> RefOk(h, info[j], table, j, {});
    }
  }

  lemma CreateRest(h: Hasher, b: Book, a: Address, source: NetAddr)
    requires AddrOk(b.info, b.addr) && TriedOk(h, b.info, b.triedTable)
    requires CountsOk(b.info, b.nNew, b.nTried, {}) && IdsOk(b.info, b.idCount)
    requires a.service.ip !in b.addr
    ensures var b' := Create(b, a, source);
            && AddrOk(b'.info, b'.addr) && TriedOk(h, b'.info, b'.triedTable)
            && CountsOk(b'.info, b'.nNew, b'.nTried, {b.idCount}) && IdsOk(b'.info, b'.idCount)
  {
    var id, b' := b.idCount, Create(b, a, source);
    hide AddrOk, TriedOk, CountsOk;
    AddrWith(b.info, b.addr, id, b'.info[id]);
    TriedWithUntried(h, b.info, b.triedTable, id, b'.info[id]);
    AddedCounts(b.info, id, b'.info[id], b.nNew, b.nTried, {});
    UncountedMore(b'.info, b.nNew, b.nTried, id, {});
    assert {} + {id} == {id};
  }

  lemma CreateKeeps(h: Hasher, b: Book, a: Address, source: NetAddr)
    requires Inv(h, b) && a.service.ip !in b.addr
    ensures b.idCount !in b.info
    ensures Consistent(h, Create(b, a, source), {b.idCount}, {b.idCount})
  {
    hide Buckets, RefsOk, NewOk;
    var id, b' := b.idCount, Create(b, a, source);
    CreateRandomOk(b.info, b.random, id, b'.info[id]);
    CreateTables(h, b.info, b.newTable, id, b'.info[id]);
    CreateRest(h, b, a, source);
  }

  /** Removing the last entry of the random order. */
  function DropLast(b: Book, id: int): Book
    requires id in b.info && b.random != []
  {
    b.(random := b.random[..|b.random| - 1], addr := b.addr - {b.info[id].service.ip},
       info := b.info - {id}, nNew := b.nNew - 1)
  }

  lemma DropLastNewOk(h: Hasher, b: Book, id: int, loose: set<int>)
    requires NewOk(h, b.info, b.newTable) && RefsOk(h, b.info, b.newTable, loose)
    requires id in b.info && b.info[id].refCount == 0
    ensures NewOk(h, b.info - {id}, b.newTable) && RefsOk(h, b.info - {id}, b.newTable, loose - {id})
  {
    hide Buckets;
    assert RefOk(h, b.info[id], b.newTable, id, loose);
    forall s | s in b.newTable ensures b.newTable[s] != id {
      InBuckets(h, b.info, b.newTable, s);
    }
    forall j | j in b.info && j != id ensures RefOk(h, b.info[j], b.newTable, j, loose - {id}) {
      assert RefOk(h, b.info[j], b.newTable, j, loose);
    }
  }

  lemma DropLastRest(h: Hasher, b: Book, id: int, uncounted: set<int>)
    requires RandomOk(b.info, b.random) && AddrOk(b.info, b.addr) && TriedOk(h, b.info, b.triedTable)
    requires CountsOk(b.info, b.nNew, b.nTried, uncounted) && IdsOk(b.info, b.idCount)
    requires id in b.info && id !in uncounted && !b.info[id].inTried
    requires b.random != [] && b.random[|b.random| - 1] == id
    ensures var b' := DropLast(b, id);
            && RandomOk(b'.info, b'.random) && AddrOk(b'.info, b'.addr) && TriedOk(h, b'.info, b'.triedTable)
            && CountsOk(b'.info, b'.nNew, b'.nTried, uncounted) && IdsOk(b'.info, b'.idCount)
  {
    hide RandomOk, AddrOk, TriedOk, CountsOk;
    RandomWithout(b.info, b.random, id);
    AddrWithout(b.info, b.addr, id);
    TriedWithoutUntried(h, b.info, b.triedTable, id);
    DroppedCounts(b.info, id, b.nNew, b.nTried, uncounted);
  }

  lemma DropLastKeeps(h: Hasher, b: Book, id: int, loose: set<int>, uncounted: set<int>)
    requires Consistent(h, b, loose, uncounted) && id in b.info && id !in uncounted
    requires b.random != [] && b.random[|b.random| - 1] == id
    requires !b.info[id].inTried && b.info[id].refCount == 0
    ensures Consistent(h, DropLast(b, id), loose - {id}, uncounted)
  {
    DropLastNewOk(h, b, id, loose);
    DropLastRest(h, b, id, uncounted);
  }

  lemma RandomPart(h: Hasher, b: Book, loose: set<int>, uncounted: set<int>)
    requires Consistent(h, b, loose, uncounted)
    ensures RandomOk(b.info, b.random)
  {
    hide RandomOk, AddrOk, NewOk, RefsOk, TriedOk, CountsOk, IdsOk;
  }

  lemma SwapToEnd(b: Book, id: int)
    requires RandomOk(b.info, b.random) && CanDelete(b, id)
    ensures var b1 := SwapRandom(b, b.info[id].randomPos, |b.random| - 1);
            && b1.random != [] && b1.random[|b1.random| - 1] == id && b1.idCount == b.idCount
            && id in b1.info && !b1.info[id].inTried && b1.info[id].refCount == 0
  {
  }

  lemma SwapKeepsService(b: Book, id: int, i: int, j: int)
    requires 0 <= i < |b.random| && 0 <= j < |b.random| && b.random[i] in b.info && b.random[j] in b.info
    requires id in b.info
    ensures id in SwapRandom(b, i, j).info && SwapRandom(b, i, j).info[id].service == b.info[id].service
  {
  }

  lemma DeleteIsDrop(b: Book, id: int)
    requires CanDelete(b, id)
    requires id in SwapRandom(b, b.info[id].randomPos, |b.random| - 1).info && SwapRandom(b, b.info[id].randomPos, |b.random| - 1).random != []
    ensures Delete(b, id) == DropLast(SwapRandom(b, b.info[id].randomPos, |b.random| - 1), id)
  {
    SwapKeepsService(b, id, b.info[id].randomPos, |b.random| - 1);
    hide SwapRandom;
  }

  lemma DroppedSame(info: Infos, b1: Book, id: int)
    requires SameEntries(info, b1.info) && id in b1.info && b1.random != []
    ensures DropLast(b1, id).info.Keys == info.Keys - {id}
    ensures forall j :: j in info && j != id ==> SameEntry(info[j], DropLast(b1, id).info[j])
  {
  }

  // Dropping an untried entry without references.
  lemma DeleteKeeps(h: Hasher, b: Book, id: int, loose: set<int>, uncounted: set<int>)
    requires Consistent(h, b, loose, uncounted) && CanDelete(b, id) && id !in uncounted
    ensures Consistent(h, Delete(b, id), loose - {id}, uncounted)
    ensures Delete(b, id).info.Keys == b.info.Keys - {id}
    ensures forall j :: j in b.info && j != id ==> SameEntry(b.info[j], Delete(b, id).info[j])
  {
    hide Consistent, RandomOk, SwapRandom, Delete, SameEntries, DropLast;
    RandomPart(h, b, loose, uncounted);
    var i, n := b.info[id].randomPos, |b.random| - 1;
    SwapRandomOk(b, i, n);
    SwapToEnd(b, id);
    DeleteIsDrop(b, id);
    hide CanDelete;
    var b1 := SwapRandom(b, i, n);
    SwapRandomKeeps(h, b, i, n, loose, uncounted);
    DropLastKeeps(h, b1, id, loose, uncounted);
    DroppedSame(b.info, b1, id);
  }

  lemma CanDeleteWhen(b: Book, id: int)
    requires RandomOk(b.info, b.random) && id in b.info && !b.info[id].inTried && b.info[id].refCount == 0
    ensures CanDelete(b, id)
  {
  }

  // ----- the new table -----

  lemma SetRefCount(h: Hasher, b: Book, id: int, n: int, uncounted: set<int>)
    requires id in b.info
    ensures var info' := b.info[id := b.info[id].(refCount := n)];
            && (RandomOk(b.info, b.random) ==> RandomOk(info', b.random))
            && Alike(b.info, info')
  {
  }

  lemma UnlinkRefs(h: Hasher, b: Book, slot: Slot, loose: set<int>)
    requires slot in b.newTable && NewOk(h, b.info, b.newTable) && RefsOk(h, b.info, b.newTable, loose)
    ensures RefsOk(h, Unlink(b, slot).info, b.newTable - {slot}, loose + {b.newTable[slot]})
  {
    hide Buckets;
    var id := b.newTable[slot];
    var info' := Unlink(b, slot).info;
    InBuckets(h, b.info, b.newTable, slot);
    forall j | j in b.info ensures RefOk(h, info'[j], b.newTable - {slot}, j, loose + {id}) {
      assert RefOk(h, b.info[j], b.newTable, j, loose);
      BucketsWithout(h, b.info[j].service, b.newTable, slot, j);
    }
  }

  lemma UnlinkKeeps(h: Hasher, b: Book, slot: Slot, loose: set<int>, uncounted: set<int>)
    requires Consistent(h, b, loose, uncounted) && slot in b.newTable
    ensures b.newTable[slot] in b.info && b.info[b.newTable[slot]].refCount > 0
    ensures Consistent(h, Unlink(b, slot), loose + {b.newTable[slot]}, uncounted)
  {
    hide RandomOk, AddrOk, TriedOk, CountsOk, IdsOk, Buckets;
    var id := b.newTable[slot];
    InBuckets(h, b.info, b.newTable, slot);
    assert RefOk(h, b.info[id], b.newTable, id, loose);
    var b' := Unlink(b, slot);
    SetRefCount(h, b, id, b.info[id].refCount - 1, uncounted);
    AlikeParts(h, b.info, b'.info, b, uncounted);
    UnlinkRefs(h, b, slot, loose);
  }

  lemma LinkRefs(h: Hasher, b: Book, slot: Slot, id: int, loose: set<int>)
    requires RefsOk(h, b.info, b.newTable, loose) && slot !in b.newTable
    requires id in b.info && b.info[id].refCount < NEW_BUCKETS_PER_ADDRESS
    requires slot.bucket < NEW_BUCKETS && slot == NewSlot(h, slot.bucket, b.info[id].service)
    ensures RefsOk(h, Link(b, slot, id).info, b.newTable[slot := id], loose - {id})
  {
    hide Buckets;
    var info' := Link(b, slot, id).info;
    forall j | j in b.info ensures RefOk(h, info'[j], b.newTable[slot := id], j, loose - {id}) {
      assert RefOk(h, b.info[j], b.newTable, j, loose);
      BucketsWith(h, b.info[j].service, b.newTable, slot, j, id);
    }
  }

  lemma LinkKeeps(h: Hasher, b: Book, slot: Slot, id: int, loose: set<int>, uncounted: set<int>)
    requires Consistent(h, b, loose, uncounted) && slot !in b.newTable
    requires id in b.info && !b.info[id].inTried && b.info[id].refCount < NEW_BUCKETS_PER_ADDRESS
    requires slot.bucket < NEW_BUCKETS && slot == NewSlot(h, slot.bucket, b.info[id].service)
    ensures Consistent(h, Link(b, slot, id), loose - {id}, uncounted)
  {
    hide RandomOk, AddrOk, TriedOk, CountsOk, IdsOk, Buckets;
    var b' := Link(b, slot, id);
    SetRefCount(h, b, id, b.info[id].refCount + 1, uncounted);
    AlikeParts(h, b.info, b'.info, b, uncounted);
    LinkRefs(h, b, slot, id, loose);
  }

  // An entry with references need not be among the loose ones.
  lemma NotLoose(h: Hasher, b: Book, id: int, loose: set<int>)
    requires RefsOk(h, b.info, b.newTable, loose + {id}) && id in b.info && (b.info[id].refCount != 0 || b.info[id].inTried)
    ensures RefsOk(h, b.info, b.newTable, loose)
  {
    hide Buckets;
    forall j | j in b.info ensures RefOk(h, b.info[j], b.newTable, j, loose) {
      assert RefOk(h, b.info[j], b.newTable, j, loose + {id});
    }
  }

  lemma UntriedInTable(h: Hasher, b: Book, slot: Slot, loose: set<int>, uncounted: set<int>)
    requires Consistent(h, b, loose, uncounted) && slot in b.newTable
    ensures b.newTable[slot] in b.info && !b.info[b.newTable[slot]].inTried
  {
    hide RandomOk, AddrOk, RefsOk, TriedOk, CountsOk, IdsOk, NewSlot;
  }

  lemma UnlinkOrDelete(h: Hasher, b: Book, id: int, loose: set<int>, uncounted: set<int>)
    requires Consistent(h, b, loose + {id}, uncounted) && id !in loose && id !in uncounted
    requires id in b.info && !b.info[id].inTried
    ensures b.info[id].refCount == 0 ==>
              CanDelete(b, id) && Consistent(h, Delete(b, id), loose, uncounted)
              && forall j :: j in b.info && j != id ==> j in Delete(b, id).info && SameEntry(b.info[j], Delete(b, id).info[j])
    ensures b.info[id].refCount != 0 ==> Consistent(h, b, loose, uncounted)
  {
    hide NewOk, RefsOk, TriedOk, AddrOk, CountsOk, IdsOk, RandomOk, Delete, CanDelete;
    if b.info[id].refCount == 0 {
      CanDeleteWhen(b, id);
      DeleteKeeps(h, b, id, loose + {id}, uncounted);
      assert loose + {id} - {id} == loose;
    } else {
      NotLoose(h, b, id, loose);
    }
  }

  lemma DeleteTables(b: Book, id: int)
    requires CanDelete(b, id)
    ensures Delete(b, id).newTable == b.newTable && Delete(b, id).triedTable == b.triedTable
    ensures Delete(b, id).nTried == b.nTried
  {
  }

  // Clearing a slot: no assert fails, and the slot is empty afterwards.
  lemma ClearNewKeeps(h: Hasher, b: Book, slot: Slot, loose: set<int>, uncounted: set<int>)
    requires Consistent(h, b, loose, uncounted)
    requires slot in b.newTable ==> b.newTable[slot] !in loose && b.newTable[slot] !in uncounted
    ensures CanClearNew(b, slot)
    ensures Consistent(h, ClearNew(b, slot), loose, uncounted)
    ensures ClearNew(b, slot).newTable == b.newTable - {slot}
    ensures ClearNew(b, slot).triedTable == b.triedTable && ClearNew(b, slot).nTried == b.nTried
    ensures forall j :: j in b.info && (slot !in b.newTable || b.newTable[slot] != j) ==>
              j in ClearNew(b, slot).info && SameEntry(b.info[j], ClearNew(b, slot).info[j])
  {
    hide Consistent, Delete, CanDelete;
    if slot in b.newTable {
      var id := b.newTable[slot];
      UnlinkKeeps(h, b, slot, loose, uncounted);
      UntriedInTable(h, b, slot, loose, uncounted);
      var b1 := Unlink(b, slot);
      UnlinkOrDelete(h, b1, id, loose, uncounted);
      if b1.info[id].refCount == 0 { DeleteTables(b1, id); }
    } else {
      assert b.newTable - {slot} == b.newTable;
    }
  }

  // ----- moving an entry to the tried table -----

  lemma {:induction false} UnlinkAllKeeps(h: Hasher, b: Book, id: int, n: nat, loose: set<int>, uncounted: set<int>)
    requires Consistent(h, b, loose, uncounted) && id in b.info && id in loose && n <= NEW_BUCKETS
    ensures Consistent(h, UnlinkAll(h, b, id, n), loose, uncounted)
    ensures forall k: nat :: k < n ==> !HoldsAt(h, UnlinkAll(h, b, id, n), id, k)
    ensures UnlinkAll(h, b, id, n).newTable.Keys <= b.newTable.Keys
    ensures forall s :: s in UnlinkAll(h, b, id, n).newTable ==> UnlinkAll(h, b, id, n).newTable[s] == b.newTable[s]
  {
    hide Consistent;
    if n > 0 {
      UnlinkAllKeeps(h, b, id, n - 1, loose, uncounted);
      var b1 := UnlinkAll(h, b, id, n - 1);
      if HoldsAt(h, b1, id, n - 1) {
        UnlinkKeeps(h, b1, NewSlot(h, n - 1, b.info[id].service), loose, uncounted);
        assert loose + {id} == loose;
      }
      forall k: nat | k < n ensures !HoldsAt(h, UnlinkAll(h, b, id, n), id, k) {
        assert k < n - 1 ==> !HoldsAt(h, b1, id, k);
      }
    }
  }

  lemma NoBucketsNoRefs(h: Hasher, b: Book, id: int, loose: set<int>)
    requires RefsOk(h, b.info, b.newTable, loose) && NewOk(h, b.info, b.newTable) && id in b.info
    requires forall k: nat :: k < NEW_BUCKETS ==> !HoldsAt(h, b, id, k)
    ensures b.info[id].refCount == 0
    ensures forall s :: s in b.newTable ==> b.newTable[s] != id
  {
    assert RefOk(h, b.info[id], b.newTable, id, loose);
    forall k: nat | k < NEW_BUCKETS ensures k !in Buckets(h, b.info[id].service, b.newTable, id) {
      assert !HoldsAt(h, b, id, k);
    }
    assert Buckets(h, b.info[id].service, b.newTable, id) == {};
    forall s | s in b.newTable ensures b.newTable[s] != id {
      InBuckets(h, b.info, b.newTable, s);
    }
  }

  lemma NoRefsNotInTable(h: Hasher, b: Book, id: int, loose: set<int>)
    requires RefsOk(h, b.info, b.newTable, loose) && NewOk(h, b.info, b.newTable)
    requires id in b.info && (b.info[id].refCount == 0 || b.info[id].inTried)
    ensures forall s :: s in b.newTable ==> b.newTable[s] != id
  {
    hide Buckets;
    assert RefOk(h, b.info[id], b.newTable, id, loose);
    forall s | s in b.newTable ensures b.newTable[s] != id {
      InBuckets(h, b.info, b.newTable, s);
    }
  }

  // An untried entry may be left out of the count.
  lemma Uncount(h: Hasher, b: Book, id: int, loose: set<int>, uncounted: set<int>)
    requires Consistent(h, b, loose, uncounted) && id in b.info && !b.info[id].inTried && id !in uncounted
    ensures Consistent(h, b.(nNew := b.nNew - 1), loose, uncounted + {id})
  {
    hide RandomOk, AddrOk, NewOk, RefsOk, TriedOk, IdsOk;
  }

  lemma Count(h: Hasher, b: Book, id: int, loose: set<int>, uncounted: set<int>)
    requires Consistent(h, b, loose, uncounted) && id in uncounted
    ensures Consistent(h, b.(nNew := b.nNew + 1), loose, uncounted - {id})
  {
    hide RandomOk, AddrOk, NewOk, RefsOk, TriedOk, IdsOk;
  }

  lemma MoreLoose(h: Hasher, b: Book, loose: set<int>, loose': set<int>, uncounted: set<int>)
    requires Consistent(h, b, loose, uncounted) && loose <= loose'
    ensures Consistent(h, b, loose', uncounted)
  {
    hide RandomOk, AddrOk, NewOk, TriedOk, IdsOk, CountsOk, Buckets;
    forall j | j in b.info ensures RefOk(h, b.info[j], b.newTable, j, loose') {
      assert RefOk(h, b.info[j], b.newTable, j, loose);
    }
  }

  lemma SwitchSideRefs(h: Hasher, b: Book, id: int, tried: bool, loose: set<int>)
    requires id in b.info && RefsOk(h, b.info, b.newTable, loose)
    ensures var info' := b.info[id := b.info[id].(inTried := tried)];
            RefsOk(h, info', b.newTable, if tried then loose - {id} else loose + {id})
  {
    hide Buckets;
    var info' := b.info[id := b.info[id].(inTried := tried)];
    var loose' := if tried then loose - {id} else loose + {id};
    forall j | j in info' ensures RefOk(h, info'[j], b.newTable, j, loose') {
      assert RefOk(h, b.info[j], b.newTable, j, loose);
    }
  }

  /** `info'` is `info` with the entry `id` moved to the other side. */
  lemma SwitchSide(h: Hasher, b: Book, id: int, tried: bool, loose: set<int>)
    requires id in b.info && RandomOk(b.info, b.random) && AddrOk(b.info, b.addr) && IdsOk(b.info, b.idCount)
    requires NewOk(h, b.info, b.newTable) && RefsOk(h, b.info, b.newTable, loose)
    requires forall s :: s in b.newTable ==> b.newTable[s] != id
    ensures var info' := b.info[id := b.info[id].(inTried := tried)];
            && RandomOk(info', b.random) && AddrOk(info', b.addr) && IdsOk(info', b.idCount)
            && NewOk(h, info', b.newTable)
            && RefsOk(h, info', b.newTable, if tried then loose - {id} else loose + {id})
  {
    var info' := b.info[id := b.info[id].(inTried := tried)];
    SwitchSideRefs(h, b, id, tried, loose);
    hide RefsOk;
  }

  lemma TriedHolds(h: Hasher, info: Infos, table: Table, slot: Slot)
    requires TriedOk(h, info, table) && slot in table
    ensures table[slot] in info && info[table[slot]].inTried
  {
    hide TriedSlot;
  }

  lemma TakeOutTable(h: Hasher, b: Book, slot: Slot)
    requires TriedOk(h, b.info, b.triedTable) && slot in b.triedTable && b.triedTable[slot] in b.info
    ensures TriedOk(h, TakeOut(b, slot).info, TakeOut(b, slot).triedTable)
  {
    hide TriedSlot;
  }

  lemma TriedHasNoRefs(h: Hasher, b: Book, id: int, loose: set<int>)
    requires RefsOk(h, b.info, b.newTable, loose) && NewOk(h, b.info, b.newTable)
    requires id in b.info && b.info[id].inTried
    ensures b.info[id].refCount == 0
    ensures forall s :: s in b.newTable ==> b.newTable[s] != id
  {
    NoRefsNotInTable(h, b, id, loose);
    assert Buckets(h, b.info[id].service, b.newTable, id) == {};
    assert RefOk(h, b.info[id], b.newTable, id, loose);
  }

  lemma TakeOutKeeps(h: Hasher, b: Book, slot: Slot, loose: set<int>, uncounted: set<int>)
    requires Consistent(h, b, loose, uncounted) && slot in b.triedTable
    ensures b.triedTable[slot] in b.info && b.info[b.triedTable[slot]].inTried
    ensures Consistent(h, TakeOut(b, slot), loose + {b.triedTable[slot]}, uncounted + {b.triedTable[slot]})
    ensures forall s :: s in b.newTable ==> b.newTable[s] != b.triedTable[slot]
    ensures b.info[b.triedTable[slot]].refCount == 0
  {
    hide RandomOk, AddrOk, RefsOk, IdsOk, NewOk, TriedOk, CountsOk;
    var id := b.triedTable[slot];
    TriedHolds(h, b.info, b.triedTable, slot);
    TriedHasNoRefs(h, b, id, loose);
    SwitchSide(h, b, id, false, loose);
    UntriedCounts(b.info, id, b.nNew, b.nTried, uncounted);
    TakeOutTable(h, b, slot);
  }

  lemma PutInTriedTable(h: Hasher, b: Book, id: int)
    requires TriedOk(h, b.info, b.triedTable)
    requires id in b.info && !b.info[id].inTried && b.info[id].lastSuccess != 0
    requires TriedSlot(h, b.info[id].service) !in b.triedTable
    ensures var b' := PutInTried(b, TriedSlot(h, b.info[id].service), id);
            TriedOk(h, b'.info, b'.triedTable)
  {
    hide TriedSlot;
  }

  lemma PutInTriedKeeps(h: Hasher, b: Book, id: int, loose: set<int>, uncounted: set<int>)
    requires Consistent(h, b, loose, uncounted)
    requires id in b.info && !b.info[id].inTried && b.info[id].refCount == 0 && b.info[id].lastSuccess != 0
    requires id in uncounted && TriedSlot(h, b.info[id].service) !in b.triedTable
    ensures Consistent(h, PutInTried(b, TriedSlot(h, b.info[id].service), id), loose - {id}, uncounted - {id})
  {
    hide RandomOk, AddrOk, IdsOk, NewOk, RefsOk, TriedOk, CountsOk, TriedSlot;
    NoRefsNotInTable(h, b, id, loose);
    SwitchSide(h, b, id, true, loose);
    PutInTriedTable(h, b, id);
    TriedCounts(b.info, id, b.nNew, b.nTried, uncounted);
  }

  lemma UncountedIsNew(b: Book, id: int, uncounted: set<int>)
    requires CountsOk(b.info, b.nNew, b.nTried, uncounted) && id in uncounted
    ensures id in b.info && !b.info[id].inTried
  {
  }

  lemma EvictKeeps(h: Hasher, b: Book, slot: Slot, id: int)
    requires Consistent(h, b, {id}, {id}) && id in b.info && b.info[id].refCount == 0
    ensures CanEvict(h, b, slot)
    ensures Consistent(h, Evict(h, b, slot), {id}, {id})
    ensures id in Evict(h, b, slot).info && SameEntry(b.info[id], Evict(h, b, slot).info[id])
    ensures slot !in Evict(h, b, slot).triedTable
  {
    hide RandomOk, AddrOk, IdsOk, TriedOk, CountsOk, RefsOk, NewOk;
    if slot in b.triedTable {
      TakeOutKeeps(h, b, slot, {id}, {id});
      var e := b.triedTable[slot];
      var target := EvictedSlot(h, b.info[e]);
      var b1 := TakeOut(b, slot);
      UncountedIsNew(b, id, {id});
      NoRefsNotInTable(h, b, id, {id});
      ClearNewKeeps(h, b1, target, {id} + {e}, {id} + {e});
      var b2 := ClearNew(b1, target);
      assert SameEntry(b1.info[e], b2.info[e]) && SameEntry(b1.info[id], b2.info[id]);
      LinkKeeps(h, b2, target, e, {id} + {e}, {id} + {e});
      Count(h, Link(b2, target, e), e, {id} + {e} - {e}, {id} + {e});
      assert {id} + {e} - {e} == {id};
      assert Evict(h, b, slot) == Link(b2, target, e).(nNew := b2.nNew + 1);
    }
  }

  lemma IsPutInTried(b: Book, slot: Slot, id: int)
    requires id in b.info
    ensures id in PutInTried(b, slot, id).info && PutInTried(b, slot, id).info[id].inTried
  {
  }

  // Without references, and out of the count of untried entries.
  lemma UnlinkedEverywhere(h: Hasher, b: Book, id: int)
    requires Inv(h, b) && id in b.info && !b.info[id].inTried
    ensures var b1 := UnlinkAll(h, b, id, NEW_BUCKETS);
            && b1.info[id].refCount == 0 && Consistent(h, b1.(nNew := b1.nNew - 1), {id}, {id})
  {
    hide RandomOk, AddrOk, IdsOk, TriedOk, CountsOk, RefsOk, NewOk;
    MoreLoose(h, b, {}, {id}, {});
    UnlinkAllKeeps(h, b, id, NEW_BUCKETS, {id}, {});
    var b1 := UnlinkAll(h, b, id, NEW_BUCKETS);
    NoBucketsNoRefs(h, b1, id, {id});
    Uncount(h, b1, id, {id}, {});
    assert {} + {id} == {id};
  }

  // Moving an untried entry to the tried table: no assert fails.
  lemma MakeTriedKeeps(h: Hasher, b: Book, id: int)
    requires Inv(h, b) && id in b.info && !b.info[id].inTried && b.info[id].lastSuccess != 0
    ensures CanMakeTried(h, b, id)
    ensures Inv(h, MakeTried(h, b, id))
    ensures id in MakeTried(h, b, id).info && MakeTried(h, b, id).info[id].inTried
  {
    hide Consistent, TriedSlot, Evict, CanEvict, PutInTried;
    var slot := TriedSlot(h, b.info[id].service);
    UnlinkedEverywhere(h, b, id);
    var b1 := UnlinkAll(h, b, id, NEW_BUCKETS);
    var b2 := b1.(nNew := b1.nNew - 1);
    EvictKeeps(h, b2, slot, id);
    PutInTriedKeeps(h, Evict(h, b2, slot), id, {id}, {id});
    assert {id} - {id} == {};
    IsPutInTried(Evict(h, b2, slot), slot, id);
  }

  // ----- the public operations -----

  // Changing what no table depends on.
  lemma TouchKeeps(h: Hasher, b: Book, id: int, e: Info, loose: set<int>, uncounted: set<int>)
    requires Consistent(h, b, loose, uncounted) && id in b.info
    requires e.service == b.info[id].service && e.refCount == b.info[id].refCount
    requires e.inTried == b.info[id].inTried && e.randomPos == b.info[id].randomPos
    requires e.lastSuccess == b.info[id].lastSuccess || e.lastSuccess != 0
    ensures Consistent(h, b.(info := b.info[id := e]), loose, uncounted)
  {
    hide AddrOk, IdsOk, TriedOk, CountsOk, NewOk, Buckets;
    var info' := b.info[id := e];
    AlikeParts(h, b.info, info', b, uncounted);
    forall j | j in info' ensures RefOk(h, info'[j], b.newTable, j, loose) {
      assert RefOk(h, b.info[j], b.newTable, j, loose);
    }
  }

  lemma UntriedIsInSomeBucket(h: Hasher, b: Book, id: int)
    requires Inv(h, b) && id in b.info && !b.info[id].inTried
    ensures InSomeBucket(h, b, id)
  {
    assert RefOk(h, b.info[id], b.newTable, id, {});
    var k :| k in Buckets(h, b.info[id].service, b.newTable, id);
    assert HoldsAt(h, b, id, k);
  }

  // Marking a service good: no assert fails, and the entry ends up tried.
  lemma GoodKeeps(h: Hasher, b: Book, s: Service, time: int)
    requires Inv(h, b) && time != 0
    ensures CanGood(h, b, s, time) && Inv(h, Good(h, b, s, time))
    ensures var found := FindService(b, s);
            found.Some? ==> found.value in Good(h, b, s, time).info && Good(h, b, s, time).info[found.value].inTried
  {
    hide Consistent;
    var found := FindService(b, s);
    if found.Some? {
      var id := found.value;
      TouchKeeps(h, b, id, b.info[id].(lastSuccess := time, lastTry := time, attempts := 0), {}, {});
      if !b.info[id].inTried {
        UntriedIsInSomeBucket(h, MarkGood(b, id, time), id);
        MakeTriedKeeps(h, MarkGood(b, id, time), id);
      }
    }
  }

  lemma AttemptKeeps(h: Hasher, b: Book, s: Service, time: int)
    requires Inv(h, b)
    ensures Inv(h, Attempt(b, s, time)) && Inv(h, Connected(b, s, time))
  {
    hide Consistent;
    var found := FindService(b, s);
    if found.Some? {
      var e := b.info[found.value];
      TouchKeeps(h, b, found.value, e.(lastTry := time, attempts := e.attempts + 1), {}, {});
      TouchKeeps(h, b, found.value, e.(time := time), {}, {});
    }
  }

  lemma ReferencedHasRefs(h: Hasher, b: Book, slot: Slot, loose: set<int>)
    requires NewOk(h, b.info, b.newTable) && RefsOk(h, b.info, b.newTable, loose) && slot in b.newTable
    ensures b.newTable[slot] in b.info && b.info[b.newTable[slot]].refCount != 0
  {
    InBuckets(h, b.info, b.newTable, slot);
    assert RefOk(h, b.info[b.newTable[slot]], b.newTable, b.newTable[slot], loose);
  }

  lemma PlaceKeeps(h: Hasher, b: Book, slot: Slot, id: int, now: int, loose: set<int>)
    requires Consistent(h, b, loose, {}) && loose <= {id}
    requires id in b.info && !b.info[id].inTried && b.info[id].refCount < NEW_BUCKETS_PER_ADDRESS
    requires slot.bucket < NEW_BUCKETS && slot == NewSlot(h, slot.bucket, b.info[id].service)
    ensures CanPlace(b, slot, id, now) && Inv(h, Place(b, slot, id, now))
  {
    hide RandomOk, AddrOk, IdsOk, TriedOk, CountsOk, RefsOk, NewOk, ClearNew, CanClearNew, CanDelete, Delete, Link, IsTerrible, NewSlot;
    MoreLoose(h, b, loose, {id}, {});
    if slot in b.newTable {
      InBuckets(h, b.info, b.newTable, slot);
    }
    if slot in b.newTable && b.newTable[slot] == id {
      ReferencedHasRefs(h, b, slot, {id});
      assert {} + {id} == {id};
      NotLoose(h, b, id, {});
    } else if Yields(b, slot, id, now) {
      ClearNewKeeps(h, b, slot, {id}, {});
      var b1 := ClearNew(b, slot);
      assert SameEntry(b.info[id], b1.info[id]);
      LinkKeeps(h, b1, slot, id, {id}, {});
      assert {id} - {id} == {};
    } else if b.info[id].refCount == 0 {
      CanDeleteWhen(b, id);
      DeleteKeeps(h, b, id, {id}, {});
      assert {id} - {id} == {};
    } else {
      assert {} + {id} == {id};
      NotLoose(h, b, id, {});
    }
  }

  lemma PreparedKeeps(h: Hasher, b: Book, a: Address, source: NetAddr, penalty: int, now: int)
    requires Inv(h, b)
    ensures var (b1, id) := Prepared(b, a, source, penalty, now);
            && id in b1.info
            && if Find(b, a.service.ip).Some? then Inv(h, b1) && b1.info[id].refCount <= NEW_BUCKETS_PER_ADDRESS
               else Consistent(h, b1, {id}, {}) && !b1.info[id].inTried && b1.info[id].refCount == 0
  {
    hide RandomOk, IdsOk, TriedOk, CountsOk, NewOk, Buckets;
    var found := Find(b, a.service.ip);
    if found.Some? {
      var id := found.value;
      assert RefOk(h, b.info[id], b.newTable, id, {});
      TouchKeeps(h, b, id, Refresh(b.info[id], a, penalty, now), {}, {});
    } else {
      assert a.service.ip !in b.addr;
      CreateKeeps(h, b, a, source);
      var b1, id := Create(b, a, source), b.idCount;
      TouchKeeps(h, b1, id, b1.info[id].(time := Max(0, a.time - penalty)), {id}, {id});
      Count(h, b1.(info := b1.info[id := b1.info[id].(time := Max(0, a.time - penalty))]), id, {id}, {id});
      assert {id} - {id} == {};
    }
  }

  lemma AddSlotIsSlot(h: Hasher, s: Service, source: NetAddr)
    ensures AddSlot(h, s, source).bucket < NEW_BUCKETS
    ensures AddSlot(h, s, source) == NewSlot(h, AddSlot(h, s, source).bucket, s)
  {
  }

  // Adding an announced address: no assert fails.
  lemma AddKeeps(h: Hasher, b: Book, a: Address, source: NetAddr, penalty: int, c: Chance)
    requires Inv(h, b)
    ensures CanAdd(h, b, a, source, penalty, c) && Inv(h, Add(h, b, a, source, penalty, c).0)
  {
    hide Consistent, Place, CanPlace, NewSlot, Prepared;
    if c.routable {
      PreparedKeeps(h, b, a, source, penalty, c.now);
      var (b1, id) := Prepared(b, a, source, penalty, c.now);
      if !(Find(b, a.service.ip).Some? && AddStops(b1.info[id], a, c.lucky)) {
        AddSlotIsSlot(h, b1.info[id].service, source);
        PlaceKeeps(h, b1, AddSlot(h, b1.info[id].service, source), id, c.now,
                   if Find(b, a.service.ip).Some? then {} else {id});
      }
    }
  }

  /** `out` are entries from the first `n` places, all different and none terrible. */
  ghost predicate Picked(b: Book, n: nat, out: seq<int>, now: int)
  {
    && (forall i :: 0 <= i < |out| ==> out[i] in b.info && b.info[out[i]].randomPos < n && !IsTerrible(b.info[out[i]], now))
    && (forall i, j :: 0 <= i < j < |out| ==> out[i] != out[j])
  }

  /** The next entry to look at stands at place `n` after the swap. */
  function PickNext(b: Book, n: nat, rnd: nat -> nat): Book
    requires CanShuffle(b) && n < |b.random|
  {
    SwapRandom(b, n, Pick(b, n, rnd))
  }

  lemma PickBounds(b: Book, n: nat, rnd: nat -> nat)
    requires n < |b.random|
    ensures n <= Pick(b, n, rnd) < |b.random|
  {
  }

  // What the swap does to place `n` and to the entries before it.
  lemma SwapLater(b: Book, n: nat, k: nat)
    requires RandomOk(b.info, b.random) && n <= k < |b.random|
    ensures var b1 := SwapRandom(b, n, k);
            && |b1.random| == |b.random|
            && b1.random[n] in b.info && b1.random[n] in b1.info && b1.info[b1.random[n]].randomPos == n
            && b.info[b1.random[n]].randomPos == k
            && forall id :: id in b.info && b.info[id].randomPos < n ==> id in b1.info && b1.info[id] == b.info[id]
  {
    assert b.random[k] in b.info && b.random[n] in b.info;
  }

  lemma OneMorePicked(b: Book, b1: Book, n: nat, out: seq<int>, now: int)
    requires Picked(b, n, out, now) && n < |b1.random| && b1.random[n] in b1.info && b1.random[n] in b.info
    requires b1.info[b1.random[n]].randomPos == n <= b.info[b1.random[n]].randomPos
    requires forall id :: id in b.info && b.info[id].randomPos < n ==> id in b1.info && b1.info[id] == b.info[id]
    ensures Picked(b1, n + 1, if IsTerrible(b1.info[b1.random[n]], now) then out else out + [b1.random[n]], now)
  {
    hide IsTerrible;
  }

  lemma PickedNext(b: Book, n: nat, out: seq<int>, rnd: nat -> nat, now: int)
    requires RandomOk(b.info, b.random) && n < |b.random| && Picked(b, n, out, now)
    ensures CanShuffle(b)
    ensures var b1 := PickNext(b, n, rnd);
            && |b1.random| == |b.random| && SameEntries(b.info, b1.info) && b1.random[n] in b1.info
            && Picked(b1, n + 1, if IsTerrible(b1.info[b1.random[n]], now) then out else out + [b1.random[n]], now)
  {
    var k := Pick(b, n, rnd);
    PickBounds(b, n, rnd);
    assert 0 <= n < |b.random| && 0 <= k < |b.random|;
    SwapRandomOk(b, n, k);
    SwapLater(b, n, k);
    hide IsTerrible, RandomOk, SwapRandom, Pick, SameEntries;
    var b1 := PickNext(b, n, rnd);
    assert b1 == SwapRandom(b, n, k);
    OneMorePicked(b, b1, n, out, now);
  }

  lemma SameEntriesTrans(a: Infos, b: Infos, c: Infos)
    requires SameEntries(a, b) && SameEntries(b, c)
    ensures SameEntries(a, c)
  {
    forall j | j in a ensures SameEntry(a[j], c[j]) {
      assert SameEntry(a[j], b[j]) && SameEntry(b[j], c[j]);
    }
  }

  lemma PickedAll(b: Book, n: nat, out: seq<int>, now: int)
    requires Picked(b, n, out, now) && n <= |b.random|
    ensures Picked(b, |b.random|, out, now) && SameEntries(b.info, b.info)
  {
  }

  // Handing out addresses: at most the limit, all known, none terrible, none
  // twice; only the random order changes.
  lemma {:induction false} GetAddrFromKeeps(h: Hasher, b: Book, n: nat, out: seq<int>, limit: nat, rnd: nat -> nat, now: int)
    requires Inv(h, b) && CanShuffle(b) && |out| <= limit && n <= |b.random| && Picked(b, n, out, now)
    ensures var (b', out') := GetAddrFrom(b, n, out, limit, rnd, now);
            && Inv(h, b') && SameEntries(b.info, b'.info)
            && |out'| <= limit && Picked(b', |b'.random|, out', now)
    decreases |b.random| - n
  {
    hide AddrOk, IdsOk, TriedOk, CountsOk, RefsOk, NewOk, Picked, SameEntries, IsTerrible;
    PickedAll(b, n, out, now);
    if n < |b.random| && |out| < limit {
      var b1 := PickNext(b, n, rnd);
      SwapRandomKeeps(h, b, n, Pick(b, n, rnd), {}, {});
      PickedNext(b, n, out, rnd, now);
      var out1 := if IsTerrible(b1.info[b1.random[n]], now) then out else out + [b1.random[n]];
      GetAddrFromKeeps(h, b1, n + 1, out1, limit, rnd, now);
      SameEntriesTrans(b.info, b1.info, GetAddrFrom(b1, n + 1, out1, limit, rnd, now).0.info);
    }
  }

  lemma GetAddrKeeps(h: Hasher, b: Book, rnd: nat -> nat, now: int)
    requires Inv(h, b)
    ensures CanShuffle(b)
    ensures var (b', out) := GetAddr(b, rnd, now);
            && Inv(h, b') && SameEntries(b.info, b'.info)
            && |out| <= GetAddrLimit(b) && Picked(b', |b'.random|, out, now)
  {
    GetAddrFromKeeps(h, b, 0, [], GetAddrLimit(b), rnd, now);
  }

  // ----- runs -----

  datatype Call =
    | AddCall(a: Address, source: NetAddr, penalty: int, chance: Chance)
    | GoodCall(s: Service, time: int)
    | AttemptCall(s: Service, time: int)
    | ConnectedCall(s: Service, time: int)
    | GetAddrCall(rnd: nat -> nat, now: int)

  /** What the asserts of the call demand of the tables. */
  ghost predicate CanCall(h: Hasher, b: Book, call: Call)
  {
    match call
    case AddCall(a, source, penalty, chance) => CanAdd(h, b, a, source, penalty, chance)
    case GoodCall(s, time) => CanGood(h, b, s, time)
    case AttemptCall(_, _) => true
    case ConnectedCall(_, _) => true
    case GetAddrCall(_, _) => CanShuffle(b)
  }

  ghost function Apply(h: Hasher, b: Book, call: Call): Book
    requires CanCall(h, b, call)
  {
    match call
    case AddCall(a, source, penalty, chance) => Add(h, b, a, source, penalty, chance).0
    case GoodCall(s, time) => Good(h, b, s, time)
    case AttemptCall(s, time) => Attempt(b, s, time)
    case ConnectedCall(s, time) => Connected(b, s, time)
    case GetAddrCall(rnd, now) => GetAddr(b, rnd, now).0
  }

  ghost predicate CallOk(call: Call)
  {
    call.GoodCall? ==> call.time != 0
  }

  lemma ApplyKeeps(h: Hasher, b: Book, call: Call)
    requires Inv(h, b) && CallOk(call)
    ensures CanCall(h, b, call) && Inv(h, Apply(h, b, call))
  {
    hide Inv, CanAdd, Add, CanGood, Good, CanShuffle, GetAddr, Attempt, Connected;
    match call
    case AddCall(a, source, penalty, chance) => AddKeeps(h, b, a, source, penalty, chance);
    case GoodCall(s, time) => GoodKeeps(h, b, s, time);
    case AttemptCall(s, time) => AttemptKeeps(h, b, s, time);
    case ConnectedCall(s, time) => AttemptKeeps(h, b, s, time);
    case GetAddrCall(rnd, now) => GetAddrKeeps(h, b, rnd, now);
  }

  /** The tables after all calls, from an empty manager; `None` once an assert fails. */
  ghost function Run(h: Hasher, calls: seq<Call>): Option<Book>
  {
    if calls == [] then Some(EMPTY)
    else
      match Run(h, calls[..|calls| - 1])
      case None => None
      case Some(b) => if CanCall(h, b, calls[|calls| - 1]) then Some(Apply(h, b, calls[|calls| - 1])) else None
  }

  // Main theorem on the address manager: whatever is added, tried and handed
  // out, and whatever the hashes, the clock and the dice say, no assert fails
  // and the tables stay consistent.
  lemma {:induction false} EveryRunIsConsistent(h: Hasher, calls: seq<Call>)
    requires forall i :: 0 <= i < |calls| ==> CallOk(calls[i])
    ensures Run(h, calls).Some? && Inv(h, Run(h, calls).value)
  {
    hide Inv, CanCall, Apply, CallOk;
    if calls == [] {
      EmptyInv(h);
    } else {
      var k := |calls| - 1;
      EveryRunIsConsistent(h, calls[..k]);
      ApplyKeeps(h, Run(h, calls[..k]).value, calls[k]);
    }
  }

  lemma BothClasses(info: Infos)
    ensures |info.Keys| == |NewIds(info)| + |TriedIds(info)|
  {
    assert NewIds(info) + TriedIds(info) == info.Keys;
    assert NewIds(info) !! TriedIds(info);
  }

  lemma {:induction false} ListsOnce(s: seq<int>, keys: set<int>)
    requires forall i, j :: 0 <= i < j < |s| ==> s[i] != s[j]
    requires keys == set x | x in s
    ensures |keys| == |s|
  {
    if s != [] {
      var k := |s| - 1;
      assert s == s[..k] + [s[k]];
      assert keys - {s[k]} == set x | x in s[..k];
      ListsOnce(s[..k], keys - {s[k]});
    }
  }

  lemma RandomListsKeys(info: Infos, random: seq<int>)
    requires RandomOk(info, random)
    ensures |random| == |info.Keys|
  {
    forall id | id in info ensures id in random {
      assert random[info[id].randomPos] == id;
    }
    forall id | id in random ensures id in info {
      var i :| 0 <= i < |random| && random[i] == id;
    }
    assert info.Keys == set x | x in random;
    forall i, j | 0 <= i < j < |random| ensures random[i] != random[j] {
      assert info[random[i]].randomPos == i && info[random[j]].randomPos == j;
    }
    hide RandomOk;
    ListsOnce(random, info.Keys);
  }

  // The first check of `check_`: the random order lists all entries of both classes.
  lemma RandomListsBothClasses(h: Hasher, b: Book)
    requires Inv(h, b)
    ensures |b.random| == b.nNew + b.nTried
  {
    RandomListsKeys(b.info, b.random);
    BothClasses(b.info);
    hide RandomOk, AddrOk, NewOk, RefsOk, TriedOk, IdsOk, NewIds, TriedIds;
  }
}
