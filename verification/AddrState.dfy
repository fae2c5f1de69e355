/** The address manager's tables as values, what each of its operations does to them, and the consistency
    that Check_ tests. */
module AddrState {

  type NetAddr = nat   // an IP address: only its identity and its hashes matter

  /** An address with its port; buckets are chosen by hashing it. */
  datatype Service = Service(ip: NetAddr, port: nat)

  /** What a peer announces. */
  datatype Address = Address(service: Service, nServices: bv64, nTime: nat)

  datatype AddrInfo = AddrInfo(
    service: Service,
    nServices: bv64,
    nTime: nat,          // unsigned 32-bit
    nLastTry: int,
    source: NetAddr,
    nLastSuccess: int,
    nAttempts: int,
    nRefCount: int,
    fInTried: bool,
    nRandomPos: int)

  const TRIED_BUCKET_COUNT: nat := 256
  const NEW_BUCKET_COUNT: nat := 1024
  const BUCKET_SIZE: nat := 64
  const NEW_BUCKETS_PER_ADDRESS: nat := 8
  const HORIZON_DAYS: int := 30
  const RETRIES: int := 3
  const MAX_FAILURES: int := 10
  const MIN_FAIL_DAYS: int := 7

  /** A place in one of the tables. */
  datatype Slot = Slot(bucket: nat, pos: nat)

  /** The keyed hashes that choose buckets and positions. */
  datatype Hasher = Hasher(triedHash: Service -> nat, newHash: (NetAddr, NetAddr) -> nat,
    posHash: (bool, nat, Service) -> nat) {
    function TriedBucket(s: Service): nat { triedHash(s) % TRIED_BUCKET_COUNT }

    function NewBucket(s: Service, source: NetAddr): nat { newHash(s.ip, source) % NEW_BUCKET_COUNT }

    function Position(s: Service, fNew: bool, bucket: nat): nat { posHash(fNew, bucket, s) % BUCKET_SIZE }

    function TriedSlot(s: Service): Slot { Slot(TriedBucket(s), Position(s, false, TriedBucket(s))) }

    /** Where an address sits if it is in the given new bucket. */
    function NewSlotIn(s: Service, bucket: nat): Slot { Slot(bucket, Position(s, true, bucket)) }

    function NewSlot(s: Service, source: NetAddr): Slot { NewSlotIn(s, NewBucket(s, source)) }
  }

  predicate IsTerrible(info: AddrInfo, nNow: int) {
    if info.nLastTry != 0 && info.nLastTry >= nNow - 60 then false
    else
      || info.nTime > nNow + 10 * 60
      || info.nTime == 0 || nNow - info.nTime > HORIZON_DAYS * 24 * 60 * 60
      || (info.nLastSuccess == 0 && info.nAttempts >= RETRIES)
      || (nNow - info.nLastSuccess > MIN_FAIL_DAYS * 24 * 60 * 60 && info.nAttempts >= MAX_FAILURES)
  }

  /** The tables; only occupied slots are listed. */
  datatype State = State(
    nIdCount: int,
    info: map<int, AddrInfo>,
    addr: map<NetAddr, int>,
    random: seq<int>,
    nTried: int,
    tried: map<Slot, int>,
    nNew: int,
    news: map<Slot, int>)

  // ----- operations

  function SetPos(info: map<int, AddrInfo>, id: int, pos: int): map<int, AddrInfo> {
    if id in info then info[id := info[id].(nRandomPos := pos)] else info
  }

  function SwapRandom(s: State, i: nat, j: nat): State
    requires i < |s.random| && j < |s.random|
  {
    if i == j then s
    else
      var id1, id2 := s.random[i], s.random[j];
      s.(info := SetPos(SetPos(s.info, id1, j), id2, i), random := s.random[i := id2][j := id1])
  }

  /** Remove an entry that is in no table. */
  function Delete(s: State, id: int): State
    requires id in s.info && 0 <= s.info[id].nRandomPos < |s.random|
  {
    var t := SwapRandom(s, s.info[id].nRandomPos, |s.random| - 1);
    t.(random := t.random[..|t.random| - 1],
       addr := t.addr - {s.info[id].service.ip},
       info := t.info - {id},
       nNew := t.nNew - 1)
  }

  /** Empty a new slot; its entry disappears with its last reference. */
  function ClearNew(s: State, slot: Slot): State
    requires slot in s.news ==>
      s.news[slot] in s.info && 0 <= s.info[s.news[slot]].nRandomPos < |s.random|
  {
    if slot !in s.news then s
    else
      var t := WithoutReference(s, slot);
      if t.info[s.news[slot]].nRefCount == 0 then Delete(t, s.news[slot]) else t
  }

  function Create(s: State, a: Address, source: NetAddr): State {
    var info := AddrInfo(a.service, a.nServices, a.nTime, 0, source, 0, 0, 0, false, |s.random|);
    s.(nIdCount := s.nIdCount + 1,
       info := s.info[s.nIdCount := info],
       addr := s.addr[a.service.ip := s.nIdCount],
       random := s.random + [s.nIdCount])
  }

  /** The slots an id occupies. */
  function SlotsOf(table: map<Slot, int>, id: int): set<Slot> {
    set sl | sl in table && table[sl] == id
  }

  // ----- consistency

  predicate GoodInfo(i: AddrInfo, limbo: bool) {
    if i.fInTried then i.nRefCount == 0 && !limbo
    else if limbo then i.nRefCount == 0
    else 1 <= i.nRefCount <= NEW_BUCKETS_PER_ADDRESS
  }

  /** The clauses of Check_ that are about times. */
  predicate GoodStats(i: AddrInfo) {
    (i.fInTried ==> i.nLastSuccess != 0) && i.nLastTry >= 0 && i.nLastSuccess >= 0
  }

  predicate StatsGood(s: State) {
    forall id :: id in s.info ==> GoodStats(s.info[id])
  }

  predicate InfosGood(s: State, limbo: set<int>) {
    s.nIdCount >= 0 && forall id :: id in s.info ==> 0 <= id < s.nIdCount && GoodInfo(s.info[id], id in limbo)
  }

  /** Ids and addresses name each other. */
  predicate AddrsGood(s: State) {
    && (forall id :: id in s.info ==> s.info[id].service.ip in s.addr && s.addr[s.info[id].service.ip] == id)
    && (forall a :: a in s.addr ==> s.addr[a] in s.info && s.info[s.addr[a]].service.ip == a)
  }

  /** Ids and places in the random order name each other. */
  predicate RandomGood(s: State) {
    && (forall id :: id in s.info ==> 0 <= s.info[id].nRandomPos < |s.random| && s.random[s.info[id].nRandomPos] == id)
    && (forall i :: 0 <= i < |s.random| ==> s.random[i] in s.info && s.info[s.random[i]].nRandomPos == i)
  }

  /** The tried table holds exactly the tried entries, each at its place. */
  predicate TriedGood(h: Hasher, s: State) {
    && (forall sl :: sl in s.tried ==>
        s.tried[sl] in s.info && s.info[s.tried[sl]].fInTried && sl == h.TriedSlot(s.info[s.tried[sl]].service))
    && (forall id :: id in s.info && s.info[id].fInTried ==>
        h.TriedSlot(s.info[id].service) in s.tried && s.tried[h.TriedSlot(s.info[id].service)] == id)
  }

  /** The new table holds entries that are not tried, each at its place in its bucket and as often as its
      reference count says. */
  predicate NewGood(h: Hasher, s: State) {
    && (forall sl :: sl in s.news ==>
        sl.bucket < NEW_BUCKET_COUNT && s.news[sl] in s.info && !s.info[s.news[sl]].fInTried &&
        sl == h.NewSlotIn(s.info[s.news[sl]].service, sl.bucket))
    && (forall id :: id in s.info && !s.info[id].fInTried ==> |SlotsOf(s.news, id)| == s.info[id].nRefCount)
  }

  function TriedIds(s: State): set<int> { set id | id in s.info && s.info[id].fInTried }

  function NewIds(s: State): set<int> { set id | id in s.info && !s.info[id].fInTried }

  predicate CountsGood(s: State, moving: int) {
    s.nTried == |TriedIds(s)| && s.nNew == |NewIds(s)| - moving
  }

  /** All of it; limbo holds entries between the tables, moving how many of them nNew has let go. */
  predicate Consistent(h: Hasher, s: State, limbo: set<int>, moving: int) {
    && InfosGood(s, limbo) && AddrsGood(s) && RandomGood(s) && TriedGood(h, s) && NewGood(h, s) && CountsGood(s, moving)
    && limbo <= s.info.Keys
  }

  predicate Inv(h: Hasher, s: State) {
    Consistent(h, s, {}, 0)
  }

  /** Consistent, with the times that Check_ asks for. */
  predicate CheckPasses(h: Hasher, s: State) {
    Inv(h, s) && StatsGood(s)
  }

  // ----- cardinalities

  lemma SlotsAfterPut(table: map<Slot, int>, slot: Slot, id: int, other: int)
    requires slot !in table
    ensures |SlotsOf(table[slot := id], other)| == |SlotsOf(table, other)| + if other == id then 1 else 0
  {
    if other == id {
      assert SlotsOf(table[slot := id], other) == SlotsOf(table, other) + {slot};
    } else {
      assert SlotsOf(table[slot := id], other) == SlotsOf(table, other);
    }
  }

  lemma SlotsAfterRemove(table: map<Slot, int>, slot: Slot, other: int)
    requires slot in table
    ensures |SlotsOf(table - {slot}, other)| == |SlotsOf(table, other)| - if other == table[slot] then 1 else 0
  {
    if other == table[slot] {
      assert SlotsOf(table - {slot}, other) == SlotsOf(table, other) - {slot};
    } else {
      assert SlotsOf(table - {slot}, other) == SlotsOf(table, other);
    }
  }

  /** Changing an entry without moving it between the tables keeps the counts. */
  lemma SameIds(s: State, t: State)
    requires t.info.Keys == s.info.Keys
    requires forall id :: id in s.info ==> t.info[id].fInTried == s.info[id].fInTried
    ensures TriedIds(t) == TriedIds(s) && NewIds(t) == NewIds(s)
  {
    forall id
      ensures id in TriedIds(t) <==> id in TriedIds(s)
      ensures id in NewIds(t) <==> id in NewIds(s)
    {
      assert id in t.info.Keys <==> id in s.info.Keys;
    }
  }

  // ----- SwapRandom

  /** What an entry says apart from its place in the random order. */
  predicate SameEntries(s: State, t: State) {
    && t.info.Keys == s.info.Keys
    && (forall id :: id in s.info ==> t.info[id].(nRandomPos := 0) == s.info[id].(nRandomPos := 0))
    && t.nIdCount == s.nIdCount && t.addr == s.addr && t.tried == s.tried && t.news == s.news
    && t.nTried == s.nTried && t.nNew == s.nNew
  }

  lemma SwapRandomGood(s: State, i: nat, j: nat)
    requires i < |s.random| && j < |s.random| && RandomGood(s)
    ensures RandomGood(SwapRandom(s, i, j)) && SameEntries(s, SwapRandom(s, i, j))
  {
    var t := SwapRandom(s, i, j);
    if i != j {
      var id1, id2 := s.random[i], s.random[j];
      assert id1 != id2;
      assert t.info == s.info[id1 := s.info[id1].(nRandomPos := j)][id2 := s.info[id2].(nRandomPos := i)];
      assert t.info.Keys == s.info.Keys;
      forall k | 0 <= k < |t.random|
        ensures t.random[k] in t.info && t.info[t.random[k]].nRandomPos == k
      {
        assert s.info[s.random[k]].nRandomPos == k;
      }
    }
  }

  lemma SwapRandomPermutes(s: State, i: nat, j: nat)
    requires i < |s.random| && j < |s.random|
    ensures multiset(SwapRandom(s, i, j).random) == multiset(s.random)
  {
    var r := s.random;
    if i != j {
      var t := r[i := r[j]][j := r[i]];
      assert multiset(r[i := r[j]]) == multiset(r) - multiset{r[i]} + multiset{r[j]};
      assert multiset(t) == multiset(r[i := r[j]]) - multiset{r[j]} + multiset{r[i]};
    }
  }

  lemma SameEntriesConsistent(h: Hasher, s: State, t: State, limbo: set<int>, moving: int)
    requires Consistent(h, s, limbo, moving) && SameEntries(s, t) && RandomGood(t)
    ensures Consistent(h, t, limbo, moving)
  {
    SameIds(s, t);
    forall id | id in s.info
      ensures t.info[id].service == s.info[id].service && t.info[id].fInTried == s.info[id].fInTried
      ensures t.info[id].nRefCount == s.info[id].nRefCount && t.info[id].nLastSuccess == s.info[id].nLastSuccess
      ensures t.info[id].nLastTry == s.info[id].nLastTry
    {
      assert t.info[id].(nRandomPos := 0) == s.info[id].(nRandomPos := 0);
    }
  }

  // ----- Delete

  lemma DropLastRandom(t: State, d: State, id: int)
    requires RandomGood(t) && |t.random| > 0 && t.random[|t.random| - 1] == id
    requires d.random == t.random[..|t.random| - 1] && d.info == t.info - {id}
    ensures RandomGood(d)
  {
    forall i | 0 <= i < |d.random|
      ensures d.random[i] in d.info && d.info[d.random[i]].nRandomPos == i
    {
      assert t.info[t.random[i]].nRandomPos == i;
    }
  }

  lemma SwapToEnd(s: State, id: int)
    requires RandomGood(s) && id in s.info
    ensures |s.random| > 0 && 0 <= s.info[id].nRandomPos < |s.random|
    ensures var t := SwapRandom(s, s.info[id].nRandomPos, |s.random| - 1);
      |t.random| == |s.random| && t.random[|s.random| - 1] == id
  {
  }

  lemma DeleteRandomGood(s: State, id: int)
    requires RandomGood(s) && id in s.info
    ensures 0 <= s.info[id].nRandomPos < |s.random| && RandomGood(Delete(s, id))
  {
    hide RandomGood, SwapRandom, SameEntries;
    SwapToEnd(s, id);
    var i, last := s.info[id].nRandomPos, |s.random| - 1;
    SwapRandomGood(s, i, last);
    DropLastRandom(SwapRandom(s, i, last), Delete(s, id), id);
  }

  lemma DeleteConsistent(h: Hasher, s: State, id: int, limbo: set<int>, moving: int)
    requires Consistent(h, s, limbo, moving) && id in limbo
    ensures id in s.info && 0 <= s.info[id].nRandomPos < |s.random|
    ensures Consistent(h, Delete(s, id), limbo - {id}, moving)
  {
    hide RandomGood, InfosGood, AddrsGood, TriedGood, NewGood, CountsGood, SwapRandom, SameEntries;
    PosInRange(s, id);
    DeleteRandomGood(s, id);
    var i, last := s.info[id].nRandomPos, |s.random| - 1;
    SwapRandomGood(s, i, last);
    var t := SwapRandom(s, i, last);
    SameEntriesConsistent(h, s, t, limbo, moving);
    DropEntry(h, t, Delete(s, id), id, limbo, moving);
  }

  lemma PosInRange(s: State, id: int)
    requires RandomGood(s) && id in s.info
    ensures 0 <= s.info[id].nRandomPos < |s.random|
  {
  }

  /** Dropping an entry that no table refers to. */
  lemma DropEntry(h: Hasher, t: State, d: State, id: int, limbo: set<int>, moving: int)
    requires Consistent(h, t, limbo, moving) && id in limbo
    requires d.info == t.info - {id} && d.addr == t.addr - {t.info[id].service.ip} && d.nNew == t.nNew - 1
    requires d.nTried == t.nTried && d.tried == t.tried && d.news == t.news && d.nIdCount == t.nIdCount
    requires RandomGood(d)
    ensures Consistent(h, d, limbo - {id}, moving)
  {
    hide RandomGood;
    assert !t.info[id].fInTried && |SlotsOf(t.news, id)| == 0;
    assert AddrsGood(d) by { DropNames(t, d, id); }
    hide AddrsGood;
    assert NewIds(d) == NewIds(t) - {id} && TriedIds(d) == TriedIds(t);
    NotReferred(t.news, id);
  }

  lemma DropNames(t: State, d: State, id: int)
    requires AddrsGood(t) && id in t.info && d.info == t.info - {id} && d.addr == t.addr - {t.info[id].service.ip}
    ensures AddrsGood(d)
  {
  }

  lemma NotReferred(table: map<Slot, int>, id: int)
    requires |SlotsOf(table, id)| == 0
    ensures forall sl :: sl in table ==> table[sl] != id
  {
    forall sl | sl in table
      ensures table[sl] != id
    {
      assert sl !in SlotsOf(table, id);
    }
  }

  // ----- changing one entry

  /** t has one entry of s rewritten, at the same address and place in the random order. */
  predicate Rewrites(s: State, t: State, id: int) {
    && id in s.info && id in t.info && t.info == s.info[id := t.info[id]]
    && t.info[id].service == s.info[id].service && t.info[id].nRandomPos == s.info[id].nRandomPos
    && t.nIdCount == s.nIdCount && t.addr == s.addr && t.random == s.random
  }

  lemma RewriteKeepsNames(s: State, t: State, id: int)
    requires Rewrites(s, t, id) && AddrsGood(s) && RandomGood(s)
    ensures AddrsGood(t) && RandomGood(t) && t.info.Keys == s.info.Keys
  {
    assert t.info.Keys == s.info.Keys;
  }

  lemma RewriteKeepsTried(h: Hasher, s: State, t: State, id: int)
    requires Rewrites(s, t, id) && t.info[id].fInTried == s.info[id].fInTried && t.tried == s.tried && TriedGood(h, s)
    ensures TriedGood(h, t)
  {
  }

  lemma RewriteKeepsCounts(s: State, t: State, id: int, moving: int)
    requires Rewrites(s, t, id) && t.info[id].fInTried == s.info[id].fInTried && t.nTried == s.nTried
      && t.nNew == s.nNew
    requires CountsGood(s, moving)
    ensures CountsGood(t, moving)
  {
    SameIds(s, t);
  }

  /** Statistics may change freely. */
  lemma StatsChange(h: Hasher, s: State, t: State, id: int, limbo: set<int>, moving: int)
    requires Consistent(h, s, limbo, moving) && Rewrites(s, t, id) && t == s.(info := t.info)
    requires t.info[id].fInTried == s.info[id].fInTried && t.info[id].nRefCount == s.info[id].nRefCount
    ensures Consistent(h, t, limbo, moving)
  {
    hide AddrsGood, RandomGood, TriedGood, CountsGood;
    RewriteKeepsNames(s, t, id);
    RewriteKeepsTried(h, s, t, id);
    RewriteKeepsCounts(s, t, id, moving);
  }

  // ----- ClearNew

  function WithoutReference(s: State, slot: Slot): State
    requires slot in s.news && s.news[slot] in s.info
  {
    var id := s.news[slot];
    s.(info := s.info[id := s.info[id].(nRefCount := s.info[id].nRefCount - 1)], news := s.news - {slot})
  }

  /** Taking one reference away. */
  lemma DropReference(h: Hasher, s: State, t: State, slot: Slot, limbo: set<int>, moving: int)
    requires Consistent(h, s, limbo, moving) && slot in s.news
    requires s.news[slot] in s.info && t == WithoutReference(s, slot)
    ensures s.info[s.news[slot]].nRefCount > 0
    ensures var id := s.news[slot]; Consistent(h, t, if t.info[id].nRefCount == 0 then limbo + {id} else limbo, moving)
  {
    hide AddrsGood, RandomGood, TriedGood, CountsGood;
    var id := s.news[slot];
    assert slot in SlotsOf(s.news, id);
    RewriteKeepsNames(s, t, id);
    RewriteKeepsTried(h, s, t, id);
    RewriteKeepsCounts(s, t, id, moving);
    DropReferenceNew(h, s, t, slot);
    assert id !in limbo;
  }

  lemma DropReferenceNew(h: Hasher, s: State, t: State, slot: Slot)
    requires NewGood(h, s) && slot in s.news
    requires s.news[slot] in s.info && t == WithoutReference(s, slot)
    ensures NewGood(h, t)
  {
    forall other | other in t.info && !t.info[other].fInTried
      ensures |SlotsOf(t.news, other)| == t.info[other].nRefCount
    {
      SlotsAfterRemove(s.news, slot, other);
    }
  }

  lemma ClearNewConsistent(h: Hasher, s: State, slot: Slot, limbo: set<int>, moving: int)
    requires Consistent(h, s, limbo, moving)
    ensures slot in s.news ==>
      s.news[slot] in s.info && s.info[s.news[slot]].nRefCount > 0 && 0 <= s.info[s.news[slot]].nRandomPos < |s.random|
    ensures Consistent(h, ClearNew(s, slot), limbo, moving) && slot !in ClearNew(s, slot).news
    ensures slot in s.news ==> s.news[slot] !in limbo
  {
    hide AddrsGood, RandomGood, TriedGood, CountsGood, Delete;
    if slot in s.news {
      var id, t := s.news[slot], WithoutReference(s, slot);
      PosInRange(s, id);
      DropReference(h, s, t, slot, limbo, moving);
      InSlotsOf(s.news, slot);
      if t.info[id].nRefCount == 0 {
        DeleteConsistent(h, t, id, limbo + {id}, moving);
        assert limbo + {id} - {id} == limbo;
        DeleteKeepsNews(t, id);
      }
    }
  }

  lemma InSlotsOf(table: map<Slot, int>, slot: Slot)
    requires slot in table
    ensures |SlotsOf(table, table[slot])| > 0
  {
    assert slot in SlotsOf(table, table[slot]);
  }

  lemma DeleteKeepsNews(s: State, id: int)
    requires id in s.info && 0 <= s.info[id].nRandomPos < |s.random|
    ensures Delete(s, id).news == s.news && Delete(s, id).tried == s.tried
  {
  }

  // ----- entering a new slot

  function EnterNew(s: State, id: int, slot: Slot): State
    requires id in s.info
  {
    s.(info := s.info[id := s.info[id].(nRefCount := s.info[id].nRefCount + 1)], news := s.news[slot := id])
  }

  lemma EnterNewConsistent(h: Hasher, s: State, id: int, slot: Slot, limbo: set<int>, moving: int)
    requires Consistent(h, s, limbo, moving)
    requires id in s.info && !s.info[id].fInTried && s.info[id].nRefCount < NEW_BUCKETS_PER_ADDRESS
    requires slot !in s.news && slot.bucket < NEW_BUCKET_COUNT && slot == h.NewSlotIn(s.info[id].service, slot.bucket)
    ensures Consistent(h, EnterNew(s, id, slot), limbo - {id}, moving)
  {
    hide AddrsGood, RandomGood, TriedGood, CountsGood;
    var t := EnterNew(s, id, slot);
    RewriteKeepsNames(s, t, id);
    RewriteKeepsTried(h, s, t, id);
    RewriteKeepsCounts(s, t, id, moving);
    forall other | other in t.info && !t.info[other].fInTried
      ensures |SlotsOf(t.news, other)| == t.info[other].nRefCount
    {
      SlotsAfterPut(s.news, slot, id, other);
    }
  }

  // ----- Create

  /** t has one more entry than s, referred to by nothing but its address and the random order. */
  predicate Adds(s: State, t: State, id: int) {
    && id !in s.info && id == s.nIdCount && t.nIdCount == id + 1
    && id in t.info && t.info == s.info[id := t.info[id]]
    && t.info[id].service.ip !in s.addr && t.addr == s.addr[t.info[id].service.ip := id]
    && t.info[id].nRandomPos == |s.random| && t.random == s.random + [id]
    && !t.info[id].fInTried && t.info[id].nRefCount == 0
    && t.tried == s.tried && t.news == s.news && t.nTried == s.nTried && t.nNew == s.nNew + 1
  }

  lemma AddsNames(s: State, t: State, id: int)
    requires Adds(s, t, id) && AddrsGood(s) && RandomGood(s)
    ensures AddrsGood(t) && RandomGood(t)
  {
  }

  lemma AddsTables(h: Hasher, s: State, t: State, id: int)
    requires Adds(s, t, id) && TriedGood(h, s) && NewGood(h, s)
    ensures TriedGood(h, t) && NewGood(h, t)
  {
    assert SlotsOf(t.news, id) == {};
  }

  lemma AddsCounts(s: State, t: State, id: int)
    requires Adds(s, t, id) && CountsGood(s, 0) && InfosGood(s, {})
    ensures CountsGood(t, 0) && InfosGood(t, {id})
  {
    assert NewIds(t) == NewIds(s) + {id} && TriedIds(t) == TriedIds(s);
  }

  /** A new entry, counted as new but in no table yet. */
  lemma CreateConsistent(h: Hasher, s: State, a: Address, source: NetAddr)
    requires Inv(h, s) && a.service.ip !in s.addr
    ensures Consistent(h, Create(s, a, source).(nNew := s.nNew + 1), {s.nIdCount}, 0)
  {
    hide AddrsGood, RandomGood, TriedGood, NewGood, CountsGood;
    var id, t := s.nIdCount, Create(s, a, source).(nNew := s.nNew + 1);
    AddsNames(s, t, id);
    AddsTables(h, s, t, id);
    AddsCounts(s, t, id);
  }

  // ----- the size of the random order

  lemma {:induction false} DistinctSize(r: seq<int>)
    requires forall i, j :: 0 <= i < j < |r| ==> r[i] != r[j]
    ensures |(set x | x in r)| == |r|
  {
    if r != [] {
      var front := r[..|r| - 1];
      DistinctSize(front);
      assert r == front + [r[|r| - 1]];
      assert (set x | x in r) == (set x | x in front) + {r[|r| - 1]};
    }
  }

  /** The random order is as long as there are entries. */
  lemma RandomSize(h: Hasher, s: State)
    requires Inv(h, s)
    ensures |s.random| == |s.info| == s.nTried + s.nNew
  {
    hide AddrsGood, TriedGood, NewGood, InfosGood;
    DistinctSize(s.random);
    assert (set x | x in s.random) == s.info.Keys by {
      forall id | id in s.info
        ensures id in s.random
      {
        assert s.random[s.info[id].nRandomPos] == id;
      }
    }
    assert s.info.Keys == TriedIds(s) + NewIds(s);
    assert TriedIds(s) !! NewIds(s);
  }
}
