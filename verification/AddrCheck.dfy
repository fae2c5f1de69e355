/** The address manager's own consistency check: which states it accepts, exactly. */
module AddrCheck {
  import opened Basics
  import opened AddrState
  import opened AddrRuns
  import opened AddrMan
  import AddrDisk

  // ----- what Check_ tests

  /** The first loop's tests of one entry. An address that mapAddr does not know is entered with id 0. */
  predicate EntryPasses(s: State, n: int)
    requires n in s.info
  {
    var i := s.info[n];
    && GoodInfo(i, false) && GoodStats(i)
    && (if i.service.ip in s.addr then s.addr[i.service.ip] == n else n == 0)
    && 0 <= i.nRandomPos < |s.random| && s.random[i.nRandomPos] == n
  }

  predicate EntriesPass(s: State) {
    forall n :: n in s.info ==> EntryPasses(s, n)
  }

  /** All that Check_ tests of the tables. */
  predicate Tests(h: Hasher, s: State) {
    && |s.random| == s.nTried + s.nNew
    && EntriesPass(s) && CountsGood(s, 0) && TriedGood(h, s) && NewGood(h, s)
  }

  /** What Check_ takes for granted: every address belongs to the entry it names, ids are below the next id,
      and the address of entry 0 is known. */
  predicate Named(s: State) {
    && (forall a :: a in s.addr ==> s.addr[a] in s.info && s.info[s.addr[a]].service.ip == a)
    && s.nIdCount >= 0 && (forall id :: id in s.info ==> 0 <= id < s.nIdCount)
    && (0 in s.info ==> s.info[0].service.ip in s.addr)
  }

  /** Looking up the address of entry 0 has entered it. */
  function Repaired(s: State): State {
    if 0 in s.info && s.info[0].service.ip !in s.addr then s.(addr := s.addr[s.info[0].service.ip := 0]) else s
  }

  /** Check_'s tests amount to consistency once the state is Named. */
  lemma TestsMean(h: Hasher, s: State)
    ensures CheckPasses(h, s) <==> Tests(h, s) && Named(s)
  {
    if CheckPasses(h, s) {
      RandomSize(h, s);
      PassesParts(h, s);
    } else if Tests(h, s) && Named(s) {
      TestedRandom(h, s);
      TestedConsistent(h, s);
    }
  }

  lemma PassesParts(h: Hasher, s: State)
    requires CheckPasses(h, s)
    ensures EntriesPass(s) && Named(s) && CountsGood(s, 0) && TriedGood(h, s) && NewGood(h, s)
  {
    hide TriedGood, NewGood, CountsGood;
  }

  lemma TestedConsistent(h: Hasher, s: State)
    requires Tests(h, s) && Named(s) && RandomGood(s)
    ensures CheckPasses(h, s)
  {
    hide TriedGood, NewGood, CountsGood, RandomGood;
  }

  /** The random order has as many places as there are entries, and each entry has one. */
  lemma TestedRandom(h: Hasher, s: State)
    requires Tests(h, s)
    ensures RandomGood(s)
  {
    hide TriedGood, NewGood, GoodInfo, GoodStats;
    forall id | id in s.info
      ensures 0 <= s.info[id].nRandomPos < |s.random| && s.random[s.info[id].nRandomPos] == id
    {
      assert EntryPasses(s, id);
    }
    EntryCount(s);
    AllPlaced(s.random, s.info.Keys);
    forall i | 0 <= i < |s.random|
      ensures s.random[i] in s.info && s.info[s.random[i]].nRandomPos == i
    {
    }
  }

  lemma EntryCount(s: State)
    requires CountsGood(s, 0)
    ensures |s.info.Keys| == s.nTried + s.nNew
  {
    assert s.info.Keys == TriedIds(s) + NewIds(s) && TriedIds(s) !! NewIds(s);
  }

  /** A sequence no longer than a set whose members it all lists lists each once, and nothing else. */
  lemma {:induction false} AllPlaced(r: seq<int>, ids: set<int>)
    requires |r| <= |ids| && forall id :: id in ids ==> id in r
    ensures forall i :: 0 <= i < |r| ==> r[i] in ids
    ensures forall i, j :: 0 <= i < j < |r| ==> r[i] != r[j]
  {
    if r != [] {
      var front, last := r[..|r| - 1], r[|r| - 1];
      assert r == front + [last];
      if last in ids && last !in front {
        AllPlaced(front, ids - {last});
      } else {
        Listed(front, ids);
        assert false;
      }
    }
  }

  lemma {:induction false} Listed(r: seq<int>, ids: set<int>)
    requires forall id :: id in ids ==> id in r
    ensures |ids| <= |r|
  {
    if r != [] {
      assert r == r[..|r| - 1] + [r[|r| - 1]];
      Listed(r[..|r| - 1], ids - {r[|r| - 1]});
    } else if ids != {} {
      var id := SomeMember(ids);
      assert false;
    }
  }

  /** Check_ misses that the address of entry 0 was forgotten: the lookup puts it back. */
  lemma ForgottenPasses(h: Hasher, s: State)
    requires CheckPasses(h, s) && 0 in s.info
    ensures var t := s.(addr := s.addr - {s.info[0].service.ip});
      Tests(h, t) && !CheckPasses(h, t) && Repaired(t) == s
  {
    TestsMean(h, s);
    var ip := s.info[0].service.ip;
    var t := s.(addr := s.addr - {ip});
    TestsMean(h, t);
    assert s.addr[ip] == 0;
    assert t.addr[ip := 0] == s.addr;
    forall n | n in t.info
      ensures EntryPasses(t, n)
    {
      assert EntryPasses(s, n);
    }
    SameTables(h, s, t);
  }

  lemma SameTables(h: Hasher, s: State, t: State)
    requires t == s.(addr := t.addr)
    ensures TriedGood(h, t) == TriedGood(h, s) && NewGood(h, t) == NewGood(h, s) && CountsGood(t, 0) == CountsGood(s, 0)
    ensures TriedIds(t) == TriedIds(s) && NewIds(t) == NewIds(s)
  {
  }

  lemma SameCounts(s: State, t: State)
    requires t.info == s.info && NewIds(t) == NewIds(s)
    ensures NewCounts(t) == NewCounts(s)
  {
    hide NewIds;
  }

  // ----- Check_

  /** Check_ but for its test that the key is set. */
  method Check(m: CAddrMan) returns (err: int)
    requires m.Shape()
    modifies m`mapAddr
    ensures err == 0 <==> Tests(m.hash, old(m.View()))
    ensures CheckPasses(m.hash, old(m.View())) <==> err == 0 && Named(old(m.View()))
    ensures err == 0 ==> m.View() == Repaired(old(m.View()))
  {
    hide Table, EntriesPass, CheckPasses, Named, TriedGood, NewGood, Repaired;
    ghost var s := m.View();
    TestsMean(m.hash, s);
    if |m.vRandom| != m.nTried + m.nNew { return -7; }
    var setTried, mapNew;
    err, setTried, mapNew := CheckInfos(m);
    if err != 0 { return; }
    SameTables(m.hash, s, m.View());
    SameCounts(s, m.View());
    Sizes(s);
    if |setTried| != m.nTried { return -9; }
    if |mapNew| != m.nNew { return -10; }
    err, setTried := CheckTried(m, setTried);
    if err != 0 { return; }
    err, mapNew := CheckNew(m, mapNew);
    if err != 0 { return; }
    if setTried != {} { return -13; }
    if mapNew != map[] { return -15; }
  }

  function NewCounts(s: State): map<int, int> {
    map id | id in NewIds(s) :: s.info[id].nRefCount
  }

  lemma Sizes(s: State)
    ensures |NewCounts(s)| == |NewIds(s)|
  {
    assert NewCounts(s).Keys == NewIds(s) && |NewCounts(s)| == |NewCounts(s).Keys|;
  }

  /** The first loop's tests of one entry, before which the lookups can have entered the address of entry 0. */
  method CheckEntry(m: CAddrMan, n: int, ghost s: State) returns (err: int)
    requires n in m.mapInfo && (m.View() == s || (n != 0 && m.View() == Repaired(s)))
    modifies m`mapAddr
    ensures m.View() == old(m.View()).(addr := m.mapAddr)
    ensures n in s.info && (err == 0 <==> EntryPasses(s, n))
    ensures err == 0 ==> m.View() == if n == 0 then Repaired(s) else old(m.View())
  {
    hide Table;
    var info := m.mapInfo[n];
    if info.fInTried {
      if info.nLastSuccess == 0 { return -1; }
      if info.nRefCount != 0 { return -2; }
    } else {
      if info.nRefCount < 0 || info.nRefCount > NEW_BUCKETS_PER_ADDRESS { return -3; }
      if info.nRefCount == 0 { return -4; }
    }
    if info.service.ip !in m.mapAddr { m.mapAddr := m.mapAddr[info.service.ip := 0]; }
    if m.mapAddr[info.service.ip] != n { return -5; }
    if info.nRandomPos < 0 || info.nRandomPos >= |m.vRandom| || m.vRandom[info.nRandomPos] != n { return -14; }
    if info.nLastTry < 0 { return -6; }
    if info.nLastSuccess < 0 { return -8; }
    err := 0;
  }

  /** The first loop: every entry by itself. */
  method CheckInfos(m: CAddrMan) returns (err: int, setTried: set<int>, mapNew: map<int, int>)
    requires m.Shape()
    modifies m`mapAddr
    ensures m.View() == old(m.View()).(addr := m.mapAddr)
    ensures err == 0 <==> EntriesPass(old(m.View()))
    ensures err == 0 ==> m.View() == Repaired(old(m.View()))
    ensures err == 0 ==> setTried == TriedIds(old(m.View())) && mapNew == NewCounts(old(m.View()))
    ensures forall id :: id in mapNew ==> mapNew[id] > 0
  {
    hide Table, GoodStats;
    ghost var s := m.View();
    err, setTried, mapNew := 0, {}, map[];
    var rest := m.mapInfo.Keys;
    while rest != {}
      invariant rest <= s.info.Keys && m.View() == if 0 in rest then s else Repaired(s)
      invariant forall id :: id in s.info && id !in rest ==> EntryPasses(s, id)
      invariant setTried == TriedIds(s) - rest
      invariant mapNew.Keys == NewIds(s) - rest && forall id :: id in mapNew ==> 0 < mapNew[id] == s.info[id].nRefCount
      decreases rest
    {
      ghost var some := SomeMember(rest);
      assert some in rest;
      var n :| n in rest;
      rest := rest - {n};
      err := CheckEntry(m, n, s);
      if err != 0 { return; }
      if m.mapInfo[n].fInTried {
        setTried := setTried + {n};
      } else {
        mapNew := mapNew[n := m.mapInfo[n].nRefCount];
      }
    }
    AllCounted(s, mapNew);
  }

  lemma AllCounted(s: State, mapNew: map<int, int>)
    requires mapNew.Keys == NewIds(s) - {} && forall id :: id in mapNew ==> mapNew[id] == s.info[id].nRefCount
    ensures mapNew == NewCounts(s)
  {
    assert mapNew.Keys == NewIds(s) && NewCounts(s).Keys == NewIds(s);
    forall id: int | id in mapNew
      ensures id in NewCounts(s) && mapNew[id] == NewCounts(s)[id]
    {
      assert id in mapNew.Keys;
    }
  }

  // ----- the tried table

  /** What the slots before position p of bucket b hold is tried, at its place, and struck off; nothing else is. */
  ghost predicate StruckOff(h: Hasher, s: State, setTried: set<int>, b: nat, p: nat) {
    && setTried <= TriedIds(s)
    && (forall sl :: sl in s.tried && AddrDisk.Before(sl, b, p) ==>
        s.tried[sl] in TriedIds(s) && s.tried[sl] !in setTried && h.TriedSlot(s.info[s.tried[sl]].service) == sl)
    && (forall id :: id in TriedIds(s) && id !in setTried ==>
        var sl := h.TriedSlot(s.info[id].service); AddrDisk.Before(sl, b, p) && sl in s.tried && s.tried[sl] == id)
  }

  /** The second loop: what is in the tried table, each once and at its place. */
  method CheckTried(m: CAddrMan, setTried0: set<int>) returns (err: int, setTried: set<int>)
    requires m.Shape() && setTried0 == TriedIds(m.View())
    ensures err == 0 && setTried == {} <==> TriedGood(m.hash, m.View())
  {
    hide Table, StruckOff, TriedGood;
    ghost var s := m.View();
    err, setTried := 0, setTried0;
    StrikeNone(m.hash, s);
    for n := 0 to TRIED_BUCKET_COUNT
      invariant err == 0 && StruckOff(m.hash, s, setTried, n, 0) && setTried <= m.mapInfo.Keys
    {
      for i := 0 to BUCKET_SIZE
        invariant err == 0 && StruckOff(m.hash, s, setTried, n, i) && setTried <= m.mapInfo.Keys
      {
        CellIs(m.vvTried, n, i);
        StrikeNext(m.hash, s, setTried, n, i);
        var nId := m.vvTried[n, i];
        if nId != EMPTY {
          if nId !in setTried { return -11, setTried; }
          if m.hash.TriedBucket(m.mapInfo[nId].service) != n { return -17, setTried; }
          if m.hash.Position(m.mapInfo[nId].service, false, n) != i { return -18, setTried; }
          setTried := setTried - {nId};
        }
      }
      TriedBounds(m);
      StrikeRow(m.hash, s, setTried, n);
    }
    TriedBounds(m);
    StrikeAll(m.hash, s, setTried);
  }

  lemma TriedBounds(m: CAddrMan)
    requires m.Shape()
    ensures forall sl :: sl in m.View().tried ==> sl.bucket < TRIED_BUCKET_COUNT && sl.pos < BUCKET_SIZE
    ensures forall sl :: sl in m.View().news ==> sl.bucket < NEW_BUCKET_COUNT && sl.pos < BUCKET_SIZE
  {
    CellsAll(m.vvTried);
    CellsAll(m.vvNew);
  }

  lemma StrikeNone(h: Hasher, s: State)
    ensures StruckOff(h, s, TriedIds(s), 0, 0)
  {
  }

  lemma SlotEquals(sl: Slot, b: nat, p: nat)
    ensures AddrDisk.Before(sl, b, p + 1) <==> AddrDisk.Before(sl, b, p) || sl == Slot(b, p)
    ensures !AddrDisk.Before(Slot(b, p), b, p)
  {
  }

  lemma StrikeNext(h: Hasher, s: State, setTried: set<int>, b: nat, p: nat)
    requires StruckOff(h, s, setTried, b, p)
    ensures Slot(b, p) !in s.tried ==> StruckOff(h, s, setTried, b, p + 1)
    ensures Slot(b, p) in s.tried ==>
      var id := s.tried[Slot(b, p)];
      if id in setTried && id in s.info && h.TriedSlot(s.info[id].service) == Slot(b, p)
        then StruckOff(h, s, setTried - {id}, b, p + 1)
      else !TriedGood(h, s)
  {
    hide AddrDisk.Before;
    forall sl
      ensures AddrDisk.Before(sl, b, p + 1) <==> AddrDisk.Before(sl, b, p) || sl == Slot(b, p)
    {
      SlotEquals(sl, b, p);
    }
    SlotEquals(Slot(b, p), b, p);
  }

  lemma StrikeRow(h: Hasher, s: State, setTried: set<int>, b: nat)
    requires StruckOff(h, s, setTried, b, BUCKET_SIZE)
    requires forall sl :: sl in s.tried ==> sl.pos < BUCKET_SIZE
    ensures StruckOff(h, s, setTried, b + 1, 0)
  {
  }

  lemma StrikeAll(h: Hasher, s: State, setTried: set<int>)
    requires StruckOff(h, s, setTried, TRIED_BUCKET_COUNT, 0)
    requires forall sl :: sl in s.tried ==> sl.bucket < TRIED_BUCKET_COUNT
    ensures setTried == {} <==> TriedGood(h, s)
  {
    if setTried == {} {
    } else {
      var id := SomeMember(setTried);
      assert id in TriedIds(s);
    }
  }

  // ----- the new table

  /** The references before position p of bucket b are at their place, and counted down. */
  ghost predicate CountedDown(h: Hasher, s: State, mapNew: map<int, int>, b: nat, p: nat) {
    && mapNew.Keys <= NewIds(s)
    && (forall sl :: sl in s.news && AddrDisk.Before(sl, b, p) ==>
        s.news[sl] in NewIds(s) && sl == h.NewSlotIn(s.info[s.news[sl]].service, sl.bucket))
    && (forall id :: id in NewIds(s) ==>
        |AddrDisk.Earlier(s, id, b, p)| + (if id in mapNew then mapNew[id] else 0) == s.info[id].nRefCount)
    && (forall id :: id in mapNew ==> mapNew[id] > 0)
  }

  /** One reference of id less. */
  function Lowered(mapNew: map<int, int>, id: int): map<int, int>
    requires id in mapNew
  {
    if mapNew[id] == 1 then mapNew - {id} else mapNew[id := mapNew[id] - 1]
  }

  /** The third loop: what is in the new table, as often as counted and at its place. */
  method CheckNew(m: CAddrMan, mapNew0: map<int, int>) returns (err: int, mapNew: map<int, int>)
    requires m.Shape() && mapNew0 == NewCounts(m.View()) && forall id :: id in mapNew0 ==> mapNew0[id] > 0
    ensures err == 0 && mapNew == map[] <==> NewGood(m.hash, m.View())
  {
    hide Table, CountedDown, NewGood;
    ghost var s := m.View();
    err, mapNew := 0, mapNew0;
    CountNone(m.hash, s);
    for n := 0 to NEW_BUCKET_COUNT
      invariant err == 0 && CountedDown(m.hash, s, mapNew, n, 0) && mapNew.Keys <= m.mapInfo.Keys
    {
      for i := 0 to BUCKET_SIZE
        invariant err == 0 && CountedDown(m.hash, s, mapNew, n, i) && mapNew.Keys <= m.mapInfo.Keys
      {
        CellIs(m.vvNew, n, i);
        CountNext(m.hash, s, mapNew, n, i);
        var nId := m.vvNew[n, i];
        if nId != EMPTY {
          if nId !in mapNew { return -12, mapNew; }
          if m.hash.Position(m.mapInfo[nId].service, true, n) != i { return -19, mapNew; }
          ghost var before := mapNew;
          mapNew := mapNew[nId := mapNew[nId] - 1];
          if mapNew[nId] == 0 { mapNew := mapNew - {nId}; }
          assert mapNew == Lowered(before, nId);
        }
      }
      TriedBounds(m);
      CountRow(m.hash, s, mapNew, n);
    }
    TriedBounds(m);
    CountAll(m.hash, s, mapNew);
  }

  lemma CountNone(h: Hasher, s: State)
    requires forall id :: id in NewCounts(s) ==> NewCounts(s)[id] > 0
    ensures CountedDown(h, s, NewCounts(s), 0, 0)
  {
    forall id
      ensures AddrDisk.Earlier(s, id, 0, 0) == {}
    {
    }
  }

  lemma CountNext(h: Hasher, s: State, mapNew: map<int, int>, b: nat, p: nat)
    requires CountedDown(h, s, mapNew, b, p) && b < NEW_BUCKET_COUNT
    ensures Slot(b, p) !in s.news ==> CountedDown(h, s, mapNew, b, p + 1)
    ensures Slot(b, p) in s.news ==>
      var id := s.news[Slot(b, p)];
      if id in mapNew && id in s.info && h.NewSlotIn(s.info[id].service, b) == Slot(b, p)
        then CountedDown(h, s, Lowered(mapNew, id), b, p + 1)
      else !NewGood(h, s)
  {
    hide AddrDisk.Before, AddrDisk.Earlier, NewGood;
    forall sl
      ensures AddrDisk.Before(sl, b, p + 1) <==> AddrDisk.Before(sl, b, p) || sl == Slot(b, p)
    {
      SlotEquals(sl, b, p);
    }
    if Slot(b, p) in s.news {
      forall o
        ensures |AddrDisk.Earlier(s, o, b, p + 1)| == |AddrDisk.Earlier(s, o, b, p)| + if o == s.news[Slot(b, p)] then 1
          else 0
      {
        AddrDisk.EarlierMore(s, b, p, o);
      }
      var id := s.news[Slot(b, p)];
      if id !in mapNew || id !in s.info || h.NewSlotIn(s.info[id].service, b) != Slot(b, p) {
        TooMany(h, s, mapNew, b, p);
      }
    } else {
      forall o
        ensures AddrDisk.Earlier(s, o, b, p + 1) == AddrDisk.Earlier(s, o, b, p)
      {
        SameEarlier(s, b, p, o);
      }
    }
  }

  lemma SameEarlier(s: State, b: nat, p: nat, id: int)
    requires Slot(b, p) !in s.news
    ensures AddrDisk.Earlier(s, id, b, p + 1) == AddrDisk.Earlier(s, id, b, p)
  {
  }

  lemma TooMany(h: Hasher, s: State, mapNew: map<int, int>, b: nat, p: nat)
    requires CountedDown(h, s, mapNew, b, p) && Slot(b, p) in s.news
    requires var id := s.news[Slot(b, p)];
      id !in mapNew || id !in s.info || h.NewSlotIn(s.info[id].service, b) != Slot(b, p)
    ensures !NewGood(h, s)
  {
    var sl := Slot(b, p);
    var id := s.news[sl];
    if NewGood(h, s) {
      assert id in NewIds(s) && sl == h.NewSlotIn(s.info[id].service, sl.bucket);
      assert AddrDisk.Earlier(s, id, b, p) <= SlotsOf(s.news, id) - {sl};
      SubsetSize(AddrDisk.Earlier(s, id, b, p), SlotsOf(s.news, id) - {sl});
    }
  }

  lemma CountRow(h: Hasher, s: State, mapNew: map<int, int>, b: nat)
    requires CountedDown(h, s, mapNew, b, BUCKET_SIZE)
    requires forall sl :: sl in s.news ==> sl.pos < BUCKET_SIZE
    ensures CountedDown(h, s, mapNew, b + 1, 0)
  {
    forall id
      ensures AddrDisk.Earlier(s, id, b + 1, 0) == AddrDisk.Earlier(s, id, b, BUCKET_SIZE)
    {
    }
  }

  lemma CountAll(h: Hasher, s: State, mapNew: map<int, int>)
    requires CountedDown(h, s, mapNew, NEW_BUCKET_COUNT, 0)
    requires forall sl :: sl in s.news ==> sl.bucket < NEW_BUCKET_COUNT
    ensures mapNew == map[] <==> NewGood(h, s)
  {
    forall id
      ensures AddrDisk.Earlier(s, id, NEW_BUCKET_COUNT, 0) == SlotsOf(s.news, id)
    {
    }
    if mapNew == map[] {
    } else {
      var id := SomeMember(mapNew.Keys);
      assert id in NewIds(s) && mapNew[id] > 0;
    }
  }
}
