/** The address manager: tables changed in place, each method proved against the state change it stands for. */
module AddrMan {
  import opened Basics
  import opened AddrState
  import opened AddrOps
  import opened AddrFields
  import opened AddrRuns
  import AddrDisk

  const EMPTY: int := -1

  // ----- a bucket table as a map

  function Cells(a: array2<int>): set<Slot> {
    set b: nat, p: nat | b < a.Length0 && p < a.Length1 :: Slot(b, p)
  }

  /** The occupied slots. */
  ghost function Table(a: array2<int>): map<Slot, int>
    reads a
  {
    CellsAll(a);
    map sl | sl in Cells(a) && a[sl.bucket, sl.pos] != EMPTY :: a[sl.bucket, sl.pos]
  }

  lemma CellsAll(a: array2<int>)
    ensures forall sl: Slot :: sl in Cells(a) <==> sl.bucket < a.Length0 && sl.pos < a.Length1
  {
    forall sl: Slot | sl.bucket < a.Length0 && sl.pos < a.Length1
      ensures sl in Cells(a)
    {
      assert sl == Slot(sl.bucket, sl.pos);
    }
  }

  lemma CellIs(a: array2<int>, b: nat, p: nat)
    requires b < a.Length0 && p < a.Length1
    ensures Slot(b, p) in Table(a) <==> a[b, p] != EMPTY
    ensures Slot(b, p) in Table(a) ==> Table(a)[Slot(b, p)] == a[b, p]
  {
    CellsAll(a);
  }

  method Write(a: array2<int>, b: nat, p: nat, v: int)
    requires b < a.Length0 && p < a.Length1
    modifies a
    ensures a[b, p] == v
    ensures Table(a) == if v == EMPTY then old(Table(a)) - {Slot(b, p)} else old(Table(a))[Slot(b, p) := v]
  {
    CellsAll(a);
    a[b, p] := v;
  }

  class CAddrMan {
    var hash: Hasher               // the bucket hashes under nKey
    var nIdCount: int
    var mapInfo: map<int, AddrInfo>
    var mapAddr: map<NetAddr, int>
    var vRandom: seq<int>
    var nTried: int
    const vvTried: array2<int>
    var nNew: int
    const vvNew: array2<int>

    ghost predicate Shape() {
      && vvTried != vvNew
      && vvTried.Length0 == TRIED_BUCKET_COUNT && vvTried.Length1 == BUCKET_SIZE
      && vvNew.Length0 == NEW_BUCKET_COUNT && vvNew.Length1 == BUCKET_SIZE
    }

    ghost function View(): State
      reads this, vvTried, vvNew
    {
      State(nIdCount, mapInfo, mapAddr, vRandom, nTried, Table(vvTried), nNew, Table(vvNew))
    }

    /** Consistent between calls. */
    ghost predicate Valid()
      reads this, vvTried, vvNew
    {
      Shape() && Inv(hash, View())
    }

    constructor (hasher: Hasher)
      ensures Valid() && fresh(this) && fresh(vvTried) && fresh(vvNew)
      ensures hash == hasher && View() == Empty()
    {
      hash := hasher;
      nIdCount, mapInfo, mapAddr, vRandom, nTried, nNew := 0, map[], map[], [], 0, 0;
      vvTried := new int[TRIED_BUCKET_COUNT, BUCKET_SIZE]((b, p) => EMPTY);
      vvNew := new int[NEW_BUCKET_COUNT, BUCKET_SIZE]((b, p) => EMPTY);
      new;
      CellsAll(vvTried);
      CellsAll(vvNew);
      assert Table(vvTried) == map[] && Table(vvNew) == map[];
      EmptyConsistent(hash);
    }

    method FindEntry(ip: NetAddr) returns (nId: int)
      ensures nId == Find(View(), ip)
    {
      if ip !in mapAddr { return -1; }
      nId := mapAddr[ip];
      if nId !in mapInfo { return -1; }
    }

    method CreateEntry(a: Address, source: NetAddr) returns (nId: int)
      requires Shape()
      modifies this
      ensures hash == old(hash)
      ensures Shape() && nId == old(nIdCount) && View() == Create(old(View()), a, source)
    {
      nId := nIdCount;
      nIdCount := nIdCount + 1;
      mapInfo := mapInfo[nId := AddrInfo(a.service, a.nServices, a.nTime, 0, source, 0, 0, 0, false, -1)];
      mapAddr := mapAddr[a.service.ip := nId];
      mapInfo := mapInfo[nId := mapInfo[nId].(nRandomPos := |vRandom|)];
      vRandom := vRandom + [nId];
    }

    method SwapRandomEntries(nRndPos1: nat, nRndPos2: nat)
      requires Shape() && nRndPos1 < |vRandom| && nRndPos2 < |vRandom|
      requires vRandom[nRndPos1] in mapInfo && vRandom[nRndPos2] in mapInfo
      modifies this
      ensures hash == old(hash)
      ensures Shape() && View() == SwapRandom(old(View()), nRndPos1, nRndPos2)
    {
      if nRndPos1 == nRndPos2 { return; }
      var nId1 := vRandom[nRndPos1];
      var nId2 := vRandom[nRndPos2];
      mapInfo := mapInfo[nId1 := mapInfo[nId1].(nRandomPos := nRndPos2)];
      mapInfo := mapInfo[nId2 := mapInfo[nId2].(nRandomPos := nRndPos1)];
      vRandom := vRandom[nRndPos1 := nId2];
      vRandom := vRandom[nRndPos2 := nId1];
    }

    method DeleteEntry(nId: int)
      requires Shape() && RandomGood(View()) && nId in mapInfo && !mapInfo[nId].fInTried && mapInfo[nId].nRefCount == 0
      modifies this
      ensures hash == old(hash)
      ensures Shape() && 0 <= old(mapInfo[nId].nRandomPos) < old(|vRandom|) && View() == Delete(old(View()), nId)
    {
      hide Table, RandomGood, SwapRandom;
      var service := mapInfo[nId].service;
      ghost var s := View();
      PosInRange(s, nId);
      AtPlace(s, mapInfo[nId].nRandomPos);
      AtPlace(s, |vRandom| - 1);
      SwapRandomSize(s, mapInfo[nId].nRandomPos, |vRandom| - 1);
      SwapRandomEntries(mapInfo[nId].nRandomPos, |vRandom| - 1);
      vRandom := vRandom[..|vRandom| - 1];
      mapAddr := mapAddr - {service.ip};
      mapInfo := mapInfo - {nId};
      nNew := nNew - 1;
    }

    method ClearNewSlot(nUBucket: nat, nUBucketPos: nat, ghost limbo: set<int>, ghost moving: int)
      requires Shape() && nUBucket < NEW_BUCKET_COUNT && nUBucketPos < BUCKET_SIZE
      requires Consistent(hash, View(), limbo, moving)
      modifies this, vvNew
      ensures hash == old(hash)
      ensures Shape()
      ensures var slot, s := Slot(nUBucket, nUBucketPos), old(View());
        && (slot in s.news ==> s.news[slot] in s.info && 0 <= s.info[s.news[slot]].nRandomPos < |s.random|)
        && View() == ClearNew(s, slot)
    {
      hide Table, Consistent, SwapRandom, RandomGood;
      ghost var slot, s := Slot(nUBucket, nUBucketPos), View();
      ClearNewConsistent(hash, s, slot, limbo, moving);
      CellIs(vvNew, nUBucket, nUBucketPos);
      if vvNew[nUBucket, nUBucketPos] != EMPTY {
        var nIdDelete := vvNew[nUBucket, nUBucketPos];
        mapInfo := mapInfo[nIdDelete := mapInfo[nIdDelete].(nRefCount := mapInfo[nIdDelete].nRefCount - 1)];
        Write(vvNew, nUBucket, nUBucketPos, EMPTY);
        assert View() == WithoutReference(s, slot);
        if mapInfo[nIdDelete].nRefCount == 0 {
          WithoutReferenceRandom(hash, s, slot, limbo, moving);
          DeleteEntry(nIdDelete);
        }
      }
    }

    /** The first part of MakeTried: the entry is removed from all new buckets. */
    method LeaveNewBuckets(nId: int)
      requires Valid() && nId in mapInfo && !mapInfo[nId].fInTried
      modifies this, vvNew
      ensures hash == old(hash)
      ensures Shape() && View() == LeaveNew(old(View()), nId)
    {
      hide Table, Consistent, NewGood, Left, Gone;
      ghost var s := View();
      InvParts(hash, s, nId);
      for bucket := 0 to NEW_BUCKET_COUNT
        invariant nId in mapInfo && hash == old(hash)
        invariant mapInfo == s.info[nId := s.info[nId].(nRefCount := s.info[nId].nRefCount - |Gone(s.news, nId,
          bucket)|)]
        invariant Table(vvNew) == Left(s.news, nId, bucket)
        invariant View() == s.(info := mapInfo, news := Table(vvNew))
      {
        LeaveStep(hash, s, nId, bucket);
        var pos := hash.Position(mapInfo[nId].service, true, bucket);
        CellIs(vvNew, bucket, pos);
        if vvNew[bucket, pos] == nId {
          Write(vvNew, bucket, pos, EMPTY);
          mapInfo := mapInfo[nId := mapInfo[nId].(nRefCount := mapInfo[nId].nRefCount - 1)];
        }
      }
      LeftAll(hash, s, nId);
      nNew := nNew - 1;
    }

    /** The middle part of MakeTried: the entry at the tried slot goes back to a new bucket. */
    method EvictTried(nKBucket: nat, nKBucketPos: nat, ghost id: int)
      requires Shape() && nKBucket < TRIED_BUCKET_COUNT && nKBucketPos < BUCKET_SIZE
      requires Consistent(hash, View(), {id}, 1)
      modifies this, vvTried, vvNew
      ensures hash == old(hash)
      ensures Shape() && Evictable(hash, old(View()), Slot(nKBucket, nKBucketPos))
      ensures View() == Evict(hash, old(View()), Slot(nKBucket, nKBucketPos))
    {
      hide Table, Consistent, RandomGood, ClearNew;
      ghost var s, slot := View(), Slot(nKBucket, nKBucketPos);
      EvictConsistent(hash, s, slot, id);
      CellIs(vvTried, nKBucket, nKBucketPos);
      if vvTried[nKBucket, nKBucketPos] != EMPTY {
        var nIdEvict := vvTried[nKBucket, nKBucketPos];
        UntryConsistent(hash, s, slot, {id}, 1);
        mapInfo := mapInfo[nIdEvict := mapInfo[nIdEvict].(fInTried := false)];
        Write(vvTried, nKBucket, nKBucketPos, EMPTY);
        nTried := nTried - 1;
        ghost var u := View();
        assert u == Untry(s, slot);

        var nUBucket := hash.NewBucket(mapInfo[nIdEvict].service, mapInfo[nIdEvict].source);
        var nUBucketPos := hash.Position(mapInfo[nIdEvict].service, true, nUBucket);
        ClearNewSlot(nUBucket, nUBucketPos, {id} + {nIdEvict}, 2);
        ghost var c := View();
        mapInfo := mapInfo[nIdEvict := mapInfo[nIdEvict].(nRefCount := 1)];
        Write(vvNew, nUBucket, nUBucketPos, nIdEvict);
        IdsNotEmpty(hash, s, slot, {id}, 1);
        nNew := nNew + 1;
      }
    }

    method MakeTriedEntry(nId: int)
      requires Valid() && nId in mapInfo && !mapInfo[nId].fInTried
      modifies this, vvTried, vvNew
      ensures hash == old(hash)
      ensures Valid() && Triable(hash, old(View()), nId) && View() == MakeTried(hash, old(View()), nId)
    {
      hide Table, Consistent, Evict, Evictable, LeaveNew;
      ghost var s := View();
      MakeTriedConsistent(hash, s, nId);
      LeaveNewConsistent(hash, s, nId);
      IdNotEmpty(hash, s, nId);
      LeaveNewKeeps(hash, s, nId);
      LeaveNewBuckets(nId);
      var nKBucket := hash.TriedBucket(mapInfo[nId].service);
      var nKBucketPos := hash.Position(mapInfo[nId].service, false, nKBucket);
      EvictTried(nKBucket, nKBucketPos, nId);
      ghost var e := View();
      Write(vvTried, nKBucket, nKBucketPos, nId);
      nTried := nTried + 1;
      mapInfo := mapInfo[nId := mapInfo[nId].(fInTried := true)];
    }

    /** The search of Good_ for a new bucket that holds the entry. */
    method FindNewBucket(nId: int, nRnd: nat) returns (nUBucket: int)
      requires Valid() && nRnd < NEW_BUCKET_COUNT && nId in mapInfo && !mapInfo[nId].fInTried
      ensures 0 <= nUBucket < NEW_BUCKET_COUNT
      ensures var slot := hash.NewSlotIn(mapInfo[nId].service, nUBucket);
        slot in View().news && View().news[slot] == nId
    {
      hide Table, Consistent, Passed;
      nUBucket := -1;
      var n := 0;
      PassedNone(hash, View(), nId, nRnd);
      while n < NEW_BUCKET_COUNT && nUBucket == -1
        invariant 0 <= n <= NEW_BUCKET_COUNT
        invariant nUBucket == -1 ==> !Passed(hash, View(), nId, nRnd, n)
        invariant nUBucket != -1 ==> 0 <= nUBucket < NEW_BUCKET_COUNT && InBucket(hash, View(), nId, nUBucket)
      {
        var nB := (n + nRnd) % NEW_BUCKET_COUNT;
        var nBpos := hash.Position(mapInfo[nId].service, true, nB);
        CellIs(vvNew, nB, nBpos);
        if vvNew[nB, nBpos] == nId { nUBucket := nB; }
        PassedStep(hash, View(), nId, nRnd, n);
        n := n + 1;
      }
      PassedAll(hash, View(), nId, nRnd);
    }

    method GoodEntry(a: Service, nTime: int, nRnd: nat)
      requires Valid() && nRnd < NEW_BUCKET_COUNT
      modifies this, vvTried, vvNew
      ensures hash == old(hash)
      ensures Valid() && View() == Good(hash, old(View()), a, nTime)
    {
      hide Table, Consistent, MakeTried;
      ghost var s := View();
      var nId := FindEntry(a.ip);
      if nId == -1 || mapInfo[nId].service != a { return; }
      mapInfo := mapInfo[nId := GoodInfoAt(mapInfo[nId], nTime)];
      ghost var t := View();
      assert t == Update(s, nId, GoodInfoAt(s.info[nId], nTime));
      StatsChange(hash, s, t, nId, {}, 0);
      if mapInfo[nId].fInTried { return; }

      var nUBucket := FindNewBucket(nId, nRnd);
      if nUBucket == -1 {
        assert false;   // the exit for an entry that is in no bucket
      }
      MakeTriedEntry(nId);
    }

    method AttemptEntry(a: Service, nTime: int)
      requires Valid()
      modifies this
      ensures hash == old(hash)
      ensures Valid() && View() == Attempt(old(View()), a, nTime)
    {
      hide Table, Consistent;
      ghost var s := View();
      var nId := FindEntry(a.ip);
      if nId == -1 || mapInfo[nId].service != a { return; }
      mapInfo := mapInfo[nId := mapInfo[nId].(nLastTry := nTime)];
      mapInfo := mapInfo[nId := mapInfo[nId].(nAttempts := mapInfo[nId].nAttempts + 1)];
      assert View() == Attempt(s, a, nTime);
      StatsChange(hash, s, View(), nId, {}, 0);
    }

    method ConnectedEntry(a: Service, nTime: int)
      requires Valid()
      modifies this
      ensures hash == old(hash)
      ensures Valid() && View() == Connected(old(View()), a, nTime)
    {
      hide Table, Consistent;
      ghost var s := View();
      var nId := FindEntry(a.ip);
      if nId == -1 || mapInfo[nId].service != a { return; }
      var nUpdateInterval := 20 * 60;
      if nTime - mapInfo[nId].nTime > nUpdateInterval {
        mapInfo := mapInfo[nId := mapInfo[nId].(nTime := Time32(nTime))];
        StatsChange(hash, s, View(), nId, {}, 0);
      }
    }

    /** GetAddr_: draw(n) is the random number of round n. */
    method GetAddrEntries(draw: nat -> nat, nNow: int) returns (vAddr: seq<AddrInfo>)
      requires Valid()
      modifies this
      ensures hash == old(hash)
      ensures Valid() && View() == GetAddr(old(View()), draw, nNow).0
      ensures var ids := GetAddr(old(View()), draw, nNow).1;
        Lists(vAddr, ids, old(mapInfo)) && HandsOut(old(View()), ids, nNow)
      ensures forall i :: 0 <= i < |vAddr| ==> Reliable(vAddr[i], nNow)
    {
      hide Table, Consistent, RandomGood, SwapRandom, Sample, SameEntries, Lists, IsTerrible, HandsOut, Reliable;
      ghost var s := View();
      SampleGood(hash, s, 0, [], draw, nNow);
      var nNodes := Wanted(|vRandom|);
      vAddr := [];
      ghost var ids: seq<int> := [];
      ListsNone(s.info);
      SameItself(s);
      var n := 0;
      while n < |vRandom| && |vAddr| < nNodes
        invariant 0 <= n <= |vRandom| == |s.random| && hash == old(hash)
        invariant Inv(hash, View()) && SameEntries(s, View())
        invariant Sample(View(), n, ids, draw, nNow) == GetAddr(s, draw, nNow)
        invariant |ids| == |vAddr| && Lists(vAddr, ids, s.info)
      {
        ghost var u := View();
        var nRndPos := draw(n) % (|vRandom| - n) + n;
        InvRandom(hash, u);
        AtPlace(u, n);
        AtPlace(u, nRndPos);
        SwapRandomGood(u, n, nRndPos);
        SwapRandomSize(u, n, nRndPos);
        SameEntriesConsistent(hash, u, SwapRandom(u, n, nRndPos), {}, 0);
        SameChain(s, u, SwapRandom(u, n, nRndPos));
        SampleRound(u, n, ids, draw, nNow);
        SwapRandomEntries(n, nRndPos);
        AtPlace(View(), n);
        var ai := mapInfo[vRandom[n]];
        ListsMore(s, View(), vRandom[n], vAddr, ids);
        if !IsTerrible(ai, nNow) {
          vAddr := vAddr + [ai];
          ids := ids + [vRandom[n]];
        }
        n := n + 1;
      }
      SampleDone(View(), n, ids, draw, nNow);
      GetAddrHandsOut(hash, s, draw, nNow);
      ListsReliable(s, vAddr, ids, nNow);
    }

    /** The last part of Add_. */
    method PlaceEntry(nId: int, source: NetAddr, nNow: int, ghost limbo: set<int>)
      requires Shape() && Consistent(hash, View(), limbo, 0)
      requires nId in mapInfo && !mapInfo[nId].fInTried && mapInfo[nId].nRefCount < NEW_BUCKETS_PER_ADDRESS
      requires limbo == if mapInfo[nId].nRefCount == 0 then {nId} else {}
      modifies this, vvNew
      ensures hash == old(hash)
      ensures Valid()
      ensures var slot := hash.NewSlot(old(mapInfo[nId].service), source);
        Placeable(hash, old(View()), nId, slot) && View() == Place(hash, old(View()), nId, slot, nNow)
    {
      hide Table, Consistent, Delete, ClearNew, RandomGood;
      ghost var s := View();
      var nUBucket := hash.NewBucket(mapInfo[nId].service, source);
      var nUBucketPos := hash.Position(mapInfo[nId].service, true, nUBucket);
      ghost var slot := Slot(nUBucket, nUBucketPos);
      PlaceConsistent(hash, s, nId, slot, nNow, limbo);
      CellIs(vvNew, nUBucket, nUBucketPos);
      KnownId(hash, s, nId, limbo);
      if vvNew[nUBucket, nUBucketPos] != nId {
        var fInsert := vvNew[nUBucket, nUBucketPos] == EMPTY;
        if !fInsert {
          var infoExisting := mapInfo[vvNew[nUBucket, nUBucketPos]];
          if IsTerrible(infoExisting, nNow) || (infoExisting.nRefCount > 1 && mapInfo[nId].nRefCount == 0) {
            fInsert := true;
          }
        }
        if fInsert {
          ClearNewSlot(nUBucket, nUBucketPos, limbo, 0);
          mapInfo := mapInfo[nId := mapInfo[nId].(nRefCount := mapInfo[nId].nRefCount + 1)];
          Write(vvNew, nUBucket, nUBucketPos, nId);
        } else {
          if mapInfo[nId].nRefCount == 0 {
            DeleteEntry(nId);
          }
        }
      }
    }

    /** The draw of Add_: nRand gives the random number. */
    static method StochasticTest(nRefCount: nat, nRand: nat) returns (fLucky: bool)
      ensures fLucky <==> nRefCount == 0 || Lucky(nRand, nRefCount)
    {
      var nFactor := 1;
      for n := 0 to nRefCount
        invariant nFactor == Pow2(n)
      {
        nFactor := nFactor * 2;
      }
      fLucky := !(nFactor > 1 && nRand % nFactor != 0);
    }

    method CreateAgedEntry(a: Address, source: NetAddr, nTimePenalty: int) returns (nId: int)
      requires Shape()
      modifies this
      ensures hash == old(hash)
      ensures Shape() && nId == old(nIdCount) && View() == CreateAged(old(View()), a, source, nTimePenalty)
    {
      hide Table;
      nId := CreateEntry(a, source);
      mapInfo := mapInfo[nId := mapInfo[nId].(nTime := Time32(Max0(mapInfo[nId].nTime - nTimePenalty)))];
      nNew := nNew + 1;
    }

    method RefreshEntry(nId: int, a: Address, nTimePenalty: int, nNow: int)
      requires nId in mapInfo
      modifies this
      ensures hash == old(hash)
      ensures View() == Update(old(View()), nId, Heard(old(mapInfo[nId]), a, nTimePenalty, nNow))
    {
      hide Table, BothServices, Max0, Time32;
      var info := mapInfo[nId];
      var fCurrentlyOnline := nNow - a.nTime < 24 * 60 * 60;
      var nUpdateInterval := if fCurrentlyOnline then 60 * 60 else 24 * 60 * 60;
      if a.nTime != 0 && (info.nTime == 0 || info.nTime < a.nTime - nUpdateInterval - nTimePenalty) {
        info := info.(nTime := Time32(Max0(a.nTime - nTimePenalty)));
      }
      info := info.(nServices := BothServices(info.nServices, a.nServices));
      mapInfo := mapInfo[nId := info];
    }

    /** What Add_ does to the entry of a known address, and whether it stops there. */
    method HearEntry(nId: int, a: Address, nTimePenalty: int, nNow: int, nRand: nat) returns (fSettled: bool)
      requires Valid() && nId in mapInfo
      modifies this
      ensures hash == old(hash)
      ensures Valid() && nId in mapInfo
      ensures View() == Update(old(View()), nId, Heard(old(mapInfo[nId]), a, nTimePenalty, nNow))
      ensures fSettled == Settled(mapInfo[nId], a, Lucky(nRand, RefCountOf(old(View()), nId)))
    {
      hide Table, Consistent, Lucky;
      ghost var s := View();
      RefreshEntry(nId, a, nTimePenalty, nNow);
      ghost var t := View();
      StatsChange(hash, s, t, nId, {}, 0);
      if a.nTime == 0 || (mapInfo[nId].nTime != 0 && a.nTime <= mapInfo[nId].nTime) { return true; }
      if mapInfo[nId].fInTried { return true; }
      if mapInfo[nId].nRefCount == NEW_BUCKETS_PER_ADDRESS { return true; }
      EntryCount(hash, t, nId);
      var fLucky := StochasticTest(mapInfo[nId].nRefCount, nRand);
      fSettled := !fLucky;
    }

    /** Add_ with the clock and the draw of the stochastic test given. */
    method AddEntry(a: Address, source: NetAddr, nTimePenalty: int, nNow: int, fRoutable: bool,
                    nRand: nat) returns (fNew: bool)
      requires Valid()
      modifies this, vvNew
      ensures hash == old(hash)
      ensures Valid()
      ensures (View(), fNew) == Add(hash, old(View()), a, source, nTimePenalty, nNow, fRoutable,
                                    Lucky(nRand, RefCountOf(old(View()), Find(old(View()), a.service.ip))))
    {
      hide Table, Consistent, Placeable, Place, CreateAged, Heard, Lucky;
      ghost var s := View();
      AddConsistent(hash, s, a, source, nTimePenalty, nNow, fRoutable,
        Lucky(nRand, RefCountOf(s, Find(s, a.service.ip))));
      if !fRoutable { return false; }
      fNew := false;
      var nId := FindEntry(a.service.ip);
      if nId != -1 {
        var fSettled := HearEntry(nId, a, nTimePenalty, nNow, nRand);
        if fSettled { return false; }
        AddPlaces(hash, View(), nId, source, nNow);
        EntryCount(hash, View(), nId);
      } else {
        Unknown(hash, s, a.service.ip);
        CreateAgedConsistent(hash, s, a, source, nTimePenalty);
        nId := CreateAgedEntry(a, source, nTimePenalty);
        fNew := true;
        PlaceConsistent(hash, View(), nId, hash.NewSlot(a.service, source), nNow, {nId});
      }
      PlaceEntry(nId, source, nNow, if fNew then {nId} else {});
    }

    // ----- on disk

    method Serialize() returns (s: seq<AddrDisk.Token>)
      requires Valid()
      ensures s == AddrDisk.Saved(hash, View())
    {
      hide Table, Consistent, AddrDisk.Buckets, AddrDisk.InfoTokens, AddrDisk.InfoToken, AddrDisk.Below;
      ghost var v := View();
      AddrDisk.BelowNone(v);
      s := [AddrDisk.TInt(1), AddrDisk.TInt(32), AddrDisk.TKey(hash), AddrDisk.TInt(nNew), AddrDisk.TInt(nTried)];
      var nUBuckets := AddrDisk.Xor30(NEW_BUCKET_COUNT);
      s := s + [AddrDisk.TInt(nUBuckets)];
      var mapUnkIds: map<int, int>;
      s, mapUnkIds := SerializeNew(s);
      s := SerializeTried(s);
      s := SerializeBuckets(s, mapUnkIds);
      AddrDisk.SavedParts(hash, v);
    }

    method SerializeNew(header: seq<AddrDisk.Token>) returns (s: seq<AddrDisk.Token>, mapUnkIds: map<int, int>)
      requires Valid()
      ensures s == header + AddrDisk.InfoTokens(View(), AddrDisk.All(View(), false))
      ensures forall id :: id in mapInfo ==> id in mapUnkIds && mapUnkIds[id] == AddrDisk.Rank(View(), id, false)
    {
      hide Table, Consistent, AddrDisk.InfoTokens, AddrDisk.InfoToken, AddrDisk.Below;
      ghost var v := View();
      AddrDisk.BelowNone(v);
      AddrDisk.IdsBounded(hash, v);
      s, mapUnkIds := header, map[];
      var nIds := 0;
      for it := 0 to nIdCount
        invariant nIds == |AddrDisk.Below(v, it, false)|
        invariant forall id :: id in mapInfo && 0 <= id < it ==>
          id in mapUnkIds && mapUnkIds[id] == AddrDisk.Rank(v, id, false)
        invariant s == header + AddrDisk.InfoTokens(v, AddrDisk.Below(v, it, false))
      {
        AddrDisk.BelowStep(hash, v, it, false);
        if it in mapInfo {
          mapUnkIds := mapUnkIds[it := nIds];
          if mapInfo[it].nRefCount != 0 {
            assert nIds != nNew;
            s := s + [AddrDisk.TInfo(AddrDisk.Persisted(mapInfo[it]))];
            nIds := nIds + 1;
          }
        }
      }
    }

    method SerializeTried(header: seq<AddrDisk.Token>) returns (s: seq<AddrDisk.Token>)
      requires Valid()
      ensures s == header + AddrDisk.InfoTokens(View(), AddrDisk.All(View(), true))
    {
      hide Table, Consistent, AddrDisk.InfoTokens, AddrDisk.InfoToken, AddrDisk.Below;
      ghost var v := View();
      AddrDisk.BelowNone(v);
      AddrDisk.IdsBounded(hash, v);
      s := header;
      var nIds := 0;
      for it := 0 to nIdCount
        invariant nIds == |AddrDisk.Below(v, it, true)|
        invariant s == header + AddrDisk.InfoTokens(v, AddrDisk.Below(v, it, true))
      {
        AddrDisk.BelowStep(hash, v, it, true);
        if it in mapInfo {
          if mapInfo[it].fInTried {
            assert nIds != nTried;
            s := s + [AddrDisk.TInfo(AddrDisk.Persisted(mapInfo[it]))];
            nIds := nIds + 1;
          }
        }
      }
    }

    method SerializeBuckets(header: seq<AddrDisk.Token>, mapUnkIds: map<int, int>) returns (s: seq<AddrDisk.Token>)
      requires Valid()
      requires forall id :: id in mapInfo ==> id in mapUnkIds && mapUnkIds[id] == AddrDisk.Rank(View(), id, false)
      ensures s == header + AddrDisk.Buckets(View(), 0)
    {
      hide *;
      s := header;
      for bucket := 0 to NEW_BUCKET_COUNT
        invariant s + AddrDisk.Buckets(View(), bucket) == header + AddrDisk.Buckets(View(), 0)
      {
        AddrDisk.BucketsStep(View(), bucket);
        ghost var was := s;
        s := SerializeBucket(bucket, s, mapUnkIds);
        Regroup(was, AddrDisk.BucketPart(View(), bucket), AddrDisk.Buckets(View(), bucket + 1));
      }
      AddrDisk.BucketsEnd(View());
    }

    method SerializeBucket(bucket: nat, header: seq<AddrDisk.Token>,
                           mapUnkIds: map<int, int>) returns (s: seq<AddrDisk.Token>)
      requires Valid() && bucket < NEW_BUCKET_COUNT
      requires forall id :: id in mapInfo ==> id in mapUnkIds && mapUnkIds[id] == AddrDisk.Rank(View(), id, false)
      ensures s == header + AddrDisk.BucketPart(View(), bucket)
    {
      hide Table, Consistent, AddrDisk.Rank, AddrDisk.Indices;
      ghost var v := View();
      var nSize := CountBucket(bucket);
      s := header + [AddrDisk.TInt(nSize)];
      for i := 0 to BUCKET_SIZE
        invariant s + AddrDisk.Indices(v, bucket, i) == header + AddrDisk.BucketPart(v, bucket)
      {
        CellIs(vvNew, bucket, i);
        AddrDisk.NewIdKnown(hash, v, Slot(bucket, i));
        AddrDisk.IndicesStep(v, bucket, i);
        if vvNew[bucket, i] != EMPTY {
          var nIndex := mapUnkIds[vvNew[bucket, i]];
          Regroup(s, [AddrDisk.TInt(nIndex)], AddrDisk.Indices(v, bucket, i + 1));
          s := s + [AddrDisk.TInt(nIndex)];
        }
      }
      AddrDisk.IndicesStep(v, bucket, BUCKET_SIZE);
    }

    method CountBucket(bucket: nat) returns (nSize: nat)
      requires Valid() && bucket < NEW_BUCKET_COUNT
      ensures nSize == |AddrDisk.Indices(View(), bucket, 0)|
    {
      hide Table, Consistent, AddrDisk.Rank;
      nSize := 0;
      for i := 0 to BUCKET_SIZE
        invariant nSize + |AddrDisk.Indices(View(), bucket, i)| == |AddrDisk.Indices(View(), bucket, 0)|
      {
        CellIs(vvNew, bucket, i);
        if vvNew[bucket, i] != EMPTY { nSize := nSize + 1; }
      }
    }

    /** Clear, with the random key given. */
    method ClearTables(key: Hasher)
      requires Shape()
      modifies this, vvTried, vvNew
      ensures Shape() && hash == key && View() == AddrDisk.Clear(old(View()))
    {
      hide Table;
      vRandom := [];
      hash := key;
      EmptyTable(vvNew);
      EmptyTable(vvTried);
      nIdCount, nTried, nNew := 0, 0, 0;
    }

    /** Read into a manager that holds no entries; false stands for an exception. */
    method Unserialize(stream: seq<AddrDisk.Token>, key: Hasher) returns (ok: bool, rest: seq<AddrDisk.Token>)
      requires Shape() && mapInfo == map[] && mapAddr == map[]
      requires AddrDisk.GoodHeader(stream) ==> stream[3].n >= 0
      modifies this, vvTried, vvNew
      ensures Shape() && ok == AddrDisk.Load(stream).Read?
      ensures ok ==>
        rest == AddrDisk.Load(stream).rest && hash == AddrDisk.Load(stream).value.key
        && View() == AddrDisk.Load(stream).value.state
    {
      hide Table, AddrDisk.LoadNew, AddrDisk.LoadTried, AddrDisk.LoadBuckets, AddrDisk.Prune, AddrDisk.Identity;
      ClearTables(key);
      assert View() == Empty();
      ok, rest := false, stream;
      if |rest| < 6 || !rest[0].TInt? || rest[1] != AddrDisk.TInt(32) || !rest[2].TKey? || !rest[3].TInt?
        || !rest[4].TInt? || !rest[5].TInt? {
        return;
      }
      var nVersion := rest[0].n;
      hash, nNew, nTried := rest[2].key, rest[3].n, rest[4].n;
      var nUBuckets := rest[5].n;
      rest := rest[6..];
      if nVersion != 0 { nUBuckets := AddrDisk.Xor30(nUBuckets); }
      var fKeep := nVersion == 1 && nUBuckets == NEW_BUCKET_COUNT;
      NothingIdentity();
      ok, rest := LoadNewEntries(rest, fKeep);
      if !ok { return; }
      ghost var a := View();
      nIdCount := nNew;
      assert View() == a.(nIdCount := nNew);
      SameIdentity(a, View());
      var nLost;
      ok, rest, nLost := LoadTriedEntries(rest);
      if !ok { return; }
      ghost var b := View();
      nTried := nTried - nLost;
      assert View() == b.(nTried := nTried);
      SameIdentity(b, View());
      ok, rest := LoadSlots(rest, nUBuckets, fKeep);
      if !ok { return; }
      var nLostUnk := PruneEntries();
    }

    /** One entry of the new table, read at place n. */
    method LoadNewEntry(n: nat, d: AddrDisk.DiskInfo, fKeep: bool)
      requires Shape()
      modifies this, vvNew
      ensures Shape() && hash == old(hash) && nNew == old(nNew) && nTried == old(nTried)
      ensures View() == AddrDisk.LoadNewEntry(hash, old(View()), n, d, fKeep)
    {
      hide Table;
      var info := AddrDisk.Overwrite(if n in mapInfo then mapInfo[n] else AddrDisk.NoInfo(), d);
      mapAddr := mapAddr[info.service.ip := n];
      mapInfo := mapInfo[n := info.(nRandomPos := |vRandom|)];
      vRandom := vRandom + [n];
      if !fKeep {
        var nUBucket := hash.NewBucket(info.service, info.source);
        var nUBucketPos := hash.Position(info.service, true, nUBucket);
        CellIs(vvNew, nUBucket, nUBucketPos);
        if vvNew[nUBucket, nUBucketPos] == EMPTY {
          Write(vvNew, nUBucket, nUBucketPos, n);
          mapInfo := mapInfo[n := mapInfo[n].(nRefCount := mapInfo[n].nRefCount + 1)];
        }
      }
    }

    /** The entries of the new table; when the slots cannot be used, each gets one from its source. */
    method LoadNewEntries(toks: seq<AddrDisk.Token>, fKeep: bool) returns (ok: bool, rest: seq<AddrDisk.Token>)
      requires Shape() && nNew >= 0 && AddrDisk.Identity(View()) && |vRandom| == 0
      modifies this, vvNew
      ensures Shape() && hash == old(hash) && nNew == old(nNew) && nTried == old(nTried)
      ensures var r := AddrDisk.LoadNew(hash, old(View()), toks, 0, nNew, fKeep);
        ok == r.Read? && (ok ==> rest == r.rest && View() == r.value && AddrDisk.Identity(View()) && |vRandom| == nNew)
    {
      hide Table, AddrDisk.Identity;
      ghost var v := View();
      rest := toks;
      var n := 0;
      while n < nNew
        invariant 0 <= n <= nNew == old(nNew) && nTried == old(nTried) && hash == old(hash)
        invariant AddrDisk.Identity(View()) && |vRandom| == n
        invariant AddrDisk.LoadNew(hash, View(), rest, n, nNew, fKeep) == AddrDisk.LoadNew(hash, v, toks, 0, nNew,
          fKeep)
      {
        if |rest| == 0 || !rest[0].TInfo? { return false, rest; }
        AddrDisk.IdentityNew(hash, View(), n, rest[0].info, fKeep);
        LoadNewEntry(n, rest[0].info, fKeep);
        rest := rest[1..];
        n := n + 1;
      }
      ok := true;
    }

    method LoadTriedEntries(toks: seq<AddrDisk.Token>) returns (ok: bool, rest: seq<AddrDisk.Token>, nLost: nat)
      requires Shape() && AddrDisk.Identity(View()) && |vRandom| == nIdCount
      modifies this, vvTried
      ensures Shape() && hash == old(hash) && nTried == old(nTried) && nNew == old(nNew)
      ensures var r := AddrDisk.LoadTried(hash, old(View()), toks, 0, nTried, 0);
        ok == r.Read? && (ok ==> rest == r.rest && (View(), nLost) == r.value && AddrDisk.Identity(View()))
    {
      hide Table, AddrDisk.Identity;
      ghost var v := View();
      rest, nLost := toks, 0;
      var n := 0;
      while n < nTried
        invariant 0 <= n && nTried == old(nTried) && nNew == old(nNew) && hash == old(hash)
        invariant AddrDisk.Identity(View()) && |vRandom| == nIdCount
        invariant AddrDisk.LoadTried(hash, View(), rest, n, nTried, nLost) == AddrDisk.LoadTried(hash, v, toks, 0,
          nTried, 0)
      {
        if |rest| == 0 || !rest[0].TInfo? { return false, rest, nLost; }
        ghost var w := View();
        AddrDisk.IdentityTried(hash, w, rest[0].info);
        var info := AddrDisk.Overwrite(AddrDisk.NoInfo(), rest[0].info);
        var nKBucket := hash.TriedBucket(info.service);
        var nKBucketPos := hash.Position(info.service, false, nKBucket);
        CellIs(vvTried, nKBucket, nKBucketPos);
        if vvTried[nKBucket, nKBucketPos] == EMPTY {
          info := info.(nRandomPos := |vRandom|, fInTried := true);
          vRandom := vRandom + [nIdCount];
          mapInfo := mapInfo[nIdCount := info];
          mapAddr := mapAddr[info.service.ip := nIdCount];
          Write(vvTried, nKBucket, nKBucketPos, nIdCount);
          nIdCount := nIdCount + 1;
          assert View() == AddrDisk.LoadTriedEntry(hash, w, rest[0].info);
        } else {
          nLost := nLost + 1;
        }
        rest := rest[1..];
        n := n + 1;
      }
      ok := true;
    }

    method LoadSlots(toks: seq<AddrDisk.Token>, nUBuckets: int, fKeep: bool) returns (ok: bool,
                     rest: seq<AddrDisk.Token>)
      requires Shape() && AddrDisk.Identity(View()) && (fKeep ==> nUBuckets == NEW_BUCKET_COUNT)
      modifies this, vvNew
      ensures Shape() && hash == old(hash) && nNew == old(nNew)
      ensures var r := AddrDisk.LoadBuckets(hash, old(View()), toks, 0, nUBuckets, nNew, fKeep);
        ok == r.Read? && (ok ==> rest == r.rest && View() == r.value && AddrDisk.Identity(View()))
    {
      hide Table, AddrDisk.Identity, AddrDisk.LoadBucket;
      ghost var v := View();
      rest := toks;
      var bucket := 0;
      while bucket < nUBuckets
        invariant 0 <= bucket && nNew == old(nNew) && hash == old(hash) && AddrDisk.Identity(View())
        invariant AddrDisk.LoadBuckets(hash, View(), rest, bucket, nUBuckets, nNew, fKeep)
               == AddrDisk.LoadBuckets(hash, v, toks, 0, nUBuckets, nNew, fKeep)
      {
        if |rest| == 0 || !rest[0].TInt? { return false, rest; }
        ok, rest := LoadSlotsOf(rest[1..], bucket, rest[0].n, fKeep);
        if !ok { return; }
        bucket := bucket + 1;
      }
      ok := true;
    }

    method LoadSlotsOf(toks: seq<AddrDisk.Token>, bucket: nat, nSize: int, fKeep: bool) returns (ok: bool,
                       rest: seq<AddrDisk.Token>)
      requires Shape() && AddrDisk.Identity(View()) && (fKeep ==> bucket < NEW_BUCKET_COUNT)
      modifies this, vvNew
      ensures Shape() && hash == old(hash) && nNew == old(nNew)
      ensures var r := AddrDisk.LoadBucket(hash, old(View()), toks, bucket, 0, nSize, nNew, fKeep);
        ok == r.Read? && (ok ==> rest == r.rest && View() == r.value && AddrDisk.Identity(View()))
    {
      hide Table, AddrDisk.Identity;
      ghost var v := View();
      rest := toks;
      var n := 0;
      while n < nSize
        invariant 0 <= n && nNew == old(nNew) && hash == old(hash) && AddrDisk.Identity(View())
        invariant AddrDisk.LoadBucket(hash, View(), rest, bucket, n, nSize, nNew, fKeep)
               == AddrDisk.LoadBucket(hash, v, toks, bucket, 0, nSize, nNew, fKeep)
      {
        if |rest| == 0 || !rest[0].TInt? { return false, rest; }
        ghost var w := View();
        var nIndex := rest[0].n;
        AddrDisk.IdentityIndex(hash, w, bucket, nIndex, nNew, fKeep);
        if 0 <= nIndex < nNew && nIndex in mapInfo && fKeep {
          var nUBucketPos := hash.Position(mapInfo[nIndex].service, true, bucket);
          CellIs(vvNew, bucket, nUBucketPos);
          if vvNew[bucket, nUBucketPos] == EMPTY && mapInfo[nIndex].nRefCount < NEW_BUCKETS_PER_ADDRESS {
            mapInfo := mapInfo[nIndex := mapInfo[nIndex].(nRefCount := mapInfo[nIndex].nRefCount + 1)];
            Write(vvNew, bucket, nUBucketPos, nIndex);
          }
        }
        assert View() == AddrDisk.LoadIndex(hash, w, bucket, nIndex, nNew, fKeep);
        rest := rest[1..];
        n := n + 1;
      }
      ok := true;
    }

    /** Remove the entries that are in no table. */
    method PruneEntries() returns (nLostUnk: nat)
      requires Shape() && AddrDisk.Identity(View())
      modifies this
      ensures Shape() && hash == old(hash)
      ensures (View(), nLostUnk) == AddrDisk.Prune(old(View()), 0, 0)
    {
      hide Table, AddrDisk.Identity, AddrDisk.Prune, AddrDisk.Stray, RandomGood, Delete;
      ghost var v := View();
      AddrDisk.IdentityRandom(v);
      nLostUnk := 0;
      var it := 0;
      while it < nIdCount
        invariant 0 <= it && hash == old(hash) && RandomGood(View())
        invariant AddrDisk.Prune(View(), it, nLostUnk) == AddrDisk.Prune(v, 0, 0)
      {
        AddrDisk.PruneStep(View(), it, nLostUnk);
        if it in mapInfo && !mapInfo[it].fInTried && mapInfo[it].nRefCount == 0 {
          DeleteEntry(it);
          nLostUnk := nLostUnk + 1;
        }
        it := it + 1;
      }
      AddrDisk.PruneEnd(View(), it, nLostUnk);
    }
  }

  lemma NothingIdentity()
    ensures forall nNew, nTried :: AddrDisk.Identity(Empty().(nNew := nNew, nTried := nTried))
  {
  }

  lemma SameIdentity(s: State, t: State)
    requires AddrDisk.Identity(s) && t.info == s.info && t.random == s.random
    ensures AddrDisk.Identity(t)
  {
  }

  method EmptyTable(a: array2<int>)
    modifies a
    ensures Table(a) == map[]
  {
    for bucket := 0 to a.Length0
      invariant forall b, p :: 0 <= b < bucket && 0 <= p < a.Length1 ==> a[b, p] == EMPTY
    {
      for entry := 0 to a.Length1
        invariant forall b, p :: 0 <= b < bucket && 0 <= p < a.Length1 ==> a[b, p] == EMPTY
        invariant forall p :: 0 <= p < entry ==> a[bucket, p] == EMPTY
      {
        a[bucket, entry] := EMPTY;
      }
    }
    CellsAll(a);
    assert Table(a) == map[];
  }

  /** The stochastic test: one chance in 2^nRefCount. */
  predicate Lucky(nRand: nat, nRefCount: nat) { nRand % Pow2(nRefCount) == 0 }

  /** One draw in 2, 4, 8 and so on is lucky: with n places, the first of 2^n. */
  lemma LuckyOnce(nRand: nat, nRefCount: nat)
    requires nRand < Pow2(nRefCount)
    ensures Lucky(nRand, nRefCount) <==> nRand == 0
    ensures Pow2(nRefCount + 1) == 2 * Pow2(nRefCount) && Pow2(0) == 1
  {
    SmallRemainder(nRand, Pow2(nRefCount));
  }

  lemma SmallRemainder(x: nat, p: nat)
    requires x < p
    ensures x % p == x
  {
  }

  function RefCountOf(s: State, id: int): nat {
    if id in s.info && s.info[id].nRefCount >= 0 then s.info[id].nRefCount else 0
  }

  // ----- the list of GetAddr_

  /** The entries of the ids listed, up to their places in the random order. */
  ghost predicate Lists(vAddr: seq<AddrInfo>, ids: seq<int>, info: map<int, AddrInfo>) {
    && |vAddr| == |ids|
    && forall i :: 0 <= i < |ids| ==> ids[i] in info && vAddr[i].(nRandomPos := 0) == info[ids[i]].(nRandomPos := 0)
  }

  lemma ListsReliable(s: State, vAddr: seq<AddrInfo>, ids: seq<int>, nNow: int)
    requires Lists(vAddr, ids, s.info) && HandsOut(s, ids, nNow)
    ensures forall i :: 0 <= i < |vAddr| ==> Reliable(vAddr[i], nNow)
  {
    forall i | 0 <= i < |vAddr|
      ensures Reliable(vAddr[i], nNow)
    {
      SamePlaceless(vAddr[i], s.info[ids[i]]);
    }
  }

  lemma ListsNone(info: map<int, AddrInfo>)
    ensures Lists([], [], info)
  {
  }

  lemma ListsMore(s: State, t: State, id: int, vAddr: seq<AddrInfo>, ids: seq<int>)
    requires Lists(vAddr, ids, s.info) && SameEntries(s, t) && id in t.info
    ensures Lists(vAddr + [t.info[id]], ids + [id], s.info)
  {
    assert id in s.info.Keys;
  }

  // ----- the search of Good_

  ghost predicate InBucket(h: Hasher, s: State, id: int, b: nat)
    requires id in s.info
  {
    var sl := h.NewSlotIn(s.info[id].service, b);
    sl in s.news && s.news[sl] == id
  }

  function InRound(m: nat, nRnd: nat): nat { (m + nRnd) % NEW_BUCKET_COUNT }

  /** Whether the first n buckets tried from nRnd on include one that holds the entry. */
  ghost predicate Passed(h: Hasher, s: State, id: int, nRnd: nat, n: nat)
    requires id in s.info
  {
    exists m: nat :: m < n && InBucket(h, s, id, InRound(m, nRnd))
  }

  lemma PassedNone(h: Hasher, s: State, id: int, nRnd: nat)
    requires Inv(h, s) && id in s.info
    ensures !Passed(h, s, id, nRnd, 0) && id != EMPTY
  {
  }

  lemma PassedStep(h: Hasher, s: State, id: int, nRnd: nat, n: nat)
    requires id in s.info
    ensures Passed(h, s, id, nRnd, n + 1) <==> Passed(h, s, id, nRnd, n) || InBucket(h, s, id, InRound(n, nRnd))
  {
    if InBucket(h, s, id, InRound(n, nRnd)) { assert Passed(h, s, id, nRnd, n + 1); }
  }

  /** An entry that is not tried is in some new bucket, so the search finds one. */
  lemma PassedAll(h: Hasher, s: State, id: int, nRnd: nat)
    requires Inv(h, s) && id in s.info && !s.info[id].fInTried && nRnd < NEW_BUCKET_COUNT
    ensures Passed(h, s, id, nRnd, NEW_BUCKET_COUNT)
  {
    var slots := SlotsOf(s.news, id);
    assert slots != {};
    var sl :| sl in slots;
    var m := if sl.bucket >= nRnd then sl.bucket - nRnd else sl.bucket + NEW_BUCKET_COUNT - nRnd;
    assert InRound(m, nRnd) == sl.bucket;
    assert InBucket(h, s, id, InRound(m, nRnd));
  }

  lemma EntryCount(h: Hasher, s: State, id: int)
    requires Inv(h, s) && id in s.info
    ensures 0 <= s.info[id].nRefCount <= NEW_BUCKETS_PER_ADDRESS
    ensures !s.info[id].fInTried ==> s.info[id].nRefCount > 0
  {
  }

  lemma KnownId(h: Hasher, s: State, id: int, limbo: set<int>)
    requires Consistent(h, s, limbo, 0) && id in s.info
    ensures id != EMPTY && RandomGood(s)
  {
  }

  // ----- leaving the new buckets one by one

  ghost function Left(m: map<Slot, int>, id: int, k: nat): map<Slot, int> {
    map sl | sl in m && !(m[sl] == id && sl.bucket < k) :: m[sl]
  }

  ghost function Gone(m: map<Slot, int>, id: int, k: nat): set<Slot> {
    set sl | sl in m && m[sl] == id && sl.bucket < k
  }

  lemma InvParts(h: Hasher, s: State, id: int)
    requires Inv(h, s) && id in s.info
    ensures NewGood(h, s) && id != EMPTY
    ensures Gone(s.news, id, 0) == {} && Left(s.news, id, 0) == s.news
  {
  }

  lemma LeaveStep(h: Hasher, s: State, id: int, k: nat)
    requires NewGood(h, s) && id in s.info
    ensures var sl := h.NewSlotIn(s.info[id].service, k);
      if sl in Left(s.news, id, k) && Left(s.news, id, k)[sl] == id then
        Left(s.news, id, k + 1) == Left(s.news, id, k) - {sl} && |Gone(s.news, id, k + 1)| == |Gone(s.news, id, k)| + 1
      else
        Left(s.news, id, k + 1) == Left(s.news, id, k) && Gone(s.news, id, k + 1) == Gone(s.news, id, k)
  {
    hide NewGood;
    var sl := h.NewSlotIn(s.info[id].service, k);
    OnlySlot(h, s, id, k);
    if sl in s.news && s.news[sl] == id {
      LeftStep(s.news, id, k, sl);
      assert Gone(s.news, id, k + 1) == Gone(s.news, id, k) + {sl};
    }
  }

  /** In each bucket an entry has but one place. */
  lemma OnlySlot(h: Hasher, s: State, id: int, k: nat)
    requires NewGood(h, s) && id in s.info
    ensures forall sl :: sl in s.news && s.news[sl] == id && sl.bucket == k ==> sl == h.NewSlotIn(s.info[id].service, k)
  {
  }

  lemma LeftStep(m: map<Slot, int>, id: int, k: nat, sl: Slot)
    requires sl in m && m[sl] == id && sl.bucket == k
    requires forall o :: o in m && m[o] == id && o.bucket == k ==> o == sl
    ensures Left(m, id, k + 1) == Left(m, id, k) - {sl}
  {
  }

  lemma LeftAll(h: Hasher, s: State, id: int)
    requires NewGood(h, s) && id in s.info
    ensures Gone(s.news, id, NEW_BUCKET_COUNT) == SlotsOf(s.news, id)
    ensures Left(s.news, id, NEW_BUCKET_COUNT) == LeaveNew(s, id).news
  {
  }

  lemma IdNotEmpty(h: Hasher, s: State, id: int)
    requires Inv(h, s) && id in s.info
    ensures id != EMPTY
  {
  }

  lemma IdsNotEmpty(h: Hasher, s: State, slot: Slot, limbo: set<int>, moving: int)
    requires Consistent(h, s, limbo, moving) && slot in s.tried
    ensures s.tried[slot] != EMPTY
  {
  }

  lemma WithoutReferenceRandom(h: Hasher, s: State, slot: Slot, limbo: set<int>, moving: int)
    requires Consistent(h, s, limbo, moving) && slot in s.news
    ensures s.news[slot] in s.info && !s.info[s.news[slot]].fInTried && RandomGood(WithoutReference(s, slot))
  {
    hide TriedGood, CountsGood, AddrsGood, InfosGood;
  }
}
