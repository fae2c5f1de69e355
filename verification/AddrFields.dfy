/** What the calls of the address manager do to the entry of an address, field by field, and which entries are handed
    out. */
module AddrFields {
  import opened AddrState
  import opened AddrOps
  import opened AddrRuns

  // ----- quality

  /** Tried within the last minute; or seen within thirty days and not more than ten minutes ahead, with a success
      before the third attempt, and within the last week before the tenth. */
  predicate Reliable(i: AddrInfo, nNow: int) {
    (i.nLastTry != 0 && nNow - i.nLastTry <= 60) ||
    (&& i.nTime != 0 && i.nTime - nNow <= 600 && nNow - i.nTime <= 2_592_000
     && (i.nAttempts < 3 || i.nLastSuccess != 0)
     && (i.nAttempts < 10 || nNow - i.nLastSuccess <= 604_800))
  }

  lemma TerribleMeans(i: AddrInfo, nNow: int)
    ensures IsTerrible(i, nNow) <==> !Reliable(i, nNow)
  {
  }

  /** Where an address can be: one place in the tried table, and one in each new bucket, chosen by the source. */
  lemma PlacesOf(h: Hasher, s: Service, source: NetAddr)
    ensures h.TriedSlot(s).bucket == h.triedHash(s) % 256
    ensures h.NewSlot(s, source).bucket == h.newHash(s.ip, source) % 1024
    ensures h.TriedSlot(s).pos == h.posHash(false, h.TriedSlot(s).bucket, s) % 64
    ensures h.NewSlot(s, source).pos == h.posHash(true, h.NewSlot(s, source).bucket, s) % 64
  {
  }

  // ----- Attempt_, Connected_ and Good_

  /** The manager knows the address with this port. */
  predicate Listed(s: State, a: Service) {
    a.ip in s.addr && s.addr[a.ip] in s.info && s.info[s.addr[a.ip]].service == a
  }

  lemma ListedKnown(h: Hasher, s: State, a: Service)
    requires Inv(h, s)
    ensures Knows(s, a) <==> Listed(s, a)
    ensures Listed(s, a) ==> Find(s, a.ip) == s.addr[a.ip]
  {
    if a.ip in s.addr { KnownFound(h, s, a.ip); }
  }

  /** Calls of Attempt_ for one service, one after the other. */
  function Attempts(s: State, a: Service, times: seq<int>): State {
    if times == [] then s else Attempt(Attempts(s, a, times[..|times| - 1]), a, times[|times| - 1])
  }

  /** They are counted, the last one is remembered, and nothing else changes; for a service that is not listed nothing
      changes at all. */
  lemma {:induction false} AttemptsCount(h: Hasher, s: State, a: Service, times: seq<int>)
    requires Inv(h, s)
    ensures Inv(h, Attempts(s, a, times))
    ensures !Listed(s, a) || times == [] ==> Attempts(s, a, times) == s
    ensures Listed(s, a) && times != [] ==>
      var id := s.addr[a.ip];
      Attempts(s, a, times) == s.(info := s.info[id := s.info[id].(
        nAttempts := s.info[id].nAttempts + |times|, nLastTry := times[|times| - 1])])
  {
    hide Consistent, Knows, Find;
    if times != [] {
      var t := Attempts(s, a, times[..|times| - 1]);
      AttemptsCount(h, s, a, times[..|times| - 1]);
      ListedKnown(h, t, a);
      assert Listed(t, a) == Listed(s, a);
      StepConsistent(h, t, CallAttempt(a, times[|times| - 1]));
    }
  }

  /** A peer that never answered is no longer reliable a minute after the third attempt. */
  lemma ThirdAttempt(h: Hasher, s: State, a: Service, times: seq<int>, nNow: int)
    requires Inv(h, s) && Listed(s, a) && |times| >= 3 && nNow > times[|times| - 1] + 60
    requires s.info[s.addr[a.ip]].nLastSuccess == 0 && s.info[s.addr[a.ip]].nAttempts >= 0
    ensures var t := Attempts(s, a, times); Listed(t, a) && !Reliable(t.info[t.addr[a.ip]], nNow)
  {
    hide Consistent, Attempts;
    AttemptsCount(h, s, a, times);
  }

  /** Connected_ sets the time of a listed service when it is more than twenty minutes older, and nothing else. */
  lemma ConnectedIs(h: Hasher, s: State, a: Service, nTime: int)
    requires Inv(h, s)
    ensures Connected(s, a, nTime) == if Listed(s, a) && nTime - s.info[s.addr[a.ip]].nTime > 1200
      then s.(info := s.info[s.addr[a.ip] := s.info[s.addr[a.ip]].(nTime := nTime % 0x1_0000_0000)]) else s
  {
    hide Consistent, Knows, Find;
    ListedKnown(h, s, a);
  }

  /** Good_ puts a listed service into the tried table at its place, in no new bucket, as seen, tried and answering at
      that time, without failed attempts; a service that is not listed changes nothing. */
  lemma GoodIs(h: Hasher, s: State, a: Service, nTime: int)
    requires Inv(h, s)
    ensures !Listed(s, a) ==> Good(h, s, a, nTime) == s
    ensures Listed(s, a) ==>
      var id, t := s.addr[a.ip], Good(h, s, a, nTime);
      && id in t.info && a.ip in t.addr && t.addr[a.ip] == id
      && t.info[id].(nRandomPos := 0) == s.info[id].(nLastSuccess := nTime, nLastTry := nTime,
        nTime := nTime % 0x1_0000_0000, nAttempts := 0, nRefCount := 0, fInTried := true, nRandomPos := 0)
      && h.TriedSlot(a) in t.tried && t.tried[h.TriedSlot(a)] == id
  {
    hide Consistent, Knows, Find, MakeTried, Triable, Evict, LeaveNew, EnterTried;
    ListedKnown(h, s, a);
    GoodConsistent(h, s, a, nTime);
    if Listed(s, a) {
      var id := s.addr[a.ip];
      var t := Update(s, id, GoodInfoAt(s.info[id], nTime));
      StatsChange(h, s, t, id, {}, 0);
      if t.info[id].fInTried {
        InTried(h, t, id);
      } else {
        MadeTried(h, t, id);
        InTried(h, Good(h, s, a, nTime), id);
      }
    }
  }

  lemma InTried(h: Hasher, s: State, id: int)
    requires Inv(h, s) && id in s.info && s.info[id].fInTried
    ensures s.info[id].nRefCount == 0 && s.info[id].service.ip in s.addr && s.addr[s.info[id].service.ip] == id
    ensures h.TriedSlot(s.info[id].service) in s.tried && s.tried[h.TriedSlot(s.info[id].service)] == id
  {
  }

  /** MakeTried changes nothing in its own entry but the table it is in. */
  lemma MadeTried(h: Hasher, s: State, id: int)
    requires Inv(h, s) && id in s.info && !s.info[id].fInTried
    ensures Triable(h, s, id)
    ensures id in MakeTried(h, s, id).info
    ensures MakeTried(h, s, id).info[id].(nRandomPos := 0) ==
      s.info[id].(nRefCount := 0, fInTried := true, nRandomPos := 0)
  {
    hide Consistent, Evict, Evictable;
    MakeTriedConsistent(h, s, id);
    var slot, t := h.TriedSlot(s.info[id].service), LeaveNew(s, id);
    LeaveNewConsistent(h, s, id);
    EvictConsistent(h, t, slot, id);
  }

  // ----- GetAddr_

  /** Of the first n in the random order every one is taken or of low quality. */
  predicate Swept(s: State, n: nat, got: seq<int>, nNow: int) {
    n <= |s.random| && forall i :: 0 <= i < n ==>
      (s.random[i] in got || (s.random[i] in s.info && IsTerrible(s.info[s.random[i]], nNow)))
  }

  lemma SweptStep(s: State, n: nat, k: nat, got: seq<int>, nNow: int)
    requires RandomGood(s) && n <= k < |s.random| && Swept(s, n, got, nNow)
    ensures var t := SwapRandom(s, n, k);
      && n < |t.random| && t.random[n] in t.info
      && Swept(t, n + 1, if !IsTerrible(t.info[t.random[n]], nNow) then got + [t.random[n]] else got, nNow)
  {
    hide RandomGood, IsTerrible, SwapRandom;
    SwapRandomGood(s, n, k);
    SwapRandomSize(s, n, k);
    var t := SwapRandom(s, n, k);
    AtPlace(t, n);
    forall i | 0 <= i < n
      ensures t.random[i] == s.random[i] && s.random[i] in s.info && s.random[i] in t.info
        && t.info[s.random[i]] == s.info[s.random[i]]
    {
      AtPlace(s, i);
      SwapKeepsEarlier(s, n, k, s.random[i]);
      SwapElsewhere(s, n, k, i);
    }
  }

  lemma SwapElsewhere(s: State, n: nat, k: nat, i: nat)
    requires i < n <= k < |s.random|
    ensures i < |SwapRandom(s, n, k).random| && SwapRandom(s, n, k).random[i] == s.random[i]
  {
  }

  /** The loop ends with as many as wanted, or with all of good quality. */
  lemma {:induction false} SampleSweeps(h: Hasher, s: State, n: nat, got: seq<int>, draw: nat -> nat, nNow: int)
    requires Inv(h, s) && Swept(s, n, got, nNow)
    ensures var (t, ids) := Sample(s, n, got, draw, nNow);
      |ids| >= Wanted(|s.random|) || Swept(t, |t.random|, ids, nNow)
    decreases |s.random| - n
  {
    hide Consistent, Swept, SwapRandom, SameEntries, Sample, IsTerrible;
    SweptSize(s, n, got, nNow);
    if n == |s.random| || |got| >= Wanted(|s.random|) {
      SampleDone(s, n, got, draw, nNow);
    } else {
      SampleRound(s, n, got, draw, nNow);
      var k := draw(n) % (|s.random| - n) + n;
      InvRandom(h, s);
      SwapRandomGood(s, n, k);
      SweptStep(s, n, k, got, nNow);
      var t := SwapRandom(s, n, k);
      SwapRandomSize(s, n, k);
      SameEntriesConsistent(h, s, t, {}, 0);
      var more := if !IsTerrible(t.info[t.random[n]], nNow) then got + [t.random[n]] else got;
      SampleSweeps(h, t, n + 1, more, draw, nNow);
    }
  }

  lemma SweptSize(s: State, n: nat, got: seq<int>, nNow: int)
    requires Swept(s, n, got, nNow)
    ensures n <= |s.random|
  {
  }

  /** At most 23 percent of the entries and at most 2500, all of them reliable; and when there are fewer than that,
      every reliable entry. */
  ghost predicate HandsOut(s: State, ids: seq<int>, nNow: int) {
    && 100 * |ids| <= 23 * |s.random| && |ids| <= 2500
    && (forall i :: 0 <= i < |ids| ==> ids[i] in s.info && Reliable(s.info[ids[i]], nNow))
    && (forall i, j :: 0 <= i < j < |ids| ==> ids[i] != ids[j])
    && (100 * (|ids| + 1) <= 23 * |s.random| && |ids| < 2500 ==>
        forall id :: id in s.info && Reliable(s.info[id], nNow) ==> id in ids)
  }

  lemma GetAddrHandsOut(h: Hasher, s: State, draw: nat -> nat, nNow: int)
    requires Inv(h, s)
    ensures HandsOut(s, GetAddr(s, draw, nNow).1, nNow)
  {
    hide Consistent, Sample, SameEntries, IsTerrible, Reliable, Wanted, Sampled, Swept;
    WantedIs(|s.random|);
    NothingSampled(s, nNow);
    SampleGood(h, s, 0, [], draw, nNow);
    SampleSweeps(h, s, 0, [], draw, nNow);
    var (t, ids) := Sample(s, 0, [], draw, nNow);
    Permuted(s.random, t.random);
    SampledHandsOut(s, t, ids, nNow);
    if |ids| < Wanted(|s.random|) {
      SweptHandsOut(h, s, t, ids, nNow);
    }
  }

  lemma Permuted(a: seq<int>, b: seq<int>)
    requires multiset(a) == multiset(b)
    ensures |a| == |b|
  {
    assert |multiset(a)| == |multiset(b)|;
  }

  lemma NothingSampled(s: State, nNow: int)
    ensures Sampled(s, 0, [], nNow) && Swept(s, 0, [], nNow)
  {
  }

  lemma WantedIs(n: nat)
    ensures var w := Wanted(n); 100 * w <= 23 * n && w <= 2500 && (100 * (w + 1) <= 23 * n ==> w == 2500)
  {
  }

  lemma SampledHandsOut(s: State, t: State, ids: seq<int>, nNow: int)
    requires SameEntries(s, t) && Sampled(t, |t.random|, ids, nNow)
    ensures |ids| <= Wanted(|t.random|)
    ensures forall i :: 0 <= i < |ids| ==> ids[i] in s.info && Reliable(s.info[ids[i]], nNow)
    ensures forall i, j :: 0 <= i < j < |ids| ==> ids[i] != ids[j]
  {
    hide IsTerrible, Reliable, Wanted;
    forall i | 0 <= i < |ids|
      ensures ids[i] in s.info && Reliable(s.info[ids[i]], nNow)
    {
      assert ids[i] in t.info.Keys;
      SameReliable(s, t, ids[i], nNow);
    }
  }

  /** Reliability does not depend on the place in the random order. */
  lemma SameReliable(s: State, t: State, id: int, nNow: int)
    requires SameEntries(s, t) && id in s.info
    ensures id in t.info && (IsTerrible(t.info[id], nNow) <==> !Reliable(s.info[id], nNow))
  {
    assert id in t.info.Keys && t.info[id].(nRandomPos := 0) == s.info[id].(nRandomPos := 0);
    TerribleMeans(t.info[id], nNow);
    SamePlaceless(s.info[id], t.info[id]);
  }

  lemma SamePlaceless(a: AddrInfo, b: AddrInfo)
    requires a.(nRandomPos := 0) == b.(nRandomPos := 0)
    ensures a == b.(nRandomPos := a.nRandomPos)
  {
  }

  lemma SweptHandsOut(h: Hasher, s: State, t: State, ids: seq<int>, nNow: int)
    requires Inv(h, t) && SameEntries(s, t) && Swept(t, |t.random|, ids, nNow)
    ensures forall id :: id in s.info && Reliable(s.info[id], nNow) ==> id in ids
  {
    hide Consistent, IsTerrible, Reliable, SameEntries;
    forall id | id in s.info && Reliable(s.info[id], nNow)
      ensures id in ids
    {
      SameReliable(s, t, id, nNow);
      InvRandom(h, t);
      assert t.random[t.info[id].nRandomPos] == id;
    }
  }

  // ----- Add_

  /** The time kept for an address heard of at a time, less the penalty. */
  function Aged(nTime: int, nTimePenalty: int): nat {
    if nTime < nTimePenalty then 0 else (nTime - nTimePenalty) % 0x1_0000_0000
  }

  /** The slot is free for a newcomer with no other place: empty, or held by an unreliable entry or by one with another
      place. */
  predicate Gives(s: State, slot: Slot, nNow: int) {
    slot in s.news && s.news[slot] in s.info ==>
      !Reliable(s.info[s.news[slot]], nNow) || s.info[s.news[slot]].nRefCount > 1
  }

  /** An address that is not routable changes nothing. */
  lemma AddUnroutable(h: Hasher, s: State, a: Address, source: NetAddr, nTimePenalty: int, nNow: int, fLucky: bool)
    requires Inv(h, s)
    ensures Add(h, s, a, source, nTimePenalty, nNow, false, fLucky) == (s, false)
  {
  }

  /** An unknown address is stored exactly when its slot gives way, and then as a new entry with one place, its own
      services and source, its aged time and no history. */
  lemma AddedIs(h: Hasher, s: State, a: Address, source: NetAddr, nTimePenalty: int, nNow: int, fLucky: bool)
    requires Inv(h, s) && a.service.ip !in s.addr
    ensures var t, slot := Add(h, s, a, source, nTimePenalty, nNow, true, fLucky).0, h.NewSlot(a.service, source);
      && (a.service.ip in t.addr <==> Gives(s, slot, nNow))
      && (a.service.ip in t.addr ==>
          && slot in t.news && t.news[slot] == t.addr[a.service.ip] && t.news[slot] in t.info
          && t.info[t.news[slot]].(nRandomPos := 0) ==
            AddrInfo(a.service, a.nServices, Aged(a.nTime, nTimePenalty), 0, source, 0, 0, 1, false, 0))
  {
    hide Consistent, Place, Create, CreateAged, Placeable, TakesOver, LastPlaces, Reliable;
    AddUnknown(h, s, a, source, nTimePenalty, nNow, fLucky);
    CreateAgedConsistent(h, s, a, source, nTimePenalty);
    var t, slot := CreateAged(s, a, source, nTimePenalty), h.NewSlot(a.service, source);
    PlaceConsistent(h, t, s.nIdCount, slot, nNow, {s.nIdCount});
    CreateAgedSlots(h, s, a, source, nTimePenalty, slot, nNow);
    StoredGives(h, s, slot, nNow);
    if Stored(s, 0, slot, nNow) {
      CreatedEntry(h, s, a, source, nTimePenalty);
      Occupant(h, t, s.nIdCount, slot, nNow);
      Placed(h, t, s.nIdCount, slot, nNow, {s.nIdCount});
      Addressed(h, Place(h, t, s.nIdCount, slot, nNow), s.nIdCount);
      OneMorePlace(Place(h, t, s.nIdCount, slot, nNow).info[s.nIdCount], t.info[s.nIdCount]);
    }
  }

  lemma Occupant(h: Hasher, s: State, id: int, slot: Slot, nNow: int)
    requires Placeable(h, s, id, slot) && Stored(s, s.info[id].nRefCount, slot, nNow)
    ensures slot in s.news ==> TakesOver(s.info[s.news[slot]], s.info[id].nRefCount, nNow)
  {
    hide TakesOver;
  }

  lemma Addressed(h: Hasher, s: State, id: int)
    requires Inv(h, s) && id in s.info
    ensures s.info[id].service.ip in s.addr && s.addr[s.info[id].service.ip] == id
  {
  }

  lemma OneMorePlace(a: AddrInfo, b: AddrInfo)
    requires a.(nRandomPos := 0) == b.(nRefCount := b.nRefCount + 1, nRandomPos := 0)
    ensures a.service == b.service && a.nRefCount == b.nRefCount + 1
  {
  }

  lemma StoredGives(h: Hasher, s: State, slot: Slot, nNow: int)
    ensures Stored(s, 0, slot, nNow) <==> Gives(s, slot, nNow)
  {
    if slot in s.news && s.news[slot] in s.info { TerribleMeans(s.info[s.news[slot]], nNow); }
  }

  lemma CreatedEntry(h: Hasher, s: State, a: Address, source: NetAddr, nTimePenalty: int)
    ensures var t := CreateAged(s, a, source, nTimePenalty);
      && s.nIdCount in t.info && t.addr == s.addr[a.service.ip := s.nIdCount]
      && t.info[s.nIdCount] ==
        AddrInfo(a.service, a.nServices, Aged(a.nTime, nTimePenalty), 0, source, 0, 0, 0, false, |s.random|)
  {
  }

  /** An entry that Place puts into the slot changes only its count of places. */
  lemma Placed(h: Hasher, s: State, id: int, slot: Slot, nNow: int, limbo: set<int>)
    requires Consistent(h, s, limbo, 0) && Placeable(h, s, id, slot) && !(slot in s.news && s.news[slot] == id)
    requires slot in s.news ==> TakesOver(s.info[s.news[slot]], s.info[id].nRefCount, nNow)
    requires id in limbo || !s.info[id].fInTried
    ensures var t := Place(h, s, id, slot, nNow);
      && slot in t.news && t.news[slot] == id && id in t.info
      && t.info[id].(nRandomPos := 0) == s.info[id].(nRefCount := s.info[id].nRefCount + 1, nRandomPos := 0)
  {
    hide Consistent, TakesOver, ClearNew;
    ClearNewKeeps(h, s, slot, limbo, 0, id);
    var c := ClearNew(s, slot);
    SamePlaceless(c.info[id], s.info[id]);
  }

  /** The time kept for a known address heard of again: the new one, aged, when there is none or it is older by more
      than the penalty and an hour, or a day for a time a day old. */
  function HeardTime(i: AddrInfo, a: Address, nTimePenalty: int, nNow: int): nat {
    if a.nTime != 0 && (i.nTime == 0
      || i.nTime + nTimePenalty + (if nNow - a.nTime < 86_400 then 3_600 else 86_400) < a.nTime)
    then Aged(a.nTime, nTimePenalty) else i.nTime
  }

  /** A known address gets one more place when it was heard of at a later time than is kept for it, is not tried, has
      fewer than eight places, is lucky, and its slot is empty or held by another, unreliable entry. */
  predicate GainsPlace(s: State, id: int, slot: Slot, a: Address, nTimePenalty: int, nNow: int, fLucky: bool)
    requires id in s.info
  {
    var kept := HeardTime(s.info[id], a, nTimePenalty, nNow);
    && a.nTime != 0 && (kept == 0 || kept < a.nTime)
    && !s.info[id].fInTried && s.info[id].nRefCount != 8 && fLucky
    && (slot in s.news ==>
        s.news[slot] != id && s.news[slot] in s.info && !Reliable(s.info[s.news[slot]], nNow))
  }

  predicate HasHeard(s: State, t: State, id: int, slot: Slot, a: Address, nTimePenalty: int, nNow: int, gains: bool)
    requires id in s.info
  {
    && id in t.info
    && t.info[id].(nRandomPos := 0) == s.info[id].(nServices := s.info[id].nServices | a.nServices,
      nTime := HeardTime(s.info[id], a, nTimePenalty, nNow),
      nRefCount := s.info[id].nRefCount + (if gains then 1 else 0), nRandomPos := 0)
    && (gains ==> slot in t.news && t.news[slot] == id)
    && (!gains ==> t.news == s.news && t.addr == s.addr && t.random == s.random)
  }

  /** Hearing of a known address again adds the services, updates the time, and adds a place when one is gained; the
      rest of its entry stays, and no table changes when none is gained. */
  lemma HeardIs(h: Hasher, s: State, a: Address, source: NetAddr, nTimePenalty: int, nNow: int, fLucky: bool)
    requires Inv(h, s) && a.service.ip in s.addr
    ensures s.addr[a.service.ip] in s.info
    ensures var id := s.addr[a.service.ip];
      var slot := h.NewSlot(s.info[id].service, source);
      HasHeard(s, Add(h, s, a, source, nTimePenalty, nNow, true, fLucky).0, id, slot, a, nTimePenalty, nNow,
        GainsPlace(s, id, slot, a, nTimePenalty, nNow, fLucky))
  {
    hide Add, Update, Inv, Consistent, Place, Placeable, TakesOver, Settled, Reliable, HeardTime, GainsPlace,
      BothServices;
    KnownFound(h, s, a.service.ip);
    var id := s.addr[a.service.ip];
    var t := Update(s, id, Heard(s.info[id], a, nTimePenalty, nNow));
    var slot := h.NewSlot(s.info[id].service, source);
    HeardEntry(s.info[id], a, nTimePenalty, nNow);
    HeardConsistent(h, s, id, a, nTimePenalty, nNow);
    GainsMeans(h, s, id, slot, a, nTimePenalty, nNow, fLucky);
    Updated(s, id, Heard(s.info[id], a, nTimePenalty, nNow));
    AddToKnown(h, s, a, source, nTimePenalty, nNow, fLucky);
    if !Settled(t.info[id], a, fLucky) {
      UnsettledPlaces(h, t, id, a, source, nNow, fLucky);
      KnownPlaced(h, t, id, slot, nNow);
      HeardPlaced(h, t, id, slot, nNow);
    }
  }

  lemma Updated(s: State, id: int, i: AddrInfo)
    ensures Update(s, id, i) == s.(info := s.info[id := i])
  {
  }

  lemma AddToKnown(h: Hasher, s: State, a: Address, source: NetAddr, nTimePenalty: int, nNow: int, fLucky: bool)
    requires Inv(h, s) && a.service.ip in s.addr && Find(s, a.service.ip) != -1
    ensures var id := s.addr[a.service.ip];
      id in s.info &&
      var t := Update(s, id, Heard(s.info[id], a, nTimePenalty, nNow));
      var slot := h.NewSlot(t.info[id].service, source);
      && (!Settled(t.info[id], a, fLucky) ==> Placeable(h, t, id, slot))
      && Add(h, s, a, source, nTimePenalty, nNow, true, fLucky).0 ==
        (if Settled(t.info[id], a, fLucky) then t else Place(h, t, id, slot, nNow))
  {
    hide Consistent, Place, Placeable, TakesOver, Settled, Heard;
    HeardConsistent(h, s, s.addr[a.service.ip], a, nTimePenalty, nNow);
    var id := s.addr[a.service.ip];
    var t := Update(s, id, Heard(s.info[id], a, nTimePenalty, nNow));
    if !Settled(t.info[id], a, fLucky) { UnsettledPlaces(h, t, id, a, source, nNow, fLucky); }
  }

  lemma HeardConsistent(h: Hasher, s: State, id: int, a: Address, nTimePenalty: int, nNow: int)
    requires Inv(h, s) && id in s.info
    ensures Inv(h, Update(s, id, Heard(s.info[id], a, nTimePenalty, nNow)))
  {
    hide Consistent;
    StatsChange(h, s, Update(s, id, Heard(s.info[id], a, nTimePenalty, nNow)), id, {}, 0);
  }

  lemma GainsMeans(h: Hasher, s: State, id: int, slot: Slot, a: Address, nTimePenalty: int, nNow: int, fLucky: bool)
    requires Inv(h, s) && id in s.info
    ensures var t := Update(s, id, Heard(s.info[id], a, nTimePenalty, nNow));
      GainsPlace(s, id, slot, a, nTimePenalty, nNow, fLucky) <==>
        !Settled(t.info[id], a, fLucky) && (slot in t.news ==>
          t.news[slot] != id && t.news[slot] in t.info && !Reliable(t.info[t.news[slot]], nNow))
  {
    hide Consistent, Reliable, Heard, HeardTime, Settled;
    HeardEntry(s.info[id], a, nTimePenalty, nNow);
    var t := Update(s, id, Heard(s.info[id], a, nTimePenalty, nNow));
    SettledMeans(t.info[id], a, fLucky);
    if !s.info[id].fInTried { KnownPlaced(h, s, id, slot, nNow); }
  }

  lemma HeardEntry(i: AddrInfo, a: Address, nTimePenalty: int, nNow: int)
    ensures Heard(i, a, nTimePenalty, nNow) ==
      i.(nServices := i.nServices | a.nServices, nTime := HeardTime(i, a, nTimePenalty, nNow))
  {
  }

  lemma SettledMeans(i: AddrInfo, a: Address, fLucky: bool)
    ensures i.nRefCount > 0 ==> (!Settled(i, a, fLucky) <==>
      a.nTime != 0 && (i.nTime == 0 || i.nTime < a.nTime) && !i.fInTried && i.nRefCount != 8 && fLucky)
    ensures !Settled(i, a, fLucky) ==> !i.fInTried
    ensures i.fInTried ==> Settled(i, a, fLucky)
  {
  }

  /** An entry with a place already is put into the slot exactly when that is empty or held by another, unreliable
      one. */
  lemma HeardPlaced(h: Hasher, s: State, id: int, slot: Slot, nNow: int)
    requires Inv(h, s) && Placeable(h, s, id, slot) && !s.info[id].fInTried && s.info[id].nRefCount > 0
    ensures var t := Place(h, s, id, slot, nNow);
      if slot in s.news ==> s.news[slot] != id && s.news[slot] in s.info && !Reliable(s.info[s.news[slot]], nNow) then
        && slot in t.news && t.news[slot] == id && id in t.info
        && t.info[id].(nRandomPos := 0) == s.info[id].(nRefCount := s.info[id].nRefCount + 1, nRandomPos := 0)
      else t == s
  {
    hide Consistent, Reliable, ClearNew;
    if slot in s.news && s.news[slot] in s.info { TerribleMeans(s.info[s.news[slot]], nNow); }
    if slot in s.news ==> s.news[slot] != id && s.news[slot] in s.info && !Reliable(s.info[s.news[slot]], nNow) {
      Placed(h, s, id, slot, nNow, {});
    }
  }
}
