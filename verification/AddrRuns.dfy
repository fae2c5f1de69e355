/** What the address manager's operations achieve, and what every run of them keeps. */
module AddrRuns {
  import opened AddrState
  import opened AddrOps

  // ----- Attempt_ and Connected_

  function Attempt(s: State, a: Service, nTime: int): State {
    if !Knows(s, a) then s
    else
      var id := Find(s, a.ip);
      Update(s, id, s.info[id].(nLastTry := nTime, nAttempts := s.info[id].nAttempts + 1))
  }

  lemma AttemptCheck(h: Hasher, s: State, a: Service, nTime: int)
    requires CheckPasses(h, s)
    ensures Inv(h, Attempt(s, a, nTime))
    ensures CheckPasses(h, Attempt(s, a, nTime)) <==> !Knows(s, a) || nTime >= 0
  {
    hide Consistent;
    if Knows(s, a) {
      var id := Find(s, a.ip);
      StatsChange(h, s, Attempt(s, a, nTime), id, {}, 0);
      assert id in Attempt(s, a, nTime).info;
    }
  }

  function Connected(s: State, a: Service, nTime: int): State {
    if !Knows(s, a) || nTime - s.info[Find(s, a.ip)].nTime <= 20 * 60 then s
    else Update(s, Find(s, a.ip), s.info[Find(s, a.ip)].(nTime := Time32(nTime)))
  }

  lemma ConnectedCheck(h: Hasher, s: State, a: Service, nTime: int)
    requires CheckPasses(h, s)
    ensures CheckPasses(h, Connected(s, a, nTime))
  {
    hide Consistent;
    if Knows(s, a) {
      StatsChange(h, s, Update(s, Find(s, a.ip), s.info[Find(s, a.ip)].(nTime := Time32(nTime))), Find(s, a.ip), {}, 0);
    }
  }

  // ----- Add_

  lemma PlaceStats(h: Hasher, s: State, id: int, slot: Slot, nNow: int, x: int)
    requires Placeable(h, s, id, slot)
    ensures StatsFrom(s, Place(h, s, id, slot, nNow), x)
  {
    hide ClearNew, Delete, TakesOver;
    ClearNewStats(s, slot, x);
    DeleteStats(s, id, x);
  }

  lemma StatsKept(h: Hasher, s: State, t: State)
    requires StatsGood(s) && StatsFrom(s, t, -1) && Inv(h, t)
    ensures StatsGood(t)
  {
  }

  lemma FreshStats(s: State, a: Address, source: NetAddr, nTimePenalty: int)
    requires StatsGood(s)
    ensures StatsGood(CreateAged(s, a, source, nTimePenalty))
  {
  }

  lemma HeardStats(h: Hasher, s: State, id: int, a: Address, nTimePenalty: int, nNow: int)
    requires CheckPasses(h, s) && id in s.info
    ensures CheckPasses(h, Update(s, id, Heard(s.info[id], a, nTimePenalty, nNow)))
  {
    hide Consistent;
    StatsChange(h, s, Update(s, id, Heard(s.info[id], a, nTimePenalty, nNow)), id, {}, 0);
  }

  /** Add_ keeps everything Check_ tests, for every announcement, penalty, clock and draw. */
  lemma AddCheck(h: Hasher, s: State, a: Address, source: NetAddr, nTimePenalty: int, nNow: int, fRoutable: bool,
                 fLucky: bool)
    requires CheckPasses(h, s)
    ensures CheckPasses(h, Add(h, s, a, source, nTimePenalty, nNow, fRoutable, fLucky).0)
  {
    hide Consistent, Place, Create, CreateAged, Placeable, StatsGood, Heard, Settled, StatsFrom;
    AddConsistent(h, s, a, source, nTimePenalty, nNow, fRoutable, fLucky);
    if fRoutable {
      if Find(s, a.service.ip) != -1 {
        var id := Find(s, a.service.ip);
        var t := Update(s, id, Heard(s.info[id], a, nTimePenalty, nNow));
        HeardStats(h, s, id, a, nTimePenalty, nNow);
        if !Settled(t.info[id], a, fLucky) {
          UnsettledPlaces(h, t, id, a, source, nNow, fLucky);
          PlaceStats(h, t, id, h.NewSlot(t.info[id].service, source), nNow, -1);
          StatsKept(h, t, Place(h, t, id, h.NewSlot(t.info[id].service, source), nNow));
        }
      } else {
        Unknown(h, s, a.service.ip);
        CreateAgedConsistent(h, s, a, source, nTimePenalty);
        var t, slot := CreateAged(s, a, source, nTimePenalty), h.NewSlot(a.service, source);
        FreshStats(s, a, source, nTimePenalty);
        PlaceConsistent(h, t, s.nIdCount, slot, nNow, {s.nIdCount});
        PlaceStats(h, t, s.nIdCount, slot, nNow, -1);
        StatsKept(h, t, Place(h, t, s.nIdCount, slot, nNow));
      }
    }
  }

  lemma UnsettledPlaces(h: Hasher, t: State, id: int, a: Address, source: NetAddr, nNow: int, fLucky: bool)
    requires Inv(h, t) && id in t.info && !Settled(t.info[id], a, fLucky)
    ensures !t.info[id].fInTried && Placeable(h, t, id, h.NewSlot(t.info[id].service, source))
    ensures Inv(h, Place(h, t, id, h.NewSlot(t.info[id].service, source), nNow))
  {
    hide Consistent, Placeable, Place;
    AddPlaces(h, t, id, source, nNow);
  }

  /** The address whose only place is the given slot. */
  function LastPlaces(s: State, slot: Slot): set<NetAddr> {
    if slot in s.news && s.news[slot] in s.info && s.info[s.news[slot]].nRefCount == 1
    then {s.info[s.news[slot]].service.ip} else {}
  }

  lemma DeleteAddrs(s: State, id: int)
    requires id in s.info && 0 <= s.info[id].nRandomPos < |s.random|
    ensures Delete(s, id).addr.Keys == s.addr.Keys - {s.info[id].service.ip}
  {
  }

  lemma ClearNewAddrs(s: State, slot: Slot)
    requires slot in s.news ==> s.news[slot] in s.info && 0 <= s.info[s.news[slot]].nRandomPos < |s.random|
    ensures ClearNew(s, slot).addr.Keys == s.addr.Keys - LastPlaces(s, slot)
  {
    hide Delete;
    if slot in s.news {
      var t := WithoutReference(s, slot);
      if t.info[s.news[slot]].nRefCount == 0 { DeleteAddrs(t, s.news[slot]); }
    }
  }

  /** Whether Place puts the entry into the slot. */
  predicate Stored(s: State, nRefCount: int, slot: Slot, nNow: int) {
    slot !in s.news || s.news[slot] !in s.info || TakesOver(s.info[s.news[slot]], nRefCount, nNow)
  }

  lemma PlaceAddrs(h: Hasher, s: State, id: int, slot: Slot, nNow: int)
    requires Placeable(h, s, id, slot)
    ensures Place(h, s, id, slot, nNow).addr.Keys ==
      if slot in s.news && s.news[slot] == id then s.addr.Keys
      else if Stored(s, s.info[id].nRefCount, slot, nNow) then s.addr.Keys - LastPlaces(s, slot)
      else if s.info[id].nRefCount == 0 then s.addr.Keys - {s.info[id].service.ip}
      else s.addr.Keys
  {
    hide ClearNew, Delete, TakesOver;
    ClearNewAddrs(s, slot);
    DeleteAddrs(s, id);
  }

  lemma CreateAgedSlots(h: Hasher, s: State, a: Address, source: NetAddr, nTimePenalty: int, slot: Slot, nNow: int)
    requires Inv(h, s) && a.service.ip !in s.addr
    ensures var t := CreateAged(s, a, source, nTimePenalty);
      && t.addr.Keys == s.addr.Keys + {a.service.ip} && s.nIdCount in t.info && t.info[s.nIdCount].service == a.service
      && t.info[s.nIdCount].nRefCount == 0 && !(slot in t.news && t.news[slot] == s.nIdCount)
      && LastPlaces(t, slot) == LastPlaces(s, slot) && a.service.ip !in LastPlaces(s, slot)
      && Stored(t, 0, slot, nNow) == Stored(s, 0, slot, nNow)
  {
    hide RandomGood, TriedGood, CountsGood, TakesOver;
  }

  /** What Add_ does with an unknown address: it is stored exactly when its slot is free or is taken over, at the
      cost of at most the address whose only place that was; otherwise everything known stays known. The result
      says true either way. */
  lemma AddUnknown(h: Hasher, s: State, a: Address, source: NetAddr, nTimePenalty: int, nNow: int, fLucky: bool)
    requires Inv(h, s) && a.service.ip !in s.addr
    ensures var (t, fNew) := Add(h, s, a, source, nTimePenalty, nNow, true, fLucky);
      var slot := h.NewSlot(a.service, source);
      && fNew
      && t.addr.Keys == (if Stored(s, 0, slot, nNow) then s.addr.Keys - LastPlaces(s, slot) + {a.service.ip}
        else s.addr.Keys)
  {
    hide Consistent, Place, Create, CreateAged, Placeable, TakesOver, LastPlaces, Stored;
    CreateAgedConsistent(h, s, a, source, nTimePenalty);
    var t, slot := CreateAged(s, a, source, nTimePenalty), h.NewSlot(a.service, source);
    PlaceConsistent(h, t, s.nIdCount, slot, nNow, {s.nIdCount});
    CreateAgedSlots(h, s, a, source, nTimePenalty, slot, nNow);
    PlaceAddrs(h, t, s.nIdCount, slot, nNow);
  }

  /** Hearing again of a known address loses at most the address whose only place was the slot tried. */
  lemma AddKnown(h: Hasher, s: State, a: Address, source: NetAddr, nTimePenalty: int, nNow: int, fRoutable: bool,
                 fLucky: bool)
    requires Inv(h, s) && a.service.ip in s.addr
    ensures var (t, fNew) := Add(h, s, a, source, nTimePenalty, nNow, fRoutable, fLucky);
      && !fNew && a.service.ip in t.addr
      && s.info[s.addr[a.service.ip]].service.ip == a.service.ip
      && s.addr.Keys - LastPlaces(s,
        h.NewSlot(s.info[s.addr[a.service.ip]].service, source)) <= t.addr.Keys <= s.addr.Keys
  {
    hide Consistent, Place, Placeable, Stored, TakesOver, LastPlaces, Settled;
    KnownFound(h, s, a.service.ip);
    var id := s.addr[a.service.ip];
    var t := Update(s, id, Heard(s.info[id], a, nTimePenalty, nNow));
    StatsChange(h, s, t, id, {}, 0);
    if fRoutable && !Settled(t.info[id], a, fLucky) {
      var slot := h.NewSlot(t.info[id].service, source);
      UnsettledPlaces(h, t, id, a, source, nNow, fLucky);
      PlaceAddrs(h, t, id, slot, nNow);
      SameLastPlaces(s, t, id, slot);
      KnownPlaced(h, t, id, slot, nNow);
    }
  }

  lemma KnownFound(h: Hasher, s: State, ip: NetAddr)
    requires Inv(h, s) && ip in s.addr
    ensures Find(s, ip) == s.addr[ip] && s.addr[ip] in s.info && s.addr[ip] != -1 && s.info[s.addr[ip]].service.ip == ip
  {
  }

  lemma SameLastPlaces(s: State, t: State, id: int, slot: Slot)
    requires Rewrites(s, t, id) && t.news == s.news && t.info[id].nRefCount == s.info[id].nRefCount
    ensures LastPlaces(t, slot) == LastPlaces(s, slot)
  {
  }

  /** An entry with a reference keeps its address when another slot is emptied for it. */
  lemma KnownPlaced(h: Hasher, s: State, id: int, slot: Slot, nNow: int)
    requires Inv(h, s) && id in s.info && !s.info[id].fInTried
    ensures s.info[id].nRefCount > 0 && s.info[id].service.ip in s.addr
    ensures !(slot in s.news && s.news[slot] == id) ==> s.info[id].service.ip !in LastPlaces(s, slot)
  {
  }

  /** A manager that knows one address, in one new slot. */
  function OneEntry(i: AddrInfo, slot: Slot): State {
    State(1, map[0 := i], map[i.service.ip := 0], [0], 0, map[], 1, map[slot := 0])
  }

  lemma FirstAdd(h: Hasher, a: Address, source: NetAddr, nNow: int)
    ensures Inv(h, Empty())
    ensures Add(h, Empty(), a, source, 0, nNow, true, false) ==
      (OneEntry(AddrInfo(a.service, a.nServices, Time32(a.nTime), 0, source, 0, 0, 1, false, 0),
        h.NewSlot(a.service, source)), true)
  {
    EmptyConsistent(h);
    var slot, t := h.NewSlot(a.service, source), CreateAged(Empty(), a, source, 0);
    assert Find(Empty(), a.service.ip) == -1;
    var i := AddrInfo(a.service, a.nServices, Time32(a.nTime), 0, source, 0, 0, 0, false, 0);
    assert t == State(1, map[0 := i], map[a.service.ip := 0], [0], 0, map[], 1, map[]);
    assert EnterNew(t, 0, slot) == OneEntry(i.(nRefCount := 1), slot);
  }

  /** An address heard of after another that has the same slot is reported as added and yet not stored: the
      result of Add_ does not say that the address is known. */
  lemma ReportedYetUnknown(h: Hasher, a: Address, b: Address, source: NetAddr)
    requires a.service.ip != b.service.ip && h.NewSlot(a.service, source) == h.NewSlot(b.service, source)
    requires 0 < a.nTime < TWO_32
    ensures Inv(h, Empty()) && Inv(h, Add(h, Empty(), a, source, 0, a.nTime, true, false).0)
    ensures var (t, fNew) := Add(h, Add(h, Empty(), a, source, 0, a.nTime, true, false).0, b, source, 0, a.nTime, true,
      false);
      fNew && t.addr.Keys == {a.service.ip}
  {
    hide Inv, Consistent, Add;
    FirstAdd(h, a, source, a.nTime);
    AddConsistent(h, Empty(), a, source, 0, a.nTime, true, false);
    AddUnknown(h, Add(h, Empty(), a, source, 0, a.nTime, true, false).0, b, source, 0, a.nTime, false);
  }

  function Empty(): State {
    State(0, map[], map[], [], 0, map[], 0, map[])
  }

  lemma EmptyConsistent(h: Hasher)
    ensures CheckPasses(h, Empty())
  {
    assert TriedIds(Empty()) == {} && NewIds(Empty()) == {};
  }

  // ----- GetAddr_

  const GETADDR_MAX_PCT: nat := 23
  const GETADDR_MAX: nat := 2500

  function Wanted(nSize: nat): nat {
    if GETADDR_MAX_PCT * nSize / 100 > GETADDR_MAX then GETADDR_MAX else GETADDR_MAX_PCT * nSize / 100
  }

  /** The loop of GetAddr_ from round n on; got lists the ids taken so far and draw the random numbers. */
  function Sample(s: State, n: nat, got: seq<int>, draw: nat -> nat, nNow: int): (State, seq<int>)
    requires n <= |s.random|
    decreases |s.random| - n
  {
    if n == |s.random| || |got| >= Wanted(|s.random|) then (s, got)
    else
      var t := SwapRandom(s, n, draw(n) % (|s.random| - n) + n);
      var id := t.random[n];
      Sample(t, n + 1, if id in t.info && !IsTerrible(t.info[id], nNow) then got + [id] else got, draw, nNow)
  }

  /** The ids taken so far: among the first n of the random order, none twice, none of low quality. */
  predicate Sampled(s: State, n: nat, got: seq<int>, nNow: int) {
    && n <= |s.random| && |got| <= Wanted(|s.random|)
    && (forall i :: 0 <= i < |got| ==>
      got[i] in s.info && !IsTerrible(s.info[got[i]], nNow) && s.info[got[i]].nRandomPos < n)
    && (forall i, j :: 0 <= i < j < |got| ==> got[i] != got[j])
  }

  lemma SwapKeepsEarlier(s: State, n: nat, k: nat, id: int)
    requires RandomGood(s) && n <= k < |s.random| && id in s.info && s.info[id].nRandomPos < n
    ensures id in SwapRandom(s, n, k).info && SwapRandom(s, n, k).info[id] == s.info[id]
  {
  }

  lemma AtPlace(s: State, n: nat)
    requires RandomGood(s) && n < |s.random|
    ensures s.random[n] in s.info && s.info[s.random[n]].nRandomPos == n
  {
  }

  lemma SampleStep(s: State, n: nat, k: nat, got: seq<int>, nNow: int)
    requires RandomGood(s) && n <= k < |s.random| && Sampled(s, n, got, nNow) && |got| < Wanted(|s.random|)
    ensures var t := SwapRandom(s, n, k);
      && t.random[n] in t.info
      && Sampled(t, n + 1, if !IsTerrible(t.info[t.random[n]], nNow) then got + [t.random[n]] else got, nNow)
  {
    hide RandomGood, SwapRandom, SameEntries, IsTerrible;
    SwapRandomGood(s, n, k);
    SwapRandomSize(s, n, k);
    var t := SwapRandom(s, n, k);
    AtPlace(t, n);
    forall i | 0 <= i < |got|
      ensures got[i] in t.info && t.info[got[i]] == s.info[got[i]]
    {
      SwapKeepsEarlier(s, n, k, got[i]);
    }
  }

  lemma SampleRound(s: State, n: nat, got: seq<int>, draw: nat -> nat, nNow: int)
    requires n < |s.random| && |got| < Wanted(|s.random|)
    ensures n <= draw(n) % (|s.random| - n) + n < |s.random|
    ensures var t := SwapRandom(s, n, draw(n) % (|s.random| - n) + n);
      && |t.random| == |s.random|
      && Sample(s, n, got, draw, nNow) ==
        Sample(t, n + 1, if t.random[n] in t.info && !IsTerrible(t.info[t.random[n]], nNow) then got + [t.random[n]]
          else got, draw, nNow)
  {
    hide SwapRandom, IsTerrible, Wanted;
    SwapRandomSize(s, n, draw(n) % (|s.random| - n) + n);
  }

  lemma SampleDone(s: State, n: nat, got: seq<int>, draw: nat -> nat, nNow: int)
    requires n <= |s.random| && (n == |s.random| || |got| >= Wanted(|s.random|))
    ensures Sample(s, n, got, draw, nNow) == (s, got)
  {
  }

  /** GetAddr_ gives distinct known addresses of good quality, at most 23 percent of them and at most 2500,
      whatever is drawn, and changes nothing but the random order. */
  lemma {:induction false} SampleGood(h: Hasher, s: State, n: nat, got: seq<int>, draw: nat -> nat, nNow: int)
    requires Inv(h, s) && Sampled(s, n, got, nNow)
    ensures var (t, ids) := Sample(s, n, got, draw, nNow);
      && Inv(h, t) && SameEntries(s, t) && multiset(t.random) == multiset(s.random)
      && Sampled(t, |t.random|, ids, nNow)
    decreases |s.random| - n
  {
    hide Consistent, Sampled, SwapRandom, SameEntries, Sample, IsTerrible;
    SampledSize(s, n, got, nNow);
    if n == |s.random| || |got| >= Wanted(|s.random|) {
      SampledMore(s, n, |s.random|, got, nNow);
      SameItself(s);
      SampleDone(s, n, got, draw, nNow);
    } else {
      SampleRound(s, n, got, draw, nNow);
      var k := draw(n) % (|s.random| - n) + n;
      InvRandom(h, s);
      SwapRandomGood(s, n, k);
      SwapRandomPermutes(s, n, k);
      SampleStep(s, n, k, got, nNow);
      var t := SwapRandom(s, n, k);
      SwapRandomSize(s, n, k);
      SameEntriesConsistent(h, s, t, {}, 0);
      var more := if t.random[n] in t.info && !IsTerrible(t.info[t.random[n]], nNow) then got + [t.random[n]] else got;
      SampleGood(h, t, n + 1, more, draw, nNow);
      SameChain(s, t, Sample(t, n + 1, more, draw, nNow).0);
    }
  }

  lemma SampledSize(s: State, n: nat, got: seq<int>, nNow: int)
    requires Sampled(s, n, got, nNow)
    ensures n <= |s.random| && |got| <= Wanted(|s.random|)
  {
  }

  lemma SampledMore(s: State, n: nat, m: nat, got: seq<int>, nNow: int)
    requires Sampled(s, n, got, nNow) && n <= m <= |s.random|
    ensures Sampled(s, m, got, nNow)
  {
  }

  lemma InvRandom(h: Hasher, s: State)
    requires Inv(h, s)
    ensures RandomGood(s) && Consistent(h, s, {}, 0)
  {
  }

  lemma SwapRandomSize(s: State, i: nat, j: nat)
    requires i < |s.random| && j < |s.random|
    ensures |SwapRandom(s, i, j).random| == |s.random|
  {
  }

  lemma SameItself(s: State)
    ensures SameEntries(s, s)
  {
  }

  lemma SameChain(s: State, t: State, u: State)
    requires SameEntries(s, t) && SameEntries(t, u)
    ensures SameEntries(s, u)
  {
    forall id | id in s.info
      ensures u.info[id].(nRandomPos := 0) == s.info[id].(nRandomPos := 0)
    {
      assert id in t.info.Keys;
    }
  }

  lemma SameStats(s: State, t: State)
    requires StatsGood(s) && SameEntries(s, t)
    ensures StatsGood(t)
  {
    forall id | id in t.info
      ensures GoodStats(t.info[id])
    {
      assert id in s.info.Keys && t.info[id].(nRandomPos := 0) == s.info[id].(nRandomPos := 0);
    }
  }

  function GetAddr(s: State, draw: nat -> nat, nNow: int): (State, seq<int>) {
    Sample(s, 0, [], draw, nNow)
  }

  // ----- runs

  /** One call, with the time, the draws and the outside facts it meets. */
  datatype Call =
    | CallAdd(a: Address, source: NetAddr, nTimePenalty: int, nNow: int, fRoutable: bool, fLucky: bool)
    | CallGood(service: Service, nTime: int)
    | CallAttempt(service: Service, nTime: int)
    | CallConnected(service: Service, nTime: int)
    | CallGetAddr(draw: nat -> nat, nNow: int)

  /** The calls that bring a time the statistics keep carry one after the epoch. */
  predicate Timely(c: Call) {
    match c
    case CallGood(_, nTime) => nTime > 0
    case CallAttempt(_, nTime) => nTime >= 0
    case _ => true
  }

  function Step(h: Hasher, s: State, c: Call): State
    requires Inv(h, s)
  {
    match c
    case CallAdd(a, source, nTimePenalty, nNow, fRoutable, fLucky) => Add(h, s, a, source, nTimePenalty, nNow,
      fRoutable, fLucky).0
    case CallGood(a, nTime) => Good(h, s, a, nTime)
    case CallAttempt(a, nTime) => Attempt(s, a, nTime)
    case CallConnected(a, nTime) => Connected(s, a, nTime)
    case CallGetAddr(draw, nNow) => GetAddr(s, draw, nNow).0
  }

  lemma StepConsistent(h: Hasher, s: State, c: Call)
    requires Inv(h, s)
    ensures Inv(h, Step(h, s, c))
  {
    hide Consistent, Add, Good, Sample;
    match c
    case CallAdd(a, source, nTimePenalty, nNow, fRoutable, fLucky) =>
      AddConsistent(h, s, a, source, nTimePenalty, nNow, fRoutable, fLucky);
    case CallGood(a, nTime) =>
      GoodConsistent(h, s, a, nTime);
    case CallAttempt(a, nTime) =>
      if Knows(s, a) { StatsChange(h, s, Attempt(s, a, nTime), Find(s, a.ip), {}, 0); }
    case CallConnected(a, nTime) =>
      if Knows(s, a) {
        StatsChange(h, s, Update(s, Find(s, a.ip), s.info[Find(s, a.ip)].(nTime := Time32(nTime))), Find(s, a.ip), {},
          0);
      }
    case CallGetAddr(draw, nNow) =>
      SampleGood(h, s, 0, [], draw, nNow);
  }

  lemma StepCheck(h: Hasher, s: State, c: Call)
    requires CheckPasses(h, s) && Timely(c)
    ensures CheckPasses(h, Step(h, s, c))
  {
    hide Consistent, Add, Good, Sample, Attempt, Connected, StatsGood, Knows;
    match c
    case CallAdd(a, source, nTimePenalty, nNow, fRoutable, fLucky) =>
      AddCheck(h, s, a, source, nTimePenalty, nNow, fRoutable, fLucky);
    case CallGood(a, nTime) =>
      GoodCheck(h, s, a, nTime);
    case CallAttempt(a, nTime) =>
      AttemptCheck(h, s, a, nTime);
    case CallConnected(a, nTime) =>
      ConnectedCheck(h, s, a, nTime);
    case CallGetAddr(draw, nNow) =>
      SampleGood(h, s, 0, [], draw, nNow);
      SameStats(s, GetAddr(s, draw, nNow).0);
  }

  function Run(h: Hasher, s: State, calls: seq<Call>): (t: State)
    requires Inv(h, s)
    ensures Inv(h, t)
    decreases |calls|
  {
    if calls == [] then s
    else
      StepConsistent(h, s, calls[0]);
      Run(h, Step(h, s, calls[0]), calls[1..])
  }

  /** Check_ passes after every run with times after the epoch, whatever else the calls carry. */
  lemma {:induction false} RunCheck(h: Hasher, s: State, calls: seq<Call>)
    requires CheckPasses(h, s) && forall i :: 0 <= i < |calls| ==> Timely(calls[i])
    ensures CheckPasses(h, Run(h, s, calls))
    decreases |calls|
  {
    hide Consistent, StatsGood, Step, Timely;
    if calls != [] {
      StepCheck(h, s, calls[0]);
      RunCheck(h, Step(h, s, calls[0]), calls[1..]);
    }
  }
}
