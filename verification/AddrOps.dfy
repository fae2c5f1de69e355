/** Moving entries between the tables: the state changes of MakeTried, Good_, Add_ and the rest, and why
    they keep the address manager consistent. */
module AddrOps {
  import opened AddrState

  // ----- MakeTried

  /** The entry leaves every new bucket, and nNew lets it go. */
  function LeaveNew(s: State, id: int): State
    requires id in s.info
  {
    s.(info := s.info[id := s.info[id].(nRefCount := s.info[id].nRefCount - |SlotsOf(s.news, id)|)],
       news := map sl | sl in s.news && s.news[sl] != id :: s.news[sl],
       nNew := s.nNew - 1)
  }

  /** The entry at a tried slot is no longer tried. */
  function Untry(s: State, slot: Slot): State
    requires slot in s.tried && s.tried[slot] in s.info
  {
    var id := s.tried[slot];
    s.(info := s.info[id := s.info[id].(fInTried := false)], tried := s.tried - {slot}, nTried := s.nTried - 1)
  }

  /** An entry in limbo enters a new slot as its only reference and is counted as new again. */
  function BackToNew(s: State, id: int, slot: Slot): State
    requires id in s.info
  {
    s.(info := s.info[id := s.info[id].(nRefCount := 1)], news := s.news[slot := id], nNew := s.nNew + 1)
  }

  function EnterTried(s: State, id: int, slot: Slot): State
    requires id in s.info
  {
    s.(info := s.info[id := s.info[id].(fInTried := true)], tried := s.tried[slot := id], nTried := s.nTried + 1)
  }

  lemma LeaveNewConsistent(h: Hasher, s: State, id: int)
    requires Inv(h, s) && id in s.info && !s.info[id].fInTried
    ensures Consistent(h, LeaveNew(s, id), {id}, 1) && LeaveNew(s, id).info[id].nRefCount == 0
  {
    hide AddrsGood, RandomGood, TriedGood, SlotsOf, TriedIds, NewIds;
    var t := LeaveNew(s, id);
    RewriteKeepsNames(s, t, id);
    RewriteKeepsTried(h, s, t, id);
    SameIds(s, t);
    forall other
      ensures SlotsOf(t.news, other) == if other == id then {} else SlotsOf(s.news, other)
    {
      LeftSlots(s, id, other);
    }
  }

  lemma LeftSlots(s: State, id: int, other: int)
    requires id in s.info
    ensures SlotsOf(LeaveNew(s, id).news, other) == if other == id then {} else SlotsOf(s.news, other)
  {
  }

  lemma UntryConsistent(h: Hasher, s: State, slot: Slot, limbo: set<int>, moving: int)
    requires Consistent(h, s, limbo, moving) && slot in s.tried
    ensures s.tried[slot] in s.info && s.tried[slot] !in limbo && s.info[s.tried[slot]].fInTried
    ensures Consistent(h, Untry(s, slot), limbo + {s.tried[slot]}, moving + 1)
  {
    hide AddrsGood, RandomGood, NewGood, TriedGood;
    UntryTried(h, s, slot, limbo, moving);
    var id, t := s.tried[slot], Untry(s, slot);
    RewriteKeepsNames(s, t, id);
    assert TriedIds(t) == TriedIds(s) - {id} && NewIds(t) == NewIds(s) + {id};
    UntryNew(h, s, t, id);
  }

  lemma UntryTried(h: Hasher, s: State, slot: Slot, limbo: set<int>, moving: int)
    requires Consistent(h, s, limbo, moving) && slot in s.tried
    ensures s.tried[slot] in s.info && s.tried[slot] !in limbo && s.info[s.tried[slot]].fInTried
    ensures s.info[s.tried[slot]].nRefCount == 0 && TriedGood(h, Untry(s, slot))
  {
    hide AddrsGood, RandomGood, NewGood;
    var id := s.tried[slot];
    assert id in s.info && s.info[id].fInTried;
    assert InfosGood(s, limbo);
    assert GoodInfo(s.info[id], id in limbo);
  }

  /** A tried entry has no new slots. */
  lemma UntryNew(h: Hasher, s: State, t: State, id: int)
    requires NewGood(h, s) && id in s.info && s.info[id].fInTried && s.info[id].nRefCount == 0
    requires t.info == s.info[id := s.info[id].(fInTried := false)] && t.news == s.news
    ensures NewGood(h, t)
  {
    assert SlotsOf(t.news, id) == {};
  }

  lemma BackToNewConsistent(h: Hasher, s: State, id: int, slot: Slot, limbo: set<int>, moving: int)
    requires Consistent(h, s, limbo, moving) && id in limbo
    requires slot !in s.news && slot.bucket < NEW_BUCKET_COUNT && slot == h.NewSlotIn(s.info[id].service, slot.bucket)
    ensures Consistent(h, BackToNew(s, id, slot), limbo - {id}, moving - 1)
  {
    hide AddrsGood, RandomGood, TriedGood, NewGood;
    EnterNewConsistent(h, s, id, slot, limbo, moving);
    Recount(h, EnterNew(s, id, slot), BackToNew(s, id, slot), limbo - {id}, moving);
  }

  /** nNew counts one more. */
  lemma Recount(h: Hasher, s: State, t: State, limbo: set<int>, moving: int)
    requires Consistent(h, s, limbo, moving) && t == s.(nNew := s.nNew + 1)
    ensures Consistent(h, t, limbo, moving - 1)
  {
  }

  lemma EnterTriedConsistent(h: Hasher, s: State, id: int, slot: Slot, limbo: set<int>, moving: int)
    requires Consistent(h, s, limbo, moving) && id in limbo
    requires slot == h.TriedSlot(s.info[id].service) && slot !in s.tried
    ensures Consistent(h, EnterTried(s, id, slot), limbo - {id}, moving - 1)
  {
    hide AddrsGood, RandomGood, NewGood;
    var t := EnterTried(s, id, slot);
    RewriteKeepsNames(s, t, id);
    assert TriedIds(t) == TriedIds(s) + {id} && NewIds(t) == NewIds(s) - {id};
    EnterTriedNew(h, s, t, id);
  }

  lemma EnterTriedNew(h: Hasher, s: State, t: State, id: int)
    requires NewGood(h, s) && id in s.info && !s.info[id].fInTried && s.info[id].nRefCount == 0
    requires t.info == s.info[id := s.info[id].(fInTried := true)] && t.news == s.news
    ensures NewGood(h, t)
  {
    NotReferred(s.news, id);
  }

  // ----- entries that ClearNew leaves alone

  lemma DeleteKeeps(s: State, gone: int, id: int)
    requires RandomGood(s) && gone in s.info && id in s.info && id != gone
    ensures 0 <= s.info[gone].nRandomPos < |s.random|
    ensures id in Delete(s, gone).info && Delete(s, gone).info[id].(nRandomPos := 0) == s.info[id].(nRandomPos := 0)
    ensures Delete(s, gone).tried == s.tried
  {
  }

  lemma ClearNewKeeps(h: Hasher, s: State, slot: Slot, limbo: set<int>, moving: int, id: int)
    requires Consistent(h, s, limbo, moving) && id in s.info
    requires id in limbo || (slot in s.news ==> s.news[slot] != id)
    ensures slot in s.news ==> s.news[slot] in s.info && 0 <= s.info[s.news[slot]].nRandomPos < |s.random|
    ensures Consistent(h, ClearNew(s, slot), limbo, moving) && slot !in ClearNew(s, slot).news
    ensures id in ClearNew(s, slot).info
    ensures ClearNew(s, slot).info[id].(nRandomPos := 0) == s.info[id].(nRandomPos := 0)
    ensures ClearNew(s, slot).tried == s.tried
  {
    hide AddrsGood, RandomGood, TriedGood, NewGood, CountsGood, InfosGood, Delete;
    ClearNewConsistent(h, s, slot, limbo, moving);
    if slot in s.news {
      var t := WithoutReference(s, slot);
      RewriteKeepsNames(s, t, s.news[slot]);
      if t.info[s.news[slot]].nRefCount == 0 {
        DeleteKeeps(t, s.news[slot], id);
      }
    }
  }

  // ----- MakeTried

  /** Make room at a tried slot: what is there goes back to a new bucket, displacing what is there. */
  function Evict(h: Hasher, s: State, slot: Slot): State
    requires Evictable(h, s, slot)
  {
    if slot !in s.tried then s
    else
      var id := s.tried[slot];
      var to := h.NewSlot(s.info[id].service, s.info[id].source);
      BackToNew(ClearNew(Untry(s, slot), to), id, to)
  }

  predicate Evictable(h: Hasher, s: State, slot: Slot) {
    slot in s.tried ==>
      var id := s.tried[slot];
      && id in s.info
      && var to, t := h.NewSlot(s.info[id].service, s.info[id].source), Untry(s, slot);
         && (to in t.news ==> t.news[to] in t.info && 0 <= t.info[t.news[to]].nRandomPos < |t.random|)
         && id in ClearNew(t, to).info
  }

  lemma EvictConsistent(h: Hasher, s: State, slot: Slot, id: int)
    requires Consistent(h, s, {id}, 1)
    ensures Evictable(h, s, slot) && Consistent(h, Evict(h, s, slot), {id}, 1) && slot !in Evict(h, s, slot).tried
    ensures Evict(h, s, slot).info[id].(nRandomPos := 0) == s.info[id].(nRandomPos := 0)
  {
    hide AddrsGood, RandomGood, TriedGood, NewGood, CountsGood, InfosGood, ClearNew;
    if slot in s.tried {
      UntryConsistent(h, s, slot, {id}, 1);
      var e, t := s.tried[slot], Untry(s, slot);
      var to := h.NewSlot(s.info[e].service, s.info[e].source);
      ClearNewConsistent(h, t, to, {id} + {e}, 2);
      ClearNewKeeps(h, t, to, {id} + {e}, 2, e);
      ClearNewKeeps(h, t, to, {id} + {e}, 2, id);
      var c := ClearNew(t, to);
      SameService(c.info[e], s.info[e]);
      BackToNewConsistent(h, c, e, to, {id} + {e}, 2);
      assert {id} + {e} - {e} == {id};
    }
  }

  lemma SameService(a: AddrInfo, b: AddrInfo)
    requires a.(nRandomPos := 0, fInTried := false) == b.(nRandomPos := 0, fInTried := false)
    ensures a.service == b.service
  {
  }

  /** The assertions of MakeTried hold. */
  predicate Triable(h: Hasher, s: State, id: int) {
    && id in s.info
    && Evictable(h, LeaveNew(s, id), h.TriedSlot(s.info[id].service))
    && var e := Evict(h, LeaveNew(s, id), h.TriedSlot(s.info[id].service));
       && id in e.info && e.info[id].nRefCount == 0 && h.TriedSlot(s.info[id].service) !in e.tried
  }

  function MakeTried(h: Hasher, s: State, id: int): State
    requires Triable(h, s, id)
  {
    var slot := h.TriedSlot(s.info[id].service);
    EnterTried(Evict(h, LeaveNew(s, id), slot), id, slot)
  }

  /** MakeTried never trips over its assertions and keeps everything Check_ tests. */
  lemma MakeTriedConsistent(h: Hasher, s: State, id: int)
    requires Inv(h, s) && id in s.info && !s.info[id].fInTried
    ensures Triable(h, s, id) && Inv(h, MakeTried(h, s, id))
  {
    hide AddrsGood, RandomGood, TriedGood, NewGood, CountsGood, InfosGood, Evict, Evictable;
    var slot, t := h.TriedSlot(s.info[id].service), LeaveNew(s, id);
    LeaveNewConsistent(h, s, id);
    EvictConsistent(h, t, slot, id);
    var e := Evict(h, t, slot);
    assert e.info[id].(nRandomPos := 0) == t.info[id].(nRandomPos := 0);
    EnterTriedConsistent(h, e, id, slot, {id}, 1);
    assert {id} - {id} == {};
  }

  // ----- statistics

  /** The entries of t are entries of s with the same times; only the given one may have become tried. */
  predicate StatsFrom(s: State, t: State, id: int) {
    forall other :: other in t.info ==>
      && other in s.info
      && t.info[other].nLastTry == s.info[other].nLastTry && t.info[other].nLastSuccess == s.info[other].nLastSuccess
      && (t.info[other].fInTried ==> s.info[other].fInTried || other == id)
  }

  lemma DeleteStats(s: State, id: int, x: int)
    requires id in s.info && 0 <= s.info[id].nRandomPos < |s.random|
    ensures StatsFrom(s, Delete(s, id), x)
  {
  }

  lemma ClearNewStats(s: State, slot: Slot, x: int)
    requires slot in s.news ==> s.news[slot] in s.info && 0 <= s.info[s.news[slot]].nRandomPos < |s.random|
    ensures StatsFrom(s, ClearNew(s, slot), x)
  {
    hide Delete;
    if slot in s.news {
      var t := WithoutReference(s, slot);
      if t.info[s.news[slot]].nRefCount == 0 {
        DeleteStats(t, s.news[slot], x);
      }
    }
  }

  lemma EvictStats(h: Hasher, s: State, slot: Slot, x: int)
    requires Evictable(h, s, slot)
    ensures StatsFrom(s, Evict(h, s, slot), x)
  {
    hide ClearNew;
    if slot in s.tried {
      var id, t := s.tried[slot], Untry(s, slot);
      var to := h.NewSlot(s.info[id].service, s.info[id].source);
      ClearNewStats(t, to, x);
    }
  }

  lemma StatsTrans(a: State, b: State, c: State, x: int)
    requires StatsFrom(a, b, x) && StatsFrom(b, c, x)
    ensures StatsFrom(a, c, x)
  {
  }

  lemma EndsStats(s: State, t: State, id: int, slot: Slot)
    requires id in s.info && id in t.info
    ensures StatsFrom(s, LeaveNew(s, id), id) && StatsFrom(t, EnterTried(t, id, slot), id)
    ensures id in EnterTried(t, id, slot).info && EnterTried(t, id, slot).info[id].fInTried
  {
  }

  lemma MakeTriedStats(h: Hasher, s: State, id: int)
    requires Inv(h, s) && id in s.info && !s.info[id].fInTried
    ensures Triable(h, s, id) && StatsFrom(s, MakeTried(h, s, id), id)
    ensures id in MakeTried(h, s, id).info && MakeTried(h, s, id).info[id].fInTried
  {
    hide Evict, Evictable, Inv, Consistent, StatsFrom, LeaveNew, EnterTried;
    MakeTriedConsistent(h, s, id);
    var slot, t := h.TriedSlot(s.info[id].service), LeaveNew(s, id);
    EvictStats(h, t, slot, id);
    EndsStats(s, Evict(h, t, slot), id, slot);
    StatsTrans(s, t, Evict(h, t, slot), id);
    StatsTrans(s, Evict(h, t, slot), MakeTried(h, s, id), id);
  }

  // ----- Good_

  const TWO_32: int := 0x1_0000_0000

  /** Storing a 64-bit time in the 32-bit field. */
  function Time32(t: int): nat { t % TWO_32 }

  function Find(s: State, ip: NetAddr): (id: int)
    ensures id == -1 || (ip in s.addr && id == s.addr[ip] && id in s.info)
  {
    if ip in s.addr && s.addr[ip] in s.info && s.addr[ip] != -1 then s.addr[ip] else -1
  }

  function Update(s: State, id: int, info: AddrInfo): State {
    s.(info := s.info[id := info])
  }

  function GoodInfoAt(i: AddrInfo, nTime: int): AddrInfo {
    i.(nLastSuccess := nTime, nLastTry := nTime, nTime := Time32(nTime), nAttempts := 0)
  }

  /** Whether the manager knows exactly this service. */
  predicate Knows(s: State, a: Service) {
    Find(s, a.ip) != -1 && s.info[Find(s, a.ip)].service == a
  }

  function Good(h: Hasher, s: State, a: Service, nTime: int): State
    requires Inv(h, s)
  {
    if !Knows(s, a) then s
    else
      var id := Find(s, a.ip);
      var t := Update(s, id, GoodInfoAt(s.info[id], nTime));
      if t.info[id].fInTried then t
      else
        assert Inv(h, t) by { StatsChange(h, s, t, id, {}, 0); }
        MakeTriedConsistent(h, t, id);
        MakeTried(h, t, id)
  }

  lemma GoodConsistent(h: Hasher, s: State, a: Service, nTime: int)
    requires Inv(h, s)
    ensures Inv(h, Good(h, s, a, nTime))
  {
    hide MakeTried, Consistent;
    if Knows(s, a) {
      var id := Find(s, a.ip);
      var t := Update(s, id, GoodInfoAt(s.info[id], nTime));
      StatsChange(h, s, t, id, {}, 0);
      if !t.info[id].fInTried {
        MakeTriedConsistent(h, t, id);
      }
    }
  }

  /** After Good_ on a known service Check_ passes exactly when the time is positive: a zero time leaves a
      tried entry that has never succeeded, a negative one a time Check_ refuses. */
  lemma GoodCheck(h: Hasher, s: State, a: Service, nTime: int)
    requires CheckPasses(h, s)
    ensures CheckPasses(h, Good(h, s, a, nTime)) <==> !Knows(s, a) || nTime > 0
  {
    hide MakeTried, Consistent;
    GoodConsistent(h, s, a, nTime);
    if Knows(s, a) {
      var id := Find(s, a.ip);
      var t := Update(s, id, GoodInfoAt(s.info[id], nTime));
      if !t.info[id].fInTried {
        StatsChange(h, s, t, id, {}, 0);
        MakeTriedStats(h, t, id);
      }
      var g := Good(h, s, a, nTime);
      assert id in g.info && g.info[id].fInTried && g.info[id].nLastSuccess == nTime;
      assert nTime <= 0 ==> !GoodStats(g.info[id]);
    }
  }

  // ----- what MakeTried means

  lemma DeleteRemovesOne(s: State, id: int)
    requires id in s.info && 0 <= s.info[id].nRandomPos < |s.random|
    ensures Delete(s, id).info.Keys == s.info.Keys - {id}
  {
  }

  /** ClearNew drops an entry exactly when the slot was its last. */
  lemma ClearNewDrops(s: State, slot: Slot)
    requires slot in s.news ==> s.news[slot] in s.info && 0 <= s.info[s.news[slot]].nRandomPos < |s.random|
    ensures ClearNew(s, slot).info.Keys == Dropped(s, slot)
  {
    hide Delete;
    if slot in s.news {
      var t := WithoutReference(s, slot);
      if t.info[s.news[slot]].nRefCount == 0 { DeleteRemovesOne(t, s.news[slot]); }
    }
  }

  /** The ids left when a new slot is emptied. */
  function Dropped(s: State, slot: Slot): set<int> {
    if slot in s.news && s.news[slot] in s.info && s.info[s.news[slot]].nRefCount == 1 then s.info.Keys - {s.news[slot]}
    else s.info.Keys
  }

  /** What was at the tried slot sits in its own new bucket with one reference. */
  predicate MovedBack(h: Hasher, s: State, t: State, e: int) {
    && e in s.info && e in t.info && !t.info[e].fInTried && t.info[e].nRefCount == 1
    && var to := h.NewSlot(s.info[e].service, s.info[e].source);
       to in t.news && t.news[to] == e && t.info.Keys == Dropped(s, to)
  }

  lemma EvictMoves(h: Hasher, s: State, slot: Slot, id: int)
    requires Consistent(h, s, {id}, 1)
    ensures Evictable(h, s, slot)
    ensures slot !in s.tried ==> Evict(h, s, slot) == s
    ensures slot in s.tried ==> MovedBack(h, s, Evict(h, s, slot), s.tried[slot])
  {
    hide AddrsGood, RandomGood, TriedGood, NewGood, CountsGood, InfosGood, ClearNew;
    EvictConsistent(h, s, slot, id);
    if slot in s.tried {
      UntryConsistent(h, s, slot, {id}, 1);
      var e, u := s.tried[slot], Untry(s, slot);
      var to := h.NewSlot(s.info[e].service, s.info[e].source);
      ClearNewConsistent(h, u, to, {id} + {e}, 2);
      ClearNewKeeps(h, u, to, {id} + {e}, 2, e);
      SameService(ClearNew(u, to).info[e], s.info[e]);
      ClearNewDrops(u, to);
      assert Dropped(u, to) == Dropped(s, to);
    }
  }

  /** The last step leaves what Evict did. */
  lemma EnterTriedKeeps(h: Hasher, t: State, e: State, id: int, slot: Slot)
    requires id in e.info && !e.info[id].fInTried
    ensures var g := EnterTried(e, id, slot);
      && slot in g.tried && g.tried[slot] == id && id in g.info && g.info[id].fInTried && g.info.Keys == e.info.Keys
      && forall o :: MovedBack(h, t, e, o) && o != id ==> MovedBack(h, t, g, o)
  {
  }

  lemma LeaveNewKeeps(h: Hasher, s: State, id: int)
    requires id in s.info
    ensures LeaveNew(s, id).info.Keys == s.info.Keys && LeaveNew(s, id).tried == s.tried
    ensures LeaveNew(s, id).info[id].service == s.info[id].service
      && LeaveNew(s, id).info[id].fInTried == s.info[id].fInTried
  {
  }

  lemma NotAtTried(h: Hasher, s: State, slot: Slot, id: int)
    requires Inv(h, s) && id in s.info && !s.info[id].fInTried && slot in s.tried
    ensures s.tried[slot] != id
  {
  }

  lemma NotTriedKept(a: AddrInfo, b: AddrInfo)
    requires a.(nRandomPos := 0) == b.(nRandomPos := 0)
    ensures a.fInTried == b.fInTried
  {
  }

  /** MakeTried puts the entry at its tried slot and into no new bucket. What was at that slot goes back to its
      own new bucket, and no entry is lost but one whose only place that was. */
  lemma MakeTriedMoves(h: Hasher, s: State, id: int)
    requires Inv(h, s) && id in s.info && !s.info[id].fInTried
    ensures Triable(h, s, id)
    ensures var g, slot := MakeTried(h, s, id), h.TriedSlot(s.info[id].service);
      && slot in g.tried && g.tried[slot] == id && SlotsOf(g.news, id) == {}
      && (slot !in s.tried ==> g.info.Keys == s.info.Keys)
      && (slot in s.tried ==> s.tried[slot] != id && MovedBack(h, LeaveNew(s, id), g, s.tried[slot]))
  {
    hide Inv, Consistent, Evict, Evictable, LeaveNew, EnterTried, MovedBack;
    MakeTriedConsistent(h, s, id);
    var slot, t, g := h.TriedSlot(s.info[id].service), LeaveNew(s, id), MakeTried(h, s, id);
    var e := Evict(h, t, slot);
    LeaveNewKeeps(h, s, id);
    LeaveNewConsistent(h, s, id);
    EvictMoves(h, t, slot, id);
    EvictConsistent(h, t, slot, id);
    NotTriedKept(e.info[id], t.info[id]);
    EnterTriedKeeps(h, t, e, id, slot);
    NoNewSlots(h, g, id);
    if slot in s.tried { NotAtTried(h, s, slot, id); }
  }

  lemma NoNewSlots(h: Hasher, s: State, id: int)
    requires Inv(h, s) && id in s.info && s.info[id].fInTried
    ensures SlotsOf(s.news, id) == {}
  {
  }

  // ----- Add_

  function Max0(t: int): nat { if t < 0 then 0 else t }

  function BothServices(a: bv64, b: bv64): bv64 { a | b }

  /** What hearing of a known address again changes in its entry. */
  function Heard(i: AddrInfo, a: Address, nTimePenalty: int, nNow: int): AddrInfo {
    var nUpdateInterval := if nNow - a.nTime < 24 * 60 * 60 then 60 * 60 else 24 * 60 * 60;
    var nTime := if a.nTime != 0 && (i.nTime == 0 || i.nTime < a.nTime - nUpdateInterval - nTimePenalty)
                 then Time32(Max0(a.nTime - nTimePenalty)) else i.nTime;
    i.(nTime := nTime, nServices := BothServices(i.nServices, a.nServices))
  }

  /** Whether an occupied slot is taken over. */
  function TakesOver(existing: AddrInfo, nRefCount: int, nNow: int): bool {
    IsTerrible(existing, nNow) || (existing.nRefCount > 1 && nRefCount == 0)
  }

  predicate Placeable(h: Hasher, s: State, id: int, slot: Slot) {
    && id in s.info && 0 <= s.info[id].nRandomPos < |s.random|
    && (slot in s.news ==> s.news[slot] in s.info && 0 <= s.info[s.news[slot]].nRandomPos < |s.random|)
    && ((slot in s.news && s.news[slot] == id) || id in ClearNew(s, slot).info)
  }

  /** The last part of Add_: into the slot chosen by the source, or out again. */
  function Place(h: Hasher, s: State, id: int, slot: Slot, nNow: int): State
    requires Placeable(h, s, id, slot)
  {
    if slot in s.news && s.news[slot] == id then s
    else if slot !in s.news || TakesOver(s.info[s.news[slot]], s.info[id].nRefCount, nNow) then
      EnterNew(ClearNew(s, slot), id, slot)
    else if s.info[id].nRefCount == 0 then Delete(s, id)
    else s
  }

  lemma PlaceConsistent(h: Hasher, s: State, id: int, slot: Slot, nNow: int, limbo: set<int>)
    requires Consistent(h, s, limbo, 0) && id in s.info && !s.info[id].fInTried
      && s.info[id].nRefCount < NEW_BUCKETS_PER_ADDRESS
    requires limbo == if s.info[id].nRefCount == 0 then {id} else {}
    requires slot == h.NewSlotIn(s.info[id].service, slot.bucket) && slot.bucket < NEW_BUCKET_COUNT
    ensures Placeable(h, s, id, slot) && Inv(h, Place(h, s, id, slot, nNow))
  {
    hide AddrsGood, RandomGood, TriedGood, NewGood, CountsGood, ClearNew, Delete, EnterNew, TakesOver;
    PosInRange(s, id);
    ClearNewConsistent(h, s, slot, limbo, 0);
    if slot in s.news && s.news[slot] == id {
    } else if slot !in s.news || TakesOver(s.info[s.news[slot]], s.info[id].nRefCount, nNow) {
      ClearNewKeeps(h, s, slot, limbo, 0, id);
      var c := ClearNew(s, slot);
      assert c.info[id].(nRandomPos := 0) == s.info[id].(nRandomPos := 0);
      RefCountKept(c.info[id], s.info[id]);
      EnterNewConsistent(h, c, id, slot, limbo, 0);
      assert limbo - {id} == {};
    } else {
      ClearNewKeeps(h, s, slot, limbo, 0, id);
      if s.info[id].nRefCount == 0 {
        DeleteConsistent(h, s, id, limbo, 0);
        assert limbo - {id} == {};
      }
    }
  }

  lemma RefCountKept(a: AddrInfo, b: AddrInfo)
    requires a.(nRandomPos := 0) == b.(nRandomPos := 0)
    ensures a.nRefCount == b.nRefCount && a.service == b.service && a.fInTried == b.fInTried
  {
  }

  /** Add_ with the clock and the draw of the stochastic test given; the result says whether the address was
      unknown. */
  function Add(h: Hasher, s: State, a: Address, source: NetAddr, nTimePenalty: int, nNow: int, fRoutable: bool,
               fLucky: bool): (State, bool)
    requires Inv(h, s)
  {
    if !fRoutable then (s, false)
    else if Find(s, a.service.ip) != -1 then
      var id := Find(s, a.service.ip);
      var t := Update(s, id, Heard(s.info[id], a, nTimePenalty, nNow));
      if Settled(t.info[id], a, fLucky) then (t, false)
      else
        assert Inv(h, t) by { StatsChange(h, s, t, id, {}, 0); }
        AddPlaces(h, t, id, source, nNow);
        (Place(h, t, id, h.NewSlot(t.info[id].service, source), nNow), false)
    else
      assert a.service.ip !in s.addr by { Unknown(h, s, a.service.ip); }
      var t := CreateAged(s, a, source, nTimePenalty);
      CreateAgedConsistent(h, s, a, source, nTimePenalty);
      PlaceConsistent(h, t, s.nIdCount, h.NewSlot(a.service, source), nNow, {s.nIdCount});
      (Place(h, t, s.nIdCount, h.NewSlot(a.service, source), nNow), true)
  }

  /** The reasons not to give a known address one more reference. */
  predicate Settled(i: AddrInfo, a: Address, fLucky: bool) {
    || a.nTime == 0 || (i.nTime != 0 && a.nTime <= i.nTime)
    || i.fInTried
    || i.nRefCount == NEW_BUCKETS_PER_ADDRESS
    || (i.nRefCount > 0 && !fLucky)
  }

  function CreateAged(s: State, a: Address, source: NetAddr, nTimePenalty: int): State {
    var t := Create(s, a, source).(nNew := s.nNew + 1);
    Update(t, s.nIdCount, t.info[s.nIdCount].(nTime := Time32(Max0(a.nTime - nTimePenalty))))
  }

  lemma Unknown(h: Hasher, s: State, ip: NetAddr)
    requires Inv(h, s) && Find(s, ip) == -1
    ensures ip !in s.addr
  {
  }

  lemma CreateAgedConsistent(h: Hasher, s: State, a: Address, source: NetAddr, nTimePenalty: int)
    requires Inv(h, s) && a.service.ip !in s.addr
    ensures Consistent(h, CreateAged(s, a, source, nTimePenalty), {s.nIdCount}, 0)
    ensures s.nIdCount in CreateAged(s, a, source, nTimePenalty).info
    ensures var i := CreateAged(s, a, source, nTimePenalty).info[s.nIdCount];
      i.service == a.service && !i.fInTried && i.nRefCount == 0
  {
    hide Consistent;
    CreateConsistent(h, s, a, source);
    var t := Create(s, a, source).(nNew := s.nNew + 1);
    StatsChange(h, t, CreateAged(s, a, source, nTimePenalty), s.nIdCount, {s.nIdCount}, 0);
  }

  lemma AddPlaces(h: Hasher, t: State, id: int, source: NetAddr, nNow: int)
    requires Inv(h, t) && id in t.info && !t.info[id].fInTried && t.info[id].nRefCount != NEW_BUCKETS_PER_ADDRESS
    ensures Placeable(h, t, id, h.NewSlot(t.info[id].service, source))
    ensures Inv(h, Place(h, t, id, h.NewSlot(t.info[id].service, source), nNow))
  {
    hide AddrsGood, RandomGood, TriedGood, NewGood, CountsGood, Place;
    PlaceConsistent(h, t, id, h.NewSlot(t.info[id].service, source), nNow, {});
  }

  lemma AddConsistent(h: Hasher, s: State, a: Address, source: NetAddr, nTimePenalty: int, nNow: int, fRoutable: bool,
                      fLucky: bool)
    requires Inv(h, s)
    ensures Inv(h, Add(h, s, a, source, nTimePenalty, nNow, fRoutable, fLucky).0)
  {
    hide Consistent, Place, Create, CreateAged, Placeable;
    if fRoutable {
      if Find(s, a.service.ip) != -1 {
        var id := Find(s, a.service.ip);
        var t := Update(s, id, Heard(s.info[id], a, nTimePenalty, nNow));
        StatsChange(h, s, t, id, {}, 0);
        if !Settled(t.info[id], a, fLucky) { AddPlaces(h, t, id, source, nNow); }
      } else {
        Unknown(h, s, a.service.ip);
        CreateAgedConsistent(h, s, a, source, nTimePenalty);
        PlaceConsistent(h, CreateAged(s, a, source, nTimePenalty), s.nIdCount, h.NewSlot(a.service, source), nNow,
          {s.nIdCount});
      }
    }
  }
}
