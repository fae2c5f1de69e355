/** The file format of the address manager, token by token, and what reading makes of a file that this version did not
    write: with another number of new buckets, with colliding entries, or with positions that cannot be used. */
module AddrFormat {
  import opened AddrState
  import AddrOps
  import opened AddrRuns
  import opened AddrDisk

  // ----- what is written

  /** Strictly rising numbers. */
  predicate Rising(ids: seq<int>) { forall i, j :: 0 <= i < j < |ids| ==> ids[i] < ids[j] }

  lemma {:induction false} BelowRising(s: State, k: nat, fTried: bool)
    ensures var ids := Below(s, k, fTried); Rising(ids) && forall i :: 0 <= i < |ids| ==> 0 <= ids[i] < k
  {
    if k > 0 { BelowRising(s, k - 1, fTried); }
  }

  /** The ids of the new entries, or of the tried ones, in rising order. */
  ghost predicate InOrder(s: State, ids: seq<int>, fTried: bool) {
    Rising(ids) && forall id :: id in ids <==> id in s.info && s.info[id].fInTried == fTried
  }

  lemma AllInOrder(h: Hasher, s: State, fTried: bool)
    requires Inv(h, s)
    ensures InOrder(s, All(s, fTried), fTried)
  {
    hide Consistent, Below, Rank;
    BelowRising(s, IdBound(s), fTried);
    AllFacts(h, s, fTried);
    var ids := All(s, fTried);
    forall id | id in s.info && s.info[id].fInTried == fTried
      ensures id in ids
    {
      assert ids[Rank(s, id, fTried)] == id;
    }
  }

  /** The token of an entry: its service, services, time, source, last success and failed attempts. */
  predicate Writes(t: Token, i: AddrInfo) {
    t == TInfo(DiskInfo(i.service, i.nServices, i.nTime, i.source, i.nLastSuccess, i.nAttempts))
  }

  /** A header with version 1, key size 32, the key, the counts, and 1024 with bit 30 set; the new entries and then the
      tried ones, in the order of their ids; and then the buckets. */
  lemma SavedLayout(h: Hasher, s: State) returns (news: seq<int>, tried: seq<int>)
    requires Inv(h, s)
    ensures s.nNew >= 0 && s.nTried >= 0 && |Saved(h, s)| >= 6 + s.nNew + s.nTried
    ensures Saved(h, s)[..6] == [TInt(1), TInt(32), TKey(h), TInt(s.nNew), TInt(s.nTried), TInt(1_073_742_848)]
    ensures InOrder(s, news, false) && InOrder(s, tried, true) && |news| == s.nNew && |tried| == s.nTried
    ensures forall i :: 0 <= i < |news| ==> news[i] in s.info && Writes(Saved(h, s)[6 + i], s.info[news[i]])
    ensures forall i :: 0 <= i < |tried| ==> tried[i] in s.info && Writes(Saved(h, s)[6 + s.nNew + i], s.info[tried[i]])
    ensures Saved(h, s)[6 + s.nNew + s.nTried..] == Buckets(s, 0)
  {
    hide Consistent, All, Buckets, Lists, InOrder, InfoTokens, Writes, Saved;
    AllInOrder(h, s, false);
    AllInOrder(h, s, true);
    AllFacts(h, s, false);
    AllFacts(h, s, true);
    news, tried := All(s, false), All(s, true);
    SavedParts(h, s);
    assert Xor30(1024) == 1_073_742_848;
    TokensOf(s, news, false);
    TokensOf(s, tried, true);
    var a, b, c, d := Header(h, s), InfoTokens(s, news), InfoTokens(s, tried), Buckets(s, 0);
    FourParts(a, b, c, d);
    forall i | 0 <= i < |news|
      ensures Saved(h, s)[6 + i] == b[i]
    {
      SecondPart(a, b, c, d, i);
    }
    forall i | 0 <= i < |tried|
      ensures Saved(h, s)[6 + s.nNew + i] == c[i]
    {
      ThirdPart(a, b, c, d, i);
    }
  }

  lemma FourParts(a: seq<Token>, b: seq<Token>, c: seq<Token>, d: seq<Token>)
    ensures (a + b + c + d)[..|a|] == a && (a + b + c + d)[|a| + |b| + |c|..] == d
  {
  }

  lemma SecondPart(a: seq<Token>, b: seq<Token>, c: seq<Token>, d: seq<Token>, i: nat)
    requires i < |b|
    ensures (a + b + c + d)[|a| + i] == b[i]
  {
  }

  lemma ThirdPart(a: seq<Token>, b: seq<Token>, c: seq<Token>, d: seq<Token>, i: nat)
    requires i < |c|
    ensures (a + b + c + d)[|a| + |b| + i] == c[i]
  {
  }

  lemma TokensOf(s: State, ids: seq<int>, fTried: bool)
    requires InOrder(s, ids, fTried)
    ensures |InfoTokens(s, ids)| == |ids|
    ensures forall i :: 0 <= i < |ids| ==> ids[i] in s.info && Writes(InfoTokens(s, ids)[i], s.info[ids[i]])
  {
    assert forall i :: 0 <= i < |ids| ==> ids[i] in ids;
  }

  /** The occupied places of a new bucket from place p on. */
  function Occupied(s: State, b: nat, p: nat): seq<nat>
    decreases 64 - p
  {
    if p >= 64 then [] else (if Slot(b, p) in s.news then [p] else []) + Occupied(s, b, p + 1)
  }

  lemma {:induction false} OccupiedIs(s: State, b: nat, p: nat)
    ensures forall i, j :: 0 <= i < j < |Occupied(s, b, p)| ==> Occupied(s, b, p)[i] < Occupied(s, b, p)[j]
    ensures forall q :: q in Occupied(s, b, p) <==> p <= q < 64 && Slot(b, q) in s.news
    decreases 64 - p
  {
    if p < 64 {
      OccupiedIs(s, b, p + 1);
      var rest := Occupied(s, b, p + 1);
      assert forall i :: 0 <= i < |rest| ==> rest[i] in rest;
    }
  }

  /** The tokens of a bucket: how many places are occupied, and then for each, in order, the number under which its
      entry was written: how many new entries have a lower id. */
  lemma {:induction false} IndicesAre(s: State, b: nat, p: nat)
    ensures |Indices(s, b, p)| == |Occupied(s, b, p)|
    ensures forall i :: 0 <= i < |Indices(s, b, p)| ==>
      Slot(b, Occupied(s, b, p)[i]) in s.news
        && Indices(s, b, p)[i] == TInt(Rank(s, s.news[Slot(b, Occupied(s, b, p)[i])], false))
    decreases 64 - p
  {
    hide Rank;
    IndicesStep(s, b, p);
    if p < 64 { IndicesAre(s, b, p + 1); }
  }

  // ----- what is read from other files

  /** A stream is refused exactly for a header that is too short or has the wrong key size, or for running out of
      tokens; here, the header. */
  lemma HeaderRead(toks: seq<Token>)
    ensures Load(toks).Read? ==>
      |toks| >= 6 && toks[1] == TInt(32) && toks[0].TInt? && toks[2].TKey? && toks[3].TInt? && toks[4].TInt?
        && toks[5].TInt?
  {
  }

  /** The places that the first n entries of a stream hash to by their sources. */
  function SlotAt(h: Hasher, toks: seq<Token>, i: nat): Slot
    requires i < |toks| && toks[i].TInfo?
  {
    h.NewSlot(toks[i].info.service, toks[i].info.source)
  }

  /** The first entry of each place holds it. */
  ghost predicate FirstHolds(h: Hasher, toks: seq<Token>, n: nat, news: map<Slot, int>)
    requires n <= |toks| && forall i :: 0 <= i < n ==> toks[i].TInfo?
  {
    && (forall i :: 0 <= i < n ==> SlotAt(h, toks, i) in news)
    && (forall sl :: sl in news ==> 0 <= news[sl] < n && SlotAt(h, toks, news[sl]) == sl)
    && (forall sl, i :: sl in news && 0 <= i < news[sl] ==> SlotAt(h, toks, i) != sl)
  }

  /** With one reference; the others have none. */
  ghost predicate Rehashed(h: Hasher, toks: seq<Token>, n: nat, st: State)
    requires n <= |toks| && forall i :: 0 <= i < n ==> toks[i].TInfo?
  {
    && FirstHolds(h, toks, n, st.news)
    && (forall id: int :: id in st.info <==> 0 <= id < n)
    && (forall id: nat :: id < n ==>
        && st.info[id].service == toks[id].info.service && !st.info[id].fInTried
        && st.info[id].nRefCount == (if st.news[SlotAt(h, toks, id)] == id then 1 else 0))
  }

  lemma FirstHoldsStep(h: Hasher, toks: seq<Token>, n: nat, news: map<Slot, int>)
    requires n < |toks| && (forall i :: 0 <= i <= n ==> toks[i].TInfo?) && FirstHolds(h, toks, n, news)
    ensures FirstHolds(h, toks, n + 1, if SlotAt(h, toks, n) in news then news else news[SlotAt(h, toks, n) := n])
  {
    hide Hasher.NewSlot;
  }

  lemma EntryLoaded(h: Hasher, st: State, n: nat, d: DiskInfo)
    requires n !in st.info
    ensures var t, sl := LoadNewEntry(h, st, n, d, false), h.NewSlot(d.service, d.source);
      && t.news == (if sl in st.news then st.news else st.news[sl := n])
      && t.info.Keys == st.info.Keys + {n as int} && (forall i :: i in st.info ==> t.info[i] == st.info[i])
      && t.info[n].service == d.service && !t.info[n].fInTried
      && t.info[n].nRefCount == (if sl in st.news then 0 else 1)
  {
    hide Hasher.NewSlot;
  }

  lemma RehashedStep(h: Hasher, toks: seq<Token>, n: nat, st: State)
    requires n < |toks| && (forall i :: 0 <= i <= n ==> toks[i].TInfo?) && Rehashed(h, toks, n, st)
    ensures Rehashed(h, toks, n + 1, LoadNewEntry(h, st, n, toks[n].info, false))
  {
    hide Hasher.NewSlot, LoadNewEntry, FirstHolds;
    FirstHoldsStep(h, toks, n, st.news);
    EntryLoaded(h, st, n, toks[n].info);
    var t := LoadNewEntry(h, st, n, toks[n].info, false);
    forall id: nat | id < n + 1
      ensures t.info[id].service == toks[id].info.service && !t.info[id].fInTried
        && SlotAt(h, toks, id) in t.news && t.info[id].nRefCount == (if t.news[SlotAt(h, toks, id)] == id then 1 else 0)
    {
      StillHolds(h, toks, n, st.news, id);
      assert id < n ==> id in st.info;
    }
  }

  lemma StillHolds(h: Hasher, toks: seq<Token>, n: nat, news: map<Slot, int>, id: nat)
    requires id <= n < |toks| && (forall i :: 0 <= i <= n ==> toks[i].TInfo?) && FirstHolds(h, toks, n, news)
    ensures var after := if SlotAt(h, toks, n) in news then news else news[SlotAt(h, toks, n) := n];
      && SlotAt(h, toks, id) in after
      && (after[SlotAt(h, toks, id)] == id <==>
            if id == n then SlotAt(h, toks, n) !in news else news[SlotAt(h, toks, id)] == id)
  {
    hide Hasher.NewSlot;
  }

  /** A file with an unknown version or another number of buckets: its new entries are put where their sources put
      them, and of those that collide only the first is kept. */
  lemma {:induction false} LoadNewRehashes(h: Hasher, st: State, toks: seq<Token>, n: nat, nNew: nat)
    requires n <= nNew <= |toks| && (forall i :: 0 <= i < nNew ==> toks[i].TInfo?) && Rehashed(h, toks, n, st)
    ensures var r := LoadNew(h, st, toks[n..], n, nNew, false);
      r.Read? && r.rest == toks[nNew..] && Rehashed(h, toks, nNew, r.value)
    decreases nNew - n
  {
    hide Rehashed, LoadNewEntry;
    if n < nNew {
      RehashedStep(h, toks, n, st);
      assert toks[n..][0] == toks[n] && toks[n..][1..] == toks[n + 1..];
      LoadNewRehashes(h, LoadNewEntry(h, st, n, toks[n].info, false), toks, n + 1, nNew);
    }
  }

  /** When the stored positions count: version 1 and 1024 buckets, stored with bit 30 flipped; version 0 stores its
      number of buckets as it is, and its positions are never used. */
  lemma RehashedLoad(h: Hasher, toks: seq<Token>)
    requires GoodHeader(toks) && 0 <= toks[3].n <= |toks| - 6 && forall i :: 6 <= i < 6 + toks[3].n ==> toks[i].TInfo?
    requires toks[2].key == h && (toks[0].n != 1 || toks[5].n != 1_073_742_848)
    ensures var nNew, nTried := toks[3].n, toks[4].n;
      exists a :: Rehashed(h, toks[6..], nNew, a) && AfterNew(h, toks, a, Load(toks))
  {
    hide LoadNew, LoadTried, LoadBuckets, Prune, Rehashed;
    var nNew, nTried := toks[3].n, toks[4].n;
    var st := Empty().(nNew := nNew, nTried := nTried);
    NothingRehashed(h, toks[6..], nNew, nTried);
    assert forall i :: 0 <= i < nNew ==> toks[6..][i] == toks[6 + i];
    assert toks[6..][0..] == toks[6..];
    LoadNewRehashes(h, st, toks[6..], 0, nNew);
    Flipped(toks[5].n);
    var a := LoadNew(h, st, toks[6..], 0, nNew, false).value;
    assert toks[6..][nNew..] == toks[6 + nNew..];
    assert AfterNew(h, toks, a, Load(toks));
  }

  /** Loading goes on with these new entries, without using any stored position. */
  ghost predicate AfterNew(h: Hasher, toks: seq<Token>, a: State, r: Reading<Outcome>)
    requires GoodHeader(toks) && 0 <= toks[3].n <= |toks| - 6
  {
    var nNew, nTried := toks[3].n, toks[4].n;
    match LoadTried(h, a.(nIdCount := nNew), toks[6 + nNew..], 0, nTried, 0)
    case Fail => r == Fail
    case Read((b, nLost), rest) =>
      match LoadBuckets(h, b.(nTried := nTried - nLost), rest, 0,
        if toks[0].n != 0 then Xor30(toks[5].n) else toks[5].n, nNew, false)
      case Fail => r == Fail
      case Read(c, end) => r == Read(Outcome(h, Prune(c, 0, 0).0, nLost, Prune(c, 0, 0).1), end)
  }

  lemma NothingRehashed(h: Hasher, toks: seq<Token>, nNew: int, nTried: int)
    ensures Rehashed(h, toks, 0, Empty().(nNew := nNew, nTried := nTried))
  {
  }

  /** Bit 30 flipped, and nothing else. */
  lemma Flipped(n: int)
    ensures Xor30(n) == 1024 <==> n == 1_073_742_848
    ensures 0 <= n < 0x4000_0000 ==> Xor30(n) == n + 0x4000_0000 && Xor30(n + 0x4000_0000) == n
  {
  }

  // ----- tried entries and positions

  /** Of the tried entries that share a place the first is kept, and each of the others counts as lost. */
  lemma TriedOrLost(h: Hasher, st: State, d: DiskInfo, rest: seq<Token>, n: nat, nTried: int, nLost: nat)
    requires n < nTried
    ensures LoadTried(h, st, [TInfo(d)] + rest, n, nTried, nLost) ==
      if h.TriedSlot(d.service) in st.tried then LoadTried(h, st, rest, n + 1, nTried, nLost + 1)
      else
        LoadTried(h, st.(nIdCount := st.nIdCount + 1,
          info := st.info[st.nIdCount := AddrInfo(d.service, d.nServices, d.nTime, 0, d.source, d.nLastSuccess,
            d.nAttempts, 0, true, |st.random|)],
          addr := st.addr[d.service.ip := st.nIdCount], random := st.random + [st.nIdCount],
          tried := st.tried[h.TriedSlot(d.service) := st.nIdCount]), rest, n + 1, nTried, nLost)
  {
    assert ([TInfo(d)] + rest)[1..] == rest;
  }

  /** A stored position enters its entry into the bucket exactly when it names a new entry with fewer than eight
      places and the place there is free; any other is skipped. */
  lemma PositionRead(h: Hasher, st: State, bucket: nat, nIndex: int, nNew: int)
    ensures LoadIndex(h, st, bucket, nIndex, nNew, false) == st
    ensures var t := LoadIndex(h, st, bucket, nIndex, nNew, true);
      if 0 <= nIndex < nNew && nIndex in st.info && st.info[nIndex].nRefCount < 8
        && Slot(bucket, h.posHash(true, bucket, st.info[nIndex].service) % 64) !in st.news
      then
        && t.news == st.news[Slot(bucket, h.posHash(true, bucket, st.info[nIndex].service) % 64) := nIndex]
        && t.info == st.info[nIndex := st.info[nIndex].(nRefCount := st.info[nIndex].nRefCount + 1)]
        && t == st.(news := t.news, info := t.info)
      else t == st
  {
  }

  predicate InUse(i: AddrInfo) { i.fInTried || i.nRefCount != 0 }

  /** Ids are below the count, and all below k are in use. */
  predicate UsedBelow(st: State, k: nat) {
    forall i :: i in st.info ==> 0 <= i < st.nIdCount && (i < k ==> InUse(st.info[i]))
  }

  /** Exactly the entries in use are kept. */
  predicate KeepsUsed(s: State, t: State) {
    && (forall i :: i in t.info ==> i in s.info && InUse(s.info[i]))
    && (forall i :: i in s.info && InUse(s.info[i]) ==> i in t.info)
  }

  /** What is kept in the end is tried or has a place; each entry pruned counts as lost. */
  lemma {:induction false} PruneKeeps(st: State, id: nat, nLostUnk: nat)
    requires RandomGood(st) && UsedBelow(st, id)
    ensures KeepsUsed(st, Prune(st, id, nLostUnk).0)
    ensures Prune(st, id, nLostUnk).1 == nLostUnk + |st.info| - |Prune(st, id, nLostUnk).0.info|
    decreases st.nIdCount - id
  {
    hide Delete, RandomGood, Stray, UsedBelow, KeepsUsed, Prune;
    if id >= st.nIdCount {
      PruneEnd(st, id, nLostUnk);
      AllUsed(st, id);
    } else {
      PruneStep(st, id, nLostUnk);
      if Stray(st, id) {
        StrayGone(st, id);
        PruneKeeps(Delete(st, id), id + 1, nLostUnk + 1);
        KeptToo(st, Delete(st, id), id, Prune(Delete(st, id), id + 1, nLostUnk + 1).0);
      } else {
        StrayMeans(st, id);
        PruneKeeps(st, id + 1, nLostUnk);
      }
    }
  }

  lemma AllUsed(st: State, id: nat)
    requires UsedBelow(st, id) && id >= st.nIdCount
    ensures KeepsUsed(st, st)
  {
  }

  lemma StrayGone(st: State, id: nat)
    requires RandomGood(st) && UsedBelow(st, id) && Stray(st, id)
    ensures id in st.info && 0 <= st.info[id].nRandomPos < |st.random|
    ensures UsedBelow(Delete(st, id), id + 1) && |Delete(st, id).info| == |st.info| - 1
    ensures Delete(st, id).info.Keys == st.info.Keys - {id} && !InUse(st.info[id])
    ensures forall i :: i in Delete(st, id).info ==> InUse(Delete(st, id).info[i]) == InUse(st.info[i])
    ensures Delete(st, id).nIdCount == st.nIdCount
  {
    hide Delete, RandomGood;
    DeletedOne(st, id);
    SameCount(st, id);
    var t := Delete(st, id);
    forall i | i in t.info
      ensures 0 <= i < st.nIdCount && i != id && InUse(t.info[i]) == InUse(st.info[i])
    {
      assert i in t.info.Keys;
    }
  }

  lemma SameCount(st: State, id: int)
    requires id in st.info && 0 <= st.info[id].nRandomPos < |st.random|
    ensures Delete(st, id).nIdCount == st.nIdCount
  {
  }

  lemma KeptToo(s: State, u: State, id: int, t: State)
    requires u.info.Keys == s.info.Keys - {id} && id in s.info && !InUse(s.info[id])
    requires forall i :: i in u.info ==> InUse(u.info[i]) == InUse(s.info[i])
    requires KeepsUsed(u, t)
    ensures KeepsUsed(s, t)
  {
    forall i | i in t.info
      ensures i in s.info && InUse(s.info[i])
    {
      assert i in u.info.Keys;
    }
    forall i | i in s.info && InUse(s.info[i])
      ensures i in t.info
    {
      assert i in u.info.Keys;
    }
  }

  lemma StrayMeans(st: State, id: nat)
    requires RandomGood(st) && UsedBelow(st, id) && !Stray(st, id)
    ensures UsedBelow(st, id + 1)
  {
  }

  lemma DeletedOne(st: State, id: int)
    requires RandomGood(st) && id in st.info
    ensures 0 <= st.info[id].nRandomPos < |st.random|
    ensures var t := Delete(st, id);
      && t.info.Keys == st.info.Keys - {id} && |t.info| == |st.info| - 1
      && forall i :: i in t.info ==>
        t.info[i].fInTried == st.info[i].fInTried && t.info[i].nRefCount == st.info[i].nRefCount
  {
    hide Delete;
    PosInRange(st, id);
    AddrOps.DeleteRemovesOne(st, id);
    var t := Delete(st, id);
    KeysSize(st.info);
    KeysSize(t.info);
    forall i | i in t.info
      ensures t.info[i].fInTried == st.info[i].fInTried && t.info[i].nRefCount == st.info[i].nRefCount
    {
      assert i in t.info.Keys;
      AddrOps.DeleteKeeps(st, id, i);
      AddrOps.RefCountKept(t.info[i], st.info[i]);
    }
  }

  lemma KeysSize(m: map<int, AddrInfo>)
    ensures |m| == |m.Keys|
  {
  }
}
