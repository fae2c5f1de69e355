/** The address manager on disk: what is written, what reading it back does, and why nothing is lost. */
module AddrDisk {
  import opened Basics
  import opened AddrState
  import opened AddrOps
  import opened AddrRuns

  /** What is kept of an entry. */
  datatype DiskInfo = DiskInfo(
    service: Service, nServices: bv64, nTime: nat, source: NetAddr, nLastSuccess: int, nAttempts: int)

  /** One value in the stream; the secret key stands for the hashes it gives. */
  datatype Token = TInt(n: int) | TKey(key: Hasher) | TInfo(info: DiskInfo)

  datatype Reading<+T> = Fail | Read(value: T, rest: seq<Token>)

  /** Exclusive or with 2^30. */
  function Xor30(n: int): int {
    if (n / 0x4000_0000) % 2 == 0 then n + 0x4000_0000 else n - 0x4000_0000
  }

  lemma Xor30Twice(n: int)
    ensures Xor30(Xor30(n)) == n
  {
    Shift30(n, 1);
    Shift30(n, -1);
  }

  lemma Shift30(n: int, k: int)
    ensures (n + k * 0x4000_0000) / 0x4000_0000 == n / 0x4000_0000 + k
  {
  }

  function Persisted(i: AddrInfo): DiskInfo {
    DiskInfo(i.service, i.nServices, i.nTime, i.source, i.nLastSuccess, i.nAttempts)
  }

  // ----- writing

  predicate Picked(i: AddrInfo, fTried: bool) {
    if fTried then i.fInTried else i.nRefCount != 0
  }

  /** The first k ids, in order, that are tried or that are in new buckets. */
  function Below(s: State, k: nat, fTried: bool): seq<int> {
    if k == 0 then []
    else Below(s, k - 1, fTried) + if k - 1 in s.info && Picked(s.info[k - 1], fTried) then [k - 1] else []
  }

  function IdBound(s: State): nat { if s.nIdCount < 0 then 0 else s.nIdCount }

  function All(s: State, fTried: bool): seq<int> { Below(s, IdBound(s), fTried) }

  function Blank(): DiskInfo { DiskInfo(Service(0, 0), 0, 0, 0, 0, 0) }

  function InfoToken(s: State, id: int): Token {
    TInfo(if id in s.info then Persisted(s.info[id]) else Blank())
  }

  function InfoTokens(s: State, ids: seq<int>): seq<Token> {
    seq(|ids|, i requires 0 <= i < |ids| => InfoToken(s, ids[i]))
  }

  /** How many of them come before the given id. */
  function Rank(s: State, id: int, fTried: bool): nat {
    if id < 0 then 0 else |Below(s, id, fTried)|
  }

  /** The entries of a bucket from position p on, by their place among the new entries. */
  function Indices(s: State, b: nat, p: nat): seq<Token>
    decreases BUCKET_SIZE - p
  {
    if p >= BUCKET_SIZE then []
    else (if Slot(b, p) in s.news then [TInt(Rank(s, s.news[Slot(b, p)], false))] else []) + Indices(s, b, p + 1)
  }

  /** Buckets from b on. */
  function Buckets(s: State, b: nat): seq<Token>
    decreases NEW_BUCKET_COUNT - b
  {
    if b >= NEW_BUCKET_COUNT then []
    else BucketPart(s, b) + Buckets(s, b + 1)
  }

  function BucketPart(s: State, b: nat): seq<Token> {
    [TInt(|Indices(s, b, 0)|)] + Indices(s, b, 0)
  }

  function Header(h: Hasher, s: State): seq<Token> {
    [TInt(1), TInt(32), TKey(h), TInt(s.nNew), TInt(s.nTried), TInt(Xor30(NEW_BUCKET_COUNT))]
  }

  function Saved(h: Hasher, s: State): seq<Token> {
    Header(h, s) + (InfoTokens(s, All(s, false)) + (InfoTokens(s, All(s, true)) + Buckets(s, 0)))
  }

  // ----- reading

  /** Reading into an entry overwrites what is kept on disk and forgets the last try. */
  function Overwrite(i: AddrInfo, d: DiskInfo): AddrInfo {
    i.(service := d.service, nServices := d.nServices, nTime := d.nTime, source := d.source,
       nLastTry := 0, nLastSuccess := d.nLastSuccess, nAttempts := d.nAttempts)
  }

  function NoInfo(): AddrInfo { AddrInfo(Service(0, 0), 0, 0, 0, 0, 0, 0, 0, false, -1) }

  function LoadNewEntry(h: Hasher, st: State, n: nat, d: DiskInfo, fKeep: bool): State {
    var i := Overwrite(if n in st.info then st.info[n] else NoInfo(), d).(nRandomPos := |st.random|);
    var t := st.(info := st.info[n := i], addr := st.addr[d.service.ip := n], random := st.random + [n]);
    if fKeep || h.NewSlot(d.service, d.source) in t.news then t else EnterNew(t, n, h.NewSlot(d.service, d.source))
  }

  function LoadNew(h: Hasher, st: State, toks: seq<Token>, n: nat, nNew: int, fKeep: bool): Reading<State>
    decreases nNew - n
  {
    if n >= nNew then Read(st, toks)
    else if |toks| == 0 || !toks[0].TInfo? then Fail
    else LoadNew(h, LoadNewEntry(h, st, n, toks[0].info, fKeep), toks[1..], n + 1, nNew, fKeep)
  }

  function LoadTriedEntry(h: Hasher, st: State, d: DiskInfo): State {
    var i := Overwrite(NoInfo(), d).(nRandomPos := |st.random|, fInTried := true);
    st.(nIdCount := st.nIdCount + 1, info := st.info[st.nIdCount := i], addr := st.addr[d.service.ip := st.nIdCount],
        random := st.random + [st.nIdCount], tried := st.tried[h.TriedSlot(d.service) := st.nIdCount])
  }

  /** The second component counts the entries whose slot was taken. */
  function LoadTried(h: Hasher, st: State, toks: seq<Token>, n: nat, nTried: int, nLost: nat): Reading<(State, nat)>
    decreases nTried - n
  {
    if n >= nTried then Read((st, nLost), toks)
    else if |toks| == 0 || !toks[0].TInfo? then Fail
    else if h.TriedSlot(toks[0].info.service) in st.tried then LoadTried(h, st, toks[1..], n + 1, nTried, nLost + 1)
    else LoadTried(h, LoadTriedEntry(h, st, toks[0].info), toks[1..], n + 1, nTried, nLost)
  }

  function LoadIndex(h: Hasher, st: State, bucket: nat, nIndex: int, nNew: int, fKeep: bool): State {
    if 0 <= nIndex < nNew && nIndex in st.info && fKeep
       && h.NewSlotIn(st.info[nIndex].service, bucket) !in st.news
       && st.info[nIndex].nRefCount < NEW_BUCKETS_PER_ADDRESS
    then EnterNew(st, nIndex, h.NewSlotIn(st.info[nIndex].service, bucket))
    else st
  }

  function LoadBucket(h: Hasher, st: State, toks: seq<Token>, bucket: nat, n: nat, nSize: int, nNew: int,
                      fKeep: bool): Reading<State>
    decreases nSize - n
  {
    if n >= nSize then Read(st, toks)
    else if |toks| == 0 || !toks[0].TInt? then Fail
    else LoadBucket(h, LoadIndex(h, st, bucket, toks[0].n, nNew, fKeep), toks[1..], bucket, n + 1, nSize, nNew, fKeep)
  }

  function LoadBuckets(h: Hasher, st: State, toks: seq<Token>, bucket: nat, nUBuckets: int, nNew: int,
                       fKeep: bool): Reading<State>
    decreases nUBuckets - bucket
  {
    if bucket >= nUBuckets then Read(st, toks)
    else if |toks| == 0 || !toks[0].TInt? then Fail
    else
      match LoadBucket(h, st, toks[1..], bucket, 0, toks[0].n, nNew, fKeep)
      case Fail => Fail
      case Read(t, rest) => LoadBuckets(h, t, rest, bucket + 1, nUBuckets, nNew, fKeep)
  }

  /** Whether reading left the entry in no table. */
  predicate Stray(st: State, id: int) {
    id in st.info && !st.info[id].fInTried && st.info[id].nRefCount == 0 && 0 <= st.info[id].nRandomPos < |st.random|
  }

  /** Delete the stray entries from id on; the second component counts them. */
  function Prune(st: State, id: nat, nLostUnk: nat): (State, nat)
    decreases st.nIdCount - id
  {
    if id >= st.nIdCount then (st, nLostUnk)
    else if Stray(st, id) then Prune(Delete(st, id), id + 1, nLostUnk + 1)
    else Prune(st, id + 1, nLostUnk)
  }

  /** What a fresh manager becomes: the key read, the tables, and how many tried and new entries were lost. */
  datatype Outcome = Outcome(key: Hasher, state: State, nLost: nat, nLostUnk: nat)

  predicate GoodHeader(toks: seq<Token>) {
    && |toks| >= 6 && toks[0].TInt? && toks[1] == TInt(32) && toks[2].TKey? && toks[3].TInt? && toks[4].TInt?
    && toks[5].TInt?
  }

  function Load(toks: seq<Token>): Reading<Outcome> {
    if !GoodHeader(toks) then Fail
    else
      var h, nNew, nTried := toks[2].key, toks[3].n, toks[4].n;
      var nUBuckets := if toks[0].n != 0 then Xor30(toks[5].n) else toks[5].n;
      var fKeep := toks[0].n == 1 && nUBuckets == NEW_BUCKET_COUNT;
      match LoadNew(h, Empty().(nNew := nNew, nTried := nTried), toks[6..], 0, nNew, fKeep)
      case Fail => Fail
      case Read(a, afterNew) =>
        match LoadTried(h, a.(nIdCount := nNew), afterNew, 0, nTried, 0)
        case Fail => Fail
        case Read((b, nLost), afterTried) =>
          match LoadBuckets(h, b.(nTried := nTried - nLost), afterTried, 0, nUBuckets, nNew, fKeep)
          case Fail => Fail
          case Read(c, rest) =>
            var (d, nLostUnk) := Prune(c, 0, 0);
            Read(Outcome(h, d, nLost, nLostUnk), rest)
  }

  // ----- the numbering

  /** ids lists the picked entries below k, each at its rank. */
  ghost predicate Ranks(s: State, ids: seq<int>, k: nat, fTried: bool) {
    && (forall j :: 0 <= j < |ids| ==>
      0 <= ids[j] < k && ids[j] in s.info && Picked(s.info[ids[j]], fTried) && Rank(s, ids[j], fTried) == j)
    && (forall id :: 0 <= id < k && id in s.info && Picked(s.info[id], fTried) ==>
        Rank(s, id, fTried) < |ids| && ids[Rank(s, id, fTried)] == id)
  }

  lemma RanksMore(s: State, ids: seq<int>, k: nat, fTried: bool)
    requires Ranks(s, ids, k, fTried) && Rank(s, k, fTried) == |ids|
    ensures Ranks(s, ids + if k in s.info && Picked(s.info[k], fTried) then [k] else [], k + 1, fTried)
  {
    hide Rank, Picked;
  }

  lemma {:induction false} BelowFacts(s: State, k: nat, fTried: bool)
    ensures Ranks(s, Below(s, k, fTried), k, fTried)
  {
    hide Ranks;
    if k > 0 {
      BelowFacts(s, k - 1, fTried);
      RanksMore(s, Below(s, k - 1, fTried), k - 1, fTried);
    } else {
      RanksNone(s, fTried);
    }
  }

  lemma RanksNone(s: State, fTried: bool)
    ensures Ranks(s, [], 0, fTried)
  {
  }

  /** All lists the tried entries, or the others, each at its rank. */
  ghost predicate Lists(s: State, ids: seq<int>, fTried: bool) {
    && (forall j :: 0 <= j < |ids| ==>
      ids[j] in s.info && s.info[ids[j]].fInTried == fTried && Rank(s, ids[j], fTried) == j)
    && (forall id :: id in s.info && s.info[id].fInTried == fTried ==>
      Rank(s, id, fTried) < |ids| && ids[Rank(s, id, fTried)] == id)
  }

  lemma RanksLists(h: Hasher, s: State, ids: seq<int>, fTried: bool)
    requires Inv(h, s) && Ranks(s, ids, IdBound(s), fTried)
    ensures Lists(s, ids, fTried)
  {
    hide AddrsGood, RandomGood, TriedGood, NewGood, CountsGood, Rank;
    forall id | id in s.info
      ensures Picked(s.info[id], fTried) <==> s.info[id].fInTried == fTried
    {
      assert GoodInfo(s.info[id], false);
    }
  }

  lemma ListsSize(s: State, ids: seq<int>, fTried: bool)
    requires Lists(s, ids, fTried)
    ensures |ids| == if fTried then |TriedIds(s)| else |NewIds(s)|
  {
    hide Rank;
    forall i, j | 0 <= i < j < |ids|
      ensures ids[i] != ids[j]
    {
      assert Rank(s, ids[i], fTried) == i && Rank(s, ids[j], fTried) == j;
    }
    DistinctSize(ids);
    forall id | id in s.info && s.info[id].fInTried == fTried
      ensures id in ids
    {
      assert ids[Rank(s, id, fTried)] == id;
    }
    assert (set x | x in ids) == if fTried then TriedIds(s) else NewIds(s);
  }

  lemma AllFacts(h: Hasher, s: State, fTried: bool)
    requires Inv(h, s)
    ensures Lists(s, All(s, fTried), fTried) && |All(s, fTried)| == if fTried then s.nTried else s.nNew
  {
    hide AddrsGood, RandomGood, TriedGood, NewGood, InfosGood, Ranks, Lists, Below;
    BelowFacts(s, IdBound(s), fTried);
    RanksLists(h, s, All(s, fTried), fTried);
    ListsSize(s, All(s, fTried), fTried);
  }

  /** The id an entry gets when it is read back. */
  function Rho(s: State, id: int): nat {
    if id in s.info && s.info[id].fInTried then |All(s, false)| + Rank(s, id, true) else Rank(s, id, false)
  }

  /** The entry read back as n. */
  function Origin(s: State, n: nat): int
    requires n < |All(s, false)| + |All(s, true)|
  {
    if n < |All(s, false)| then All(s, false)[n] else All(s, true)[n - |All(s, false)|]
  }

  lemma Renumbering(h: Hasher, s: State)
    requires Inv(h, s)
    ensures forall id :: id in s.info ==> Rho(s, id) < |All(s, false)| + |All(s, true)| && Origin(s, Rho(s, id)) == id
    ensures forall n: nat :: n < |All(s, false)| + |All(s, true)| ==>
      Origin(s, n) in s.info && Rho(s, Origin(s, n)) == n
    ensures forall id :: id in s.info ==> (s.info[id].fInTried <==> Rho(s, id) >= |All(s, false)|)
    ensures |All(s, false)| == s.nNew && |All(s, true)| == s.nTried
  {
    hide Consistent, All, Rank;
    AllFacts(h, s, false);
    AllFacts(h, s, true);
  }

  // ----- what has been read so far

  predicate Before(sl: Slot, b: nat, p: nat) {
    sl.bucket < b || (sl.bucket == b && sl.pos < p)
  }

  /** The slots of an entry before position p of bucket b. */
  function Earlier(s: State, id: int, b: nat, p: nat): set<Slot> {
    set sl | sl in s.news && s.news[sl] == id && Before(sl, b, p)
  }

  function Restored(i: AddrInfo, n: int, nRefCount: int): AddrInfo {
    i.(nLastTry := 0, nRandomPos := n, nRefCount := nRefCount)
  }

  /** The first n entries, with the new slots before (b, p). */
  ghost predicate InfosPorted(s: State, st: State, n: nat, b: nat, p: nat) {
    && n <= |All(s, false)| + |All(s, true)|
    && (forall m :: m in st.info <==> 0 <= m < n)
    && (forall m :: 0 <= m < n ==>
        Origin(s, m) in s.info && st.info[m] == Restored(s.info[Origin(s, m)], m, |Earlier(s, Origin(s, m), b, p)|))
    && |st.random| == n && (forall m :: 0 <= m < n ==> st.random[m] == m)
  }

  ghost predicate TriedPorted(s: State, st: State, n: nat) {
    forall sl :: (sl in st.tried <==> sl in s.tried && Rho(s, s.tried[sl]) < n)
      && (sl in st.tried ==> st.tried[sl] == Rho(s, s.tried[sl]))
  }

  ghost predicate NewsPorted(s: State, st: State, b: nat, p: nat) {
    forall sl :: (sl in st.news <==> sl in s.news && Before(sl, b, p))
      && (sl in st.news ==> st.news[sl] == Rho(s, s.news[sl]))
  }

  ghost predicate Ported(s: State, st: State, n: nat, b: nat, p: nat) {
    && InfosPorted(s, st, n, b, p) && AddrsGood(st) && TriedPorted(s, st, n) && NewsPorted(s, st, b, p)
    && st.nNew == |All(s, false)|
  }

  lemma NothingPorted(h: Hasher, s: State)
    requires Inv(h, s)
    ensures Ported(s, Empty().(nNew := |All(s, false)|), 0, 0, 0)
  {
  }

  lemma NoneEarlier(s: State, id: int)
    ensures Earlier(s, id, 0, 0) == {}
  {
  }

  /** A known address names the entry it named before. */
  lemma AddressOrigin(h: Hasher, s: State, st: State, n: nat, b: nat, p: nat, ip: NetAddr)
    requires Inv(h, s) && InfosPorted(s, st, n, b, p) && AddrsGood(st) && ip in st.addr
    ensures 0 <= st.addr[ip] < n && ip in s.addr && Origin(s, st.addr[ip]) == s.addr[ip]
  {
    hide RandomGood, TriedGood, NewGood, CountsGood, All, Origin, Earlier;
    var m := st.addr[ip];
    assert m in st.info && st.info[m].service.ip == ip;
    assert s.info[Origin(s, m)].service.ip == ip;
  }

  /** Two entries do not share an address. */
  lemma FreshAddress(h: Hasher, s: State, st: State, n: nat)
    requires Inv(h, s) && InfosPorted(s, st, n, 0, 0) && AddrsGood(st) && n < |All(s, false)| + |All(s, true)|
    ensures Origin(s, n) in s.info && s.info[Origin(s, n)].service.ip !in st.addr
  {
    hide RandomGood, TriedGood, NewGood, CountsGood, All, Origin, Rho, InfosPorted;
    Renumbering(h, s);
    var ip := s.info[Origin(s, n)].service.ip;
    if ip in st.addr {
      AddressOrigin(h, s, st, n, 0, 0, ip);
    }
  }

  lemma AddressAdded(st: State, t: State, n: int)
    requires AddrsGood(st) && n !in st.info && n in t.info && t.info == st.info[n := t.info[n]]
    requires t.info[n].service.ip !in st.addr && t.addr == st.addr[t.info[n].service.ip := n]
    ensures AddrsGood(t)
  {
  }

  lemma InfoAdded(s: State, st: State, t: State, n: nat)
    requires InfosPorted(s, st, n, 0, 0) && n < |All(s, false)| + |All(s, true)| && Origin(s, n) in s.info
    requires n in t.info && t.info == st.info[n := Restored(s.info[Origin(s, n)], n, 0)] && t.random == st.random + [n]
    ensures InfosPorted(s, t, n + 1, 0, 0)
  {
    hide All, Origin;
    forall m | 0 <= m < n + 1
      ensures t.info[m] == Restored(s.info[Origin(s, m)], m, |Earlier(s, Origin(s, m), 0, 0)|)
    {
      NoneEarlier(s, Origin(s, m));
    }
  }

  // ----- reading back, table by table

  /** The entries from the n-th on, as written. */
  function EntriesFrom(s: State, n: nat, m: nat): seq<Token>
    requires n <= m <= |All(s, false)| + |All(s, true)|
    decreases m - n
  {
    if n == m then [] else [InfoToken(s, Origin(s, n))] + EntriesFrom(s, n + 1, m)
  }

  lemma {:induction false} EntriesAreTokens(s: State, n: nat, fTried: bool)
    requires n <= |All(s, fTried)|
    ensures var off := if fTried then |All(s, false)| else 0;
      EntriesFrom(s, off + n, off + |All(s, fTried)|) == InfoTokens(s, All(s, fTried))[n..]
    decreases |All(s, fTried)| - n
  {
    hide All, InfoToken;
    var toks := InfoTokens(s, All(s, fTried));
    if n < |All(s, fTried)| {
      EntriesAreTokens(s, n + 1, fTried);
      assert toks[n..] == [toks[n]] + toks[n + 1..];
    }
  }

  /** One entry of the new table read back. */
  lemma LoadNewStep(h: Hasher, s: State, st: State, n: nat)
    requires Inv(h, s) && Ported(s, st, n, 0, 0) && n < |All(s, false)|
    ensures Origin(s, n) in s.info
    ensures Ported(s, LoadNewEntry(h, st, n, Persisted(s.info[Origin(s, n)]), true), n + 1, 0, 0)
  {
    hide Consistent, All, AddrsGood, InfosPorted, Origin, Rho, NewsPorted;
    Renumbering(h, s);
    FreshAddress(h, s, st, n);
    PortedKeys(s, st, n);
    var i := s.info[Origin(s, n)];
    var t := LoadNewEntry(h, st, n, Persisted(i), true);
    NewInfo(h, s, Origin(s, n));
    assert t.info[n] == Restored(i, n, 0);
    InfoAdded(s, st, t, n);
    AddressAdded(st, t, n);
    SameNews(s, st, t, 0, 0);
    SameTried(h, s, st, t, n);
  }

  lemma SameTried(h: Hasher, s: State, st: State, t: State, n: nat)
    requires Inv(h, s) && TriedPorted(s, st, n) && n < |All(s, false)| && t.tried == st.tried
    ensures TriedPorted(s, t, n + 1)
  {
    hide InfosGood, NewGood, CountsGood, AddrsGood, RandomGood, All, Rho;
    Renumbering(h, s);
  }

  lemma PortedKeys(s: State, st: State, n: nat)
    requires InfosPorted(s, st, n, 0, 0)
    ensures n !in st.info && |st.random| == n
  {
  }

  lemma NewInfo(h: Hasher, s: State, id: int)
    requires Inv(h, s) && id in s.info
    ensures s.info[id].fInTried ==> s.info[id].nRefCount == 0
  {
  }

  lemma SameNews(s: State, st: State, t: State, b: nat, p: nat)
    requires NewsPorted(s, st, b, p) && t.news == st.news
    ensures NewsPorted(s, t, b, p)
  {
  }

  lemma {:induction false} LoadNewTrip(h: Hasher, s: State, st: State, n: nat, rest: seq<Token>)
    requires Inv(h, s) && Ported(s, st, n, 0, 0) && n <= |All(s, false)|
    ensures var r := LoadNew(h, st, EntriesFrom(s, n, |All(s, false)|) + rest, n, |All(s, false)|, true);
      r.Read? && r.rest == rest && Ported(s, r.value, |All(s, false)|, 0, 0)
    decreases |All(s, false)| - n
  {
    hide Consistent, All, Ported, LoadNewEntry, Origin;
    var toks := EntriesFrom(s, n, |All(s, false)|) + rest;
    if n == |All(s, false)| {
      assert toks == rest;
    } else {
      LoadNewStep(h, s, st, n);
      var d := Persisted(s.info[Origin(s, n)]);
      assert toks[0] == TInfo(d) && toks[1..] == EntriesFrom(s, n + 1, |All(s, false)|) + rest;
      LoadNewTrip(h, s, LoadNewEntry(h, st, n, d, true), n + 1, rest);
    }
  }

  /** One entry of the tried table read back; its slot is free. */
  lemma LoadTriedStep(h: Hasher, s: State, st: State, n: nat)
    requires Inv(h, s) && Ported(s, st, n, 0, 0) && |All(s, false)| <= n < |All(s, false)| + |All(s, true)|
      && st.nIdCount == n
    ensures Origin(s, n) in s.info && h.TriedSlot(s.info[Origin(s, n)].service) !in st.tried
    ensures Ported(s, LoadTriedEntry(h, st, Persisted(s.info[Origin(s, n)])), n + 1, 0, 0)
  {
    hide Consistent, All, AddrsGood, InfosPorted, Origin, Rho, NewsPorted;
    Renumbering(h, s);
    FreshAddress(h, s, st, n);
    PortedKeys(s, st, n);
    var i := s.info[Origin(s, n)];
    var t := LoadTriedEntry(h, st, Persisted(i));
    NewInfo(h, s, Origin(s, n));
    assert t.info[n] == Restored(i, n, 0);
    InfoAdded(s, st, t, n);
    AddressAdded(st, t, n);
    SameNews(s, st, t, 0, 0);
    TriedAdded(h, s, st, t, n);
  }

  lemma TriedAdded(h: Hasher, s: State, st: State, t: State, n: nat)
    requires Inv(h, s) && TriedPorted(s, st, n) && n < |All(s, false)| + |All(s, true)|
    requires Origin(s, n) in s.info && s.info[Origin(s, n)].fInTried
    requires t.tried == st.tried[h.TriedSlot(s.info[Origin(s, n)].service) := n]
    ensures h.TriedSlot(s.info[Origin(s, n)].service) !in st.tried && TriedPorted(s, t, n + 1)
  {
    hide InfosGood, NewGood, CountsGood, AddrsGood, RandomGood, All, Origin, Rho;
    Renumbering(h, s);
  }

  lemma TriedMore(st: State, nIdCount: int, s: State, n: nat)
    requires Ported(s, st, n, 0, 0)
    ensures Ported(s, st.(nIdCount := nIdCount), n, 0, 0)
  {
  }

  /** All entries are read and none is lost. */
  ghost predicate ReadsTried(s: State, r: Reading<(State, nat)>, rest: seq<Token>) {
    && r.Read? && r.rest == rest && r.value.1 == 0
    && r.value.0.nIdCount == |All(s, false)| + |All(s, true)|
    && Ported(s, r.value.0, |All(s, false)| + |All(s, true)|, 0, 0)
  }

  lemma {:induction false} LoadTriedTrip(h: Hasher, s: State, st: State, n: nat, rest: seq<Token>)
    requires Inv(h, s) && n <= |All(s, true)| && st.nIdCount == |All(s, false)| + n
    requires Ported(s, st, |All(s, false)| + n, 0, 0)
    ensures var m := |All(s, false)| + |All(s, true)|;
      ReadsTried(s, LoadTried(h, st, EntriesFrom(s, |All(s, false)| + n, m) + rest, n, |All(s, true)|, 0), rest)
    decreases |All(s, true)| - n
  {
    hide Consistent, All, Ported, Origin;
    var at, m := |All(s, false)| + n, |All(s, false)| + |All(s, true)|;
    var toks := EntriesFrom(s, at, m) + rest;
    if n == |All(s, true)| {
      assert toks == rest;
    } else {
      LoadTriedStep(h, s, st, at);
      var d := Persisted(s.info[Origin(s, at)]);
      assert toks[0] == TInfo(d) && toks[1..] == EntriesFrom(s, at + 1, m) + rest;
      LoadTriedTrip(h, s, LoadTriedEntry(h, st, d), n + 1, rest);
    }
  }

  // ----- reading back the slots

  lemma SkipPosition(s: State, st: State, n: nat, b: nat, p: nat)
    requires Ported(s, st, n, b, p) && Slot(b, p) !in s.news
    ensures Ported(s, st, n, b, p + 1)
  {
    hide AddrsGood, TriedPorted, Origin, All, Rho;
    forall id
      ensures Earlier(s, id, b, p + 1) == Earlier(s, id, b, p)
    {
    }
  }

  lemma NextBucket(h: Hasher, s: State, st: State, n: nat, b: nat)
    requires Inv(h, s) && Ported(s, st, n, b, BUCKET_SIZE)
    ensures Ported(s, st, n, b + 1, 0)
  {
    hide AddrsGood, TriedPorted, Origin, All, Rho, RandomGood, TriedGood, CountsGood, InfosGood;
    PositionsSmall(h, s);
    forall id
      ensures Earlier(s, id, b + 1, 0) == Earlier(s, id, b, BUCKET_SIZE)
    {
    }
  }

  lemma PositionsSmall(h: Hasher, s: State)
    requires Inv(h, s)
    ensures forall sl :: sl in s.news ==> sl.pos < BUCKET_SIZE && sl.bucket < NEW_BUCKET_COUNT
  {
  }

  /** The entry at a slot gets it back. */
  lemma LoadIndexStep(h: Hasher, s: State, st: State, n: nat, b: nat, p: nat)
    requires Inv(h, s) && n == |All(s, false)| + |All(s, true)| && Ported(s, st, n, b, p) && Slot(b, p) in s.news
    ensures var nIndex := Rank(s, s.news[Slot(b, p)], false);
      Ported(s, LoadIndex(h, st, b, nIndex, |All(s, false)|, true), n, b, p + 1)
  {
    hide Consistent, All, Rank, TriedPorted, AddrsGood, Origin, InfosPorted;
    Renumbering(h, s);
    var sl := Slot(b, p);
    NewSlotFacts(h, s, sl);
    var id := s.news[sl];
    var m := Rank(s, id, false);
    assert m == Rho(s, id) && m < |All(s, false)| && Origin(s, m) == id;
    RefsLeft(h, s, id, b, p);
    PortedInfo(s, st, n, b, p, m);
    var t := LoadIndex(h, st, b, m, |All(s, false)|, true);
    assert t == EnterNew(st, m, sl);
    AddrsKept(st, t, m);
    TriedKept(s, st, t, n);
    InfoEntered(h, s, st, n, b, p, m);
    NewsEntered(s, st, t, b, p);
  }

  lemma NewSlotFacts(h: Hasher, s: State, sl: Slot)
    requires Inv(h, s) && sl in s.news
    ensures s.news[sl] in s.info && !s.info[s.news[sl]].fInTried
    ensures sl == h.NewSlotIn(s.info[s.news[sl]].service, sl.bucket)
  {
  }

  lemma PortedInfo(s: State, st: State, n: nat, b: nat, p: nat, m: nat)
    requires InfosPorted(s, st, n, b, p) && m < n
    ensures m in st.info && Origin(s, m) in s.info
    ensures st.info[m] == Restored(s.info[Origin(s, m)], m, |Earlier(s, Origin(s, m), b, p)|)
  {
  }

  lemma AddrsKept(st: State, t: State, m: int)
    requires AddrsGood(st) && m in st.info && m in t.info && t.info == st.info[m := t.info[m]]
    requires t.info[m].service == st.info[m].service && t.addr == st.addr
    ensures AddrsGood(t)
  {
  }

  lemma TriedKept(s: State, st: State, t: State, n: nat)
    requires TriedPorted(s, st, n) && t.tried == st.tried
    ensures TriedPorted(s, t, n)
  {
  }

  lemma NewsEntered(s: State, st: State, t: State, b: nat, p: nat)
    requires NewsPorted(s, st, b, p) && Slot(b, p) in s.news
      && t.news == st.news[Slot(b, p) := Rho(s, s.news[Slot(b, p)])]
    ensures NewsPorted(s, t, b, p + 1)
  {
    hide Rho;
  }

  lemma EarlierMore(s: State, b: nat, p: nat, o: int)
    requires Slot(b, p) in s.news
    ensures |Earlier(s, o, b, p + 1)| == |Earlier(s, o, b, p)| + if o == s.news[Slot(b, p)] then 1 else 0
  {
    if o == s.news[Slot(b, p)] {
      assert Earlier(s, o, b, p + 1) == Earlier(s, o, b, p) + {Slot(b, p)};
    } else {
      assert Earlier(s, o, b, p + 1) == Earlier(s, o, b, p);
    }
  }

  lemma InfoEntered(h: Hasher, s: State, st: State, n: nat, b: nat, p: nat, m: nat)
    requires Inv(h, s) && InfosPorted(s, st, n, b, p) && Slot(b, p) in s.news && m < n && m in st.info
    requires Origin(s, m) == s.news[Slot(b, p)]
    ensures InfosPorted(s, EnterNew(st, m, Slot(b, p)), n, b, p + 1)
  {
    hide Consistent, All, Rank, Origin, Rho, Earlier;
    Renumbering(h, s);
    var t := EnterNew(st, m, Slot(b, p));
    forall k | 0 <= k < n
      ensures t.info[k] == Restored(s.info[Origin(s, k)], k, |Earlier(s, Origin(s, k), b, p + 1)|)
    {
      EarlierMore(s, b, p, Origin(s, k));
      assert Rho(s, Origin(s, k)) == k;
    }
  }

  lemma RefsLeft(h: Hasher, s: State, id: int, b: nat, p: nat)
    requires Inv(h, s) && Slot(b, p) in s.news && s.news[Slot(b, p)] == id
    ensures id in s.info && |Earlier(s, id, b, p)| < NEW_BUCKETS_PER_ADDRESS
  {
    hide AddrsGood, RandomGood, TriedGood, CountsGood;
    assert Earlier(s, id, b, p) <= SlotsOf(s.news, id) - {Slot(b, p)};
    SubsetSize(Earlier(s, id, b, p), SlotsOf(s.news, id) - {Slot(b, p)});
  }

  /** The slots before those at (b, p) are read, and nothing but entries and new slots has changed. */
  ghost predicate ReadsSlots(s: State, st: State, r: Reading<State>, rest: seq<Token>, b: nat) {
    && r.Read? && r.rest == rest
    && Ported(s, r.value, |All(s, false)| + |All(s, true)|, b, 0)
    && r.value == st.(info := r.value.info, news := r.value.news)
  }

  lemma {:induction false} LoadBucketTrip(h: Hasher, s: State, st: State, b: nat, p: nat, n: nat, rest: seq<Token>)
    requires Inv(h, s) && p <= BUCKET_SIZE && Ported(s, st, |All(s, false)| + |All(s, true)|, b, p)
    ensures ReadsSlots(s, st,
              LoadBucket(h, st, Indices(s, b, p) + rest, b, n, n + |Indices(s, b, p)|, |All(s, false)|, true), rest,
                b + 1)
    decreases BUCKET_SIZE - p
  {
    hide Consistent, All, Ported, Rank, LoadIndex;
    var toks, m := Indices(s, b, p) + rest, |All(s, false)| + |All(s, true)|;
    if p == BUCKET_SIZE {
      assert toks == rest;
      NextBucket(h, s, st, m, b);
    } else if Slot(b, p) !in s.news {
      assert Indices(s, b, p) == Indices(s, b, p + 1);
      SkipPosition(s, st, m, b, p);
      LoadBucketTrip(h, s, st, b, p + 1, n, rest);
    } else {
      var i := Rank(s, s.news[Slot(b, p)], false);
      LoadIndexStep(h, s, st, m, b, p);
      assert toks[0] == TInt(i) && toks[1..] == Indices(s, b, p + 1) + rest;
      OnlySlots(h, st, b, i, |All(s, false)|);
      LoadBucketTrip(h, s, LoadIndex(h, st, b, i, |All(s, false)|, true), b, p + 1, n + 1, rest);
    }
  }

  lemma OnlySlots(h: Hasher, st: State, b: nat, i: int, nNew: int)
    ensures var t := LoadIndex(h, st, b, i, nNew, true); t == st.(info := t.info, news := t.news)
  {
  }

  lemma {:induction false} LoadBucketsTrip(h: Hasher, s: State, st: State, b: nat, rest: seq<Token>)
    requires Inv(h, s) && b <= NEW_BUCKET_COUNT && Ported(s, st, |All(s, false)| + |All(s, true)|, b, 0)
    ensures ReadsSlots(s, st,
              LoadBuckets(h, st, Buckets(s, b) + rest, b, NEW_BUCKET_COUNT, |All(s, false)|, true), rest,
                NEW_BUCKET_COUNT)
    decreases NEW_BUCKET_COUNT - b
  {
    hide Consistent, All, Ported, Rank, LoadBucket, Indices;
    var toks := Buckets(s, b) + rest;
    if b == NEW_BUCKET_COUNT {
      assert toks == rest;
    } else {
      var size, after := |Indices(s, b, 0)|, Buckets(s, b + 1) + rest;
      assert toks[0] == TInt(size) && toks[1..] == Indices(s, b, 0) + after;
      LoadBucketTrip(h, s, st, b, 0, 0, after);
      LoadBucketsTrip(h, s, LoadBucket(h, st, toks[1..], b, 0, size, |All(s, false)|, true).value, b + 1, rest);
    }
  }

  // ----- nothing is lost

  lemma {:induction false} PruneNone(st: State, id: nat, nLostUnk: nat)
    requires forall x :: x in st.info ==> !Stray(st, x)
    ensures Prune(st, id, nLostUnk) == (st, nLostUnk)
    decreases st.nIdCount - id
  {
    hide Stray;
    if id < st.nIdCount {
      StrayKnown(st, id);
      PruneNone(st, id + 1, nLostUnk);
    }
  }

  lemma StrayKnown(st: State, id: int)
    ensures Stray(st, id) ==> id in st.info
  {
  }

  /** The same addresses with the same statistics, in the same slots of both tables under the new ids; only the
      last tries and the random order are not kept. */
  ghost predicate Renumbered(s: State, t: State) {
    && t.nNew == s.nNew && t.nTried == s.nTried && t.nIdCount == s.nNew + s.nTried
    && (forall n :: n in t.info <==> 0 <= n < s.nNew + s.nTried)
    && (forall id :: id in s.info ==>
        Rho(s, id) in t.info && t.info[Rho(s, id)] == s.info[id].(nLastTry := 0, nRandomPos := Rho(s, id)))
    && (forall i, j :: i in s.info && j in s.info && i != j ==> Rho(s, i) != Rho(s, j))
    && (forall sl :: (sl in t.tried <==> sl in s.tried) && (sl in t.tried ==> t.tried[sl] == Rho(s, s.tried[sl])))
    && (forall sl :: (sl in t.news <==> sl in s.news) && (sl in t.news ==> t.news[sl] == Rho(s, s.news[sl])))
  }

  lemma AllEarlier(h: Hasher, s: State, id: int)
    requires Inv(h, s) && id in s.info
    ensures |Earlier(s, id, NEW_BUCKET_COUNT, 0)| == s.info[id].nRefCount
  {
    hide AddrsGood, RandomGood, CountsGood, TriedGood;
    assert Earlier(s, id, NEW_BUCKET_COUNT, 0) == SlotsOf(s.news, id);
    if s.info[id].fInTried { assert SlotsOf(s.news, id) == {}; }
  }

  lemma AllPorted(h: Hasher, s: State, t: State)
    requires Inv(h, s) && Ported(s, t, |All(s, false)| + |All(s, true)|, NEW_BUCKET_COUNT, 0)
    requires t.nIdCount == |All(s, false)| + |All(s, true)| && t.nTried == |All(s, true)|
    ensures Renumbered(s, t) && AddrsGood(t) && RandomGood(t)
  {
    hide AddrsGood, Consistent, All, Rho, Origin, Earlier;
    Renumbering(h, s);
    forall id | id in s.info
      ensures Rho(s, id) in t.info && t.info[Rho(s, id)] == s.info[id].(nLastTry := 0, nRandomPos := Rho(s, id))
    {
      assert Origin(s, Rho(s, id)) == id;
      AllEarlier(h, s, id);
    }
    TableIds(h, s);
  }

  lemma TableIds(h: Hasher, s: State)
    requires Inv(h, s)
    ensures forall sl :: sl in s.tried ==> s.tried[sl] in s.info
    ensures forall sl :: sl in s.news ==> s.news[sl] in s.info && Before(sl, NEW_BUCKET_COUNT, 0)
  {
  }

  lemma {:induction false} RangeSize(ids: set<int>, lo: nat, hi: nat)
    requires lo <= hi && forall n: int :: n in ids <==> lo <= n < hi
    ensures |ids| == hi - lo
  {
    if lo < hi {
      RangeSize(ids - {hi - 1}, lo, hi - 1);
      assert ids == ids - {hi - 1} + {hi - 1};
    } else {
      forall n: int
        ensures n !in ids
      {
        assert n in ids <==> lo <= n < hi;
      }
    }
  }

  /** Which of the entries read back are tried. */
  lemma RenumberedTried(h: Hasher, s: State, t: State)
    requires Inv(h, s) && Renumbered(s, t)
    ensures |All(s, false)| == s.nNew && |All(s, true)| == s.nTried
    ensures forall n: nat :: n < s.nNew + s.nTried ==>
      && n in t.info && Origin(s, n) in s.info && Rho(s, Origin(s, n)) == n
      && t.info[n] == s.info[Origin(s, n)].(nLastTry := 0, nRandomPos := n)
      && (t.info[n].fInTried <==> n >= s.nNew)
  {
    hide Consistent, All, Rho, Origin;
    Renumbering(h, s);
  }

  lemma RenumberedCounts(h: Hasher, s: State, t: State)
    requires Inv(h, s) && Renumbered(s, t)
    ensures CountsGood(t, 0) && InfosGood(t, {})
  {
    hide All, Rho, Origin, AddrsGood, RandomGood, TriedGood, NewGood, CountsGood;
    RenumberedTried(h, s, t);
    forall id | id in t.info
      ensures GoodInfo(t.info[id], false)
    {
      assert GoodInfo(s.info[Origin(s, id)], false);
    }
    RenumberedSizes(h, s, t);
  }

  lemma RenumberedSizes(h: Hasher, s: State, t: State)
    requires Inv(h, s) && Renumbered(s, t)
    ensures CountsGood(t, 0)
  {
    hide All, Rho, Origin, Consistent;
    RenumberedTried(h, s, t);
    RangeSize(TriedIds(t), s.nNew, s.nNew + s.nTried);
    RangeSize(NewIds(t), 0, s.nNew);
  }

  lemma RenumberedTables(h: Hasher, s: State, t: State)
    requires Inv(h, s) && Renumbered(s, t)
    ensures TriedGood(h, t) && NewGood(h, t)
  {
    hide All, Rho, Origin, AddrsGood, RandomGood, CountsGood, InfosGood, NewGood;
    RenumberedTried(h, s, t);
    TableIds(h, s);
    RenumberedNews(h, s, t);
  }

  lemma RenumberedNews(h: Hasher, s: State, t: State)
    requires Inv(h, s) && Renumbered(s, t)
    ensures NewGood(h, t)
  {
    hide All, Rho, Origin, AddrsGood, RandomGood, CountsGood, InfosGood, TriedGood;
    RenumberedTried(h, s, t);
    TableIds(h, s);
    forall id | id in t.info && !t.info[id].fInTried
      ensures |SlotsOf(t.news, id)| == t.info[id].nRefCount
    {
      assert SlotsOf(t.news, id) == SlotsOf(s.news, Origin(s, id));
    }
  }

  lemma RenumberedConsistent(h: Hasher, s: State, t: State)
    requires Inv(h, s) && Renumbered(s, t) && AddrsGood(t) && RandomGood(t)
    ensures Inv(h, t) && (StatsGood(s) ==> StatsGood(t))
  {
    hide All, Rho, Origin, AddrsGood, RandomGood, CountsGood, InfosGood, TriedGood, NewGood;
    RenumberedCounts(h, s, t);
    RenumberedTables(h, s, t);
    if StatsGood(s) {
      RenumberedTried(h, s, t);
      forall id | id in t.info
        ensures GoodStats(t.info[id])
      {
        assert GoodStats(s.info[Origin(s, id)]);
      }
    }
  }

  /** Reading back what was written loses nothing: no entry collides or strays, and the tables are the ones
      written but for the numbering. */
  lemma SavedTrip(h: Hasher, s: State, rest: seq<Token>)
    requires Inv(h, s)
    ensures var r := Load(Saved(h, s) + rest);
      && r.Read? && r.rest == rest && r.value.key == h && r.value.nLost == 0 && r.value.nLostUnk == 0
      && Renumbered(s, r.value.state) && Inv(h, r.value.state) && (CheckPasses(h, s) ==> CheckPasses(h, r.value.state))
  {
    hide Consistent, All, Ported, Below, InfoTokens, Buckets, LoadNew, LoadTried, LoadBuckets, Prune, Renumbered,
      AddrsGood, RandomGood, StatsGood;
    var new_, tried, slots := InfoTokens(s, All(s, false)), InfoTokens(s, All(s, true)), Buckets(s, 0);
    var toks := Saved(h, s) + rest;
    assert toks[6..] == new_ + (tried + (slots + rest));
    Xor30Twice(NEW_BUCKET_COUNT);
    Renumbering(h, s);
    var n, m := |All(s, false)|, |All(s, true)|;
    assert GoodHeader(toks) && toks[0].n == 1 && toks[2].key == h && toks[3].n == n && toks[4].n == m;
    assert Xor30(toks[5].n) == NEW_BUCKET_COUNT;

    NothingPorted(h, s);
    SetTried(s, Empty().(nNew := n), 0, m);
    EntriesWhole(s, false);
    LoadNewTrip(h, s, Empty().(nNew := n, nTried := m), 0, tried + (slots + rest));
    var a := LoadNew(h, Empty().(nNew := n, nTried := m), toks[6..], 0, n, true).value;
    TriedMore(a, n, s, n);
    EntriesWhole(s, true);
    LoadTriedTrip(h, s, a.(nIdCount := n), 0, slots + rest);
    var b := LoadTried(h, a.(nIdCount := n), tried + (slots + rest), 0, m, 0).value.0;
    SetTried(s, b, n + m, m);
    LoadBucketsTrip(h, s, b.(nTried := m), 0, rest);
    var c := LoadBuckets(h, b.(nTried := m), slots + rest, 0, NEW_BUCKET_COUNT, n, true).value;
    AllPorted(h, s, c);
    RenumberedConsistent(h, s, c);
    NoStray(h, c);
    PruneNone(c, 0, 0);
  }

  lemma EntriesWhole(s: State, fTried: bool)
    ensures var off := if fTried then |All(s, false)| else 0;
      EntriesFrom(s, off, off + |All(s, fTried)|) == InfoTokens(s, All(s, fTried))
  {
    hide All, EntriesFrom, InfoToken;
    EntriesAreTokens(s, 0, fTried);
  }

  lemma SetTried(s: State, st: State, n: nat, nTried: int)
    requires Ported(s, st, n, 0, 0)
    ensures Ported(s, st.(nTried := nTried), n, 0, 0)
  {
  }

  lemma NoStray(h: Hasher, s: State)
    requires Inv(h, s)
    ensures forall x :: x in s.info ==> !Stray(s, x)
  {
    forall x | x in s.info
      ensures !Stray(s, x)
    {
      assert GoodInfo(s.info[x], false);
    }
  }

  // ----- writing step by step

  lemma BelowNone(s: State)
    ensures forall fTried :: Below(s, 0, fTried) == []
    ensures InfoTokens(s, []) == []
  {
  }

  lemma IdsBounded(h: Hasher, s: State)
    requires Inv(h, s)
    ensures s.nIdCount >= 0 && forall id :: id in s.info ==> 0 <= id < s.nIdCount
  {
  }

  /** One more id considered; an entry to be written has not been counted before. */
  lemma BelowStep(h: Hasher, s: State, k: nat, fTried: bool)
    requires Inv(h, s)
    ensures var ids, more := Below(s, k, fTried), Below(s, k + 1, fTried);
      if k in s.info && Picked(s.info[k], fTried) then
        && |more| == |ids| + 1 && InfoTokens(s, more) == InfoTokens(s, ids) + [TInfo(Persisted(s.info[k]))]
        && |ids| < if fTried then s.nTried else s.nNew
      else
        more == ids
    ensures Rank(s, k, fTried) == |Below(s, k, fTried)|
  {
    hide Consistent;
    if k in s.info && Picked(s.info[k], fTried) {
      PickedIs(h, s, k, fTried);
      AllFacts(h, s, fTried);
    }
  }

  lemma PickedIs(h: Hasher, s: State, id: int, fTried: bool)
    requires Inv(h, s) && id in s.info
    ensures Picked(s.info[id], fTried) <==> s.info[id].fInTried == fTried
  {
    assert GoodInfo(s.info[id], false);
  }

  lemma NewIdKnown(h: Hasher, s: State, sl: Slot)
    requires Inv(h, s)
    ensures sl in s.news ==> s.news[sl] in s.info
  {
  }

  lemma BucketsStep(s: State, b: nat)
    requires b < NEW_BUCKET_COUNT
    ensures Buckets(s, b) == BucketPart(s, b) + Buckets(s, b + 1)
  {
  }

  lemma BucketsEnd(s: State)
    ensures Buckets(s, NEW_BUCKET_COUNT) == []
  {
  }

  lemma IndicesStep(s: State, b: nat, p: nat)
    ensures p >= BUCKET_SIZE ==> Indices(s, b, p) == []
    ensures p < BUCKET_SIZE && Slot(b, p) !in s.news ==> Indices(s, b, p) == Indices(s, b, p + 1)
    ensures p < BUCKET_SIZE && Slot(b, p) in s.news ==>
      Indices(s, b, p) == [TInt(Rank(s, s.news[Slot(b, p)], false))] + Indices(s, b, p + 1)
  {
  }

  lemma SavedParts(h: Hasher, s: State)
    ensures Saved(h, s) == Header(h, s) + InfoTokens(s, All(s, false)) + InfoTokens(s, All(s, true)) + Buckets(s, 0)
  {
    hide Header, InfoTokens, All, Buckets;
  }

  // ----- reading step by step

  /** The random order as it is built up while reading: every entry at the place of its own id. */
  ghost predicate Identity(st: State) {
    && (forall id: int :: id in st.info <==> 0 <= id < |st.random|)
    && (forall i :: 0 <= i < |st.random| ==> st.random[i] == i && st.info[i].nRandomPos == i)
  }

  lemma IdentityRandom(st: State)
    requires Identity(st)
    ensures RandomGood(st)
  {
  }

  lemma IdentityNew(h: Hasher, st: State, n: nat, d: DiskInfo, fKeep: bool)
    requires Identity(st) && n == |st.random|
    ensures n !in st.info
    ensures var t := LoadNewEntry(h, st, n, d, fKeep); Identity(t) && |t.random| == n + 1
  {
  }

  lemma IdentityTried(h: Hasher, st: State, d: DiskInfo)
    requires Identity(st) && st.nIdCount == |st.random|
    ensures var t := LoadTriedEntry(h, st, d); Identity(t) && t.nIdCount == |t.random|
  {
  }

  lemma IdentityIndex(h: Hasher, st: State, bucket: nat, nIndex: int, nNew: int, fKeep: bool)
    requires Identity(st)
    ensures var t := LoadIndex(h, st, bucket, nIndex, nNew, fKeep);
      Identity(t) && |t.random| == |st.random| && t.nIdCount == st.nIdCount
  {
  }

  lemma PruneEnd(st: State, id: nat, nLostUnk: nat)
    requires id >= st.nIdCount
    ensures Prune(st, id, nLostUnk) == (st, nLostUnk)
  {
  }

  lemma PruneStep(st: State, id: nat, nLostUnk: nat)
    requires RandomGood(st) && id < st.nIdCount
    ensures if Stray(st, id) then
        RandomGood(Delete(st, id)) && Delete(st, id).nIdCount == st.nIdCount
          && Prune(st, id, nLostUnk) == Prune(Delete(st, id), id + 1, nLostUnk + 1)
      else
        Prune(st, id, nLostUnk) == Prune(st, id + 1, nLostUnk)
    ensures Stray(st, id) <==> id in st.info && !st.info[id].fInTried && st.info[id].nRefCount == 0
  {
    hide RandomGood;
    if id in st.info {
      PosInRange(st, id);
      DeleteRandomGood(st, id);
    }
  }

  // ----- Clear

  /** What Clear empties: everything but the entries and the addresses. */
  function Clear(s: State): State {
    s.(nIdCount := 0, random := [], nTried := 0, tried := map[], nNew := 0, news := map[])
  }

  lemma NoAddresses(s: State)
    requires AddrsGood(s) && s.info == map[]
    ensures s.addr == map[]
  {
  }

  /** Reading is only sound into a manager that holds nothing yet: Clear leaves the entries and addresses behind, and
      empties the rest. */
  lemma ClearConsistent(h: Hasher, s: State)
    requires Inv(h, s)
    ensures Inv(h, Clear(s)) <==> s.info == map[]
    ensures var t := Clear(s);
      && t.info == s.info && t.addr == s.addr && t.nIdCount == t.nTried == t.nNew == 0
      && t.random == [] && t.tried == map[] && t.news == map[]
  {
    if s.info == map[] {
      NoAddresses(s);
      assert Clear(s) == Empty();
      EmptyConsistent(h);
    } else {
      var id := SomeMember(s.info.Keys);
      assert id in Clear(s).info && !(0 <= id < Clear(s).nIdCount);
    }
  }
}
