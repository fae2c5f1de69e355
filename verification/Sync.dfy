/** The lock-order detector: every thread's stack of locks, the orders seen so far, and what a report means. */
module Sync {

  type Lock = nat
  type Thread = nat

  /** A lock taken, or being taken; fTry says that the thread does not wait for it. */
  datatype Entry = Entry(lock: Lock, fTry: bool)

  /** Which lock was taken before which, with the stack at the time. */
  type Orders = map<(Lock, Lock), seq<Entry>>

  predicate Holds(stack: seq<Entry>, c: Lock) {
    exists k :: 0 <= k < |stack| && stack[k].lock == c
  }

  /** The loop of push_lock from entry i on; the second component says whether it reports. */
  function Record(stack: seq<Entry>, c: Lock, i: nat, orders: Orders): (Orders, bool)
    decreases |stack| - i
  {
    if i >= |stack| || stack[i].lock == c then (orders, false)
    else
      var p1, p2 := (stack[i].lock, c), (c, stack[i].lock);
      if p1 in orders then Record(stack, c, i + 1, orders)
      else if p2 in orders then (orders[p1 := stack], true)
      else Record(stack, c, i + 1, orders[p1 := stack])
  }

  function Push(stack: seq<Entry>, c: Lock, fTry: bool, orders: Orders): (Orders, bool) {
    if fTry then (orders, false) else Record(stack + [Entry(c, fTry)], c, 0, orders)
  }

  /** A lock that is only tried records no order and reports nothing. */
  lemma TryRecordsNothing(stack: seq<Entry>, c: Lock, orders: Orders)
    ensures Push(stack, c, true, orders) == (orders, false)
  {
  }

  /** Taking a lock reports exactly when its opposite order with a held lock is known and its own is not, that held
      lock coming before any other entry of the lock itself; without a report the orders of all those held are
      recorded, and no others. */
  lemma {:induction false} RecordIs(stack: seq<Entry>, c: Lock, i: nat, k: nat, orders: Orders)
    requires i <= k < |stack| && stack[k].lock == c && forall j :: i <= j < k ==> stack[j].lock != c
    requires forall j, l :: i <= j < l < k ==> stack[j].lock != stack[l].lock
    ensures var (o, fReport) := Record(stack, c, i, orders);
      && (fReport <==> exists j :: i <= j < k && (stack[j].lock, c) !in orders && (c, stack[j].lock) in orders)
      && (!fReport ==>
          o.Keys == orders.Keys + set j | i <= j < k :: (stack[j].lock, c))
    decreases k - i
  {
    if i < k {
      var p1 := (stack[i].lock, c);
      if p1 in orders {
        RecordIs(stack, c, i + 1, k, orders);
      } else if (c, stack[i].lock) !in orders {
        RecordIs(stack, c, i + 1, k, orders[p1 := stack]);
      }
    }
  }

  // ----- the code

  class CLockOrder {
    var lockorders: Orders
    var lockstack: map<Thread, seq<Entry>>
    var nReports: nat

    constructor ()
      ensures lockorders == map[] && lockstack == map[] && nReports == 0
    {
      lockorders, lockstack, nReports := map[], map[], 0;
    }

    ghost function Stack(t: Thread): seq<Entry>
      reads this
    {
      if t in lockstack then lockstack[t] else []
    }

    method push_lock(t: Thread, c: Lock, fTry: bool)
      modifies this
      ensures lockstack == old(lockstack)[t := old(Stack(t)) + [Entry(c, fTry)]]
      ensures lockorders == Push(old(Stack(t)), c, fTry, old(lockorders)).0
      ensures nReports == old(nReports) + if Push(old(Stack(t)), c, fTry, old(lockorders)).1 then 1 else 0
    {
      ghost var before := lockorders;
      if t !in lockstack { lockstack := lockstack[t := []]; }
      lockstack := lockstack[t := lockstack[t] + [Entry(c, fTry)]];
      var stack := lockstack[t];
      if !fTry {
        var i := 0;
        while i < |stack|
          invariant 0 <= i <= |stack| && nReports == old(nReports)
          invariant lockstack == old(lockstack)[t := stack]
          invariant Record(stack, c, i, lockorders) == Record(stack, c, 0, before)
        {
          if stack[i].lock == c { break; }
          var p1 := (stack[i].lock, c);
          if p1 in lockorders {
            i := i + 1;
            continue;
          }
          var p2 := (c, stack[i].lock);
          var fKnown := p2 in lockorders;
          lockorders := lockorders[p1 := stack];
          if fKnown {
            nReports := nReports + 1;
            break;
          }
          i := i + 1;
        }
      }
    }

    method pop_lock(t: Thread)
      requires Stack(t) != []
      modifies this`lockstack
      ensures lockstack == old(lockstack)[t := old(Stack(t))[..|old(Stack(t))| - 1]]
    {
      lockstack := lockstack[t := lockstack[t][..|lockstack[t]| - 1]];
    }
  }

  // ----- what is recorded

  ghost predicate Antisymmetric(orders: Orders) {
    forall a, b :: (a, b) in orders ==> (b, a) !in orders
  }

  ghost predicate Extends(a: Orders, b: Orders) {
    forall p :: p in a ==> p in b
  }

  lemma {:induction false} RecordGood(stack: seq<Entry>, c: Lock, i: nat, orders: Orders)
    requires Antisymmetric(orders)
    ensures var (o, fReport) := Record(stack, c, i, orders);
      && Extends(orders, o)
      && (fReport <==> !Antisymmetric(o))
      && (!fReport ==>
        forall k :: i <= k < |stack| && (forall j :: i <= j <= k ==> stack[j].lock != c) ==> (stack[k].lock, c) in o)
    decreases |stack| - i
  {
    if !(i >= |stack| || stack[i].lock == c) {
      var p1, p2 := (stack[i].lock, c), (c, stack[i].lock);
      if p1 in orders {
        RecordGood(stack, c, i + 1, orders);
      } else if p2 !in orders {
        RecordGood(stack, c, i + 1, orders[p1 := stack]);
      }
    }
  }

  lemma {:induction false} RecordExtends(stack: seq<Entry>, c: Lock, i: nat, orders: Orders)
    ensures Extends(orders, Record(stack, c, i, orders).0)
    decreases |stack| - i
  {
    if !(i >= |stack| || stack[i].lock == c) {
      var p1 := (stack[i].lock, c);
      RecordExtends(stack, c, i + 1, orders);
      RecordExtends(stack, c, i + 1, orders[p1 := stack]);
    }
  }

  lemma StillBothOrders(a: Orders, b: Orders)
    requires Extends(a, b) && !Antisymmetric(a)
    ensures !Antisymmetric(b)
  {
  }

  /** Every lock waited for, when it was first taken, came after all that was held then. */
  predicate Recorded(stack: seq<Entry>, orders: Orders) {
    forall j, k :: 0 <= j < k < |stack| && !stack[k].fTry && !Holds(stack[..k], stack[k].lock) ==>
      (stack[j].lock, stack[k].lock) in orders
  }

  lemma PushRecorded(stack: seq<Entry>, c: Lock, fTry: bool, orders: Orders)
    requires Antisymmetric(orders) && Recorded(stack, orders)
    ensures var (o, fReport) := Push(stack, c, fTry, orders);
      Extends(orders, o) && (fReport <==> !Antisymmetric(o)) && (!fReport ==> Recorded(stack + [Entry(c, fTry)], o))
  {
    var more := stack + [Entry(c, fTry)];
    RecordGood(more, c, 0, orders);
    var (o, fReport) := Push(stack, c, fTry, orders);
    if !fReport {
      forall j, k | 0 <= j < k < |more| && !more[k].fTry && !Holds(more[..k], more[k].lock)
        ensures (more[j].lock, more[k].lock) in o
      {
        if k < |stack| {
          assert more[..k] == stack[..k];
        } else {
          forall x | 0 <= x <= j
            ensures more[x].lock != c
          {
            assert more[..k][x] == more[x];
          }
        }
      }
    }
  }

  lemma PushExtends(stack: seq<Entry>, c: Lock, fTry: bool, orders: Orders)
    ensures Extends(orders, Push(stack, c, fTry, orders).0)
  {
    RecordExtends(stack + [Entry(c, fTry)], c, 0, orders);
  }

  lemma PushReports(stack: seq<Entry>, c: Lock, fTry: bool, orders: Orders)
    requires Antisymmetric(orders) && Push(stack, c, fTry, orders).1
    ensures !Antisymmetric(Push(stack, c, fTry, orders).0)
  {
    RecordGood(stack + [Entry(c, fTry)], c, 0, orders);
  }

  lemma FewerRecorded(stack: seq<Entry>, orders: Orders)
    requires Recorded(stack, orders) && stack != []
    ensures Recorded(stack[..|stack| - 1], orders)
  {
    var front := stack[..|stack| - 1];
    forall j, k | 0 <= j < k < |front| && !front[k].fTry && !Holds(front[..k], front[k].lock)
      ensures (front[j].lock, front[k].lock) in orders
    {
      assert front[..k] == stack[..k];
    }
  }

  lemma MoreRecorded(stack: seq<Entry>, a: Orders, b: Orders)
    requires Recorded(stack, a) && Extends(a, b)
    ensures Recorded(stack, b)
  {
  }

  // ----- threads and their locks

  /** Between steps a thread runs, waits for the lock on top of its stack, or is in the middle of releasing it:
      the scoped lock forgets it before it is unlocked, the explicit macro the other way round. */
  datatype Phase = Running | Waiting | Forgot(lock: Lock) | Unlocked

  datatype Local = Local(stack: seq<Entry>, phase: Phase)

  predicate LocalGood(l: Local) {
    l.phase == Waiting || l.phase == Unlocked ==> l.stack != []
  }

  /** Whether the thread owns the lock itself. */
  predicate Owns(l: Local, c: Lock)
    requires LocalGood(l)
  {
    match l.phase
    case Running => Holds(l.stack, c)
    case Forgot(d) => Holds(l.stack, c) || c == d
    case _ => Holds(l.stack[..|l.stack| - 1], c)
  }

  datatype Sys = Sys(threads: map<Thread, Local>, orders: Orders, fReported: bool)

  datatype Event = Enter(t: Thread, c: Lock, fTry: bool) | Acquire(t: Thread) | GiveUp(t: Thread)
                 | Forget(t: Thread) | Unlock(t: Thread) | UnlockFirst(t: Thread) | ForgetSecond(t: Thread)

  function Top(l: Local): Entry
    requires l.stack != []
  {
    l.stack[|l.stack| - 1]
  }

  ghost predicate Free(s: Sys, t: Thread, c: Lock) {
    forall u :: u in s.threads && u != t ==> LocalGood(s.threads[u]) && !Owns(s.threads[u], c)
  }

  /** The step can happen: a lock is acquired only when no other thread owns it. */
  ghost predicate Enabled(s: Sys, e: Event) {
    e.t in s.threads &&
    var l := s.threads[e.t];
    match e
    case Enter(_, _, _) => l.phase == Running
    case Acquire(_) => l.phase == Waiting && l.stack != [] && Free(s, e.t, Top(l).lock)
    case GiveUp(_) => l.phase == Waiting && l.stack != [] && Top(l).fTry
    case Forget(_) => l.phase == Running && l.stack != []
    case Unlock(_) => l.phase.Forgot?
    case UnlockFirst(_) => l.phase == Running && l.stack != []
    case ForgetSecond(_) => l.phase == Unlocked && l.stack != []
  }

  function With(s: Sys, t: Thread, l: Local): Sys { s.(threads := s.threads[t := l]) }

  function Popped(l: Local, phase: Phase): Local
    requires l.stack != []
  {
    Local(l.stack[..|l.stack| - 1], phase)
  }

  ghost function Step(s: Sys, e: Event): Sys
    requires Enabled(s, e)
  {
    var l := s.threads[e.t];
    match e
    case Enter(t, c, fTry) =>
      var (o, fReport) := Push(l.stack, c, fTry, s.orders);
      Sys(s.threads[t := Local(l.stack + [Entry(c, fTry)], Waiting)], o, s.fReported || fReport)
    case Acquire(t) => With(s, t, l.(phase := Running))
    case GiveUp(t) => With(s, t, Popped(l, Running))
    case Forget(t) => With(s, t, Popped(l, Forgot(Top(l).lock)))
    case Unlock(t) => With(s, t, l.(phase := Running))
    case UnlockFirst(t) => With(s, t, l.(phase := Unlocked))
    case ForgetSecond(t) => With(s, t, Popped(l, Running))
  }

  ghost predicate Exclusive(s: Sys) {
    && (forall t :: t in s.threads ==> LocalGood(s.threads[t]))
    && (forall t, u, c :: t in s.threads && u in s.threads && t != u && Owns(s.threads[t], c) ==>
      !Owns(s.threads[u], c))
  }

  /** A report has been made exactly when two locks have been taken in both orders. */
  ghost predicate AllRecorded(s: Sys) {
    && (s.fReported <==> !Antisymmetric(s.orders))
    && (s.fReported || forall t :: t in s.threads ==> Recorded(s.threads[t].stack, s.orders))
  }

  lemma OwnsLess(l: Local, m: Local, c: Lock)
    requires LocalGood(l) && LocalGood(m) && l.stack != [] && Owns(m, c)
    requires (m == l.(phase := Unlocked) && l.phase == Running)
      || (m == Popped(l, Running) && (l.phase == Unlocked || l.phase == Waiting))
          || (m == Popped(l, Forgot(Top(l).lock)) && l.phase == Running)
    ensures Owns(l, c)
  {
    var front := l.stack[..|l.stack| - 1];
    if Holds(front, c) {
      var k :| 0 <= k < |front| && front[k].lock == c;
      assert l.stack[k].lock == c;
    }
  }

  lemma OwnsTop(l: Local, c: Lock)
    requires LocalGood(l) && l.phase == Waiting && Owns(l.(phase := Running), c)
    ensures Owns(l, c) || c == Top(l).lock
  {
    var k :| 0 <= k < |l.stack| && l.stack[k].lock == c;
    if k < |l.stack| - 1 { assert l.stack[..|l.stack| - 1][k].lock == c; }
  }

  lemma StepExclusive(s: Sys, e: Event)
    requires Exclusive(s) && Enabled(s, e)
    ensures Exclusive(Step(s, e))
  {
    hide Owns, Push;
    var l, m := s.threads[e.t], Step(s, e).threads[e.t];
    forall c | Owns(m, c)
      ensures Owns(l, c) || (e.Acquire? && c == Top(l).lock)
    {
      match e
      case Enter(_, d, fTry) => WaitingOwns(l, m, d, fTry, c);
      case Acquire(_) => OwnsTop(l, c);
      case Unlock(_) => ForgotOwns(l, m, c);
      case _ => OwnsLess(l, m, c);
    }
  }

  lemma WaitingOwns(l: Local, m: Local, d: Lock, fTry: bool, c: Lock)
    requires LocalGood(l) && l.phase == Running && m == Local(l.stack + [Entry(d, fTry)], Waiting)
    requires Owns(m, c)
    ensures Owns(l, c)
  {
    assert m.stack[..|m.stack| - 1] == l.stack;
  }

  lemma ForgotOwns(l: Local, m: Local, c: Lock)
    requires LocalGood(l) && l.phase.Forgot? && m == l.(phase := Running) && Owns(m, c)
    ensures Owns(l, c)
  {
  }

  lemma StepRecorded(s: Sys, e: Event)
    requires AllRecorded(s) && Enabled(s, e)
    ensures AllRecorded(Step(s, e))
  {
    hide Recorded, Antisymmetric, Push, Extends, Free;
    var l, s' := s.threads[e.t], Step(s, e);
    if e.Enter? {
      PushExtends(l.stack, e.c, e.fTry, s.orders);
      if s.fReported { StillBothOrders(s.orders, s'.orders); }
      else if s'.fReported { PushReports(l.stack, e.c, e.fTry, s.orders); }
    }
    if !s'.fReported {
      if e.Enter? {
        PushRecorded(l.stack, e.c, e.fTry, s.orders);
        forall t | t in s'.threads
          ensures Recorded(s'.threads[t].stack, s'.orders)
        {
          if t != e.t { MoreRecorded(s.threads[t].stack, s.orders, s'.orders); }
        }
      } else if l.stack != [] {
        FewerRecorded(l.stack, s.orders);
      }
    }
  }

  // ----- runs

  ghost function Run(s: Sys, events: seq<Event>): (r: Sys)
    requires Exclusive(s) && AllRecorded(s)
    ensures Exclusive(r) && AllRecorded(r)
    decreases |events|
  {
    if events == [] then s
    else if !Enabled(s, events[0]) then Run(s, events[1..])
    else
      StepExclusive(s, events[0]);
      StepRecorded(s, events[0]);
      Run(Step(s, events[0]), events[1..])
  }

  function Idle(threads: set<Thread>): Sys {
    Sys(map t | t in threads :: Local([], Running), map[], false)
  }

  lemma IdleGood(threads: set<Thread>)
    ensures Exclusive(Idle(threads)) && AllRecorded(Idle(threads))
  {
  }

  /** The thread waits, not just tries, for the lock. */
  predicate BlockedOn(l: Local, c: Lock) {
    l.phase == Waiting && l.stack != [] && Top(l) == Entry(c, false)
  }

  /** Whatever the threads have done: when two of them each wait for a lock that the other owns, the detector has
      reported a potential deadlock. */
  lemma DeadlockReported(threads: set<Thread>, events: seq<Event>, t: Thread, u: Thread, a: Lock, b: Lock)
    requires Exclusive(Idle(threads)) && AllRecorded(Idle(threads))
    requires var s := Run(Idle(threads), events);
      && t in s.threads && u in s.threads && t != u
      && BlockedOn(s.threads[t], b) && Owns(s.threads[u], b) && BlockedOn(s.threads[u], a) && Owns(s.threads[t], a)
    ensures Run(Idle(threads), events).fReported
  {
    var s := Run(Idle(threads), events);
    if !s.fReported {
      WaitRecorded(s, t, u, a, b);
      WaitRecorded(s, u, t, b, a);
    }
  }

  lemma WaitRecorded(s: Sys, t: Thread, u: Thread, a: Lock, b: Lock)
    requires Exclusive(s) && AllRecorded(s) && !s.fReported && t in s.threads && u in s.threads && t != u
    requires BlockedOn(s.threads[t], b) && Owns(s.threads[u], b) && Owns(s.threads[t], a)
    ensures (a, b) in s.orders
  {
    var stack := s.threads[t].stack;
    var n := |stack| - 1;
    assert !Owns(s.threads[t], b);
    var j :| 0 <= j < n && stack[..n][j].lock == a;
    assert stack[n] == Entry(b, false) && !Holds(stack[..n], b) && stack[j].lock == a;
    assert Recorded(stack, s.orders);
  }

  // ----- three threads

  lemma RunStep(s: Sys, e: Event, rest: seq<Event>)
    requires Exclusive(s) && AllRecorded(s) && Enabled(s, e)
    ensures Exclusive(Step(s, e)) && AllRecorded(Step(s, e))
    ensures Run(s, [e] + rest) == Run(Step(s, e), rest)
  {
    hide Push, Exclusive, AllRecorded, Enabled, Step;
    StepExclusive(s, e);
    StepRecorded(s, e);
    assert ([e] + rest)[1..] == rest;
  }

  /** A thread that holds nothing takes a lock nobody owns. */
  lemma TakeFirst(s: Sys, t: Thread, c: Lock, rest: seq<Event>)
    requires Exclusive(s) && AllRecorded(s) && t in s.threads && s.threads[t] == Local([], Running) && Free(s, t, c)
    ensures var r := With(s, t, Local([Entry(c, false)], Running));
      Exclusive(r) && AllRecorded(r) && Run(s, [Enter(t, c, false), Acquire(t)] + rest) == Run(r, rest)
  {
    var w := With(s, t, Local([Entry(c, false)], Waiting));
    assert [] + [Entry(c, false)] == [Entry(c, false)];
    assert Step(s, Enter(t, c, false)) == w;
    RunStep(s, Enter(t, c, false), [Acquire(t)] + rest);
    assert [Enter(t, c, false)] + ([Acquire(t)] + rest) == [Enter(t, c, false), Acquire(t)] + rest;
    assert Free(w, t, c);
    RunStep(w, Acquire(t), rest);
    assert Step(w, Acquire(t)) == With(s, t, Local([Entry(c, false)], Running));
  }

  /** A thread that holds one lock waits for another, in an order not seen before. */
  lemma WaitSecond(s: Sys, t: Thread, a: Lock, c: Lock, rest: seq<Event>)
    requires Exclusive(s) && AllRecorded(s) && t in s.threads && s.threads[t] == Local([Entry(a, false)], Running)
    requires a != c && (a, c) !in s.orders && (c, a) !in s.orders
    ensures var stack := [Entry(a, false), Entry(c, false)];
      var r := Sys(s.threads[t := Local(stack, Waiting)], s.orders[(a, c) := stack], s.fReported);
      Exclusive(r) && AllRecorded(r) && Run(s, [Enter(t, c, false)] + rest) == Run(r, rest)
  {
    var stack := [Entry(a, false), Entry(c, false)];
    assert [Entry(a, false)] + [Entry(c, false)] == stack;
    assert Record(stack, c, 1, s.orders[(a, c) := stack]) == (s.orders[(a, c) := stack], false);
    assert Push([Entry(a, false)], c, false, s.orders) == (s.orders[(a, c) := stack], false);
    RunStep(s, Enter(t, c, false), rest);
  }

  function Round(): seq<Event> {
    [Enter(0, 0, false), Acquire(0)] + ([Enter(1, 1, false), Acquire(1)] + ([Enter(2, 2, false), Acquire(2)] +
      ([Enter(0, 1, false)] + ([Enter(1, 2, false)] + ([Enter(2, 0, false)] + [])))))
  }

  /** Only pairs are compared: three threads that wait for each other in a circle are not reported. */
  lemma CircleUnreported()
    ensures Exclusive(Idle({0, 1, 2})) && AllRecorded(Idle({0, 1, 2}))
    ensures var s := Run(Idle({0, 1, 2}), Round());
      && !s.fReported && s.threads.Keys == {0, 1, 2}
      && BlockedOn(s.threads[0], 1) && BlockedOn(s.threads[1], 2) && BlockedOn(s.threads[2], 0)
      && LocalGood(s.threads[0]) && LocalGood(s.threads[1]) && LocalGood(s.threads[2])
      && Owns(s.threads[0], 0) && Owns(s.threads[1], 1) && Owns(s.threads[2], 2)
  {
    hide Exclusive, AllRecorded, Run, Owns, Free, BlockedOn, LocalGood;
    var s0 := Idle({0, 1, 2});
    IdleGood({0, 1, 2});
    var tail6, tail5, tail4 := [Enter(2, 0, false)] + [], [Enter(1, 2, false)] + ([Enter(2, 0, false)] + []),
      [Enter(0, 1, false)] + ([Enter(1, 2, false)] + ([Enter(2, 0, false)] + []));
    var tail3 := [Enter(2, 2, false), Acquire(2)] + tail4;
    var tail2 := [Enter(1, 1, false), Acquire(1)] + tail3;
    FreeForAll(s0, 0, 0);
    TakeFirst(s0, 0, 0, tail2);
    var s1 := With(s0, 0, Local([Entry(0, false)], Running));
    FreeForAll(s1, 1, 1);
    TakeFirst(s1, 1, 1, tail3);
    var s2 := With(s1, 1, Local([Entry(1, false)], Running));
    FreeForAll(s2, 2, 2);
    TakeFirst(s2, 2, 2, tail4);
    var s3 := With(s2, 2, Local([Entry(2, false)], Running));
    var a, b, c := [Entry(0, false), Entry(1, false)], [Entry(1, false), Entry(2, false)],
      [Entry(2, false), Entry(0, false)];
    WaitSecond(s3, 0, 0, 1, tail5);
    var s4 := Sys(s3.threads[0 := Local(a, Waiting)], s3.orders[(0, 1) := a], false);
    WaitSecond(s4, 1, 1, 2, tail6);
    var s5 := Sys(s4.threads[1 := Local(b, Waiting)], s4.orders[(1, 2) := b], false);
    WaitSecond(s5, 2, 2, 0, []);
    var s6 := Sys(s5.threads[2 := Local(c, Waiting)], s5.orders[(2, 0) := c], false);
    RunNothing(s6);
    assert s6.threads.Keys == {0, 1, 2};
    Stuck(s6.threads[0], 0, 1);
    Stuck(s6.threads[1], 1, 2);
    Stuck(s6.threads[2], 2, 0);
  }

  lemma RunNothing(s: Sys)
    requires Exclusive(s) && AllRecorded(s)
    ensures Run(s, []) == s
  {
  }

  lemma FreeForAll(s: Sys, t: Thread, c: Lock)
    requires forall u :: u in s.threads && u != t ==>
      s.threads[u].phase == Running && |s.threads[u].stack| <= 1
        && (s.threads[u].stack != [] ==> s.threads[u].stack[0].lock != c)
    ensures Free(s, t, c)
  {
  }

  lemma Stuck(l: Local, a: Lock, b: Lock)
    requires l == Local([Entry(a, false), Entry(b, false)], Waiting)
    ensures LocalGood(l) && BlockedOn(l, b) && Owns(l, a)
  {
    assert l.stack[..1][0].lock == a;
  }
}
