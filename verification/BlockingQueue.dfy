/**
  The two monitors of the base library: `BoundedBlockingQueue` and the work queue of a
  running `ThreadPool`.  Both are a queue, a mutex and the conditions notEmpty and notFull.

  Any number of threads interleave, one statement at a time.  Conditions have Mesa
  semantics: a notified waiter must compete for the mutex again, may be overtaken, and may
  also wake up without having been notified.
*/
module BlockingQueue {

  /** Which monitor: `Bounded(n)` is the queue of capacity n, `Pool(n)` the pool with `maxQueueSize_` n. */
  datatype Kind = Bounded(size: nat) | Pool(size: nat)

  /** `full()` and `isFull()`; a pool of size 0 is never full. */
  predicate Full(k: Kind, len: nat) {
    match k
    case Bounded(n) => len >= n
    case Pool(n) => n > 0 && len >= n
  }

  /** Where a thread stands in `put` (`run`) or in `take`. */
  datatype Pc<T> =
    | Outside
    | PutEntry(x: T)     // wants the mutex
    | PutTest(x: T)      // holds the mutex, at the test of the while loop
    | PutWaiting(x: T)   // in notFull_.wait()
    | PutWoken(x: T)     // woken up, wants the mutex again
    | PutDone            // holds the mutex, item pushed, notEmpty_ not notified yet
    | PutLeaving         // holds the mutex, about to release it and to return
    | TakeEntry
    | TakeTest
    | TakeWaiting        // in notEmpty_.wait()
    | TakeWoken
    | TakeDone(x: T)     // holds the mutex, item popped, notFull_ not notified yet
    | TakeLeaving(x: T)  // holds the mutex, about to release it and to return the item

  predicate Holds<T>(pc: Pc<T>) {
    pc.PutTest? || pc.PutDone? || pc.PutLeaving? || pc.TakeTest? || pc.TakeDone? || pc.TakeLeaving?
  }

  datatype Option<T> = None | Some(value: T)

  /** What the callers see. */
  datatype Event<T> = CallPut(t: int, x: T) | ReturnPut(t: int) | CallTake(t: int) | ReturnTake(t: int, x: T)

  /**
    `pushed` and `popped` record the order in which items went in and came out, and which thread moved
    them; `history` records the calls and the returns.
  */
  datatype State<T> = State(
    queue: seq<T>, mutex: Option<int>, pcs: map<int, Pc<T>>, pushed: seq<(int, T)>, popped: seq<(int, T)>,
    history: seq<Event<T>>)

  ghost predicate Init<T>(s: State<T>) {
    && s.queue == [] && s.pushed == [] && s.popped == [] && s.history == [] && s.mutex == None
    && (forall t :: t in s.pcs ==> s.pcs[t] == Outside)
  }

  // ---------------------------------------------------------------- steps

  ghost predicate Move<T>(s: State<T>, t: int, pc: Pc<T>, s': State<T>)
    requires t in s.pcs
  {
    s' == s.(pcs := s.pcs[t := pc])
  }

  /** A thread calls `put(x)`, `run(x)` or `take()`. */
  ghost predicate Call<T>(s: State<T>, t: int, s': State<T>)
    requires t in s.pcs
  {
    && s.pcs[t].Outside? && t in s'.pcs && (s'.pcs[t].PutEntry? || s'.pcs[t].TakeEntry?)
    && s' == s.(pcs := s.pcs[t := s'.pcs[t]],
                history := s.history + [if s'.pcs[t].PutEntry? then CallPut(t, s'.pcs[t].x) else CallTake(t)])
  }

  ghost function Acquired<T>(pc: Pc<T>): Pc<T>
    requires WantsMutex(pc)
  {
    match pc
    case PutEntry(x) => PutTest(x)
    case PutWoken(x) => PutTest(x)
    case TakeEntry => TakeTest
    case TakeWoken => TakeTest
  }

  ghost predicate WantsMutex<T>(pc: Pc<T>) {
    pc.PutEntry? || pc.PutWoken? || pc.TakeEntry? || pc.TakeWoken?
  }

  ghost predicate Acquire<T>(s: State<T>, t: int, s': State<T>)
    requires t in s.pcs
  {
    && WantsMutex(s.pcs[t]) && s.mutex.None?
    && s' == s.(mutex := Some(t), pcs := s.pcs[t := Acquired(s.pcs[t])])
  }

  /** The test of `put`: wait on notFull_, releasing the mutex, or push. */
  ghost predicate TestPut<T>(k: Kind, s: State<T>, t: int, s': State<T>)
    requires t in s.pcs
  {
    && s.pcs[t].PutTest?
    && var x := s.pcs[t].x;
    if Full(k, |s.queue|) then
      s' == s.(mutex := None, pcs := s.pcs[t := PutWaiting(x)])
    else
      s' == s.(queue := s.queue + [x], pushed := s.pushed + [(t, x)], pcs := s.pcs[t := PutDone])
  }

  /** The test of `take`: wait on notEmpty_, releasing the mutex, or pop. */
  ghost predicate TestTake<T>(s: State<T>, t: int, s': State<T>)
    requires t in s.pcs
  {
    && s.pcs[t].TakeTest?
    && if s.queue == [] then
         s' == s.(mutex := None, pcs := s.pcs[t := TakeWaiting])
       else
         s' == s.(queue := s.queue[1..], popped := s.popped + [(t, s.queue[0])],
                  pcs := s.pcs[t := TakeDone(s.queue[0])])
  }

  /** `notEmpty_.notify()` wakes one waiting consumer, if there is one. */
  ghost predicate NotifyNotEmpty<T>(s: State<T>, t: int, s': State<T>)
    requires t in s.pcs
  {
    && s.pcs[t].PutDone?
    && if exists u :: u in s.pcs && s.pcs[u].TakeWaiting? then
         exists u :: u in s.pcs && s.pcs[u].TakeWaiting? && s' == s.(pcs := s.pcs[t := PutLeaving][u := TakeWoken])
       else Move(s, t, PutLeaving, s')
  }

  /** `notFull_.notify()` wakes one waiting producer, if there is one; an unbounded pool does not call it. */
  ghost predicate NotifyNotFull<T>(k: Kind, s: State<T>, t: int, s': State<T>)
    requires t in s.pcs
  {
    && s.pcs[t].TakeDone?
    && if (exists u :: u in s.pcs && s.pcs[u].PutWaiting?) && !(k.Pool? && k.size == 0) then
         exists u :: u in s.pcs && s.pcs[u].PutWaiting?
           && s' == s.(pcs := s.pcs[t := TakeLeaving(s.pcs[t].x)][u := PutWoken(s.pcs[u].x)])
       else Move(s, t, TakeLeaving(s.pcs[t].x), s')
  }

  ghost predicate Release<T>(s: State<T>, t: int, s': State<T>)
    requires t in s.pcs
  {
    && (s.pcs[t].PutLeaving? || s.pcs[t].TakeLeaving?)
    && s' == s.(mutex := None, pcs := s.pcs[t := Outside],
                history := s.history + [if s.pcs[t].PutLeaving? then ReturnPut(t) else ReturnTake(t, s.pcs[t].x)])
  }

  /** A waiter wakes up on its own. */
  ghost predicate Spurious<T>(s: State<T>, t: int, s': State<T>)
    requires t in s.pcs
  {
    || (s.pcs[t].TakeWaiting? && Move(s, t, TakeWoken, s'))
    || (s.pcs[t].PutWaiting? && Move(s, t, PutWoken(s.pcs[t].x), s'))
  }

  /** A step that thread `t` can take by itself, once it is inside an operation. */
  ghost predicate Progress<T>(k: Kind, s: State<T>, t: int, s': State<T>)
    requires t in s.pcs
  {
    || Acquire(s, t, s') || TestPut(k, s, t, s') || TestTake(s, t, s')
    || NotifyNotEmpty(s, t, s') || NotifyNotFull(k, s, t, s') || Release(s, t, s')
  }

  ghost predicate Next<T>(k: Kind, s: State<T>, s': State<T>) {
    exists t :: t in s.pcs && (Call(s, t, s') || Progress(k, s, t, s') || Spurious(s, t, s'))
  }

  ghost predicate Run<T>(k: Kind, tr: seq<State<T>>) {
    |tr| > 0 && Init(tr[0]) && forall i :: 0 <= i < |tr| - 1 ==> Next(k, tr[i], tr[i + 1])
  }

  // ------------------------------------------------------------ invariant

  /** The items of a record of moves. */
  ghost function Items<T>(moves: seq<(int, T)>): seq<T> {
    if moves == [] then [] else Items(moves[..|moves| - 1]) + [moves[|moves| - 1].1]
  }

  lemma ItemsMore<T>(moves: seq<(int, T)>, m: (int, T))
    ensures Items(moves + [m]) == Items(moves) + [m.1]
  {
    assert (moves + [m])[..|moves|] == moves;
  }

  /** Threads that stand for an item: signalled consumers, a consumer at its test, a producer about to notify. */
  ghost function ItemCredit<T>(s: State<T>): set<int> {
    set t | t in s.pcs && (s.pcs[t].TakeWoken? || s.pcs[t].TakeTest? || s.pcs[t].PutDone?)
  }

  /** Threads that stand for a free slot. */
  ghost function RoomCredit<T>(s: State<T>): set<int> {
    set t | t in s.pcs && (s.pcs[t].PutWoken? || s.pcs[t].PutTest? || s.pcs[t].TakeDone?)
  }

  ghost predicate MutexOk<T>(s: State<T>) {
    && (s.mutex.Some? ==> s.mutex.value in s.pcs)
    && (forall t :: t in s.pcs ==> (Holds(s.pcs[t]) <==> s.mutex == Some(t)))
  }

  ghost predicate SizeOk<T>(k: Kind, s: State<T>) {
    k.Bounded? || k.size > 0 ==> |s.queue| <= k.size
  }

  ghost predicate Inv<T>(k: Kind, s: State<T>) {
    && MutexOk(s) && SizeOk(k, s)
    && Items(s.pushed) == Items(s.popped) + s.queue
    && ((exists t :: t in s.pcs && s.pcs[t].TakeWaiting?) ==> |s.queue| <= |ItemCredit(s)|)
    && ((exists t :: t in s.pcs && s.pcs[t].PutWaiting?) ==>
         (k.Bounded? || k.size > 0) && k.size - |s.queue| <= |RoomCredit(s)|)
  }

  lemma InitInv<T>(k: Kind, s: State<T>)
    requires Init(s)
    ensures Inv(k, s)
  {
  }

  lemma CardMinus(a: set<int>, b: set<int>, t: int)
    requires a - {t} <= b
    ensures |b| >= |a| - 1
    ensures t in b ==> |b| >= |a|
  {
    var c := a - {t};
    assert a <= c + {t};
    CardSub(a, c + {t});
    CardSub(c, b);
    if t in b {
      CardSub(c + {t}, b);
    }
  }

  lemma CardSub(a: set<int>, b: set<int>)
    requires a <= b
    ensures |a| <= |b|
  {
    assert b == a + (b - a);
  }

  lemma SwapCard(a: set<int>, b: set<int>, t: int, u: int)
    requires a - {t} + {u} <= b && u !in a
    ensures |a| <= |b|
  {
    CardMinus(a, a - {t}, t);
    CardPlus(a - {t}, b, u);
  }

  lemma SomeMember(a: set<int>) returns (t: int)
    requires |a| > 0
    ensures t in a
  {
    assert (forall u :: u !in a) ==> a == {};
    t :| t in a;
  }

  lemma CardPlus(a: set<int>, b: set<int>, t: int)
    requires a + {t} <= b && t !in a
    ensures |b| >= |a| + 1
  {
    CardSub(a + {t}, b);
  }

  lemma SameRoom<T>(s: State<T>, s': State<T>)
    requires s.pcs.Keys == s'.pcs.Keys
    requires forall v :: v in s.pcs ==>
               (s.pcs[v].PutWoken? || s.pcs[v].PutTest? || s.pcs[v].TakeDone?
                <==> s'.pcs[v].PutWoken? || s'.pcs[v].PutTest? || s'.pcs[v].TakeDone?)
    ensures RoomCredit(s') == RoomCredit(s)
  {
    forall v
      ensures v in RoomCredit(s) <==> v in RoomCredit(s')
    {
      assert v in s.pcs <==> v in s'.pcs;
    }
  }

  lemma SameItems<T>(s: State<T>, s': State<T>)
    requires s.pcs.Keys == s'.pcs.Keys
    requires forall v :: v in s.pcs ==>
               (s.pcs[v].TakeWoken? || s.pcs[v].TakeTest? || s.pcs[v].PutDone?
                <==> s'.pcs[v].TakeWoken? || s'.pcs[v].TakeTest? || s'.pcs[v].PutDone?)
    ensures ItemCredit(s') == ItemCredit(s)
  {
    forall v
      ensures v in ItemCredit(s) <==> v in ItemCredit(s')
    {
      assert v in s.pcs <==> v in s'.pcs;
    }
  }

  lemma {:induction false} CallInv<T>(k: Kind, s: State<T>, t: int, s': State<T>)
    requires Inv(k, s) && t in s.pcs && Call(s, t, s')
    ensures Inv(k, s')
  {
    hide Items;
    assert ItemCredit(s') == ItemCredit(s) && RoomCredit(s') == RoomCredit(s);
    assert forall u :: u in s'.pcs && u != t ==> s'.pcs[u] == s.pcs[u];
  }

  lemma {:induction false} AcquireInv<T>(k: Kind, s: State<T>, t: int, s': State<T>)
    requires Inv(k, s) && t in s.pcs && Acquire(s, t, s')
    ensures Inv(k, s')
  {
    hide Items;
    CardSub(ItemCredit(s), ItemCredit(s'));
    CardSub(RoomCredit(s), RoomCredit(s'));
    assert forall u :: u in s'.pcs && u != t ==> s'.pcs[u] == s.pcs[u];
  }

  lemma {:induction false} TestPutInv<T>(k: Kind, s: State<T>, t: int, s': State<T>)
    requires Inv(k, s) && t in s.pcs && TestPut(k, s, t, s')
    ensures Inv(k, s')
  {
    if Full(k, |s.queue|) {
      SameItems(s, s');
      hide ItemCredit, RoomCredit;
    } else {
      PutsInv(k, s, t, s');
    }
  }

  lemma {:induction false} PutsInv<T>(k: Kind, s: State<T>, t: int, s': State<T>)
    requires Inv(k, s) && t in s.pcs && TestPut(k, s, t, s') && !Full(k, |s.queue|)
    ensures Inv(k, s')
  {
    ItemsMore(s.pushed, (t, s.pcs[t].x));
    PutsCredit(k, s, t, s');
    hide ItemCredit, RoomCredit, Items;
    assert Items(s'.pushed) == Items(s'.popped) + s'.queue;
    assert MutexOk(s');
    hide MutexOk;
    if u :| u in s'.pcs && s'.pcs[u].TakeWaiting? {
      assert u in s.pcs && s.pcs[u].TakeWaiting?;
    }
    if u :| u in s'.pcs && s'.pcs[u].PutWaiting? {
      assert u in s.pcs && s.pcs[u].PutWaiting?;
    }
  }

  lemma PutsCredit<T>(k: Kind, s: State<T>, t: int, s': State<T>)
    requires t in s.pcs && TestPut(k, s, t, s') && !Full(k, |s.queue|)
    ensures |RoomCredit(s')| >= |RoomCredit(s)| - 1 && |ItemCredit(s')| >= |ItemCredit(s)| + 1
  {
    assert forall u :: u in s'.pcs && u != t ==> s'.pcs[u] == s.pcs[u];
    CardMinus(RoomCredit(s), RoomCredit(s'), t);
    CardPlus(ItemCredit(s), ItemCredit(s'), t);
  }

  lemma {:induction false} TestTakeInv<T>(k: Kind, s: State<T>, t: int, s': State<T>)
    requires Inv(k, s) && t in s.pcs && TestTake(s, t, s')
    ensures Inv(k, s')
  {
    if s.queue == [] {
      SameRoom(s, s');
      hide ItemCredit, RoomCredit;
    } else {
      TakesInv(k, s, t, s');
    }
  }

  lemma {:induction false} TakesInv<T>(k: Kind, s: State<T>, t: int, s': State<T>)
    requires Inv(k, s) && t in s.pcs && TestTake(s, t, s') && s.queue != []
    ensures Inv(k, s')
  {
    TakesItems(s, t, s');
    TakesCredit(s, t, s');
    hide ItemCredit, RoomCredit, Items;
    assert MutexOk(s');
    hide MutexOk;
    if u :| u in s'.pcs && s'.pcs[u].TakeWaiting? {
      assert u in s.pcs && s.pcs[u].TakeWaiting?;
    }
    if u :| u in s'.pcs && s'.pcs[u].PutWaiting? {
      assert u in s.pcs && s.pcs[u].PutWaiting?;
    }
  }

  lemma TakesItems<T>(s: State<T>, t: int, s': State<T>)
    requires t in s.pcs && TestTake(s, t, s') && s.queue != [] && Items(s.pushed) == Items(s.popped) + s.queue
    ensures Items(s'.pushed) == Items(s'.popped) + s'.queue
  {
    ItemsMore(s.popped, (t, s.queue[0]));
    hide Items;
    assert s.queue == [s.queue[0]] + s.queue[1..];
  }

  lemma TakesCredit<T>(s: State<T>, t: int, s': State<T>)
    requires t in s.pcs && TestTake(s, t, s') && s.queue != []
    ensures |ItemCredit(s')| >= |ItemCredit(s)| - 1 && |RoomCredit(s')| >= |RoomCredit(s)| + 1
  {
    assert forall u :: u in s'.pcs && u != t ==> s'.pcs[u] == s.pcs[u];
    CardMinus(ItemCredit(s), ItemCredit(s'), t);
    CardPlus(RoomCredit(s), RoomCredit(s'), t);
  }

  lemma {:induction false} NotifyNotEmptyInv<T>(k: Kind, s: State<T>, t: int, s': State<T>)
    requires Inv(k, s) && t in s.pcs && NotifyNotEmpty(s, t, s')
    ensures Inv(k, s')
  {
    hide Items;
    SameRoom(s, s');
    if exists u :: u in s.pcs && s.pcs[u].TakeWaiting? {
      var u :| u in s.pcs && s.pcs[u].TakeWaiting? && s' == s.(pcs := s.pcs[t := PutLeaving][u := TakeWoken]);
      assert forall v :: v in s'.pcs && v != t && v != u ==> s'.pcs[v] == s.pcs[v];
      SwapCard(ItemCredit(s), ItemCredit(s'), t, u);
    }
  }

  lemma {:induction false} NotifyNotFullInv<T>(k: Kind, s: State<T>, t: int, s': State<T>)
    requires Inv(k, s) && t in s.pcs && NotifyNotFull(k, s, t, s')
    ensures Inv(k, s')
  {
    hide Items;
    SameItems(s, s');
    if exists u :: u in s.pcs && s.pcs[u].PutWaiting? {
      var u :| u in s.pcs && s.pcs[u].PutWaiting?
               && s' == s.(pcs := s.pcs[t := TakeLeaving(s.pcs[t].x)][u := PutWoken(s.pcs[u].x)]);
      assert forall v :: v in s'.pcs && v != t && v != u ==> s'.pcs[v] == s.pcs[v];
      SwapCard(RoomCredit(s), RoomCredit(s'), t, u);
    }
  }

  lemma {:induction false} ReleaseInv<T>(k: Kind, s: State<T>, t: int, s': State<T>)
    requires Inv(k, s) && t in s.pcs && Release(s, t, s')
    ensures Inv(k, s')
  {
    hide Items;
    assert ItemCredit(s') == ItemCredit(s) && RoomCredit(s') == RoomCredit(s);
    assert forall u :: u in s'.pcs && u != t ==> s'.pcs[u] == s.pcs[u];
  }

  lemma {:induction false} SpuriousInv<T>(k: Kind, s: State<T>, t: int, s': State<T>)
    requires Inv(k, s) && t in s.pcs && Spurious(s, t, s')
    ensures Inv(k, s')
  {
    hide Items;
    CardSub(ItemCredit(s), ItemCredit(s'));
    CardSub(RoomCredit(s), RoomCredit(s'));
    assert forall u :: u in s'.pcs && u != t ==> s'.pcs[u] == s.pcs[u];
  }

  lemma {:induction false} NextInv<T>(k: Kind, s: State<T>, s': State<T>)
    requires Inv(k, s) && Next(k, s, s')
    ensures Inv(k, s')
  {
    var t :| t in s.pcs && (Call(s, t, s') || Progress(k, s, t, s') || Spurious(s, t, s'));
    hide Inv, Call, Acquire, TestPut, TestTake, NotifyNotEmpty, NotifyNotFull, Release, Spurious;
    if Call(s, t, s') { CallInv(k, s, t, s'); }
    else if Acquire(s, t, s') { AcquireInv(k, s, t, s'); }
    else if TestPut(k, s, t, s') { TestPutInv(k, s, t, s'); }
    else if TestTake(s, t, s') { TestTakeInv(k, s, t, s'); }
    else if NotifyNotEmpty(s, t, s') { NotifyNotEmptyInv(k, s, t, s'); }
    else if NotifyNotFull(k, s, t, s') { NotifyNotFullInv(k, s, t, s'); }
    else if Release(s, t, s') { ReleaseInv(k, s, t, s'); }
    else { SpuriousInv(k, s, t, s'); }
  }

  /** Every state of every run satisfies the invariant. */
  lemma {:induction false} RunInv<T>(k: Kind, tr: seq<State<T>>, n: nat)
    requires Run(k, tr) && n < |tr|
    ensures Inv(k, tr[n])
  {
    if n == 0 {
      InitInv(k, tr[0]);
    } else {
      RunInv(k, tr, n - 1);
      assert Next(k, tr[n - 1], tr[n - 1 + 1]);
      NextInv(k, tr[n - 1], tr[n]);
    }
  }

  // --------------------------------------------------------------- results

  /** Items come out in the order in which they went in, each once, and the bound is kept. */
  lemma {:induction false} Fifo<T>(k: Kind, tr: seq<State<T>>, n: nat)
    requires Run(k, tr) && n < |tr|
    ensures Items(tr[n].popped) <= Items(tr[n].pushed)
    ensures tr[n].queue == Items(tr[n].pushed)[|Items(tr[n].popped)|..]
    ensures k.Bounded? || k.size > 0 ==> |tr[n].queue| <= k.size
  {
    RunInv(k, tr, n);
  }

  // ------------------------------------------------------ what the callers see

  /** What `take` has returned, and to whom, in the order of the returns. */
  ghost function Taken<T>(h: seq<Event<T>>): seq<(int, T)> {
    if h == [] then []
    else
      var e := h[|h| - 1];
      Taken(h[..|h| - 1]) + if e.ReturnTake? then [(e.t, e.x)] else []
  }

  /** The arguments of the calls of `put` by thread `t`, in order. */
  ghost function Put<T>(h: seq<Event<T>>, t: int): seq<T> {
    if h == [] then []
    else
      var e := h[|h| - 1];
      Put(h[..|h| - 1], t) + if e.CallPut? && e.t == t then [e.x] else []
  }

  /** What thread `t` has moved. */
  ghost function By<T>(moves: seq<(int, T)>, t: int): seq<T> {
    if moves == [] then []
    else
      var m := moves[|moves| - 1];
      By(moves[..|moves| - 1], t) + if m.0 == t then [m.1] else []
  }

  /** The call that thread `t` has not returned from. */
  ghost function Open<T>(h: seq<Event<T>>, t: int): Option<Event<T>> {
    if h == [] then None
    else
      var e := h[|h| - 1];
      if e.t != t then Open(h[..|h| - 1], t) else if e.CallPut? || e.CallTake? then Some(e) else None
  }

  /** Every return is from the call that its thread has open, and every call comes when none is open. */
  ghost predicate Matched<T>(h: seq<Event<T>>) {
    h != [] ==>
      var g, e := h[..|h| - 1], h[|h| - 1];
      && Matched(g)
      && (e.ReturnPut? ==> Open(g, e.t).Some? && Open(g, e.t).value.CallPut?)
      && (e.ReturnTake? ==> Open(g, e.t).Some? && Open(g, e.t).value.CallTake?)
      && (e.CallPut? || e.CallTake? ==> Open(g, e.t).None?)
  }

  /** The item popped for a `take` that has not returned. */
  ghost function InHand<T>(s: State<T>): seq<(int, T)> {
    if s.mutex.Some? && s.mutex.value in s.pcs
       && (s.pcs[s.mutex.value].TakeDone? || s.pcs[s.mutex.value].TakeLeaving?)
    then [(s.mutex.value, s.pcs[s.mutex.value].x)] else []
  }

  /** The argument of a `put` that has not pushed it. */
  ghost function Unpushed<T>(pc: Pc<T>): seq<T> {
    if pc.PutEntry? || pc.PutTest? || pc.PutWaiting? || pc.PutWoken? then [pc.x] else []
  }

  ghost predicate Opens<T>(pc: Pc<T>, t: int, o: Option<Event<T>>) {
    if pc.Outside? then o.None?
    else if pc.TakeEntry? || pc.TakeTest? || pc.TakeWaiting? || pc.TakeWoken? || pc.TakeDone? || pc.TakeLeaving? then
      o == Some(CallTake(t))
    else o.Some? && o.value.CallPut? && o.value.t == t && Unpushed(pc) <= [o.value.x]
  }

  ghost predicate ThreadOk<T>(s: State<T>, t: int)
    requires t in s.pcs
  {
    Opens(s.pcs[t], t, Open(s.history, t)) && Put(s.history, t) == By(s.pushed, t) + Unpushed(s.pcs[t])
  }

  ghost predicate HistoryOk<T>(s: State<T>) {
    && Matched(s.history) && Taken(s.history) + InHand(s) == s.popped
    && (forall t :: t in s.pcs ==> ThreadOk(s, t))
  }

  lemma HistoryMore<T>(h: seq<Event<T>>, e: Event<T>, t: int)
    ensures Taken(h + [e]) == Taken(h) + if e.ReturnTake? then [(e.t, e.x)] else []
    ensures Put(h + [e], t) == Put(h, t) + if e.CallPut? && e.t == t then [e.x] else []
    ensures Open(h + [e], t) == if e.t != t then Open(h, t) else if e.CallPut? || e.CallTake? then Some(e) else None
    ensures Matched(h + [e]) <==>
            && Matched(h)
            && (e.ReturnPut? ==> Open(h, e.t).Some? && Open(h, e.t).value.CallPut?)
            && (e.ReturnTake? ==> Open(h, e.t).Some? && Open(h, e.t).value.CallTake?)
            && (e.CallPut? || e.CallTake? ==> Open(h, e.t).None?)
  {
    assert (h + [e])[..|h|] == h;
  }

  lemma ByMore<T>(moves: seq<(int, T)>, m: (int, T), t: int)
    ensures By(moves + [m], t) == By(moves, t) + if m.0 == t then [m.1] else []
  {
    assert (moves + [m])[..|moves|] == moves;
  }

  /** A step that is neither a call nor a return nor a move. */
  lemma QuietHistory<T>(s: State<T>, s': State<T>)
    requires HistoryOk(s) && Quiet(s, s')
    ensures HistoryOk(s')
  {
    hide InHand, Open, Put, By, Taken, Matched;
    forall t | t in s'.pcs
      ensures ThreadOk(s', t)
    {
      assert ThreadOk(s, t) && SameCall(s.pcs[t], s'.pcs[t]);
    }
  }

  /** Two places within one call, with the same item still to be pushed. */
  ghost predicate SameCall<T>(a: Pc<T>, b: Pc<T>) {
    && Unpushed(a) == Unpushed(b) && (a.Outside? <==> b.Outside?)
    && (a.TakeEntry? || a.TakeTest? || a.TakeWaiting? || a.TakeWoken? || a.TakeDone? || a.TakeLeaving?
        <==> b.TakeEntry? || b.TakeTest? || b.TakeWaiting? || b.TakeWoken? || b.TakeDone? || b.TakeLeaving?)
  }

  lemma CallHistory<T>(s: State<T>, t: int, s': State<T>)
    requires MutexOk(s) && HistoryOk(s) && t in s.pcs && Call(s, t, s')
    ensures HistoryOk(s')
  {
    hide Open, Put, By, Taken, Matched;
    var e := s'.history[|s.history|];
    forall u | u in s'.pcs
      ensures ThreadOk(s', u)
    {
      assert ThreadOk(s, u);
      HistoryMore(s.history, e, u);
    }
    HistoryMore(s.history, e, t);
    assert ThreadOk(s, t) && InHand(s') == InHand(s);
  }

  lemma PushHistory<T>(k: Kind, s: State<T>, t: int, s': State<T>)
    requires MutexOk(s) && HistoryOk(s) && t in s.pcs && TestPut(k, s, t, s') && !Full(k, |s.queue|)
    ensures HistoryOk(s')
  {
    hide Open, Put, By, Taken, Matched;
    forall u | u in s'.pcs
      ensures ThreadOk(s', u)
    {
      assert ThreadOk(s, u);
      ByMore(s.pushed, (t, s.pcs[t].x), u);
    }
    assert InHand(s') == InHand(s);
  }

  lemma PopHistory<T>(s: State<T>, t: int, s': State<T>)
    requires MutexOk(s) && HistoryOk(s) && t in s.pcs && TestTake(s, t, s') && s.queue != []
    ensures HistoryOk(s')
  {
    hide Open, Put, By, Taken, Matched;
    forall u | u in s'.pcs
      ensures ThreadOk(s', u)
    {
      assert ThreadOk(s, u);
    }
    assert InHand(s) == [] && InHand(s') == [(t, s.queue[0])];
  }

  lemma ReleaseHistory<T>(s: State<T>, t: int, s': State<T>)
    requires MutexOk(s) && HistoryOk(s) && t in s.pcs && Release(s, t, s')
    ensures HistoryOk(s')
  {
    hide Open, Put, By, Taken, Matched;
    var e := s'.history[|s.history|];
    forall u | u in s'.pcs
      ensures ThreadOk(s', u)
    {
      assert ThreadOk(s, u);
      HistoryMore(s.history, e, u);
    }
    HistoryMore(s.history, e, t);
    assert ThreadOk(s, t) && s.mutex == Some(t) && InHand(s') == [];
  }

  lemma {:induction false} NextHistory<T>(k: Kind, s: State<T>, s': State<T>)
    requires MutexOk(s) && HistoryOk(s) && Next(k, s, s')
    ensures HistoryOk(s')
  {
    var t :| t in s.pcs && (Call(s, t, s') || Progress(k, s, t, s') || Spurious(s, t, s'));
    hide HistoryOk;
    if Call(s, t, s') { CallHistory(s, t, s'); }
    else if Release(s, t, s') { ReleaseHistory(s, t, s'); }
    else if TestPut(k, s, t, s') && !Full(k, |s.queue|) { PushHistory(k, s, t, s'); }
    else if TestTake(s, t, s') && s.queue != [] { PopHistory(s, t, s'); }
    else {
      if NotifyNotEmpty(s, t, s') || NotifyNotFull(k, s, t, s') { QuietNotify(k, s, t, s'); }
      else { QuietTest(k, s, t, s'); }
      QuietHistory(s, s');
    }
  }

  ghost predicate Quiet<T>(s: State<T>, s': State<T>) {
    && s'.history == s.history && s'.pushed == s.pushed && s'.popped == s.popped
    && InHand(s') == InHand(s) && s'.pcs.Keys == s.pcs.Keys
    && (forall u :: u in s.pcs ==> SameCall(s.pcs[u], s'.pcs[u]))
  }

  lemma QuietTest<T>(k: Kind, s: State<T>, t: int, s': State<T>)
    requires MutexOk(s) && t in s.pcs
    requires || Acquire(s, t, s') || (TestPut(k, s, t, s') && Full(k, |s.queue|))
             || (TestTake(s, t, s') && s.queue == []) || Spurious(s, t, s')
    ensures Quiet(s, s')
  {
    assert forall u :: u in s.pcs && u != t ==> s'.pcs[u] == s.pcs[u];
    assert s'.pcs.Keys == s.pcs.Keys;
  }

  lemma QuietNotify<T>(k: Kind, s: State<T>, t: int, s': State<T>)
    requires MutexOk(s) && t in s.pcs && (NotifyNotEmpty(s, t, s') || NotifyNotFull(k, s, t, s'))
    ensures Quiet(s, s')
  {
    assert s.mutex == Some(t) == s'.mutex;
    assert s'.pcs.Keys == s.pcs.Keys;
  }

  lemma {:induction false} RunHistory<T>(k: Kind, tr: seq<State<T>>, n: nat)
    requires Run(k, tr) && n < |tr|
    ensures HistoryOk(tr[n])
  {
    if n > 0 {
      RunHistory(k, tr, n - 1);
      RunInv(k, tr, n - 1);
      assert Next(k, tr[n - 1], tr[n - 1 + 1]);
      NextHistory(k, tr[n - 1], tr[n]);
    }
  }

  /**
    What the callers see, in every run.  The items that `take` has returned, in the order of the returns,
    are the first items pushed, and at most one more has been popped: the one in the hand of a `take`
    about to return it.  What each thread has pushed are the arguments of its calls of `put`, in order and
    once each, but for the call it may be in.  And every return answers the call its thread is in.
  */
  lemma {:induction false} TakesReturnPuts<T>(k: Kind, tr: seq<State<T>>, n: nat)
    requires Run(k, tr) && n < |tr|
    ensures var s := tr[n];
            && Items(s.pushed) == Items(Taken(s.history) + InHand(s)) + s.queue && |InHand(s)| <= 1
            && (forall e :: e in InHand(s) ==> Open(s.history, e.0) == Some(CallTake(e.0)))
    ensures var s := tr[n];
            forall t :: t in s.pcs ==>
              && By(s.pushed, t) <= Put(s.history, t) && |Put(s.history, t)| <= |By(s.pushed, t)| + 1
              && (By(s.pushed, t) != Put(s.history, t) ==>
                   Open(s.history, t) == Some(CallPut(t, Put(s.history, t)[|By(s.pushed, t)|])))
    ensures Matched(tr[n].history)
  {
    hide Run, Open, Put, By, Taken, Matched, Items, InHand, ThreadOk, Inv;
    var s := tr[n];
    RunHistory(k, tr, n);
    RunInv(k, tr, n);
    InvParts(k, s);
    InHandIsOpen(s);
    forall t | t in s.pcs
      ensures By(s.pushed, t) <= Put(s.history, t) && |Put(s.history, t)| <= |By(s.pushed, t)| + 1
      ensures By(s.pushed, t) != Put(s.history, t) ==>
                Open(s.history, t) == Some(CallPut(t, Put(s.history, t)[|By(s.pushed, t)|]))
    {
      PushesAreOpen(s, t);
    }
  }

  lemma InvParts<T>(k: Kind, s: State<T>)
    requires Inv(k, s)
    ensures Items(s.pushed) == Items(s.popped) + s.queue
  {
    hide MutexOk, ItemCredit, RoomCredit, Items;
  }

  lemma InHandIsOpen<T>(s: State<T>)
    requires HistoryOk(s)
    ensures |InHand(s)| <= 1 && forall e :: e in InHand(s) ==> Open(s.history, e.0) == Some(CallTake(e.0))
  {
    hide Open, Put, By, Taken, Matched;
    if InHand(s) != [] {
      assert ThreadOk(s, s.mutex.value);
    }
  }

  lemma PushesAreOpen<T>(s: State<T>, t: int)
    requires t in s.pcs && ThreadOk(s, t)
    ensures By(s.pushed, t) <= Put(s.history, t) && |Put(s.history, t)| <= |By(s.pushed, t)| + 1
    ensures By(s.pushed, t) != Put(s.history, t) ==>
              Open(s.history, t) == Some(CallPut(t, Put(s.history, t)[|By(s.pushed, t)|]))
  {
    hide Open, Put, By;
  }

  /**
    Between critical sections, a consumer waits unsignalled only if no more items are queued than
    consumers have been signalled and not yet resumed; and the same for producers and free slots.
  */
  lemma {:induction false} WaitersAreBalanced<T>(k: Kind, tr: seq<State<T>>, n: nat)
    requires Run(k, tr) && n < |tr| && tr[n].mutex.None?
    ensures var s := tr[n];
            && ((exists t :: t in s.pcs && s.pcs[t].TakeWaiting?) ==>
                 |s.queue| <= |set t | t in s.pcs && s.pcs[t].TakeWoken?|)
            && ((exists t :: t in s.pcs && s.pcs[t].PutWaiting?) ==>
                 k.size - |s.queue| <= |set t | t in s.pcs && s.pcs[t].PutWoken?|)
  {
    var s := tr[n];
    RunInv(k, tr, n);
    assert forall t :: t in s.pcs ==> !Holds(s.pcs[t]);
    CardSub(ItemCredit(s), set t | t in s.pcs && s.pcs[t].TakeWoken?);
    CardSub(RoomCredit(s), set t | t in s.pcs && s.pcs[t].PutWoken?);
  }

  /** Some thread inside an operation can go on without a further call and without waking up spuriously. */
  ghost predicate CanProgress<T(!new)>(k: Kind, s: State<T>) {
    exists t, s' :: t in s.pcs && Progress(k, s, t, s')
  }

  /** A thread that is neither outside nor waiting is one that can go on, or the mutex holder is. */
  lemma {:induction false} BusyCanProgress<T(!new)>(k: Kind, s: State<T>, t: int)
    requires Inv(k, s) && t in s.pcs && !s.pcs[t].Outside? && !s.pcs[t].TakeWaiting? && !s.pcs[t].PutWaiting?
    ensures CanProgress(k, s)
  {
    if s.mutex.None? {
      assert WantsMutex(s.pcs[t]);
      assert Progress(k, s, t, s.(mutex := Some(t), pcs := s.pcs[t := Acquired(s.pcs[t])]));
    } else {
      HolderCanProgress(k, s, s.mutex.value);
    }
  }

  lemma {:induction false} HolderCanProgress<T(!new)>(k: Kind, s: State<T>, t: int)
    requires t in s.pcs && Holds(s.pcs[t])
    ensures CanProgress(k, s)
  {
    match s.pcs[t] {
      case PutTest(x) =>
        assert Progress(k, s, t, if Full(k, |s.queue|) then s.(mutex := None, pcs := s.pcs[t := PutWaiting(x)])
                                else s.(queue := s.queue + [x], pushed := s.pushed + [(t, x)],
                                        pcs := s.pcs[t := PutDone]));
      case TakeTest =>
        assert Progress(k, s, t, if s.queue == [] then s.(mutex := None, pcs := s.pcs[t := TakeWaiting])
                                else s.(queue := s.queue[1..], popped := s.popped + [(t, s.queue[0])],
                                        pcs := s.pcs[t := TakeDone(s.queue[0])]));
      case PutDone =>
        if u :| u in s.pcs && s.pcs[u].TakeWaiting? {
          assert Progress(k, s, t, s.(pcs := s.pcs[t := PutLeaving][u := TakeWoken]));
        } else {
          assert Progress(k, s, t, s.(pcs := s.pcs[t := PutLeaving]));
        }
      case TakeDone(x) =>
        if u :| u in s.pcs && s.pcs[u].PutWaiting? && !(k.Pool? && k.size == 0) {
          assert Progress(k, s, t, s.(pcs := s.pcs[t := TakeLeaving(x)][u := PutWoken(s.pcs[u].x)]));
        } else {
          assert Progress(k, s, t, s.(pcs := s.pcs[t := TakeLeaving(x)]));
        }
      case PutLeaving =>
        assert Progress(k, s, t, s.(mutex := None, pcs := s.pcs[t := Outside],
                                    history := s.history + [ReturnPut(t)]));
      case TakeLeaving(x) =>
        assert Progress(k, s, t, s.(mutex := None, pcs := s.pcs[t := Outside],
                                    history := s.history + [ReturnTake(t, x)]));
    }
  }

  /**
    No wakeup is lost.  In every state of every run, a consumer waits with items in the queue only
    while another thread can go on, and a producer waits with room in the queue only while another
    thread can go on.
  */
  lemma {:induction false} NoLostWakeup<T(!new)>(k: Kind, tr: seq<State<T>>, n: nat, t: int)
    requires Run(k, tr) && n < |tr| && t in tr[n].pcs
    requires (tr[n].pcs[t].TakeWaiting? && tr[n].queue != [])
             || (tr[n].pcs[t].PutWaiting? && !Full(k, |tr[n].queue|))
    ensures CanProgress(k, tr[n])
  {
    var s := tr[n];
    RunInv(k, tr, n);
    if s.pcs[t].TakeWaiting? {
      var u := SomeMember(ItemCredit(s));
      BusyCanProgress(k, s, u);
    } else {
      var u := SomeMember(RoomCredit(s));
      BusyCanProgress(k, s, u);
    }
  }

  /**
    With room for at least one item the monitor does not deadlock: if nobody inside an operation can
    go on, then everybody inside waits for the same thing, which is really missing.
  */
  lemma {:induction false} NoDeadlock<T(!new)>(k: Kind, tr: seq<State<T>>, n: nat)
    requires Run(k, tr) && n < |tr| && !CanProgress(k, tr[n]) && (k.Pool? || k.size > 0)
    ensures var s := tr[n];
            || (forall t :: t in s.pcs ==> s.pcs[t].Outside?)
            || (s.queue == [] && forall t :: t in s.pcs ==> s.pcs[t].Outside? || s.pcs[t].TakeWaiting?)
            || (Full(k, |s.queue|) && forall t :: t in s.pcs ==> s.pcs[t].Outside? || s.pcs[t].PutWaiting?)
  {
    var s := tr[n];
    RunInv(k, tr, n);
    forall t | t in s.pcs
      ensures s.pcs[t].Outside? || s.pcs[t].TakeWaiting? || s.pcs[t].PutWaiting?
      ensures s.pcs[t].TakeWaiting? ==> s.queue == []
      ensures s.pcs[t].PutWaiting? ==> Full(k, |s.queue|)
    {
      if !s.pcs[t].Outside? && !s.pcs[t].TakeWaiting? && !s.pcs[t].PutWaiting? {
        BusyCanProgress(k, s, t);
      }
      if (s.pcs[t].TakeWaiting? && s.queue != []) || (s.pcs[t].PutWaiting? && !Full(k, |s.queue|)) {
        NoLostWakeup(k, tr, n, t);
      }
    }
  }
}
