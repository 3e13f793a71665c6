/**
  `TimerQueue`: timers ordered by expiration, an index by timer identity for cancellation, and a
  timerfd that wakes the loop up for the earliest one.

  Times are integer microseconds.  A timer is an object on a heap whose addresses may be reused
  once freed; its sequence number is never reused.  `timers_`, an ordered set, is the sequence of
  its entries in order.
*/
module TimerQueue {

  /** A `Timer` object; it repeats if its interval is positive. */
  datatype Timer = Timer(sequence: int, expiration: int, interval: int)

  type Address = int
  type Entry = (int, Address)          // expiration, timer
  type Key = (Address, int)            // timer, sequence

  datatype Option<T> = None | Some(value: T)

  /** The members of the queue, and the objects allocated for timers. */
  datatype Queue = Queue(
    heap: map<Address, Timer>, timers: seq<Entry>, active: set<Key>, canceling: set<Key>, calling: bool)

  predicate Less(a: Entry, b: Entry) {
    a.0 < b.0 || (a.0 == b.0 && a.1 < b.1)
  }

  ghost predicate Sorted(ts: seq<Entry>) {
    forall i, j :: 0 <= i < j < |ts| ==> Less(ts[i], ts[j])
  }

  function EntryOf(q: Queue, a: Address): Entry
    requires a in q.heap
  {
    (q.heap[a].expiration, a)
  }

  function KeyOf(q: Queue, a: Address): Key
    requires a in q.heap
  {
    (a, q.heap[a].sequence)
  }

  // ----------------------------------------------------------- operations

  function InsertSorted(ts: seq<Entry>, e: Entry): seq<Entry> {
    if ts == [] || Less(e, ts[0]) then [e] + ts else [ts[0]] + InsertSorted(ts[1..], e)
  }

  function Erase(ts: seq<Entry>, e: Entry): seq<Entry> {
    if ts == [] then [] else if ts[0] == e then ts[1..] else [ts[0]] + Erase(ts[1..], e)
  }

  /** How many entries at the front are due at `now`: the position `lower_bound` finds. */
  function Due(ts: seq<Entry>, now: int): (k: nat)
    ensures k <= |ts|
  {
    if ts == [] || ts[0].0 > now then 0 else 1 + Due(ts[1..], now)
  }

  function EarliestChanged(q: Queue, a: Address): bool
    requires a in q.heap
  {
    q.timers == [] || q.heap[a].expiration < q.timers[0].0
  }

  function WithTimer(q: Queue, a: Address): Queue
    requires a in q.heap
  {
    q.(timers := InsertSorted(q.timers, EntryOf(q, a)), active := q.active + {KeyOf(q, a)})
  }

  function AfterCancel(q: Queue, id: Key): Queue {
    if id in q.active && id.0 in q.heap then
      q.(timers := Erase(q.timers, EntryOf(q, id.0)), active := q.active - {id}, heap := q.heap - {id.0})
    else if q.calling then q.(canceling := q.canceling + {id})
    else q
  }

  function Keys(q: Queue, es: seq<Entry>): set<Key> {
    set e | e in es && e.1 in q.heap :: KeyOf(q, e.1)
  }

  function WithoutDue(q: Queue, now: int): Queue {
    var k := Due(q.timers, now);
    q.(timers := q.timers[k..], active := q.active - Keys(q, q.timers[..k]))
  }

  /** One round of the loop of `reset`: restart a repeating timer that was not cancelled, or free it. */
  function ResetOne(q: Queue, a: Address, now: int): Queue {
    if a !in q.heap then q
    else if q.heap[a].interval > 0 && KeyOf(q, a) !in q.canceling then
      WithTimer(q.(heap := q.heap[a := q.heap[a].(expiration := now + q.heap[a].interval)]), a)
    else q.(heap := q.heap - {a})
  }

  function ResetAll(q: Queue, es: seq<Entry>, now: int): Queue {
    if es == [] then q else ResetOne(ResetAll(q, es[..|es| - 1], now), es[|es| - 1].1, now)
  }

  // ------------------------------------------------------------ invariant

  /** Both indexes hold the same timers, keyed by their current expirations. */
  ghost predicate Indexed(q: Queue) {
    && Sorted(q.timers)
    && (forall e :: e in q.timers ==> e.1 in q.heap && e == EntryOf(q, e.1))
    && (forall a :: a in q.heap ==> (EntryOf(q, a) in q.timers <==> KeyOf(q, a) in q.active))
    && (forall k :: k in q.active ==> k.0 in q.heap && k == KeyOf(q, k.0))
  }

  /** No two timers on the heap have the same sequence number. */
  ghost predicate Unique(q: Queue, created: int) {
    && (forall a :: a in q.heap ==> 0 < q.heap[a].sequence <= created)
    && (forall a, b :: a in q.heap && b in q.heap && a != b ==> q.heap[a].sequence != q.heap[b].sequence)
  }

  // --------------------------------------------------- sorted sequences

  lemma {:induction false} InsertSortedIs(ts: seq<Entry>, e: Entry)
    requires Sorted(ts) && e !in ts
    ensures Sorted(InsertSorted(ts, e))
    ensures forall x :: x in InsertSorted(ts, e) <==> x in ts || x == e
    ensures InsertSorted(ts, e)[0] == if ts == [] || Less(e, ts[0]) then e else ts[0]
  {
    if ts == [] || Less(e, ts[0]) {
      var r := [e] + ts;
      forall i, j | 0 <= i < j < |r|
        ensures Less(r[i], r[j])
      {
        if i == 0 && j > 1 {
          assert Less(ts[0], ts[j - 1]);
        }
      }
    } else {
      InsertSortedIs(ts[1..], e);
      var t := InsertSorted(ts[1..], e);
      var r := [ts[0]] + t;
      assert Less(ts[0], e);
      assert ts == [ts[0]] + ts[1..];
      forall j | 1 <= j < |r|
        ensures Less(r[0], r[j])
      {
        assert r[j] == t[j - 1] && t[j - 1] in t;
      }
    }
  }

  lemma {:induction false} EraseIs(ts: seq<Entry>, e: Entry)
    requires Sorted(ts)
    ensures Sorted(Erase(ts, e))
    ensures forall x :: x in Erase(ts, e) <==> x in ts && x != e
    ensures e in ts ==> |Erase(ts, e)| == |ts| - 1
  {
    if ts != [] {
      var h, r := ts[0], ts[1..];
      assert forall i :: 0 <= i < |r| ==> r[i] == ts[i + 1] && Less(h, r[i]);
      assert forall x :: x in ts <==> x == h || x in r;
      if h != e {
        EraseIs(r, e);
        ConsSorted(h, Erase(r, e));
      }
    }
  }

  lemma ConsSorted(h: Entry, t: seq<Entry>)
    requires Sorted(t) && forall x :: x in t ==> Less(h, x)
    ensures Sorted([h] + t)
  {
    var r := [h] + t;
    forall i, j | 0 <= i < j < |r|
      ensures Less(r[i], r[j])
    {
      assert r[j] == t[j - 1] && t[j - 1] in t;
    }
  }

  lemma {:induction false} DueIs(ts: seq<Entry>, now: int)
    requires Sorted(ts)
    ensures forall i :: 0 <= i < |ts| ==> (i < Due(ts, now) <==> ts[i].0 <= now)
  {
    if ts != [] && ts[0].0 <= now {
      DueIs(ts[1..], now);
      forall i | 0 <= i < |ts|
        ensures i < Due(ts, now) <==> ts[i].0 <= now
      {
        if i > 0 {
          assert ts[i] == ts[1..][i - 1];
        }
      }
    }
  }

  // ------------------------------------------------- the indexes agree

  lemma {:induction false} InsertIndexed(q: Queue, a: Address)
    requires Indexed(q) && a in q.heap && KeyOf(q, a) !in q.active
    ensures Indexed(WithTimer(q, a))
  {
    assert EntryOf(q, a) !in q.timers;
    InsertSortedIs(q.timers, EntryOf(q, a));
    OneMoreIndexed(q, WithTimer(q, a), a);
  }

  lemma {:induction false} OneMoreIndexed(q: Queue, q': Queue, a: Address)
    requires Indexed(q) && a in q.heap && q'.heap == q.heap && Sorted(q'.timers)
    requires forall x :: x in q'.timers <==> x in q.timers || x == EntryOf(q, a)
    requires forall k :: k in q'.active <==> k in q.active || k == KeyOf(q, a)
    ensures Indexed(q')
  {
    hide Sorted;
  }

  lemma {:induction false} InsertEarliest(q: Queue, a: Address)
    requires Indexed(q) && a in q.heap && KeyOf(q, a) !in q.active
    ensures WithTimer(q, a).timers != []
    ensures WithTimer(q, a).timers[0].0
         == if EarliestChanged(q, a) then q.heap[a].expiration else q.timers[0].0
  {
    assert EntryOf(q, a) !in q.timers;
    InsertSortedIs(q.timers, EntryOf(q, a));
  }

  lemma {:induction false} CancelIndexed(q: Queue, id: Key)
    requires Indexed(q)
    ensures Indexed(AfterCancel(q, id))
    ensures id in q.active ==> |AfterCancel(q, id).timers| == |q.timers| - 1
  {
    if id in q.active {
      EraseIs(q.timers, EntryOf(q, id.0));
    }
  }

  lemma {:induction false} GetExpiredIndexed(q: Queue, now: int)
    requires Indexed(q)
    ensures Indexed(WithoutDue(q, now))
    ensures forall e :: e in q.timers ==> (e in q.timers[..Due(q.timers, now)] <==> e.0 <= now)
    ensures forall e :: e in q.timers ==> (e in WithoutDue(q, now).timers <==> e.0 > now)
    ensures forall a :: a in q.heap ==>
              (KeyOf(q, a) in WithoutDue(q, now).active <==> KeyOf(q, a) in q.active && q.heap[a].expiration > now)
  {
    hide Sorted;
    var k := Due(q.timers, now);
    DueSplit(q.timers, now);
    ExpiredKeys(q, q.timers[..k], now);
    var q' := WithoutDue(q, now);
    forall a | a in q'.heap
      ensures EntryOf(q', a) in q'.timers <==> KeyOf(q', a) in q'.active
    {
      assert EntryOf(q', a) == EntryOf(q, a) && KeyOf(q', a) == KeyOf(q, a);
    }
  }

  lemma {:induction false} DueSplit(ts: seq<Entry>, now: int)
    requires Sorted(ts)
    ensures var k := Due(ts, now);
            && Sorted(ts[..k]) && Sorted(ts[k..])
            && (forall e :: e in ts ==> (e in ts[..k] <==> e.0 <= now) && (e in ts[k..] <==> e.0 > now))
            && (forall e :: e in ts[..k] || e in ts[k..] ==> e in ts)
  {
    var k := Due(ts, now);
    DueIs(ts, now);
    forall e | e in ts
      ensures (e in ts[..k] <==> e.0 <= now) && (e in ts[k..] <==> e.0 > now)
    {
      var i :| 0 <= i < |ts| && ts[i] == e;
      if i < k {
        assert ts[..k][i] == e;
      } else {
        assert ts[k..][i - k] == e;
      }
    }
  }

  lemma {:induction false} ExpiredKeys(q: Queue, ex: seq<Entry>, now: int)
    requires Indexed(q) && (forall e :: e in ex ==> e in q.timers)
    requires forall e :: e in q.timers ==> (e in ex <==> e.0 <= now)
    ensures forall a :: a in q.heap ==>
              (KeyOf(q, a) in q.active - Keys(q, ex) <==> KeyOf(q, a) in q.active && q.heap[a].expiration > now)
    ensures forall k :: k in q.active - Keys(q, ex) ==> k in q.active
  {
    forall a | a in q.heap && KeyOf(q, a) in q.active
      ensures KeyOf(q, a) in Keys(q, ex) <==> q.heap[a].expiration <= now
    {
      var e := EntryOf(q, a);
      assert e in q.timers;
      if e in ex {
        assert KeyOf(q, e.1) in Keys(q, ex);
      }
    }
  }

  // ---------------------------------------------------------------- reset

  /** `reset` restarts this expired timer rather than freeing it. */
  predicate Restarts(q: Queue, a: Address) {
    a in q.heap && q.heap[a].interval > 0 && KeyOf(q, a) !in q.canceling
  }

  /** An expired batch: live timers that are in no index, in order. */
  ghost predicate Detached(q: Queue, es: seq<Entry>) {
    && Sorted(es)
    && (forall e :: e in es ==> e.1 in q.heap && e == EntryOf(q, e.1) && KeyOf(q, e.1) !in q.active)
  }

  ghost predicate InBatch(es: seq<Entry>, a: Address) {
    exists i :: 0 <= i < |es| && es[i].1 == a
  }

  /** `t` is `q` after `reset` has dealt with the expired timers `es`. */
  ghost predicate AfterReset(q: Queue, es: seq<Entry>, now: int, t: Queue) {
    && t.canceling == q.canceling && t.calling == q.calling
    && (forall a :: a in t.heap <==> a in q.heap && (InBatch(es, a) ==> Restarts(q, a)))
    && (forall a :: a in t.heap ==>
         && a in q.heap
         && t.heap[a] == if InBatch(es, a) then q.heap[a].(expiration := now + q.heap[a].interval) else q.heap[a])
    && (forall a :: a in t.heap ==> (KeyOf(t, a) in t.active <==> KeyOf(t, a) in q.active || InBatch(es, a)))
  }

  lemma {:induction false} ResetOneIs(q: Queue, a: Address, now: int)
    requires Indexed(q) && a in q.heap && KeyOf(q, a) !in q.active
    ensures var t := ResetOne(q, a, now);
            && Indexed(t) && t.canceling == q.canceling && t.calling == q.calling
            && t.heap == (if Restarts(q, a) then q.heap[a := q.heap[a].(expiration := now + q.heap[a].interval)]
                          else q.heap - {a})
            && t.active == if Restarts(q, a) then q.active + {KeyOf(q, a)} else q.active
  {
    hide Indexed, InsertSorted;
    if Restarts(q, a) {
      var p := q.(heap := q.heap[a := q.heap[a].(expiration := now + q.heap[a].interval)]);
      ChangeDetached(q, p, a);
      InsertIndexed(p, a);
    } else {
      FreeDetached(q, a);
    }
  }

  lemma ChangeDetached(q: Queue, p: Queue, a: Address)
    requires Indexed(q) && a in q.heap && KeyOf(q, a) !in q.active
    requires p.timers == q.timers && p.active == q.active && a in p.heap && p.heap.Keys == q.heap.Keys
    requires p.heap[a].sequence == q.heap[a].sequence && forall b :: b in q.heap && b != a ==> p.heap[b] == q.heap[b]
    ensures Indexed(p) && KeyOf(p, a) !in p.active
  {
    hide Sorted;
    assert forall e :: e in q.timers ==> e.1 != a;
    assert forall k :: k in q.active ==> k.0 != a;
    assert forall b :: b in p.heap <==> b in q.heap.Keys;
  }

  lemma FreeDetached(q: Queue, a: Address)
    requires Indexed(q) && a in q.heap && KeyOf(q, a) !in q.active
    ensures Indexed(q.(heap := q.heap - {a}))
  {
    hide Sorted;
    var p := q.(heap := q.heap - {a});
    assert forall e :: e in q.timers ==> e.1 != a;
    assert forall k :: k in q.active ==> k.0 != a;
    assert forall b :: b in p.heap ==> EntryOf(p, b) == EntryOf(q, b) && KeyOf(p, b) == KeyOf(q, b);
  }

  lemma {:induction false} ResetUpTo(q: Queue, es: seq<Entry>, now: int, n: nat)
    requires Indexed(q) && Detached(q, es) && n <= |es|
    ensures Indexed(ResetAll(q, es[..n], now)) && AfterReset(q, es[..n], now, ResetAll(q, es[..n], now))
  {
    hide Indexed, AfterReset, InBatch;
    if n == 0 {
      NothingReset(q, es[..0], now);
    } else {
      var p, u, e := es[..n - 1], ResetAll(q, es[..n - 1], now), es[n - 1];
      ResetUpTo(q, es, now, n - 1);
      assert es[..n] == p + [e] && es[..n][..n - 1] == p && e in es;
      StillDetached(q, es, now, n - 1, u);
      ResetOneIs(u, e.1, now);
      InBatchSnoc(p, e);
      ResetStep(q, p, e, now, u, ResetOne(u, e.1, now));
    }
  }

  lemma NothingReset(q: Queue, es: seq<Entry>, now: int)
    requires es == []
    ensures AfterReset(q, es, now, q)
  {
    assert forall a :: !InBatch(es, a);
  }

  lemma {:induction false} StillDetached(q: Queue, es: seq<Entry>, now: int, n: nat, u: Queue)
    requires Detached(q, es) && n < |es| && AfterReset(q, es[..n], now, u)
    ensures !InBatch(es[..n], es[n].1) && es[n].1 in u.heap && es[n].1 in q.heap
    ensures u.heap[es[n].1] == q.heap[es[n].1] && KeyOf(u, es[n].1) !in u.active && KeyOf(q, es[n].1) !in q.active
  {
    OtherAddresses(q, es, n);
    assert es[n] in es;
  }

  lemma OtherAddresses(q: Queue, es: seq<Entry>, n: nat)
    requires Detached(q, es) && n < |es|
    ensures !InBatch(es[..n], es[n].1)
  {
    forall i | 0 <= i < n
      ensures es[..n][i].1 != es[n].1
    {
      assert es[i] in es && es[n] in es;
      assert Less(es[i], es[n]);
    }
  }

  lemma InBatchSnoc(es: seq<Entry>, e: Entry)
    ensures forall a :: InBatch(es + [e], a) <==> InBatch(es, a) || a == e.1
  {
    forall a
      ensures InBatch(es + [e], a) <==> InBatch(es, a) || a == e.1
    {
      var r := es + [e];
      if InBatch(es, a) {
        var i :| 0 <= i < |es| && es[i].1 == a;
        assert r[i].1 == a;
      }
      if a == e.1 {
        assert r[|es|].1 == a;
      }
    }
  }

  lemma {:induction false} ResetStep(q: Queue, es: seq<Entry>, e: Entry, now: int, u: Queue, t: Queue)
    requires AfterReset(q, es, now, u) && !InBatch(es, e.1) && e.1 in q.heap && KeyOf(q, e.1) !in q.active
    requires forall a :: InBatch(es + [e], a) <==> InBatch(es, a) || a == e.1
    requires e.1 in u.heap && t.canceling == u.canceling && t.calling == u.calling
    requires t.heap == (if Restarts(u, e.1) then u.heap[e.1 := u.heap[e.1].(expiration := now + u.heap[e.1].interval)]
                        else u.heap - {e.1})
    requires t.active == if Restarts(u, e.1) then u.active + {KeyOf(u, e.1)} else u.active
    ensures AfterReset(q, es + [e], now, t)
  {
    hide InBatch;
    assert Restarts(u, e.1) <==> Restarts(q, e.1);
    forall a | a in t.heap
      ensures KeyOf(t, a) in t.active <==> KeyOf(t, a) in q.active || InBatch(es + [e], a)
    {
      assert a in u.heap && KeyOf(t, a) == KeyOf(u, a);
    }
  }

  // ----------------------------------------------------------- the timerfd

  const MICROSECONDS_PER_SECOND := 1000 * 1000

  /** `howMuchTimeFromNow`: seconds and nanoseconds until `when`, at least 100 microseconds. */
  function HowMuchTimeFromNow(when: int, now: int): (ts: (int, int))
    ensures 0 <= ts.0 && 0 <= ts.1 < 1000 * MICROSECONDS_PER_SECOND && ts.1 % 1000 == 0
    ensures Micros(ts) == if when - now > 100 then when - now else 100
  {
    var us := if when - now < 100 then 100 else when - now;
    var ts := (us / MICROSECONDS_PER_SECOND, us % MICROSECONDS_PER_SECOND * 1000);
    assert ts.1 / 1000 == us % MICROSECONDS_PER_SECOND;
    ts
  }

  function Micros(ts: (int, int)): int {
    ts.0 * MICROSECONDS_PER_SECOND + ts.1 / 1000
  }

  /** A one-shot alarm set at time `at`. */
  datatype Alarm = Alarm(deadline: int, at: int)

  /** `resetTimerfd` at time `now`. */
  function ResetTimerfd(when: int, now: int): Alarm {
    Alarm(now + Micros(HowMuchTimeFromNow(when, now)), now)
  }

  // ------------------------------------------------------------------ runs

  /** The expired timers of the current `handleRead`, of which `i` have been called. */
  datatype Batch = Batch(now: int, expired: seq<Entry>, i: nat)

  /**
    The queue in its loop.  `pending` are timers whose `addTimerInLoop` has not run yet; `issued` gives
    the address of each timer ever created, by sequence number.  `round` counts the batches, `ran`
    records each callback with its round, and `cancelled` the round in which a cancel reached a timer
    that had been added.
  */
  datatype System = System(
    q: Queue, created: int, pending: set<Address>, batch: Option<Batch>, clock: int, armed: Option<Alarm>,
    issued: map<int, Address>, round: int, ran: seq<(int, int)>, cancelled: map<int, int>)

  ghost predicate Init(s: System) {
    && s.q == Queue(map[], [], {}, {}, false) && s.created == 0 && s.pending == {} && s.batch.None?
    && s.armed.None? && s.issued == map[] && s.round == 0 && s.ran == [] && s.cancelled == map[]
  }

  datatype Event =
    | New(a: Address, when: int, interval: int)
    | Add(a: Address)
    | Cancel(id: Key)
    | Begin(now: int)
    | Call
    | Finish
    | Tick(clock: int)

  ghost predicate Enabled(s: System, e: Event) {
    match e
    case New(a, when, _) => a !in s.q.heap && when > 0
    case Add(a) => a in s.pending && a in s.q.heap
    case Cancel(_) => true
    case Begin(now) => s.batch.None? && now > 0
    case Call => s.batch.Some? && s.batch.value.i < |s.batch.value.expired|
                 && s.batch.value.expired[s.batch.value.i].1 in s.q.heap
    case Finish => s.batch.Some? && s.batch.value.i == |s.batch.value.expired|
    case Tick(c) => c >= s.clock
  }

  /** The id names a timer that has been added to the queue at some point. */
  ghost predicate WasAdded(s: System, id: Key) {
    id.1 in s.issued && s.issued[id.1] == id.0 && !(id.0 in s.pending && id.0 in s.q.heap && KeyOf(s.q, id.0) == id)
  }

  ghost function DoNew(s: System, a: Address, when: int, interval: int): System {
    s.(q := s.q.(heap := s.q.heap[a := Timer(s.created + 1, when, interval)]), created := s.created + 1,
       pending := s.pending + {a}, issued := s.issued[s.created + 1 := a])
  }

  /** `addTimerInLoop`. */
  ghost function DoAdd(s: System, a: Address): System
    requires a in s.q.heap
  {
    s.(q := WithTimer(s.q, a), pending := s.pending - {a},
       armed := if EarliestChanged(s.q, a) then Some(ResetTimerfd(s.q.heap[a].expiration, s.clock)) else s.armed)
  }

  ghost function DoCancel(s: System, id: Key): System {
    s.(q := AfterCancel(s.q, id),
       cancelled := if WasAdded(s, id) && id.1 !in s.cancelled then s.cancelled[id.1 := s.round] else s.cancelled)
  }

  /**
    `handleRead` up to its loop.  Reading the timerfd consumes an alarm that has rung, and does nothing
    to one that another handler of the same poll has set since.
  */
  ghost function DoBegin(s: System, now: int): System {
    var k := Due(s.q.timers, now);
    s.(q := WithoutDue(s.q, now).(calling := true, canceling := {}),
       batch := Some(Batch(now, s.q.timers[..k], 0)), round := s.round + 1,
       armed := if s.armed.Some? && s.armed.value.deadline <= s.clock then None else s.armed)
  }

  /** One callback; what it does itself are further events before the next one. */
  ghost function DoCall(s: System): System
    requires Enabled(s, Call)
  {
    var b := s.batch.value;
    s.(batch := Some(b.(i := b.i + 1)), ran := s.ran + [(s.q.heap[b.expired[b.i].1].sequence, s.round)])
  }

  /** The end of `handleRead`: `reset` and re-arming. */
  ghost function DoFinish(s: System): System
    requires s.batch.Some?
  {
    var q := ResetAll(s.q.(calling := false), s.batch.value.expired, s.batch.value.now);
    s.(q := q, batch := None,
       armed := if q.timers != [] && q.timers[0].0 > 0 then Some(ResetTimerfd(q.timers[0].0, s.clock)) else s.armed)
  }

  ghost function Step(s: System, e: Event): System
    requires Enabled(s, e)
  {
    match e
    case New(a, when, interval) => DoNew(s, a, when, interval)
    case Add(a) => DoAdd(s, a)
    case Cancel(id) => DoCancel(s, id)
    case Begin(now) => DoBegin(s, now)
    case Call => DoCall(s)
    case Finish => DoFinish(s)
    case Tick(c) => s.(clock := c)
  }

  ghost predicate Run(tr: seq<System>, es: seq<Event>) {
    && |tr| == |es| + 1 && Init(tr[0])
    && (forall i {:trigger es[i]} :: 0 <= i < |es| ==> Enabled(tr[i], es[i]) && tr[i + 1] == Step(tr[i], es[i]))
  }

  // ------------------------------------------------------------ invariants

  ghost predicate Issued(s: System) {
    && s.created >= 0 && Unique(s.q, s.created)
    && (forall a :: a in s.q.heap ==> s.q.heap[a].sequence in s.issued && s.issued[s.q.heap[a].sequence] == a)
    && (forall n :: n in s.issued ==> n <= s.created)
  }

  ghost function Expired(s: System): seq<Entry> {
    if s.batch.Some? then s.batch.value.expired else []
  }

  /** Timers not added yet and expired timers are live and in no index, and none is both. */
  ghost predicate Apart(s: System) {
    && (s.q.calling <==> s.batch.Some?)
    && (forall a :: a in s.pending ==> a in s.q.heap && KeyOf(s.q, a) !in s.q.active && !InBatch(Expired(s), a))
    && Detached(s.q, Expired(s))
    && (s.batch.Some? ==> s.batch.value.i <= |s.batch.value.expired|)
  }

  ghost predicate Somewhere(s: System) {
    forall a :: a in s.q.heap ==> KeyOf(s.q, a) in s.q.active || a in s.pending || InBatch(Expired(s), a)
  }

  /** Every timer on the heap is in the queue, or not added yet, or in the current batch, and only there. */
  ghost predicate Placed(s: System) {
    Indexed(s.q) && Issued(s) && Apart(s) && Somewhere(s)
  }

  /** A cancelled timer is dead, or is in the current batch and marked for `reset` to free. */
  ghost predicate CancelsHold(s: System) {
    && (forall n :: n in s.cancelled ==> s.cancelled[n] <= s.round && n <= s.created)
    && (forall a :: a in s.q.heap && s.q.heap[a].sequence in s.cancelled ==>
         && KeyOf(s.q, a) !in s.q.active && a !in s.pending && KeyOf(s.q, a) in s.q.canceling
         && s.cancelled[s.q.heap[a].sequence] == s.round)
    && (forall i :: 0 <= i < |s.ran| && s.ran[i].0 in s.cancelled ==> s.ran[i].1 <= s.cancelled[s.ran[i].0])
    && (forall i :: 0 <= i < |s.ran| ==> s.ran[i].1 <= s.round)
  }

  ghost predicate Positive(s: System) {
    && (forall a :: a in s.q.heap ==> s.q.heap[a].expiration > 0)
    && (s.batch.Some? ==> s.batch.value.now > 0)
  }

  /** The alarm is set with a positive delay and rings no later than `earliest`, up to the 100 microsecond floor. */
  ghost predicate Covers(armed: Option<Alarm>, earliest: int) {
    && armed.Some? && armed.value.deadline >= armed.value.at + 100
    && (armed.value.deadline <= earliest || armed.value.deadline == armed.value.at + 100)
  }

  ghost predicate Alarmed(s: System) {
    s.batch.None? && s.q.timers != [] ==> Covers(s.armed, s.q.timers[0].0)
  }

  // ------------------------------------------------------- placement holds

  lemma {:induction false} NewPlaced(s: System, a: Address, when: int, interval: int)
    requires Placed(s) && a !in s.q.heap
    ensures Placed(DoNew(s, a, when, interval))
  {
    var s' := DoNew(s, a, when, interval);
    NewIndexed(s.q, s'.q, a);
    NewIssued(s, a, when, interval);
    NewApart(s, a, when, interval);
    NewSomewhere(s, a, when, interval);
    hide Indexed, Issued, Apart, Somewhere;
  }

  lemma NewIssued(s: System, a: Address, when: int, interval: int)
    requires Issued(s) && a !in s.q.heap
    ensures Issued(DoNew(s, a, when, interval))
  {
  }

  lemma {:induction false} NewApart(s: System, a: Address, when: int, interval: int)
    requires Placed(s) && a !in s.q.heap
    ensures Apart(DoNew(s, a, when, interval))
  {
    var s' := DoNew(s, a, when, interval);
    var es := Expired(s);
    assert Expired(s') == es;
    assert forall b :: b in s.q.heap ==> s'.q.heap[b] == s.q.heap[b];
    assert KeyOf(s'.q, a) !in s'.q.active by {
      hide Sorted, Apart, Somewhere;
    }
    hide Sorted, Indexed, Issued, Somewhere;
    assert forall e :: e in es ==> e.1 != a;
    assert !InBatch(es, a);
    hide InBatch;
  }

  lemma NewSomewhere(s: System, a: Address, when: int, interval: int)
    requires Somewhere(s) && a !in s.q.heap
    ensures Somewhere(DoNew(s, a, when, interval))
  {
    hide InBatch;
    var s' := DoNew(s, a, when, interval);
    assert Expired(s') == Expired(s);
    forall b | b in s'.q.heap
      ensures KeyOf(s'.q, b) in s'.q.active || b in s'.pending || InBatch(Expired(s'), b)
    {
      assert b != a ==> b in s.q.heap && KeyOf(s'.q, b) == KeyOf(s.q, b);
    }
  }

  lemma {:induction false} NewIndexed(q: Queue, q': Queue, a: Address)
    requires Indexed(q) && a !in q.heap && a in q'.heap && q' == q.(heap := q.heap[a := q'.heap[a]])
    ensures Indexed(q') && KeyOf(q', a) !in q'.active
  {
    hide Sorted;
    assert forall e :: e in q.timers ==> e.1 != a;
    assert forall k :: k in q.active ==> k.0 != a;
  }

  lemma {:induction false} AddPlaced(s: System, a: Address)
    requires Placed(s) && a in s.pending
    ensures Placed(DoAdd(s, a))
  {
    InsertIndexed(s.q, a);
    AddApart(s, a);
    var s' := DoAdd(s, a);
    assert Issued(s');
  }

  lemma {:induction false} AddApart(s: System, a: Address)
    requires Placed(s) && a in s.pending
    ensures Apart(DoAdd(s, a)) && Somewhere(DoAdd(s, a))
  {
    hide Indexed, Sorted, InBatch, EarliestChanged, ResetTimerfd, InsertSorted;
    var s' := DoAdd(s, a);
    assert Expired(s') == Expired(s) && s'.q.heap == s.q.heap;
    NotInBatch(Expired(s), a);
    assert s'.q.active == s.q.active + {KeyOf(s.q, a)};
    assert forall b :: b in s.q.heap ==> KeyOf(s'.q, b) == KeyOf(s.q, b) && EntryOf(s'.q, b) == EntryOf(s.q, b);
    assert forall b :: b in s'.pending ==> b in s.pending && b != a;
  }

  lemma NotInBatch(es: seq<Entry>, a: Address)
    requires !InBatch(es, a)
    ensures forall e :: e in es ==> e.1 != a
  {
  }

  lemma {:induction false} CancelPlaced(s: System, id: Key)
    requires Placed(s)
    ensures Placed(DoCancel(s, id))
  {
    hide Indexed, Issued, Apart, Somewhere, AfterCancel;
    CancelIndexed(s.q, id);
    CancelFinds(s.q, id);
    CancelIssued(s, id);
    CancelApart(s, id, DoCancel(s, id));
    CancelSomewhere(s, id);
  }

  /** What is active is on the heap under its own sequence number. */
  lemma CancelFinds(q: Queue, id: Key)
    requires Indexed(q)
    ensures id in q.active ==> id.0 in q.heap && id == KeyOf(q, id.0)
  {
  }

  lemma CancelIssued(s: System, id: Key)
    requires Issued(s)
    ensures Issued(DoCancel(s, id))
  {
    hide Erase;
    var s' := DoCancel(s, id);
    assert forall b :: b in s'.q.heap ==> b in s.q.heap && s'.q.heap[b] == s.q.heap[b];
  }

  lemma CancelSomewhere(s: System, id: Key)
    requires Somewhere(s) && (id in s.q.active ==> id.0 in s.q.heap && id == KeyOf(s.q, id.0))
    ensures Somewhere(DoCancel(s, id))
  {
    hide Erase, InBatch;
    var s' := DoCancel(s, id);
    assert Expired(s') == Expired(s);
    forall a | a in s'.q.heap
      ensures KeyOf(s'.q, a) in s'.q.active || a in s'.pending || InBatch(Expired(s'), a)
    {
      assert a in s.q.heap && KeyOf(s'.q, a) == KeyOf(s.q, a);
    }
  }

  lemma CancelApart(s: System, id: Key, s': System)
    requires Apart(s) && s' == DoCancel(s, id) && (id in s.q.active ==> id.0 in s.q.heap && id == KeyOf(s.q, id.0))
    ensures Apart(s')
  {
    hide Sorted, InBatch, Erase;
    assert Expired(s') == Expired(s);
    assert id in s.q.active ==> forall e :: e in Expired(s) ==> e.1 != id.0;
  }

  lemma {:induction false} BeginPlaced(s: System, now: int)
    requires Placed(s) && s.batch.None?
    ensures Placed(DoBegin(s, now))
  {
    var s' := DoBegin(s, now);
    var es := Expired(s');
    BeginFacts(s.q, s'.q, es, now);
    hide Indexed, Sorted, Due, InBatch, WithoutDue, Detached;
    assert Issued(s');
    BeginApart(s, s', es);
    BeginSomewhere(s, s', es);
    hide Issued, Apart, Somewhere;
  }

  lemma {:induction false} BeginFacts(q: Queue, t: Queue, es: seq<Entry>, now: int)
    requires Indexed(q) && es == q.timers[..Due(q.timers, now)]
    requires t == WithoutDue(q, now).(calling := true, canceling := {})
    ensures Indexed(t) && t.heap == q.heap && t.active <= q.active && Detached(t, es)
    ensures forall e :: e in es ==> e.1 in q.heap && KeyOf(q, e.1) in q.active
    ensures forall a :: a in q.heap && KeyOf(q, a) in q.active && KeyOf(q, a) !in t.active ==> InBatch(es, a)
  {
    hide Sorted, Due, InBatch, Detached, WithoutDue, Indexed;
    ActiveAfter(q, t, now);
    DueEntries(q, now);
    BeginDetached(q, t, es, now);
    DueOnHeap(q, es);
  }

  lemma {:induction false} ActiveAfter(q: Queue, t: Queue, now: int)
    requires Indexed(q) && t == WithoutDue(q, now).(calling := true, canceling := {})
    ensures Indexed(t) && t.heap == q.heap && t.active <= q.active
    ensures forall a :: a in q.heap ==>
              (KeyOf(q, a) in t.active <==> KeyOf(q, a) in q.active && q.heap[a].expiration > now)
  {
    assert t.heap == q.heap && t.active <= q.active by {
      hide Indexed;
    }
    hide WithoutDue, Indexed;
    GetExpiredIndexed(q, now);
    FlagsDoNotMatter(WithoutDue(q, now), t);
  }

  lemma FlagsDoNotMatter(q: Queue, t: Queue)
    requires Indexed(q) && t == q.(calling := t.calling, canceling := t.canceling)
    ensures Indexed(t)
  {
    hide Sorted;
    assert forall a :: a in q.heap ==> KeyOf(t, a) == KeyOf(q, a) && EntryOf(t, a) == EntryOf(q, a);
  }

  lemma DueEntries(q: Queue, now: int)
    requires Indexed(q)
    ensures var es := q.timers[..Due(q.timers, now)];
            && Sorted(es) && (forall e :: e in es ==> e in q.timers)
            && (forall e :: e in q.timers ==> (e in es <==> e.0 <= now))
  {
    DueSplit(q.timers, now);
    hide Sorted, Due;
  }

  lemma DueOnHeap(q: Queue, es: seq<Entry>)
    requires Indexed(q) && forall e :: e in es ==> e in q.timers
    ensures forall e :: e in es ==> e.1 in q.heap
  {
    hide Sorted;
  }

  lemma {:induction false} BeginApart(s: System, s': System, es: seq<Entry>)
    requires Apart(s) && s.batch.None? && s'.batch.Some? && s'.batch.value.i == 0 && s'.batch.value.expired == es
    requires s'.q.heap == s.q.heap && s'.q.active <= s.q.active && s'.pending == s.pending && s'.q.calling
    requires Detached(s'.q, es) && forall e :: e in es ==> e.1 in s.q.heap && KeyOf(s.q, e.1) in s.q.active
    ensures Apart(s')
  {
    hide Detached, Sorted;
    forall a | a in s.pending
      ensures !InBatch(es, a)
    {
      forall i | 0 <= i < |es|
        ensures es[i].1 != a
      {
        assert es[i] in es;
      }
    }
    hide InBatch;
  }

  lemma BeginSomewhere(s: System, s': System, es: seq<Entry>)
    requires Somewhere(s) && s.batch.None? && Expired(s') == es
    requires s'.q.heap == s.q.heap && s'.pending == s.pending
    requires forall a :: a in s.q.heap && KeyOf(s.q, a) in s.q.active && KeyOf(s.q, a) !in s'.q.active ==>
               InBatch(es, a)
    ensures Somewhere(s')
  {
    forall a | a in s'.q.heap
      ensures KeyOf(s'.q, a) in s'.q.active || a in s'.pending || InBatch(es, a)
    {
      assert KeyOf(s'.q, a) == KeyOf(s.q, a);
      assert !InBatch(Expired(s), a);
    }
    hide InBatch;
  }

  lemma {:induction false} BeginDetached(q: Queue, t: Queue, es: seq<Entry>, now: int)
    requires Indexed(q) && t.heap == q.heap && Sorted(es)
    requires forall e :: e in es ==> e in q.timers
    requires forall e :: e in q.timers ==> (e in es <==> e.0 <= now)
    requires forall a :: a in q.heap ==>
               (KeyOf(q, a) in t.active <==> KeyOf(q, a) in q.active && q.heap[a].expiration > now)
    ensures Detached(t, es)
    ensures forall e :: e in es ==> KeyOf(q, e.1) in q.active
    ensures forall a :: a in q.heap && KeyOf(q, a) in q.active && KeyOf(q, a) !in t.active ==> InBatch(es, a)
  {
    forall e | e in es
      ensures e.1 in t.heap && e == EntryOf(t, e.1) && KeyOf(t, e.1) !in t.active && KeyOf(q, e.1) in q.active
    {
      assert e in q.timers;
    }
    forall a | a in q.heap && KeyOf(q, a) in q.active && KeyOf(q, a) !in t.active
      ensures InBatch(es, a)
    {
      var e := EntryOf(q, a);
      assert e in q.timers && e in es;
      var i :| 0 <= i < |es| && es[i] == e;
      assert es[i].1 == a;
    }
  }

  lemma {:induction false} FinishReset(s: System)
    requires Placed(s) && s.batch.Some?
    ensures Indexed(DoFinish(s).q)
    ensures AfterReset(s.q.(calling := false), s.batch.value.expired, s.batch.value.now, DoFinish(s).q)
  {
    var q, es, now := s.q.(calling := false), s.batch.value.expired, s.batch.value.now;
    assert Indexed(q) && Detached(q, es);
    ResetUpTo(q, es, now, |es|);
    assert es[..|es|] == es;
  }

  lemma {:induction false} FinishPlaced(s: System)
    requires Placed(s) && s.batch.Some?
    ensures Placed(DoFinish(s))
  {
    FinishReset(s);
    hide Indexed, InBatch, ResetAll, Sorted;
    var s' := DoFinish(s);
    assert forall a :: a in s'.q.heap ==> a in s.q.heap && KeyOf(s'.q, a) == KeyOf(s.q, a);
    assert Issued(s');
    assert Apart(s') by {
      NoBatch(s');
    }
    assert Somewhere(s');
  }

  lemma NoBatch(s: System)
    requires s.batch.None?
    ensures Detached(s.q, Expired(s)) && forall a :: !InBatch(Expired(s), a)
  {
  }

  lemma {:induction false} StepPlaced(s: System, e: Event)
    requires Placed(s) && Enabled(s, e)
    ensures Placed(Step(s, e))
  {
    match e {
      case New(a, when, interval) => NewPlaced(s, a, when, interval);
      case Add(a) => AddPlaced(s, a);
      case Cancel(id) => CancelPlaced(s, id);
      case Begin(now) => BeginPlaced(s, now);
      case Call => assert Expired(DoCall(s)) == Expired(s);
      case Finish => FinishPlaced(s);
      case Tick(c) => assert Expired(s.(clock := c)) == Expired(s);
    }
  }

  // --------------------------------------------------------- cancels hold

  lemma {:induction false} CancelCancels(s: System, id: Key)
    requires Placed(s) && CancelsHold(s)
    ensures CancelsHold(DoCancel(s, id))
  {
    hide Indexed, Sorted, InBatch, Erase, Detached;
    var s' := DoCancel(s, id);
    assert forall a :: a in s'.q.heap ==> a in s.q.heap && s'.q.heap[a] == s.q.heap[a];
    forall a | a in s'.q.heap && s'.q.heap[a].sequence in s'.cancelled
      ensures KeyOf(s'.q, a) !in s'.q.active && a !in s'.pending && KeyOf(s'.q, a) in s'.q.canceling
      ensures s'.cancelled[s'.q.heap[a].sequence] == s'.round
    {
      assert KeyOf(s'.q, a) == KeyOf(s.q, a);
      if s.q.heap[a].sequence !in s.cancelled {
        assert s.q.heap[a].sequence == id.1 && WasAdded(s, id) && id.0 == a && KeyOf(s.q, a) == id;
        if !s.q.calling {
          OutsideIsActive(s, a);
        }
      }
    }
  }

  /** Outside `handleRead` a timer that has been added and is live is active. */
  lemma OutsideIsActive(s: System, a: Address)
    requires Placed(s) && a in s.q.heap && a !in s.pending && !s.q.calling
    ensures KeyOf(s.q, a) in s.q.active
  {
    NoBatch(s);
  }

  lemma {:induction false} StepCancels(s: System, e: Event)
    requires Placed(s) && CancelsHold(s) && Enabled(s, e)
    ensures CancelsHold(Step(s, e))
  {
    match e {
      case New(a, when, interval) =>
        hide Indexed, Apart, Somewhere;
      case Add(a) =>
        hide Indexed, Apart, Somewhere, InsertSorted, EarliestChanged;
      case Cancel(id) => CancelCancels(s, id);
      case Begin(now) => BeginCancels(s, now);
      case Call => CallCancels(s);
      case Finish => FinishCancels(s);
      case Tick(_) =>
    }
  }

  lemma {:induction false} BeginCancels(s: System, now: int)
    requires Placed(s) && CancelsHold(s) && s.batch.None?
    ensures CancelsHold(DoBegin(s, now))
  {
    forall a | a in s.q.heap
      ensures s.q.heap[a].sequence !in s.cancelled
    {
      if s.q.heap[a].sequence in s.cancelled {
        OutsideIsActive(s, a);
      }
    }
    hide Placed, WithoutDue;
  }

  lemma {:induction false} CallCancels(s: System)
    requires CancelsHold(s) && Enabled(s, Call)
    ensures CancelsHold(DoCall(s))
  {
    var s' := DoCall(s);
    assert s'.q == s.q;
    forall i | 0 <= i < |s'.ran| && s'.ran[i].0 in s'.cancelled
      ensures s'.ran[i].1 <= s'.cancelled[s'.ran[i].0]
    {
      if i < |s.ran| {
        assert s'.ran[i] == s.ran[i];
      } else {
        var a := s.batch.value.expired[s.batch.value.i].1;
        assert s'.ran[i] == (s.q.heap[a].sequence, s.round);
      }
    }
  }

  lemma {:induction false} FinishCancels(s: System)
    requires Placed(s) && CancelsHold(s) && s.batch.Some?
    ensures CancelsHold(DoFinish(s))
  {
    FinishReset(s);
    var s' := DoFinish(s);
    forall a | a in s'.q.heap
      ensures s'.q.heap[a].sequence !in s.cancelled
    {
      assert a in s.q.heap && s'.q.heap[a].sequence == s.q.heap[a].sequence;
      assert KeyOf(s.q, a) in s.q.active || a in s.pending || InBatch(Expired(s), a);
    }
    hide Placed, ResetAll, AfterReset;
  }

  // ------------------------------------------------------------- the alarm

  lemma {:induction false} StepPositive(s: System, e: Event)
    requires Placed(s) && Positive(s) && Enabled(s, e)
    ensures Positive(Step(s, e))
  {
    if e.Finish? {
      FinishReset(s);
    }
    hide Indexed, Apart, Issued, Somewhere, InBatch;
  }

  lemma {:induction false} StepAlarmed(s: System, e: Event)
    requires Placed(s) && Positive(s) && Alarmed(s) && Enabled(s, e)
    ensures Alarmed(Step(s, e))
  {
    match e {
      case New(_, _, _) =>
      case Add(a) => InsertEarliest(s.q, a);
      case Cancel(id) => CancelEarliest(s.q, id);
      case Begin(_) =>
      case Call =>
      case Finish =>
        StepPlaced(s, e);
        StepPositive(s, e);
        FirstIsPositive(DoFinish(s));
      case Tick(_) =>
    }
  }

  lemma FirstIsPositive(s: System)
    requires Indexed(s.q) && Positive(s)
    ensures s.q.timers != [] ==> s.q.timers[0].0 > 0
  {
    if s.q.timers != [] {
      assert s.q.timers[0] in s.q.timers;
    }
  }

  lemma {:induction false} CancelEarliest(q: Queue, id: Key)
    requires Indexed(q)
    ensures var t := AfterCancel(q, id); t.timers != [] ==> q.timers != [] && q.timers[0].0 <= t.timers[0].0
  {
    var t := AfterCancel(q, id);
    if id in q.active {
      EraseIs(q.timers, EntryOf(q, id.0));
      if t.timers != [] {
        assert t.timers[0] in t.timers;
        assert t.timers[0] in q.timers;
        var i :| 0 <= i < |q.timers| && q.timers[i] == t.timers[0];
        assert i > 0 ==> Less(q.timers[0], q.timers[i]);
      }
    }
  }

  // ------------------------------------------------------------- the calls

  /** The callbacks that ran in a round, in order. */
  ghost function RanIn(ran: seq<(int, int)>, round: int): seq<int> {
    if ran == [] then []
    else
      var x := ran[|ran| - 1];
      RanIn(ran[..|ran| - 1], round) + if x.1 == round then [x.0] else []
  }

  /** The sequence numbers of timers on the heap. */
  ghost function Numbers(q: Queue, es: seq<Entry>): seq<int>
    requires forall e :: e in es ==> e.1 in q.heap
  {
    seq(|es|, i requires 0 <= i < |es| =>
      assert es[i] in es;
      q.heap[es[i].1].sequence)
  }

  /** In the current round, the expired timers up to `i` have been called, in order, and nothing else. */
  ghost predicate Called(s: System)
    requires Apart(s)
  {
    s.batch.Some? ==>
      RanIn(s.ran, s.round) == Numbers(s.q, s.batch.value.expired[..s.batch.value.i])
  }

  lemma RanMore(ran: seq<(int, int)>, x: (int, int), round: int)
    ensures RanIn(ran + [x], round) == RanIn(ran, round) + if x.1 == round then [x.0] else []
  {
    assert (ran + [x])[..|ran|] == ran;
  }

  lemma {:induction false} NoneRan(ran: seq<(int, int)>, round: int)
    requires forall i :: 0 <= i < |ran| ==> ran[i].1 != round
    ensures RanIn(ran, round) == []
  {
    if ran != [] {
      NoneRan(ran[..|ran| - 1], round);
    }
  }

  lemma ApartOf(s: System)
    requires Placed(s)
    ensures Apart(s)
  {
  }

  /** The expired timers stay what they are until `reset`. */
  lemma {:induction false} BatchStays(s: System, e: Event)
    requires Placed(s) && Enabled(s, e) && s.batch.Some? && !e.Finish?
    ensures Step(s, e).batch.Some? && Step(s, e).round == s.round
    ensures Step(s, e).batch.value == s.batch.value.(i := Step(s, e).batch.value.i)
    ensures forall x :: x in s.batch.value.expired ==>
              && x.1 in s.q.heap && x.1 in Step(s, e).q.heap && Step(s, e).q.heap[x.1] == s.q.heap[x.1]
              && (KeyOf(s.q, x.1) in Step(s, e).q.canceling <==>
                   KeyOf(s.q, x.1) in s.q.canceling || e == Cancel(KeyOf(s.q, x.1)))
  {
    hide Sorted, InBatch, InsertSorted, Erase, EarliestChanged;
  }

  lemma {:induction false} StepCalled(s: System, e: Event)
    requires Placed(s) && CancelsHold(s) && Apart(s) && Called(s) && Enabled(s, e) && Apart(Step(s, e))
    ensures Called(Step(s, e))
  {
    if e.Begin? {
      BeginCalled(s, e.now);
    } else if s.batch.Some? && !e.Finish? {
      BatchStays(s, e);
      if e.Call? {
        CallCalled(s);
      } else {
        SameNumbers(s.q, Step(s, e).q, s.batch.value.expired, s.batch.value.i);
        hide Placed, CancelsHold, RanIn, Numbers;
      }
    }
  }

  lemma BeginCalled(s: System, now: int)
    requires CancelsHold(s) && Apart(DoBegin(s, now))
    ensures Called(DoBegin(s, now))
  {
    var s' := DoBegin(s, now);
    NoneRan(s.ran, s'.round);
    hide CancelsHold, RanIn, Apart, WithoutDue;
    assert s'.batch.value.expired[..0] == [];
  }

  lemma SameNumbers(q: Queue, q': Queue, es: seq<Entry>, n: nat)
    requires n <= |es| && forall x :: x in es ==> x.1 in q.heap && x.1 in q'.heap && q'.heap[x.1] == q.heap[x.1]
    ensures Numbers(q', es[..n]) == Numbers(q, es[..n])
  {
    assert forall j :: 0 <= j < n ==> es[j] in es;
  }

  lemma CallCalled(s: System)
    requires Apart(s) && Called(s) && Enabled(s, Call) && Apart(DoCall(s))
    ensures Called(DoCall(s))
  {
    var x, i := s.batch.value.expired, s.batch.value.i;
    RanMore(s.ran, (s.q.heap[x[i].1].sequence, s.round), s.round);
    assert x[..i + 1] == x[..i] + [x[i]] && x[i] in x;
    hide Apart, RanIn;
    assert Numbers(s.q, x[..i + 1]) == Numbers(s.q, x[..i]) + [s.q.heap[x[i].1].sequence];
  }

  // --------------------------------------------------------------- results

  lemma {:induction false} RunHolds(tr: seq<System>, es: seq<Event>, n: nat)
    requires Run(tr, es) && n <= |es|
    ensures Placed(tr[n]) && CancelsHold(tr[n]) && Positive(tr[n]) && Alarmed(tr[n])
    ensures Apart(tr[n]) && Called(tr[n])
  {
    if n > 0 {
      RunHolds(tr, es, n - 1);
      var s, e := tr[n - 1], es[n - 1];
      assert Enabled(s, e) && tr[n - 1 + 1] == Step(s, e);
      hide Placed, CancelsHold, Positive, Alarmed, Step, Enabled, Called, Apart;
      StepPlaced(s, e);
      ApartOf(Step(s, e));
      StepCalled(s, e);
      StepCancels(s, e);
      StepPositive(s, e);
      StepAlarmed(s, e);
    } else {
      NoBatch(tr[0]);
    }
  }

  /** `timers_` and `activeTimers_` always hold the same timers, ordered and under their current expirations. */
  lemma {:induction false} IndexesAgree(tr: seq<System>, es: seq<Event>, n: nat)
    requires Run(tr, es) && n <= |es|
    ensures Sorted(tr[n].q.timers) && |tr[n].q.timers| == |tr[n].q.active|
    ensures forall a, exp :: (exp, a) in tr[n].q.timers <==>
              a in tr[n].q.heap && tr[n].q.heap[a].expiration == exp && KeyOf(tr[n].q, a) in tr[n].q.active
  {
    RunHolds(tr, es, n);
    var q := tr[n].q;
    hide Run, CancelsHold, Positive, Alarmed, Issued, Apart, Somewhere;
    SameSize(q, |q.timers|);
    assert q.timers[..|q.timers|] == q.timers;
    assert q.active == Keys(q, q.timers) by {
      AllKeys(q);
    }
    forall a, exp
      ensures (exp, a) in q.timers <==> a in q.heap && q.heap[a].expiration == exp && KeyOf(q, a) in q.active
    {
      if (exp, a) in q.timers {
        assert (exp, a) == EntryOf(q, a);
      }
      if a in q.heap && q.heap[a].expiration == exp && KeyOf(q, a) in q.active {
        assert EntryOf(q, a) == (exp, a);
      }
    }
  }

  lemma {:induction false} AllKeys(q: Queue)
    requires Indexed(q)
    ensures q.active == Keys(q, q.timers)
  {
    forall k | k in q.active
      ensures k in Keys(q, q.timers)
    {
      var e := EntryOf(q, k.0);
      assert e in q.timers && KeyOf(q, e.1) == k;
    }
    forall k | k in Keys(q, q.timers)
      ensures k in q.active
    {
      var e :| e in q.timers && e.1 in q.heap && k == KeyOf(q, e.1);
      assert e == EntryOf(q, e.1);
    }
  }

  lemma {:induction false} SameSize(q: Queue, n: nat)
    requires Indexed(q) && n <= |q.timers|
    ensures |Keys(q, q.timers[..n])| == n
  {
    if n == 0 {
      assert Keys(q, q.timers[..0]) == {};
    } else {
      var p, e := q.timers[..n - 1], q.timers[n - 1];
      hide Indexed, Keys;
      SameSize(q, n - 1);
      assert q.timers[..n] == p + [e];
      OtherTimers(q, n);
      KeysSnoc(q, p, e);
    }
  }

  lemma OtherTimers(q: Queue, n: nat)
    requires Indexed(q) && 0 < n <= |q.timers|
    ensures q.timers[n - 1].1 in q.heap && forall f :: f in q.timers[..n - 1] ==> f.1 != q.timers[n - 1].1
  {
    var p, e := q.timers[..n - 1], q.timers[n - 1];
    assert e in q.timers;
    forall f | f in p
      ensures f.1 != e.1
    {
      var i :| 0 <= i < n - 1 && p[i] == f;
      assert q.timers[i] in q.timers && Less(q.timers[i], e);
    }
  }

  lemma KeysSnoc(q: Queue, p: seq<Entry>, e: Entry)
    requires e.1 in q.heap && forall f :: f in p ==> f.1 != e.1
    ensures |Keys(q, p + [e])| == |Keys(q, p)| + 1
  {
    KeysOfOneMore(q, p, e);
    assert KeyOf(q, e.1) !in Keys(q, p);
  }

  /**
    `handleRead` takes out exactly the timers due at `now`, in order of expiration, and a timer it calls
    is still alive, whatever earlier callbacks have added or cancelled.
  */
  lemma {:induction false} CallsAreLive(tr: seq<System>, es: seq<Event>, n: nat)
    requires Run(tr, es) && n <= |es|
    ensures tr[n].batch.Some? ==>
              && Sorted(tr[n].batch.value.expired)
              && forall e :: e in tr[n].batch.value.expired ==> e.1 in tr[n].q.heap && e == EntryOf(tr[n].q, e.1)
    ensures n < |es| && es[n].Begin? ==>
              forall a :: a in tr[n].q.heap && KeyOf(tr[n].q, a) in tr[n].q.active ==>
                (EntryOf(tr[n].q, a) in tr[n + 1].batch.value.expired <==> tr[n].q.heap[a].expiration <= es[n].now)
  {
    RunHolds(tr, es, n);
    if n < |es| && es[n].Begin? {
      var q := tr[n].q;
      DueSplit(q.timers, es[n].now);
    }
  }

  /** The round that event `b` begins is still going on before event `n`. */
  ghost predicate During(tr: seq<System>, es: seq<Event>, b: nat, n: nat) {
    && b < n < |tr| && |tr| == |es| + 1 && es[b].Begin? && tr[n].batch.Some? && tr[n].round == tr[b].round + 1
    && tr[n].batch.value.now == es[b].now
    && tr[n].batch.value.expired == tr[b].q.timers[..Due(tr[b].q.timers, es[b].now)]
  }

  /** The expired timers are as they were; those that a cancel has named since are marked, and no others. */
  ghost predicate Marked(tr: seq<System>, es: seq<Event>, b: nat, n: nat)
    requires During(tr, es, b, n)
  {
    forall x :: x in tr[n].batch.value.expired ==>
      && x.1 in tr[b].q.heap && x.1 in tr[n].q.heap && tr[n].q.heap[x.1] == tr[b].q.heap[x.1]
      && (KeyOf(tr[b].q, x.1) in tr[n].q.canceling <==> Named(es, b, n, KeyOf(tr[b].q, x.1)))
  }

  /** A cancel of `k` runs between events `b` and `n`. */
  ghost predicate Named(es: seq<Event>, b: nat, n: nat, k: Key)
    requires n <= |es|
  {
    exists j :: b < j < n && es[j] == Cancel(k)
  }

  lemma NamedMore(es: seq<Event>, b: nat, n: nat, k: Key)
    requires b < n < |es|
    ensures Named(es, b, n + 1, k) <==> Named(es, b, n, k) || es[n] == Cancel(k)
  {
  }

  lemma {:induction false} RoundGoesOn(tr: seq<System>, es: seq<Event>, b: nat, n: nat)
    requires Run(tr, es) && b < n <= |es| && es[b].Begin?
    ensures tr[n].round > tr[b].round
    ensures tr[n].round == tr[b].round + 1 && tr[n].batch.Some? ==> During(tr, es, b, n) && Marked(tr, es, b, n)
  {
    hide Placed, CancelsHold, Positive, Alarmed, Called, Apart, Step, Enabled, During, Marked;
    var s, e := tr[n - 1], es[n - 1];
    assert Enabled(s, e) && tr[n - 1 + 1] == Step(s, e);
    RunHolds(tr, es, n - 1);
    RoundOf(s, e);
    if n == b + 1 {
      RoundBegins(tr, es, b);
    } else {
      RoundGoesOn(tr, es, b, n - 1);
      if tr[n].round == tr[b].round + 1 && tr[n].batch.Some? {
        BatchStays(s, e);
        RoundStep(tr, es, b, n - 1);
      }
    }
  }

  /** A round begins with `Begin` and nothing else, and while it lasts the batch is there. */
  lemma RoundOf(s: System, e: Event)
    requires Enabled(s, e)
    ensures Step(s, e).round == if e.Begin? then s.round + 1 else s.round
    ensures Step(s, e).batch.Some? && !e.Begin? ==> s.batch.Some? && !e.Finish?
  {
    hide ResetAll, WithoutDue, AfterCancel, WithTimer;
  }

  lemma RoundBegins(tr: seq<System>, es: seq<Event>, b: nat)
    requires b < |es| && |tr| == |es| + 1 && Placed(tr[b]) && Enabled(tr[b], es[b]) && tr[b + 1] == Step(tr[b], es[b])
    requires es[b].Begin?
    ensures During(tr, es, b, b + 1) && Marked(tr, es, b, b + 1)
  {
    var s, now := tr[b], es[b].now;
    DueEntries(s.q, now);
    DueOnHeap(s.q, s.q.timers[..Due(s.q.timers, now)]);
    hide Placed, Due, Keys;
  }

  lemma RoundStep(tr: seq<System>, es: seq<Event>, b: nat, n: nat)
    requires During(tr, es, b, n) && Marked(tr, es, b, n) && n < |es|
    requires tr[n + 1].batch.Some? && tr[n + 1].round == tr[n].round
    requires tr[n + 1].batch.value == tr[n].batch.value.(i := tr[n + 1].batch.value.i)
    requires forall x :: x in tr[n].batch.value.expired ==>
               && x.1 in tr[n].q.heap && x.1 in tr[n + 1].q.heap && tr[n + 1].q.heap[x.1] == tr[n].q.heap[x.1]
               && (KeyOf(tr[n].q, x.1) in tr[n + 1].q.canceling <==>
                    KeyOf(tr[n].q, x.1) in tr[n].q.canceling || es[n] == Cancel(KeyOf(tr[n].q, x.1)))
    ensures During(tr, es, b, n + 1) && Marked(tr, es, b, n + 1)
  {
    hide Due, Named;
    forall x | x in tr[n].batch.value.expired
      ensures x.1 in tr[b].q.heap && x.1 in tr[n + 1].q.heap && tr[n + 1].q.heap[x.1] == tr[b].q.heap[x.1]
      ensures KeyOf(tr[b].q, x.1) in tr[n + 1].q.canceling <==> Named(es, b, n + 1, KeyOf(tr[b].q, x.1))
    {
      NamedMore(es, b, n, KeyOf(tr[b].q, x.1));
    }
  }

  /** A round that is over gets no further callbacks. */
  lemma {:induction false} RoundIsOver(tr: seq<System>, es: seq<Event>, f: nat, m: nat)
    requires Run(tr, es) && f < m <= |es| && es[f].Finish?
    ensures tr[m].round > tr[f].round || (tr[m].round == tr[f].round && tr[m].batch.None?)
    ensures RanIn(tr[m].ran, tr[f].round) == RanIn(tr[f].ran, tr[f].round)
  {
    var s, e := tr[m - 1], es[m - 1];
    assert Enabled(s, e) && tr[m - 1 + 1] == Step(s, e);
    if m > f + 1 {
      RoundIsOver(tr, es, f, m - 1);
      if e.Call? {
        RanMore(s.ran, tr[m].ran[|s.ran|], tr[f].round);
      }
    }
  }

  /** The timer at `a` is in the queue and due at `now`. */
  ghost predicate IsDue(q: Queue, a: Address, now: int) {
    a in q.heap && KeyOf(q, a) in q.active && q.heap[a].expiration <= now
  }

  lemma {:induction false} DueAre(q: Queue, now: int)
    requires Indexed(q)
    ensures var es := q.timers[..Due(q.timers, now)];
            && Sorted(es) && (forall a :: InBatch(es, a) <==> IsDue(q, a, now))
            && (forall i :: 0 <= i < |es| ==> es[i].1 in q.heap && es[i] == EntryOf(q, es[i].1))
  {
    DueEntries(q, now);
    var es := q.timers[..Due(q.timers, now)];
    hide Sorted, Due;
    forall i | 0 <= i < |es|
      ensures es[i].1 in q.heap && es[i] == EntryOf(q, es[i].1)
    {
      assert es[i] in es;
    }
    forall a
      ensures InBatch(es, a) <==> IsDue(q, a, now)
    {
      if i :| 0 <= i < |es| && es[i].1 == a {
        assert es[i] in es && es[i] in q.timers;
      }
      if IsDue(q, a, now) {
        assert EntryOf(q, a) in q.timers && EntryOf(q, a) in es;
        var i :| 0 <= i < |es| && es[i] == EntryOf(q, a);
        assert es[i].1 == a;
      }
    }
  }

  /**
    Every timer in the queue and due when a round begins is called exactly once in that round, in order of
    expiration, and no other timer is, whatever the callbacks add or cancel.
  */
  lemma {:induction false} EachDueTimerOnce(tr: seq<System>, es: seq<Event>, b: nat, f: nat, m: nat)
    returns (due: seq<Address>)
    requires Run(tr, es) && b < f < |es| && es[b].Begin? && es[f].Finish? && tr[f].round == tr[b].round + 1
    requires f <= m <= |es|
    ensures forall a :: a in due <==> IsDue(tr[b].q, a, es[b].now)
    ensures forall i, j :: 0 <= i < j < |due| ==>
              && due[i] in tr[b].q.heap && due[j] in tr[b].q.heap
              && Less(EntryOf(tr[b].q, due[i]), EntryOf(tr[b].q, due[j]))
    ensures var calls := RanIn(tr[m].ran, tr[f].round);
            && |calls| == |due|
            && forall i :: 0 <= i < |due| ==> due[i] in tr[b].q.heap && calls[i] == tr[b].q.heap[due[i]].sequence
  {
    var x := tr[b].q.timers[..Due(tr[b].q.timers, es[b].now)];
    AllCalled(tr, es, b, f);
    RunHolds(tr, es, b);
    if f < m {
      RoundIsOver(tr, es, f, m);
    }
    DueAre(tr[b].q, es[b].now);
    due := seq(|x|, i requires 0 <= i < |x| => x[i].1);
    hide Run, Placed, CancelsHold, Positive, Alarmed, Called, Apart, IsDue, Due, InBatch;
    BatchAddresses(x, due);
  }

  /** When the round ends, all that was due has been called. */
  lemma {:induction false} AllCalled(tr: seq<System>, es: seq<Event>, b: nat, f: nat)
    requires Run(tr, es) && b < f < |es| && es[b].Begin? && es[f].Finish? && tr[f].round == tr[b].round + 1
    ensures var x := tr[b].q.timers[..Due(tr[b].q.timers, es[b].now)];
            (forall e :: e in x ==> e.1 in tr[b].q.heap) && RanIn(tr[f].ran, tr[f].round) == Numbers(tr[b].q, x)
  {
    hide Placed, CancelsHold, Positive, Alarmed, Apart, Due, Numbers, RanIn, Named;
    RunHolds(tr, es, f);
    assert Enabled(tr[f], es[f]) && tr[f].batch.Some?;
    hide Run;
    RoundGoesOn(tr, es, b, f);
    var x := tr[f].batch.value.expired;
    assert x[..|x|] == x;
    SameNumbers(tr[b].q, tr[f].q, x, |x|);
  }

  lemma BatchAddresses(es: seq<Entry>, due: seq<Address>)
    requires |due| == |es| && forall i :: 0 <= i < |es| ==> due[i] == es[i].1
    ensures forall a :: a in due <==> InBatch(es, a)
  {
  }

  /**
    At the end of its round a timer that was due is started again, `interval` after the time of the round, if
    and only if it repeats and no cancel has named it since the round began; otherwise it is freed.
    Timers outside the round stay as they are.
  */
  lemma {:induction false} RestartsIff(tr: seq<System>, es: seq<Event>, b: nat, f: nat, a: Address)
    requires Run(tr, es) && b < f < |es| && es[b].Begin? && es[f].Finish? && tr[f].round == tr[b].round + 1
    ensures IsDue(tr[b].q, a, es[b].now) ==>
              var t, k := tr[b].q.heap[a], KeyOf(tr[b].q, a);
              if t.interval > 0 && !Named(es, b, f, k) then
                a in tr[f + 1].q.heap && tr[f + 1].q.heap[a] == t.(expiration := es[b].now + t.interval)
                && k in tr[f + 1].q.active
              else a !in tr[f + 1].q.heap
    ensures !IsDue(tr[b].q, a, es[b].now) && a in tr[f].q.heap ==>
              && a in tr[f + 1].q.heap && tr[f + 1].q.heap[a] == tr[f].q.heap[a]
              && (KeyOf(tr[f].q, a) in tr[f + 1].q.active <==> KeyOf(tr[f].q, a) in tr[f].q.active)
  {
    hide Placed, CancelsHold, Positive, Alarmed, Due, Called, Apart, DoFinish, Sorted, Named, InBatch, AfterReset;
    assert Enabled(tr[f], es[f]) && tr[f + 1] == Step(tr[f], es[f]);
    RunHolds(tr, es, b);
    RunHolds(tr, es, f);
    hide Run;
    RoundGoesOn(tr, es, b, f);
    FinishReset(tr[f]);
    DueAre(tr[b].q, es[b].now) by {
      IndexedOf(tr[b]);
    }
    var s, k := tr[f], Named(es, b, f, (a, if a in tr[b].q.heap then tr[b].q.heap[a].sequence else 0));
    ResetOf(tr[b].q, s.q.(calling := false), tr[f + 1].q, s.batch.value.expired, es[b].now, a, k);
  }

  lemma IndexedOf(s: System)
    requires Placed(s)
    ensures Indexed(s.q)
  {
  }

  /** What `reset` does to one timer. */
  lemma {:induction false} ResetOf(p: Queue, q: Queue, q': Queue, es: seq<Entry>, now: int, a: Address, named: bool)
    requires AfterReset(q, es, now, q') && (InBatch(es, a) <==> IsDue(p, a, now))
    requires forall x :: x in es ==> x.1 in p.heap && x.1 in q.heap && q.heap[x.1] == p.heap[x.1]
    requires forall x :: x in es && x.1 == a ==> (KeyOf(p, a) in q.canceling <==> named)
    ensures IsDue(p, a, now) ==>
              var t, k := p.heap[a], KeyOf(p, a);
              if t.interval > 0 && !named then
                a in q'.heap && q'.heap[a] == t.(expiration := now + t.interval) && k in q'.active
              else a !in q'.heap
    ensures !IsDue(p, a, now) && a in q.heap ==>
              && a in q'.heap && q'.heap[a] == q.heap[a]
              && (KeyOf(q, a) in q'.active <==> KeyOf(q, a) in q.active)
  {
    if InBatch(es, a) {
      var i :| 0 <= i < |es| && es[i].1 == a;
      assert es[i] in es;
    }
    hide InBatch;
  }

  /**
    Once a cancel has reached a timer that had been added, its callback runs at most in the rest of the
    current batch: every callback of that timer belongs to a round no later than the cancel's.
  */
  lemma {:induction false} CancelIsFinal(tr: seq<System>, es: seq<Event>, n: nat, m: nat, id: Key, i: nat)
    requires Run(tr, es) && n < |es| && es[n] == Cancel(id) && WasAdded(tr[n], id)
    requires n < m <= |es| && i < |tr[m].ran| && tr[m].ran[i].0 == id.1
    ensures tr[m].ran[i].1 <= tr[n].round
  {
    RunHolds(tr, es, n);
    RunHolds(tr, es, m);
    assert tr[n + 1] == Step(tr[n], es[n]);
    CancelledStays(tr, es, n + 1, m, id.1);
  }

  lemma {:induction false} CancelledStays(tr: seq<System>, es: seq<Event>, n: nat, m: nat, sq: int)
    requires Run(tr, es) && n <= m <= |es| && sq in tr[n].cancelled
    ensures sq in tr[m].cancelled && tr[m].cancelled[sq] == tr[n].cancelled[sq]
  {
    if n < m {
      CancelledStays(tr, es, n, m - 1, sq);
      assert tr[m - 1 + 1] == Step(tr[m - 1], es[m - 1]);
    }
  }

  /** For any other timer the cancel does nothing: one that has not been added yet stays as it is. */
  lemma {:induction false} PendingIsNotCancelled(tr: seq<System>, es: seq<Event>, n: nat, id: Key)
    requires Run(tr, es) && n < |es| && es[n] == Cancel(id)
    requires id.0 in tr[n].pending && id.0 in tr[n].q.heap && KeyOf(tr[n].q, id.0) == id
    ensures id.0 in tr[n + 1].pending
    ensures tr[n + 1].q == tr[n].q.(canceling := tr[n + 1].q.canceling) && tr[n + 1].cancelled == tr[n].cancelled
  {
    RunHolds(tr, es, n);
    assert tr[n + 1] == Step(tr[n], es[n]);
  }

  /**
    No timer is freed twice: what `cancelInLoop` finds active is alive, and so is every expired timer
    when `reset` comes to it.
  */
  lemma {:induction false} FreedOnce(tr: seq<System>, es: seq<Event>, n: nat)
    requires Run(tr, es) && n <= |es|
    ensures forall id :: id in tr[n].q.active ==> id.0 in tr[n].q.heap
    ensures tr[n].batch.Some? ==>
              forall k :: 0 <= k < |tr[n].batch.value.expired| ==>
                tr[n].batch.value.expired[k].1
                in ResetAll(tr[n].q.(calling := false), tr[n].batch.value.expired[..k], tr[n].batch.value.now).heap
  {
    RunHolds(tr, es, n);
    if tr[n].batch.Some? {
      var q, b := tr[n].q.(calling := false), tr[n].batch.value;
      assert Indexed(q) && Detached(q, b.expired);
      forall k | 0 <= k < |b.expired|
        ensures b.expired[k].1 in ResetAll(q, b.expired[..k], b.now).heap
      {
        ResetUpTo(q, b.expired, b.now, k);
        StillDetached(q, b.expired, b.now, k, ResetAll(q, b.expired[..k], b.now));
      }
    }
  }

  /** A stale id, even one whose address has been given to another timer, cancels nothing else. */
  lemma {:induction false} StaleIdIsHarmless(tr: seq<System>, es: seq<Event>, n: nat, id: Key, a: Address)
    requires Run(tr, es) && n < |es| && es[n] == Cancel(id) && a in tr[n].q.heap && KeyOf(tr[n].q, a) != id
    ensures a in tr[n + 1].q.heap && tr[n + 1].q.heap[a] == tr[n].q.heap[a]
    ensures KeyOf(tr[n].q, a) in tr[n + 1].q.active <==> KeyOf(tr[n].q, a) in tr[n].q.active
    ensures KeyOf(tr[n].q, a) in tr[n + 1].q.canceling <==> KeyOf(tr[n].q, a) in tr[n].q.canceling
  {
    RunHolds(tr, es, n);
    assert tr[n + 1] == Step(tr[n], es[n]);
  }

  /**
    Outside `handleRead` a non-empty queue always has its alarm set, with a positive delay and for no
    later than the earliest expiration, up to the floor of 100 microseconds.
  */
  lemma {:induction false} AlwaysArmed(tr: seq<System>, es: seq<Event>, n: nat)
    requires Run(tr, es) && n <= |es| && tr[n].batch.None? && tr[n].q.timers != []
    ensures Covers(tr[n].armed, tr[n].q.timers[0].0)
  {
    RunHolds(tr, es, n);
  }

  /**
    An alarm is never set for any other time: its deadline is the expiration of the timer that was the
    earliest in the queue when it was set, or 100 microseconds after that moment if that is later.
  */
  lemma {:induction false} AlarmIsForATimer(tr: seq<System>, es: seq<Event>, n: nat) returns (j: nat)
    requires Run(tr, es) && n <= |es| && tr[n].armed.Some?
    ensures j <= n && IsSetFor(tr[n].armed, tr[j])
  {
    hide Placed, CancelsHold, Positive, Alarmed, Called, Apart, Step, Enabled, IsSetFor;
    var s, e := tr[n - 1], es[n - 1];
    assert Enabled(s, e) && tr[n - 1 + 1] == Step(s, e);
    RunHolds(tr, es, n - 1);
    AlarmStep(s, e);
    j := n;
    if tr[n].armed == s.armed {
      j := AlarmIsForATimer(tr, es, n - 1);
    }
  }

  ghost predicate IsSetFor(armed: Option<Alarm>, s: System) {
    && s.q.timers != [] && armed.Some? && armed.value.at == s.clock
    && armed.value.deadline == if s.q.timers[0].0 > s.clock + 100 then s.q.timers[0].0 else s.clock + 100
  }

  lemma {:induction false} AlarmStep(s: System, e: Event)
    requires Placed(s) && Enabled(s, e)
    ensures var s' := Step(s, e); s'.armed.None? || s'.armed == s.armed || IsSetFor(s'.armed, s')
  {
    hide Sorted, ResetAll, WithoutDue, AfterCancel;
    if e.Add? {
      InsertEarliest(s.q, e.a);
      hide WithTimer, EarliestChanged;
    }
  }

  /**
    The condition on `CancelIsFinal` is needed: a cancel that runs in the loop before the queued
    `addTimerInLoop` of its timer is forgotten, and the timer still fires later.
  */
  lemma CancelBeforeAddIsLost() returns (tr: seq<System>, es: seq<Event>)
    ensures Run(tr, es) && |es| == 6 && es[1] == Cancel((7, 1)) && !WasAdded(tr[1], (7, 1))
    ensures tr[|es|].ran == [(1, 1)] && tr[1].round == 0
  {
    var s0 := System(Queue(map[], [], {}, {}, false), 0, {}, None, 0, None, map[], 0, [], map[]);
    es := [New(7, 1000, 0), Cancel((7, 1)), Add(7), Tick(1000), Begin(1000), Call];
    var s1, s2, s3 := LostCancel(s0, es);
    var s4, s5, s6 := FiresAllTheSame(s3, es);
    hide Step, Enabled, WasAdded;
    tr := [s0, s1, s2, s3, s4, s5, s6];
  }

  /** The second half of that run. */
  lemma FiresAllTheSame(s3: System, es: seq<Event>) returns (s4: System, s5: System, s6: System)
    requires |es| >= 6 && es[3] == Tick(1000) && es[4] == Begin(1000) && es[5] == Call
    requires s3.q.timers == [(1000, 7)] && s3.q.heap == map[7 := Timer(1, 1000, 0)] && s3.batch.None? && s3.ran == []
    requires s3.clock == 0 && s3.round == 0
    ensures Enabled(s3, es[3]) && s4 == Step(s3, es[3]) && Enabled(s4, es[4]) && s5 == Step(s4, es[4])
    ensures Enabled(s5, es[5]) && s6 == Step(s5, es[5]) && s6.ran == [(1, 1)]
  {
    s4 := Step(s3, es[3]);
    s5 := Step(s4, es[4]);
    assert Due(s4.q.timers, 1000) == 1 && s5.batch.value.expired == [(1000, 7)];
    s6 := Step(s5, es[5]);
  }

  /** The first half of that run: the cancel finds nothing, and the timer is added all the same. */
  lemma LostCancel(s0: System, es: seq<Event>) returns (s1: System, s2: System, s3: System)
    requires s0 == System(Queue(map[], [], {}, {}, false), 0, {}, None, 0, None, map[], 0, [], map[])
    requires |es| >= 3 && es[0] == New(7, 1000, 0) && es[1] == Cancel((7, 1)) && es[2] == Add(7)
    ensures Enabled(s0, es[0]) && s1 == Step(s0, es[0]) && Enabled(s1, es[1]) && s2 == Step(s1, es[1])
    ensures Enabled(s2, es[2]) && s3 == Step(s2, es[2])
    ensures s3.q.timers == [(1000, 7)] && s3.q.heap == map[7 := Timer(1, 1000, 0)] && s3.batch.None? && s3.ran == []
    ensures s3.armed.Some? && s3.armed.value.deadline <= 1000 && s3.clock == 0 && s3.q.active == {(7, 1)}
    ensures s3.q.canceling == {}
    ensures !WasAdded(s1, (7, 1)) && s1.round == 0 && s3.round == 0
  {
    s1 := Step(s0, es[0]);
    s2 := Step(s1, es[1]);
    s3 := Step(s2, es[2]);
  }

  // -------------------------------------------------------------- the class

  /** The member functions of `TimerQueue`, with the source's asserts, compute the functions above. */
  class TimerQueue {
    var heap: map<Address, Timer>
    var timers: seq<Entry>
    var active: set<Key>
    var canceling: set<Key>
    var calling: bool
    var armed: Option<Alarm>

    function Value(): Queue
      reads this
    {
      Queue(heap, timers, active, canceling, calling)
    }

    method Insert(timer: Address) returns (earliestChanged: bool)
      requires Indexed(Value()) && timer in heap && KeyOf(Value(), timer) !in active
      modifies this`timers, this`active
      ensures Value() == WithTimer(old(Value()), timer) && Indexed(Value())
      ensures earliestChanged == EarliestChanged(old(Value()), timer)
    {
      hide Indexed, InsertSorted;
      InsertIndexed(Value(), timer);
      NotThereYet(Value(), timer);
      earliestChanged := false;
      var when := heap[timer].expiration;
      if timers == [] || when < timers[0].0 {
        earliestChanged := true;
      }
      assert (when, timer) !in timers;
      timers := InsertSorted(timers, (when, timer));
      assert (timer, heap[timer].sequence) !in active;
      active := active + {(timer, heap[timer].sequence)};
    }

    method AddTimerInLoop(timer: Address, now: int)
      requires Indexed(Value()) && timer in heap && KeyOf(Value(), timer) !in active
      modifies this`timers, this`active, this`armed
      ensures Value() == WithTimer(old(Value()), timer)
      ensures armed == if EarliestChanged(old(Value()), timer)
                       then Some(ResetTimerfd(heap[timer].expiration, now)) else old(armed)
    {
      hide Indexed, InsertSorted, EarliestChanged;
      var earliestChanged := Insert(timer);
      if earliestChanged {
        armed := Some(ResetTimerfd(heap[timer].expiration, now));
      }
    }

    method CancelInLoop(id: Key)
      requires Indexed(Value())
      modifies this`heap, this`timers, this`active, this`canceling
      ensures Value() == AfterCancel(old(Value()), id) && Indexed(Value())
    {
      hide Sorted, Erase;
      CancelIndexed(Value(), id);
      if id in active {
        assert (heap[id.0].expiration, id.0) in timers;
        timers := Erase(timers, (heap[id.0].expiration, id.0));
        heap := heap - {id.0};
        active := active - {id};
      } else if calling {
        canceling := canceling + {id};
      }
    }

    method GetExpired(now: int) returns (expired: seq<Entry>)
      requires Indexed(Value())
      modifies this`timers, this`active
      ensures expired == old(timers)[..Due(old(timers), now)]
      ensures Value() == WithoutDue(old(Value()), now) && Indexed(Value())
    {
      hide Indexed, Due, Keys;
      ghost var q := Value();
      GetExpiredIndexed(q, now);
      var end := Due(timers, now);
      expired := timers[..end];
      timers := timers[end..];
      NoKeys(q, expired[..0]);
      var i := 0;
      while i < |expired|
        invariant 0 <= i <= |expired| && heap == q.heap && timers == q.timers[end..]
        invariant active == q.active - Keys(q, expired[..i])
      {
        var e := expired[i];
        ExpiredIsActive(q, end, i);
        var key := (e.1, heap[e.1].sequence);
        assert key in active;
        active := active - {key};
        assert expired[..i + 1] == expired[..i] + [e];
        KeysOfOneMore(q, expired[..i], e);
        i := i + 1;
      }
      assert expired[..i] == expired;
    }

    method Reset(expired: seq<Entry>, now: int, clock: int)
      requires Indexed(Value()) && Detached(Value(), expired)
      modifies this`heap, this`timers, this`active, this`armed
      ensures Value() == ResetAll(old(Value()), expired, now) && Indexed(Value())
      ensures armed == if timers != [] && timers[0].0 > 0 then Some(ResetTimerfd(timers[0].0, clock)) else old(armed)
    {
      hide Indexed, Detached, AfterReset, InsertSorted, InBatch;
      ghost var q := Value();
      assert expired[..0] == [];
      var i := 0;
      while i < |expired|
        invariant 0 <= i <= |expired| && armed == old(armed)
        invariant Value() == ResetAll(q, expired[..i], now) && Indexed(Value())
      {
        var a := expired[i].1;
        ResetUpTo(q, expired, now, i);
        StillDetached(q, expired, now, i, Value());
        assert expired[..i + 1][..i] == expired[..i];
        ResetTimer(a, now);
        i := i + 1;
      }
      assert expired[..i] == expired;
      if timers != [] {
        EarliestEntry(Value());
        var nextExpire := heap[timers[0].1].expiration;
        if nextExpire > 0 {
          armed := Some(ResetTimerfd(nextExpire, clock));
        }
      }
    }

    /** The body of the loop of `reset`. */
    method ResetTimer(a: Address, now: int)
      requires Indexed(Value()) && a in heap && KeyOf(Value(), a) !in active
      modifies this`heap, this`timers, this`active
      ensures Value() == ResetOne(old(Value()), a, now) && Indexed(Value())
    {
      hide Indexed, InsertSorted;
      ghost var p := Value();
      ResetOneIs(p, a, now);
      if heap[a].interval > 0 && (a, heap[a].sequence) !in canceling {
        heap := heap[a := heap[a].(expiration := now + heap[a].interval)];
        ChangeDetached(p, Value(), a);
        var _ := Insert(a);
      } else {
        heap := heap - {a};
      }
    }
  }

  lemma NotThereYet(q: Queue, a: Address)
    requires Indexed(q) && a in q.heap && KeyOf(q, a) !in q.active
    ensures EntryOf(q, a) !in q.timers
  {
  }

  lemma NoKeys(q: Queue, es: seq<Entry>)
    requires es == []
    ensures Keys(q, es) == {}
  {
  }

  lemma KeysOfOneMore(q: Queue, es: seq<Entry>, e: Entry)
    requires e.1 in q.heap
    ensures Keys(q, es + [e]) == Keys(q, es) + {KeyOf(q, e.1)}
  {
    assert forall f :: f in es + [e] <==> f in es || f == e;
  }

  lemma EarliestEntry(q: Queue)
    requires Indexed(q) && q.timers != []
    ensures q.timers[0].1 in q.heap && q.heap[q.timers[0].1].expiration == q.timers[0].0
  {
    assert q.timers[0] in q.timers;
  }

  lemma ExpiredIsActive(q: Queue, end: nat, i: nat)
    requires Indexed(q) && i < end <= |q.timers|
    ensures q.timers[i].1 in q.heap
    ensures KeyOf(q, q.timers[i].1) in q.active - Keys(q, q.timers[..end][..i])
  {
    var e := q.timers[i];
    assert e in q.timers;
    var p := q.timers[..end][..i];
    forall f | f in p
      ensures f.1 != e.1
    {
      var j :| 0 <= j < i && p[j] == f;
      assert q.timers[j] in q.timers && Less(q.timers[j], e);
    }
  }
}
