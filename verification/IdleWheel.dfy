/**
  The idle-connection wheel of the echo server: a ring of buckets of shared entries, where the last
  reference to an entry shuts its connection down, against a clock that remembers last activity.
*/
module IdleWheel {

  type Conn = nat

  /**
    `buckets` are the shared entries, one per connection, oldest bucket first.  `open` are the connections
    not yet closed, and `log[t]` those that were shut down by tick `t`, counted from zero.
  */
  datatype Wheel = Wheel(buckets: seq<set<Conn>>, open: set<Conn>, log: seq<set<Conn>>)

  datatype Event = Connect(c: Conn) | Message(c: Conn) | Close(c: Conn) | Tick

  // ------------------------------------------------------------------ the wheel

  /** Some bucket refers to the entry of `c`. */
  predicate Referred(buckets: seq<set<Conn>>, c: Conn) {
    exists i :: 0 <= i < |buckets| && c in buckets[i]
  }

  function Inserted(buckets: seq<set<Conn>>, c: Conn): seq<set<Conn>>
    requires buckets != []
  {
    buckets[|buckets| - 1 := buckets[|buckets| - 1] + {c}]
  }

  /** The entries whose only references are in the oldest bucket. */
  function Dying(buckets: seq<set<Conn>>): set<Conn>
    requires buckets != []
  {
    set c | c in buckets[0] && !Referred(buckets[1..], c)
  }

  function Turned(w: Wheel, e: Event): Wheel
    requires w.buckets != []
  {
    match e
    case Connect(c) => w.(buckets := Inserted(w.buckets, c), open := w.open + {c})
    case Message(c) => if Referred(w.buckets, c) then w.(buckets := Inserted(w.buckets, c)) else w
    case Close(c) => w.(open := w.open - {c})
    case Tick => w.(buckets := w.buckets[1..] + [{}], log := w.log + [Dying(w.buckets) * w.open])
  }

  // ------------------------------------------------------------------ the clock

  /** `now` counts ticks; `last` is the tick of the last activity and `closed` that of the closing. */
  datatype Clock = Clock(now: int, last: map<Conn, int>, closed: map<Conn, int>)

  /** A connection is up once, sends while it is open, and closes once. */
  predicate Legal(k: Clock, e: Event) {
    match e
    case Connect(c) => c !in k.last
    case Message(c) => c in k.last && c !in k.closed
    case Close(c) => c in k.last && c !in k.closed
    case Tick => true
  }

  /** Activity counts as long as fewer than `n` ticks have passed since the one before. */
  predicate Fresh(k: Clock, c: Conn, n: nat) {
    c in k.last && k.now - k.last[c] < n
  }

  function Told(k: Clock, e: Event, n: nat): Clock {
    match e
    case Connect(c) => k.(last := k.last[c := k.now])
    case Message(c) => if Fresh(k, c, n) then k.(last := k.last[c := k.now]) else k
    case Close(c) => k.(closed := k.closed[c := k.now])
    case Tick => k.(now := k.now + 1)
  }

  ghost predicate ClockOk(k: Clock) {
    && (forall c :: c in k.last ==> 0 <= k.last[c] <= k.now)
    && (forall c :: c in k.closed ==> c in k.last && k.closed[c] <= k.now)
    && k.now >= 0
  }

  // ------------------------------------------------------------- they always agree

  /** No bucket newer than the last activity refers to a connection. */
  ghost predicate NotAfter(w: Wheel, k: Clock) {
    forall i, c :: 0 <= i < |w.buckets| && c in w.buckets[i] ==>
      c in k.last && i <= |w.buckets| - 1 - (k.now - k.last[c])
  }

  /** The bucket of the last activity refers to it, as long as it is in the ring. */
  ghost predicate AtLast(w: Wheel, k: Clock)
    requires ClockOk(k)
  {
    forall c :: Fresh(k, c, |w.buckets|) ==> c in w.buckets[|w.buckets| - 1 - (k.now - k.last[c])]
  }

  ghost predicate OpenOk(w: Wheel, k: Clock) {
    forall c :: c in w.open <==> c in k.last && c !in k.closed
  }

  /** Tick `t` shut `c` down just if it was the `n`-th after its last activity, and `c` was open then. */
  ghost predicate ShutBy(k: Clock, n: nat, c: Conn, t: int) {
    c in k.last && k.last[c] + n == t + 1 && (c in k.closed ==> k.closed[c] > t)
  }

  ghost predicate LogOk(w: Wheel, k: Clock) {
    |w.log| == k.now && forall t, c :: 0 <= t < |w.log| ==> (c in w.log[t] <==> ShutBy(k, |w.buckets|, c, t))
  }

  ghost predicate Agrees(w: Wheel, k: Clock) {
    w.buckets != [] && ClockOk(k) && NotAfter(w, k) && AtLast(w, k) && OpenOk(w, k) && LogOk(w, k)
  }

  /** An entry is alive just if its connection was active within the last `n` ticks. */
  lemma AliveIffActive(w: Wheel, k: Clock, c: Conn)
    requires Agrees(w, k)
    ensures Referred(w.buckets, c) <==> Fresh(k, c, |w.buckets|)
  {
    if Fresh(k, c, |w.buckets|) {
      assert c in w.buckets[|w.buckets| - 1 - (k.now - k.last[c])];
    }
  }

  lemma {:induction false} ActivityOk(w: Wheel, k: Clock, c: Conn)
    requires Agrees(w, k) && (c !in k.last || (Fresh(k, c, |w.buckets|) && c !in k.closed))
    ensures var open := w.open + {c};
            Agrees(w.(buckets := Inserted(w.buckets, c), open := open), k.(last := k.last[c := k.now]))
  {
    var w1 := w.(buckets := Inserted(w.buckets, c), open := w.open + {c});
    var k1 := k.(last := k.last[c := k.now]);
    assert LogOk(w1, k1) by {
      forall t, d | 0 <= t < |w1.log|
        ensures d in w1.log[t] <==> ShutBy(k1, |w1.buckets|, d, t)
      {
        assert d in w.log[t] <==> ShutBy(k, |w.buckets|, d, t);
      }
    }
  }

  lemma {:induction false} CloseOk(w: Wheel, k: Clock, c: Conn)
    requires Agrees(w, k) && c in k.last && c !in k.closed
    ensures Agrees(w.(open := w.open - {c}), k.(closed := k.closed[c := k.now]))
  {
    var k1 := k.(closed := k.closed[c := k.now]);
    forall t, d | 0 <= t < |w.log|
      ensures d in w.log[t] <==> ShutBy(k1, |w.buckets|, d, t)
    {
      assert d in w.log[t] <==> ShutBy(k, |w.buckets|, d, t);
    }
  }

  /** What the oldest bucket alone holds is what was last active `n - 1` ticks ago. */
  lemma {:induction false} DyingIs(w: Wheel, k: Clock, c: Conn)
    requires Agrees(w, k)
    ensures c in Dying(w.buckets) <==> c in k.last && k.last[c] + |w.buckets| == k.now + 1
  {
    var n := |w.buckets|;
    var rest := w.buckets[1..];
    if c in k.last && k.last[c] + n == k.now + 1 {
      assert c in w.buckets[0];
      forall i | 0 <= i < |rest|
        ensures c !in rest[i]
      {
        assert rest[i] == w.buckets[i + 1];
      }
    }
    if c in w.buckets[0] {
      var i := n - 1 - (k.now - k.last[c]);
      if i > 0 {
        assert c in w.buckets[i] && rest[i - 1] == w.buckets[i];
        assert Referred(rest, c);
      }
    }
  }

  lemma {:induction false} TickOk(w: Wheel, k: Clock)
    requires Agrees(w, k)
    ensures Agrees(Turned(w, Tick), Told(k, Tick, |w.buckets|))
  {
    var w1, k1 := Turned(w, Tick), k.(now := k.now + 1);
    var n := |w.buckets|;
    forall i, c | 0 <= i < n && c in w1.buckets[i]
      ensures c in k1.last && i <= n - 1 - (k1.now - k1.last[c])
    {
      assert i < n - 1 && w1.buckets[i] == w.buckets[i + 1];
    }
    forall c | Fresh(k1, c, n)
      ensures c in w1.buckets[n - 1 - (k1.now - k1.last[c])]
    {
      var i := n - 1 - (k.now - k.last[c]);
      assert c in w.buckets[i] && w1.buckets[i - 1] == w.buckets[i];
    }
    LogGrows(w, k);
  }

  lemma {:induction false} LogGrows(w: Wheel, k: Clock)
    requires Agrees(w, k)
    ensures LogOk(Turned(w, Tick), k.(now := k.now + 1))
  {
    var w1, k1 := Turned(w, Tick), k.(now := k.now + 1);
    var n := |w.buckets|;
    hide NotAfter, AtLast, Dying;
    forall t, c | 0 <= t < |w1.log|
      ensures c in w1.log[t] <==> ShutBy(k1, n, c, t)
    {
      if t < |w.log| {
        assert c in w.log[t] <==> ShutBy(k, n, c, t);
      } else {
        DyingIs(w, k, c);
      }
    }
  }

  lemma {:induction false} EventOk(w: Wheel, k: Clock, e: Event)
    requires Agrees(w, k) && Legal(k, e)
    ensures Agrees(Turned(w, e), Told(k, e, |w.buckets|)) && |Turned(w, e).buckets| == |w.buckets|
  {
    match e {
      case Connect(c) => ActivityOk(w, k, c);
      case Message(c) =>
        AliveIffActive(w, k, c);
        if Fresh(k, c, |w.buckets|) {
          ActivityOk(w, k, c);
          assert w.open + {c} == w.open;
        }
      case Close(c) => CloseOk(w, k, c);
      case Tick => TickOk(w, k);
    }
  }

  // ---------------------------------------------------------------------- runs

  ghost function ClockAfter(es: seq<Event>, n: nat): Clock {
    if es == [] then Clock(0, map[], map[]) else Told(ClockAfter(es[..|es| - 1], n), es[|es| - 1], n)
  }

  ghost predicate LegalRun(es: seq<Event>, n: nat) {
    es == [] || (LegalRun(es[..|es| - 1], n) && Legal(ClockAfter(es[..|es| - 1], n), es[|es| - 1]))
  }

  ghost function WheelAfter(es: seq<Event>, n: nat): (w: Wheel)
    requires n >= 1
    ensures |w.buckets| == n
  {
    if es == [] then Wheel(seq(n, _ => {}), {}, []) else Turned(WheelAfter(es[..|es| - 1], n), es[|es| - 1])
  }

  lemma {:induction false} RunAgrees(es: seq<Event>, n: nat)
    requires n >= 1 && LegalRun(es, n)
    ensures Agrees(WheelAfter(es, n), ClockAfter(es, n))
  {
    if es != [] {
      RunAgrees(es[..|es| - 1], n);
      EventOk(WheelAfter(es[..|es| - 1], n), ClockAfter(es[..|es| - 1], n), es[|es| - 1]);
    }
  }

  /**
    In every run the wheel is the clock: an entry is alive just if its connection was active within the
    last `n` ticks, and a connection is shut down by the `n`-th tick after its last activity, if it was
    still open, and by no other.
  */
  lemma {:induction false} WheelIsClock(es: seq<Event>, n: nat, c: Conn, t: nat)
    requires n >= 1 && LegalRun(es, n)
    ensures var w, k := WheelAfter(es, n), ClockAfter(es, n);
            && (Referred(w.buckets, c) <==> Fresh(k, c, n))
            && |w.log| == k.now
            && (t < |w.log| ==> (c in w.log[t] <==> ShutBy(k, n, c, t)))
  {
    RunAgrees(es, n);
    AliveIffActive(WheelAfter(es, n), ClockAfter(es, n), c);
  }

  /** No connection is shut down twice. */
  lemma {:induction false} ShutDownOnce(es: seq<Event>, n: nat, c: Conn, t: nat, u: nat)
    requires n >= 1 && LegalRun(es, n)
    requires t < |WheelAfter(es, n).log| && u < |WheelAfter(es, n).log|
    requires c in WheelAfter(es, n).log[t] && c in WheelAfter(es, n).log[u]
    ensures t == u
  {
    WheelIsClock(es, n, c, t);
    WheelIsClock(es, n, c, u);
  }

  // ------------------------------------------------------------------- the class

  class EchoServer {
    var connectionBuckets: seq<set<Conn>>
    var open: set<Conn>
    var log: seq<set<Conn>>
    ghost var clock: Clock

    ghost function Value(): Wheel
      reads this
    {
      Wheel(connectionBuckets, open, log)
    }

    ghost predicate Valid()
      reads this
    {
      Agrees(Value(), clock)
    }

    constructor (idleSeconds: nat)
      requires idleSeconds >= 1
      ensures Valid() && |connectionBuckets| == idleSeconds && clock == Clock(0, map[], map[])
    {
      connectionBuckets := seq(idleSeconds, _ => {});
      open := {};
      log := [];
      clock := Clock(0, map[], map[]);
    }

    /** A connection came up, or went down. */
    method OnConnection(c: Conn, connected: bool)
      requires Valid() && Legal(clock, if connected then Connect(c) else Close(c))
      modifies this
      ensures Valid() && |connectionBuckets| == old(|connectionBuckets|)
      ensures clock == Told(old(clock), if connected then Connect(c) else Close(c), |connectionBuckets|)
      ensures Value() == Turned(old(Value()), if connected then Connect(c) else Close(c))
    {
      EventOk(Value(), clock, if connected then Connect(c) else Close(c));
      hide Agrees;
      if connected {
        clock := Told(clock, Connect(c), |connectionBuckets|);
        open := open + {c};
        var n := |connectionBuckets| - 1;
        connectionBuckets := connectionBuckets[n := connectionBuckets[n] + {c}];
      } else {
        clock := Told(clock, Close(c), |connectionBuckets|);
        open := open - {c};
      }
    }

    method OnMessage(c: Conn)
      requires Valid() && Legal(clock, Message(c))
      modifies this
      ensures Valid() && |connectionBuckets| == old(|connectionBuckets|)
      ensures clock == Told(old(clock), Message(c), |connectionBuckets|) && Value() == Turned(old(Value()), Message(c))
    {
      EventOk(Value(), clock, Message(c));
      hide Agrees;
      clock := Told(clock, Message(c), |connectionBuckets|);
      if Referred(connectionBuckets, c) {
        var n := |connectionBuckets| - 1;
        connectionBuckets := connectionBuckets[n := connectionBuckets[n] + {c}];
      }
    }

    /** Push an empty bucket; the oldest goes, and with it the last references to some entries. */
    method OnTimer()
      requires Valid()
      modifies this
      ensures Valid() && |connectionBuckets| == old(|connectionBuckets|)
      ensures clock == Told(old(clock), Tick, |connectionBuckets|) && Value() == Turned(old(Value()), Tick)
    {
      EventOk(Value(), clock, Tick);
      hide Agrees;
      clock := Told(clock, Tick, |connectionBuckets|);
      var oldest := connectionBuckets[0];
      connectionBuckets := connectionBuckets[1..] + [{}];
      var shut := {};
      var left := oldest;
      while left != {}
        invariant left <= oldest
        invariant shut == set c | c in oldest - left && !Referred(old(connectionBuckets)[1..], c) && c in open
      {
        var c :| c in left;
        left := left - {c};
        if !Referred(connectionBuckets[..|connectionBuckets| - 1], c) && c in open {
          shut := shut + {c};
        }
      }
      log := log + [shut];
      assert shut == Dying(old(connectionBuckets)) * open;
    }
  }
}
