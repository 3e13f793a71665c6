/**
  The item table under concurrency.  Every shard has its own lock and all share one version counter, so
  operations on different shards overlap: versions may become visible in another order than they were
  issued.  A thread takes one step at a time: it locks its shard, takes a number, writes and unlocks.
*/
module MemcacheThreads {

  import opened MemcacheStore

  type Thread = int
  type Shards = seq<map<Bytes, Item>>

  datatype Op = Store(item: Item, p: Policy) | Get(key: Bytes) | Delete(key: Bytes)

  datatype Answer = StoreAnswer(stored: bool, existed: bool) | GetAnswer(item: Option<Item>) | DeleteAnswer(found: bool)

  /** Where a thread stands in `storeItem`, `getItem` or `deleteItem`. */
  datatype Pc =
    | Outside
    | Entering(op: Op)               // has called, does not hold the lock of its shard yet
    | Locked(op: Op)                 // holds the lock, and has not decided anything
    | Numbered(item: Item, p: Policy, version: int)   // holds the lock and has taken a number, before the write

  /**
    `locks` gives the holder of each shard's lock.  `issued` remembers the item of every number taken.
    `table` is the one map that the shards stand for, and `done` the operations with their answers, in the
    order of their effect on it.  `aborted` tells that the process has gone down, and with it all threads.
  */
  datatype State = State(
    shards: Shards, locks: map<int, Thread>, counter: int, pcs: map<Thread, Pc>,
    issued: map<int, Item>, table: Table, done: seq<(Op, Answer)>, aborted: bool)

  function KeyOf(op: Op): Bytes {
    match op
    case Store(item, _) => item.key
    case Get(key) => key
    case Delete(key) => key
  }

  function ShardOf(hash: Bytes -> nat, key: Bytes): int {
    hash(key) % SHARDS
  }

  function Find(hash: Bytes -> nat, shards: Shards, key: Bytes): Option<Item>
    requires |shards| == SHARDS
  {
    var m := shards[ShardOf(hash, key)];
    if key in m then Some(m[key]) else None
  }

  // ------------------------------------------------------------------ the steps

  ghost predicate Call(s: State, t: Thread, op: Op, s': State) {
    && t in s.pcs && s.pcs[t].Outside? && (op.Store? ==> EndsWithCRLF(op.item.value))
    && s' == s.(pcs := s.pcs[t := Entering(op)])
  }

  ghost predicate Lock(hash: Bytes -> nat, s: State, t: Thread, s': State) {
    && t in s.pcs && s.pcs[t].Entering?
    && var i := ShardOf(hash, KeyOf(s.pcs[t].op));
       i !in s.locks && s' == s.(locks := s.locks[i := t], pcs := s.pcs[t := Locked(s.pcs[t].op)])
  }

  /** The policy refuses the item. */
  ghost predicate Refuse(hash: Bytes -> nat, s: State, t: Thread, s': State)
    requires |s.shards| == SHARDS
  {
    && t in s.pcs && s.pcs[t].Locked? && s.pcs[t].op.Store?
    && var op := s.pcs[t].op;
       var o := Find(hash, s.shards, op.item.key);
       && !Accepts(o, op.item, op.p)
       && s' == s.(locks := s.locks - {ShardOf(hash, op.item.key)}, pcs := s.pcs[t := Outside],
                   done := s.done + [(op, StoreAnswer(false, o.Some?))])
  }

  /** `g_cas.incrementAndGet()`: from here on the operation counts as done. */
  ghost predicate TakeNumber(hash: Bytes -> nat, s: State, t: Thread, s': State)
    requires |s.shards| == SHARDS
  {
    && t in s.pcs && s.pcs[t].Locked? && s.pcs[t].op.Store?
    && var op := s.pcs[t].op;
       var o := Find(hash, s.shards, op.item.key);
       && Accepts(o, op.item, op.p) && EndsWithCRLF(op.item.value) && (o.Some? ==> EndsWithCRLF(o.value.value))
       && !TooLong(o, op.item, op.p)
       && s' == s.(counter := s.counter + 1, pcs := s.pcs[t := Numbered(op.item, op.p, s.counter + 1)],
                   issued := s.issued[s.counter + 1 := NewItem(o, op.item, op.p, s.counter + 1)],
                   table := Effect(s.table, op), done := s.done + [(op, StoreAnswer(true, o.Some?))])
  }

  /** The joined item is too long for its constructor. */
  ghost predicate Abort(hash: Bytes -> nat, s: State, t: Thread, s': State)
    requires |s.shards| == SHARDS
  {
    && t in s.pcs && s.pcs[t].Locked? && s.pcs[t].op.Store?
    && var op := s.pcs[t].op;
       TooLong(Find(hash, s.shards, op.item.key), op.item, op.p) && s' == s.(aborted := true)
  }

  /** Put the numbered item into the shard and unlock. */
  ghost predicate Write(hash: Bytes -> nat, s: State, t: Thread, s': State)
    requires |s.shards| == SHARDS
  {
    && t in s.pcs && s.pcs[t].Numbered?
    && var Numbered(item, p, v) := s.pcs[t];
       var i, o := ShardOf(hash, item.key), Find(hash, s.shards, item.key);
       && Accepts(o, item, p) && EndsWithCRLF(item.value) && (o.Some? ==> EndsWithCRLF(o.value.value))
       && s' == s.(shards := s.shards[i := s.shards[i][item.key := NewItem(o, item, p, v)]],
                   locks := s.locks - {i}, pcs := s.pcs[t := Outside])
  }

  ghost predicate Read(hash: Bytes -> nat, s: State, t: Thread, s': State)
    requires |s.shards| == SHARDS
  {
    && t in s.pcs && s.pcs[t].Locked? && s.pcs[t].op.Get?
    && var op := s.pcs[t].op;
       s' == s.(locks := s.locks - {ShardOf(hash, op.key)}, pcs := s.pcs[t := Outside],
                done := s.done + [(op, GetAnswer(Find(hash, s.shards, op.key)))])
  }

  ghost predicate Erase(hash: Bytes -> nat, s: State, t: Thread, s': State)
    requires |s.shards| == SHARDS
  {
    && t in s.pcs && s.pcs[t].Locked? && s.pcs[t].op.Delete?
    && var op := s.pcs[t].op;
       var i := ShardOf(hash, op.key);
       s' == s.(shards := s.shards[i := s.shards[i] - {op.key}], locks := s.locks - {i}, pcs := s.pcs[t := Outside],
                table := Effect(s.table, op), done := s.done + [(op, DeleteAnswer(Find(hash, s.shards, op.key).Some?))])
  }

  ghost predicate Step(hash: Bytes -> nat, s: State, t: Thread, s': State)
    requires |s.shards| == SHARDS
  {
    && !s.aborted
    && (|| (exists op :: Call(s, t, op, s')) || Lock(hash, s, t, s') || Refuse(hash, s, t, s')
        || TakeNumber(hash, s, t, s') || Write(hash, s, t, s') || Read(hash, s, t, s') || Erase(hash, s, t, s')
        || Abort(hash, s, t, s'))
  }

  ghost predicate Init(s: State) {
    && s.shards == seq(SHARDS, _ => map[]) && s.locks == map[] && s.counter == 0 && s.issued == map[]
    && s.table == Table(map[], 0) && s.done == [] && !s.aborted && forall t :: t in s.pcs ==> s.pcs[t].Outside?
  }

  ghost predicate Run(hash: Bytes -> nat, tr: seq<State>, ts: seq<Thread>) {
    && |tr| == |ts| + 1 && Init(tr[0])
    && (forall i {:trigger ts[i]} :: 0 <= i < |ts| ==>
         (|tr[i].shards| == SHARDS ==> Step(hash, tr[i], ts[i], tr[i + 1])))
  }

  // ------------------------------------------------------- one operation at a time

  /** What an operation does to the one map. */
  ghost function Effect(t: Table, op: Op): Table {
    match op
    case Store(item, p) =>
      if EndsWithCRLF(item.value) && (item.key in t.items ==> EndsWithCRLF(t.items[item.key].value))
      then Stored(t, item, p) else t
    case Get(_) => t
    case Delete(key) => Deleted(t, key)
  }

  /** What it answers. */
  function Reply(t: Table, op: Op): Answer {
    match op
    case Store(item, p) => StoreAnswer(Accepts(Lookup(t, item.key), item, p), item.key in t.items)
    case Get(key) => GetAnswer(Lookup(t, key))
    case Delete(key) => DeleteAnswer(key in t.items)
  }

  /** The table after the operations, one after the other. */
  ghost function Replayed(done: seq<(Op, Answer)>): Table {
    if done == [] then Table(map[], 0) else Effect(Replayed(done[..|done| - 1]), done[|done| - 1].0)
  }

  // ------------------------------------------------------------------ invariant

  ghost predicate Holds(pc: Pc) {
    pc.Locked? || pc.Numbered?
  }

  function PcKey(pc: Pc): Bytes
    requires !pc.Outside?
  {
    match pc
    case Entering(op) => KeyOf(op)
    case Locked(op) => KeyOf(op)
    case Numbered(item, _, _) => item.key
  }

  /** The lock of a shard is held by the one thread that works on it. */
  ghost predicate LocksOk(hash: Bytes -> nat, s: State) {
    && (forall t :: t in s.pcs && Holds(s.pcs[t]) ==>
         var i := ShardOf(hash, PcKey(s.pcs[t])); i in s.locks && s.locks[i] == t)
    && (forall i :: i in s.locks ==>
         && s.locks[i] in s.pcs && Holds(s.pcs[s.locks[i]]) && ShardOf(hash, PcKey(s.pcs[s.locks[i]])) == i)
  }

  /** An item in a shard is under its own key, ends in CRLF and is what was issued under its version. */
  ghost predicate StoredFine(s: State, k: Bytes, x: Item) {
    x.key == k && EndsWithCRLF(x.value) && 0 < x.cas <= s.counter && x.cas in s.issued && s.issued[x.cas] == x
  }

  ghost predicate ShardsOk(hash: Bytes -> nat, s: State) {
    && |s.shards| == SHARDS
    && (forall i, k {:trigger s.shards[i][k]} :: 0 <= i < SHARDS && k in s.shards[i] ==>
         i == ShardOf(hash, k) && StoredFine(s, k, s.shards[i][k]))
  }

  /** A thread that has taken a number can write, and its version is newer than what it replaces. */
  ghost predicate FlightOk(hash: Bytes -> nat, s: State, t: Thread)
    requires |s.shards| == SHARDS && t in s.pcs && s.pcs[t].Numbered?
  {
    var Numbered(item, p, v) := s.pcs[t];
    var o := Find(hash, s.shards, item.key);
    && 0 < v <= s.counter && Accepts(o, item, p) && EndsWithCRLF(item.value)
    && (o.Some? ==> EndsWithCRLF(o.value.value) && o.value.cas < v)
    && v in s.issued && s.issued[v] == NewItem(o, item, p, v)
  }

  ghost predicate ThreadsOk(hash: Bytes -> nat, s: State)
    requires |s.shards| == SHARDS
  {
    && (forall t :: t in s.pcs && s.pcs[t].Numbered? ==> FlightOk(hash, s, t))
    && (forall t :: t in s.pcs && (s.pcs[t].Entering? || s.pcs[t].Locked?) && s.pcs[t].op.Store? ==>
         EndsWithCRLF(s.pcs[t].op.item.value))
    && s.counter >= 0 && (forall v :: v in s.issued ==> 0 < v <= s.counter)
  }

  /** Some thread has taken a number for `k` and not written yet. */
  ghost predicate InFlight(s: State, k: Bytes) {
    exists t :: t in s.pcs && s.pcs[t].Numbered? && s.pcs[t].item.key == k
  }

  /** The one map holds what the shards hold, or what is about to be written there. */
  ghost predicate TableAgrees(hash: Bytes -> nat, s: State)
    requires |s.shards| == SHARDS
  {
    && s.table.cas == s.counter
    && (forall k :: !InFlight(s, k) ==> Lookup(s.table, k) == Find(hash, s.shards, k))
    && (forall t :: t in s.pcs && s.pcs[t].Numbered? ==>
         s.pcs[t].version in s.issued && Lookup(s.table, s.pcs[t].item.key) == Some(s.issued[s.pcs[t].version]))
  }

  /** The answers given are those of the operations done one after the other. */
  ghost predicate Sequential(s: State) {
    && s.table == Replayed(s.done)
    && (forall i :: 0 <= i < |s.done| ==> s.done[i].1 == Reply(Replayed(s.done[..i]), s.done[i].0))
  }

  ghost predicate Inv(hash: Bytes -> nat, s: State) {
    LocksOk(hash, s) && ShardsOk(hash, s) && ThreadsOk(hash, s) && TableAgrees(hash, s) && Sequential(s)
  }

  /** While a thread holds the lock of a shard without a number, no write to its key is in flight. */
  lemma LockedIsQuiet(hash: Bytes -> nat, s: State, t: Thread)
    requires LocksOk(hash, s) && t in s.pcs && s.pcs[t].Locked?
    ensures !InFlight(s, KeyOf(s.pcs[t].op))
  {
  }

  lemma OneMoreDone(s: State, op: Op, answer: Answer, table: Table)
    requires Sequential(s) && answer == Reply(s.table, op) && table == Effect(s.table, op)
    ensures Sequential(s.(done := s.done + [(op, answer)], table := table))
  {
    var done := s.done + [(op, answer)];
    assert done[..|s.done|] == s.done;
    forall i | 0 <= i < |done|
      ensures done[i].1 == Reply(Replayed(done[..i]), done[i].0)
    {
      if i < |s.done| {
        assert done[..i] == s.done[..i];
      }
    }
  }

  lemma {:induction false} CallOk(hash: Bytes -> nat, s: State, t: Thread, op: Op, s': State)
    requires Inv(hash, s) && Call(s, t, op, s')
    ensures Inv(hash, s')
  {
    hide Replayed, EndsWithCRLF, Accepts, NewItem;
    SameFlights(hash, s, s');
  }

  /** A step that leaves shards, versions and numbered threads alone. */
  lemma SameFlights(hash: Bytes -> nat, s: State, s': State)
    requires ShardsOk(hash, s) && ThreadsOk(hash, s) && TableAgrees(hash, s)
    requires s'.shards == s.shards && s'.counter == s.counter && s'.issued == s.issued && s'.table == s.table
    requires s'.pcs.Keys == s.pcs.Keys
    requires forall t :: t in s.pcs && (s.pcs[t].Numbered? || s'.pcs[t].Numbered?) ==> s'.pcs[t] == s.pcs[t]
    requires forall t :: t in s'.pcs && (s'.pcs[t].Entering? || s'.pcs[t].Locked?) && s'.pcs[t].op.Store? ==>
               EndsWithCRLF(s'.pcs[t].op.item.value)
    ensures ShardsOk(hash, s') && ThreadsOk(hash, s') && TableAgrees(hash, s')
  {
    hide EndsWithCRLF, Accepts, NewItem;
    assert forall k :: InFlight(s', k) <==> InFlight(s, k);
    forall t | t in s'.pcs && s'.pcs[t].Numbered?
      ensures FlightOk(hash, s', t)
    {
      assert FlightOk(hash, s, t);
    }
    forall i, k | 0 <= i < SHARDS && k in s'.shards[i]
      ensures i == ShardOf(hash, k) && StoredFine(s', k, s'.shards[i][k])
    {
      assert k in s.shards[i] && StoredFine(s, k, s.shards[i][k]);
    }
  }

  lemma {:induction false} LockOk(hash: Bytes -> nat, s: State, t: Thread, s': State)
    requires Inv(hash, s) && Lock(hash, s, t, s')
    ensures Inv(hash, s')
  {
    hide Replayed, EndsWithCRLF, Accepts, NewItem;
    SameFlights(hash, s, s');
  }

  lemma {:induction false} RefuseOk(hash: Bytes -> nat, s: State, t: Thread, s': State)
    requires Inv(hash, s) && Refuse(hash, s, t, s')
    ensures Inv(hash, s')
  {
    hide Replayed, EndsWithCRLF, NewItem;
    LockedIsQuiet(hash, s, t);
    var op := s.pcs[t].op;
    OneMoreDone(s, op, s'.done[|s.done|].1, s.table);
    SameFlights(hash, s, s');
    UnlockOk(hash, s, t, s');
  }

  lemma UnlockOk(hash: Bytes -> nat, s: State, t: Thread, s': State)
    requires LocksOk(hash, s) && t in s.pcs && Holds(s.pcs[t])
    requires s'.locks == s.locks - {ShardOf(hash, PcKey(s.pcs[t]))} && s'.pcs == s.pcs[t := Outside]
    ensures LocksOk(hash, s')
  {
  }

  lemma {:induction false} ReadOk(hash: Bytes -> nat, s: State, t: Thread, s': State)
    requires Inv(hash, s) && Read(hash, s, t, s')
    ensures Inv(hash, s')
  {
    hide Replayed, EndsWithCRLF, NewItem;
    LockedIsQuiet(hash, s, t);
    var op := s.pcs[t].op;
    OneMoreDone(s, op, s'.done[|s.done|].1, s.table);
    SameFlights(hash, s, s');
    UnlockOk(hash, s, t, s');
  }

  /** A step of `t` leaves the numbers that other threads have in flight. */
  lemma StillInFlight(s: State, t: Thread, pc: Pc, k: Bytes, s': State)
    requires t in s.pcs && s'.pcs == s.pcs[t := pc] && !(s.pcs[t].Numbered? && s.pcs[t].item.key == k)
    ensures InFlight(s, k) ==> InFlight(s', k)
  {
    if u :| u in s.pcs && s.pcs[u].Numbered? && s.pcs[u].item.key == k {
      assert u in s'.pcs && s'.pcs[u] == s.pcs[u];
    }
  }

  lemma {:induction false} NumberOk(hash: Bytes -> nat, s: State, t: Thread, s': State)
    requires Inv(hash, s) && TakeNumber(hash, s, t, s')
    ensures Inv(hash, s')
  {
    LockedIsQuiet(hash, s, t);
    var op := s.pcs[t].op;
    hide Replayed, EndsWithCRLF;
    var o := Find(hash, s.shards, op.item.key);
    assert Lookup(s.table, op.item.key) == o;
    OneMoreDone(s, op, s'.done[|s.done|].1, Effect(s.table, op));
    StoredIs(s.table, op.item, op.p);
    NumberThreads(hash, s, t, s');
    NumberTable(hash, s, t, s');
  }

  lemma {:induction false} NumberThreads(hash: Bytes -> nat, s: State, t: Thread, s': State)
    requires Inv(hash, s) && TakeNumber(hash, s, t, s')
    ensures LocksOk(hash, s') && ShardsOk(hash, s') && ThreadsOk(hash, s')
  {
    hide Replayed, EndsWithCRLF, Accepts, NewItem, Effect, Sequential, TableAgrees;
    forall i, k | 0 <= i < SHARDS && k in s'.shards[i]
      ensures i == ShardOf(hash, k) && StoredFine(s', k, s'.shards[i][k])
    {
      assert k in s.shards[i] && StoredFine(s, k, s.shards[i][k]);
    }
    forall u | u in s'.pcs && s'.pcs[u].Numbered?
      ensures FlightOk(hash, s', u)
    {
      assert u != t ==> FlightOk(hash, s, u);
    }
  }

  lemma {:induction false} NumberTable(hash: Bytes -> nat, s: State, t: Thread, s': State)
    requires Inv(hash, s) && TakeNumber(hash, s, t, s')
    ensures TableAgrees(hash, s')
  {
    var op := s.pcs[t].op;
    var key, v := op.item.key, s.counter + 1;
    LockedIsQuiet(hash, s, t);
    assert Lookup(s.table, key) == Find(hash, s.shards, key);
    StoredIs(s.table, op.item, op.p);
    assert s'.table == Table(s.table.items[key := s'.issued[v]], v);
    hide Replayed, EndsWithCRLF, Accepts, NewItem, Effect, Sequential, LocksOk, ShardsOk;
    forall k | !InFlight(s', k)
      ensures Lookup(s'.table, k) == Find(hash, s'.shards, k)
    {
      assert s'.pcs[t].Numbered? && s'.pcs[t].item.key == key;
      StillInFlight(s, t, s'.pcs[t], k, s');
    }
    forall u | u in s'.pcs && s'.pcs[u].Numbered?
      ensures s'.pcs[u].version in s'.issued
      ensures Lookup(s'.table, s'.pcs[u].item.key) == Some(s'.issued[s'.pcs[u].version])
    {
      if u != t {
        assert s.pcs[u].item.key != key;
        assert FlightOk(hash, s, u);
      }
    }
  }

  lemma {:induction false} WriteOk(hash: Bytes -> nat, s: State, t: Thread, s': State)
    requires Inv(hash, s) && Write(hash, s, t, s')
    ensures Inv(hash, s')
  {
    hide Replayed, EndsWithCRLF, Accepts, NewItem, Effect;
    assert FlightOk(hash, s, t);
    assert Sequential(s');
    UnlockOk(hash, s, t, s');
    WriteShards(hash, s, t, s');
    var key := s.pcs[t].item.key;
    OthersFly(hash, s, t, key, s'.shards[ShardOf(hash, key)], s');
    WriteTable(hash, s, t, s');
  }

  /** Nobody else works on a key while a thread holds its shard. */
  lemma Alone(hash: Bytes -> nat, s: State, t: Thread, u: Thread)
    requires LocksOk(hash, s) && t in s.pcs && u in s.pcs && Holds(s.pcs[t]) && Holds(s.pcs[u]) && t != u
    ensures ShardOf(hash, PcKey(s.pcs[t])) != ShardOf(hash, PcKey(s.pcs[u]))
  {
  }

  /** What a write or an erasure leaves of the shards: one key changed. */
  lemma FindElsewhere(hash: Bytes -> nat, shards: Shards, key: Bytes, m: map<Bytes, Item>, k: Bytes)
    requires |shards| == SHARDS && k != key
    requires k in m <==> k in shards[ShardOf(hash, key)]
    requires k in m ==> m[k] == shards[ShardOf(hash, key)][k]
    ensures Find(hash, shards[ShardOf(hash, key) := m], k) == Find(hash, shards, k)
  {
  }

  lemma {:induction false} WriteShards(hash: Bytes -> nat, s: State, t: Thread, s': State)
    requires Inv(hash, s) && Write(hash, s, t, s')
    ensures ShardsOk(hash, s')
  {
    var Numbered(item, p, v) := s.pcs[t];
    var n := NewItem(Find(hash, s.shards, item.key), item, p, v);
    assert FlightOk(hash, s, t);
    NewItemEnds(Find(hash, s.shards, item.key), item, p, v);
    assert n.key == item.key && n.cas == v;
    hide Replayed, EndsWithCRLF, Accepts, NewItem, Effect, Sequential, TableAgrees, LocksOk, ThreadsOk;
    forall i, k | 0 <= i < SHARDS && k in s'.shards[i]
      ensures i == ShardOf(hash, k) && StoredFine(s', k, s'.shards[i][k])
    {
      if k != item.key || i != ShardOf(hash, item.key) {
        assert k in s.shards[i] && s'.shards[i][k] == s.shards[i][k];
      }
    }
  }

  lemma {:induction false} OthersFly(hash: Bytes -> nat, s: State, t: Thread, key: Bytes, m: map<Bytes, Item>,
                                     s': State)
    requires |s.shards| == SHARDS && LocksOk(hash, s) && ThreadsOk(hash, s)
    requires t in s.pcs && Holds(s.pcs[t]) && PcKey(s.pcs[t]) == key
    requires s'.shards == s.shards[ShardOf(hash, key) := m] && s'.pcs == s.pcs[t := Outside]
    requires s'.counter == s.counter && s'.issued == s.issued
    ensures ThreadsOk(hash, s')
  {
    hide EndsWithCRLF, Accepts, NewItem;
    forall u | u in s'.pcs && s'.pcs[u].Numbered?
      ensures FlightOk(hash, s', u)
    {
      assert FlightOk(hash, s, u);
      Alone(hash, s, t, u);
      assert Find(hash, s'.shards, s.pcs[u].item.key) == Find(hash, s.shards, s.pcs[u].item.key);
    }
  }

  lemma {:induction false} WriteTable(hash: Bytes -> nat, s: State, t: Thread, s': State)
    requires Inv(hash, s) && Write(hash, s, t, s')
    ensures TableAgrees(hash, s')
  {
    var Numbered(item, p, v) := s.pcs[t];
    assert FlightOk(hash, s, t);
    hide Replayed, EndsWithCRLF, Accepts, NewItem, Effect, Sequential, ShardsOk;
    forall k | !InFlight(s', k)
      ensures Lookup(s'.table, k) == Find(hash, s'.shards, k)
    {
      if k != item.key {
        StillInFlight(s, t, Outside, k, s');
        FindElsewhere(hash, s.shards, item.key, s'.shards[ShardOf(hash, item.key)], k);
      }
    }
  }

  lemma {:induction false} EraseOk(hash: Bytes -> nat, s: State, t: Thread, s': State)
    requires Inv(hash, s) && Erase(hash, s, t, s')
    ensures Inv(hash, s')
  {
    hide Replayed, EndsWithCRLF, Accepts, NewItem;
    LockedIsQuiet(hash, s, t);
    var op := s.pcs[t].op;
    OneMoreDone(s, op, s'.done[|s.done|].1, Effect(s.table, op));
    UnlockOk(hash, s, t, s');
    EraseShards(hash, s, t, s');
    EraseTable(hash, s, t, s');
  }

  lemma {:induction false} EraseShards(hash: Bytes -> nat, s: State, t: Thread, s': State)
    requires Inv(hash, s) && Erase(hash, s, t, s')
    ensures ShardsOk(hash, s') && ThreadsOk(hash, s')
  {
    hide Replayed, EndsWithCRLF, Accepts, NewItem, Effect, Sequential, TableAgrees;
    var key := s.pcs[t].op.key;
    forall i, k | 0 <= i < SHARDS && k in s'.shards[i]
      ensures i == ShardOf(hash, k) && StoredFine(s', k, s'.shards[i][k])
    {
      assert k in s.shards[i] && s'.shards[i][k] == s.shards[i][k];
    }
    OthersFly(hash, s, t, key, s'.shards[ShardOf(hash, key)], s');
  }

  lemma {:induction false} EraseTable(hash: Bytes -> nat, s: State, t: Thread, s': State)
    requires Inv(hash, s) && Erase(hash, s, t, s')
    ensures TableAgrees(hash, s')
  {
    assert |s.shards| == SHARDS;
    hide Replayed, EndsWithCRLF, Accepts, NewItem, Sequential, ShardsOk;
    var key := s.pcs[t].op.key;
    forall k | !InFlight(s', k)
      ensures Lookup(s'.table, k) == Find(hash, s'.shards, k)
    {
      if k != key {
        StillInFlight(s, t, Outside, k, s');
        FindElsewhere(hash, s.shards, key, s'.shards[ShardOf(hash, key)], k);
        assert k in s'.table.items <==> k in s.table.items;
      }
    }
    forall u | u in s'.pcs && s'.pcs[u].Numbered?
      ensures s'.pcs[u].version in s'.issued
      ensures Lookup(s'.table, s'.pcs[u].item.key) == Some(s'.issued[s'.pcs[u].version])
    {
      Alone(hash, s, t, u);
    }
  }

  lemma {:induction false} AbortOk(hash: Bytes -> nat, s: State, t: Thread, s': State)
    requires Inv(hash, s) && Abort(hash, s, t, s')
    ensures Inv(hash, s')
  {
    hide Replayed, EndsWithCRLF, Accepts, NewItem;
    SameFlights(hash, s, s');
  }

  lemma {:induction false} StepOk(hash: Bytes -> nat, s: State, t: Thread, s': State)
    requires Inv(hash, s) && Step(hash, s, t, s')
    ensures Inv(hash, s')
  {
    assert |s.shards| == SHARDS;
    hide Inv, Call, Lock, Refuse, TakeNumber, Write, Read, Erase, Abort;
    if op :| Call(s, t, op, s') {
      CallOk(hash, s, t, op, s');
    } else if Lock(hash, s, t, s') {
      LockOk(hash, s, t, s');
    } else if Refuse(hash, s, t, s') {
      RefuseOk(hash, s, t, s');
    } else if TakeNumber(hash, s, t, s') {
      NumberOk(hash, s, t, s');
    } else if Write(hash, s, t, s') {
      WriteOk(hash, s, t, s');
    } else if Read(hash, s, t, s') {
      ReadOk(hash, s, t, s');
    } else if Erase(hash, s, t, s') {
      EraseOk(hash, s, t, s');
    } else {
      AbortOk(hash, s, t, s');
    }
  }

  // ------------------------------------------------------------------- results

  lemma {:induction false} RunInv(hash: Bytes -> nat, tr: seq<State>, ts: seq<Thread>, n: nat)
    requires Run(hash, tr, ts) && n < |tr|
    ensures Inv(hash, tr[n])
  {
    if n > 0 {
      RunInv(hash, tr, ts, n - 1);
      assert |tr[n - 1].shards| == SHARDS;
      assert Step(hash, tr[n - 1], ts[n - 1], tr[n - 1 + 1]);
      hide Run, Inv, Step;
      StepOk(hash, tr[n - 1], ts[n - 1], tr[n]);
    }
  }

  /**
    Linearizability, in every interleaving: the answers given so far are those of the same operations
    done one after the other on one map, and that map is what the shards hold, except where a thread
    that has its number has still to write.
  */
  lemma {:induction false} Linearizable(hash: Bytes -> nat, tr: seq<State>, ts: seq<Thread>, n: nat)
    requires Run(hash, tr, ts) && n < |tr|
    ensures var s := tr[n];
            && |s.shards| == SHARDS && s.table == Replayed(s.done)
            && (forall i :: 0 <= i < |s.done| ==> s.done[i].1 == Reply(Replayed(s.done[..i]), s.done[i].0))
            && (forall k :: !InFlight(s, k) ==> Find(hash, s.shards, k) == Lookup(s.table, k))
            && (forall i, k :: 0 <= i < SHARDS && k in s.shards[i] ==> i == ShardOf(hash, k))
  {
    RunInv(hash, tr, ts, n);
  }

  /** And each takes its effect, with its own answer, in its own critical section. */
  lemma {:induction false} EffectInside(hash: Bytes -> nat, tr: seq<State>, ts: seq<Thread>, n: nat)
    requires Run(hash, tr, ts) && n < |ts|
    ensures var s, t, s' := tr[n], ts[n], tr[n + 1];
            || (s'.done == s.done && s'.table == s.table)
            || (&& t in s.pcs && s.pcs[t].Locked? && s'.table == Effect(s.table, s.pcs[t].op)
                && s'.done == s.done + [(s.pcs[t].op, Reply(s.table, s.pcs[t].op))])
  {
    RunInv(hash, tr, ts, n);
    var s, t := tr[n], ts[n];
    assert Step(hash, s, t, tr[n + 1]);
    hide Run, Replayed, EndsWithCRLF, NewItem, ShardsOk, ThreadsOk, Sequential;
    if t in s.pcs && s.pcs[t].Locked? {
      LockedIsQuiet(hash, s, t);
      assert Lookup(s.table, KeyOf(s.pcs[t].op)) == Find(hash, s.shards, KeyOf(s.pcs[t].op));
      RefusedHasNoEffect(s.table, s.pcs[t].op);
    }
  }

  lemma RefusedHasNoEffect(t: Table, op: Op)
    ensures op.Store? && !Accepts(Lookup(t, op.item.key), op.item, op.p) ==> Effect(t, op) == t
  {
  }

  /** A thread that has taken its number is never stuck: it can write. */
  lemma {:induction false} NumberedCanWrite(hash: Bytes -> nat, tr: seq<State>, ts: seq<Thread>, n: nat, t: Thread)
    requires Run(hash, tr, ts) && n < |tr| && t in tr[n].pcs && tr[n].pcs[t].Numbered?
    ensures |tr[n].shards| == SHARDS && exists s' :: Write(hash, tr[n], t, s')
  {
    RunInv(hash, tr, ts, n);
    var s := tr[n];
    assert FlightOk(hash, s, t);
    hide Run, Replayed, EndsWithCRLF, NewItem, ShardsOk, Sequential, Accepts;
    var Numbered(item, p, v) := s.pcs[t];
    var i := ShardOf(hash, item.key);
    var x := NewItem(Find(hash, s.shards, item.key), item, p, v);
    assert Write(hash, s, t, s.(shards := s.shards[i := s.shards[i][item.key := x]], locks := s.locks - {i},
                                pcs := s.pcs[t := Outside]));
  }

  /** Versions are distinct, those in flight included. */
  lemma {:induction false} VersionsAreDistinct(hash: Bytes -> nat, tr: seq<State>, ts: seq<Thread>, n: nat)
    requires Run(hash, tr, ts) && n < |tr|
    ensures var s := tr[n];
            && |s.shards| == SHARDS
            && (forall t, u :: t in s.pcs && u in s.pcs && s.pcs[t].Numbered? && s.pcs[u].Numbered? && t != u ==>
                 s.pcs[t].version != s.pcs[u].version)
            && (forall t, k :: t in s.pcs && s.pcs[t].Numbered? && Find(hash, s.shards, k).Some? ==>
                 s.pcs[t].version != Find(hash, s.shards, k).value.cas)
            && (forall k, l :: Find(hash, s.shards, k).Some? && Find(hash, s.shards, l).Some? && k != l ==>
                 Find(hash, s.shards, k).value.cas != Find(hash, s.shards, l).value.cas)
  {
    RunInv(hash, tr, ts, n);
    var s := tr[n];
    hide Run, Inv, Sequential, TableAgrees, Replayed;
    InvParts(hash, s);
    forall t, u | t in s.pcs && u in s.pcs && s.pcs[t].Numbered? && s.pcs[u].Numbered? && t != u
      ensures s.pcs[t].version != s.pcs[u].version
    {
      FlightIsIssued(hash, s, t);
      FlightIsIssued(hash, s, u);
      Alone(hash, s, t, u);
    }
    forall t, k | t in s.pcs && s.pcs[t].Numbered? && Find(hash, s.shards, k).Some?
      ensures s.pcs[t].version != Find(hash, s.shards, k).value.cas
    {
      FlightIsIssued(hash, s, t);
      FoundIsFine(hash, s, k);
    }
    forall k, l | Find(hash, s.shards, k).Some? && Find(hash, s.shards, l).Some? && k != l
      ensures Find(hash, s.shards, k).value.cas != Find(hash, s.shards, l).value.cas
    {
      FoundIsFine(hash, s, k);
      FoundIsFine(hash, s, l);
    }
  }

  /** In every interleaving every stored item is under its own key, ends in CRLF and has a version already issued. */
  lemma {:induction false} StoredItemsAreFine(hash: Bytes -> nat, tr: seq<State>, ts: seq<Thread>, n: nat, k: Bytes)
    requires Run(hash, tr, ts) && n < |tr|
    ensures |tr[n].shards| == SHARDS
    ensures var o := Find(hash, tr[n].shards, k);
            o.Some? ==> o.value.key == k && EndsWithCRLF(o.value.value) && 0 < o.value.cas <= tr[n].counter
  {
    RunInv(hash, tr, ts, n);
    FoundIsFine(hash, tr[n], k);
  }

  lemma InvParts(hash: Bytes -> nat, s: State)
    requires Inv(hash, s)
    ensures |s.shards| == SHARDS && LocksOk(hash, s) && ShardsOk(hash, s) && ThreadsOk(hash, s) && TableAgrees(hash, s)
  {
  }

  lemma FoundIsFine(hash: Bytes -> nat, s: State, k: Bytes)
    requires ShardsOk(hash, s)
    ensures Find(hash, s.shards, k).Some? ==> StoredFine(s, k, Find(hash, s.shards, k).value)
  {
  }

  lemma FlightIsIssued(hash: Bytes -> nat, s: State, t: Thread)
    requires |s.shards| == SHARDS && ThreadsOk(hash, s) && t in s.pcs && s.pcs[t].Numbered?
    ensures var Numbered(item, _, v) := s.pcs[t];
            && 0 < v <= s.counter && v in s.issued && s.issued[v].key == item.key
            && (Find(hash, s.shards, item.key).Some? ==> Find(hash, s.shards, item.key).value.cas < v)
  {
    assert FlightOk(hash, s, t);
  }

  lemma {:induction false} IssuedStays(hash: Bytes -> nat, tr: seq<State>, ts: seq<Thread>, i: nat, j: nat, v: int)
    requires Run(hash, tr, ts) && i <= j < |tr| && v in tr[i].issued
    ensures v in tr[j].issued && tr[j].issued[v] == tr[i].issued[v]
    decreases j
  {
    if i < j {
      IssuedStays(hash, tr, ts, i, j - 1, v);
      RunInv(hash, tr, ts, j - 1);
      assert Step(hash, tr[j - 1], ts[j - 1], tr[j - 1 + 1]);
      assert v <= tr[j - 1].counter;
      hide Run, Inv, Step;
      StepIssues(hash, tr[j - 1], ts[j - 1], tr[j], v);
    }
  }

  lemma StepIssues(hash: Bytes -> nat, s: State, t: Thread, s': State, v: int)
    requires |s.shards| == SHARDS && Step(hash, s, t, s') && v in s.issued && v <= s.counter
    ensures v in s'.issued && s'.issued[v] == s.issued[v]
  {
    hide NewItem, Accepts, EndsWithCRLF, Effect, Find;
  }

  /** A version names one item under one key, for ever. */
  lemma {:induction false} VersionIsUnique(hash: Bytes -> nat, tr: seq<State>, ts: seq<Thread>, i: nat, j: nat,
                                           k: Bytes, l: Bytes)
    requires Run(hash, tr, ts) && i <= j < |tr|
    requires |tr[i].shards| == SHARDS && |tr[j].shards| == SHARDS
    requires Find(hash, tr[i].shards, k).Some? && Find(hash, tr[j].shards, l).Some?
    requires Find(hash, tr[i].shards, k).value.cas == Find(hash, tr[j].shards, l).value.cas
    ensures k == l && Find(hash, tr[i].shards, k) == Find(hash, tr[j].shards, l)
  {
    RunInv(hash, tr, ts, i);
    RunInv(hash, tr, ts, j);
    FoundIsFine(hash, tr[i], k);
    FoundIsFine(hash, tr[j], l);
    IssuedStays(hash, tr, ts, i, j, Find(hash, tr[i].shards, k).value.cas);
  }

  // ------------------------------------------------------------ compare and swap

  /** No item with a number up to `c` is about to be written under `key`. */
  ghost predicate NewerFlights(s: State, key: Bytes, c: int) {
    forall t :: t in s.pcs && s.pcs[t].Numbered? && s.pcs[t].item.key == key ==> s.pcs[t].version > c
  }

  /** One step: what is found under `key` stays, or goes, or is newer than `c`. */
  lemma {:induction false} StepFind(hash: Bytes -> nat, s: State, t: Thread, s': State, key: Bytes, c: int)
    requires Inv(hash, s) && Step(hash, s, t, s') && c <= s.counter && NewerFlights(s, key, c)
    ensures |s'.shards| == SHARDS && c <= s'.counter && NewerFlights(s', key, c)
    ensures var o, o' := Find(hash, s.shards, key), Find(hash, s'.shards, key);
            o' == o || o'.None? || o'.value.cas > c
  {
    assert |s.shards| == SHARDS;
    hide Inv, Effect, Accepts, EndsWithCRLF, Write, Erase, Find, NewerFlights;
    if Write(hash, s, t, s') {
      WriteFind(hash, s, t, s', key, c);
    } else if Erase(hash, s, t, s') {
      EraseFind(hash, s, t, s', key, c);
    } else {
      assert s'.shards == s.shards && s'.counter >= s.counter;
      QuietFlights(hash, s, t, s', key, c);
    }
  }

  lemma QuietFlights(hash: Bytes -> nat, s: State, t: Thread, s': State, key: Bytes, c: int)
    requires |s.shards| == SHARDS && Step(hash, s, t, s') && !Write(hash, s, t, s') && !Erase(hash, s, t, s')
    requires c <= s.counter && NewerFlights(s, key, c)
    ensures NewerFlights(s', key, c)
  {
    hide Effect, Accepts, EndsWithCRLF, NewItem, Write, Erase, Find;
    assert t in s.pcs && s'.pcs == s.pcs[t := s'.pcs[t]];
    assert s'.pcs[t].Numbered? ==> s'.pcs[t].version == s.counter + 1;
  }

  lemma WriteFind(hash: Bytes -> nat, s: State, t: Thread, s': State, key: Bytes, c: int)
    requires |s.shards| == SHARDS && Write(hash, s, t, s') && NewerFlights(s, key, c)
    ensures |s'.shards| == SHARDS && s'.counter == s.counter && NewerFlights(s', key, c)
    ensures var o, o' := Find(hash, s.shards, key), Find(hash, s'.shards, key);
            o' == o || o'.None? || o'.value.cas > c
  {
    hide Accepts, EndsWithCRLF;
    if s.pcs[t].item.key != key {
      FindElsewhere(hash, s.shards, s.pcs[t].item.key, s'.shards[ShardOf(hash, s.pcs[t].item.key)], key);
    }
  }

  lemma EraseFind(hash: Bytes -> nat, s: State, t: Thread, s': State, key: Bytes, c: int)
    requires |s.shards| == SHARDS && Erase(hash, s, t, s') && NewerFlights(s, key, c)
    ensures |s'.shards| == SHARDS && s'.counter == s.counter && NewerFlights(s', key, c)
    ensures Find(hash, s'.shards, key) == Find(hash, s.shards, key) || Find(hash, s'.shards, key).None?
  {
    hide Effect;
    if s.pcs[t].op.key != key {
      FindElsewhere(hash, s.shards, s.pcs[t].op.key, s'.shards[ShardOf(hash, s.pcs[t].op.key)], key);
    }
  }

  /** Nothing is stored or deleted under `key` between two moments. */
  ghost predicate Untouched(hash: Bytes -> nat, tr: seq<State>, i: nat, j: nat, key: Bytes)
    requires i <= j < |tr| && forall n :: i <= n <= j ==> |tr[n].shards| == SHARDS
  {
    forall n :: i <= n <= j ==> Find(hash, tr[n].shards, key) == Find(hash, tr[i].shards, key)
  }

  lemma {:induction false} SinceRead(hash: Bytes -> nat, tr: seq<State>, ts: seq<Thread>, i: nat, j: nat, key: Bytes)
    requires Run(hash, tr, ts) && i <= j < |tr| && !InFlight(tr[i], key)
    ensures forall n :: i <= n <= j ==> |tr[n].shards| == SHARDS
    ensures tr[i].counter <= tr[j].counter && NewerFlights(tr[j], key, tr[i].counter)
    ensures || Untouched(hash, tr, i, j, key)
            || Find(hash, tr[j].shards, key).None? || Find(hash, tr[j].shards, key).value.cas > tr[i].counter
    decreases j
  {
    hide Inv, Step, Find, Untouched;
    forall n | i <= n <= j
      ensures |tr[n].shards| == SHARDS
    {
      Sized(hash, tr, ts, n);
    }
    if i < j {
      SinceRead(hash, tr, ts, i, j - 1, key);
      RunInv(hash, tr, ts, j - 1);
      assert Step(hash, tr[j - 1], ts[j - 1], tr[j - 1 + 1]);
      hide Run, NewerFlights;
      StepFind(hash, tr[j - 1], ts[j - 1], tr[j], key, tr[i].counter);
      UntouchedMore(hash, tr, i, j, key);
    } else {
      UntouchedNow(hash, tr, i, key);
    }
  }

  lemma Sized(hash: Bytes -> nat, tr: seq<State>, ts: seq<Thread>, n: nat)
    requires Run(hash, tr, ts) && n < |tr|
    ensures |tr[n].shards| == SHARDS
  {
    RunInv(hash, tr, ts, n);
  }

  lemma UntouchedNow(hash: Bytes -> nat, tr: seq<State>, i: nat, key: Bytes)
    requires i < |tr| && forall n :: i <= n <= i ==> |tr[n].shards| == SHARDS
    ensures Untouched(hash, tr, i, i, key)
  {
  }

  lemma UntouchedMore(hash: Bytes -> nat, tr: seq<State>, i: nat, j: nat, key: Bytes)
    requires i < j < |tr| && forall n :: i <= n <= j ==> |tr[n].shards| == SHARDS
    ensures Untouched(hash, tr, i, j - 1, key) ==>
              && Find(hash, tr[j - 1].shards, key) == Find(hash, tr[i].shards, key)
              && (Find(hash, tr[j].shards, key) == Find(hash, tr[j - 1].shards, key) ==> Untouched(hash, tr, i, j, key))
  {
  }

  /**
    Compare-and-swap, in every interleaving: a thread read version `x.cas` under the lock at step `i`, and
    at step `j` another, or the same, decides a `cas` with it.  It stores if and only if nothing was stored
    or deleted under the key in between.
  */
  lemma {:induction false} CasSucceedsIffUntouched(hash: Bytes -> nat, tr: seq<State>, ts: seq<Thread>, i: nat, j: nat,
                                                   item: Item, x: Item)
    requires Run(hash, tr, ts) && i <= j < |ts|
    requires |tr[i].shards| == SHARDS && Read(hash, tr[i], ts[i], tr[i + 1])
    requires tr[i].pcs[ts[i]].op.key == item.key && Find(hash, tr[i].shards, item.key) == Some(x) && item.cas == x.cas
    requires ts[j] in tr[j].pcs && tr[j].pcs[ts[j]] == Locked(Store(item, Cas))
    ensures forall n :: i <= n <= j ==> |tr[n].shards| == SHARDS
    ensures TakeNumber(hash, tr[j], ts[j], tr[j + 1]) <==> Untouched(hash, tr, i, j, item.key)
    ensures Refuse(hash, tr[j], ts[j], tr[j + 1]) <==> !Untouched(hash, tr, i, j, item.key)
  {
    ReadIsQuiet(hash, tr, ts, i, item.key, x);
    hide Inv, Find, Untouched, Step, Read, TakeNumber, Refuse, InFlight, NewerFlights;
    SinceRead(hash, tr, ts, i, j, item.key);
    UntouchedEnds(hash, tr, i, j, item.key);
    assert Step(hash, tr[j], ts[j], tr[j + 1]);
    hide Run;
    CasStep(hash, tr[j], ts[j], tr[j + 1], item);
  }

  /** What the reader of `x` holds the lock for: no store of the key is under way, and `x` has an issued number. */
  lemma ReadIsQuiet(hash: Bytes -> nat, tr: seq<State>, ts: seq<Thread>, i: nat, key: Bytes, x: Item)
    requires Run(hash, tr, ts) && i < |ts| && |tr[i].shards| == SHARDS && Read(hash, tr[i], ts[i], tr[i + 1])
    requires tr[i].pcs[ts[i]].op.key == key && Find(hash, tr[i].shards, key) == Some(x)
    ensures !InFlight(tr[i], key) && x.cas <= tr[i].counter
  {
    RunInv(hash, tr, ts, i);
    hide Run, Find, InFlight, Effect;
    LockedIsQuiet(hash, tr[i], ts[i]);
    FoundIsFine(hash, tr[i], key);
  }

  lemma UntouchedEnds(hash: Bytes -> nat, tr: seq<State>, i: nat, j: nat, key: Bytes)
    requires i <= j < |tr| && forall n :: i <= n <= j ==> |tr[n].shards| == SHARDS
    ensures Untouched(hash, tr, i, j, key) ==> Find(hash, tr[j].shards, key) == Find(hash, tr[i].shards, key)
  {
    hide Find;
  }

  /** A thread that holds the lock for a `cas` stores or refuses, by the number alone. */
  lemma CasStep(hash: Bytes -> nat, s: State, t: Thread, s': State, item: Item)
    requires |s.shards| == SHARDS && Step(hash, s, t, s') && t in s.pcs && s.pcs[t] == Locked(Store(item, Cas))
    ensures TakeNumber(hash, s, t, s') <==> Accepts(Find(hash, s.shards, item.key), item, Cas)
    ensures Refuse(hash, s, t, s') <==> !Accepts(Find(hash, s.shards, item.key), item, Cas)
  {
    hide Find, Effect, NewItem, EndsWithCRLF, ShardOf;
  }
}
