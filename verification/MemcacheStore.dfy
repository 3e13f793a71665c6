/**
  The item table of the memcached server: `MemcacheServer::storeItem`, `getItem` and `deleteItem` over
  4096 shards, and the global counter that numbers versions.
*/
module MemcacheStore {

  type Bytes = seq<char>

  const SHARDS := 4096

  /** 2^31: lengths of items are kept in an `int`. */
  const INT_LIMIT := 0x8000_0000

  /** A complete item.  `value` includes the final CRLF, as `valuelen_` does. */
  datatype Item = Item(key: Bytes, flags: int, exptime: int, value: Bytes, cas: int)

  datatype Policy = Set | Add | Replace | Append | Prepend | Cas

  predicate EndsWithCRLF(v: Bytes) {
    |v| >= 2 && v[|v| - 2..] == ['\r', '\n']
  }

  datatype Option<T> = None | Some(value: T)

  /** The abstract table: one map from keys to items, and the number of versions issued. */
  datatype Table = Table(items: map<Bytes, Item>, cas: int)

  // ------------------------------------------------------- the abstract table

  /** Whether `storeItem` succeeds. */
  predicate Accepts(old_: Option<Item>, item: Item, p: Policy) {
    match p
    case Set => true
    case Add => old_.None?
    case Cas => old_.Some? && old_.value.cas == item.cas
    case _ => old_.Some?
  }

  /**
    The item that `append` or `prepend` would make is longer than an `int` can say: the constructor of
    `Item` fails its assertion, or overflows.
  */
  predicate TooLong(old_: Option<Item>, item: Item, p: Policy) {
    (p == Append || p == Prepend) && old_.Some? && |item.key| + |old_.value.value| + |item.value| - 2 >= INT_LIMIT
  }

  /** The item that a successful `storeItem` leaves in the table. */
  function NewItem(old_: Option<Item>, item: Item, p: Policy, cas: int): Item
    requires Accepts(old_, item, p) && EndsWithCRLF(item.value) && (old_.Some? ==> EndsWithCRLF(old_.value.value))
  {
    match p
    case Append =>
      var o := old_.value;
      Item(item.key, o.flags, o.exptime, o.value[..|o.value| - 2] + item.value, cas)
    case Prepend =>
      var o := old_.value;
      Item(item.key, o.flags, o.exptime, item.value[..|item.value| - 2] + o.value, cas)
    case _ => item.(cas := cas)
  }

  function Lookup(t: Table, key: Bytes): Option<Item> {
    if key in t.items then Some(t.items[key]) else None
  }

  function Stored(t: Table, item: Item, p: Policy): Table
    requires EndsWithCRLF(item.value) && (item.key in t.items ==> EndsWithCRLF(t.items[item.key].value))
  {
    var o := Lookup(t, item.key);
    if Accepts(o, item, p) then
      Table(t.items[item.key := NewItem(o, item, p, t.cas + 1)], t.cas + 1)
    else t
  }

  function Deleted(t: Table, key: Bytes): Table {
    t.(items := t.items - {key})
  }

  ghost predicate ItemOk(t: Table, k: Bytes)
    requires k in t.items
  {
    t.items[k].key == k && EndsWithCRLF(t.items[k].value) && 0 < t.items[k].cas <= t.cas
  }

  /** Items sit under their own key, end in CRLF and have versions already issued. */
  ghost predicate TableOk(t: Table) {
    t.cas >= 0 && forall k :: k in t.items ==> ItemOk(t, k)
  }

  /** No two items have the same version. */
  ghost predicate Distinct(t: Table) {
    forall k, l :: k in t.items && l in t.items && t.items[k].cas == t.items[l].cas ==> k == l
  }

  /** What is stored ends in CRLF whenever what was stored before did. */
  lemma {:induction false} NewItemEnds(o: Option<Item>, item: Item, p: Policy, cas: int)
    requires EndsWithCRLF(item.value) && (o.Some? ==> EndsWithCRLF(o.value.value)) && Accepts(o, item, p)
    ensures EndsWithCRLF(NewItem(o, item, p, cas).value)
  {
    if p == Append {
      TailOfJoin(o.value.value[..|o.value.value| - 2], item.value);
    } else if p == Prepend {
      TailOfJoin(item.value[..|item.value| - 2], o.value.value);
    }
  }

  lemma TailOfJoin(a: Bytes, b: Bytes)
    requires EndsWithCRLF(b)
    ensures EndsWithCRLF(a + b)
  {
    assert (a + b)[|a + b| - 2..] == b[|b| - 2..];
  }

  lemma {:induction false} StoredOk(t: Table, item: Item, p: Policy)
    requires TableOk(t) && EndsWithCRLF(item.value)
    ensures TableOk(Stored(t, item, p))
    ensures Distinct(t) ==> Distinct(Stored(t, item, p))
  {
    var o := Lookup(t, item.key);
    assert o.Some? ==> ItemOk(t, item.key);
    if Accepts(o, item, p) {
      NewItemEnds(o, item, p, t.cas + 1);
      var u := Stored(t, item, p);
      var n := NewItem(o, item, p, t.cas + 1);
      hide EndsWithCRLF, Stored, NewItem, Accepts, Lookup, Distinct;
      assert u.items == t.items[item.key := n] && u.cas == t.cas + 1 && n.cas == u.cas && n.key == item.key by {
        StoredIs(t, item, p);
      }
      forall k | k in u.items
        ensures ItemOk(u, k)
      {
        assert k != item.key ==> ItemOk(t, k);
      }
      if Distinct(t) {
        PutKeepsDistinct(t, u, item.key, n);
      }
    }
  }

  lemma StoredIs(t: Table, item: Item, p: Policy)
    requires EndsWithCRLF(item.value) && (item.key in t.items ==> EndsWithCRLF(t.items[item.key].value))
    requires Accepts(Lookup(t, item.key), item, p)
    ensures var n := NewItem(Lookup(t, item.key), item, p, t.cas + 1);
            Stored(t, item, p) == Table(t.items[item.key := n], t.cas + 1) && n.cas == t.cas + 1 && n.key == item.key
  {
  }

  lemma StoredEither(t: Table, item: Item, p: Policy)
    requires EndsWithCRLF(item.value) && (item.key in t.items ==> EndsWithCRLF(t.items[item.key].value))
    ensures var o := Lookup(t, item.key);
            Stored(t, item, p)
            == if Accepts(o, item, p) then Table(t.items[item.key := NewItem(o, item, p, t.cas + 1)], t.cas + 1) else t
  {
  }

  lemma PutKeepsDistinct(t: Table, u: Table, key: Bytes, n: Item)
    requires TableOk(t) && Distinct(t)
    requires u == Table(t.items[key := n], t.cas + 1) && n.cas == t.cas + 1
    ensures Distinct(u)
  {
    hide EndsWithCRLF;
    forall k, l | k in u.items && l in u.items && u.items[k].cas == u.items[l].cas
      ensures k == l
    {
      assert k != key ==> ItemOk(t, k);
      assert l != key ==> ItemOk(t, l);
    }
  }

  lemma {:induction false} DeletedOk(t: Table, key: Bytes)
    requires TableOk(t) && Distinct(t)
    ensures TableOk(Deleted(t, key)) && Distinct(Deleted(t, key))
  {
    hide EndsWithCRLF;
    var u := Deleted(t, key);
    forall l | l in u.items
      ensures ItemOk(u, l)
    {
      assert ItemOk(t, l);
    }
  }

  // ---------------------------------------------------------------- shards

  /** The shards hold the abstract table, each key in the shard its hash selects. */
  ghost predicate Sharded(hash: Bytes -> nat, shards: seq<map<Bytes, Item>>, items: map<Bytes, Item>) {
    && |shards| == SHARDS
    && (forall k :: k in items <==> k in shards[hash(k) % SHARDS])
    && (forall k :: k in items ==> shards[hash(k) % SHARDS][k] == items[k])
    && (forall i, k :: 0 <= i < SHARDS && k in shards[i] ==> i == hash(k) % SHARDS)
  }

  lemma OldEnds(t: Table, key: Bytes)
    requires TableOk(t)
    ensures key in t.items ==> EndsWithCRLF(t.items[key].value)
  {
    assert key in t.items ==> ItemOk(t, key);
  }

  lemma OneShard(hash: Bytes -> nat, shards: seq<map<Bytes, Item>>, items: map<Bytes, Item>, key: Bytes)
    requires Sharded(hash, shards, items)
    ensures |shards| == SHARDS && Lookup(Table(shards[hash(key) % SHARDS], 0), key) == Lookup(Table(items, 0), key)
  {
  }

  lemma PutSharded(hash: Bytes -> nat, shards: seq<map<Bytes, Item>>, items: map<Bytes, Item>, key: Bytes, item: Item)
    requires Sharded(hash, shards, items)
    ensures var i := hash(key) % SHARDS;
            |shards| == SHARDS && Sharded(hash, shards[i := shards[i][key := item]], items[key := item])
  {
  }

  lemma RemoveSharded(hash: Bytes -> nat, shards: seq<map<Bytes, Item>>, items: map<Bytes, Item>, key: Bytes)
    requires Sharded(hash, shards, items)
    ensures var i := hash(key) % SHARDS;
            |shards| == SHARDS && Sharded(hash, shards[i := shards[i] - {key}], items - {key})
  {
  }

  lemma OnlyJoinedTooLong(o: Option<Item>, item: Item, p: Policy)
    ensures TooLong(o, item, p) ==> (p == Append || p == Prepend) && o.Some?
  {
  }

  lemma JoinedKey(o: Item, item: Item, p: Policy)
    requires EndsWithCRLF(o.value) && EndsWithCRLF(item.value) && (p == Append || p == Prepend)
    ensures NewItem(Some(o), item, p, 0).key == item.key
  {
  }

  class MemcacheServer {
    const hash: Bytes -> nat
    var shards: seq<map<Bytes, Item>>
    var cas: int
    ghost var items: map<Bytes, Item>

    ghost predicate Valid()
      reads this
    {
      Sharded(hash, shards, items) && TableOk(Value()) && Distinct(Value())
    }

    /** The one table that the shards stand for. */
    ghost function Value(): Table
      reads this
    {
      Table(items, cas)
    }

    constructor (h: Bytes -> nat)
      ensures Valid() && Value() == Table(map[], 0) && hash == h
    {
      hash := h;
      shards := seq(SHARDS, _ => map[]);
      cas := 0;
      items := map[];
    }

    /** `crashed` tells that the process has gone down, in the constructor of the new item. */
    method StoreItem(item: Item, policy: Policy) returns (stored: bool, exists_: bool, crashed: bool)
      requires Valid() && EndsWithCRLF(item.value)
      modifies this
      ensures Valid() && crashed == TooLong(Lookup(old(Value()), item.key), item, policy)
      ensures !crashed ==> Value() == Stored(old(Value()), item, policy)
      ensures !crashed ==> stored == Accepts(Lookup(old(Value()), item.key), item, policy)
      ensures exists_ == (item.key in old(items)) && (crashed ==> Value() == old(Value()))
    {
      hide TableOk, Distinct, Sharded, EndsWithCRLF, Stored, TooLong;
      ghost var t := Value();
      OldEnds(t, item.key);
      StoredOk(t, item, policy);
      StoredEither(t, item, policy);
      OnlyJoinedTooLong(Lookup(t, item.key), item, policy);
      var i := hash(item.key) % SHARDS;
      OneShard(hash, shards, items, item.key);
      exists_ := item.key in shards[i];
      crashed := false;
      if policy == Set {
        Keep(i, item);
      } else if policy == Add {
        if exists_ {
          return false, exists_, false;
        }
        Keep(i, item);
      } else if policy == Replace {
        if !exists_ {
          return false, exists_, false;
        }
        Keep(i, item);
      } else if policy == Append || policy == Prepend {
        if !exists_ {
          return false, exists_, false;
        }
        crashed := StoreJoined(i, item, policy);
        if crashed {
          return false, exists_, true;
        }
      } else {
        if !exists_ || shards[i][item.key].cas != item.cas {
          return false, exists_, false;
        }
        Keep(i, item);
      }
      stored := true;
    }

    /** Append or prepend to the item that is there. */
    method StoreJoined(i: int, item: Item, policy: Policy) returns (crashed: bool)
      requires policy == Append || policy == Prepend
      requires |shards| == SHARDS && i == hash(item.key) % SHARDS && item.key in shards[i]
      requires Sharded(hash, shards, items) && EndsWithCRLF(shards[i][item.key].value) && EndsWithCRLF(item.value)
      modifies this
      ensures var o := Some(old(shards)[i][item.key]);
              && crashed == TooLong(o, item, policy)
              && (if crashed then unchanged(this)
                  else Sharded(hash, shards, items) && cas == old(cas) + 1
                       && items == old(items)[item.key := NewItem(o, item, policy, cas)])
    {
      hide Sharded, EndsWithCRLF, TooLong, NewItem;
      var newItem;
      newItem, crashed := Joined(shards[i][item.key], item, policy);
      if !crashed {
        assert newItem.key == item.key by {
          JoinedKey(shards[i][item.key], item, policy);
          assert newItem.(cas := 0) == NewItem(Some(shards[i][item.key]), item, policy, 0);
        }
        Keep(i, newItem);
      }
    }

    /** The item that `append` and `prepend` store: the old flags and time, and both values without the inner CRLF. */
    static method Joined(o: Item, item: Item, policy: Policy) returns (r: Item, crashed: bool)
      requires policy == Append || policy == Prepend
      requires EndsWithCRLF(o.value) && EndsWithCRLF(item.value)
      ensures crashed == TooLong(Some(o), item, policy)
      ensures !crashed ==> forall c :: r.(cas := c) == NewItem(Some(o), item, policy, c)
    {
      var newLen := |item.value| + |o.value| - 2;
      if |item.key| + newLen >= INT_LIMIT {
        return item, true;
      }
      crashed := false;
      if policy == Append {
        r := Item(item.key, o.flags, o.exptime, o.value[..|o.value| - 2] + item.value, 0);
      } else {
        r := Item(item.key, o.flags, o.exptime, item.value[..|item.value| - 2] + o.value, 0);
      }
      assert |r.value| == newLen;
    }

    /** Give the item the next version and put it in its shard. */
    method Keep(i: int, item: Item)
      requires Sharded(hash, shards, items) && i == hash(item.key) % SHARDS
      modifies this
      ensures Sharded(hash, shards, items)
      ensures cas == old(cas) + 1 && items == old(items)[item.key := item.(cas := cas)]
    {
      cas := cas + 1;
      Put(i, item.key, item.(cas := cas));
    }

    /** Replace what the shard holds under `key`. */
    method Put(i: int, key: Bytes, item: Item)
      requires Sharded(hash, shards, items) && i == hash(key) % SHARDS
      modifies this`shards, this`items
      ensures Sharded(hash, shards, items) && items == old(items)[key := item]
    {
      PutSharded(hash, shards, items, key, item);
      hide Sharded;
      shards := shards[i := shards[i][key := item]];
      items := items[key := item];
    }

    method GetItem(key: Bytes) returns (r: Option<Item>)
      requires Valid()
      ensures r == Lookup(Value(), key)
    {
      var i := hash(key) % SHARDS;
      r := if key in shards[i] then Some(shards[i][key]) else None;
    }

    method DeleteItem(key: Bytes) returns (found: bool)
      requires Valid()
      modifies this
      ensures Valid() && Value() == Deleted(old(Value()), key)
      ensures found == (key in old(items))
    {
      var i := hash(key) % SHARDS;
      DeletedOk(Value(), key);
      OneShard(hash, shards, items, key);
      RemoveSharded(hash, shards, items, key);
      hide TableOk, Distinct, Sharded;
      found := key in shards[i];
      shards := shards[i := shards[i] - {key}];
      items := items - {key};
    }
  }
}
