/**
  What a memcached client is promised, for every sequence of requests: the answers are those of a map from
  keys to flags, data and version numbers, however the text of the requests is cut into messages.
*/
module MemcacheProtocol {

  import opened MemcacheStore
  import opened MemcacheSession
  import opened MemcacheRequests
  import opened MemcacheRoundTrip

  // ------------------------------------------------------------------- the requests

  /**
    A request.  `Put` is any of the six updates: `data` is followed by `tail`, which should be CRLF, and
    `unique` is the version that only `cas` sends.  `Fetch` is `gets` if it asks for versions.  `Remove` may
    have more words after its key.  `Faulty` is an update with a key that is too long or without the
    numbers it needs, and `Unknown` a line that begins with no command.  A quiet request ends in `noreply`.
  */
  datatype Command =
    | Put(policy: Policy, key: Bytes, flags: nat, exptime: nat, unique: nat, data: Bytes, tail: Bytes, quiet: bool)
    | Fetch(keys: seq<Bytes>, versions: bool)
    | Remove(key: Bytes, more: seq<Bytes>, quiet: bool)
    | AskVersion
    | Quit
    | Shutdown
    | Faulty(policy: Policy, key: Bytes, args: seq<Bytes>, quiet: bool)
    | Unknown(word: Bytes, args: seq<Bytes>, quiet: bool)

  function Word(p: Policy): Bytes {
    match p
    case Set => "set"
    case Add => "add"
    case Replace => "replace"
    case Append => "append"
    case Prepend => "prepend"
    case Cas => "cas"
  }

  ghost function Words(c: Command): seq<Bytes> {
    match c
    case Put(p, key, flags, exptime, unique, data, _, _) =>
      [Word(p), key, Decimal(flags), Decimal(exptime), Decimal(|data|)] + if p == Cas then [Decimal(unique)] else []
    case Fetch(keys, versions) => [if versions then "gets" else "get"] + keys
    case Remove(key, more, _) => ["delete", key] + more
    case AskVersion => ["version"]
    case Quit => ["quit"]
    case Shutdown => ["shutdown"]
    case Faulty(p, key, args, _) => [Word(p), key] + args
    case Unknown(word, args, _) => [word] + args
  }

  predicate Quiet(c: Command) {
    (c.Put? || c.Remove? || c.Faulty? || c.Unknown?) && c.quiet
  }

  ghost function Line(c: Command): Bytes {
    Spaced(Words(c)) + if Quiet(c) then " noreply" else []
  }

  function Value(c: Command): Bytes {
    if c.Put? then c.data + c.tail else []
  }

  /** The request as it is sent. */
  ghost function Wire(c: Command): Bytes {
    Line(c) + CRLF + Value(c)
  }

  ghost function Script(cs: seq<Command>): Bytes {
    if cs == [] then [] else Wire(cs[0]) + Script(cs[1..])
  }

  ghost predicate KeyOk(key: Bytes) {
    Plain(key) && |key| <= LONGEST_KEY
  }

  ghost predicate AllPlain(ts: seq<Bytes>) {
    forall i :: 0 <= i < |ts| ==> Plain(ts[i])
  }

  /** A word that begins with a letter, and so is no number. */
  ghost predicate Lettered(w: Bytes) {
    w != [] && 'a' <= w[0] <= 'z'
  }

  const COMMANDS: seq<Bytes> :=
    ["set", "add", "replace", "append", "prepend", "cas", "get", "gets", "delete", "version", "quit", "shutdown"]

  /**
    What can be sent: numbers that fit, a line within the limit, and a last word that is not taken for
    `noreply`.
  */
  ghost predicate Allowed(c: Command) {
    && |Line(c)| < LONGEST_LINE
    && match c
       case Put(_, key, flags, exptime, unique, data, tail, _) =>
         KeyOk(key) && flags < HALF && exptime < WORD && unique < WORD && |data| + 2 < INT_LIMIT && |tail| == 2
       case Fetch(keys, _) => AllPlain(keys) && (keys != [] ==> keys[|keys| - 1] != "noreply")
       case Remove(key, more, quiet) =>
         Plain(key) && AllPlain(more) && (quiet || (if more == [] then key else more[|more| - 1]) != "noreply")
       case Faulty(p, key, args, quiet) =>
         && Plain(key) && AllPlain(args) && (quiet || Words(c)[|args| + 1] != "noreply")
         && (|key| > LONGEST_KEY
             || exists i :: 0 <= i < (if p == Cas then 4 else 3) && (i >= |args| || Lettered(args[i])))
       case Unknown(word, args, quiet) =>
         && Plain(word) && AllPlain(args) && word !in COMMANDS
         && (quiet || args == [] || args[|args| - 1] != "noreply")
       case _ => true
  }

  // ------------------------------------------------------------------ what they mean

  datatype Entry = Entry(flags: int, data: Bytes, version: int)

  /** The server as a client sees it.  `left` is what a refused `get` has left to be sent with the next one. */
  datatype Cache = Cache(entries: map<Bytes, Entry>, issued: int, left: Bytes, open: bool, stopping: bool)

  predicate Accepted(v: Cache, c: Command)
    requires c.Put?
  {
    match c.policy
    case Set => true
    case Add => c.key !in v.entries
    case Replace => c.key in v.entries
    case Append => c.key in v.entries
    case Prepend => c.key in v.entries
    case Cas => c.key in v.entries && v.entries[c.key].version == c.unique
  }

  /** What a stored update leaves under its key. */
  function NewEntry(v: Cache, c: Command): Entry
    requires c.Put? && Accepted(v, c)
  {
    match c.policy
    case Append => Entry(v.entries[c.key].flags, v.entries[c.key].data + c.data, v.issued + 1)
    case Prepend => Entry(v.entries[c.key].flags, c.data + v.entries[c.key].data, v.issued + 1)
    case _ => Entry(c.flags, c.data, v.issued + 1)
  }

  ghost predicate CacheOk(v: Cache) {
    forall k :: k in v.entries ==> v.entries[k].flags >= 0 && v.entries[k].version >= 0
  }

  function Listing(v: Cache, keys: seq<Bytes>, versions: bool): Bytes
    requires CacheOk(v)
  {
    if keys == [] then []
    else
      var k, rest := keys[0], Listing(v, keys[1..], versions);
      if k !in v.entries then rest
      else
        var e := v.entries[k];
        "VALUE " + k + " " + Decimal(e.flags) + " " + Decimal(|e.data|)
        + (if versions then " " + Decimal(e.version) else []) + "\r\n" + (e.data + CRLF) + rest
  }

  /** The keys before the first one that is too long. */
  function Short(keys: seq<Bytes>): seq<Bytes> {
    if keys == [] || |keys[0]| > LONGEST_KEY then [] else [keys[0]] + Short(keys[1..])
  }

  /** A `delete` takes one word after the key, and that must be 0. */
  predicate Deletes(c: Command)
    requires c.Remove?
  {
    |c.key| <= LONGEST_KEY && (c.more == [] || c.more[0] == "0")
  }

  function Effect(v: Cache, c: Command): Cache
    requires CacheOk(v)
  {
    match c
    case Put(_, key, _, _, _, data, tail, _) =>
      if |data| > LARGEST_VALUE then v.(entries := v.entries - {key})
      else if tail == CRLF && Accepted(v, c) then
        v.(entries := v.entries[key := NewEntry(v, c)], issued := v.issued + 1)
      else v
    case Fetch(keys, versions) =>
      if Short(keys) != keys then v.(left := v.left + Listing(v, Short(keys), versions))
      else v.(left := if v.open then [] else v.left + Listing(v, keys, versions) + "END\r\n")
    case Remove(key, _, _) => if Deletes(c) then v.(entries := v.entries - {key}) else v
    case AskVersion => v
    case Quit => v.(open := false)
    case Shutdown => v.(open := false, stopping := true)
    case Faulty(_, _, _, _) => v
    case Unknown(_, _, _) => v
  }

  /** What the server sends. */
  function Reaction(v: Cache, c: Command): Bytes
    requires CacheOk(v)
  {
    if !v.open || Quiet(c) then []
    else
      match c
      case Put(p, key, _, _, _, data, tail, _) =>
        if |data| > LARGEST_VALUE then "SERVER_ERROR object too large for cache\r\n"
        else if tail != CRLF then "CLIENT_ERROR bad data chunk\r\n"
        else if Accepted(v, c) then "STORED\r\n"
        else if p != Cas then "NOT_STORED\r\n"
        else if key in v.entries then "EXISTS\r\n"
        else "NOT_FOUND\r\n"
      case Fetch(keys, versions) =>
        if Short(keys) != keys then "CLIENT_ERROR bad command line format\r\n"
        else v.left + Listing(v, keys, versions) + "END\r\n"
      case Remove(key, _, _) =>
        if |key| > LONGEST_KEY then "CLIENT_ERROR bad command line format\r\n"
        else if !Deletes(c) then "CLIENT_ERROR bad command line format.  Usage: delete <key> [noreply]\r\n"
        else if key in v.entries then "DELETED\r\n"
        else "NOT_FOUND\r\n"
      case AskVersion => "VERSION 0.01 muduo\r\n"
      case Quit => []
      case Shutdown => []
      case Faulty(_, _, _, _) => "CLIENT_ERROR bad command line format\r\n"
      case Unknown(_, _, _) => "ERROR\r\n"
  }

  /** The joined value would be longer than an `int` can say, which brings the server down. */
  predicate Breaks(v: Cache, c: Command) {
    && c.Put? && (c.policy == Append || c.policy == Prepend) && c.key in v.entries && |c.data| <= LARGEST_VALUE
    && c.tail == CRLF && |c.key| + |v.entries[c.key].data| + |c.data| + 2 >= INT_LIMIT
  }

  lemma EffectOk(v: Cache, c: Command)
    requires CacheOk(v) && v.issued >= 0
    ensures CacheOk(Effect(v, c)) && Effect(v, c).issued >= 0
  {
    hide Listing;
  }

  ghost function After(v: Cache, cs: seq<Command>): Cache
    requires CacheOk(v) && v.issued >= 0
    decreases |cs|
  {
    if cs == [] then v
    else
      EffectOk(v, cs[0]);
      After(Effect(v, cs[0]), cs[1..])
  }

  ghost function Answers(v: Cache, cs: seq<Command>): Bytes
    requires CacheOk(v) && v.issued >= 0
    decreases |cs|
  {
    if cs == [] then []
    else
      EffectOk(v, cs[0]);
      Reaction(v, cs[0]) + Answers(Effect(v, cs[0]), cs[1..])
  }

  /** All requests are allowed, and none brings the server down. */
  ghost predicate Fine(v: Cache, cs: seq<Command>)
    requires CacheOk(v) && v.issued >= 0
    decreases |cs|
  {
    cs != [] ==>
      && Allowed(cs[0]) && !Breaks(v, cs[0])
      && (EffectOk(v, cs[0]);
          Fine(Effect(v, cs[0]), cs[1..]))
  }

  // --------------------------------------------------------------- the abstraction

  ghost function Entries(t: Table): map<Bytes, Entry>
    requires SoundTable(t)
  {
    map k | k in t.items :: Shown(t, k)
  }

  ghost function Shown(t: Table, k: Bytes): Entry
    requires SoundTable(t) && k in t.items
  {
    SoundItem(t, k);
    EntryOf(t.items[k])
  }

  function EntryOf(i: Item): Entry
    requires |i.value| >= 2
  {
    Entry(i.flags, i.value[..|i.value| - 2], i.cas)
  }

  /** What a client can see of the session and the table. */
  ghost function Seen(s: State): Cache
    requires SoundTable(s.table)
  {
    Cache(Entries(s.table), s.table.cas, s.out, s.connected, s.stopping)
  }

  lemma SeenOk(s: State)
    requires SoundTable(s.table)
    ensures CacheOk(Seen(s)) && Seen(s).issued >= 0
  {
    forall k | k in s.table.items
      ensures Shown(s.table, k).flags >= 0 && Shown(s.table, k).version >= 0
    {
      SoundItem(s.table, k);
    }
  }

  /** A session between requests. */
  ghost predicate Between(s: State) {
    StateOk(s) && !s.crashed && s.mode.NewCommand?
  }

  lemma BetweenSound(s: State)
    requires Between(s)
    ensures SoundTable(s.table) && s == Reset(s)
  {
  }

  // -------------------------------------------------------------------- the text

  lemma {:induction false} QuietLine(ts: seq<Bytes>)
    requires ts != [] && forall i :: 0 <= i < |ts| ==> Plain(ts[i])
    ensures var line := Spaced(ts) + " noreply";
            EndsWithNoreply(line) && RequestTokens(line) == ts && NoCR(line)
  {
    hide Spaced, Tokens, Plain, RequestTokens, EndsWithNoreply, NoCR;
    TokensOfSpaced(ts);
    SpacedHasNoCR(ts);
    EndsQuietly(Spaced(ts));
  }

  lemma EndsQuietly(x: Bytes)
    requires forall i :: 0 <= i < |x| ==> x[i] != '\r'
    ensures var line := x + " noreply"; EndsWithNoreply(line) && RequestTokens(line) == Tokens(x) && NoCR(line)
  {
    hide Tokens;
    var tail: Bytes := " noreply";
    assert |tail| == 8 && forall i :: 0 <= i < 8 ==> tail[i] != '\r';
    JoinedEnds(x, tail);
  }

  lemma JoinedEnds(x: Bytes, tail: Bytes)
    requires |tail| == 8 && NoCR(x) && NoCR(tail)
    ensures (x + tail)[|x + tail| - 8..] == tail && (x + tail)[..|x + tail| - 8] == x && NoCR(x + tail)
  {
  }

  lemma PlainWord(p: Policy)
    ensures Plain(Word(p)) && PolicyOf(Word(p)) == Some(p)
  {
  }

  lemma PlainOthers()
    ensures Plain("get") && Plain("gets") && Plain("delete") && Plain("version") && Plain("quit") && Plain("shutdown")
    ensures PolicyOf("get").None? && PolicyOf("gets").None? && PolicyOf("delete").None?
    ensures PolicyOf("version").None? && PolicyOf("quit").None? && PolicyOf("shutdown").None?
  {
  }

  lemma {:induction false} WordsArePlain(c: Command)
    requires Allowed(c)
    ensures forall i :: 0 <= i < |Words(c)| ==> Plain(Words(c)[i])
    ensures Words(c) != [] && (|Words(c)| > 1 && !Quiet(c) ==> Words(c)[|Words(c)| - 1] != "noreply")
  {
    hide Plain, Decimal, Line, Strtoull, PolicyOf;
    PlainOthers();
    if c.Put? || c.Faulty? {
      PlainWord(c.policy);
    }
    if c.Put? {
      NumberIsRead(c.flags);
      NumberIsRead(c.exptime);
      NumberIsRead(|c.data|);
      NumberIsRead(c.unique);
      NotNoreply(|c.data|);
      NotNoreply(c.unique);
    }
  }

  lemma NotNoreply(n: nat)
    ensures Decimal(n) != "noreply"
  {
    DigitsOfDecimal(n);
    assert '0' <= Decimal(n)[0] <= '9';
  }

  lemma {:induction false} LineOf(c: Command)
    requires Allowed(c)
    ensures EndsWithNoreply(Line(c)) == Quiet(c) && RequestTokens(Line(c)) == Words(c) && NoCR(Line(c))
    ensures |Line(c)| < LONGEST_LINE && Words(c) != []
  {
    WordsArePlain(c);
    hide Words, Plain, Spaced, RequestTokens, EndsWithNoreply, NoCR;
    if Quiet(c) {
      QuietLine(Words(c));
    } else {
      LineIs(Words(c));
      assert Spaced(Words(c)) + [] == Spaced(Words(c));
    }
  }

  // ------------------------------------------------------------------- one update

  lemma {:induction false} PutIsRead(c: Command, start: int)
    requires c.Put? && Allowed(c)
    ensures ReadUpdate(c.policy, Words(c)[1..], start)
            == if |c.data| > LARGEST_VALUE then TooLarge(c.key, |c.data|)
               else Wanted(Partial(c.key, c.flags, RelativeTime(ToInt64(c.exptime), start), |c.data| + 2,
                                   if c.policy == Cas then c.unique else 0, []))
  {
    hide Strtoull, Decimal, ToInt32, ToInt64, RelativeTime, Plain, Line, Words;
    NumberIsRead(c.flags);
    NumberIsRead(c.exptime);
    NumberIsRead(|c.data|);
    NumberIsRead(c.unique);
    SizesAreKept(|c.data|, c.flags);
    PutWords(c);
    var args := Words(c)[1..];
    assert NumberAt(args, 1) == Some(c.flags) && NumberAt(args, 2) == Some(c.exptime);
    assert NumberAt(args, 3) == Some(|c.data|) && (c.policy == Cas ==> NumberAt(args, 4) == Some(c.unique));
    hide NumberAt;
  }

  lemma SizesAreKept(n: nat, flags: nat)
    requires n < INT_LIMIT && flags < HALF
    ensures ToInt32(n) == n && flags % HALF == flags
  {
  }

  lemma PutWords(c: Command)
    requires c.Put?
    ensures Words(c) != []
    ensures var args := Words(c)[1..];
            && |args| == (if c.policy == Cas then 5 else 4) && args[0] == c.key && args[1] == Decimal(c.flags)
            && args[2] == Decimal(c.exptime) && args[3] == Decimal(|c.data|)
            && (c.policy == Cas ==> args[4] == Decimal(c.unique))
  {
    hide Decimal, Word;
  }

  /** The session once the line of an update has been read. */
  ghost function Begun(s: State, c: Command): State
    requires c.Put?
  {
    var s1 := s.(requests := s.requests + 1, noreply := c.quiet, command := Word(c.policy), policy := Some(c.policy));
    if |c.data| > LARGEST_VALUE then
      Reply(s1, Text(ObjectTooLarge)).(table := Deleted(s.table, c.key), discard := |c.data| + 2, mode := DiscardValue)
    else
      s1.(item := Some(Partial(c.key, c.flags, RelativeTime(ToInt64(c.exptime), s.start), |c.data| + 2,
                               if c.policy == Cas then c.unique else 0, [])), mode := ReceiveValue)
  }

  lemma {:induction false} PutRequest(s: State, c: Command)
    requires Between(s) && c.Put? && Allowed(c)
    ensures SoundTable(s.table) && Request(s, Line(c)) == Begun(s, c)
  {
    hide Words, Line, RequestTokens, EndsWithNoreply, ReadUpdate, SoundTable, RelativeTime, ToInt64, PolicyOf, Text,
         Allowed, StateOk, Deleted, Dispatch, Request;
    BetweenSound(s);
    LineIsDispatched(s, c);
    PutIsRead(c, s.start);
    PutIsDispatched(s.(requests := s.requests + 1, noreply := c.quiet, command := Word(c.policy)), c);
  }

  lemma PutIsDispatched(s: State, c: Command)
    requires c.Put? && SoundTable(s.table)
    ensures Words(c) != [] && Words(c)[0] == Word(c.policy)
    ensures Dispatch(s, Word(c.policy), Words(c)[1..]) == MemcacheSession.Update(s, c.policy, Words(c)[1..])
  {
    hide PolicyOf, SoundTable, ReadUpdate, Decimal;
    PlainWord(c.policy);
  }

  /** The session once the value has come, too. */
  ghost function Ended(s: State, c: Command): State
    requires c.Put? && SoundTable(s.table) && SoundTable(Begun(s, c).table)
  {
    if |c.data| > LARGEST_VALUE then Reset(Begun(s, c)).(mode := NewCommand)
    else Receive(Begun(s, c), c.data + c.tail)
  }

  lemma DiscardTurn(s: State, x: Bytes, rest: Bytes)
    requires StateOk(s) && !s.crashed && s.mode.DiscardValue? && s.discard == |x|
    ensures Busy(World(s, x + rest)) && Turn(World(s, x + rest)) == World(Reset(s).(mode := NewCommand), rest)
  {
    hide SoundTable, FindCRLF;
    assert (x + rest)[|x|..] == rest;
  }

  lemma {:induction false} PutTurns(s: State, c: Command, rest: Bytes)
    requires Between(s) && c.Put? && Allowed(c) && |c.tail| == 2
    ensures SoundTable(s.table) && SoundTable(Begun(s, c).table)
    ensures !Ended(s, c).crashed ==>
              && StateOk(Ended(s, c))
              && Loop(World(s, Wire(c) + rest)) == Loop(World(Ended(s, c), rest))
  {
    PutRequest(s, c);
    LineOf(c);
    assert !Request(s, Line(c)).crashed;
    assert Wire(c) + rest == Line(c) + CRLF + (c.data + c.tail + rest);
    var s1, x := Begun(s, c), c.data + c.tail;
    assert s1.mode == (if |c.data| > LARGEST_VALUE then DiscardValue else ReceiveValue) && !s1.crashed;
    assert if |c.data| > LARGEST_VALUE then s1.discard == |x| else s1.item.Some? && Needed(s1) == |x|;
    hide Line, Words, RequestTokens, EndsWithNoreply, NoCR, Request, Begun, Allowed, Loop, Wire, Receive, SoundTable;
    RequestOk(s, Line(c));
    LineTurn(s, Line(c), x + rest);
    SoundOf(s1);
    if |c.data| > LARGEST_VALUE {
      DiscardTurn(s1, x, rest);
      LoopTurn(World(s1, x + rest));
    } else {
      ValueTurn(s1, x, rest);
    }
  }

  lemma LoopTurn(w: World)
    requires StateOk(w.s) && Busy(w)
    ensures StateOk(Turn(w).s) && Loop(w) == Loop(Turn(w))
  {
    TurnOk(w);
    hide Turn, StateOk, Busy;
  }

  /** The item that an update asks to store. */
  ghost function ItemOf(c: Command, start: int): Item
    requires c.Put?
  {
    Item(c.key, c.flags, RelativeTime(ToInt64(c.exptime), start), c.data + c.tail,
         if c.policy == Cas then c.unique else 0)
  }

  lemma TailIs(c: Command)
    requires c.Put? && |c.tail| == 2
    ensures EndsWithCRLF(c.data + c.tail) <==> c.tail == CRLF
  {
    var x := c.data + c.tail;
    assert x[|x| - 2..] == c.tail;
  }

  /** The decision of `storeItem` is that of the map. */
  lemma {:induction false} SameDecision(t: Table, v: Cache, c: Command, item: Item)
    requires SoundTable(t) && v.entries == Entries(t) && v.issued == t.cas && c.Put? && |c.tail| == 2
    requires item.key == c.key && item.value == c.data + c.tail && item.flags == c.flags
    requires c.policy == Cas ==> item.cas == c.unique
    ensures Accepts(Lookup(t, c.key), item, c.policy) == Accepted(v, c)
    ensures |c.data| <= LARGEST_VALUE ==> (Overflows(t, item, c.policy) <==> Breaks(v, c))
  {
    TailIs(c);
    SoundItem(t, c.key);
    hide SoundTable, EndsWithCRLF;
    assert c.key in t.items ==> v.entries[c.key] == Shown(t, c.key);
  }

  /** So is what it stores. */
  lemma {:induction false} SameEntry(t: Table, v: Cache, c: Command, item: Item)
    requires SoundTable(t) && v.entries == Entries(t) && v.issued == t.cas && c.Put? && c.tail == CRLF
    requires item.key == c.key && item.value == c.data + c.tail && item.flags == c.flags
    requires c.policy == Cas ==> item.cas == c.unique
    requires EndsWithCRLF(item.value) && (item.key in t.items ==> EndsWithCRLF(t.items[item.key].value))
    requires SoundTable(Stored(t, item, c.policy)) && Accepted(v, c)
    ensures var u := Stored(t, item, c.policy);
            Entries(u) == v.entries[c.key := NewEntry(v, c)] && u.cas == t.cas + 1
  {
    SameDecision(t, v, c, item);
    SameNewEntry(t, v, c, item);
    StoredIs(t, item, c.policy);
    hide SoundTable, EndsWithCRLF, Stored, NewEntry, NewItem, Accepts, Accepted, Lookup, EntryOf, Entries;
    EntriesPut(t, Stored(t, item, c.policy), c.key);
  }

  lemma EntriesPut(t: Table, u: Table, key: Bytes)
    requires SoundTable(t) && SoundTable(u) && key in u.items && u.items == t.items[key := u.items[key]]
    ensures Entries(u) == Entries(t)[key := Shown(u, key)]
  {
    hide SoundTable;
    assert forall k :: k in u.items && k != key ==> Shown(u, k) == Shown(t, k);
  }

  lemma {:induction false} SameNewEntry(t: Table, v: Cache, c: Command, item: Item)
    requires SoundTable(t) && v.entries == Entries(t) && v.issued == t.cas && c.Put? && c.tail == CRLF
    requires item.key == c.key && item.value == c.data + c.tail && item.flags == c.flags
    requires EndsWithCRLF(item.value) && (item.key in t.items ==> EndsWithCRLF(t.items[item.key].value))
    requires Accepted(v, c) && Accepts(Lookup(t, c.key), item, c.policy)
    ensures var n := NewItem(Lookup(t, c.key), item, c.policy, t.cas + 1);
            |n.value| >= 2 && EntryOf(n) == NewEntry(v, c)
  {
    JoinedData(t, c, item);
    assert c.key in t.items ==> v.entries[c.key] == Shown(t, c.key);
    hide SoundTable, Entries;
  }

  lemma JoinedData(t: Table, c: Command, item: Item)
    requires c.Put? && item.value == c.data + CRLF && SoundTable(t)
    ensures item.value[..|item.value| - 2] == c.data
    ensures c.key in t.items ==>
              var o := t.items[c.key].value;
              && |o| >= 2
              && (o[..|o| - 2] + item.value)[..|o| - 2 + |item.value| - 2] == o[..|o| - 2] + c.data
              && (c.data + o)[..|c.data| + |o| - 2] == c.data + o[..|o| - 2]
  {
    SoundItem(t, c.key);
  }

  lemma DeletedSeen(t: Table, key: Bytes)
    requires SoundTable(t)
    ensures SoundTable(Deleted(t, key)) && Entries(Deleted(t, key)) == Entries(t) - {key}
    ensures Deleted(t, key).cas == t.cas
  {
    DeletedSound(t, key);
    hide SoundTable;
  }

  /** The session after the request has been read. */
  ghost predicate Means(s: State, c: Command, s': State)
    requires SoundTable(s.table) && CacheOk(Seen(s))
  {
    && !s'.crashed && s'.mode.NewCommand? && SoundTable(s'.table) && s'.requests == s.requests + 1
    && Seen(s') == Effect(Seen(s), c) && s'.sent == s.sent + Reaction(Seen(s), c)
  }

  /** What an update does, and what it answers. */
  lemma {:induction false} PutMeans(s: State, c: Command)
    requires Between(s) && c.Put? && Allowed(c) && |c.tail| == 2
    requires SoundTable(s.table) && SoundTable(Begun(s, c).table) && CacheOk(Seen(s)) && !Breaks(Seen(s), c)
    ensures Means(s, c, Ended(s, c))
  {
    if |c.data| > LARGEST_VALUE {
      DeletedSeen(s.table, c.key);
      hide SoundTable, Entries, RelativeTime, ToInt64;
    } else {
      ValueMeans(s, c);
    }
  }

  /** The session after an update whose value fits and does not break the server. */
  lemma {:induction false} EndedIs(s: State, c: Command)
    requires Between(s) && c.Put? && |c.tail| == 2 && |c.data| <= LARGEST_VALUE && SoundTable(s.table)
    requires !Overflows(s.table, ItemOf(c, s.start), c.policy)
    ensures var item := ItemOf(c, s.start);
            && (item.key in s.table.items ==> EndsWithCRLF(s.table.items[item.key].value))
            && (EndsWithCRLF(item.value) <==> c.tail == CRLF)
            && var answer := if c.tail == CRLF then Answer(Lookup(s.table, c.key), item, c.policy) else Text(BadChunk);
            Ended(s, c) == s.(requests := s.requests + 1,
                              sent := s.sent + (if c.quiet || !s.connected then [] else answer),
                              table := if c.tail == CRLF then Stored(s.table, item, c.policy) else s.table)
  {
    TailIs(c);
    SoundEnds(s.table, c.key);
    BetweenSound(s);
    hide SoundTable, RelativeTime, ToInt64, EndsWithCRLF, Overflows, Lookup, Stored, Answer, Text, StateOk, Finish;
    var s1, x := Begun(s, c), c.data + c.tail;
    ReceivesAtOnce(s1, x);
    FinishIs(s1.(item := Some(s1.item.value.(received := x))));
  }

  lemma ReceivesAtOnce(s: State, x: Bytes)
    requires SoundTable(s.table) && s.item.Some? && s.policy.Some? && s.item.value.received == [] && Needed(s) == |x|
    ensures Receive(s, x) == Finish(s.(item := Some(s.item.value.(received := x))))
  {
    hide SoundTable, Finish;
    assert [] + x == x;
  }

  lemma FinishIs(s: State)
    requires SoundTable(s.table) && s.item.Some? && s.policy.Some?
    requires !Overflows(s.table, Completed(s.item.value), s.policy.value)
    ensures var item, p := Completed(s.item.value), s.policy.value;
            var ok := EndsWithCRLF(item.value);
            var answer := if ok then Answer(Lookup(s.table, item.key), item, p) else Text(BadChunk);
            && (item.key in s.table.items ==> EndsWithCRLF(s.table.items[item.key].value))
            && Finish(s) == Reset(s).(mode := NewCommand,
                                      sent := s.sent + (if s.noreply || !s.connected then [] else answer),
                                      table := if ok then Stored(s.table, item, p) else s.table)
  {
    hide SoundTable, EndsWithCRLF, Overflows, Lookup, Stored, Answer, Text;
    SoundEnds(s.table, s.item.value.key);
    assert s.sent + [] == s.sent;
  }

  lemma {:induction false} ValueMeans(s: State, c: Command)
    requires Between(s) && c.Put? && |c.tail| == 2 && |c.data| <= LARGEST_VALUE
    requires SoundTable(s.table) && CacheOk(Seen(s)) && !Breaks(Seen(s), c)
    ensures Means(s, c, Ended(s, c))
  {
    var t, v, item := s.table, Seen(s), ItemOf(c, s.start);
    hide SoundTable, Entries, ItemOf, EndsWithCRLF, Accepted, NewEntry, NewItem, Accepts, Breaks, Overflows, Ended,
         Answer, StateOk, Lookup, Stored, CacheOk;
    SameDecision(t, v, c, item) by {
      ItemIs(c, s.start);
    }
    EndedIs(s, c);
    PutEffect(v, c);
    if c.tail == CRLF {
      ItemIs(c, s.start);
      StoredSound(t, item, c.policy);
      if Accepted(v, c) {
        SameEntry(t, v, c, item);
      } else {
        NotStoredIs(t, item, c.policy);
      }
      if v.open && !c.quiet {
        AnswerIs(t, v, c, item);
      }
    }
    hide Effect, Reaction;
  }

  lemma ItemIs(c: Command, start: int)
    requires c.Put?
    ensures var item := ItemOf(c, start);
            && item.key == c.key && item.flags == c.flags && item.value == c.data + c.tail
            && (c.policy == Cas ==> item.cas == c.unique)
  {
  }

  lemma NotStoredIs(t: Table, item: Item, p: Policy)
    requires EndsWithCRLF(item.value) && (item.key in t.items ==> EndsWithCRLF(t.items[item.key].value))
    requires !Accepts(Lookup(t, item.key), item, p)
    ensures Stored(t, item, p) == t
  {
  }

  lemma PutEffect(v: Cache, c: Command)
    requires CacheOk(v) && c.Put? && |c.data| <= LARGEST_VALUE
    ensures Effect(v, c)
            == if c.tail == CRLF && Accepted(v, c)
               then v.(entries := v.entries[c.key := NewEntry(v, c)], issued := v.issued + 1) else v
    ensures c.tail != CRLF || !v.open || c.quiet ==>
              Reaction(v, c) == if !v.open || c.quiet then [] else Text(BadChunk)
  {
    hide Accepted, NewEntry, CacheOk;
  }

  lemma AnswerIs(t: Table, v: Cache, c: Command, item: Item)
    requires c.Put? && SoundTable(t) && v.entries == Entries(t) && c.tail == CRLF && |c.data| <= LARGEST_VALUE
    requires Accepts(Lookup(t, c.key), item, c.policy) == Accepted(v, c) && v.open && CacheOk(v) && !c.quiet
    ensures Answer(Lookup(t, c.key), item, c.policy) == Reaction(v, c)
  {
    hide SoundTable, Accepts, Accepted;
  }

  // ------------------------------------------------------------- the other requests

  lemma OutputIs(t: Table, v: Cache, key: Bytes, versions: bool)
    requires SoundTable(t) && v.entries == Entries(t) && CacheOk(v)
    ensures OutputFor(t, key, versions) == Listing(v, [key], versions)
  {
    hide SoundTable, Decimal, Entries, CacheOk;
    ListingOfOne(v, key, versions);
    SoundItem(t, key);
    EntriesHave(t, key);
    if key in t.items {
      ShownIs(t, key);
    }
    hide Listing;
  }

  lemma ShownIs(t: Table, key: Bytes)
    requires SoundTable(t) && key in t.items
    ensures Entries(t)[key] == Shown(t, key)
    ensures var i, e := t.items[key], Shown(t, key);
            i.key == key && i.value == e.data + CRLF && i.flags == e.flags && i.cas == e.version
  {
    var i := t.items[key];
    assert ItemOk(t, key);
    assert i.value == i.value[..|i.value| - 2] + i.value[|i.value| - 2..];
  }

  lemma ListingMore(v: Cache, key: Bytes, keys: seq<Bytes>, versions: bool)
    requires CacheOk(v)
    ensures Listing(v, [key] + keys, versions) == Listing(v, [key], versions) + Listing(v, keys, versions)
  {
    assert ([key] + keys)[1..] == keys && [key][1..] == [];
    hide Decimal;
  }

  lemma {:induction false} GetMeans(s: State, v: Cache, keys: seq<Bytes>, versions: bool)
    requires SoundTable(s.table) && v.entries == Entries(s.table) && CacheOk(v)
    ensures Get(s, keys, versions)
            == if Short(keys) == keys then Flush(s.(out := s.out + Listing(v, keys, versions) + "END\r\n"))
               else Reply(s.(out := s.out + Listing(v, Short(keys), versions)), Text(BadLine))
    decreases |keys|
  {
    hide SoundTable, OutputFor, Listing, Flush, Entries, CacheOk, Text, Reply, Short;
    if keys == [] {
      NothingListed(v, versions);
      ShortStops(keys);
      EndIs();
      assert s.out + [] == s.out;
    } else if |keys[0]| > LONGEST_KEY {
      NothingListed(v, versions);
      ShortStops(keys);
      assert s.out + [] == s.out;
    } else {
      var k, rest := keys[0], keys[1..];
      OutputIs(s.table, v, k, versions);
      ShortGoesOn(keys);
      var a, b := Listing(v, [k], versions), Listing(v, Short(rest), versions);
      ListingMore(v, k, Short(rest), versions);
      GetMeans(s.(out := s.out + a), v, rest, versions);
      assert s.out + a + b == s.out + (a + b);
    }
  }

  lemma ShortStops(keys: seq<Bytes>)
    requires keys == [] || |keys[0]| > LONGEST_KEY
    ensures Short(keys) == []
  {
  }

  lemma ShortGoesOn(keys: seq<Bytes>)
    requires keys != [] && |keys[0]| <= LONGEST_KEY
    ensures Short(keys) == [keys[0]] + Short(keys[1..]) && (Short(keys) == keys <==> Short(keys[1..]) == keys[1..])
  {
    var k, rest := keys[0], keys[1..];
    assert keys == [k] + rest;
    assert ([k] + Short(rest))[1..] == Short(rest);
  }

  lemma EndIs()
    ensures Text(End) == "END\r\n"
  {
  }

  lemma NothingListed(v: Cache, versions: bool)
    requires CacheOk(v)
    ensures Listing(v, [], versions) == []
  {
  }

  /** The line of a request is dispatched on its words. */
  lemma {:induction false} LineIsDispatched(s: State, c: Command)
    requires Between(s) && Allowed(c) && SoundTable(s.table)
    ensures Words(c) != []
    ensures Request(s, Line(c))
            == Dispatch(s.(requests := s.requests + 1, noreply := Quiet(c), command := Words(c)[0]),
                        Words(c)[0], Words(c)[1..])
  {
    hide Words, Line, RequestTokens, EndsWithNoreply, SoundTable, Dispatch, Allowed, StateOk, NoCR, Quiet,
         Text, Between;
    LineOf(c);
    BetweenSound(s);
  }

  lemma {:induction false} FetchMeans(s: State, c: Command)
    requires Between(s) && c.Fetch? && Allowed(c) && SoundTable(s.table) && CacheOk(Seen(s))
    ensures Means(s, c, Request(s, Line(c)))
  {
    LineIsDispatched(s, c);
    BetweenSound(s);
    var w := if c.versions then "gets" else "get";
    assert Words(c)[0] == w && Words(c)[1..] == c.keys;
    hide Words, Line, SoundTable, PolicyOf, Allowed, StateOk, Get, Listing, Entries, Request, Plain;
    PlainOthers();
    var s1 := s.(requests := s.requests + 1, noreply := false, command := w);
    GetMeans(s1, Seen(s), c.keys, c.versions);
    FetchSeen(s, c, s1, Reset(Get(s1, c.keys, c.versions)));
  }

  lemma FetchSeen(s: State, c: Command, s1: State, s': State)
    requires c.Fetch? && SoundTable(s.table) && CacheOk(Seen(s)) && !s.crashed && s.mode.NewCommand?
    requires s1 == s.(requests := s1.requests, noreply := false, command := s1.command)
    requires s1.requests == s.requests + 1
    requires s' == Reset(if Short(c.keys) == c.keys
                         then Flush(s1.(out := s1.out + Listing(Seen(s), c.keys, c.versions) + "END\r\n"))
                         else Reply(s1.(out := s1.out + Listing(Seen(s), Short(c.keys), c.versions)), Text(BadLine)))
    ensures Means(s, c, s')
  {
    hide SoundTable, Listing, Entries, Short;
    assert s.sent + [] == s.sent;
  }

  lemma {:induction false} RemoveMeans(s: State, c: Command)
    requires Between(s) && c.Remove? && Allowed(c) && SoundTable(s.table) && CacheOk(Seen(s))
    ensures Means(s, c, Request(s, Line(c)))
  {
    hide Words, Line, SoundTable, Allowed, StateOk, Request, Dispatch, DeleteKey, Means;
    LineIsDispatched(s, c);
    RemoveWords(c);
    var s1 := s.(requests := s.requests + 1, noreply := c.quiet, command := "delete");
    DeleteIsDispatched(s1, [c.key] + c.more);
    RemoveSeen(s, c, s1);
  }

  lemma RemoveWords(c: Command)
    requires c.Remove?
    ensures Words(c) != [] && Words(c)[0] == "delete" && Words(c)[1..] == [c.key] + c.more
  {
  }

  lemma DeleteIsDispatched(s: State, args: seq<Bytes>)
    requires SoundTable(s.table) && args != []
    ensures Dispatch(s, "delete", args) == Reset(DeleteKey(s, args))
  {
    hide SoundTable, DeleteKey, PolicyOf, Update, Get;
    PlainOthers();
  }

  lemma RemoveSeen(s: State, c: Command, s1: State)
    requires c.Remove? && SoundTable(s.table) && CacheOk(Seen(s)) && !s.crashed && s.mode.NewCommand?
    requires s1 == s.(requests := s.requests + 1, noreply := c.quiet, command := s1.command)
    ensures Means(s, c, Reset(DeleteKey(s1, [c.key] + c.more)))
  {
    hide SoundTable, Entries, Deleted, CacheOk, DeleteKey;
    DeletedSeen(s.table, c.key);
    EntriesHave(s.table, c.key);
    if Deletes(c) {
      DeleteIs(s1, c.key, c.more);
    } else {
      DeleteIsRefused(s1, c.key, c.more);
    }
  }

  lemma DeleteIs(s: State, key: Bytes, more: seq<Bytes>)
    requires |key| <= LONGEST_KEY && (more == [] || more[0] == "0")
    ensures DeleteKey(s, [key] + more)
            == s.(sent := s.sent + (if s.noreply || !s.connected then []
                                    else if key in s.table.items then "DELETED\r\n" else "NOT_FOUND\r\n"),
                  table := Deleted(s.table, key))
  {
    assert s.sent + [] == s.sent;
    assert key !in s.table.items ==> s.table.items - {key} == s.table.items;
    assert more != [] ==> ([key] + more)[1] == more[0];
  }

  lemma DeleteIsRefused(s: State, key: Bytes, more: seq<Bytes>)
    requires |key| > LONGEST_KEY || (more != [] && more[0] != "0")
    ensures DeleteKey(s, [key] + more)
            == s.(sent := s.sent + (if s.noreply || !s.connected then [] else if |key| > LONGEST_KEY
                                    then "CLIENT_ERROR bad command line format\r\n"
                                    else "CLIENT_ERROR bad command line format.  Usage: delete <key> [noreply]\r\n"))
  {
    assert s.sent + [] == s.sent;
    assert more != [] ==> ([key] + more)[1] == more[0];
  }

  lemma EntriesHave(t: Table, key: Bytes)
    requires SoundTable(t)
    ensures key in Entries(t) <==> key in t.items
  {
    hide SoundTable;
  }

  lemma {:induction false} WordMeans(s: State, c: Command)
    requires Between(s) && (c.AskVersion? || c.Quit? || c.Shutdown?) && Allowed(c)
    requires SoundTable(s.table) && CacheOk(Seen(s))
    ensures Means(s, c, Request(s, Line(c)))
  {
    hide Line, SoundTable, PolicyOf, Allowed, StateOk, Entries, Request, Plain, Update, Get, CacheOk;
    LineIsDispatched(s, c);
    BetweenSound(s);
    PlainOthers();
    assert s.sent + [] == s.sent;
    assert Words(c)[0] == (if c.AskVersion? then "version" else if c.Quit? then "quit" else "shutdown");
    hide Words;
  }

  /** A word that begins with a letter is no number. */
  lemma LetteredIsNone(w: Bytes)
    requires Lettered(w)
    ensures Strtoull(w).None?
  {
  }

  lemma {:induction false} FaultyIsRefused(c: Command, start: int)
    requires c.Faulty? && Allowed(c)
    ensures ReadUpdate(c.policy, Words(c)[1..], start) == BadFormat
  {
    var args := Words(c)[1..];
    assert args == [c.key] + c.args;
    if |c.key| <= LONGEST_KEY {
      var i :| 0 <= i < (if c.policy == Cas then 4 else 3) && (i >= |c.args| || Lettered(c.args[i]));
      assert NumberAt(args, i + 1).None? by {
        if i < |c.args| {
          LetteredIsNone(c.args[i]);
        }
        hide Strtoull;
      }
    }
    hide Strtoull, Line, Words, Lettered, Plain;
  }

  lemma {:induction false} FaultyMeans(s: State, c: Command)
    requires Between(s) && c.Faulty? && Allowed(c) && SoundTable(s.table) && CacheOk(Seen(s))
    ensures Means(s, c, Request(s, Line(c)))
  {
    hide Line, SoundTable, PolicyOf, Allowed, StateOk, Entries, Request, Plain, ReadUpdate, CacheOk;
    LineIsDispatched(s, c);
    BetweenSound(s);
    PlainWord(c.policy);
    FaultyIsRefused(c, s.start);
    assert s.sent + [] == s.sent;
    assert Words(c)[0] == Word(c.policy);
    hide Words;
  }

  lemma {:induction false} UnknownMeans(s: State, c: Command)
    requires Between(s) && c.Unknown? && Allowed(c) && SoundTable(s.table) && CacheOk(Seen(s))
    ensures Means(s, c, Request(s, Line(c)))
  {
    NoCommand(c.word);
    hide Line, SoundTable, PolicyOf, Allowed, StateOk, Entries, Request, Plain, CacheOk;
    LineIsDispatched(s, c);
    BetweenSound(s);
    assert s.sent + [] == s.sent;
  }

  lemma NoCommand(w: Bytes)
    requires w !in COMMANDS
    ensures PolicyOf(w).None? && w != "get" && w != "gets" && w != "delete" && w != "version" && w != "quit"
    ensures w != "shutdown"
  {
    assert COMMANDS[0] == "set" && COMMANDS[1] == "add" && COMMANDS[2] == "replace" && COMMANDS[3] == "append";
    assert COMMANDS[4] == "prepend" && COMMANDS[5] == "cas" && COMMANDS[6] == "get" && COMMANDS[7] == "gets";
    assert COMMANDS[8] == "delete" && COMMANDS[9] == "version" && COMMANDS[10] == "quit";
    assert COMMANDS[11] == "shutdown";
  }

  lemma {:induction false} OtherMeans(s: State, c: Command)
    requires Between(s) && !c.Put? && Allowed(c) && SoundTable(s.table) && CacheOk(Seen(s))
    ensures Means(s, c, Request(s, Line(c)))
  {
    hide Means, Between, Allowed, SoundTable, Seen;
    match c {
      case Fetch(_, _) => FetchMeans(s, c);
      case Remove(_, _, _) => RemoveMeans(s, c);
      case Faulty(_, _, _, _) => FaultyMeans(s, c);
      case Unknown(_, _, _) => UnknownMeans(s, c);
      case _ => WordMeans(s, c);
    }
  }

  // ------------------------------------------------------------------- all requests

  /** One request, with whatever follows it. */
  lemma {:induction false} CommandTurns(s: State, c: Command, rest: Bytes) returns (s': State)
    requires Between(s) && SoundTable(s.table) && CacheOk(Seen(s)) && Allowed(c) && !Breaks(Seen(s), c)
    ensures Between(s') && Means(s, c, s') && Loop(World(s, Wire(c) + rest)) == Loop(World(s', rest))
  {
    hide Loop, SoundTable, Effect, Reaction, Breaks, Wire, Line;
    if c.Put? {
      PutTurns(s, c, rest);
      s' := Ended(s, c);
      hide StateOk, Ended, Begun, Seen;
      PutMeans(s, c);
    } else {
      LineOf(c);
      OtherMeans(s, c);
      s' := Request(s, Line(c));
      WireOf(c, rest);
      hide StateOk, Request, Seen, RequestTokens, EndsWithNoreply, Words, Allowed, NoCR;
      LineTurn(s, Line(c), rest);
    }
  }

  lemma WireOf(c: Command, rest: Bytes)
    ensures Wire(c) + rest == Line(c) + CRLF + (Value(c) + rest)
    ensures !c.Put? ==> Wire(c) + rest == Line(c) + CRLF + rest
  {
    hide Line;
  }

  /** A request of which the end is missing is waited for. */
  lemma {:induction false} PartWaits(s: State, c: Command, q: Bytes)
    requires Between(s) && Allowed(c) && q <= Wire(c) && |q| < |Wire(c)|
    ensures !CutOff(Loop(World(s, q)))
  {
    LineOf(c);
    var line := Line(c);
    hide Line, Words, RequestTokens, EndsWithNoreply, FindCRLF;
    if |q| < |line| + 2 {
      PrefixOfFirst(q, line + CRLF, Value(c));
      hide Loop, NoCR, StateOk;
      PartOfLine(s, line, q);
    } else {
      var r := q[|line| + 2..];
      PrefixAfter(q, line + CRLF, Value(c));
      assert q == line + CRLF + r && c.Put? && |r| < |c.data| + |c.tail|;
      PutRequest(s, c);
      PartOfPut(s, c, r);
    }
  }

  lemma {:induction false} PartOfPut(s: State, c: Command, r: Bytes)
    requires Between(s) && c.Put? && Allowed(c) && |c.tail| == 2 && |r| < |c.data| + 2
    ensures !CutOff(Loop(World(s, Line(c) + CRLF + r)))
  {
    PutRequest(s, c);
    LineOf(c);
    var s1 := Begun(s, c);
    assert s1.mode == (if |c.data| > LARGEST_VALUE then DiscardValue else ReceiveValue) && !s1.crashed;
    assert if |c.data| > LARGEST_VALUE then s1.discard == |c.data| + 2
           else s1.item.Some? && Needed(s1) == |c.data| + 2;
    RequestOk(s, Line(c));
    hide Line, Words, RequestTokens, EndsWithNoreply, NoCR, Request, Begun, Allowed, Receive, SoundTable;
    LineTurn(s, Line(c), r);
    if |c.data| > LARGEST_VALUE {
      PartOfDiscard(s1, r);
    } else {
      PartOfValue(s1, r);
    }
  }

  lemma PartOfDiscard(s: State, r: Bytes)
    requires StateOk(s) && !s.crashed && s.mode.DiscardValue? && |r| < s.discard
    ensures Loop(World(s, r)).s.mode.DiscardValue?
  {
    if r != [] {
      LoopTurn(World(s, r));
      hide SoundTable, FindCRLF;
      assert Turn(World(s, r)) == World(s.(discard := s.discard - |r|), []);
    }
  }

  lemma {:induction false} AllTurns(s: State, cs: seq<Command>)
    requires Between(s) && SoundTable(s.table) && CacheOk(Seen(s)) && Seen(s).issued >= 0 && Fine(Seen(s), cs)
    ensures var w := Loop(World(s, Script(cs)));
            && w.buf == [] && Between(w.s) && SoundTable(w.s.table) && w.s.requests == s.requests + |cs|
            && Seen(w.s) == After(Seen(s), cs) && w.s.sent == s.sent + Answers(Seen(s), cs)
    decreases |cs|
  {
    hide SoundTable, Effect, Reaction, Breaks, Wire, Allowed, Seen, Loop, StateOk, CacheOk;
    if cs == [] {
      LoopOfNothing(s);
      assert s.sent + [] == s.sent;
    } else {
      var c, rest := cs[0], cs[1..];
      var s1 := CommandTurns(s, c, Script(rest));
      EffectOk(Seen(s), c);
      hide Between, Fine;
      assert Fine(Seen(s1), rest);
      AllTurns(s1, rest);
      var a, b := Reaction(Seen(s), c), Answers(Seen(s1), rest);
      assert s.sent + a + b == s.sent + (a + b);
    }
  }

  lemma {:induction false} NeverCutOff(s: State, cs: seq<Command>, p: Bytes)
    requires Between(s) && SoundTable(s.table) && CacheOk(Seen(s)) && Seen(s).issued >= 0 && Fine(Seen(s), cs)
    requires p <= Script(cs)
    ensures !CutOff(Loop(World(s, p)))
    decreases |cs|
  {
    hide SoundTable, Effect, Reaction, Breaks, Wire, Allowed, Seen;
    if cs == [] {
      LoopOfNothing(s);
      assert p == [];
    } else {
      var c := cs[0];
      if |p| < |Wire(c)| {
        PrefixOfFirst(p, Wire(c), Script(cs[1..]));
        assert p <= Wire(c);
        hide StateOk, Loop, CutOff;
        PartWaits(s, c, p);
      } else {
        PrefixAfter(p, Wire(c), Script(cs[1..]));
        var q := p[|Wire(c)|..];
        var s1 := CommandTurns(s, c, q);
        EffectOk(Seen(s), c);
        hide StateOk, Loop, Between, CutOff;
        NeverCutOff(s1, cs[1..], q);
      }
    }
  }

  /**
    For every sequence of requests that the protocol allows and that does not break the server, in whatever
    pieces its text arrives: the server answers what the map answers, and a client sees of the table what
    is in the map.
  */
  lemma {:induction false} ServerIsMap(s: State, cs: seq<Command>, pieces: seq<Bytes>)
    requires Between(s) && Joined(pieces) == Script(cs)
    requires SoundTable(s.table) && CacheOk(Seen(s)) && Seen(s).issued >= 0 && Fine(Seen(s), cs)
    ensures var w := Messages(World(s, []), pieces);
            && w.buf == [] && Between(w.s) && SoundTable(w.s.table) && w.s.requests == s.requests + |cs|
            && Seen(w.s) == After(Seen(s), cs) && w.s.sent == s.sent + Answers(Seen(s), cs)
  {
    hide SoundTable, Seen, After, Answers, Fine, Loop, StateOk, CutOff, Messages, Fed, CacheOk, Script, Joined, Busy;
    var w0 := World(s, []);
    forall n | 0 < n <= |pieces|
      ensures !CutOff(Fed(w0, Joined(pieces[..n])))
    {
      JoinedPrefix(pieces, n);
      FedIs(s, Joined(pieces[..n]));
      NeverCutOff(s, cs, Joined(pieces[..n]));
    }
    FedIs(s, Script(cs));
    CutsMatterIff(w0, pieces);
    assert pieces[..|pieces|] == pieces;
    AllTurns(s, cs);
  }

  lemma FedIs(s: State, x: Bytes)
    requires Between(s)
    ensures !Busy(World(s, [])) && Fed(World(s, []), x) == Loop(World(s, x))
  {
    hide StateOk, Loop, FindCRLF;
    assert [] + x == x;
  }

  // ------------------------------------------------------------------- conversations

  /** The line of an update, of a `delete` and of a `get` of one key is always short enough. */
  lemma {:induction false} UpdateIsAllowed(c: Command)
    requires c.Put? && KeyOk(c.key) && c.flags < HALF && c.exptime < WORD && c.unique < WORD
    requires |c.data| + 2 < INT_LIMIT && |c.tail| == 2
    ensures Allowed(c)
  {
    WordsAreShort(c.flags);
    WordsAreShort(c.exptime);
    WordsAreShort(|c.data|);
    WordsAreShort(c.unique);
    hide Decimal, Plain;
    var ts := [Word(c.policy), c.key, Decimal(c.flags), Decimal(c.exptime), Decimal(|c.data|)];
    Spaced5(ts[0], ts[1], ts[2], ts[3], ts[4]);
    if c.policy == Cas {
      SpacedSnoc(ts + [Decimal(c.unique)]);
      assert (ts + [Decimal(c.unique)])[..5] == ts;
    } else {
      assert ts + [] == ts;
    }
    assert |Word(c.policy)| <= 7;
    hide Spaced, Word;
  }

  lemma KeyIsAllowed(c: Command)
    requires (c.Remove? && KeyOk(c.key) && c.more == [] && (c.quiet || c.key != "noreply"))
             || (c.Fetch? && |c.keys| == 1 && KeyOk(c.keys[0]) && c.keys[0] != "noreply") || c.AskVersion?
    ensures Allowed(c)
    ensures c.Remove? ==> Deletes(c)
    ensures c.Fetch? ==> Short(c.keys) == c.keys
  {
    if c.Remove? || c.Fetch? {
      SpacedSnoc(Words(c));
      assert Words(c)[..1] == [Words(c)[0]];
    }
    hide Plain;
  }

  lemma FirstRequest(v: Cache, c: Command, cs: seq<Command>)
    requires CacheOk(v) && v.issued >= 0
    ensures CacheOk(Effect(v, c)) && Effect(v, c).issued >= 0
    ensures Fine(v, [c] + cs) <==> Allowed(c) && !Breaks(v, c) && Fine(Effect(v, c), cs)
    ensures After(v, [c] + cs) == After(Effect(v, c), cs)
    ensures Answers(v, [c] + cs) == Reaction(v, c) + Answers(Effect(v, c), cs)
  {
    hide Effect, Reaction, Breaks, Allowed, CacheOk;
    EffectOk(v, c);
    assert ([c] + cs)[0] == c && ([c] + cs)[1..] == cs;
  }

  /** Three requests in a row. */
  lemma {:induction false} ThreeRequests(v: Cache, a: Command, b: Command, c: Command)
    requires CacheOk(v) && v.issued >= 0
    ensures CacheOk(Effect(v, a)) && CacheOk(Effect(Effect(v, a), b))
    ensures var v1, v2 := Effect(v, a), Effect(Effect(v, a), b);
            && (Fine(v, [a, b, c]) <==>
                 Allowed(a) && Allowed(b) && Allowed(c) && !Breaks(v, a) && !Breaks(v1, b) && !Breaks(v2, c))
            && After(v, [a, b, c]) == Effect(v2, c)
            && Answers(v, [a, b, c]) == Reaction(v, a) + (Reaction(v1, b) + Reaction(v2, c))
  {
    hide Effect, Reaction, Breaks, Allowed, CacheOk;
    assert [a, b, c] == [a] + [b, c] && [b, c] == [b] + [c] && [c] == [c] + [];
    NoRequests(v, a, b, c);
    hide Fine, After, Answers;
    FirstRequest(v, a, [b, c]);
    var v1 := Effect(v, a);
    FirstRequest(v1, b, [c]);
    var v2 := Effect(v1, b);
    FirstRequest(v2, c, []);
    assert Reaction(v2, c) + [] == Reaction(v2, c);
  }

  lemma NoRequests(v: Cache, a: Command, b: Command, c: Command)
    requires CacheOk(v) && v.issued >= 0
    ensures CacheOk(Effect(v, a)) && CacheOk(Effect(Effect(v, a), b)) && CacheOk(Effect(Effect(Effect(v, a), b), c))
    ensures var v3 := Effect(Effect(Effect(v, a), b), c);
            v3.issued >= 0 && Fine(v3, []) && After(v3, []) == v3 && Answers(v3, []) == []
  {
    hide Effect, Reaction, Breaks, Allowed, CacheOk;
    EffectOk(v, a);
    EffectOk(Effect(v, a), b);
    EffectOk(Effect(Effect(v, a), b), c);
  }

  /** A session that is connected, and a key that `get` can name. */
  ghost predicate Talks(s: State, key: Bytes) {
    Between(s) && s.connected && KeyOk(key) && key != "noreply"
  }

  lemma TalksOf(s: State, key: Bytes)
    requires Talks(s, key)
    ensures SoundTable(s.table) && CacheOk(Seen(s)) && Seen(s).issued >= 0 && Seen(s).open && Seen(s).left == s.out
  {
    BetweenSound(s);
    SeenOk(s);
  }

  /** A whole update, of a value within the limit. */
  ghost function PutOf(p: Policy, key: Bytes, flags: nat, data: Bytes): Command {
    Put(p, key, flags, 0, 0, data, CRLF, false)
  }

  ghost predicate Fits(flags: nat, data: Bytes) {
    flags < HALF && |data| <= LARGEST_VALUE
  }

  /** What `get` or `gets` answers of one key. */
  lemma {:induction false} ReactionToFetch(v: Cache, key: Bytes, versions: bool)
    requires CacheOk(v) && v.open && |key| <= LONGEST_KEY
    ensures Reaction(v, Fetch([key], versions))
            == if key !in v.entries then v.left + "END\r\n"
               else v.left + ("VALUE " + key + " " + Decimal(v.entries[key].flags) + " "
                              + Decimal(|v.entries[key].data|)
                              + (if versions then " " + Decimal(v.entries[key].version) else []) + "\r\n"
                              + (v.entries[key].data + CRLF)) + "END\r\n"
  {
    hide Decimal, CacheOk;
    ListingOfOne(v, key, versions);
    ShortOne(key);
    hide Listing, Short;
    assert v.left + [] == v.left;
  }

  lemma ShortOne(key: Bytes)
    requires |key| <= LONGEST_KEY
    ensures Short([key]) == [key]
  {
    assert [key][1..] == [];
  }

  lemma ListingOfOne(v: Cache, key: Bytes, versions: bool)
    requires CacheOk(v)
    ensures Listing(v, [key], versions)
            == if key !in v.entries then []
               else "VALUE " + key + " " + Decimal(v.entries[key].flags) + " " + Decimal(|v.entries[key].data|)
                    + (if versions then " " + Decimal(v.entries[key].version) else []) + "\r\n"
                    + (v.entries[key].data + CRLF)
  {
    hide Decimal, CacheOk;
    assert [key][1..] == [];
  }

  lemma JoinsInOrder(v: Cache, p: Policy, key: Bytes, f: nat, x: Bytes, g: nat, y: Bytes)
    requires CacheOk(v) && v.issued >= 0 && v.open && (p == Append || p == Prepend) && Fits(f, x) && Fits(g, y)
    requires |key| <= LONGEST_KEY
    ensures var a, b := PutOf(Set, key, f, x), PutOf(p, key, g, y);
            var v2 := Effect(Effect(v, a), b);
            && !Breaks(v, a) && !Breaks(Effect(v, a), b)
            && Reaction(v, a) == "STORED\r\n" && Reaction(Effect(v, a), b) == "STORED\r\n"
            && v2 == v.(entries := v.entries[key := Entry(f, if p == Append then x + y else y + x, v.issued + 2)],
                        issued := v.issued + 2)
  {
    hide CacheOk;
    var v1 := Effect(v, PutOf(Set, key, f, x));
    assert v1.entries[key] == Entry(f, x, v.issued + 1);
  }

  /** `append` puts the data behind, and `prepend` before, the value that was set; its flags stay. */
  lemma {:induction false} SetJoinGet(s: State, p: Policy, key: Bytes, f: nat, x: Bytes, g: nat, y: Bytes,
                                      pieces: seq<Bytes>)
    requires Talks(s, key) && Fits(f, x) && Fits(g, y) && (p == Append || p == Prepend)
    requires Joined(pieces) == Script([PutOf(Set, key, f, x), PutOf(p, key, g, y), Fetch([key], false)])
    ensures Messages(World(s, []), pieces).s.sent
            == s.sent + ("STORED\r\n" + ("STORED\r\n"
               + (s.out + ValueReply(key, f, if p == Append then x + y else y + x) + "END\r\n")))
  {
    hide Seen, Fine, Messages, Script, Listing, SoundTable, Plain, Allowed, Decimal, CacheOk, Effect, Reaction, Breaks,
         StateOk, Joined;
    TalksOf(s, key);
    var a, b, c, v := PutOf(Set, key, f, x), PutOf(p, key, g, y), Fetch([key], false), Seen(s);
    UpdateIsAllowed(a);
    UpdateIsAllowed(b);
    KeyIsAllowed(c);
    ThreeRequests(v, a, b, c);
    JoinsInOrder(v, p, key, f, x, g, y);
    NoBreak(Effect(Effect(v, a), b), c);
    ServerIsMap(s, [a, b, c], pieces);
    ReactionToFetch(Effect(Effect(v, a), b), key, false);
  }

  lemma NoBreak(v: Cache, c: Command)
    requires !c.Put? || !(c.policy == Append || c.policy == Prepend)
    ensures !Breaks(v, c)
  {
  }

  /** One request. */
  lemma {:induction false} OneRequest(s: State, c: Command, pieces: seq<Bytes>)
    requires Between(s) && Joined(pieces) == Script([c]) && SoundTable(s.table) && CacheOk(Seen(s))
    requires Allowed(c) && !Breaks(Seen(s), c)
    ensures var w := Messages(World(s, []), pieces);
            && w.buf == [] && Between(w.s) && SoundTable(w.s.table)
            && Seen(w.s) == Effect(Seen(s), c) && w.s.sent == s.sent + Reaction(Seen(s), c)
  {
    var v := Seen(s);
    SeenOk(s);
    EffectOk(v, c);
    assert Fine(Effect(v, c), []) && After(Effect(v, c), []) == Effect(v, c) && Answers(Effect(v, c), []) == [];
    FirstRequest(v, c, []);
    assert [c] + [] == [c] && Reaction(v, c) + [] == Reaction(v, c);
    hide Seen, Effect, Reaction, Breaks, Allowed, SoundTable, StateOk, Messages, CacheOk, Joined, Fine, After, Answers,
         Script;
    ServerIsMap(s, [c], pieces);
  }

  /** An update that asks for the key to be absent, or present, is refused by that alone, and then changes nothing. */
  lemma {:induction false} RefusedIff(s: State, p: Policy, key: Bytes, f: nat, x: Bytes, pieces: seq<Bytes>)
    requires Talks(s, key) && Fits(f, x) && (p == Add || p == Replace || p == Append || p == Prepend)
    requires key in s.table.items ==> |key| + |s.table.items[key].value| + |x| < INT_LIMIT
    requires Joined(pieces) == Script([PutOf(p, key, f, x)])
    ensures var w := Messages(World(s, []), pieces);
            && SoundTable(s.table) && SoundTable(w.s.table)
            && if (p == Add) == (key in s.table.items)
               then w.s.sent == s.sent + "NOT_STORED\r\n" && Seen(w.s) == Seen(s)
               else w.s.sent == s.sent + "STORED\r\n" && Seen(w.s).issued == Seen(s).issued + 1
  {
    var c := PutOf(p, key, f, x);
    TalksOf(s, key);
    UpdateIsAllowed(c);
    EntriesHave(s.table, key);
    SoundItem(s.table, key);
    assert !Breaks(Seen(s), c);
    hide SoundTable, Plain, Allowed, Entries, CacheOk, StateOk, Joined, Messages, Script;
    OneRequest(s, c, pieces);
  }

  /** What was set is gone once it is deleted, and nothing else is. */
  lemma {:induction false} SetDeleteGet(s: State, key: Bytes, f: nat, x: Bytes, pieces: seq<Bytes>)
    requires Talks(s, key) && Fits(f, x)
    requires Joined(pieces) == Script([PutOf(Set, key, f, x), Remove(key, [], false), Fetch([key], false)])
    ensures var w := Messages(World(s, []), pieces);
            && w.s.sent == s.sent + ("STORED\r\n" + ("DELETED\r\n" + (s.out + "END\r\n")))
            && SoundTable(s.table) && SoundTable(w.s.table) && Entries(w.s.table) == Entries(s.table) - {key}
  {
    hide Fine, Messages, Script, SoundTable, Plain, Allowed, Decimal, CacheOk, StateOk, Joined, Effect, Reaction,
         Breaks, Entries;
    TalksOf(s, key);
    var a, b, c, v := PutOf(Set, key, f, x), Remove(key, [], false), Fetch([key], false), Seen(s);
    UpdateIsAllowed(a);
    KeyIsAllowed(b);
    KeyIsAllowed(c);
    ThreeRequests(v, a, b, c);
    DeletesAgain(v, key, f, x);
    NoBreak(v, a);
    NoBreak(Effect(v, a), b);
    var v2 := Effect(Effect(v, a), b);
    NoBreak(v2, c);
    ReactionToFetch(v2, key, false);
    FetchKeeps(v2, c);
    ServerIsMap(s, [a, b, c], pieces);
  }

  lemma FetchKeeps(v: Cache, c: Command)
    requires CacheOk(v) && c.Fetch?
    ensures Effect(v, c).entries == v.entries
  {
    hide Listing, CacheOk, Short;
  }

  lemma DeletesAgain(v: Cache, key: Bytes, f: nat, x: Bytes)
    requires CacheOk(v) && v.issued >= 0 && v.open && Fits(f, x) && |key| <= LONGEST_KEY
    ensures var a, b := PutOf(Set, key, f, x), Remove(key, [], false);
            var v1 := Effect(v, a);
            && CacheOk(v1) && Reaction(v, a) == "STORED\r\n" && Reaction(v1, b) == "DELETED\r\n"
            && Effect(v1, b) == v.(entries := v.entries - {key}, issued := v.issued + 1)
  {
    var v1 := Effect(v, PutOf(Set, key, f, x));
    assert v1.entries - {key} == v.entries - {key};
  }

  /** A `delete` says whether the key was there; the other keys keep their items. */
  lemma {:induction false} DeleteTells(s: State, key: Bytes, pieces: seq<Bytes>)
    requires Talks(s, key) && Joined(pieces) == Script([Remove(key, [], false)])
    ensures var w := Messages(World(s, []), pieces);
            && w.s.sent == s.sent + (if key in s.table.items then "DELETED\r\n" else "NOT_FOUND\r\n")
            && SoundTable(s.table) && SoundTable(w.s.table) && Entries(w.s.table) == Entries(s.table) - {key}
  {
    TalksOf(s, key);
    KeyIsAllowed(Remove(key, [], false));
    EntriesHave(s.table, key);
    hide SoundTable, Plain, Allowed, Entries, CacheOk, StateOk, Joined, Messages, Script;
    OneRequest(s, Remove(key, [], false), pieces);
  }

  /** `noreply` silences a request other than `get`, and changes nothing else. */
  lemma {:induction false} NoreplyIsSilent(s: State, c: Command, pieces: seq<Bytes>)
    requires Between(s) && SoundTable(s.table) && CacheOk(Seen(s)) && Quiet(c) && Allowed(c) && !Breaks(Seen(s), c)
    requires Joined(pieces) == Script([c])
    ensures var w := Messages(World(s, []), pieces);
            && w.s.sent == s.sent && SoundTable(w.s.table) && Seen(w.s) == Effect(Seen(s), c.(quiet := false))
  {
    hide SoundTable, Allowed, CacheOk, StateOk, Joined, Messages, Script, Entries;
    OneRequest(s, c, pieces);
    assert s.sent + [] == s.sent;
  }

  /** `gets` sends the version that `cas` accepts, and `cas` accepts no other. */
  lemma {:induction false} GetsThenCas(s: State, key: Bytes, f: nat, x: Bytes, u: nat, y: Bytes, pieces: seq<Bytes>)
    requires Talks(s, key) && Fits(f, x) && Fits(f, y) && u < WORD
    requires Joined(pieces)
             == Script([PutOf(Set, key, f, x), Fetch([key], true), Put(Cas, key, f, 0, u, y, CRLF, false)])
    ensures var n := s.table.cas + 1;
            && n >= 0
            && Messages(World(s, []), pieces).s.sent
               == s.sent + ("STORED\r\n"
                  + (s.out + ("VALUE " + key + " " + Decimal(f) + " " + Decimal(|x|) + (" " + Decimal(n)) + "\r\n"
                              + (x + CRLF)) + "END\r\n"
                     + (if u == n then "STORED\r\n" else "EXISTS\r\n")))
  {
    hide Fine, Messages, Script, SoundTable, Plain, Allowed, Decimal, CacheOk, Seen, StateOk, Joined;
    var a, b, c := PutOf(Set, key, f, x), Fetch([key], true), Put(Cas, key, f, 0, u, y, CRLF, false);
    TalksOf(s, key);
    UpdateIsAllowed(a);
    KeyIsAllowed(b);
    UpdateIsAllowed(c);
    IssuedIs(s);
    CasAnswers(Seen(s), key, f, x, u, y);
    ServerIsMap(s, [a, b, c], pieces);
  }

  lemma {:induction false} CasAnswers(v: Cache, key: Bytes, f: nat, x: Bytes, u: nat, y: Bytes)
    requires CacheOk(v) && v.issued >= 0 && v.open && Fits(f, x) && Fits(f, y) && |key| <= LONGEST_KEY
    ensures var a, b, c := PutOf(Set, key, f, x), Fetch([key], true), Put(Cas, key, f, 0, u, y, CRLF, false);
            && (Allowed(a) && Allowed(b) && Allowed(c) ==> Fine(v, [a, b, c]))
            && Answers(v, [a, b, c])
               == "STORED\r\n"
                  + (v.left + ("VALUE " + key + " " + Decimal(f) + " " + Decimal(|x|)
                               + (" " + Decimal(v.issued + 1)) + "\r\n" + (x + CRLF)) + "END\r\n"
                     + (if u == v.issued + 1 then "STORED\r\n" else "EXISTS\r\n"))
  {
    hide Fine, Answers, After, Allowed, Decimal, CacheOk, Effect, Reaction, Breaks;
    var a, b, c := PutOf(Set, key, f, x), Fetch([key], true), Put(Cas, key, f, 0, u, y, CRLF, false);
    ThreeRequests(v, a, b, c);
    CasDecides(v, key, f, x, u, y);
    NoBreak(v, a);
    NoBreak(Effect(v, a), b);
    NoBreak(Effect(Effect(v, a), b), c);
    ReactionToFetch(Effect(v, a), key, true);
  }

  lemma IssuedIs(s: State)
    requires SoundTable(s.table)
    ensures Seen(s).issued == s.table.cas
  {
  }

  lemma CasDecides(v: Cache, key: Bytes, f: nat, x: Bytes, u: nat, y: Bytes)
    requires CacheOk(v) && v.issued >= 0 && v.open && Fits(f, x) && Fits(f, y)
    ensures var a, b, c := PutOf(Set, key, f, x), Fetch([key], true), Put(Cas, key, f, 0, u, y, CRLF, false);
            var v1 := Effect(v, a);
            && CacheOk(v1) && CacheOk(Effect(v1, b))
            && Reaction(v, a) == "STORED\r\n"
            && v1 == v.(entries := v.entries[key := Entry(f, x, v.issued + 1)], issued := v.issued + 1)
            && Reaction(Effect(v1, b), c) == if u == v.issued + 1 then "STORED\r\n" else "EXISTS\r\n"
  {
    hide Listing;
  }

  lemma {:induction false} ClosedIsSilent(v: Cache, cs: seq<Command>)
    requires CacheOk(v) && v.issued >= 0 && !v.open
    ensures Answers(v, cs) == []
    decreases |cs|
  {
    if cs != [] {
      EffectOk(v, cs[0]);
      assert !Effect(v, cs[0]).open;
      ClosedIsSilent(Effect(v, cs[0]), cs[1..]);
    }
  }

  /** After `quit` nothing more is sent, whatever else has been asked. */
  lemma {:induction false} QuitEndsTheSending(s: State, cs: seq<Command>, pieces: seq<Bytes>)
    requires Between(s) && SoundTable(s.table) && CacheOk(Seen(s)) && Seen(s).issued >= 0
    requires Fine(Seen(s), [Quit] + cs) && Joined(pieces) == Script([Quit] + cs)
    ensures Messages(World(s, []), pieces).s.sent == s.sent
  {
    var v := Seen(s);
    FirstRequest(v, Quit, cs);
    ClosedIsSilent(Effect(v, Quit), cs);
    hide Fine, Messages, Script, SoundTable, Allowed, CacheOk, Entries, StateOk, Joined, Answers, After;
    ServerIsMap(s, [Quit] + cs, pieces);
    assert s.sent + ([] + []) == s.sent;
  }

  /** Of a value that is too large every byte is skipped: the next request is read right behind it. */
  lemma {:induction false} TooLargeIsSkipped(s: State, p: Policy, key: Bytes, f: nat, x: Bytes, pieces: seq<Bytes>)
    requires Talks(s, key) && f < HALF && LARGEST_VALUE < |x| < INT_LIMIT - 2
    requires Joined(pieces) == Script([PutOf(p, key, f, x), AskVersion, Fetch([key], false)])
    ensures Messages(World(s, []), pieces).s.sent
            == s.sent + ("SERVER_ERROR object too large for cache\r\n"
               + ("VERSION 0.01 muduo\r\n" + (s.out + "END\r\n")))
  {
    var a, b, c, v := PutOf(p, key, f, x), AskVersion, Fetch([key], false), Seen(s);
    TalksOf(s, key);
    UpdateIsAllowed(a);
    KeyIsAllowed(b);
    KeyIsAllowed(c);
    ThreeRequests(v, a, b, c);
    var v2 := Effect(Effect(v, a), b);
    assert key !in v2.entries && v2.open && v2.left == s.out;
    ReactionToFetch(v2, key, false);
    hide Fine, Messages, Script, Listing, SoundTable, Plain, Allowed, Decimal, CacheOk, Entries, StateOk, Joined;
    ServerIsMap(s, [a, b, c], pieces);
  }

  /** Expiration times up to 30 days are relative; later ones are times of day, and expire in a second at the least. */
  lemma ExpiryIs(exptime: nat, start: nat)
    requires exptime < HALF / 2 && start < HALF / 2
    ensures RelativeTime(ToInt64(exptime), start)
            == if exptime <= 60 * 60 * 24 * 30 then exptime
               else if exptime <= start then 1 else exptime - start
  {
  }
}
