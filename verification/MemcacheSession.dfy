/**
  One client session of the memcached server: the byte stream that `Session::onMessage` cuts into
  request lines and values, the text protocol, and the replies.
*/
module MemcacheSession {

  import opened MemcacheStore

  const LONGEST_KEY := 250
  const LONGEST_LINE := 1024
  const LARGEST_VALUE := 1024 * 1024
  const RELATIVE_LIMIT := 60 * 60 * 24 * 30

  datatype Mode = NewCommand | ReceiveValue | DiscardValue

  /** The item being received; `received` counts from the first byte of the value. */
  datatype Partial = Partial(key: Bytes, flags: int, exptime: int, valuelen: int, cas: int, received: Bytes)

  /**
    A session with the table it works on.  `sent` is all that was handed to the connection, `out` the
    buffer that `get` fills, `connected` whether the connection still sends, and `crashed` whether an
    assertion failed or an iterator was read past its end.
  */
  datatype State = State(mode: Mode, command: Bytes, noreply: bool, policy: Option<Policy>, item: Option<Partial>,
                         discard: int, out: Bytes, sent: Bytes, connected: bool, stopping: bool, crashed: bool,
                         start: int, table: Table, requests: nat)

  /** A session and its input buffer. */
  datatype World = World(s: State, buf: Bytes)

  // ------------------------------------------------------------------ the text

  /** The index of the first CRLF, or -1. */
  function FindCRLF(b: Bytes): int {
    if |b| < 2 then -1
    else if b[0] == '\r' && b[1] == '\n' then 0
    else var k := FindCRLF(b[1..]); if k < 0 then -1 else k + 1
  }

  /** The length of the first token of a text that does not start with a space. */
  function TokenLength(b: Bytes): (n: nat)
    ensures n <= |b|
  {
    if b == [] || b[0] == ' ' then 0 else 1 + TokenLength(b[1..])
  }

  function Tokens(b: Bytes): seq<Bytes>
    decreases |b|
  {
    if b == [] then []
    else if b[0] == ' ' then Tokens(b[1..])
    else
      var n := TokenLength(b);
      assert n > 0;
      [b[..n]] + Tokens(b[n..])
  }

  predicate EndsWithNoreply(line: Bytes) {
    |line| >= 8 && line[|line| - 8..] == " noreply"
  }

  const WORD := 0x1_0000_0000_0000_0000
  const HALF := 0x1_0000_0000

  function Digits(b: Bytes, acc: nat): Option<nat>
    decreases |b|
  {
    if b == [] then Some(acc)
    else if '0' <= b[0] <= '9' then Digits(b[1..], 10 * acc + (b[0] as int - '0' as int))
    else None
  }

  /** strtoull in base 10 of a token, when it uses the whole token. */
  function Strtoull(b: Bytes): Option<nat> {
    if b == [] then None
    else if b[0] in "\t\n\r" || b[0] as int == 11 || b[0] as int == 12 then Strtoull(b[1..])
    else
      var signed := b[0] == '+' || b[0] == '-';
      var d := if signed then b[1..] else b;
      if d == [] then None
      else match Digits(d, 0)
        case None => None
        case Some(v) =>
          if v >= WORD then Some(WORD - 1)
          else if b[0] == '-' then Some((WORD - v) % WORD)
          else Some(v)
  }

  function ToInt32(x: int): int {
    var y := x % HALF;
    if y >= HALF / 2 then y - HALF else y
  }

  function ToInt64(x: nat): int {
    var y := x % WORD;
    if y >= WORD / 2 then y - WORD else y
  }

  function Decimal(n: nat): Bytes {
    if n < 10 then ["0123456789"[n]] else Decimal(n / 10) + ["0123456789"[n % 10]]
  }

  // --------------------------------------------------------------- the session

  /** The fixed replies. */
  datatype Response =
    Error | BadLine | DeleteUsage | ObjectTooLarge | DeletedKey | NotFound | Version
    | StoredItem | NotStored | Exists | BadChunk | End

  function Text(r: Response): Bytes {
    match r
    case Error => "ERROR\r\n"
    case BadLine => "CLIENT_ERROR bad command line format\r\n"
    case DeleteUsage => "CLIENT_ERROR bad command line format.  Usage: delete <key> [noreply]\r\n"
    case ObjectTooLarge => "SERVER_ERROR object too large for cache\r\n"
    case DeletedKey => "DELETED\r\n"
    case NotFound => "NOT_FOUND\r\n"
    case Version => "VERSION 0.01 muduo\r\n"
    case StoredItem => "STORED\r\n"
    case NotStored => "NOT_STORED\r\n"
    case Exists => "EXISTS\r\n"
    case BadChunk => "CLIENT_ERROR bad data chunk\r\n"
    case End => "END\r\n"
  }

  function Send(s: State, msg: Bytes): State {
    if s.connected then s.(sent := s.sent + msg) else s
  }

  function Reply(s: State, msg: Bytes): State {
    if s.noreply then s else Send(s, msg)
  }

  /** Hand `out` to the connection, which empties it only while it is connected. */
  function Flush(s: State): State {
    if s.connected then s.(sent := s.sent + s.out, out := []) else s
  }

  function Reset(s: State): State {
    s.(command := [], noreply := false, policy := None, item := None, discard := 0)
  }

  function Crash(s: State): State {
    s.(crashed := true)
  }

  function PolicyOf(command: Bytes): Option<Policy> {
    if command == "set" then Some(Set)
    else if command == "add" then Some(Add)
    else if command == "replace" then Some(Replace)
    else if command == "append" then Some(Append)
    else if command == "prepend" then Some(Prepend)
    else if command == "cas" then Some(Cas)
    else None
  }

  function NumberAt(args: seq<Bytes>, i: nat): Option<nat> {
    if i < |args| then Strtoull(args[i]) else None
  }

  predicate GoodUpdate(args: seq<Bytes>, p: Policy) {
    && |args| > 0 && |args[0]| <= LONGEST_KEY
    && NumberAt(args, 1).Some? && NumberAt(args, 2).Some? && NumberAt(args, 3).Some?
    && (p == Cas ==> NumberAt(args, 4).Some?)
  }

  function RelativeTime(exptime: int, start: int): int {
    if exptime > RELATIVE_LIMIT then
      var r := ToInt32(exptime - start);
      if r < 1 then 1 else r
    else ToInt32(exptime)
  }

  /** What the arguments of an update ask for: nothing sensible, a value to discard, or an item to receive. */
  datatype Order = Broken | BadFormat | TooLarge(key: Bytes, length: int) | Wanted(item: Partial)

  function ReadUpdate(p: Policy, args: seq<Bytes>, start: int): (r: Order)
    ensures r.TooLarge? ==> r.length > LARGEST_VALUE
    ensures r.Wanted? ==> r.item.valuelen >= 2 && r.item.received == [] && r.item.flags >= 0
  {
    if args == [] then Broken
    else if !GoodUpdate(args, p) then BadFormat
    else
      var bytes := ToInt32(NumberAt(args, 3).value);
      if bytes > LARGEST_VALUE then
        if bytes + 2 >= HALF / 2 then Broken else TooLarge(args[0], bytes)
      else if bytes < 0 then Broken
      else
        Wanted(Partial(args[0], NumberAt(args, 1).value % HALF,
                       RelativeTime(ToInt64(NumberAt(args, 2).value), start), bytes + 2,
                       if p == Cas then NumberAt(args, 4).value else 0, []))
  }

  function Update(s: State, p: Policy, args: seq<Bytes>): State {
    match ReadUpdate(p, args, s.start)
    case Broken => Crash(s)
    case BadFormat => Reset(Reply(s, Text(BadLine)))
    case TooLarge(key, length) =>
      Reply(s, Text(ObjectTooLarge))
      .(policy := Some(p), table := Deleted(s.table, key), discard := length + 2, mode := DiscardValue)
    case Wanted(item) =>
      s.(policy := Some(p), item := Some(item), mode := ReceiveValue)
  }

  function Output(item: Item, cas: bool): Bytes
    requires |item.value| >= 2 && item.flags >= 0 && item.cas >= 0
  {
    "VALUE " + item.key + " " + Decimal(item.flags) + " " + Decimal(|item.value| - 2)
    + (if cas then " " + Decimal(item.cas) else []) + "\r\n" + item.value
  }

  /** All flags in the table are unsigned. */
  ghost predicate FlagsOk(t: Table) {
    forall k :: k in t.items ==> t.items[k].flags >= 0
  }

  ghost predicate SoundTable(t: Table) {
    TableOk(t) && Distinct(t) && FlagsOk(t)
  }

  function OutputFor(t: Table, key: Bytes, cas: bool): Bytes
    requires SoundTable(t)
  {
    assert key in t.items ==> ItemOk(t, key);
    if key in t.items then Output(t.items[key], cas) else []
  }

  function Get(s: State, keys: seq<Bytes>, cas: bool): State
    requires SoundTable(s.table)
    decreases |keys|
  {
    if keys == [] then Flush(s.(out := s.out + Text(End)))
    else if |keys[0]| > LONGEST_KEY then Reply(s, Text(BadLine))
    else Get(s.(out := s.out + OutputFor(s.table, keys[0], cas)), keys[1..], cas)
  }

  function DeleteKey(s: State, args: seq<Bytes>): State {
    if args == [] then Crash(s)
    else if |args[0]| > LONGEST_KEY then Reply(s, Text(BadLine))
    else if |args| > 1 && args[1] != "0" then
      Reply(s, Text(DeleteUsage))
    else if args[0] in s.table.items then
      Reply(s, Text(DeletedKey)).(table := Deleted(s.table, args[0]))
    else Reply(s, Text(NotFound))
  }

  function Dispatch(s: State, command: Bytes, args: seq<Bytes>): State
    requires SoundTable(s.table)
  {
    if PolicyOf(command).Some? then Update(s, PolicyOf(command).value, args)
    else if command == "get" || command == "gets" then Reset(Get(s, args, command == "gets"))
    else if command == "delete" then
      if args == [] then Crash(s) else Reset(DeleteKey(s, args))
    else if command == "version" then Reset(Reply(s, Text(Version)))
    else if command == "quit" then Reset(s.(connected := false))
    else if command == "shutdown" then Reset(s.(connected := false, stopping := true))
    else Reset(Reply(s, Text(Error)))
  }

  /** The tokens of a request line, without a final `noreply`. */
  function RequestTokens(line: Bytes): seq<Bytes> {
    Tokens(if EndsWithNoreply(line) then line[..|line| - 8] else line)
  }

  /** `processRequest`, and `resetRequest` when that finishes the request.  The length of the line is cast to `int`. */
  function Request(s: State, line: Bytes): State
    requires SoundTable(s.table)
  {
    var tokens := RequestTokens(line);
    var s1 := s.(requests := s.requests + 1, noreply := EndsWithNoreply(line));
    if |line| >= INT_LIMIT then Crash(s)
    else if tokens == [] then Reset(Reply(s1, Text(Error)))
    else Dispatch(s1.(command := tokens[0]), tokens[0], tokens[1..])
  }

  function Completed(p: Partial): Item {
    Item(p.key, p.flags, p.exptime, p.received, p.cas)
  }

  function Answer(old_: Option<Item>, item: Item, p: Policy): Bytes {
    if Accepts(old_, item, p) then Text(StoredItem)
    else if p != Cas then Text(NotStored)
    else if old_.Some? then Text(Exists)
    else Text(NotFound)
  }

  /** A value whose storing brings the server down. */
  predicate Overflows(t: Table, item: Item, p: Policy) {
    EndsWithCRLF(item.value) && TooLong(Lookup(t, item.key), item, p)
  }

  /** The value is complete: store it, or refuse it when it does not end in CRLF. */
  function Finish(s: State): State
    requires SoundTable(s.table) && s.item.Some? && s.policy.Some?
  {
    var item := Completed(s.item.value);
    OldEnds(s.table, item.key);
    if Overflows(s.table, item, s.policy.value) then Crash(s)
    else
      var s1 := if EndsWithCRLF(item.value) then
                  Reply(s, Answer(Lookup(s.table, item.key), item, s.policy.value))
                  .(table := Stored(s.table, item, s.policy.value))
                else Reply(s, Text(BadChunk));
      Reset(s1).(mode := NewCommand)
  }

  function Needed(s: State): int
    requires s.item.Some?
  {
    s.item.value.valuelen - |s.item.value.received|
  }

  function Receive(s: State, data: Bytes): State
    requires SoundTable(s.table) && s.item.Some? && s.policy.Some?
  {
    var s1 := s.(item := Some(s.item.value.(received := s.item.value.received + data)));
    if Needed(s1) == 0 then Finish(s1) else s1
  }

  // --------------------------------------------------------- what every step keeps

  /** What the assertions of `processRequest`, `receiveValue` and `discardValue` demand, and progress. */
  ghost predicate StateOk(s: State) {
    && SoundTable(s.table)
    && (!s.crashed ==>
        match s.mode
        case NewCommand => s == Reset(s)
        case ReceiveValue =>
          s.item.Some? && s.policy.Some? && s.discard == 0 && s.item.value.valuelen >= 2 && Needed(s) > 0
          && s.item.value.flags >= 0
        case DiscardValue => s.item.None? && s.discard > 0)
  }

  /** Whether `onMessage` has something to do. */
  predicate Busy(w: World) {
    !w.s.crashed && w.buf != [] && (w.s.mode.NewCommand? ==> FindCRLF(w.buf) >= 0)
  }

  /** One turn of the loop in `onMessage`. */
  function Turn(w: World): World
    requires StateOk(w.s) && Busy(w)
  {
    match w.s.mode
    case NewCommand =>
      var k := FindCRLF(w.buf);
      FindCRLFIs(w.buf);
      var s1 := Request(w.s, w.buf[..k]);
      World(s1, if s1.crashed then [] else w.buf[k + 2..])
    case ReceiveValue =>
      var avail := if |w.buf| < Needed(w.s) then |w.buf| else Needed(w.s);
      var s1 := Receive(w.s, w.buf[..avail]);
      World(s1, if s1.crashed then [] else w.buf[avail..])
    case DiscardValue =>
      if |w.buf| < w.s.discard then World(w.s.(discard := w.s.discard - |w.buf|), [])
      else World(Reset(w.s).(mode := NewCommand), w.buf[w.s.discard..])
  }

  /** What `FindCRLF` finds is a CRLF, and there is none before it; if it finds none, there is none. */
  lemma {:induction false} FindCRLFIs(b: Bytes)
    ensures -1 <= FindCRLF(b) && (FindCRLF(b) >= 0 ==> FindCRLF(b) + 2 <= |b|)
    ensures FindCRLF(b) >= 0 ==> b[FindCRLF(b)..FindCRLF(b) + 2] == "\r\n"
    ensures forall i :: 0 <= i < |b| - 1 && (FindCRLF(b) < 0 || i < FindCRLF(b)) ==> !(b[i] == '\r' && b[i + 1] == '\n')
    decreases |b|
  {
    if |b| >= 2 && !(b[0] == '\r' && b[1] == '\n') {
      FindCRLFIs(b[1..]);
      var k := FindCRLF(b[1..]);
      if k >= 0 {
        assert b[k + 1..k + 3] == b[1..][k..k + 2];
      }
      forall i | 0 <= i < |b| - 1 && (FindCRLF(b) < 0 || i < FindCRLF(b))
        ensures !(b[i] == '\r' && b[i + 1] == '\n')
      {
        if i > 0 {
          assert b[1..][i - 1] == b[i] && b[1..][i - 1 + 1] == b[i + 1];
        }
      }
    } else if |b| >= 2 {
      assert b[0..2] == "\r\n";
    }
  }

  /** The rest of `onMessage`: turns until nothing is left to do. */
  ghost function Loop(w: World): World
    requires StateOk(w.s)
    decreases |w.buf|
  {
    if Busy(w) then
      TurnOk(w);
      Loop(Turn(w))
    else w
  }

  /** `onMessage` after `data` has been added to the input buffer, without the limit on the length of a line. */
  ghost function Fed(w: World, data: Bytes): World
    requires StateOk(w.s)
  {
    if w.s.crashed then w else Loop(World(w.s, w.buf + data))
  }

  lemma {:induction false} GetOk(s: State, keys: seq<Bytes>, cas: bool)
    requires SoundTable(s.table)
    ensures var r := Get(s, keys, cas); r == s.(sent := r.sent, out := r.out)
    decreases |keys|
  {
    hide Text, SoundTable, OutputFor;
    if keys != [] && |keys[0]| <= LONGEST_KEY {
      GetOk(s.(out := s.out + OutputFor(s.table, keys[0], cas)), keys[1..], cas);
    }
  }

  lemma DeletedSound(t: Table, key: Bytes)
    requires SoundTable(t)
    ensures SoundTable(Deleted(t, key))
  {
    DeletedOk(t, key);
  }

  lemma {:induction false} StoredSound(t: Table, item: Item, p: Policy)
    requires SoundTable(t) && EndsWithCRLF(item.value) && item.flags >= 0
    requires item.key in t.items ==> EndsWithCRLF(t.items[item.key].value)
    ensures SoundTable(Stored(t, item, p))
  {
    StoredOk(t, item, p);
    if Accepts(Lookup(t, item.key), item, p) {
      StoredIs(t, item, p);
    }
  }

  lemma {:induction false} UpdateOk(s: State, p: Policy, args: seq<Bytes>)
    requires StateOk(s.(command := [], noreply := false)) && s.mode.NewCommand? && !s.crashed
    ensures StateOk(Update(s, p, args))
  {
    var o := ReadUpdate(p, args, s.start);
    if o.TooLarge? {
      DeletedSound(s.table, o.key);
    }
    hide Text, SoundTable, ReadUpdate, Deleted;
  }

  lemma {:induction false} DispatchOk(s: State, command: Bytes, args: seq<Bytes>)
    requires StateOk(s.(command := [], noreply := false)) && s.mode.NewCommand? && !s.crashed
    ensures StateOk(Dispatch(s, command, args))
  {
    hide Text, Update, Get, SoundTable, Deleted;
    if PolicyOf(command).Some? {
      UpdateOk(s, PolicyOf(command).value, args);
    } else {
      GetOk(s, args, command == "gets");
      if args != [] {
        DeletedSound(s.table, args[0]);
      }
    }
  }

  lemma {:induction false} RequestOk(s: State, line: Bytes)
    requires StateOk(s) && s.mode.NewCommand? && !s.crashed
    ensures StateOk(Request(s, line))
  {
    hide Text, Dispatch, RequestTokens, EndsWithNoreply, SoundTable;
    var tokens := RequestTokens(line);
    if tokens != [] {
      var s1 := s.(requests := s.requests + 1, noreply := EndsWithNoreply(line), command := tokens[0]);
      DispatchOk(s1, tokens[0], tokens[1..]);
    }
  }

  lemma {:induction false} ReceiveOk(s: State, data: Bytes)
    requires StateOk(s) && s.mode.ReceiveValue? && !s.crashed && |data| <= Needed(s)
    ensures StateOk(Receive(s, data))
  {
    var s1 := s.(item := Some(s.item.value.(received := s.item.value.received + data)));
    hide SoundTable, Finish;
    if Needed(s1) == 0 {
      FinishOk(s1);
    }
  }

  lemma SoundEnds(t: Table, key: Bytes)
    requires SoundTable(t)
    ensures key in t.items ==> EndsWithCRLF(t.items[key].value)
  {
    OldEnds(t, key);
  }

  lemma {:induction false} FinishOk(s: State)
    requires SoundTable(s.table) && s.item.Some? && s.policy.Some? && s.item.value.flags >= 0 && !s.crashed
    ensures StateOk(Finish(s))
  {
    hide Text, SoundTable, Stored, Answer, EndsWithCRLF, Overflows, Lookup, Send;
    var item, p := Completed(s.item.value), s.policy.value;
    SoundEnds(s.table, item.key);
    if EndsWithCRLF(item.value) {
      StoredSound(s.table, item, p);
      ReplyKeeps(s, Answer(Lookup(s.table, item.key), item, p));
    }
    ReplyKeeps(s, Text(BadChunk));
    hide Reply;
  }

  lemma ReplyKeeps(s: State, msg: Bytes)
    ensures Reply(s, msg) == s.(sent := Reply(s, msg).sent)
  {
  }

  /** Every turn keeps the invariant and shortens the buffer, so `onMessage` ends. */
  lemma {:induction false} TurnOk(w: World)
    requires StateOk(w.s) && Busy(w)
    ensures StateOk(Turn(w).s) && |Turn(w).buf| < |w.buf|
  {
    FindCRLFIs(w.buf);
    hide Text, Request, Receive, FindCRLF, SoundTable;
    match w.s.mode {
      case NewCommand => RequestOk(w.s, w.buf[..FindCRLF(w.buf)]);
      case ReceiveValue =>
        var avail := if |w.buf| < Needed(w.s) then |w.buf| else Needed(w.s);
        ReceiveOk(w.s, w.buf[..avail]);
      case DiscardValue =>
    }
  }

  // --------------------------------------------------------------- fragmentation

  /** A CRLF found in a buffer is the one found when more bytes follow. */
  lemma {:induction false} FindInLonger(a: Bytes, b: Bytes)
    requires FindCRLF(a) >= 0
    ensures FindCRLF(a + b) == FindCRLF(a)
    decreases |a|
  {
    if !(a[0] == '\r' && a[1] == '\n') {
      FindInLonger(a[1..], b);
      assert (a + b)[1..] == a[1..] + b;
    }
  }

  /** A value received in two parts is the value received at once. */
  lemma ReceiveTwice(s: State, x: Bytes, y: Bytes)
    requires StateOk(s) && s.mode.ReceiveValue? && !s.crashed && |x| < Needed(s)
    ensures Receive(s, x).item.Some? && Receive(s, x).policy.Some? && Receive(s, x).table == s.table
    ensures Needed(Receive(s, x)) == Needed(s) - |x|
    ensures Receive(Receive(s, x), y) == Receive(s, x + y)
  {
    hide Text, Finish, SoundTable;
    assert s.item.value.received + (x + y) == s.item.value.received + x + y;
  }

  /** The turn took all it needed: more bytes in the buffer make no difference to it. */
  ghost predicate Filled(w: World)
    requires StateOk(w.s) && Busy(w)
  {
    match w.s.mode
    case NewCommand => true
    case ReceiveValue => |w.buf| >= Needed(w.s)
    case DiscardValue => |w.buf| >= w.s.discard
  }

  lemma {:induction false} FilledTurn(w: World, b: Bytes)
    requires StateOk(w.s) && Busy(w) && Filled(w) && !Turn(w).s.crashed
    ensures Busy(World(w.s, w.buf + b))
    ensures Turn(World(w.s, w.buf + b)) == World(Turn(w).s, Turn(w).buf + b)
  {
    if w.s.mode.NewCommand? {
      WholeLine(w, b);
    } else if w.s.mode.ReceiveValue? {
      hide Receive, SoundTable, FindCRLF;
      Regroup(w.buf, b, Needed(w.s));
    } else {
      hide SoundTable, FindCRLF;
      Regroup(w.buf, b, w.s.discard);
    }
  }

  lemma Regroup(x: Bytes, b: Bytes, n: nat)
    requires n <= |x|
    ensures (x + b)[..n] == x[..n] && (x + b)[n..] == x[n..] + b
  {
  }

  lemma {:induction false} WholeLine(w: World, b: Bytes)
    requires StateOk(w.s) && Busy(w) && w.s.mode.NewCommand? && !Turn(w).s.crashed
    ensures Busy(World(w.s, w.buf + b))
    ensures Turn(World(w.s, w.buf + b)) == World(Turn(w).s, Turn(w).buf + b)
  {
    FindCRLFIs(w.buf);
    FindInLonger(w.buf, b);
    var k := FindCRLF(w.buf);
    hide Request, FindCRLF, SoundTable;
    Regroup(w.buf, b, k);
    Regroup(w.buf, b, k + 2);
  }

  lemma {:induction false} CrashingLine(w: World, b: Bytes)
    requires StateOk(w.s) && Busy(w) && w.s.mode.NewCommand? && Turn(w).s.crashed
    ensures Busy(World(w.s, w.buf + b))
    ensures Turn(World(w.s, w.buf + b)) == Turn(w)
  {
    FindCRLFIs(w.buf);
    FindInLonger(w.buf, b);
    var k := FindCRLF(w.buf);
    hide Text, Request, FindCRLF, SoundTable;
    Regroup(w.buf, b, k);
  }

  lemma ReceiveTurn(w: World, avail: int)
    requires StateOk(w.s) && Busy(w) && w.s.mode.ReceiveValue?
    requires avail == if |w.buf| < Needed(w.s) then |w.buf| else Needed(w.s)
    ensures var s1 := Receive(w.s, w.buf[..avail]);
            Turn(w) == World(s1, if s1.crashed then [] else w.buf[avail..])
  {
    hide Receive, SoundTable, FindCRLF;
  }

  lemma ShortLives(w: World)
    requires StateOk(w.s) && Busy(w) && w.s.mode.ReceiveValue?
    ensures |w.buf| < Needed(w.s) ==> !Turn(w).s.crashed
  {
    if |w.buf| < Needed(w.s) {
      assert w.buf[..|w.buf|] == w.buf;
      StillReceiving(w.s, w.buf);
      hide Receive, SoundTable, FindCRLF;
    }
  }

  lemma {:induction false} CrashingValue(w: World, b: Bytes)
    requires StateOk(w.s) && Busy(w) && w.s.mode.ReceiveValue? && Turn(w).s.crashed
    ensures Busy(World(w.s, w.buf + b))
    ensures Turn(World(w.s, w.buf + b)) == Turn(w)
  {
    var n := Needed(w.s);
    ShortLives(w);
    ReceiveTurn(w, n);
    Regroup(w.buf, b, n);
    hide Text, Receive, FindCRLF, SoundTable;
    ReceiveTurn(World(w.s, w.buf + b), n);
  }

  lemma {:induction false} ShortReceive(w: World, b: Bytes)
    requires StateOk(w.s) && Busy(w) && w.s.mode.ReceiveValue? && !Filled(w) && b != []
    ensures Turn(w) == World(Receive(w.s, w.buf), [])
    ensures StateOk(Turn(w).s) && !Turn(w).s.crashed && Turn(w).s.mode.ReceiveValue?
    ensures Turn(World(Turn(w).s, b)) == Turn(World(w.s, w.buf + b))
  {
    var x, m := w.buf, Needed(w.s);
    assert |x| < m && w.s.item.Some? && w.s.policy.Some? && SoundTable(w.s.table);
    var n := if |b| < m - |x| then |b| else m - |x|;
    hide Turn, Receive, StateOk, FindCRLF, Filled, Needed, SoundTable;
    TurnOk(w);
    ReceiveTurn(w, |x|);
    assert x[..|x|] == x && x[|x|..] == [];
    StillReceiving(w.s, x);
    ReceiveTwice(w.s, x, b[..n]);
    ReceiveTurn(World(Turn(w).s, b), n);
    ReceiveTurn(World(w.s, x + b), |x| + n);
    RegroupTwo(x, b, n);
  }

  lemma RegroupTwo(x: Bytes, b: Bytes, n: nat)
    requires n <= |b|
    ensures (x + b)[..|x| + n] == x + b[..n] && (x + b)[|x| + n..] == b[n..]
  {
  }

  lemma StillReceiving(s: State, x: Bytes)
    requires StateOk(s) && !s.crashed && s.mode.ReceiveValue? && |x| < Needed(s)
    ensures Receive(s, x).mode == ReceiveValue && !Receive(s, x).crashed
  {
    hide Text, SoundTable, Finish;
  }

  lemma {:induction false} ShortTurn(w: World, b: Bytes)
    requires StateOk(w.s) && Busy(w) && !w.s.mode.NewCommand? && !Filled(w) && b != []
    ensures Turn(w).buf == [] && StateOk(Turn(w).s) && !Turn(w).s.crashed
    ensures Busy(World(w.s, w.buf + b)) && Busy(World(Turn(w).s, b))
    ensures Turn(World(Turn(w).s, b)) == Turn(World(w.s, w.buf + b))
  {
    if w.s.mode.ReceiveValue? {
      ShortReceive(w, b);
      hide Text, Turn, StateOk, Filled, FindCRLF;
    } else {
      TurnOk(w);
      hide Text, SoundTable, FindCRLF;
      var x := w.buf;
      if |x| + |b| >= w.s.discard {
        assert (x + b)[w.s.discard..] == b[w.s.discard - |x|..];
      }
    }
  }

  /** Going on after `b` has arrived is the same as having had `b` from the start. */
  lemma {:induction false} LoopJoin(w: World, b: Bytes)
    requires StateOk(w.s) && !w.s.crashed
    ensures StateOk(Loop(w).s)
    ensures Fed(Loop(w), b) == Loop(World(w.s, w.buf + b))
    decreases |w.buf|
  {
    hide Text, StateOk, Turn;
    if b == [] {
      assert w.buf + b == w.buf;
      LoopStops(w);
      assert Loop(w).buf + b == Loop(w).buf;
    } else if Busy(w) {
      TurnOk(w);
      var t := Turn(w);
      if t.s.crashed {
        CrashTurn(w, b);
      } else if Filled(w) {
        FilledTurn(w, b);
        LoopJoin(t, b);
      } else {
        ShortTurn(w, b);
        assert Fed(t, b) == Loop(World(t.s, b)) by {
          assert [] + b == b;
        }
      }
    }
  }

  /** A turn that brings the server down does so whatever follows. */
  lemma {:induction false} CrashTurn(w: World, b: Bytes)
    requires StateOk(w.s) && Busy(w) && Turn(w).s.crashed
    ensures Busy(World(w.s, w.buf + b)) && Turn(World(w.s, w.buf + b)) == Turn(w)
  {
    hide Text, Request, Receive, SoundTable, FindCRLF;
    if w.s.mode.NewCommand? {
      CrashingLine(w, b);
    } else {
      CrashingValue(w, b);
    }
  }

  /** The loop ends with nothing left to do. */
  lemma {:induction false} LoopStops(w: World)
    requires StateOk(w.s)
    ensures StateOk(Loop(w).s) && !Busy(Loop(w))
    decreases |w.buf|
  {
    hide Text, StateOk, Turn, Busy;
    if Busy(w) {
      TurnOk(w);
      LoopStops(Turn(w));
    }
  }

  lemma FedOk(w: World, data: Bytes)
    requires StateOk(w.s)
    ensures StateOk(Fed(w, data).s)
  {
    if !w.s.crashed {
      LoopStops(World(w.s, w.buf + data));
    }
  }

  /**
    The session does not depend on how the stream is cut: two pieces in two calls leave the same replies,
    the same table, the same session and the same buffer as both in one call.
  */
  lemma {:induction false} FedJoin(w: World, a: Bytes, b: Bytes)
    requires StateOk(w.s)
    ensures StateOk(Fed(w, a).s) && Fed(Fed(w, a), b) == Fed(w, a + b)
  {
    FedOk(w, a);
    if !w.s.crashed {
      LoopJoin(World(w.s, w.buf + a), b);
      assert w.buf + a + b == w.buf + (a + b);
    }
  }

  ghost function Joined(pieces: seq<Bytes>): Bytes {
    if pieces == [] then [] else Joined(pieces[..|pieces| - 1]) + pieces[|pieces| - 1]
  }

  ghost function FedAll(w: World, pieces: seq<Bytes>): (r: World)
    requires StateOk(w.s)
    ensures StateOk(r.s)
  {
    if pieces == [] then w
    else
      var r := FedAll(w, pieces[..|pieces| - 1]);
      FedOk(r, pieces[|pieces| - 1]);
      Fed(r, pieces[|pieces| - 1])
  }

  /** Any way of cutting a stream into pieces gives what the whole stream gives at once. */
  lemma {:induction false} AnyPieces(w: World, pieces: seq<Bytes>)
    requires StateOk(w.s) && !Busy(w)
    ensures FedAll(w, pieces) == Fed(w, Joined(pieces))
  {
    hide Text, StateOk;
    if pieces == [] {
      assert w.buf + [] == w.buf;
    } else {
      var n := |pieces| - 1;
      AnyPieces(w, pieces[..n]);
      FedJoin(w, Joined(pieces[..n]), pieces[n]);
    }
  }

  // --------------------------------------------------------- the limit on a line

  /** The buffer holds more than 1024 bytes of an unfinished line of a connection that still sends. */
  predicate CutOff(w: World) {
    !w.s.crashed && w.s.mode.NewCommand? && |w.buf| > LONGEST_LINE && w.s.connected && FindCRLF(w.buf) < 0
  }

  /** `onMessage` as it is: it shuts the connection when it stops in the middle of an over-long line. */
  ghost function Message(w: World, data: Bytes): World
    requires StateOk(w.s)
  {
    var r := Fed(w, data);
    if CutOff(r) then World(r.s.(connected := false), r.buf) else r
  }

  lemma MessageOk(w: World, data: Bytes)
    requires StateOk(w.s)
    ensures StateOk(Message(w, data).s)
  {
    FedOk(w, data);
    hide Text, Fed, SoundTable;
  }

  ghost function Messages(w: World, pieces: seq<Bytes>): (r: World)
    requires StateOk(w.s)
    ensures StateOk(r.s)
  {
    if pieces == [] then w
    else
      var r := Messages(w, pieces[..|pieces| - 1]);
      MessageOk(r, pieces[|pieces| - 1]);
      Message(r, pieces[|pieces| - 1])
  }

  /**
    With the limit the cut does matter.  The server does what it would do with the whole stream, after
    every piece, if and only if no piece ends inside a line of which more than 1024 bytes have arrived.
  */
  lemma {:induction false} CutsMatterIff(w: World, pieces: seq<Bytes>)
    requires StateOk(w.s) && !Busy(w)
    ensures (forall n :: 0 <= n <= |pieces| ==> Messages(w, pieces[..n]) == Fed(w, Joined(pieces[..n])))
       <==> (forall n :: 0 < n <= |pieces| ==> !CutOff(Fed(w, Joined(pieces[..n]))))
  {
    hide Text, StateOk, Fed, CutOff, Busy;
    if forall n :: 0 < n <= |pieces| ==> !CutOff(Fed(w, Joined(pieces[..n]))) {
      forall n | 0 <= n <= |pieces|
        ensures Messages(w, pieces[..n]) == Fed(w, Joined(pieces[..n]))
      {
        Uncut(w, pieces, n);
      }
    }
    if forall n :: 0 <= n <= |pieces| ==> Messages(w, pieces[..n]) == Fed(w, Joined(pieces[..n])) {
      forall n | 0 < n <= |pieces|
        ensures !CutOff(Fed(w, Joined(pieces[..n])))
      {
        PieceByPiece(w, pieces, n);
        assert Messages(w, pieces[..n - 1]) == Fed(w, Joined(pieces[..n - 1]));
        CutShows(Fed(w, Joined(pieces[..n - 1])), pieces[n - 1]);
      }
    }
  }

  lemma CutShows(w: World, data: Bytes)
    requires StateOk(w.s)
    ensures CutOff(Fed(w, data)) <==> Message(w, data) != Fed(w, data)
  {
    hide Text, Fed;
  }

  /** One more piece, for both readings of the stream. */
  lemma {:induction false} PieceByPiece(w: World, pieces: seq<Bytes>, n: nat)
    requires StateOk(w.s) && 0 < n <= |pieces|
    ensures Messages(w, pieces[..n]) == Message(Messages(w, pieces[..n - 1]), pieces[n - 1])
    ensures StateOk(Fed(w, Joined(pieces[..n - 1])).s)
    ensures Fed(w, Joined(pieces[..n])) == Fed(Fed(w, Joined(pieces[..n - 1])), pieces[n - 1])
  {
    hide Text, StateOk, Fed, Message;
    assert pieces[..n][..n - 1] == pieces[..n - 1] && pieces[..n][n - 1] == pieces[n - 1];
    FedJoin(w, Joined(pieces[..n - 1]), pieces[n - 1]);
  }

  lemma {:induction false} Uncut(w: World, pieces: seq<Bytes>, n: nat)
    requires StateOk(w.s) && !Busy(w) && n <= |pieces|
    requires forall i :: 0 < i <= |pieces| ==> !CutOff(Fed(w, Joined(pieces[..i])))
    ensures Messages(w, pieces[..n]) == Fed(w, Joined(pieces[..n]))
  {
    hide Text, StateOk, CutOff;
    if n == 0 {
      assert w.buf + [] == w.buf;
    } else {
      hide Text, Fed;
      Uncut(w, pieces, n - 1);
      PieceByPiece(w, pieces, n);
    }
  }

  lemma SoundItem(t: Table, key: Bytes)
    requires SoundTable(t)
    ensures key in t.items ==> |t.items[key].value| >= 2 && t.items[key].flags >= 0 && t.items[key].cas >= 0
  {
    assert key in t.items ==> ItemOk(t, key);
  }

  // ------------------------------------------------------------------ the class

  class Session {
    const owner: MemcacheServer
    const startTime: int
    var mode: Mode
    var command: Bytes
    var noreply: bool
    var policy: Option<Policy>
    var currItem: Option<Partial>
    var bytesToDiscard: int
    var outputBuf: Bytes
    var sent: Bytes
    var connected: bool
    var stopping: bool
    var crashed: bool
    var requestsProcessed: nat
    var buf: Bytes

    ghost function Value(): State
      reads this, owner
    {
      State(mode, command, noreply, policy, currItem, bytesToDiscard, outputBuf, sent, connected, stopping, crashed,
            startTime, owner.Value(), requestsProcessed)
    }

    ghost predicate Valid()
      reads this, owner
    {
      owner.Valid() && StateOk(Value())
    }

    constructor (server: MemcacheServer, start: int)
      requires server.Valid() && SoundTable(server.Value())
      ensures owner == server && startTime == start && Valid() && buf == []
      ensures mode == NewCommand && sent == [] && outputBuf == [] && connected && !crashed && !stopping
      ensures requestsProcessed == 0
      ensures owner.Value() == old(server.Value())
    {
      owner := server;
      startTime := start;
      mode := NewCommand;
      command := [];
      noreply := false;
      policy := None;
      currItem := None;
      bytesToDiscard := 0;
      outputBuf := [];
      sent := [];
      connected := true;
      stopping := false;
      crashed := false;
      requestsProcessed := 0;
      buf := [];
    }

    method ReplyWith(msg: Bytes)
      modifies this`sent
      ensures Value() == Reply(old(Value()), msg)
    {
      if !noreply {
        if connected {
          sent := sent + msg;
        }
      }
    }

    method ResetRequest()
      modifies this`command, this`noreply, this`policy, this`currItem, this`bytesToDiscard
      ensures Value() == Reset(old(Value()))
    {
      command := [];
      noreply := false;
      policy := None;
      currItem := None;
      bytesToDiscard := 0;
    }

    /** The `get` loop over the keys. */
    method GetKeys(keys: seq<Bytes>, cas: bool)
      requires owner.Valid() && SoundTable(owner.Value())
      modifies this`sent, this`outputBuf
      ensures Value() == Get(old(Value()), keys, cas)
    {
      hide Text, SoundTable, Sharded, TableOk, Distinct;
      var i := 0;
      while i < |keys|
        invariant 0 <= i <= |keys|
        invariant owner.Valid() && owner.Value() == old(owner.Value()) && SoundTable(owner.Value())
        invariant Get(Value(), keys[i..], cas) == Get(old(Value()), keys, cas)
      {
        var key := keys[i];
        assert keys[i..][0] == key && keys[i..][1..] == keys[i + 1..];
        if |key| > LONGEST_KEY {
          ReplyWith(Text(BadLine));
          return;
        }
        var item := owner.GetItem(key);
        if item.Some? {
          SoundItem(owner.Value(), key);
          outputBuf := outputBuf + Output(item.value, cas);
        } else {
          assert outputBuf + [] == outputBuf;
        }
        i := i + 1;
      }
      outputBuf := outputBuf + Text(End);
      if connected {
        sent := sent + outputBuf;
        outputBuf := [];
      }
    }

    static method ParseUpdate(p: Policy, args: seq<Bytes>, start: int) returns (r: Order)
      ensures r == ReadUpdate(p, args, start)
    {
      hide Text, Strtoull, NumberAt, RelativeTime, ToInt32, ToInt64;
      if args == [] {
        return Broken;
      }
      var key := args[0];
      var flags := NumberAt(args, 1);
      var exptime := NumberAt(args, 2);
      var bytes := NumberAt(args, 3);
      var good := |key| <= LONGEST_KEY && flags.Some? && exptime.Some? && bytes.Some?;
      var cas := Some(0);
      if good && p == Cas {
        cas := NumberAt(args, 4);
        good := cas.Some?;
      }
      if !good {
        return BadFormat;
      }
      var length := ToInt32(bytes.value);
      if length < 0 || length + 2 >= HALF / 2 {
        return Broken;
      }
      if length > LARGEST_VALUE {
        return TooLarge(key, length);
      }
      r := Wanted(Partial(key, flags.value % HALF, RelativeTime(ToInt64(exptime.value), start), length + 2,
                          cas.value, []));
    }

    /** Refuse a value that is too large: forget the key and skip the value. */
    method BeginDiscard(key: Bytes, length: int)
      requires owner.Valid()
      modifies this`sent, this`bytesToDiscard, this`mode, owner
      ensures owner.Valid()
      ensures Value() == Reply(old(Value()), Text(ObjectTooLarge))
                         .(table := Deleted(old(owner.Value()), key), discard := length + 2, mode := DiscardValue)
    {
      hide Text, Sharded, TableOk, Distinct, Deleted;
      ReplyWith(Text(ObjectTooLarge));
      var found := owner.DeleteItem(key);
      bytesToDiscard := length + 2;
      mode := DiscardValue;
    }

    method BeginReceive(item: Partial)
      modifies this`currItem, this`mode
      ensures Value() == old(Value()).(item := Some(item), mode := ReceiveValue)
    {
      currItem := Some(item);
      mode := ReceiveValue;
    }

    method DoUpdate(p: Policy, args: seq<Bytes>) returns (finished: bool)
      requires owner.Valid() && !crashed
      modifies this`policy, this`sent, this`bytesToDiscard, this`mode, this`currItem, this`crashed, owner
      ensures owner.Valid()
      ensures !crashed ==> (if finished then Reset(Value()) else Value()) == Update(old(Value()), p, args)
      ensures crashed == Update(old(Value()), p, args).crashed
    {
      hide Text, ReadUpdate, Deleted, Sharded, TableOk, Distinct;
      policy := Some(p);
      var order := ParseUpdate(p, args, startTime);
      match order {
        case Broken =>
          crashed := true;
          finished := false;
        case BadFormat =>
          ReplyWith(Text(BadLine));
          finished := true;
        case TooLarge(key, length) =>
          BeginDiscard(key, length);
          finished := false;
        case Wanted(item) =>
          BeginReceive(item);
          finished := false;
      }
    }

    method DoDelete(args: seq<Bytes>)
      requires owner.Valid() && !crashed
      modifies this`sent, this`crashed, owner
      ensures owner.Valid() && Value() == DeleteKey(old(Value()), args)
    {
      hide Text, Sharded, TableOk, Distinct;
      if args == [] {
        crashed := true;
      } else if |args[0]| > LONGEST_KEY {
        ReplyWith(Text(BadLine));
      } else if |args| > 1 && args[1] != "0" {
        ReplyWith(Text(DeleteUsage));
      } else {
        var found := owner.DeleteItem(args[0]);
        if found {
          ReplyWith(Text(DeletedKey));
        } else {
          assert owner.items == old(owner.items);
          ReplyWith(Text(NotFound));
        }
      }
    }

    /** The command of a request line whose first token is `name`. */
    method RunCommand(name: Bytes, args: seq<Bytes>) returns (finished: bool)
      requires owner.Valid() && SoundTable(owner.Value()) && !crashed
      modifies this`policy, this`sent, this`bytesToDiscard, this`mode, this`currItem, this`crashed, this`outputBuf,
               this`connected, this`stopping, owner
      ensures owner.Valid() && crashed == Dispatch(old(Value()), name, args).crashed
      ensures !crashed ==> (if finished then Reset(Value()) else Value()) == Dispatch(old(Value()), name, args)
    {
      hide Text, SoundTable, Sharded, TableOk, Distinct, Deleted, Get, Update;
      finished := true;
      var policyOfName := PolicyOf(name);
      hide PolicyOf;
      if policyOfName.Some? {
        finished := DoUpdate(policyOfName.value, args);
      } else if name == "get" || name == "gets" {
        GetOk(Value(), args, name == "gets");
        GetKeys(args, name == "gets");
      } else if name == "delete" {
        DoDelete(args);
      } else if name == "version" {
        ReplyWith(Text(Version));
      } else if name == "quit" {
        connected := false;
      } else if name == "shutdown" {
        connected := false;
        stopping := true;
      } else {
        ReplyWith(Text(Error));
      }
    }

    method ProcessRequest(line: Bytes) returns (finished: bool)
      requires owner.Valid() && SoundTable(owner.Value()) && !crashed
      modifies this, owner
      ensures owner.Valid() && buf == old(buf) && crashed == Request(old(Value()), line).crashed
      ensures !crashed ==> (if finished then Reset(Value()) else Value()) == Request(old(Value()), line)
    {
      hide Text, SoundTable, Sharded, TableOk, Distinct, Dispatch, Tokens;
      if |line| >= INT_LIMIT {
        crashed := true;
        return false;
      }
      requestsProcessed := requestsProcessed + 1;
      var request := line;
      if EndsWithNoreply(line) {
        noreply := true;
        request := line[..|line| - 8];
      } else {
        noreply := false;
      }
      hide EndsWithNoreply;
      var tokens := Tokens(request);
      if tokens == [] {
        ReplyWith(Text(Error));
        return true;
      }
      command := tokens[0];
      finished := RunCommand(command, tokens[1..]);
    }

    method ReceiveSome()
      requires Valid() && !crashed && mode == ReceiveValue && buf != []
      modifies this, owner
      ensures owner.Valid() && crashed == Turn(World(old(Value()), old(buf))).s.crashed
      ensures !crashed ==> World(Value(), buf) == Turn(World(old(Value()), old(buf)))
    {
      hide Text, Sharded, TableOk, Distinct, FlagsOk, FindCRLF, Stored, Finish;
      var needed := currItem.value.valuelen - |currItem.value.received|;
      var avail := if |buf| < needed then |buf| else needed;
      currItem := Some(currItem.value.(received := currItem.value.received + buf[..avail]));
      buf := buf[avail..];
      if currItem.value.valuelen == |currItem.value.received| {
        StoreReceived();
      }
    }

    method StoreAndReply(item: Item, p: Policy)
      requires owner.Valid() && EndsWithCRLF(item.value) && !crashed
      requires item.key in owner.items ==> EndsWithCRLF(owner.items[item.key].value)
      modifies this`sent, this`crashed, owner
      ensures owner.Valid() && crashed == TooLong(Lookup(old(owner.Value()), item.key), item, p)
      ensures !crashed ==>
                Value() == Reply(old(Value()), Answer(Lookup(old(owner.Value()), item.key), item, p))
                           .(table := Stored(old(owner.Value()), item, p))
    {
      hide Text, Sharded, Distinct, FlagsOk, TableOk, Stored, EndsWithCRLF, TooLong;
      var stored, exists_, failed := owner.StoreItem(item, p);
      if failed {
        crashed := true;
        return;
      }
      if stored {
        ReplyWith(Text(StoredItem));
      } else if p == Cas {
        if exists_ {
          ReplyWith(Text(Exists));
        } else {
          ReplyWith(Text(NotFound));
        }
      } else {
        ReplyWith(Text(NotStored));
      }
    }

    /** The value is complete. */
    method StoreReceived()
      requires owner.Valid() && SoundTable(owner.Value()) && currItem.Some? && policy.Some? && !crashed
      modifies this, owner
      ensures owner.Valid() && crashed == Finish(old(Value())).crashed && buf == old(buf)
      ensures !crashed ==> Value() == Finish(old(Value()))
    {
      hide Text, Sharded, Distinct, FlagsOk, TableOk, Stored, EndsWithCRLF, Answer, TooLong;
      var item := Completed(currItem.value);
      OldEnds(owner.Value(), item.key);
      if EndsWithCRLF(item.value) {
        StoreAndReply(item, policy.value);
        if crashed {
          return;
        }
      } else {
        ReplyWith(Text(BadChunk));
      }
      ResetRequest();
      mode := NewCommand;
    }

    method DiscardSome()
      requires Valid() && !crashed && mode == DiscardValue && buf != []
      modifies this
      ensures !crashed && owner.Valid() && World(Value(), buf) == Turn(World(old(Value()), old(buf)))
    {
      hide Text, Sharded, TableOk, Distinct, FlagsOk, FindCRLF;
      if |buf| < bytesToDiscard {
        bytesToDiscard := bytesToDiscard - |buf|;
        buf := [];
      } else {
        buf := buf[bytesToDiscard..];
        bytesToDiscard := 0;
        ResetRequest();
        mode := NewCommand;
      }
    }

    /** A complete line is in the buffer. */
    method RequestLine(k: int)
      requires Valid() && !crashed && mode == NewCommand && buf != [] && k == FindCRLF(buf) && k >= 0
      modifies this, owner
      ensures owner.Valid() && crashed == Turn(World(old(Value()), old(buf))).s.crashed
      ensures !crashed ==> World(Value(), buf) == Turn(World(old(Value()), old(buf)))
    {
      hide Text, Sharded, TableOk, Distinct, FlagsOk, FindCRLF, Request;
      FindCRLFIs(buf);
      var finished := ProcessRequest(buf[..k]);
      if finished {
        ResetRequest();
      }
      buf := buf[k + 2..];
    }

    method OnMessage(data: Bytes)
      requires Valid() && !crashed
      modifies this, owner
      ensures owner.Valid() && crashed == Message(World(old(Value()), old(buf)), data).s.crashed
      ensures !crashed ==> Valid() && World(Value(), buf) == Message(World(old(Value()), old(buf)), data)
    {
      hide Text, Sharded, TableOk, Distinct, FlagsOk, FindCRLF, Turn, StateOk;
      ghost var w := World(Value(), buf + data);
      MessageOk(World(Value(), buf), data);
      buf := buf + data;
      while |buf| > 0
        invariant Valid() && !crashed
        invariant Loop(World(Value(), buf)) == Loop(w)
        decreases |buf|
      {
        ghost var v := World(Value(), buf);
        if mode == NewCommand {
          var k := FindCRLF(buf);
          if k >= 0 {
            TurnOk(v);
            RequestLine(k);
            if crashed {
              return;
            }
          } else {
            if |buf| > LONGEST_LINE {
              connected := false;
            }
            break;
          }
        } else {
          TurnOk(v);
          if mode == ReceiveValue {
            ReceiveSome();
            if crashed {
              return;
            }
          } else {
            DiscardSome();
          }
        }
      }
    }
  }
}
