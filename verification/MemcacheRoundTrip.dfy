/**
  What a memcached client is promised: a value that was set is the value that `get` answers, byte for
  byte, and however the two requests are cut into messages.
*/
module MemcacheRoundTrip {

  import opened MemcacheStore
  import opened MemcacheSession
  import opened MemcacheRequests

  // ------------------------------------------------------------ the text, and back

  /** A token as the protocol allows it in a line: not empty, no spaces, no carriage return. */
  ghost predicate Plain(t: Bytes) {
    t != [] && forall i :: 0 <= i < |t| ==> t[i] != ' ' && t[i] != '\r'
  }

  ghost function Spaced(ts: seq<Bytes>): Bytes
    requires ts != []
  {
    if |ts| == 1 then ts[0] else ts[0] + " " + Spaced(ts[1..])
  }

  lemma {:induction false} TokenThen(t: Bytes, rest: Bytes)
    requires forall i :: 0 <= i < |t| ==> t[i] != ' '
    requires rest == [] || rest[0] == ' '
    ensures TokenLength(t + rest) == |t|
    decreases |t|
  {
    if t == [] {
      assert t + rest == rest;
    } else {
      assert (t + rest)[1..] == t[1..] + rest;
      TokenThen(t[1..], rest);
    }
  }

  /** The tokenizer undoes the joining of tokens with spaces. */
  lemma {:induction false} TokensOfSpaced(ts: seq<Bytes>)
    requires ts != [] && forall i :: 0 <= i < |ts| ==> Plain(ts[i])
    ensures Tokens(Spaced(ts)) == ts
    decreases |ts|
  {
    var t := ts[0];
    assert Plain(t);
    if |ts| == 1 {
      TokenThen(t, []);
      assert t + [] == t && t[..|t|] == t && t[|t|..] == [];
      assert Tokens(t) == [t] + Tokens([]);
    } else {
      var rest := Spaced(ts[1..]);
      TokensOfSpaced(ts[1..]);
      var b := t + " " + rest;
      assert b == t + (" " + rest) && (" " + rest)[0] == ' ';
      TokenThen(t, " " + rest);
      assert b[..|t|] == t && b[|t|..] == " " + rest;
      assert b[0] == t[0];
      assert (" " + rest)[1..] == rest;
      assert Tokens(" " + rest) == Tokens(rest);
      assert Tokens(b) == [t] + ts[1..];
    }
  }

  lemma {:induction false} SpacedHasNoCR(ts: seq<Bytes>)
    requires ts != [] && forall i :: 0 <= i < |ts| ==> Plain(ts[i])
    ensures forall i :: 0 <= i < |Spaced(ts)| ==> Spaced(ts)[i] != '\r'
    ensures |Spaced(ts)| >= |ts[|ts| - 1]| && Spaced(ts)[|Spaced(ts)| - |ts[|ts| - 1]|..] == ts[|ts| - 1]
    decreases |ts|
  {
    assert Plain(ts[0]);
    if |ts| > 1 {
      SpacedHasNoCR(ts[1..]);
      var last := ts[|ts| - 1];
      var rest := Spaced(ts[1..]);
      assert Spaced(ts) == ts[0] + " " + rest;
      assert Spaced(ts)[|Spaced(ts)| - |last|..] == rest[|rest| - |last|..];
    }
  }

  lemma {:induction false} DigitsOfJoin(a: Bytes, b: Bytes, acc: nat)
    requires Digits(a, acc).Some?
    ensures Digits(a + b, acc) == Digits(b, Digits(a, acc).value)
    decreases |a|
  {
    if a == [] {
      assert a + b == b;
    } else {
      assert (a + b)[1..] == a[1..] + b;
      DigitsOfJoin(a[1..], b, 10 * acc + (a[0] as int - '0' as int));
    }
  }

  /** Reading undoes writing, for decimal numbers. */
  lemma {:induction false} DigitsOfDecimal(n: nat)
    ensures Digits(Decimal(n), 0) == Some(n)
    ensures Decimal(n) != [] && forall i :: 0 <= i < |Decimal(n)| ==> '0' <= Decimal(n)[i] <= '9'
  {
    if n < 10 {
      OneDigit(n, 0);
    } else {
      DigitsOfDecimal(n / 10);
      OneDigit(n % 10, n / 10);
      DigitsOfJoin(Decimal(n / 10), ["0123456789"[n % 10]], 0);
    }
  }

  lemma OneDigit(d: nat, acc: nat)
    requires d < 10
    ensures '0' <= "0123456789"[d] <= '9' && Digits(["0123456789"[d]], acc) == Some(10 * acc + d)
  {
    var c := "0123456789"[d];
    assert c as int == '0' as int + d;
    assert [c][1..] == [];
  }

  lemma {:induction false} NumberIsRead(n: nat)
    requires n < WORD
    ensures Strtoull(Decimal(n)) == Some(n) && Plain(Decimal(n))
  {
    DigitsOfDecimal(n);
    assert '0' <= Decimal(n)[0] <= '9';
  }

  // ------------------------------------------------------------------- the lines

  const CRLF: Bytes := "\r\n"

  ghost predicate NoCR(line: Bytes) {
    forall i :: 0 <= i < |line| ==> line[i] != '\r'
  }

  lemma {:induction false} SpacedSnoc(ts: seq<Bytes>)
    requires |ts| > 1
    ensures Spaced(ts) == Spaced(ts[..|ts| - 1]) + " " + ts[|ts| - 1]
  {
    var n := |ts| - 1;
    if n == 1 {
      assert ts[..1] == [ts[0]] && ts[1..] == [ts[1]];
    } else {
      var rest := ts[1..];
      SpacedSnoc(rest);
      assert rest[..n - 1] == ts[..n][1..];
      assert ts[0] + " " + (Spaced(rest[..n - 1]) + " " + ts[n]) == ts[0] + " " + Spaced(rest[..n - 1]) + " " + ts[n];
    }
  }

  /** A line ends in " noreply" only when its last token is that word. */
  lemma NoreplyIsLast(front: Bytes, last: Bytes)
    requires Plain(last)
    ensures EndsWithNoreply(front + " " + last) ==> last == "noreply"
  {
    var line := front + " " + last;
    assert |line| >= 8 && |last| < 7 ==> line[|front|] == line[|line| - 8..][7 - |last|];
    assert |last| > 7 ==> line[|line| - 8..][0] == last[|last| - 8];
    assert |last| == 7 ==> line[|line| - 8..] == " " + last && (" " + last)[1..] == last;
  }

  /** A line of plain tokens, the last of which is not `noreply`, is read as those tokens. */
  lemma {:induction false} LineIs(ts: seq<Bytes>)
    requires ts != [] && (forall i :: 0 <= i < |ts| ==> Plain(ts[i])) && (|ts| > 1 ==> ts[|ts| - 1] != "noreply")
    ensures var line := Spaced(ts); !EndsWithNoreply(line) && RequestTokens(line) == ts && NoCR(line)
  {
    var line, last := Spaced(ts), ts[|ts| - 1];
    assert Plain(last);
    TokensOfSpaced(ts);
    SpacedHasNoCR(ts);
    hide Plain, Tokens, EndsWithNoreply;
    if |ts| > 1 {
      SpacedSnoc(ts);
      NoreplyIsLast(Spaced(ts[..|ts| - 1]), last);
    } else {
      OneTokenOnly(last);
    }
    hide Spaced;
  }

  lemma OneTokenOnly(t: Bytes)
    requires Plain(t)
    ensures !EndsWithNoreply(t)
  {
    assert |t| >= 8 ==> t[|t| - 8..][0] == t[|t| - 8];
  }

  lemma Spaced5(a: Bytes, b: Bytes, c: Bytes, d: Bytes, e: Bytes)
    ensures Spaced([a, b, c, d, e]) == a + " " + (b + " " + (c + " " + (d + " " + e)))
  {
    assert [a, b, c, d, e][1..] == [b, c, d, e] && [b, c, d, e][1..] == [c, d, e] && [c, d, e][1..] == [d, e];
    assert [d, e][1..] == [e];
    assert Spaced([d, e]) == d + " " + e;
    assert Spaced([c, d, e]) == c + " " + Spaced([d, e]);
    assert Spaced([b, c, d, e]) == b + " " + Spaced([c, d, e]);
  }

  function Pow10(k: nat): nat {
    if k == 0 then 1 else 10 * Pow10(k - 1)
  }

  lemma {:induction false} DecimalLength(n: nat, k: nat)
    requires k > 0 && n < Pow10(k)
    ensures |Decimal(n)| <= k
  {
    if n >= 10 {
      DecimalLength(n / 10, k - 1);
    }
  }

  lemma FiveTimes(k: nat)
    ensures Pow10(k + 5) == 100_000 * Pow10(k)
  {
    assert Pow10(k + 2) == 100 * Pow10(k);
    assert Pow10(k + 4) == 100 * Pow10(k + 2);
  }

  lemma WordsAreShort(n: nat)
    requires n < WORD
    ensures |Decimal(n)| <= 20
  {
    FiveTimes(0);
    FiveTimes(5);
    FiveTimes(10);
    FiveTimes(15);
    DecimalLength(n, 20);
  }

  // --------------------------------------------------------------- the requests

  ghost function UpdateTokens(command: Bytes, key: Bytes, flags: nat, exptime: nat, n: nat): seq<Bytes> {
    [command, key, Decimal(flags), Decimal(exptime), Decimal(n)]
  }

  ghost function UpdateLine(command: Bytes, key: Bytes, flags: nat, exptime: nat, n: nat): Bytes {
    Spaced(UpdateTokens(command, key, flags, exptime, n))
  }

  ghost function SetLine(key: Bytes, flags: nat, exptime: nat, n: nat): Bytes {
    UpdateLine("set", key, flags, exptime, n)
  }

  ghost function GetLine(key: Bytes): Bytes {
    Spaced(["get", key])
  }

  ghost predicate SetArguments(key: Bytes, flags: nat, exptime: nat, n: nat) {
    Plain(key) && |key| <= LONGEST_KEY && flags < HALF && exptime < WORD && n <= LARGEST_VALUE
  }

  /** The length of a value that fits and the flags survive the casts. */
  lemma NumbersAreKept(n: nat, flags: nat)
    requires n <= LARGEST_VALUE && flags < HALF
    ensures ToInt32(n) == n && flags % HALF == flags
  {
  }

  lemma {:induction false} UpdateIsRead(p: Policy, command: Bytes, key: Bytes, flags: nat, exptime: nat, n: nat,
                                        start: int)
    requires SetArguments(key, flags, exptime, n) && p != Cas
    ensures ReadUpdate(p, UpdateTokens(command, key, flags, exptime, n)[1..], start)
            == Wanted(Partial(key, flags, RelativeTime(ToInt64(exptime), start), n + 2, 0, []))
  {
    NumberIsRead(flags);
    NumberIsRead(exptime);
    NumberIsRead(n);
    NumbersAreKept(n, flags);
    hide Strtoull, Decimal, ToInt32, ToInt64, RelativeTime, Plain;
    var args := UpdateTokens(command, key, flags, exptime, n)[1..];
    assert args == [key, Decimal(flags), Decimal(exptime), Decimal(n)];
  }

  lemma {:induction false} UpdateLineIs(command: Bytes, key: Bytes, flags: nat, exptime: nat, n: nat)
    requires SetArguments(key, flags, exptime, n) && Plain(command) && |command| <= 10
    ensures var line := UpdateLine(command, key, flags, exptime, n);
            && !EndsWithNoreply(line) && RequestTokens(line) == UpdateTokens(command, key, flags, exptime, n)
            && NoCR(line) && |line| < LONGEST_LINE
  {
    NumberIsRead(flags);
    NumberIsRead(exptime);
    NumberIsRead(n);
    WordsAreShort(flags);
    WordsAreShort(exptime);
    WordsAreShort(n);
    DigitsOfDecimal(n);
    assert Decimal(n) != "noreply" by {
      assert Decimal(n)[0] != 'n';
    }
    hide Spaced, Strtoull, Plain, Decimal, RequestTokens, EndsWithNoreply, NoCR, Digits;
    LineIs(UpdateTokens(command, key, flags, exptime, n));
    Spaced5(command, key, Decimal(flags), Decimal(exptime), Decimal(n));
  }

  lemma PlainCommands()
    ensures Plain("set") && Plain("append") && Plain("get")
    ensures PolicyOf("set") == Some(Set) && PolicyOf("append") == Some(Append)
  {
  }

  lemma SetLineIs(key: Bytes, flags: nat, exptime: nat, n: nat)
    requires SetArguments(key, flags, exptime, n)
    ensures var line := SetLine(key, flags, exptime, n); NoCR(line) && |line| < LONGEST_LINE
  {
    PlainCommands();
    hide Plain, SetArguments, PolicyOf, RequestTokens, EndsWithNoreply, NoCR, UpdateLine;
    UpdateLineIs("set", key, flags, exptime, n);
  }

  lemma GetLineIs(key: Bytes)
    requires Plain(key) && key != "noreply"
    ensures var line := GetLine(key);
            && !EndsWithNoreply(line) && RequestTokens(line) == ["get", key] && NoCR(line) && |line| == 4 + |key|
  {
    assert Plain("get");
    var ts: seq<Bytes> := ["get", key];
    LineIs(ts);
    SpacedSnoc(ts);
    assert ts[..1] == ["get"];
  }

  // ------------------------------------------------------------------- the turns

  lemma {:induction false} FindAfterLine(line: Bytes, rest: Bytes)
    requires NoCR(line)
    ensures FindCRLF(line + CRLF + rest) == |line|
    decreases |line|
  {
    var b := line + CRLF + rest;
    if line == [] {
      assert b[0] == '\r' && b[1] == '\n';
    } else {
      FindAfterLine(line[1..], rest);
      assert b[1..] == line[1..] + CRLF + rest && b[0] == line[0];
    }
  }

  /** A session between requests. */
  ghost predicate Ready(s: State) {
    StateOk(s) && !s.crashed && s.mode.NewCommand? && s.connected
  }

  lemma {:induction false} LineTurn(s: State, line: Bytes, rest: Bytes)
    requires StateOk(s) && !s.crashed && s.mode.NewCommand? && !Request(s, line).crashed && NoCR(line)
    ensures StateOk(Request(s, line))
    ensures Loop(World(s, line + CRLF + rest)) == Loop(World(Request(s, line), rest))
  {
    RequestOk(s, line);
    FindAfterLine(line, rest);
    var b := line + CRLF + rest;
    assert b[..|line|] == line && b[|line| + 2..] == rest;
    hide Request, FindCRLF, StateOk;
    TurnOfLine(s, line, rest);
  }

  lemma TurnOfLine(s: State, line: Bytes, rest: Bytes)
    requires StateOk(s) && !s.crashed && s.mode.NewCommand? && !Request(s, line).crashed
    requires var b := line + CRLF + rest; FindCRLF(b) == |line| && b[..|line|] == line && b[|line| + 2..] == rest
    ensures Busy(World(s, line + CRLF + rest))
    ensures Turn(World(s, line + CRLF + rest)) == World(Request(s, line), rest)
  {
    hide Request, FindCRLF, SoundTable;
  }

  lemma {:induction false} ValueTurn(s: State, value: Bytes, rest: Bytes)
    requires StateOk(s) && !s.crashed && s.mode.ReceiveValue? && Needed(s) == |value|
    ensures StateOk(Receive(s, value))
    ensures !Receive(s, value).crashed ==> Loop(World(s, value + rest)) == Loop(World(Receive(s, value), rest))
    ensures Receive(s, value).crashed ==> Loop(World(s, value + rest)).s.crashed
  {
    ReceiveOk(s, value);
    var w := World(s, value + rest);
    assert w.buf[..|value|] == value && w.buf[|value|..] == rest;
    assert Busy(w);
    ReceiveTurn(w, |value|);
    hide Receive, Turn, StateOk, FindCRLF;
  }

  lemma {:induction false} NoneFound(q: Bytes)
    requires forall i :: 0 <= i < |q| - 1 ==> q[i] != '\r'
    ensures FindCRLF(q) < 0
    decreases |q|
  {
    if |q| >= 2 {
      NoneFound(q[1..]);
    }
  }

  /** A line that has not come whole waits in the buffer. */
  lemma {:induction false} PartOfLine(s: State, line: Bytes, q: Bytes)
    requires StateOk(s) && !s.crashed && s.mode.NewCommand? && NoCR(line)
    requires |q| < |line| + 2 && q == (line + CRLF)[..|q|]
    ensures FindCRLF(q) < 0 && Loop(World(s, q)) == World(s, q)
  {
    assert forall i :: 0 <= i < |q| && i < |line| ==> q[i] == line[i];
    NoneFound(q);
    hide StateOk, FindCRLF;
  }

  /** A value that has not come whole is waited for. */
  lemma {:induction false} PartOfValue(s: State, q: Bytes)
    requires StateOk(s) && !s.crashed && s.mode.ReceiveValue? && |q| < Needed(s)
    ensures Loop(World(s, q)).s.mode.ReceiveValue?
  {
    var w := World(s, q);
    if q != [] {
      TurnOk(w);
      StillReceiving(s, q);
      assert q[..|q|] == q && q[|q|..] == [];
      assert Turn(w) == World(Receive(s, q), []) by {
        hide Receive, SoundTable, FindCRLF;
      }
      hide Receive, Turn, StateOk;
    }
  }

  // ------------------------------------------------------------- set, then get

  /** The table after a `set`. */
  ghost function WithValue(t: Table, key: Bytes, flags: int, exptime: int, value: Bytes): Table {
    Table(t.items[key := Item(key, flags, exptime, value, t.cas + 1)], t.cas + 1)
  }

  lemma {:induction false} UpdateRequest(s: State, p: Policy, command: Bytes, key: Bytes, flags: nat, exptime: nat,
                                         n: nat)
    requires Ready(s) && SetArguments(key, flags, exptime, n)
    requires PolicyOf(command) == Some(p) && p != Cas && Plain(command) && |command| <= 10
    ensures Request(s, UpdateLine(command, key, flags, exptime, n))
            == s.(requests := s.requests + 1, command := command, policy := Some(p), mode := ReceiveValue,
                  item := Some(Partial(key, flags, RelativeTime(ToInt64(exptime), s.start), n + 2, 0, [])))
  {
    UpdateLineIs(command, key, flags, exptime, n);
    UpdateIsRead(p, command, key, flags, exptime, n, s.start);
    var ts := UpdateTokens(command, key, flags, exptime, n);
    assert ts[0] == command;
    hide RequestTokens, EndsWithNoreply, ReadUpdate, SoundTable, UpdateTokens, UpdateLine, RelativeTime, ToInt64,
         PolicyOf;
  }

  lemma {:induction false} ReceivesAll(s: State, data: Bytes)
    requires StateOk(s) && !s.crashed && s.connected && s.mode.ReceiveValue? && s.policy == Some(Set) && !s.noreply
    requires s.item.value.received == [] && s.item.value.valuelen == |data| + 2
    ensures var p := s.item.value;
            Receive(s, data + CRLF)
            == Reset(s).(mode := NewCommand, sent := s.sent + Text(StoredItem),
                         table := WithValue(s.table, p.key, p.flags, p.exptime, data + CRLF))
  {
    hide Text, SoundTable;
    var v := data + CRLF;
    assert [] + v == v;
    assert EndsWithCRLF(v) by {
      assert v[|v| - 2..] == CRLF;
    }
    hide EndsWithCRLF;
  }

  lemma {:induction false} GetOne(s: State, key: Bytes)
    requires SoundTable(s.table) && s.connected && |key| <= LONGEST_KEY
    ensures Get(s, [key], false)
            == s.(out := [], sent := s.sent + (s.out + OutputFor(s.table, key, false) + Text(End)))
  {
    hide OutputFor, SoundTable, Text;
    var s1 := s.(out := s.out + OutputFor(s.table, key, false));
    assert [key][1..] == [];
    assert Get(s, [key], false) == Get(s1, [], false);
  }

  /** `get` of one key sends what was left behind before its answer. */
  lemma {:induction false} GetRequest(s: State, key: Bytes)
    requires Ready(s) && Plain(key) && key != "noreply" && |key| <= LONGEST_KEY
    ensures Request(s, GetLine(key))
            == s.(requests := s.requests + 1, out := [],
                  sent := s.sent + (s.out + OutputFor(s.table, key, false) + Text(End)))
  {
    GetLineIs(key);
    var line := GetLine(key);
    assert RequestTokens(line)[0] == "get" && RequestTokens(line)[1..] == [key];
    assert PolicyOf("get").None?;
    var s1 := s.(requests := s.requests + 1, command := "get");
    GetOne(s1, key);
    hide RequestTokens, EndsWithNoreply, SoundTable, GetLine, Get, PolicyOf, Text, OutputFor, Plain;
  }

  /** The session after a `set` has been answered. */
  ghost function AfterSet(s: State, key: Bytes, flags: nat, exptime: nat, data: Bytes): State {
    s.(requests := s.requests + 1, sent := s.sent + Text(StoredItem),
       table := WithValue(s.table, key, flags, RelativeTime(ToInt64(exptime), s.start), data + CRLF))
  }

  /** The session that waits for the value of a `set`. */
  ghost function Awaiting(s: State, key: Bytes, flags: nat, exptime: nat, n: nat): State
    requires SoundTable(s.table)
  {
    Request(s, SetLine(key, flags, exptime, n))
  }

  lemma {:induction false} SetBegins(s: State, key: Bytes, flags: nat, exptime: nat, data: Bytes, rest: Bytes)
    requires Ready(s) && SetArguments(key, flags, exptime, |data|)
    ensures var s1 := Awaiting(s, key, flags, exptime, |data|);
            && StateOk(s1) && !s1.crashed && s1.mode.ReceiveValue? && s1.item.Some? && Needed(s1) == |data + CRLF|
            && Loop(World(s, SetLine(key, flags, exptime, |data|) + CRLF + rest)) == Loop(World(s1, rest))
            && Receive(s1, data + CRLF) == AfterSet(s, key, flags, exptime, data)
  {
    var line := SetLine(key, flags, exptime, |data|);
    SetLineIs(key, flags, exptime, |data|);
    PlainCommands();
    UpdateRequest(s, Set, "set", key, flags, exptime, |data|);
    var s1 := Request(s, line);
    hide SetLine, UpdateLine, PolicyOf, Plain, Request, Receive, RelativeTime, ToInt64, Text, WithValue, SetArguments,
         SoundTable, RequestTokens,
         EndsWithNoreply, Loop, NoCR;
    LineTurn(s, line, rest);
    ReceivesAll(s1, data);
  }

  lemma {:induction false} SetTurns(s: State, key: Bytes, flags: nat, exptime: nat, data: Bytes, rest: Bytes)
    requires Ready(s) && SetArguments(key, flags, exptime, |data|)
    ensures Ready(AfterSet(s, key, flags, exptime, data))
    ensures Loop(World(s, SetLine(key, flags, exptime, |data|) + CRLF + (data + CRLF + rest)))
            == Loop(World(AfterSet(s, key, flags, exptime, data), rest))
  {
    SetBegins(s, key, flags, exptime, data, data + CRLF + rest);
    hide SetLine, Awaiting, Receive, RelativeTime, ToInt64, Text, WithValue, SetArguments, SoundTable, Loop;
    ValueTurn(Awaiting(s, key, flags, exptime, |data|), data + CRLF, rest);
  }

  lemma {:induction false} GetTurns(s: State, key: Bytes, rest: Bytes)
    requires Ready(s) && Plain(key) && |key| <= LONGEST_KEY && key != "noreply"
    ensures Ready(Request(s, GetLine(key)))
    ensures Loop(World(s, GetLine(key) + CRLF + rest)) == Loop(World(Request(s, GetLine(key)), rest))
  {
    GetLineIs(key);
    GetRequest(s, key);
    hide GetLine, Request, OutputFor, Text, Plain, SoundTable, RequestTokens, EndsWithNoreply, NoCR;
    LineTurn(s, GetLine(key), rest);
  }

  ghost function ValueReply(key: Bytes, flags: nat, data: Bytes): Bytes {
    "VALUE " + key + " " + Decimal(flags) + " " + Decimal(|data|) + [] + "\r\n" + (data + CRLF)
  }

  lemma OutputOfValue(t: Table, key: Bytes, flags: nat, exptime: int, value: Bytes)
    requires |value| >= 2 && SoundTable(WithValue(t, key, flags, exptime, value))
    ensures OutputFor(WithValue(t, key, flags, exptime, value), key, false)
            == "VALUE " + key + " " + Decimal(flags) + " " + Decimal(|value| - 2) + [] + "\r\n" + value
  {
    hide Decimal;
  }

  /** `set key ...`, the value, and `get key`. */
  ghost function SetGet(key: Bytes, flags: nat, exptime: nat, data: Bytes): Bytes {
    SetLine(key, flags, exptime, |data|) + CRLF + (data + CRLF + (GetLine(key) + CRLF + []))
  }

  /** What the stream comes to as a whole. */
  lemma {:induction false} SetGetWhole(s: State, key: Bytes, flags: nat, exptime: nat, data: Bytes)
    requires Ready(s) && SetArguments(key, flags, exptime, |data|) && key != "noreply"
    ensures var w := Fed(World(s, []), SetGet(key, flags, exptime, data));
            && w.buf == [] && Ready(w.s) && w.s.out == []
            && w.s.table == WithValue(s.table, key, flags, RelativeTime(ToInt64(exptime), s.start), data + CRLF)
            && w.s.sent == s.sent + Text(StoredItem) + (s.out + ValueReply(key, flags, data) + Text(End))
  {
    assert [] + SetGet(key, flags, exptime, data) == SetGet(key, flags, exptime, data);
    SetTurns(s, key, flags, exptime, data, GetLine(key) + CRLF + []);
    var s2 := AfterSet(s, key, flags, exptime, data);
    GetTurns(s2, key, []);
    GetRequest(s2, key);
    OutputOfValue(s.table, key, flags, RelativeTime(ToInt64(exptime), s.start), data + CRLF);
    hide SetLine, GetLine, Request, RelativeTime, ToInt64, Text, Plain, WithValue, StateOk, OutputFor, Decimal;
  }

  /** No beginning of the stream is cut off: its lines are short. */
  lemma {:induction false} SetGetIsShort(s: State, key: Bytes, flags: nat, exptime: nat, data: Bytes, p: Bytes)
    requires Ready(s) && SetArguments(key, flags, exptime, |data|) && key != "noreply"
    requires p <= SetGet(key, flags, exptime, data)
    ensures !CutOff(Fed(World(s, []), p))
  {
    var line, v, get := SetLine(key, flags, exptime, |data|), data + CRLF, GetLine(key);
    SetLineIs(key, flags, exptime, |data|);
    GetLineIs(key);
    assert [] + p == p;
    hide SetLine, GetLine, RequestTokens, EndsWithNoreply, NoCR, StateOk, FindCRLF, Plain;
    if |p| < |line| + 2 {
      PrefixOfFirst(p, line + CRLF, v + (get + CRLF + []));
      PartOfLine(s, line, p);
    } else {
      var q := p[|line| + 2..];
      PrefixAfter(p, line + CRLF, v + (get + CRLF + []));
      AfterSetLine(s, key, flags, exptime, data, q);
      assert p == line + CRLF + q;
    }
  }

  lemma PrefixOfFirst(p: Bytes, a: Bytes, b: Bytes)
    requires p <= a + b && |p| <= |a|
    ensures p == a[..|p|]
  {
    assert p == (a + b)[..|p|];
  }

  lemma PrefixAfter(p: Bytes, a: Bytes, b: Bytes)
    requires p <= a + b && |p| >= |a|
    ensures p == a + p[|a|..] && p[|a|..] <= b
  {
    assert p == (a + b)[..|p|];
    assert p[..|a|] == a;
    assert p[|a|..] == b[..|p| - |a|];
  }

  lemma {:induction false} AfterSetLine(s: State, key: Bytes, flags: nat, exptime: nat, data: Bytes, q: Bytes)
    requires Ready(s) && SetArguments(key, flags, exptime, |data|) && key != "noreply"
    requires q <= data + CRLF + (GetLine(key) + CRLF + [])
    ensures !CutOff(Loop(World(s, SetLine(key, flags, exptime, |data|) + CRLF + q)))
  {
    var v, get := data + CRLF, GetLine(key);
    SetBegins(s, key, flags, exptime, data, q);
    var s1 := Awaiting(s, key, flags, exptime, |data|);
    hide SetLine, GetLine, StateOk, FindCRLF, Plain, Awaiting, Receive, AfterSet;
    if |q| < |v| {
      PartOfValue(s1, q);
    } else {
      var r := q[|v|..];
      PrefixAfter(q, v, get + CRLF + []);
      ValueTurn(s1, v, r);
      SetTurns(s, key, flags, exptime, data, r);
      AfterValue(AfterSet(s, key, flags, exptime, data), key, r);
    }
  }

  lemma {:induction false} AfterValue(s: State, key: Bytes, r: Bytes)
    requires Ready(s) && Plain(key) && |key| <= LONGEST_KEY && key != "noreply" && r <= GetLine(key) + CRLF + []
    ensures !CutOff(Loop(World(s, r)))
  {
    var get := GetLine(key);
    GetLineIs(key);
    if |r| < |get| + 2 {
      PrefixOfFirst(r, get + CRLF, []);
      hide GetLine, StateOk, FindCRLF, Plain, NoCR;
      PartOfLine(s, get, r);
    } else {
      assert r == get + CRLF + [];
      GetTurns(s, key, []);
      hide StateOk, Request, FindCRLF;
    }
  }

  lemma {:induction false} JoinedPrefix(pieces: seq<Bytes>, n: nat)
    requires n <= |pieces|
    ensures Joined(pieces[..n]) <= Joined(pieces)
    decreases |pieces|
  {
    if n < |pieces| {
      var m := |pieces| - 1;
      JoinedPrefix(pieces[..m], n);
      assert pieces[..m][..n] == pieces[..n];
    } else {
      assert pieces[..n] == pieces;
    }
  }

  /**
    A value that is set is the value that is got: in whatever pieces the two requests arrive, the server
    answers STORED and then the very flags, length and bytes of the request, after whatever an earlier
    `get` left behind.  So the answer is the value alone if and only if nothing was.
  */
  lemma {:induction false} SetThenGet(s: State, key: Bytes, flags: nat, exptime: nat, data: Bytes, pieces: seq<Bytes>)
    requires Ready(s) && SetArguments(key, flags, exptime, |data|) && key != "noreply"
    requires Joined(pieces) == SetGet(key, flags, exptime, data)
    ensures var w, answer := Messages(World(s, []), pieces), ValueReply(key, flags, data) + Text(End);
            && w.buf == [] && Ready(w.s) && w.s.out == []
            && w.s.table == WithValue(s.table, key, flags, RelativeTime(ToInt64(exptime), s.start), data + CRLF)
            && w.s.sent == s.sent + Text(StoredItem) + (s.out + ValueReply(key, flags, data) + Text(End))
            && (w.s.sent == s.sent + Text(StoredItem) + answer <==> s.out == [])
  {
    var w0 := World(s, []);
    forall n | 0 < n <= |pieces|
      ensures !CutOff(Fed(w0, Joined(pieces[..n])))
    {
      JoinedPrefix(pieces, n);
      SetGetIsShort(s, key, flags, exptime, data, Joined(pieces[..n]));
    }
    CutsMatterIff(w0, pieces);
    assert pieces[..|pieces|] == pieces;
    SetGetWhole(s, key, flags, exptime, data);
    hide SetGet, StateOk, Fed, CutOff, Messages, ValueReply, Text, WithValue, RelativeTime, ToInt64, Joined,
         SetArguments;
    LeftOverShows(s.sent + Text(StoredItem), s.out, ValueReply(key, flags, data), Text(End));
  }

  lemma LeftOverShows(a: Bytes, out: Bytes, b: Bytes, c: Bytes)
    ensures a + (out + b + c) == a + (b + c) <==> out == []
  {
    if out == [] {
      assert out + b + c == b + c;
    } else {
      assert |a + (out + b + c)| > |a + (b + c)|;
    }
  }

  /** The one key this fails for: `get noreply` is read as `get` without keys, whatever is stored. */
  lemma GetNoreply(s: State)
    requires Ready(s)
    ensures Request(s, GetLine("noreply")).sent == s.sent + (s.out + Text(End))
  {
    var line := GetLine("noreply");
    assert line == "get noreply" by {
      assert (["get", "noreply"][1..]) == ["noreply"];
    }
    assert line[|line| - 8..] == " noreply" && line[..|line| - 8] == "get";
    assert Tokens("get") == ["get"] by {
      TokensOfSpaced(["get"]);
    }
    assert PolicyOf("get").None?;
    var s1 := s.(requests := s.requests + 1, noreply := true, command := "get");
    hide Tokens, SoundTable, GetLine, PolicyOf, Text;
    assert ["get"][1..] == [];
    assert Get(s1, [], false).sent == s.sent + (s.out + Text(End));
  }

  // ------------------------------------------------- where it goes wrong otherwise

  /** A session just opened on an empty table. */
  ghost function Opened(start: int): State {
    State(NewCommand, [], false, None, None, 0, [], [], true, false, false, start, Table(map[], 0), 0)
  }

  ghost function GetTwoLine(a: Bytes, b: Bytes): Bytes {
    Spaced(["get", a, b])
  }

  /** A `get` that is refused for its second key leaves the first item in the output buffer. */
  lemma {:induction false} RefusedGet(s: State, a: Bytes, long: Bytes)
    requires Ready(s) && Plain(a) && |a| <= LONGEST_KEY && Plain(long) && LONGEST_KEY < |long| < LONGEST_LINE
    ensures NoCR(GetTwoLine(a, long))
    ensures Request(s, GetTwoLine(a, long))
            == s.(requests := s.requests + 1, out := s.out + OutputFor(s.table, a, false),
                  sent := s.sent + Text(BadLine))
  {
    var ts: seq<Bytes> := ["get", a, long];
    assert Plain("get") && long != "noreply";
    LineIs(ts);
    assert ts[1..] == [a, long] && [a, long][1..] == [long];
    assert |Spaced(ts)| < INT_LIMIT by {
      assert Spaced([a, long]) == a + " " + Spaced([long]);
    }
    assert PolicyOf("get").None?;
    var s1 := s.(requests := s.requests + 1, command := "get");
    var s2 := s1.(out := s.out + OutputFor(s.table, a, false));
    assert Get(s1, [a, long], false) == Get(s2, [long], false) by {
      hide OutputFor, SoundTable, Text;
    }
    assert Get(s2, [long], false) == Reply(s2, Text(BadLine)) by {
      hide OutputFor, SoundTable, Text;
    }
    hide RequestTokens, EndsWithNoreply, SoundTable, Spaced, Get, PolicyOf, Text, OutputFor, Plain;
  }

  /**
    From a session just opened: after `set a`, a `get` of `a` and a key that is too long is refused, and the
    next `get`, of a key that is not there, is answered with the item of `a`.
  */
  lemma {:induction false} LeftOverIsSent(start: int, a: Bytes, data: Bytes, long: Bytes, b: Bytes)
    requires SetArguments(a, 0, 0, |data|) && Plain(long) && LONGEST_KEY < |long| < LONGEST_LINE
    requires Plain(b) && |b| <= LONGEST_KEY && b != "noreply" && b != a
    ensures StateOk(Opened(start))
    ensures var stream := SetLine(a, 0, 0, |data|) + CRLF
                          + (data + CRLF + (GetTwoLine(a, long) + CRLF + (GetLine(b) + CRLF + [])));
            var w := Fed(World(Opened(start), []), stream);
            w.s.sent == Text(StoredItem) + Text(BadLine) + (ValueReply(a, 0, data) + Text(End))
  {
    var s := Opened(start);
    OpenedIsReady(start);
    var rest := GetLine(b) + CRLF + [];
    var get := GetTwoLine(a, long);
    var stream := SetLine(a, 0, 0, |data|) + CRLF + (data + CRLF + (get + CRLF + rest));
    assert [] + stream == stream;
    hide SetLine, GetLine, GetTwoLine, Request, Text, Plain, AfterSet, StateOk, Loop, ValueReply, SetArguments;
    SetTurns(s, a, 0, 0, data, get + CRLF + rest);
    LeftOverTurns(s, a, data, long, b);
    NothingBefore(Text(StoredItem), Text(BadLine), ValueReply(a, 0, data), Text(End));
  }

  lemma OpenedIsReady(start: int)
    ensures Ready(Opened(start))
  {
    assert SoundTable(Table(map[], 0));
  }

  lemma NothingBefore(a: Bytes, b: Bytes, c: Bytes, d: Bytes)
    ensures [] + a + b + ([] + c + [] + d) == a + b + (c + d)
  {
    assert [] + a == a && [] + c + [] == c;
  }

  lemma {:induction false} LeftOverTurns(s: State, a: Bytes, data: Bytes, long: Bytes, b: Bytes)
    requires Ready(s) && Ready(AfterSet(s, a, 0, 0, data)) && SetArguments(a, 0, 0, |data|) && Plain(long)
    requires LONGEST_KEY < |long| < LONGEST_LINE
    requires Plain(b) && |b| <= LONGEST_KEY && b != "noreply" && b != a && b !in s.table.items
    ensures var s2 := AfterSet(s, a, 0, 0, data);
            Loop(World(s2, GetTwoLine(a, long) + CRLF + (GetLine(b) + CRLF + []))).s.sent
            == s.sent + Text(StoredItem) + Text(BadLine) + (s.out + ValueReply(a, 0, data) + [] + Text(End))
  {
    var s2 := AfterSet(s, a, 0, 0, data);
    var get, rest := GetTwoLine(a, long), GetLine(b) + CRLF + [];
    RefusedGet(s2, a, long);
    var s3 := Request(s2, get);
    OutputOfValue(s.table, a, 0, RelativeTime(ToInt64(0), s.start), data + CRLF);
    AbsentIsNothing(s2.table, b);
    hide SetLine, GetLine, GetTwoLine, Request, RelativeTime, ToInt64, Text, Plain, SetArguments, WithValue, SoundTable,
         OutputFor, Decimal, NoCR, Loop;
    LineTurn(s2, get, rest);
    GetTurns(s3, b, []);
    GetRequest(s3, b);
    LoopOfNothing(Request(s3, GetLine(b)));
  }

  lemma AbsentIsNothing(t: Table, key: Bytes)
    requires SoundTable(t) && key !in t.items
    ensures OutputFor(t, key, false) == []
  {
  }

  lemma LoopOfNothing(s: State)
    requires StateOk(s)
    ensures Loop(World(s, [])) == World(s, [])
  {
  }

  /** Requests that bring the server down. */
  lemma {:induction false} CrashingLines(s: State)
    requires Ready(s)
    ensures Request(s, "set").crashed && Request(s, "delete").crashed
    ensures Request(s, "set k 0 0 -1").crashed && Request(s, "set k 0 0 2147483646").crashed
  {
    hide Request, RequestTokens, Bad, SoundTable;
    NoKey();
    CrashIffFatal(s, "set");
    CrashIffFatal(s, "delete");
    NegativeCount();
    CrashIffFatal(s, "set k 0 0 -1");
    LargeCount();
    CrashIffFatal(s, "set k 0 0 2147483646");
  }

  lemma NoKey()
    ensures Bad(RequestTokens("set")) && Bad(RequestTokens("delete"))
  {
    assert Plain("set") && Plain("delete");
    LineIs(["set"]);
    LineIs(["delete"]);
    assert ["set"][1..] == [] && PolicyOf("delete").None? && PolicyOf("set") == Some(Set);
    hide RequestTokens;
  }

  lemma {:induction false} BadCount(count: Bytes, n: nat)
    requires Plain(count) && count != "noreply" && Strtoull(count) == Some(n) && n % HALF >= HALF / 2 - 2
    ensures Bad(RequestTokens(Spaced(["set", "k", "0", "0", count])))
  {
    var ts: seq<Bytes> := ["set", "k", "0", "0", count];
    PlainWords();
    hide Plain, Strtoull, Spaced, RequestTokens;
    LineIs(ts);
    var args := ts[1..];
    assert args == ["k", "0", "0", count] && ts[0] == "set";
    assert PolicyOf("set") == Some(Set);
    hide PolicyOf;
    assert NumberAt(args, 1) == Some(0) && NumberAt(args, 2) == Some(0) && NumberAt(args, 3) == Some(n);
  }

  lemma PlainWords()
    ensures Plain("set") && Plain("k") && Plain("0") && Strtoull("0") == Some(0)
  {
    assert "0"[1..] == [];
  }

  lemma NegativeCount()
    ensures Bad(RequestTokens("set k 0 0 -1"))
  {
    assert Plain("-1");
    assert Strtoull("-1") == Some(WORD - 1) by {
      assert "-1"[1..] == "1" && "1"[1..] == [];
      assert Digits("1", 0) == Some(1);
    }
    hide Strtoull, RequestTokens, Plain, Bad;
    BadCount("-1", WORD - 1);
    Spaced5("set", "k", "0", "0", "-1");
    hide Spaced;
    assert "set" + " " + ("k" + " " + ("0" + " " + ("0" + " " + "-1"))) == "set k 0 0 -1";
  }

  /** Reading a digit. */
  lemma DigitStep(s: Bytes, c: char, rest: Bytes, acc: nat)
    requires s == [c] + rest && '0' <= c <= '9'
    ensures Digits(s, acc) == Digits(rest, 10 * acc + (c as int - '0' as int))
  {
    assert s[1..] == rest;
  }

  lemma LargeCountIsRead()
    ensures Digits("2147483646", 0) == Some(2147483646)
  {
    hide Digits;
    DigitStep("2147483646", '2', "147483646", 0);
    DigitStep("147483646", '1', "47483646", 2);
    DigitStep("47483646", '4', "7483646", 21);
    DigitStep("7483646", '7', "483646", 214);
    DigitStep("483646", '4', "83646", 2147);
    DigitStep("83646", '8', "3646", 21474);
    DigitStep("3646", '3', "646", 214748);
    DigitStep("646", '6', "46", 2147483);
    DigitStep("46", '4', "6", 21474836);
    DigitStep("6", '6', [], 214748364);
    NothingToRead(2147483646);
  }

  lemma NothingToRead(acc: nat)
    ensures Digits([], acc) == Some(acc)
  {
  }

  /** A text that reads as a number is one token. */
  lemma {:induction false} DigitsArePlain(b: Bytes, acc: nat)
    requires Digits(b, acc).Some? && b != []
    ensures Plain(b) && '0' <= b[0] <= '9'
    decreases |b|
  {
    if |b| > 1 {
      DigitsArePlain(b[1..], 10 * acc + (b[0] as int - '0' as int));
    }
  }

  lemma NumberText(b: Bytes, n: nat)
    requires b != [] && Digits(b, 0) == Some(n) && n < WORD
    ensures Plain(b) && Strtoull(b) == Some(n) && b != "noreply"
  {
    DigitsArePlain(b, 0);
    assert b[0] != 'n';
  }

  lemma LargeCount()
    ensures Bad(RequestTokens("set k 0 0 2147483646"))
  {
    LargeCountIsRead();
    hide Strtoull, RequestTokens, Plain, Bad, Digits;
    NumberText("2147483646", 2147483646);
    BadCount("2147483646", 2147483646);
    Spaced5("set", "k", "0", "0", "2147483646");
    hide Spaced;
    assert "set" + " " + ("k" + " " + ("0" + " " + ("0" + " " + "2147483646"))) == "set k 0 0 2147483646";
  }

  // ------------------------------------------------------- a value that grows too long

  ghost function AppendLine(key: Bytes, n: nat): Bytes {
    UpdateLine("append", key, 0, 0, n)
  }

  /** The session after an `append` to a key that is there, as long as the item is not too long. */
  ghost function AfterAppend(s: State, key: Bytes, data: Bytes): State
    requires SoundTable(s.table)
  {
    SoundEnds(s.table, key);
    EndsInCRLF(data);
    s.(requests := s.requests + 1, sent := s.sent + Text(StoredItem),
       table := Stored(s.table, Item(key, 0, RelativeTime(ToInt64(0), s.start), data + CRLF, 0), Append))
  }

  lemma EndsInCRLF(data: Bytes)
    ensures EndsWithCRLF(data + CRLF)
  {
    assert (data + CRLF)[|data + CRLF| - 2..] == CRLF;
  }

  /** The value under `key` has length `n`. */
  ghost predicate Has(t: Table, key: Bytes, n: int) {
    key in t.items && |t.items[key].value| == n
  }

  lemma {:induction false} ReceivesAppend(s: State, data: Bytes, n: int)
    requires StateOk(s) && !s.crashed && s.connected && s.mode.ReceiveValue? && s.policy == Some(Append) && !s.noreply
    requires s.item.value.received == [] && s.item.value.valuelen == |data| + 2 && Has(s.table, s.item.value.key, n)
    ensures EndsWithCRLF(data + CRLF)
    ensures var p := s.item.value;
            var item := Item(p.key, p.flags, p.exptime, data + CRLF, p.cas);
            && (p.key in s.table.items ==> EndsWithCRLF(s.table.items[p.key].value))
            && if |p.key| + n + |data| >= INT_LIMIT then Receive(s, data + CRLF).crashed
               else Receive(s, data + CRLF)
                    == Reset(s).(mode := NewCommand, sent := s.sent + Text(StoredItem),
                                 table := Stored(s.table, item, Append))
  {
    hide Text, SoundTable, Stored;
    var v := data + CRLF;
    assert [] + v == v;
    EndsInCRLF(data);
    SoundEnds(s.table, s.item.value.key);
    hide EndsWithCRLF;
  }

  lemma {:induction false} AppendBegins(s: State, key: Bytes, data: Bytes, rest: Bytes, n: int)
    requires Ready(s) && SetArguments(key, 0, 0, |data|) && Has(s.table, key, n)
    ensures if |key| + n + |data| >= INT_LIMIT
            then Loop(World(s, AppendLine(key, |data|) + CRLF + (data + CRLF + rest))).s.crashed
            else Ready(AfterAppend(s, key, data))
                 && Loop(World(s, AppendLine(key, |data|) + CRLF + (data + CRLF + rest)))
                    == Loop(World(AfterAppend(s, key, data), rest))
  {
    var line := AppendLine(key, |data|);
    PlainCommands();
    UpdateLineIs("append", key, 0, 0, |data|);
    UpdateRequest(s, Append, "append", key, 0, 0, |data|);
    var s1 := Request(s, line);
    hide AppendLine, UpdateLine, PolicyOf, Plain, Request, Receive, RelativeTime, ToInt64, Text, SetArguments,
         SoundTable,
         RequestTokens, EndsWithNoreply, Loop, NoCR, Stored, EndsWithCRLF;
    LineTurn(s, line, data + CRLF + rest);
    ReceivesAppend(s1, data, n);
    ValueTurn(s1, data + CRLF, rest);
  }

  /** An append makes the value longer by the data. */
  lemma {:induction false} AppendGrows(s: State, key: Bytes, data: Bytes, n: int)
    requires SoundTable(s.table) && Has(s.table, key, n)
    ensures Has(AfterAppend(s, key, data).table, key, n + |data|)
  {
    SoundEnds(s.table, key);
    EndsInCRLF(data);
    var item := Item(key, 0, RelativeTime(ToInt64(0), s.start), data + CRLF, 0);
    StoredIs(s.table, item, Append);
    hide SoundTable, RelativeTime, ToInt64;
  }

  ghost function Appends(key: Bytes, data: Bytes, times: nat): Bytes {
    if times == 0 then []
    else AppendLine(key, |data|) + CRLF + (data + CRLF + Appends(key, data, times - 1))
  }

  lemma {:induction false} AppendsCrash(s: State, key: Bytes, data: Bytes, times: nat, n: int)
    requires Ready(s) && SetArguments(key, 0, 0, |data|) && Has(s.table, key, n)
    requires |key| + n < INT_LIMIT <= |key| + n + times * |data|
    ensures Loop(World(s, Appends(key, data, times))).s.crashed
    decreases times
  {
    hide AppendLine, StateOk, SetArguments, Has, AfterAppend, Loop;
    assert SoundTable(s.table) by {
      SoundOf(s);
    }
    hide SoundTable;
    var rest := Appends(key, data, times - 1);
    AppendBegins(s, key, data, rest, n);
    if |key| + n + |data| < INT_LIMIT {
      AppendGrows(s, key, data, n);
      assert times * |data| == |data| + (times - 1) * |data|;
      AppendsCrash(AfterAppend(s, key, data), key, data, times - 1, n + |data|);
    }
  }

  /**
    From a session just opened: a `set` and enough appends of the same data bring the server down, although
    no request line of theirs is fatal.  1 MiB of data and 2047 appends are enough.
  */
  lemma {:induction false} GrowingValueCrashes(start: int, key: Bytes, data: Bytes, times: nat)
    requires SetArguments(key, 0, 0, |data|) && |key| + |data| + 2 + times * |data| >= INT_LIMIT
    ensures !Fatal(SetLine(key, 0, 0, |data|)) && !Fatal(AppendLine(key, |data|)) && StateOk(Opened(start))
    ensures Fed(World(Opened(start), []),
                SetLine(key, 0, 0, |data|) + CRLF + (data + CRLF + Appends(key, data, times))).s.crashed
  {
    var s := Opened(start);
    OpenedIsReady(start);
    NotFatal(s, key, |data|);
    var stream := SetLine(key, 0, 0, |data|) + CRLF + (data + CRLF + Appends(key, data, times));
    assert [] + stream == stream;
    var s2 := AfterSet(s, key, 0, 0, data);
    assert Has(s2.table, key, |data| + 2);
    assert |key| + |data| + 2 < INT_LIMIT;
    hide SetLine, AppendLine, AfterSet, StateOk, SetArguments, Has, Loop, Fatal;
    SetTurns(s, key, 0, 0, data, Appends(key, data, times));
    AppendsCrash(s2, key, data, times, |data| + 2);
  }

  lemma {:induction false} NotFatal(s: State, key: Bytes, n: nat)
    requires Ready(s) && SetArguments(key, 0, 0, n)
    ensures !Fatal(SetLine(key, 0, 0, n)) && !Fatal(AppendLine(key, n))
  {
    PlainCommands();
    hide PolicyOf, Plain, SetArguments, Request, Fatal, UpdateLine;
    UpdateRequest(s, Set, "set", key, 0, 0, n);
    CrashIffFatal(s, SetLine(key, 0, 0, n));
    UpdateRequest(s, Append, "append", key, 0, 0, n);
    CrashIffFatal(s, AppendLine(key, n));
  }

  /** A line of 1025 bytes that arrives before its CRLF is not answered; arriving with it, it is. */
  lemma {:induction false} CutOffMatters(s: State, line: Bytes)
    requires Ready(s) && line == seq(1025, _ => 'x')
    ensures Messages(World(s, []), [line, CRLF]).s.sent == s.sent
    ensures Messages(World(s, []), [line + CRLF]).s.sent == s.sent + Text(Error)
  {
    assert Plain(line);
    LineIs([line]);
    assert Spaced([line]) == line;
    hide Plain, Spaced, StateOk, Messages, Text, NoCR, RequestTokens, EndsWithNoreply;
    Answered(s, line);
    NotAnswered(s, line);
  }

  lemma {:induction false} Answered(s: State, line: Bytes)
    requires Ready(s) && LONGEST_LINE < |line| < INT_LIMIT && NoCR(line) && RequestTokens(line) == [line]
    requires !EndsWithNoreply(line)
    ensures Messages(World(s, []), [line + CRLF]).s.sent == s.sent + Text(Error)
  {
    UnknownLine(s, line);
    OnePiece(World(s, []), line + CRLF);
    hide Request, Text, FindCRLF, RequestTokens, EndsWithNoreply, NoCR, SoundTable, Loop;
    assert [] + (line + CRLF) == line + CRLF + [];
    LineTurn(s, line, []);
    LoopOfNothing(Request(s, line));
  }

  lemma CutAfterLine(s: State, line: Bytes)
    requires Ready(s) && |line| > LONGEST_LINE && NoCR(line)
    ensures Message(World(s, []), line) == World(s.(connected := false), line)
  {
    assert line == (line + CRLF)[..|line|] && [] + line == line;
    PartOfLine(s, line, line);
    hide StateOk, FindCRLF, NoCR, Loop;
  }

  lemma {:induction false} NotAnswered(s: State, line: Bytes)
    requires Ready(s) && LONGEST_LINE < |line| < INT_LIMIT && NoCR(line) && RequestTokens(line) == [line]
    requires !EndsWithNoreply(line)
    ensures Messages(World(s, []), [line, CRLF]).s.sent == s.sent
  {
    var w, s1 := World(s, []), s.(connected := false);
    hide Request, Text, FindCRLF, RequestTokens, EndsWithNoreply, NoCR, SoundTable, Loop;
    OnePiece(w, line);
    assert [line, CRLF][..1] == [line] && [line, CRLF][1] == CRLF;
    CutAfterLine(s, line);
    assert line + CRLF == line + CRLF + [];
    UnknownLine(s1, line);
    LineTurn(s1, line, []);
    LoopOfNothing(Request(s1, line));
    assert Messages(w, [line, CRLF]) == Message(World(s1, line), CRLF);
  }

  lemma OnePiece(w: World, data: Bytes)
    requires StateOk(w.s)
    ensures Messages(w, [data]) == Message(w, data)
  {
    hide StateOk, Message;
    assert [data][..0] == [];
  }

  lemma UnknownLine(s: State, line: Bytes)
    requires StateOk(s) && !s.crashed && s.mode.NewCommand? && RequestTokens(line) == [line] && !EndsWithNoreply(line)
    requires 100 < |line| < INT_LIMIT
    ensures Request(s, line)
            == Reset(Reply(s.(requests := s.requests + 1, noreply := false, command := line), Text(Error)))
  {
    hide RequestTokens, EndsWithNoreply, SoundTable, Text;
    assert PolicyOf(line).None?;
  }
}
