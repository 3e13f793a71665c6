/**
  What the request lines of a session do that one line alone does not show: which lines bring the server
  down, and which leave output behind that the next `get` sends.
*/
module MemcacheRequests {

  import opened MemcacheStore
  import opened MemcacheSession

  // ------------------------------------------------------------ lines that crash

  /**
    An update without a key; or one whose line is accepted, with a byte count that is negative or at
    least 2^31 - 2 as a 32-bit number.
  */
  predicate BadUpdate(p: Policy, args: seq<Bytes>) {
    args == [] || (GoodUpdate(args, p) && NumberAt(args, 3).value % HALF >= HALF / 2 - 2)
  }

  predicate Bad(tokens: seq<Bytes>) {
    && tokens != []
    && if PolicyOf(tokens[0]).Some? then BadUpdate(PolicyOf(tokens[0]).value, tokens[1..])
       else tokens == ["delete"]
  }

  lemma BadIsBroken(p: Policy, args: seq<Bytes>, start: int)
    ensures ReadUpdate(p, args, start).Broken? <==> BadUpdate(p, args)
  {
    hide GoodUpdate, Strtoull, RelativeTime;
    if args != [] && GoodUpdate(args, p) {
      GoodHasNumbers(args, p);
      CountIsBad(NumberAt(args, 3).value);
    }
    hide ToInt32, ToInt64, NumberAt;
  }

  lemma GoodHasNumbers(args: seq<Bytes>, p: Policy)
    requires GoodUpdate(args, p)
    ensures NumberAt(args, 1).Some? && NumberAt(args, 2).Some? && NumberAt(args, 3).Some?
    ensures (p == Cas ==> NumberAt(args, 4).Some?)
  {
  }

  lemma CountIsBad(n: nat)
    ensures n % HALF >= HALF / 2 - 2 <==> ToInt32(n) < 0 || ToInt32(n) + 2 >= HALF / 2
  {
  }

  /** A line whose length does not fit an `int`, or with bad tokens. */
  predicate Fatal(line: Bytes) {
    |line| >= INT_LIMIT || Bad(RequestTokens(line))
  }

  /** A request line brings the server down if and only if it is fatal. */
  lemma {:induction false} CrashIffFatal(s: State, line: Bytes)
    requires SoundTable(s.table) && !s.crashed
    ensures Request(s, line).crashed <==> Fatal(line)
  {
    var tokens := RequestTokens(line);
    hide RequestTokens, SoundTable, EndsWithNoreply, Text, Dispatch, Bad;
    if tokens == [] {
      NoTokens();
    } else {
      DispatchCrashes(s.(requests := s.requests + 1, noreply := EndsWithNoreply(line), command := tokens[0]), tokens);
    }
  }

  lemma NoTokens()
    ensures !Bad([])
  {
  }

  lemma {:induction false} DispatchCrashes(s: State, tokens: seq<Bytes>)
    requires SoundTable(s.table) && !s.crashed && tokens != []
    ensures Dispatch(s, tokens[0], tokens[1..]).crashed <==> Bad(tokens)
  {
    hide SoundTable, Text, Deleted, Get;
    var p := PolicyOf(tokens[0]);
    assert tokens == ["delete"] <==> tokens[0] == "delete" && tokens[1..] == [];
    GetOk(s, tokens[1..], tokens[0] == "gets");
    if p.Some? {
      BadIsBroken(p.value, tokens[1..], s.start);
      hide ReadUpdate, BadUpdate, PolicyOf;
    }
  }

  // --------------------------------------------------------- what a stream reads

  /** A request line or a whole value that the loop has read, and the table at that moment. */
  datatype Read = LineRead(line: Bytes, table: Table) | ValueRead(item: Item, policy: Policy, table: Table)

  /** What one turn of the loop completes. */
  ghost function TurnReads(w: World): seq<Read>
    requires StateOk(w.s) && Busy(w)
  {
    match w.s.mode
    case NewCommand =>
      FindCRLFIs(w.buf);
      [LineRead(w.buf[..FindCRLF(w.buf)], w.s.table)]
    case ReceiveValue =>
      if |w.buf| < Needed(w.s) then []
      else
        var p := w.s.item.value;
        [ValueRead(Completed(p.(received := p.received + w.buf[..Needed(w.s)])), w.s.policy.value, w.s.table)]
    case DiscardValue => []
  }

  /** The complete request lines and values that the loop reads. */
  ghost function Reads(w: World): seq<Read>
    requires StateOk(w.s)
    decreases |w.buf|
  {
    if Busy(w) then
      TurnOk(w);
      TurnReads(w) + Reads(Turn(w))
    else []
  }

  /** Whether reading this brings the server down. */
  predicate FatalRead(r: Read) {
    match r
    case LineRead(line, _) => Fatal(line)
    case ValueRead(item, p, table) => Overflows(table, item, p)
  }

  ghost predicate SomeFatal(rs: seq<Read>) {
    exists i :: 0 <= i < |rs| && FatalRead(rs[i])
  }

  lemma SomeFatalJoin(a: seq<Read>, b: seq<Read>)
    ensures SomeFatal(a + b) <==> SomeFatal(a) || SomeFatal(b)
  {
    hide FatalRead;
    var all := a + b;
    if i :| 0 <= i < |a| && FatalRead(a[i]) {
      assert all[i] == a[i];
    }
    if i :| 0 <= i < |b| && FatalRead(b[i]) {
      assert all[|a| + i] == b[i];
    }
    if i :| 0 <= i < |all| && FatalRead(all[i]) {
      assert i < |a| ==> a[i] == all[i];
      assert i >= |a| ==> b[i - |a|] == all[i];
    }
  }

  lemma OneFatal(r: Read)
    ensures SomeFatal([r]) <==> FatalRead(r)
  {
    assert [r][0] == r;
  }

  /** A turn brings the server down if and only if what it completes is fatal. */
  lemma {:induction false} TurnCrashes(w: World)
    requires StateOk(w.s) && Busy(w)
    ensures Turn(w).s.crashed <==> SomeFatal(TurnReads(w))
  {
    match w.s.mode {
      case NewCommand => LineCrashes(w);
      case ReceiveValue => ValueCrashes(w);
      case DiscardValue => hide SoundTable, FindCRLF;
    }
  }

  lemma {:induction false} LineCrashes(w: World)
    requires StateOk(w.s) && Busy(w) && w.s.mode.NewCommand?
    ensures Turn(w).s.crashed <==> SomeFatal(TurnReads(w))
  {
    FindCRLFIs(w.buf);
    var line := w.buf[..FindCRLF(w.buf)];
    hide Request, FindCRLF, SoundTable, Fatal, SomeFatal;
    CrashIffFatal(w.s, line);
    OneFatal(LineRead(line, w.s.table));
  }

  lemma {:induction false} ValueCrashes(w: World)
    requires StateOk(w.s) && Busy(w) && w.s.mode.ReceiveValue?
    ensures Turn(w).s.crashed <==> SomeFatal(TurnReads(w))
  {
    var n := Needed(w.s);
    ShortLives(w);
    if |w.buf| >= n {
      ReceiveTurn(w, n);
      FilledCrashes(w.s, w.buf[..n]);
      var p := w.s.item.value;
      hide Receive, SoundTable, FindCRLF, Overflows, SomeFatal;
      OneFatal(ValueRead(Completed(p.(received := p.received + w.buf[..n])), w.s.policy.value, w.s.table));
    }
  }

  lemma FilledCrashes(s: State, data: Bytes)
    requires StateOk(s) && !s.crashed && s.mode.ReceiveValue? && |data| == Needed(s)
    ensures Receive(s, data).crashed
       <==> Overflows(s.table, Completed(s.item.value.(received := s.item.value.received + data)), s.policy.value)
  {
    hide SoundTable, Stored, Answer, EndsWithCRLF, Overflows, Text;
  }

  lemma {:induction false} LoopCrashes(w: World)
    requires StateOk(w.s) && !w.s.crashed
    ensures Loop(w).s.crashed <==> SomeFatal(Reads(w))
    decreases |w.buf|
  {
    hide StateOk, Turn, FatalRead, TurnReads;
    if Busy(w) {
      TurnOk(w);
      TurnCrashes(w);
      SomeFatalJoin(TurnReads(w), Reads(Turn(w)));
      if !Turn(w).s.crashed {
        LoopCrashes(Turn(w));
      }
    }
  }

  lemma SoundOf(s: State)
    requires StateOk(s)
    ensures SoundTable(s.table)
  {
  }

  /**
    A message brings the server down if and only if a fatal request line is read in it, or a value is
    completed whose append or prepend makes the item too long.
  */
  lemma {:induction false} MessageCrashesIffFatal(w: World, data: Bytes)
    requires StateOk(w.s) && !w.s.crashed
    ensures Message(w, data).s.crashed <==> SomeFatal(Reads(World(w.s, w.buf + data)))
  {
    LoopCrashes(World(w.s, w.buf + data));
    hide Loop, SomeFatal, Reads;
  }

  // ------------------------------------------------------ output that is left behind

  /** The position of the first key that is too long, or the number of keys. */
  function FirstLong(keys: seq<Bytes>): (n: nat)
    ensures n <= |keys|
  {
    if keys == [] || |keys[0]| > LONGEST_KEY then 0 else 1 + FirstLong(keys[1..])
  }

  datatype Left = Clears | Leaves | Keeps

  /**
    What a request line does to the output buffer.  A `get` that is answered clears it.  One that is
    refused for a key that is too long leaves there what the keys before that one have found.
  */
  function LeftBy(tokens: seq<Bytes>, table: Table): Left {
    if tokens == [] || !(tokens[0] == "get" || tokens[0] == "gets") then Keeps
    else
      var keys := tokens[1..];
      if FirstLong(keys) == |keys| then Clears
      else if exists i :: 0 <= i < FirstLong(keys) && keys[i] in table.items then Leaves
      else Keeps
  }

  lemma {:induction false} GetLeaves(s: State, keys: seq<Bytes>, cas: bool)
    requires SoundTable(s.table) && s.connected
    ensures FirstLong(keys) == |keys| ==> Get(s, keys, cas).out == []
    ensures FirstLong(keys) < |keys| ==>
              (Get(s, keys, cas).out == [] <==>
               s.out == [] && forall i :: 0 <= i < FirstLong(keys) ==> keys[i] !in s.table.items)
    decreases |keys|
  {
    hide SoundTable, Text;
    if keys != [] && |keys[0]| <= LONGEST_KEY {
      var o := OutputFor(s.table, keys[0], cas);
      OutputIsSomething(s.table, keys[0], cas);
      hide OutputFor;
      var s1 := s.(out := s.out + o);
      GetLeaves(s1, keys[1..], cas);
      assert s1.out == [] <==> s.out == [] && o == [];
      var n := FirstLong(keys[1..]);
      assert (forall i :: 0 <= i < n + 1 ==> keys[i] !in s.table.items)
        <==> keys[0] !in s.table.items && (forall i :: 0 <= i < n ==> keys[1..][i] !in s.table.items) by {
        if keys[0] !in s.table.items && (forall i :: 0 <= i < n ==> keys[1..][i] !in s.table.items) {
          forall i | 0 <= i < n + 1
            ensures keys[i] !in s.table.items
          {
            assert i > 0 ==> keys[1..][i - 1] == keys[i];
          }
        }
      }
    }
  }

  lemma OutputIsSomething(t: Table, key: Bytes, cas: bool)
    requires SoundTable(t)
    ensures OutputFor(t, key, cas) == [] <==> key !in t.items
  {
    hide Decimal;
    if key in t.items {
      assert OutputFor(t, key, cas)[0] == 'V';
    }
  }

  /** Which request lines leave the output buffer empty, as long as the connection is open. */
  lemma {:induction false} RequestLeaves(s: State, line: Bytes)
    requires SoundTable(s.table) && !Request(s, line).crashed && Request(s, line).connected
    ensures s.connected
    ensures Request(s, line).out == [] <==>
              match LeftBy(RequestTokens(line), s.table)
              case Clears => true
              case Leaves => false
              case Keeps => s.out == []
  {
    var tokens := RequestTokens(line);
    hide RequestTokens, SoundTable, EndsWithNoreply, Text, Dispatch, LeftBy;
    if tokens == [] {
      assert LeftBy(tokens, s.table).Keeps? by {
        NotGet(tokens, s.table);
      }
    } else {
      var s1 := s.(requests := s.requests + 1, noreply := EndsWithNoreply(line), command := tokens[0]);
      if tokens[0] == "get" || tokens[0] == "gets" {
        GetCommandLeaves(s1, tokens);
      } else {
        NotGet(tokens, s.table);
        OtherCommandLeaves(s1, tokens[0], tokens[1..]);
      }
    }
  }

  lemma NotGet(tokens: seq<Bytes>, t: Table)
    requires tokens == [] || !(tokens[0] == "get" || tokens[0] == "gets")
    ensures LeftBy(tokens, t).Keeps?
  {
  }

  lemma OtherCommandLeaves(s: State, command: Bytes, args: seq<Bytes>)
    requires SoundTable(s.table) && command != "get" && command != "gets"
    ensures Dispatch(s, command, args).out == s.out && (Dispatch(s, command, args).connected ==> s.connected)
  {
    hide SoundTable, Text, Deleted, Get, Update, DeleteKey, PolicyOf;
    DeleteLeaves(s, args);
    if PolicyOf(command).Some? {
      UpdateLeaves(s, PolicyOf(command).value, args);
    }
  }

  lemma UpdateLeaves(s: State, p: Policy, args: seq<Bytes>)
    ensures Update(s, p, args).out == s.out && Update(s, p, args).connected == s.connected
  {
    hide Text, Deleted, ReadUpdate;
  }

  lemma DeleteLeaves(s: State, args: seq<Bytes>)
    ensures DeleteKey(s, args).out == s.out && DeleteKey(s, args).connected == s.connected
  {
    hide Text, Deleted;
  }

  lemma GetCommandLeaves(s: State, tokens: seq<Bytes>)
    requires SoundTable(s.table) && tokens != [] && (tokens[0] == "get" || tokens[0] == "gets")
    ensures var r := Dispatch(s, tokens[0], tokens[1..]);
            && r.connected == s.connected
            && (r.connected ==>
                (r.out == [] <==>
                 match LeftBy(tokens, s.table)
                 case Clears => true
                 case Leaves => false
                 case Keeps => s.out == []))
  {
    var keys, cas := tokens[1..], tokens[0] == "gets";
    assert PolicyOf(tokens[0]).None?;
    assert Dispatch(s, tokens[0], keys) == Reset(Get(s, keys, cas)) by {
      hide Get, SoundTable, PolicyOf;
    }
    hide SoundTable, Text, Get, PolicyOf, FirstLong, Dispatch;
    GetOk(s, keys, cas);
    if s.connected {
      GetLeaves(s, keys, cas);
    }
  }

  function LeftOf(r: Read): Left {
    if r.LineRead? then LeftBy(RequestTokens(r.line), r.table) else Keeps
  }

  /** Nothing is left behind by the lines read, if `before` says whether that was so before them. */
  ghost predicate Clean(rs: seq<Read>, before: bool) {
    if rs == [] then before
    else
      match LeftOf(rs[0])
      case Clears => Clean(rs[1..], true)
      case Leaves => Clean(rs[1..], false)
      case Keeps => Clean(rs[1..], before)
  }

  ghost predicate LeavesAt(rs: seq<Read>, i: int)
    requires 0 <= i < |rs|
  {
    LeftOf(rs[i]).Leaves?
  }

  ghost predicate ClearsAt(rs: seq<Read>, i: int)
    requires 0 <= i < |rs|
  {
    LeftOf(rs[i]).Clears?
  }

  /** Some `get` is answered. */
  ghost predicate SomeClears(rs: seq<Read>) {
    exists j :: 0 <= j < |rs| && ClearsAt(rs, j)
  }

  /** Every refused `get` that leaves output is followed by an answered one. */
  ghost predicate AllCleared(rs: seq<Read>) {
    forall i :: 0 <= i < |rs| && LeavesAt(rs, i) ==> exists j :: i < j < |rs| && ClearsAt(rs, j)
  }

  /** The same without recursion. */
  lemma {:induction false} CleanIff(rs: seq<Read>, before: bool)
    ensures Clean(rs, before) <==> AllCleared(rs) && (before || SomeClears(rs))
  {
    if rs != [] {
      var left := LeftOf(rs[0]);
      CleanIff(rs[1..], if left.Clears? then true else if left.Leaves? then false else before);
      FirstClears(rs);
      FirstLeaves(rs);
      hide LeftOf, AllCleared, SomeClears;
    }
  }

  lemma FirstClears(rs: seq<Read>)
    requires rs != []
    ensures SomeClears(rs) <==> ClearsAt(rs, 0) || SomeClears(rs[1..])
  {
    hide LeftOf;
    if j :| 0 <= j < |rs| - 1 && ClearsAt(rs[1..], j) {
      assert ClearsAt(rs, j + 1);
    }
    if j :| 0 < j < |rs| && ClearsAt(rs, j) {
      assert ClearsAt(rs[1..], j - 1);
    }
  }

  lemma {:induction false} FirstLeaves(rs: seq<Read>)
    requires rs != []
    ensures AllCleared(rs) <==> AllCleared(rs[1..]) && (LeavesAt(rs, 0) ==> SomeClears(rs[1..]))
  {
    hide LeftOf;
    var rest := rs[1..];
    assert forall j :: 0 <= j < |rest| ==> rest[j] == rs[j + 1];
    if AllCleared(rs) {
      forall i | 0 <= i < |rest| && LeavesAt(rest, i)
        ensures exists j :: i < j < |rest| && ClearsAt(rest, j)
      {
        assert LeavesAt(rs, i + 1);
        var j :| i + 1 < j < |rs| && ClearsAt(rs, j);
        assert ClearsAt(rest, j - 1);
      }
      if LeavesAt(rs, 0) {
        var j :| 0 < j < |rs| && ClearsAt(rs, j);
        assert ClearsAt(rest, j - 1);
      }
    }
    if AllCleared(rest) && (LeavesAt(rs, 0) ==> SomeClears(rest)) {
      forall i | 0 <= i < |rs| && LeavesAt(rs, i)
        ensures exists j :: i < j < |rs| && ClearsAt(rs, j)
      {
        if i > 0 {
          assert LeavesAt(rest, i - 1);
          var j :| i - 1 < j < |rest| && ClearsAt(rest, j);
          assert ClearsAt(rs, j + 1);
        } else {
          var j :| 0 <= j < |rest| && ClearsAt(rest, j);
          assert ClearsAt(rs, j + 1);
        }
      }
    }
  }

  /** What one turn does to the output buffer. */
  lemma {:induction false} TurnLeaves(w: World)
    requires StateOk(w.s) && Busy(w) && !Turn(w).s.crashed && Turn(w).s.connected
    ensures w.s.connected && (Turn(w).s.out == [] <==> Clean(TurnReads(w), w.s.out == []))
  {
    if w.s.mode.NewCommand? {
      FindCRLFIs(w.buf);
      var line := w.buf[..FindCRLF(w.buf)];
      hide Request, FindCRLF, SoundTable, LeftBy, RequestTokens;
      RequestLeaves(w.s, line);
      assert [LineRead(line, w.s.table)][1..] == [];
    } else {
      OtherTurnLeaves(w);
    }
  }

  lemma {:induction false} OtherTurnLeaves(w: World)
    requires StateOk(w.s) && Busy(w) && !w.s.mode.NewCommand? && !Turn(w).s.crashed
    ensures Turn(w).s.out == w.s.out && Turn(w).s.connected == w.s.connected
    ensures Clean(TurnReads(w), w.s.out == []) <==> w.s.out == []
  {
    hide SoundTable, FindCRLF, Finish;
    if w.s.mode.ReceiveValue? {
      var avail := if |w.buf| < Needed(w.s) then |w.buf| else Needed(w.s);
      ReceiveLeaves(w.s, w.buf[..avail]);
      if |w.buf| >= Needed(w.s) {
        assert TurnReads(w)[1..] == [];
      }
    }
  }

  lemma ReceiveLeaves(s: State, data: Bytes)
    requires SoundTable(s.table) && s.item.Some? && s.policy.Some?
    ensures Receive(s, data).out == s.out && Receive(s, data).connected == s.connected
  {
    hide SoundTable, Stored, Answer, EndsWithCRLF, Overflows, Text;
  }

  lemma {:induction false} CleanJoin(a: seq<Read>, b: seq<Read>, before: bool)
    ensures Clean(a + b, before) == Clean(b, Clean(a, before))
  {
    hide LeftOf;
    if a == [] {
      assert a + b == b;
    } else {
      assert (a + b)[1..] == a[1..] + b;
      match LeftOf(a[0]) {
        case Clears => CleanJoin(a[1..], b, true);
        case Leaves => CleanJoin(a[1..], b, false);
        case Keeps => CleanJoin(a[1..], b, before);
      }
    }
  }

  lemma {:induction false} LoopLeaves(w: World)
    requires StateOk(w.s) && !w.s.crashed && !Loop(w).s.crashed && Loop(w).s.connected
    ensures w.s.connected
    ensures Loop(w).s.out == [] <==> Clean(Reads(w), w.s.out == [])
    decreases |w.buf|
  {
    hide StateOk, Turn, Clean, TurnReads;
    if Busy(w) {
      TurnOk(w);
      assert !Turn(w).s.crashed;
      LoopLeaves(Turn(w));
      TurnLeaves(w);
      CleanJoin(TurnReads(w), Reads(Turn(w)), w.s.out == []);
    } else {
      NothingRead(w.s.out == []);
    }
  }

  lemma NothingRead(before: bool)
    ensures Clean([], before) == before
  {
  }

  /**
    While the connection is open, output is left behind after a message if and only if, among the lines
    read, a `get` was refused for a key that is too long after a key that was found, and no `get` was
    answered since.
  */
  lemma {:induction false} MessageLeavesOutput(w: World, data: Bytes)
    requires StateOk(w.s) && !w.s.crashed && !Message(w, data).s.crashed && Message(w, data).s.connected
    ensures var rs := Reads(World(w.s, w.buf + data));
            Message(w, data).s.out == [] <==> AllCleared(rs) && (w.s.out == [] || SomeClears(rs))
  {
    hide Loop, Clean, AllCleared, SomeClears, Reads;
    LoopLeaves(World(w.s, w.buf + data));
    CleanIff(Reads(World(w.s, w.buf + data)), w.s.out == []);
  }
}
