/**
  `AsyncLogging`: any number of threads append log lines to a current buffer; a logging thread
  swaps out the filled buffers under the lock, writes them and recycles two of them.

  A critical section is one step, so a run is a sequence of `append` calls interleaved in any way
  with the steps of the logging thread.  A buffer holds the lines appended to it, in order.
*/
module AsyncLogging {

  type Line = seq<char>

  const LARGE_BUFFER := 4000 * 1000
  const TOO_MANY := 25

  /** A `FixedBuffer<kLargeBuffer>`; `id` is its address. */
  datatype Buffer = Buffer(id: int, lines: seq<Line>)

  function Length(lines: seq<Line>): nat {
    if lines == [] then 0 else Length(lines[..|lines| - 1]) + |lines[|lines| - 1]|
  }

  function Avail(b: Buffer): int {
    LARGE_BUFFER - Length(b.lines)
  }

  /** `FixedBuffer::append`: a line that does not fit is silently ignored. */
  function Put(b: Buffer, line: Line): Buffer {
    if Avail(b) > |line| then b.(lines := b.lines + [line]) else b
  }

  function Reset(b: Buffer): Buffer {
    b.(lines := [])
  }

  datatype Option<T> = None | Some(value: T)

  /** Where the logging thread stands in `threadFunc`. */
  datatype Pc =
    | Top                // at while (running_)
    | Entered            // in the loop, before the critical section or waiting in it
    | Swapped            // buffers swapped out, before the check for too many
    | Writing(i: nat)    // in the loop that writes the buffers
    | Recycling          // about to refill newBuffer1 and newBuffer2
    | Stopped

  /** What became of a line that the logging thread has dealt with. */
  datatype Fate = Written(line: Line) | Lost(line: Line)

  /**
    `current`, `next` and `buffers` are the members guarded by the mutex; `new1`, `new2` and `toWrite`
    belong to the logging thread.  `accepted` records the lines appended so far that are short enough
    for a buffer, `done` what became of them, and `doomed` the lines dropped from the current batch.
  */
  datatype State = State(
    current: Buffer, next: Option<Buffer>, buffers: seq<Buffer>,
    pc: Pc, running: bool, new1: Option<Buffer>, new2: Option<Buffer>, toWrite: seq<Buffer>,
    nextId: int, file: seq<Line>, accepted: seq<Line>, done: seq<Fate>, doomed: seq<Line>)

  ghost predicate Init(s: State) {
    && s.current == Buffer(0, []) && s.next == Some(Buffer(1, [])) && s.buffers == []
    && s.pc == Top && s.running && s.new1 == Some(Buffer(2, [])) && s.new2 == Some(Buffer(3, [])) && s.toWrite == []
    && s.nextId == 4 && s.file == [] && s.accepted == [] && s.done == [] && s.doomed == []
  }

  // ------------------------------------------------------------ the front end

  function Append(s: State, line: Line): State {
    var acc := if |line| < LARGE_BUFFER then s.accepted + [line] else s.accepted;
    if Avail(s.current) > |line| then
      s.(current := Put(s.current, line), accepted := acc)
    else if s.next.Some? then
      s.(buffers := s.buffers + [s.current], current := Put(s.next.value, line), next := None, accepted := acc)
    else
      s.(buffers := s.buffers + [s.current], current := Put(Buffer(s.nextId, []), line), nextId := s.nextId + 1,
         accepted := acc)
  }

  // ------------------------------------------------------ the logging thread

  /** The critical section: take everything, leave an empty current buffer and a next buffer. */
  function Swap(s: State): State
    requires s.new1.Some?
  {
    var t := s.(toWrite := s.buffers + [s.current], buffers := [], current := s.new1.value, new1 := None,
                pc := Swapped);
    if s.next.None? then t.(next := s.new2, new2 := None) else t
  }

  function Excess(s: State): seq<Buffer> {
    if |s.toWrite| > TOO_MANY then s.toWrite[2..] else []
  }

  /** With more than 25 buffers, all but the first two are dropped. */
  function Drop(s: State): State {
    if |s.toWrite| > TOO_MANY then
      s.(toWrite := s.toWrite[..2], doomed := LinesOf(s.toWrite[2..]), pc := Writing(0))
    else s.(pc := Writing(0))
  }

  function Write(s: State): State
    requires s.pc.Writing?
  {
    if s.pc.i < |s.toWrite| then
      var b := s.toWrite[s.pc.i];
      s.(file := s.file + b.lines, done := s.done + AllWritten(b.lines), pc := Writing(s.pc.i + 1))
    else
      s.(pc := Recycling, done := s.done + AllLost(s.doomed), doomed := [])
  }

  /** Keep two of the written buffers at most, and refill the new buffers from their end. */
  function Recycle(s: State): State
    requires CanRecycle(s)
  {
    var w := if |s.toWrite| > 2 then s.toWrite[..2] else s.toWrite;
    var w1 := if s.new1.None? then w[..|w| - 1] else w;
    var n1 := if s.new1.None? then Some(Reset(w[|w| - 1])) else s.new1;
    var n2 := if s.new2.None? then Some(Reset(w1[|w1| - 1])) else s.new2;
    s.(new1 := n1, new2 := n2, toWrite := [], pc := Top)
  }

  /** The `assert(!buffersToWrite.empty())` before each `pop_back`. */
  predicate CanRecycle(s: State) {
    |s.toWrite| >= (if s.new1.None? then 1 else 0) + (if s.new2.None? then 1 else 0)
  }

  function LinesOf(bs: seq<Buffer>): seq<Line> {
    if bs == [] then [] else LinesOf(bs[..|bs| - 1]) + bs[|bs| - 1].lines
  }

  function AllWritten(ls: seq<Line>): seq<Fate> {
    seq(|ls|, i requires 0 <= i < |ls| => Written(ls[i]))
  }

  function AllLost(ls: seq<Line>): seq<Fate> {
    seq(|ls|, i requires 0 <= i < |ls| => Lost(ls[i]))
  }

  ghost predicate LoggerStep(s: State, s': State) {
    || (s.pc.Top? && !s.running && s' == s.(pc := Stopped))
    || (s.pc.Top? && s.running && s' == s.(pc := Entered))
    || (s.pc.Entered? && s.new1.Some? && s' == Swap(s))
    || (s.pc.Swapped? && s' == Drop(s))
    || (s.pc.Writing? && s' == Write(s))
    || (s.pc.Recycling? && CanRecycle(s) && s' == Recycle(s))
  }

  ghost predicate Next(s: State, s': State) {
    (exists line :: s' == Append(s, line)) || LoggerStep(s, s') || s' == s.(running := false)
  }

  ghost predicate Run(tr: seq<State>) {
    |tr| > 0 && Init(tr[0]) && forall i :: 0 <= i < |tr| - 1 ==> Next(tr[i], tr[i + 1])
  }

  // ------------------------------------------------------------ invariant

  function Fates(fs: seq<Fate>): seq<Line> {
    seq(|fs|, i requires 0 <= i < |fs| => fs[i].line)
  }

  function WrittenOf(fs: seq<Fate>): seq<Line> {
    if fs == [] then [] else
      WrittenOf(fs[..|fs| - 1]) + if fs[|fs| - 1].Written? then [fs[|fs| - 1].line] else []
  }

  function Unwritten(s: State): seq<Buffer> {
    match s.pc
    case Swapped => s.toWrite
    case Writing(i) => if i <= |s.toWrite| then s.toWrite[i..] else []
    case _ => []
  }

  ghost function Join(a: seq<Line>, b: seq<Line>, c: seq<Line>, d: seq<Line>, e: seq<Line>): seq<Line> {
    a + b + c + d + e
  }

  /** Every accepted line, in order: dealt with, in the batch, dropped from it, in `buffers_`, in the current buffer. */
  ghost predicate Conserved(s: State) {
    s.accepted == Join(Fates(s.done), LinesOf(Unwritten(s)), s.doomed, LinesOf(s.buffers), s.current.lines)
  }

  ghost predicate Empty(b: Option<Buffer>) {
    b.Some? ==> b.value.lines == []
  }

  /** The shape of the buffers at each point of `threadFunc`, including the source's asserts. */
  ghost predicate Shape(s: State) {
    && Empty(s.next) && Empty(s.new1) && Empty(s.new2)
    && (s.next.None? ==> s.buffers != [])
    && (s.pc.Top? || s.pc.Entered? || s.pc.Stopped? ==> s.new1.Some? && s.new2.Some? && s.toWrite == [])
    && (s.pc.Swapped? || s.pc.Writing? || s.pc.Recycling? ==> s.toWrite != [] && (s.new2.None? ==> |s.toWrite| >= 2))
    && (s.pc.Writing? ==> s.pc.i <= |s.toWrite|)
    && (s.pc.Top? || s.pc.Entered? || s.pc.Swapped? || s.pc.Recycling? || s.pc.Stopped? ==> s.doomed == [])
  }

  // ------------------------------------------------------- lists of lines

  lemma LinesOfSnoc(a: seq<Buffer>, z: Buffer)
    ensures LinesOf(a + [z]) == LinesOf(a) + z.lines
  {
    assert (a + [z])[..|a|] == a;
  }

  lemma {:induction false} LinesOfConcat(a: seq<Buffer>, b: seq<Buffer>)
    ensures LinesOf(a + b) == LinesOf(a) + LinesOf(b)
  {
    if b == [] {
      assert a + b == a;
    } else {
      hide LinesOf;
      var p, z := b[..|b| - 1], b[|b| - 1];
      LinesOfConcat(a, p);
      LinesOfSnoc(p, z);
      LinesOfSnoc(a + p, z);
      assert b == p + [z] && a + b == a + p + [z];
    }
  }

  lemma LinesOfOne(b: Buffer)
    ensures LinesOf([b]) == b.lines
  {
    assert [b][..0] == [];
    assert LinesOf([b]) == LinesOf([]) + b.lines;
  }

  lemma {:induction false} WrittenOfConcat(a: seq<Fate>, b: seq<Fate>)
    ensures WrittenOf(a + b) == WrittenOf(a) + WrittenOf(b)
  {
    if b == [] {
      assert a + b == a;
    } else {
      var p := b[..|b| - 1];
      assert (a + b)[..|a + b| - 1] == a + p;
      WrittenOfConcat(a, p);
    }
  }

  lemma {:induction false} WrittenOfAll(ls: seq<Line>)
    ensures WrittenOf(AllWritten(ls)) == ls
  {
    if ls != [] {
      var p := ls[..|ls| - 1];
      WrittenOfAll(p);
      assert AllWritten(ls)[..|ls| - 1] == AllWritten(p);
    }
  }

  lemma {:induction false} WrittenOfLost(ls: seq<Line>)
    ensures WrittenOf(AllLost(ls)) == []
  {
    if ls != [] {
      var p := ls[..|ls| - 1];
      WrittenOfLost(p);
      assert AllLost(ls)[..|ls| - 1] == AllLost(p);
    }
  }

  lemma FatesConcat(a: seq<Fate>, b: seq<Fate>)
    ensures Fates(a + b) == Fates(a) + Fates(b)
  {
  }

  lemma FatesAll(ls: seq<Line>)
    ensures Fates(AllWritten(ls)) == ls && Fates(AllLost(ls)) == ls
  {
  }

  // ------------------------------------------------------------ every step

  lemma JoinMoves(a: seq<Line>, b: seq<Line>, c: seq<Line>, d: seq<Line>, e: seq<Line>, x: seq<Line>)
    ensures Join(a, b, c, d, e + x) == Join(a, b, c, d, e) + x
    ensures Join(a, b, c, d + e, x) == Join(a, b, c, d, e) + x
    ensures Join(a, d + e, [], [], []) == Join(a, [], [], d, e)
    ensures Join(a, b, c, d, e) == Join(a, b + c, [], d, e)
    ensures Join(a + x, b, c, d, e) == Join(a, x + b, c, d, e)
    ensures Join(a + c, [], [], d, e) == Join(a, [], c, d, e)
  {
  }

  lemma {:induction false} AppendConserves(s: State, line: Line)
    requires Conserved(s) && Shape(s)
    ensures Conserved(Append(s, line))
  {
    hide Shape, Join;
    var s' := Append(s, line);
    var a, b, c, d, e := Fates(s.done), LinesOf(Unwritten(s)), s.doomed, LinesOf(s.buffers), s.current.lines;
    assert Unwritten(s') == Unwritten(s);
    JoinMoves(a, b, c, d, e, s'.current.lines);
    JoinMoves(a, b, c, d, e, [line]);
    if Avail(s.current) <= |line| {
      LinesOfConcat(s.buffers, [s.current]);
      LinesOfOne(s.current);
      EmptyNext(s);
      PutInEmpty(if s.next.Some? then s.next.value else Buffer(s.nextId, []), line);
    }
  }

  lemma EmptyNext(s: State)
    requires Shape(s)
    ensures s.next.Some? ==> s.next.value.lines == []
  {
  }

  lemma PutInEmpty(b: Buffer, line: Line)
    requires b.lines == []
    ensures Put(b, line).lines == if |line| < LARGE_BUFFER then [line] else []
  {
  }

  lemma AppendShape(s: State, line: Line)
    requires Shape(s)
    ensures Shape(Append(s, line))
  {
  }

  lemma {:induction false} SwapConserves(s: State)
    requires Conserved(s) && Shape(s) && s.pc.Entered? && s.new1.Some?
    ensures Conserved(Swap(s))
  {
    hide Join;
    var s' := Swap(s);
    LinesOfConcat(s.buffers, [s.current]);
    LinesOfOne(s.current);
    JoinMoves(Fates(s.done), [], [], LinesOf(s.buffers), s.current.lines, []);
    assert Unwritten(s') == s.buffers + [s.current] && LinesOf(s'.buffers) == [];
  }

  lemma {:induction false} DropConserves(s: State)
    requires Conserved(s) && Shape(s) && s.pc.Swapped?
    ensures Conserved(Drop(s))
  {
    hide Join, LinesOf, Fates;
    var s', w := Drop(s), s.toWrite;
    assert s'.toWrite[0..] == s'.toWrite;
    if |w| > TOO_MANY {
      assert w == w[..2] + w[2..];
      LinesOfConcat(w[..2], w[2..]);
      JoinMoves(Fates(s.done), LinesOf(w[..2]), LinesOf(w[2..]), LinesOf(s.buffers), s.current.lines, []);
    }
  }

  lemma {:induction false} WriteConserves(s: State)
    requires Conserved(s) && Shape(s) && s.pc.Writing?
    ensures Conserved(Write(s))
  {
    assert LinesOf([]) == [];
    assert 0 <= s.pc.i <= |s.toWrite|;
    hide Join, LinesOf, Fates, Shape;
    var s', i, d, e := Write(s), s.pc.i, LinesOf(s.buffers), s.current.lines;
    if i < |s.toWrite| {
      WriteOne(s, s.toWrite[i], s.toWrite[i + 1..]);
      JoinMoves(Fates(s.done), LinesOf(s.toWrite[i + 1..]), s.doomed, d, e, s.toWrite[i].lines);
    } else {
      FatesConcat(s.done, AllLost(s.doomed));
      FatesAll(s.doomed);
      JoinMoves(Fates(s.done), [], s.doomed, d, e, []);
      assert LinesOf(Unwritten(s)) == [] && LinesOf(Unwritten(s')) == [];
    }
  }

  lemma WriteOne(s: State, b: Buffer, rest: seq<Buffer>)
    requires s.pc.Writing? && 0 <= s.pc.i < |s.toWrite| && b == s.toWrite[s.pc.i] && rest == s.toWrite[s.pc.i + 1..]
    ensures LinesOf(s.toWrite[s.pc.i..]) == b.lines + LinesOf(rest)
    ensures Fates(s.done + AllWritten(b.lines)) == Fates(s.done) + b.lines
  {
    assert s.toWrite[s.pc.i..] == [b] + rest;
    LinesOfConcat([b], rest);
    LinesOfOne(b);
    FatesConcat(s.done, AllWritten(b.lines));
    FatesAll(b.lines);
  }

  lemma LoggerShape(s: State, s': State)
    requires Shape(s) && LoggerStep(s, s')
    ensures Shape(s')
  {
  }

  lemma {:induction false} NextConserves(s: State, s': State)
    requires Conserved(s) && Shape(s) && Next(s, s')
    ensures Conserved(s')
  {
    if line :| s' == Append(s, line) {
      AppendConserves(s, line);
    } else if s' == s.(running := false) {
      assert Unwritten(s') == Unwritten(s);
    } else {
      match s.pc {
        case Top => assert Unwritten(s') == Unwritten(s);
        case Entered => SwapConserves(s);
        case Swapped => DropConserves(s);
        case Writing(_) => WriteConserves(s);
        case Recycling => assert Unwritten(s') == Unwritten(s);
      }
    }
  }

  lemma {:induction false} NextShape(s: State, s': State)
    requires Shape(s) && Next(s, s')
    ensures Shape(s')
  {
    if line :| s' == Append(s, line) {
      AppendShape(s, line);
    } else if s' != s.(running := false) {
      LoggerShape(s, s');
    }
  }

  /** What the file holds is what was written, and only lines of a dropped batch are lost. */
  ghost predicate FileOk(s: State) {
    s.file == WrittenOf(s.done)
  }

  lemma {:induction false} NextFile(s: State, s': State)
    requires FileOk(s) && Next(s, s')
    ensures FileOk(s')
  {
    if s.pc.Writing? && s' == Write(s) {
      if s.pc.i < |s.toWrite| {
        var b := s.toWrite[s.pc.i];
        WrittenOfConcat(s.done, AllWritten(b.lines));
        WrittenOfAll(b.lines);
      } else {
        WrittenOfConcat(s.done, AllLost(s.doomed));
        WrittenOfLost(s.doomed);
      }
    } else {
      assert s'.done == s.done && s'.file == s.file;
    }
  }

  lemma {:induction false} RunKeeps(tr: seq<State>, n: nat)
    requires Run(tr) && n < |tr|
    ensures Conserved(tr[n]) && Shape(tr[n]) && FileOk(tr[n])
  {
    if n > 0 {
      RunKeeps(tr, n - 1);
      assert Next(tr[n - 1], tr[n - 1 + 1]);
      NextConserves(tr[n - 1], tr[n]);
      NextShape(tr[n - 1], tr[n]);
      NextFile(tr[n - 1], tr[n]);
    }
  }

  // --------------------------------------------------------------- results

  /** The asserts of `threadFunc` hold whenever they are reached, in every run. */
  lemma {:induction false} AssertsHold(tr: seq<State>, n: nat)
    requires Run(tr) && n < |tr|
    ensures var s := tr[n];
            && (s.pc.Entered? ==>
                 && s.new1.Some? && s.new1.value.lines == [] && s.new2.Some? && s.new2.value.lines == []
                 && s.toWrite == [])
            && (s.pc.Swapped? ==> s.toWrite != [])
            && (s.pc.Recycling? ==> CanRecycle(s))
            && (s.next.None? ==> s.buffers != [])
  {
    RunKeeps(tr, n);
  }

  ghost predicate TooManyAt(s: State) {
    s.pc.Swapped? && |s.toWrite| > TOO_MANY
  }

  ghost predicate NothingLost(s: State) {
    s.doomed == [] && forall i :: 0 <= i < |s.done| ==> s.done[i].Written?
  }

  lemma {:induction false} StepLosesNothing(s: State, s': State)
    requires NothingLost(s) && !TooManyAt(s) && Next(s, s')
    ensures NothingLost(s')
  {
    if s.pc.Writing? && s' == Write(s) && s.pc.i < |s.toWrite| {
      assert AllLost([]) == [];
    }
  }

  lemma {:induction false} RunLosesNothing(tr: seq<State>, n: nat)
    requires Run(tr) && n < |tr| && forall k :: 0 <= k < n ==> !TooManyAt(tr[k])
    ensures NothingLost(tr[n])
  {
    if n > 0 {
      RunLosesNothing(tr, n - 1);
      assert Next(tr[n - 1], tr[n - 1 + 1]);
      StepLosesNothing(tr[n - 1], tr[n]);
    }
  }

  lemma {:induction false} AllWrittenFates(fs: seq<Fate>)
    requires forall i :: 0 <= i < |fs| ==> fs[i].Written?
    ensures WrittenOf(fs) == Fates(fs)
  {
    if fs != [] {
      AllWrittenFates(fs[..|fs| - 1]);
    }
  }

  /**
    As long as no batch exceeds 25 buffers, the file, the rest of the batch, `buffers_` and the
    current buffer hold exactly the accepted lines, whole and in order.
  */
  lemma {:induction false} LogIsComplete(tr: seq<State>, n: nat)
    requires Run(tr) && n < |tr| && forall k :: 0 <= k < n ==> !TooManyAt(tr[k])
    ensures var s := tr[n];
            s.accepted == s.file + LinesOf(Unwritten(s)) + LinesOf(s.buffers) + s.current.lines
  {
    RunKeeps(tr, n);
    RunLosesNothing(tr, n);
    AllWrittenFates(tr[n].done);
  }

  function LostOf(fs: seq<Fate>): seq<Line> {
    if fs == [] then [] else
      LostOf(fs[..|fs| - 1]) + if fs[|fs| - 1].Lost? then [fs[|fs| - 1].line] else []
  }

  /** The lines of the buffers after the first two of every batch of more than 25. */
  ghost function DroppedUpTo(tr: seq<State>, n: nat): seq<Line>
    requires n < |tr|
  {
    if n == 0 then [] else
      DroppedUpTo(tr, n - 1)
      + if tr[n - 1].pc.Swapped? && tr[n].pc.Writing? then LinesOf(Excess(tr[n - 1])) else []
  }

  lemma {:induction false} LostOfConcat(a: seq<Fate>, b: seq<Fate>)
    ensures LostOf(a + b) == LostOf(a) + LostOf(b)
  {
    if b == [] {
      assert a + b == a;
    } else {
      var p := b[..|b| - 1];
      assert (a + b)[..|a + b| - 1] == a + p;
      LostOfConcat(a, p);
    }
  }

  lemma {:induction false} LostOfAll(ls: seq<Line>)
    ensures LostOf(AllLost(ls)) == ls && LostOf(AllWritten(ls)) == []
  {
    if ls != [] {
      var p := ls[..|ls| - 1];
      LostOfAll(p);
      assert AllLost(ls)[..|ls| - 1] == AllLost(p) && AllWritten(ls)[..|ls| - 1] == AllWritten(p);
    }
  }

  lemma {:induction false} StepLoses(s: State, s': State)
    requires Shape(s) && Next(s, s')
    ensures LostOf(s'.done) + s'.doomed
         == LostOf(s.done) + s.doomed + if s.pc.Swapped? && s'.pc.Writing? then LinesOf(Excess(s)) else []
  {
    hide LostOf;
    if s.pc.Writing? && s' == Write(s) {
      WriteLoses(s);
    } else if s.pc.Swapped? && s' == Drop(s) {
      assert LinesOf([]) == [];
    } else {
      assert s'.done == s.done && s'.doomed == s.doomed && !(s.pc.Swapped? && s'.pc.Writing?);
      hide LinesOf, Excess, Next;
    }
  }

  lemma {:induction false} WriteLoses(s: State)
    requires s.pc.Writing?
    ensures LostOf(Write(s).done) + Write(s).doomed == LostOf(s.done) + s.doomed
  {
    if s.pc.i < |s.toWrite| {
      var b := s.toWrite[s.pc.i];
      LostOfConcat(s.done, AllWritten(b.lines));
      LostOfAll(b.lines);
    } else {
      LostOfConcat(s.done, AllLost(s.doomed));
      LostOfAll(s.doomed);
    }
  }

  /** What the logging thread loses of the lines it has taken is exactly what it drops of too large batches. */
  lemma {:induction false} LossIsExact(tr: seq<State>, n: nat)
    requires Run(tr) && n < |tr|
    ensures LostOf(tr[n].done) + tr[n].doomed == DroppedUpTo(tr, n)
    ensures tr[n].accepted == Join(Fates(tr[n].done), LinesOf(Unwritten(tr[n])), tr[n].doomed,
                                   LinesOf(tr[n].buffers), tr[n].current.lines)
    ensures tr[n].file == WrittenOf(tr[n].done)
  {
    RunKeeps(tr, n);
    if n > 0 {
      LossIsExact(tr, n - 1);
      RunKeeps(tr, n - 1);
      assert Next(tr[n - 1], tr[n - 1 + 1]);
      StepLoses(tr[n - 1], tr[n]);
    }
  }

  // ------------------------------------------------------------ the end of a run

  /** The lines accepted since the last swap, or since the start. */
  ghost function SinceSwap(tr: seq<State>, n: nat): seq<Line>
    requires n < |tr|
  {
    if n == 0 || (tr[n - 1].pc.Entered? && tr[n].pc.Swapped?) then []
    else if |tr[n - 1].accepted| < |tr[n].accepted| then SinceSwap(tr, n - 1) + tr[n].accepted[|tr[n - 1].accepted|..]
    else SinceSwap(tr, n - 1)
  }

  /** What a step does to the lines held by the front end. */
  lemma {:induction false} StepHolds(s: State, s': State)
    requires Shape(s) && Next(s, s')
    ensures s.accepted <= s'.accepted
    ensures if s.pc.Entered? && s'.pc.Swapped? then Held(s') == []
            else Held(s') == Held(s) + s'.accepted[|s.accepted|..]
  {
    if line :| s' == Append(s, line) {
      AppendHolds(s, line);
    } else {
      LoggerHolds(s, s');
    }
  }

  lemma AppendHolds(s: State, line: Line)
    requires Shape(s)
    ensures var s' := Append(s, line);
            s'.pc == s.pc && s.accepted <= s'.accepted && Held(s') == Held(s) + s'.accepted[|s.accepted|..]
  {
    LongLinesAreIgnored(s, line);
    var s' := Append(s, line);
    assert s'.accepted[|s.accepted|..] == if |line| < LARGE_BUFFER then [line] else [];
    hide Shape, LinesOf;
  }

  lemma LoggerHolds(s: State, s': State)
    requires Shape(s) && (LoggerStep(s, s') || s' == s.(running := false))
    ensures s'.accepted == s.accepted
    ensures if s.pc.Entered? && s'.pc.Swapped? then Held(s') == [] else Held(s') == Held(s)
  {
    assert LinesOf([]) == [];
    hide LinesOf;
  }

  ghost function Held(s: State): seq<Line> {
    LinesOf(s.buffers) + s.current.lines
  }

  /** The front end holds exactly the lines accepted since the last swap. */
  lemma {:induction false} HeldIsSinceSwap(tr: seq<State>, n: nat)
    requires Run(tr) && n < |tr|
    ensures Held(tr[n]) == SinceSwap(tr, n)
  {
    if n > 0 {
      HeldIsSinceSwap(tr, n - 1);
      RunKeeps(tr, n - 1);
      assert Next(tr[n - 1], tr[n - 1 + 1]);
      hide Next, Shape, Held, Run;
      StepHolds(tr[n - 1], tr[n]);
    } else {
      assert LinesOf([]) == [];
    }
  }

  /** Written and lost lines together are all that were dealt with. */
  lemma {:induction false} FatesAreCounted(fs: seq<Fate>)
    ensures |WrittenOf(fs)| + |LostOf(fs)| == |fs|
    ensures LostOf(fs) == [] ==> WrittenOf(fs) == Fates(fs)
  {
    if fs != [] {
      FatesAreCounted(fs[..|fs| - 1]);
      FatesConcat(fs[..|fs| - 1], [fs[|fs| - 1]]);
      assert fs == fs[..|fs| - 1] + [fs[|fs| - 1]];
    }
  }

  /**
    Once the logging thread has stopped, the accepted lines are those it has dealt with, of which it has lost
    what it dropped, and those accepted since its last swap, which it never writes.  So the file is
    complete if and only if nothing was dropped and nothing was accepted since that swap.
  */
  lemma {:induction false} StoppedLog(tr: seq<State>, n: nat)
    requires Run(tr) && n < |tr| && tr[n].pc.Stopped?
    ensures var s := tr[n];
            && s.accepted == Fates(s.done) + SinceSwap(tr, n)
            && s.file == WrittenOf(s.done) && LostOf(s.done) == DroppedUpTo(tr, n)
            && (s.file == s.accepted <==> DroppedUpTo(tr, n) == [] && SinceSwap(tr, n) == [])
  {
    RunKeeps(tr, n);
    StoppedHolds(tr[n]);
    hide Run, Shape, Conserved, SinceSwap, DroppedUpTo, WrittenOf, LostOf, Held, Fates;
    LossIsExact(tr, n);
    assert LostOf(tr[n].done) + [] == LostOf(tr[n].done);
    HeldIsSinceSwap(tr, n);
    CompleteIff(tr[n].done, SinceSwap(tr, n));
  }

  lemma StoppedHolds(s: State)
    requires Conserved(s) && Shape(s) && s.pc.Stopped?
    ensures s.accepted == Fates(s.done) + Held(s) && s.doomed == []
  {
    assert LinesOf([]) == [];
    hide LinesOf, Fates;
    assert Fates(s.done) + [] + [] == Fates(s.done);
  }

  lemma CompleteIff(done: seq<Fate>, rest: seq<Line>)
    ensures WrittenOf(done) == Fates(done) + rest <==> LostOf(done) == [] && rest == []
  {
    FatesAreCounted(done);
    assert |Fates(done) + rest| == |done| + |rest|;
    hide WrittenOf, LostOf, Fates;
    assert Fates(done) + [] == Fates(done);
  }

  /** A run that loses a line by stopping: nothing is dropped, and nothing is written. */
  lemma {:induction false} StopLosesLine(line: Line) returns (tr: seq<State>)
    requires |line| < LARGE_BUFFER
    ensures Run(tr) && tr[|tr| - 1].pc.Stopped? && (forall k :: 0 <= k < |tr| ==> !TooManyAt(tr[k]))
    ensures tr[|tr| - 1].accepted == [line] && tr[|tr| - 1].file == [] && tr[|tr| - 1].done == []
  {
    var s0 := FirstState();
    var s1 := Append(s0, line);
    var s2 := s1.(running := false);
    var s3 := s2.(pc := Stopped);
    assert Next(s0, s1);
    assert Next(s1, s2);
    assert Next(s2, s3);
    tr := [s0, s1, s2, s3];
  }

  function FirstState(): State {
    State(Buffer(0, []), Some(Buffer(1, [])), [], Top, true, Some(Buffer(2, [])), Some(Buffer(3, [])), [],
          4, [], [], [], [])
  }

  /** The lines held by the front end grow by the appended line if and only if it is shorter than a buffer. */
  lemma {:induction false} LongLinesAreIgnored(s: State, line: Line)
    requires Shape(s)
    ensures var s' := Append(s, line);
            LinesOf(s'.buffers) + s'.current.lines
            == LinesOf(s.buffers) + s.current.lines + if |line| < LARGE_BUFFER then [line] else []
  {
    hide Shape, LinesOf;
    var s' := Append(s, line);
    EmptyNext(s);
    if Avail(s.current) <= |line| {
      LinesOfConcat(s.buffers, [s.current]);
      LinesOfOne(s.current);
      PutInEmpty(if s.next.Some? then s.next.value else Buffer(s.nextId, []), line);
    }
    assert s.current.lines + [] == s.current.lines;
  }

  // ------------------------------------------------------- a run that loses lines

  /** Each line fills more than half a buffer, so no two fit into one. */
  ghost predicate Bulky(lines: seq<Line>) {
    forall i :: 0 <= i < |lines| ==> LARGE_BUFFER <= 2 * |lines[i]| && |lines[i]| < LARGE_BUFFER
  }

  lemma {:induction false} LinesOfSingles(bs: seq<Buffer>, lines: seq<Line>)
    requires |bs| == |lines| && forall i :: 0 <= i < |bs| ==> bs[i].lines == [lines[i]]
    ensures LinesOf(bs) == lines
  {
    if bs != [] {
      LinesOfSingles(bs[..|bs| - 1], lines[..|lines| - 1]);
    }
  }

  lemma RunExtends(tr: seq<State>, s': State)
    requires Run(tr) && Next(tr[|tr| - 1], s')
    ensures Run(tr + [s'])
  {
    hide Next;
    var tr' := tr + [s'];
    forall i | 0 <= i < |tr'| - 1
      ensures Next(tr'[i], tr'[i + 1])
    {
      assert i < |tr| - 1 ==> Next(tr[i], tr[i + 1]);
    }
  }

  /** One bulky line per buffer, and the logging thread at the top of its loop. */
  ghost predicate Piled(s: State, lines: seq<Line>) {
    && |s.buffers| == |lines| - 1 && (forall i :: 0 <= i < |s.buffers| ==> s.buffers[i].lines == [lines[i]])
    && s.current.lines == [lines[|lines| - 1]] && s.accepted == lines
    && s.pc.Top? && s.running && s.new1.Some? && s.toWrite == [] && s.file == [] && s.done == [] && s.doomed == []
  }

  lemma NoRoom(b: Buffer, held: Line, line: Line)
    requires b.lines == [held] && Bulky([held, line])
    ensures Avail(b) <= |line| < LARGE_BUFFER
  {
    assert b.lines[..0] == [];
    assert Length(b.lines) == |held|;
    assert |[held, line][0]| == |held| && |[held, line][1]| == |line|;
  }

  lemma {:induction false} PileMore(s: State, lines: seq<Line>)
    requires Bulky(lines) && |lines| > 1 && Piled(s, lines[..|lines| - 1]) && Empty(s.next)
    ensures Piled(Append(s, lines[|lines| - 1]), lines)
  {
    var n := |lines| - 1;
    var line := lines[n];
    assert Bulky([lines[n - 1], line]);
    hide Avail, Put, Bulky;
    NoRoom(s.current, lines[n - 1], line);
    PutInEmpty(if s.next.Some? then s.next.value else Buffer(s.nextId, []), line);
    assert lines[..n] + [line] == lines;
    var s' := Append(s, line);
    assert s'.buffers == s.buffers + [s.current];
    forall i | 0 <= i < n
      ensures s'.buffers[i].lines == [lines[i]]
    {
      assert i < n - 1 ==> s.buffers[i].lines == [lines[..n][i]];
    }
  }

  lemma FirstLine(s: State, line: Line)
    requires Init(s) && Bulky([line])
    ensures Piled(Append(s, line), [line])
  {
    assert |[line][0]| < LARGE_BUFFER;
  }

  lemma {:induction false} PileUp(lines: seq<Line>) returns (tr: seq<State>)
    requires Bulky(lines) && lines != []
    ensures Run(tr) && Piled(tr[|tr| - 1], lines)
  {
    var n := |lines| - 1;
    if n == 0 {
      tr := [FirstState()];
      FirstLine(FirstState(), lines[0]);
      assert lines == [lines[0]];
    } else {
      assert Bulky(lines[..n]);
      hide Bulky, Piled, Append, Next;
      tr := PileUp(lines[..n]);
      RunKeeps(tr, |tr| - 1);
      PileMore(tr[|tr| - 1], lines);
    }
    hide Run, Next, Piled, Append, Bulky;
    tr := AppendExtends(tr, lines[n]);
  }

  lemma AppendExtends(tr: seq<State>, line: Line) returns (tr': seq<State>)
    requires Run(tr)
    ensures Run(tr') && tr' == tr + [Append(tr[|tr| - 1], line)]
  {
    assert Next(tr[|tr| - 1], Append(tr[|tr| - 1], line));
    hide Run, Next, Append;
    RunExtends(tr, Append(tr[|tr| - 1], line));
    tr' := tr + [Append(tr[|tr| - 1], line)];
  }

  lemma LoggerExtends(tr: seq<State>, s': State) returns (tr': seq<State>)
    requires Run(tr) && LoggerStep(tr[|tr| - 1], s')
    ensures Run(tr') && tr' == tr + [s']
  {
    hide Run, LoggerStep;
    RunExtends(tr, s');
    tr' := tr + [s'];
  }

  /** What the swap takes from a pile, and what is left of it after the drop. */
  lemma {:induction false} PileIsDropped(s: State, lines: seq<Line>)
    requires Piled(s, lines) && |lines| > TOO_MANY
    ensures var s3 := Drop(Swap(s.(pc := Entered)));
            && |s3.toWrite| == 2 && s3.toWrite[0].lines == [lines[0]] && s3.toWrite[1].lines == [lines[1]]
            && s3.doomed == lines[2..] && s3.accepted == lines && s3.file == [] && s3.done == [] && s3.pc == Writing(0)
  {
    var s2 := Swap(s.(pc := Entered));
    forall i | 0 <= i < |lines|
      ensures s2.toWrite[i].lines == [lines[i]]
    {
    }
    LinesOfSingles(s2.toWrite[2..], lines[2..]);
    hide LinesOf;
  }

  lemma {:induction false} RestIsWritten(s: State, lines: seq<Line>)
    requires |lines| >= 2 && |s.toWrite| == 2 && s.toWrite[0].lines == [lines[0]] && s.toWrite[1].lines == [lines[1]]
    requires s.doomed == lines[2..] && s.file == [] && s.done == [] && s.pc == Writing(0)
    ensures var s6 := Write(Write(Write(s)));
            && s6.file == lines[..2] && s6.done == AllWritten(lines[..2]) + AllLost(lines[2..])
            && s6.accepted == s.accepted
  {
    assert Write(Write(s)).done == AllWritten(lines[..2]);
  }

  /**
    Lines are lost: if more than 25 buffers pile up before the swap, all lines after those of the first
    two are gone.
  */
  lemma {:induction false} PileIsLost(lines: seq<Line>) returns (tr: seq<State>)
    requires Bulky(lines) && |lines| > TOO_MANY
    ensures Run(tr)
    ensures var s := tr[|tr| - 1];
            s.accepted == lines && s.file == lines[..2] && s.done == AllWritten(lines[..2]) + AllLost(lines[2..])
  {
    tr := PileUp(lines);
    var s0 := tr[|tr| - 1];
    PileIsDropped(s0, lines);
    hide Run, Bulky, AllWritten, AllLost;
    var s1 := s0.(pc := Entered);
    tr := LoggerExtends(tr, s1);
    var s2 := Swap(s1);
    tr := LoggerExtends(tr, s2);
    var s3 := Drop(s2);
    tr := LoggerExtends(tr, s3);
    hide Piled, Swap, Drop;
    RestIsWritten(s3, lines);
    tr := LoggerExtends(tr, Write(s3));
    tr := LoggerExtends(tr, Write(Write(s3)));
    tr := LoggerExtends(tr, Write(Write(Write(s3))));
  }

  // ------------------------------------------------------------ ownership

  function Ids(bs: seq<Buffer>): multiset<int> {
    if bs == [] then multiset{} else Ids(bs[..|bs| - 1]) + multiset{bs[|bs| - 1].id}
  }

  function Id(b: Option<Buffer>): multiset<int> {
    if b.Some? then multiset{b.value.id} else multiset{}
  }

  /** Buffers reachable by the threads that append, and by the logging thread. */
  function FrontIds(s: State): multiset<int> {
    multiset{s.current.id} + Id(s.next) + Ids(s.buffers)
  }

  function BackIds(s: State): multiset<int> {
    Id(s.new1) + Id(s.new2) + Ids(s.toWrite)
  }

  function AllIds(s: State): multiset<int> {
    FrontIds(s) + BackIds(s)
  }

  /** No buffer is held twice, and addresses not handed out yet are not held at all. */
  ghost predicate Once(m: multiset<int>, nextId: int) {
    forall x :: m[x] <= 1 && (x >= nextId ==> m[x] == 0)
  }

  lemma OnceLess(m: multiset<int>, m': multiset<int>, nextId: int)
    requires Once(m, nextId) && m' <= m
    ensures Once(m', nextId)
  {
  }

  lemma {:induction false} IdsConcat(a: seq<Buffer>, b: seq<Buffer>)
    ensures Ids(a + b) == Ids(a) + Ids(b)
  {
    if b == [] {
      assert a + b == a;
    } else {
      var p := b[..|b| - 1];
      assert (a + b)[..|a + b| - 1] == a + p;
      IdsConcat(a, p);
    }
  }

  lemma IdsOne(b: Buffer)
    ensures Ids([b]) == multiset{b.id}
  {
    assert [b][..0] == [];
  }

  lemma IdsPrefix(a: seq<Buffer>, k: nat)
    requires k <= |a|
    ensures Ids(a[..k]) <= Ids(a)
  {
    assert a == a[..k] + a[k..];
    IdsConcat(a[..k], a[k..]);
  }

  lemma {:induction false} RotatedFront(s: State, s': State)
    requires s'.next.None? && s'.buffers == s.buffers + [s.current]
    ensures s.next.Some? && s'.current.id == s.next.value.id ==> FrontIds(s') == FrontIds(s)
    ensures s.next.None? ==> FrontIds(s') == FrontIds(s) + multiset{s'.current.id}
  {
    IdsConcat(s.buffers, [s.current]);
    IdsOne(s.current);
  }

  lemma {:induction false} AppendIds(s: State, line: Line)
    ensures var s' := Append(s, line);
            if s'.nextId == s.nextId then AllIds(s') == AllIds(s)
            else s'.nextId == s.nextId + 1 && AllIds(s') == AllIds(s) + multiset{s.nextId}
  {
    var s' := Append(s, line);
    hide Avail, Ids, FrontIds, BackIds;
    SameBack(s, s');
    if Avail(s.current) > |line| {
      SameFront(s, s');
    } else {
      RotatedFront(s, s');
    }
  }

  lemma SameBack(s: State, s': State)
    requires s'.new1 == s.new1 && s'.new2 == s.new2 && s'.toWrite == s.toWrite
    ensures BackIds(s') == BackIds(s)
  {
  }

  lemma SameFront(s: State, s': State)
    requires s'.current.id == s.current.id && s'.next == s.next && s'.buffers == s.buffers
    ensures FrontIds(s') == FrontIds(s)
  {
  }

  lemma OnceMore(m: multiset<int>, nextId: int)
    requires Once(m, nextId)
    ensures Once(m + multiset{nextId}, nextId + 1)
  {
  }

  lemma {:induction false} SwapOwned(s: State)
    requires Shape(s) && s.pc.Entered? && s.new1.Some?
    ensures AllIds(Swap(s)) == AllIds(s)
  {
    var s' := Swap(s);
    IdsConcat(s.buffers, [s.current]);
    IdsOne(s.current);
    assert Ids([]) == multiset{};
    assert Id(s.new1) == multiset{s'.current.id} && Id(s'.new1) == multiset{};
    assert Shape(s) ==> s.toWrite == [];
    assert Id(s'.next) + Id(s'.new2) == Id(s.next) + Id(s.new2);
    hide Ids, Shape, Id, Swap;
    Regroup(multiset{s.current.id}, Id(s.next), Ids(s.buffers), Id(s.new1), Id(s.new2), Id(s'.next), Id(s'.new2));
  }

  lemma Regroup(c: multiset<int>, n: multiset<int>, b: multiset<int>, n1: multiset<int>, n2: multiset<int>,
                n': multiset<int>, n2': multiset<int>)
    requires n' + n2' == n + n2
    ensures n1 + n' + multiset{} + (multiset{} + n2' + (b + c)) == c + n + b + (n1 + n2 + multiset{})
  {
    assert n1 + n' + multiset{} + (multiset{} + n2' + (b + c)) == (n' + n2') + (n1 + b + c);
    assert c + n + b + (n1 + n2 + multiset{}) == (n + n2) + (n1 + b + c);
  }

  lemma NoMore(f: multiset<int>, x: multiset<int>, y: multiset<int>, w: multiset<int>, t: multiset<int>,
               x': multiset<int>, y': multiset<int>)
    requires x' + y' <= x + y + w && w <= t
    ensures f + (x' + y' + multiset{}) <= f + (x + y + t)
  {
  }

  ghost function Kept(s: State): seq<Buffer> {
    if |s.toWrite| > 2 then s.toWrite[..2] else s.toWrite
  }

  lemma {:induction false} RecycleOwned(s: State)
    requires CanRecycle(s)
    ensures AllIds(Recycle(s)) <= AllIds(s)
  {
    hide Ids, Id, FrontIds;
    var s' := Recycle(s);
    KeptIds(s);
    NewIds(s);
    SameFront(s, s');
    hide Kept, Recycle, CanRecycle;
    NoMore(FrontIds(s), Id(s.new1), Id(s.new2), Ids(Kept(s)), Ids(s.toWrite), Id(s'.new1), Id(s'.new2));
  }

  lemma KeptIds(s: State)
    requires CanRecycle(s)
    ensures Ids(Kept(s)) <= Ids(s.toWrite) && Ids(Recycle(s).toWrite) == multiset{}
  {
    IdsPrefix(s.toWrite, |Kept(s)|);
    assert s.toWrite[..|Kept(s)|] == Kept(s);
  }

  lemma NewIds(s: State)
    requires CanRecycle(s)
    ensures var s' := Recycle(s); Id(s'.new1) + Id(s'.new2) <= Id(s.new1) + Id(s.new2) + Ids(Kept(s))
  {
    hide Ids, Id;
    RecycledIds(s.new1, s.new2, Kept(s), Recycle(s).new1, Recycle(s).new2);
  }

  lemma {:induction false} RecycledIds(a: Option<Buffer>, b: Option<Buffer>, w: seq<Buffer>, a': Option<Buffer>,
                                       b': Option<Buffer>)
    requires |w| >= (if a.None? then 1 else 0) + (if b.None? then 1 else 0)
    requires a' == if a.None? then Some(Reset(w[|w| - 1])) else a
    requires b' == if b.None? then Some(Reset(w[|w| - (if a.None? then 2 else 1)])) else b
    ensures Id(a') + Id(b') <= Id(a) + Id(b) + Ids(w)
  {
    if w != [] {
      var p := w[..|w| - 1];
      assert Ids(w) == Ids(p) + multiset{w[|w| - 1].id};
      if p != [] {
        assert Ids(p) == Ids(p[..|p| - 1]) + multiset{p[|p| - 1].id};
      }
    }
  }

  lemma {:induction false} NextOwned(s: State, s': State)
    requires Once(AllIds(s), s.nextId) && Shape(s) && Next(s, s')
    ensures Once(AllIds(s'), s'.nextId)
  {
    if line :| s' == Append(s, line) {
      AppendIds(s, line);
      OnceMore(AllIds(s), s.nextId);
    } else {
      LoggerOwned(s, s');
      OnceLess(AllIds(s), AllIds(s'), s.nextId);
    }
  }

  lemma {:induction false} LoggerOwned(s: State, s': State)
    requires Shape(s) && (LoggerStep(s, s') || s' == s.(running := false))
    ensures AllIds(s') <= AllIds(s) && s'.nextId == s.nextId
  {
    hide Ids;
    if s.pc.Entered? && s.new1.Some? && s' == Swap(s) {
      SwapOwned(s);
    } else if s.pc.Recycling? && CanRecycle(s) && s' == Recycle(s) {
      RecycleOwned(s);
    } else {
      SameFront(s, s');
      if s'.toWrite != s.toWrite {
        IdsPrefix(s.toWrite, 2);
      }
      FewerBack(s, s');
    }
  }

  lemma FewerBack(s: State, s': State)
    requires FrontIds(s') == FrontIds(s) && s'.new1 == s.new1 && s'.new2 == s.new2 && Ids(s'.toWrite) <= Ids(s.toWrite)
    ensures AllIds(s') <= AllIds(s)
  {
  }

  /** In every run no buffer is held in two places, so none is held by both sides. */
  lemma {:induction false} OneOwner(tr: seq<State>, n: nat)
    requires Run(tr) && n < |tr|
    ensures Once(AllIds(tr[n]), tr[n].nextId)
    ensures forall x :: x in FrontIds(tr[n]) ==> x !in BackIds(tr[n])
  {
    hide Next, Shape, FrontIds, BackIds, Once;
    if n == 0 {
      FirstIds(tr[0]);
    } else {
      OneOwner(tr, n - 1);
      RunKeeps(tr, n - 1);
      assert Next(tr[n - 1], tr[n - 1 + 1]);
      NextOwned(tr[n - 1], tr[n]);
    }
    hide Run;
    NoneShared(FrontIds(tr[n]), BackIds(tr[n]), tr[n].nextId);
  }

  lemma FirstIds(s: State)
    requires Init(s)
    ensures Once(AllIds(s), s.nextId)
  {
    assert Ids([]) == multiset{};
    assert AllIds(s) == multiset{0, 1, 2, 3};
  }

  lemma NoneShared(a: multiset<int>, b: multiset<int>, nextId: int)
    requires Once(a + b, nextId)
    ensures forall x :: x in a ==> x !in b
  {
    forall x | x in a
      ensures x !in b
    {
      assert (a + b)[x] == a[x] + b[x];
    }
  }

  // ----------------------------------------------------------- the bytes of a buffer

  function Text(lines: seq<Line>): (r: seq<char>)
    ensures |r| == Length(lines)
  {
    if lines == [] then [] else Text(lines[..|lines| - 1]) + lines[|lines| - 1]
  }

  /** `FixedBuffer<kLargeBuffer>`: the bytes before `cur` are the lines, one after the other. */
  class FixedBuffer {
    const id: int
    const data: array<char>
    var cur: nat
    ghost var lines: seq<Line>

    ghost predicate Valid()
      reads this, data
    {
      data.Length == LARGE_BUFFER && cur <= LARGE_BUFFER && data[..cur] == Text(lines)
    }

    ghost function Value(): Buffer
      reads this
    {
      Buffer(id, lines)
    }

    constructor (address: int)
      ensures Valid() && fresh(data) && Value() == Buffer(address, [])
    {
      id := address;
      data := new char[LARGE_BUFFER];
      cur := 0;
      lines := [];
    }

    function Available(): (n: int)
      requires Valid()
      reads this, data
      ensures n == Avail(Value()) >= 0
    {
      assert |data[..cur]| == cur;
      LARGE_BUFFER - cur
    }

    /** The whole line is copied, or nothing of it. */
    method Append(line: Line)
      requires Valid()
      modifies this, data
      ensures Valid() && Value() == Put(old(Value()), line)
    {
      if Available() > |line| {
        var i := 0;
        while i < |line|
          invariant 0 <= i <= |line|
          invariant data[..cur] == old(data[..cur]) && data[cur..cur + i] == line[..i]
          modifies data
        {
          data[cur + i] := line[i];
          i := i + 1;
        }
        lines := lines + [line];
        assert lines[..|lines| - 1] == old(lines);
        assert data[..cur + |line|] == data[..cur] + data[cur..cur + |line|];
        cur := cur + |line|;
      }
    }

    method Clear()
      requires Valid()
      modifies this
      ensures Valid() && Value() == Reset(old(Value()))
    {
      cur := 0;
      lines := [];
    }
  }
}
