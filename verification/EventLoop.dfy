/**
  `EventLoop`: one loop thread polls, handles events and runs the functors that any thread may
  queue; an eventfd counter wakes it up from poll.

  Threads interleave one statement at a time; a critical section under `mutex_` is one step.
  The model starts where `loop()` has just cleared `quit_`; functors may have been queued before, and
  other threads may be anywhere.
*/
module EventLoop {

  /** Where the loop thread stands in `loop()` and `doPendingFunctors()`. */
  datatype LoopPc =
    | Testing            // at while (!quit_)
    | Polling            // in poller_->poll()
    | Handling(wakeup: bool)   // running event handlers; `wakeup`: the wakeup channel is active and not handled yet
    | Swapping           // callingPendingFunctors_ set, pendingFunctors_ not swapped out yet
    | Looping            // at the test of the for loop over the batch
    | InFunctor          // inside a functor of the batch
    | InFunctorQueued    // that functor has pushed in queueInLoop() and not called wakeup() yet
    | Exited

  /** Where another thread stands in `queueInLoop()` or `quit()`. */
  datatype OtherPc = Idle | Queued | Quitting

  /** `pushed` and `executed` record the order in which functors were queued and run. */
  datatype State = State(
    pc: LoopPc, quit: bool, calling: bool, eventfd: nat, pending: seq<int>, batch: seq<int>, next: nat,
    others: map<int, OtherPc>, pushed: seq<int>, executed: seq<int>)

  ghost predicate Init(s: State) {
    && s.pc == Testing && !s.quit && !s.calling
    && s.pending == s.pushed && s.batch == [] && s.next == 0 && s.executed == []
  }

  ghost predicate SomeoneWillWake(s: State) {
    s.eventfd > 0 || (exists t :: t in s.others && !s.others[t].Idle?)
  }

  /** What was queued before `loop()` came with a wakeup, or a thread is about to give it one. */
  ghost predicate Announced(s: State) {
    s.pending != [] ==> SomeoneWillWake(s)
  }

  // ------------------------------------------------------ the loop thread

  ghost predicate Test(s: State, s': State) {
    s.pc.Testing? && s' == s.(pc := if s.quit then Exited else Polling)
  }

  /** poll returns, on an event or a timeout; it reports the wakeup channel only if the eventfd is readable. */
  ghost predicate PollReturns(s: State, s': State) {
    s.pc.Polling? && ((s.eventfd > 0 && s' == s.(pc := Handling(true))) || s' == s.(pc := Handling(false)))
  }

  /** `handleRead()` of the wakeup channel resets the counter. */
  ghost predicate HandleRead(s: State, s': State) {
    s.pc == Handling(true) && s' == s.(pc := Handling(false), eventfd := 0)
  }

  /** An event handler queues a functor; in the loop thread, outside the batch, that is no wakeup. */
  ghost predicate HandlerQueues(s: State, f: int, s': State) {
    s.pc.Handling? && !s.calling && s' == s.(pending := s.pending + [f], pushed := s.pushed + [f])
  }

  ghost predicate EndHandling(s: State, s': State) {
    s.pc == Handling(false) && s' == s.(pc := Swapping, calling := true)
  }

  ghost predicate Swap(s: State, s': State) {
    s.pc.Swapping? && s' == s.(pc := Looping, batch := s.pending, pending := [], next := 0)
  }

  ghost predicate CallFunctor(s: State, s': State) {
    && s.pc.Looping? && s.next < |s.batch|
    && s' == s.(pc := InFunctor, next := s.next + 1, executed := s.executed + [s.batch[s.next]])
  }

  /** A functor calls `queueInLoop`, perhaps with itself; the loop is calling functors, so a wakeup follows. */
  ghost predicate FunctorQueues(s: State, f: int, s': State) {
    && s.pc.InFunctor? && s.calling
    && s' == s.(pc := InFunctorQueued, pending := s.pending + [f], pushed := s.pushed + [f])
  }

  ghost predicate FunctorWakes(s: State, s': State) {
    s.pc.InFunctorQueued? && s' == s.(pc := InFunctor, eventfd := s.eventfd + 1)
  }

  ghost predicate FunctorReturns(s: State, s': State) {
    s.pc.InFunctor? && s' == s.(pc := Looping)
  }

  ghost predicate EndBatch(s: State, s': State) {
    s.pc.Looping? && s.next == |s.batch| && s' == s.(pc := Testing, calling := false)
  }

  /** `quit()` from a handler or a functor: no wakeup. */
  ghost predicate QuitInLoop(s: State, s': State) {
    (s.pc.Handling? || s.pc.InFunctor?) && s' == s.(quit := true)
  }

  ghost predicate LoopStep(s: State, s': State) {
    || Test(s, s') || PollReturns(s, s') || HandleRead(s, s') || EndHandling(s, s') || Swap(s, s')
    || CallFunctor(s, s') || FunctorWakes(s, s') || FunctorReturns(s, s') || EndBatch(s, s') || QuitInLoop(s, s')
    || (exists f :: HandlerQueues(s, f, s')) || (exists f :: FunctorQueues(s, f, s'))
  }

  // ------------------------------------------------------ the other threads

  ghost predicate Queue(s: State, t: int, f: int, s': State) {
    && t in s.others && s.others[t].Idle?
    && s' == s.(pending := s.pending + [f], pushed := s.pushed + [f], others := s.others[t := Queued])
  }

  ghost predicate SetQuit(s: State, t: int, s': State) {
    t in s.others && s.others[t].Idle? && s' == s.(quit := true, others := s.others[t := Quitting])
  }

  ghost predicate Wakeup(s: State, t: int, s': State) {
    && t in s.others && !s.others[t].Idle?
    && s' == s.(eventfd := s.eventfd + 1, others := s.others[t := Idle])
  }

  ghost predicate OtherStep(s: State, t: int, s': State) {
    (exists f :: Queue(s, t, f, s')) || SetQuit(s, t, s') || Wakeup(s, t, s')
  }

  ghost predicate Next(s: State, s': State) {
    LoopStep(s, s') || exists t :: OtherStep(s, t, s')
  }

  ghost predicate Run(tr: seq<State>) {
    |tr| > 0 && Init(tr[0]) && forall i :: 0 <= i < |tr| - 1 ==> Next(tr[i], tr[i + 1])
  }

  // ------------------------------------------------------------ invariant

  /** From the swap until poll returns, whatever is pending is announced or about to be. */
  ghost predicate Armed(pc: LoopPc) {
    pc.Testing? || pc.Polling? || pc.Looping? || pc.InFunctor? || pc.InFunctorQueued?
  }

  ghost predicate OrderInv(s: State) {
    && s.next <= |s.batch|
    && s.pushed == s.executed + s.batch[s.next..] + s.pending
    && (s.calling <==> s.pc.Swapping? || s.pc.Looping? || s.pc.InFunctor? || s.pc.InFunctorQueued?)
    && (s.pc.Testing? || s.pc.Polling? || s.pc.Handling? || s.pc.Swapping? || s.pc.Exited? ==> s.next == |s.batch|)
  }

  ghost predicate WakeInv(s: State) {
    && (Armed(s.pc) && s.pending != [] ==> SomeoneWillWake(s) || s.pc.InFunctorQueued?)
    && (s.pc.Polling? && s.quit ==> SomeoneWillWake(s))
  }

  lemma {:induction false} StepOrder(s: State, s': State)
    requires OrderInv(s) && Next(s, s')
    ensures OrderInv(s')
  {
    if CallFunctor(s, s') {
      var b, n := s.batch, s.next;
      assert b[n..] == [b[n]] + b[n + 1..];
      assert s.executed + ([b[n]] + b[n + 1..]) == s.executed + [b[n]] + b[n + 1..];
    } else if Swap(s, s') {
      assert s.batch[s.next..] == [] && s.pending[0..] == s.pending;
      assert s.executed + [] + s.pending == s.executed + s.pending + [];
    } else if s'.pushed == s.pushed {
      QuietStep(s, s');
    } else {
      var f := PushStep(s, s');
      assert s.executed + s.batch[s.next..] + s.pending + [f] == s.executed + s.batch[s.next..] + (s.pending + [f]);
    }
  }

  lemma {:induction false} QuietStep(s: State, s': State)
    requires OrderInv(s) && Next(s, s') && !CallFunctor(s, s') && !Swap(s, s') && s'.pushed == s.pushed
    ensures OrderInv(s')
  {
    assert forall f :: s.pushed + [f] != s.pushed;
  }

  lemma {:induction false} PushStep(s: State, s': State) returns (f: int)
    requires Next(s, s') && !CallFunctor(s, s') && !Swap(s, s') && s'.pushed != s.pushed
    ensures s'.pushed == s.pushed + [f] && s'.pending == s.pending + [f]
    ensures s'.batch == s.batch && s'.next == s.next && s'.executed == s.executed && s'.calling == s.calling
    ensures s'.pc == s.pc || (s.pc.InFunctor? && s'.pc.InFunctorQueued?)
  {
    if g :| HandlerQueues(s, g, s') {
      f := g;
    } else if g :| FunctorQueues(s, g, s') {
      f := g;
    } else {
      var t :| OtherStep(s, t, s');
      var g :| Queue(s, t, g, s');
      f := g;
    }
  }

  lemma {:induction false} StepWake(s: State, s': State)
    requires WakeInv(s) && Next(s, s')
    ensures WakeInv(s')
  {
    if LoopStep(s, s') {
      LoopWake(s, s');
    } else {
      var t :| OtherStep(s, t, s');
      assert !Wakeup(s, t, s') ==> !s'.others[t].Idle?;
      assert forall u :: u in s.others && u != t ==> s'.others[u] == s.others[u];
    }
  }

  lemma {:induction false} LoopWake(s: State, s': State)
    requires WakeInv(s) && LoopStep(s, s')
    ensures WakeInv(s')
  {
  }

  lemma {:induction false} RunOrder(tr: seq<State>, n: nat)
    requires Run(tr) && n < |tr|
    ensures OrderInv(tr[n])
  {
    if n > 0 {
      RunOrder(tr, n - 1);
      assert Next(tr[n - 1], tr[n - 1 + 1]);
      StepOrder(tr[n - 1], tr[n]);
    }
  }

  lemma {:induction false} RunWake(tr: seq<State>, n: nat)
    requires Run(tr) && Announced(tr[0]) && n < |tr|
    ensures WakeInv(tr[n])
  {
    if n > 0 {
      RunWake(tr, n - 1);
      assert Next(tr[n - 1], tr[n - 1 + 1]);
      StepWake(tr[n - 1], tr[n]);
    }
  }

  // --------------------------------------------------------------- results

  /** Every functor queued is run once, in the order of queueing: run, waiting in the batch, or pending. */
  lemma {:induction false} InOrderOnce(tr: seq<State>, n: nat)
    requires Run(tr) && n < |tr|
    ensures tr[n].next <= |tr[n].batch|
    ensures tr[n].pushed == tr[n].executed + tr[n].batch[tr[n].next..] + tr[n].pending
  {
    RunOrder(tr, n);
  }

  /**
    The loop does not sleep through work or through `quit()`: while it is in poll with a functor
    pending or with `quit_` set, the eventfd is readable or another thread is on its way to `wakeup()`.
  */
  lemma {:induction false} NoLostWakeup(tr: seq<State>, n: nat)
    requires Run(tr) && Announced(tr[0]) && n < |tr|
    requires tr[n].pc.Polling? && (tr[n].pending != [] || tr[n].quit)
    ensures SomeoneWillWake(tr[n])
  {
    RunWake(tr, n);
  }

  /**
    That is exactly when it holds: if the loop thread itself queued a functor before `loop()`, which
    calls no wakeup, then the loop can go to sleep in poll with that functor pending.
  */
  lemma UnannouncedIsLost(s: State) returns (tr: seq<State>)
    requires Init(s) && !Announced(s)
    ensures Run(tr) && tr[0] == s && tr[|tr| - 1].pc.Polling?
    ensures tr[|tr| - 1].pending != [] && !SomeoneWillWake(tr[|tr| - 1])
  {
    tr := [s, s.(pc := Polling)];
    assert Test(tr[0], tr[1]);
  }

  // ------------------------------------------------------------------ quit()

  /** `quit_` is set, from the loop thread or from another. */
  ghost predicate SetsQuit(s: State, s': State) {
    QuitInLoop(s, s') || exists t :: SetQuit(s, t, s')
  }

  lemma StepQuits(s: State, s': State)
    requires Next(s, s')
    ensures s'.quit <==> s.quit || SetsQuit(s, s')
  {
  }

  lemma {:induction false} QuitIff(tr: seq<State>, n: nat)
    requires Run(tr) && n < |tr|
    ensures tr[n].quit <==> QuitBefore(tr, n)
  {
    if n > 0 {
      QuitIff(tr, n - 1);
      assert Next(tr[n - 1], tr[n - 1 + 1]);
      hide Next, SetsQuit, Run;
      StepQuits(tr[n - 1], tr[n]);
      QuitBeforeMore(tr, n);
    }
  }

  /** `quit_` was set in one of the first `n` steps. */
  ghost predicate QuitBefore(tr: seq<State>, n: nat)
    requires n < |tr|
  {
    exists j :: 0 <= j < n && SetsQuit(tr[j], tr[j + 1])
  }

  lemma QuitBeforeMore(tr: seq<State>, n: nat)
    requires 0 < n < |tr|
    ensures QuitBefore(tr, n) <==> QuitBefore(tr, n - 1) || SetsQuit(tr[n - 1], tr[n])
  {
    hide SetsQuit;
    if SetsQuit(tr[n - 1], tr[n]) {
      assert SetsQuit(tr[n - 1], tr[n - 1 + 1]);
    }
  }

  /** The loop exits at a test if and only if `quit_` was set after the start of `loop()`, by whomever. */
  lemma {:induction false} ExitsIffQuit(tr: seq<State>, n: nat)
    requires Run(tr) && n + 1 < |tr| && Test(tr[n], tr[n + 1])
    ensures tr[n + 1].pc.Exited? <==> QuitBefore(tr, n)
  {
    QuitIff(tr, n);
  }

  /**
    A `quit()` that comes earlier is lost: `loop()` clears the flag, the wakeup that follows is for nothing,
    and then the loop sleeps with nobody on the way to wake it.
  */
  lemma {:induction false} EarlyQuitIsLost(s: State, t: int) returns (tr: seq<State>)
    requires Init(s) && s.pending == [] && s.eventfd == 0
    requires t in s.others && s.others[t].Quitting? && forall u :: u in s.others && u != t ==> s.others[u].Idle?
    ensures Run(tr) && tr[0] == s
    ensures var z := tr[|tr| - 1]; z.pc.Polling? && !z.quit && !SomeoneWillWake(z)
  {
    var s1 := s.(pc := Polling);
    var s2 := s1.(eventfd := 1, others := s.others[t := Idle]);
    var s3 := s2.(pc := Handling(true));
    var s4 := s3.(pc := Handling(false), eventfd := 0);
    var s5 := s4.(pc := Swapping, calling := true);
    var s6 := s5.(pc := Looping, batch := [], pending := [], next := 0);
    var s7 := s6.(pc := Testing, calling := false);
    var s8 := s7.(pc := Polling);
    assert Test(s, s1) && PollReturns(s2, s3) && HandleRead(s3, s4) && EndHandling(s4, s5);
    assert Wakeup(s1, t, s2) && OtherStep(s1, t, s2);
    assert Swap(s5, s6) && EndBatch(s6, s7) && Test(s7, s8);
    tr := [s, s1, s2, s3, s4, s5, s6, s7, s8];
    hide LoopStep, OtherStep;
  }

  // ----------------------------------------------------------------- batches

  /** From one swap on, until the loop thread reaches its next test of `quit_`. */
  ghost predicate SameBatch(tr: seq<State>, i: nat, j: nat) {
    && i < j < |tr| && tr[i].pc.Swapping?
    && (forall k :: i < k < j ==> tr[k].pc.Looping? || tr[k].pc.InFunctor? || tr[k].pc.InFunctorQueued?)
  }

  /**
    A batch is what was pending at the swap, however many functors queue more: while it runs the
    functors run so far are a prefix of it, and when it ends they are all of it.
  */
  lemma {:induction false} BatchIsFixed(tr: seq<State>, i: nat, j: nat)
    requires Run(tr) && SameBatch(tr, i, j) && !tr[j].pc.Swapping?
    requires Swap(tr[i], tr[i + 1])
    ensures tr[j].batch == tr[i + 1].batch && tr[j].next <= |tr[j].batch|
    ensures tr[j].executed == tr[i].executed + tr[i + 1].batch[..tr[j].next]
    ensures tr[j].pc.Testing? ==> tr[j].next == |tr[j].batch|
    decreases j - i
  {
    hide Next, OrderInv;
    if j == i + 1 {
      assert tr[i + 1].executed == tr[i].executed + tr[i + 1].batch[..0];
    } else {
      assert SameBatch(tr, i, j - 1);
      BatchIsFixed(tr, i, j - 1);
      assert Next(tr[j - 1], tr[j - 1 + 1]);
      RunOrder(tr, j - 1);
      BatchStep(tr[j - 1], tr[j]);
      ExecutedPrefix(tr[i].executed, tr[j - 1].executed, tr[j].executed, tr[i + 1].batch, tr[j - 1].next, tr[j].next);
    }
  }

  lemma ExecutedPrefix(e: seq<int>, a: seq<int>, c: seq<int>, b: seq<int>, k: nat, n: nat)
    requires k <= |b| && n <= |b| && a == e + b[..k]
    requires (n == k && c == a) || (n == k + 1 && k < |b| && c == a + [b[k]])
    ensures c == e + b[..n]
  {
    if n == k + 1 {
      assert b[..n] == b[..k] + [b[k]];
    }
  }

  lemma {:induction false} BatchStep(s: State, s': State)
    requires OrderInv(s) && Next(s, s') && (s.pc.Looping? || s.pc.InFunctor? || s.pc.InFunctorQueued?)
    ensures s'.batch == s.batch && s'.next <= |s'.batch|
    ensures || (s'.next == s.next && s'.executed == s.executed)
            || (s'.next == s.next + 1 && s.next < |s.batch| && s'.executed == s.executed + [s.batch[s.next]])
    ensures s'.pc.Testing? ==> s'.next == |s'.batch|
  {
  }
}
