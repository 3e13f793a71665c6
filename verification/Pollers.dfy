/**
  `PollPoller` and `EPollPoller`: two ways to keep the events that each registered channel waits for.

  A channel is a number; its `index()` field is the poller's to use and is kept here in a map, where an
  absent channel has index -1.  `events` is a bit set, 0 for none.
*/
module Pollers {

  type Channel = int

  /** What the loop has asked for: the registered channels with their fd and current events. */
  datatype Interest = Interest(fd: int, events: int)

  datatype Spec = Spec(live: map<Channel, Interest>, removed: set<Channel>)

  datatype Op = Update(c: Channel, fd: int, events: int) | Remove(c: Channel)

  /** How a loop uses its poller: a new channel has events and an fd of its own; it goes once, with no events left. */
  ghost predicate Legal(a: Spec, op: Op) {
    match op
    case Update(c, fd, ev) =>
      if c in a.live then a.live[c].fd == fd && ev >= 0
      else c !in a.removed && fd >= 0 && ev > 0 && forall d :: d in a.live ==> a.live[d].fd != fd
    case Remove(c) => c in a.live && a.live[c].events == 0
  }

  ghost function Apply(a: Spec, op: Op): Spec
    requires Legal(a, op)
  {
    match op
    case Update(c, fd, ev) => a.(live := a.live[c := Interest(fd, ev)])
    case Remove(c) => Spec(a.live - {c}, a.removed + {c})
  }

  ghost predicate SpecOk(a: Spec) {
    && (forall c :: c in a.live ==> a.live[c].fd >= 0 && a.live[c].events >= 0 && c !in a.removed)
    && (forall c, d :: c in a.live && d in a.live && c != d ==> a.live[c].fd != a.live[d].fd)
  }

  /** Channel `c` waits for events on its fd. */
  ghost predicate Wants(a: Spec, c: Channel, fd: int, ev: int) {
    ev != 0 && c in a.live && a.live[c] == Interest(fd, ev)
  }

  // ------------------------------------------------------------ PollPoller

  datatype PollFd = PollFd(fd: int, events: int, revents: int)

  datatype Poll = Poll(pollfds: seq<PollFd>, channels: map<int, Channel>, index: map<Channel, int>)

  function IndexOf(p: map<Channel, int>, c: Channel): int {
    if c in p then p[c] else -1
  }

  /** A slot with no events is ignored by poll(2): its fd is stored as -fd-1. */
  function Slot(fd: int, ev: int): PollFd {
    PollFd(if ev == 0 then -fd - 1 else fd, ev, 0)
  }

  function FdOf(slot: PollFd): int {
    if slot.fd < 0 then -slot.fd - 1 else slot.fd
  }

  function PollUpdate(p: Poll, c: Channel, fd: int, ev: int): Poll {
    var i := IndexOf(p.index, c);
    if i < 0 then
      Poll(p.pollfds + [PollFd(fd, ev, 0)], p.channels[fd := c], p.index[c := |p.pollfds|])
    else if i < |p.pollfds| then p.(pollfds := p.pollfds[i := Slot(fd, ev)])
    else p
  }

  /** Swap the slot with the last one, tell the channel of the last one its new place, and drop the end. */
  function PollRemove(p: Poll, c: Channel, fd: int): Poll {
    var i, n := IndexOf(p.index, c), |p.pollfds|;
    if !(0 <= i < n) then p
    else if i == n - 1 then Poll(p.pollfds[..n - 1], p.channels - {fd}, p.index)
    else
      var last := p.pollfds[n - 1];
      var moved := p.pollfds[i := last][..n - 1];
      if FdOf(last) in p.channels then
        Poll(moved, p.channels - {fd}, p.index[p.channels[FdOf(last)] := i])
      else Poll(moved, p.channels - {fd}, p.index)
  }

  /** `channels_` finds each registered channel by its fd, and nothing else. */
  ghost predicate ChannelsOk(channels: map<int, Channel>, a: Spec) {
    && (forall c :: c in a.live ==> a.live[c].fd in channels && channels[a.live[c].fd] == c)
    && (forall fd :: fd in channels ==> channels[fd] in a.live && a.live[channels[fd]].fd == fd)
  }

  lemma NewFdIsFree(channels: map<int, Channel>, a: Spec, c: Channel, fd: int, ev: int)
    requires ChannelsOk(channels, a) && Legal(a, Update(c, fd, ev)) && c !in a.live
    ensures fd !in channels
  {
    assert forall d :: d in a.live ==> a.live[d].fd != fd;
  }

  /** A registered channel's index is its slot, and the slot shows the channel's interest. */
  ghost predicate SlotOk(p: Poll, c: Channel, want: Interest) {
    && c in p.index && 0 <= p.index[c] < |p.pollfds|
    && p.pollfds[p.index[c]].fd == Slot(want.fd, want.events).fd && p.pollfds[p.index[c]].events == want.events
  }

  /** The channel that slot `i` belongs to has that index. */
  ghost predicate OwnerOk(p: Poll, i: int)
    requires 0 <= i < |p.pollfds|
  {
    var fd := FdOf(p.pollfds[i]);
    fd in p.channels && p.channels[fd] in p.index && p.index[p.channels[fd]] == i
  }

  /** The index field is a bijection between registered channels and slots. */
  ghost predicate PollOk(p: Poll, a: Spec) {
    && ChannelsOk(p.channels, a)
    && (forall c :: c in a.live ==> SlotOk(p, c, a.live[c]))
    && (forall i :: 0 <= i < |p.pollfds| ==> OwnerOk(p, i))
    && (forall c :: c in p.index ==> p.index[c] >= 0 && (c in a.live || c in a.removed))
  }

  lemma {:induction false} PollUpdateOk(p: Poll, a: Spec, c: Channel, fd: int, ev: int)
    requires SpecOk(a) && PollOk(p, a) && Legal(a, Update(c, fd, ev))
    ensures PollOk(PollUpdate(p, c, fd, ev), Apply(a, Update(c, fd, ev)))
  {
    if c in a.live {
      ChangeOk(p, a, c, fd, ev);
    } else {
      AddOk(p, a, c, fd, ev);
    }
  }

  lemma {:induction false} ChangeOk(p: Poll, a: Spec, c: Channel, fd: int, ev: int)
    requires SpecOk(a) && PollOk(p, a) && Legal(a, Update(c, fd, ev)) && c in a.live
    ensures PollOk(PollUpdate(p, c, fd, ev), Apply(a, Update(c, fd, ev)))
  {
    var p', a' := PollUpdate(p, c, fd, ev), Apply(a, Update(c, fd, ev));
    assert SlotOk(p, c, a.live[c]);
    forall d | d in a'.live
      ensures SlotOk(p', d, a'.live[d])
    {
      if d != c {
        assert SlotOk(p, d, a.live[d]);
        DifferentSlots(p, a, c, d);
      }
    }
    forall j | 0 <= j < |p'.pollfds|
      ensures OwnerOk(p', j)
    {
      assert OwnerOk(p, j);
    }
  }

  lemma {:induction false} AddOk(p: Poll, a: Spec, c: Channel, fd: int, ev: int)
    requires SpecOk(a) && PollOk(p, a) && Legal(a, Update(c, fd, ev)) && c !in a.live
    ensures PollOk(PollUpdate(p, c, fd, ev), Apply(a, Update(c, fd, ev)))
  {
    var p', a' := PollUpdate(p, c, fd, ev), Apply(a, Update(c, fd, ev));
    forall d | d in a'.live
      ensures SlotOk(p', d, a'.live[d])
    {
      if d != c {
        assert SlotOk(p, d, a.live[d]);
      }
    }
    forall j | 0 <= j < |p'.pollfds|
      ensures OwnerOk(p', j)
    {
      if j < |p.pollfds| {
        assert OwnerOk(p, j);
        var d := p.channels[FdOf(p.pollfds[j])];
        assert d in a.live && d != c;
      }
    }
  }

  lemma DifferentSlots(p: Poll, a: Spec, c: Channel, d: Channel)
    requires SpecOk(a) && PollOk(p, a) && c in a.live && d in a.live && c != d
    ensures c in p.index && d in p.index && p.index[c] != p.index[d]
  {
    assert SlotOk(p, c, a.live[c]) && SlotOk(p, d, a.live[d]);
  }

  lemma {:induction false} PollRemoveOk(p: Poll, a: Spec, c: Channel)
    requires SpecOk(a) && PollOk(p, a) && Legal(a, Remove(c))
    ensures PollOk(PollRemove(p, c, a.live[c].fd), Apply(a, Remove(c)))
  {
    var fd := a.live[c].fd;
    var p', a' := PollRemove(p, c, fd), Apply(a, Remove(c));
    assert SlotOk(p, c, a.live[c]) && OwnerOk(p, |p.pollfds| - 1);
    forall d | d in a'.live
      ensures SlotOk(p', d, a'.live[d])
    {
      RemoveSlot(p, a, c, d);
    }
    forall j | 0 <= j < |p'.pollfds|
      ensures OwnerOk(p', j)
    {
      RemoveOwner(p, a, c, j);
    }
    hide SlotOk, OwnerOk, FdOf;
  }

  /** Every other channel has its slot after the removal. */
  lemma {:induction false} RemoveSlot(p: Poll, a: Spec, c: Channel, d: Channel)
    requires SpecOk(a) && PollOk(p, a) && Legal(a, Remove(c)) && d in a.live && d != c
    ensures SlotOk(PollRemove(p, c, a.live[c].fd), d, a.live[d])
  {
    assert SlotOk(p, c, a.live[c]) && SlotOk(p, d, a.live[d]) && OwnerOk(p, |p.pollfds| - 1);
    var e := p.channels[FdOf(p.pollfds[|p.pollfds| - 1])];
    DifferentSlots(p, a, c, d);
    if d != e {
      DifferentSlots(p, a, d, e);
    }
    hide PollOk, SpecOk;
  }

  /** Every slot left has its channel after the removal. */
  lemma {:induction false} RemoveOwner(p: Poll, a: Spec, c: Channel, j: int)
    requires SpecOk(a) && PollOk(p, a) && Legal(a, Remove(c))
    requires 0 <= j < |PollRemove(p, c, a.live[c].fd).pollfds|
    ensures OwnerOk(PollRemove(p, c, a.live[c].fd), j)
  {
    var n := |p.pollfds|;
    assert SlotOk(p, c, a.live[c]) && OwnerOk(p, n - 1) && OwnerOk(p, p.index[c]);
    assert j < n && OwnerOk(p, j);
    FoundByFd(p, a, c);
    hide PollOk, SpecOk;
  }

  // ----------------------------------------------------------- EPollPoller

  const NEW := -1
  const ADDED := 1
  const DELETED := 2

  /** `kernel` is the interest list of the epoll instance: fd to events and the channel in `data.ptr`. */
  datatype EPoll = EPoll(channels: map<int, Channel>, index: map<Channel, int>, kernel: map<int, (int, Channel)>)

  datatype Ctl = CtlAdd | CtlMod | CtlDel

  /** The `epoll_ctl` call a step makes, if any. */
  datatype Call = NoCall | Call(op: Ctl, fd: int)

  /** `epoll_ctl(2)` fails on adding an fd that is there and on changing one that is not. */
  predicate CtlSucceeds(kernel: map<int, (int, Channel)>, call: Call) {
    call.Call? ==> (call.op.CtlAdd? <==> call.fd !in kernel)
  }

  function EPollUpdate(e: EPoll, c: Channel, fd: int, ev: int): (EPoll, Call) {
    var i := IndexOf(e.index, c);
    if i == NEW || i == DELETED then
      (EPoll(if i == NEW then e.channels[fd := c] else e.channels, e.index[c := ADDED], e.kernel[fd := (ev, c)]),
       Call(CtlAdd, fd))
    else if ev == 0 then
      (EPoll(e.channels, e.index[c := DELETED], e.kernel - {fd}), Call(CtlDel, fd))
    else
      (EPoll(e.channels, e.index, e.kernel[fd := (ev, c)]), Call(CtlMod, fd))
  }

  function EPollRemove(e: EPoll, c: Channel, fd: int): (EPoll, Call) {
    if IndexOf(e.index, c) == ADDED then
      (EPoll(e.channels - {fd}, e.index[c := NEW], e.kernel - {fd}), Call(CtlDel, fd))
    else
      (EPoll(e.channels - {fd}, e.index[c := NEW], e.kernel), NoCall)
  }

  ghost predicate EntryOk(e: EPoll, c: Channel, want: Interest) {
    && c in e.index && (e.index[c] == ADDED || e.index[c] == DELETED)
    && (e.index[c] == ADDED ==> want.fd in e.kernel && e.kernel[want.fd] == (want.events, c))
    && (e.index[c] == DELETED ==> want.fd !in e.kernel && want.events == 0)
  }

  ghost predicate EPollOk(e: EPoll, a: Spec) {
    && ChannelsOk(e.channels, a)
    && (forall c :: c in a.live ==> EntryOk(e, c, a.live[c]))
    && (forall fd :: fd in e.kernel ==> fd in e.channels)
    && (forall c :: c in e.index && c !in a.live ==> e.index[c] == NEW)
  }

  lemma {:induction false} EPollUpdateOk(e: EPoll, a: Spec, c: Channel, fd: int, ev: int)
    requires SpecOk(a) && EPollOk(e, a) && Legal(a, Update(c, fd, ev))
    ensures EPollOk(EPollUpdate(e, c, fd, ev).0, Apply(a, Update(c, fd, ev)))
    ensures CtlSucceeds(e.kernel, EPollUpdate(e, c, fd, ev).1)
  {
    var e', a' := EPollUpdate(e, c, fd, ev).0, Apply(a, Update(c, fd, ev));
    if c in a.live {
      assert EntryOk(e, c, a.live[c]);
    } else {
      NewFdIsFree(e.channels, a, c, fd, ev);
      assert IndexOf(e.index, c) == NEW;
    }
    forall d | d in a'.live
      ensures EntryOk(e', d, a'.live[d])
    {
      if d != c {
        assert EntryOk(e, d, a.live[d]);
      }
    }
  }

  lemma {:induction false} EPollRemoveOk(e: EPoll, a: Spec, c: Channel)
    requires SpecOk(a) && EPollOk(e, a) && Legal(a, Remove(c))
    ensures EPollOk(EPollRemove(e, c, a.live[c].fd).0, Apply(a, Remove(c)))
    ensures CtlSucceeds(e.kernel, EPollRemove(e, c, a.live[c].fd).1)
  {
    var e', a' := EPollRemove(e, c, a.live[c].fd).0, Apply(a, Remove(c));
    assert EntryOk(e, c, a.live[c]);
    forall d | d in a'.live
      ensures EntryOk(e', d, a'.live[d])
    {
      assert EntryOk(e, d, a.live[d]);
    }
  }

  // ------------------------------------------------------------------ runs

  ghost predicate LegalRun(ops: seq<Op>, a: seq<Spec>) {
    && |a| == |ops| + 1 && a[0] == Spec(map[], {})
    && (forall i {:trigger ops[i]} :: 0 <= i < |ops| ==> Legal(a[i], ops[i]) && a[i + 1] == Apply(a[i], ops[i]))
  }

  ghost function PollAfter(ops: seq<Op>, a: seq<Spec>): Poll
    requires LegalRun(ops, a)
  {
    if ops == [] then Poll([], map[], map[]) else
      var n := |ops| - 1;
      assert ops[n] == ops[..n + 1][n];
      ShorterRun(ops, a);
      var p := PollAfter(ops[..n], a[..n + 1]);
      match ops[n]
      case Update(c, fd, ev) => PollUpdate(p, c, fd, ev)
      case Remove(c) => PollRemove(p, c, a[n].live[c].fd)
  }

  ghost function EPollAfter(ops: seq<Op>, a: seq<Spec>): EPoll
    requires LegalRun(ops, a)
  {
    if ops == [] then EPoll(map[], map[], map[]) else
      var n := |ops| - 1;
      ShorterRun(ops, a);
      var e := EPollAfter(ops[..n], a[..n + 1]);
      match ops[n]
      case Update(c, fd, ev) => EPollUpdate(e, c, fd, ev).0
      case Remove(c) => EPollRemove(e, c, a[n].live[c].fd).0
  }

  lemma ShorterRun(ops: seq<Op>, a: seq<Spec>)
    requires LegalRun(ops, a) && ops != []
    ensures LegalRun(ops[..|ops| - 1], a[..|ops|])
    ensures Legal(a[|ops| - 1], ops[|ops| - 1]) && a[|ops|] == Apply(a[|ops| - 1], ops[|ops| - 1])
  {
    var n := |ops| - 1;
    assert Legal(a[n], ops[n]) && a[n + 1] == Apply(a[n], ops[n]);
    forall i {:trigger ops[..n][i]} | 0 <= i < n
      ensures Legal(a[..n + 1][i], ops[..n][i]) && a[..n + 1][i + 1] == Apply(a[..n + 1][i], ops[..n][i])
    {
      assert ops[..n][i] == ops[i];
    }
  }

  lemma SpecStep(a: Spec, op: Op)
    requires SpecOk(a) && Legal(a, op)
    ensures SpecOk(Apply(a, op))
    ensures op.Remove? ==> op.c in a.live
  {
  }

  lemma {:induction false} RunOk(ops: seq<Op>, a: seq<Spec>)
    requires LegalRun(ops, a)
    ensures SpecOk(a[|ops|]) && PollOk(PollAfter(ops, a), a[|ops|]) && EPollOk(EPollAfter(ops, a), a[|ops|])
  {
    if ops != [] {
      var n := |ops| - 1;
      ShorterRun(ops, a);
      RunOk(ops[..n], a[..n + 1]);
      var p, e := PollAfter(ops[..n], a[..n + 1]), EPollAfter(ops[..n], a[..n + 1]);
      SpecStep(a[n], ops[n]);
      hide PollOk, EPollOk, SpecOk, LegalRun, Legal, Apply;
      match ops[n] {
        case Update(c, fd, ev) =>
          PollUpdateOk(p, a[n], c, fd, ev);
          EPollUpdateOk(e, a[n], c, fd, ev);
        case Remove(c) =>
          PollRemoveOk(p, a[n], c);
          EPollRemoveOk(e, a[n], c);
      }
    }
  }

  /** In every legal run `epoll_ctl` is asked to add absent fds only and to change or delete present ones only. */
  lemma {:induction false} CtlNeverFails(ops: seq<Op>, a: seq<Spec>)
    requires LegalRun(ops, a) && ops != []
    ensures LegalRun(ops[..|ops| - 1], a[..|ops|])
    ensures var e := EPollAfter(ops[..|ops| - 1], a[..|ops|]);
            match ops[|ops| - 1]
            case Update(c, fd, ev) => CtlSucceeds(e.kernel, EPollUpdate(e, c, fd, ev).1)
            case Remove(c) => c in a[|ops| - 1].live
                              && CtlSucceeds(e.kernel, EPollRemove(e, c, a[|ops| - 1].live[c].fd).1)
  {
    var n := |ops| - 1;
    ShorterRun(ops, a);
    RunOk(ops[..n], a[..n + 1]);
    var e := EPollAfter(ops[..n], a[..n + 1]);
    hide PollOk, EPollOk, SpecOk, LegalRun;
    match ops[n] {
      case Update(c, fd, ev) => EPollUpdateOk(e, a[n], c, fd, ev);
      case Remove(c) => EPollRemoveOk(e, a[n], c);
    }
  }

  /** What poll(2) watches: the slots with a non-negative fd; and the channel that is told. */
  ghost predicate PollWatches(p: Poll, c: Channel, fd: int, ev: int) {
    && ev != 0 && fd in p.channels && p.channels[fd] == c
    && exists i :: 0 <= i < |p.pollfds| && p.pollfds[i].fd == fd >= 0 && p.pollfds[i].events == ev
  }

  ghost predicate EPollWatches(e: EPoll, c: Channel, fd: int, ev: int) {
    ev != 0 && fd in e.kernel && e.kernel[fd] == (ev, c)
  }

  /**
    After every legal sequence of calls both pollers watch the same fds for the same events, those asked
    for, and on behalf of the channels that asked.
  */
  lemma {:induction false} SameInterest(ops: seq<Op>, a: seq<Spec>, c: Channel, fd: int, ev: int)
    requires LegalRun(ops, a)
    ensures PollWatches(PollAfter(ops, a), c, fd, ev) <==> Wants(a[|ops|], c, fd, ev)
    ensures EPollWatches(EPollAfter(ops, a), c, fd, ev) <==> Wants(a[|ops|], c, fd, ev)
  {
    RunOk(ops, a);
    PollInterest(PollAfter(ops, a), a[|ops|], c, fd, ev);
    EPollInterest(EPollAfter(ops, a), a[|ops|], c, fd, ev);
  }

  lemma {:induction false} PollInterest(p: Poll, a: Spec, c: Channel, fd: int, ev: int)
    requires SpecOk(a) && PollOk(p, a)
    ensures PollWatches(p, c, fd, ev) <==> Wants(a, c, fd, ev)
  {
    if PollWatches(p, c, fd, ev) {
      var i :| 0 <= i < |p.pollfds| && p.pollfds[i].fd == fd >= 0 && p.pollfds[i].events == ev;
      assert OwnerOk(p, i) && SlotOk(p, c, a.live[c]);
    }
    if Wants(a, c, fd, ev) {
      assert SlotOk(p, c, a.live[c]);
      var i := p.index[c];
      assert p.pollfds[i].fd == fd >= 0 && p.pollfds[i].events == ev;
    }
  }

  lemma {:induction false} EPollInterest(e: EPoll, a: Spec, c: Channel, fd: int, ev: int)
    requires SpecOk(a) && EPollOk(e, a)
    ensures EPollWatches(e, c, fd, ev) <==> Wants(a, c, fd, ev)
  {
    if EPollWatches(e, c, fd, ev) {
      var d := e.channels[fd];
      assert EntryOk(e, d, a.live[d]);
    }
    if Wants(a, c, fd, ev) {
      assert EntryOk(e, c, a.live[c]);
    }
  }

  // -------------------------------------------------------------- classes

  /** What the asserts of `removeChannel` need. */
  lemma RemovalFacts(p: Poll, a: Spec, c: Channel, fd: int)
    requires SpecOk(a) && PollOk(p, a) && Legal(a, Remove(c)) && fd == a.live[c].fd
    ensures PollOk(PollRemove(p, c, fd), Apply(a, Remove(c)))
    ensures c in p.index && 0 <= p.index[c] < |p.pollfds| && fd in p.channels && p.channels[fd] == c
    ensures p.pollfds[p.index[c]].fd == -fd - 1 && p.pollfds[p.index[c]].events == 0
    ensures p.index[c] < |p.pollfds| - 1 ==>
              FdOf(p.pollfds[|p.pollfds| - 1]) in p.channels && FdOf(p.pollfds[|p.pollfds| - 1]) != fd
  {
    PollRemoveOk(p, a, c);
    assert SlotOk(p, c, a.live[c]);
    FoundByFd(p, a, c);
    hide PollOk, SpecOk, Apply, PollRemove;
    if p.index[c] < |p.pollfds| - 1 {
      LastIsOther(p, a, c);
    }
  }

  /** Swapping a slot with the last one and dropping the end is overwriting it and dropping the end. */
  lemma DropLast(old_: seq<PollFd>, new_: seq<PollFd>, i: int)
    requires 0 <= i < |old_| - 1 && new_ == old_[i := old_[|old_| - 1]][|old_| - 1 := old_[i]]
    ensures new_[..|new_| - 1] == old_[i := old_[|old_| - 1]][..|old_| - 1]
  {
  }

  /** `PollPoller` as it is written, with its asserts; `a` is what the loop has asked for so far. */
  class PollPoller {
    var pollfds: seq<PollFd>
    var channels: map<int, Channel>
    var index: map<Channel, int>

    function Value(): Poll
      reads this
    {
      Poll(pollfds, channels, index)
    }

    method UpdateChannel(c: Channel, fd: int, events: int, ghost a: Spec)
      requires SpecOk(a) && PollOk(Value(), a) && Legal(a, Update(c, fd, events))
      modifies this
      ensures Value() == PollUpdate(old(Value()), c, fd, events)
      ensures PollOk(Value(), Apply(a, Update(c, fd, events)))
    {
      PollUpdateOk(Value(), a, c, fd, events);
      if IndexOf(index, c) < 0 {
        assert c !in a.live;
        NewFdIsFree(channels, a, c, fd, events);
        assert fd !in channels;
        pollfds := pollfds + [PollFd(fd, events, 0)];
        index := index[c := |pollfds| - 1];
        channels := channels[fd := c];
      } else {
        assert c in a.live && SlotOk(Value(), c, a.live[c]);
        assert fd in channels && channels[fd] == c;
        var idx := index[c];
        assert 0 <= idx < |pollfds| && (pollfds[idx].fd == fd || pollfds[idx].fd == -fd - 1);
        pollfds := pollfds[idx := PollFd(fd, events, 0)];
        if events == 0 {
          pollfds := pollfds[idx := pollfds[idx].(fd := -fd - 1)];
        }
      }
    }

    method RemoveChannel(c: Channel, fd: int, ghost a: Spec)
      requires SpecOk(a) && PollOk(Value(), a) && Legal(a, Remove(c)) && fd == a.live[c].fd
      modifies this
      ensures Value() == PollRemove(old(Value()), c, fd)
      ensures PollOk(Value(), Apply(a, Remove(c)))
    {
      hide PollOk, SpecOk, Legal, SlotOk, OwnerOk, ChannelsOk, Apply;
      RemovalFacts(Value(), a, c, fd);
      assert fd in channels && channels[fd] == c;
      var idx := index[c];
      assert 0 <= idx < |pollfds| && pollfds[idx].fd == -fd - 1 && pollfds[idx].events == 0;
      channels := channels - {fd};
      if idx == |pollfds| - 1 {
        pollfds := pollfds[..|pollfds| - 1];
      } else {
        var channelAtEnd := pollfds[|pollfds| - 1].fd;
        pollfds := pollfds[idx := pollfds[|pollfds| - 1]][|pollfds| - 1 := pollfds[idx]];
        if channelAtEnd < 0 {
          channelAtEnd := -channelAtEnd - 1;
        }
        index := index[channels[channelAtEnd] := idx];
        DropLast(old(pollfds), pollfds, idx);
        pollfds := pollfds[..|pollfds| - 1];
      }
    }

    /**
      `fillActiveChannels`: with `numEvents` the number of slots poll(2) has marked, the scan reports
      the channels of all of them, in slot order, although it stops at the last one.  poll(2) marks no
      slot with a negative fd.
    */
    method FillActiveChannels(numEvents: int, ghost a: Spec) returns (active: seq<Channel>)
      requires PollOk(Value(), a) && numEvents == |Marked(pollfds)|
      requires forall i :: 0 <= i < |pollfds| && pollfds[i].revents > 0 ==> pollfds[i].fd >= 0
      ensures active == ChannelsAt(channels, Marked(pollfds))
    {
      hide ChannelsOk, SlotOk, Marked, ChannelsAt;
      var n := numEvents;
      active := [];
      var i := 0;
      MarkedNone(channels, pollfds[..0]);
      while i < |pollfds| && n > 0
        invariant 0 <= i <= |pollfds|
        invariant n == |Marked(pollfds)| - |Marked(pollfds[..i])|
        invariant active == ChannelsAt(channels, Marked(pollfds[..i]))
      {
        assert OwnerOk(Value(), i);
        var pfd := pollfds[i];
        assert pollfds[..i + 1] == pollfds[..i] + [pfd];
        MarkedOneMore(channels, pollfds[..i], pfd);
        if pfd.revents > 0 {
          n := n - 1;
          assert pfd.fd in channels;
          var channel := channels[pfd.fd];
          OwnFd(Value(), a, pfd.fd);
          assert a.live[channel].fd == pfd.fd;
          active := active + [channel];
        }
        i := i + 1;
      }
      MarkedPrefix(pollfds, i);
      ghost var m := Marked(pollfds);
      assert i == |pollfds| ==> pollfds[..i] == pollfds;
      assert m[..|Marked(pollfds[..i])|] == Marked(pollfds[..i]) && m[..|m|] == m;
    }
  }

  lemma MarkedNone(channels: map<int, Channel>, slots: seq<PollFd>)
    requires slots == []
    ensures Marked(slots) == [] && ChannelsAt(channels, Marked(slots)) == []
  {
  }

  lemma MarkedOneMore(channels: map<int, Channel>, slots: seq<PollFd>, x: PollFd)
    requires FdOf(x) in channels
    ensures Marked(slots + [x]) == Marked(slots) + if x.revents > 0 then [x] else []
    ensures ChannelsAt(channels, Marked(slots + [x]))
         == ChannelsAt(channels, Marked(slots)) + if x.revents > 0 then [channels[FdOf(x)]] else []
  {
    assert (slots + [x])[..|slots + [x]| - 1] == slots;
    var m := Marked(slots);
    if x.revents > 0 {
      assert (m + [x])[..|m + [x]| - 1] == m;
    } else {
      assert m + [] == m;
    }
  }

  lemma FoundByFd(p: Poll, a: Spec, c: Channel)
    requires PollOk(p, a) && c in a.live
    ensures a.live[c].fd in p.channels && p.channels[a.live[c].fd] == c
  {
  }

  lemma OwnFd(p: Poll, a: Spec, fd: int)
    requires PollOk(p, a) && fd in p.channels
    ensures p.channels[fd] in a.live && a.live[p.channels[fd]].fd == fd
  {
  }

  /** The slots poll(2) has marked with events. */
  function Marked(slots: seq<PollFd>): seq<PollFd> {
    if slots == [] then [] else
      Marked(slots[..|slots| - 1]) + if slots[|slots| - 1].revents > 0 then [slots[|slots| - 1]] else []
  }

  function ChannelsAt(channels: map<int, Channel>, slots: seq<PollFd>): seq<Channel> {
    if slots == [] then [] else
      var fd := FdOf(slots[|slots| - 1]);
      ChannelsAt(channels, slots[..|slots| - 1]) + if fd in channels then [channels[fd]] else []
  }

  lemma {:induction false} MarkedPrefix(slots: seq<PollFd>, i: nat)
    requires i <= |slots|
    ensures Marked(slots[..i]) <= Marked(slots)
    decreases |slots|
  {
    if i < |slots| {
      var s := slots[..|slots| - 1];
      assert s[..i] == slots[..i];
      MarkedPrefix(s, i);
    } else {
      assert slots[..i] == slots;
    }
  }

  /** The channel of the last slot is not the one removed, unless that is the last slot. */
  lemma LastIsOther(p: Poll, a: Spec, c: Channel)
    requires SpecOk(a) && PollOk(p, a) && c in a.live && c in p.index && p.index[c] < |p.pollfds| - 1
    ensures var fd := FdOf(p.pollfds[|p.pollfds| - 1]); fd in p.channels && fd != a.live[c].fd
  {
    assert SlotOk(p, c, a.live[c]) && OwnerOk(p, |p.pollfds| - 1);
  }

  /** `EPollPoller` as it is written, with its asserts; the kernel's interest list is a field. */
  class EPollPoller {
    var channels: map<int, Channel>
    var index: map<Channel, int>
    var kernel: map<int, (int, Channel)>

    function Value(): EPoll
      reads this
    {
      EPoll(channels, index, kernel)
    }

    /** `epoll_ctl`, which never fails here. */
    method Ctl(op: Ctl, c: Channel, fd: int, events: int)
      requires CtlSucceeds(kernel, Call(op, fd))
      modifies this`kernel
      ensures kernel == if op.CtlDel? then old(kernel) - {fd} else old(kernel)[fd := (events, c)]
    {
      if op.CtlDel? {
        kernel := kernel - {fd};
      } else {
        kernel := kernel[fd := (events, c)];
      }
    }

    method UpdateChannel(c: Channel, fd: int, events: int, ghost a: Spec)
      requires SpecOk(a) && EPollOk(Value(), a) && Legal(a, Update(c, fd, events))
      modifies this
      ensures Value() == EPollUpdate(old(Value()), c, fd, events).0
      ensures EPollOk(Value(), Apply(a, Update(c, fd, events)))
    {
      EPollUpdateOk(Value(), a, c, fd, events);
      var idx := IndexOf(index, c);
      if idx == NEW || idx == DELETED {
        if idx == NEW {
          assert c in a.live ==> EntryOk(Value(), c, a.live[c]);
          NewFdIsFree(channels, a, c, fd, events);
          assert fd !in channels;
          channels := channels[fd := c];
        } else {
          assert fd in channels && channels[fd] == c;
        }
        index := index[c := ADDED];
        Ctl(CtlAdd, c, fd, events);
      } else {
        assert c in a.live && EntryOk(Value(), c, a.live[c]);
        assert fd in channels && channels[fd] == c && idx == ADDED;
        if events == 0 {
          Ctl(CtlDel, c, fd, events);
          index := index[c := DELETED];
        } else {
          Ctl(CtlMod, c, fd, events);
        }
      }
    }

    method RemoveChannel(c: Channel, fd: int, ghost a: Spec)
      requires SpecOk(a) && EPollOk(Value(), a) && Legal(a, Remove(c)) && fd == a.live[c].fd
      modifies this
      ensures Value() == EPollRemove(old(Value()), c, fd).0
      ensures EPollOk(Value(), Apply(a, Remove(c)))
    {
      EPollRemoveOk(Value(), a, c);
      assert EntryOk(Value(), c, a.live[c]);
      assert fd in channels && channels[fd] == c;
      var idx := index[c];
      assert idx == ADDED || idx == DELETED;
      channels := channels - {fd};
      if idx == ADDED {
        Ctl(CtlDel, c, fd, 0);
      }
      index := index[c := NEW];
    }
  }
}
