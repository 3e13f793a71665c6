/**
  The statistics of the Sudoku server: a ring of at most 60 one-second slots that slides with the clock,
  against the whole history of responses.
*/
module SudokuStat {

  const SECONDS := 60

  /** A response: the second in which it was sent, and its latency, negative when the clock went back. */
  datatype Response = Response(second: int, elapsed: int, solved: bool)

  datatype Ring = Ring(last: int, requests: seq<int>, latencies: seq<int>)

  // ------------------------------------------------------------ what a history says

  function CountAt(h: seq<Response>, s: int): int {
    if h == [] then 0
    else
      var r := h[|h| - 1];
      CountAt(h[..|h| - 1], s) + if r.elapsed >= 0 && r.second == s then 1 else 0
  }

  function LatencyAt(h: seq<Response>, s: int): int {
    if h == [] then 0
    else
      var r := h[|h| - 1];
      LatencyAt(h[..|h| - 1], s) + if r.elapsed >= 0 && r.second == s then r.elapsed else 0
  }

  function Solved(h: seq<Response>): int {
    if h == [] then 0 else Solved(h[..|h| - 1]) + if h[|h| - 1].solved then 1 else 0
  }

  function BadLatencies(h: seq<Response>): int {
    if h == [] then 0 else BadLatencies(h[..|h| - 1]) + if h[|h| - 1].elapsed < 0 then 1 else 0
  }

  function TotalLatency(h: seq<Response>): int {
    if h == [] then 0 else TotalLatency(h[..|h| - 1]) + if h[|h| - 1].elapsed >= 0 then h[|h| - 1].elapsed else 0
  }

  /** One more response adds to its own second and to no other. */
  lemma OneMore(h: seq<Response>, r: Response, s: int)
    ensures CountAt(h + [r], s) == CountAt(h, s) + if r.elapsed >= 0 && r.second == s then 1 else 0
    ensures LatencyAt(h + [r], s) == LatencyAt(h, s) + if r.elapsed >= 0 && r.second == s then r.elapsed else 0
  {
    assert (h + [r])[..|h|] == h;
  }

  /** The totals of a history. */
  ghost predicate TotalsOk(h: seq<Response>, responses: int, solved: int, latency: int, bad: int) {
    responses == |h| && solved == Solved(h) && latency == TotalLatency(h) && bad == BadLatencies(h)
  }

  lemma TotalsMore(h: seq<Response>, responses: int, solved: int, latency: int, bad: int, r: Response)
    requires TotalsOk(h, responses, solved, latency, bad)
    ensures TotalsOk(h + [r], responses + 1, solved + (if r.solved then 1 else 0),
                     latency + (if r.elapsed >= 0 then r.elapsed else 0), bad + (if r.elapsed < 0 then 1 else 0))
  {
    assert (h + [r])[..|h|] == h;
  }

  /** No response was counted after second `last`. */
  ghost predicate Until(h: seq<Response>, last: int) {
    forall i :: 0 <= i < |h| && h[i].elapsed >= 0 ==> h[i].second <= last
  }

  lemma {:induction false} NothingYet(h: seq<Response>, last: int, s: int)
    requires Until(h, last) && s > last
    ensures CountAt(h, s) == 0 && LatencyAt(h, s) == 0
  {
    if h != [] {
      NothingYet(h[..|h| - 1], last, s);
    }
  }

  // -------------------------------------------------------------------- the ring

  function First(r: Ring): int {
    r.last - |r.requests| + 1
  }

  /** push_back of a circular buffer that holds 60 elements. */
  function Push(s: seq<int>, x: int): seq<int> {
    if |s| < SECONDS then s + [x] else s[1..] + [x]
  }

  function Bumped(r: Ring, i: int, elapsed: int): Ring
    requires 0 <= i < |r.requests| == |r.latencies|
  {
    r.(requests := r.requests[i := r.requests[i] + 1], latencies := r.latencies[i := r.latencies[i] + elapsed])
  }

  function Advanced(r: Ring, second: int): (s: Ring)
    requires |r.requests| == |r.latencies|
    ensures |s.requests| == |s.latencies| && (second > r.last ==> |s.requests| > 0 && s.last == second)
    decreases second - r.last
  {
    if r.last >= second then r
    else Advanced(Ring(r.last + 1, Push(r.requests, 0), Push(r.latencies, 0)), second)
  }

  predicate Shape(r: Ring) {
    |r.requests| == |r.latencies| <= SECONDS && r.last >= 0 && (r.last == 0 <==> r.requests == [])
  }

  function Recorded(r: Ring, second: int, elapsed: int): Ring
    requires Shape(r) && second >= 1
  {
    if elapsed < 0 then r
    else if r.last == second then Bumped(r, |r.requests| - 1, elapsed)
    else if r.last + 1 == second || r.last == 0 then
      Ring(second, Push(r.requests, 1), Push(r.latencies, elapsed))
    else if second > r.last then
      if second < r.last + SECONDS then
        var a := Advanced(r, second);
        Bumped(a, |a.requests| - 1, elapsed)
      else Ring(second, [1], [elapsed])
    else if second >= First(r) then Bumped(r, second - First(r), elapsed)
    else r
  }

  /** Every slot holds the number and the latencies of all responses of the history in its second. */
  ghost predicate SlotsOk(r: Ring, h: seq<Response>)
    requires |r.requests| == |r.latencies|
  {
    forall i :: 0 <= i < |r.requests| ==>
      r.requests[i] == CountAt(h, First(r) + i) && r.latencies[i] == LatencyAt(h, First(r) + i)
  }

  ghost predicate RingOk(r: Ring, h: seq<Response>) {
    Shape(r) && SlotsOk(r, h) && Until(h, r.last)
  }

  lemma ShapeOf(r: Ring, h: seq<Response>)
    requires RingOk(r, h)
    ensures Shape(r)
  {
  }

  lemma BadIsNotRecorded(r: Ring, second: int, elapsed: int)
    requires Shape(r) && second >= 1
    ensures elapsed < 0 ==> Recorded(r, second, elapsed) == r
  {
  }

  /** A new, empty slot for the next second is right: nothing has been recorded for it. */
  lemma {:induction false} PushOk(r: Ring, h: seq<Response>)
    requires RingOk(r, h) && r.last > 0
    ensures var s := Ring(r.last + 1, Push(r.requests, 0), Push(r.latencies, 0));
            RingOk(s, h) && First(s) >= First(r)
  {
    var s := Ring(r.last + 1, Push(r.requests, 0), Push(r.latencies, 0));
    NothingYet(h, r.last, r.last + 1);
    var k := First(s) - First(r);
    forall i | 0 <= i < |s.requests|
      ensures s.requests[i] == CountAt(h, First(s) + i) && s.latencies[i] == LatencyAt(h, First(s) + i)
    {
      if i < |s.requests| - 1 {
        assert s.requests[i] == r.requests[i + k] && s.latencies[i] == r.latencies[i + k];
      }
    }
  }

  lemma {:induction false} AdvancedOk(r: Ring, h: seq<Response>, second: int)
    requires RingOk(r, h) && 0 < r.last <= second
    ensures RingOk(Advanced(r, second), h) && First(Advanced(r, second)) >= First(r)
    ensures Advanced(r, second).last == second
    decreases second - r.last
  {
    if r.last < second {
      PushOk(r, h);
      AdvancedOk(Ring(r.last + 1, Push(r.requests, 0), Push(r.latencies, 0)), h, second);
    }
  }

  lemma {:induction false} BumpedOk(r: Ring, h: seq<Response>, x: Response)
    requires RingOk(r, h) && x.elapsed >= 0 && First(r) <= x.second <= r.last && r.last > 0
    ensures RingOk(Bumped(r, x.second - First(r), x.elapsed), h + [x])
  {
    var s := Bumped(r, x.second - First(r), x.elapsed);
    forall i | 0 <= i < |s.requests|
      ensures s.requests[i] == CountAt(h + [x], First(s) + i) && s.latencies[i] == LatencyAt(h + [x], First(s) + i)
    {
      OneMore(h, x, First(s) + i);
    }
  }

  /** A response before the window is not counted, and need not be. */
  lemma {:induction false} OutsideOk(r: Ring, h: seq<Response>, x: Response)
    requires RingOk(r, h) && (x.elapsed < 0 || x.second < First(r)) && (x.elapsed >= 0 ==> x.second <= r.last)
    ensures RingOk(r, h + [x])
  {
    forall i | 0 <= i < |r.requests|
      ensures r.requests[i] == CountAt(h + [x], First(r) + i) && r.latencies[i] == LatencyAt(h + [x], First(r) + i)
    {
      OneMore(h, x, First(r) + i);
    }
  }

  /** A window that starts afresh at a second later than all before. */
  lemma {:induction false} FreshOk(h: seq<Response>, last: int, x: Response)
    requires Until(h, last) && x.elapsed >= 0 && x.second > last && x.second >= 1
    ensures RingOk(Ring(x.second, [1], [x.elapsed]), h + [x])
  {
    NothingYet(h, last, x.second);
    OneMore(h, x, x.second);
  }

  /**
    Whatever the clock does, recording a response keeps every slot equal to what the whole history says
    of its second; and the window never moves back.
  */
  lemma {:induction false} RecordedOk(r: Ring, h: seq<Response>, x: Response)
    requires RingOk(r, h) && x.second >= 1
    ensures RingOk(Recorded(r, x.second, x.elapsed), h + [x])
    ensures r.last > 0 ==> First(Recorded(r, x.second, x.elapsed)) >= First(r)
  {
    hide SlotsOk, Until, CountAt, LatencyAt, Advanced;
    if x.elapsed < 0 {
      OutsideOk(r, h, x);
    } else if r.last == 0 {
      FreshOk(h, 0, x);
      assert Push(r.requests, 1) == [1] && Push(r.latencies, x.elapsed) == [x.elapsed];
    } else if x.second > r.last {
      if x.second < r.last + SECONDS {
        AdvancedOk(r, h, x.second);
        BumpedOk(Advanced(r, x.second), h, x);
        if r.last + 1 == x.second {
          AdvanceByOne(r, x.elapsed);
        }
      } else {
        FreshOk(h, r.last, x);
      }
    } else if x.second >= First(r) {
      BumpedOk(r, h, x);
    } else {
      OutsideOk(r, h, x);
    }
  }

  /** Opening the next second is pushing an empty slot and counting in it. */
  lemma AdvanceByOne(r: Ring, elapsed: int)
    requires |r.requests| == |r.latencies|
    ensures var a := Advanced(r, r.last + 1);
            |a.requests| > 0
            && Bumped(a, |a.requests| - 1, elapsed) == Ring(r.last + 1, Push(r.requests, 1), Push(r.latencies, elapsed))
  {
    var a := Advanced(r, r.last + 1);
    var b := Ring(r.last + 1, Push(r.requests, 0), Push(r.latencies, 0));
    assert a == Advanced(b, r.last + 1) == b;
    var n := |a.requests| - 1;
    assert Push(r.requests, 0)[n := 1] == Push(r.requests, 1);
    assert Push(r.latencies, 0)[n := elapsed] == Push(r.latencies, elapsed);
  }

  function After(h: seq<Response>): Ring
    requires forall i :: 0 <= i < |h| ==> h[i].second >= 1
    ensures Shape(After(h))
  {
    if h == [] then Ring(0, [], [])
    else
      var r := After(h[..|h| - 1]);
      ShapeKept(r, h[|h| - 1].second, h[|h| - 1].elapsed);
      Recorded(r, h[|h| - 1].second, h[|h| - 1].elapsed)
  }

  lemma AfterMore(h: seq<Response>, x: Response)
    requires (forall i :: 0 <= i < |h| ==> h[i].second >= 1) && x.second >= 1
    ensures After(h + [x]) == Recorded(After(h), x.second, x.elapsed)
  {
    assert (h + [x])[..|h|] == h;
  }

  lemma ShapeKept(r: Ring, second: int, elapsed: int)
    requires Shape(r) && second >= 1
    ensures Shape(Recorded(r, second, elapsed))
  {
    AdvancedShape(r, second);
  }

  lemma {:induction false} AdvancedShape(r: Ring, second: int)
    requires Shape(r)
    ensures r.last > 0 ==> Shape(Advanced(r, second))
    decreases second - r.last
  {
    if 0 < r.last < second {
      AdvancedShape(Ring(r.last + 1, Push(r.requests, 0), Push(r.latencies, 0)), second);
    }
  }

  /** After every history since a reset, every slot of the ring agrees with that history. */
  lemma {:induction false} RingIsHistory(h: seq<Response>)
    requires forall i :: 0 <= i < |h| ==> h[i].second >= 1
    ensures RingOk(After(h), h)
  {
    if h != [] {
      var n := |h| - 1;
      RingIsHistory(h[..n]);
      RecordedOk(After(h[..n]), h[..n], h[n]);
      assert h[..n] + [h[n]] == h;
    }
  }

  // -------------------------------------------------------------------- the window

  function Max(a: int, b: int): int {
    if a >= b then a else b
  }

  lemma {:induction false} AdvancedWindow(r: Ring, second: int)
    requires Shape(r) && 0 < r.last <= second
    ensures First(Advanced(r, second)) == Max(First(r), second - SECONDS + 1) && Advanced(r, second).last == second
    decreases second - r.last
  {
    if r.last < second {
      AdvancedWindow(Ring(r.last + 1, Push(r.requests, 0), Push(r.latencies, 0)), second);
    }
  }

  /**
    No slot leaves before it is 60 seconds old: a counted response moves the end of the window to its second,
    if that is later, and the start only as far as the 60 slots demand.  A response 60 seconds or more
    after the last one, like the first one, starts the window afresh.
  */
  lemma {:induction false} RecordedWindow(r: Ring, second: int, elapsed: int)
    requires Shape(r) && second >= 1
    ensures var s := Recorded(r, second, elapsed);
            if elapsed < 0 then s == r
            else if r.last == 0 || second >= r.last + SECONDS then s == Ring(second, [1], [elapsed])
            else s.last == Max(r.last, second) && First(s) == Max(First(r), second - SECONDS + 1)
  {
    if elapsed >= 0 && r.last > 0 && r.last < second < r.last + SECONDS {
      AdvancedWindow(r, second);
      AdvanceByOne(r, elapsed);
    }
  }

  /** The latest second in which a response was counted, or 0. */
  function Latest(h: seq<Response>): int {
    if h == [] then 0
    else
      var r := h[|h| - 1];
      if r.elapsed >= 0 then Max(Latest(h[..|h| - 1]), r.second) else Latest(h[..|h| - 1])
  }

  /** No counted response from number `from` on comes 60 seconds or more after all those before it. */
  ghost predicate NoJump(h: seq<Response>, from: nat)
    requires from <= |h|
  {
    forall i :: from <= i < |h| && h[i].elapsed >= 0 ==> h[i].second < Latest(h[..i]) + SECONDS
  }

  /** Response `k` of the history opened the window: the first counted one, or the last after a jump. */
  ghost predicate Opens(h: seq<Response>, k: nat)
    requires k < |h|
  {
    && h[k].elapsed >= 0 && (Latest(h[..k]) == 0 || h[k].second >= Latest(h[..k]) + SECONDS)
    && NoJump(h, k + 1)
  }

  lemma {:induction false} OpensMore(g: seq<Response>, x: Response, k: nat)
    requires k <= |g|
    ensures var h := g + [x];
            if k < |g| then Opens(h, k) <==> Opens(g, k) && (x.elapsed >= 0 ==> x.second < Latest(g) + SECONDS)
            else Opens(h, k) <==> x.elapsed >= 0 && (Latest(g) == 0 || x.second >= Latest(g) + SECONDS)
  {
    hide Latest;
    var h := g + [x];
    assert h[..|g|] == g;
    assert forall i :: 0 <= i < |g| ==> h[..i] == g[..i] && h[i] == g[i];
  }

  lemma {:induction false} LatestIs(h: seq<Response>, k: nat)
    requires k < |h| && h[k].elapsed >= 0
    ensures Latest(h) >= h[k].second
  {
    if k < |h| - 1 {
      LatestIs(h[..|h| - 1], k);
    }
  }

  /**
    The window, from the history alone: it ends with the latest second counted, and starts with the second of
    the response that opened it, or 59 seconds before its end if that is later.
  */
  lemma {:induction false} WindowIs(h: seq<Response>)
    requires forall i :: 0 <= i < |h| ==> h[i].second >= 1
    ensures After(h).last == Latest(h)
    ensures Latest(h) > 0 ==>
              exists k :: 0 <= k < |h| && Opens(h, k) && First(After(h)) == Max(h[k].second, Latest(h) - SECONDS + 1)
  {
    if h != [] {
      var n := |h| - 1;
      var g, x := h[..n], h[n];
      WindowIs(g);
      RecordedWindow(After(g), x.second, x.elapsed);
      assert After(h) == Recorded(After(g), x.second, x.elapsed) && g + [x] == h;
      assert Latest(h) == if x.elapsed >= 0 then Max(Latest(g), x.second) else Latest(g);
      hide Recorded, Latest, After, Opens;
      OpensMore(g, x, n);
      if !Opens(h, n) && Latest(g) > 0 {
        var k :| 0 <= k < n && Opens(g, k) && First(After(g)) == Max(g[k].second, Latest(g) - SECONDS + 1);
        OpensMore(g, x, k);
        assert h[k] == g[k] && Opens(h, k);
      }
    }
  }

  /** There is only one such response. */
  lemma {:induction false} OneOpens(h: seq<Response>, k: nat, l: nat)
    requires (forall i :: 0 <= i < |h| ==> h[i].second >= 1) && k < l < |h|
    ensures !(Opens(h, k) && Opens(h, l))
  {
    hide Latest;
    if Opens(h, k) && Opens(h, l) {
      LatestIs(h[..l], k);
    }
  }

  // ------------------------------------------------------------------- the class

  class Stat {
    var lastSecond: int
    var requests: seq<int>
    var latencies: seq<int>
    var totalResponses: int
    var totalSolved: int
    var totalLatency: int
    var badLatency: int
    ghost var history: seq<Response>

    ghost function Value(): Ring
      reads this
    {
      Ring(lastSecond, requests, latencies)
    }

    /** The ring and the totals are those of the history since the last reset. */
    ghost predicate Valid()
      reads this
    {
      && (forall i :: 0 <= i < |history| ==> history[i].second >= 1) && Value() == After(history)
      && RingOk(Value(), history) && TotalsOk(history, totalResponses, totalSolved, totalLatency, badLatency)
    }

    constructor ()
      ensures Valid() && history == []
    {
      lastSecond, requests, latencies := 0, [], [];
      totalResponses, totalSolved, totalLatency, badLatency := 0, 0, 0, 0;
      history := [];
    }

    method Reset()
      modifies this
      ensures Valid() && history == []
    {
      lastSecond := 0;
      requests := [];
      latencies := [];
      totalResponses := 0;
      totalSolved := 0;
      totalLatency := 0;
      badLatency := 0;
      history := [];
    }

    method RecordResponse(second: int, elapsed: int, solved: bool)
      requires Valid() && second >= 1
      modifies this
      ensures Valid() && history == old(history) + [Response(second, elapsed, solved)]
      ensures Value() == Recorded(old(Value()), second, elapsed)
    {
      ghost var x := Response(second, elapsed, solved);
      hide RingOk, TotalsOk, Recorded, After;
      RecordedOk(Value(), history, x);
      TotalsMore(history, totalResponses, totalSolved, totalLatency, badLatency, x);
      ShapeOf(Value(), history);
      BadIsNotRecorded(Value(), second, elapsed);
      AfterMore(history, x);
      history := history + [x];
      totalResponses := totalResponses + 1;
      if solved {
        totalSolved := totalSolved + 1;
      }
      if elapsed < 0 {
        badLatency := badLatency + 1;
        return;
      }
      totalLatency := totalLatency + elapsed;
      Slide(second, elapsed);
    }

    /** Find, or make, the slot of the second and count in it. */
    method Slide(second: int, elapsed: int)
      requires Shape(Value()) && second >= 1 && elapsed >= 0
      modifies this`lastSecond, this`requests, this`latencies
      ensures Value() == Recorded(old(Value()), second, elapsed)
    {
      var firstSecond := lastSecond - |requests| + 1;
      if lastSecond == second {
        Count(|requests| - 1, elapsed);
      } else if lastSecond + 1 == second || lastSecond == 0 {
        lastSecond := second;
        requests := Push(requests, 1);
        latencies := Push(latencies, elapsed);
      } else if second > lastSecond {
        if second < lastSecond + SECONDS {
          while lastSecond < second
            invariant |requests| == |latencies| && lastSecond <= second
            invariant lastSecond > old(lastSecond) ==> |requests| > 0
            invariant Advanced(Value(), second) == Advanced(old(Value()), second)
          {
            requests := Push(requests, 0);
            latencies := Push(latencies, 0);
            lastSecond := lastSecond + 1;
          }
        } else {
          requests := [0];
          latencies := [0];
          lastSecond := second;
        }
        Count(|requests| - 1, elapsed);
      } else if second >= firstSecond {
        Count(second - firstSecond, elapsed);
      }
    }

    method Count(i: int, elapsed: int)
      requires 0 <= i < |requests| == |latencies|
      modifies this`requests, this`latencies
      ensures Value() == Bumped(old(Value()), i, elapsed)
    {
      requests := requests[i := requests[i] + 1];
      latencies := latencies[i := latencies[i] + elapsed];
    }
  }
}
