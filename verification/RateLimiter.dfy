/** The sliding-window limiter, with its clock and its sleep as an injected object. */
module RateLimiter {
  /** `monotonic` never goes back; `sleep` advances it at least as far as asked. How far it
      moves beyond that, call by call, is any function `drift`. */
  class Clock {
    const drift: nat -> real
    var calls: nat
    var time: real

    constructor (time: real, drift: nat -> real)
      ensures this.time == time
    {
      this.time, this.drift, calls := time, drift, 0;
    }

    method Advance(atLeast: real)
      requires atLeast >= 0.0
      modifies this
      ensures time >= old(time) + atLeast
    {
      var d := drift(calls);
      time := time + atLeast + if d < 0.0 then 0.0 else d;
      calls := calls + 1;
    }

    method Monotonic() returns (now: real)
      modifies this
      ensures now == time >= old(time)
    {
      Advance(0.0);
      now := time;
    }

    method Sleep(seconds: real)
      requires seconds > 0.0
      modifies this
      ensures time >= old(time) + seconds
    {
      Advance(seconds);
    }
  }

  /** The list comprehension `[t for t in recent if now - t < window]`. */
  function Pruned(recent: seq<real>, now: real, window: real): seq<real> {
    if recent == [] then []
    else
      var rest := Pruned(recent[1..], now, window);
      if now - recent[0] < window then [recent[0]] + rest else rest
  }

  predicate Ordered(ts: seq<real>) {
    forall i, j :: 0 <= i < j < |ts| ==> ts[i] <= ts[j]
  }

  /** Acquisitions `limit` apart in the history are at least a window apart in time. */
  predicate Spaced(history: seq<real>, limit: nat, window: real) {
    forall k :: 0 <= k && k + limit < |history| ==> history[k + limit] - history[k] >= window
  }

  predicate AllBefore(ts: seq<real>, t: real) {
    forall i :: 0 <= i < |ts| ==> ts[i] <= t
  }

  /** `recent` is a suffix of the history and everything cut off is a window before `now`. */
  ghost predicate Tail(history: seq<real>, recent: seq<real>, now: real, window: real) {
    && |recent| <= |history| && recent == history[|history| - |recent|..]
    && forall i :: 0 <= i < |history| - |recent| ==> now - history[i] >= window
  }

  lemma {:induction false} PrunedKeepsYoung(recent: seq<real>, now: real, window: real)
    requires forall i :: 0 <= i < |recent| ==> now - recent[i] < window
    ensures Pruned(recent, now, window) == recent
  {
    if recent != [] {
      PrunedKeepsYoung(recent[1..], now, window);
      assert recent == [recent[0]] + recent[1..];
    }
  }

  /** `r` is what is left of `recent` after cutting every entry a window old. */
  ghost predicate YoungSuffix(recent: seq<real>, r: seq<real>, now: real, window: real) {
    && |r| <= |recent| && r == recent[|recent| - |r|..]
    && (forall i :: 0 <= i < |recent| - |r| ==> now - recent[i] >= window)
    && (forall i :: 0 <= i < |r| ==> now - r[i] < window)
  }

  /** On an ordered list pruning keeps a suffix. */
  lemma {:induction false} PrunedIsSuffix(recent: seq<real>, now: real, window: real)
    requires Ordered(recent)
    ensures YoungSuffix(recent, Pruned(recent, now, window), now, window)
  {
    if recent != [] {
      if now - recent[0] < window {
        PrunedKeepsYoung(recent, now, window);
      } else {
        var tail, r := recent[1..], Pruned(recent, now, window);
        PrunedIsSuffix(tail, now, window);
        assert recent[|recent| - |r|..] == tail[|tail| - |r|..];
        forall i | 0 <= i < |recent| - |r| ensures now - recent[i] >= window {
          if i > 0 { assert tail[i - 1] == recent[i]; }
        }
      }
    }
  }

  lemma SuffixOfSuffix(history: seq<real>, recent: seq<real>, r: seq<real>)
    requires |r| <= |recent| <= |history|
    requires recent == history[|history| - |recent|..] && r == recent[|recent| - |r|..]
    ensures r == history[|history| - |r|..]
  {
  }

  /** Pruning again at a later time keeps the tail of the same history. */
  lemma PruneKeepsTail(history: seq<real>, recent: seq<real>, before: real, now: real, window: real)
    requires Ordered(history) && before <= now && Tail(history, recent, before, window)
    ensures Tail(history, Pruned(recent, now, window), now, window)
    ensures Ordered(Pruned(recent, now, window))
  {
    var r := Pruned(recent, now, window);
    var cut := |history| - |recent|;
    TailOrdered(history, recent, before, window);
    PrunedIsSuffix(recent, now, window);
    SuffixOfSuffix(history, recent, r);
    forall i | 0 <= i < |history| - |r| ensures now - history[i] >= window {
      if i >= cut {
        assert recent[i - cut] == history[i];
      }
    }
    TailOrdered(history, r, now, window);
  }

  /** Although only the pruned list is looked at, appending when it is shorter than the limit
      keeps the whole history spaced. */
  lemma AppendKeepsSpaced(history: seq<real>, recent: seq<real>, now: real, limit: nat, window: real)
    requires limit >= 1 && Ordered(history) && Spaced(history, limit, window) && AllBefore(history, now)
    requires Tail(history, recent, now, window) && |recent| < limit
    ensures Ordered(history + [now]) && Spaced(history + [now], limit, window)
  {
    var h := history + [now];
    forall k | 0 <= k && k + limit < |h| ensures h[k + limit] - h[k] >= window {
      if k + limit == |history| {
        assert k < |history| - |recent|;
      }
    }
  }

  /** A list longer than the limit reaches back a whole window. */
  lemma LongTailIsOld(history: seq<real>, recent: seq<real>, now: real, limit: nat, window: real)
    requires limit >= 1 && Spaced(history, limit, window) && AllBefore(history, now)
    requires Tail(history, recent, now, window)
    ensures |recent| > limit ==> now - recent[0] >= window
  {
    if |recent| > limit {
      var first := |history| - |recent|;
      assert recent[0] == history[first];
      assert history[first + limit] - history[first] >= window;
    }
  }

  class Limiter {
    const limit: nat
    const window: real
    const clock: Clock
    var recent: seq<real>

    /** Every acquisition ever made. */
    ghost var history: seq<real>

    constructor (limit: nat, window: real, clock: Clock)
      requires limit >= 1
      ensures Valid() && history == [] && this.limit == limit && this.window == window && this.clock == clock
    {
      this.limit, this.window, this.clock := limit, window, clock;
      recent, history := [], [];
    }

    ghost predicate Valid()
      reads this, clock
    {
      && limit >= 1
      && Ordered(history) && Spaced(history, limit, window) && AllBefore(history, clock.time)
      && Tail(history, recent, clock.time, window)
    }

    /** Records one acquisition at the time it returns. It sleeps only when the window is full,
        and then for no more than a window. */
    method Acquire() returns (slept: real)
      requires Valid()
      modifies `recent, `history, clock
      ensures Valid()
      ensures history == old(history) + [clock.time]
      ensures 0.0 <= slept && (slept > 0.0 ==> slept <= window)
      ensures slept > 0.0 ==>
        exists t :: old(clock.time) <= t && t + slept <= clock.time && |Pruned(old(recent), t, window)| == limit
    {
      ghost var before := recent;
      var now := Observe();
      ghost var seen := now;
      now, slept := MakeRoom(now);
      assert slept > 0.0 ==> |Pruned(before, seen, window)| == limit;
      Record(now);
    }

    method Record(now: real)
      requires Valid() && now == clock.time && |recent| < limit
      modifies `recent, `history
      ensures Valid() && history == old(history) + [now]
    {
      AppendKeepsSpaced(history, recent, now, limit, window);
      recent := recent + [now];
      history := history + [now];
    }

    /** Reads the clock and drops the entries that have left the window. */
    method Observe() returns (now: real)
      requires Valid()
      modifies `recent, clock
      ensures Valid() && now == clock.time >= old(clock.time) && |recent| <= limit
      ensures recent == Pruned(old(recent), now, window)
      ensures forall i :: 0 <= i < |recent| ==> now - recent[i] < window
    {
      ghost var start := clock.time;
      now := clock.Monotonic();
      PruneKeepsTail(history, recent, start, now, window);
      TailOrdered(history, recent, start, window);
      PrunedIsSuffix(recent, now, window);
      recent := Pruned(recent, now, window);
      LongTailIsOld(history, recent, now, limit, window);
    }

    /** With a full window, sleeps out what is left of its oldest entry and prunes again. */
    method MakeRoom(at: real) returns (now: real, slept: real)
      requires Valid() && at == clock.time && |recent| <= limit
      requires forall i :: 0 <= i < |recent| ==> at - recent[i] < window
      modifies `recent, clock
      ensures Valid() && now == clock.time && |recent| < limit
      ensures 0.0 <= slept && now >= at + slept
      ensures slept > 0.0 ==> slept <= window && |old(recent)| == limit
    {
      now, slept := at, 0.0;
      if |recent| >= limit {
        TailIsOrdered(history, recent, now, window);
        var wait := window - (now - recent[0]);
        if wait > 0.0 {
          clock.Sleep(wait);
          slept := wait;
          ghost var oldest := recent[0];
          now := clock.Monotonic();
          PruneKeepsTail(history, recent, at, now, window);
          OldestLeaves(recent, now, window);
          recent := Pruned(recent, now, window);
        }
      }
    }
  }

  lemma TailOrdered(history: seq<real>, recent: seq<real>, now: real, window: real)
    requires Tail(history, recent, now, window) && Ordered(history)
    ensures Ordered(recent)
  {
  }

  lemma TailIsOrdered(history: seq<real>, recent: seq<real>, now: real, window: real)
    requires Tail(history, recent, now, window) && recent != [] && AllBefore(history, now) && Ordered(history)
    ensures Ordered(recent) && recent[0] <= now
  {
    assert recent[0] == history[|history| - |recent|];
  }

  /** Once the oldest entry is a window old, pruning drops at least it. */
  lemma OldestLeaves(recent: seq<real>, now: real, window: real)
    requires recent != [] && Ordered(recent) && now - recent[0] >= window
    ensures |Pruned(recent, now, window)| < |recent|
  {
    PrunedIsSuffix(recent, now, window);
  }

  /** So no window, wherever it starts, holds more than `limit` acquisitions. */
  lemma AtMostLimitInAnyWindow(history: seq<real>, limit: nat, window: real, start: real, i: nat, j: nat)
    requires limit >= 1 && Ordered(history) && Spaced(history, limit, window)
    requires i <= j < |history|
    ensures start <= history[i] && history[j] < start + window ==> j - i + 1 <= limit
  {
    if j - i >= limit {
      assert history[i + limit] - history[i] >= window;
      assert history[i + limit] <= history[j];
    }
  }
}
