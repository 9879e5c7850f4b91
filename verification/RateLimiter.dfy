/** The sliding-window limiter of requests per identity. */
module RateLimiter {
  import opened Basics

  datatype Verdict = Verdict(bucket: seq<real>, allowed: bool, retryAfter: int)

  // ---------------------------------------------------------------- specification

  /** The times after the cutoff, oldest first. */
  function Pruned(bucket: seq<real>, cutoff: real): seq<real> {
    if bucket != [] && bucket[0] <= cutoff then Pruned(bucket[1..], cutoff) else bucket
  }

  /** One check of an identity's bucket; a limit of zero or less is no limit. */
  function Check(bucket: seq<real>, window: real, limit: int, now: real): Verdict {
    if limit <= 0 then Verdict(bucket, true, 0)
    else
      var recent := Pruned(bucket, now - window);
      if |recent| < limit then Verdict(recent + [now], true, 0)
      else Verdict(recent, false, Max(1, (recent[0] + window - now).Floor + 1))
  }

  // ---------------------------------------------------------------- the class

  class Limiter {
    const window: real
    var buckets: map<string, seq<real>>

    constructor (window: real)
      ensures this.window == window && buckets == map[]
    {
      this.window := window;
      buckets := map[];
    }

    function BucketOf(identity: string): seq<real>
      reads this
    {
      if identity in buckets then buckets[identity] else []
    }

    /** Whether a request at time now may pass, and else when to come back. */
    method CheckRequest(identity: string, limit: int, now: real) returns (allowed: bool, retryAfter: int)
      modifies this
      ensures Verdict(BucketOf(identity), allowed, retryAfter) == Check(old(BucketOf(identity)), window, limit, now)
      ensures forall other :: other != identity ==> BucketOf(other) == old(BucketOf(other))
      ensures limit <= 0 ==> allowed && buckets == old(buckets)
      ensures allowed <==> retryAfter == 0
    {
      if limit <= 0 { return true, 0; }
      var cutoff := now - window;
      var bucket := BucketOf(identity);
      ghost var before := bucket;
      while bucket != [] && bucket[0] <= cutoff
        invariant Pruned(bucket, cutoff) == Pruned(before, cutoff)
        decreases |bucket|
      {
        bucket := bucket[1..];
      }
      if |bucket| < limit {
        buckets := buckets[identity := bucket + [now]];
        return true, 0;
      }
      buckets := buckets[identity := bucket];
      retryAfter := Max(1, (bucket[0] + window - now).Floor + 1);
      allowed := false;
    }
  }

  // ---------------------------------------------------------------- runs

  datatype Call = Call(identity: string, limit: int, now: real)

  /** An identity's bucket after some calls. */
  function BucketAfter(calls: seq<Call>, window: real, identity: string): seq<real> {
    if calls == [] then []
    else
      var before, last := BucketAfter(calls[..|calls| - 1], window, identity), calls[|calls| - 1];
      if last.identity == identity then Check(before, window, last.limit, last.now).bucket else before
  }

  /** When its limited requests were admitted. */
  function Admitted(calls: seq<Call>, window: real, identity: string): seq<real> {
    if calls == [] then []
    else
      var front, last := calls[..|calls| - 1], calls[|calls| - 1];
      Admitted(front, window, identity) +
      if last.identity == identity && last.limit > 0
         && Check(BucketAfter(front, window, identity), window, last.limit, last.now).allowed
      then [last.now] else []
  }

  /** The times never run back in the order in which the calls take the lock. */
  ghost predicate Monotone(calls: seq<Call>) {
    forall i, j :: 0 <= i < j < |calls| ==> calls[i].now <= calls[j].now
  }

  /** No call's time is more than skew before that of a call that took the lock earlier. */
  ghost predicate Skewed(calls: seq<Call>, skew: real) {
    forall i, j :: 0 <= i < j < |calls| ==> calls[i].now - skew <= calls[j].now
  }

  /** How many of the times lie in the window that ends at t. */
  function InWindow(times: seq<real>, window: real, t: real): nat {
    if times == [] then 0
    else InWindow(times[..|times| - 1], window, t) +
         if t - window < times[|times| - 1] <= t then 1 else 0
  }

  ghost predicate Ascending(times: seq<real>) {
    forall i, j :: 0 <= i < j < |times| ==> times[i] <= times[j]
  }

  ghost predicate AllUpTo(times: seq<real>, t: real) {
    forall i :: 0 <= i < |times| ==> times[i] <= t
  }

  ghost predicate AllAfter(times: seq<real>, t: real) {
    forall i :: 0 <= i < |times| ==> times[i] > t
  }

  /** The bucket is what is left of the admissions after old ones have been dropped. */
  ghost predicate Remains(bucket: seq<real>, times: seq<real>, cutoff: real) {
    |bucket| <= |times| && bucket == times[|times| - |bucket|..] && AllUpTo(times[..|times| - |bucket|], cutoff)
  }

  lemma AscendingTail(times: seq<real>, from: nat)
    requires Ascending(times) && from <= |times|
    ensures Ascending(times[from..])
  {
  }

  lemma RemainsWhole(bucket: seq<real>, cutoff: real)
    ensures Remains(bucket, bucket, cutoff)
  {
  }

  lemma RemainsOneMore(kept: seq<real>, bucket: seq<real>, cutoff: real)
    requires bucket != [] && bucket[0] <= cutoff && Remains(kept, bucket[1..], cutoff)
    ensures Remains(kept, bucket, cutoff)
  {
    var rest, n := bucket[1..], |kept|;
    assert bucket[..|bucket| - n] == [bucket[0]] + rest[..|rest| - n];
    assert bucket[|bucket| - n..] == rest[|rest| - n..];
  }

  lemma {:induction false} PrunedRemains(bucket: seq<real>, cutoff: real)
    ensures Remains(Pruned(bucket, cutoff), bucket, cutoff)
  {
    hide Remains;
    if bucket != [] && bucket[0] <= cutoff {
      PrunedRemains(bucket[1..], cutoff);
      RemainsOneMore(Pruned(bucket[1..], cutoff), bucket, cutoff);
    } else {
      RemainsWhole(bucket, cutoff);
    }
  }

  lemma {:induction false} PrunedAfter(bucket: seq<real>, cutoff: real)
    requires Ascending(bucket)
    ensures AllAfter(Pruned(bucket, cutoff), cutoff)
  {
    if bucket != [] && bucket[0] <= cutoff {
      hide Ascending, AllAfter;
      AscendingTail(bucket, 1);
      PrunedAfter(bucket[1..], cutoff);
    }
  }

  lemma UpToJoin(a: seq<real>, b: seq<real>, t: real)
    requires AllUpTo(a, t) && AllUpTo(b, t)
    ensures AllUpTo(a + b, t)
  {
  }

  /** Pruning keeps the bucket what remains, up to the later of the two cutoffs. */
  lemma RemainsPruned(bucket: seq<real>, times: seq<real>, earlier: real, cutoff: real, bound: real)
    requires Remains(bucket, times, earlier) && earlier <= bound && cutoff <= bound
    ensures Remains(Pruned(bucket, cutoff), times, bound)
  {
    hide Pruned, AllUpTo;
    PrunedRemains(bucket, cutoff);
    var gone, kept := |times| - |bucket|, |Pruned(bucket, cutoff)|;
    UpToLater(times[..gone], earlier, bound);
    UpToLater(bucket[..|bucket| - kept], cutoff, bound);
    UpToJoin(times[..gone], bucket[..|bucket| - kept], bound);
    SuffixOfSuffix(times, bucket, gone, kept);
  }

  lemma RemainsChain(bucket: seq<real>, times: seq<real>, earlier: real, cutoff: real)
    requires Remains(bucket, times, earlier) && Ascending(times) && earlier <= cutoff
    ensures Remains(Pruned(bucket, cutoff), times, cutoff) && AllAfter(Pruned(bucket, cutoff), cutoff)
  {
    assert bucket == times[|times| - |bucket|..];
    hide Pruned, Ascending, AllAfter, Remains;
    AscendingTail(times, |times| - |bucket|);
    RemainsPruned(bucket, times, earlier, cutoff, cutoff);
    PrunedAfter(bucket, cutoff);
  }

  lemma SuffixOfSuffix(times: seq<real>, bucket: seq<real>, gone: nat, kept: nat)
    requires kept <= |bucket| && gone + |bucket| == |times| && bucket == times[gone..]
    ensures bucket[|bucket| - kept..] == times[|times| - kept..]
    ensures times[..|times| - kept] == times[..gone] + bucket[..|bucket| - kept]
  {
  }

  lemma {:induction false} WindowJoin(a: seq<real>, b: seq<real>, window: real, t: real)
    ensures InWindow(a + b, window, t) == InWindow(a, window, t) + InWindow(b, window, t)
    decreases |b|
  {
    if b == [] {
      assert a + b == a;
    } else {
      assert (a + b)[..|a + b| - 1] == a + b[..|b| - 1];
      WindowJoin(a, b[..|b| - 1], window, t);
    }
  }

  lemma {:induction false} WindowAll(times: seq<real>, window: real, t: real)
    ensures AllUpTo(times, t - window) ==> InWindow(times, window, t) == 0
    ensures AllAfter(times, t - window) && AllUpTo(times, t) ==> InWindow(times, window, t) == |times|
    ensures InWindow(times, window, t) <= |times|
  {
    if times != [] { WindowAll(times[..|times| - 1], window, t); }
  }

  /** What the pruned bucket counts: the admissions in the window that ends now. */
  lemma PrunedCounts(recent: seq<real>, times: seq<real>, window: real, now: real)
    requires Remains(recent, times, now - window) && AllAfter(recent, now - window) && AllUpTo(times, now)
    ensures |recent| == InWindow(times, window, now)
  {
    var gone := |times| - |recent|;
    assert times == times[..gone] + recent;
    forall i | 0 <= i < |recent| ensures recent[i] <= now { assert recent[i] == times[gone + i]; }
    WindowJoin(times[..gone], recent, window, now);
    WindowAll(times[..gone], window, now);
    WindowAll(recent, window, now);
  }

  /** The time of the last call, or any earlier time without one. */
  ghost predicate Reaches(calls: seq<Call>, now: real) {
    forall i :: 0 <= i < |calls| ==> calls[i].now <= now
  }

  lemma MonotoneFront(calls: seq<Call>)
    requires Monotone(calls) && calls != []
    ensures Monotone(calls[..|calls| - 1]) && Reaches(calls[..|calls| - 1], calls[|calls| - 1].now)
    ensures Reaches(calls, calls[|calls| - 1].now)
  {
    var front, last := calls[..|calls| - 1], calls[|calls| - 1];
    forall i | 0 <= i < |calls| ensures calls[i].now <= last.now {
      assert i == |calls| - 1 || calls[i].now <= calls[|calls| - 1].now;
    }
  }

  lemma AscendingPut(times: seq<real>, now: real)
    requires Ascending(times) && AllUpTo(times, now)
    ensures Ascending(times + [now]) && AllUpTo(times + [now], now)
  {
  }

  lemma RemainsLater(bucket: seq<real>, times: seq<real>, earlier: real, cutoff: real)
    requires Remains(bucket, times, earlier) && earlier <= cutoff
    ensures Remains(bucket, times, cutoff)
  {
  }

  lemma UpToLater(times: seq<real>, earlier: real, now: real)
    requires AllUpTo(times, earlier) && earlier <= now
    ensures AllUpTo(times, now)
  {
  }

  lemma RemainsPut(bucket: seq<real>, times: seq<real>, cutoff: real, now: real)
    requires Remains(bucket, times, cutoff)
    ensures Remains(bucket + [now], times + [now], cutoff)
  {
    var gone := |times| - |bucket|;
    assert (times + [now])[gone..] == times[gone..] + [now];
    assert (times + [now])[..gone] == times[..gone];
  }

  /** In every run the bucket holds the latest admissions, all that are still in a window
      ending now or later. */
  lemma {:induction false} BucketRemains(calls: seq<Call>, window: real, identity: string, now: real)
    requires Monotone(calls) && Reaches(calls, now) && window > 0.0
    ensures var times := Admitted(calls, window, identity);
            Ascending(times) && AllUpTo(times, now)
              && Remains(BucketAfter(calls, window, identity), times, now - window)
  {
    hide *;
    if calls == [] {
      NothingYet(window, identity, now);
    } else {
      var front, last := calls[..|calls| - 1], calls[|calls| - 1];
      MonotoneFront(calls);
      LastReached(calls, now);
      BucketRemains(front, window, identity, last.now);
      CallKeeps(BucketAfter(front, window, identity), Admitted(front, window, identity), last, window, identity);
      AfterLast(calls, window, identity);
      RemainsLater(BucketAfter(calls, window, identity), Admitted(calls, window, identity), last.now - window,
        now - window);
      UpToLater(Admitted(calls, window, identity), last.now, now);
    }
  }

  lemma NothingYet(window: real, identity: string, now: real)
    ensures var times := Admitted([], window, identity);
            Ascending(times) && AllUpTo(times, now) && Remains(BucketAfter([], window, identity), times, now - window)
  {
  }

  lemma LastReached(calls: seq<Call>, now: real)
    requires Reaches(calls, now) && calls != []
    ensures calls[|calls| - 1].now <= now
  {
  }

  lemma AfterLast(calls: seq<Call>, window: real, identity: string)
    requires calls != []
    ensures var front, last := calls[..|calls| - 1], calls[|calls| - 1];
            var before := BucketAfter(front, window, identity);
            && BucketAfter(calls, window, identity) ==
               (if last.identity == identity then Check(before, window, last.limit, last.now).bucket else before)
            && Admitted(calls, window, identity) == Admitted(front, window, identity) +
               if last.identity == identity && last.limit > 0 && Check(before, window, last.limit, last.now).allowed
               then [last.now] else []
  {
  }

  lemma CallKeeps(before: seq<real>, times: seq<real>, call: Call, window: real, identity: string)
    requires Ascending(times) && AllUpTo(times, call.now) && Remains(before, times, call.now - window)
    ensures var verdict := Check(before, window, call.limit, call.now);
            var mine := call.identity == identity;
            var after := times + if mine && call.limit > 0 && verdict.allowed then [call.now] else [];
            && Ascending(after) && AllUpTo(after, call.now)
            && Remains(if mine then verdict.bucket else before, after, call.now - window)
  {
    hide Ascending, AllUpTo, Remains, Pruned;
    assert times + [] == times;
    if call.identity == identity && call.limit > 0 {
      RemainsChain(before, times, call.now - window, call.now - window);
      AscendingPut(times, call.now);
      RemainsPut(Pruned(before, call.now - window), times, call.now - window, call.now);
    }
  }

  // ---------------------------------------------------------------- what is admitted

  /** A limited request is admitted exactly when fewer than the limit were admitted in
      the window that ends with it. */
  lemma AdmittedExactlyBelowLimit(calls: seq<Call>, window: real, identity: string, limit: int, now: real)
    requires Monotone(calls) && Reaches(calls, now) && window > 0.0 && limit > 0
    ensures Check(BucketAfter(calls, window, identity), window, limit, now).allowed <==>
            InWindow(Admitted(calls, window, identity), window, now) < limit
  {
    hide Ascending, AllUpTo, Remains, AllAfter, Monotone, Reaches, BucketAfter, Admitted, InWindow, Pruned;
    BucketRemains(calls, window, identity, now);
    var bucket, times := BucketAfter(calls, window, identity), Admitted(calls, window, identity);
    RemainsChain(bucket, times, now - window, now - window);
    PrunedCounts(Pruned(bucket, now - window), times, window, now);
  }

  lemma CheckAllows(bucket: seq<real>, window: real, limit: int, now: real)
    ensures limit > 0 ==> (Check(bucket, window, limit, now).allowed <==> |Pruned(bucket, now - window)| < limit)
  {
  }

  /** The identity is always checked against one limit. */
  ghost predicate FixedLimit(calls: seq<Call>, identity: string, limit: int) {
    forall i :: 0 <= i < |calls| && calls[i].identity == identity ==> calls[i].limit == limit
  }

  /** Every call so far is at most skew later than t. */
  ghost predicate NearlyReaches(calls: seq<Call>, skew: real, t: real) {
    forall i :: 0 <= i < |calls| ==> calls[i].now - skew <= t
  }

  lemma SkewedFront(calls: seq<Call>, skew: real, t: real)
    requires calls != [] && Skewed(calls, skew)
    ensures var front, last := calls[..|calls| - 1], calls[|calls| - 1];
            && Skewed(front, skew) && NearlyReaches(front, skew, last.now)
            && (NearlyReaches(calls, skew, t) ==> NearlyReaches(front, skew, t) && last.now - skew <= t)
  {
  }

  /** With times out of order by at most skew, what has left the bucket is older than a
      window, but for the skew. */
  lemma {:induction false} BucketNearlyRemains(calls: seq<Call>, window: real, identity: string, skew: real, t: real)
    requires Skewed(calls, skew) && NearlyReaches(calls, skew, t)
    ensures Remains(BucketAfter(calls, window, identity), Admitted(calls, window, identity), t - window + skew)
  {
    hide *;
    if calls == [] {
      NothingYet(window, identity, t + skew);
      assert t + skew - window == t - window + skew;
    } else {
      var front, last := calls[..|calls| - 1], calls[|calls| - 1];
      SkewedFront(calls, skew, t);
      BucketNearlyRemains(front, window, identity, skew, t);
      AfterLast(calls, window, identity);
      CallNearlyKeeps(BucketAfter(front, window, identity), Admitted(front, window, identity), last, window, identity,
                      t - window + skew);
    }
  }

  lemma CallNearlyKeeps(before: seq<real>, times: seq<real>, call: Call, window: real, identity: string, cutoff: real)
    requires Remains(before, times, cutoff) && call.now - window <= cutoff
    ensures var verdict := Check(before, window, call.limit, call.now);
            var mine := call.identity == identity;
            Remains(if mine then verdict.bucket else before,
                    times + if mine && call.limit > 0 && verdict.allowed then [call.now] else [], cutoff)
  {
    hide Remains, Pruned;
    assert times + [] == times;
    if call.identity == identity && call.limit > 0 {
      RemainsPruned(before, times, cutoff, call.now - window, cutoff);
      RemainsPut(Pruned(before, call.now - window), times, cutoff, call.now);
    }
  }

  /** Admissions with limit others or more from one to the other, in the order of the lock,
      are at least gap apart. */
  ghost predicate Apart(times: seq<real>, limit: nat, gap: real) {
    forall i, j :: 0 <= i && i + limit <= j < |times| ==> times[i] + gap <= times[j]
  }

  lemma ApartPut(bucket: seq<real>, times: seq<real>, limit: nat, gap: real, now: real)
    requires Apart(times, limit, gap) && Remains(bucket, times, now - gap) && |bucket| < limit
    ensures Apart(times + [now], limit, gap)
  {
    var grown := times + [now];
    forall i, j | 0 <= i && i + limit <= j < |grown| ensures grown[i] + gap <= grown[j] {
      if j == |times| { assert times[..|times| - |bucket|][i] <= now - gap; }
    }
  }

  lemma CallApart(bucket: seq<real>, times: seq<real>, call: Call, window: real, limit: nat, skew: real)
    requires Remains(bucket, times, call.now - window + skew) && skew >= 0.0
    requires Apart(times, limit, window - skew) && call.limit == limit > 0
    ensures Apart(times + if Check(bucket, window, limit, call.now).allowed then [call.now] else [],
                  limit, window - skew)
  {
    hide Remains, Pruned, Apart;
    var cutoff := call.now - window + skew;
    RemainsPruned(bucket, times, cutoff, call.now - window, cutoff);
    assert times + [] == times && cutoff == call.now - (window - skew);
    if |Pruned(bucket, call.now - window)| < limit {
      ApartPut(Pruned(bucket, call.now - window), times, limit, window - skew, call.now);
    }
  }

  lemma FixedFront(calls: seq<Call>, identity: string, limit: int)
    requires FixedLimit(calls, identity, limit) && calls != []
    ensures var last := calls[|calls| - 1];
            FixedLimit(calls[..|calls| - 1], identity, limit) && (last.identity == identity ==> last.limit == limit)
  {
  }

  lemma {:induction false} RunsApart(calls: seq<Call>, window: real, identity: string, limit: nat, skew: real)
    requires Skewed(calls, skew) && FixedLimit(calls, identity, limit) && limit > 0 && skew >= 0.0
    ensures Apart(Admitted(calls, window, identity), limit, window - skew)
  {
    if calls == [] { return; }
    hide *;
    var front, last := calls[..|calls| - 1], calls[|calls| - 1];
    FixedFront(calls, identity, limit);
    SkewedFront(calls, skew, 0.0);
    RunsApart(front, window, identity, limit, skew);
    BucketNearlyRemains(front, window, identity, skew, last.now);
    AfterLast(calls, window, identity);
    var bucket, times := BucketAfter(front, window, identity), Admitted(front, window, identity);
    assert times + [] == times;
    if last.identity == identity { CallApart(bucket, times, last, window, limit, skew); }
  }

  /** The first and the last of the times in a window. */
  lemma {:induction false} WindowEnds(times: seq<real>, window: real, t: real) returns (from: nat, to: nat)
    requires InWindow(times, window, t) > 0
    ensures from <= to < |times| && t - window < times[from] <= t && t - window < times[to] <= t
    ensures InWindow(times, window, t) <= to - from + 1
  {
    var front, last := times[..|times| - 1], times[|times| - 1];
    if InWindow(front, window, t) > 0 {
      from, to := WindowEnds(front, window, t);
      if t - window < last <= t { to := |times| - 1; }
    } else {
      from, to := |times| - 1, |times| - 1;
    }
  }

  lemma ApartEnds(times: seq<real>, limit: nat, gap: real, from: nat, to: nat)
    requires Apart(times, limit, gap) && from <= to < |times| && times[to] < times[from] + gap
    ensures to < from + limit
  {
  }

  /** If times reach the lock out of order by at most skew, no window shorter than the
      limiter's by the skew ever holds more admissions than the limit. */
  lemma SkewedWindowBound(calls: seq<Call>, window: real, identity: string, limit: nat, skew: real, t: real)
    requires Skewed(calls, skew) && FixedLimit(calls, identity, limit) && limit > 0 && skew >= 0.0
    ensures InWindow(Admitted(calls, window, identity), window - skew, t) <= limit
  {
    hide Skewed, FixedLimit, Admitted, InWindow;
    var times, gap := Admitted(calls, window, identity), window - skew;
    RunsApart(calls, window, identity, limit, skew);
    if InWindow(times, gap, t) > 0 {
      var from, to := WindowEnds(times, gap, t);
      ApartEnds(times, limit, gap, from, to);
    }
  }

  lemma OneMoreCall(calls: seq<Call>, call: Call, window: real)
    requires call.limit > 0
    ensures var verdict := Check(BucketAfter(calls, window, call.identity), window, call.limit, call.now);
            && BucketAfter(calls + [call], window, call.identity) == verdict.bucket
            && Admitted(calls + [call], window, call.identity) ==
               Admitted(calls, window, call.identity) + if verdict.allowed then [call.now] else []
  {
    hide Check;
    assert (calls + [call])[..|calls + [call]| - 1] == calls;
    AfterLast(calls + [call], window, call.identity);
  }

  lemma NothingAtAll(window: real, identity: string)
    ensures BucketAfter([], window, identity) == [] && Admitted([], window, identity) == []
  {
  }

  lemma FourChecks()
    ensures Check([], 10.0, 2, 0.0) == Verdict([0.0], true, 0)
    ensures Check([0.0], 10.0, 2, 0.5) == Verdict([0.0, 0.5], true, 0)
    ensures Check([0.0, 0.5], 10.0, 2, 10.6) == Verdict([10.6], true, 0)
    ensures Check([10.6], 10.0, 2, 9.9) == Verdict([10.6, 9.9], true, 0)
  {
    assert Pruned([0.0], -9.5) == [0.0] && Pruned([10.6], -0.1) == [10.6];
    assert [0.0, 0.5][1..] == [0.5] && [0.5][1..] == [];
    assert Pruned([0.0, 0.5], 0.6) == Pruned([0.5], 0.6) == Pruned([], 0.6) == [];
  }

  /** Out of order, a window of the full length can hold more than the limit: the request
      at 10.6 takes the lock before the one at 9.9 and drops two that the latter should
      have counted. */
  lemma SkewExceedsLimit()
    ensures var calls := [Call("u", 2, 0.0), Call("u", 2, 0.5), Call("u", 2, 10.6), Call("u", 2, 9.9)];
            InWindow(Admitted(calls, 10.0, "u"), 10.0, 9.9) == 3
  {
    var a, b, c, d := Call("u", 2, 0.0), Call("u", 2, 0.5), Call("u", 2, 10.6), Call("u", 2, 9.9);
    FourChecks();
    NothingAtAll(10.0, "u");
    ThreeOfFour();
    hide *;
    OneMoreCall([], a, 10.0);
    OneMoreCall([] + [a], b, 10.0);
    OneMoreCall([] + [a] + [b], c, 10.0);
    OneMoreCall([] + [a] + [b] + [c], d, 10.0);
    assert [] + [a] + [b] + [c] + [d] == [a, b, c, d];
    assert [] + [0.0] + [0.5] + [10.6] + [9.9] == [0.0, 0.5, 10.6, 9.9];
  }

  lemma ThreeOfFour()
    ensures InWindow([0.0, 0.5, 10.6, 9.9], 10.0, 9.9) == 3
  {
    var times := [0.0, 0.5, 10.6, 9.9];
    assert times[..3] == [0.0, 0.5, 10.6] && [0.0, 0.5, 10.6][..2] == [0.0, 0.5];
    assert [0.0, 0.5][..1] == [0.0] && [0.0][..0] == [];
    assert InWindow([0.0], 10.0, 9.9) == 1;
    assert InWindow([0.0, 0.5], 10.0, 9.9) == 2;
    assert InWindow([0.0, 0.5, 10.6], 10.0, 9.9) == 2;
  }

  /** With times in order no window of the given length ever holds more admissions than the
      limit. */
  lemma WindowBound(calls: seq<Call>, window: real, identity: string, limit: nat, t: real)
    requires Monotone(calls) && FixedLimit(calls, identity, limit) && limit > 0
    ensures InWindow(Admitted(calls, window, identity), window, t) <= limit
  {
    hide FixedLimit, Admitted, InWindow;
    assert Skewed(calls, 0.0);
    SkewedWindowBound(calls, window, identity, limit, 0.0, t);
  }

  // ---------------------------------------------------------------- coming back

  lemma {:induction false} WindowShrinks(recent: seq<real>, window: real, later: real)
    requires recent != [] && recent[0] <= later - window
    ensures InWindow(recent, window, later) < |recent|
  {
    assert recent == [recent[0]] + recent[1..];
    WindowJoin([recent[0]], recent[1..], window, later);
    WindowAll(recent[1..], window, later);
    WindowAll([recent[0]], window, later);
    assert AllUpTo([recent[0]], later - window);
  }

  /** Once the oldest of the window has aged out, fewer are left in the window. */
  lemma LaterWindowSmaller(recent: seq<real>, times: seq<real>, window: real, now: real, later: real)
    requires Remains(recent, times, now - window) && recent != [] && recent[0] <= later - window && now <= later
    ensures InWindow(times, window, later) < |recent|
  {
    hide InWindow;
    var gone := |times| - |recent|;
    assert times == times[..gone] + recent;
    WindowShrinks(recent, window, later);
    UpToLater(times[..gone], now - window, later - window);
    WindowJoin(times[..gone], recent, window, later);
    WindowAll(times[..gone], window, later);
  }

  lemma HintCoversOldest(bucket: seq<real>, window: real, limit: nat, now: real, later: real)
    requires limit > 0 && !Check(bucket, window, limit, now).allowed
    requires later >= now + Check(bucket, window, limit, now).retryAfter as real
    ensures var recent := Pruned(bucket, now - window);
            |recent| >= limit && recent[0] <= later - window && now <= later
  {
    hide Pruned;
  }

  /** A refused request that comes back after the hinted wait, nothing of its identity
      having been admitted meanwhile, is admitted. */
  lemma RetrySucceeds(calls: seq<Call>, more: seq<Call>, window: real, identity: string, limit: nat, now: real,
                      later: real)
    requires limit > 0 && window > 0.0 && Monotone(calls + more) && Reaches(calls, now) && Reaches(calls + more, later)
    requires FixedLimit(calls, identity, limit)
    requires !Check(BucketAfter(calls, window, identity), window, limit, now).allowed
    requires Admitted(calls + more, window, identity) == Admitted(calls, window, identity)
    requires later >= now + Check(BucketAfter(calls, window, identity), window, limit, now).retryAfter as real
    ensures Check(BucketAfter(calls + more, window, identity), window, limit, later).allowed
  {
    MonotonePrefix(calls, more);
    var bucket, times := BucketAfter(calls, window, identity), Admitted(calls, window, identity);
    hide *;
    var recent := Pruned(bucket, now - window);
    HintCoversOldest(bucket, window, limit, now, later);
    BucketRemains(calls, window, identity, now);
    RemainsChain(bucket, times, now - window, now - window);
    PrunedCounts(recent, times, window, now);
    WindowBound(calls, window, identity, limit, now);
    LaterWindowSmaller(recent, times, window, now, later);
    AdmittedExactlyBelowLimit(calls + more, window, identity, limit, later);
  }

  lemma MonotonePrefix(calls: seq<Call>, more: seq<Call>)
    requires Monotone(calls + more)
    ensures Monotone(calls)
  {
    forall i, j | 0 <= i < j < |calls| ensures calls[i].now <= calls[j].now {
      assert (calls + more)[i].now <= (calls + more)[j].now;
    }
  }

  /** With any limits, a retry is admitted exactly when all but limit - 1 of the requests
      in the bucket have aged out. */
  lemma RetryAdmittedExactlyWhen(bucket: seq<real>, window: real, limit: nat, later: real)
    requires Ascending(bucket) && 0 < limit <= |bucket|
    ensures Check(bucket, window, limit, later).allowed <==> bucket[|bucket| - limit] <= later - window
  {
    hide Check, Pruned, Ascending;
    PrunedRemains(bucket, later - window);
    PrunedAfter(bucket, later - window);
    CheckAllows(bucket, window, limit, later);
    PartedAt(bucket, |Pruned(bucket, later - window)|, later - window, |bucket| - limit);
  }

  /** A bucket cut into old times and later ones: which side a time is on. */
  lemma PartedAt(bucket: seq<real>, kept: nat, cutoff: real, at: nat)
    requires kept <= |bucket| && at < |bucket|
    requires AllUpTo(bucket[..|bucket| - kept], cutoff) && AllAfter(bucket[|bucket| - kept..], cutoff)
    ensures bucket[at] <= cutoff <==> at < |bucket| - kept
  {
    if at < |bucket| - kept {
      assert bucket[..|bucket| - kept][at] <= cutoff;
    } else {
      assert bucket[|bucket| - kept..][at - (|bucket| - kept)] > cutoff;
    }
  }

  /** Were the limit lowered in between, the hint could be too short: it looks at the
      oldest request only. */
  lemma LoweredLimitHintTooShort()
    ensures var bucket := [0.0, 9.0];
            var refused := Check(bucket, 10.0, 1, 9.5);
            && !refused.allowed && refused.retryAfter == 1
            && !Check(refused.bucket, 10.0, 1, 10.5).allowed
  {
    assert Pruned([0.0, 9.0], -0.5) == [0.0, 9.0];
    assert (0.0 + 10.0 - 9.5).Floor == 0;
    assert [0.0, 9.0][1..] == [9.0];
    assert Pruned([0.0, 9.0], 0.5) == [9.0];
  }

  // ---------------------------------------------------------------- the bucket and the hint

  /** A check drops the times out of the window, keeps the rest in their order and adds
      its own exactly if it passes. */
  lemma BucketIs(bucket: seq<real>, window: real, limit: int, now: real, gone: nat)
    requires limit > 0 && gone <= |bucket|
    requires AllUpTo(bucket[..gone], now - window) && AllAfter(bucket[gone..], now - window)
    ensures var verdict := Check(bucket, window, limit, now);
            && (verdict.allowed <==> |bucket| - gone < limit)
            && verdict.bucket == bucket[gone..] + if verdict.allowed then [now] else []
  {
    PrunedIs(bucket, now - window, gone);
    hide Pruned;
  }

  lemma {:induction false} PrunedIs(bucket: seq<real>, cutoff: real, gone: nat)
    requires gone <= |bucket| && AllUpTo(bucket[..gone], cutoff) && AllAfter(bucket[gone..], cutoff)
    ensures Pruned(bucket, cutoff) == bucket[gone..]
  {
    if gone == 0 {
      assert bucket[0..] == bucket;
    } else {
      assert bucket[..gone][0] == bucket[0];
      var rest, front := bucket[1..], bucket[1..][..gone - 1];
      assert rest[gone - 1..] == bucket[gone..];
      forall i | 0 <= i < |front| ensures front[i] <= cutoff { assert front[i] == bucket[..gone][i + 1]; }
      PrunedIs(rest, cutoff, gone - 1);
    }
  }

  /** The hint of a refused check is the least whole number of seconds, at least one, that
      is longer than the oldest time counted stays in the window. */
  lemma HintIsLeast(bucket: seq<real>, window: real, limit: int, now: real, gone: nat, seconds: int)
    requires limit > 0 && gone < |bucket|
    requires AllUpTo(bucket[..gone], now - window) && AllAfter(bucket[gone..], now - window)
    requires !Check(bucket, window, limit, now).allowed
    ensures var hint, stays := Check(bucket, window, limit, now).retryAfter, bucket[gone] + window - now;
            && hint >= 1 && hint as real > stays
            && (seconds >= 1 && seconds as real > stays ==> hint <= seconds)
  {
    PrunedIs(bucket, now - window, gone);
    hide Pruned;
    assert bucket[gone..][0] == bucket[gone];
  }
}
