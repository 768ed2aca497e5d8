/**
 The per-user sliding-window limiter (apps/agent/middleware/rate_limit.go): a Redis script over
 a sorted set of request times in nanoseconds, with a key that expires.
 */
module RateLimit {

  const WINDOW: int := 60_000_000_000
  const LIMIT := 5

  /** The key: its members, which are their own scores, and when Redis drops it. */
  datatype Key = Key(members: set<int>, expiresAt: int)

  function AfterExpiry(k: Key, now: int): set<int> {
    if now >= k.expiresAt then {} else k.members
  }

  /** ZREMRANGEBYSCORE from 0 up to and including one window ago. */
  function Trimmed(members: set<int>, now: int): set<int> {
    set t | t in members && !(0 <= t <= now - WINDOW)
  }

  /** The script: the key afterwards and whether the request passes. */
  function Script(k: Key, now: int): (Key, bool) {
    var members := Trimmed(AfterExpiry(k, now), now);
    if |members| >= LIMIT then (Key(members, k.expiresAt), false)
    else (Key(members + {now}, now + WINDOW), true)
  }

  class Limiter {
    var key: Key

    constructor ()
      ensures key == Key({}, 0)
    {
      key := Key({}, 0);
    }

    method CheckRateLimit(now: int) returns (allowed: bool)
      modifies this
      ensures (key, allowed) == Script(old(key), now)
    {
      var members := Trimmed(AfterExpiry(key, now), now);
      key := key.(members := members);
      if |members| >= LIMIT {
        return false;
      }
      key := Key(members + {now}, now + WINDOW);
      return true;
    }
  }

  // ----- the reference: remember every accepted timestamp for ever -----

  /** The timestamps of the sixty seconds up to `end`, without their very start. */
  function InWindow(accepted: set<int>, end: int): set<int> {
    set t | t in accepted && end - WINDOW < t <= end
  }

  /** The distinct timestamps of the requests that pass. */
  function Accepted(times: seq<int>): set<int> {
    if times == [] then {}
    else
      var before := Accepted(times[..|times| - 1]);
      var now := times[|times| - 1];
      if |InWindow(before, now)| < LIMIT then before + {now} else before
  }

  /** A clock that does not go back. */
  predicate NonDecreasing(times: seq<int>) {
    && (forall i :: 0 <= i < |times| ==> 0 <= times[i])
    && (forall i, j :: 0 <= i < j < |times| ==> times[i] <= times[j])
  }

  predicate Increasing(times: seq<int>) {
    NonDecreasing(times) && forall i, j :: 0 <= i < j < |times| ==> times[i] != times[j]
  }

  // ----- the run of the script -----

  function KeyAfter(times: seq<int>): Key {
    if times == [] then Key({}, 0) else Script(KeyAfter(times[..|times| - 1]), times[|times| - 1]).0
  }

  /** Whether the i-th request passes. */
  predicate Passes(times: seq<int>, i: nat)
    requires i < |times|
  {
    Script(KeyAfter(times[..i]), times[i]).1
  }

  /** The key still knows every accepted timestamp that can matter later. */
  ghost predicate Remembers(k: Key, accepted: set<int>, last: int) {
    && k.members <= accepted
    && (forall t :: t in accepted ==> 0 <= t <= last && t + WINDOW <= k.expiresAt)
    && (forall t :: t in accepted && t > last - WINDOW ==> t in k.members)
  }

  lemma ScriptSeesWindow(k: Key, accepted: set<int>, last: int, now: int)
    requires Remembers(k, accepted, last) && last <= now
    ensures Trimmed(AfterExpiry(k, now), now) == InWindow(accepted, now)
  {
  }

  lemma ScriptRemembers(k: Key, accepted: set<int>, last: int, now: int)
    requires Remembers(k, accepted, last) && last <= now && 0 <= now
    ensures var (k', allowed) := Script(k, now);
            && allowed == (|InWindow(accepted, now)| < LIMIT)
            && Remembers(k', if allowed then accepted + {now} else accepted, now)
  {
    ScriptSeesWindow(k, accepted, last, now);
  }

  /** The exact rule, for every clock that does not go back: a request is rejected if and only if
      five distinct accepted timestamps lie in the sixty seconds up to and including its own,
      whatever was trimmed or expired in between. */
  lemma {:induction false} ScriptDecidesLikeReference(times: seq<int>, now: int)
    requires NonDecreasing(times + [now])
    ensures Script(KeyAfter(times), now).1 <==> |InWindow(Accepted(times), now)| < 5
    ensures Remembers(KeyAfter(times + [now]), Accepted(times + [now]), now)
  {
    assert (times + [now])[..|times|] == times;
    assert (times + [now])[|times|] == now;
    if times == [] {
      ScriptRemembers(KeyAfter([]), {}, -1, now);
    } else {
      var n := |times| - 1;
      var last := times[n];
      assert times == times[..n] + [last];
      assert (times + [now])[n] == last;
      assert NonDecreasing(times[..n] + [last]) by {
        assert forall i :: 0 <= i < |times| ==> times[i] == (times + [now])[i];
      }
      ScriptDecidesLikeReference(times[..n], last);
      ScriptRemembers(KeyAfter(times), Accepted(times), last, now);
    }
  }

  /** Redis drops the key sixty seconds after the last request that passed: rejected requests do not
      prolong its life. */
  lemma {:induction false} KeyExpiresAfterLastAccepted(times: seq<int>)
    requires NonDecreasing(times)
    ensures Accepted(times) == {} ==> KeyAfter(times).expiresAt == 0
    ensures Accepted(times) != {} ==>
              exists t :: t in Accepted(times) && (forall u :: u in Accepted(times) ==> u <= t)
                          && KeyAfter(times).expiresAt == t + 60_000_000_000
  {
    if times != [] {
      var n := |times| - 1;
      NonDecreasingPrefix(times, n);
      KeyExpiresAfterLastAccepted(times[..n]);
      ScriptDecidesLikeReference(times[..n], times[n]);
      AcceptedAreNoLater(times[..n], times[n]);
    }
  }

  // ----- timestamps and requests -----

  /** The requests of the window that pass. */
  function PassedIn(times: seq<int>, end: int): set<nat> {
    set i: nat | i < |times| && Passes(times, i) && end - 60_000_000_000 < times[i] <= end
  }

  lemma PassesInPrefix(times: seq<int>, n: nat, i: nat)
    requires i < n <= |times|
    ensures Passes(times[..n], i) <==> Passes(times, i)
  {
    assert times[..n][..i] == times[..i];
  }

  lemma NonDecreasingPrefix(times: seq<int>, n: nat)
    requires NonDecreasing(times) && n < |times|
    ensures NonDecreasing(times[..n]) && NonDecreasing(times[..n] + [times[n]])
  {
    assert forall i :: 0 <= i <= n ==> (times[..n] + [times[n]])[i] == times[i];
  }

  ghost predicate PassedAt(times: seq<int>, t: int) {
    exists i: nat :: i < |times| && Passes(times, i) && times[i] == t
  }

  lemma PassedOneMore(times: seq<int>, t: int)
    requires times != []
    ensures PassedAt(times, t) <==>
            PassedAt(times[..|times| - 1], t) || (Passes(times, |times| - 1) && times[|times| - 1] == t)
  {
    var n := |times| - 1;
    if PassedAt(times[..n], t) {
      var i: nat :| i < n && Passes(times[..n], i) && times[..n][i] == t;
      PassesInPrefix(times, n, i);
    }
    if PassedAt(times, t) {
      var i: nat :| i < |times| && Passes(times, i) && times[i] == t;
      if i < n {
        PassesInPrefix(times, n, i);
        assert times[..n][i] == t;
      }
    }
  }

  /** The reference keeps exactly the timestamps of the requests that pass. */
  lemma {:induction false} AcceptedIsPassed(times: seq<int>, t: int)
    requires NonDecreasing(times)
    ensures t in Accepted(times) <==> PassedAt(times, t)
  {
    if times != [] {
      var n := |times| - 1;
      NonDecreasingPrefix(times, n);
      AcceptedIsPassed(times[..n], t);
      ScriptDecidesLikeReference(times[..n], times[n]);
      PassedOneMore(times, t);
    }
  }

  predicate Apart(times: seq<int>, s: set<nat>)
    requires forall i :: i in s ==> i < |times|
  {
    forall i, j :: i in s && j in s && times[i] == times[j] ==> i == j
  }

  function TimesOf(times: seq<int>, s: set<nat>): set<int>
    requires forall i :: i in s ==> i < |times|
  {
    set i | i in s :: times[i]
  }

  lemma SubsetIsNoLarger(a: set<int>, b: set<int>)
    requires a <= b
    ensures |a| <= |b|
  {
    assert b == a + (b - a);
  }

  lemma {:induction false} TimesOfSize(times: seq<int>, s: set<nat>)
    requires forall i :: i in s ==> i < |times|
    ensures |TimesOf(times, s)| <= |s|
    ensures |TimesOf(times, s)| == |s| <==> Apart(times, s)
    decreases |s|
  {
    if s != {} {
      var i :| i in s;
      TimesOfSize(times, s - {i});
      assert TimesOf(times, s) == TimesOf(times, s - {i}) + {times[i]};
      if times[i] in TimesOf(times, s - {i}) {
        assert TimesOf(times, s) == TimesOf(times, s - {i});
      } else {
        assert Apart(times, s) <==> Apart(times, s - {i});
      }
    }
  }

  /** No window holds more than five distinct accepted timestamps. */
  lemma {:induction false} WindowHoldsFiveTimestamps(times: seq<int>, end: int)
    requires NonDecreasing(times)
    ensures |InWindow(Accepted(times), end)| <= LIMIT
  {
    if times != [] {
      var n := |times| - 1;
      var now := times[n];
      var before := Accepted(times[..n]);
      NonDecreasingPrefix(times, n);
      WindowHoldsFiveTimestamps(times[..n], end);
      if |InWindow(before, now)| < LIMIT && end - WINDOW < now <= end {
        AcceptedAreNoLater(times[..n], now);
        assert InWindow(before, end) <= InWindow(before, now);
        SubsetIsNoLarger(InWindow(before, end), InWindow(before, now));
        assert InWindow(before + {now}, end) == InWindow(before, end) + {now};
      } else {
        assert InWindow(Accepted(times), end) == InWindow(before, end);
      }
    }
  }

  lemma {:induction false} AcceptedAreNoLater(times: seq<int>, last: int)
    requires forall i :: 0 <= i < |times| ==> times[i] <= last
    ensures forall t :: t in Accepted(times) ==> t <= last
  {
    if times != [] {
      AcceptedAreNoLater(times[..|times| - 1], last);
    }
  }

  /** The guarantee on requests: the accepted requests of a window are as many as the timestamps
      that the limiter counts, and so at most five, if and only if no two of them share their
      timestamp; there are never fewer. */
  lemma WindowCountsRequestsExactlyWhen(times: seq<int>, end: int)
    requires NonDecreasing(times)
    ensures |InWindow(Accepted(times), end)| <= |PassedIn(times, end)|
    ensures |InWindow(Accepted(times), end)| == |PassedIn(times, end)| <==> Apart(times, PassedIn(times, end))
  {
    forall t
      ensures t in Accepted(times) <==> PassedAt(times, t)
    {
      AcceptedIsPassed(times, t);
    }
    assert InWindow(Accepted(times), end) == TimesOf(times, PassedIn(times, end));
    TimesOfSize(times, PassedIn(times, end));
  }

  /** With strictly increasing times no window of sixty seconds, open at its start, holds more than
      five accepted requests. */
  lemma WindowHoldsAtMostFive(times: seq<int>, end: int)
    requires Increasing(times)
    ensures |PassedIn(times, end)| <= 5
  {
    WindowHoldsFiveTimestamps(times, end);
    WindowCountsRequestsExactlyWhen(times, end);
  }

  // ----- equal timestamps -----

  function Copies(now: int, n: nat): seq<int> {
    seq(n, _ => now)
  }

  lemma OneMoreCopy(times: seq<int>, now: int, n: nat)
    ensures times + Copies(now, n + 1) == (times + Copies(now, n)) + [now]
  {
  }

  lemma CopiesKeepOrder(times: seq<int>, now: int, n: nat)
    requires NonDecreasing(times + [now])
    ensures NonDecreasing((times + Copies(now, n)) + [now])
  {
    var all := (times + Copies(now, n)) + [now];
    assert (times + [now])[|times|] == now;
    forall i | 0 <= i < |all|
      ensures all[i] == if i < |times| then (times + [now])[i] else now
    {
    }
  }

  /** One request after another at the same instant adds that instant once, or never. */
  lemma {:induction false} CopiesAddOne(times: seq<int>, now: int, n: nat)
    ensures Accepted(times + Copies(now, n))
         == if n > 0 && |InWindow(Accepted(times), now)| < LIMIT then Accepted(times) + {now} else Accepted(times)
  {
    if n == 0 {
      assert times + Copies(now, 0) == times;
    } else {
      CopiesAddOne(times, now, n - 1);
      OneMoreCopy(times, now, n - 1);
      var all := times + Copies(now, n - 1);
      assert (all + [now])[..|all|] == all;
      assert Accepted(all) + {now} == Accepted(times) + {now};
    }
  }

  /** Equal timestamps count once: after any history, a request that repeats a timestamp for the
      n-th time passes if and only if that instant and the accepted ones in the window before it
      are fewer than five. Then all further repetitions pass too, however many. */
  lemma RepeatsPassExactlyWhen(times: seq<int>, now: int, n: nat)
    requires NonDecreasing(times + [now]) && n > 0
    ensures Script(KeyAfter(times + Copies(now, n)), now).1 <==> |InWindow(Accepted(times), now) + {now}| < LIMIT
  {
    CopiesKeepOrder(times, now, n);
    ScriptDecidesLikeReference(times + Copies(now, n), now);
    CopiesAddOne(times, now, n);
    var window := InWindow(Accepted(times), now);
    if |window| < LIMIT {
      assert InWindow(Accepted(times) + {now}, now) == window + {now};
    } else {
      SubsetIsNoLarger(window, window + {now});
    }
  }

  /** A concrete case: on a new key any number of requests at one instant pass. */
  lemma SameInstantIsNeverLimited(now: int, n: nat)
    requires now >= 0
    ensures Script(KeyAfter(Copies(now, n)), now).1
  {
    assert [] + Copies(now, n) == Copies(now, n);
    if n > 0 {
      RepeatsPassExactlyWhen([], now, n);
      assert InWindow({}, now) + {now} == {now};
    } else {
      assert Copies(now, 0) == [];
      assert Trimmed(AfterExpiry(KeyAfter([]), now), now) == {};
    }
  }
}
