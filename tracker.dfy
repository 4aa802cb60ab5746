/**
 * The two sliding-window structures of the Flask backend:
 *  - the visitor log, client key -> last-seen time, pruned across the whole map on every
 *    request and reported as the "active sessions" gauge;
 *  - the chat rate limiter, client key -> timestamps of admitted chat messages, pruned per key
 *    and admitting at most CHAT_RATE_LIMIT messages inside a CHAT_RATE_WINDOW-second window.
 * Wall-clock time (`time.time()`) is an explicit `now` parameter.
 */
module SlidingWindow {

  const SESSION_WINDOW: real := 900.0
  const CHAT_RATE_LIMIT: nat := 10
  const CHAT_RATE_WINDOW: real := 60.0

  // ---------------------------------------------------------------------------------------------
  // Shared primitive: keep the timestamps strictly newer than a cutoff

  /** `[t for t in ts if t > cutoff]`: the timestamps newer than `cutoff`, in their original order. */
  function Recent(ts: seq<real>, cutoff: real): (r: seq<real>)
    ensures |r| <= |ts|
    ensures forall t :: t in r <==> t in ts && t > cutoff
  {
    if ts == [] then []
    else if ts[0] > cutoff then [ts[0]] + Recent(ts[1..], cutoff)
    else Recent(ts[1..], cutoff)
  }

  /** Filtering an appended list filters each part. */
  lemma {:induction false} RecentAppend(ts: seq<real>, t: real, cutoff: real)
    ensures Recent(ts + [t], cutoff) == Recent(ts, cutoff) + (if t > cutoff then [t] else [])
  {
    if ts == [] {
      assert ts + [t] == [t];
    } else {
      assert (ts + [t])[1..] == ts[1..] + [t];
      RecentAppend(ts[1..], t, cutoff);
    }
  }

  /** Pruning with an earlier cutoff and then a later one is the same as pruning with the later one. */
  lemma {:induction false} RecentCompose(ts: seq<real>, c1: real, c2: real)
    requires c1 <= c2
    ensures Recent(Recent(ts, c1), c2) == Recent(ts, c2)
  {
    if ts != [] {
      RecentCompose(ts[1..], c1, c2);
      if ts[0] > c1 {
        assert Recent(ts, c1) == [ts[0]] + Recent(ts[1..], c1);
        assert ([ts[0]] + Recent(ts[1..], c1))[1..] == Recent(ts[1..], c1);
      }
    }
  }

  /** A list with no timestamp newer than the cutoff prunes to nothing. */
  lemma {:induction false} RecentOfStale(ts: seq<real>, cutoff: real)
    requires forall t :: t in ts ==> t <= cutoff
    ensures Recent(ts, cutoff) == []
  {
    if ts != [] {
      assert ts[0] in ts;
      assert forall t :: t in ts[1..] ==> t in ts;
      RecentOfStale(ts[1..], cutoff);
    }
  }

  // ---------------------------------------------------------------------------------------------
  // Active-session tracker (`_track_visitor`)

  /** The visitor log after `_track_visitor(ip)` at time `now`: stamp `ip`, then drop every entry
      strictly older than `now - SESSION_WINDOW`. */
  function Observe(log: map<string, real>, ip: string, now: real): (r: map<string, real>)
    ensures ip in r && r[ip] == now
    ensures forall k :: k in r ==> r[k] >= now - SESSION_WINDOW
    ensures forall k :: k in r && k != ip ==> k in log && r[k] == log[k]
    ensures forall k :: k in log && k != ip && log[k] >= now - SESSION_WINDOW ==> k in r
  {
    var stamped := log[ip := now];
    map k | k in stamped && stamped[k] >= now - SESSION_WINDOW :: stamped[k]
  }

  /** An observation adds at most one session to the gauge. */
  lemma ObserveGrowsByAtMostOne(log: map<string, real>, ip: string, now: real)
    ensures |Observe(log, ip, now)| <= |log| + 1
  {
    var r := Observe(log, ip, now);
    assert r.Keys <= log.Keys + {ip};
    SubsetCardinality(r.Keys, log.Keys + {ip});
    assert |log.Keys + {ip}| <= |log.Keys| + 1;
  }

  lemma {:induction false} SubsetCardinality<T>(a: set<T>, b: set<T>)
    requires a <= b
    ensures |a| <= |b|
  {
    if a != {} {
      var x :| x in a;
      SubsetCardinality(a - {x}, b - {x});
    }
  }

  /** Observing the same client twice at the same instant leaves the map as one observation did:
      the client has one entry and the session count does not grow. */
  lemma ObserveTwice(log: map<string, real>, ip: string, now: real)
    ensures Observe(Observe(log, ip, now), ip, now) == Observe(log, ip, now)
  {
    var once := Observe(log, ip, now);
    var twice := Observe(once, ip, now);
    assert forall k :: k in twice <==> k in once;
  }

  /** An example with `SESSION_WINDOW` at 900 s: observe a at 0, b at 899, c at 901. */
  lemma SessionScenario()
    ensures Observe(map[], "a", 0.0) == map["a" := 0.0]
    ensures Observe(map["a" := 0.0], "b", 899.0) == map["a" := 0.0, "b" := 899.0]
    ensures Observe(map["a" := 0.0, "b" := 899.0], "c", 901.0) == map["b" := 899.0, "c" := 901.0]
  {
    var m1 := Observe(map[], "a", 0.0);
    assert m1.Keys == {"a"};
    var m2 := Observe(map["a" := 0.0], "b", 899.0);
    assert m2.Keys == {"a", "b"};
    var m3 := Observe(map["a" := 0.0, "b" := 899.0], "c", 901.0);
    assert "a" !in m3;
    assert m3.Keys == {"b", "c"};
  }

  /** `_visitor_log` with `_track_visitor` and the `active_sessions` statistic. */
  class VisitorLog {
    var visitorLog: map<string, real>

    constructor ()
      ensures visitorLog == map[]
    {
      visitorLog := map[];
    }

    /** The `active_sessions` figure of `/api/stats`: the number of tracked clients. */
    function ActiveSessions(): (n: nat)
      reads this
      ensures n == 0 <==> visitorLog == map[]
    {
      |visitorLog|
    }

    /** `_track_visitor(ip)` at time `now`; returns the value it sets on the active-sessions gauge. */
    method TrackVisitor(ip: string, now: real) returns (gauge: nat)
      modifies this
      ensures visitorLog == Observe(old(visitorLog), ip, now)
      ensures gauge == ActiveSessions()
    {
      visitorLog := visitorLog[ip := now];
      var cutoff := now - SESSION_WINDOW;
      ghost var stamped := visitorLog;
      var toDelete := set k | k in visitorLog && visitorLog[k] < cutoff;
      while toDelete != {}
        invariant toDelete <= visitorLog.Keys
        invariant visitorLog.Keys <= stamped.Keys
        invariant forall k :: k in visitorLog ==> visitorLog[k] == stamped[k]
        invariant forall k :: k in stamped && stamped[k] >= cutoff ==> k in visitorLog
        invariant forall k :: k in visitorLog && visitorLog[k] < cutoff ==> k in toDelete
        decreases toDelete
      {
        var k :| k in toDelete;
        visitorLog := visitorLog - {k};
        toDelete := toDelete - {k};
      }
      assert visitorLog.Keys == Observe(old(visitorLog), ip, now).Keys;
      gauge := |visitorLog|;
    }
  }

  // ---------------------------------------------------------------------------------------------
  // Chat rate limiter (`_check_chat_rate`)

  /** The list stored for `ip`; a missing key behaves as an empty list. */
  function Stored(rate: map<string, seq<real>>, ip: string): seq<real>
  {
    if ip in rate then rate[ip] else []
  }

  /** `_check_chat_rate(ip)` at time `now`: the admission verdict and the new map. Only `ip`'s
      list is rewritten: to its timestamps inside the window, plus `now` when admitted. */
  function CheckRate(rate: map<string, seq<real>>, ip: string, now: real): (res: (bool, map<string, seq<real>>))
    ensures res.1.Keys == rate.Keys + {ip}
    ensures forall k :: k in rate && k != ip ==> res.1[k] == rate[k]
    ensures forall t :: t in res.1[ip] ==> t > now - CHAT_RATE_WINDOW || t == now
    ensures res.0 <==> |Recent(Stored(rate, ip), now - CHAT_RATE_WINDOW)| < CHAT_RATE_LIMIT
    ensures res.0 ==> res.1[ip] == Recent(Stored(rate, ip), now - CHAT_RATE_WINDOW) + [now]
    ensures !res.0 ==> res.1[ip] == Recent(Stored(rate, ip), now - CHAT_RATE_WINDOW)
    ensures |Stored(rate, ip)| <= CHAT_RATE_LIMIT ==> |res.1[ip]| <= CHAT_RATE_LIMIT
  {
    var pruned := Recent(Stored(rate, ip), now - CHAT_RATE_WINDOW);
    if |pruned| >= CHAT_RATE_LIMIT then (false, rate[ip := pruned])
    else (true, rate[ip := pruned + [now]])
  }

  /** Every stored timestamp outside the window: the call is admitted and the list restarts at `[now]`. */
  lemma StaleHistoryIsAdmitted(rate: map<string, seq<real>>, ip: string, now: real)
    requires forall t :: t in Stored(rate, ip) ==> t <= now - CHAT_RATE_WINDOW
    ensures CheckRate(rate, ip, now) == (true, rate[ip := [now]])
  {
    RecentOfStale(Stored(rate, ip), now - CHAT_RATE_WINDOW);
    assert [] + [now] == [now];
  }

  /** A rejected call leaves a state in which the same call at the same instant is rejected again
      and changes nothing: rejections do not count against the client. */
  lemma RejectionIsFree(rate: map<string, seq<real>>, ip: string, now: real)
    requires !CheckRate(rate, ip, now).0
    ensures CheckRate(CheckRate(rate, ip, now).1, ip, now) == (false, CheckRate(rate, ip, now).1)
  {
    var c := now - CHAT_RATE_WINDOW;
    RecentCompose(Stored(rate, ip), c, c);
    var m := CheckRate(rate, ip, now).1;
    assert m[ip := m[ip]] == m;
  }

  /** Calls `_check_chat_rate(ip)` at each of `times` in turn; the final map and the timestamps of
      the admitted calls. */
  function Run(rate: map<string, seq<real>>, ip: string, times: seq<real>): (res: (map<string, seq<real>>, seq<real>))
    decreases |times|
  {
    if times == [] then (rate, [])
    else
      var prev := Run(rate, ip, times[..|times| - 1]);
      var now := times[|times| - 1];
      var step := CheckRate(prev.0, ip, now);
      (step.1, prev.1 + (if step.0 then [now] else []))
  }

  predicate NonDecreasing(times: seq<real>)
  {
    forall i, j :: 0 <= i <= j < |times| ==> times[i] <= times[j]
  }

  /** One call, when the stored list is the admitted history pruned at an earlier cutoff, leaves
      the admitted history (with this call, if admitted) pruned at the current cutoff. */
  lemma StepKeepsWindow(m: map<string, seq<real>>, ip: string, admitted: seq<real>, before: real, now: real)
    requires before <= now
    requires Stored(m, ip) == Recent(admitted, before - CHAT_RATE_WINDOW)
    requires |Stored(m, ip)| <= CHAT_RATE_LIMIT
    ensures Stored(CheckRate(m, ip, now).1, ip)
         == Recent(admitted + (if CheckRate(m, ip, now).0 then [now] else []), now - CHAT_RATE_WINDOW)
    ensures |Stored(CheckRate(m, ip, now).1, ip)| <= CHAT_RATE_LIMIT
  {
    RecentCompose(admitted, before - CHAT_RATE_WINDOW, now - CHAT_RATE_WINDOW);
    RecentAppend(admitted, now, now - CHAT_RATE_WINDOW);
    assert admitted + [] == admitted;
  }

  /** For a fresh client and a clock that never goes back, after every call the stored list is
      exactly the admitted timestamps inside the current window, and there are at most
      CHAT_RATE_LIMIT of them. */
  lemma {:induction false} RunKeepsWindow(rate: map<string, seq<real>>, ip: string, times: seq<real>)
    requires Stored(rate, ip) == []
    requires times != [] && NonDecreasing(times)
    ensures Stored(Run(rate, ip, times).0, ip) == Recent(Run(rate, ip, times).1, times[|times| - 1] - CHAT_RATE_WINDOW)
    ensures |Stored(Run(rate, ip, times).0, ip)| <= CHAT_RATE_LIMIT
  {
    var now := times[|times| - 1];
    var prefix := times[..|times| - 1];
    var prev := Run(rate, ip, prefix);
    if prefix == [] {
      assert prev == (rate, []);
      StepKeepsWindow(rate, ip, [], now, now);
    } else {
      var before := prefix[|prefix| - 1];
      assert before <= now;
      RunKeepsWindow(rate, ip, prefix);
      StepKeepsWindow(prev.0, ip, prev.1, before, now);
    }
  }

  /** The limiter's promise: whatever sequence of calls a fresh client makes with a clock that
      never goes back, no window of CHAT_RATE_WINDOW seconds ending at a call holds more than
      CHAT_RATE_LIMIT admitted messages. */
  lemma AdmittedPerWindowBounded(rate: map<string, seq<real>>, ip: string, times: seq<real>)
    requires Stored(rate, ip) == []
    requires times != [] && NonDecreasing(times)
    ensures |Recent(Run(rate, ip, times).1, times[|times| - 1] - CHAT_RATE_WINDOW)| <= CHAT_RATE_LIMIT
  {
    RunKeepsWindow(rate, ip, times);
  }

  /** The bound needs the clock to be monotone: ten calls at 100, one at 200 and one back at 100
      admit twelve messages that all lie after the cutoff of the last call's window. */
  lemma ClockGoingBackAdmitsMore(ip: string)
    ensures |Recent(Run(map[], ip, Burst(10, 100.0) + [200.0, 100.0]).1, 100.0 - CHAT_RATE_WINDOW)| > CHAT_RATE_LIMIT
  {
    var times := Burst(10, 100.0) + [200.0, 100.0];
    assert times[..|times| - 1] == Burst(10, 100.0) + [200.0];
    assert (Burst(10, 100.0) + [200.0])[..10] == Burst(10, 100.0);
    BurstAdmitsLimit(map[], ip, 100.0, 10);
    var first := Run(map[], ip, Burst(10, 100.0));
    RecentOfStale(Stored(first.0, ip), 200.0 - CHAT_RATE_WINDOW);
    assert [] + [200.0] == [200.0];
    var second := CheckRate(first.0, ip, 200.0);
    assert second.0 && Stored(second.1, ip) == [200.0];
    RecentOfNewer([200.0], 100.0 - CHAT_RATE_WINDOW);
    var admitted := Burst(10, 100.0) + [200.0] + [100.0];
    assert Run(map[], ip, times).1 == admitted;
    RecentOfNewer(admitted, 100.0 - CHAT_RATE_WINDOW);
  }

  /** `n` copies of the same instant. */
  function Burst(n: nat, now: real): (r: seq<real>)
    ensures |r| == n && forall t :: t in r ==> t == now
  {
    seq(n, _ => now)
  }

  /** A fresh client sending `n` messages at one instant gets the first CHAT_RATE_LIMIT admitted
      and every later one rejected. */
  lemma {:induction false} BurstAdmitsLimit(rate: map<string, seq<real>>, ip: string, now: real, n: nat)
    requires Stored(rate, ip) == []
    ensures Run(rate, ip, Burst(n, now)).1 == Burst(if n <= CHAT_RATE_LIMIT then n else CHAT_RATE_LIMIT, now)
    ensures Stored(Run(rate, ip, Burst(n, now)).0, ip) == Run(rate, ip, Burst(n, now)).1
  {
    if n > 0 {
      assert Burst(n, now)[..n - 1] == Burst(n - 1, now);
      BurstAdmitsLimit(rate, ip, now, n - 1);
      var prev := Run(rate, ip, Burst(n - 1, now));
      BurstStep(prev.0, ip, now, |prev.1|);
    }
  }

  lemma BurstStep(m: map<string, seq<real>>, ip: string, now: real, k: nat)
    requires k <= CHAT_RATE_LIMIT && Stored(m, ip) == Burst(k, now)
    ensures CheckRate(m, ip, now).0 <==> k < CHAT_RATE_LIMIT
    ensures Stored(CheckRate(m, ip, now).1, ip) == Burst(if k < CHAT_RATE_LIMIT then k + 1 else k, now)
    ensures Burst(k, now) + (if k < CHAT_RATE_LIMIT then [now] else []) == Burst(if k < CHAT_RATE_LIMIT then k + 1 else k, now)
  {
    RecentOfNewer(Burst(k, now), now - CHAT_RATE_WINDOW);
    if k < CHAT_RATE_LIMIT {
      assert Burst(k, now) + [now] == Burst(k + 1, now);
    } else {
      assert Burst(k, now) + [] == Burst(k, now);
    }
  }

  /** A list whose every timestamp is newer than the cutoff is kept whole. */
  lemma {:induction false} RecentOfNewer(ts: seq<real>, cutoff: real)
    requires forall t :: t in ts ==> t > cutoff
    ensures Recent(ts, cutoff) == ts
  {
    if ts != [] {
      assert ts[0] in ts;
      assert forall t :: t in ts[1..] ==> t in ts;
      RecentOfNewer(ts[1..], cutoff);
      assert ts == [ts[0]] + ts[1..];
    }
  }

  /** The limit scenario: ten messages at t = 0 are admitted, the eleventh (at t = 5) is rejected;
      once the ten stored timestamps are 120 seconds old, a message at t = 0 is admitted and the
      list restarts with that one timestamp. */
  lemma LimitScenario(ip: string)
    ensures Run(map[], ip, Burst(10, 0.0)).1 == Burst(10, 0.0)
    ensures !CheckRate(Run(map[], ip, Burst(10, 0.0)).0, ip, 5.0).0
    ensures CheckRate(map[ip := Burst(10, -120.0)], ip, 0.0) == (true, map[ip := [0.0]])
  {
    BurstAdmitsLimit(map[], ip, 0.0, 10);
    var m := Run(map[], ip, Burst(10, 0.0)).0;
    RecentOfNewer(Stored(m, ip), 5.0 - CHAT_RATE_WINDOW);
    StaleHistoryIsAdmitted(map[ip := Burst(10, -120.0)], ip, 0.0);
    assert map[ip := Burst(10, -120.0)][ip := [0.0]] == map[ip := [0.0]];
  }

  /** `_chat_rate` with `_check_chat_rate`. */
  class ChatRateLimiter {
    var chatRate: map<string, seq<real>>

    constructor ()
      ensures chatRate == map[]
    {
      chatRate := map[];
    }

    /** `_check_chat_rate(ip)` at time `now`: true iff the message is admitted (and then recorded). */
    method CheckChatRate(ip: string, now: real) returns (admitted: bool)
      modifies this
      ensures (admitted, chatRate) == CheckRate(old(chatRate), ip, now)
    {
      var cutoff := now - CHAT_RATE_WINDOW;
      if ip !in chatRate {
        chatRate := chatRate[ip := []];
      }
      assert chatRate[ip] == Stored(old(chatRate), ip);
      chatRate := chatRate[ip := Recent(chatRate[ip], cutoff)];
      if |chatRate[ip]| >= CHAT_RATE_LIMIT {
        return false;
      }
      ghost var pruned := chatRate;
      chatRate := chatRate[ip := chatRate[ip] + [now]];
      assert chatRate == old(chatRate)[ip := pruned[ip] + [now]];
      return true;
    }
  }
}
