/** The in-memory limiter: a pruned sliding-window log per key. Times are in seconds. */
module RateLimiter {
  import opened Wrappers

  const DAY: real := 86400.0

  datatype Limits = Limits(burst: int, window: int, daily: int) {
    /** What every route of the service passes. */
    predicate Sane() {
      burst >= 1 && daily >= 1 && 1 <= window && window as real <= DAY
    }
  }

  datatype Decision = Accepted | BurstRejected(retryAfter: int) | DailyRejected(retryAfter: int) | IndexError

  // ---------------------------------------------------------------------------
  // One check
  // ---------------------------------------------------------------------------

  /** The events later than `cutoff`, in order. */
  function After(events: seq<real>, cutoff: real): (r: seq<real>)
    ensures |r| <= |events|
  {
    if events == [] then []
    else After(events[..|events| - 1], cutoff) + if events[|events| - 1] > cutoff then [events[|events| - 1]] else []
  }

  function CountAfter(events: seq<real>, cutoff: real): nat {
    |After(events, cutoff)|
  }

  /** List access with negative positions counted from the end. */
  function At(events: seq<real>, i: int): Option<real> {
    if 0 <= i < |events| then Some(events[i])
    else if -|events| <= i < 0 then Some(events[|events| + i])
    else None
  }

  /** Conversion to an integer drops the fraction, toward zero. */
  function Truncate(x: real): int {
    if x >= 0.0 then x.Floor else -((-x).Floor)
  }

  function RetryAfter(event: real, window: real, now: real): int {
    var wait := Truncate(event + window - now);
    if wait < 1 then 1 else wait
  }

  /** The decision on the events of the last day. */
  function Decide(events: seq<real>, now: real, limits: Limits): Decision {
    if CountAfter(events, now - limits.window as real) >= limits.burst then
      match At(events, -limits.burst)
      case Some(e) => BurstRejected(RetryAfter(e, limits.window as real, now))
      case None => IndexError
    else if |events| >= limits.daily then
      match At(events, 0)
      case Some(e) => DailyRejected(RetryAfter(e, DAY, now))
      case None => IndexError
    else Accepted
  }

  type Logs = map<string, seq<real>>

  function LogOf(logs: Logs, key: string): seq<real> {
    if key in logs then logs[key] else []
  }

  datatype Request = Request(key: string, now: real, limits: Limits)

  function StepDecision(logs: Logs, r: Request): Decision {
    Decide(After(LogOf(logs, r.key), r.now - DAY), r.now, r.limits)
  }

  /** Looking a key up creates its log; only an accepted request replaces it. */
  function StepLogs(logs: Logs, r: Request): Logs {
    if StepDecision(logs, r) == Accepted then logs[r.key := After(LogOf(logs, r.key), r.now - DAY) + [r.now]]
    else logs[r.key := LogOf(logs, r.key)]
  }

  class PublicRouteLimiter {
    var events: Logs

    constructor ()
      ensures events == map[]
    {
      events := map[];
    }

    method Check(r: Request) returns (d: Decision)
      modifies this
      ensures d == StepDecision(old(events), r)
      ensures events == StepLogs(old(events), r)
      ensures forall key :: key != r.key ==> LogOf(events, key) == LogOf(old(events), key)
      ensures d != Accepted ==> forall key :: LogOf(events, key) == LogOf(old(events), key)
    {
      if r.key !in events {
        events := events[r.key := []];
      }
      var recent := After(events[r.key], r.now - DAY);
      var burstCount := CountAfter(recent, r.now - r.limits.window as real);
      if burstCount >= r.limits.burst {
        var e := At(recent, -r.limits.burst);
        return if e.Some? then BurstRejected(RetryAfter(e.value, r.limits.window as real, r.now)) else IndexError;
      }
      if |recent| >= r.limits.daily {
        var e := At(recent, 0);
        return if e.Some? then DailyRejected(RetryAfter(e.value, DAY, r.now)) else IndexError;
      }
      recent := recent + [r.now];
      events := events[r.key := recent];
      return Accepted;
    }
  }

  /** The lookup fails exactly when a limit below one meets a log too short for it. */
  lemma IndexErrorExactly(events: seq<real>, now: real, limits: Limits)
    ensures Decide(events, now, limits) == IndexError <==>
      || (limits.burst <= 0 && |events| <= -limits.burst)
      || (limits.burst >= 1 && limits.daily <= 0 && events == [])
  {
  }

  // ---------------------------------------------------------------------------
  // Sorted logs
  // ---------------------------------------------------------------------------

  ghost predicate Sorted(events: seq<real>) {
    forall i, j :: 0 <= i < j < |events| ==> events[i] <= events[j]
  }

  lemma {:induction false} AfterNone(events: seq<real>, cutoff: real)
    requires forall i :: 0 <= i < |events| ==> events[i] <= cutoff
    ensures After(events, cutoff) == []
  {
    if events != [] {
      AfterNone(events[..|events| - 1], cutoff);
    }
  }

  /** Events before position `k` lie at or before the cutoff, the others after it. */
  ghost predicate SplitsAt(events: seq<real>, cutoff: real, k: int) {
    && 0 <= k <= |events|
    && (forall i :: 0 <= i < k ==> events[i] <= cutoff)
    && (forall i :: k <= i < |events| ==> events[i] > cutoff)
  }

  /** In a sorted log the later events are a suffix. */
  lemma {:induction false} AfterIsSuffix(events: seq<real>, cutoff: real)
    requires Sorted(events)
    ensures var k := |events| - CountAfter(events, cutoff);
      SplitsAt(events, cutoff, k) && After(events, cutoff) == events[k..]
  {
    if events != [] {
      var n := |events| - 1;
      if events[n] <= cutoff {
        AfterNone(events, cutoff);
      } else {
        AfterIsSuffix(events[..n], cutoff);
        var k := n - CountAfter(events[..n], cutoff);
        assert events[k..] == events[..n][k..] + [events[n]];
        SplitExtends(events, cutoff, k);
      }
    }
  }

  lemma SplitExtends(events: seq<real>, cutoff: real, k: int)
    requires events != [] && SplitsAt(events[..|events| - 1], cutoff, k) && events[|events| - 1] > cutoff
    ensures SplitsAt(events, cutoff, k)
  {
    assert forall i :: 0 <= i < |events| - 1 ==> events[i] == events[..|events| - 1][i];
  }

  /** `n` events lie after the cutoff exactly when the n-th from the end does. */
  lemma CountReaches(events: seq<real>, cutoff: real, n: nat)
    requires Sorted(events) && n >= 1
    ensures CountAfter(events, cutoff) >= n <==> |events| >= n && events[|events| - n] > cutoff
  {
    AfterIsSuffix(events, cutoff);
  }

  /** A later cutoff sees through an earlier one. */
  lemma {:induction false} AfterAfter(events: seq<real>, c: real, d: real)
    requires c <= d
    ensures After(After(events, c), d) == After(events, d)
  {
    if events != [] {
      var n := |events| - 1;
      AfterAfter(events[..n], c, d);
      var kept := After(events[..n], c);
      if events[n] > c {
        var now := kept + [events[n]];
        assert After(events, c) == now;
        assert now[..|now| - 1] == kept;
      } else {
        assert After(events, c) == kept + [] == kept;
      }
    }
  }

  lemma {:induction false} AfterConcat(a: seq<real>, b: seq<real>, c: real)
    ensures After(a + b, c) == After(a, c) + After(b, c)
  {
    if b == [] {
      assert a + b == a;
    } else {
      AfterConcat(a, b[..|b| - 1], c);
      assert (a + b)[..|a + b| - 1] == a + b[..|b| - 1];
    }
  }

  // ---------------------------------------------------------------------------
  // The limiter that never forgets
  // ---------------------------------------------------------------------------

  /** Decision of a limiter that keeps every accepted time of a key forever. */
  function FullDecide(history: seq<real>, now: real, limits: Limits): Decision
    requires limits.Sane()
  {
    var inDay := CountAfter(history, now - DAY);
    if CountAfter(history, now - limits.window as real) >= limits.burst then
      BurstRejected(RetryAfter(history[|history| - limits.burst], limits.window as real, now))
    else if inDay >= limits.daily then DailyRejected(RetryAfter(history[|history| - inDay], DAY, now))
    else Accepted
  }

  /** What pruning may have done by time `clock`: dropped only events a day old. */
  ghost predicate Prunes(log: seq<real>, history: seq<real>, clock: real) {
    && |log| <= |history|
    && log == history[|history| - |log|..]
    && (forall i :: 0 <= i < |history| - |log| ==> history[i] <= clock - DAY)
    && Sorted(history)
    && (forall i :: 0 <= i < |history| ==> history[i] <= clock)
  }

  /** The history is what was dropped, all of it a day old, and then the log. */
  lemma DroppedAndLog(log: seq<real>, history: seq<real>, clock: real, cutoff: real) returns (dropped: seq<real>)
    requires Prunes(log, history, clock) && clock - DAY <= cutoff
    ensures history == dropped + log
    ensures forall i :: 0 <= i < |dropped| ==> dropped[i] <= cutoff
  {
    hide Sorted;
    dropped := history[..|history| - |log|];
    assert forall i :: 0 <= i < |dropped| ==> dropped[i] == history[i];
  }

  lemma PrunedSeesTheSame(log: seq<real>, history: seq<real>, clock: real, cutoff: real)
    requires Prunes(log, history, clock) && clock - DAY <= cutoff
    ensures After(log, cutoff) == After(history, cutoff)
  {
    hide After, Prunes;
    var dropped := DroppedAndLog(log, history, clock, cutoff);
    AfterNone(dropped, cutoff);
    AfterConcat(dropped, log, cutoff);
    assert [] + After(log, cutoff) == After(log, cutoff);
  }

  /** Forgetting what is a day old changes no decision, Retry-After included. */
  lemma PrunedDecidesAlike(log: seq<real>, history: seq<real>, clock: real, now: real, limits: Limits)
    requires Prunes(log, history, clock) && clock <= now && limits.Sane()
    ensures Decide(After(log, now - DAY), now, limits) == FullDecide(history, now, limits)
  {
    hide RetryAfter, After;
    PrunedSeesTheSame(log, history, clock, now - DAY);
    AfterAfter(history, now - DAY, now - limits.window as real);
    AfterIsSuffix(history, now - DAY);
    var k := |history| - CountAfter(history, now - DAY);
    var recent := history[k..];
    CountReaches(history, now - limits.window as real, limits.burst);
    if CountAfter(history, now - limits.window as real) >= limits.burst {
      var i := |history| - limits.burst;
      assert i >= k;
      assert recent[i - k] == history[i];
    }
  }

  lemma PruneAccept(log: seq<real>, history: seq<real>, now: real)
    requires Prunes(log, history, now)
    ensures Prunes(After(log, now - DAY) + [now], history + [now], now)
  {
    hide After, SplitsAt;
    var k := |history| - CountAfter(history, now - DAY);
    assert After(log, now - DAY) == After(history, now - DAY) by {
      hide Prunes;
      PrunedSeesTheSame(log, history, now, now - DAY);
    }
    AfterIsSuffix(history, now - DAY);
    AppendPruned(history, k, now);
  }

  lemma AppendPruned(history: seq<real>, k: int, now: real)
    requires Sorted(history) && (forall i :: 0 <= i < |history| ==> history[i] <= now)
    requires SplitsAt(history, now - DAY, k)
    ensures Prunes(history[k..] + [now], history + [now], now)
  {
  }

  lemma PruneLater(log: seq<real>, history: seq<real>, clock: real, now: real)
    requires Prunes(log, history, clock) && clock <= now
    ensures Prunes(log, history, now)
  {
  }

  // ---------------------------------------------------------------------------
  // Runs
  // ---------------------------------------------------------------------------

  /** The logs after a run that starts empty. */
  function LogsAfter(run: seq<Request>): Logs {
    if run == [] then map[] else StepLogs(LogsAfter(run[..|run| - 1]), run[|run| - 1])
  }

  /** The decision on the last request of a run. */
  function LastDecision(run: seq<Request>): Decision
    requires run != []
  {
    StepDecision(LogsAfter(run[..|run| - 1]), run[|run| - 1])
  }

  /** Every time the run accepted a request for `key`. */
  function History(run: seq<Request>, key: string): seq<real> {
    if run == [] then []
    else History(run[..|run| - 1], key)
         + if run[|run| - 1].key == key && LastDecision(run) == Accepted then [run[|run| - 1].now] else []
  }

  ghost predicate ClockForward(run: seq<Request>) {
    forall i, j :: 0 <= i < j < |run| ==> run[i].now <= run[j].now
  }

  function ClockOf(run: seq<Request>): real
    requires run != []
  {
    run[|run| - 1].now
  }

  /** How one request moves the log and the history of a key. */
  lemma StepEffect(run: seq<Request>, key: string)
    requires run != []
    ensures var init, r := run[..|run| - 1], run[|run| - 1];
      if r.key == key && LastDecision(run) == Accepted then
        && LogOf(LogsAfter(run), key) == After(LogOf(LogsAfter(init), key), r.now - DAY) + [r.now]
        && History(run, key) == History(init, key) + [r.now]
      else
        && LogOf(LogsAfter(run), key) == LogOf(LogsAfter(init), key)
        && History(run, key) == History(init, key)
  {
    hide Decide, After;
  }

  /** In every reachable state each log is the accepted history minus what is a day old. */
  lemma {:induction false} LogsPruneHistory(run: seq<Request>, key: string, now: real)
    requires ClockForward(run) && (run != [] ==> ClockOf(run) <= now)
    ensures Prunes(LogOf(LogsAfter(run), key), History(run, key), now)
  {
    hide StepLogs, LastDecision, After, Prunes, ClockForward;
    if run == [] {
      NothingYet(key, now);
    } else {
      hide LogsAfter, History;
      var init, r := run[..|run| - 1], run[|run| - 1];
      ClockInit(run);
      LogsPruneHistory(init, key, r.now);
      StepEffect(run, key);
      if r.key == key && LastDecision(run) == Accepted {
        PruneAccept(LogOf(LogsAfter(init), key), History(init, key), r.now);
      }
      PruneLater(LogOf(LogsAfter(run), key), History(run, key), r.now, now);
    }
  }

  lemma NothingYet(key: string, now: real)
    ensures Prunes(LogOf(LogsAfter([]), key), History([], key), now)
  {
  }

  lemma ClockInit(run: seq<Request>)
    requires run != [] && ClockForward(run)
    ensures var init := run[..|run| - 1]; ClockForward(init) && (init != [] ==> ClockOf(init) <= run[|run| - 1].now)
  {
  }

  /** The pruned limiter decides every request of every run as one that keeps all
      accepted times would. */
  lemma DecidesAsIfUnpruned(run: seq<Request>)
    requires run != [] && ClockForward(run) && run[|run| - 1].limits.Sane()
    ensures var r := run[|run| - 1];
      LastDecision(run) == FullDecide(History(run[..|run| - 1], r.key), r.now, r.limits)
  {
    hide Decide, FullDecide, Prunes, LogsAfter, History, After;
    var init, r := run[..|run| - 1], run[|run| - 1];
    LogsPruneHistory(init, r.key, r.now);
    PrunedDecidesAlike(LogOf(LogsAfter(init), r.key), History(init, r.key), r.now, r.now, r.limits);
  }

  ghost predicate SameLimits(run: seq<Request>, key: string, limits: Limits) {
    forall i :: 0 <= i < |run| && run[i].key == key ==> run[i].limits == limits
  }

  /** Accepted times `limit` places apart lie at least `window` apart. */
  ghost predicate Spaced(history: seq<real>, limit: nat, window: real) {
    forall i :: 0 <= i && i + limit < |history| ==> history[i + limit] >= history[i] + window
  }

  lemma AppendSpaced(history: seq<real>, now: real, limit: nat, window: real)
    requires Spaced(history, limit, window) && limit >= 1
    requires |history| >= limit ==> history[|history| - limit] <= now - window
    ensures Spaced(history + [now], limit, window)
  {
  }

  /** What an accept means to the history before it. */
  lemma AcceptLeavesRoom(history: seq<real>, now: real, limits: Limits)
    requires Sorted(history) && limits.Sane() && FullDecide(history, now, limits) == Accepted
    ensures |history| >= limits.burst ==> history[|history| - limits.burst] <= now - limits.window as real
    ensures |history| >= limits.daily ==> history[|history| - limits.daily] <= now - DAY
  {
    CountReaches(history, now - limits.window as real, limits.burst);
    CountReaches(history, now - DAY, limits.daily);
  }

  lemma InitKeeps(run: seq<Request>, key: string, limits: Limits)
    requires run != [] && ClockForward(run) && SameLimits(run, key, limits)
    ensures ClockForward(run[..|run| - 1]) && SameLimits(run[..|run| - 1], key, limits)
    ensures run[|run| - 1].key == key ==> run[|run| - 1].limits == limits
  {
  }

  lemma HistorySorted(run: seq<Request>, key: string)
    requires ClockForward(run)
    ensures Sorted(History(run, key))
  {
    hide ClockForward, History, LogsAfter;
    LogsPruneHistory(run, key, if run == [] then 0.0 else ClockOf(run));
  }

  lemma SpacedStep(run: seq<Request>, key: string, limits: Limits)
    requires run != [] && ClockForward(run) && limits.Sane() && SameLimits(run, key, limits)
    requires Spaced(History(run[..|run| - 1], key), limits.burst, limits.window as real)
    requires Spaced(History(run[..|run| - 1], key), limits.daily, DAY)
    ensures Spaced(History(run, key), limits.burst, limits.window as real)
    ensures Spaced(History(run, key), limits.daily, DAY)
  {
    hide FullDecide, LastDecision, LogsAfter, After, StepLogs, Spaced, History, ClockForward, SameLimits, Sorted;
    var init, r := run[..|run| - 1], run[|run| - 1];
    InitKeeps(run, key, limits);
    StepEffect(run, key);
    if r.key == key && LastDecision(run) == Accepted {
      HistorySorted(init, key);
      DecidesAsIfUnpruned(run);
      AcceptLeavesRoom(History(init, key), r.now, limits);
      AppendSpaced(History(init, key), r.now, limits.burst, limits.window as real);
      AppendSpaced(History(init, key), r.now, limits.daily, DAY);
    }
  }

  /** Over a whole run, accepts of one key are spaced by both limits. */
  lemma {:induction false} AcceptsSpaced(run: seq<Request>, key: string, limits: Limits)
    requires ClockForward(run) && limits.Sane() && SameLimits(run, key, limits)
    ensures Sorted(History(run, key))
    ensures Spaced(History(run, key), limits.burst, limits.window as real)
    ensures Spaced(History(run, key), limits.daily, DAY)
  {
    hide LastDecision, ClockForward, SameLimits, Sorted;
    HistorySorted(run, key);
    if run != [] {
      hide Spaced, History;
      InitKeeps(run, key, limits);
      AcceptsSpaced(run[..|run| - 1], key, limits);
      SpacedStep(run, key, limits);
    }
  }

  /** How many events lie in the half-open interval (lo, hi]. */
  function Between(events: seq<real>, lo: real, hi: real): nat {
    if events == [] then 0
    else Between(events[..|events| - 1], lo, hi) + if lo < events[|events| - 1] <= hi then 1 else 0
  }

  lemma {:induction false} BetweenIsRange(events: seq<real>, lo: real, hi: real) returns (a: nat, b: nat)
    requires Sorted(events)
    ensures a <= b <= |events| && Between(events, lo, hi) == b - a
    ensures forall i :: a <= i < b ==> lo < events[i] <= hi
    ensures b < |events| ==> events[b] > hi
  {
    if events == [] {
      a, b := 0, 0;
    } else {
      var n := |events| - 1;
      a, b := BetweenIsRange(events[..n], lo, hi);
      if lo < events[n] <= hi {
        b := n + 1;
      } else if events[n] <= lo {
        assert a < b ==> events[a] <= events[n];
        a, b := n + 1, n + 1;
      }
    }
  }

  /** In every run, whatever the other keys do, any window of the burst length holds at most
      `burst` accepts of a key, and any day at most `daily`. */
  lemma WindowsHold(run: seq<Request>, key: string, limits: Limits, t: real)
    requires ClockForward(run) && limits.Sane() && SameLimits(run, key, limits)
    ensures Between(History(run, key), t - limits.window as real, t) <= limits.burst
    ensures Between(History(run, key), t - DAY, t) <= limits.daily
  {
    AcceptsSpaced(run, key, limits);
    SpacedFits(History(run, key), limits.burst, limits.window as real, t);
    SpacedFits(History(run, key), limits.daily, DAY, t);
  }

  lemma SpacedFits(history: seq<real>, limit: nat, window: real, t: real)
    requires Sorted(history) && Spaced(history, limit, window)
    ensures Between(history, t - window, t) <= limit
  {
    var a, b := BetweenIsRange(history, t - window, t);
    assert a + limit < |history| ==> history[a + limit] >= history[a] + window;
  }

  // ---------------------------------------------------------------------------
  // Keys do not interact
  // ---------------------------------------------------------------------------

  /** The requests of a run that are for `key`. */
  function Only(run: seq<Request>, key: string): seq<Request> {
    if run == [] then []
    else Only(run[..|run| - 1], key) + if run[|run| - 1].key == key then [run[|run| - 1]] else []
  }

  /** A key's log and accepted times are what its own requests alone would have made them. */
  lemma {:induction false} KeysIndependent(run: seq<Request>, key: string)
    ensures LogOf(LogsAfter(run), key) == LogOf(LogsAfter(Only(run, key)), key)
    ensures History(run, key) == History(Only(run, key), key)
  {
    hide Decide, After, LogsAfter, History;
    if run == [] {
      assert Only(run, key) == run;
    } else {
      var init, r := run[..|run| - 1], run[|run| - 1];
      KeysIndependent(init, key);
      StepEffect(run, key);
      if r.key == key {
        var own := Only(init, key);
        assert Only(run, key) == own + [r];
        assert (own + [r])[..|own|] == own;
        StepEffect(own + [r], key);
      } else {
        assert Only(run, key) == Only(init, key) + [] == Only(init, key);
      }
    }
  }

  // ---------------------------------------------------------------------------
  // Retry-After
  // ---------------------------------------------------------------------------

  /** With no accept in between, the burst check of a sorted log opens exactly when its
      `burst`-th event from the end has left the window. */
  lemma BurstOpens(log: seq<real>, later: real, limits: Limits)
    requires Sorted(log) && limits.Sane() && |log| >= limits.burst
    ensures CountAfter(After(log, later - DAY), later - limits.window as real) < limits.burst
      <==> later >= log[|log| - limits.burst] + limits.window as real
  {
    hide After, Sorted;
    AfterAfter(log, later - DAY, later - limits.window as real);
    CountReaches(log, later - limits.window as real, limits.burst);
  }

  /** The Retry-After of a burst rejection lies between one second and the window; waiting one
      second longer than it says passes the burst check, and on a clock of whole seconds
      waiting exactly that long does; waiting less than the event needs never does. */
  lemma BurstRetryHonest(run: seq<Request>, wait: real)
    requires run != [] && ClockForward(run) && run[|run| - 1].limits.Sane()
    requires LastDecision(run).BurstRejected?
    ensures var r, retry := run[|run| - 1], LastDecision(run).retryAfter;
      var log := LogOf(LogsAfter(run), r.key);
      && 1 <= retry <= r.limits.window
      && |log| >= r.limits.burst
      && (retry == 1 || retry as real <= log[|log| - r.limits.burst] + r.limits.window as real - r.now)
      && (wait >= retry as real + 1.0 ==> BurstClear(log, r.now + wait, r.limits))
      && (Whole(r.now) && Whole(log[|log| - r.limits.burst]) && wait >= retry as real ==>
        BurstClear(log, r.now + wait, r.limits))
      && (0.0 <= wait < log[|log| - r.limits.burst] + r.limits.window as real - r.now ==>
        !BurstClear(log, r.now + wait, r.limits))
  {
    hide LogsAfter, History, Decide, FullDecide, After, RetryAfter;
    var init, r := run[..|run| - 1], run[|run| - 1];
    LogsPruneHistory(init, r.key, r.now);
    StepEffect(run, r.key);
    var log := LogOf(LogsAfter(run), r.key);
    RejectionNames(log, r.now, r.limits);
    RetryArithmetic(log[|log| - r.limits.burst], r.limits.window, r.now);
    if wait >= 0.0 {
      BurstOpens(log, r.now + wait, r.limits);
    }
  }

  /** A burst rejection speaks of the `burst`-th event from the end, which is in the window. */
  lemma RejectionNames(log: seq<real>, now: real, limits: Limits)
    requires Sorted(log) && limits.Sane()
    requires Decide(After(log, now - DAY), now, limits).BurstRejected?
    ensures |log| >= limits.burst
    ensures var e := log[|log| - limits.burst];
      now - limits.window as real < e
      && Decide(After(log, now - DAY), now, limits).retryAfter == RetryAfter(e, limits.window as real, now)
  {
    hide After, RetryAfter, SplitsAt;
    AfterIsSuffix(log, now - DAY);
    var recent := After(log, now - DAY);
    SuffixSorted(log, |log| - |recent|);
    CountReaches(recent, now - limits.window as real, limits.burst);
  }

  lemma SuffixSorted(events: seq<real>, k: int)
    requires Sorted(events) && 0 <= k <= |events|
    ensures Sorted(events[k..])
  {
  }

  lemma RetryArithmetic(e: real, window: int, now: real)
    requires window >= 1 && now - window as real < e <= now
    ensures 1 <= RetryAfter(e, window as real, now) <= window
    ensures RetryAfter(e, window as real, now) == 1
      || RetryAfter(e, window as real, now) as real <= e + window as real - now
    ensures RetryAfter(e, window as real, now) as real + 1.0 >= e + window as real - now
    ensures Whole(e) && Whole(now) ==> RetryAfter(e, window as real, now) as real >= e + window as real - now
  {
    var wait := e + window as real - now;
    assert wait.Floor <= window;
    if Whole(e) && Whole(now) {
      assert wait == (e.Floor + window - now.Floor) as real;
    }
  }

  predicate Whole(x: real) {
    x.Floor as real == x
  }

  predicate BurstClear(log: seq<real>, now: real, limits: Limits) {
    CountAfter(After(log, now - DAY), now - limits.window as real) < limits.burst
  }

  predicate DayClear(log: seq<real>, now: real, limits: Limits) {
    CountAfter(log, now - DAY) < limits.daily
  }

  /** The same for a daily rejection; that the first event of the day is the one to wait for
      rests on a reachable day never holding more than `daily` accepts. */
  lemma DailyRetryHonest(run: seq<Request>, wait: real)
    requires run != [] && ClockForward(run) && run[|run| - 1].limits.Sane()
    requires SameLimits(run, run[|run| - 1].key, run[|run| - 1].limits)
    requires LastDecision(run).DailyRejected?
    ensures var r, retry := run[|run| - 1], LastDecision(run).retryAfter;
      var log := LogOf(LogsAfter(run), r.key);
      && 1 <= retry <= 86400
      && |log| >= r.limits.daily
      && (retry == 1 || retry as real <= log[|log| - r.limits.daily] + DAY - r.now)
      && (wait >= retry as real + 1.0 ==> DayClear(log, r.now + wait, r.limits))
      && (Whole(r.now) && Whole(log[|log| - r.limits.daily]) && wait >= retry as real ==>
        DayClear(log, r.now + wait, r.limits))
      && (0.0 <= wait < log[|log| - r.limits.daily] + DAY - r.now ==> !DayClear(log, r.now + wait, r.limits))
  {
    hide LogsAfter, History, Decide, FullDecide, After, RetryAfter, Prunes;
    var r := run[|run| - 1];
    DayHoldsAtMost(run);
    var log := LogOf(LogsAfter(run), r.key);
    DailyRejectionNames(log, r.now, r.limits);
    RetryArithmetic(log[|log| - r.limits.daily], 86400, r.now);
    if wait >= 0.0 {
      CountReaches(log, r.now + wait - DAY, r.limits.daily);
    }
  }

  /** When a request is rejected, its day holds at most `daily` accepts. */
  lemma DayHoldsAtMost(run: seq<Request>)
    requires run != [] && ClockForward(run) && run[|run| - 1].limits.Sane()
    requires SameLimits(run, run[|run| - 1].key, run[|run| - 1].limits)
    requires LastDecision(run) != Accepted
    ensures var r, init := run[|run| - 1], run[..|run| - 1];
      var log := LogOf(LogsAfter(run), r.key);
      && log == LogOf(LogsAfter(init), r.key)
      && Sorted(log) && (forall i :: 0 <= i < |log| ==> log[i] <= r.now)
      && CountAfter(log, r.now - DAY) <= r.limits.daily
  {
    hide LogsAfter, History, Decide, FullDecide, After;
    var init, r := run[..|run| - 1], run[|run| - 1];
    LogsPruneHistory(init, r.key, r.now);
    StepEffect(run, r.key);
    var log := LogOf(LogsAfter(run), r.key);
    WindowsHold(init, r.key, r.limits, r.now);
    PrunedSeesTheSame(log, History(init, r.key), r.now, r.now - DAY);
    BetweenIsCountAfter(History(init, r.key), r.now - DAY, r.now);
  }

  lemma {:induction false} BetweenIsCountAfter(events: seq<real>, lo: real, hi: real)
    requires forall i :: 0 <= i < |events| ==> events[i] <= hi
    ensures Between(events, lo, hi) == CountAfter(events, lo)
  {
    if events != [] {
      BetweenIsCountAfter(events[..|events| - 1], lo, hi);
    }
  }

  lemma DailyRejectionNames(log: seq<real>, now: real, limits: Limits)
    requires Sorted(log) && limits.Sane() && CountAfter(log, now - DAY) <= limits.daily
    requires Decide(After(log, now - DAY), now, limits).DailyRejected?
    ensures |log| >= limits.daily
    ensures var e := log[|log| - limits.daily];
      now - DAY < e
      && Decide(After(log, now - DAY), now, limits).retryAfter == RetryAfter(e, DAY, now)
  {
    AfterIsSuffix(log, now - DAY);
  }

  // ---------------------------------------------------------------------------
  // Burst windows longer than a day
  // ---------------------------------------------------------------------------

  ghost predicate WithinBurst(run: seq<Request>, key: string, t: real, limits: Limits) {
    Between(History(run, key), t - limits.window as real, t) <= limits.burst
  }

  /** In every run under these limits every burst window holds at most the burst limit. */
  ghost predicate BurstKept(limits: Limits) {
    forall run, key, t :: ClockForward(run) && SameLimits(run, key, limits) ==> WithinBurst(run, key, t, limits)
  }

  function Least(limits: Limits): int {
    if limits.burst <= limits.daily then limits.burst else limits.daily
  }

  /** Days begun in a window. */
  function Days(window: int): int {
    (window + 86399) / 86400
  }

  lemma {:induction false} AfterAll(events: seq<real>, cutoff: real)
    requires forall i :: 0 <= i < |events| ==> events[i] > cutoff
    ensures After(events, cutoff) == events
  {
    if events != [] {
      AfterAll(events[..|events| - 1], cutoff);
    }
  }

  /** With a window of more than a day an accept means that the last day had room under both
      limits; what lies further back has been forgotten. */
  lemma LongWindowAccept(run: seq<Request>, limits: Limits)
    requires run != [] && ClockForward(run) && limits == run[|run| - 1].limits && LastDecision(run) == Accepted
    requires limits.window > 86400
    ensures var r := run[|run| - 1];
      CountAfter(History(run[..|run| - 1], r.key), r.now - DAY) < Least(limits)
  {
    hide LogsAfter, History, After, Prunes, SplitsAt;
    var init, r := run[..|run| - 1], run[|run| - 1];
    var log, history := LogOf(LogsAfter(init), r.key), History(init, r.key);
    LogsPruneHistory(init, r.key, r.now);
    PrunedSeesTheSame(log, history, r.now, r.now - DAY);
    HistorySorted(init, r.key);
    var recent := After(history, r.now - DAY);
    assert After(recent, r.now - limits.window as real) == recent by {
      RecentIsLate(history, r.now - DAY);
      AfterAll(recent, r.now - limits.window as real);
    }
  }

  lemma RecentIsLate(events: seq<real>, cutoff: real)
    requires Sorted(events)
    ensures forall i :: 0 <= i < CountAfter(events, cutoff) ==> After(events, cutoff)[i] > cutoff
  {
    AfterIsSuffix(events, cutoff);
  }

  lemma {:induction false} DaySpaced(run: seq<Request>, key: string, limits: Limits)
    requires ClockForward(run) && SameLimits(run, key, limits)
    requires limits.burst >= 1 && limits.daily >= 1 && limits.window > 86400
    ensures Spaced(History(run, key), Least(limits), DAY)
  {
    hide LastDecision, ClockForward, SameLimits, After, LogsAfter, StepLogs, Sorted;
    if run != [] {
      hide Spaced, History;
      var init, r := run[..|run| - 1], run[|run| - 1];
      InitKeeps(run, key, limits);
      DaySpaced(init, key, limits);
      StepEffect(run, key);
      if r.key == key && LastDecision(run) == Accepted {
        LongWindowAccept(run, limits);
        HistorySorted(init, key);
        CountReaches(History(init, key), r.now - DAY, Least(limits));
        AppendSpaced(History(init, key), r.now, Least(limits), DAY);
      }
    }
  }

  lemma {:induction false} SpacedMany(history: seq<real>, limit: nat, c: nat, i: nat)
    requires Spaced(history, limit, DAY) && i + limit * c < |history|
    ensures history[i + limit * c] >= history[i] + c as real * DAY
  {
    if c > 0 {
      assert limit * c == limit * (c - 1) + limit;
      SpacedMany(history, limit, c - 1, i);
      assert history[i + limit * (c - 1) + limit] >= history[i + limit * (c - 1)] + DAY;
    }
  }

  lemma {:induction false} BetweenNarrows(events: seq<real>, lo: real, lo': real, hi: real)
    requires lo <= lo'
    ensures Between(events, lo', hi) <= Between(events, lo, hi)
  {
    if events != [] {
      BetweenNarrows(events[..|events| - 1], lo, lo', hi);
    }
  }

  lemma LongWindowHolds(run: seq<Request>, key: string, limits: Limits, t: real)
    requires ClockForward(run) && SameLimits(run, key, limits)
    requires limits.burst >= 1 && limits.daily >= 1 && limits.window > 86400
    ensures Between(History(run, key), t - limits.window as real, t) <= Least(limits) * Days(limits.window)
  {
    hide History, ClockForward, SameLimits, Sorted;
    var history, limit, c := History(run, key), Least(limits), Days(limits.window);
    DaySpaced(run, key, limits);
    HistorySorted(run, key);
    assert limit * c >= 0;
    assert Spaced(history, limit * c, c as real * DAY) by {
      forall i | 0 <= i && i + limit * c < |history|
        ensures history[i + limit * c] >= history[i] + c as real * DAY
      {
        SpacedMany(history, limit, c, i);
      }
    }
    SpacedFits(history, limit * c, c as real * DAY, t);
    assert limits.window as real <= c as real * DAY;
    BetweenNarrows(history, t - c as real * DAY, t - limits.window as real, t);
  }

  function DayStart(j: nat): real {
    j as real * DAY
  }

  /** `limit` requests at the start of each day before day `j`, and `m` at the start of it. */
  function Schedule(j: nat, m: nat, limit: nat, limits: Limits): seq<Request>
    decreases j, m
  {
    if m > 0 then Schedule(j, m - 1, limit, limits) + [Request("", DayStart(j), limits)]
    else if j > 0 then Schedule(j - 1, limit, limit, limits)
    else []
  }

  function Times(j: nat, m: nat, limit: nat): seq<real>
    decreases j, m
  {
    if m > 0 then Times(j, m - 1, limit) + [DayStart(j)] else if j > 0 then Times(j - 1, limit, limit) else []
  }

  lemma {:induction false} TimesExact(j: nat, m: nat, limit: nat)
    ensures |Times(j, m, limit)| == j * limit + m
    ensures forall i :: 0 <= i < |Times(j, m, limit)| ==> 0.0 <= Times(j, m, limit)[i] <= DayStart(j)
    decreases j, m
  {
    if m > 0 {
      TimesExact(j, m - 1, limit);
    } else if j > 0 {
      TimesExact(j - 1, limit, limit);
      assert (j - 1) * limit + limit == j * limit;
    }
  }

  /** At the start of day `j` only the requests of that day are remembered. */
  lemma {:induction false} OnlyToday(j: nat, m: nat, limit: nat)
    ensures CountAfter(Times(j, m, limit), DayStart(j) - DAY) == m
    decreases m
  {
    var times := Times(j, m, limit);
    if m > 0 {
      OnlyToday(j, m - 1, limit);
      assert times[..|times| - 1] == Times(j, m - 1, limit);
    } else if j > 0 {
      TimesExact(j - 1, limit, limit);
      AfterNone(times, DayStart(j) - DAY);
    }
  }

  lemma {:induction false} ScheduleAccepted(j: nat, m: nat, limit: nat, limits: Limits)
    requires limit == Least(limits) && m <= limit
    ensures var run := Schedule(j, m, limit, limits);
      && ClockForward(run) && SameLimits(run, "", limits)
      && (forall i :: 0 <= i < |run| ==> run[i].now <= DayStart(j))
      && History(run, "") == Times(j, m, limit)
    decreases j, m
  {
    hide History;
    var run := Schedule(j, m, limit, limits);
    if m > 0 {
      hide Schedule, Times;
      ScheduleAccepted(j, m - 1, limit, limits);
      ScheduleStep(j, m, limit, limits);
      NextAccepted(run, j, m, limit, limits);
    } else if j > 0 {
      ScheduleAccepted(j - 1, limit, limit, limits);
    } else {
      assert History(run, "") == [] by { NoHistory(); }
    }
  }

  lemma NoHistory()
    ensures History([], "") == []
  {
  }

  lemma ScheduleStep(j: nat, m: nat, limit: nat, limits: Limits)
    requires m > 0
    ensures Schedule(j, m, limit, limits) == Schedule(j, m - 1, limit, limits) + [Request("", DayStart(j), limits)]
    ensures Times(j, m, limit) == Times(j, m - 1, limit) + [DayStart(j)]
  {
  }

  lemma NextAccepted(run: seq<Request>, j: nat, m: nat, limit: nat, limits: Limits)
    requires 0 < m <= limit == Least(limits) && run != []
    requires var init := run[..|run| - 1];
      ClockForward(init) && (forall i :: 0 <= i < |init| ==> init[i].now <= DayStart(j))
      && History(init, "") == Times(j, m - 1, limit)
    requires run[|run| - 1] == Request("", DayStart(j), limits)
    ensures History(run, "") == Times(j, m, limit)
  {
    hide History, LogsAfter, After, ClockForward, Times, Schedule;
    var init, now := run[..|run| - 1], DayStart(j);
    LogsPruneHistory(init, "", now);
    var log := LogOf(LogsAfter(init), "");
    PrunedSeesTheSame(log, History(init, ""), now, now - DAY);
    OnlyToday(j, m - 1, limit);
    assert LastDecision(run) == Accepted;
    StepEffect(run, "");
    ScheduleStep(j, m, limit, limits);
  }

  lemma {:induction false} BetweenAll(events: seq<real>, lo: real, hi: real)
    requires forall i :: 0 <= i < |events| ==> lo < events[i] <= hi
    ensures Between(events, lo, hi) == |events|
  {
    if events != [] {
      BetweenAll(events[..|events| - 1], lo, hi);
    }
  }

  /** For any window the burst limit holds in every run exactly when the window is at most a
      day or so many days of the smaller limit are within it: the log keeps no longer than a
      day, and after that the same requests are accepted once more. */
  lemma BurstKeptExactly(limits: Limits)
    requires limits.burst >= 1 && limits.daily >= 1 && limits.window >= 1
    ensures BurstKept(limits) <==> limits.window <= 86400 || Least(limits) * Days(limits.window) <= limits.burst
  {
    hide History, ClockForward, SameLimits, Between;
    if limits.window <= 86400 || Least(limits) * Days(limits.window) <= limits.burst {
      forall run, key, t | ClockForward(run) && SameLimits(run, key, limits)
        ensures WithinBurst(run, key, t, limits)
      {
        if limits.window <= 86400 {
          WindowsHold(run, key, limits, t);
        } else {
          LongWindowHolds(run, key, limits, t);
        }
      }
    } else {
      var limit, c := Least(limits), Days(limits.window);
      var run, t := Schedule(c - 1, limit, limit, limits), DayStart(c - 1);
      ScheduleAccepted(c - 1, limit, limit, limits);
      TimesExact(c - 1, limit, limit);
      assert t < limits.window as real;
      BetweenAll(Times(c - 1, limit, limit), t - limits.window as real, t);
      assert (c - 1) * limit + limit == limit * c;
      assert !WithinBurst(run, "", t, limits);
    }
  }
}
