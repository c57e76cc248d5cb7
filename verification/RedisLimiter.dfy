/** The shared limiter: every check is four commands on one sorted set, and the commands of
    different clients interleave. */
module RedisLimiter {

  /** A member name: the time to six decimals, in microseconds. */
  datatype Name = Micros(count: int)

  /** Member to score. */
  type SortedSet = map<Name, real>

  datatype Params = Params(burst: nat, window: real, daily: nat, day: real, flight: real) {
    /** Requests are in flight for less than the slack between the day and the burst window. */
    predicate Sane() {
      0.0 < window && 0.0 < flight && window + flight <= day
    }
  }

  /** Where a client stands in its check; `now` is the time it read before the first command. */
  datatype Client =
    | Idle
    | Started(now: real)
    | Pruned(now: real)
    | Counted(now: real, inBurst: nat)
    | Carded(now: real, inBurst: nat, inDay: nat)

  datatype State = State(
    clock: real,
    zset: SortedSet,
    clients: seq<Client>,
    admitted: SortedSet,   // every admission so far, under its member name
    admissions: nat
  )

  datatype Step = Tick(to: real) | Begin(i: nat) | Prune(i: nat) | Count(i: nat) | Card(i: nat) | Finish(i: nat)

  // ---------------------------------------------------------------------------
  // Commands
  // ---------------------------------------------------------------------------

  function Member(now: real): Name {
    Micros((now * 1000000.0 + 0.5).Floor)
  }

  function ZRemRangeByScore(z: SortedSet, lo: real, hi: real): SortedSet {
    map m | m in z && !(lo <= z[m] <= hi) :: z[m]
  }

  function InRange(z: SortedSet, lo: real, hi: real): set<Name> {
    set m | m in z && lo <= z[m] <= hi
  }

  function ZCount(z: SortedSet, lo: real, hi: real): nat {
    |InRange(z, lo, hi)|
  }

  function ZCard(z: SortedSet): nat {
    |z|
  }

  function ZAdd(z: SortedSet, member: Name, score: real): SortedSet {
    z[member := score]
  }

  // ---------------------------------------------------------------------------
  // Steps
  // ---------------------------------------------------------------------------

  /** No admission and no other request in flight has the six-decimal name of `now`. */
  ghost predicate FreshName(s: State, now: real) {
    && Member(now) !in s.admitted
    && forall j :: 0 <= j < |s.clients| && !s.clients[j].Idle? ==> Member(s.clients[j].now) != Member(now)
  }

  ghost predicate InFlightShort(s: State, clock: real, p: Params) {
    forall j :: 0 <= j < |s.clients| && !s.clients[j].Idle? ==> clock - s.clients[j].now < p.flight
  }

  /** When a step can happen, with the assumptions on the clock spelled out: it never goes
      back, requests read distinct names, and none stays in flight for `flight` seconds. */
  ghost predicate Enabled(s: State, step: Step, p: Params) {
    match step
    case Tick(to) => s.clock <= to && InFlightShort(s, to, p)
    case Begin(i) => i < |s.clients| && s.clients[i].Idle? && FreshName(s, s.clock)
    case Prune(i) => i < |s.clients| && s.clients[i].Started?
    case Count(i) => i < |s.clients| && s.clients[i].Pruned?
    case Card(i) => i < |s.clients| && s.clients[i].Counted?
    case Finish(i) => i < |s.clients| && s.clients[i].Carded?
  }

  predicate Admits(c: Client, p: Params)
    requires c.Carded?
  {
    c.inBurst < p.burst && c.inDay < p.daily
  }

  predicate AtPhase(s: State, step: Step) {
    match step
    case Tick(_) => true
    case Begin(i) => i < |s.clients|
    case Prune(i) => i < |s.clients| && s.clients[i].Started?
    case Count(i) => i < |s.clients| && s.clients[i].Pruned?
    case Card(i) => i < |s.clients| && s.clients[i].Counted?
    case Finish(i) => i < |s.clients| && s.clients[i].Carded?
  }

  function Apply(s: State, step: Step, p: Params): State
    requires AtPhase(s, step)
  {
    match step
    case Tick(to) => s.(clock := to)
    case Begin(i) => s.(clients := s.clients[i := Started(s.clock)])
    case Prune(i) =>
      var now := s.clients[i].now;
      s.(zset := ZRemRangeByScore(s.zset, 0.0, now - p.day), clients := s.clients[i := Pruned(now)])
    case Count(i) =>
      var now := s.clients[i].now;
      s.(clients := s.clients[i := Counted(now, ZCount(s.zset, now - p.window, now))])
    case Card(i) =>
      s.(clients := s.clients[i := Carded(s.clients[i].now, s.clients[i].inBurst, ZCard(s.zset))])
    case Finish(i) =>
      var now := s.clients[i].now;
      if Admits(s.clients[i], p) then
        s.(zset := ZAdd(s.zset, Member(now), now), clients := s.clients[i := Idle],
           admitted := s.admitted[Member(now) := now], admissions := s.admissions + 1)
      else s.(clients := s.clients[i := Idle])
  }

  function Init(n: nat): State {
    State(0.0, map[], seq(n, _ => Idle), map[], 0)
  }

  /** The states a run of steps goes through, all steps enabled. */
  ghost predicate IsRun(steps: seq<Step>, n: nat, p: Params)
    decreases |steps|, 0
  {
    steps == [] ||
    (IsRun(steps[..|steps| - 1], n, p)
     && Enabled(After(steps[..|steps| - 1], n, p), steps[|steps| - 1], p))
  }

  ghost function After(steps: seq<Step>, n: nat, p: Params): State
    requires IsRun(steps, n, p)
    decreases |steps|, 1
  {
    if steps == [] then Init(n)
    else Apply(After(steps[..|steps| - 1], n, p), steps[|steps| - 1], p)
  }

  // ---------------------------------------------------------------------------
  // Invariant
  // ---------------------------------------------------------------------------

  predicate InFlight(s: State, j: int) {
    0 <= j < |s.clients| && !s.clients[j].Idle?
  }

  /** Clients in flight that read a time before `t`. */
  function Earlier(s: State, t: real): set<int> {
    set j | 0 <= j < |s.clients| && !s.clients[j].Idle? && s.clients[j].now < t
  }

  /** Admissions in the closed window that ends at `t`, with the ones that may still join it. */
  ghost predicate Bounded(s: State, t: real, length: real, k: int) {
    |InRange(s.admitted, t - length, t)| + |Earlier(s, t)| <= k
  }

  ghost predicate Timely(s: State, p: Params) {
    && 0.0 <= s.clock
    && (forall m :: m in s.admitted ==> 0.0 <= s.admitted[m] <= s.clock && m == Member(s.admitted[m]))
    && (forall j :: InFlight(s, j) ==> 0.0 <= s.clients[j].now <= s.clock && s.clock - s.clients[j].now < p.flight)
  }

  ghost predicate Distinct(s: State) {
    && (forall j :: InFlight(s, j) ==> Member(s.clients[j].now) !in s.admitted)
    && (forall j, k :: InFlight(s, j) && InFlight(s, k) && j != k ==>
      Member(s.clients[j].now) != Member(s.clients[k].now))
    && s.admissions == |s.admitted|
  }

  /** The sorted set holds admissions only, and all of the last day. */
  ghost predicate Faithful(s: State, p: Params) {
    && (forall m :: m in s.zset ==> m in s.admitted && s.zset[m] == s.admitted[m])
    && (forall m :: m in s.admitted && s.admitted[m] > s.clock - p.day ==> m in s.zset)
  }

  /** Window a day check can vouch for: others may prune up to `flight` seconds ahead. */
  function DayWindow(p: Params): real {
    p.day - p.flight
  }

  ghost predicate Promised(s: State, p: Params) {
    && (forall j :: InFlight(s, j) && (s.clients[j].Counted? || s.clients[j].Carded?) ==>
         Bounded(s, s.clients[j].now, p.window, s.clients[j].inBurst + |s.clients| - 1))
    && (forall j :: InFlight(s, j) && s.clients[j].Carded? ==>
         Bounded(s, s.clients[j].now, DayWindow(p), s.clients[j].inDay + |s.clients| - 1))
  }

  ghost predicate Kept(s: State, p: Params) {
    forall m :: m in s.admitted ==>
      && Bounded(s, s.admitted[m], p.window, p.burst + |s.clients| - 1)
      && Bounded(s, s.admitted[m], DayWindow(p), p.daily + |s.clients| - 1)
  }

  ghost predicate Inv(s: State, p: Params) {
    Timely(s, p) && Distinct(s) && Faithful(s, p) && Promised(s, p) && Kept(s, p)
  }

  /** A bound on a window survives every step that does not end exactly at it: an admission
      that joins the window was already counted among the earlier requests in flight. */
  lemma BoundedStays(s: State, step: Step, p: Params, t: real, length: real, k: int)
    requires Timely(s, p) && Enabled(s, step, p) && t <= s.clock
    requires step.Finish? && Admits(s.clients[step.i], p) ==> s.clients[step.i].now != t && Distinct(s)
    requires Bounded(s, t, length, k)
    ensures Bounded(Apply(s, step, p), t, length, k)
  {
    if step.Finish? {
      if Admits(s.clients[step.i], p) && s.clients[step.i].now < t {
        JoiningStays(s, step.i, p, t, length);
      } else {
        LeavingStays(s, step.i, p, t, length);
      }
    } else {
      assert Earlier(Apply(s, step, p), t) == Earlier(s, t);
    }
  }

  lemma JoiningStays(s: State, i: nat, p: Params, t: real, length: real)
    requires Enabled(s, Finish(i), p) && Admits(s.clients[i], p) && s.clients[i].now < t
    requires Member(s.clients[i].now) !in s.admitted
    ensures var s' := Apply(s, Finish(i), p);
      |InRange(s'.admitted, t - length, t)| + |Earlier(s', t)| <= |InRange(s.admitted, t - length, t)| + |Earlier(s, t)|
  {
    hide Member;
    var s', name := Apply(s, Finish(i), p), Member(s.clients[i].now);
    assert Earlier(s', t) == Earlier(s, t) - {i as int};
    assert i as int in Earlier(s, t);
    SubsetSize(InRange(s'.admitted, t - length, t), InRange(s.admitted, t - length, t) + {name});
  }

  lemma LeavingStays(s: State, i: nat, p: Params, t: real, length: real)
    requires Enabled(s, Finish(i), p)
      && (Admits(s.clients[i], p) ==> s.clients[i].now > t && Member(s.clients[i].now) !in s.admitted)
    ensures var s' := Apply(s, Finish(i), p);
      |InRange(s'.admitted, t - length, t)| + |Earlier(s', t)| <= |InRange(s.admitted, t - length, t)| + |Earlier(s, t)|
  {
    hide Member;
    var s' := Apply(s, Finish(i), p);
    SubsetSize(InRange(s'.admitted, t - length, t), InRange(s.admitted, t - length, t));
    SubsetSize(Earlier(s', t), Earlier(s, t));
  }

  lemma {:induction false} SubsetSize<T>(a: set<T>, b: set<T>)
    requires a <= b
    ensures |a| <= |b|
  {
    if a != {} {
      var x :| x in a;
      SubsetSize(a - {x}, b - {x});
    }
  }

  function Indices(n: nat): (r: set<int>)
    ensures |r| == n && forall j :: j in r <==> 0 <= j < n
  {
    if n == 0 then {} else Indices(n - 1) + {n - 1}
  }

  lemma OthersInFlight(s: State, i: int)
    requires InFlight(s, i)
    ensures |Earlier(s, s.clients[i].now)| <= |s.clients| - 1
  {
    SubsetSize(Earlier(s, s.clients[i].now), Indices(|s.clients|) - {i});
  }

  lemma SameRange(a: SortedSet, b: SortedSet, lo: real, hi: real)
    requires forall m :: m in a ==> m in b && a[m] == b[m]
    requires forall m :: m in b && lo <= b[m] <= hi ==> m in a
    ensures InRange(a, lo, hi) == InRange(b, lo, hi)
  {
  }

  /** Nothing a window check counts has been pruned by anyone. */
  lemma WindowIntact(s: State, p: Params, i: int)
    requires p.Sane() && Timely(s, p) && Faithful(s, p) && InFlight(s, i)
    ensures InRange(s.zset, s.clients[i].now - p.window, s.clients[i].now) ==
      InRange(s.admitted, s.clients[i].now - p.window, s.clients[i].now)
    ensures |InRange(s.admitted, s.clients[i].now - DayWindow(p), s.clients[i].now)| <= |s.zset|
  {
    var now := s.clients[i].now;
    assert now - p.window > s.clock - p.day;
    assert now - DayWindow(p) > s.clock - p.day;
    forall m | m in s.admitted && (s.admitted[m] >= now - p.window || s.admitted[m] >= now - DayWindow(p))
      ensures m in s.zset
    {
      assert s.admitted[m] > s.clock - p.day;
    }
    SameRange(s.zset, s.admitted, now - p.window, now);
    SubsetSize(InRange(s.admitted, now - DayWindow(p), now), s.zset.Keys);
  }

  lemma TimelyStep(s: State, step: Step, p: Params)
    requires Timely(s, p) && Enabled(s, step, p) && p.Sane()
    ensures Timely(Apply(s, step, p), p)
  {
    hide Member;
  }

  lemma DistinctStep(s: State, step: Step, p: Params)
    requires Distinct(s) && Enabled(s, step, p)
    ensures Distinct(Apply(s, step, p))
  {
    hide Member;
  }

  lemma FaithfulStep(s: State, step: Step, p: Params)
    requires Timely(s, p) && Distinct(s) && Faithful(s, p) && Enabled(s, step, p)
    ensures Faithful(Apply(s, step, p), p)
  {
    hide Member;
  }

  lemma PromisedStep(s: State, step: Step, p: Params)
    requires Inv(s, p) && Enabled(s, step, p) && p.Sane()
    ensures Promised(Apply(s, step, p), p)
  {
    hide Bounded, Inv, Member;
    var s' := Apply(s, step, p);
    forall j | InFlight(s', j) && (s'.clients[j].Counted? || s'.clients[j].Carded?)
      ensures Bounded(s', s'.clients[j].now, p.window, s'.clients[j].inBurst + |s'.clients| - 1)
    {
      PromiseKept(s, step, p, j);
    }
    forall j | InFlight(s', j) && s'.clients[j].Carded?
      ensures Bounded(s', s'.clients[j].now, DayWindow(p), s'.clients[j].inDay + |s'.clients| - 1)
    {
      PromiseKept(s, step, p, j);
    }
  }

  lemma PromiseKept(s: State, step: Step, p: Params, j: int)
    requires Inv(s, p) && Enabled(s, step, p) && p.Sane()
    requires InFlight(Apply(s, step, p), j)
    ensures var s' := Apply(s, step, p); var c := s'.clients[j];
      && (c.Counted? || c.Carded? ==> Bounded(s', c.now, p.window, c.inBurst + |s'.clients| - 1))
      && (c.Carded? ==> Bounded(s', c.now, DayWindow(p), c.inDay + |s'.clients| - 1))
  {
    hide Bounded, Faithful, Kept, Member;
    var c := Apply(s, step, p).clients[j];
    if c.Counted? || c.Carded? {
      if step == Count(j) {
        CountPromises(s, p, j);
      } else {
        BoundedStays(s, step, p, c.now, p.window, c.inBurst + |s.clients| - 1);
      }
    }
    if c.Carded? {
      if step == Card(j) {
        CardPromises(s, p, j);
      } else {
        BoundedStays(s, step, p, c.now, DayWindow(p), c.inDay + |s.clients| - 1);
      }
    }
  }

  /** At its count a client sees every admission of its window; only the other clients in
      flight can still add to it. */
  lemma CountPromises(s: State, p: Params, i: nat)
    requires p.Sane() && Timely(s, p) && Faithful(s, p) && Enabled(s, Count(i), p)
    ensures var s' := Apply(s, Count(i), p);
      Bounded(s', s'.clients[i].now, p.window, s'.clients[i].inBurst + |s'.clients| - 1)
  {
    hide Timely, Faithful;
    WindowIntact(s, p, i);
    OthersInFlight(s, i);
    assert Earlier(Apply(s, Count(i), p), s.clients[i].now) == Earlier(s, s.clients[i].now);
  }

  lemma CardPromises(s: State, p: Params, i: nat)
    requires p.Sane() && Timely(s, p) && Faithful(s, p) && Enabled(s, Card(i), p)
    ensures var s' := Apply(s, Card(i), p);
      Bounded(s', s'.clients[i].now, DayWindow(p), s'.clients[i].inDay + |s'.clients| - 1)
  {
    hide Timely, Faithful;
    WindowIntact(s, p, i);
    OthersInFlight(s, i);
    assert Earlier(Apply(s, Card(i), p), s.clients[i].now) == Earlier(s, s.clients[i].now);
  }

  lemma KeptStep(s: State, step: Step, p: Params)
    requires Inv(s, p) && Enabled(s, step, p) && p.Sane()
    ensures Kept(Apply(s, step, p), p)
  {
    hide Bounded, Promised, Faithful;
    var s' := Apply(s, step, p);
    forall m | m in s'.admitted
      ensures Bounded(s', s'.admitted[m], p.window, p.burst + |s.clients| - 1)
      ensures Bounded(s', s'.admitted[m], DayWindow(p), p.daily + |s.clients| - 1)
    {
      if m in s.admitted {
        BoundedStays(s, step, p, s.admitted[m], p.window, p.burst + |s.clients| - 1);
        BoundedStays(s, step, p, s.admitted[m], DayWindow(p), p.daily + |s.clients| - 1);
      } else {
        var c := s.clients[step.i];
        CardedPromise(s, p, step.i);
        AdmissionBounded(s, step.i, p, p.window, c.inBurst + |s.clients| - 1, p.burst + |s.clients| - 1);
        AdmissionBounded(s, step.i, p, DayWindow(p), c.inDay + |s.clients| - 1, p.daily + |s.clients| - 1);
      }
    }
  }

  lemma CardedPromise(s: State, p: Params, i: nat)
    requires Promised(s, p) && InFlight(s, i) && s.clients[i].Carded?
    ensures Bounded(s, s.clients[i].now, p.window, s.clients[i].inBurst + |s.clients| - 1)
    ensures Bounded(s, s.clients[i].now, DayWindow(p), s.clients[i].inDay + |s.clients| - 1)
  {
  }

  lemma AdmittedOne(z: SortedSet, name: Name, now: real, length: real)
    requires name !in z && length >= 0.0
    ensures |InRange(z[name := now], now - length, now)| == |InRange(z, now - length, now)| + 1
  {
    assert name !in InRange(z, now - length, now);
    assert InRange(z[name := now], now - length, now) == InRange(z, now - length, now) + {name};
  }

  /** An admission adds itself to the window that ends at its own time. */
  lemma AdmissionBounded(s: State, i: nat, p: Params, length: real, k: int, limit: int)
    requires Inv(s, p) && Enabled(s, Finish(i), p) && Admits(s.clients[i], p) && length >= 0.0
    requires Bounded(s, s.clients[i].now, length, k) && k < limit
    ensures Bounded(Apply(s, Finish(i), p), s.clients[i].now, length, limit)
  {
    hide Promised, Kept, Faithful, Member;
    var s', now := Apply(s, Finish(i), p), s.clients[i].now;
    assert s'.admitted == s.admitted[Member(now) := now];
    AdmittedOne(s.admitted, Member(now), now, length);
    assert Earlier(s', now) == Earlier(s, now);
  }

  lemma StepKeepsInv(s: State, step: Step, p: Params)
    requires Inv(s, p) && Enabled(s, step, p) && p.Sane()
    ensures Inv(Apply(s, step, p), p) && |Apply(s, step, p).clients| == |s.clients|
  {
    hide Timely, Distinct, Faithful, Promised, Kept;
    TimelyStep(s, step, p);
    DistinctStep(s, step, p);
    FaithfulStep(s, step, p);
    PromisedStep(s, step, p);
    KeptStep(s, step, p);
  }

  lemma {:induction false} RunsKeepInv(steps: seq<Step>, n: nat, p: Params)
    requires IsRun(steps, n, p) && p.Sane()
    ensures Inv(After(steps, n, p), p) && |After(steps, n, p).clients| == n
  {
    if steps != [] {
      hide Inv, Enabled;
      var init := steps[..|steps| - 1];
      RunsKeepInv(init, n, p);
      StepKeepsInv(After(init, n, p), steps[|steps| - 1], p);
    }
  }

  /** An admission no later than `t` and not earlier than any other of the set. */
  lemma {:induction false} Latest(z: SortedSet, ms: set<Name>) returns (top: Name)
    requires ms != {} && ms <= z.Keys
    ensures top in ms && forall m :: m in ms ==> z[m] <= z[top]
  {
    var x :| x in ms;
    if ms == {x} {
      top := x;
    } else {
      top := Latest(z, ms - {x});
      if z[top] < z[x] {
        top := x;
      }
    }
  }

  /** In every interleaving of `n` sequential clients, a window of the burst length (both ends
      included) holds at most `burst + n - 1` admissions, and a window short of a day by the
      time requests stay in flight at most `daily + n - 1`. */
  lemma WindowsHold(steps: seq<Step>, n: nat, p: Params, t: real)
    requires IsRun(steps, n, p) && p.Sane() && n >= 1
    ensures var s := After(steps, n, p);
      && s.admissions == |s.admitted|
      && |InRange(s.admitted, t - p.window, t)| <= p.burst + n - 1
      && |InRange(s.admitted, t - DayWindow(p), t)| <= p.daily + n - 1
  {
    hide IsRun, After, Bounded, Faithful, Promised;
    RunsKeepInv(steps, n, p);
    var s := After(steps, n, p);
    KeptBounds(s, p, t, p.window, p.burst + n - 1);
    KeptBounds(s, p, t, DayWindow(p), p.daily + n - 1);
  }

  lemma KeptBounds(s: State, p: Params, t: real, length: real, k: nat)
    requires forall m :: m in s.admitted ==> Bounded(s, s.admitted[m], length, k)
    ensures |InRange(s.admitted, t - length, t)| <= k
  {
    var ms := InRange(s.admitted, t - length, t);
    if ms != {} {
      var top := Latest(s.admitted, ms);
      assert s.admitted[top] - length <= t - length;
      forall m | m in ms
        ensures m in InRange(s.admitted, s.admitted[top] - length, s.admitted[top])
      {
        assert s.admitted[m] >= t - length;
      }
      SubsetSize(ms, InRange(s.admitted, s.admitted[top] - length, s.admitted[top]));
    }
  }

  // ---------------------------------------------------------------------------
  // One client
  // ---------------------------------------------------------------------------

  /** Admissions of the half-open day that ends at `t`. */
  function OfDay(z: SortedSet, t: real, day: real): set<Name> {
    set m | m in z && t - day < z[m] <= t
  }

  /** The time the only client goes by. */
  function OwnTime(s: State): real
    requires |s.clients| == 1
  {
    if s.clients[0].Idle? then s.clock else s.clients[0].now
  }

  /** Nothing was admitted later than the client's time, nothing of its last day was pruned, so
      what it reads as the size of the set is at least the admissions of that day. */
  ghost predicate Lonely(s: State, p: Params) {
    && |s.clients| == 1 && OwnTime(s) <= s.clock
    && (forall m :: m in s.admitted ==> s.admitted[m] <= OwnTime(s))
    && (forall m :: m in s.admitted && s.admitted[m] > OwnTime(s) - p.day ==> m in s.zset)
    && (s.clients[0].Carded? ==> |OfDay(s.admitted, OwnTime(s), p.day)| <= s.clients[0].inDay)
    && (forall m :: m in s.admitted ==> |OfDay(s.admitted, s.admitted[m], p.day)| <= p.daily)
  }

  lemma LonelyStep(s: State, step: Step, p: Params)
    requires Lonely(s, p) && Enabled(s, step, p) && p.Sane()
    requires Timely(s, p) && Distinct(s) && Faithful(s, p)
    ensures Lonely(Apply(s, step, p), p)
  {
    hide Member, OfDay;
    match step {
      case Card(_) => CardSeesDay(s, p);
      case Finish(_) =>
        if Admits(s.clients[0], p) {
          LonelyAdmission(s, p);
        }
      case _ =>
    }
  }

  lemma CardSeesDay(s: State, p: Params)
    requires Lonely(s, p) && !s.clients[0].Idle?
    ensures |OfDay(s.admitted, OwnTime(s), p.day)| <= |s.zset|
  {
    SubsetSize(OfDay(s.admitted, OwnTime(s), p.day), s.zset.Keys);
  }

  lemma LonelyAdmission(s: State, p: Params)
    requires Lonely(s, p) && Enabled(s, Finish(0), p) && Timely(s, p) && Distinct(s) && p.Sane()
    requires Admits(s.clients[0], p)
    ensures Lonely(Apply(s, Finish(0), p), p)
  {
    hide Member, OfDay, Timely, Distinct;
    var now := s.clients[0].now;
    var name, s' := Member(now), Apply(s, Finish(0), p);
    assert name !in s.admitted && forall m :: m in s.admitted ==> s.admitted[m] < now by {
      hide Lonely;
      LaterThanAll(s, p);
    }
    DayWithNew(s.admitted, name, now, p.day);
    assert s'.admitted == s.admitted[name := now];
    forall m | m in s.admitted
      ensures OfDay(s'.admitted, s.admitted[m], p.day) == OfDay(s.admitted, s.admitted[m], p.day)
    {
      DayBefore(s.admitted, name, now, s.admitted[m], p.day);
    }
  }

  lemma LaterThanAll(s: State, p: Params)
    requires Lonely(s, p) && !s.clients[0].Idle? && Timely(s, p) && Distinct(s)
    ensures Member(s.clients[0].now) !in s.admitted
    ensures forall m :: m in s.admitted ==> s.admitted[m] < s.clients[0].now
  {
    hide Member, OfDay;
    assert InFlight(s, 0);
  }

  lemma DayWithNew(z: SortedSet, name: Name, now: real, day: real)
    requires name !in z && day > 0.0
    ensures |OfDay(z[name := now], now, day)| == |OfDay(z, now, day)| + 1
  {
    assert name !in OfDay(z, now, day);
    assert OfDay(z[name := now], now, day) == OfDay(z, now, day) + {name};
  }

  lemma DayBefore(z: SortedSet, name: Name, now: real, t: real, day: real)
    requires name !in z && t < now
    ensures OfDay(z[name := now], t, day) == OfDay(z, t, day)
  {
  }

  lemma {:induction false} RunsKeepLonely(steps: seq<Step>, p: Params)
    requires IsRun(steps, 1, p) && p.Sane()
    ensures Lonely(After(steps, 1, p), p)
  {
    if steps != [] {
      hide Lonely, Enabled, Timely, Distinct, Faithful, Promised, Kept;
      var init := steps[..|steps| - 1];
      RunsKeepLonely(init, p);
      RunsKeepInv(init, 1, p);
      LonelyStep(After(init, 1, p), steps[|steps| - 1], p);
    }
  }

  /** With one client every half-open day holds at most the daily limit, nothing given away to
      the time requests stay in flight. */
  lemma OneClientDay(steps: seq<Step>, p: Params, t: real)
    requires IsRun(steps, 1, p) && p.Sane()
    ensures |OfDay(After(steps, 1, p).admitted, t, p.day)| <= p.daily
  {
    hide IsRun, After;
    RunsKeepLonely(steps, p);
    var s := After(steps, 1, p);
    var ms := OfDay(s.admitted, t, p.day);
    if ms != {} {
      var top := Latest(s.admitted, ms);
      SubsetSize(ms, OfDay(s.admitted, s.admitted[top], p.day));
    }
  }

  // ---------------------------------------------------------------------------
  // Refusals
  // ---------------------------------------------------------------------------

  function LaterThan(z: SortedSet, t: real): set<Name> {
    set m | m in z && z[m] > t
  }

  predicate HasPruned(c: Client) {
    c.Pruned? || c.Counted? || c.Carded?
  }

  /** Once a client has pruned, nothing a day older than its time is in the set, and what it
      counts are admissions. */
  ghost predicate SeesAdmissions(s: State, c: Client, p: Params)
    requires !c.Idle?
  {
    && (HasPruned(c) ==> forall m :: m in s.zset ==> s.zset[m] > c.now - p.day)
    && (c.Counted? || c.Carded? ==> c.inBurst <= |InRange(s.admitted, c.now - p.window, c.now)|)
    && (c.Carded? ==> c.inDay <= |LaterThan(s.admitted, c.now - p.day)|)
  }

  ghost predicate Pruning(s: State, p: Params) {
    forall j :: InFlight(s, j) ==> SeesAdmissions(s, s.clients[j], p)
  }

  lemma AdmittedGrows(z: SortedSet, name: Name, score: real, lo: real, hi: real)
    requires name !in z
    ensures |InRange(z, lo, hi)| <= |InRange(z[name := score], lo, hi)|
    ensures |LaterThan(z, lo)| <= |LaterThan(z[name := score], lo)|
  {
    SubsetSize(InRange(z, lo, hi), InRange(z[name := score], lo, hi));
    SubsetSize(LaterThan(z, lo), LaterThan(z[name := score], lo));
  }

  /** Taking entries away from the set leaves what a client has seen as it was. */
  lemma SeesStays(s: State, s': State, c: Client, p: Params)
    requires !c.Idle? && SeesAdmissions(s, c, p) && s'.admitted == s.admitted
    requires forall m :: m in s'.zset ==> m in s.zset && s'.zset[m] == s.zset[m]
    ensures SeesAdmissions(s', c, p)
  {
  }

  lemma OwnStep(s: State, step: Step, p: Params, j: nat)
    requires InFlight(s, j) && SeesAdmissions(s, s.clients[j], p) && Timely(s, p) && Faithful(s, p)
    requires step == Prune(j) || step == Count(j) || step == Card(j)
    requires Enabled(s, step, p)
    ensures SeesAdmissions(Apply(s, step, p), Apply(s, step, p).clients[j], p)
  {
    hide Member, InRange, LaterThan, Timely, Faithful, ZRemRangeByScore, ZCount;
    match step {
      case Prune(_) => PruneClears(s, j, p);
      case Count(_) => CountedAreAdmitted(s, p, s.clients[j].now);
      case Card(_) => SizeIsOfDay(s, p, s.clients[j].now);
    }
  }

  lemma PruningStep(s: State, step: Step, p: Params, j: int)
    requires Pruning(s, p) && Timely(s, p) && Distinct(s) && Faithful(s, p) && Enabled(s, step, p) && p.Sane()
    requires InFlight(Apply(s, step, p), j)
    ensures SeesAdmissions(Apply(s, step, p), Apply(s, step, p).clients[j], p)
  {
    hide Member, Timely, Distinct, Faithful, ZRemRangeByScore, ZCount, SeesAdmissions;
    var s' := Apply(s, step, p);
    if step.Finish? {
      AddingSees(s, step.i, p, j);
    } else if step == Begin(j) {
      JustStarted(s', s'.clients[j], p);
    } else if step == Prune(j) || step == Count(j) || step == Card(j) {
      assert InFlight(s, j);
      OwnStep(s, step, p, j);
    } else {
      assert InFlight(s, j) && s'.clients[j] == s.clients[j];
      if step.Prune? {
        assert InFlight(s, step.i);
        PruneClears(s, step.i, p);
      }
      SeesStays(s, s', s.clients[j], p);
    }
  }

  lemma JustStarted(s: State, c: Client, p: Params)
    requires c.Started?
    ensures SeesAdmissions(s, c, p)
  {
  }

  /** A prune takes away what is a day old and adds nothing. */
  lemma PruneClears(s: State, i: nat, p: Params)
    requires Timely(s, p) && Faithful(s, p) && InFlight(s, i)
    ensures var z := ZRemRangeByScore(s.zset, 0.0, s.clients[i].now - p.day);
      && (forall m :: m in z ==> m in s.zset && z[m] == s.zset[m])
      && (forall m :: m in z ==> z[m] > s.clients[i].now - p.day)
  {
    hide Member;
  }

  lemma AddingSees(s: State, i: nat, p: Params, j: int)
    requires Pruning(s, p) && Timely(s, p) && Distinct(s) && Enabled(s, Finish(i), p) && p.Sane()
    requires InFlight(Apply(s, Finish(i), p), j)
    ensures SeesAdmissions(Apply(s, Finish(i), p), Apply(s, Finish(i), p).clients[j], p)
  {
    hide Member, InRange, LaterThan, Timely, Distinct;
    var c, now := s.clients[j], s.clients[i].now;
    assert Apply(s, Finish(i), p).clients[j] == c && InFlight(s, j);
    if Admits(s.clients[i], p) {
      AddedInTime(s, i, j, p);
      AdmittedGrows(s.admitted, Member(now), now, c.now - p.window, c.now);
      AdmittedGrows(s.admitted, Member(now), now, c.now - p.day, c.now);
    }
  }

  lemma AddedInTime(s: State, i: nat, j: int, p: Params)
    requires Timely(s, p) && Distinct(s) && InFlight(s, i) && InFlight(s, j) && p.Sane()
    ensures Member(s.clients[i].now) !in s.admitted && s.clients[i].now > s.clients[j].now - p.day
  {
    hide Member;
  }

  lemma PruningKept(s: State, step: Step, p: Params)
    requires Pruning(s, p) && Timely(s, p) && Distinct(s) && Faithful(s, p) && Enabled(s, step, p) && p.Sane()
    ensures Pruning(Apply(s, step, p), p)
  {
    hide SeesAdmissions, Timely, Distinct, Faithful, Apply;
    forall j | InFlight(Apply(s, step, p), j)
      ensures SeesAdmissions(Apply(s, step, p), Apply(s, step, p).clients[j], p)
    {
      PruningStep(s, step, p, j);
    }
  }

  lemma CountedAreAdmitted(s: State, p: Params, now: real)
    requires Faithful(s, p)
    ensures ZCount(s.zset, now - p.window, now) <= |InRange(s.admitted, now - p.window, now)|
  {
    SubsetSize(InRange(s.zset, now - p.window, now), InRange(s.admitted, now - p.window, now));
  }

  lemma SizeIsOfDay(s: State, p: Params, now: real)
    requires Faithful(s, p) && forall m :: m in s.zset ==> s.zset[m] > now - p.day
    ensures |s.zset| <= |LaterThan(s.admitted, now - p.day)|
  {
    SubsetSize(s.zset.Keys, LaterThan(s.admitted, now - p.day));
  }

  lemma {:induction false} RunsKeepPruning(steps: seq<Step>, n: nat, p: Params)
    requires IsRun(steps, n, p) && p.Sane()
    ensures Pruning(After(steps, n, p), p)
  {
    if steps != [] {
      hide Pruning, Enabled, Timely, Distinct, Faithful, Promised, Kept, Apply;
      var init := steps[..|steps| - 1];
      RunsKeepPruning(init, n, p);
      RunsKeepInv(init, n, p);
      PruningKept(After(init, n, p), steps[|steps| - 1], p);
    }
  }

  /** Refusals are justified: in every interleaving a check is refused only when its burst
      window holds `burst` admissions or `daily` of them are less than a day old. */
  lemma RefusalsJustified(steps: seq<Step>, n: nat, p: Params, i: nat)
    requires IsRun(steps, n, p) && p.Sane()
    requires i < |After(steps, n, p).clients| && After(steps, n, p).clients[i].Carded?
    ensures var s := After(steps, n, p); var now := s.clients[i].now;
      Admits(s.clients[i], p)
      || |InRange(s.admitted, now - p.window, now)| >= p.burst
      || |LaterThan(s.admitted, now - p.day)| >= p.daily
  {
    hide IsRun, After;
    RunsKeepPruning(steps, n, p);
    assert InFlight(After(steps, n, p), i);
  }

  /** A single client sees the set hold the admissions of its day, no more and no fewer, and
      counts those of its window. */
  ghost predicate SeesItsDay(s: State, p: Params)
    requires |s.clients| == 1
  {
    var c := s.clients[0];
    && (HasPruned(c) ==> s.zset.Keys == OfDay(s.admitted, c.now, p.day))
    && (c.Counted? || c.Carded? ==> c.inBurst == |InRange(s.admitted, c.now - p.window, c.now)|)
    && (c.Carded? ==> c.inDay == |OfDay(s.admitted, c.now, p.day)|)
  }

  lemma SeesStep(s: State, step: Step, p: Params)
    requires |s.clients| == 1 && Lonely(s, p) && SeesItsDay(s, p) && Enabled(s, step, p) && p.Sane()
    requires Timely(s, p) && Faithful(s, p)
    ensures SeesItsDay(Apply(s, step, p), p)
  {
    hide Member, InRange, OfDay, Lonely, Timely, Faithful, ZRemRangeByScore;
    match step {
      case Prune(_) => PruneLeavesDay(s, p);
      case Count(_) =>
        assert InFlight(s, 0);
        WindowIntact(s, p, 0);
      case _ =>
    }
  }

  lemma PruneLeavesDay(s: State, p: Params)
    requires |s.clients| == 1 && Lonely(s, p) && Timely(s, p) && Faithful(s, p) && s.clients[0].Started?
    ensures ZRemRangeByScore(s.zset, 0.0, s.clients[0].now - p.day).Keys == OfDay(s.admitted, s.clients[0].now, p.day)
  {
    hide Member;
    assert InFlight(s, 0);
  }

  lemma {:induction false} RunsSeeDay(steps: seq<Step>, p: Params)
    requires IsRun(steps, 1, p) && p.Sane()
    ensures |After(steps, 1, p).clients| == 1 && SeesItsDay(After(steps, 1, p), p)
  {
    RunsKeepLonely(steps, p);
    if steps != [] {
      hide SeesItsDay, Lonely, Enabled, Timely, Distinct, Faithful, Promised, Kept;
      var init := steps[..|steps| - 1];
      RunsSeeDay(init, p);
      RunsKeepLonely(init, p);
      RunsKeepInv(init, 1, p);
      OneClientOnly(init, p);
      SeesStep(After(init, 1, p), steps[|steps| - 1], p);
    }
  }

  lemma OneClientOnly(steps: seq<Step>, p: Params)
    requires IsRun(steps, 1, p) && p.Sane()
    ensures |After(steps, 1, p).clients| == 1
  {
    RunsKeepInv(steps, 1, p);
  }

  /** So one client is admitted exactly when its burst window and its day, taken over all
      admissions ever made, have room: what is pruned is never missed and never in the way. */
  lemma OneClientDecides(steps: seq<Step>, p: Params)
    requires IsRun(steps, 1, p) && p.Sane()
    requires |After(steps, 1, p).clients| == 1 && After(steps, 1, p).clients[0].Carded?
    ensures var s := After(steps, 1, p); var now := s.clients[0].now;
      Admits(s.clients[0], p)
      <==> |InRange(s.admitted, now - p.window, now)| < p.burst && |OfDay(s.admitted, now, p.day)| < p.daily
  {
    hide IsRun, After;
    RunsSeeDay(steps, p);
  }

  lemma ExtendRun(steps: seq<Step>, step: Step, n: nat, p: Params)
    requires IsRun(steps, n, p) && Enabled(After(steps, n, p), step, p)
    ensures IsRun(steps + [step], n, p)
    ensures After(steps + [step], n, p) == Apply(After(steps, n, p), step, p)
  {
    assert (steps + [step])[..|steps|] == steps;
  }

  lemma EmptyRun(n: nat, p: Params)
    ensures IsRun([], n, p) && After([], n, p) == Init(n)
  {
  }

  // ---------------------------------------------------------------------------
  // The excess is reached
  // ---------------------------------------------------------------------------

  ghost predicate Reached(s: State, n: nat, p: Params) {
    exists steps :: IsRun(steps, n, p) && After(steps, n, p) == s
  }

  lemma Go(s: State, step: Step, n: nat, p: Params)
    requires Reached(s, n, p) && Enabled(s, step, p)
    ensures Reached(Apply(s, step, p), n, p)
  {
    hide IsRun, After, Enabled, Apply;
    var steps :| IsRun(steps, n, p) && After(steps, n, p) == s;
    ExtendRun(steps, step, n, p);
  }

  /** Time after `k` microseconds. */
  function At(k: nat): real {
    k as real / 1000000.0
  }

  lemma MemberAt(k: nat)
    ensures Member(At(k)) == Micros(k)
  {
    assert At(k) * 1000000.0 == k as real;
  }

  /** Admissions at the first `k` microseconds. */
  function Log(k: nat): SortedSet {
    if k == 0 then map[] else Log(k - 1)[Micros(k - 1) := At(k - 1)]
  }

  lemma {:induction false} LogExact(k: nat)
    ensures forall m :: m in Log(k) <==> 0 <= m.count < k
    ensures forall m :: m in Log(k) ==> Log(k)[m] == At(m.count)
    ensures |Log(k)| == k
  {
    hide At;
    if k > 0 {
      LogExact(k - 1);
      LogGrows(Log(k - 1), Micros(k - 1), At(k - 1));
    }
  }

  lemma LogGrows(z: SortedSet, name: Name, score: real)
    requires name !in z
    ensures |z[name := score]| == |z| + 1
  {
    assert z[name := score].Keys == z.Keys + {name};
  }

  /** The smaller limit is the one that binds. */
  function Limit(p: Params): nat {
    if p.burst <= p.daily then p.burst else p.daily
  }

  /** Clients read distinct microseconds, so the window has to have room for that many. */
  ghost predicate Room(n: nat, p: Params) {
    At(Limit(p) + n) <= p.window && At(n) < p.flight
  }

  /** Client `j` has read its time `b + j` and the counts of the first `b` admissions. */
  function Waiting(b: nat, j: nat, p: Params): Client {
    Carded(At(b + j), ZCount(Log(b), At(b + j) - p.window, At(b + j)), b)
  }

  function Line(b: nat, done: nat, started: nat, n: nat, p: Params): seq<Client> {
    seq(n, j requires 0 <= j < n => if done <= j < started then Waiting(b, j, p) else Idle)
  }

  /** After `b` admissions `started` clients have read the counts and `done` of them added. */
  function Stage(b: nat, done: nat, started: nat, n: nat, p: Params): State {
    State(At(b + started), Log(b + done), Line(b, done, started, n, p), Log(b + done), b + done)
  }

  lemma Compare(j: nat, k: nat)
    ensures At(j) <= At(k) <==> j <= k
    ensures At(j + k) == At(j) + At(k)
  {
  }

  lemma FreshStart(b: nat, started: nat, n: nat, p: Params)
    requires started < n
    ensures Enabled(Stage(b, 0, started, n, p), Begin(started), p)
  {
    hide Member, At, ZCount, Log;
    LogExact(b);
    MemberAt(b + started);
    forall j: nat | j < started
      ensures Member(Waiting(b, j, p).now) != Member(At(b + started))
    {
      MemberAt(b + j);
    }
    var s := Stage(b, 0, started, n, p);
    forall j | 0 <= j < n && !s.clients[j].Idle?
      ensures Member(s.clients[j].now) != Member(s.clock)
    {
      assert s.clients[j] == Waiting(b, j, p);
    }
  }

  /** Nothing in the log is old enough to be pruned. */
  lemma NothingPruned(b: nat, now: real, p: Params)
    requires now < p.day
    ensures ZRemRangeByScore(Log(b), 0.0, now - p.day) == Log(b)
  {
    LogExact(b);
  }

  /** The next client reads its time and the counts, and the clock moves on. */
  lemma CardOne(b: nat, started: nat, n: nat, p: Params)
    requires p.Sane() && Room(n, p) && b < Limit(p) && started < n
    requires Reached(Stage(b, 0, started, n, p), n, p)
    ensures Reached(Stage(b, 0, started + 1, n, p), n, p)
  {
    hide Member, At, Log, ZRemRangeByScore, ZCount, Reached;
    var s, i, now := Stage(b, 0, started, n, p), started, At(b + started);
    FreshStart(b, started, n, p);
    Go(s, Begin(i), n, p);
    var s1 := Apply(s, Begin(i), p);
    Compare(b + started, Limit(p) + n);
    NothingPruned(b, now, p);
    LogExact(b);
    Go(s1, Prune(i), n, p);
    var s2 := Apply(s1, Prune(i), p);
    Go(s2, Count(i), n, p);
    var s3 := Apply(s2, Count(i), p);
    Go(s3, Card(i), n, p);
    var s4 := Apply(s3, Card(i), p);
    assert s4.clients == Line(b, 0, started + 1, n, p);
    assert s4 == State(now, Log(b), Line(b, 0, started + 1, n, p), Log(b), b);
    ClockMovesOn(b, started, n, p);
    Go(s4, Tick(At(b + started + 1)), n, p);
  }

  lemma ClockMovesOn(b: nat, started: nat, n: nat, p: Params)
    requires Room(n, p) && started < n
    ensures Enabled(State(At(b + started), Log(b), Line(b, 0, started + 1, n, p), Log(b), b),
      Tick(At(b + started + 1)), p)
  {
    forall j: nat | j <= started
      ensures At(b + started + 1) - Waiting(b, j, p).now < p.flight
    {
      Compare(b, started + 1);
      Compare(b, j);
      Compare(started + 1, n);
      Compare(0, j);
    }
    Compare(b + started, b + started + 1);
  }

  lemma CountAtMost(b: nat, lo: real, hi: real)
    ensures ZCount(Log(b), lo, hi) <= b
  {
    LogExact(b);
    SubsetSize(InRange(Log(b), lo, hi), Log(b).Keys);
  }

  lemma LogNext(k: nat)
    ensures Log(k + 1) == Log(k)[Micros(k) := At(k)]
  {
  }

  /** The first client still waiting adds its admission, however many came since it counted. */
  lemma FinishOne(b: nat, done: nat, started: nat, n: nat, p: Params)
    requires b < Limit(p) && done < started <= n
    requires Reached(Stage(b, done, started, n, p), n, p)
    ensures Reached(Stage(b, done + 1, started, n, p), n, p)
  {
    hide Member, At, Reached, Log, ZCount;
    var s := Stage(b, done, started, n, p);
    CountAtMost(b, At(b + done) - p.window, At(b + done));
    MemberAt(b + done);
    LogNext(b + done);
    Go(s, Finish(done), n, p);
    var s' := Apply(s, Finish(done), p);
    assert s'.clients == Line(b, done + 1, started, n, p);
    assert s'.zset == Log(b + done + 1);
  }

  lemma {:induction false} CardAll(b: nat, h: nat, n: nat, p: Params)
    requires p.Sane() && Room(n, p) && b < Limit(p) && h <= n
    requires Reached(Stage(b, 0, 0, n, p), n, p)
    ensures Reached(Stage(b, 0, h, n, p), n, p)
  {
    hide Reached, Stage;
    if h > 0 {
      CardAll(b, h - 1, n, p);
      CardOne(b, h - 1, n, p);
    }
  }

  lemma {:induction false} FinishAll(b: nat, done: nat, h: nat, n: nat, p: Params)
    requires b < Limit(p) && done <= h <= n
    requires Reached(Stage(b, 0, h, n, p), n, p)
    ensures Reached(Stage(b, done, h, n, p), n, p)
  {
    hide Reached, Stage;
    if done > 0 {
      FinishAll(b, done - 1, h, n, p);
      FinishOne(b, done - 1, h, n, p);
    }
  }

  /** `h` clients that all count before any of them adds are all admitted. */
  lemma Round(b: nat, h: nat, n: nat, p: Params)
    requires p.Sane() && Room(n, p) && b < Limit(p) && h <= n
    requires Reached(Stage(b, 0, 0, n, p), n, p)
    ensures Reached(Stage(b + h, 0, 0, n, p), n, p)
  {
    hide Reached;
    CardAll(b, h, n, p);
    FinishAll(b, h, h, n, p);
    assert Line(b, h, h, n, p) == Line(b + h, 0, 0, n, p);
  }

  lemma {:induction false} OneByOne(b: nat, n: nat, p: Params)
    requires p.Sane() && Room(n, p) && b < Limit(p) && n >= 1
    ensures Reached(Stage(b, 0, 0, n, p), n, p)
  {
    if b == 0 {
      EmptyRun(n, p);
      assert Stage(0, 0, 0, n, p) == Init(n);
    } else {
      OneByOne(b - 1, n, p);
      Round(b - 1, 1, n, p);
    }
  }

  /** The excess of `n - 1` is reached for every number of clients and every limit: some run
      has a window with exactly that many admissions. */
  lemma OverAdmissionReached(n: nat, p: Params) returns (steps: seq<Step>)
    requires p.Sane() && Room(n, p) && n >= 1 && Limit(p) >= 1
    ensures IsRun(steps, n, p)
    ensures var t := At(Limit(p) + n - 1); |InRange(After(steps, n, p).admitted, t - p.window, t)| == Limit(p) + n - 1
  {
    hide IsRun, After, At;
    var k := Limit(p) + n - 1;
    OneByOne(Limit(p) - 1, n, p);
    Round(Limit(p) - 1, n, n, p);
    assert Reached(Stage(k, 0, 0, n, p), n, p);
    steps :| IsRun(steps, n, p) && After(steps, n, p) == Stage(k, 0, 0, n, p);
    Compare(k, Limit(p) + n);
    WholeLog(k, p);
  }

  lemma WholeLog(k: nat, p: Params)
    requires At(k) <= p.window
    ensures |InRange(Log(k), At(k) - p.window, At(k))| == k
  {
    LogExact(k);
    assert InRange(Log(k), At(k) - p.window, At(k)) == Log(k).Keys;
  }

  ghost predicate LimitHolds(n: nat, p: Params) {
    forall steps, t :: IsRun(steps, n, p) ==> WithinLimit(After(steps, n, p), t, p)
  }

  ghost predicate WithinLimit(s: State, t: real, p: Params) {
    |InRange(s.admitted, t - p.window, t)| <= Limit(p)
  }

  lemma {:induction false} NothingAdmitted(steps: seq<Step>, n: nat, p: Params)
    requires IsRun(steps, n, p) && Limit(p) == 0
    ensures After(steps, n, p).admitted == map[]
  {
    if steps != [] {
      NothingAdmitted(steps[..|steps| - 1], n, p);
    }
  }

  /** The limit itself holds in every run exactly when there is one client (or no admission at
      all is allowed). */
  lemma LimitHoldsExactly(n: nat, p: Params)
    requires p.Sane() && Room(n, p) && n >= 1
    ensures LimitHolds(n, p) <==> n == 1 || Limit(p) == 0
  {
    hide IsRun, After, At;
    if n == 1 || Limit(p) == 0 {
      forall steps, t | IsRun(steps, n, p)
        ensures WithinLimit(After(steps, n, p), t, p)
      {
        var admitted := After(steps, n, p).admitted;
        if Limit(p) == 0 {
          NothingAdmitted(steps, n, p);
        } else {
          WindowsHold(steps, n, p, t);
          SubsetSize(InRange(admitted, t - p.window, t), InRange(admitted, t - DayWindow(p), t));
        }
      }
    } else {
      var steps := OverAdmissionReached(n, p);
      assert !WithinLimit(After(steps, n, p), At(Limit(p) + n - 1), p);
    }
  }

  // ---------------------------------------------------------------------------
  // One check as the code runs it
  // ---------------------------------------------------------------------------

  /** The five steps of client 0 with no other client in between. */
  function Alone(s: State, p: Params): State
    requires |s.clients| == 1
  {
    Apply(Apply(Apply(Apply(Apply(s, Begin(0), p), Prune(0), p), Count(0), p), Card(0), p), Finish(0), p)
  }

  lemma AloneIs(now: real, z: SortedSet, p: Params)
    ensures var kept := ZRemRangeByScore(z, 0.0, now - p.day);
      var c, n := ZCount(kept, now - p.window, now), ZCard(kept);
      Alone(State(now, z, [Idle], map[], 0), p) ==
        if c < p.burst && n < p.daily then
          State(now, ZAdd(kept, Member(now), now), [Idle], map[Member(now) := now], 1)
        else State(now, kept, [Idle], map[], 0)
  {
    hide Member, ZRemRangeByScore, ZCount, ZCard, ZAdd;
    var kept := ZRemRangeByScore(z, 0.0, now - p.day);
    var c, n := ZCount(kept, now - p.window, now), ZCard(kept);
    var s1 := Apply(State(now, z, [Idle], map[], 0), Begin(0), p);
    assert s1 == State(now, z, [Started(now)], map[], 0);
    var s2 := Apply(s1, Prune(0), p);
    assert s2 == State(now, kept, [Pruned(now)], map[], 0);
    var s3 := Apply(s2, Count(0), p);
    assert s3 == State(now, kept, [Counted(now, c)], map[], 0);
    var s4 := Apply(s3, Card(0), p);
    assert s4 == State(now, kept, [Carded(now, c, n)], map[], 0);
    assert Apply(s4, Finish(0), p).clients == [Idle];
  }

  lemma KeptExact(now: real, z: SortedSet, p: Params)
    requires p.Sane() && forall m :: m in z ==> z[m] >= 0.0
    ensures var kept := ZRemRangeByScore(z, 0.0, now - p.day);
      && kept.Keys == LaterThan(z, now - p.day)
      && ZCount(kept, now - p.window, now) == |InRange(z, now - p.window, now)|
      && ZCard(kept) == |LaterThan(z, now - p.day)|
  {
    var kept := ZRemRangeByScore(z, 0.0, now - p.day);
    assert kept.Keys == LaterThan(z, now - p.day);
    assert InRange(kept, now - p.window, now) == InRange(z, now - p.window, now);
  }

  /** What an undisturbed check decides and leaves behind, told from the set it finds: it is
      admitted exactly when the entries of its window and those less than a day old leave room,
      and then the set holds the latter and its own. */
  lemma AloneDecides(now: real, z: SortedSet, p: Params)
    requires p.Sane() && forall m :: m in z ==> z[m] >= 0.0
    ensures var s := Alone(State(now, z, [Idle], map[], 0), p);
      && s.admissions <= 1
      && (s.admissions == 1 <==>
            |InRange(z, now - p.window, now)| < p.burst && |LaterThan(z, now - p.day)| < p.daily)
      && s.zset.Keys == LaterThan(z, now - p.day) + if s.admissions == 1 then {Member(now)} else {}
  {
    hide Member, ZRemRangeByScore, ZCount, ZCard, Alone, LaterThan, InRange;
    AloneIs(now, z, p);
    KeptExact(now, z, p);
  }

  // ---------------------------------------------------------------------------
  // Equal times
  // ---------------------------------------------------------------------------

  /** Checks one after the other on an empty set, each with the time it reads. */
  function InTurn(nows: seq<real>, p: Params): (s: State)
    ensures |s.clients| == 1
  {
    if nows == [] then State(0.0, map[], [Idle], map[], 0)
    else Alone(InTurn(nows[..|nows| - 1], p).(clock := nows[|nows| - 1]), p)
  }

  ghost predicate OneName(nows: seq<real>, name: Name) {
    && (forall i :: 0 <= i < |nows| ==> nows[i] >= 0.0 && Member(nows[i]) == name)
    && (forall i, j :: 0 <= i < j < |nows| ==> nows[i] <= nows[j])
  }

  lemma OneMicrosecond(x: real, y: real)
    requires Member(x) == Member(y)
    ensures x - y < At(1)
  {
    var a, b := x * 1000000.0 + 0.5, y * 1000000.0 + 0.5;
    assert a - b < 1.0 by { assert a.Floor == b.Floor; }
  }

  /** What the limit rests on when the names of requests coincide: requests whose six-decimal
      times are equal share one entry, so the count never grows beyond one and any number of
      them is admitted under any limits of at least two. */
  lemma {:induction false} EqualTimesUncounted(nows: seq<real>, name: Name, p: Params)
    requires p.Sane() && At(1) <= p.window && OneName(nows, name)
    ensures var s := InTurn(nows, p);
      && s.admissions == (if Limit(p) >= 2 || |nows| <= Limit(p) then |nows| else Limit(p))
      && s == State(s.clock, s.zset, [Idle], s.zset, s.admissions)
      && s.zset.Keys == (if s.admissions == 0 then {} else {name})
      && (name in s.zset ==> s.zset[name] in nows)
  {
    hide Member, Alone, At;
    if nows != [] {
      var n := |nows| - 1;
      var init, now := nows[..n], nows[n];
      assert forall i :: 0 <= i < n ==> init[i] == nows[i];
      EqualTimesUncounted(init, name, p);
      var s := InTurn(init, p);
      if name in s.zset {
        var k :| 0 <= k < |init| && init[k] == s.zset[name];
        assert nows[k] <= now;
        OneMicrosecond(now, s.zset[name]);
      }
      OneMoreOfName(s.(clock := now), now, p);
      assert now in nows && forall x :: x in init ==> x in nows;
    }
  }

  lemma OneMoreOfName(s: State, now: real, p: Params)
    requires p.Sane() && now >= 0.0 && s == State(now, s.zset, [Idle], s.zset, s.admissions)
    requires s.zset.Keys == if s.admissions == 0 then {} else {Member(now)}
    requires s.admissions > 0 ==> s.zset[Member(now)] <= now < s.zset[Member(now)] + p.window
    ensures var entries, z := if s.admissions == 0 then 0 else 1, map[Member(now) := now];
      Alone(s, p) == if entries < Limit(p) then State(now, z, [Idle], z, s.admissions + 1) else s
  {
    hide Member, InRange, ZCount, ZRemRangeByScore;
    var z := s.zset;
    FewEntries(z, Member(now), now, p);
    var s1 := Apply(s, Begin(0), p);
    var s2 := Apply(s1, Prune(0), p);
    assert s2 == State(now, z, [Pruned(now)], z, s.admissions);
    var s3 := Apply(s2, Count(0), p);
    assert s3 == State(now, z, [Counted(now, ZCount(z, now - p.window, now))], z, s.admissions);
    var s4 := Apply(s3, Card(0), p);
    assert s4 == State(now, z, [Carded(now, ZCount(z, now - p.window, now), |z|)], z, s.admissions);
    assert Apply(s4, Finish(0), p).clients == [Idle];
    assert z[Member(now) := now] == map[Member(now) := now];
  }

  lemma FewEntries(z: SortedSet, name: Name, now: real, p: Params)
    requires z.Keys == {} || (z.Keys == {name} && z[name] <= now < z[name] + p.window)
    requires p.Sane() && now >= 0.0
    ensures ZRemRangeByScore(z, 0.0, now - p.day) == z
    ensures ZCount(z, now - p.window, now) == ZCard(z) == |z.Keys|
  {
    assert InRange(z, now - p.window, now) == z.Keys;
  }

  class SharedStore {
    var zset: SortedSet

    /** The command sequence of one check; what it does when undisturbed is what the steps do. */
    method Check(now: real, p: Params) returns (ok: bool)
      modifies this
      ensures zset == Alone(State(now, old(zset), [Idle], map[], 0), p).zset
      ensures ok <==> Alone(State(now, old(zset), [Idle], map[], 0), p).admissions == 1
      ensures p.Sane() && (forall m :: m in old(zset) ==> old(zset)[m] >= 0.0) ==>
        && (ok <==> |InRange(old(zset), now - p.window, now)| < p.burst
                    && |LaterThan(old(zset), now - p.day)| < p.daily)
        && zset.Keys == LaterThan(old(zset), now - p.day) + if ok then {Member(now)} else {}
    {
      hide Alone, Member, InRange, LaterThan, ZRemRangeByScore, ZCount, ZCard, ZAdd;
      AloneIs(now, zset, p);
      if p.Sane() && forall m :: m in zset ==> zset[m] >= 0.0 {
        AloneDecides(now, zset, p);
      }
      zset := ZRemRangeByScore(zset, 0.0, now - p.day);
      var inBurst := ZCount(zset, now - p.window, now);
      var inDay := ZCard(zset);
      if inBurst >= p.burst {
        return false;
      }
      if inDay >= p.daily {
        return false;
      }
      zset := ZAdd(zset, Member(now), now);
      return true;
    }
  }
}
