/**
 The limits are exact: runs of the real limiters, with real evictions and any
 number of processes, that admit as many requests as the bounds allow.
 */
module Tightness {
  import opened Wrappers
  import opened Sums
  import opened Window
  import opened MemoryLimiter
  import Redis = RedisLimiter

  const HOT := "k"
  const RIVAL := "x"

  function Call(key: string, now: int, victim: string): Request {
    Request(key, now, now, victim)
  }

  function Repeat(r: Request, n: nat): seq<Request> {
    if n == 0 then [] else Repeat(r, n - 1) + [r]
  }

  /** Where a run has come: the table, what the hot key's counter has seen, and the time. */
  ghost predicate At(c: Config, run: seq<Request>, b: Buckets, seen: seq<Obs>, t: int) {
    && Run(c, run) && After(c, run) == b && Project(c, run, HOT) == seen
    && (run != [] ==> run[|run| - 1].now <= t)
  }

  function Seen(c: Config, b: Buckets, r: Request): seq<Obs> {
    if r.key == HOT then [Ask(r.now, true)] else if Loses(c, b, r, HOT) then [Drop(r.now)] else []
  }

  lemma Step(c: Config, run: seq<Request>, all: seq<Request>, r: Request, b: Buckets, seen: seq<Obs>)
    requires At(c, run, b, seen, r.now) && all == run + [r] && Legal(c, b, r) && r.now == r.later
    ensures At(c, all, Next(c, b, r), seen + Seen(c, b, r), r.now)
  {
    RunExtends(c, run, r);
    RunSnoc(c, run, r, HOT, 0, 0);
  }

  lemma Stepped(c: Config, run: seq<Request>, r: Request, b: Buckets, seen: seq<Obs>)
    returns (all: seq<Request>, b': Buckets)
    requires At(c, run, b, seen, r.now) && Legal(c, b, r) && r.now == r.later
    ensures b' == Next(c, b, r) && At(c, all, b', seen + Seen(c, b, r), r.now)
  {
    all, b' := run + [r], Next(c, b, r);
    Step(c, run, all, r, b, seen);
  }

  // ---------- one limiter, no eviction ----------

  /** A table for the hot key alone, after `n` more of its calls. */
  function HotTable(c: Config, b: Buckets, n: nat, now: int): Buckets {
    if n == 0 then b else map[HOT := Spent(c.window, Slot(b, HOT), n, now).value]
  }

  lemma HotNext(c: Config, b: Buckets, n: nat, now: int)
    requires c.maxBuckets >= 1 && c.window >= 2 && b.Keys <= {HOT} && n >= 1
    ensures var r, was := Call(HOT, now, ""), HotTable(c, b, n - 1, now);
            Legal(c, was, r) && Next(c, was, r) == HotTable(c, b, n, now)
  {
    var was := HotTable(c, b, n - 1, now);
    SubsetSize(was.Keys, {HOT});
  }

  lemma RepeatLast(run: seq<Request>, all: seq<Request>, r: Request, n: nat)
    requires n >= 1 && all == run + Repeat(r, n)
    ensures all != [] && all[..|all| - 1] == run + Repeat(r, n - 1) && all == all[..|all| - 1] + [r]
  {
  }

  lemma {:induction false} Calls(
    c: Config, run: seq<Request>, all: seq<Request>, now: int, n: nat, b: Buckets, seen: seq<Obs>)
    requires c.maxBuckets >= 1 && c.window >= 2 && b.Keys <= {HOT}
    requires At(c, run, b, seen, now) && all == run + Repeat(Call(HOT, now, ""), n)
    ensures At(c, all, HotTable(c, b, n, now), seen + Burst(n, now), now)
    decreases n
  {
    if n == 0 {
      assert all == run && seen + Burst(0, now) == seen;
    } else {
      var r, init := Call(HOT, now, ""), all[..|all| - 1];
      RepeatLast(run, all, r, n);
      Calls(c, run, init, now, n - 1, b, seen);
      HotNext(c, b, n, now);
      Step(c, init, all, r, HotTable(c, b, n - 1, now), seen + Burst(n - 1, now));
      assert seen + Burst(n, now) == seen + Burst(n - 1, now) + [Ask(now, true)];
    }
  }

  /** One call opens a window, the rest of the budget goes in its last nanosecond, the next budget at once. */
  function Spree(c: Config): seq<Request>
    requires c.max >= 1
  {
    Repeat(Call(HOT, 0, ""), 1)
    + Repeat(Call(HOT, c.window - 1, ""), c.max - 1)
    + Repeat(Call(HOT, c.window, ""), c.max)
  }

  lemma FirstCall(c: Config, run: seq<Request>)
    requires c.window >= 2 && c.maxBuckets >= 1 && run == Repeat(Call(HOT, 0, ""), 1)
    ensures At(c, run, map[HOT := Entry(1, c.window)], [Ask(0, true)], 0)
  {
    var r := Call(HOT, 0, "");
    assert run == [] + [r] by { assert Repeat(r, 0) == []; }
    Step(c, [], run, r, map[], []);
    assert [] + [Ask(0, true)] == [Ask(0, true)];
  }

  /** The spree is a run, and the hot key's counter sees the worst case. */
  lemma SpreeAt(c: Config, run: seq<Request>)
    requires c.max >= 1 && c.window >= 2 && c.maxBuckets >= 1 && run == Spree(c)
    ensures At(c, run, map[HOT := Entry(c.max, 2 * c.window)], Opening(c.max, c.window), c.window)
  {
    var w := c.window;
    var first := Repeat(Call(HOT, 0, ""), 1);
    var second := first + Repeat(Call(HOT, w - 1, ""), c.max - 1);
    FirstCall(c, first);
    SecondBurst(c, first, second);
    ThirdBurst(c, second, run, [Ask(0, true)] + Burst(c.max - 1, w - 1));
  }

  lemma ThirdBurst(c: Config, second: seq<Request>, third: seq<Request>, seen: seq<Obs>)
    requires c.max >= 1 && c.window >= 2 && c.maxBuckets >= 1
    requires At(c, second, map[HOT := Entry(c.max, c.window)], seen, c.window)
    requires third == second + Repeat(Call(HOT, c.window, ""), c.max)
    ensures At(c, third, map[HOT := Entry(c.max, 2 * c.window)], seen + Burst(c.max, c.window), c.window)
  {
    var w, b := c.window, map[HOT := Entry(c.max, c.window)];
    Calls(c, second, third, w, c.max, b, seen);
    assert HotTable(c, b, c.max, w) == map[HOT := Entry(c.max, 2 * w)];
  }

  lemma SecondBurst(c: Config, first: seq<Request>, second: seq<Request>)
    requires c.max >= 1 && c.window >= 2 && c.maxBuckets >= 1
    requires At(c, first, map[HOT := Entry(1, c.window)], [Ask(0, true)], 0)
    requires second == first + Repeat(Call(HOT, c.window - 1, ""), c.max - 1)
    ensures At(c, second, map[HOT := Entry(c.max, c.window)], [Ask(0, true)] + Burst(c.max - 1, c.window - 1), c.window)
  {
    var w, b := c.window, map[HOT := Entry(1, c.window)];
    Calls(c, first, second, w - 1, c.max - 1, b, [Ask(0, true)]);
    assert HotTable(c, b, c.max - 1, w - 1) == map[HOT := Entry(c.max, w)];
  }

  // ---------- one limiter, with evictions ----------

  function Filler(i: nat): (name: string)
    ensures |name| == i + 1 && name[0] == 'f'
  {
    if i == 0 then "f" else Filler(i - 1) + "f"
  }

  /** The table is full, and every window in it ends at the same time. */
  ghost predicate Packed(c: Config, b: Buckets) {
    |b| == c.maxBuckets && forall k :: k in b ==> b[k].resetAt == 2 * c.window
  }

  /** `n` of the other buckets are in place beside the hot one. */
  ghost predicate Filled(c: Config, b: Buckets, n: nat) {
    && |b| == n + 1 && HOT in b && RIVAL !in b
    && (forall k :: k in b ==> b[k].resetAt == 2 * c.window)
    && (forall k :: k in b && k != HOT ==> 1 <= |k| <= n && k[0] == 'f')
  }

  lemma FillNext(c: Config, b: Buckets, r: Request, n: nat)
    requires 1 <= n < c.maxBuckets && Filled(c, b, n - 1) && c.window >= 2
    requires r == Call(Filler(n - 1), c.window, "")
    ensures Legal(c, b, r) && Filled(c, Next(c, b, r), n) && Seen(c, b, r) == []
  {
    assert r.key !in b && !Full(c, b, r.key);
    assert Next(c, b, r) == b[r.key := Entry(1, 2 * c.window)];
  }

  lemma {:induction false} Fills(c: Config, run: seq<Request>, n: nat, b: Buckets, seen: seq<Obs>)
    returns (all: seq<Request>, b': Buckets)
    requires n < c.maxBuckets && Filled(c, b, 0) && c.window >= 2 && At(c, run, b, seen, c.window)
    ensures At(c, all, b', seen, c.window) && Filled(c, b', n)
    decreases n
  {
    if n == 0 {
      return run, b;
    }
    var init, was := Fills(c, run, n - 1, b, seen);
    var r := Call(Filler(n - 1), c.window, "");
    FillNext(c, was, r, n);
    all, b' := Stepped(c, init, r, was, seen);
    assert seen + [] == seen;
  }

  /** A call on a packed table for a key that is not in it takes the place of its victim. */
  lemma PackedNext(c: Config, b: Buckets, r: Request)
    requires c.window >= 2 && c.maxBuckets >= 1 && Packed(c, b) && r.now == c.window
    requires r.key !in b && r.victim in b && r.victim != ""
    ensures Legal(c, b, r) && Evicts(c, b, r)
    ensures Next(c, b, r) == (b - {r.victim})[r.key := Entry(1, 2 * c.window)] && Packed(c, Next(c, b, r))
  {
    assert Purged(b, r.now) == b;
    assert (b - {r.victim}).Keys == b.Keys - {r.victim};
  }

  /** The hot key is back in the place of its rival. */
  ghost predicate Back(c: Config, b: Buckets) {
    Packed(c, b) && HOT in b && RIVAL !in b
  }

  lemma ReturnNext(c: Config, b: Buckets, r: Request)
    requires c.window >= 2 && c.maxBuckets >= 1 && r == Call(HOT, c.window, RIVAL)
    requires Back(c, b) || (Packed(c, b) && RIVAL in b && HOT !in b)
    ensures Legal(c, b, r) && Back(c, Next(c, b, r))
  {
    if HOT !in b {
      PackedNext(c, b, r);
    } else {
      assert Next(c, b, r).Keys == b.Keys;
    }
  }

  lemma {:induction false} Returns(c: Config, run: seq<Request>, n: nat, b: Buckets, seen: seq<Obs>)
    returns (all: seq<Request>, b': Buckets)
    requires c.window >= 2 && c.maxBuckets >= 1 && n >= 1 && Packed(c, b) && RIVAL in b && HOT !in b
    requires At(c, run, b, seen, c.window)
    ensures At(c, all, b', seen + Burst(n, c.window), c.window) && Back(c, b')
    decreases n
  {
    var r := Call(HOT, c.window, RIVAL);
    assert seen + Burst(n, c.window) == seen + Burst(n - 1, c.window) + [Ask(c.window, true)];
    if n == 1 {
      assert seen + Burst(0, c.window) == seen;
      ReturnNext(c, b, r);
      all, b' := Stepped(c, run, r, b, seen);
    } else {
      var init, was := Returns(c, run, n - 1, b, seen);
      ReturnNext(c, was, r);
      all, b' := Stepped(c, init, r, was, seen + Burst(n - 1, c.window));
    }
  }

  /** The rival evicts the hot key, which comes back in its place and spends a whole budget. */
  lemma Cycle(c: Config, run: seq<Request>, b: Buckets, seen: seq<Obs>) returns (all: seq<Request>, b': Buckets)
    requires c.max >= 1 && c.window >= 2 && c.maxBuckets >= 1 && Back(c, b) && At(c, run, b, seen, c.window)
    ensures Back(c, b') && At(c, all, b', seen + [Drop(c.window)] + Burst(c.max, c.window), c.window)
  {
    var rival := Call(RIVAL, c.window, HOT);
    PackedNext(c, b, rival);
    var mid, taken := Stepped(c, run, rival, b, seen);
    all, b' := Returns(c, mid, c.max, taken, seen + [Drop(c.window)]);
  }

  /** The spree, the rest of the table filled, then as many evictions of the hot key as asked for. */
  lemma {:induction false} WorstRun(c: Config, evictions: nat) returns (run: seq<Request>, b: Buckets)
    requires c.max >= 1 && c.window >= 2 && c.maxBuckets >= 1
    ensures Back(c, b) && At(c, run, b, WorstCase(c.max, c.window, evictions), c.window)
    decreases evictions
  {
    if evictions == 0 {
      run, b := FilledSpree(c, WorstCase(c.max, c.window, evictions));
    } else {
      var run0, b0 := WorstRun(c, evictions - 1);
      run, b := Cycle(c, run0, b0, WorstCase(c.max, c.window, evictions - 1));
    }
  }

  lemma FilledSpree(c: Config, seen: seq<Obs>) returns (run: seq<Request>, b: Buckets)
    requires c.max >= 1 && c.window >= 2 && c.maxBuckets >= 1 && seen == Opening(c.max, c.window)
    ensures Back(c, b) && At(c, run, b, seen, c.window)
  {
    var spree, alone := SomeSpree(c, seen);
    run, b := Fills(c, spree, c.maxBuckets - 1, alone, seen);
  }

  lemma SomeSpree(c: Config, seen: seq<Obs>) returns (run: seq<Request>, b: Buckets)
    requires c.max >= 1 && c.window >= 2 && c.maxBuckets >= 1 && seen == Opening(c.max, c.window)
    ensures At(c, run, b, seen, c.window) && Filled(c, b, 0)
  {
    run, b := Spree(c), map[HOT := Entry(c.max, 2 * c.window)];
    SpreeAt(c, run);
  }

  /** What a run allows its hot key is what the key's counter admits. */
  lemma Attains(c: Config, run: seq<Request>, seen: seq<Obs>, admitted: nat, drops: nat)
    requires Run(c, run) && Project(c, run, HOT) == seen
    requires AdmittedIn(c.max, c.window, seen, c.window - 1, 2 * c.window - 1) == admitted
    requires DropsIn(seen, c.window - 1, 2 * c.window - 1) == drops
    ensures AllowedIn(c, run, HOT, c.window - 1, 2 * c.window - 1) == admitted
    ensures EvictionsIn(c, run, HOT, c.window - 1, 2 * c.window - 1) == drops
  {
    ProjectionCounts(c, run, HOT, c.window - 1, 2 * c.window - 1);
  }

  /** `SlidingLimit` is attained, for every budget, table size and number of evictions of the key. */
  lemma SlidingLimitAttained(c: Config, evictions: nat) returns (run: seq<Request>)
    requires c.max >= 1 && c.window >= 2 && c.maxBuckets >= 1
    ensures Run(c, run)
    ensures EvictionsIn(c, run, HOT, c.window - 1, 2 * c.window - 1) == evictions
    ensures AllowedIn(c, run, HOT, c.window - 1, 2 * c.window - 1) == (2 + evictions) * c.max - 1
  {
    var worst, b := WorstRun(c, evictions);
    run := worst;
    SlidingBoundIsTight(c.max, c.window, evictions);
    Attains(c, run, WorstCase(c.max, c.window, evictions), (2 + evictions) * c.max - 1, evictions);
  }

  // ---------- any number of processes ----------

  function ServedTimes(now: int, m: nat): (run: seq<Redis.Step>)
    ensures |run| == m && forall i :: 0 <= i < m ==> run[i] == Redis.Served(0, HOT, now)
  {
    if m == 0 then [] else ServedTimes(now, m - 1) + [Redis.Served(0, HOT, now)]
  }

  function LocalTimes(p: nat, now: int, m: nat): (run: seq<Redis.Step>)
    ensures |run| == m && forall i :: 0 <= i < m ==> run[i] == Redis.Local(p, Call(HOT, now, ""))
  {
    if m == 0 then [] else LocalTimes(p, now, m - 1) + [Redis.Local(p, Call(HOT, now, ""))]
  }

  /** At one time, `m` requests answered by Redis and `m` by the fallback of each process. */
  function Round(n: nat, now: int, m: nat): seq<Redis.Step> {
    if n == 0 then ServedTimes(now, m) else Round(n - 1, now, m) + LocalTimes(n - 1, now, m)
  }

  /** Every process and Redis go through the spree side by side. */
  function WorstRounds(c: Config, n: nat): seq<Redis.Step>
    requires c.max >= 1
  {
    Round(n, 0, 1) + Round(n, c.window - 1, c.max - 1) + Round(n, c.window, c.max)
  }

  /** A step for the hot key, by a process below `n`, that is not garbled. */
  predicate Hot(n: nat, e: Redis.Step) {
    && e.proc < n && e.Key() == HOT && !e.Garbled?
    && (e.Local? ==> e.request.now == e.request.later)
  }

  ghost predicate AllHot(n: nat, run: seq<Redis.Step>) {
    forall i :: 0 <= i < |run| ==> Hot(n, run[i])
  }

  ghost predicate InOrder(run: seq<Redis.Step>, from: int, to: int) {
    && (forall i :: 0 <= i < |run| ==> from <= run[i].At() <= to)
    && (forall i, j :: 0 <= i < j < |run| ==> run[i].At() <= run[j].At())
  }

  /** Steps on one key need no room: any order in time is a run. */
  lemma {:induction false} HotRuns(c: Config, n: nat, run: seq<Redis.Step>, from: int, to: int)
    requires c.maxBuckets >= 1 && AllHot(n, run) && InOrder(run, from, to)
    ensures Redis.Runs(c, n, run)
    ensures forall p :: 0 <= p < n ==> Redis.Finish(c, n, run).local[p].Keys <= {HOT}
  {
    if run != [] {
      var init, e := run[..|run| - 1], run[|run| - 1];
      HotRuns(c, n, init, from, to);
      assert Hot(n, e);
      if e.Local? {
        SubsetSize(Redis.Finish(c, n, init).local[e.proc].Keys, {HOT});
      }
    }
  }

  lemma {:induction false} NoneGarbled(n: nat, run: seq<Redis.Step>, lo: int, hi: int)
    requires AllHot(n, run)
    ensures Redis.GarbledIn(run, HOT, lo, hi) == 0
  {
    if run != [] {
      NoneGarbled(n, run[..|run| - 1], lo, hi);
      assert Hot(n, run[|run| - 1]);
    }
  }

  lemma {:induction false} JoinedLocal(a: seq<Redis.Step>, b: seq<Redis.Step>, all: seq<Redis.Step>, p: nat)
    requires all == a + b
    ensures Redis.LocalRun(all, p) == Redis.LocalRun(a, p) + Redis.LocalRun(b, p)
    decreases b
  {
    if b == [] {
      assert all == a;
    } else {
      assert all[..|all| - 1] == a + b[..|b| - 1];
      JoinedLocal(a, b[..|b| - 1], all[..|all| - 1], p);
    }
  }

  lemma {:induction false} ServedSeen(now: int, m: nat, p: nat, run: seq<Redis.Step>)
    requires run == ServedTimes(now, m)
    ensures Redis.LocalRun(run, p) == [] && Redis.SharedTrace(run, HOT) == Burst(m, now)
    decreases m
  {
    if m > 0 {
      assert run[..m - 1] == ServedTimes(now, m - 1);
      ServedSeen(now, m - 1, p, run[..m - 1]);
    }
  }

  lemma {:induction false} LocalSeen(q: nat, now: int, m: nat, p: nat, run: seq<Redis.Step>)
    requires run == LocalTimes(q, now, m)
    ensures p == q ==> Redis.LocalRun(run, p) == Repeat(Call(HOT, now, ""), m)
    ensures p != q ==> Redis.LocalRun(run, p) == []
    decreases m
  {
    if m > 0 {
      var init := run[..m - 1];
      assert init == LocalTimes(q, now, m - 1);
      LocalSeen(q, now, m - 1, p, init);
      assert run[m - 1] == Redis.Local(q, Call(HOT, now, ""));
    }
  }

  lemma {:induction false} LocalNotShared(q: nat, now: int, m: nat, run: seq<Redis.Step>)
    requires run == LocalTimes(q, now, m)
    ensures Redis.SharedTrace(run, HOT) == []
    decreases m
  {
    if m > 0 {
      var init := run[..m - 1];
      assert init == LocalTimes(q, now, m - 1);
      LocalNotShared(q, now, m - 1, init);
    }
  }

  lemma {:induction false} RoundSeen(n: nat, now: int, m: nat, p: nat, run: seq<Redis.Step>)
    requires run == Round(n, now, m)
    ensures p < n ==> Redis.LocalRun(run, p) == Repeat(Call(HOT, now, ""), m)
    ensures p >= n ==> Redis.LocalRun(run, p) == []
    decreases n
  {
    if n == 0 {
      ServedSeen(now, m, p, run);
    } else {
      var before, own := Round(n - 1, now, m), LocalTimes(n - 1, now, m);
      RoundSeen(n - 1, now, m, p, before);
      LocalSeen(n - 1, now, m, p, own);
      JoinedLocal(before, own, run, p);
    }
  }

  lemma {:induction false} RoundShared(n: nat, now: int, m: nat, run: seq<Redis.Step>)
    requires run == Round(n, now, m)
    ensures Redis.SharedTrace(run, HOT) == Burst(m, now)
    decreases n
  {
    if n == 0 {
      ServedSeen(now, m, 0, run);
    } else {
      var before, own := Round(n - 1, now, m), LocalTimes(n - 1, now, m);
      RoundShared(n - 1, now, m, before);
      LocalNotShared(n - 1, now, m, own);
      Redis.TraceConcat(before, own, run, HOT);
    }
  }

  lemma {:induction false} RoundHot(n: nat, now: int, m: nat, procs: nat, run: seq<Redis.Step>)
    requires run == Round(n, now, m) && n <= procs && 1 <= procs
    ensures AllHot(procs, run) && InOrder(run, now, now)
    decreases n
  {
    if n > 0 {
      var before, own := Round(n - 1, now, m), LocalTimes(n - 1, now, m);
      RoundHot(n - 1, now, m, procs, before);
      HotConcat(procs, before, own, now, now, now);
    }
  }

  lemma HotConcat(n: nat, a: seq<Redis.Step>, b: seq<Redis.Step>, from: int, mid: int, to: int)
    requires AllHot(n, a) && AllHot(n, b) && InOrder(a, from, mid) && InOrder(b, mid, to) && from <= mid <= to
    ensures AllHot(n, a + b) && InOrder(a + b, from, to)
  {
  }

  lemma WorstRoundsSeen(c: Config, n: nat, p: nat, run: seq<Redis.Step>)
    requires c.max >= 1 && p < n && run == WorstRounds(c, n)
    ensures Redis.LocalRun(run, p) == Spree(c)
  {
    RoundsSeen(n, p, run, 0, 1, c.window - 1, c.max - 1, c.window, c.max);
  }

  lemma RoundsSeen(n: nat, p: nat, run: seq<Redis.Step>, t1: int, m1: nat, t2: int, m2: nat, t3: int, m3: nat)
    requires p < n && run == Round(n, t1, m1) + Round(n, t2, m2) + Round(n, t3, m3)
    ensures Redis.LocalRun(run, p) ==
            Repeat(Call(HOT, t1, ""), m1) + Repeat(Call(HOT, t2, ""), m2) + Repeat(Call(HOT, t3, ""), m3)
  {
    var a, b, d := Round(n, t1, m1), Round(n, t2, m2), Round(n, t3, m3);
    RoundSeen(n, t1, m1, p, a);
    RoundSeen(n, t2, m2, p, b);
    RoundSeen(n, t3, m3, p, d);
    var ab := a + b;
    JoinedLocal(a, b, ab, p);
    JoinedLocal(ab, d, run, p);
  }

  lemma WorstRoundsShared(c: Config, n: nat, run: seq<Redis.Step>)
    requires c.max >= 1 && run == WorstRounds(c, n)
    ensures Redis.SharedTrace(run, HOT) == Opening(c.max, c.window)
  {
    RoundsShared(n, run, 0, 1, c.window - 1, c.max - 1, c.window, c.max);
    OneAsk(0, 1);
  }

  lemma OneAsk(at: int, n: nat)
    requires n == 1
    ensures Burst(n, at) == [Ask(at, true)]
  {
  }

  lemma RoundsShared(n: nat, run: seq<Redis.Step>, t1: int, m1: nat, t2: int, m2: nat, t3: int, m3: nat)
    requires run == Round(n, t1, m1) + Round(n, t2, m2) + Round(n, t3, m3)
    ensures Redis.SharedTrace(run, HOT) == Burst(m1, t1) + Burst(m2, t2) + Burst(m3, t3)
  {
    var a, b, d := Round(n, t1, m1), Round(n, t2, m2), Round(n, t3, m3);
    RoundShared(n, t1, m1, a);
    RoundShared(n, t2, m2, b);
    RoundShared(n, t3, m3, d);
    var ab := a + b;
    Redis.TraceConcat(a, b, ab, HOT);
    Redis.TraceConcat(ab, d, run, HOT);
  }

  lemma WorstRoundsHot(c: Config, n: nat, run: seq<Redis.Step>)
    requires c.max >= 1 && c.window >= 2 && n >= 1 && run == WorstRounds(c, n)
    ensures AllHot(n, run) && InOrder(run, 0, c.window)
  {
    var w := c.window;
    var a, b, d := Round(n, 0, 1), Round(n, w - 1, c.max - 1), Round(n, w, c.max);
    RoundHot(n, 0, 1, n, a);
    RoundHot(n, w - 1, c.max - 1, n, b);
    RoundHot(n, w, c.max, n, d);
    HotConcat(n, a, b, 0, w - 1, w - 1);
    var ab := a + b;
    assert InOrder(ab, 0, w);
    HotConcat(n, ab, d, 0, w, w);
  }

  lemma {:induction false} SumConst(s: seq<nat>, x: nat)
    requires forall i :: 0 <= i < |s| ==> s[i] == x
    ensures Sum(s) == |s| * x
  {
    if s != [] {
      SumConst(s[..|s| - 1], x);
    }
  }

  /** A spree admits all but one of two budgets, and evicts nothing. */
  lemma SpreeAttains(c: Config, run: seq<Request>)
    requires c.max >= 1 && c.window >= 2 && c.maxBuckets >= 1 && run == Spree(c)
    ensures AllowedIn(c, run, HOT, c.window - 1, 2 * c.window - 1) == 2 * c.max - 1
    ensures EvictionsIn(c, run, HOT, c.window - 1, 2 * c.window - 1) == 0
  {
    SpreeAt(c, run);
    WorstStart(c.max, c.window, Opening(c.max, c.window));
    Attains(c, run, Opening(c.max, c.window), 2 * c.max - 1, 0);
  }

  lemma SharedAttains(c: Config, trace: seq<Obs>)
    requires c.max >= 1 && c.window >= 2 && trace == Opening(c.max, c.window)
    ensures AdmittedIn(c.max, c.window, trace, c.window - 1, 2 * c.window - 1) == 2 * c.max - 1
  {
    WorstStart(c.max, c.window, trace);
  }

  /** `MultiProcessLimit` is attained by any number of processes, when the window is a whole number of seconds. */
  lemma MultiProcessLimitAttained(c: Config, n: nat)
    requires c.max >= 1 && c.maxBuckets >= 1 && n >= 1 && Redis.Ttl(c) == c.window
    ensures var run, lo, hi := WorstRounds(c, n), c.window - 1, 2 * c.window - 1;
            && Redis.Runs(c, n, run) && hi - lo == c.window
            && Redis.Evictions(c, n, run, HOT, lo, hi) == 0 && Redis.GarbledIn(run, HOT, lo, hi) == 0
            && Redis.GrantedIn(c, n, run, HOT, lo, hi) == (n + 1) * (2 * c.max - 1)
  {
    var run, lo, hi := WorstRounds(c, n), c.window - 1, 2 * c.window - 1;
    WorstRoundsHot(c, n, run);
    HotRuns(c, n, run, 0, c.window);
    NoneGarbled(n, run, lo, hi);
    Redis.GrantsAddUp(c, n, run, HOT, lo, hi);
    WorstRoundsShared(c, n, run);
    SharedAttains(c, Redis.SharedTrace(run, HOT));
    LocalAttained(c, n, run);
    Share(n, 2 * c.max - 1);
  }

  lemma LocalAttained(c: Config, n: nat, run: seq<Redis.Step>)
    requires c.max >= 1 && c.window >= 2 && c.maxBuckets >= 1 && run == WorstRounds(c, n)
    ensures Sum(Redis.LocalShares(c, n, run, HOT, c.window - 1, 2 * c.window - 1)) == n * (2 * c.max - 1)
    ensures Redis.Evictions(c, n, run, HOT, c.window - 1, 2 * c.window - 1) == 0
  {
    var lo, hi := c.window - 1, 2 * c.window - 1;
    var shares, evictions := Redis.LocalShares(c, n, run, HOT, lo, hi), Redis.LocalEvictions(c, n, run, HOT, lo, hi);
    forall p | 0 <= p < n
      ensures shares[p] == 2 * c.max - 1 && evictions[p] == 0
    {
      WorstRoundsSeen(c, n, p, run);
      SpreeAttains(c, Redis.LocalRun(run, p));
    }
    SumConst(shares, 2 * c.max - 1);
    SumZero(evictions);
  }

  lemma Share(n: nat, x: nat)
    ensures x + n * x == (n + 1) * x
  {
  }
}
