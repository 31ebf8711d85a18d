/**
 The Redis-backed limiter (internal/ratelimit/redislimit/limiter.go): one
 shared counter script, and in every process a private in-memory limiter that
 answers whenever Redis does not.
 */
module RedisLimiter {
  import opened Wrappers
  import opened Window
  import opened Sums
  import opened Memory = MemoryLimiter

  // ---------- the shared script ----------

  datatype Counter = Counter(count: int, expireAt: Option<int>)

  type Store = map<string, Counter>

  predicate Live(s: Store, k: string, now: int) {
    k in s && (s[k].expireAt.Some? ==> now < s[k].expireAt.value)
  }

  /** INCR keeps the expiry of a live key and starts an absent or expired one without any. */
  function Incr(s: Store, k: string, now: int): Store {
    s[k := if Live(s, k, now) then s[k].(count := s[k].count + 1) else Counter(1, None)]
  }

  function Expire(s: Store, k: string, seconds: int, now: int): Store
    requires k in s
  {
    s[k := s[k].(expireAt := Some(now + seconds * SECOND))]
  }

  function Script(s: Store, k: string, seconds: int, now: int): Store {
    var s := Incr(s, k, now);
    if s[k].count == 1 then Expire(s, k, seconds, now) else s
  }

  /** TTL in whole seconds, rounded to the nearest as Redis does; -1 without expiry, -2 without key. */
  function TtlReply(s: Store, k: string, now: int): int {
    if !Live(s, k, now) then -2
    else if s[k].expireAt.None? then -1
    else (s[k].expireAt.value - now + SECOND / 2) / SECOND
  }

  /** The window in whole seconds, at least one. */
  function TtlSeconds(window: int): int {
    var ttl := window / SECOND;
    if ttl < 1 then 1 else ttl
  }

  function Ttl(c: Config): int {
    TtlSeconds(c.window) * SECOND
  }

  function RedisKey(key: string): string {
    "rl:" + key
  }

  // ---------- one process ----------

  /** How the round trip to Redis ends: a pair, something else, an error after the script ran, or before. */
  datatype Trip = Replied | Garbled | ReplyLost | NotRun

  class Redis {
    var store: Store

    constructor ()
      ensures store == map[]
    {
      store := map[];
    }

    method Eval(k: string, seconds: int, now: int) returns (count: int, remaining: int)
      modifies this
      ensures store == Script(old(store), k, seconds, now)
      ensures count == store[k].count && remaining == TtlReply(store, k, now)
    {
      store := Incr(store, k, now);
      if store[k].count == 1 {
        store := Expire(store, k, seconds, now);
      }
      return store[k].count, TtlReply(store, k, now);
    }
  }

  class Limiter {
    const client: Redis
    const max: nat
    const ttl: int
    const fallback: MemoryLimiter

    constructor (client: Redis, max: nat, window: int)
      ensures this.client == client && this.max == max && this.ttl == window
      ensures fresh(fallback) && fallback.max == max && fallback.window == window && fallback.buckets == map[]
    {
      this.client, this.max, this.ttl := client, max, window;
      this.fallback := new MemoryLimiter(max, window);
    }

    /**
     One request: the script at `at` if the trip gets that far, the fallback at
     `now` on any error. A reply that is not a pair admits at once.
     */
    method Allow(key: string, trip: Trip, at: int, now: int, later: int)
      returns (ok: bool, wait: int, ghost victim: string)
      modifies client, fallback`buckets
      ensures client.store ==
              if trip.NotRun? then old(client.store) else Script(old(client.store), RedisKey(key), TtlSeconds(ttl), at)
      ensures trip.Replied? ==>
                && ok == (client.store[RedisKey(key)].count <= max)
                && wait == (if ok then 0 else TtlReply(client.store, RedisKey(key), at) * SECOND)
      ensures trip.Garbled? ==> ok && wait == 0
      ensures trip.Replied? || trip.Garbled? ==> fallback.buckets == old(fallback.buckets)
      ensures trip.ReplyLost? || trip.NotRun? ==>
                var r := Request(key, now, later, victim);
                && Legal(fallback.Settings(), old(fallback.buckets), r)
                && fallback.buckets == Next(fallback.Settings(), old(fallback.buckets), r)
                && ok == Allowed(fallback.Settings(), old(fallback.buckets), r)
                && wait == Wait(fallback.Settings(), old(fallback.buckets), r)
    {
      victim := "";
      var seconds := ttl / SECOND;
      if seconds < 1 {
        seconds := 1;
      }
      var count, remaining := 0, 0;
      if !trip.NotRun? {
        count, remaining := client.Eval(RedisKey(key), seconds, at);
      }
      if trip.ReplyLost? || trip.NotRun? {
        ok, wait, victim := fallback.Allow(key, now, later);
        return;
      }
      if trip.Garbled? {
        return true, 0, victim;
      }
      if count > max {
        return false, remaining * SECOND, victim;
      }
      return true, 0, victim;
    }
  }

  // ---------- any number of processes ----------

  /**
   The atomic effects of `n` processes sharing one Redis, in the order they
   happen. A request whose reply was lost is a `Lost` step and, some time
   later, a `Local` step; one that never reached Redis is a `Local` step only.
   A `Garbled` step is a script whose reply is not understood.
   */
  datatype Step =
    | Served(proc: nat, key: string, at: int)
    | Lost(proc: nat, key: string, at: int)
    | Garbled(proc: nat, key: string, at: int)
    | Local(proc: nat, request: Request)
  {
    function At(): int {
      if Local? then request.now else at
    }

    function Key(): string {
      if Local? then request.key else key
    }
  }

  datatype System = System(store: Store, local: seq<Buckets>)

  function Start(n: nat): System {
    System(map[], seq(n, _ => map[]))
  }

  function Do(c: Config, s: System, e: Step): System
    requires e.proc < |s.local|
  {
    if e.Local? then s.(local := s.local[e.proc := Next(c, s.local[e.proc], e.request)])
    else s.(store := Script(s.store, RedisKey(e.key), TtlSeconds(c.window), e.at))
  }

  function Finish(c: Config, n: nat, run: seq<Step>): (s: System)
    requires forall i :: 0 <= i < |run| ==> run[i].proc < n
    ensures |s.local| == n
  {
    if run == [] then Start(n) else Do(c, Finish(c, n, run[..|run| - 1]), run[|run| - 1])
  }

  /** Runs of `n` processes from empty state, under one clock that never goes back. */
  ghost predicate Runs(c: Config, n: nat, run: seq<Step>) {
    && (forall i :: 0 <= i < |run| ==> run[i].proc < n)
    && (run == [] ||
        var init, e := run[..|run| - 1], run[|run| - 1];
        && Runs(c, n, init)
        && (e.Local? ==> Legal(c, Finish(c, n, init).local[e.proc], e.request) && e.request.now <= e.request.later)
        && (init != [] ==> init[|init| - 1].At() <= e.At()))
  }

  /** The step answers its request, and the answer is yes. */
  predicate Grants(c: Config, s: System, e: Step)
    requires e.proc < |s.local|
  {
    match e
    case Served(_, key, at) => Script(s.store, RedisKey(key), TtlSeconds(c.window), at)[RedisKey(key)].count <= c.max
    case Lost(_, _, _) => false
    case Garbled(_, _, _) => true
    case Local(p, r) => Allowed(c, s.local[p], r)
  }

  function Granted(c: Config, s: System, e: Step, k: string, lo: int, hi: int): nat
    requires e.proc < |s.local|
  {
    if e.Key() == k && Within(e.At(), lo, hi) && Grants(c, s, e) then 1 else 0
  }

  /** How many requests for `k` all processes together granted at a time in [lo, hi). */
  function GrantedIn(c: Config, n: nat, run: seq<Step>, k: string, lo: int, hi: int): nat
    requires forall i :: 0 <= i < |run| ==> run[i].proc < n
  {
    if run == [] then 0
    else
      var init, e := run[..|run| - 1], run[|run| - 1];
      GrantedIn(c, n, init, k, lo, hi) + Granted(c, Finish(c, n, init), e, k, lo, hi)
  }

  /** How many requests for `k` were let through on a reply that was not understood. */
  function GarbledIn(run: seq<Step>, k: string, lo: int, hi: int): nat {
    if run == [] then 0
    else
      var e := run[|run| - 1];
      GarbledIn(run[..|run| - 1], k, lo, hi) + if e.Garbled? && e.key == k && Within(e.at, lo, hi) then 1 else 0
  }

  // ---------- the run as each counter sees it ----------

  /** What happens to the shared counter of `k`. */
  function SharedTrace(run: seq<Step>, k: string): seq<Obs> {
    if run == [] then []
    else
      var e := run[|run| - 1];
      SharedTrace(run[..|run| - 1], k) + if !e.Local? && e.key == k then [Ask(e.at, e.Served?)] else []
  }

  /** What the fallback limiter of process `p` is asked. */
  function LocalRun(run: seq<Step>, p: nat): seq<Request> {
    if run == [] then []
    else
      var e := run[|run| - 1];
      LocalRun(run[..|run| - 1], p) + if e.Local? && e.proc == p then [e.request] else []
  }

  /** The Redis key is a live fixed-window counter: it always carries an expiry, one TTL ahead at most. */
  ghost predicate CounterOf(s: Store, k: string, slot: Option<Entry>) {
    if k in s then s[k].expireAt.Some? && s[k].count >= 1 && slot == Some(Entry(s[k].count, s[k].expireAt.value))
    else slot == None
  }

  /** The script is one hit of a fixed-window counter. */
  lemma ScriptIsHit(s: Store, k: string, seconds: int, now: int, slot: Option<Entry>)
    requires CounterOf(s, k, slot) && seconds >= 1
    ensures CounterOf(Script(s, k, seconds, now), k, Some(HitSlot(seconds * SECOND, slot, now)))
  {
  }

  /** The shared counter of `k` is the fixed-window counter that its own trace describes. */
  lemma {:induction false} SharedCounter(c: Config, n: nat, run: seq<Step>, k: string)
    requires Runs(c, n, run)
    ensures CounterOf(Finish(c, n, run).store, RedisKey(k), SlotAfter(Ttl(c), SharedTrace(run, k)))
  {
    if run != [] {
      var init, e := run[..|run| - 1], run[|run| - 1];
      SharedCounter(c, n, init, k);
      var before := SharedTrace(init, k);
      if !e.Local? && e.key == k {
        ScriptIsHit(Finish(c, n, init).store, RedisKey(k), TtlSeconds(c.window), e.at, SlotAfter(Ttl(c), before));
        Snoc(c.max, Ttl(c), before, Ask(e.at, e.Served?), 0, 0);
      } else {
        assert SharedTrace(run, k) == before;
        if !e.Local? {
          PrefixInjective(e.key, k);
        }
      }
    }
  }

  lemma PrefixInjective(a: string, b: string)
    ensures RedisKey(a) == RedisKey(b) ==> a == b
  {
    assert RedisKey(a)[3..] == a && RedisKey(b)[3..] == b;
  }

  /** Every key the script leaves behind is an `rl:` key with an expiry, so no counter outlives its window for good. */
  lemma {:induction false} EveryKeyExpires(c: Config, n: nat, run: seq<Step>, k: string)
    requires Runs(c, n, run) && k in Finish(c, n, run).store
    ensures "rl:" <= k
    ensures var e := Finish(c, n, run).store[k].expireAt;
            run != [] && e.Some? && e.value <= run[|run| - 1].At() + Ttl(c)
  {
    var init, e := run[..|run| - 1], run[|run| - 1];
    SharedCounter(c, n, init, e.Key());
    if k in Finish(c, n, init).store {
      EveryKeyExpires(c, n, init, k);
    }
  }

  /** The wait Redis reports is the time to expiry to the nearest second, and at most the TTL. */
  lemma {:induction false} SharedWaitNear(c: Config, n: nat, run: seq<Step>, k: string, at: int)
    requires Runs(c, n, run) && (run != [] ==> run[|run| - 1].At() <= at)
    ensures var s := Script(Finish(c, n, run).store, RedisKey(k), TtlSeconds(c.window), at);
            var reply, left := TtlReply(s, RedisKey(k), at), s[RedisKey(k)].expireAt;
            && left.Some? && at < left.value <= at + Ttl(c)
            && 0 <= reply <= TtlSeconds(c.window)
            && -SECOND <= 2 * (reply * SECOND - (left.value - at)) <= SECOND
  {
    SharedCounter(c, n, run, k);
    if RedisKey(k) in Finish(c, n, run).store {
      EveryKeyExpires(c, n, run, RedisKey(k));
    }
  }

  // ---------- the exact decision of the shared counter ----------

  /** The TTL is the window rounded down to whole seconds, but never less than one second. */
  lemma TtlOfWindow(c: Config)
    ensures c.window >= SECOND ==> c.window - SECOND < Ttl(c) <= c.window
    ensures c.window < SECOND ==> Ttl(c) == SECOND
    ensures Ttl(c) % SECOND == 0
  {
  }

  ghost predicate StepsBelow(n: nat, run: seq<Step>) {
    forall i :: 0 <= i < |run| ==> run[i].proc < n
  }

  /** The step runs the script for `k`, whatever becomes of the reply. */
  predicate RunsScript(e: Step, k: string) {
    !e.Local? && e.key == k
  }

  /** How many steps run the script for `k`. */
  function ScriptsOn(run: seq<Step>, k: string): nat {
    if run == [] then 0 else ScriptsOn(run[..|run| - 1], k) + if RunsScript(run[|run| - 1], k) then 1 else 0
  }

  lemma {:induction false} TraceConcat(a: seq<Step>, b: seq<Step>, all: seq<Step>, k: string)
    requires all == a + b
    ensures SharedTrace(all, k) == SharedTrace(a, k) + SharedTrace(b, k)
    decreases b
  {
    if b == [] {
      assert all == a;
    } else {
      assert all[..|all| - 1] == a + b[..|b| - 1];
      TraceConcat(a, b[..|b| - 1], all[..|all| - 1], k);
    }
  }

  lemma {:induction false} TraceOfScripts(run: seq<Step>, k: string, reset: int)
    requires forall i :: 0 <= i < |run| && RunsScript(run[i], k) ==> run[i].at < reset
    ensures |SharedTrace(run, k)| == ScriptsOn(run, k) && AsksBefore(SharedTrace(run, k), reset)
  {
    if run != [] {
      TraceOfScripts(run[..|run| - 1], k, reset);
    }
  }

  lemma {:induction false} RunsPrefix(c: Config, n: nat, pre: seq<Step>, more: seq<Step>, all: seq<Step>)
    requires all == pre + more && Runs(c, n, all)
    ensures Runs(c, n, pre)
    decreases |more|
  {
    if more == [] {
      assert all == pre;
    } else {
      assert all[..|all| - 1] == pre + more[..|more| - 1];
      RunsPrefix(c, n, pre, more[..|more| - 1], all[..|all| - 1]);
    }
  }

  /** A served request is decided by the counter that the trace of its key describes. */
  lemma {:induction false} ServedFromTrace(c: Config, n: nat, run: seq<Step>, e: Step)
    requires Runs(c, n, run + [e]) && e.Served?
    ensures Runs(c, n, run) && e.proc < n
    ensures Grants(c, Finish(c, n, run), e) ==
            Admits(c.max, Ttl(c), SlotAfter(Ttl(c), SharedTrace(run, e.key)), e.at)
  {
    RunsPrefix(c, n, run, [e], run + [e]);
    assert (run + [e])[|run|] == e;
    SharedCounter(c, n, run, e.key);
    ScriptIsHit(Finish(c, n, run).store, RedisKey(e.key), TtlSeconds(c.window), e.at,
                SlotAfter(Ttl(c), SharedTrace(run, e.key)));
  }

  /**
   The exact decision of the shared counter, across all processes: from the
   script that opens a window for `k`, every script run for it counts, also
   those whose reply is lost, and a served request is granted if and only if
   at most `max` of them, itself included, ran since the opening. The window
   lasts the TTL: more than the configured window less one second, and no
   longer than it. After that the first request opens a new one.
   */
  lemma {:induction false} GrantedInWindowIff(
    c: Config, n: nat, pre: seq<Step>, open: Step, mid: seq<Step>, all: seq<Step>, e: Step)
    requires all == pre + [open] + mid && Runs(c, n, all + [e]) && e.Served?
    requires StepsBelow(n, pre)
    requires RunsScript(open, e.key) && !Live(Finish(c, n, pre).store, RedisKey(e.key), open.at)
    requires forall i :: 0 <= i < |mid| && RunsScript(mid[i], e.key) ==> mid[i].at < open.at + Ttl(c)
    ensures StepsBelow(n, all) && e.proc < n
    ensures Grants(c, Finish(c, n, all), e) <==>
            if e.at < open.at + Ttl(c) then 2 + ScriptsOn(mid, e.key) <= c.max else 1 <= c.max
    ensures c.window >= SECOND && e.at <= open.at + c.window - SECOND ==>
              (Grants(c, Finish(c, n, all), e) <==> 2 + ScriptsOn(mid, e.key) <= c.max)
    ensures c.window >= SECOND && e.at >= open.at + c.window ==> (Grants(c, Finish(c, n, all), e) <==> 1 <= c.max)
  {
    var k, start := e.key, pre + [open];
    ServedFromTrace(c, n, all, e);
    RunsPrefix(c, n, start, mid, all);
    RunsPrefix(c, n, pre, [open], start);
    SharedCounter(c, n, pre, k);
    TraceOfScripts(mid, k, open.at + Ttl(c));
    TraceConcat(start, mid, all, k);
    TraceConcat(pre, [open], start, k);
    assert [open][..0] == [] && SharedTrace([open], k) == [Ask(open.at, open.Served?)];
    var ask := Ask(open.at, open.Served?);
    OpenWindowCounts(Ttl(c), SharedTrace(all, k), SharedTrace(pre, k), ask, SharedTrace(mid, k));
    TtlOfWindow(c);
  }

  /** The step would be granted after the run. */
  ghost predicate GrantsAfter(c: Config, n: nat, run: seq<Step>, e: Step) {
    StepsBelow(n, run) && e.proc < n && Grants(c, Finish(c, n, run), e)
  }

  /** The store as the script of `e` leaves it. */
  ghost function StoreAfter(c: Config, n: nat, pre: seq<Step>, e: Step): (s: Store)
    requires StepsBelow(n, pre) && !e.Local?
    ensures RedisKey(e.key) in s
  {
    Script(Finish(c, n, pre).store, RedisKey(e.key), TtlSeconds(c.window), e.at)
  }

  /** When the counter that `e` asks expires. */
  ghost function ExpiryAfter(c: Config, n: nat, pre: seq<Step>, e: Step): int
    requires StepsBelow(n, pre) && !e.Local?
  {
    var at := StoreAfter(c, n, pre, e)[RedisKey(e.key)].expireAt;
    if at.Some? then at.value else e.at
  }

  /**
   A run in which the shared counter refuses `e` after `pre`, the scripts for
   its key in `mid` come before the expiry, and `retry` is the next request
   for the key that Redis serves.
   */
  ghost predicate RefusedThen(
    c: Config, n: nat, pre: seq<Step>, e: Step, mid: seq<Step>, all: seq<Step>, retry: Step)
  {
    && all == pre + [e] + mid && Runs(c, n, all + [retry])
    && e.Served? && retry.Served? && retry.key == e.key
    && StepsBelow(n, pre) && e.proc < n && !GrantsAfter(c, n, pre, e)
    && forall i :: 0 <= i < |mid| && RunsScript(mid[i], e.key) ==> mid[i].at < ExpiryAfter(c, n, pre, e)
  }

  /** After a refusal by the shared counter, the next served request is granted exactly from the expiry on. */
  lemma {:induction false} RefusedUntilExpiry(
    c: Config, n: nat, pre: seq<Step>, e: Step, mid: seq<Step>, all: seq<Step>, retry: Step)
    requires c.max >= 1 && RefusedThen(c, n, pre, e, mid, all, retry)
    ensures GrantsAfter(c, n, all, retry) <==> retry.at >= ExpiryAfter(c, n, pre, e)
    ensures var left := ExpiryAfter(c, n, pre, e) - e.at;
            left > 0 && TtlReply(StoreAfter(c, n, pre, e), RedisKey(e.key), e.at) == (left + SECOND / 2) / SECOND
  {
    ServedFromTrace(c, n, all, retry);
    RunsPrefix(c, n, pre + [e], mid, all);
    AskedCounter(c, n, pre, e);
    StillRefused(c, n, pre, e, mid, all);
  }

  /** Until the expiry the counter stays open and above the budget. */
  lemma {:induction false} StillRefused(c: Config, n: nat, pre: seq<Step>, e: Step, mid: seq<Step>, all: seq<Step>)
    requires all == pre + [e] + mid && Runs(c, n, pre + [e]) && StepsBelow(n, pre) && e.Served?
    requires !GrantsAfter(c, n, pre, e)
    requires forall i :: 0 <= i < |mid| && RunsScript(mid[i], e.key) ==> mid[i].at < ExpiryAfter(c, n, pre, e)
    ensures var slot := SlotAfter(Ttl(c), SharedTrace(all, e.key));
            slot.Some? && slot.value.resetAt == ExpiryAfter(c, n, pre, e) && slot.value.count > c.max
  {
    var k, start := e.key, pre + [e];
    ServedFromTrace(c, n, pre, e);
    AskedCounter(c, n, pre, e);
    TraceOfScripts(mid, k, ExpiryAfter(c, n, pre, e));
    TraceConcat(start, mid, all, k);
    StaysOpen(Ttl(c), SharedTrace(start, k), SharedTrace(mid, k), SharedTrace(all, k));
  }

  /** The counter right after the script of `e` is the one its trace describes, and it is open. */
  lemma {:induction false} AskedCounter(c: Config, n: nat, pre: seq<Step>, e: Step)
    requires Runs(c, n, pre + [e]) && StepsBelow(n, pre) && e.Served?
    ensures var slot := SlotAfter(Ttl(c), SharedTrace(pre + [e], e.key));
            && CounterOf(StoreAfter(c, n, pre, e), RedisKey(e.key), slot)
            && slot == Some(HitSlot(Ttl(c), SlotAfter(Ttl(c), SharedTrace(pre, e.key)), e.at))
            && slot.value.resetAt == ExpiryAfter(c, n, pre, e) > e.at
    ensures TtlReply(StoreAfter(c, n, pre, e), RedisKey(e.key), e.at) ==
            (ExpiryAfter(c, n, pre, e) - e.at + SECOND / 2) / SECOND
  {
    var k, w := e.key, Ttl(c);
    RunsPrefix(c, n, pre, [e], pre + [e]);
    SharedCounter(c, n, pre, k);
    ScriptIsHit(Finish(c, n, pre).store, RedisKey(k), TtlSeconds(c.window), e.at, SlotAfter(w, SharedTrace(pre, k)));
    TraceConcat(pre, [e], pre + [e], k);
    assert [e][..0] == [] && SharedTrace([e], k) == [Ask(e.at, true)];
    Snoc(c.max, w, SharedTrace(pre, k), Ask(e.at, true), 0, 0);
    TtlOfWindow(c);
  }

  /** A run of one process after which only `k` has a counter, in its window that ends at `expireAt`. */
  ghost predicate Counting(c: Config, run: seq<Step>, k: string, count: nat, expireAt: int, at: int) {
    && Runs(c, 1, run) && run != [] && run[|run| - 1].At() == at
    && Finish(c, 1, run).store == map[RedisKey(k) := Counter(count, Some(expireAt))]
  }

  /** One more request of the process, served by Redis. */
  lemma ServedNext(c: Config, run: seq<Step>, e: Step, all: seq<Step>)
    requires Runs(c, 1, run) && e.Served? && e.proc == 0 && (run != [] ==> run[|run| - 1].At() <= e.at)
    requires all == run + [e]
    ensures Runs(c, 1, all)
    ensures Finish(c, 1, all).store == Script(Finish(c, 1, run).store, RedisKey(e.key), TtlSeconds(c.window), e.at)
  {
    assert all[..|run|] == run;
  }

  lemma CountingNext(c: Config, run: seq<Step>, k: string, count: nat, expireAt: int, at: int, e: Step, all: seq<Step>)
    requires Counting(c, run, k, count, expireAt, at) && count >= 1
    requires e.Served? && e.proc == 0 && e.key == k && at <= e.at < expireAt && all == run + [e]
    ensures Counting(c, all, k, count + 1, expireAt, e.at)
    ensures StoreAfter(c, 1, run, e) == map[RedisKey(k) := Counter(count + 1, Some(expireAt))]
    ensures GrantsAfter(c, 1, run, e) <==> count + 1 <= c.max
  {
    ServedNext(c, run, e, all);
    ScriptAgain(RedisKey(k), count, expireAt, TtlSeconds(c.window), e.at);
  }

  lemma {:induction false} Spend(c: Config, k: string, m: nat) returns (run: seq<Step>)
    requires m >= 1
    ensures Counting(c, run, k, m, Ttl(c), 0)
  {
    TtlOfWindow(c);
    var e := Served(0, k, 0);
    if m == 1 {
      run := [e];
      ScriptFresh(RedisKey(k), TtlSeconds(c.window), 0);
      ServedNext(c, [], e, run);
    } else {
      var before := Spend(c, k, m - 1);
      run := before + [e];
      CountingNext(c, before, k, m - 1, Ttl(c), 0, e, run);
    }
  }

  lemma ScriptFresh(k: string, seconds: int, at: int)
    ensures Script(map[], k, seconds, at) == map[k := Counter(1, Some(at + seconds * SECOND))]
  {
  }

  lemma ScriptAgain(k: string, count: nat, expireAt: int, seconds: int, at: int)
    requires count >= 1 && at < expireAt
    ensures Script(map[k := Counter(count, Some(expireAt))], k, seconds, at) ==
            map[k := Counter(count + 1, Some(expireAt))]
  {
  }

  /** The table of process `p` is that of a limiter that was asked `reqs`, none of them after `t`. */
  ghost predicate TableOf(c: Config, s: System, p: nat, reqs: seq<Request>, t: int) {
    && p < |s.local| && Run(c, reqs) && After(c, reqs) == s.local[p]
    && (reqs != [] ==> reqs[|reqs| - 1].now <= t)
  }

  lemma {:induction false} LocalBuckets(c: Config, n: nat, run: seq<Step>, p: nat)
    requires Runs(c, n, run) && p < n
    ensures Run(c, LocalRun(run, p))
    ensures After(c, LocalRun(run, p)) == Finish(c, n, run).local[p]
    ensures run != [] ==> TableOf(c, Finish(c, n, run), p, LocalRun(run, p), run[|run| - 1].At())
    ensures run == [] ==> LocalRun(run, p) == []
  {
    if run != [] {
      var init, e := run[..|run| - 1], run[|run| - 1];
      LocalBuckets(c, n, init, p);
      assert TableOf(c, Finish(c, n, init), p, LocalRun(init, p), e.At());
      LocalExtends(c, Finish(c, n, init), LocalRun(init, p), e, p);
    }
  }

  /** One more step extends the run of the fallback it asks, and no other. */
  lemma LocalExtends(c: Config, s: System, before: seq<Request>, e: Step, p: nat)
    requires p < |s.local| && e.proc < |s.local| && TableOf(c, s, p, before, e.At())
    requires e.Local? ==> Legal(c, s.local[e.proc], e.request) && e.request.now <= e.request.later
    ensures TableOf(c, Do(c, s, e), p, before + if e.Local? && e.proc == p then [e.request] else [], e.At())
  {
    if e.Local? && e.proc == p {
      RunExtends(c, before, e.request);
      RunSnoc(c, before, e.request, "", 0, 0);
    } else {
      assert before + [] == before;
    }
  }

  lemma {:induction false} SharedMonotone(c: Config, n: nat, run: seq<Step>, k: string)
    requires Runs(c, n, run)
    ensures Monotone(SharedTrace(run, k))
    ensures forall i :: 0 <= i < |SharedTrace(run, k)| ==>
              SharedTrace(run, k)[i].Ask? && run != [] && SharedTrace(run, k)[i].at <= run[|run| - 1].At()
  {
    if run != [] {
      SharedMonotone(c, n, run[..|run| - 1], k);
    }
  }

  // ---------- adding the processes up ----------

  /** What the fallback of each process allowed. */
  function LocalShares(c: Config, n: nat, run: seq<Step>, k: string, lo: int, hi: int): seq<nat> {
    seq(n, p requires 0 <= p < n => AllowedIn(c, LocalRun(run, p), k, lo, hi))
  }

  /** How often each process evicted `k` from its fallback. */
  function LocalEvictions(c: Config, n: nat, run: seq<Step>, k: string, lo: int, hi: int): seq<nat> {
    seq(n, p requires 0 <= p < n => EvictionsIn(c, LocalRun(run, p), k, lo, hi))
  }

  /** How often `k` was evicted from any fallback at a time in [lo, hi). */
  function Evictions(c: Config, n: nat, run: seq<Step>, k: string, lo: int, hi: int): nat {
    Sum(LocalEvictions(c, n, run, k, lo, hi))
  }

  lemma LocalStep(c: Config, n: nat, run: seq<Step>, p: nat, k: string, lo: int, hi: int)
    requires Runs(c, n, run) && run != [] && p < n
    ensures var init, e := run[..|run| - 1], run[|run| - 1];
            AllowedIn(c, LocalRun(run, p), k, lo, hi) ==
            AllowedIn(c, LocalRun(init, p), k, lo, hi)
            + if e.Local? && e.proc == p then Granted(c, Finish(c, n, init), e, k, lo, hi) else 0
  {
    var init, e := run[..|run| - 1], run[|run| - 1];
    var before := LocalRun(init, p);
    if e.Local? && e.proc == p {
      LocalBuckets(c, n, init, p);
      RunSnoc(c, before, e.request, k, lo, hi);
      assert LocalRun(run, p) == before + [e.request];
    } else {
      assert LocalRun(run, p) == before;
    }
  }

  /** One more step adds its own grant to the share of exactly one process. */
  lemma LocalSharesStep(c: Config, n: nat, run: seq<Step>, k: string, lo: int, hi: int)
    requires Runs(c, n, run) && run != []
    ensures var init, e := run[..|run| - 1], run[|run| - 1];
            Sum(LocalShares(c, n, run, k, lo, hi)) ==
            Sum(LocalShares(c, n, init, k, lo, hi))
            + if e.Local? then Granted(c, Finish(c, n, init), e, k, lo, hi) else 0
  {
    var init, e := run[..|run| - 1], run[|run| - 1];
    var before, after := LocalShares(c, n, init, k, lo, hi), LocalShares(c, n, run, k, lo, hi);
    var g := if e.Local? then Granted(c, Finish(c, n, init), e, k, lo, hi) else 0;
    forall p | 0 <= p < n
      ensures after[p] == before[p] + if p == e.proc then g else 0
    {
      LocalStep(c, n, run, p, k, lo, hi);
    }
    SumBump(before, after, e.proc, g);
  }

  /** Conservation: every grant is the shared counter's, one fallback's, or due to a garbled reply. */
  lemma {:induction false} GrantsAddUp(c: Config, n: nat, run: seq<Step>, k: string, lo: int, hi: int)
    requires Runs(c, n, run)
    ensures GrantedIn(c, n, run, k, lo, hi) ==
            AdmittedIn(c.max, Ttl(c), SharedTrace(run, k), lo, hi)
            + Sum(LocalShares(c, n, run, k, lo, hi))
            + GarbledIn(run, k, lo, hi)
  {
    if run == [] {
      SumZero(LocalShares(c, n, run, k, lo, hi));
    } else {
      var init, e := run[..|run| - 1], run[|run| - 1];
      GrantsAddUp(c, n, init, k, lo, hi);
      LocalSharesStep(c, n, run, k, lo, hi);
      SharedStep(c, n, run, k, lo, hi);
    }
  }

  /** One more step adds to the shared counter's admissions exactly if it is a script whose reply arrives. */
  lemma SharedStep(c: Config, n: nat, run: seq<Step>, k: string, lo: int, hi: int)
    requires Runs(c, n, run) && run != []
    ensures var init, e := run[..|run| - 1], run[|run| - 1];
            AdmittedIn(c.max, Ttl(c), SharedTrace(run, k), lo, hi) ==
            AdmittedIn(c.max, Ttl(c), SharedTrace(init, k), lo, hi)
            + if e.Served? then Granted(c, Finish(c, n, init), e, k, lo, hi) else 0
  {
    var init, e := run[..|run| - 1], run[|run| - 1];
    var before := SharedTrace(init, k);
    if !e.Local? && e.key == k {
      SharedCounter(c, n, init, k);
      ScriptIsHit(Finish(c, n, init).store, RedisKey(k), TtlSeconds(c.window), e.at, SlotAfter(Ttl(c), before));
      Snoc(c.max, Ttl(c), before, Ask(e.at, e.Served?), lo, hi);
      assert SharedTrace(run, k) == before + [Ask(e.at, e.Served?)];
    } else {
      assert SharedTrace(run, k) == before;
    }
  }

  /** A share is less than two budgets and one per eviction. */
  ghost predicate Below(share: nat, evictions: nat, max: nat) {
    share + 1 <= (2 + evictions) * max
  }

  /** If each share stays below its own bound, the sum stays below the sum of the bounds. */
  lemma {:induction false} SumOfShares(shares: seq<nat>, evictions: seq<nat>, max: nat)
    requires |shares| == |evictions|
    requires forall p :: 0 <= p < |shares| ==> Below(shares[p], evictions[p], max)
    ensures Sum(shares) + |shares| <= (2 * |shares| + Sum(evictions)) * max
  {
    var m := |shares|;
    if m == 0 {
      assert (2 * m + Sum(evictions)) * max == 0;
    } else {
      SumOfShares(shares[..m - 1], evictions[..m - 1], max);
      assert Below(shares[m - 1], evictions[m - 1], max);
      var es := Sum(evictions[..m - 1]);
      AddShares(Sum(shares[..m - 1]), shares[m - 1], m - 1, 2 * (m - 1) + es, 2 + evictions[m - 1], max);
      assert 2 * (m - 1) + Sum(evictions[..m - 1]) + (2 + evictions[m - 1]) == 2 * m + Sum(evictions);
    }
  }

  lemma AddShares(x: nat, y: nat, m: nat, a: nat, b: nat, max: nat)
    requires x + m <= a * max && y + 1 <= b * max
    ensures x + y + m + 1 <= (a + b) * max
  {
    assert (a + b) * max == a * max + b * max;
  }

  lemma {:induction false} NoDrops(trace: seq<Obs>, lo: int, hi: int)
    requires forall i :: 0 <= i < |trace| ==> trace[i].Ask?
    ensures DropsIn(trace, lo, hi) == 0
  {
    if trace != [] {
      NoDrops(trace[..|trace| - 1], lo, hi);
    }
  }

  lemma SharedShare(c: Config, n: nat, run: seq<Step>, k: string, lo: int, hi: int)
    requires Runs(c, n, run) && hi - lo <= Ttl(c)
    ensures c.max >= 1 ==> AdmittedIn(c.max, Ttl(c), SharedTrace(run, k), lo, hi) + 1 <= 2 * c.max
    ensures c.max == 0 ==> AdmittedIn(c.max, Ttl(c), SharedTrace(run, k), lo, hi) == 0
  {
    SharedMonotone(c, n, run, k);
    NoDrops(SharedTrace(run, k), lo, hi);
    NoDropBound(c.max, Ttl(c), SharedTrace(run, k), lo, hi);
  }

  lemma NoDropBound(max: nat, window: int, trace: seq<Obs>, lo: int, hi: int)
    requires Monotone(trace) && hi - lo <= window && DropsIn(trace, lo, hi) == 0
    ensures max >= 1 ==> AdmittedIn(max, window, trace, lo, hi) + 1 <= 2 * max
    ensures max == 0 ==> AdmittedIn(max, window, trace, lo, hi) == 0
  {
    SlidingBound(max, window, trace, lo, hi);
    assert (2 + DropsIn(trace, lo, hi)) * max == 2 * max;
  }

  lemma LocalShare(c: Config, n: nat, run: seq<Step>, p: nat, k: string, lo: int, hi: int)
    requires Runs(c, n, run) && p < n && hi - lo <= c.window
    ensures c.max >= 1 ==>
              Below(AllowedIn(c, LocalRun(run, p), k, lo, hi), EvictionsIn(c, LocalRun(run, p), k, lo, hi), c.max)
    ensures c.max == 0 ==> AllowedIn(c, LocalRun(run, p), k, lo, hi) == 0
  {
    LocalBuckets(c, n, run, p);
    SlidingLimit(c, LocalRun(run, p), k, lo, hi);
  }

  /**
   The limit across processes: however the errors fall, `n` processes
   together grant fewer than 2 * (n + 1) full budgets (plus one per eviction
   of the key from a fallback, and one request per garbled reply) in any
   interval no longer than the window and the truncated TTL.
   */
  lemma {:induction false} MultiProcessLimit(c: Config, n: nat, run: seq<Step>, k: string, lo: int, hi: int)
    requires c.max >= 1 && Runs(c, n, run) && hi - lo <= Ttl(c) && hi - lo <= c.window
    ensures GrantedIn(c, n, run, k, lo, hi) + n + 1 <=
            (2 * (n + 1) + Evictions(c, n, run, k, lo, hi)) * c.max + GarbledIn(run, k, lo, hi)
  {
    GrantsAddUp(c, n, run, k, lo, hi);
    SharedShare(c, n, run, k, lo, hi);
    var shares, evictions := LocalShares(c, n, run, k, lo, hi), LocalEvictions(c, n, run, k, lo, hi);
    forall p | 0 <= p < n
      ensures Below(shares[p], evictions[p], c.max)
    {
      LocalShare(c, n, run, p, k, lo, hi);
    }
    var shared := AdmittedIn(c.max, Ttl(c), SharedTrace(run, k), lo, hi);
    AllShares(shares, evictions, shared, c.max);
    var bound := (2 * (n + 1) + Evictions(c, n, run, k, lo, hi)) * c.max;
    assert shared + Sum(shares) + n + 1 <= bound;
  }

  lemma NothingWithoutBudgets(c: Config, n: nat, run: seq<Step>, k: string, lo: int, hi: int)
    requires c.max == 0 && Runs(c, n, run) && hi - lo <= Ttl(c) && hi - lo <= c.window
    ensures GrantedIn(c, n, run, k, lo, hi) == GarbledIn(run, k, lo, hi)
  {
    GrantsAddUp(c, n, run, k, lo, hi);
    SharedShare(c, n, run, k, lo, hi);
    forall p | 0 <= p < n
      ensures LocalShares(c, n, run, k, lo, hi)[p] == 0
    {
      LocalShare(c, n, run, p, k, lo, hi);
    }
    SumZero(LocalShares(c, n, run, k, lo, hi));
  }

  lemma AllShares(shares: seq<nat>, evictions: seq<nat>, shared: nat, max: nat)
    requires |shares| == |evictions| && shared + 1 <= 2 * max
    requires forall p :: 0 <= p < |shares| ==> Below(shares[p], evictions[p], max)
    ensures shared + Sum(shares) + |shares| + 1 <= (2 * (|shares| + 1) + Sum(evictions)) * max
  {
    var n, es := |shares|, Sum(evictions);
    SumOfShares(shares, evictions, max);
    AddShares(Sum(shares), shared, n, 2 * n + es, 2, max);
    assert 2 * n + es + 2 == 2 * (n + 1) + es;
  }

  /** With windows of at least 1s, no eviction and no garbled reply, a TTL grants at most 2 * max * (n + 1) requests. */
  lemma {:induction false} WholeSecondLimit(c: Config, n: nat, run: seq<Step>, k: string, lo: int)
    requires Runs(c, n, run) && c.window >= SECOND
    requires Evictions(c, n, run, k, lo, lo + Ttl(c)) == 0 && GarbledIn(run, k, lo, lo + Ttl(c)) == 0
    ensures SECOND <= Ttl(c) && c.window - SECOND < Ttl(c) <= c.window
    ensures GrantedIn(c, n, run, k, lo, lo + Ttl(c)) <= 2 * c.max * (n + 1)
  {
    TtlOfWindow(c);
    var hi := lo + Ttl(c);
    if c.max >= 1 {
      MultiProcessLimit(c, n, run, k, lo, hi);
      PlainBound(GrantedIn(c, n, run, k, lo, hi), n, c.max, Evictions(c, n, run, k, lo, hi));
    } else {
      NothingWithoutBudgets(c, n, run, k, lo, hi);
    }
  }

  lemma PlainBound(granted: nat, n: nat, max: nat, evictions: nat)
    requires evictions == 0 && granted + n + 1 <= (2 * (n + 1) + evictions) * max
    ensures granted <= 2 * max * (n + 1)
  {
    assert (2 * (n + 1) + evictions) * max == 2 * max * (n + 1);
  }
}
