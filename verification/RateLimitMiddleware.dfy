/**
 The rate-limiting middleware (internal/middleware/ratelimit.go): which bucket
 of which limiter a request is charged to, and what a rejected client is told.
 */
module RateLimitMiddleware {
  import opened Wrappers
  import opened Decimal
  import opened Window
  import opened MemoryLimiter
  import Shared = RedisLimiter

  /** Who the request comes from: an authenticated key, or an address alone. */
  datatype Caller = Key(id: int, rank: string) | Anonymous(ip: string)

  datatype Budget = Bypass | Member | Partner

  function BudgetOf(caller: Caller): Budget {
    if caller.Anonymous? then Member
    else if caller.rank == "admin" then Bypass
    else if caller.rank == "partner" then Partner
    else Member
  }

  function KeyBucket(id: int): string {
    "key:" + FormatInt(id)
  }

  function Bucket(caller: Caller): string {
    match caller
    case Key(id, _) => KeyBucket(id)
    case Anonymous(ip) => "ip:" + ip
  }

  /** Bucket names carry their prefix, so are never empty, and tell apart any two keys and any key from any address. */
  lemma BucketNamesDistinct(a: Caller, b: Caller)
    ensures (if a.Key? then "key:" else "ip:") <= Bucket(a)
    ensures Bucket(a) == Bucket(b) <==>
            (a.Key? && b.Key? && a.id == b.id) || (a.Anonymous? && b.Anonymous? && a.ip == b.ip)
  {
    if Bucket(a) == Bucket(b) {
      assert Bucket(a)[0] == if a.Key? then 'k' else 'i';
      assert Bucket(b)[0] == if b.Key? then 'k' else 'i';
      if a.Key? {
        assert Bucket(a)[4..] == FormatInt(a.id) && Bucket(b)[4..] == FormatInt(b.id);
        FormatIntInjective(a.id, b.id);
      } else {
        assert Bucket(a)[3..] == a.ip && Bucket(b)[3..] == b.ip;
      }
    }
  }

  // ---------- the handler ----------

  datatype Reply = Passed | TooManyRequests(retryAfter: int)

  /** The whole seconds that cover a wait in nanoseconds. */
  function CeilSeconds(wait: int): int {
    -(-wait / SECOND)
  }

  function RetryAfter(wait: int): int {
    var secs := CeilSeconds(wait);
    if secs < 1 then 1 else secs
  }

  /** The request went to a limiter, which answered and moved from table `was` to table `became`. */
  ghost predicate Charged(c: Config, was: Buckets, became: Buckets, r: Request, reply: Reply) {
    && Legal(c, was, r) && became == Next(c, was, r)
    && reply == if Allowed(c, was, r) then Passed else TooManyRequests(RetryAfter(Wait(c, was, r)))
  }

  predicate HasRank(caller: Caller, rank: string) {
    caller.Key? && caller.rank == rank
  }

  /** Charges one request to the caller's bucket in the limiter of its rank; admin keys are charged nowhere. */
  method RateLimit(member: MemoryLimiter, partner: MemoryLimiter, caller: Caller, now: int, later: int)
    returns (reply: Reply, ghost victim: string)
    modifies member`buckets, partner`buckets
    ensures HasRank(caller, "admin") ==>
              reply == Passed && member.buckets == old(member.buckets) && partner.buckets == old(partner.buckets)
    ensures HasRank(caller, "partner") ==>
              && Charged(partner.Settings(), old(partner.buckets), partner.buckets,
                         Request(Bucket(caller), now, later, victim), reply)
              && (member != partner ==> member.buckets == old(member.buckets))
    ensures !HasRank(caller, "admin") && !HasRank(caller, "partner") ==>
              && Charged(member.Settings(), old(member.buckets), member.buckets,
                         Request(Bucket(caller), now, later, victim), reply)
              && (member != partner ==> partner.buckets == old(partner.buckets))
  {
    victim := "";
    var limiter := member;
    if caller.Key? {
      if caller.rank == "admin" {
        return Passed, victim;
      } else if caller.rank == "partner" {
        limiter := partner;
      }
    }
    var ok, wait;
    ok, wait, victim := limiter.Allow(Bucket(caller), now, later);
    if !ok {
      return TooManyRequests(RetryAfter(wait)), victim;
    }
    return Passed, victim;
  }

  /** What one Redis-backed limiter holds: the shared store, the private table, and its settings. */
  datatype Backend = Backend(store: Shared.Store, table: Buckets, max: nat, ttl: int, fallback: Config)

  ghost function BackendOf(l: Shared.Limiter): Backend
    reads l.client, l.fallback
  {
    Backend(l.client.store, l.fallback.buckets, l.max, l.ttl, l.fallback.Settings())
  }

  /** The request went to a Redis-backed limiter, with the trip to Redis ending in `trip`. */
  ghost predicate ChargedShared(was: Backend, became: Backend, trip: Shared.Trip, at: int, r: Request, reply: Reply) {
    var k := Shared.RedisKey(r.key);
    && became.store == (if trip.NotRun? then was.store else Shared.Script(was.store, k, Shared.TtlSeconds(was.ttl), at))
    && match trip {
         case Replied =>
           && became.table == was.table
           && k in became.store
           && reply == if became.store[k].count <= was.max then Passed
                       else TooManyRequests(RetryAfter(Shared.TtlReply(became.store, k, at) * SECOND))
         case Garbled => became.table == was.table && reply == Passed
         case _ => Charged(was.fallback, was.table, became.table, r, reply)
       }
  }

  /**
   The same handler over Redis-backed limiters. The script runs at `at` unless
   the trip fails before; `now` and `later` are the fallback's clock readings.
   */
  method RateLimitShared(member: Shared.Limiter, partner: Shared.Limiter, caller: Caller,
                         trip: Shared.Trip, at: int, now: int, later: int)
    returns (reply: Reply, ghost victim: string)
    modifies member.client, partner.client, member.fallback`buckets, partner.fallback`buckets
    ensures HasRank(caller, "admin") ==>
              reply == Passed && BackendOf(member) == old(BackendOf(member))
              && BackendOf(partner) == old(BackendOf(partner))
    ensures HasRank(caller, "partner") ==>
              && ChargedShared(old(BackendOf(partner)), BackendOf(partner), trip, at,
                               Request(Bucket(caller), now, later, victim), reply)
              && (member.fallback != partner.fallback ==> member.fallback.buckets == old(member.fallback.buckets))
              && (member.client != partner.client ==> member.client.store == old(member.client.store))
    ensures !HasRank(caller, "admin") && !HasRank(caller, "partner") ==>
              && ChargedShared(old(BackendOf(member)), BackendOf(member), trip, at,
                               Request(Bucket(caller), now, later, victim), reply)
              && (member.fallback != partner.fallback ==> partner.fallback.buckets == old(partner.fallback.buckets))
              && (member.client != partner.client ==> partner.client.store == old(partner.client.store))
  {
    victim := "";
    var limiter := member;
    if caller.Key? {
      if caller.rank == "admin" {
        return Passed, victim;
      } else if caller.rank == "partner" {
        limiter := partner;
      }
    }
    var ok, wait;
    ok, wait, victim := limiter.Allow(Bucket(caller), trip, at, now, later);
    if !ok {
      return TooManyRequests(RetryAfter(wait)), victim;
    }
    return Passed, victim;
  }

  // ---------- per-key isolation ----------

  datatype Visit = Visit(caller: Caller, now: int, later: int, victim: string)

  function AsRequest(v: Visit): Request {
    Request(Bucket(v.caller), v.now, v.later, v.victim)
  }

  /** The requests a limiter gets to see. */
  function Routed(visits: seq<Visit>, budget: Budget): seq<Request> {
    if visits == [] then []
    else
      var v := visits[|visits| - 1];
      Routed(visits[..|visits| - 1], budget) + if BudgetOf(v.caller) == budget then [AsRequest(v)] else []
  }

  /**
   Which limiter sees a visit, by its rank: admin keys none, partner keys the
   partner limiter only, every other key and every address the member limiter
   only, under the caller's own bucket and at the time of the visit.
   */
  lemma RoutedByRank(visits: seq<Visit>, v: Visit)
    ensures var r := Request(Bucket(v.caller), v.now, v.later, v.victim);
            var member, partner := Routed(visits, Member), Routed(visits, Partner);
            var member', partner' := Routed(visits + [v], Member), Routed(visits + [v], Partner);
            if HasRank(v.caller, "admin") then member' == member && partner' == partner
            else if HasRank(v.caller, "partner") then member' == member && partner' == partner + [r]
            else member' == member + [r] && partner' == partner
  {
    assert (visits + [v])[..|visits|] == visits;
  }

  predicate IsKey(v: Visit, id: int, budget: Budget) {
    v.caller.Key? && v.caller.id == id && BudgetOf(v.caller) == budget
  }

  /** When the key made its requests. */
  function Times(visits: seq<Visit>, id: int, budget: Budget): seq<int> {
    if visits == [] then []
    else
      var v := visits[|visits| - 1];
      Times(visits[..|visits| - 1], id, budget) + if IsKey(v, id, budget) then [v.now] else []
  }

  /** What the key was told, request by request. */
  function Answers(c: Config, visits: seq<Visit>, id: int, budget: Budget): seq<bool> {
    if visits == [] then []
    else
      var init, v := visits[..|visits| - 1], visits[|visits| - 1];
      Answers(c, init, id, budget)
      + if IsKey(v, id, budget) then [Allowed(c, After(c, Routed(init, budget)), AsRequest(v))] else []
  }

  function Asks(times: seq<int>): seq<Obs> {
    if times == [] then [] else Asks(times[..|times| - 1]) + [Ask(times[|times| - 1], true)]
  }

  /** The answers of a limiter that serves this key alone and never deletes. */
  function SoloAnswers(c: Config, times: seq<int>): seq<bool> {
    if times == [] then []
    else
      var init, t := times[..|times| - 1], times[|times| - 1];
      SoloAnswers(c, init) + [Admits(c.max, c.window, SlotAfter(c.window, Asks(init)), t)]
  }

  lemma TimesSnoc(c: Config, times: seq<int>, t: int)
    ensures Asks(times + [t]) == Asks(times) + [Ask(t, true)]
    ensures SoloAnswers(c, times + [t]) ==
            SoloAnswers(c, times) + [Admits(c.max, c.window, SlotAfter(c.window, Asks(times)), t)]
  {
    assert (times + [t])[..|times|] == times;
  }

  /** To the limiter, the requests on a key's bucket are the requests of that key. */
  lemma {:induction false} ProjectIsTimes(c: Config, visits: seq<Visit>, id: int, budget: Budget)
    requires Kept(c, Routed(visits, budget), KeyBucket(id))
    ensures Project(c, Routed(visits, budget), KeyBucket(id)) == Asks(Times(visits, id, budget))
  {
    if visits != [] {
      var init, v := visits[..|visits| - 1], visits[|visits| - 1];
      var before := Routed(init, budget);
      if BudgetOf(v.caller) == budget {
        RunSnoc(c, before, AsRequest(v), KeyBucket(id), 0, 0);
        ProjectIsTimes(c, init, id, budget);
        BucketNamesDistinct(v.caller, Key(id, ""));
        TimesSnoc(c, Times(init, id, budget), v.now);
      } else {
        assert Routed(visits, budget) == before;
        ProjectIsTimes(c, init, id, budget);
      }
      assert !IsKey(v, id, budget) ==> Times(visits, id, budget) == Times(init, id, budget);
    }
  }

  /** What is asked of the routed run also holds before the last visit. */
  lemma RoutedPrefix(c: Config, visits: seq<Visit>, id: int, budget: Budget)
    requires visits != [] && Run(c, Routed(visits, budget)) && Kept(c, Routed(visits, budget), KeyBucket(id))
    ensures var before := Routed(visits[..|visits| - 1], budget); Run(c, before) && Kept(c, before, KeyBucket(id))
  {
    var init, v := visits[..|visits| - 1], visits[|visits| - 1];
    RunSnoc(c, Routed(init, budget), AsRequest(v), KeyBucket(id), 0, 0);
    assert BudgetOf(v.caller) != budget ==> Routed(visits, budget) == Routed(init, budget);
  }

  lemma AnswerFromTimes(c: Config, visits: seq<Visit>, v: Visit, id: int, budget: Budget)
    requires var run := Routed(visits, budget); Run(c, run + [AsRequest(v)]) && Kept(c, run, KeyBucket(id))
    requires IsKey(v, id, budget)
    ensures Allowed(c, After(c, Routed(visits, budget)), AsRequest(v)) ==
            Admits(c.max, c.window, SlotAfter(c.window, Asks(Times(visits, id, budget))), v.now)
  {
    ProjectIsTimes(c, visits, id, budget);
    DecisionFromProjection(c, Routed(visits, budget), AsRequest(v));
  }

  /** A key whose bucket is kept gets exactly the answers it would get alone. */
  lemma {:induction false} KeyIsAlone(c: Config, visits: seq<Visit>, id: int, budget: Budget)
    requires Run(c, Routed(visits, budget)) && Kept(c, Routed(visits, budget), KeyBucket(id))
    ensures Answers(c, visits, id, budget) == SoloAnswers(c, Times(visits, id, budget))
  {
    if visits != [] {
      var init, v := visits[..|visits| - 1], visits[|visits| - 1];
      RoutedPrefix(c, visits, id, budget);
      KeyIsAlone(c, init, id, budget);
      if IsKey(v, id, budget) {
        AnswerFromTimes(c, init, v, id, budget);
        TimesSnoc(c, Times(init, id, budget), v.now);
      } else {
        assert Times(visits, id, budget) == Times(init, id, budget);
        assert Answers(c, visits, id, budget) == Answers(c, init, id, budget);
      }
    }
  }

  /**
   Isolation: two runs in which a key asks at the same times, and in which its
   bucket is kept, answer it alike, whatever other keys, addresses and admin
   requests either run holds.
   */
  lemma PerKeyIsolation(c: Config, visits: seq<Visit>, others: seq<Visit>, id: int, budget: Budget)
    requires Run(c, Routed(visits, budget)) && Kept(c, Routed(visits, budget), KeyBucket(id))
    requires Run(c, Routed(others, budget)) && Kept(c, Routed(others, budget), KeyBucket(id))
    requires Times(visits, id, budget) == Times(others, id, budget)
    ensures Answers(c, visits, id, budget) == Answers(c, others, id, budget)
  {
    KeyIsAlone(c, visits, id, budget);
    KeyIsAlone(c, others, id, budget);
  }

  // ---------- Retry-After ----------

  lemma {:induction false} ResetsWithinOneWindow(c: Config, run: seq<Request>, k: string)
    requires Run(c, run) && k in After(c, run)
    ensures After(c, run)[k].resetAt <= run[|run| - 1].now + c.window
  {
    var init, r := run[..|run| - 1], run[|run| - 1];
    if k in After(c, init) {
      ResetsWithinOneWindow(c, init, k);
    }
  }

  /** Retry-After lies between one second and the window rounded up to whole seconds. */
  lemma {:induction false} RetryAfterBounded(c: Config, run: seq<Request>, r: Request)
    requires Run(c, run + [r]) && !Allowed(c, After(c, run), r)
    ensures var secs := RetryAfter(Wait(c, After(c, run), r));
            1 <= secs && (secs == 1 || (secs - 1) * SECOND < c.window)
  {
    RunSnoc(c, run, r, r.key, 0, 0);
    assert (run + [r])[..|run|] == run;
    ResetsWithinOneWindow(c, run + [r], r.key);
  }

  /**
   Retry-After is exact up to rounding: after a rejection, the next request on
   the key is allowed if and only if it comes at or after the reported wait,
   waiting the advertised seconds is enough, and one second less is not. The
   bucket must be kept meanwhile, and the requests in between must come before
   the reset.
   */
  lemma {:induction false} RetryAfterSound(c: Config, pre: seq<Request>, r: Request, mid: seq<Request>, retry: Request)
    requires c.max >= 1
    requires Run(c, pre + [r] + mid + [retry]) && KeptAfter(c, pre + [r], mid, r.key)
    requires !Allowed(c, After(c, pre), r) && retry.key == r.key
    requires forall i :: 0 <= i < |mid| && mid[i].key == r.key ==> mid[i].now < Next(c, After(c, pre), r)[r.key].resetAt
    ensures Allowed(c, After(c, pre + [r] + mid), retry) <==> retry.now >= Next(c, After(c, pre), r)[r.key].resetAt
    ensures Allowed(c, After(c, pre + [r] + mid), retry) <==> retry.now >= r.later + Wait(c, After(c, pre), r)
    ensures var secs := RetryAfter(Wait(c, After(c, pre), r));
            && (retry.now >= r.later + secs * SECOND ==> Allowed(c, After(c, pre + [r] + mid), retry))
            && (secs > 1 && retry.now <= r.later + (secs - 1) * SECOND ==>
                  !Allowed(c, After(c, pre + [r] + mid), retry))
  {
    var k, start, whole := r.key, pre + [r], pre + [r] + mid;
    RunSnoc(c, whole, retry, k, 0, 0);
    RunPrefix(c, start, mid, whole);
    SlotAfterAsk(c, pre, r);
    ProjectAfter(c, start, mid, whole, k);
    AsksAreBefore(mid, k, Next(c, After(c, pre), r)[k].resetAt);
    StaysOpen(c.window, Project(c, start, k), AsksOf(mid, k), Project(c, whole, k));
    DecisionFromProjection(c, whole, retry);
  }

  /** The counter of a key right after one of its requests. */
  lemma {:induction false} SlotAfterAsk(c: Config, pre: seq<Request>, r: Request)
    requires Run(c, pre + [r])
    ensures SlotAfter(c.window, Project(c, pre + [r], r.key)) == Some(Next(c, After(c, pre), r)[r.key])
  {
    DecisionFromProjection(c, pre, r);
    RunSnoc(c, pre, r, r.key, 0, 0);
    Snoc(c.max, c.window, Project(c, pre, r.key), Ask(r.now, true), 0, 0);
  }

  // ---------- Retry-After on the Redis path ----------

  /** The Retry-After of a request that the shared counter refuses after `pre`. */
  ghost function SharedRetryAfter(c: Config, n: nat, pre: seq<Shared.Step>, e: Shared.Step): int
    requires Shared.StepsBelow(n, pre) && !e.Local?
  {
    RetryAfter(Shared.TtlReply(Shared.StoreAfter(c, n, pre, e), Shared.RedisKey(e.key), e.at) * SECOND)
  }

  /** Rounding the time to expiry to whole seconds, at least one, does not cut it short. */
  predicate RoundsUp(left: int) {
    left <= SECOND || left % SECOND == 0 || left % SECOND >= SECOND / 2
  }

  /**
   The Redis path rounds to the nearest second, so waiting the advertised
   seconds is not always enough. Exactly: after a refusal by the shared
   counter, a retry of the key that Redis serves is granted if and only if it
   comes at or after the expiry, and one that waited the advertised seconds is
   granted if and only if the time to expiry was not rounded down.
   */
  lemma {:induction false} SharedRetryIff(
    c: Config, n: nat, pre: seq<Shared.Step>, e: Shared.Step, mid: seq<Shared.Step>, all: seq<Shared.Step>,
    retry: Shared.Step)
    requires c.max >= 1 && Shared.RefusedThen(c, n, pre, e, mid, all, retry)
    ensures Shared.GrantsAfter(c, n, all, retry) <==> retry.at >= Shared.ExpiryAfter(c, n, pre, e)
    ensures var left, secs := Shared.ExpiryAfter(c, n, pre, e) - e.at, SharedRetryAfter(c, n, pre, e);
            && secs >= 1 && -SECOND <= 2 * (secs * SECOND - left) <= 2 * SECOND
            && (retry.at == e.at + secs * SECOND ==> (Shared.GrantsAfter(c, n, all, retry) <==> RoundsUp(left)))
  {
    Shared.RefusedUntilExpiry(c, n, pre, e, mid, all, retry);
    RoundedWait(Shared.ExpiryAfter(c, n, pre, e) - e.at);
  }

  lemma RoundedWait(left: int)
    requires left > 0
    ensures var secs := RetryAfter((left + SECOND / 2) / SECOND * SECOND);
            && secs >= 1 && -SECOND <= 2 * (secs * SECOND - left) <= 2 * SECOND
            && (secs * SECOND >= left <==> RoundsUp(left))
  {
  }

  /**
   It does happen: for every budget and every window of at least two seconds
   there is a run in which a refused client that waits the advertised seconds
   is refused again.
   */
  lemma SharedRetryTooEarly(c: Config, k: string)
    returns (pre: seq<Shared.Step>, e: Shared.Step, upto: seq<Shared.Step>, retry: Shared.Step)
    requires c.max >= 1 && c.window >= 2 * SECOND
    ensures e.Served? && retry.Served? && e.key == retry.key == k && Shared.StepsBelow(1, pre)
    ensures upto == pre + [e] && Shared.Runs(c, 1, upto + [retry])
    ensures retry.at == e.at + SharedRetryAfter(c, 1, pre, e) * SECOND
    ensures !Shared.GrantsAfter(c, 1, pre, e) && !Shared.GrantsAfter(c, 1, upto, retry)
  {
    var expiry := Shared.Ttl(c);
    Shared.TtlOfWindow(c);
    pre := Shared.Spend(c, k, c.max);
    e := Shared.Served(0, k, expiry - SECOND - 1);
    upto := pre + [e];
    Shared.CountingNext(c, pre, k, c.max, expiry, 0, e, upto);
    RoundedWait(SECOND + 1);
    retry := Shared.Served(0, k, expiry - 1);
    Shared.CountingNext(c, upto, k, c.max + 1, expiry, e.at, retry, upto + [retry]);
  }
}
