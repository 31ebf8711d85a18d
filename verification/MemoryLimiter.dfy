/**
 The in-memory fixed-window limiter (internal/ratelimit/limiter.go): a bounded
 table of counters with lazy expiry, purging and eviction.
 */
module MemoryLimiter {
  import opened Wrappers
  import opened Window

  type Buckets = map<string, Entry>

  datatype Config = Config(max: nat, window: int, maxBuckets: nat)

  /**
   One call of Allow. `now` is the clock reading on entry and `later` the
   second reading, behind the wait it reports. Map iteration order decides
   which bucket goes when one must; `victim` names it (empty: none).
   */
  datatype Request = Request(key: string, now: int, later: int, victim: string)

  // ---------- one call, on values ----------

  function Purged(b: Buckets, now: int): Buckets {
    map k | k in b && now <= b[k].resetAt :: b[k]
  }

  ghost predicate Oldest(b: Buckets, k: string) {
    k in b && forall j :: j in b ==> b[k].resetAt <= b[j].resetAt
  }

  /** The bucket of `u` is hidden from a scan that meets the empty key after it. */
  predicate Hidden(b: Buckets, u: string)
    requires u in b
  {
    "" in b && b[u].resetAt > b[""].resetAt
  }

  /**
   What the scan for the oldest bucket can come back with. It keeps "" for
   "none so far", so once it has chosen the bucket of the empty key it takes
   the next one, whatever its reset, and drops nothing if there is no next.
   */
  ghost predicate Scannable(b: Buckets, v: string) {
    && (v == "" ==> forall u :: u in b && u != "" ==> Hidden(b, u))
    && (v != "" ==> v in b && forall u :: u in b && u != "" && b[u].resetAt < b[v].resetAt ==> Hidden(b, u))
  }

  function Without(b: Buckets, v: string): Buckets {
    if v == "" then b else b - {v}
  }

  function Slot(b: Buckets, k: string): Option<Entry> {
    if k in b then Some(b[k]) else None
  }

  predicate Full(c: Config, b: Buckets, key: string) {
    key !in b && |b| >= c.maxBuckets
  }

  /** The call finds the table full of unexpired buckets and looks for one to drop. */
  predicate Evicts(c: Config, b: Buckets, r: Request) {
    Full(c, b, r.key) && |Purged(b, r.now)| >= c.maxBuckets && Purged(b, r.now) != map[]
  }

  /** Which choices of victim the scan of the table can make. */
  ghost predicate Legal(c: Config, b: Buckets, r: Request) {
    Evicts(c, b, r) ==> Scannable(Purged(b, r.now), r.victim)
  }

  function Room(c: Config, b: Buckets, r: Request): Buckets {
    if !Full(c, b, r.key) then b
    else if Evicts(c, b, r) then Without(Purged(b, r.now), r.victim)
    else Purged(b, r.now)
  }

  function Next(c: Config, b: Buckets, r: Request): Buckets {
    var room := Room(c, b, r);
    room[r.key := HitSlot(c.window, Slot(room, r.key), r.now)]
  }

  predicate Allowed(c: Config, b: Buckets, r: Request) {
    Next(c, b, r)[r.key].count <= c.max
  }

  /** The wait a denied request is told: what `time.Until(resetAt)` reads at `later`. */
  function Wait(c: Config, b: Buckets, r: Request): int {
    if Allowed(c, b, r) then 0 else Next(c, b, r)[r.key].resetAt - r.later
  }

  // ---------- the limiter itself ----------

  class MemoryLimiter {
    const max: nat
    const window: int
    const maxBuckets: nat
    var buckets: Buckets

    constructor (max: nat, window: int)
      ensures this.max == max && this.window == window && maxBuckets == 10000 && buckets == map[]
    {
      this.max, this.window, this.maxBuckets, this.buckets := max, window, 10000, map[];
    }

    function Settings(): Config {
      Config(max, window, maxBuckets)
    }

    method Allow(key: string, now: int, later: int) returns (ok: bool, wait: int, ghost victim: string)
      modifies this`buckets
      ensures var r := Request(key, now, later, victim);
              && Legal(Settings(), old(buckets), r)
              && buckets == Next(Settings(), old(buckets), r)
              && ok == Allowed(Settings(), old(buckets), r)
              && wait == Wait(Settings(), old(buckets), r)
      ensures key in buckets && if ok then wait == 0 else later + wait == buckets[key].resetAt
    {
      victim := MakeRoom(key, now, later);
      if key !in buckets {
        buckets := buckets[key := Entry(0, now + window)];
      }
      var e := buckets[key];
      if now >= e.resetAt {
        e := Entry(0, now + window);
      }
      e := e.(count := e.count + 1);
      buckets := buckets[key := e];
      if e.count > max {
        return false, e.resetAt - later, victim;
      }
      return true, 0, victim;
    }

    /** Before a new bucket is added to a full table: purge, and if that is not enough evict. */
    method MakeRoom(key: string, now: int, ghost later: int) returns (ghost victim: string)
      modifies this`buckets
      ensures var r := Request(key, now, later, victim);
              Legal(Settings(), old(buckets), r) && buckets == Room(Settings(), old(buckets), r)
    {
      victim := "";
      if key !in buckets && |buckets| >= maxBuckets {
        Purge(now);
        if |buckets| >= maxBuckets {
          victim := EvictOldest();
        }
      }
    }

    /** Drops every bucket whose window is over, visiting the table in any order. */
    method Purge(now: int)
      modifies this`buckets
      ensures buckets == Purged(old(buckets), now)
    {
      var unseen := buckets.Keys;
      while unseen != {}
        invariant unseen <= buckets.Keys <= old(buckets).Keys
        invariant forall k :: k in buckets ==>
                    buckets[k] == old(buckets)[k] && (k in unseen || now <= buckets[k].resetAt)
        invariant forall k :: k in old(buckets) && now <= old(buckets)[k].resetAt ==> k in buckets
        decreases unseen
      {
        var k :| k in unseen;
        if now > buckets[k].resetAt {
          buckets := buckets - {k};
        }
        unseen := unseen - {k};
      }
    }

    /** Scans the table in any order for the bucket that resets soonest, and drops it. */
    method EvictOldest() returns (oldestKey: string)
      modifies this`buckets
      ensures Scannable(old(buckets), oldestKey) && buckets == Without(old(buckets), oldestKey)
    {
      oldestKey := "";
      var oldestAt := 0;
      var unseen := buckets.Keys;
      while unseen != {}
        invariant unseen <= buckets.Keys && buckets == old(buckets)
        invariant oldestKey == "" ==>
                    forall u :: u in buckets && u !in unseen && u != "" ==> "" !in unseen && Hidden(buckets, u)
        invariant oldestKey == "" && unseen != buckets.Keys ==> "" in buckets && oldestAt == buckets[""].resetAt
        invariant oldestKey != "" ==>
                    oldestKey in buckets && oldestKey !in unseen && oldestAt == buckets[oldestKey].resetAt
        invariant oldestKey != "" ==>
                    forall u :: u in buckets && u !in unseen && u != "" && buckets[u].resetAt < oldestAt ==>
                      "" !in unseen && Hidden(buckets, u)
        decreases unseen
      {
        var k :| k in unseen;
        if oldestKey == "" || buckets[k].resetAt < oldestAt {
          oldestKey := k;
          oldestAt := buckets[k].resetAt;
        }
        unseen := unseen - {k};
      }
      if oldestKey != "" {
        buckets := buckets - {oldestKey};
      }
    }
  }

  // ---------- whole runs ----------

  function After(c: Config, run: seq<Request>): Buckets {
    if run == [] then map[] else Next(c, After(c, run[..|run| - 1]), run[|run| - 1])
  }

  /** Runs of a limiter from its empty table, under a clock that never goes back. */
  ghost predicate Run(c: Config, run: seq<Request>) {
    run == [] ||
    var init, r := run[..|run| - 1], run[|run| - 1];
    && Run(c, init)
    && Legal(c, After(c, init), r)
    && r.now <= r.later
    && (init != [] ==> init[|init| - 1].now <= r.now)
  }

  /** How many requests for `k` at a time in [lo, hi) the run allowed. */
  function AllowedIn(c: Config, run: seq<Request>, k: string, lo: int, hi: int): nat {
    if run == [] then 0
    else
      var init, r := run[..|run| - 1], run[|run| - 1];
      AllowedIn(c, init, k, lo, hi)
      + if r.key == k && Within(r.now, lo, hi) && Allowed(c, After(c, init), r) then 1 else 0
  }

  predicate Loses(c: Config, b: Buckets, r: Request, k: string) {
    Evicts(c, b, r) && r.victim == k && k != ""
  }

  /** How often the bucket of `k` was evicted at a time in [lo, hi). */
  function EvictionsIn(c: Config, run: seq<Request>, k: string, lo: int, hi: int): nat {
    if run == [] then 0
    else
      var init, r := run[..|run| - 1], run[|run| - 1];
      EvictionsIn(c, init, k, lo, hi) + if Loses(c, After(c, init), r, k) && Within(r.now, lo, hi) then 1 else 0
  }

  /** The run as the counter of `k` alone sees it; purging leaves no trace. */
  function Project(c: Config, run: seq<Request>, k: string): seq<Obs> {
    if run == [] then []
    else
      var init, r := run[..|run| - 1], run[|run| - 1];
      Project(c, init, k) +
      if r.key == k then [Ask(r.now, true)]
      else if Loses(c, After(c, init), r, k) then [Drop(r.now)]
      else []
  }

  /** The bucket of `k` is never the one evicted. */
  predicate Kept(c: Config, run: seq<Request>, k: string) {
    run == [] ||
    (Kept(c, run[..|run| - 1], k) && !Loses(c, After(c, run[..|run| - 1]), run[|run| - 1], k))
  }

  /** The bucket of `k` is not evicted by the requests `mid` that follow `pre`. */
  predicate KeptAfter(c: Config, pre: seq<Request>, mid: seq<Request>, k: string) {
    mid == [] ||
    (KeptAfter(c, pre, mid[..|mid| - 1], k) &&
     !Loses(c, After(c, pre + mid[..|mid| - 1]), mid[|mid| - 1], k))
  }

  /** Unfolds a run at its last request. */
  lemma RunSnoc(c: Config, run: seq<Request>, r: Request, k: string, lo: int, hi: int)
    ensures After(c, run + [r]) == Next(c, After(c, run), r)
    ensures Run(c, run + [r]) ==> Run(c, run) && Legal(c, After(c, run), r) && r.now <= r.later
    ensures Kept(c, run + [r], k) <==> Kept(c, run, k) && !Loses(c, After(c, run), r, k)
    ensures Project(c, run + [r], k) ==
            Project(c, run, k)
            + if r.key == k then [Ask(r.now, true)] else if Loses(c, After(c, run), r, k) then [Drop(r.now)] else []
    ensures AllowedIn(c, run + [r], k, lo, hi) ==
            AllowedIn(c, run, k, lo, hi)
            + if r.key == k && Within(r.now, lo, hi) && Allowed(c, After(c, run), r) then 1 else 0
    ensures EvictionsIn(c, run + [r], k, lo, hi) ==
            EvictionsIn(c, run, k, lo, hi) + if Loses(c, After(c, run), r, k) && Within(r.now, lo, hi) then 1 else 0
  {
    assert (run + [r])[..|run|] == run;
  }

  lemma RunExtends(c: Config, run: seq<Request>, r: Request)
    requires Run(c, run) && Legal(c, After(c, run), r) && r.now <= r.later
    requires run != [] ==> run[|run| - 1].now <= r.now
    ensures Run(c, run + [r])
  {
    assert (run + [r])[..|run|] == run;
  }

  // ---------- the table stays bounded ----------

  /** A table limit of zero still leaves room for the bucket being asked. */
  function Capacity(c: Config): nat {
    if c.maxBuckets == 0 then 1 else c.maxBuckets
  }

  /** No request is for the empty key; the middleware's buckets are all named. */
  predicate Named(run: seq<Request>) {
    forall i :: 0 <= i < |run| ==> run[i].key != ""
  }

  /** No run over named keys ever holds more buckets than the limit, whichever buckets its scans pick. */
  lemma {:induction false} BucketsBounded(c: Config, run: seq<Request>)
    requires Run(c, run) && Named(run)
    ensures |After(c, run)| <= Capacity(c)
    ensures "" !in After(c, run)
  {
    if run != [] {
      var init, r := run[..|run| - 1], run[|run| - 1];
      BucketsBounded(c, init);
      var b := After(c, init);
      RoomBounded(c, b, r);
      assert Next(c, b, r).Keys == Room(c, b, r).Keys + {r.key};
    }
  }

  lemma RoomBounded(c: Config, b: Buckets, r: Request)
    requires Legal(c, b, r) && |b| <= Capacity(c) && "" !in b
    ensures Room(c, b, r).Keys <= b.Keys
    ensures if r.key in b then Room(c, b, r) == b else |Room(c, b, r).Keys| < Capacity(c)
  {
    var p := Purged(b, r.now);
    SubsetSize(p.Keys, b.Keys);
    if Evicts(c, b, r) {
      ScanFindsOldest(p, r.victim);
      assert (p - {r.victim}).Keys == p.Keys - {r.victim};
    }
  }

  /** Without the empty key the scan comes back with an oldest bucket. */
  lemma ScanFindsOldest(b: Buckets, v: string)
    requires Scannable(b, v) && "" !in b && b != map[]
    ensures v != "" && Oldest(b, v)
  {
    var u :| u in b;
    assert v == "" ==> Hidden(b, u);
  }

  lemma {:induction false} SubsetSize<T>(a: set<T>, b: set<T>)
    requires a <= b
    ensures |a| <= |b|
    ensures |a| == |b| ==> a == b
  {
    if a != {} {
      var x :| x in a;
      SubsetSize(a - {x}, b - {x});
    }
  }

  /** On every run an eviction removes exactly one bucket, and no bucket in the table resets earlier. */
  lemma EvictionTakesTheOldest(c: Config, run: seq<Request>, r: Request)
    requires Run(c, run + [r]) && Named(run) && Evicts(c, After(c, run), r)
    ensures Oldest(After(c, run), r.victim)
    ensures Room(c, After(c, run), r) == After(c, run) - {r.victim}
    ensures |Room(c, After(c, run), r)| == |After(c, run)| - 1
  {
    RunSnoc(c, run, r, "", 0, 0);
    BucketsBounded(c, run);
    EvictionFromFull(c, After(c, run), r);
  }

  /** A table within its limit that must evict has nothing to purge. */
  lemma EvictionFromFull(c: Config, b: Buckets, r: Request)
    requires Legal(c, b, r) && Evicts(c, b, r) && |b| <= Capacity(c) && "" !in b
    ensures Oldest(b, r.victim) && Room(c, b, r) == b - {r.victim} && |b - {r.victim}| == |b| - 1
  {
    var p := Purged(b, r.now);
    SubsetSize(p.Keys, b.Keys);
    assert p == b;
    ScanFindsOldest(b, r.victim);
    assert (b - {r.victim}).Keys == b.Keys - {r.victim};
  }

  // ---------- exactly when the table stays bounded ----------

  ghost predicate Over(run: seq<Request>, keys: set<string>) {
    forall i :: 0 <= i < |run| ==> run[i].key in keys
  }

  ghost predicate BoundedOver(c: Config, keys: set<string>) {
    forall run :: Run(c, run) && Over(run, keys) ==> |After(c, run)| <= Capacity(c)
  }

  /**
   The exact condition: the runs over a set of keys stay within the limit if
   and only if the empty key is not among them, or they all fit anyway. The
   empty key's bucket, once the oldest, makes the scan drop nothing.
   */
  lemma BoundedIff(c: Config, keys: set<string>)
    requires c.window >= 1
    ensures BoundedOver(c, keys) <==> "" !in keys || |keys| <= Capacity(c)
  {
    if "" !in keys || |keys| <= Capacity(c) {
      forall run | Run(c, run) && Over(run, keys)
        ensures |After(c, run)| <= Capacity(c)
      {
        FitsOver(c, run, keys);
      }
    } else {
      var names := Listed(keys - {""});
      Overflows(c, names, Capacity(c));
      OverflowOver(names, Capacity(c), keys);
    }
  }

  lemma FitsOver(c: Config, run: seq<Request>, keys: set<string>)
    requires Run(c, run) && Over(run, keys) && ("" !in keys || |keys| <= Capacity(c))
    ensures |After(c, run)| <= Capacity(c)
  {
    if "" !in keys {
      BucketsBounded(c, run);
    } else {
      KeysWithin(c, run, keys);
      SubsetSize(After(c, run).Keys, keys);
    }
  }

  lemma {:induction false} OverflowOver(names: seq<string>, n: nat, keys: set<string>)
    requires n <= |names| && "" in keys && forall i :: 0 <= i < |names| ==> names[i] in keys
    ensures Over(Overflow(names, n), keys)
  {
    if n > 0 {
      OverflowOver(names, n - 1, keys);
    }
  }

  lemma {:induction false} KeysWithin(c: Config, run: seq<Request>, keys: set<string>)
    requires Over(run, keys)
    ensures After(c, run).Keys <= keys
  {
    if run != [] {
      KeysWithin(c, run[..|run| - 1], keys);
    }
  }

  /** The members of a set, in some order. */
  ghost function Listed(keys: set<string>): (names: seq<string>)
    ensures |names| == |keys| && forall i :: 0 <= i < |names| ==> names[i] in keys
    ensures forall i, j :: 0 <= i < j < |names| ==> names[i] != names[j]
  {
    if keys == {} then [] else var k :| k in keys; Listed(keys - {k}) + [k]
  }

  /** The empty key first, then `n` other keys a nanosecond later; the scan, if any, meets the empty key last. */
  function Overflow(names: seq<string>, n: nat): seq<Request>
    requires n <= |names|
  {
    if n == 0 then [Request("", 0, 0, "")] else Overflow(names, n - 1) + [Request(names[n - 1], 1, 1, "")]
  }

  /** `n` buckets beside the one of the empty key, all of them resetting later. */
  ghost predicate Brimming(c: Config, b: Buckets, names: seq<string>, n: nat) {
    && |b| == n + 1 && "" in b && b[""].resetAt == c.window
    && (forall i :: n <= i < |names| ==> names[i] !in b)
    && (forall k :: k in b && k != "" ==> b[k].resetAt == 1 + c.window)
  }

  lemma {:induction false} Overflows(c: Config, names: seq<string>, n: nat)
    requires c.window >= 1 && n <= |names| && n <= Capacity(c)
    requires forall i :: 0 <= i < |names| ==> names[i] != ""
    requires forall i, j :: 0 <= i < j < |names| ==> names[i] != names[j]
    ensures var run := Overflow(names, n);
            Run(c, run) && |run| > 0 && run[|run| - 1].now <= 1 && Brimming(c, After(c, run), names, n)
  {
    if n == 0 {
      OverflowStart(c, names);
    } else {
      Overflows(c, names, n - 1);
      OverflowStep(c, Overflow(names, n - 1), names, n);
    }
  }

  lemma OverflowStart(c: Config, names: seq<string>)
    requires c.window >= 1 && forall i :: 0 <= i < |names| ==> names[i] != ""
    ensures var run := [Request("", 0, 0, "")]; Run(c, run) && Brimming(c, After(c, run), names, 0)
  {
    var r := Request("", 0, 0, "");
    RunExtends(c, [], r);
    RunSnoc(c, [], r, "", 0, 0);
    assert [] + [r] == [r];
    assert After(c, [r]) == map["" := Entry(1, c.window)];
  }

  lemma OverflowStep(c: Config, run: seq<Request>, names: seq<string>, n: nat)
    requires c.window >= 1 && 1 <= n <= |names| && n <= Capacity(c)
    requires forall i :: 0 <= i < |names| ==> names[i] != ""
    requires forall i, j :: 0 <= i < j < |names| ==> names[i] != names[j]
    requires Run(c, run) && |run| > 0 && run[|run| - 1].now <= 1 && Brimming(c, After(c, run), names, n - 1)
    ensures var run' := run + [Request(names[n - 1], 1, 1, "")];
            Run(c, run') && Brimming(c, After(c, run'), names, n)
  {
    var b, r := After(c, run), Request(names[n - 1], 1, 1, "");
    OverflowNext(c, b, r, names, n);
    RunExtends(c, run, r);
    RunSnoc(c, run, r, "", 0, 0);
  }

  lemma OverflowNext(c: Config, b: Buckets, r: Request, names: seq<string>, n: nat)
    requires c.window >= 1 && 1 <= n <= |names| && n <= Capacity(c) && r == Request(names[n - 1], 1, 1, "")
    requires forall i :: 0 <= i < |names| ==> names[i] != ""
    requires forall i, j :: 0 <= i < j < |names| ==> names[i] != names[j]
    requires Brimming(c, b, names, n - 1)
    ensures Legal(c, b, r) && Brimming(c, Next(c, b, r), names, n)
  {
    assert Purged(b, 1) == b;
    assert forall u :: u in b && u != "" ==> Hidden(b, u);
    assert Room(c, b, r) == b;
    assert Next(c, b, r) == b[r.key := Entry(1, 1 + c.window)];
  }

  // ---------- each key sees only its own counter ----------

  /** The bucket of `k` is its own counter, except that a purged bucket leaves an expired counter behind. */
  ghost predicate Agrees(b: Buckets, k: string, slot: Option<Entry>, clock: int) {
    Slot(b, k) == slot || (k !in b && slot.Some? && slot.value.resetAt < clock)
  }

  /**
   Projection: for every run and key, the bounded table behaves on that key as
   one counter that is never purged and only loses its state to evictions.
   */
  lemma {:induction false} BucketIsItsCounter(c: Config, run: seq<Request>, k: string)
    requires Run(c, run)
    ensures run != [] ==> Agrees(After(c, run), k, SlotAfter(c.window, Project(c, run, k)), run[|run| - 1].now)
    ensures run == [] ==> SlotAfter(c.window, Project(c, run, k)) == None
  {
    if run != [] {
      var init, r := run[..|run| - 1], run[|run| - 1];
      BucketIsItsCounter(c, init, k);
      var before := Project(c, init, k);
      if r.key == k {
        Snoc(c.max, c.window, before, Ask(r.now, true), 0, 0);
      } else if Loses(c, After(c, init), r, k) {
        Snoc(c.max, c.window, before, Drop(r.now), 0, 0);
      } else {
        assert Project(c, run, k) == before;
      }
    }
  }

  /** What a request is told depends only on the projection of the run to its own key. */
  lemma {:induction false} DecisionFromProjection(c: Config, run: seq<Request>, r: Request)
    requires Run(c, run + [r])
    ensures var slot := SlotAfter(c.window, Project(c, run, r.key));
            && Next(c, After(c, run), r)[r.key] == HitSlot(c.window, slot, r.now)
            && Allowed(c, After(c, run), r) == Admits(c.max, c.window, slot, r.now)
  {
    assert (run + [r])[..|run|] == run;
    BucketIsItsCounter(c, run, r.key);
  }

  lemma {:induction false} ProjectionCounts(c: Config, run: seq<Request>, k: string, lo: int, hi: int)
    requires Run(c, run)
    ensures AllowedIn(c, run, k, lo, hi) == AdmittedIn(c.max, c.window, Project(c, run, k), lo, hi)
    ensures EvictionsIn(c, run, k, lo, hi) == DropsIn(Project(c, run, k), lo, hi)
  {
    if run != [] {
      var init, r := run[..|run| - 1], run[|run| - 1];
      ProjectionCounts(c, init, k, lo, hi);
      var before := Project(c, init, k);
      if r.key == k {
        BucketIsItsCounter(c, init, k);
        NoSelfEviction(c, After(c, init), r);
        Snoc(c.max, c.window, before, Ask(r.now, true), lo, hi);
        assert Project(c, run, k) == before + [Ask(r.now, true)];
      } else if Loses(c, After(c, init), r, k) {
        Snoc(c.max, c.window, before, Drop(r.now), lo, hi);
        assert Project(c, run, k) == before + [Drop(r.now)];
      } else {
        assert Project(c, run, k) == before;
      }
    }
  }

  lemma NoSelfEviction(c: Config, b: Buckets, r: Request)
    requires Legal(c, b, r)
    ensures !Loses(c, b, r, r.key)
  {
  }

  lemma {:induction false} ProjectionMonotone(c: Config, run: seq<Request>, k: string)
    requires Run(c, run)
    ensures Monotone(Project(c, run, k))
    ensures forall i :: 0 <= i < |Project(c, run, k)| ==> run != [] && Project(c, run, k)[i].at <= run[|run| - 1].now
  {
    if run != [] {
      ProjectionMonotone(c, run[..|run| - 1], k);
    }
  }

  /** How many of the requests are for `k`. */
  function Hits(run: seq<Request>, k: string): nat {
    if run == [] then 0 else Hits(run[..|run| - 1], k) + if run[|run| - 1].key == k then 1 else 0
  }

  function AsksOf(run: seq<Request>, k: string): (asks: seq<Obs>)
    ensures |asks| == Hits(run, k)
  {
    if run == [] then [] else AsksOf(run[..|run| - 1], k) + AskOf(run[|run| - 1], k)
  }

  function AskOf(r: Request, k: string): seq<Obs> {
    if r.key == k then [Ask(r.now, true)] else []
  }

  lemma {:induction false} AsksAreBefore(run: seq<Request>, k: string, reset: int)
    requires forall i :: 0 <= i < |run| && run[i].key == k ==> run[i].now < reset
    ensures AsksBefore(AsksOf(run, k), reset)
  {
    if run != [] {
      AsksAreBefore(run[..|run| - 1], k, reset);
    }
  }

  /** A key that is not evicted sees its own requests of `mid`, one by one. */
  lemma {:induction false} ProjectAfter(c: Config, pre: seq<Request>, mid: seq<Request>, all: seq<Request>, k: string)
    requires all == pre + mid && KeptAfter(c, pre, mid, k)
    ensures Project(c, all, k) == Project(c, pre, k) + AsksOf(mid, k)
    decreases |mid|
  {
    if mid == [] {
      assert all == pre;
    } else {
      var init, r := mid[..|mid| - 1], mid[|mid| - 1];
      var before := pre + init;
      ProjectAfter(c, pre, init, before, k);
      ProjectKept(c, before, all, r, k);
      Regroup(Project(c, pre, k), AsksOf(init, k), AskOf(r, k));
    }
  }

  lemma ProjectKept(c: Config, run: seq<Request>, all: seq<Request>, r: Request, k: string)
    requires all == run + [r] && !Loses(c, After(c, run), r, k)
    ensures Project(c, all, k) == Project(c, run, k) + AskOf(r, k)
  {
    RunSnoc(c, run, r, k, 0, 0);
  }

  lemma Regroup(a: seq<Obs>, b: seq<Obs>, d: seq<Obs>)
    ensures a + b + d == a + (b + d)
  {
  }

  /**
   The exact decision of the limiter, on every run: from a request that opens
   a window for its key until the window is over, a request for the key is
   allowed if and only if at most `max` requests for it, itself included, came
   since the opening; the first one after the window is over is allowed if and
   only if there is a budget at all. The bucket must not be evicted meanwhile.
   */
  lemma {:induction false} AllowedInWindowIff(
    c: Config, pre: seq<Request>, open: Request, mid: seq<Request>, all: seq<Request>, r: Request)
    requires all == pre + [open] + mid && Run(c, all + [r])
    requires open.key == r.key && Closed(Slot(After(c, pre), open.key), open.now)
    requires KeptAfter(c, pre + [open], mid, r.key)
    requires forall i :: 0 <= i < |mid| && mid[i].key == r.key ==> mid[i].now < open.now + c.window
    ensures Allowed(c, After(c, all), r) <==>
            if r.now < open.now + c.window then 2 + Hits(mid, r.key) <= c.max else 1 <= c.max
  {
    RunPrefix(c, all, [r], all + [r]);
    OpenedProjection(c, pre, open, mid, all, r.key);
    OpenWindowCounts(c.window, Project(c, all, r.key), Project(c, pre, r.key), Ask(open.now, true), AsksOf(mid, r.key));
    DecisionFromProjection(c, all, r);
  }

  /** The counter of `k` sees a window that `open` opens and that holds the requests of `mid`. */
  lemma {:induction false} OpenedProjection(
    c: Config, pre: seq<Request>, open: Request, mid: seq<Request>, all: seq<Request>, k: string)
    requires all == pre + [open] + mid && Run(c, all) && open.key == k && Closed(Slot(After(c, pre), k), open.now)
    requires KeptAfter(c, pre + [open], mid, k)
    requires forall i :: 0 <= i < |mid| && mid[i].key == k ==> mid[i].now < open.now + c.window
    ensures OpenedBy(c.window, Project(c, all, k), Project(c, pre, k), Ask(open.now, true), AsksOf(mid, k))
  {
    RunPrefix(c, pre + [open], mid, all);
    ClosedProjection(c, pre, open);
    ProjectAfter(c, pre + [open], mid, all, k);
    RunSnoc(c, pre, open, k, 0, 0);
    AsksAreBefore(mid, k, open.now + c.window);
  }

  lemma ClosedProjection(c: Config, pre: seq<Request>, open: Request)
    requires Run(c, pre + [open]) && Closed(Slot(After(c, pre), open.key), open.now)
    ensures Closed(SlotAfter(c.window, Project(c, pre, open.key)), open.now)
  {
    assert (pre + [open])[..|pre|] == pre;
    BucketIsItsCounter(c, pre, open.key);
  }

  lemma {:induction false} RunPrefix(c: Config, pre: seq<Request>, mid: seq<Request>, all: seq<Request>)
    requires all == pre + mid && Run(c, all)
    ensures Run(c, pre)
    decreases |mid|
  {
    if mid == [] {
      assert all == pre;
    } else {
      assert all[..|all| - 1] == pre + mid[..|mid| - 1];
      RunPrefix(c, pre, mid[..|mid| - 1], all[..|all| - 1]);
    }
  }

  /** An interval no longer than the window allows fewer than (2 + evictions of the key in it) * max requests for it. */
  lemma {:induction false} SlidingLimit(c: Config, run: seq<Request>, k: string, lo: int, hi: int)
    requires Run(c, run) && hi - lo <= c.window
    ensures c.max >= 1 ==> AllowedIn(c, run, k, lo, hi) < (2 + EvictionsIn(c, run, k, lo, hi)) * c.max
    ensures c.max == 0 ==> AllowedIn(c, run, k, lo, hi) == 0
  {
    ProjectionCounts(c, run, k, lo, hi);
    ProjectionMonotone(c, run, k);
    SlidingBound(c.max, c.window, Project(c, run, k), lo, hi);
  }

  // ---------- refinement of the limiter that never forgets ----------

  /** The plain fixed-window limiter: one counter per key, never deleted. */
  function UnboundedNext(c: Config, u: Buckets, r: Request): Buckets {
    u[r.key := HitSlot(c.window, Slot(u, r.key), r.now)]
  }

  function UnboundedAfter(c: Config, run: seq<Request>): Buckets {
    if run == [] then map[] else UnboundedNext(c, UnboundedAfter(c, run[..|run| - 1]), run[|run| - 1])
  }

  function Decisions(c: Config, run: seq<Request>): seq<bool> {
    if run == [] then []
    else var init, r := run[..|run| - 1], run[|run| - 1];
      Decisions(c, init) + [Allowed(c, After(c, init), r)]
  }

  function UnboundedDecisions(c: Config, run: seq<Request>): seq<bool> {
    if run == [] then []
    else var init, r := run[..|run| - 1], run[|run| - 1];
      UnboundedDecisions(c, init) + [UnboundedNext(c, UnboundedAfter(c, init), r)[r.key].count <= c.max]
  }

  predicate EvictionFree(c: Config, run: seq<Request>) {
    run == [] ||
    (EvictionFree(c, run[..|run| - 1]) && !Evicts(c, After(c, run[..|run| - 1]), run[|run| - 1]))
  }

  /** Without evictions the bounded table is the unbounded one minus some expired counters. */
  lemma {:induction false} BoundedIsUnbounded(c: Config, run: seq<Request>)
    requires Run(c, run) && EvictionFree(c, run)
    ensures forall k :: k in After(c, run) ==>
              k in UnboundedAfter(c, run) && UnboundedAfter(c, run)[k] == After(c, run)[k]
    ensures run != [] ==>
              forall k :: k in UnboundedAfter(c, run) ==>
                Agrees(After(c, run), k, Some(UnboundedAfter(c, run)[k]), run[|run| - 1].now)
    ensures Decisions(c, run) == UnboundedDecisions(c, run)
  {
    if run != [] {
      var init, r := run[..|run| - 1], run[|run| - 1];
      BoundedIsUnbounded(c, init);
      var b, u := After(c, init), UnboundedAfter(c, init);
      assert Next(c, b, r)[r.key] == UnboundedNext(c, u, r)[r.key];
    }
  }

  /** The keys whose window is still open for the plain limiter. */
  function LiveKeys(u: Buckets, now: int): set<string> {
    set k | k in u && now <= u[k].resetAt
  }

  /** At every request fewer than `maxBuckets` other keys have an open window. */
  ghost predicate FewLiveKeys(c: Config, run: seq<Request>) {
    forall i :: 0 <= i < |run| ==> |LiveKeys(UnboundedAfter(c, run[..i]), run[i].now) - {run[i].key}| < c.maxBuckets
  }

  /** Refinement: while the open windows fit the table, purging is unobservable and eviction never fires. */
  lemma {:induction false} RefinesUnbounded(c: Config, run: seq<Request>)
    requires Run(c, run) && FewLiveKeys(c, run)
    ensures EvictionFree(c, run)
    ensures Decisions(c, run) == UnboundedDecisions(c, run)
  {
    if run != [] {
      var n := |run| - 1;
      var init, r := run[..n], run[n];
      assert FewLiveKeys(c, init) by {
        forall i | 0 <= i < n
          ensures |LiveKeys(UnboundedAfter(c, init[..i]), init[i].now) - {init[i].key}| < c.maxBuckets
        {
          assert init[..i] == run[..i];
        }
      }
      RefinesUnbounded(c, init);
      BoundedIsUnbounded(c, init);
      assert init != [] ==> init[|init| - 1].now <= r.now;
      NoNeedToEvict(c, After(c, init), UnboundedAfter(c, init), r);
      BoundedIsUnbounded(c, run);
    }
  }

  /** A table inside the plain one never has to evict while few windows are open. */
  lemma NoNeedToEvict(c: Config, b: Buckets, u: Buckets, r: Request)
    requires forall k :: k in b ==> k in u && u[k] == b[k]
    requires |LiveKeys(u, r.now) - {r.key}| < c.maxBuckets
    ensures !Evicts(c, b, r)
  {
    if r.key !in b {
      SubsetSize(Purged(b, r.now).Keys, LiveKeys(u, r.now) - {r.key});
    }
  }

  function KeysOf(run: seq<Request>): set<string> {
    set i | 0 <= i < |run| :: run[i].key
  }

  /** In particular a run over at most `maxBuckets` keys is decided as if nothing were ever deleted. */
  lemma FewKeysRefine(c: Config, run: seq<Request>)
    requires Run(c, run) && |KeysOf(run)| <= c.maxBuckets
    ensures EvictionFree(c, run)
    ensures Decisions(c, run) == UnboundedDecisions(c, run)
  {
    forall i | 0 <= i < |run|
      ensures |LiveKeys(UnboundedAfter(c, run[..i]), run[i].now) - {run[i].key}| < c.maxBuckets
    {
      UnboundedKeys(c, run[..i]);
      var live := LiveKeys(UnboundedAfter(c, run[..i]), run[i].now) - {run[i].key};
      assert run[i].key in KeysOf(run);
      assert KeysOf(run[..i]) <= KeysOf(run);
      SubsetSize(live, KeysOf(run) - {run[i].key});
    }
    RefinesUnbounded(c, run);
  }

  lemma {:induction false} UnboundedKeys(c: Config, run: seq<Request>)
    ensures UnboundedAfter(c, run).Keys == KeysOf(run)
  {
    if run != [] {
      var init, r := run[..|run| - 1], run[|run| - 1];
      UnboundedKeys(c, init);
      assert KeysOf(run) == KeysOf(init) + {r.key};
    }
  }
}
