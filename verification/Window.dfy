/**
 One fixed-window counter, seen alone. Both backends of the rate limiter are
 made of such counters: a bucket of the in-memory limiter and an `rl:` key in
 Redis. Times are integers in nanoseconds.
 */
module Window {
  import opened Wrappers

  const SECOND: int := 1_000_000_000

  datatype Entry = Entry(count: nat, resetAt: int)

  /** A request reaches the counter: restart an expired window, then count. */
  function Hit(window: int, e: Entry, now: int): Entry {
    var e := if now >= e.resetAt then Entry(0, now + window) else e;
    e.(count := e.count + 1)
  }

  /** A request reaches a counter that may not exist yet. */
  function HitSlot(window: int, slot: Option<Entry>, now: int): Entry {
    Hit(window, if slot.Some? then slot.value else Entry(0, now + window), now)
  }

  /**
   What can happen to one counter: a request asks it (`credited` says whether
   the answer reaches the client), or the counter is dropped before its time.
   */
  datatype Obs = Ask(at: int, credited: bool) | Drop(at: int)

  ghost predicate Monotone(trace: seq<Obs>) {
    forall i, j :: 0 <= i < j < |trace| ==> trace[i].at <= trace[j].at
  }

  function StepSlot(window: int, slot: Option<Entry>, o: Obs): Option<Entry> {
    match o
    case Ask(at, _) => Some(HitSlot(window, slot, at))
    case Drop(_) => None
  }

  function SlotAfter(window: int, trace: seq<Obs>): Option<Entry> {
    if trace == [] then None
    else StepSlot(window, SlotAfter(window, trace[..|trace| - 1]), trace[|trace| - 1])
  }

  predicate Admits(max: nat, window: int, slot: Option<Entry>, now: int) {
    HitSlot(window, slot, now).count <= max
  }

  predicate Within(t: int, lo: int, hi: int) {
    lo <= t < hi
  }

  /** A request in [lo, hi) whose answer reaches the client. */
  predicate Credits(o: Obs, lo: int, hi: int) {
    o.Ask? && o.credited && Within(o.at, lo, hi)
  }

  /** How many credited requests were admitted at a time in [lo, hi). */
  function AdmittedIn(max: nat, window: int, trace: seq<Obs>, lo: int, hi: int): nat {
    if trace == [] then 0
    else
      var init, o := trace[..|trace| - 1], trace[|trace| - 1];
      AdmittedIn(max, window, init, lo, hi)
      + if Credits(o, lo, hi) && Admits(max, window, SlotAfter(window, init), o.at) then 1 else 0
  }

  /** How often the counter was dropped at a time in [lo, hi). */
  function DropsIn(trace: seq<Obs>, lo: int, hi: int): nat {
    if trace == [] then 0
    else
      var o := trace[|trace| - 1];
      DropsIn(trace[..|trace| - 1], lo, hi) + if o.Drop? && Within(o.at, lo, hi) then 1 else 0
  }

  /** Unfolds the three measures of a trace at its last observation. */
  lemma Snoc(max: nat, window: int, trace: seq<Obs>, o: Obs, lo: int, hi: int)
    ensures SlotAfter(window, trace + [o]) == StepSlot(window, SlotAfter(window, trace), o)
    ensures AdmittedIn(max, window, trace + [o], lo, hi) ==
            AdmittedIn(max, window, trace, lo, hi)
            + if Credits(o, lo, hi) && Admits(max, window, SlotAfter(window, trace), o.at) then 1 else 0
    ensures DropsIn(trace + [o], lo, hi) == DropsIn(trace, lo, hi) + if o.Drop? && Within(o.at, lo, hi) then 1 else 0
  {
    assert (trace + [o])[..|trace|] == trace;
  }

  // ---------- what the counter counts ----------

  /** No window is open at `now`, so the next request opens one. */
  predicate Closed(slot: Option<Entry>, now: int) {
    slot.None? || slot.value.resetAt <= now
  }

  /** Requests that all come before `reset`. */
  ghost predicate AsksBefore(trace: seq<Obs>, reset: int) {
    forall i :: 0 <= i < |trace| ==> trace[i].Ask? && trace[i].at < reset
  }

  /** `open` opens a window after `pre`, and everything in `mid` falls into it. */
  ghost predicate OpenedBy(window: int, trace: seq<Obs>, pre: seq<Obs>, open: Obs, mid: seq<Obs>) {
    && trace == pre + [open] + mid && open.Ask?
    && Closed(SlotAfter(window, pre), open.at) && AsksBefore(mid, open.at + window)
  }

  /** An open window counts every request before its reset, which stays where it is. */
  lemma {:induction false} StaysOpen(window: int, trace: seq<Obs>, mid: seq<Obs>, all: seq<Obs>)
    requires all == trace + mid && SlotAfter(window, trace).Some?
    requires AsksBefore(mid, SlotAfter(window, trace).value.resetAt)
    ensures var e := SlotAfter(window, trace).value;
            SlotAfter(window, all) == Some(Entry(e.count + |mid|, e.resetAt))
    decreases |mid|
  {
    if mid == [] {
      assert all == trace;
    } else {
      assert all[..|all| - 1] == trace + mid[..|mid| - 1];
      StaysOpen(window, trace, mid[..|mid| - 1], all[..|all| - 1]);
    }
  }

  /** A window counts every request from the one that opens it, for exactly its own length. */
  lemma {:induction false} OpenWindowCounts(window: int, trace: seq<Obs>, pre: seq<Obs>, open: Obs, mid: seq<Obs>)
    requires OpenedBy(window, trace, pre, open, mid)
    ensures SlotAfter(window, trace) == Some(Entry(1 + |mid|, open.at + window))
  {
    assert (pre + [open])[..|pre|] == pre;
    StaysOpen(window, pre + [open], mid, trace);
  }

  /** Every counter that exists is in the window of its last opening. */
  lemma {:induction false} LastOpening(window: int, trace: seq<Obs>) returns (pre: seq<Obs>, open: Obs, mid: seq<Obs>)
    requires SlotAfter(window, trace).Some?
    ensures OpenedBy(window, trace, pre, open, mid)
  {
    var init, o := trace[..|trace| - 1], trace[|trace| - 1];
    if Closed(SlotAfter(window, init), o.at) {
      pre, open, mid := init, o, [];
    } else {
      pre, open, mid := LastOpening(window, init);
      OpenWindowCounts(window, init, pre, open, mid);
      mid := mid + [o];
    }
  }

  /**
   The exact decision: a request is admitted if and only if it opens a window
   or is among the first `max` requests since the last opening.
   */
  lemma {:induction false} AdmittedIff(max: nat, window: int, trace: seq<Obs>, t: int)
    returns (pre: seq<Obs>, open: Obs, mid: seq<Obs>)
    ensures (SlotAfter(window, trace).None? <==> trace == [] || trace[|trace| - 1].Drop?)
    ensures SlotAfter(window, trace).None? ==> (Admits(max, window, SlotAfter(window, trace), t) <==> 1 <= max)
    ensures SlotAfter(window, trace).Some? ==>
              && OpenedBy(window, trace, pre, open, mid)
              && (Admits(max, window, SlotAfter(window, trace), t) <==>
                  if t < open.at + window then 2 + |mid| <= max else 1 <= max)
  {
    if SlotAfter(window, trace).Some? {
      pre, open, mid := LastOpening(window, trace);
      OpenWindowCounts(window, trace, pre, open, mid);
    } else {
      pre, open, mid := [], Drop(0), [];
    }
  }

  // ---------- the sliding bound ----------

  function Min(a: int, b: int): int {
    if a <= b then a else b
  }

  /**
   The potential that carries the sliding bound: what has been admitted in
   [lo, hi) is paid for by one window that began before `lo` (whose opening
   request is therefore not in the interval), one full window per drop, and
   the count of a window that cannot end before `hi`.
   */
  ghost predicate Paid(max: nat, slot: Option<Entry>, admitted: nat, drops: nat, hi: int) {
    match slot
    case None => admitted <= max - 1 + drops * max
    case Some(e) =>
      if e.resetAt >= hi then admitted <= max - 1 + drops * max + Min(e.count, max)
      else admitted <= Min(e.count, max) - 1
  }

  ghost predicate SlidingInvariant(max: nat, window: int, trace: seq<Obs>, lo: int, hi: int) {
    var admitted, drops := AdmittedIn(max, window, trace, lo, hi), DropsIn(trace, lo, hi);
    && admitted <= 2 * max - 1 + drops * max
    && (trace == [] || trace[|trace| - 1].at < lo ==> admitted == 0)
    && (trace == [] || trace[|trace| - 1].at < hi ==> Paid(max, SlotAfter(window, trace), admitted, drops, hi))
  }

  lemma {:induction false} SlidingInvariantHolds(max: nat, window: int, trace: seq<Obs>, lo: int, hi: int)
    requires max >= 1 && Monotone(trace) && hi - lo <= window
    ensures SlidingInvariant(max, window, trace, lo, hi)
  {
    if trace != [] {
      var init, o := trace[..|trace| - 1], trace[|trace| - 1];
      SlidingInvariantHolds(max, window, init, lo, hi);
      assert init != [] ==> init[|init| - 1].at <= o.at;
      var drops := DropsIn(init, lo, hi);
      assert (drops + 1) * max == drops * max + max;
    }
  }

  /**
   The sliding bound: however the requests fall, an interval no longer than
   one window admits less than 2 + (drops in it) full budgets.
   */
  lemma SlidingBound(max: nat, window: int, trace: seq<Obs>, lo: int, hi: int)
    requires Monotone(trace) && hi - lo <= window
    ensures max >= 1 ==> AdmittedIn(max, window, trace, lo, hi) < (2 + DropsIn(trace, lo, hi)) * max
    ensures max == 0 ==> AdmittedIn(max, window, trace, lo, hi) == 0
  {
    if max >= 1 {
      SlidingInvariantHolds(max, window, trace, lo, hi);
      var drops := DropsIn(trace, lo, hi);
      assert (2 + drops) * max == 2 * max + drops * max;
    } else {
      NothingWithoutBudget(window, trace, lo, hi);
    }
  }

  lemma {:induction false} NothingWithoutBudget(window: int, trace: seq<Obs>, lo: int, hi: int)
    ensures AdmittedIn(0, window, trace, lo, hi) == 0
  {
    if trace != [] {
      NothingWithoutBudget(window, trace[..|trace| - 1], lo, hi);
    }
  }

  // ---------- the bound is attained ----------

  function Burst(n: nat, at: int): (b: seq<Obs>)
    ensures |b| == n && forall i :: 0 <= i < n ==> b[i] == Ask(at, true)
  {
    if n == 0 then [] else Burst(n - 1, at) + [Ask(at, true)]
  }

  /** One request opens a window, the rest of its budget is spent in the last nanosecond, the next window at once. */
  function Opening(max: nat, window: int): seq<Obs>
    requires max >= 1
  {
    [Ask(0, true)] + Burst(max - 1, window - 1) + Burst(max, window)
  }

  /** After the opening, each of the `drops` lets a whole budget be spent again. */
  function WorstCase(max: nat, window: int, drops: nat): seq<Obs>
    requires max >= 1
  {
    if drops == 0 then Opening(max, window)
    else WorstCase(max, window, drops - 1) + [Drop(window)] + Burst(max, window)
  }

  /** No smaller sliding bound holds: some run meets `SlidingBound` exactly, for every budget and drop count. */
  lemma SlidingBoundIsTight(max: nat, window: int, drops: nat)
    requires max >= 1 && window >= 2
    ensures var trace, lo, hi := WorstCase(max, window, drops), window - 1, 2 * window - 1;
            && Monotone(trace) && hi - lo == window && DropsIn(trace, lo, hi) == drops
            && AdmittedIn(max, window, trace, lo, hi) == (2 + drops) * max - 1
  {
    WorstCaseMonotone(max, window, drops);
    WorstCaseCounts(max, window, drops);
    BudgetsProduct(max, drops);
  }

  /** 2 + drops budgets, added up one by one. */
  function Budgets(max: nat, drops: nat): nat {
    if drops == 0 then 2 * max else Budgets(max, drops - 1) + max
  }

  lemma {:induction false} BudgetsProduct(max: nat, drops: nat)
    ensures Budgets(max, drops) == (2 + drops) * max
  {
    if drops > 0 {
      BudgetsProduct(max, drops - 1);
    }
  }

  lemma {:induction false} WorstCaseCounts(max: nat, window: int, drops: nat)
    requires max >= 1 && window >= 2
    ensures var trace, lo, hi := WorstCase(max, window, drops), window - 1, 2 * window - 1;
            DropsIn(trace, lo, hi) == drops && AdmittedIn(max, window, trace, lo, hi) == Budgets(max, drops) - 1
    decreases drops
  {
    if drops == 0 {
      WorstStart(max, window, WorstCase(max, window, 0));
    } else {
      WorstCaseCounts(max, window, drops - 1);
      WorstDrop(max, window, WorstCase(max, window, drops - 1), WorstCase(max, window, drops));
    }
  }

  lemma WorstStart(max: nat, window: int, trace: seq<Obs>)
    requires max >= 1 && window >= 2
    requires trace == Opening(max, window)
    ensures DropsIn(trace, window - 1, 2 * window - 1) == 0
    ensures AdmittedIn(max, window, trace, window - 1, 2 * window - 1) == 2 * max - 1
  {
    var lo, hi := window - 1, 2 * window - 1;
    var start := [Ask(0, true)];
    assert start[..0] == [];
    var first := start + Burst(max - 1, window - 1);
    BurstSpends(max, window, start, first, max - 1, window - 1, lo, hi);
    BurstSpends(max, window, first, trace, max, window, lo, hi);
  }

  /** After a drop a whole budget is spent again. */
  lemma WorstDrop(max: nat, window: int, before: seq<Obs>, trace: seq<Obs>)
    requires max >= 1 && window >= 2 && trace == before + [Drop(window)] + Burst(max, window)
    ensures DropsIn(trace, window - 1, 2 * window - 1) == DropsIn(before, window - 1, 2 * window - 1) + 1
    ensures AdmittedIn(max, window, trace, window - 1, 2 * window - 1) ==
            AdmittedIn(max, window, before, window - 1, 2 * window - 1) + max
  {
    var lo, hi := window - 1, 2 * window - 1;
    var dropped := before + [Drop(window)];
    assert dropped[..|dropped| - 1] == before;
    BurstSpends(max, window, dropped, trace, max, window, lo, hi);
  }

  lemma {:induction false} WorstCaseMonotone(max: nat, window: int, drops: nat)
    requires max >= 1 && window >= 2
    ensures Monotone(WorstCase(max, window, drops)) && Until(WorstCase(max, window, drops), window)
  {
    if drops == 0 {
      Appended([Ask(0, true)], Burst(max - 1, window - 1), 0, window - 1);
      Appended([Ask(0, true)] + Burst(max - 1, window - 1), Burst(max, window), window - 1, window);
    } else {
      WorstCaseMonotone(max, window, drops - 1);
      var before := WorstCase(max, window, drops - 1);
      Appended(before, [Drop(window)], window, window);
      Appended(before + [Drop(window)], Burst(max, window), window, window);
    }
  }

  ghost predicate Until(trace: seq<Obs>, t: int) {
    forall i :: 0 <= i < |trace| ==> trace[i].at <= t
  }

  lemma Appended(trace: seq<Obs>, more: seq<Obs>, t: int, at: int)
    requires Monotone(trace) && Until(trace, t) && t <= at
    requires forall i :: 0 <= i < |more| ==> more[i].at == at
    ensures Monotone(trace + more) && Until(trace + more, at)
  {
  }

  /** The counter after `n` requests at `at`. */
  function Spent(window: int, slot: Option<Entry>, n: nat, at: int): Option<Entry> {
    if n == 0 then slot
    else if slot.Some? && at < slot.value.resetAt then Some(slot.value.(count := slot.value.count + n))
    else Some(Entry(n, at + window))
  }

  /** A burst that fits the remaining budget, or opens a new window, is admitted whole. */
  lemma {:induction false} BurstSpends(
    max: nat, window: int, trace: seq<Obs>, whole: seq<Obs>, n: nat, at: int, lo: int, hi: int)
    requires window > 0 && Within(at, lo, hi) && n <= max && whole == trace + Burst(n, at)
    requires var slot := SlotAfter(window, trace);
             slot.Some? && at < slot.value.resetAt ==> slot.value.count + n <= max
    ensures AdmittedIn(max, window, whole, lo, hi) == AdmittedIn(max, window, trace, lo, hi) + n
    ensures DropsIn(whole, lo, hi) == DropsIn(trace, lo, hi)
    ensures SlotAfter(window, whole) == Spent(window, SlotAfter(window, trace), n, at)
    decreases n
  {
    if n == 0 {
      assert whole == trace;
    } else {
      var init := whole[..|whole| - 1];
      assert init == trace + Burst(n - 1, at);
      BurstSpends(max, window, trace, init, n - 1, at, lo, hi);
      SpendOne(max, window, SlotAfter(window, trace), n, at);
      assert whole[|whole| - 1] == Ask(at, true);
    }
  }

  lemma SpendOne(max: nat, window: int, slot: Option<Entry>, n: nat, at: int)
    requires window > 0 && 0 < n <= max
    requires slot.Some? && at < slot.value.resetAt ==> slot.value.count + n <= max
    ensures Admits(max, window, Spent(window, slot, n - 1, at), at)
    ensures StepSlot(window, Spent(window, slot, n - 1, at), Ask(at, true)) == Spent(window, slot, n, at)
  {
  }
}
