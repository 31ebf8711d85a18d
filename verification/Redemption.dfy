/**
 The redemption pipeline: validation, coalescing of identical requests into one
 upstream call (internal/service/coalesced_tw.go), and recording of the outcome
 (internal/service/tw_service.go).
 */
module Redemption {
  import opened Wrappers
  import opened Sums
  import Decimal
  import Money
  import opened Stats

  datatype Request = Request(phone: string, gift: string)

  /** What the upstream answers: an error, or a voucher with its amount string and id. */
  datatype Upstream = Failure | Voucher(amount: string, ref: string)

  /** ^0[0-9]{9}$ */
  predicate ValidPhone(phone: string) {
    |phone| == 10 && phone[0] == '0' && Decimal.AllDigits(phone)
  }

  /** A phone is valid exactly if it is a zero followed by nine digits. */
  lemma ValidPhoneIff(phone: string)
    ensures ValidPhone(phone) <==>
            |phone| == 10 && phone[..1] == "0" && forall i :: 1 <= i < 10 ==> '0' <= phone[i] <= '9'
  {
    if |phone| == 10 {
      assert phone[..1] == [phone[0]];
    }
  }

  // ---------- one request ----------

  /** What an amount is worth: its exact cents if it is a decimal amount that fits int64, otherwise nothing. */
  ghost function Worth(amount: string): int {
    if Money.MatchesAmount(amount) && Money.ExactCents(amount) <= 0x7fff_ffff_ffff_ffff then Money.ExactCents(amount)
    else 0
  }

  /** An amount that is missing or cannot be parsed counts as zero. */
  function CentsOf(amount: string): (cents: int)
    ensures cents == Worth(amount)
  {
    Money.ParseCentsExact(amount);
    if amount == "" then 0
    else
      match Money.ParseCents(amount)
      case Ok(cents) => cents as int
      case Err(_) => 0
  }

  /** The call on the statistics store that an outcome leads to. */
  function OpOf(outcome: Upstream): Op {
    match outcome
    case Failure => RecordTwError
    case Voucher(amount, ref) => RecordTw(CentsOf(amount), ref)
  }

  datatype RedeemError = InvalidRequest | UpstreamError

  class TwService {
    const stats: StatsStore?

    constructor (stats: StatsStore?)
      ensures this.stats == stats
    {
      this.stats := stats;
    }

    /** `giftOk` is the verdict on the gift code or link, `upstream` what the provider answers if it is asked. */
    method Redeem(req: Request, giftOk: bool, upstream: Upstream) returns (r: Result<Upstream, RedeemError>)
      requires stats != null ==> stats.Valid()
      modifies stats
      ensures stats != null ==>
                && stats.Valid()
                && stats.Contents() ==
                   Apply(old(stats.Contents()), OpOf(if ValidPhone(req.phone) && giftOk then upstream else Failure))
      ensures r == if !(ValidPhone(req.phone) && giftOk) then Err(InvalidRequest)
                   else if upstream.Failure? then Err(UpstreamError)
                   else Ok(upstream)
    {
      if !(ValidPhone(req.phone) && giftOk) {
        RecordError();
        return Err(InvalidRequest);
      }
      if upstream.Failure? {
        RecordError();
        return Err(UpstreamError);
      }
      RecordVoucher(upstream.amount, upstream.ref);
      return Ok(upstream);
    }

    method RecordError()
      requires stats != null ==> stats.Valid()
      modifies stats
      ensures stats != null ==> stats.Valid() && stats.Contents() == Apply(old(stats.Contents()), RecordTwError)
    {
      if stats != null {
        stats.RecordTwError();
      }
    }

    method RecordVoucher(amount: string, ref: string)
      requires stats != null ==> stats.Valid()
      modifies stats
      ensures stats != null ==>
                stats.Valid() && stats.Contents() == Apply(old(stats.Contents()), RecordTw(Worth(amount), ref))
    {
      if stats == null {
        return;
      }
      var cents := 0;
      Money.ParseCentsExact(amount);
      if amount != "" {
        match Money.ParseCents(amount)
        case Err(_) =>
        case Ok(parsed) => cents := parsed as int;
      }
      stats.RecordTw(cents, ref);
    }
  }

  // ---------- coalescing keys ----------

  function Preimage(r: Request): string {
    "tw|" + r.phone + "|" + r.gift
  }

  /** On validated phones the preimage determines the request, even if the gift holds a separator. */
  lemma PreimageInjective(a: Request, b: Request)
    requires ValidPhone(a.phone) && ValidPhone(b.phone)
    ensures Preimage(a) == Preimage(b) <==> a == b
  {
    if Preimage(a) == Preimage(b) {
      assert a.phone == Preimage(a)[3..13] && b.phone == Preimage(b)[3..13];
      assert a.gift == Preimage(a)[14..] && b.gift == Preimage(b)[14..];
    }
  }

  /** The part of a phone behind a separator is read as the beginning of the gift. */
  ghost predicate Shifted(a: Request, b: Request, x: string) {
    a.phone == b.phone + "|" + x && b.gift == x + "|" + a.gift
  }

  /** On all requests: two preimages collide exactly if a separator can move between phone and gift. */
  lemma PreimageCollision(a: Request, b: Request)
    ensures Preimage(a) == Preimage(b) <==>
            a == b || (exists x :: Shifted(a, b, x)) || (exists x :: Shifted(b, a, x))
  {
    if Preimage(a) == Preimage(b) {
      assert Preimage(a)[3..] == a.phone + "|" + a.gift;
      assert Preimage(b)[3..] == b.phone + "|" + b.gift;
      Separated(a, b);
    } else {
      forall x | Shifted(a, b, x) ensures false { MovedSeparator(a, b, x); }
      forall x | Shifted(b, a, x) ensures false { MovedSeparator(b, a, x); }
    }
  }

  lemma MovedSeparator(a: Request, b: Request, x: string)
    requires Shifted(a, b, x)
    ensures Preimage(a) == Preimage(b)
  {
    assert Preimage(a) == "tw|" + b.phone + "|" + x + "|" + a.gift;
    assert Preimage(b) == "tw|" + b.phone + "|" + x + "|" + a.gift;
  }

  lemma Separated(a: Request, b: Request)
    requires a.phone + "|" + a.gift == b.phone + "|" + b.gift
    ensures a == b || (exists x :: Shifted(a, b, x)) || (exists x :: Shifted(b, a, x))
  {
    if |a.phone| == |b.phone| {
      assert a.phone == (a.phone + "|" + a.gift)[..|a.phone|] == b.phone;
      assert a.gift == (a.phone + "|" + a.gift)[|a.phone| + 1..] == b.gift;
    } else if |a.phone| > |b.phone| {
      ShiftOf(a, b);
    } else {
      ShiftOf(b, a);
    }
  }

  lemma ShiftOf(a: Request, b: Request)
    requires a.phone + "|" + a.gift == b.phone + "|" + b.gift && |a.phone| > |b.phone|
    ensures Shifted(a, b, a.phone[|b.phone| + 1..])
  {
    var whole, m, n := a.phone + "|" + a.gift, |b.phone|, |a.phone|;
    var x := a.phone[m + 1..];
    assert whole[..n] == a.phone && whole[..m] == b.phone && whole[m] == '|' && whole[n] == '|';
    assert a.phone == whole[..m] + [whole[m]] + x;
    assert b.gift == whole[m + 1..] && a.gift == whole[n + 1..];
    assert whole[m + 1..] == x + [whole[n]] + whole[n + 1..];
  }

  // ---------- any number of requests at once ----------

  /** The requests of a run, the verdict on gifts, and the hash of coalescing keys. */
  datatype World = World(reqs: seq<Request>, giftOk: string -> bool, hash: string -> string)

  ghost predicate Injective(h: string -> string) {
    forall a, b :: h(a) == h(b) ==> a == b
  }

  predicate Valid(w: World, c: nat)
    requires c < |w.reqs|
  {
    ValidPhone(w.reqs[c].phone) && w.giftOk(w.reqs[c].gift)
  }

  function KeyOf(w: World, c: nat): string
    requires c < |w.reqs|
  {
    w.hash(Preimage(w.reqs[c]))
  }

  /** One upstream call: its key, the request it was made with, and its result once there is one. */
  datatype Flight = Flight(key: string, leader: nat, result: Option<Upstream>)

  datatype Phase =
    | Idle
    | Joined(joined: nat)
    | Got(flight: Option<nat>, outcome: Upstream)   // back from the provider, or refused by validation
    | Done(flight: Option<nat>)

  datatype Entry = Entry(call: nat, flight: Option<nat>, op: Op)

  /** `table` is the in-flight table of the singleflight group; `log` the calls on the statistics store. */
  datatype State = State(
    flights: seq<Flight>,
    table: map<string, nat>,
    phase: seq<Phase>,
    stats: Memory,
    log: seq<Entry>)

  datatype Step =
    | Begin(call: nat)
    | Complete(flight: nat, result: Upstream)
    | Deliver(call: nat)
    | Record(call: nat)

  predicate Enabled(w: World, s: State, t: Step) {
    |s.phase| == |w.reqs| &&
    match t
    case Begin(c) => c < |s.phase| && s.phase[c].Idle?
    case Complete(f, _) => f < |s.flights| && s.flights[f].result.None?
    case Deliver(c) =>
      && c < |s.phase| && s.phase[c].Joined?
      && s.phase[c].joined < |s.flights| && s.flights[s.phase[c].joined].result.Some?
    case Record(c) => c < |s.phase| && s.phase[c].Got?
  }

  function Do(w: World, s: State, t: Step): (s': State)
    requires Enabled(w, s, t)
    ensures |s'.phase| == |s.phase|
  {
    match t
    case Begin(c) =>
      if !Valid(w, c) then s.(phase := s.phase[c := Got(None, Failure)])
      else if KeyOf(w, c) in s.table then s.(phase := s.phase[c := Joined(s.table[KeyOf(w, c)])])
      else
        var f := |s.flights|;
        s.(flights := s.flights + [Flight(KeyOf(w, c), c, None)],
           table := s.table[KeyOf(w, c) := f],
           phase := s.phase[c := Joined(f)])
    case Complete(f, result) =>
      s.(flights := s.flights[f := s.flights[f].(result := Some(result))], table := s.table - {s.flights[f].key})
    case Deliver(c) =>
      var f := s.phase[c].joined;
      s.(phase := s.phase[c := Got(Some(f), s.flights[f].result.value)])
    case Record(c) =>
      var op := OpOf(s.phase[c].outcome);
      s.(phase := s.phase[c := Done(s.phase[c].flight)],
         stats := Apply(s.stats, op),
         log := s.log + [Entry(c, s.phase[c].flight, op)])
  }

  function Start(w: World): State {
    State([], map[], seq(|w.reqs|, _ => Idle), FRESH, [])
  }

  /** Any sequence of steps is a run; a step that is not enabled changes nothing. */
  function After(w: World, s: State, run: seq<Step>): State {
    if run == [] then s
    else
      var s1, t := After(w, s, run[..|run| - 1]), run[|run| - 1];
      if Enabled(w, s1, t) then Do(w, s1, t) else s1
  }

  // ---------- the invariant ----------

  /** The flight a call has taken part in. */
  function FlightOf(at: Phase): Option<nat> {
    match at
    case Idle => None
    case Joined(f) => Some(f)
    case Got(f, _) => f
    case Done(f) => f
  }

  ghost predicate FlightInvariant(w: World, s: State, f: nat)
    requires f < |s.flights|
  {
    var flight := s.flights[f];
    && flight.leader < |w.reqs| && Valid(w, flight.leader) && flight.key == KeyOf(w, flight.leader)
    && (flight.result.None? ==> flight.key in s.table && s.table[flight.key] == f)
  }

  ghost predicate CallInvariant(w: World, s: State, c: nat)
    requires c < |s.phase| == |w.reqs|
  {
    var at := s.phase[c];
    && (FlightOf(at).Some? ==>
          var f := FlightOf(at).value;
          f < |s.flights| && Valid(w, c) && s.flights[f].key == KeyOf(w, c))
    && (at.Got? && at.flight.Some? ==> s.flights[at.flight.value].result == Some(at.outcome))
    && (at.Got? && at.flight.None? ==> at.outcome.Failure? && !Valid(w, c))
    && (at.Done? && at.flight.Some? ==> s.flights[at.flight.value].result.Some?)
    && (at.Done? && at.flight.None? ==> !Valid(w, c))
  }

  ghost predicate TableInvariant(s: State) {
    forall k :: k in s.table ==>
      && s.table[k] < |s.flights|
      && s.flights[s.table[k]].key == k && s.flights[s.table[k]].result.None?
  }

  ghost predicate EntryInvariant(w: World, s: State, i: nat)
    requires i < |s.log| && |s.phase| == |w.reqs|
  {
    var e := s.log[i];
    && e.call < |s.phase| && s.phase[e.call] == Done(e.flight)
    && (e.flight.None? ==> e.op == RecordTwError)
    && (e.flight.Some? ==>
          && e.flight.value < |s.flights| && s.flights[e.flight.value].result.Some?
          && e.op == OpOf(s.flights[e.flight.value].result.value))
  }

  function LogOps(log: seq<Entry>): seq<Op> {
    seq(|log|, i requires 0 <= i < |log| => log[i].op)
  }

  ghost predicate Invariant(w: World, s: State) {
    && |s.phase| == |w.reqs|
    && (forall f :: 0 <= f < |s.flights| ==> FlightInvariant(w, s, f))
    && (forall c :: 0 <= c < |s.phase| ==> CallInvariant(w, s, c))
    && TableInvariant(s)
    && (forall i :: 0 <= i < |s.log| ==> EntryInvariant(w, s, i))
    && s.stats == RunOps(LogOps(s.log))
  }

  lemma FlightKept(w: World, s: State, t: Step, f: nat)
    requires Invariant(w, s) && Enabled(w, s, t) && f < |Do(w, s, t).flights|
    ensures FlightInvariant(w, Do(w, s, t), f)
  {
    if f < |s.flights| {
      assert FlightInvariant(w, s, f);
    }
    if t.Complete? {
      assert FlightInvariant(w, s, t.flight);
    }
  }

  lemma CallKept(w: World, s: State, t: Step, c: nat)
    requires Invariant(w, s) && Enabled(w, s, t) && c < |s.phase|
    ensures CallInvariant(w, Do(w, s, t), c)
  {
    assert CallInvariant(w, s, c);
  }

  lemma EntryKept(w: World, s: State, t: Step, i: nat)
    requires Invariant(w, s) && Enabled(w, s, t) && i < |Do(w, s, t).log|
    ensures EntryInvariant(w, Do(w, s, t), i)
  {
    if i < |s.log| {
      assert EntryInvariant(w, s, i);
    } else {
      assert CallInvariant(w, s, t.call);
    }
  }

  /** Every step of every call keeps the invariant. */
  lemma InvariantKept(w: World, s: State, t: Step)
    requires Invariant(w, s) && Enabled(w, s, t)
    ensures Invariant(w, Do(w, s, t))
  {
    var s' := Do(w, s, t);
    forall f | 0 <= f < |s'.flights| ensures FlightInvariant(w, s', f) { FlightKept(w, s, t, f); }
    forall c | 0 <= c < |s'.phase| ensures CallInvariant(w, s', c) { CallKept(w, s, t, c); }
    forall i | 0 <= i < |s'.log| ensures EntryInvariant(w, s', i) { EntryKept(w, s, t, i); }
    if t.Record? {
      assert LogOps(s'.log)[..|s.log|] == LogOps(s.log);
    }
  }

  lemma {:induction false} InvariantHolds(w: World, run: seq<Step>)
    ensures Invariant(w, After(w, Start(w), run))
  {
    if run != [] {
      var init, t := run[..|run| - 1], run[|run| - 1];
      InvariantHolds(w, init);
      var s := After(w, Start(w), init);
      if Enabled(w, s, t) {
        InvariantKept(w, s, t);
      }
    }
  }

  /** No call is stuck: it can go on at once, or its upstream call is still open and may end with any answer. */
  lemma CallGoesOn(w: World, run: seq<Step>, c: nat, answer: Upstream) returns (t: Step)
    requires c < |w.reqs|
    ensures var s := After(w, Start(w), run);
            && |s.phase| == |w.reqs|
            && (!s.phase[c].Done? ==>
                  && Enabled(w, s, t)
                  && (t.Complete? ==> s.phase[c] == Joined(t.flight) && t.result == answer)
                  && (!t.Complete? ==> t.call == c))
  {
    InvariantHolds(w, run);
    var s := After(w, Start(w), run);
    assert CallInvariant(w, s, c);
    match s.phase[c]
    case Joined(f) => t := if s.flights[f].result.Some? then Deliver(c) else Complete(f, answer);
    case Got(_, _) => t := Record(c);
    case _ => t := Begin(c);
  }

  // ---------- coalescing ----------

  /** At most one upstream call per request is ever in flight. */
  lemma OneCallInFlight(w: World, run: seq<Step>, f: nat, g: nat)
    requires var s := After(w, Start(w), run);
             && f < |s.flights| && g < |s.flights| && f != g
             && s.flights[f].result.None? && s.flights[g].result.None?
    ensures var s := After(w, Start(w), run);
            && s.flights[f].leader < |w.reqs| && s.flights[g].leader < |w.reqs|
            && w.reqs[s.flights[f].leader] != w.reqs[s.flights[g].leader]
  {
    InvariantHolds(w, run);
    var s := After(w, Start(w), run);
    assert FlightInvariant(w, s, f) && FlightInvariant(w, s, g);
  }

  /** No call ever takes part in a flight made for another phone or gift. */
  lemma OwnResultOnly(w: World, run: seq<Step>, c: nat)
    requires Injective(w.hash) && c < |w.reqs|
    ensures var s := After(w, Start(w), run);
            && |s.phase| == |w.reqs|
            && (FlightOf(s.phase[c]).Some? ==>
                  var f := FlightOf(s.phase[c]).value;
                  f < |s.flights| && s.flights[f].leader < |w.reqs| && w.reqs[s.flights[f].leader] == w.reqs[c])
            && (s.phase[c].Got? && s.phase[c].flight.Some? ==>
                  s.flights[s.phase[c].flight.value].result == Some(s.phase[c].outcome))
  {
    InvariantHolds(w, run);
    var s := After(w, Start(w), run);
    assert CallInvariant(w, s, c);
    if FlightOf(s.phase[c]).Some? {
      var f := FlightOf(s.phase[c]).value;
      assert FlightInvariant(w, s, f);
      PreimageInjective(w.reqs[s.flights[f].leader], w.reqs[c]);
    }
  }

  /** A call that has not begun when a flight has its result never joins that flight. */
  lemma {:induction false} FinishedFlightsClosed(w: World, before: seq<Step>, later: seq<Step>, f: nat, c: nat)
    requires c < |w.reqs|
    requires var s := After(w, Start(w), before);
             f < |s.flights| && s.flights[f].result.Some? && |s.phase| == |w.reqs| && s.phase[c].Idle?
    ensures var s := After(w, Start(w), before + later);
            && f < |s.flights| && s.flights[f].result.Some?
            && |s.phase| == |w.reqs| && FlightOf(s.phase[c]) != Some(f)
    decreases |later|
  {
    if later == [] {
      assert before + later == before;
    } else {
      var init, t := later[..|later| - 1], later[|later| - 1];
      FinishedFlightsClosed(w, before, init, f, c);
      InvariantHolds(w, before + init);
      assert (before + later)[..|before + later| - 1] == before + init;
      var s := After(w, Start(w), before + init);
      if Enabled(w, s, t) {
        StaysClosed(w, s, t, f, c);
      }
    }
  }

  lemma StaysClosed(w: World, s: State, t: Step, f: nat, c: nat)
    requires Invariant(w, s) && Enabled(w, s, t) && c < |w.reqs|
    requires f < |s.flights| && s.flights[f].result.Some? && FlightOf(s.phase[c]) != Some(f)
    ensures var s' := Do(w, s, t); f < |s'.flights| && s'.flights[f].result.Some? && FlightOf(s'.phase[c]) != Some(f)
  {
  }

  /** Freshness: a call that begins after some caller of a flight has its answer never gets that flight's result. */
  lemma NoStaleResult(w: World, before: seq<Step>, later: seq<Step>, f: nat, returned: nat, c: nat)
    requires returned < |w.reqs| && c < |w.reqs|
    requires var s := After(w, Start(w), before);
             && |s.phase| == |w.reqs| && s.phase[c].Idle?
             && (s.phase[returned].Got? || s.phase[returned].Done?) && s.phase[returned].flight == Some(f)
    ensures var s := After(w, Start(w), before + later);
            |s.phase| == |w.reqs| && FlightOf(s.phase[c]) != Some(f)
  {
    InvariantHolds(w, before);
    assert CallInvariant(w, After(w, Start(w), before), returned);
    FinishedFlightsClosed(w, before, later, f, c);
  }

  // ---------- accounting ----------

  /** Completed calls: of one flight, or (with no flight named) all of them. */
  predicate IsDone(at: Phase, flight: Option<nat>) {
    at.Done? && (flight.None? || at.flight == flight)
  }

  function DoneFlags(phase: seq<Phase>, flight: Option<nat>): seq<nat> {
    seq(|phase|, c requires 0 <= c < |phase| => if IsDone(phase[c], flight) then 1 else 0)
  }

  function DoneCount(phase: seq<Phase>, flight: Option<nat>): nat {
    Sum(DoneFlags(phase, flight))
  }

  /** Log entries of one flight, or all of them. */
  function EntryCount(log: seq<Entry>, flight: Option<nat>): nat {
    if log == [] then 0
    else
      EntryCount(log[..|log| - 1], flight) + if flight.None? || log[|log| - 1].flight == flight then 1 else 0
  }

  /** Each completed call has made exactly one call on the statistics store. */
  lemma {:induction false} OneEntryPerCall(w: World, run: seq<Step>, flight: Option<nat>)
    ensures var s := After(w, Start(w), run); DoneCount(s.phase, flight) == EntryCount(s.log, flight)
  {
    if run == [] {
      SumZero(DoneFlags(Start(w).phase, flight));
    } else {
      var init, t := run[..|run| - 1], run[|run| - 1];
      OneEntryPerCall(w, init, flight);
      var s := After(w, Start(w), init);
      if Enabled(w, s, t) {
        EntryPerStep(w, s, t, flight);
      }
    }
  }

  lemma EntryPerStep(w: World, s: State, t: Step, flight: Option<nat>)
    requires Enabled(w, s, t) && DoneCount(s.phase, flight) == EntryCount(s.log, flight)
    ensures var s' := Do(w, s, t); DoneCount(s'.phase, flight) == EntryCount(s'.log, flight)
  {
    var s' := Do(w, s, t);
    if !t.Complete? {
      DoneAfter(s.phase, t.call, s'.phase[t.call], flight);
      assert s'.phase == s.phase[t.call := s'.phase[t.call]];
    }
    if t.Record? {
      EntrySnoc(s.log, s'.log[|s.log|], flight);
    }
  }

  lemma EntrySnoc(log: seq<Entry>, e: Entry, flight: Option<nat>)
    ensures EntryCount(log + [e], flight) ==
            EntryCount(log, flight) + if flight.None? || e.flight == flight then 1 else 0
  {
    assert (log + [e])[..|log|] == log;
  }

  lemma DoneAfter(phase: seq<Phase>, c: nat, at: Phase, flight: Option<nat>)
    requires c < |phase| && !phase[c].Done?
    ensures DoneCount(phase[c := at], flight) == DoneCount(phase, flight) + if IsDone(at, flight) then 1 else 0
  {
    SumBump(DoneFlags(phase, flight), DoneFlags(phase[c := at], flight), c, if IsDone(at, flight) then 1 else 0);
  }

  lemma {:induction false} AllEntries(log: seq<Entry>)
    ensures EntryCount(log, None) == |log|
  {
    if log != [] {
      AllEntries(log[..|log| - 1]);
    }
  }

  /**
   End-to-end accounting: in every interleaving, every completed call is an
   error, a counted success or a success suppressed as a repeated ref, and the
   store holds (modulo 2^64) those counts and the sum of the counted amounts.
   A call outside any flight is one that validation refused, and an error.
   */
  lemma {:induction false} EveryCallAccounted(w: World, run: seq<Step>)
    ensures var s := After(w, Start(w), run);
            var ops := LogOps(s.log);
            && s.stats == Memory(WrapTotals(Ledger(ops)), RefsOf(ops))
            && DoneCount(s.phase, None) == |ErrorCalls(ops)| + |CountedCalls(ops)| + |SuppressedCalls(ops)|
            && (TotalsInRange(Ledger(ops)) ==> s.stats.totals == Ledger(ops))
            && (forall i :: 0 <= i < |s.log| ==>
                  && s.log[i].call < |w.reqs| && (s.log[i].flight.None? <==> !Valid(w, s.log[i].call))
                  && (s.log[i].flight.None? ==> ops[i] == RecordTwError))
  {
    var s := After(w, Start(w), run);
    var ops := LogOps(s.log);
    InvariantHolds(w, run);
    StoreIsLedger(ops);
    OneEntryPerCall(w, run, None);
    AllEntries(s.log);
    forall i | 0 <= i < |s.log|
      ensures && s.log[i].call < |w.reqs| && (s.log[i].flight.None? <==> !Valid(w, s.log[i].call))
              && (s.log[i].flight.None? ==> ops[i] == RecordTwError)
    {
      assert EntryInvariant(w, s, i) && CallInvariant(w, s, s.log[i].call);
    }
    WrapInRange(Ledger(ops).count);
    WrapInRange(Ledger(ops).cents);
    WrapInRange(Ledger(ops).errors);
  }

  /**
   One flight: its k completed callers make k entries, each recording the
   flight's own outcome. If it failed all k are errors. If it brought a
   voucher with a ref at most one of them is counted, and with an empty ref
   every one of them is.
   */
  lemma FlightAccounting(w: World, run: seq<Step>, f: nat)
    ensures var s := After(w, Start(w), run);
            var ops := LogOps(s.log);
            && EntryCount(s.log, Some(f)) == DoneCount(s.phase, Some(f))
            && forall i :: 0 <= i < |s.log| && s.log[i].flight == Some(f) ==>
                 && f < |s.flights| && s.flights[f].result.Some?
                 && ops[i] == OpOf(s.flights[f].result.value)
                 && (s.flights[f].result.value.Failure? ==> ops[i] == RecordTwError)
                 && (s.flights[f].result.value.Voucher? ==>
                       ops[i] == RecordTw(Worth(s.flights[f].result.value.amount), s.flights[f].result.value.ref))
                 && (s.flights[f].result.value.Voucher? && s.flights[f].result.value.ref == "" ==> Counted(ops, i))
                 && (s.flights[f].result.value.Voucher? && s.flights[f].result.value.ref != "" && Counted(ops, i) ==>
                       forall j :: i < j < |s.log| && s.log[j].flight == Some(f) ==> !Counted(ops, j))
  {
    var s := After(w, Start(w), run);
    var ops := LogOps(s.log);
    InvariantHolds(w, run);
    OneEntryPerCall(w, run, Some(f));
    forall i | 0 <= i < |s.log| && s.log[i].flight == Some(f)
      ensures && f < |s.flights| && s.flights[f].result.Some? && ops[i] == OpOf(s.flights[f].result.value)
    {
      assert EntryInvariant(w, s, i);
    }
    forall i, j | 0 <= i < j < |s.log| && s.log[i].flight == Some(f) && s.log[j].flight == Some(f)
      ensures s.flights[f].result.value.Voucher? && s.flights[f].result.value.ref != "" ==> !Counted(ops, j)
    {
      assert s.flights[f].result.value.Voucher? ==> SameRef(ops[i], s.flights[f].result.value.ref);
    }
  }
}
