/**
 The redemption statistics kept in memory (internal/repository/memory/stats.go),
 which also serve as the sequential specification of the PostgreSQL store.
 */
module Stats {

  /** The three counters, in integer cents. */
  datatype Totals = Totals(count: int, cents: int, errors: int)

  /** One call on a statistics store. */
  datatype Op = RecordTw(cents: int, ref: string) | RecordTwError

  datatype Memory = Memory(totals: Totals, refs: set<string>)

  const TWO_63: int := 0x8000_0000_0000_0000

  /** Go's int64 wraps around. */
  function Wrap(x: int): int {
    (x + TWO_63) % (2 * TWO_63) - TWO_63
  }

  function WrapTotals(t: Totals): Totals {
    Totals(Wrap(t.count), Wrap(t.cents), Wrap(t.errors))
  }

  predicate InRange(x: int) {
    -TWO_63 <= x < TWO_63
  }

  predicate TotalsInRange(t: Totals) {
    InRange(t.count) && InRange(t.cents) && InRange(t.errors)
  }

  /** What one counted call adds. */
  function Bump(t: Totals, op: Op): Totals {
    match op
    case RecordTw(cents, _) => t.(count := t.count + 1, cents := t.cents + cents)
    case RecordTwError => t.(errors := t.errors + 1)
  }

  function Apply(m: Memory, op: Op): Memory {
    if op.RecordTw? && op.ref != "" && op.ref in m.refs then m
    else Memory(WrapTotals(Bump(m.totals, op)), if op.RecordTw? && op.ref != "" then m.refs + {op.ref} else m.refs)
  }

  const FRESH: Memory := Memory(Totals(0, 0, 0), {})

  function RunOps(ops: seq<Op>): Memory {
    if ops == [] then FRESH else Apply(RunOps(ops[..|ops| - 1]), ops[|ops| - 1])
  }

  class StatsStore {
    var twCount: int
    var twAmountCents: int
    var twErrors: int
    var twRefs: set<string>

    constructor ()
      ensures Contents() == FRESH
    {
      twCount, twAmountCents, twErrors, twRefs := 0, 0, 0, {};
    }

    ghost predicate Valid()
      reads this
    {
      InRange(twCount) && InRange(twAmountCents) && InRange(twErrors)
    }

    ghost function Contents(): Memory
      reads this
    {
      Memory(Totals(twCount, twAmountCents, twErrors), twRefs)
    }

    method RecordTw(amountCents: int, ref: string)
      requires Valid()
      modifies this
      ensures Valid() && Contents() == Apply(old(Contents()), Op.RecordTw(amountCents, ref))
      ensures ref != "" && ref in old(twRefs) ==> Contents() == old(Contents())
      ensures ref == "" || ref !in old(twRefs) ==>
                && twCount == Wrap(old(twCount) + 1) && twAmountCents == Wrap(old(twAmountCents) + amountCents)
                && twErrors == old(twErrors) && twRefs == old(twRefs) + if ref == "" then {} else {ref}
    {
      WrapInRange(twErrors);
      if ref != "" {
        if ref in twRefs {
          return;
        }
        twRefs := twRefs + {ref};
      }
      twCount := Wrap(twCount + 1);
      twAmountCents := Wrap(twAmountCents + amountCents);
    }

    method RecordTwError()
      requires Valid()
      modifies this
      ensures Valid() && Contents() == Apply(old(Contents()), Op.RecordTwError)
      ensures twErrors == Wrap(old(twErrors) + 1) && twCount == old(twCount) && twAmountCents == old(twAmountCents)
    {
      WrapInRange(twCount);
      WrapInRange(twAmountCents);
      twErrors := Wrap(twErrors + 1);
    }
  }

  lemma WrapInRange(x: int)
    ensures InRange(Wrap(x))
    ensures InRange(x) ==> Wrap(x) == x
  {
  }

  /** `Wrap` picks the one int64 that differs from the exact value by a multiple of 2^64. */
  lemma WrapExact(x: int, y: int)
    ensures y == Wrap(x) <==>
            -0x8000_0000_0000_0000 <= y <= 0x7fff_ffff_ffff_ffff && (x - y) % 0x1_0000_0000_0000_0000 == 0
  {
  }

  lemma WrapAdd(x: int, y: int)
    ensures Wrap(Wrap(x) + y) == Wrap(x + y)
  {
  }

  // ---------- what the counters mean ----------

  /** The call is the first one of its ref, or has none. */
  predicate Counted(ops: seq<Op>, i: int)
    requires 0 <= i < |ops|
  {
    ops[i].RecordTw? && (ops[i].ref == "" || forall j :: 0 <= j < i ==> !SameRef(ops[j], ops[i].ref))
  }

  predicate SameRef(op: Op, ref: string) {
    op.RecordTw? && op.ref == ref
  }

  function CountedCalls(ops: seq<Op>): set<int> {
    set i | 0 <= i < |ops| && Counted(ops, i)
  }

  /** Successes left out because their ref had been counted. */
  function SuppressedCalls(ops: seq<Op>): set<int> {
    set i | 0 <= i < |ops| && ops[i].RecordTw? && !Counted(ops, i)
  }

  function ErrorCalls(ops: seq<Op>): set<int> {
    set i | 0 <= i < |ops| && ops[i].RecordTwError?
  }

  /** The sum of the amounts of the counted calls among the first `k`. */
  function CountedCents(ops: seq<Op>, k: nat): int
    requires k <= |ops|
  {
    if k == 0 then 0 else CountedCents(ops, k - 1) + if Counted(ops, k - 1) then ops[k - 1].cents else 0
  }

  /** Exact totals, read off the calls: how many are counted, what they add up to, and how many are errors. */
  function Ledger(ops: seq<Op>): Totals {
    Totals(|CountedCalls(ops)|, CountedCents(ops, |ops|), |ErrorCalls(ops)|)
  }

  function RefsOf(ops: seq<Op>): set<string> {
    set i | 0 <= i < |ops| && ops[i].RecordTw? && ops[i].ref != "" :: ops[i].ref
  }

  /**
   After any calls the store holds, modulo 2^64, the number and the sum of the
   first successes of each ref (all of them when the ref is empty) and the
   number of errors; every call is an error, counted or suppressed.
   */
  lemma {:induction false} StoreIsLedger(ops: seq<Op>)
    ensures RunOps(ops) == Memory(WrapTotals(Ledger(ops)), RefsOf(ops))
    ensures |ops| == |ErrorCalls(ops)| + |CountedCalls(ops)| + |SuppressedCalls(ops)|
  {
    if ops != [] {
      var n := |ops| - 1;
      var init, op := ops[..n], ops[n];
      StoreIsLedger(init);
      RefsSnoc(init, op);
      LedgerSnoc(init, op);
      assert init + [op] == ops;
      WrapBump(Ledger(init), op);
    }
  }

  /** One more call joins exactly one of the three groups. */
  lemma LedgerSnoc(ops: seq<Op>, op: Op)
    ensures |SuppressedCalls(ops + [op])| ==
            |SuppressedCalls(ops)| + if op.RecordTw? && !Counted(ops + [op], |ops|) then 1 else 0
    ensures Ledger(ops + [op]) ==
            if op.RecordTw? && !Counted(ops + [op], |ops|) then Ledger(ops) else Bump(Ledger(ops), op)
  {
    CountedPrefix(ops, op);
    CountedSnoc(ops, op);
    SuppressedSnoc(ops, op);
    ErrorsSnoc(ops, op);
    CentsPrefix(ops, op, |ops|);
  }

  /** A set of places that gains at most the place `n`. */
  lemma Grown(before: set<int>, after: set<int>, n: int)
    requires n !in before && after - {n} == before
    ensures |after| == |before| + if n in after then 1 else 0
  {
    assert n !in after ==> after == before;
  }

  lemma CountedSnoc(ops: seq<Op>, op: Op)
    ensures |CountedCalls(ops + [op])| == |CountedCalls(ops)| + if Counted(ops + [op], |ops|) then 1 else 0
  {
    CountedPrefix(ops, op);
    Grown(CountedCalls(ops), CountedCalls(ops + [op]), |ops|);
  }

  lemma SuppressedSnoc(ops: seq<Op>, op: Op)
    ensures |SuppressedCalls(ops + [op])| ==
            |SuppressedCalls(ops)| + if op.RecordTw? && !Counted(ops + [op], |ops|) then 1 else 0
  {
    CountedPrefix(ops, op);
    Grown(SuppressedCalls(ops), SuppressedCalls(ops + [op]), |ops|);
  }

  lemma ErrorsSnoc(ops: seq<Op>, op: Op)
    ensures |ErrorCalls(ops + [op])| == |ErrorCalls(ops)| + if op.RecordTwError? then 1 else 0
  {
    Grown(ErrorCalls(ops), ErrorCalls(ops + [op]), |ops|);
  }

  /** Whether a call is counted does not depend on later ones. */
  lemma CountedPrefix(ops: seq<Op>, op: Op)
    ensures forall i :: 0 <= i < |ops| ==> (Counted(ops + [op], i) <==> Counted(ops, i))
  {
    forall i | 0 <= i < |ops|
      ensures Counted(ops + [op], i) <==> Counted(ops, i)
    {
      assert forall j :: 0 <= j < i ==> (ops + [op])[j] == ops[j];
    }
  }

  lemma {:induction false} CentsPrefix(ops: seq<Op>, op: Op, k: nat)
    requires k <= |ops|
    ensures CountedCents(ops + [op], k) == CountedCents(ops, k)
  {
    if k > 0 {
      CentsPrefix(ops, op, k - 1);
      CountedPrefix(ops, op);
    }
  }

  lemma {:induction false} WrapBump(t: Totals, op: Op)
    ensures WrapTotals(Bump(WrapTotals(t), op)) == WrapTotals(Bump(t, op))
  {
    WrapAdd(t.count, if op.RecordTw? then 1 else 0);
    WrapAdd(t.errors, if op.RecordTw? then 0 else 1);
    WrapAdd(t.cents, if op.RecordTw? then op.cents else 0);
  }

  lemma RefsSnoc(ops: seq<Op>, op: Op)
    ensures RefsOf(ops + [op]) == if op.RecordTw? && op.ref != "" then RefsOf(ops) + {op.ref} else RefsOf(ops)
    ensures op.RecordTw? && op.ref != "" ==> (Counted(ops + [op], |ops|) <==> op.ref !in RefsOf(ops))
  {
    var all := ops + [op];
    forall r | r in RefsOf(ops)
      ensures r in RefsOf(all)
    {
      var i :| 0 <= i < |ops| && ops[i].RecordTw? && ops[i].ref != "" && ops[i].ref == r;
      assert all[i] == ops[i];
    }
    if op.RecordTw? && op.ref != "" {
      assert all[|ops|] == op;
      if op.ref in RefsOf(ops) {
        var i :| 0 <= i < |ops| && ops[i].RecordTw? && ops[i].ref != "" && ops[i].ref == op.ref;
        assert SameRef(all[i], op.ref);
      }
    }
  }

  /** A ref that occurs is counted at its first occurrence and nowhere else. */
  lemma OncePerRef(ops: seq<Op>, ref: string) returns (first: nat)
    requires ref in RefsOf(ops)
    ensures first < |ops| && SameRef(ops[first], ref) && Counted(ops, first)
    ensures forall i :: 0 <= i < |ops| && SameRef(ops[i], ref) && Counted(ops, i) ==> i == first
    ensures forall i :: 0 <= i < first ==> !SameRef(ops[i], ref)
  {
    var some :| 0 <= some < |ops| && SameRef(ops[some], ref);
    first := 0;
    while !SameRef(ops[first], ref)
      invariant first <= some
      invariant forall i :: 0 <= i < first ==> !SameRef(ops[i], ref)
      decreases some - first
    {
      first := first + 1;
    }
  }
}
