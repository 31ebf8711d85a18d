/**
 The PostgreSQL statistics store (internal/repository/postgres/stats.go) as a
 protocol: any number of calls, in any number of processes, run their
 statements against one database at READ COMMITTED.
 */
module CountOnce {
  import opened Wrappers
  import opened Stats

  /** How far one call has come. */
  datatype Phase =
    | Idle
    | Won                     // its INSERT took the ref; not committed
    | Lost                    // its INSERT found the ref committed and did nothing
    | Updated(row: Totals)    // its UPDATE wrote this row version; not committed
    | Committed(acked: bool)  // on disk; a lost connection leaves the caller with an error
    | Aborted

  /**
   The database and the calls. `refs` and `row` are what is committed.
   `pending` says which uncommitted call holds a ref and `lock` which one holds
   the totals row. `log` lists the calls in the order they committed.
   */
  datatype Db = Db(
    refs: set<string>,
    row: Totals,
    pending: map<string, nat>,
    lock: Option<nat>,
    phase: seq<Phase>,
    log: seq<nat>)

  datatype Step =
    | Insert(call: nat)
    | Update(call: nat)
    | Commit(call: nat, acked: bool)
    | Abort(call: nat)

  /** The call goes through recorded_refs first. */
  predicate HasRef(op: Op) {
    op.RecordTw? && op.ref != ""
  }

  /**
   A statement that is not enabled waits: a conflicting INSERT for the
   uncommitted inserter, an UPDATE for the holder of the totals row. An UPDATE
   past the range of BIGINT fails, so its call can only abort.
   */
  predicate Enabled(ops: seq<Op>, s: Db, t: Step)
    requires |s.phase| == |ops|
  {
    t.call < |ops| &&
    var op, at := ops[t.call], s.phase[t.call];
    match t
    case Insert(_) => at.Idle? && HasRef(op) && op.ref !in s.pending
    case Update(_) => (at.Won? || (at.Idle? && !HasRef(op))) && s.lock.None? && TotalsInRange(Bump(s.row, op))
    case Commit(_, _) => at.Lost? || at.Updated?
    case Abort(_) => !at.Committed? && !at.Aborted?
  }

  function Release(ops: seq<Op>, s: Db, call: nat): Db
    requires call < |ops|
  {
    s.(pending := map r | r in s.pending && s.pending[r] != call :: s.pending[r],
       lock := if s.lock == Some(call) then None else s.lock)
  }

  function Do(ops: seq<Op>, s: Db, t: Step): (s': Db)
    requires |s.phase| == |ops| && Enabled(ops, s, t)
    ensures |s'.phase| == |ops|
  {
    var i := t.call;
    var op, at := ops[i], s.phase[i];
    match t
    case Insert(_) =>
      if op.ref in s.refs then s.(phase := s.phase[i := Lost])
      else s.(phase := s.phase[i := Won], pending := s.pending[op.ref := i])
    case Update(_) => s.(phase := s.phase[i := Updated(Bump(s.row, op))], lock := Some(i))
    case Commit(_, acked) =>
      var s1 := Release(ops, s, i).(phase := s.phase[i := Committed(acked)], log := s.log + [i]);
      if at.Lost? then s1
      else s1.(row := at.row, refs := if HasRef(op) then s.refs + {op.ref} else s.refs)
    case Abort(_) => Release(ops, s, i).(phase := s.phase[i := Aborted])
  }

  function Start(ops: seq<Op>): Db {
    Db({}, Totals(0, 0, 0), map[], None, seq(|ops|, _ => Idle), [])
  }

  /** Any sequence of steps is a run; a step that is not enabled finds its call waiting, and changes nothing. */
  function After(ops: seq<Op>, run: seq<Step>): (s: Db)
    ensures |s.phase| == |ops|
  {
    if run == [] then Start(ops)
    else
      var s, t := After(ops, run[..|run| - 1]), run[|run| - 1];
      if Enabled(ops, s, t) then Do(ops, s, t) else s
  }

  // ---------- the invariant ----------

  /** The committed calls in commit order. */
  function LogOps(ops: seq<Op>, log: seq<nat>): seq<Op>
    requires forall k :: 0 <= k < |log| ==> log[k] < |ops|
  {
    seq(|log|, k requires 0 <= k < |log| => ops[log[k]])
  }

  /** The call holds what its statements took and will write exactly one increment on the committed row. */
  ghost predicate CallInvariant(ops: seq<Op>, s: Db, i: nat)
    requires i < |ops| == |s.phase|
  {
    var op, at := ops[i], s.phase[i];
    && (at.Won? ==> HasRef(op))
    && ((at.Won? || at.Updated?) && HasRef(op) ==> op.ref in s.pending && s.pending[op.ref] == i && op.ref !in s.refs)
    && (at.Updated? ==> s.lock == Some(i) && at.row == Bump(s.row, op) && TotalsInRange(at.row))
    && (at.Lost? ==> HasRef(op) && op.ref in s.refs)
    && (at.Committed? <==> i in s.log)
  }

  /** Locks are held by calls that have not ended. */
  ghost predicate LockInvariant(ops: seq<Op>, s: Db)
    requires |s.phase| == |ops|
  {
    && (forall r :: r in s.pending ==>
          s.pending[r] < |ops| && ops[s.pending[r]].RecordTw? && ops[s.pending[r]].ref == r
          && (s.phase[s.pending[r]].Won? || s.phase[s.pending[r]].Updated?))
    && (s.lock.Some? ==> s.lock.value < |ops| && s.phase[s.lock.value].Updated?)
  }

  /** The committed tables are the exact ledger of the committed calls. */
  ghost predicate TableInvariant(ops: seq<Op>, s: Db) {
    && (forall k :: 0 <= k < |s.log| ==> s.log[k] < |ops|)
    && (forall j, k :: 0 <= j < k < |s.log| ==> s.log[j] != s.log[k])
    && s.row == Ledger(LogOps(ops, s.log))
    && s.refs == RefsOf(LogOps(ops, s.log))
    && TotalsInRange(s.row)
  }

  ghost predicate Invariant(ops: seq<Op>, s: Db) {
    && |s.phase| == |ops|
    && (forall i :: 0 <= i < |ops| ==> CallInvariant(ops, s, i))
    && LockInvariant(ops, s)
    && TableInvariant(ops, s)
  }

  lemma CallsKept(ops: seq<Op>, s: Db, t: Step, j: nat)
    requires Invariant(ops, s) && Enabled(ops, s, t) && j < |ops|
    ensures CallInvariant(ops, Do(ops, s, t), j)
  {
    var s' := Do(ops, s, t);
    assert CallInvariant(ops, s, j);
    assert CallInvariant(ops, s, t.call);
    assert t.Commit? ==> (j in s'.log <==> j in s.log || j == t.call);
  }

  /** A commit extends the log by one call and the tables by what that call adds to the ledger. */
  lemma TablesKept(ops: seq<Op>, s: Db, t: Step)
    requires Invariant(ops, s) && Enabled(ops, s, t)
    ensures TableInvariant(ops, Do(ops, s, t))
  {
    if t.Commit? {
      var before, op := LogOps(ops, s.log), ops[t.call];
      assert CallInvariant(ops, s, t.call);
      assert LogOps(ops, s.log + [t.call]) == before + [op];
      LedgerSnoc(before, op);
      RefsSnoc(before, op);
    }
  }

  /** Every step of every call keeps the invariant. */
  lemma InvariantKept(ops: seq<Op>, s: Db, t: Step)
    requires Invariant(ops, s) && Enabled(ops, s, t)
    ensures Invariant(ops, Do(ops, s, t))
  {
    forall j | 0 <= j < |ops|
      ensures CallInvariant(ops, Do(ops, s, t), j)
    {
      CallsKept(ops, s, t, j);
    }
    TablesKept(ops, s, t);
    assert CallInvariant(ops, s, t.call);
  }

  lemma {:induction false} InvariantHolds(ops: seq<Op>, run: seq<Step>)
    ensures Invariant(ops, After(ops, run))
  {
    if run != [] {
      var init, t := run[..|run| - 1], run[|run| - 1];
      InvariantHolds(ops, init);
      if Enabled(ops, After(ops, init), t) {
        InvariantKept(ops, After(ops, init), t);
      }
    }
  }

  // ---------- the theorems ----------

  /**
   Serialisability: after any interleaving and any aborts the committed tables
   are what the memory store holds after the committed calls, in the order
   they committed.
   */
  lemma Serializable(ops: seq<Op>, run: seq<Step>)
    ensures var s := After(ops, run);
            && (forall k :: 0 <= k < |s.log| ==> s.log[k] < |ops|)
            && RunOps(LogOps(ops, s.log)) == Memory(s.row, s.refs)
            && s.row == Ledger(LogOps(ops, s.log))
  {
    var s := After(ops, run);
    InvariantHolds(ops, run);
    StoreIsLedger(LogOps(ops, s.log));
    WrapInRange(s.row.count);
    WrapInRange(s.row.cents);
    WrapInRange(s.row.errors);
  }

  /** The log is honest: no call is in it twice, and one is in it exactly when it committed, so a nil return is. */
  lemma {:induction false} LogIsCommits(ops: seq<Op>, run: seq<Step>)
    ensures var s := After(ops, run);
            && (forall j, k :: 0 <= j < k < |s.log| ==> s.log[j] != s.log[k])
            && (forall i :: 0 <= i < |ops| ==> (s.phase[i].Committed? <==> i in s.log))
  {
    InvariantHolds(ops, run);
    var s := After(ops, run);
    forall i | 0 <= i < |ops|
      ensures s.phase[i].Committed? <==> i in s.log
    {
      assert CallInvariant(ops, s, i);
    }
  }

  /** Among the committed calls with this ref, the one at `winner` in the log is counted and no other is. */
  ghost predicate OnlyWinner(ops: seq<Op>, log: seq<nat>, ref: string, winner: nat)
    requires forall k :: 0 <= k < |log| ==> log[k] < |ops|
  {
    && winner < |log| && SameRef(ops[log[winner]], ref)
    && forall k :: 0 <= k < |log| && SameRef(ops[log[k]], ref) ==> (Counted(LogOps(ops, log), k) <==> k == winner)
  }

  /**
   Exactly once: if any call with a ref committed, then of all the committed
   calls with that ref one and only one is in the totals, with its own amount.
   */
  lemma ExactlyOnce(ops: seq<Op>, run: seq<Step>, i: nat)
    requires i < |ops| && i in After(ops, run).log && HasRef(ops[i])
    ensures var s := After(ops, run);
            && (forall k :: 0 <= k < |s.log| ==> s.log[k] < |ops|)
            && s.row == Ledger(LogOps(ops, s.log))
            && exists winner: nat :: OnlyWinner(ops, s.log, ops[i].ref, winner)
  {
    var s := After(ops, run);
    InvariantHolds(ops, run);
    var done := LogOps(ops, s.log);
    var k :| 0 <= k < |s.log| && s.log[k] == i;
    assert done[k] == ops[i];
    var winner := OncePerRef(done, ops[i].ref);
    assert OnlyWinner(ops, s.log, ops[i].ref, winner);
  }

  // ---------- what keeps a call from committing ----------

  predicate Ended(at: Phase) {
    at.Committed? || at.Aborted?
  }

  /** The UPDATE of this call would leave the range of BIGINT. */
  predicate OutOfRange(ops: seq<Op>, s: Db, i: nat)
    requires i < |ops| == |s.phase|
  {
    !Ended(s.phase[i]) && !TotalsInRange(Bump(s.row, ops[i]))
  }

  /**
   No deadlock: in every run, as long as some call has not ended, some call
   can take its next step towards committing, unless its UPDATE is out of
   range. Calls wait only for calls that can go on.
   */
  lemma NoDeadlock(ops: seq<Op>, run: seq<Step>, i: nat) returns (t: Step)
    requires i < |ops| && !Ended(After(ops, run).phase[i])
    ensures t.call < |ops| && !t.Abort?
    ensures Enabled(ops, After(ops, run), t) || OutOfRange(ops, After(ops, run), t.call)
  {
    InvariantHolds(ops, run);
    var s := After(ops, run);
    if s.lock.Some? {
      t := Commit(s.lock.value, true);
    } else if s.phase[i].Idle? && HasRef(ops[i]) && ops[i].ref in s.pending {
      var j := s.pending[ops[i].ref];
      assert CallInvariant(ops, s, j);
      t := Update(j);
    } else {
      assert CallInvariant(ops, s, i);
      t := match s.phase[i]
           case Idle => if HasRef(ops[i]) then Insert(i) else Update(i)
           case Won => Update(i)
           case _ => Commit(i, true);
    }
  }

  lemma AfterStep(ops: seq<Op>, run: seq<Step>, t: Step)
    requires Enabled(ops, After(ops, run), t)
    ensures After(ops, run + [t]) == Do(ops, After(ops, run), t)
  {
    assert (run + [t])[..|run|] == run;
  }

  /** A call whose ref is committed already still commits with nil, and adds nothing. */
  lemma RepeatCommits(ops: seq<Op>, run: seq<Step>, i: nat)
    requires i < |ops| && HasRef(ops[i]) && After(ops, run).phase[i].Idle? && ops[i].ref in After(ops, run).refs
    ensures var s, s' := After(ops, run), After(ops, run + [Insert(i)] + [Commit(i, true)]);
            && s'.phase[i] == Committed(true) && s'.log == s.log + [i]
            && s'.row == s.row && s'.refs == s.refs
  {
    InvariantHolds(ops, run);
    var s := After(ops, run);
    forall r | r in s.pending
      ensures r !in s.refs
    {
      assert CallInvariant(ops, s, s.pending[r]);
    }
    AfterStep(ops, run, Insert(i));
    AfterStep(ops, run + [Insert(i)], Commit(i, true));
  }

  /** A call with a new ref, with no ref, or an error commits what it adds when nobody holds its ref or the row. */
  lemma FirstCommits(ops: seq<Op>, run: seq<Step>, i: nat, all: seq<Step>)
    requires i < |ops|
    requires var s := After(ops, run);
             && s.phase[i].Idle? && s.lock.None? && !OutOfRange(ops, s, i)
             && (HasRef(ops[i]) ==> ops[i].ref !in s.refs && ops[i].ref !in s.pending)
    requires all == run + (if HasRef(ops[i]) then [Insert(i)] else []) + [Update(i)] + [Commit(i, true)]
    ensures var s, s' := After(ops, run), After(ops, all);
            && s'.phase[i] == Committed(true) && s'.log == s.log + [i]
            && s'.row == (match ops[i]
                          case RecordTw(cents, _) => Totals(s.row.count + 1, s.row.cents + cents, s.row.errors)
                          case RecordTwError => Totals(s.row.count, s.row.cents, s.row.errors + 1))
            && s'.refs == if HasRef(ops[i]) then s.refs + {ops[i].ref} else s.refs
  {
    var begun := run + if HasRef(ops[i]) then [Insert(i)] else [];
    if HasRef(ops[i]) {
      AfterStep(ops, run, Insert(i));
    } else {
      assert begun == run;
    }
    AfterStep(ops, begun, Update(i));
    AfterStep(ops, begun + [Update(i)], Commit(i, true));
  }

  /** A caller gets an error only if its call was aborted, or its commit was not acknowledged. */
  lemma {:induction false} ErrorNeedsFault(ops: seq<Op>, run: seq<Step>, i: nat)
    requires i < |ops|
    ensures After(ops, run).phase[i].Aborted? ==> Abort(i) in run
    ensures After(ops, run).phase[i] == Committed(false) ==> Commit(i, false) in run
  {
    if run != [] {
      ErrorNeedsFault(ops, run[..|run| - 1], i);
    }
  }
}
