/**
 The migration runner (internal/repository/postgres/migrate.go) as a protocol:
 replicas walk the same sorted list against one database, may fail or crash at
 any point, and hold a session-level advisory lock that need not outlive the
 pooled connection it was taken on.
 */
module Migrate {
  import opened Wrappers

  /** The file names in order, and what each script does to a schema (nothing: it fails). */
  datatype Plan<!S> = Plan(names: seq<string>, script: (string, S) -> Option<S>)

  /** File names of one directory are distinct. */
  ghost predicate Distinct(names: seq<string>) {
    forall i, j :: 0 <= i < j < |names| ==> names[i] != names[j]
  }

  /** The schema after the first `k` migrations. */
  function Fold<S>(p: Plan<S>, base: S, k: nat): Option<S>
    requires k <= |p.names|
  {
    if k == 0 then Some(base)
    else
      match Fold(p, base, k - 1)
      case None => None
      case Some(s) => p.script(p.names[k - 1], s)
  }

  datatype Phase<S> =
    | Locking
    | At(next: nat)                        // about to ask whether names[next] is applied
    | Missing(next: nat)                   // it was not
    | Ran(next: nat, result: S)            // script run in an open transaction
    | Inserted(next: nat, result: S)       // version row inserted, not committed
    | Unlocking(ok: bool)
    | Returned(ok: bool)
    | Crashed

  /**
   `applied` lists the committed version rows in commit order. `pending` says
   which open transaction has inserted a version. `holder` is the session that
   holds the advisory lock, `depth` how often it took it.
   */
  datatype State<S> = State(
    applied: seq<string>,
    schema: S,
    pending: map<string, nat>,
    holder: Option<nat>,
    depth: nat,
    phase: seq<Phase<S>>)

  /** Every statement of a replica goes to whatever session its pool hands out. */
  datatype Step =
    | Acquire(replica: nat, session: nat)
    | Check(replica: nat)
    | Exec(replica: nat)
    | Record(replica: nat)
    | Commit(replica: nat)
    | Finish(replica: nat)
    | Fail(replica: nat)
    | Unlock(replica: nat, session: nat)
    | Crash(replica: nat)
    | Close(session: nat)

  predicate Enabled<S>(p: Plan<S>, s: State<S>, t: Step) {
    t.Close? ||
    (t.replica < |s.phase| &&
     var at := s.phase[t.replica];
     match t
     case Acquire(_, session) => at.Locking? && (s.holder.None? || s.holder == Some(session))
     case Check(_) => at.At? && at.next < |p.names|
     case Exec(_) => at.Missing? && at.next < |p.names| && p.script(p.names[at.next], s.schema).Some?
     case Record(_) => at.Ran? && at.next < |p.names| && p.names[at.next] !in s.pending
     case Commit(_) => at.Inserted? && at.next < |p.names|
     case Finish(_) => at.At? && at.next >= |p.names|
     case Fail(_) => !at.Unlocking? && !at.Returned? && !at.Crashed?
     case Unlock(_, _) => at.Unlocking?
     case Crash(_) => !at.Returned? && !at.Crashed?
     case Close(_) => true)
  }

  /** The transaction of a replica ends and gives up what it had inserted. */
  function Without(pending: map<string, nat>, replica: nat): map<string, nat> {
    map v | v in pending && pending[v] != replica :: pending[v]
  }

  function Do<S>(p: Plan<S>, s: State<S>, t: Step): (s': State<S>)
    requires Enabled(p, s, t)
    ensures |s'.phase| == |s.phase|
  {
    if t.Close? then if s.holder == Some(t.session) then s.(holder := None, depth := 0) else s
    else
      var r := t.replica;
      var at := s.phase[r];
      match t
      case Acquire(_, session) => s.(phase := s.phase[r := At(0)], holder := Some(session), depth := s.depth + 1)
      case Check(_) =>
        s.(phase := s.phase[r := if p.names[at.next] in s.applied then At(at.next + 1) else Missing(at.next)])
      case Exec(_) => s.(phase := s.phase[r := Ran(at.next, p.script(p.names[at.next], s.schema).value)])
      case Record(_) =>
        if p.names[at.next] in s.applied then s.(phase := s.phase[r := Unlocking(false)])
        else s.(phase := s.phase[r := Inserted(at.next, at.result)], pending := s.pending[p.names[at.next] := r])
      case Commit(_) =>
        s.(applied := s.applied + [p.names[at.next]], schema := at.result, pending := Without(s.pending, r),
           phase := s.phase[r := At(at.next + 1)])
      case Finish(_) => s.(phase := s.phase[r := Unlocking(true)])
      case Fail(_) =>
        s.(phase := s.phase[r := if at.Locking? then Returned(false) else Unlocking(false)],
           pending := Without(s.pending, r))
      case Unlock(_, session) =>
        var s1 := s.(phase := s.phase[r := Returned(at.ok)]);
        if s.holder != Some(session) then s1
        else if s.depth <= 1 then s1.(holder := None, depth := 0)
        else s1.(depth := s.depth - 1)
      case Crash(_) => s.(phase := s.phase[r := Crashed], pending := Without(s.pending, r))
  }

  /** `n` replicas over a database that has the first `k` migrations. */
  function Start<S>(p: Plan<S>, base: S, k: nat, n: nat): State<S>
    requires k <= |p.names| && Fold(p, base, k).Some?
  {
    State(p.names[..k], Fold(p, base, k).value, map[], None, 0, seq(n, _ => Locking))
  }

  /** A step that is not enabled changes nothing. */
  function Try<S>(p: Plan<S>, s: State<S>, t: Step): State<S> {
    if Enabled(p, s, t) then Do(p, s, t) else s
  }

  /** Any sequence of steps is a run. */
  function After<S>(p: Plan<S>, s: State<S>, run: seq<Step>): State<S> {
    if run == [] then s else Try(p, After(p, s, run[..|run| - 1]), run[|run| - 1])
  }

  // ---------- the invariant ----------

  ghost predicate ReplicaInvariant<S>(p: Plan<S>, s: State<S>, r: nat)
    requires r < |s.phase|
  {
    var n, at := |s.applied|, s.phase[r];
    match at
    case At(i) => i <= n
    case Missing(i) => i <= n
    case Ran(i, result) => i <= n && (i == n < |p.names| ==> p.script(p.names[i], s.schema) == Some(result))
    case Inserted(i, result) =>
      && i == n < |p.names| && p.script(p.names[i], s.schema) == Some(result)
      && p.names[i] in s.pending && s.pending[p.names[i]] == r
    case Unlocking(ok) => ok ==> n == |p.names|
    case Returned(ok) => ok ==> n == |p.names|
    case _ => true
  }

  ghost predicate Invariant<S>(p: Plan<S>, base: S, s: State<S>) {
    && |s.applied| <= |p.names|
    && s.applied == p.names[..|s.applied|]
    && Fold(p, base, |s.applied|) == Some(s.schema)
    && forall r :: 0 <= r < |s.phase| ==> ReplicaInvariant(p, s, r)
  }

  lemma ReplicaKept<S>(p: Plan<S>, base: S, s: State<S>, t: Step, r: nat)
    requires Distinct(p.names) && Invariant(p, base, s) && Enabled(p, s, t) && r < |s.phase|
    ensures ReplicaInvariant(p, Do(p, s, t), r)
  {
    assert ReplicaInvariant(p, s, r);
    if !t.Close? {
      assert ReplicaInvariant(p, s, t.replica);
      var at := s.phase[t.replica];
      if t.Check? || t.Record? {
        PrefixMember(p.names, |s.applied|, at.next);
      }
    }
  }

  lemma PrefixMember(names: seq<string>, n: nat, i: nat)
    requires Distinct(names) && i < |names| && n <= |names|
    ensures names[i] in names[..n] <==> i < n
  {
    if i < n {
      assert names[..n][i] == names[i];
    }
  }

  lemma InvariantKept<S>(p: Plan<S>, base: S, s: State<S>, t: Step)
    requires Distinct(p.names) && Invariant(p, base, s) && Enabled(p, s, t)
    ensures Invariant(p, base, Do(p, s, t))
  {
    forall r | 0 <= r < |s.phase|
      ensures ReplicaInvariant(p, Do(p, s, t), r)
    {
      ReplicaKept(p, base, s, t, r);
    }
    if t.Commit? {
      assert ReplicaInvariant(p, s, t.replica);
      var n := |s.applied|;
      assert p.names[..n] + [p.names[n]] == p.names[..n + 1];
    }
  }

  lemma {:induction false} InvariantHolds<S>(p: Plan<S>, base: S, s: State<S>, run: seq<Step>)
    requires Distinct(p.names) && Invariant(p, base, s)
    ensures Invariant(p, base, After(p, s, run))
  {
    if run != [] {
      var init, t := run[..|run| - 1], run[|run| - 1];
      InvariantHolds(p, base, s, init);
      if Enabled(p, After(p, s, init), t) {
        InvariantKept(p, base, After(p, s, init), t);
      }
    }
  }

  // ---------- the theorems ----------

  /**
   Migration safety: from any prefix, for any number of replicas, any
   interleaving, failure or crash, and wherever the unlock lands, the committed
   versions are a longer prefix of the sorted names without repetition, the
   schema is the fold of that prefix, and a replica that returned nil has
   everything applied.
   */
  lemma MigrationSafe<S>(p: Plan<S>, base: S, k: nat, n: nat, run: seq<Step>)
    requires Distinct(p.names) && k <= |p.names| && Fold(p, base, k).Some?
    ensures var s := After(p, Start(p, base, k, n), run);
            && k <= |s.applied| <= |p.names|
            && s.applied == p.names[..|s.applied|] && Distinct(s.applied)
            && Fold(p, base, |s.applied|) == Some(s.schema)
            && (forall r :: 0 <= r < |s.phase| && s.phase[r] == Returned(true) ==> s.applied == p.names)
  {
    var start := Start(p, base, k, n);
    var s := After(p, start, run);
    InvariantHolds(p, base, start, run);
    AppliedGrows(p, start, run);
    forall r | 0 <= r < |s.phase| && s.phase[r] == Returned(true)
      ensures s.applied == p.names
    {
      assert ReplicaInvariant(p, s, r);
      assert p.names[..|p.names|] == p.names;
    }
  }

  /** Committed versions are never taken back. */
  lemma {:induction false} AppliedGrows<S>(p: Plan<S>, s: State<S>, run: seq<Step>)
    ensures s.applied <= After(p, s, run).applied
  {
    if run != [] {
      AppliedGrows(p, s, run[..|run| - 1]);
    }
  }

  // ---------- what the advisory lock is worth ----------

  /** A replica is between its lock and its unlock. */
  predicate Inside<S>(at: Phase<S>) {
    at.At? || at.Missing? || at.Ran? || at.Inserted?
  }

  /** Each session belongs to the pool of one replica, and replicas use their own. */
  ghost predicate Pooled(owner: nat -> nat, run: seq<Step>) {
    forall i :: 0 <= i < |run| && (run[i].Acquire? || run[i].Unlock?) ==> owner(run[i].session) == run[i].replica
  }

  /** The step ends the session that holds the lock while its replica is still inside. */
  predicate LosesLock<S>(owner: nat -> nat, s: State<S>, t: Step) {
    && t.Close? && s.holder == Some(t.session)
    && owner(t.session) < |s.phase| && Inside(s.phase[owner(t.session)])
  }

  ghost predicate LockKept<S>(owner: nat -> nat, p: Plan<S>, s: State<S>, run: seq<Step>) {
    run == [] ||
    (LockKept(owner, p, s, run[..|run| - 1]) && !LosesLock(owner, After(p, s, run[..|run| - 1]), run[|run| - 1]))
  }

  /** The lock is held by a session of the replica inside, and never by one of a replica that has not taken it. */
  ghost predicate LockInvariant<S>(owner: nat -> nat, s: State<S>, kept: bool) {
    forall r :: 0 <= r < |s.phase| ==>
      && (kept && Inside(s.phase[r]) ==> s.holder.Some? && owner(s.holder.value) == r)
      && (s.phase[r].Locking? && s.holder.Some? ==> owner(s.holder.value) != r)
  }

  lemma LockInvariantKept<S>(owner: nat -> nat, p: Plan<S>, s: State<S>, t: Step, kept: bool)
    requires LockInvariant(owner, s, kept) && Pooled(owner, [t])
    ensures LockInvariant(owner, Try(p, s, t), kept && !LosesLock(owner, s, t))
  {
    assert [t][0] == t;
  }

  lemma {:induction false} LockInvariantHolds<S>(
    owner: nat -> nat, p: Plan<S>, base: S, k: nat, n: nat, run: seq<Step>)
    requires k <= |p.names| && Fold(p, base, k).Some? && Pooled(owner, run)
    ensures var start := Start(p, base, k, n);
            LockInvariant(owner, After(p, start, run), LockKept(owner, p, start, run))
  {
    if run != [] {
      var init, t := run[..|run| - 1], run[|run| - 1];
      var start := Start(p, base, k, n);
      LockInvariantHolds(owner, p, base, k, n, init);
      LockInvariantKept(owner, p, After(p, start, init), t, LockKept(owner, p, start, init));
    }
  }

  /** While no session dies with the lock of a replica at work, at most one replica is ever inside. */
  lemma LockExcludes<S>(owner: nat -> nat, p: Plan<S>, base: S, k: nat, n: nat, run: seq<Step>, r: nat, q: nat)
    requires k <= |p.names| && Fold(p, base, k).Some? && Pooled(owner, run)
    requires LockKept(owner, p, Start(p, base, k, n), run)
    requires var s := After(p, Start(p, base, k, n), run);
             r < |s.phase| && q < |s.phase| && Inside(s.phase[r]) && Inside(s.phase[q])
    ensures r == q
  {
    LockInvariantHolds(owner, p, base, k, n, run);
  }

  /** At any time another replica gets in, on a session of its own, if and only if nobody holds the lock. */
  lemma EntersIffFree<S>(
    owner: nat -> nat, p: Plan<S>, base: S, k: nat, n: nat, run: seq<Step>, q: nat, session: nat)
    requires k <= |p.names| && Fold(p, base, k).Some? && Pooled(owner, run) && owner(session) == q
    requires var s := After(p, Start(p, base, k, n), run); q < |s.phase| && s.phase[q].Locking?
    ensures var s := After(p, Start(p, base, k, n), run);
            Enabled(p, s, Acquire(q, session)) <==> s.holder.None?
  {
    LockInvariantHolds(owner, p, base, k, n, run);
  }

  /**
   Exactly what breaks the exclusion: with replica `r` inside and the lock
   kept so far, one more step lets a waiting replica `q` in beside it if and
   only if that step ends the session that holds the lock.
   */
  lemma SecondEntryIffLockLost<S>(
    owner: nat -> nat, p: Plan<S>, base: S, k: nat, n: nat, run: seq<Step>, t: Step, r: nat, q: nat, session: nat)
    requires k <= |p.names| && Fold(p, base, k).Some? && Pooled(owner, run) && Pooled(owner, [t])
    requires LockKept(owner, p, Start(p, base, k, n), run) && owner(session) == q
    requires var s := After(p, Start(p, base, k, n), run);
             r < |s.phase| && q < |s.phase| && Inside(s.phase[r]) && s.phase[q].Locking?
    ensures var s := After(p, Start(p, base, k, n), run);
            var s' := Try(p, s, t);
            |s'.phase| == |s.phase| &&
            (LosesLock(owner, s, t) <==>
             && Inside(s'.phase[r]) && Enabled(p, s', Acquire(q, session))
             && Inside(Do(p, s', Acquire(q, session)).phase[r]))
  {
    LockInvariantHolds(owner, p, base, k, n, run);
    assert [t][0] == t;
  }

  /** Such a loss is reachable for any two replicas and any two sessions: the pool closes the first one's session. */
  lemma LockLossReachable<S>(p: Plan<S>, base: S, k: nat, n: nat, r: nat, q: nat, x: nat, y: nat)
    requires k <= |p.names| && Fold(p, base, k).Some? && r < n && q < n && r != q
    ensures var s := After(p, Start(p, base, k, n), [Acquire(r, x), Close(x), Acquire(q, y)]);
            |s.phase| == n && Inside(s.phase[r]) && Inside(s.phase[q])
  {
    var start := Start(p, base, k, n);
    AfterSnoc(p, start, [], Acquire(r, x));
    AfterSnoc(p, start, [Acquire(r, x)], Close(x));
    AfterSnoc(p, start, [Acquire(r, x), Close(x)], Acquire(q, y));
    assert [] + [Acquire(r, x)] == [Acquire(r, x)];
    assert [Acquire(r, x)] + [Close(x)] == [Acquire(r, x), Close(x)];
    assert [Acquire(r, x), Close(x)] + [Acquire(q, y)] == [Acquire(r, x), Close(x), Acquire(q, y)];
  }

  lemma AfterSnoc<S>(p: Plan<S>, s: State<S>, run: seq<Step>, t: Step)
    ensures After(p, s, run + [t]) == Try(p, After(p, s, run), t)
  {
    assert (run + [t])[..|run|] == run;
  }

  // ---------- going on, and when a replica fails ----------

  /** The lock is never taken twice at a time, so an unlock frees it exactly if it lands on the holding session. */
  lemma UnlockFreesIfHolder<S>(
    owner: nat -> nat, p: Plan<S>, base: S, k: nat, n: nat, run: seq<Step>, r: nat, session: nat)
    requires k <= |p.names| && Fold(p, base, k).Some? && Pooled(owner, run)
    requires var s := After(p, Start(p, base, k, n), run); r < |s.phase| && s.phase[r].Unlocking?
    ensures var s := After(p, Start(p, base, k, n), run);
            var s' := Try(p, s, Unlock(r, session));
            && s'.holder == (if s.holder == Some(session) then None else s.holder)
            && |s'.phase| == |s.phase| && s'.phase[r] == Returned(s.phase[r].ok)
  {
    TakenOnce(owner, p, base, k, n, run);
  }

  lemma {:induction false} TakenOnce<S>(owner: nat -> nat, p: Plan<S>, base: S, k: nat, n: nat, run: seq<Step>)
    requires k <= |p.names| && Fold(p, base, k).Some? && Pooled(owner, run)
    ensures var s := After(p, Start(p, base, k, n), run); s.depth == if s.holder.Some? then 1 else 0
  {
    if run != [] {
      var init, t := run[..|run| - 1], run[|run| - 1];
      TakenOnce(owner, p, base, k, n, init);
      LockInvariantHolds(owner, p, base, k, n, init);
      var start := Start(p, base, k, n);
      assert Pooled(owner, [t]);
      TakenOnceStep(owner, p, After(p, start, init), t, LockKept(owner, p, start, init));
    }
  }

  lemma TakenOnceStep<S>(owner: nat -> nat, p: Plan<S>, s: State<S>, t: Step, kept: bool)
    requires LockInvariant(owner, s, kept) && Pooled(owner, [t]) && s.depth == if s.holder.Some? then 1 else 0
    ensures var s' := Try(p, s, t); s'.depth == if s'.holder.Some? then 1 else 0
  {
    assert [t][0] == t;
  }

  /** Only a replica that has taken the lock comes to work, and to unlock; one whose lock fails returns at once. */
  lemma {:induction false} OnlyLockersUnlock<S>(p: Plan<S>, base: S, k: nat, n: nat, run: seq<Step>, r: nat)
    returns (i: nat)
    requires k <= |p.names| && Fold(p, base, k).Some?
    requires var s := After(p, Start(p, base, k, n), run);
             r < |s.phase| && (Inside(s.phase[r]) || s.phase[r].Unlocking?)
    ensures i < |run| && run[i].Acquire? && run[i].replica == r
  {
    i := 0;
    if run != [] {
      var init, t := run[..|run| - 1], run[|run| - 1];
      if t.Acquire? && t.replica == r {
        i := |run| - 1;
      } else {
        i := OnlyLockersUnlock(p, base, k, n, init, r);
      }
    }
  }

  /** The check skips exactly the migrations that are applied. */
  lemma CheckSkipsApplied<S>(p: Plan<S>, base: S, k: nat, n: nat, run: seq<Step>, r: nat)
    requires Distinct(p.names) && k <= |p.names| && Fold(p, base, k).Some?
    requires var s := After(p, Start(p, base, k, n), run);
             r < |s.phase| && s.phase[r].At? && s.phase[r].next < |p.names|
    ensures var s := After(p, Start(p, base, k, n), run);
            var s', i := Try(p, s, Check(r)), s.phase[r].next;
            && |s'.phase| == |s.phase| && s'.applied == s.applied && s'.schema == s.schema
            && s'.phase[r] == if i < |s.applied| then At(i + 1) else Missing(i)
  {
    InvariantHolds(p, base, Start(p, base, k, n), run);
    var s := After(p, Start(p, base, k, n), run);
    PrefixMember(p.names, |s.applied|, s.phase[r].next);
  }

  /** Open transactions hold what they have inserted, and nobody works beyond the list. */
  ghost predicate WorkInvariant<S>(p: Plan<S>, s: State<S>) {
    && (forall v :: v in s.pending ==> s.pending[v] < |s.phase| && s.phase[s.pending[v]].Inserted?)
    && (forall r :: 0 <= r < |s.phase| ==>
          (s.phase[r].Missing? || s.phase[r].Ran? || s.phase[r].Inserted? ==> s.phase[r].next < |p.names|))
  }

  lemma {:induction false} WorkInvariantHolds<S>(p: Plan<S>, s: State<S>, run: seq<Step>)
    requires WorkInvariant(p, s)
    ensures WorkInvariant(p, After(p, s, run))
  {
    if run != [] {
      var init, t := run[..|run| - 1], run[|run| - 1];
      WorkInvariantHolds(p, s, init);
      WorkInvariantKept(p, After(p, s, init), t);
    }
  }

  lemma WorkInvariantKept<S>(p: Plan<S>, s: State<S>, t: Step)
    requires WorkInvariant(p, s)
    ensures WorkInvariant(p, Try(p, s, t))
  {
  }

  /** A step of the work itself, as opposed to a failure, a crash or the loss of a session. */
  predicate Works(t: Step) {
    t.Check? || t.Exec? || t.Record? || t.Commit? || t.Finish?
  }

  /**
   Nobody inside is stuck: in every run, while a replica is inside, it or the
   replica whose open transaction it waits for can do its next statement,
   unless the script it is about to run fails on the present schema.
   */
  lemma NeverStuck<S>(p: Plan<S>, base: S, k: nat, n: nat, run: seq<Step>, r: nat) returns (t: Step)
    requires k <= |p.names| && Fold(p, base, k).Some?
    requires var s := After(p, Start(p, base, k, n), run); r < |s.phase| && Inside(s.phase[r])
    ensures var s := After(p, Start(p, base, k, n), run);
            || (Works(t) && Enabled(p, s, t))
            || (s.phase[r].Missing? && s.phase[r].next < |p.names|
                && p.script(p.names[s.phase[r].next], s.schema).None?)
  {
    var start := Start(p, base, k, n);
    WorkInvariantHolds(p, start, run);
    var s := After(p, start, run);
    match s.phase[r]
    case At(i) => t := if i < |p.names| then Check(r) else Finish(r);
    case Missing(_) => t := Exec(r);
    case Ran(i, _) => t := if p.names[i] in s.pending then Commit(s.pending[p.names[i]]) else Record(r);
    case Inserted(_, _) => t := Commit(r);
  }

  /** While the lock is kept, the replica at work is at the first migration that is missing. */
  ghost predicate AtFrontier<S>(s: State<S>, kept: bool) {
    kept ==>
      forall r :: 0 <= r < |s.phase| && (s.phase[r].Missing? || s.phase[r].Ran? || s.phase[r].Inserted?) ==>
        s.phase[r].next == |s.applied|
  }

  lemma AtFrontierKept<S>(owner: nat -> nat, p: Plan<S>, base: S, s: State<S>, t: Step, kept: bool)
    requires Distinct(p.names) && Invariant(p, base, s) && LockInvariant(owner, s, kept)
    requires AtFrontier(s, kept)
    ensures AtFrontier(Try(p, s, t), kept && !LosesLock(owner, s, t))
  {
    if Enabled(p, s, t) && t.Check? {
      assert ReplicaInvariant(p, s, t.replica);
      PrefixMember(p.names, |s.applied|, s.phase[t.replica].next);
    }
  }

  lemma {:induction false} AtFrontierHolds<S>(
    owner: nat -> nat, p: Plan<S>, base: S, k: nat, n: nat, run: seq<Step>)
    requires Distinct(p.names) && k <= |p.names| && Fold(p, base, k).Some? && Pooled(owner, run)
    ensures var start := Start(p, base, k, n); AtFrontier(After(p, start, run), LockKept(owner, p, start, run))
  {
    if run != [] {
      var init, t := run[..|run| - 1], run[|run| - 1];
      var start := Start(p, base, k, n);
      AtFrontierHolds(owner, p, base, k, n, init);
      InvariantHolds(p, base, start, init);
      LockInvariantHolds(owner, p, base, k, n, init);
      AtFrontierKept(owner, p, base, After(p, start, init), t, LockKept(owner, p, start, init));
    }
  }

  predicate Errs<S>(at: Phase<S>) {
    at == Unlocking(false) || at == Returned(false)
  }

  /**
   When an error is possible at all: a replica returns one only if one of its
   own statements failed, or the session that held the lock died under a
   replica at work, so that two could race for the same version row.
   */
  lemma {:induction false} ErrorNeedsFault<S>(
    owner: nat -> nat, p: Plan<S>, base: S, k: nat, n: nat, run: seq<Step>, r: nat)
    requires Distinct(p.names) && k <= |p.names| && Fold(p, base, k).Some? && Pooled(owner, run)
    requires var s := After(p, Start(p, base, k, n), run); r < |s.phase| && Errs(s.phase[r])
    ensures Fail(r) in run || !LockKept(owner, p, Start(p, base, k, n), run)
  {
    if run != [] {
      var init, t := run[..|run| - 1], run[|run| - 1];
      var start := Start(p, base, k, n);
      var s := After(p, start, init);
      if Errs(s.phase[r]) {
        ErrorNeedsFault(owner, p, base, k, n, init, r);
      } else if t.Record? {
        AtFrontierHolds(owner, p, base, k, n, init);
        InvariantHolds(p, base, start, init);
        PrefixMember(p.names, |s.applied|, s.phase[r].next);
      }
      assert t in run;
    }
  }

  // ---------- one replica, statement by statement ----------

  class Database<!S(0)> {
    var versions: seq<string>
    var schema: S

    constructor (base: S)
      ensures versions == [] && schema == base
    {
      versions, schema := [], base;
    }

    /** The script and its version row in one transaction: both, or neither if the row exists or the commit fails. */
    method Apply(p: Plan<S>, version: string, commits: bool) returns (ok: bool)
      modifies this
      ensures ok <==> commits && p.script(version, old(schema)).Some? && version !in old(versions)
      ensures ok ==> versions == old(versions) + [version] && Some(schema) == p.script(version, old(schema))
      ensures !ok ==> versions == old(versions) && schema == old(schema)
    {
      match p.script(version, schema)
      case None =>
        return false;
      case Some(result) =>
        if version in versions || !commits {
          return false;
        }
        versions, schema := versions + [version], result;
        return true;
    }

    /**
     The loop of Migrate when nobody else is at work; `healthy` statements
     succeed before one fails. It takes one check per migration and one
     transaction per missing one.
     */
    method Migrate(p: Plan<S>, base: S, healthy: nat) returns (ok: bool)
      requires Distinct(p.names)
      requires |versions| <= |p.names| && versions == p.names[..|versions|] && Fold(p, base, |versions|) == Some(schema)
      modifies this
      ensures old(versions) <= versions && |versions| <= |p.names| && versions == p.names[..|versions|]
      ensures Fold(p, base, |versions|) == Some(schema)
      ensures ok ==> versions == p.names
      ensures ok <==> healthy >= 2 * |p.names| - |old(versions)| && Fold(p, base, |p.names|).Some?
    {
      var i, spent := 0, 0;
      while i < |p.names|
        invariant i <= |p.names| && i <= |versions| <= |p.names| && spent <= healthy
        invariant |versions| == (if i <= |old(versions)| then |old(versions)| else i)
        invariant spent == i + |versions| - |old(versions)|
        invariant old(versions) <= versions && versions == p.names[..|versions|]
        invariant Fold(p, base, |versions|) == Some(schema)
      {
        PrefixMember(p.names, |versions|, i);
        if spent >= healthy {
          return false;
        }
        spent := spent + 1;
        if p.names[i] !in versions {
          var commits := spent < healthy;
          ok := Apply(p, p.names[i], commits);
          if !ok {
            if commits {
              FoldFails(p, base, i + 1, |p.names|);
            }
            return false;
          }
          spent := spent + 1;
          assert p.names[..i] + [p.names[i]] == p.names[..i + 1];
        }
        i := i + 1;
      }
      assert p.names[..|p.names|] == p.names;
      return true;
    }
  }

  lemma {:induction false} FoldFails<S>(p: Plan<S>, base: S, k: nat, n: nat)
    requires k <= n <= |p.names| && Fold(p, base, k).None?
    ensures Fold(p, base, n).None?
  {
    if k < n {
      FoldFails(p, base, k, n - 1);
    }
  }
}
