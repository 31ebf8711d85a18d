/**
 Key management under concurrency: any number of service calls and
 authenticated requests, interleaved between the separately locked operations
 of the in-memory store.
 */
module KeyRuns {
  import opened Wrappers
  import opened KeyStore
  import opened KeyService

  datatype Task =
    | Create(input: Input, secret: Option<string>)
    | Revoke(id: int)
    | Rotate(id: int, secret: Option<string>)
    | Bootstrap(configured: string, secret: Option<string>)
    | Visit(header: string)

  datatype Outcome = Nil | IssuedKey(hash: string) | Failed(error: Error) | Refused(verdict: Verdict) | Served

  /** Where a task stands between two store operations. */
  datatype Progress =
    | Ready
    | Chosen(current: Key)        // Rotate has listed the keys and found its own
    | Replaced(hash: string)      // Rotate has created the replacement
    | Seeding(plaintext: string)  // Bootstrap has found its key missing
    | Admitted(id: int)           // the request passed Auth; its key is yet to be touched
    | Finished(outcome: Outcome)

  datatype World = World(tasks: seq<Task>, h: Hash)

  datatype State = State(store: Store, progress: seq<Progress>)

  /**
   The named task performs its next store operation, reading the clock at
   `now` and, if it creates a key after validating it, again at `later`.
   */
  datatype Step = Step(task: nat, now: int, later: int)

  function OutcomeOf(r: Result<Key, Error>): Outcome {
    match r
    case Ok(key) => IssuedKey(key.hash)
    case Err(e) => Failed(e)
  }

  /** The next operation of one task: what it makes of the store and of itself. */
  function Next(h: Hash, task: Task, at: Progress, s: Store, now: int, later: int): (Store, Progress)
    requires Consistent(s)
  {
    match (task, at)
    case (Create(input, secret), Ready) =>
      var (s', r) := Creating(s, input, h, secret, now, later);
      (s', Finished(OutcomeOf(r)))
    case (Revoke(id), Ready) =>
      if id in s.byID then (Revoked(s, id, now), Finished(Nil)) else (s, Finished(Failed(NotFound)))
    case (Rotate(id, _), Ready) =>
      if id in s.byID then assert IdBound(s, id); (s, Chosen(s.keys[s.byID[id]])) else (s, Finished(Failed(NotFound)))
    case (Rotate(_, secret), Chosen(current)) =>
      var (s', r) := Creating(s, InputFrom(current), h, secret, now, later);
      (s', if r.Ok? then Replaced(r.value.hash) else Finished(Failed(r.error)))
    case (Rotate(id, _), Replaced(hash)) =>
      if id in s.byID then (Revoked(s, id, now), Finished(IssuedKey(hash))) else (s, Finished(Failed(NotFound)))
    case (Bootstrap(configured, secret), Ready) =>
      if configured == "" then
        if |s.keys| > 0 then (s, Finished(Nil))
        else if secret.None? then (s, Finished(Failed(NoEntropy)))
        else (s, Seeding(secret.value))
      else if h(configured) in s.keys then (s, Finished(Nil))
      else (s, Seeding(configured))
    case (Bootstrap(_, _), Seeding(plaintext)) => (Created(s, SeedKey(h(plaintext)), now), Finished(Nil))
    case (Visit(header), Ready) =>
      var v := Authenticate(s, header, h, now);
      (s, if v.Accepted? then Admitted(v.key.id) else Finished(Refused(v)))
    case (Visit(_), Admitted(id)) => (Touched(s, id, now), Finished(Served))
    case _ => (s, at)
  }

  function Do(w: World, s: State, t: Step): State
    requires Consistent(s.store) && |s.progress| == |w.tasks|
  {
    if t.task >= |w.tasks| then s
    else
      var (store, at) := Next(w.h, w.tasks[t.task], s.progress[t.task], s.store, t.now, t.later);
      State(store, s.progress[t.task := at])
  }

  lemma NextConsistent(h: Hash, task: Task, at: Progress, s: Store, now: int, later: int)
    requires Consistent(s)
    ensures Consistent(Next(h, task, at, s, now, later).0)
  {
    match (task, at)
    case (Create(input, secret), Ready) =>
      if secret.Some? { CreatedConsistent(s, NewKey(input, h(secret.value)), later); }
    case (Revoke(id), Ready) => RevokedConsistent(s, id, now);
    case (Rotate(_, secret), Chosen(current)) =>
      if secret.Some? { CreatedConsistent(s, NewKey(InputFrom(current), h(secret.value)), later); }
    case (Rotate(id, _), Replaced(hash)) => RevokedConsistent(s, id, now);
    case (Bootstrap(_, _), Seeding(plaintext)) => CreatedConsistent(s, SeedKey(h(plaintext)), now);
    case (Visit(_), Admitted(id)) => TouchedConsistent(s, id, now);
    case _ =>
  }

  /** All tasks at their beginning, over a given store. */
  function Start(w: World, store: Store): State {
    State(store, seq(|w.tasks|, _ => Ready))
  }

  /** Any sequence of steps is a run; the step of a finished task changes nothing. */
  function After(w: World, s: State, run: seq<Step>): (s': State)
    requires Consistent(s.store) && |s.progress| == |w.tasks|
    ensures Consistent(s'.store) && |s'.progress| == |w.tasks|
  {
    if run == [] then s
    else
      var s1, t := After(w, s, run[..|run| - 1]), run[|run| - 1];
      if t.task < |w.tasks| then
        NextConsistent(w.h, w.tasks[t.task], s1.progress[t.task], s1.store, t.now, t.later);
        Do(w, s1, t)
      else s1
  }

  lemma {:induction false} AfterConcat(w: World, s: State, before: seq<Step>, later: seq<Step>)
    requires Consistent(s.store) && |s.progress| == |w.tasks|
    ensures After(w, s, before + later) == After(w, After(w, s, before), later)
  {
    if later == [] {
      assert before + later == before;
    } else {
      AfterConcat(w, s, before, later[..|later| - 1]);
      assert (before + later)[..|before + later| - 1] == before + later[..|later| - 1];
    }
  }

  // ---------- what no step takes back ----------

  /** The record stays bound to its hash and id, keeps its profile, and once revoked stays revoked. */
  ghost predicate Lives(s: Store, s': Store, hash: string)
    requires hash in s.keys
  {
    hash in s'.keys &&
    var k, k' := s.keys[hash], s'.keys[hash];
    && k'.id == k.id && k'.hash == k.hash && Profile(k') == Profile(k) && k'.createdAt == k.createdAt
    && (k.revokedAt.Some? ==> k'.revokedAt.Some?)
  }

  ghost predicate Evolves(s: Store, s': Store) {
    && (forall id :: id in s.byID ==> id in s'.byID && s'.byID[id] == s.byID[id])
    && (forall hash {:trigger Lives(s, s', hash)} :: hash in s.keys ==> Lives(s, s', hash))
  }

  lemma CreatedEvolves(s: Store, key: Key, now: int)
    requires Consistent(s)
    ensures Evolves(s, Created(s, key, now))
  {
  }

  lemma MarkedEvolves(s: Store, id: int, now: int)
    requires Consistent(s)
    ensures Evolves(s, Revoked(s, id, now)) && Evolves(s, Touched(s, id, now))
  {
    assert id in s.byID ==> IdBound(s, id);
  }

  lemma NextEvolves(h: Hash, task: Task, at: Progress, s: Store, now: int, later: int)
    requires Consistent(s)
    ensures Evolves(s, Next(h, task, at, s, now, later).0)
  {
    match (task, at)
    case (Create(input, secret), Ready) =>
      if secret.Some? { CreatedEvolves(s, NewKey(input, h(secret.value)), later); }
    case (Revoke(id), Ready) => MarkedEvolves(s, id, now);
    case (Rotate(_, secret), Chosen(current)) =>
      if secret.Some? { CreatedEvolves(s, NewKey(InputFrom(current), h(secret.value)), later); }
    case (Rotate(id, _), Replaced(hash)) => MarkedEvolves(s, id, now);
    case (Bootstrap(_, _), Seeding(plaintext)) => CreatedEvolves(s, SeedKey(h(plaintext)), now);
    case (Visit(_), Admitted(id)) => MarkedEvolves(s, id, now);
    case _ =>
  }

  lemma EvolvesTrans(a: Store, b: Store, c: Store)
    requires Evolves(a, b) && Evolves(b, c)
    ensures Evolves(a, c)
  {
    forall hash | hash in a.keys ensures Lives(a, c, hash) {
      assert Lives(a, b, hash) && Lives(b, c, hash);
    }
  }

  lemma {:induction false} RunEvolves(w: World, s: State, run: seq<Step>)
    requires Consistent(s.store) && |s.progress| == |w.tasks|
    ensures Evolves(s.store, After(w, s, run).store)
  {
    if run != [] {
      var init, t := run[..|run| - 1], run[|run| - 1];
      RunEvolves(w, s, init);
      var s1 := After(w, s, init);
      if t.task < |w.tasks| {
        NextEvolves(w.h, w.tasks[t.task], s1.progress[t.task], s1.store, t.now, t.later);
        EvolvesTrans(s.store, s1.store, After(w, s, run).store);
      }
    }
  }

  // ---------- revocation is permanent ----------

  /** Whatever runs afterwards, a revoked record stays bound to its hash and id, and stays revoked. */
  lemma {:induction false} RevokedForever(w: World, start: Store, before: seq<Step>, later: seq<Step>, hash: string)
    requires Consistent(start)
    requires var s := After(w, Start(w, start), before).store; hash in s.keys && s.keys[hash].revokedAt.Some?
    ensures var s, s' := After(w, Start(w, start), before).store, After(w, Start(w, start), before + later).store;
            hash in s'.keys && s'.keys[hash].id == s.keys[hash].id && s'.keys[hash].revokedAt.Some?
  {
    var mid := After(w, Start(w, start), before);
    AfterConcat(w, Start(w, start), before, later);
    RunEvolves(w, mid, later);
    assert Lives(mid.store, After(w, mid, later).store, hash);
  }

  /** A request has been let through. */
  predicate Passed(at: Progress) {
    at.Admitted? || at == Finished(Served)
  }

  /** A request that comes after the revocation has not been looked up yet, or was refused for it. */
  predicate NotPassed(header: string, at: Progress) {
    at == Ready || at == Finished(Refused(if header == "" then MissingKey else RevokedOrExpired))
  }

  /**
   Once the record of a key is revoked, a request with that key whose lookup
   has not happened yet never passes, whatever is created, rotated, seeded,
   revoked or touched in the meantime.
   */
  lemma {:induction false} RevokedRecordNeverPasses(
    w: World, start: Store, before: seq<Step>, later: seq<Step>, c: nat)
    requires Consistent(start) && c < |w.tasks| && w.tasks[c].Visit?
    requires var s := After(w, Start(w, start), before);
             && w.h(w.tasks[c].header) in s.store.keys
             && s.store.keys[w.h(w.tasks[c].header)].revokedAt.Some?
             && s.progress[c] == Ready
    ensures NotPassed(w.tasks[c].header, After(w, Start(w, start), before + later).progress[c])
    decreases |later|
  {
    if later == [] {
      assert before + later == before;
    } else {
      var init, t := later[..|later| - 1], later[|later| - 1];
      RevokedRecordNeverPasses(w, start, before, init, c);
      RevokedForever(w, start, before, init, w.h(w.tasks[c].header));
      assert (before + later)[..|before + later| - 1] == before + init;
      var s := After(w, Start(w, start), before + init);
      if t.task == c {
        RevokedRefused(w.h, w.tasks[c], s.progress[c], s.store, t.now, t.later);
      }
    }
  }

  lemma RevokedRefused(h: Hash, task: Task, at: Progress, s: Store, now: int, later: int)
    requires Consistent(s) && task.Visit? && h(task.header) in s.keys && s.keys[h(task.header)].revokedAt.Some?
    requires NotPassed(task.header, at)
    ensures NotPassed(task.header, Next(h, task, at, s, now, later).1)
  {
    AcceptedIff(s, task.header, h, now);
  }

  // ---------- what a success has done ----------

  ghost predicate RevokedById(s: Store, id: int) {
    id in s.byID && s.byID[id] in s.keys && s.keys[s.byID[id]].revokedAt.Some?
  }

  /** The task has returned without error after revoking key `id`: a revocation, or a rotation of that key. */
  predicate Retired(task: Task, at: Progress, id: int) {
    match task
    case Revoke(i) => i == id && at == Finished(Nil)
    case Rotate(i, _) => i == id && at.Finished? && at.outcome.IssuedKey?
    case _ => false
  }

  /** What the caller of a task may rely on from its return on. */
  ghost predicate Delivered(h: Hash, task: Task, at: Progress, s: Store) {
    match task
    case Create(input, secret) =>
      && (at.Finished? ==> at.outcome.IssuedKey? || at.outcome.Failed?)
      && (at.Finished? && at.outcome.IssuedKey? ==>
            && secret.Some? && at.outcome.hash == h(secret.value) && at.outcome.hash in s.keys
            && Profile(s.keys[at.outcome.hash]) ==
               (input.name, if input.rank == "" then "member" else input.rank, input.scopes, input.expiresAt))
    case Revoke(id) =>
      at == Ready || at == Finished(Failed(NotFound)) || (at == Finished(Nil) && RevokedById(s, id))
    case Rotate(id, _) =>
      && (at.Finished? ==> at.outcome.IssuedKey? || at.outcome.Failed?)
      && (Retired(task, at, id) ==> RevokedById(s, id))
    case _ => true
  }

  lemma DeliveredStable(h: Hash, task: Task, at: Progress, s: Store, s': Store)
    requires Delivered(h, task, at, s) && Evolves(s, s')
    ensures Delivered(h, task, at, s')
  {
    if task.Create? && at.Finished? && at.outcome.IssuedKey? {
      assert Lives(s, s', at.outcome.hash);
    } else if (task.Revoke? || task.Rotate?) && RevokedById(s, task.id) {
      assert Lives(s, s', s.byID[task.id]);
    }
  }

  lemma DeliveredSteps(h: Hash, task: Task, at: Progress, s: Store, now: int, later: int)
    requires Consistent(s) && Delivered(h, task, at, s)
    ensures var (s', at') := Next(h, task, at, s, now, later); Delivered(h, task, at', s')
  {
    if (task.Revoke? || task.Rotate?) && task.id in s.byID {
      assert IdBound(s, task.id);
    }
  }

  /**
   In any interleaving a success keeps its word: a created key is stored under
   its own hash with what was asked for, and a revocation or rotation that
   returned without error has left its key revoked.
   */
  lemma {:induction false} SuccessDelivers(w: World, start: Store, run: seq<Step>, d: nat)
    requires Consistent(start) && d < |w.tasks|
    ensures var s := After(w, Start(w, start), run); Delivered(w.h, w.tasks[d], s.progress[d], s.store)
  {
    if run != [] {
      var init, t := run[..|run| - 1], run[|run| - 1];
      SuccessDelivers(w, start, init, d);
      var s, s' := After(w, Start(w, start), init), After(w, Start(w, start), run);
      if t.task < |w.tasks| {
        NextEvolves(w.h, w.tasks[t.task], s.progress[t.task], s.store, t.now, t.later);
        if t.task == d {
          DeliveredSteps(w.h, w.tasks[d], s.progress[d], s.store, t.now, t.later);
        } else {
          DeliveredStable(w.h, w.tasks[d], s.progress[d], s.store, s'.store);
        }
      }
    }
  }

  /** Keys are never lost: revoking or rotating a key that existed at the start never reports not-found. */
  lemma {:induction false} KeyIsFound(w: World, start: Store, run: seq<Step>, d: nat)
    requires Consistent(start) && d < |w.tasks|
    requires (w.tasks[d].Revoke? || w.tasks[d].Rotate?) && w.tasks[d].id in start.byID
    ensures After(w, Start(w, start), run).progress[d] != Finished(Failed(NotFound))
  {
    if run != [] {
      var init := run[..|run| - 1];
      KeyIsFound(w, start, init, d);
      RunEvolves(w, Start(w, start), init);
    }
  }

  /**
   Permanent revocation: once a Revoke of a key, or a rotation of it, has
   returned without error, no request with that key whose lookup comes
   afterwards ever passes, whatever runs in the meantime.
   */
  lemma {:induction false} RevokedNeverPasses(
    w: World, start: Store, before: seq<Step>, later: seq<Step>, d: nat, id: int, c: nat)
    requires Consistent(start) && d < |w.tasks| && c < |w.tasks| && w.tasks[c].Visit?
    requires var s := After(w, Start(w, start), before);
             && Retired(w.tasks[d], s.progress[d], id)
             && (id in s.store.byID ==> s.store.byID[id] == w.h(w.tasks[c].header))
             && s.progress[c] == Ready
    ensures id in After(w, Start(w, start), before).store.byID
    ensures NotPassed(w.tasks[c].header, After(w, Start(w, start), before + later).progress[c])
    ensures !Passed(After(w, Start(w, start), before + later).progress[c])
  {
    SuccessDelivers(w, start, before, d);
    RevokedRecordNeverPasses(w, start, before, later, c);
  }

  // ---------- which requests and creations succeed ----------

  /** At its lookup a request passes if and only if its key is stored, unrevoked and unexpired then. */
  lemma {:induction false} VisitPassesIff(w: World, start: Store, run: seq<Step>, c: nat, now: int, later: int)
    requires Consistent(start) && c < |w.tasks| && w.tasks[c].Visit?
    requires After(w, Start(w, start), run).progress[c] == Ready
    ensures var s, s' := After(w, Start(w, start), run), After(w, Start(w, start), run + [Step(c, now, later)]);
            var header, hash := w.tasks[c].header, w.h(w.tasks[c].header);
            && s'.store == s.store
            && s'.progress[c] ==
               if header == "" then Finished(Refused(MissingKey))
               else if hash !in s.store.keys then Finished(Refused(InvalidKey))
               else if Dead(s.store.keys[hash], now) then Finished(Refused(RevokedOrExpired))
               else Admitted(s.store.keys[hash].id)
  {
    var s := After(w, Start(w, start), run);
    assert (run + [Step(c, now, later)])[..|run|] == run;
    AcceptedIff(s.store, w.tasks[c].header, w.h, now);
  }

  /** A creation succeeds if and only if its input is acceptable, randomness works and the hash is unused then. */
  lemma {:induction false} CreateSucceedsIff(w: World, start: Store, run: seq<Step>, c: nat, now: int, later: int)
    requires Consistent(start) && c < |w.tasks| && w.tasks[c].Create?
    requires After(w, Start(w, start), run).progress[c] == Ready
    ensures var s, s' := After(w, Start(w, start), run), After(w, Start(w, start), run + [Step(c, now, later)]);
            var input, secret := w.tasks[c].input, w.tasks[c].secret;
            && s'.progress[c].Finished?
            && (s'.progress[c].outcome.IssuedKey? <==>
                Acceptable(input, now) && secret.Some? && w.h(secret.value) !in s.store.keys)
            && (!s'.progress[c].outcome.IssuedKey? ==> s'.store == s.store)
  {
    var s := After(w, Start(w, start), run);
    assert (run + [Step(c, now, later)])[..|run|] == run;
    CreationEffect(s.store, w.tasks[c].input, w.h, w.tasks[c].secret, now, later);
  }

  // ---------- every task comes to an end ----------

  function StepsOf(run: seq<Step>, c: nat): nat {
    if run == [] then 0 else StepsOf(run[..|run| - 1], c) + if run[|run| - 1].task == c then 1 else 0
  }

  /** How many store operations an unfinished task has behind it. */
  predicate HasDone(task: Task, at: Progress, n: nat) {
    match at
    case Ready => n == 0
    case Chosen(_) => task.Rotate? && n == 1
    case Replaced(_) => task.Rotate? && n == 2
    case Seeding(_) => task.Bootstrap? && n == 1
    case Admitted(_) => task.Visit? && n == 1
    case Finished(_) => n >= 1
  }

  lemma HasDoneStep(h: Hash, task: Task, at: Progress, s: Store, now: int, later: int, n: nat)
    requires Consistent(s) && HasDone(task, at, n)
    ensures HasDone(task, Next(h, task, at, s, now, later).1, n + 1)
  {
  }

  /** Nothing blocks: whatever the others do, a task is finished after three operations of its own at most. */
  lemma {:induction false} FinishesInThree(w: World, start: Store, run: seq<Step>, c: nat)
    requires Consistent(start) && c < |w.tasks|
    ensures HasDone(w.tasks[c], After(w, Start(w, start), run).progress[c], StepsOf(run, c))
    ensures StepsOf(run, c) >= 3 ==> After(w, Start(w, start), run).progress[c].Finished?
  {
    if run != [] {
      var init, t := run[..|run| - 1], run[|run| - 1];
      FinishesInThree(w, start, init, c);
      var s := After(w, Start(w, start), init);
      if t.task == c {
        HasDoneStep(w.h, w.tasks[c], s.progress[c], s.store, t.now, t.later, StepsOf(init, c));
      }
    }
  }

  // ---------- what requests leave behind ----------

  predicate IsFor(w: World, task: Task, hash: string) {
    task.Visit? && w.h(task.header) == hash
  }

  /** The requests with this key that were served. */
  function ServedBy(w: World, s: State, hash: string): set<int>
    requires |s.progress| == |w.tasks|
  {
    set c | 0 <= c < |w.tasks| && IsFor(w, w.tasks[c], hash) && s.progress[c] == Finished(Served)
  }

  /** The request count of a key; a key that does not exist has none. */
  function Uses(s: Store, hash: string): int {
    if hash in s.keys then s.keys[hash].requestCount else 0
  }

  /** A request that passed will touch the key it came with. */
  ghost predicate AdmittedOwn(h: Hash, task: Task, at: Progress, s: Store) {
    task.Visit? && at.Admitted? ==> at.id in s.byID && s.byID[at.id] == h(task.header)
  }

  lemma UsesStep(h: Hash, task: Task, at: Progress, s: Store, now: int, later: int, hash: string)
    requires Consistent(s) && AdmittedOwn(h, task, at, s)
    ensures Uses(Next(h, task, at, s, now, later).0, hash) ==
            Uses(s, hash) + if task.Visit? && at.Admitted? && h(task.header) == hash then 1 else 0
  {
    if task.Visit? && at.Admitted? {
      assert IdBound(s, at.id);
    } else if (task.Revoke? || task.Rotate?) && task.id in s.byID {
      assert IdBound(s, task.id);
    }
  }

  lemma AdmittedOwnStep(h: Hash, task: Task, at: Progress, s: Store, now: int, later: int)
    requires Consistent(s)
    ensures var (s', at') := Next(h, task, at, s, now, later);
            at' != at ==> AdmittedOwn(h, task, at', s')
  {
    if task.Visit? && at == Ready {
      AcceptedIff(s, task.header, h, now);
      assert h(task.header) in s.keys ==> HashBound(s, h(task.header));
    }
  }

  lemma {:induction false} AdmittedOwnHolds(w: World, start: Store, run: seq<Step>, c: nat)
    requires Consistent(start) && c < |w.tasks|
    ensures var s := After(w, Start(w, start), run); AdmittedOwn(w.h, w.tasks[c], s.progress[c], s.store)
  {
    if run != [] {
      var init, t := run[..|run| - 1], run[|run| - 1];
      AdmittedOwnHolds(w, start, init, c);
      var s := After(w, Start(w, start), init);
      if t.task < |w.tasks| {
        NextEvolves(w.h, w.tasks[t.task], s.progress[t.task], s.store, t.now, t.later);
        AdmittedOwnStep(w.h, w.tasks[t.task], s.progress[t.task], s.store, t.now, t.later);
      }
    }
  }

  /** Conservation: in any interleaving the request count of a key grows by exactly the requests served with it. */
  lemma {:induction false} RequestsCounted(w: World, start: Store, run: seq<Step>, hash: string)
    requires Consistent(start)
    ensures var s := After(w, Start(w, start), run);
            Uses(s.store, hash) == Uses(start, hash) + |ServedBy(w, s, hash)|
  {
    if run == [] {
      assert ServedBy(w, Start(w, start), hash) == {};
    } else {
      var init, t := run[..|run| - 1], run[|run| - 1];
      RequestsCounted(w, start, init, hash);
      var s, s' := After(w, Start(w, start), init), After(w, Start(w, start), run);
      if t.task < |w.tasks| {
        AdmittedOwnHolds(w, start, init, t.task);
        UsesStep(w.h, w.tasks[t.task], s.progress[t.task], s.store, t.now, t.later, hash);
        ServedStep(w, s, t, hash);
      }
    }
  }

  lemma ServedStep(w: World, s: State, t: Step, hash: string)
    requires Consistent(s.store) && |s.progress| == |w.tasks| && t.task < |w.tasks|
    ensures |ServedBy(w, Do(w, s, t), hash)| ==
            |ServedBy(w, s, hash)|
            + if IsFor(w, w.tasks[t.task], hash) && s.progress[t.task].Admitted? then 1 else 0
  {
    if w.tasks[t.task].Visit? {
      NextServed(w.h, w.tasks[t.task], s.progress[t.task], s.store, t.now, t.later);
    }
    ServedUpdate(w, s, Do(w, s, t), t.task, hash);
  }

  lemma NextServed(h: Hash, task: Task, at: Progress, s: Store, now: int, later: int)
    requires Consistent(s) && task.Visit?
    ensures Next(h, task, at, s, now, later).1 == Finished(Served) <==> at == Finished(Served) || at.Admitted?
  {
  }

  lemma ServedUpdate(w: World, s: State, s': State, c: nat, hash: string)
    requires c < |w.tasks| == |s.progress| == |s'.progress| && s'.progress == s.progress[c := s'.progress[c]]
    ensures |ServedBy(w, s', hash)| - (if c in ServedBy(w, s', hash) then 1 else 0) ==
            |ServedBy(w, s, hash)| - if c in ServedBy(w, s, hash) then 1 else 0
  {
    var was, became := ServedBy(w, s, hash), ServedBy(w, s', hash);
    assert became - {c} == was - {c};
    Removed(was, c);
    Removed(became, c);
  }

  lemma Removed(a: set<int>, x: int)
    ensures |a - {x}| == |a| - if x in a then 1 else 0
  {
    assert x !in a ==> a - {x} == a;
  }

  // ---------- well-formed stores, rotations and seeds ----------

  ghost predicate AllWellFormed(s: Store) {
    forall hash :: hash in s.keys ==> WellFormed(s.keys[hash])
  }

  /** The record under `hash` is another key with the profile of key `id`. */
  ghost predicate Twin(s: Store, id: int, hash: string) {
    && id in s.byID && s.byID[id] in s.keys && hash in s.keys
    && s.keys[hash].id != id
    && Profile(s.keys[hash]) == Profile(s.keys[s.byID[id]])
  }

  ghost predicate TaskInvariant(h: Hash, task: Task, at: Progress, s: Store) {
    match task
    case Rotate(id, _) =>
      && (at.Chosen? ==>
            id in s.byID && s.byID[id] in s.keys && WellFormed(at.current)
            && Profile(at.current) == Profile(s.keys[s.byID[id]]))
      && (at.Replaced? ==> Twin(s, id, at.hash))
      && (at.Finished? && at.outcome.IssuedKey? ==> Twin(s, id, at.outcome.hash) && s.keys[s.byID[id]].revokedAt.Some?)
    case Bootstrap(configured, _) =>
      && (at.Seeding? && configured != "" ==> at.plaintext == configured)
      && (at.Finished? && configured != "" ==> at.outcome == Nil && h(configured) in s.keys)
      && (at.Finished? && configured == "" ==> at.outcome == Nil || at.outcome == Failed(NoEntropy))
    case _ => true
  }

  ghost predicate Invariant(w: World, s: State) {
    && Consistent(s.store) && |s.progress| == |w.tasks|
    && AllWellFormed(s.store)
    && forall i :: 0 <= i < |w.tasks| ==> TaskInvariant(w.h, w.tasks[i], s.progress[i], s.store)
  }

  lemma CreatingWellFormed(s: Store, input: Input, h: Hash, secret: Option<string>, now: int, later: int)
    requires AllWellFormed(s)
    ensures AllWellFormed(Creating(s, input, h, secret, now, later).0)
  {
  }

  lemma NextWellFormed(h: Hash, task: Task, at: Progress, s: Store, now: int, later: int)
    requires Consistent(s) && AllWellFormed(s)
    ensures AllWellFormed(Next(h, task, at, s, now, later).0)
  {
    match (task, at)
    case (Create(input, secret), Ready) => CreatingWellFormed(s, input, h, secret, now, later);
    case (Revoke(id), Ready) => assert id in s.byID ==> IdBound(s, id);
    case (Rotate(_, secret), Chosen(current)) => CreatingWellFormed(s, InputFrom(current), h, secret, now, later);
    case (Rotate(id, _), Replaced(hash)) => assert id in s.byID ==> IdBound(s, id);
    case (Visit(_), Admitted(id)) => assert id in s.byID ==> IdBound(s, id);
    case _ =>
  }

  /** What a task relies on survives the steps of all other tasks. */
  lemma TaskStable(h: Hash, task: Task, at: Progress, s: Store, s': Store)
    requires TaskInvariant(h, task, at, s) && Evolves(s, s')
    ensures TaskInvariant(h, task, at, s')
  {
    if task.Rotate? && task.id in s.byID && s.byID[task.id] in s.keys {
      assert Lives(s, s', s.byID[task.id]);
      if at.Replaced? {
        assert Lives(s, s', at.hash);
      } else if at.Finished? && at.outcome.IssuedKey? {
        assert Lives(s, s', at.outcome.hash);
      }
    } else if task.Bootstrap? && h(task.configured) in s.keys {
      assert Lives(s, s', h(task.configured));
    }
  }

  /** A replacement is a twin of the key it was made for. */
  lemma ReplacementIsTwin(s: Store, id: int, current: Key, h: Hash, secret: Option<string>, now: int, later: int)
    requires Consistent(s) && id in s.byID && IdBound(s, id) && WellFormed(current)
    requires Profile(current) == Profile(s.keys[s.byID[id]])
    requires Creating(s, InputFrom(current), h, secret, now, later).1.Ok?
    ensures var (s', r) := Creating(s, InputFrom(current), h, secret, now, later); Twin(s', id, r.value.hash)
  {
  }

  /** The step a task takes itself keeps what it relies on. */
  lemma TaskSteps(h: Hash, task: Task, at: Progress, s: Store, now: int, later: int)
    requires Consistent(s) && AllWellFormed(s) && TaskInvariant(h, task, at, s)
    ensures var (s', at') := Next(h, task, at, s, now, later); TaskInvariant(h, task, at', s')
  {
    match (task, at)
    case (Rotate(id, _), Ready) =>
      if id in s.byID { assert IdBound(s, id) && HashBound(s, s.byID[id]); }
    case (Rotate(id, secret), Chosen(current)) =>
      assert IdBound(s, id);
      if Creating(s, InputFrom(current), h, secret, now, later).1.Ok? {
        ReplacementIsTwin(s, id, current, h, secret, now, later);
      }
    case (Rotate(id, _), Replaced(hash)) =>
      assert IdBound(s, id);
      MarkedEvolves(s, id, now);
      assert Lives(s, Revoked(s, id, now), hash);
    case _ =>
  }

  lemma InvariantKept(w: World, s: State, t: Step)
    requires Invariant(w, s) && t.task < |w.tasks|
    ensures Invariant(w, Do(w, s, t))
  {
    var task, at := w.tasks[t.task], s.progress[t.task];
    var s' := Do(w, s, t);
    NextConsistent(w.h, task, at, s.store, t.now, t.later);
    NextWellFormed(w.h, task, at, s.store, t.now, t.later);
    NextEvolves(w.h, task, at, s.store, t.now, t.later);
    forall i | 0 <= i < |w.tasks| ensures TaskInvariant(w.h, w.tasks[i], s'.progress[i], s'.store) {
      if i == t.task {
        TaskSteps(w.h, task, at, s.store, t.now, t.later);
      } else {
        TaskStable(w.h, w.tasks[i], s.progress[i], s.store, s'.store);
      }
    }
  }

  /** Every reachable store has agreeing indexes and only well-formed keys. */
  lemma {:induction false} InvariantHolds(w: World, start: Store, run: seq<Step>)
    requires Consistent(start) && AllWellFormed(start)
    ensures Invariant(w, After(w, Start(w, start), run))
  {
    if run != [] {
      var init, t := run[..|run| - 1], run[|run| - 1];
      InvariantHolds(w, start, init);
      if t.task < |w.tasks| {
        InvariantKept(w, After(w, Start(w, start), init), t);
      }
    }
  }

  /**
   Rotation under any interleaving: the final revoke always finds the old key,
   a rotation that succeeded has left a twin of a key that is now revoked, and
   validation of an existing key fails on nothing but its expiry.
   */
  lemma {:induction false} RotationInterleaved(w: World, start: Store, run: seq<Step>, c: nat, now: int, later: int)
    requires Consistent(start) && AllWellFormed(start) && c < |w.tasks| && w.tasks[c].Rotate?
    ensures var s, id := After(w, Start(w, start), run), w.tasks[c].id;
            var at, next := s.progress[c], Next(w.h, w.tasks[c], s.progress[c], s.store, now, later).1;
            && (at.Ready? ==> if id in s.store.byID then next.Chosen? else next == Finished(Failed(NotFound)))
            && (at.Chosen? ==>
                  (next.Replaced? <==>
                   && (at.current.expiresAt.None? || now < at.current.expiresAt.value)
                   && w.tasks[c].secret.Some? && w.h(w.tasks[c].secret.value) !in s.store.keys))
            && (at.Replaced? ==> next == Finished(IssuedKey(at.hash)))
            && (at.Finished? && at.outcome.IssuedKey? ==>
                  Twin(s.store, id, at.outcome.hash) && s.store.keys[s.store.byID[id]].revokedAt.Some?)
            && (at.Chosen? && next.Finished? ==>
                  next.outcome in {Failed(Invalid("expires_at")), Failed(NoEntropy), Failed(Conflict)})
  {
    InvariantHolds(w, start, run);
    var s := After(w, Start(w, start), run);
    assert TaskInvariant(w.h, w.tasks[c], s.progress[c], s.store);
  }

  // ---------- every issued key is its own ----------

  /** The hash of the key a task has created for its caller. */
  function IssuedBy(at: Progress): Option<string> {
    match at
    case Replaced(hash) => Some(hash)
    case Finished(IssuedKey(hash)) => Some(hash)
    case _ => None
  }

  ghost predicate DistinctlyIssued(s: State) {
    && (forall i :: 0 <= i < |s.progress| && IssuedBy(s.progress[i]).Some? ==>
          IssuedBy(s.progress[i]).value in s.store.keys)
    && (forall i, j :: 0 <= i < j < |s.progress| && IssuedBy(s.progress[i]).Some? && IssuedBy(s.progress[j]).Some? ==>
          IssuedBy(s.progress[i]) != IssuedBy(s.progress[j]))
  }

  /** A task that comes to have issued a key has just added it to the store. */
  lemma NextIssues(h: Hash, task: Task, at: Progress, s: Store, now: int, later: int)
    requires Consistent(s)
    ensures var (s', at') := Next(h, task, at, s, now, later);
            IssuedBy(at').Some? ==>
              IssuedBy(at') == IssuedBy(at) || (IssuedBy(at').value !in s.keys && IssuedBy(at').value in s'.keys)
  {
  }

  /** In any interleaving, creations and rotations that succeeded have issued pairwise distinct keys. */
  lemma {:induction false} IssuedKeysDistinct(w: World, start: Store, run: seq<Step>)
    requires Consistent(start)
    ensures DistinctlyIssued(After(w, Start(w, start), run))
  {
    if run != [] {
      var init, t := run[..|run| - 1], run[|run| - 1];
      IssuedKeysDistinct(w, start, init);
      var s := After(w, Start(w, start), init);
      if t.task < |w.tasks| {
        IssuedStep(w, s, t);
      }
    }
  }

  lemma IssuedStep(w: World, s: State, t: Step)
    requires Consistent(s.store) && |s.progress| == |w.tasks| && t.task < |w.tasks| && DistinctlyIssued(s)
    ensures DistinctlyIssued(Do(w, s, t))
  {
    var task, at := w.tasks[t.task], s.progress[t.task];
    var s' := Do(w, s, t);
    NextIssues(w.h, task, at, s.store, t.now, t.later);
    NextEvolves(w.h, task, at, s.store, t.now, t.later);
    forall i | 0 <= i < |s.progress| && IssuedBy(s.progress[i]).Some?
      ensures IssuedBy(s.progress[i]).value in s'.store.keys
    {
      assert Lives(s.store, s'.store, IssuedBy(s.progress[i]).value);
    }
  }

  // ---------- concurrent bootstrap with a fixed key ----------

  /** Every task seeds the same fixed key. */
  predicate AllSeed(w: World, plaintext: string) {
    forall i :: 0 <= i < |w.tasks| ==> w.tasks[i].Bootstrap? && w.tasks[i].configured == plaintext
  }

  /** The store is as it was, or has the seed key added once; whoever has returned, returned nil to a seeded store. */
  ghost predicate SeededOnce(start: Store, s: State, plaintext: string, hash: string) {
    && (s.store == start || exists now :: s.store == Created(start, SeedKey(hash), now))
    && forall i :: 0 <= i < |s.progress| ==>
         || s.progress[i] == Ready || s.progress[i] == Seeding(plaintext)
         || (s.progress[i] == Finished(Nil) && hash in s.store.keys)
  }

  lemma {:induction false} SeedsOnce(w: World, start: Store, run: seq<Step>, plaintext: string)
    requires Consistent(start) && plaintext != "" && AllSeed(w, plaintext)
    ensures SeededOnce(start, After(w, Start(w, start), run), plaintext, w.h(plaintext))
  {
    if run != [] {
      var init, t := run[..|run| - 1], run[|run| - 1];
      SeedsOnce(w, start, init, plaintext);
      var s, s' := After(w, Start(w, start), init), After(w, Start(w, start), run);
      if t.task < |w.tasks| && s.progress[t.task].Seeding? && s.store == start {
        assert s'.store == Created(start, SeedKey(w.h(plaintext)), t.now);
      }
    }
  }

  /**
   Concurrent bootstrap: replicas that seed the same fixed key, in any
   interleaving, all return nil, and once one has returned there is exactly
   one record with that hash, an unlimited admin key if it is new. Every earlier
   record is untouched, including a seed that was already there, revoked or not.
   */
  lemma ConcurrentBootstrap(w: World, start: Store, run: seq<Step>, plaintext: string)
    requires Consistent(start) && plaintext != "" && AllSeed(w, plaintext)
    ensures var s, hash := After(w, Start(w, start), run), w.h(plaintext);
            && (forall i :: 0 <= i < |w.tasks| && s.progress[i].Finished? ==>
                  s.progress[i].outcome == Nil && hash in s.store.keys)
            && (forall k :: k in start.keys ==> k in s.store.keys && s.store.keys[k] == start.keys[k])
            && (forall k :: k in s.store.keys && k !in start.keys ==> k == hash && IsSeed(s.store.keys[k]))
            && (forall id :: id in s.store.byID && s.store.byID[id] == hash ==>
                  hash in s.store.keys && id == s.store.keys[hash].id)
  {
    var s := After(w, Start(w, start), run);
    SeedsOnce(w, start, run, plaintext);
    forall id | id in s.store.byID && s.store.byID[id] == w.h(plaintext)
      ensures w.h(plaintext) in s.store.keys && id == s.store.keys[w.h(plaintext)].id
    {
      assert IdBound(s.store, id);
    }
  }

  // ---------- concurrent bootstrap with generated keys ----------

  /** Every task seeds a key of its own if it finds the store empty. */
  ghost predicate AllGenerate(w: World) {
    && (forall i :: 0 <= i < |w.tasks| ==>
          w.tasks[i].Bootstrap? && w.tasks[i].configured == "" && w.tasks[i].secret.Some?)
    && (forall i, j :: 0 <= i < j < |w.tasks| ==> w.h(w.tasks[i].secret.value) != w.h(w.tasks[j].secret.value))
  }

  function Own(w: World, i: nat): string
    requires i < |w.tasks| && w.tasks[i].Bootstrap? && w.tasks[i].secret.Some?
  {
    w.h(w.tasks[i].secret.value)
  }

  /** Before the first key exists, nobody has done more than list the empty store. */
  ghost predicate Unseeded(w: World, s: State) {
    AllGenerate(w) && |s.progress| == |w.tasks| && |s.store.keys| == 0 &&
    forall i :: 0 <= i < |w.tasks| ==> s.progress[i] == Ready || s.progress[i] == Seeding(w.tasks[i].secret.value)
  }

  lemma {:induction false} UnseededWhileEmpty(w: World, run: seq<Step>)
    requires AllGenerate(w) && |After(w, Start(w, EMPTY), run).store.keys| == 0
    ensures Unseeded(w, After(w, Start(w, EMPTY), run))
  {
    if run != [] {
      var init, t := run[..|run| - 1], run[|run| - 1];
      var s, s' := After(w, Start(w, EMPTY), init), After(w, Start(w, EMPTY), run);
      if t.task < |w.tasks| {
        NextEvolves(w.h, w.tasks[t.task], s.progress[t.task], s.store, t.now, t.later);
        assert forall hash :: hash in s.store.keys ==> Lives(s.store, s'.store, hash);
      }
      UnseededWhileEmpty(w, init);
    }
  }

  /** A task in time adds its key, sooner or later; one that is late never does. */
  predicate OnTrack(secret: string, own: string, at: Progress, keys: map<string, Key>, early: bool) {
    if early then (at == Seeding(secret) && own !in keys) || (at == Finished(Nil) && own in keys)
    else (at == Ready || at == Finished(Nil)) && own !in keys
  }

  ghost predicate SomeonesOwn(w: World, early: set<nat>, k: string)
    requires AllGenerate(w)
  {
    exists i :: 0 <= i < |w.tasks| && i in early && Own(w, i) == k
  }

  /** Exactly the tasks in `early` have added their key or are about to; the others never will. */
  ghost predicate SeededBy(w: World, s: State, early: set<nat>) {
    && AllGenerate(w) && |s.progress| == |w.tasks| && |s.store.keys| > 0
    && (forall i :: 0 <= i < |w.tasks| ==>
          OnTrack(w.tasks[i].secret.value, Own(w, i), s.progress[i], s.store.keys, i in early))
    && (forall k :: k in s.store.keys ==> SomeonesOwn(w, early, k))
  }

  lemma SeededByKept(w: World, s: State, t: Step, early: set<nat>)
    requires Consistent(s.store) && SeededBy(w, s, early) && t.task < |w.tasks|
    ensures SeededBy(w, Do(w, s, t), early)
  {
    var c, s' := t.task, Do(w, s, t);
    assert OnTrack(w.tasks[c].secret.value, Own(w, c), s.progress[c], s.store.keys, c in early);
    if s.progress[c].Seeding? {
      SeedAdded(w, s, t, early);
    } else {
      assert s'.store == s.store;
      forall i | 0 <= i < |w.tasks|
        ensures OnTrack(w.tasks[i].secret.value, Own(w, i), s'.progress[i], s'.store.keys, i in early)
      {
        assert OnTrack(w.tasks[i].secret.value, Own(w, i), s.progress[i], s.store.keys, i in early);
      }
    }
  }

  lemma SeedAdded(w: World, s: State, t: Step, early: set<nat>)
    requires Consistent(s.store) && SeededBy(w, s, early) && t.task < |w.tasks| && s.progress[t.task].Seeding?
    ensures SeededBy(w, Do(w, s, t), early)
  {
    var c, s' := t.task, Do(w, s, t);
    assert OnTrack(w.tasks[c].secret.value, Own(w, c), s.progress[c], s.store.keys, c in early);
    assert s'.store.keys.Keys == s.store.keys.Keys + {Own(w, c)};
    forall i | 0 <= i < |w.tasks|
      ensures OnTrack(w.tasks[i].secret.value, Own(w, i), s'.progress[i], s'.store.keys, i in early)
    {
      assert OnTrack(w.tasks[i].secret.value, Own(w, i), s.progress[i], s.store.keys, i in early);
      assert i != c ==> Own(w, i) != Own(w, c);
    }
    forall k | k in s'.store.keys
      ensures SomeonesOwn(w, early, k)
    {
      assert k == Own(w, c) || SomeonesOwn(w, early, k);
    }
  }

  lemma {:induction false} SeededByHolds(w: World, s: State, run: seq<Step>, early: set<nat>)
    requires Consistent(s.store) && |s.progress| == |w.tasks| && SeededBy(w, s, early)
    ensures SeededBy(w, After(w, s, run), early)
  {
    if run != [] {
      var init, t := run[..|run| - 1], run[|run| - 1];
      SeededByHolds(w, s, init, early);
      var s1 := After(w, s, init);
      if t.task < |w.tasks| {
        SeededByKept(w, s1, t, early);
        assert After(w, s, run) == Do(w, s1, t);
      }
    }
  }

  /** Caller `c` is about to create the first key of an empty store. */
  ghost predicate FirstSeed(w: World, before: seq<Step>, c: nat) {
    var s := After(w, Start(w, EMPTY), before);
    AllGenerate(w) && c < |w.tasks| && |s.store.keys| == 0 && s.progress[c].Seeding?
  }

  /** The callers that have listed the empty store and not yet created their key. */
  function Listers(s: State): set<nat> {
    set i | 0 <= i < |s.progress| && s.progress[i].Seeding?
  }

  lemma SeededByListers(w: World, before: seq<Step>, first: Step, later: seq<Step>, run: seq<Step>)
    requires FirstSeed(w, before, first.task) && run == before + [first] + later
    ensures SeededBy(w, After(w, Start(w, EMPTY), run), Listers(After(w, Start(w, EMPTY), before)))
  {
    var s := After(w, Start(w, EMPTY), before);
    UnseededWhileEmpty(w, before);
    FirstKey(w, s, first, Listers(s));
    Resume(w, Start(w, EMPTY), before, first, later, run);
    SeededByHolds(w, Do(w, s, first), later, Listers(s));
  }

  /** A run is a run up to some step, that step, and a run from there. */
  lemma Resume(w: World, start: State, before: seq<Step>, first: Step, later: seq<Step>, run: seq<Step>)
    requires Consistent(start.store) && |start.progress| == |w.tasks| && first.task < |w.tasks|
    requires run == before + [first] + later
    ensures var s := Do(w, After(w, start, before), first);
            Consistent(s.store) && |s.progress| == |w.tasks| && After(w, start, run) == After(w, s, later)
  {
    var one, s := before + [first], After(w, start, before);
    assert one[..|one| - 1] == before;
    NextConsistent(w.h, w.tasks[first.task], s.progress[first.task], s.store, first.now, first.later);
    AfterConcat(w, start, one, later);
  }

  /**
   Generated bootstrap keys: once all callers have returned, the keys in the
   store are those of the callers that had listed the empty store when the
   first of them created its key. So there is exactly one key if and only if
   no other caller stood between its listing and its creation at that moment.
   */
  lemma GeneratedSeeds(w: World, before: seq<Step>, first: Step, later: seq<Step>, run: seq<Step>)
    requires FirstSeed(w, before, first.task) && run == before + [first] + later
    requires forall i :: 0 <= i < |w.tasks| ==> After(w, Start(w, EMPTY), run).progress[i].Finished?
    ensures var early := Listers(After(w, Start(w, EMPTY), before));
            var keys := After(w, Start(w, EMPTY), run).store.keys;
            && (forall i :: 0 <= i < |w.tasks| ==> (Own(w, i) in keys <==> i in early))
            && (forall k :: k in keys ==> exists i :: 0 <= i < |w.tasks| && Own(w, i) == k)
            && (keys.Keys == {Own(w, first.task)} <==> early == {first.task})
  {
    var early, end := Listers(After(w, Start(w, EMPTY), before)), After(w, Start(w, EMPTY), run);
    SeededByListers(w, before, first, later, run);
    OnlyEarly(w, end, early);
    OneKeyIff(w, end.store.keys.Keys, early, first.task);
    assert forall k :: k in end.store.keys ==> SomeonesOwn(w, early, k);
  }

  lemma FirstKey(w: World, s: State, t: Step, early: set<nat>)
    requires Consistent(s.store) && Unseeded(w, s) && t.task < |w.tasks| && s.progress[t.task].Seeding?
    requires early == Listers(s)
    ensures SeededBy(w, Do(w, s, t), early)
  {
    var s' := Do(w, s, t);
    assert s.store.keys == map[];
    assert s'.store.keys.Keys == {Own(w, t.task)};
  }

  lemma OnlyEarly(w: World, s: State, early: set<nat>)
    requires SeededBy(w, s, early)
    requires forall i :: 0 <= i < |w.tasks| ==> s.progress[i].Finished?
    ensures forall i :: 0 <= i < |w.tasks| ==> (Own(w, i) in s.store.keys <==> i in early)
    ensures forall k :: k in s.store.keys ==> SomeonesOwn(w, early, k)
  {
    forall i | 0 <= i < |w.tasks|
      ensures Own(w, i) in s.store.keys <==> i in early
    {
      assert OnTrack(w.tasks[i].secret.value, Own(w, i), s.progress[i], s.store.keys, i in early);
    }
  }

  lemma OneKeyIff(w: World, keys: set<string>, early: set<nat>, c: nat)
    requires AllGenerate(w) && c in early && forall i :: i in early ==> i < |w.tasks|
    requires forall i :: 0 <= i < |w.tasks| ==> (Own(w, i) in keys <==> i in early)
    requires forall k :: k in keys ==> SomeonesOwn(w, early, k)
    ensures keys == {Own(w, c)} <==> early == {c}
  {
    if keys == {Own(w, c)} {
      forall i | i in early ensures i == c {
        assert Own(w, i) in keys;
      }
    } else if early == {c} {
      assert Own(w, c) in keys;
      forall k | k in keys ensures k == Own(w, c) {
        assert SomeonesOwn(w, early, k);
      }
    }
  }

  /** Two callers can both list the empty store, and then both seed a key. */
  lemma OverlapReachable(w: World, c: nat, d: nat, t: int)
    requires AllGenerate(w) && c < |w.tasks| && d < |w.tasks| && c != d
    ensures var before := [Step(c, t, t), Step(d, t, t)];
            FirstSeed(w, before, c) && After(w, Start(w, EMPTY), before).progress[d].Seeding?
  {
    var start, one := Start(w, EMPTY), [Step(c, t, t)];
    var before := [Step(c, t, t), Step(d, t, t)];
    assert one[..0] == [] && before[..1] == one;
    assert After(w, start, one) == Do(w, start, Step(c, t, t));
  }
}
