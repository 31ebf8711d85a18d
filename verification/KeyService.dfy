/**
 The key service (internal/service/key_service.go) over the in-memory store, and
 the accept/reject decision of the Auth middleware (internal/middleware/auth.go).
 The hash of plaintext keys is a function parameter; a random plaintext is a
 parameter too, absent when the random source fails.
 */
module KeyService {
  import opened Wrappers
  import opened KeyStore

  type Hash = string -> string

  datatype Input = Input(name: string, rank: string, scopes: seq<string>, expiresAt: Option<int>)

  predicate AllowedScope(scope: string) {
    scope == "tw" || scope == "admin"
  }

  predicate AllowedRank(rank: string) {
    rank == "member" || rank == "partner" || rank == "admin"
  }

  // ---------- the operations on values ----------

  function EffectiveRank(rank: string): string {
    if rank == "" then "member" else rank
  }

  predicate Expired(expiresAt: Option<int>, now: int) {
    expiresAt.Some? && expiresAt.value <= now
  }

  /** The first field that fails validation. */
  function Fault(input: Input, now: int): Option<Error> {
    if input.name == "" || |input.name| > 64 then Some(Invalid("name"))
    else if |input.scopes| == 0 then Some(Invalid("scopes"))
    else if exists i :: 0 <= i < |input.scopes| && !AllowedScope(input.scopes[i]) then Some(Invalid("scopes"))
    else if !AllowedRank(EffectiveRank(input.rank)) then Some(Invalid("rank"))
    else if Expired(input.expiresAt, now) then Some(Invalid("expires_at"))
    else None
  }

  function NewKey(input: Input, hash: string): Key {
    Key(0, input.name, EffectiveRank(input.rank), hash, input.scopes, input.expiresAt, None, None, 0, 0)
  }

  /** Validated at `now`, created at `later`. */
  function Creating(s: Store, input: Input, h: Hash, secret: Option<string>, now: int, later: int)
    : (Store, Result<Key, Error>)
  {
    if Fault(input, now).Some? then (s, Err(Fault(input, now).value))
    else if secret.None? then (s, Err(NoEntropy))
    else
      var key := NewKey(input, h(secret.value));
      if key.hash in s.keys then (s, Err(Conflict)) else (Created(s, key, later), Ok(Completed(s, key, later)))
  }

  function InputFrom(key: Key): Input {
    Input(key.name, key.rank, key.scopes, key.expiresAt)
  }

  /** The replacement is validated at `now` and created at `later`; the old key is revoked at `end`. */
  function Rotating(s: Store, id: int, h: Hash, secret: Option<string>, now: int, later: int, end: int)
    : (Store, Result<Key, Error>)
    requires Consistent(s)
  {
    if id !in s.byID then (s, Err(NotFound))
    else
      assert IdBound(s, id);
      var (s1, r) := Creating(s, InputFrom(s.keys[s.byID[id]]), h, secret, now, later);
      if r.Err? then (s1, r)
      else
        CreatedConsistent(s, NewKey(InputFrom(s.keys[s.byID[id]]), h(secret.value)), later);
        (Revoked(s1, id, end), r)
  }

  /** The record of a seed key. */
  function SeedKey(hash: string): Key {
    Key(0, "bootstrap", "admin", hash, ["tw", "admin"], None, None, None, 0, 0)
  }

  // ---------- what they guarantee ----------

  /** What the service lets into the store. */
  ghost predicate WellFormed(key: Key) {
    && 1 <= |key.name| <= 64
    && AllowedRank(key.rank)
    && |key.scopes| >= 1
    && forall i :: 0 <= i < |key.scopes| ==> AllowedScope(key.scopes[i])
  }

  /** What identifies the powers of a key, as opposed to its history. */
  function Profile(key: Key): (string, string, seq<string>, Option<int>) {
    (key.name, key.rank, key.scopes, key.expiresAt)
  }

  /** The input the API documents: a name of 1 to 64 bytes, known scopes, a known rank or none, and a future expiry. */
  ghost predicate Acceptable(input: Input, now: int) {
    && 1 <= |input.name| <= 64
    && input.scopes != [] && (forall scope :: scope in input.scopes ==> scope in {"tw", "admin"})
    && input.rank in {"", "member", "partner", "admin"}
    && (input.expiresAt.None? || now < input.expiresAt.value)
  }

  /**
   Creation on a consistent store, in the words of the API: which field is
   reported for which input, and what a success stores. The first of name,
   scopes, rank and expiry that is wrong decides; an empty rank is "member".
   */
  lemma CreationEffect(s: Store, input: Input, h: Hash, secret: Option<string>, now: int, later: int)
    requires Consistent(s)
    ensures var (s', r) := Creating(s, input, h, secret, now, later);
            var named := 1 <= |input.name| <= 64;
            var scoped := input.scopes != [] && forall scope :: scope in input.scopes ==> scope in {"tw", "admin"};
            var ranked := input.rank in {"", "member", "partner", "admin"};
            var timely := input.expiresAt.None? || now < input.expiresAt.value;
            var valid := Acceptable(input, now);
            && (r == Err(Invalid("name")) <==> !named)
            && (r == Err(Invalid("scopes")) <==> named && !scoped)
            && (r == Err(Invalid("rank")) <==> named && scoped && !ranked)
            && (r == Err(Invalid("expires_at")) <==> named && scoped && ranked && !timely)
            && (r == Err(NoEntropy) <==> valid && secret.None?)
            && (r == Err(Conflict) <==> valid && secret.Some? && h(secret.value) in s.keys)
            && (r.Ok? <==> valid && secret.Some? && h(secret.value) !in s.keys)
            && (r.Err? ==> s' == s)
            && (r.Ok? ==>
                  && r.value == Key(s.nextID, input.name, if input.rank == "" then "member" else input.rank,
                                    h(secret.value), input.scopes, input.expiresAt, None, None, 0, later)
                  && s' == Store(s.keys[r.value.hash := r.value], s.byID[r.value.id := r.value.hash], s.nextID + 1)
                  && r.value.id !in s.byID && Consistent(s'))
  {
    assert forall i :: 0 <= i < |input.scopes| ==> input.scopes[i] in input.scopes;
    if secret.Some? {
      CreatedConsistent(s, NewKey(input, h(secret.value)), later);
    }
  }

  /** A new key authenticates at once and until its expiry, with the record that was returned. */
  lemma CreatedKeyAccepted(s: Store, input: Input, h: Hash, secret: string, now: int, later: int, t: int)
    requires Consistent(s) && secret != "" && Creating(s, input, h, Some(secret), now, later).1.Ok?
    ensures var (s', r) := Creating(s, input, h, Some(secret), now, later);
            Authenticate(s', secret, h, t) ==
            if input.expiresAt.Some? && input.expiresAt.value <= t then RevokedOrExpired else Accepted(r.value)
  {
  }

  /**
   A seed key that was missing authenticates at any time, with rank "admin" and
   the scopes "tw" and "admin"; one that was present is left as it is.
   */
  lemma SeedAccepted(s: Store, h: Hash, plaintext: string, now: int, t: int)
    requires Consistent(s) && plaintext != ""
    ensures var s' := Created(s, SeedKey(h(plaintext)), now);
            && (h(plaintext) in s.keys ==> s' == s)
            && (h(plaintext) !in s.keys ==>
                  && h(plaintext) in s'.keys && s'.keys == s.keys[h(plaintext) := s'.keys[h(plaintext)]]
                  && IsSeed(s'.keys[h(plaintext)])
                  && Authenticate(s', plaintext, h, t) == Accepted(s'.keys[h(plaintext)]))
  {
  }

  /** An unused, unlimited and unrevoked key of rank "admin" with every scope. */
  ghost predicate IsSeed(key: Key) {
    && key.name == "bootstrap" && key.rank == "admin" && key.scopes == ["tw", "admin"]
    && key.expiresAt == None && key.revokedAt == None && key.lastUsedAt == None && key.requestCount == 0
  }

  /**
   Rotation on a consistent store: success adds exactly one live key with the
   same profile under a fresh id and hash, revokes the old one and leaves
   every other record alone; failure leaves the store as it was.
   */
  lemma RotationEffect(s: Store, id: int, h: Hash, secret: Option<string>, now: int, later: int, end: int)
    requires Consistent(s)
    ensures var (s', r) := Rotating(s, id, h, secret, now, later, end);
            && Consistent(s')
            && (r.Err? ==> s' == s)
            && (r == Err(NotFound) <==> id !in s.byID)
            && (r.Ok? ==> id in s.byID && s.byID[id] in s.keys && Replaces(s, s.byID[id], s', r.value, end))
  {
    if id in s.byID && secret.Some? {
      assert IdBound(s, id) && HashBound(s, s.byID[id]);
      var key := NewKey(InputFrom(s.keys[s.byID[id]]), h(secret.value));
      CreatedConsistent(s, key, later);
      RevokedConsistent(Created(s, key, later), id, end);
    }
  }

  /** From `s` to `s'`, exactly this: `key` was added as a live twin of the record under `hash`, which was revoked. */
  ghost predicate Replaces(s: Store, hash: string, s': Store, key: Key, end: int)
    requires hash in s.keys
  {
    var was := s.keys[hash];
    && key.hash !in s.keys && key.id !in s.byID
    && Profile(key) == Profile(was.(rank := EffectiveRank(was.rank)))
    && key.revokedAt == None
    && s'.keys == s.keys[hash := was.(revokedAt := Some(end))][key.hash := key]
  }

  /**
   Exactly when a well-formed key can be rotated: it must not be expired, the
   random source must work and the new hash must be unused. Validation fails
   on nothing but the expiry. Revocation does not matter: rotating a revoked
   key issues a live replacement.
   */
  lemma RotationSucceedsIff(s: Store, id: int, h: Hash, secret: Option<string>, now: int, later: int, end: int)
    requires Consistent(s) && id in s.byID && IdBound(s, id) && WellFormed(s.keys[s.byID[id]])
    ensures var key, r := s.keys[s.byID[id]], Rotating(s, id, h, secret, now, later, end).1;
            && (r.Ok? <==> !Expired(key.expiresAt, now) && secret.Some? && h(secret.value) !in s.keys)
            && (Expired(key.expiresAt, now) <==> r == Err(Invalid("expires_at")))
            && (r.Err? && r.error.Invalid? ==> r.error.field == "expires_at")
  {
  }

  /**
   Revocation is no obstacle: rotating a revoked key that could be rotated
   yields a replacement that Auth accepts until the expiry, while the old key
   stays refused.
   */
  lemma RevokedKeyRotatesLive(s: Store, id: int, h: Hash, secret: string, now: int, later: int, end: int, t: int)
    requires Consistent(s) && id in s.byID && IdBound(s, id) && WellFormed(s.keys[s.byID[id]])
    requires s.keys[s.byID[id]].revokedAt.Some? && !Expired(s.keys[s.byID[id]].expiresAt, now)
    requires secret != "" && h(secret) !in s.keys
    ensures var (s', r) := Rotating(s, id, h, Some(secret), now, later, end);
            && r.Ok? && r.value.revokedAt.None? && s'.keys[h(secret)] == r.value
            && s'.keys[s.byID[id]].revokedAt.Some?
            && (Authenticate(s', secret, h, t) == Accepted(r.value) <==> !Expired(s.keys[s.byID[id]].expiresAt, t))
  {
    RotationEffect(s, id, h, Some(secret), now, later, end);
    RotationSucceedsIff(s, id, h, Some(secret), now, later, end);
    assert HashBound(s, s.byID[id]);
    assert HashBound(Rotating(s, id, h, Some(secret), now, later, end).0, h(secret));
  }

  // ---------- the service itself ----------

  datatype ApiInput = ApiInput(name: string, rank: string, scopes: array<string>, expiresAt: Option<int>)
  {
    ghost function Value(): Input
      reads scopes
    {
      Input(name, rank, scopes[..], expiresAt)
    }
  }

  /** What the caller gets: its own record and, once, the plaintext. */
  datatype Issued = Issued(key: ApiKey, plaintext: string)

  /** The caller is told what the operation on values yields. */
  ghost predicate Answers(r: Result<Issued, Error>, secret: Option<string>, out: Result<Key, Error>)
    reads if r.Ok? then {r.value.key.scopes} else {}
  {
    match out
    case Err(e) => r == Err(e)
    case Ok(key) => r.Ok? && secret == Some(r.value.plaintext) && r.value.key.Value() == key
  }

  class KeyService {
    const repo: KeyStore

    constructor (repo: KeyStore)
      ensures this.repo == repo
    {
      this.repo := repo;
    }

    method CreateKey(input: ApiInput, h: Hash, secret: Option<string>, now: int, later: int)
      returns (r: Result<Issued, Error>)
      requires repo.Valid()
      modifies repo
      ensures repo.Valid() && old(repo.owned) <= repo.owned && fresh(repo.owned - old(repo.owned))
      ensures Answers(r, secret, Creating(old(repo.View()), input.Value(), h, secret, now, later).1)
      ensures repo.View() == Creating(old(repo.View()), input.Value(), h, secret, now, later).0
      ensures r.Ok? ==> fresh(r.value.key.scopes) && r.value.key.scopes !in repo.owned
    {
      var fault := Validate(input, now);
      if fault.Some? {
        return Err(fault.value);
      }
      var rank := input.rank;
      if rank == "" {
        rank := "member";
      }
      if secret.None? {
        return Err(NoEntropy);
      }
      var scopes := repo.CopyScopes(input.scopes);
      var key := ApiKey(0, input.name, rank, h(secret.value), scopes, input.expiresAt, None, None, 0, 0);
      assert key.Value() == NewKey(input.Value(), h(secret.value));
      var created := repo.Create(key, later);
      match created
      case Err(e) => return Err(e);
      case Ok(stored) => return Ok(Issued(stored, secret.value));
    }

    method Validate(input: ApiInput, now: int) returns (fault: Option<Error>)
      ensures fault == Fault(input.Value(), now)
    {
      if input.name == "" || |input.name| > 64 {
        return Some(Invalid("name"));
      }
      if input.scopes.Length == 0 {
        return Some(Invalid("scopes"));
      }
      var i := 0;
      while i < input.scopes.Length
        invariant 0 <= i <= input.scopes.Length
        invariant forall j :: 0 <= j < i ==> AllowedScope(input.scopes[j])
      {
        if !AllowedScope(input.scopes[i]) {
          assert !AllowedScope(input.Value().scopes[i]);
          return Some(Invalid("scopes"));
        }
        i := i + 1;
      }
      var rank := input.rank;
      if rank == "" {
        rank := "member";
      }
      if !AllowedRank(rank) {
        return Some(Invalid("rank"));
      }
      if input.expiresAt.Some? && !(input.expiresAt.value > now) {
        return Some(Invalid("expires_at"));
      }
      return None;
    }

    method RotateKey(id: int, h: Hash, secret: Option<string>, now: int, later: int, end: int)
      returns (r: Result<Issued, Error>)
      requires repo.Valid()
      modifies repo
      ensures repo.Valid() && old(repo.owned) <= repo.owned && fresh(repo.owned - old(repo.owned))
      ensures Answers(r, secret, Rotating(old(repo.View()), id, h, secret, now, later, end).1)
      ensures repo.View() == Rotating(old(repo.View()), id, h, secret, now, later, end).0
      ensures r.Ok? ==> fresh(r.value.key.scopes) && r.value.key.scopes !in repo.owned
    {
      var found := Find(id);
      if found.None? {
        return Err(NotFound);
      }
      r := Replace(found.value, id, h, secret, now, later, end);
    }

    /** Lists the keys and looks for the one with this id. */
    method Find(id: int) returns (found: Option<ApiKey>)
      requires repo.Valid()
      ensures found.Some? <==> id in repo.View().byID
      ensures found.Some? ==>
                IdBound(repo.View(), id) && found.value.Value() == repo.View().keys[repo.View().byID[id]]
    {
      var keys := repo.List();
      var i := 0;
      while i < |keys| && keys[i].id != id
        invariant 0 <= i <= |keys|
        invariant forall j :: 0 <= j < i ==> keys[j].id != id
      {
        i := i + 1;
      }
      Found(repo.View(), id, i);
      return if i == |keys| then None else Some(keys[i]);
    }

    /** Creates the replacement first, then revokes the old key. */
    method Replace(current: ApiKey, id: int, h: Hash, secret: Option<string>, now: int, later: int, end: int)
      returns (r: Result<Issued, Error>)
      requires repo.Valid() && id in repo.View().byID && IdBound(repo.View(), id)
      requires current.Value() == repo.View().keys[repo.View().byID[id]]
      modifies repo
      ensures repo.Valid() && old(repo.owned) <= repo.owned && fresh(repo.owned - old(repo.owned))
      ensures Answers(r, secret, Rotating(old(repo.View()), id, h, secret, now, later, end).1)
      ensures repo.View() == Rotating(old(repo.View()), id, h, secret, now, later, end).0
      ensures r.Ok? ==> fresh(r.value.key.scopes) && r.value.key.scopes !in repo.owned
    {
      var input := ApiInput(current.name, current.rank, current.scopes, current.expiresAt);
      assert input.Value() == InputFrom(current.Value());
      r := CreateKey(input, h, secret, now, later);
      if r.Err? {
        return;
      }
      var missing := repo.Revoke(id, end);
      if missing.Some? {
        assert false;
      }
    }

    /** A scan of the listing stops at the record of `id`, or at the end if there is none. */
    lemma Found(s: Store, id: int, i: nat)
      requires Consistent(s) && i <= |Listing(s)|
      requires forall j :: 0 <= j < i ==> Listing(s)[j].id != id
      requires i < |Listing(s)| ==> Listing(s)[i].id == id
      ensures i < |Listing(s)| ==> id in s.byID && IdBound(s, id) && Listing(s)[i] == s.keys[s.byID[id]]
      ensures i == |Listing(s)| ==> id !in s.byID
    {
      if i < |Listing(s)| {
        ListingAt(s, i);
        assert IdBound(s, id);
      } else if id in s.byID {
        ListingAt(s, id - 1);
      }
    }

    /**
     Registers a seed key: a fixed one unless its hash is present, a generated
     one only if the store is empty.
     */
    method Bootstrap(configured: string, h: Hash, secret: Option<string>, now: int) returns (r: Option<Error>)
      requires repo.Valid()
      modifies repo
      ensures repo.Valid() && old(repo.owned) <= repo.owned && fresh(repo.owned - old(repo.owned))
      ensures configured != "" ==> r == None && repo.View() == Created(old(repo.View()), SeedKey(h(configured)), now)
      ensures configured == "" && |old(repo.View()).keys| > 0 ==> r == None && repo.View() == old(repo.View())
      ensures configured == "" && |old(repo.View()).keys| == 0 ==>
                if secret.None? then r == Some(NoEntropy) && repo.View() == old(repo.View())
                else r == None && repo.View() == Created(old(repo.View()), SeedKey(h(secret.value)), now)
    {
      var plaintext := configured;
      if plaintext == "" {
        var keys := repo.List();
        EmptyListing(repo.View());
        if |keys| > 0 {
          return None;
        }
        if secret.None? {
          return Some(NoEntropy);
        }
        plaintext := secret.value;
      } else {
        var existing := repo.GetByHash(h(plaintext));
        if existing.Ok? {
          return None;
        }
      }
      Seed(h(plaintext), now);
      return None;
    }

    /** Creates the seed record; that it exists already is no error. */
    method Seed(hash: string, now: int)
      requires repo.Valid()
      modifies repo
      ensures repo.Valid() && old(repo.owned) <= repo.owned && fresh(repo.owned - old(repo.owned))
      ensures repo.View() == Created(old(repo.View()), SeedKey(hash), now)
    {
      var scopes := new string[]["tw", "admin"];
      var key := ApiKey(0, "bootstrap", "admin", hash, scopes, None, None, None, 0, 0);
      assert key.Value() == SeedKey(hash);
      var _ := repo.Create(key, now);
    }

    lemma EmptyListing(s: Store)
      requires Consistent(s)
      ensures |Listing(s)| == 0 <==> |s.keys| == 0
    {
      if |Listing(s)| > 0 {
        ListingAt(s, 0);
      } else {
        assert forall h :: h in s.keys ==> HashBound(s, h);
      }
    }
  }

  // ---------- the Auth middleware ----------

  datatype Verdict = MissingKey | InvalidKey | RevokedOrExpired | Accepted(key: Key)

  function Authenticate(s: Store, header: string, h: Hash, now: int): Verdict {
    if header == "" then MissingKey
    else if h(header) !in s.keys || s.keys[h(header)].hash != h(header) then InvalidKey
    else
      var rec := s.keys[h(header)];
      if rec.revokedAt.Some? || Expired(rec.expiresAt, now) then RevokedOrExpired else Accepted(rec)
  }

  /** On a consistent store, exactly which request gets which verdict; acceptance yields the stored record. */
  lemma AcceptedIff(s: Store, header: string, h: Hash, now: int)
    requires Consistent(s)
    ensures var v, stored := Authenticate(s, header, h, now), h(header) in s.keys;
            && (v.MissingKey? <==> header == "")
            && (v.InvalidKey? <==> header != "" && !stored)
            && (v.RevokedOrExpired? <==> header != "" && stored && Dead(s.keys[h(header)], now))
            && (v.Accepted? <==> header != "" && stored && !Dead(s.keys[h(header)], now))
            && (v.Accepted? ==> v.key == s.keys[h(header)])
  {
    assert h(header) in s.keys ==> HashBound(s, h(header));
  }

  /** Revoked at some time, or expired by now. */
  predicate Dead(key: Key, now: int) {
    key.revokedAt != None || (key.expiresAt != None && !(now < key.expiresAt.value))
  }

  method Auth(store: KeyStore, header: string, h: Hash, now: int) returns (v: Verdict)
    requires store.Valid()
    ensures v == Authenticate(store.View(), header, h, now)
  {
    if header == "" {
      return MissingKey;
    }
    var found := store.GetByHash(h(header));
    if found.Err? || found.value.hash != h(header) {
      return InvalidKey;
    }
    var rec := found.value;
    if rec.revokedAt.Some? || (rec.expiresAt.Some? && !(rec.expiresAt.value > now)) {
      return RevokedOrExpired;
    }
    return Accepted(Key(rec.id, rec.name, rec.rank, rec.hash, rec.scopes[..], rec.expiresAt,
                        rec.revokedAt, rec.lastUsedAt, rec.requestCount, rec.createdAt));
  }
  /** The middleware with the touch it spawns on acceptance, which looks the key up by id at `touchedAt`. */
  method AuthThenTouch(store: KeyStore, header: string, h: Hash, now: int, touchedAt: int) returns (v: Verdict)
    requires store.Valid()
    modifies store`keys
    ensures store.Valid() && v == Authenticate(old(store.View()), header, h, now)
    ensures store.View() == if v.Accepted? then Touched(old(store.View()), v.key.id, touchedAt) else old(store.View())
    ensures v.Accepted? ==>
              && h(header) in store.View().keys
              && store.View().keys[h(header)] ==
                 v.key.(lastUsedAt := Some(touchedAt), requestCount := v.key.requestCount + 1)
  {
    v := Auth(store, header, h, now);
    if v.Accepted? {
      assert HashBound(store.View(), h(header)) && IdBound(store.View(), v.key.id);
      var _ := store.Touch(v.key.id, touchedAt);
    }
  }
}
