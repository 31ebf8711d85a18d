/**
 API keys and the in-memory key store (internal/repository/memory/keystore.go):
 records by hash, an index from id to hash, and a counter for ids.
 */
module KeyStore {
  import opened Wrappers

  datatype Error = NotFound | Conflict | Invalid(field: string) | NoEntropy

  /** A key record as a value. */
  datatype Key = Key(
    id: int,
    name: string,
    rank: string,
    hash: string,
    scopes: seq<string>,
    expiresAt: Option<int>,
    revokedAt: Option<int>,
    lastUsedAt: Option<int>,
    requestCount: int,
    createdAt: int)

  // ---------- the store as a value ----------

  datatype Store = Store(keys: map<string, Key>, byID: map<int, string>, nextID: int)

  const EMPTY: Store := Store(map[], map[], 1)

  /** The id leads to a record with that id. */
  ghost predicate IdBound(s: Store, id: int)
    requires id in s.byID
  {
    s.byID[id] in s.keys && s.keys[s.byID[id]].id == id
  }

  /** The hash leads to a record with that hash, whose id leads back to it. */
  ghost predicate HashBound(s: Store, h: string)
    requires h in s.keys
  {
    s.keys[h].hash == h && s.keys[h].id in s.byID && s.byID[s.keys[h].id] == h
  }

  /** Ids are exactly 1..nextID-1, and the two indexes are inverse on id and hash. */
  ghost predicate Consistent(s: Store) {
    && s.nextID >= 1
    && (forall id :: id in s.byID <==> 1 <= id < s.nextID)
    && (forall id {:trigger IdBound(s, id)} :: id in s.byID ==> IdBound(s, id))
    && (forall h {:trigger HashBound(s, h)} :: h in s.keys ==> HashBound(s, h))
  }

  /** The record as the store completes it: next id, default rank, creation time. */
  function Completed(s: Store, key: Key, now: int): Key {
    key.(id := s.nextID, rank := if key.rank == "" then "member" else key.rank, createdAt := now)
  }

  function Created(s: Store, key: Key, now: int): Store {
    if key.hash in s.keys then s
    else
      Store(s.keys[key.hash := Completed(s, key, now)], s.byID[s.nextID := key.hash], s.nextID + 1)
  }

  function Revoked(s: Store, id: int, now: int): Store
    requires Consistent(s)
  {
    if id !in s.byID then s
    else
      assert IdBound(s, id);
      s.(keys := s.keys[s.byID[id] := s.keys[s.byID[id]].(revokedAt := Some(now))])
  }

  function Touched(s: Store, id: int, now: int): Store
    requires Consistent(s)
  {
    if id !in s.byID then s
    else
      assert IdBound(s, id);
      var key := s.keys[s.byID[id]];
      s.(keys := s.keys[s.byID[id] := key.(lastUsedAt := Some(now), requestCount := key.requestCount + 1)])
  }

  /** All records, by ascending id. */
  function Listing(s: Store): seq<Key>
    requires Consistent(s)
  {
    seq(s.nextID - 1, i requires 0 <= i < s.nextID - 1 => assert IdBound(s, i + 1); s.keys[s.byID[i + 1]])
  }

  lemma CreatedConsistent(s: Store, key: Key, now: int)
    requires Consistent(s)
    ensures Consistent(Created(s, key, now))
  {
    var s' := Created(s, key, now);
    forall id | id in s'.byID ensures IdBound(s', id) {
      assert id in s.byID ==> IdBound(s, id);
    }
    forall h | h in s'.keys ensures HashBound(s', h) {
      assert h in s.keys ==> HashBound(s, h);
    }
  }

  lemma RevokedConsistent(s: Store, id: int, now: int)
    requires Consistent(s)
    ensures Consistent(Revoked(s, id, now))
  {
    var s' := Revoked(s, id, now);
    assert id in s.byID ==> IdBound(s, id);
    forall i | i in s'.byID ensures IdBound(s', i) { assert IdBound(s, i); }
    forall h | h in s'.keys ensures HashBound(s', h) { assert HashBound(s, h); }
  }

  lemma TouchedConsistent(s: Store, id: int, now: int)
    requires Consistent(s)
    ensures Consistent(Touched(s, id, now))
  {
    var s' := Touched(s, id, now);
    assert id in s.byID ==> IdBound(s, id);
    forall i | i in s'.byID ensures IdBound(s', i) { assert IdBound(s, i); }
    forall h | h in s'.keys ensures HashBound(s', h) { assert HashBound(s, h); }
  }

  /** `List` is strictly ascending by id and holds every record exactly once. */
  lemma ListingComplete(s: Store)
    requires Consistent(s)
    ensures forall i, j :: 0 <= i < j < |Listing(s)| ==> Listing(s)[i].id < Listing(s)[j].id
    ensures forall h :: h in s.keys ==> 1 <= s.keys[h].id <= |Listing(s)| && Listing(s)[s.keys[h].id - 1] == s.keys[h]
    ensures forall i :: 0 <= i < |Listing(s)| ==>
              Listing(s)[i].hash in s.keys && s.keys[Listing(s)[i].hash] == Listing(s)[i]
  {
    forall i | 0 <= i < |Listing(s)|
      ensures Listing(s)[i].id == i + 1 && Listing(s)[i].hash in s.keys && s.keys[Listing(s)[i].hash] == Listing(s)[i]
    {
      ListingAt(s, i);
    }
    forall h | h in s.keys
      ensures 1 <= s.keys[h].id <= |Listing(s)| && Listing(s)[s.keys[h].id - 1] == s.keys[h]
    {
      assert HashBound(s, h) && s.keys[h].id in s.byID;
    }
  }

  lemma ListingAt(s: Store, i: nat)
    requires Consistent(s) && i < s.nextID - 1
    ensures var key := Listing(s)[i]; key.id == i + 1 && key.hash in s.keys && s.keys[key.hash] == key
  {
    assert i + 1 in s.byID && IdBound(s, i + 1) && HashBound(s, s.byID[i + 1]);
  }

  // ---------- the store itself ----------

  /** A record as callers hold it: its scopes are a slice in memory that they may write to. */
  datatype ApiKey = ApiKey(
    id: int,
    name: string,
    rank: string,
    hash: string,
    scopes: array<string>,
    expiresAt: Option<int>,
    revokedAt: Option<int>,
    lastUsedAt: Option<int>,
    requestCount: int,
    createdAt: int)
  {
    ghost function Value(): Key
      reads scopes
    {
      Key(id, name, rank, hash, scopes[..], expiresAt, revokedAt, lastUsedAt, requestCount, createdAt)
    }
  }

  class KeyStore {
    var keys: map<string, ApiKey>
    var byID: map<int, string>
    var nextID: int
    ghost var owned: set<array<string>>  // the scope slices behind the stored records

    ghost predicate Owns()
      reads `keys, `owned
    {
      forall h :: h in keys ==> keys[h].scopes in owned
    }

    ghost function Records(): map<string, Key>
      requires Owns()
      reads `keys, `owned, owned
    {
      map h | h in keys :: keys[h].Value()
    }

    ghost function View(): Store
      requires Owns()
      reads this, owned
    {
      Store(Records(), byID, nextID)
    }

    ghost predicate Valid()
      reads this, owned
    {
      Owns() && Consistent(View())
    }

    constructor ()
      ensures Valid() && View() == EMPTY && owned == {}
    {
      keys, byID, nextID, owned := map[], map[], 1, {};
    }

    /** Stores a copy of the record; the caller gets its own record back completed, with its own slice. */
    method Create(key: ApiKey, now: int) returns (r: Result<ApiKey, Error>)
      requires Valid()
      modifies this
      ensures Valid() && fresh(owned - old(owned)) && old(owned) <= owned
      ensures View() == Created(old(View()), key.Value(), now)
      ensures key.scopes !in old(owned) ==> key.scopes !in owned
      ensures key.hash in old(keys) ==> r == Err(Conflict)
      ensures key.hash !in old(keys) ==>
                r.Ok? && r.value.scopes == key.scopes && r.value.Value() == Completed(old(View()), key.Value(), now)
    {
      if key.hash in keys {
        return Err(Conflict);
      }
      ghost var before, given := View(), key.Value();
      var stored := key.(id := nextID, rank := if key.rank == "" then "member" else key.rank, createdAt := now);
      Put(stored);
      byID := byID[stored.id := stored.hash];
      nextID := nextID + 1;
      CreatedConsistent(before, given, now);
      return Ok(stored);
    }

    /** Files a private copy under the record's hash. */
    method Put(stored: ApiKey)
      requires Owns()
      modifies this`keys, this`owned
      ensures Owns() && fresh(owned - old(owned)) && old(owned) <= owned
      ensures Records() == old(Records())[stored.hash := stored.Value()]
    {
      ghost var before := Records();
      var copy := CopyScopes(stored.scopes);
      var private := stored.(scopes := copy);
      assert private.Value() == stored.Value();
      owned := owned + {copy};
      keys := keys[stored.hash := private];
      assert Records() == before[stored.hash := private.Value()];
    }

    method CopyScopes(scopes: array<string>) returns (copy: array<string>)
      ensures fresh(copy) && copy[..] == scopes[..]
    {
      copy := new string[scopes.Length](i requires 0 <= i < scopes.Length reads scopes => scopes[i]);
    }

    method GetByHash(hash: string) returns (r: Result<ApiKey, Error>)
      requires Valid()
      ensures r.Ok? <==> hash in keys
      ensures r.Ok? ==> fresh(r.value.scopes) && r.value.scopes !in owned && r.value.Value() == View().keys[hash]
      ensures r.Err? ==> r.error == NotFound
    {
      if hash !in keys {
        return Err(NotFound);
      }
      var copy := CopyOf(hash);
      return Ok(copy);
    }

    /** A copy of one record, with a slice of its own. */
    method CopyOf(hash: string) returns (k: ApiKey)
      requires Valid() && hash in keys
      ensures k.hash == hash && IsCopy(k) && fresh(k.scopes)
    {
      assert HashBound(View(), hash);
      var copy := CopyScopes(keys[hash].scopes);
      k := keys[hash].(scopes := copy);
    }

    /** Copies the records in any order, then sorts them by id. */
    method List() returns (out: seq<ApiKey>)
      requires Valid()
      ensures |out| == |Listing(View())|
      ensures forall i :: 0 <= i < |out| ==>
                fresh(out[i].scopes) && out[i].scopes !in owned && out[i].Value() == Listing(View())[i]
    {
      var copies := CopyAll();
      DistinctIDs(copies);
      out := SortByID(copies);
      PlacedByID(copies, out);
    }

    method CopyAll() returns (out: seq<ApiKey>)
      requires Valid()
      ensures forall i :: 0 <= i < |out| ==> fresh(out[i].scopes) && IsCopy(out[i])
      ensures forall i, j :: 0 <= i < j < |out| ==> out[i].hash != out[j].hash
      ensures forall h :: h in keys ==> exists i :: 0 <= i < |out| && out[i].hash == h
    {
      out := [];
      var unseen := keys.Keys;
      while unseen != {}
        invariant unseen <= keys.Keys
        invariant forall i :: 0 <= i < |out| ==> fresh(out[i].scopes) && IsCopy(out[i]) && out[i].hash !in unseen
        invariant forall i, j :: 0 <= i < j < |out| ==> out[i].hash != out[j].hash
        invariant forall h :: h in keys && h !in unseen ==> exists i :: 0 <= i < |out| && out[i].hash == h
        decreases unseen
      {
        var h :| h in unseen;
        var copy := CopyOf(h);
        ghost var seen := out;
        out := out + [copy];
        unseen := unseen - {h};
        assert out[|seen|].hash == h;
        assert forall i :: 0 <= i < |seen| ==> out[i] == seen[i];
      }
    }

    /** A record outside the store with the contents of a stored one. */
    ghost predicate IsCopy(k: ApiKey)
      requires Owns()
      reads this, owned, k.scopes
    {
      k.hash in keys && k.Value() == keys[k.hash].Value()
    }

    lemma DistinctIDs(copies: seq<ApiKey>)
      requires Valid()
      requires forall i :: 0 <= i < |copies| ==> IsCopy(copies[i])
      requires forall i, j :: 0 <= i < j < |copies| ==> copies[i].hash != copies[j].hash
      ensures forall i, j :: 0 <= i < j < |copies| ==> copies[i].id != copies[j].id
    {
      var s := View();
      forall i | 0 <= i < |copies|
        ensures copies[i].id in s.byID && s.byID[copies[i].id] == copies[i].hash
      {
        assert IsCopy(copies[i]) && HashBound(s, copies[i].hash);
      }
    }

    /** A sorted copy of every record is the listing. */
    lemma PlacedByID(copies: seq<ApiKey>, sorted: seq<ApiKey>)
      requires Valid()
      requires forall i :: 0 <= i < |copies| ==> IsCopy(copies[i])
      requires forall h :: h in keys ==> exists i :: 0 <= i < |copies| && copies[i].hash == h
      requires Ascending(sorted) && forall k :: k in sorted <==> k in copies
      ensures |sorted| == |Listing(View())|
      ensures forall i :: 0 <= i < |sorted| ==> sorted[i] in copies && sorted[i].Value() == Listing(View())[i]
    {
      var s := View();
      var ids := seq(|sorted|, i requires 0 <= i < |sorted| => sorted[i].id);
      forall i | 0 <= i < |ids|
        ensures 1 <= ids[i] < s.nextID
      {
        assert sorted[i] in copies && IsCopy(sorted[i]) && HashBound(s, sorted[i].hash);
      }
      forall id | 1 <= id < s.nextID
        ensures id in ids
      {
        assert id in s.byID && IdBound(s, id);
        var i :| 0 <= i < |copies| && copies[i].hash == s.byID[id];
        assert IsCopy(copies[i]) && copies[i] in sorted;
        var j :| 0 <= j < |sorted| && sorted[j] == copies[i];
        assert ids[j] == id;
      }
      RangeInOrder(ids, s.nextID - 1);
      forall i | 0 <= i < |sorted|
        ensures sorted[i] in copies && sorted[i].Value() == Listing(s)[i]
      {
        assert sorted[i] in copies && IsCopy(sorted[i]) && ids[i] == i + 1;
        assert HashBound(s, sorted[i].hash) && IdBound(s, i + 1);
      }
    }

    method Revoke(id: int, now: int) returns (r: Option<Error>)
      requires Valid()
      modifies this`keys
      ensures Valid() && View() == Revoked(old(View()), id, now)
      ensures r == if id in old(byID) then None else Some(NotFound)
    {
      if id !in byID {
        return Some(NotFound);
      }
      var hash := byID[id];
      assert IdBound(View(), id);
      RevokedConsistent(View(), id, now);
      keys := keys[hash := keys[hash].(revokedAt := Some(now))];
      assert Records() == Revoked(old(View()), id, now).keys;
      return None;
    }

    method Touch(id: int, now: int) returns (r: Option<Error>)
      requires Valid()
      modifies this`keys
      ensures Valid() && View() == Touched(old(View()), id, now)
      ensures r == if id in old(byID) then None else Some(NotFound)
    {
      if id !in byID {
        return Some(NotFound);
      }
      var hash := byID[id];
      assert IdBound(View(), id);
      TouchedConsistent(View(), id, now);
      keys := keys[hash := keys[hash].(lastUsedAt := Some(now))];
      keys := keys[hash := keys[hash].(requestCount := keys[hash].requestCount + 1)];
      assert Records() == Touched(old(View()), id, now).keys;
      return None;
    }
  }

  /**
   Ownership: a slice that callers hold (their own, or one a call handed out)
   is never behind a stored record, so writing to it does not reach the store.
   */
  method WriteHeldSlice(store: KeyStore, slice: array<string>, i: nat, scope: string)
    requires store.Valid() && slice !in store.owned && i < slice.Length
    modifies slice
    ensures store.Valid() && store.View() == old(store.View())
  {
    slice[i] := scope;
    assert forall h :: h in store.keys ==> store.keys[h].scopes != slice;
    assert store.Records() == old(store.Records());
  }

  // ---------- sorting a listing ----------

  ghost predicate Ascending(ks: seq<ApiKey>) {
    forall i, j :: 0 <= i < j < |ks| ==> ks[i].id < ks[j].id
  }

  /** `sort.Slice` by id, on records with distinct ids. */
  method SortByID(ks: seq<ApiKey>) returns (out: seq<ApiKey>)
    requires forall i, j :: 0 <= i < j < |ks| ==> ks[i].id != ks[j].id
    ensures Ascending(out) && |out| == |ks|
    ensures forall k :: k in out <==> k in ks
  {
    out := [];
    var n := 0;
    while n < |ks|
      invariant 0 <= n <= |ks| && |out| == n && Ascending(out)
      invariant forall k :: k in out <==> k in ks[..n]
    {
      assert ks[..n + 1] == ks[..n] + [ks[n]];
      out := InsertByID(out, ks[n]);
      n := n + 1;
    }
    assert ks[..n] == ks;
  }

  method InsertByID(ks: seq<ApiKey>, x: ApiKey) returns (out: seq<ApiKey>)
    requires Ascending(ks) && forall k :: k in ks ==> k.id != x.id
    ensures Ascending(out) && |out| == |ks| + 1
    ensures forall k :: k in out <==> k in ks || k == x
  {
    var at := 0;
    while at < |ks| && ks[at].id < x.id
      invariant 0 <= at <= |ks|
      invariant forall i :: 0 <= i < at ==> ks[i].id < x.id
    {
      at := at + 1;
    }
    InsertedInOrder(ks, at, x);
    return ks[..at] + [x] + ks[at..];
  }

  lemma InsertedInOrder(ks: seq<ApiKey>, at: nat, x: ApiKey)
    requires Ascending(ks) && at <= |ks|
    requires forall i :: 0 <= i < at ==> ks[i].id < x.id
    requires at < |ks| ==> x.id < ks[at].id
    ensures Ascending(ks[..at] + [x] + ks[at..])
    ensures forall k :: k in ks[..at] + [x] + ks[at..] <==> k in ks || k == x
  {
    assert ks == ks[..at] + ks[at..];
  }

  /** A strictly ascending sequence of exactly the numbers 1..n has each of them in its place. */
  lemma {:induction false} RangeInOrder(ids: seq<int>, n: nat)
    requires forall i, j :: 0 <= i < j < |ids| ==> ids[i] < ids[j]
    requires forall i :: 0 <= i < |ids| ==> 1 <= ids[i] <= n
    requires forall id :: 1 <= id <= n ==> id in ids
    ensures |ids| == n && forall i :: 0 <= i < n ==> ids[i] == i + 1
  {
    if n == 0 {
      assert ids == [];
    } else {
      assert n in ids;
      var last := |ids| - 1;
      assert ids[last] == n;
      var init := ids[..last];
      forall id | 1 <= id <= n - 1
        ensures id in init
      {
        assert id in ids;
        var i :| 0 <= i < |ids| && ids[i] == id;
        assert init[i] == id;
      }
      RangeInOrder(init, n - 1);
    }
  }
}
