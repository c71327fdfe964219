/** The `research_data` object store (`keyPath: 'id'`, `autoIncrement: true`)
    as a map from key to record plus the store's key generator, following
    the key generator rules of section 2.11 of the W3C Indexed Database API
    3.0: the current number starts at 1, a generated key is the current
    number, generation fails once the current number exceeds 2^53, and a put
    with an explicit numeric key k raises the current number to
    min(k, 2^53) + 1 when that is larger. Clearing a store does not reset
    its key generator. */
module ObjectStore {
  import opened Wrappers
  import opened Records

  /** 2^53, the largest key a key generator hands out. */
  const MaxGeneratedKey: nat := 0x20_0000_0000_0000

  datatype Store = Store(records: map<nat, Record>, nextKey: nat)

  /** Failures the application reports: the database cannot be opened, a
      read or a write request fails, or an add is refused by the store. */
  datatype StoreError = StorageUnavailable | ReadFailed | WriteFailed | ConstraintError

  /** How the browser's storage behaves for one call: it works, the
      database cannot be opened, or the request fails (quota, I/O). */
  datatype Env = Working | OpenFails | RequestFails

  /** Every record sits under its own id; the key generator is within its
      range, and every key lies below the next generated key unless the
      generator is exhausted. */
  predicate Valid(s: Store) {
    && 1 <= s.nextKey <= MaxGeneratedKey + 1
    && forall k :: k in s.records ==>
         s.records[k].id == k && (k < s.nextKey || s.nextKey == MaxGeneratedKey + 1)
  }

  /** The record that `saveResearchData` adds: the face data with
      `timestamp` set to the save time and `id` injected by the store. */
  function Stamp(key: nat, data: FaceData, now: int): (r: Record)
    ensures r.id == key && r.timestamp == now
    ensures r.descriptor == Some(data.descriptor) && r.landmarks == Some(data.landmarks) && r.detection == Some(data.box)
    ensures r.kind.None?
  {
    Record(key, Some(data.descriptor), Some(data.landmarks), Some(data.box), now, None)
  }

  datatype Added = Added(store: Store, key: nat)

  /** `store.add(data)` on an auto-increment store, for a value without an
      `id` property: the key is generated. The add fails if the generator is
      exhausted or the generated key is taken; a failed request leaves the
      store and its generator as they were. */
  function Add(s: Store, data: FaceData, now: int): (r: Result<Added, StoreError>)
    ensures Valid(s) && s.nextKey <= MaxGeneratedKey ==> r.Success?
    ensures r.Failure? ==> r.error == ConstraintError
    ensures r.Success? ==>
      && r.value.key !in s.records
      && r.value.key >= 1
      && r.value.key == s.nextKey
      && r.value.store.nextKey == s.nextKey + 1
      && r.value.store.records == s.records[r.value.key := Stamp(r.value.key, data, now)]
      && |r.value.store.records| == |s.records| + 1
    ensures r.Success? && Valid(s) ==> Valid(r.value.store)
  {
    if s.nextKey > MaxGeneratedKey || s.nextKey < 1 then Failure(ConstraintError)
    else if s.nextKey in s.records then Failure(ConstraintError)
    else
      var key := s.nextKey;
      Success(Added(Store(s.records[key := Stamp(key, data, now)], key + 1), key))
  }

  /** The key generator after a put with explicit key `key`: a key at or
      above the current number, capped at 2^53, moves the current number
      just past it; any other put leaves it alone. */
  function Bump(next: nat, key: nat): (n: nat)
    ensures next <= n
    ensures key <= MaxGeneratedKey ==> key < n
    ensures key > MaxGeneratedKey && next <= MaxGeneratedKey + 1 ==> n == MaxGeneratedKey + 1
    ensures key < next || next > MaxGeneratedKey ==> n == next
    ensures next <= key <= MaxGeneratedKey ==> n == key + 1
  {
    var value := if key < MaxGeneratedKey then key else MaxGeneratedKey;
    if value >= next then value + 1 else next
  }

  /** A key generated after `clear()` is above every key the store held
      before: generated keys are never reused, even once the records are
      gone. */
  lemma AddAfterClearIsFresh(s: Store, data: FaceData, now: int)
    requires Valid(s)
    ensures var r := Add(Clear(s), data, now);
      r.Success? ==> forall k :: k in s.records ==> k < r.value.key
  {
  }

  /** `store.put(record)`: writes the record under its id, overwriting a
      record already there. */
  function Put(s: Store, rec: Record): (t: Store)
    ensures t.records == s.records[rec.id := rec]
    ensures Valid(s) ==> Valid(t)
    ensures rec.id < s.nextKey || s.nextKey == MaxGeneratedKey + 1 ==> t.nextKey == s.nextKey
  {
    Store(s.records[rec.id := rec], Bump(s.nextKey, rec.id))
  }

  /** `store.clear()`: removes every record but keeps the key generator. */
  function Clear(s: Store): (t: Store)
    ensures t.records == map[] && t.nextKey == s.nextKey
    ensures Valid(s) ==> Valid(t)
  {
    Store(map[], s.nextKey)
  }

  /** `store.get(id)`: the record under `id`, or `undefined`. */
  function Get(s: Store, id: int): (r: Option<Record>)
    ensures r.Some? <==> id >= 0 && id in s.records
    ensures r.Some? ==> r.value == s.records[id]
    ensures r.Some? && Valid(s) ==> r.value.id == id
  {
    if id >= 0 && id in s.records then Some(s.records[id]) else None
  }

  /** The least element of a non-empty set of keys. */
  function Least(ks: set<nat>): (m: nat)
    requires ks != {}
    ensures m in ks && forall k :: k in ks ==> m <= k
  {
    MinExists(ks);
    var m :| m in ks && forall k :: k in ks ==> m <= k;
    m
  }

  /** The keys of `ks` in ascending order. */
  function KeysAscending(ks: set<nat>): (r: seq<nat>)
    ensures forall i, j :: 0 <= i < j < |r| ==> r[i] < r[j]
    ensures forall k :: k in r <==> k in ks
    ensures |r| == |ks|
    decreases |ks|
  {
    if ks == {} then []
    else
      var m := Least(ks);
      assert |ks - {m}| < |ks|;
      var rest := KeysAscending(ks - {m});
      PrependMin(m, ks, rest);
      [m] + rest
  }

  lemma PrependMin(m: nat, ks: set<nat>, rest: seq<nat>)
    requires m in ks && forall k :: k in ks ==> m <= k
    requires forall i, j :: 0 <= i < j < |rest| ==> rest[i] < rest[j]
    requires forall k :: k in rest <==> k in ks - {m}
    requires |rest| == |ks - {m}|
    ensures forall i, j :: 0 <= i < j < |[m] + rest| ==> ([m] + rest)[i] < ([m] + rest)[j]
    ensures forall k :: k in [m] + rest <==> k in ks
    ensures |[m] + rest| == |ks|
  {
    var r := [m] + rest;
    forall i, j | 0 <= i < j < |r| ensures r[i] < r[j] {
      if i == 0 {
        assert r[j] == rest[j - 1];
        assert rest[j - 1] in rest;
      }
    }
    assert ks == (ks - {m}) + {m};
  }

  lemma MinExists(ks: set<nat>)
    requires ks != {}
    ensures exists m :: m in ks && forall k :: k in ks ==> m <= k
  {
    var x :| x in ks;
    MinAtMost(ks, x);
  }

  /** A set of naturals holding `x` has a least element: descend from `x`
      while a smaller element exists. */
  lemma {:induction false} MinAtMost(ks: set<nat>, x: nat)
    requires x in ks
    ensures exists m :: m in ks && forall k :: k in ks ==> m <= k
    decreases x
  {
    if exists y :: y in ks && y < x {
      var y :| y in ks && y < x;
      MinAtMost(ks, y);
    } else {
      assert forall k :: k in ks ==> x <= k;
    }
  }

  /** The records under the keys `ks`, in that order. */
  function RecordsAt(m: map<nat, Record>, ks: seq<nat>): (r: seq<Record>)
    requires forall i :: 0 <= i < |ks| ==> ks[i] in m
    ensures |r| == |ks|
    ensures forall i :: 0 <= i < |ks| ==> r[i] == m[ks[i]]
    decreases |ks|
  {
    if ks == [] then [] else [m[ks[0]]] + RecordsAt(m, ks[1..])
  }

  /** `store.getAll()`: every record, in ascending key order. */
  function GetAll(s: Store): (r: seq<Record>)
    ensures |r| == |s.records|
    ensures forall k :: k in s.records ==> s.records[k] in r
    ensures Valid(s) ==> forall i :: 0 <= i < |r| ==> r[i].id in s.records && s.records[r[i].id] == r[i]
    ensures Valid(s) ==> forall i, j :: 0 <= i < j < |r| ==> r[i].id < r[j].id
  {
    var ks := KeysAscending(s.records.Keys);
    KeysInStore(s, ks);
    var r := RecordsAt(s.records, ks);
    GetAllFacts(s, ks, r);
    r
  }

  lemma KeysInStore(s: Store, ks: seq<nat>)
    requires forall k :: k in ks <==> k in s.records.Keys
    ensures forall i :: 0 <= i < |ks| ==> ks[i] in s.records
  {
    forall i | 0 <= i < |ks| ensures ks[i] in s.records {
      assert ks[i] in ks;
    }
  }

  lemma GetAllFacts(s: Store, ks: seq<nat>, r: seq<Record>)
    requires forall i, j :: 0 <= i < j < |ks| ==> ks[i] < ks[j]
    requires forall k :: k in ks <==> k in s.records.Keys
    requires |ks| == |s.records.Keys|
    requires |r| == |ks|
    requires forall i :: 0 <= i < |ks| ==> ks[i] in s.records && r[i] == s.records[ks[i]]
    ensures |r| == |s.records|
    ensures forall k :: k in s.records ==> s.records[k] in r
    ensures Valid(s) ==> forall i :: 0 <= i < |r| ==> r[i].id in s.records && s.records[r[i].id] == r[i]
    ensures Valid(s) ==> forall i, j :: 0 <= i < j < |r| ==> r[i].id < r[j].id
  {
    assert |s.records.Keys| == |s.records|;
    forall k | k in s.records ensures s.records[k] in r {
      var i :| 0 <= i < |ks| && ks[i] == k;
      assert r[i] == s.records[k];
    }
    if Valid(s) {
      assert forall i :: 0 <= i < |r| ==> r[i].id == ks[i];
    }
  }

  /** A read of every record: `getAllDataFromStore`, including the failure
      of opening the database or of the request. */
  function ReadAll(s: Store, env: Env): (r: Result<seq<Record>, StoreError>)
    ensures r.Success? <==> env == Working
    ensures env == OpenFails ==> r == Failure(StorageUnavailable)
    ensures env == RequestFails ==> r == Failure(ReadFailed)
    ensures r.Success? ==> r.value == GetAll(s) && |r.value| == |s.records|
  {
    match env
    case Working => Success(GetAll(s))
    case OpenFails => Failure(StorageUnavailable)
    case RequestFails => Failure(ReadFailed)
  }

  /** Puts `items` one after the other, as `putDataIntoStore` does. */
  function PutAll(s: Store, items: seq<Record>): (t: Store)
    ensures Valid(s) ==> Valid(t)
    ensures s.nextKey <= t.nextKey
    decreases |items|
  {
    if items == [] then s else PutAll(Put(s, items[0]), items[1..])
  }

  /** The contents that a sequence of puts leaves behind, on its own: for
      each id, the last item carrying it. */
  function LastById(items: seq<Record>): (m: map<nat, Record>)
    ensures forall i :: 0 <= i < |items| ==> items[i].id in m
    ensures forall k :: k in m ==> m[k].id == k && m[k] in items
    decreases |items|
  {
    if items == [] then map[]
    else
      var rest := LastById(items[1..]);
      if items[0].id in rest then rest else rest[items[0].id := items[0]]
  }

  /** Puts write by id: the store ends up holding what it held, overridden
      by the last item for each id. */
  lemma {:induction false} PutAllContents(s: Store, items: seq<Record>)
    ensures PutAll(s, items).records == s.records + LastById(items)
    decreases |items|
  {
    if items != [] {
      var x := items[0];
      var rest := LastById(items[1..]);
      PutAllContents(Put(s, x), items[1..]);
      UpdateThenUnion(s.records, x, rest);
    }
  }

  /** Writing `x` and then the map `b` is writing `b`, plus `x` when `b`
      does not hold its id. */
  lemma UpdateThenUnion(a: map<nat, Record>, x: Record, b: map<nat, Record>)
    ensures a[x.id := x] + b == a + (if x.id in b then b else b[x.id := x])
  {
  }

  /** For duplicate ids the last item wins: an item with no later item of
      the same id is the one kept. */
  lemma {:induction false} LastWins(items: seq<Record>, i: nat)
    requires i < |items|
    requires forall j :: i < j < |items| ==> items[j].id != items[i].id
    ensures items[i].id in LastById(items) && LastById(items)[items[i].id] == items[i]
    decreases |items|
  {
    if i != 0 {
      forall j | i - 1 < j < |items[1..]| ensures items[1..][j].id != items[1..][i - 1].id {
        assert items[1..][j] == items[j + 1];
      }
      LastWins(items[1..], i - 1);
    }
  }

  /** Puts of ids that are already below the generator's current number
      leave the generator alone. */
  lemma {:induction false} PutAllKeepsGenerator(s: Store, items: seq<Record>)
    requires forall i :: 0 <= i < |items| ==>
      items[i].id < s.nextKey || s.nextKey == MaxGeneratedKey + 1
    ensures PutAll(s, items).nextKey == s.nextKey
    decreases |items|
  {
    if items != [] {
      var t := Put(s, items[0]);
      assert t.nextKey == s.nextKey;
      forall i | 0 <= i < |items[1..]|
        ensures items[1..][i].id < t.nextKey || t.nextKey == MaxGeneratedKey + 1
      {
        assert items[1..][i] == items[i + 1];
      }
      PutAllKeepsGenerator(t, items[1..]);
    }
  }

  /** Writing back everything `getAll` returned rebuilds the contents. */
  lemma GetAllRebuilds(s: Store)
    requires Valid(s)
    ensures LastById(GetAll(s)) == s.records
  {
    var items := GetAll(s);
    var lb := LastById(items);
    forall k | k in s.records ensures k in lb && lb[k] == s.records[k] {
      var i :| 0 <= i < |items| && items[i] == s.records[k];
      LastWins(items, i);
    }
    forall k | k in lb ensures k in s.records {
      var i :| 0 <= i < |items| && items[i] == lb[k];
    }
  }

  /** Every id that `getAll` lists lies below the generator's current
      number, unless the generator is exhausted. */
  lemma GetAllIdsBelowGenerator(s: Store)
    requires Valid(s)
    ensures forall i :: 0 <= i < |GetAll(s)| ==>
      GetAll(s)[i].id < s.nextKey || s.nextKey == MaxGeneratedKey + 1
  {
    var items := GetAll(s);
    forall i | 0 <= i < |items|
      ensures items[i].id < s.nextKey || s.nextKey == MaxGeneratedKey + 1
    {
      assert items[i].id in s.records;
    }
  }

  lemma ClearThenPutAllGenerator(s: Store)
    requires Valid(s)
    ensures PutAll(Clear(s), GetAll(s)).nextKey == s.nextKey
  {
    GetAllIdsBelowGenerator(s);
    PutAllKeepsGenerator(Clear(s), GetAll(s));
  }

  /** Puts into an emptied store leave exactly the last item per id. */
  lemma PutAllIntoEmpty(c: Store, items: seq<Record>)
    requires c.records == map[]
    ensures PutAll(c, items).records == LastById(items)
  {
    PutAllContents(c, items);
    assert c.records + LastById(items) == LastById(items);
  }

  lemma ClearThenPutAllRecords(s: Store)
    requires Valid(s)
    ensures PutAll(Clear(s), GetAll(s)).records == s.records
  {
    GetAllRebuilds(s);
    PutAllIntoEmpty(Clear(s), GetAll(s));
  }

  /** Clearing a store and putting back what `getAll` returned gives the
      same store, key generator included. */
  lemma ClearThenPutAllIdentity(s: Store)
    requires Valid(s)
    ensures PutAll(Clear(s), GetAll(s)) == s
  {
    ClearThenPutAllGenerator(s);
    ClearThenPutAllRecords(s);
  }
}
