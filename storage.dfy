/** The generic record store. Every partition is a list of records kept under
    a key in the browser's local storage; a service instance owns one key and
    each of its operations reads the list, changes it and writes it back. */
module Storage {
  import opened Values

  /** The persisted state: every key of local storage that holds a list of
      records. A key that is absent is one for which `getItem` gives `null`.
      The JSON text is abstracted away: what is written is what is read. */
  type Store = map<string, seq<Record>>

  /** What `getAll` sees under a key: `JSON.parse(null) || []` is `[]`. */
  function Partition(m: Store, key: string): seq<Record>
  {
    if key in m then m[key] else []
  }

  /** The effect of `initialize` on the store. */
  function Initialized(m: Store, key: string): (r: Store)
    ensures key in r
    ensures key in m ==> r == m
    ensures Partition(r, key) == Partition(m, key)
    ensures r - {key} == m - {key}
  {
    if key in m then m else m[key := []]
  }

  /** Initializing twice is initializing once. */
  lemma InitializeIdempotent(m: Store, key: string)
    ensures Initialized(Initialized(m, key), key) == Initialized(m, key)
  {
  }

  // ---------------------------------------------------------------------------
  // The list helpers the service uses: find, findIndex, filter and the spread

  /** `item.id === id` for an id that is a value: a record without an `id`
      then never matches. (Looking up `undefined`, which would match every
      record without an `id`, cannot be expressed.) */
  predicate HasId(r: Record, id: Value)
  {
    "id" in r && r["id"] == id
  }

  /** `items.findIndex(item => item.id === id)`. */
  function FindIndex(items: seq<Record>, id: Value): (i: int)
    ensures -1 <= i < |items|
    ensures i == -1 <==> forall j :: 0 <= j < |items| ==> !HasId(items[j], id)
    ensures i >= 0 ==> HasId(items[i], id) && forall j :: 0 <= j < i ==> !HasId(items[j], id)
  {
    if items == [] then -1
    else if HasId(items[0], id) then 0
    else
      var k := FindIndex(items[1..], id);
      if k == -1 then -1 else k + 1
  }

  /** `items.find(item => item.id === id)`; `undefined` is None. */
  function Find(items: seq<Record>, id: Value): (r: Option<Record>)
    ensures r == if FindIndex(items, id) == -1 then None else Some(items[FindIndex(items, id)])
  {
    if items == [] then None
    else if HasId(items[0], id) then Some(items[0])
    else Find(items[1..], id)
  }

  /** `items.filter(item => item.id !== id)`. */
  function Without(items: seq<Record>, id: Value): (r: seq<Record>)
    ensures |r| <= |items|
    ensures forall x :: x in r <==> x in items && !HasId(x, id)
    ensures |r| == |items| <==> forall j :: 0 <= j < |items| ==> !HasId(items[j], id)
    ensures (forall j :: 0 <= j < |items| ==> !HasId(items[j], id)) ==> r == items
  {
    if items == [] then []
    else if HasId(items[0], id) then Without(items[1..], id)
    else [items[0]] + Without(items[1..], id)
  }

  /** The number of records whose `id` is the given value. */
  function Count(items: seq<Record>, id: Value): nat
  {
    if items == [] then 0
    else (if HasId(items[0], id) then 1 else 0) + Count(items[1..], id)
  }

  /** `{ ...base, ...updates }`: a shallow merge in which `updates` wins. */
  function Merge(base: Record, updates: Record): (r: Record)
    ensures r.Keys == base.Keys + updates.Keys
    ensures forall k :: k in updates ==> r[k] == updates[k]
    ensures forall k :: k in base && k !in updates ==> r[k] == base[k]
  {
    base + updates
  }

  /** The id `create` assigns: `Date.now().toString()` for the clock reading `now`. */
  function ClockId(now: nat): Value
  {
    Str(NatToString(now))
  }

  /** `{ ...item, id: Date.now().toString() }`: the record `create` stores. */
  function Stamped(item: Record, now: nat): (r: Record)
    ensures r.Keys == item.Keys + {"id"}
    ensures r["id"] == ClockId(now)
    ensures forall k :: k in item && k != "id" ==> r[k] == item[k]
  {
    Merge(item, map["id" := ClockId(now)])
  }

  // ---------------------------------------------------------------------------
  // Properties of the list operations

  /** filter keeps the order: filtering a concatenation is concatenating the filtered parts. */
  lemma {:induction false} WithoutConcat(a: seq<Record>, b: seq<Record>, id: Value)
    ensures Without(a + b, id) == Without(a, id) + Without(b, id)
  {
    if a == [] {
      assert a + b == b;
    } else {
      var ab := a + b;
      assert ab[0] == a[0] && ab[1..] == a[1..] + b;
      WithoutConcat(a[1..], b, id);
      if HasId(a[0], id) {
        assert Without(ab, id) == Without(a[1..] + b, id);
      } else {
        assert Without(ab, id) == [a[0]] + Without(a[1..] + b, id);
      }
    }
  }

  /** delete removes exactly the matching records. */
  lemma {:induction false} WithoutCount(items: seq<Record>, id: Value)
    ensures |Without(items, id)| == |items| - Count(items, id)
  {
    if items != [] {
      WithoutCount(items[1..], id);
    }
  }

  /** No two records carry the same id. */
  predicate DistinctIds(items: seq<Record>)
  {
    forall i, j :: 0 <= i < j < |items| && "id" in items[i] && "id" in items[j] ==> items[i]["id"] != items[j]["id"]
  }

  /** With distinct ids a present id occurs exactly once, so a successful
      delete shrinks the partition by exactly one. */
  lemma {:induction false} DistinctIdsCountOne(items: seq<Record>, id: Value)
    requires DistinctIds(items)
    requires exists j :: 0 <= j < |items| && HasId(items[j], id)
    ensures Count(items, id) == 1
    ensures |Without(items, id)| == |items| - 1
  {
    WithoutCount(items, id);
    if HasId(items[0], id) {
      NoneAfter(items, id);
    } else {
      var j :| 0 <= j < |items| && HasId(items[j], id);
      assert HasId(items[1..][j - 1], id);
      DistinctIdsCountOne(items[1..], id);
    }
  }

  lemma {:induction false} NoneAfter(items: seq<Record>, id: Value)
    requires DistinctIds(items) && items != [] && HasId(items[0], id)
    ensures Count(items[1..], id) == 0
  {
    CountZero(items[1..], id);
  }

  lemma {:induction false} CountZero(items: seq<Record>, id: Value)
    requires forall j :: 0 <= j < |items| ==> !HasId(items[j], id)
    ensures Count(items, id) == 0
  {
    if items != [] {
      CountZero(items[1..], id);
    }
  }

  /** After a delete the id is no longer found, and deleting it again removes
      nothing. */
  lemma DeleteThenGet(items: seq<Record>, id: Value)
    ensures Find(Without(items, id), id) == None
    ensures Without(Without(items, id), id) == Without(items, id)
  {
    var r := Without(items, id);
    assert forall j :: 0 <= j < |r| ==> r[j] in r;
  }

  /** A record whose `id` no earlier record carries is what a lookup of that id
      finds after it is appended. */
  lemma {:induction false} FindAppended(items: seq<Record>, x: Record, id: Value)
    requires forall j :: 0 <= j < |items| ==> !HasId(items[j], id)
    requires HasId(x, id)
    ensures Find(items + [x], id) == Some(x)
  {
    var s := items + [x];
    assert forall j :: 0 <= j < |items| ==> s[j] == items[j];
    assert HasId(s[|items|], id);
  }

  /** The id was issued by the clock before `now`: it is the decimal text of
      an earlier clock reading. */
  predicate IssuedBefore(r: Record, now: nat)
  {
    "id" in r ==> r["id"].Str? && IsDigits(r["id"].s) && ParseNat(r["id"].s) < now
  }

  /** While the clock moves forward between creates, the id `create` assigns
      is fresh, so `getById` of the returned id finds the created record, ids
      stay distinct, and every id is older than the next clock reading. */
  lemma CreateWithAdvancingClock(items: seq<Record>, item: Record, now: nat)
    requires forall j :: 0 <= j < |items| ==> IssuedBefore(items[j], now)
    requires DistinctIds(items)
    ensures forall j :: 0 <= j < |items| ==> !HasId(items[j], ClockId(now))
    ensures Find(items + [Stamped(item, now)], ClockId(now)) == Some(Stamped(item, now))
    ensures DistinctIds(items + [Stamped(item, now)])
    ensures forall j :: 0 <= j < |items| + 1 ==> IssuedBefore((items + [Stamped(item, now)])[j], now + 1)
  {
    var x := Stamped(item, now);
    FreshClockId(items, now);
    FindAppended(items, x, ClockId(now));
    DistinctAppended(items, x);
    ParseNatToString(now);
    IssuedAppended(items, x, now);
  }

  /** Appending a record whose id no record carries keeps ids distinct. */
  lemma DistinctAppended(items: seq<Record>, x: Record)
    requires DistinctIds(items)
    requires "id" in x ==> forall j :: 0 <= j < |items| ==> !HasId(items[j], x["id"])
    ensures DistinctIds(items + [x])
  {
    var s := items + [x];
    assert forall j :: 0 <= j < |items| ==> s[j] == items[j];
  }

  /** Appending a record issued before `now + 1` to records issued before
      `now` gives records all issued before `now + 1`. */
  lemma IssuedAppended(items: seq<Record>, x: Record, now: nat)
    requires forall j :: 0 <= j < |items| ==> IssuedBefore(items[j], now)
    requires IssuedBefore(x, now + 1)
    ensures forall j :: 0 <= j < |items| + 1 ==> IssuedBefore((items + [x])[j], now + 1)
  {
    var s := items + [x];
    assert forall j :: 0 <= j < |items| ==> s[j] == items[j];
  }

  /** No record issued before `now` carries the id of clock reading `now`. */
  lemma FreshClockId(items: seq<Record>, now: nat)
    requires forall j :: 0 <= j < |items| ==> IssuedBefore(items[j], now)
    ensures forall j :: 0 <= j < |items| ==> !HasId(items[j], ClockId(now))
  {
    ParseNatToString(now);
  }

  /** After a successful update that leaves the id alone, `getById` finds the
      merged record. */
  lemma {:induction false} UpdateThenGet(items: seq<Record>, id: Value, updates: Record)
    requires FindIndex(items, id) != -1
    requires "id" in updates ==> updates["id"] == id
    ensures Find(items[FindIndex(items, id) := Merge(items[FindIndex(items, id)], updates)], id)
         == Some(Merge(items[FindIndex(items, id)], updates))
  {
    var i := FindIndex(items, id);
    var s := items[i := Merge(items[i], updates)];
    assert HasId(s[i], id);
    assert forall j :: 0 <= j < i ==> s[j] == items[j];
  }

  // ---------------------------------------------------------------------------
  // The state

  /** The browser's local storage as the record store sees it. */
  class LocalStorage {
    var entries: Store

    constructor (initial: Store)
      ensures entries == initial
    {
      entries := initial;
    }

    /** `JSON.parse(localStorage.getItem(key))` for a key that holds a list. */
    method GetItem(key: string) returns (r: Option<seq<Record>>)
      ensures r == if key in entries then Some(entries[key]) else None
    {
      r := if key in entries then Some(entries[key]) else None;
    }

    /** `localStorage.setItem(key, JSON.stringify(items))`. */
    method SetItem(key: string, items: seq<Record>)
      modifies this
      ensures entries == old(entries)[key := items]
    {
      entries := entries[key := items];
    }
  }

  /** One partition of the record store: `new StorageService(storageKey)`. */
  class StorageService {
    const storageKey: string
    const storage: LocalStorage

    /** The list `getAll` returns. */
    function Items(): seq<Record>
      reads storage
    {
      Partition(storage.entries, storageKey)
    }

    /** The constructor remembers the key and initializes the partition. */
    constructor (storageKey: string, storage: LocalStorage)
      modifies storage
      ensures this.storageKey == storageKey && this.storage == storage
      ensures storage.entries == Initialized(old(storage.entries), storageKey)
    {
      this.storageKey := storageKey;
      this.storage := storage;
      new;
      Initialize();
    }

    /** Writes an empty list when the key is absent, and nothing otherwise. */
    method Initialize()
      modifies storage
      ensures storage.entries == Initialized(old(storage.entries), storageKey)
      ensures Items() == old(Items())
    {
      var stored := storage.GetItem(storageKey);
      if stored.None? {
        storage.SetItem(storageKey, []);
      }
    }

    /** Every record of the partition, in stored order; `[]` when the key is absent. */
    method GetAll() returns (items: seq<Record>)
      ensures items == Items()
      ensures storageKey !in storage.entries ==> items == []
    {
      var stored := storage.GetItem(storageKey);
      items := if stored.Some? then stored.value else [];
    }

    /** The first record whose `id` is `id`, or None when no record has it. */
    method GetById(id: Value) returns (r: Option<Record>)
      ensures r == Find(Items(), id)
      ensures r.None? <==> forall j :: 0 <= j < |Items()| ==> !HasId(Items()[j], id)
      ensures r.Some? ==> HasId(r.value, id) && r.value in Items()
    {
      var items := GetAll();
      r := Find(items, id);
    }

    /** Appends `item` with a fresh `id` from the clock and returns the stored record. */
    method Create(item: Record, now: nat) returns (newItem: Record)
      modifies storage
      ensures newItem == Stamped(item, now)
      ensures storage.entries == old(storage.entries)[storageKey := old(Items()) + [newItem]]
      ensures Items() == old(Items()) + [newItem]
      ensures storage.entries - {storageKey} == old(storage.entries) - {storageKey}
    {
      var items := GetAll();
      newItem := Stamped(item, now);
      items := items + [newItem];
      storage.SetItem(storageKey, items);
    }

    /** Merges `updates` into the first record with `id` and returns it; when
        there is none, writes nothing and returns None (`null`). */
    method Update(id: Value, updates: Record) returns (r: Option<Record>)
      modifies storage
      ensures FindIndex(old(Items()), id) == -1 ==> r == None && storage.entries == old(storage.entries)
      ensures FindIndex(old(Items()), id) != -1 ==>
        var i := FindIndex(old(Items()), id);
        var merged := Merge(old(Items())[i], updates);
        && r == Some(merged)
        && storage.entries == old(storage.entries)[storageKey := old(Items())[i := merged]]
      ensures storage.entries - {storageKey} == old(storage.entries) - {storageKey}
    {
      var items := GetAll();
      var index := FindIndex(items, id);
      if index != -1 {
        items := items[index := Merge(items[index], updates)];
        storage.SetItem(storageKey, items);
        return Some(items[index]);
      }
      return None;
    }

    /** Rewrites the partition without the records whose `id` is `id` and
        reports whether any was removed. */
    method Delete(id: Value) returns (removed: bool)
      modifies storage
      ensures storage.entries == old(storage.entries)[storageKey := Without(old(Items()), id)]
      ensures Items() == Without(old(Items()), id)
      ensures removed <==> exists j :: 0 <= j < |old(Items())| && HasId(old(Items())[j], id)
      ensures storage.entries - {storageKey} == old(storage.entries) - {storageKey}
    {
      var items := GetAll();
      var filteredItems := Without(items, id);
      storage.SetItem(storageKey, filteredItems);
      removed := |filteredItems| != |items|;
    }
  }

  /** The two services the application creates, over one shared local
      storage: `cashStorage` and `metalsStorage`. */
  method CreateServices(storage: LocalStorage) returns (cashStorage: StorageService, metalsStorage: StorageService)
    modifies storage
    ensures cashStorage.storageKey == "cashData" && metalsStorage.storageKey == "metalsData"
    ensures cashStorage.storage == storage && metalsStorage.storage == storage
    ensures cashStorage.storageKey != metalsStorage.storageKey
    ensures storage.entries == Initialized(Initialized(old(storage.entries), "cashData"), "metalsData")
  {
    cashStorage := new StorageService("cashData", storage);
    metalsStorage := new StorageService("metalsData", storage);
  }

  /** `create`, `update` and `delete` through one service leave what a service
      over the same storage with another key sees exactly as it was: writes
      through `cashStorage` never change the `metalsData` partition, and the
      other way round. */
  method WritesLeaveOtherPartition(writer: StorageService, reader: StorageService,
                                   item: Record, now: nat, id: Value, updates: Record)
    requires writer.storage == reader.storage
    requires writer.storageKey != reader.storageKey
    modifies writer.storage
    ensures reader.Items() == old(reader.Items())
  {
    ghost var before := writer.storage.entries;
    var created := writer.Create(item, now);
    OtherKeyKept(before, writer.storage.entries, writer.storageKey, reader.storageKey);
    ghost var afterCreate := writer.storage.entries;
    var updated := writer.Update(id, updates);
    OtherKeyKept(afterCreate, writer.storage.entries, writer.storageKey, reader.storageKey);
    ghost var afterUpdate := writer.storage.entries;
    var removed := writer.Delete(id);
    OtherKeyKept(afterUpdate, writer.storage.entries, writer.storageKey, reader.storageKey);
  }

  /** Two stores that agree everywhere but at `key` give every other key the same partition. */
  lemma OtherKeyKept(m: Store, m': Store, key: string, other: string)
    requires m' - {key} == m - {key}
    requires other != key
    ensures Partition(m', other) == Partition(m, other)
  {
    assert other in m' <==> other in m' - {key};
    assert other in m <==> other in m - {key};
    if other in m {
      assert (m - {key})[other] == m[other];
      assert (m' - {key})[other] == m'[other];
    }
  }
}
