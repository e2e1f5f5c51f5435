/** `NeuralDB`, the application's wrapper around the browser's IndexedDB: a
    database "ForraNovaVault" at version 1, opened lazily, whose object stores
    map keys to records. The pure functions below give the meaning of each
    operation on a value `Db`; the class `NeuralDB` performs the operations in
    place and is proved to agree with them. */
module Persistence {
  import opened Wrappers
  import Text
  import Numerals

  /** An IndexedDB key as the application uses them: a number or a string. */
  datatype Key = Num(n: int) | Str(s: string)

  /** The value of a record attribute. */
  datatype Attr = TextAttr(text: string) | IntAttr(value: int)

  /** A record: its `id` (absent, or a key) and its other attributes by name.
      A nested attribute such as `metadata.subject` is named by its path. */
  datatype Record = Record(id: Option<Key>, attrs: map<string, Attr>)

  /** Why an operation's promise rejects. */
  datatype DbError =
    | VersionError   // the database on disk is newer than the version `init` opens
    | NotFoundError  // `transaction` names a store that the database lacks
    | DataError      // `delete` is given NaN, which is not a valid key

  type ObjectStore = map<Key, Record>

  const DbName: string := "ForraNovaVault"
  const DbVersion: nat := 1

  /** The stores that `init`'s upgrade creates, both keyed on `id`. */
  const SchemaStores: set<string> := {"vault", "gallery"}

  /** `!data.id`: the ids JavaScript counts as false. An absent, `null`,
      `undefined`, `false` or NaN id is None here; the keys 0 and "" are the
      two falsy keys. */
  predicate Falsy(id: Option<Key>) {
    id == None || id == Some(Num(0)) || id == Some(Str(""))
  }

  /** `Number(id)`; None stands for NaN. */
  function ToNumber(k: Key): Option<int> {
    match k
    case Num(n) => Some(n)
    case Str(s) => Numerals.StringToNumber(s)
  }

  /** The text a key becomes once written into the page (`'${file.id}'`). */
  function Rendered(k: Key): string {
    match k
    case Num(n) => Numerals.ToRadix(n, 10)
    case Str(s) => s
  }

  // ---------------------------------------------------------------------
  // Key order

  /** Lexicographic order on strings, character by character. */
  predicate StrLess(a: string, b: string) {
    if a == [] then b != []
    else if b == [] then false
    else a[0] < b[0] || (a[0] == b[0] && StrLess(a[1..], b[1..]))
  }

  /** IndexedDB's key order: every number before every string, numbers by
      value, strings lexicographically. */
  predicate KeyLess(a: Key, b: Key) {
    match (a, b)
    case (Num(x), Num(y)) => x < y
    case (Num(_), Str(_)) => true
    case (Str(_), Num(_)) => false
    case (Str(x), Str(y)) => StrLess(x, y)
  }

  lemma {:induction false} StrLessIrreflexive(a: string)
    ensures !StrLess(a, a)
    decreases |a|
  {
    if a != [] {
      StrLessIrreflexive(a[1..]);
    }
  }

  lemma {:induction false} StrLessTransitive(a: string, b: string, c: string)
    requires StrLess(a, b) && StrLess(b, c)
    ensures StrLess(a, c)
    decreases |a|
  {
    if a != [] && a[0] == b[0] && b[0] == c[0] {
      StrLessTransitive(a[1..], b[1..], c[1..]);
    }
  }

  lemma {:induction false} StrLessTotal(a: string, b: string)
    requires a != b
    ensures StrLess(a, b) || StrLess(b, a)
    decreases |a|
  {
    if a != [] && b != [] && a[0] == b[0] {
      StrLessTotal(a[1..], b[1..]);
    }
  }

  /** Key order is a strict total order. */
  lemma KeyLessIsStrictTotalOrder(a: Key, b: Key, c: Key)
    ensures !KeyLess(a, a)
    ensures KeyLess(a, b) && KeyLess(b, c) ==> KeyLess(a, c)
    ensures a != b ==> KeyLess(a, b) || KeyLess(b, a)
  {
    if a.Str? {
      StrLessIrreflexive(a.s);
    }
    if a.Str? && b.Str? && c.Str? && KeyLess(a, b) && KeyLess(b, c) {
      StrLessTransitive(a.s, b.s, c.s);
    }
    if a.Str? && b.Str? && a != b {
      StrLessTotal(a.s, b.s);
    }
  }

  /** `m` is the least key of `ks`. */
  predicate IsLeast(m: Key, ks: set<Key>) {
    m in ks && forall k | k in ks && k != m :: KeyLess(m, k)
  }

  /** Every non-empty finite set of keys has a least key. */
  lemma {:induction false} LeastKeyExists(ks: set<Key>)
    requires ks != {}
    ensures exists m :: IsLeast(m, ks)
    decreases |ks|
  {
    var x :| x in ks;
    if ks == {x} {
      assert IsLeast(x, ks);
    } else {
      var rest := ks - {x};
      LeastKeyExists(rest);
      var m :| IsLeast(m, rest);
      KeyLessIsStrictTotalOrder(x, m, x);
      if KeyLess(x, m) {
        forall k | k in ks && k != x
          ensures KeyLess(x, k)
        {
          if k != m {
            KeyLessIsStrictTotalOrder(x, m, k);
          }
        }
        assert IsLeast(x, ks);
      } else {
        forall k | k in ks && k != m
          ensures KeyLess(m, k)
        {
          if k == x {
            KeyLessIsStrictTotalOrder(m, x, k);
          }
        }
        assert IsLeast(m, ks);
      }
    }
  }

  // ---------------------------------------------------------------------
  // One object store

  /** The key path `id` holds: each record is stored under its own id. */
  ghost predicate KeyPathHolds(st: ObjectStore) {
    forall k | k in st :: st[k].id == Some(k)
  }

  /** `if (!data.id) data.id = Date.now()`: a record with a falsy id is given
      the time as a numeric id; any other id is kept as it is. */
  function WithId(data: Record, now: int): (r: Record)
    ensures r.attrs == data.attrs && r.id.Some?
    ensures !Falsy(data.id) ==> r == data
    ensures Falsy(data.id) ==> r.id == Some(Num(now))
  {
    if Falsy(data.id) then data.(id := Some(Num(now))) else data
  }

  /** `store.put(record)`: an upsert. The record is stored under its id,
      replacing any earlier record with that id; nothing else changes. */
  function Put(st: ObjectStore, r: Record): (st': ObjectStore)
    requires r.id.Some?
    ensures st'.Keys == st.Keys + {r.id.value}
    ensures st'[r.id.value] == r
    ensures forall k | k in st && k != r.id.value :: st'[k] == st[k]
  {
    st[r.id.value := r]
  }

  /** `store.delete(Number(id))`: None when `Number(id)` is NaN (the call
      throws DataError); otherwise the store without the numeric key, which
      may be absent. */
  function Remove(st: ObjectStore, id: Key): (r: Option<ObjectStore>)
    ensures r.None? <==> ToNumber(id).None?
    ensures r.Some? ==> Num(ToNumber(id).value) !in r.value
    ensures r.Some? ==> r.value.Keys == st.Keys - {Num(ToNumber(id).value)}
    ensures r.Some? ==> forall k | k in r.value :: r.value[k] == st[k]
  {
    match ToNumber(id)
    case None => None
    case Some(n) => Some(st - {Num(n)})
  }

  /** The records of a store, listed in key order (what `getAll` resolves with). */
  ghost predicate ListsInKeyOrder(recs: seq<Record>, st: ObjectStore) {
    && |recs| == |st|
    && (forall i | 0 <= i < |recs| ::
          recs[i].id.Some? && recs[i].id.value in st && st[recs[i].id.value] == recs[i])
    && (forall i, j | 0 <= i < j < |recs| :: KeyLess(recs[i].id.value, recs[j].id.value))
    && (forall k | k in st :: st[k] in recs)
  }

  /** `getAll` part way: `recs` lists, in key order, the records whose keys
      are not in `rest`, and every key still in `rest` comes after them. */
  ghost predicate ListedBefore(recs: seq<Record>, st: ObjectStore, rest: set<Key>) {
    && rest <= st.Keys
    && |recs| + |rest| == |st.Keys|
    && (forall i | 0 <= i < |recs| ::
          recs[i].id.Some? && recs[i].id.value in st && recs[i].id.value !in rest
          && st[recs[i].id.value] == recs[i])
    && (forall i, j | 0 <= i < j < |recs| :: KeyLess(recs[i].id.value, recs[j].id.value))
    && (forall i, k | 0 <= i < |recs| && k in rest :: KeyLess(recs[i].id.value, k))
    && (forall k | k in st && k !in rest :: st[k] in recs)
  }

  /** Listing the least remaining key next keeps the listing in order. */
  lemma ListLeastNext(recs: seq<Record>, st: ObjectStore, rest: set<Key>, m: Key)
    requires KeyPathHolds(st) && ListedBefore(recs, st, rest) && IsLeast(m, rest)
    ensures ListedBefore(recs + [st[m]], st, rest - {m})
  {
    var recs', rest' := recs + [st[m]], rest - {m};
    assert |rest'| == |rest| - 1;
    assert recs'[|recs|].id.value == m;
    forall i, k | 0 <= i < |recs'| && k in rest'
      ensures KeyLess(recs'[i].id.value, k)
    {
      if i < |recs| {
        assert recs'[i] == recs[i];
      }
    }
    forall k | k in st && k !in rest'
      ensures st[k] in recs'
    {
      if k != m {
        assert st[k] in recs;
      }
    }
  }

  /** `objectStore.getAll()`: every record of the store, in key order. */
  method ListInKeyOrder(st: ObjectStore) returns (recs: seq<Record>)
    requires KeyPathHolds(st)
    ensures ListsInKeyOrder(recs, st)
  {
    var rest := st.Keys;
    recs := [];
    while rest != {}
      invariant ListedBefore(recs, st, rest)
      decreases |rest|
    {
      LeastKeyExists(rest);
      var m :| IsLeast(m, rest);
      ListLeastNext(recs, st, rest, m);
      recs := recs + [st[m]];
      rest := rest - {m};
    }
  }

  // ---------------------------------------------------------------------
  // The database

  /** The database as the application sees it: whether `NeuralDB.db` holds a
      connection, the version of the database on disk (0: none yet), and its
      object stores by name. */
  datatype Db = Db(connected: bool, version: nat, stores: map<string, ObjectStore>)

  ghost predicate WellFormed(d: Db) {
    && (d.connected ==> d.version == DbVersion)
    && (d.version == 0 ==> d.stores == map[])
    && forall s | s in d.stores :: KeyPathHolds(d.stores[s])
  }

  /** `onupgradeneeded`: creates `vault` and `gallery`, each only if missing. */
  function Upgrade(stores: map<string, ObjectStore>): (r: map<string, ObjectStore>)
    ensures r.Keys == stores.Keys + SchemaStores
    ensures forall s | s in stores :: r[s] == stores[s]
    ensures forall s | s in r && s !in stores :: r[s] == map[]
  {
    var withVault := if "vault" in stores then stores else stores["vault" := map[]];
    if "gallery" in withVault then withVault else withVault["gallery" := map[]]
  }

  /** `init()`: opens version 1. The upgrade runs only when the database on
      disk is older; a newer one makes the open fail. */
  function Open(d: Db): Result<Db, DbError> {
    if d.version > DbVersion then Failure(VersionError)
    else Success(Db(true, DbVersion, if d.version < DbVersion then Upgrade(d.stores) else d.stores))
  }

  /** `if (!this.db) await this.init()`, at the head of every operation. */
  function Ready(d: Db): Result<Db, DbError> {
    if d.connected then Success(d) else Open(d)
  }

  /** `save(storeName, data)`: the new database, and whether the promise
      resolves (with `true`) or why it rejects. On success the record carried
      is `data` as `put` stores it, with the id it was given: the caller sees
      that id only because `save` writes it into the object it was passed. */
  function SaveOp(d: Db, name: string, data: Record, now: int): (Db, Result<Record, DbError>) {
    match Ready(d)
    case Failure(e) => (d, Failure(e))
    case Success(o) =>
      if name !in o.stores then (o, Failure(NotFoundError))
      else
        var rec := WithId(data, now);
        (o.(stores := o.stores[name := Put(o.stores[name], rec)]), Success(rec))
  }

  /** `getAll(storeName)`: the database after the lazy open, and the store
      whose records the promise lists. */
  function GetAllOp(d: Db, name: string): (Db, Result<ObjectStore, DbError>) {
    match Ready(d)
    case Failure(e) => (d, Failure(e))
    case Success(o) =>
      if name !in o.stores then (o, Failure(NotFoundError)) else (o, Success(o.stores[name]))
  }

  /** `delete(storeName, id)`: removes the key `Number(id)`. */
  function DeleteOp(d: Db, name: string, id: Key): (Db, Outcome<DbError>) {
    match Ready(d)
    case Failure(e) => (d, Fail(e))
    case Success(o) =>
      if name !in o.stores then (o, Fail(NotFoundError))
      else
        match Remove(o.stores[name], id)
        case None => (o, Fail(DataError))
        case Some(st) => (o.(stores := o.stores[name := st]), Pass)
  }

  // ---------------------------------------------------------------------
  // Properties of the operations

  /** The lazy open keeps the database well formed. */
  lemma ReadyKeepsWellFormed(d: Db)
    requires WellFormed(d)
    ensures Ready(d).Success? ==> WellFormed(Ready(d).value)
  {
    if !d.connected && d.version <= DbVersion {
      var o := Ready(d).value;
      forall s | s in o.stores
        ensures KeyPathHolds(o.stores[s])
      {
        if s !in d.stores {
          assert o.stores[s] == map[];
        }
      }
    }
  }

  /** Replacing one store by a store whose key path holds keeps the database
      well formed. */
  lemma ReplaceStoreKeepsWellFormed(o: Db, name: string, st: ObjectStore)
    requires WellFormed(o) && o.version != 0 && KeyPathHolds(st)
    ensures WellFormed(o.(stores := o.stores[name := st]))
  {
  }

  /** Every operation keeps the key path and the connection/version facts. */
  lemma OperationsKeepWellFormed(d: Db, name: string, data: Record, now: int, id: Key)
    requires WellFormed(d)
    ensures WellFormed(SaveOp(d, name, data, now).0)
    ensures WellFormed(GetAllOp(d, name).0)
    ensures WellFormed(DeleteOp(d, name, id).0)
  {
    ReadyKeepsWellFormed(d);
    if Ready(d).Success? && name in Ready(d).value.stores {
      var o := Ready(d).value;
      var st := o.stores[name];
      var rec := WithId(data, now);
      var put := Put(st, rec);
      assert KeyPathHolds(put) by {
        forall k | k in put
          ensures put[k].id == Some(k)
        {
          if k != rec.id.value {
            assert put[k] == st[k];
          }
        }
      }
      ReplaceStoreKeepsWellFormed(o, name, put);
      match Remove(st, id)
      case None =>
      case Some(st') =>
        ReplaceStoreKeepsWellFormed(o, name, st');
    }
  }

  /** `init` runs only when no connection is held, and a successful open keeps
      every store already on disk, with its contents, and adds the schema's. */
  lemma InitOnlyWhenDisconnected(d: Db)
    ensures d.connected ==> Ready(d) == Success(d)
    ensures Ready(d).Success? ==> Ready(d).value.connected
    ensures Ready(d).Failure? <==> !d.connected && d.version > DbVersion
    ensures Ready(d).Success? ==>
      d.stores.Keys <= Ready(d).value.stores.Keys
      && forall s | s in d.stores :: Ready(d).value.stores[s] == d.stores[s]
    ensures Ready(d).Success? && !d.connected && d.version < DbVersion ==>
      SchemaStores <= Ready(d).value.stores.Keys
  {
  }

  /** `save` is an upsert: the store maps the record's id to the record,
      every other key and every other store keep what they had. */
  lemma SaveIsUpsert(d: Db, name: string, data: Record, now: int)
    requires SaveOp(d, name, data, now).1.Success?
    ensures var (d', r) := SaveOp(d, name, data, now);
      var before := Ready(d).value.stores;
      && r.value == WithId(data, now)
      && d'.stores.Keys == before.Keys
      && r.value.id.value in d'.stores[name]
      && d'.stores[name][r.value.id.value] == r.value
      && (forall k | k in before[name] && k != r.value.id.value :: d'.stores[name][k] == before[name][k])
      && (forall s | s in before && s != name :: d'.stores[s] == before[s])
  {
  }

  /** Saving twice under one id leaves one record with that id: the second. */
  lemma SaveTwiceSecondWins(d: Db, name: string, r1: Record, r2: Record, now1: int, now2: int)
    requires SaveOp(d, name, r1, now1).1.Success?
    requires !Falsy(r1.id) && r2.id == r1.id
    ensures var d1 := SaveOp(d, name, r1, now1).0;
      var (d2, res) := SaveOp(d1, name, r2, now2);
      && res == Success(r2)
      && d2.stores[name] == Ready(d).value.stores[name][r1.id.value := r2]
  {
  }

  /** Read after write: a later `getAll` on the store lists the saved record. */
  lemma SaveThenGetAll(d: Db, name: string, data: Record, now: int, recs: seq<Record>)
    requires SaveOp(d, name, data, now).1.Success?
    requires var d1 := SaveOp(d, name, data, now).0;
      GetAllOp(d1, name).1.Success? && ListsInKeyOrder(recs, GetAllOp(d1, name).1.value)
    ensures WithId(data, now) in recs
  {
    var d1 := SaveOp(d, name, data, now).0;
    var st := GetAllOp(d1, name).1.value;
    var rec := WithId(data, now);
    assert rec.id.value in st && st[rec.id.value] == rec;
  }

  /** Saving into one store leaves every other store as it was. */
  lemma StoresAreIsolated(d: Db, name: string, other: string, data: Record, now: int, id: Key)
    requires name != other && Ready(d).Success? && other in Ready(d).value.stores
    ensures SaveOp(d, name, data, now).0.stores[other] == Ready(d).value.stores[other]
    ensures DeleteOp(d, name, id).0.stores[other] == Ready(d).value.stores[other]
  {
  }

  /** `save` and `getAll` on a store the schema never created reject. */
  lemma UndeclaredStoreRejects(d: Db, name: string, data: Record, now: int)
    requires Ready(d).Success? && name !in Ready(d).value.stores
    ensures SaveOp(d, name, data, now).1 == Failure(NotFoundError)
    ensures GetAllOp(d, name).1 == Failure(NotFoundError)
  {
  }

  /** Deleting twice is the same as deleting once, and a key that is not
      there leaves the store unchanged. */
  lemma DeleteIsIdempotent(d: Db, name: string, id: Key)
    requires DeleteOp(d, name, id).1 == Pass
    ensures var d1 := DeleteOp(d, name, id).0;
      DeleteOp(d1, name, id) == (d1, Pass)
    ensures Num(ToNumber(id).value) !in Ready(d).value.stores[name] ==>
      DeleteOp(d, name, id).0 == Ready(d).value
  {
    DeletePasses(d, name, id);
    var o := Ready(d).value;
    var key := Num(ToNumber(id).value);
    var d1 := DeleteOp(d, name, id).0;
    DeleteOpOnReady(d1, name, id);
    DropAbsentKey(d1, name, key);
    if key !in o.stores[name] {
      DropAbsentKey(o, name, key);
    }
  }

  /** Dropping a key a store lacks changes nothing. */
  lemma DropAbsentKey(o: Db, name: string, key: Key)
    requires name in o.stores && key !in o.stores[name]
    ensures o.(stores := o.stores[name := o.stores[name] - {key}]) == o
  {
    assert o.stores[name] - {key} == o.stores[name];
    assert o.stores[name := o.stores[name]] == o.stores;
  }

  /** A `delete` that resolves found the store open and a number for a key. */
  lemma DeletePasses(d: Db, name: string, id: Key)
    requires DeleteOp(d, name, id).1 == Pass
    ensures Ready(d).Success? && Ready(d).value.connected && name in Ready(d).value.stores
    ensures ToNumber(id).Some?
    ensures var o := Ready(d).value;
      DeleteOp(d, name, id).0 == o.(stores := o.stores[name := o.stores[name] - {Num(ToNumber(id).value)}])
  {
  }

  /** `delete` on an open database with the store and a number for a key:
      the store loses that numeric key. */
  lemma DeleteOpOnReady(o: Db, name: string, id: Key)
    requires o.connected && name in o.stores && ToNumber(id).Some?
    ensures DeleteOp(o, name, id)
      == (o.(stores := o.stores[name := o.stores[name] - {Num(ToNumber(id).value)}]), Pass)
  {
  }

  /** An auto-assigned numeric id, handed back as the string the page rendered
      it as, is deleted. */
  lemma DeleteHitsRenderedNumericId(d: Db, name: string, n: int)
    requires Ready(d).Success? && name in Ready(d).value.stores
    ensures var (d', r) := DeleteOp(d, name, Str(Rendered(Num(n))));
      r == Pass && Num(n) !in d'.stores[name]
  {
    Numerals.NumberOfDecimal(n);
  }

  /** A `delete` whose id is NaN to `Number` rejects with DataError and
      changes nothing beyond the lazy open. */
  lemma DeleteOfNaNRejects(d: Db, name: string, id: Key)
    requires Ready(d).Success? && name in Ready(d).value.stores && ToNumber(id).None?
    ensures DeleteOp(d, name, id) == (Ready(d).value, Fail(DataError))
  {
  }

  /** `delete` never removes a record whose id is a string. */
  lemma DeleteKeepsStringKeys(d: Db, name: string, id: Key, s: string)
    requires Ready(d).Success? && name in Ready(d).value.stores
    requires Str(s) in Ready(d).value.stores[name]
    ensures var d' := DeleteOp(d, name, id).0;
      Str(s) in d'.stores[name] && d'.stores[name][Str(s)] == Ready(d).value.stores[name][Str(s)]
  {
  }

  /** A named id such as "a.txt" makes `delete` reject with DataError and
      leaves the store as it was. */
  lemma DeleteOfNamedIdRejects(d: Db, name: string, s: string, i: int)
    requires Ready(d).Success? && name in Ready(d).value.stores
    requires 0 <= i < |s| && !('0' <= s[i] <= '9') && s[i] != '-' && s[i] != '+' && !Text.IsSpace(s[i])
    ensures DeleteOp(d, name, Str(s)) == (Ready(d).value, Fail(DataError))
  {
    Numerals.NamedIdIsNaN(s, i);
  }

  // ---------------------------------------------------------------------
  // The delete the callers evidently intend

  /** Removes every record whose id renders as `id`: the named file "a.txt"
      and the auto-numbered record shown as "1700000000000" alike. */
  function RemoveRendered(st: ObjectStore, id: string): (r: ObjectStore)
    ensures Str(id) !in r
    ensures forall k | k in st && Rendered(k) != id :: k in r && r[k] == st[k]
    ensures forall k | k in r :: k in st && Rendered(k) != id
  {
    map k | k in st && Rendered(k) != id :: st[k]
  }

  /** Delete by the id as the page shows it. */
  function DeleteRenderedOp(d: Db, name: string, id: string): (Db, Outcome<DbError>) {
    match Ready(d)
    case Failure(e) => (d, Fail(e))
    case Success(o) =>
      if name !in o.stores then (o, Fail(NotFoundError))
      else (o.(stores := o.stores[name := RemoveRendered(o.stores[name], id)]), Pass)
  }

  /** Deleting by the shown id removes the record, whichever kind its key is. */
  lemma DeleteRenderedRemovesTheRecord(d: Db, name: string, k: Key)
    requires Ready(d).Success? && name in Ready(d).value.stores
    ensures var (d', r) := DeleteRenderedOp(d, name, Rendered(k));
      r == Pass && k !in d'.stores[name]
  {
  }

  // ---------------------------------------------------------------------
  // The object

  /** The `NeuralDB` object: `db` is the connection it holds, and the on-disk
      database it reaches is held beside it. */
  class NeuralDB {
    var connected: bool
    var diskVersion: nat
    var stores: map<string, ObjectStore>

    function State(): Db
      reads this
    {
      Db(connected, diskVersion, stores)
    }

    ghost predicate Valid()
      reads this
    {
      WellFormed(State())
    }

    /** A page load: no connection yet, over whatever database is on disk. */
    constructor (version: nat, onDisk: map<string, ObjectStore>)
      requires WellFormed(Db(false, version, onDisk))
      ensures Valid() && State() == Db(false, version, onDisk)
    {
      connected := false;
      diskVersion := version;
      stores := onDisk;
    }

    method Init() returns (r: Outcome<DbError>)
      requires Valid()
      modifies this
      ensures Valid()
      ensures match Open(old(State()))
        case Failure(e) => r == Fail(e) && State() == old(State())
        case Success(d) => r == Pass && State() == d
    {
      if diskVersion > DbVersion {
        return Fail(VersionError);
      }
      if diskVersion < DbVersion {
        stores := Upgrade(stores);
      }
      diskVersion := DbVersion;
      connected := true;
      r := Pass;
    }

    /** The lazy open at the head of each operation. */
    method EnsureOpen() returns (r: Outcome<DbError>)
      requires Valid()
      modifies this
      ensures Valid()
      ensures match Ready(old(State()))
        case Failure(e) => r == Fail(e) && State() == old(State())
        case Success(d) => r == Pass && State() == d
    {
      r := Pass;
      if !connected {
        r := Init();
      }
    }

    method Save(name: string, data: Record, now: int) returns (r: Result<Record, DbError>)
      requires Valid()
      modifies this
      ensures Valid()
      ensures (State(), r) == SaveOp(old(State()), name, data, now)
    {
      var ready := EnsureOpen();
      if ready.Fail? {
        return Failure(ready.error);
      }
      if name !in stores {
        return Failure(NotFoundError);
      }
      var rec := WithId(data, now);
      stores := stores[name := Put(stores[name], rec)];
      r := Success(rec);
    }

    method GetAll(name: string) returns (r: Result<seq<Record>, DbError>)
      requires Valid()
      modifies this
      ensures Valid()
      ensures State() == GetAllOp(old(State()), name).0
      ensures var listed := GetAllOp(old(State()), name).1;
        match listed
        case Failure(e) => r == Failure(e)
        case Success(st) => r.Success? && ListsInKeyOrder(r.value, st)
    {
      var ready := EnsureOpen();
      if ready.Fail? {
        return Failure(ready.error);
      }
      if name !in stores {
        return Failure(NotFoundError);
      }
      var recs := ListInKeyOrder(stores[name]);
      r := Success(recs);
    }

    method Delete(name: string, id: Key) returns (r: Outcome<DbError>)
      requires Valid()
      modifies this
      ensures Valid()
      ensures (State(), r) == DeleteOp(old(State()), name, id)
    {
      var ready := EnsureOpen();
      if ready.Fail? {
        return ready;
      }
      if name !in stores {
        return Fail(NotFoundError);
      }
      var n := ToNumber(id);
      if n.None? {
        return Fail(DataError);
      }
      stores := stores[name := stores[name] - {Num(n.value)}];
      r := Pass;
    }

    /** The delete by shown id that the callers intend (see DeleteRenderedOp). */
    method DeleteRendered(name: string, id: string) returns (r: Outcome<DbError>)
      requires Valid()
      modifies this
      ensures Valid()
      ensures (State(), r) == DeleteRenderedOp(old(State()), name, id)
    {
      var ready := EnsureOpen();
      if ready.Fail? {
        return ready;
      }
      if name !in stores {
        return Fail(NotFoundError);
      }
      stores := stores[name := RemoveRendered(stores[name], id)];
      r := Pass;
    }
  }
}
