/** The saved-module list of the AI sandbox (src/assets/js/module-manager.js):
    one array of modules kept under one key of the TTL cache, with no expiry.
    Each operation reads the whole list, changes it and writes it back; one
    `now` stands for the clock during the whole operation. */
module ModuleManager {

  import opened Wrappers
  import opened Storage
  import opened Lesson

  const StorageKey := "ai_learning_modules"

  /** `modules.findIndex(m => m.id === id)` from position `from` on; `None`
      for -1. */
  function FindFrom(ms: seq<Module>, id: string, from: nat): (r: Option<nat>)
    decreases |ms| - from
    ensures r.Some? ==> from <= r.value < |ms| && ms[r.value].id == id
    ensures r.Some? ==> forall j :: from <= j < r.value ==> ms[j].id != id
    ensures r.None? ==> forall j :: from <= j < |ms| ==> ms[j].id != id
  {
    if from >= |ms| then None
    else if ms[from].id == id then Some(from)
    else FindFrom(ms, id, from + 1)
  }

  /** The position of the first module with this id. */
  function FindIndex(ms: seq<Module>, id: string): (r: Option<nat>)
    ensures r.Some? ==> r.value < |ms| && ms[r.value].id == id
    ensures r.Some? ==> forall j :: 0 <= j < r.value ==> ms[j].id != id
    ensures r.None? <==> forall j :: 0 <= j < |ms| ==> ms[j].id != id
  {
    FindFrom(ms, id, 0)
  }

  /** `modules.find(m => m.id === id) || null`. */
  function Find(ms: seq<Module>, id: string): (r: Option<Module>)
    ensures r.Some? <==> exists j :: 0 <= j < |ms| && ms[j].id == id
    ensures r.Some? ==> r.value in ms && r.value.id == id
  {
    match FindIndex(ms, id)
    case None => None
    case Some(i) => Some(ms[i])
  }

  /** The list after `saveModule(m)`: the first module with the same id is
      replaced in place, otherwise `m` is appended. */
  function Upsert(ms: seq<Module>, m: Module): (r: seq<Module>)
    ensures m in r && |ms| <= |r| <= |ms| + 1
  {
    match FindIndex(ms, m.id)
    case Some(i) => assert ms[i := m][i] == m; ms[i := m]
    case None => ms + [m]
  }

  /** The list after `modules.splice(i, 1)`. */
  function Spliced(ms: seq<Module>, i: nat): (r: seq<Module>)
    requires i < |ms|
  {
    ms[..i] + ms[i + 1..]
  }

  /** What `loadAllModules` returns for a backend at time `now`. */
  function AllModules(b: map<string, Record<seq<Module>>>, now: int): (ms: seq<Module>)
    ensures StorageKey !in b ==> ms == []
  {
    match Read(b, StorageKey, now).result
    case None => []
    case Some(ms) => ms
  }

  /** The backend after `deleteModule(index)`. */
  function Deleted(b: map<string, Record<seq<Module>>>, index: int, now: int): map<string, Record<seq<Module>>>
  {
    var ms := AllModules(b, now);
    if 0 <= index < |ms| then Put(b, StorageKey, Spliced(ms, index), None, now)
    else Read(b, StorageKey, now).backend
  }

  /** `loadAllModules`: the stored list, or `[]` when nothing is stored. */
  method LoadAllModules(store: StorageWithTtl<seq<Module>>, now: int) returns (ms: seq<Module>)
    modifies store
    ensures ms == AllModules(old(store.backend), now)
    ensures store.backend == Read(old(store.backend), StorageKey, now).backend
  {
    var stored := store.GetWithTtl(StorageKey, now);
    ms := if stored.Some? then stored.value else [];
  }

  /** `saveModule(m)`: upsert by id, then store the list with no TTL. */
  method SaveModule(store: StorageWithTtl<seq<Module>>, m: Module, now: int)
    modifies store
    ensures store.backend == Put(old(store.backend), StorageKey, Upsert(AllModules(old(store.backend), now), m), None, now)
  {
    var modules := LoadAllModules(store, now);
    var existingIndex := FindIndex(modules, m.id);
    if existingIndex.Some? {
      modules := modules[existingIndex.value := m];
    } else {
      modules := modules + [m];
    }
    store.SetWithTtl(StorageKey, modules, None, now);
    PutAfterRead(old(store.backend), StorageKey, modules, now);
  }

  /** `loadModule(id)`: the first module with that id, or `None` for null. */
  method LoadModule(store: StorageWithTtl<seq<Module>>, id: string, now: int) returns (r: Option<Module>)
    modifies store
    ensures r == Find(AllModules(old(store.backend), now), id)
    ensures store.backend == Read(old(store.backend), StorageKey, now).backend
  {
    var modules := LoadAllModules(store, now);
    r := Find(modules, id);
  }

  /** `deleteModule(index)`: an index outside the list changes nothing but
      the read itself; otherwise that one element is spliced out. */
  method DeleteModule(store: StorageWithTtl<seq<Module>>, index: int, now: int)
    modifies store
    ensures store.backend == Deleted(old(store.backend), index, now)
  {
    var modules := LoadAllModules(store, now);
    if index >= 0 && index < |modules| {
      modules := modules[..index] + modules[index + 1..];
      store.SetWithTtl(StorageKey, modules, None, now);
      PutAfterRead(old(store.backend), StorageKey, modules, now);
    }
  }

  /** `deleteModuleById(id)`: deletes the first module with that id, reading
      the list a second time inside `deleteModule`. */
  method DeleteModuleById(store: StorageWithTtl<seq<Module>>, id: string, now: int)
    modifies store
    ensures var ms := AllModules(old(store.backend), now);
      store.backend ==
        match FindIndex(ms, id)
        case None => Read(old(store.backend), StorageKey, now).backend
        case Some(i) => Put(old(store.backend), StorageKey, Spliced(ms, i), None, now)
  {
    var modules := LoadAllModules(store, now);
    var index := FindIndex(modules, id);
    if index.Some? {
      ReadIsStable(old(store.backend), StorageKey, now);
      DeleteModule(store, index.value, now);
      PutAfterRead(old(store.backend), StorageKey, Spliced(modules, index.value), now);
    }
  }

  // ---------------------------------------------------------------------
  // Properties of the stored list

  /** The read before a write cannot matter: the write replaces the key. */
  lemma PutAfterRead<V>(b: map<string, Record<V>>, key: string, v: V, now: int)
    ensures Put(Read(b, key, now).backend, key, v, None, now) == Put(b, key, v, None, now)
  {
    ReadChangesOnlyItsKey(b, key, now);
  }

  /** Saving a module with a new id appends it: one more module, the others
      untouched. */
  lemma {:induction false} UpsertAppends(ms: seq<Module>, m: Module)
    requires forall j :: 0 <= j < |ms| ==> ms[j].id != m.id
    ensures Upsert(ms, m) == ms + [m] && |Upsert(ms, m)| == |ms| + 1
  {
    assert FindIndex(ms, m.id).None?;
  }

  /** Saving a module with a known id replaces the first module with that
      id; the length and every other position stay as they were. */
  lemma UpsertReplaces(ms: seq<Module>, m: Module, i: nat)
    requires i < |ms| && ms[i].id == m.id
    requires forall j :: 0 <= j < i ==> ms[j].id != m.id
    ensures |Upsert(ms, m)| == |ms| && Upsert(ms, m)[i] == m
    ensures forall j :: 0 <= j < |ms| && j != i ==> Upsert(ms, m)[j] == ms[j]
  {
    FirstMatchIsUnique(ms, m.id, i);
  }

  lemma FirstMatchIsUnique(ms: seq<Module>, id: string, i: nat)
    requires i < |ms| && ms[i].id == id
    requires forall j :: 0 <= j < i ==> ms[j].id != id
    ensures FindIndex(ms, id) == Some(i)
  {
  }

  /** After a save, `loadModule` finds the saved module under its id. */
  lemma SavedIsFound(ms: seq<Module>, m: Module)
    ensures Find(Upsert(ms, m), m.id) == Some(m)
  {
    var r := Upsert(ms, m);
    match FindIndex(ms, m.id)
    case Some(i) =>
      UpsertReplaces(ms, m, i);
      FirstMatchIsUnique(r, m.id, i);
    case None =>
      FirstMatchIsUnique(r, m.id, |ms|);
  }

  /** A save keeps every module whose id differs, at its position. */
  lemma UpsertKeepsOthers(ms: seq<Module>, m: Module, j: nat)
    requires j < |ms| && ms[j].id != m.id
    ensures j < |Upsert(ms, m)| && Upsert(ms, m)[j] == ms[j]
  {
  }

  /** Saving the same module twice is saving it once. */
  lemma UpsertIdempotent(ms: seq<Module>, m: Module)
    ensures Upsert(Upsert(ms, m), m) == Upsert(ms, m)
  {
    var r := Upsert(ms, m);
    match FindIndex(ms, m.id)
    case Some(i) =>
      UpsertReplaces(ms, m, i);
      FirstMatchIsUnique(r, m.id, i);
      assert r[i := m] == r;
    case None =>
      FirstMatchIsUnique(r, m.id, |ms|);
      assert r[|ms| := m] == r;
  }

  /** Distinct ids stay distinct through a save. */
  predicate UniqueIds(ms: seq<Module>)
  {
    forall i, j :: 0 <= i < j < |ms| ==> ms[i].id != ms[j].id
  }

  lemma UpsertKeepsIdsUnique(ms: seq<Module>, m: Module)
    requires UniqueIds(ms)
    ensures UniqueIds(Upsert(ms, m))
  {
    match FindIndex(ms, m.id)
    case Some(i) =>
      UpsertReplaces(ms, m, i);
    case None =>
  }

  /** Splicing out position `i` keeps the others in order. */
  lemma SplicedShape(ms: seq<Module>, i: nat)
    requires i < |ms|
    ensures |Spliced(ms, i)| == |ms| - 1
    ensures forall j :: 0 <= j < i ==> Spliced(ms, i)[j] == ms[j]
    ensures forall j :: i <= j < |ms| - 1 ==> Spliced(ms, i)[j] == ms[j + 1]
  {
  }

  /** With distinct ids, deleting by id leaves no module with that id and
      every other module in order. */
  lemma DeleteByIdRemovesIt(ms: seq<Module>, id: string, i: nat)
    requires UniqueIds(ms) && FindIndex(ms, id) == Some(i)
    ensures forall j :: 0 <= j < |Spliced(ms, i)| ==> Spliced(ms, i)[j].id != id
    ensures multiset(Spliced(ms, i)) + multiset{ms[i]} == multiset(ms)
  {
    var r := Spliced(ms, i);
    forall j | 0 <= j < |r|
      ensures r[j].id != id
    {
      if j < i {
        assert r[j] == ms[j];
      } else {
        assert r[j] == ms[j + 1];
      }
    }
    assert ms == ms[..i] + [ms[i]] + ms[i + 1..];
  }

  /** Nothing stored reads as the empty list. */
  lemma NothingStoredIsEmpty(b: map<string, Record<seq<Module>>>, now: int)
    requires StorageKey !in b || b[StorageKey] == Empty || b[StorageKey] == Malformed
    ensures AllModules(b, now) == []
  {
  }

  /** A saved list never expires: a later load at any time finds the saved
      module. */
  lemma LoadAfterSave(b: map<string, Record<seq<Module>>>, m: Module, now: int, later: int)
    ensures var saved := Put(b, StorageKey, Upsert(AllModules(b, now), m), None, now);
      Find(AllModules(saved, later), m.id) == Some(m)
  {
    var ms := Upsert(AllModules(b, now), m);
    NoTtlNeverExpires(b, StorageKey, ms, None, now, later);
    SavedIsFound(AllModules(b, now), m);
  }
}
