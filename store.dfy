/** The store of store.ts: the saved connection settings and the ordered list of filter
    descriptors, with the operations the dashboard calls on them. */
module Store {
  import opened Wrappers
  import opened Records
  import opened Seqs
  import opened Filters

  datatype User = User(username: string, avatarUrl: Option<string>)

  datatype Config = Config(currentUser: Option<User>, projectId: string, gitlabToken: string)

  /** The storage slot the configuration is saved under. */
  const ConfigKey := "mr-config"

  /** The browser's local storage, reduced to the configurations saved in it by key. */
  class LocalStorage {
    var items: map<string, Config>

    constructor (items: map<string, Config>)
      ensures this.items == items
    {
      this.items := items;
    }
  }

  /** `getStoredConfig`: the configuration saved under `"mr-config"`, or `null` when the
      slot is empty. */
  function StoredConfig(items: map<string, Config>): (r: Option<Config>)
    ensures r.None? <==> ConfigKey !in items
    ensures r.Some? ==> items[ConfigKey] == r.value
  {
    if ConfigKey in items then Some(items[ConfigKey]) else None
  }

  /** Saving a configuration is read back by `getStoredConfig`; saving under any other
      key does not change what it reads. */
  lemma StoredConfigReadsBack(items: map<string, Config>, key: string, c: Config)
    ensures key == ConfigKey ==> StoredConfig(items[key := c]) == Some(c)
    ensures key != ConfigKey ==> StoredConfig(items[key := c]) == StoredConfig(items)
  {
  }

  /** The list `removeFilter(id)` leaves: `filters.filter(f => f.id !== id)`. */
  function RemoveById(fs: seq<Filter>, id: string): seq<Filter> {
    Select(fs, OtherId(id))
  }

  function OtherId(id: string): Filter -> bool {
    (f: Filter) => f.id != id
  }

  /** `removeFilter` keeps exactly the descriptors with another id, each as often as
      before and in their original order. */
  lemma RemoveByIdSpec(fs: seq<Filter>, id: string, f: Filter)
    ensures IsSubsequence(RemoveById(fs, id), fs)
    ensures multiset(RemoveById(fs, id))[f] == if f.id == id then 0 else multiset(fs)[f]
    ensures forall k :: 0 <= k < |RemoveById(fs, id)| ==> RemoveById(fs, id)[k].id != id
  {
    SelectIsSubsequence(fs, OtherId(id));
    SelectCount(fs, OtherId(id), f);
  }

  /** Removing an id nobody has changes nothing. */
  lemma RemoveAbsentIsNoop(fs: seq<Filter>, id: string)
    requires forall k :: 0 <= k < |fs| ==> fs[k].id != id
    ensures RemoveById(fs, id) == fs
  {
    SelectAll(fs, OtherId(id));
  }

  /** Adding a descriptor with a fresh id and then removing that id restores the list,
      and so what `applyFilters` returns. */
  lemma AddThenRemove(fs: seq<Filter>, f: Filter, recs: seq<Value>)
    requires forall k :: 0 <= k < |fs| ==> fs[k].id != f.id
    ensures RemoveById(fs + [f], f.id) == fs
    ensures Pipeline(recs, RemoveById(fs + [f], f.id)) == Pipeline(recs, fs)
  {
    SelectAppend(fs, [f], OtherId(f.id));
    RemoveAbsentIsNoop(fs, f.id);
    assert Select([f], OtherId(f.id)) == [];
  }

  /** The store object. `storage` stands for the browser's local storage it writes to. */
  class Store {
    const storage: LocalStorage
    var config: Option<Config>
    var filters: seq<Filter>

    /** The store as `create` builds it: the saved configuration and no filters. */
    constructor (storage: LocalStorage)
      ensures this.storage == storage
      ensures config == StoredConfig(storage.items) && filters == []
    {
      this.storage := storage;
      config := StoredConfig(storage.items);
      filters := [];
    }

    /** `setConfig(c)`: replaces the configuration wholesale and saves it. */
    method SetConfig(c: Config)
      modifies this, storage
      ensures config == Some(c) && filters == old(filters)
      ensures storage.items == old(storage.items)[ConfigKey := c]
      ensures StoredConfig(storage.items) == Some(c)
    {
      config := Some(c);
      storage.items := storage.items[ConfigKey := c];
    }

    /** `addFilter(f)`: appends `f`; nothing else moves. */
    method AddFilter(f: Filter)
      modifies this
      ensures filters == old(filters) + [f] && config == old(config)
      ensures filters[..|old(filters)|] == old(filters)
    {
      filters := filters + [f];
    }

    /** `removeFilter(id)`: drops every descriptor with that id. */
    method RemoveFilter(id: string)
      modifies this
      ensures filters == RemoveById(old(filters), id) && config == old(config)
      ensures (forall k :: 0 <= k < |old(filters)| ==> old(filters)[k].id != id) ==> filters == old(filters)
    {
      if forall k :: 0 <= k < |filters| ==> filters[k].id != id {
        RemoveAbsentIsNoop(filters, id);
      }
      filters := RemoveById(filters, id);
    }

    /** `applyFilters(mrs)`: pipes the records through each filter in turn. It changes
        nothing in the store (it has no modifies clause) and throws, as `Err`, when a
        predicate reads a field that is not a string. */
    method ApplyFilters(mrs: seq<Value>) returns (r: Result<seq<Value>, Fault>)
      ensures r == Pipeline(mrs, filters)
    {
      var filtered := mrs;
      var i := 0;
      while i < |filters|
        invariant 0 <= i <= |filters|
        invariant Pipeline(mrs, filters[..i]) == Ok(filtered)
      {
        assert filters[..i + 1][..i] == filters[..i];
        var step := KeepPassing(filtered, filters[i]);
        if step.Err? {
          PipelineFaultPersists(mrs, filters, i + 1, step.error);
          return step;
        }
        filtered := step.value;
        i := i + 1;
      }
      assert filters[..i] == filters;
      r := Ok(filtered);
    }
  }
}
