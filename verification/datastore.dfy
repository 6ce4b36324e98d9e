/** The state of the `DataStore` facade of `datastore.py` and the backing
    stores it talks to.

    A backing store is not interpreted: everything the facade learns from
    one comes out of a `Stores` record of functions. Every answer may
    depend on the history of calls made to the stores so far (`log`),
    which stands for the stores' own state, and on the handle of the store
    object asked, which stands for its identity.
 */
module DataStores {
  import opened Outcomes
  import opened PyValues

  type MountId = string

  /** A backend class, named by its place among the registered ones. */
  type BackendId = nat

  /** A mounted backing store: its id, whether it lists `"versions"` among
      its capabilities, and a handle that tells two store objects with the
      same id apart. */
  datatype MountPoint = MountPoint(id: MountId, versions: bool, handle: nat)

  /** A content object as a store hands it to the facade: its id, its
      properties as a dictionary, the id of the store holding it, and its
      file name when the store has one. */
  datatype ContentView = ContentView(id: string, properties: map<string, PyValue>,
                                     backingstore: MountId, filename: Option<string>)

  /** `content.get_property(key, default)` on a content object. */
  function GetProp(c: ContentView, key: string, default: Option<PyValue>): (r: Result<PyValue>)
    ensures key in c.properties ==> r == Ok(c.properties[key])
    ensures key !in c.properties ==> r == (if default.Some? then Ok(default.value) else Err(AttributeError))
  {
    if key in c.properties then Ok(c.properties[key])
    else if default.Some? then Ok(default.value)
    else Err(AttributeError)
  }

  /** The `order_by` argument of `find`. */
  datatype OrderBy =
    | OrderList(keys: seq<string>)   // a list of property names, `-` for descending
    | OrderString(text: string)      // a comma-separated string of them
    | OrderOther(truthy: bool)       // any other value, true or false

  /** The calls that change a store, in the order they were made. */
  datatype StoreCall =
    | Init(handle: nat)                                              // initialize_and_load()
    | Stop(handle: nat)                                              // stop()
    | Create(handle: nat, props: map<string, PyValue>, file: Option<string>)
    | Update(handle: nat, uid: PyValue, props: map<string, PyValue>, file: Option<string>)
    | CheckinCall(handle: nat, props: map<string, PyValue>, file: Option<string>)
    | RawCopy(target: nat, source: nat)                              // target.raw_copy(source.raw_sources())
    | UpdateProps(handle: nat, props: map<string, PyValue>, file: Option<string>)  // update(props, file)

  /** How a store's `get` ended. */
  datatype Lookup =
    | Found(content: ContentView)   // returned a content object
    | NotFound                      // returned None
    | Missing                       // raised KeyError
    | Fails                         // raised anything else

  /** The backing stores and backend classes, uninterpreted. */
  datatype Stores = Stores(
    parse: (BackendId, string) -> bool,
    construct: (seq<StoreCall>, BackendId, string) -> Result<(MountId, bool)>,
    initFails: (seq<StoreCall>, nat) -> bool,
    stopFails: (seq<StoreCall>, nat) -> bool,
    get: (seq<StoreCall>, nat, PyValue, Option<PyValue>) -> Lookup,
    getMany: (seq<StoreCall>, nat, PyValue) -> Lookup,
    create: (seq<StoreCall>, nat, map<string, PyValue>, Option<string>) -> Result<PyValue>,
    update: (seq<StoreCall>, nat, PyValue, map<string, PyValue>, Option<string>) -> Result<()>,
    checkin: (seq<StoreCall>, nat, map<string, PyValue>, Option<string>) -> Result<(PyValue, PyValue)>,
    checkout: (seq<StoreCall>, nat, PyValue, Option<string>, Option<string>, Option<string>)
                -> Result<(map<string, PyValue>, string)>,
    rawCopy: (seq<StoreCall>, nat, nat) -> Result<()>,
    updateProps: (seq<StoreCall>, nat, map<string, PyValue>, Option<string>) -> Result<()>,
    find: (seq<StoreCall>, nat, map<string, PyValue>, OrderBy, int) -> Result<seq<ContentView>>,
    uniqueValues: (seq<StoreCall>, nat, string) -> Result<set<PyValue>>
  )

  /** The facade's attributes: registered backends, the mount table,
      the default mount, the uid to mount cache (None when no store had
      the uid), the next store handle, and the calls made to stores. */
  datatype DataStore = DataStore(
    backends: seq<BackendId>,
    mountpoints: map<MountId, MountPoint>,
    root: Option<MountPoint>,
    cache: map<PyValue, Option<MountPoint>>,
    nextHandle: nat,
    log: seq<StoreCall>
  )

  /** A freshly built facade. */
  function Initial(): DataStore
  {
    DataStore([], map[], None, map[], 0, [])
  }

  /** The outcome of an operation, and the state it leaves behind even
      when it raised part-way. */
  datatype Step<T> = Step(out: Result<T>, ds: DataStore)

  /** Every table entry is filed under its own id and has a handle handed
      out earlier, and a non-empty table has a root. */
  predicate WellFormed(ds: DataStore)
  {
    && (forall id :: id in ds.mountpoints ==> ds.mountpoints[id].id == id)
    && (forall id :: id in ds.mountpoints ==> ds.mountpoints[id].handle < ds.nextHandle)
    && (|ds.mountpoints| > 0 ==> ds.root.Some?)
  }

  /** `order` lists every key of the mount table once: the order in which
      iterating over the table visits them. */
  predicate Enumerates(order: seq<MountId>, keys: set<MountId>)
  {
    && (forall i, j :: 0 <= i < j < |order| ==> order[i] != order[j])
    && (forall id :: id in order ==> id in keys)
    && (forall id :: id in keys ==> id in order)
  }

  /** `d.pop(key, None)`: the value and the dictionary without the key. */
  function Pop(d: map<string, PyValue>, key: string): (r: (PyValue, map<string, PyValue>))
    ensures r.1 == d - {key}
    ensures r.0 == if key in d then d[key] else PyNone
  {
    (if key in d then d[key] else PyNone, d - {key})
  }
}
