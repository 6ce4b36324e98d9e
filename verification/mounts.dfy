/** The mount registry of the facade: `registerBackend`, `mount`,
    `connect_backingstore`, `unmount`, `pause`, `unpause` and
    `_resolveMountpoint`.
 */
module Mounts {
  import opened Outcomes
  import opened PyValues
  import opened DataStores

  /** `registerBackend(cls)`: backends are tried in registration order. */
  function RegisterBackend(ds: DataStore, b: BackendId): (r: DataStore)
    ensures r.backends == ds.backends + [b]
    ensures r == ds.(backends := r.backends)
  {
    ds.(backends := ds.backends + [b])
  }

  /** The first registered backend whose `parse(uri)` is True. */
  function FirstParsing(backends: seq<BackendId>, st: Stores, uri: string): (r: Option<nat>)
    ensures r.Some? ==> r.value < |backends| && st.parse(backends[r.value], uri)
    ensures r.Some? ==> forall i :: 0 <= i < r.value ==> !st.parse(backends[i], uri)
    ensures r.None? ==> forall i :: 0 <= i < |backends| ==> !st.parse(backends[i], uri)
  {
    if |backends| == 0 then None
    else if st.parse(backends[0], uri) then Some(0)
    else match FirstParsing(backends[1..], st, uri)
      case Some(i) => Some(i + 1)
      case None => None
  }

  /** `connect_backingstore(uri)`: builds a store with the first backend
      that accepts the uri and initializes it; None when no backend
      accepts it. A failing constructor or initialization propagates. */
  function ConnectBackingstore(ds: DataStore, st: Stores, uri: string): (r: Step<Option<MountPoint>>)
    ensures FirstParsing(ds.backends, st, uri).None? ==> r == Step(Ok(None), ds)
    ensures r.out.Ok? && r.out.value.Some? ==>
              var b := ds.backends[FirstParsing(ds.backends, st, uri).value];
              var m := r.out.value.value;
              && st.construct(ds.log, b, uri) == Ok((m.id, m.versions))
              && m.handle == ds.nextHandle
              && r.ds.log == ds.log + [Init(m.handle)]
    ensures FirstParsing(ds.backends, st, uri).Some? ==>
              var b := ds.backends[FirstParsing(ds.backends, st, uri).value];
              && r.out != Ok(None)
              && (r.out.Ok? <==> st.construct(ds.log, b, uri).Ok? && !st.initFails(ds.log, ds.nextHandle))
              && (st.construct(ds.log, b, uri).Err? ==> r == Step(Err(st.construct(ds.log, b, uri).error), ds))
              && (st.construct(ds.log, b, uri).Ok? ==> r.ds.log == ds.log + [Init(ds.nextHandle)])
    ensures r.ds.mountpoints == ds.mountpoints && r.ds.root == ds.root && r.ds.cache == ds.cache
  {
    match FirstParsing(ds.backends, st, uri)
    case None => Step(Ok(None), ds)
    case Some(i) =>
      match st.construct(ds.log, ds.backends[i], uri)
      case Err(e) => Step(Err(e), ds)
      case Ok((id, versions)) =>
        var h := ds.nextHandle;
        var ds1 := ds.(nextHandle := h + 1, log := ds.log + [Init(h)]);
        if st.initFails(ds.log, h) then Step(Err(StoreFailure), ds1)
        else Step(Ok(Some(MountPoint(id, versions, h))), ds1)
  }

  /** `mount(uri)`: connects a store and files it under its id, stopping a
      store already mounted under that id; the first store mounted becomes
      the root. Returns the id, or the empty string when no backend
      accepts the uri. */
  function Mount(ds: DataStore, st: Stores, uri: string): (r: Step<string>)
    ensures FirstParsing(ds.backends, st, uri).None? ==> r == Step(Ok(""), ds)
    ensures r.out.Ok? && FirstParsing(ds.backends, st, uri).Some? ==>
              var id := r.out.value;
              && id in r.ds.mountpoints
              && var m := MountPoint(id, r.ds.mountpoints[id].versions, ds.nextHandle);
              && r.ds.mountpoints == ds.mountpoints[id := m]
              && r.ds.root == (if ds.root.None? then Some(m) else ds.root)
              && (id in ds.mountpoints ==> Stop(ds.mountpoints[id].handle) in r.ds.log)
    ensures r.out.Err? ==> r.ds.mountpoints == ds.mountpoints && r.ds.root == ds.root
    ensures r.ds.cache == ds.cache && r.ds.backends == ds.backends
    ensures var c := ConnectBackingstore(ds, st, uri);
            c.out.Err? ==> r == Step(Err(c.out.error), c.ds)
    ensures var c := ConnectBackingstore(ds, st, uri);
            c.out.Ok? && c.out.value.Some? ==>
              var m := c.out.value.value;
              var stopped := if m.id in ds.mountpoints then [Stop(ds.mountpoints[m.id].handle)] else [];
              && r.ds.log == c.ds.log + stopped
              && (r.out.Ok? <==> !(m.id in ds.mountpoints && st.stopFails(c.ds.log, ds.mountpoints[m.id].handle)))
              && (r.out.Ok? ==> r.out.value == m.id && r.ds.mountpoints == ds.mountpoints[m.id := m])
              && (r.out.Err? ==> r.out.error == StoreFailure)
  {
    var c := ConnectBackingstore(ds, st, uri);
    match c.out
    case Err(e) => Step(Err(e), c.ds)
    case Ok(None) => Step(Ok(""), c.ds)
    case Ok(Some(m)) =>
      var ds1 := c.ds;
      if m.id in ds1.mountpoints && st.stopFails(ds1.log, ds1.mountpoints[m.id].handle) then
        Step(Err(StoreFailure), ds1.(log := ds1.log + [Stop(ds1.mountpoints[m.id].handle)]))
      else
        var log := if m.id in ds1.mountpoints then ds1.log + [Stop(ds1.mountpoints[m.id].handle)] else ds1.log;
        var root := if ds1.root.None? then Some(m) else ds1.root;
        Step(Ok(m.id), ds1.(mountpoints := ds1.mountpoints[m.id := m], root := root, log := log))
  }

  /** A mount keeps the table well formed. */
  lemma MountWellFormed(ds: DataStore, st: Stores, uri: string)
    requires WellFormed(ds)
    ensures WellFormed(Mount(ds, st, uri).ds)
  {
  }

  /** A store that a backend builds and initializes under a fresh id is
      mounted under that id, and `_resolveMountpoint` finds it there. */
  lemma MountThenResolve(ds: DataStore, st: Stores, uri: string)
    requires FirstParsing(ds.backends, st, uri).Some?
    requires var b := ds.backends[FirstParsing(ds.backends, st, uri).value];
             && st.construct(ds.log, b, uri).Ok?
             && st.construct(ds.log, b, uri).value.0 !in ds.mountpoints
             && !st.initFails(ds.log, ds.nextHandle)
    ensures var b := ds.backends[FirstParsing(ds.backends, st, uri).value];
            var (id, versions) := st.construct(ds.log, b, uri).value;
            var r := Mount(ds, st, uri);
            && r.out == Ok(id)
            && ResolveMountpoint(r.ds, PyStr(id)) == Ok(Some(MountPoint(id, versions, ds.nextHandle)))
            && r.ds.log == ds.log + [Init(ds.nextHandle)]
  {
    var c := ConnectBackingstore(ds, st, uri);
    assert c.out.Ok? && c.out.value.Some?;
  }

  /** Mounting a second store under an id already in use replaces the old
      store, which is stopped, by one with a fresh handle, and leaves the
      root where it was. */
  lemma RemountReplaces(ds: DataStore, st: Stores, uri: string)
    requires WellFormed(ds)
    requires FirstParsing(ds.backends, st, uri).Some?
    requires Mount(ds, st, uri).out.Ok?
    requires Mount(ds, st, uri).out.value in ds.mountpoints
    ensures var r := Mount(ds, st, uri);
            var id := r.out.value;
            && r.ds.mountpoints.Keys == ds.mountpoints.Keys
            && r.ds.mountpoints[id].handle !in Handles(ds)
            && Stop(ds.mountpoints[id].handle) in r.ds.log
            && r.ds.root == ds.root
  {
    assert |ds.mountpoints| > 0;
  }

  /** The handles of the mounted stores. */
  function Handles(ds: DataStore): set<nat>
  {
    set id | id in ds.mountpoints :: ds.mountpoints[id].handle
  }

  /** Unmounting keeps the table well formed. */
  lemma UnmountWellFormed(ds: DataStore, st: Stores, id: MountId)
    requires WellFormed(ds)
    ensures WellFormed(Unmount(ds, st, id).ds)
  {
  }

  /** `unmount(id)`: drops the id from the table after stopping its store;
      a store that fails to stop is dropped all the same, and an unknown id
      changes nothing. The root and the cache are not touched, so either
      may still name the dropped store. */
  function Unmount(ds: DataStore, st: Stores, id: MountId): (r: Step<()>)
    ensures r.out.Ok?
    ensures r.ds.mountpoints == ds.mountpoints - {id}
    ensures r.ds.root == ds.root && r.ds.cache == ds.cache
    ensures id !in ds.mountpoints ==> r.ds == ds
    ensures id in ds.mountpoints ==> r.ds.log == ds.log + [Stop(ds.mountpoints[id].handle)]
  {
    if id !in ds.mountpoints then Step(Ok(()), ds)
    else
      var h := ds.mountpoints[id].handle;
      Step(Ok(()), ds.(mountpoints := ds.mountpoints - {id}, log := ds.log + [Stop(h)]))
  }

  /** The stores `pause` and `unpause` act on: the listed ids, each of which
      must be mounted, or every mounted store when no list (or an empty one)
      is given. */
  function Selected(ds: DataStore, order: seq<MountId>, ids: Option<seq<MountId>>): (r: Result<seq<MountPoint>>)
    requires Enumerates(order, ds.mountpoints.Keys)
    ensures r.Err? <==> ids.Some? && exists i :: 0 <= i < |ids.value| && ids.value[i] !in ds.mountpoints
    ensures r.Err? ==> r.error == KeyError
    ensures r.Ok? ==> forall m :: m in r.value ==> m in ds.mountpoints.Values
    ensures r.Ok? && (ids.None? || |ids.value| == 0) ==>
              |r.value| == |order| && forall i :: 0 <= i < |order| ==> r.value[i] == ds.mountpoints[order[i]]
    ensures r.Ok? && ids.Some? && |ids.value| > 0 ==>
              |r.value| == |ids.value| && forall i :: 0 <= i < |ids.value| ==> r.value[i] == ds.mountpoints[ids.value[i]]
  {
    if ids.Some? && |ids.value| > 0 then LookupAll(ds.mountpoints, ids.value)
    else LookupAll(ds.mountpoints, order)
  }

  /** `[table[id] for id in ids]`. */
  function LookupAll(table: map<MountId, MountPoint>, ids: seq<MountId>): (r: Result<seq<MountPoint>>)
    ensures r.Err? <==> exists i :: 0 <= i < |ids| && ids[i] !in table
    ensures r.Err? ==> r.error == KeyError
    ensures r.Ok? ==> |r.value| == |ids| && forall i :: 0 <= i < |ids| ==> r.value[i] == table[ids[i]]
  {
    if |ids| == 0 then Ok([])
    else if ids[0] !in table then Err(KeyError)
    else match LookupAll(table, ids[1..])
      case Err(e) => Err(e)
      case Ok(rest) => Ok([table[ids[0]]] + rest)
  }

  /** The call `pause` (stop) or `unpause` (initialize) makes on a store. */
  function CallFor(m: MountPoint, stop: bool): StoreCall
  {
    if stop then Stop(m.handle) else Init(m.handle)
  }

  /** The calls made on the stores in turn when none of them raises. */
  function CallsFor(mounts: seq<MountPoint>, stop: bool): seq<StoreCall>
  {
    seq(|mounts|, i requires 0 <= i < |mounts| => CallFor(mounts[i], stop))
  }

  /** Whether that call raises on a store, given the calls made before it. */
  predicate CallFails(st: Stores, log: seq<StoreCall>, m: MountPoint, stop: bool)
  {
    if stop then st.stopFails(log, m.handle) else st.initFails(log, m.handle)
  }

  /** The call on `mounts[k]` is the first of the loop to raise. */
  predicate FirstFailure(st: Stores, log: seq<StoreCall>, mounts: seq<MountPoint>, stop: bool, k: int)
  {
    && 0 <= k < |mounts|
    && CallFails(st, log + CallsFor(mounts, stop)[..k], mounts[k], stop)
    && forall j :: 0 <= j < k ==> !CallFails(st, log + CallsFor(mounts, stop)[..j], mounts[j], stop)
  }

  /** The loop of `pause`/`unpause`: calls `stop()` or
      `initialize_and_load()` on each store in turn. The first call that
      raises ends the loop, and the exception propagates. */
  function CallEach(log: seq<StoreCall>, st: Stores, mounts: seq<MountPoint>, stop: bool): (r: (bool, seq<StoreCall>))
    ensures r.0 <==> forall k :: 0 <= k < |mounts| ==> !CallFails(st, log + CallsFor(mounts, stop)[..k], mounts[k], stop)
    ensures r.0 ==> r.1 == log + CallsFor(mounts, stop)
    ensures !r.0 ==> exists k :: FirstFailure(st, log, mounts, stop, k) && r.1 == log + CallsFor(mounts, stop)[..k + 1]
    decreases |mounts|
  {
    if |mounts| == 0 then (true, log)
    else
      var call := CallFor(mounts[0], stop);
      assert log + CallsFor(mounts, stop)[..0] == log;
      if CallFails(st, log, mounts[0], stop) then
        assert FirstFailure(st, log, mounts, stop, 0);
        assert CallsFor(mounts, stop)[..1] == [call];
        (false, log + [call])
      else
        var rest := CallEach(log + [call], st, mounts[1..], stop);
        CallsShift(log, mounts, stop);
        if rest.0 then
          assert forall k :: 0 <= k < |mounts| ==> !CallFails(st, log + CallsFor(mounts, stop)[..k], mounts[k], stop) by {
            forall k | 0 <= k < |mounts|
              ensures !CallFails(st, log + CallsFor(mounts, stop)[..k], mounts[k], stop)
            {
              if k > 0 {
                assert log + CallsFor(mounts, stop)[..k] == log + [call] + CallsFor(mounts[1..], stop)[..k - 1];
                assert mounts[k] == mounts[1..][k - 1];
                assert !CallFails(st, log + [call] + CallsFor(mounts[1..], stop)[..k - 1], mounts[1..][k - 1], stop);
              }
            }
          }
          assert CallsFor(mounts, stop)[..|mounts|] == CallsFor(mounts, stop);
          assert CallsFor(mounts[1..], stop)[..|mounts| - 1] == CallsFor(mounts[1..], stop);
          rest
        else
          var k :| FirstFailure(st, log + [call], mounts[1..], stop, k) && rest.1 == log + [call] + CallsFor(mounts[1..], stop)[..k + 1];
          FirstFailureShift(st, log, mounts, stop, k);
          rest
  }

  /** Calls after the first store's are the calls on the rest. */
  lemma CallsShift(log: seq<StoreCall>, mounts: seq<MountPoint>, stop: bool)
    requires |mounts| > 0
    ensures forall k :: 0 <= k < |mounts| ==>
              log + CallsFor(mounts, stop)[..k + 1] == log + [CallFor(mounts[0], stop)] + CallsFor(mounts[1..], stop)[..k]
  {
    forall k | 0 <= k < |mounts|
      ensures log + CallsFor(mounts, stop)[..k + 1] == log + [CallFor(mounts[0], stop)] + CallsFor(mounts[1..], stop)[..k]
    {
      assert CallsFor(mounts, stop)[..k + 1] == [CallFor(mounts[0], stop)] + CallsFor(mounts[1..], stop)[..k];
    }
  }

  /** A first failure in the rest of the loop, after a first call that did
      not raise, is a first failure of the whole loop one place later. */
  lemma FirstFailureShift(st: Stores, log: seq<StoreCall>, mounts: seq<MountPoint>, stop: bool, k: int)
    requires |mounts| > 0 && !CallFails(st, log, mounts[0], stop)
    requires FirstFailure(st, log + [CallFor(mounts[0], stop)], mounts[1..], stop, k)
    ensures FirstFailure(st, log, mounts, stop, k + 1)
    ensures log + CallsFor(mounts, stop)[..k + 2] == log + [CallFor(mounts[0], stop)] + CallsFor(mounts[1..], stop)[..k + 1]
  {
    CallsShift(log, mounts, stop);
    assert log + CallsFor(mounts, stop)[..0] == log;
    assert mounts[k + 1] == mounts[1..][k];
    forall j | 0 <= j < k + 1
      ensures !CallFails(st, log + CallsFor(mounts, stop)[..j], mounts[j], stop)
    {
      if j > 0 {
        assert mounts[j] == mounts[1..][j - 1];
        assert !CallFails(st, log + [CallFor(mounts[0], stop)] + CallsFor(mounts[1..], stop)[..j - 1], mounts[1..][j - 1], stop);
      }
    }
  }

  /** `pause(ids)`: stops the selected stores. The table is not changed. */
  function Pause(ds: DataStore, st: Stores, order: seq<MountId>, ids: Option<seq<MountId>>): (r: Step<()>)
    requires Enumerates(order, ds.mountpoints.Keys)
    ensures r.ds.mountpoints == ds.mountpoints && r.ds.root == ds.root && r.ds.cache == ds.cache
    ensures Selected(ds, order, ids).Err? ==> r == Step(Err(KeyError), ds)
    ensures r.out.Ok? ==> var ms := Selected(ds, order, ids).value;
              r.ds.log == ds.log + CallsFor(ms, true)
    ensures Selected(ds, order, ids).Ok? ==>
              var calls := CallEach(ds.log, st, Selected(ds, order, ids).value, true);
              && r.ds.log == calls.1
              && (r.out.Ok? <==> calls.0)
              && (r.out.Err? ==> r.out.error == StoreFailure)
  {
    match Selected(ds, order, ids)
    case Err(e) => Step(Err(e), ds)
    case Ok(ms) =>
      var (ok, log) := CallEach(ds.log, st, ms, true);
      Step(if ok then Ok(()) else Err(StoreFailure), ds.(log := log))
  }

  /** `unpause(ids)`: initializes the selected stores again. The table is
      not changed. */
  function Unpause(ds: DataStore, st: Stores, order: seq<MountId>, ids: Option<seq<MountId>>): (r: Step<()>)
    requires Enumerates(order, ds.mountpoints.Keys)
    ensures r.ds.mountpoints == ds.mountpoints && r.ds.root == ds.root && r.ds.cache == ds.cache
    ensures Selected(ds, order, ids).Err? ==> r == Step(Err(KeyError), ds)
    ensures r.out.Ok? ==> var ms := Selected(ds, order, ids).value;
              r.ds.log == ds.log + CallsFor(ms, false)
    ensures Selected(ds, order, ids).Ok? ==>
              var calls := CallEach(ds.log, st, Selected(ds, order, ids).value, false);
              && r.ds.log == calls.1
              && (r.out.Ok? <==> calls.0)
              && (r.out.Err? ==> r.out.error == StoreFailure)
  {
    match Selected(ds, order, ids)
    case Err(e) => Step(Err(e), ds)
    case Ok(ms) =>
      var (ok, log) := CallEach(ds.log, st, ms, false);
      Step(if ok then Ok(()) else Err(StoreFailure), ds.(log := log))
  }

  /** With no ids given, every mounted store is among the selected ones. */
  lemma SelectedEvery(ds: DataStore, order: seq<MountId>, ids: Option<seq<MountId>>)
    requires Enumerates(order, ds.mountpoints.Keys)
    requires ids.None? || ids == Some([])
    ensures Selected(ds, order, ids).Ok?
    ensures forall id :: id in ds.mountpoints ==> ds.mountpoints[id] in Selected(ds, order, ids).value
  {
    var ms := Selected(ds, order, ids).value;
    forall id | id in ds.mountpoints
      ensures ds.mountpoints[id] in ms
    {
      var i :| 0 <= i < |order| && order[i] == id;
      assert ms[i] == ds.mountpoints[order[i]];
    }
  }

  /** Each store's call is among the calls on the stores, and every call
      of a pause is a stop. */
  lemma CallsForMembers(ms: seq<MountPoint>, stop: bool)
    ensures forall m :: m in ms ==> CallFor(m, stop) in CallsFor(ms, stop)
    ensures stop ==> forall call :: call in CallsFor(ms, stop) ==> call.Stop?
  {
    forall m | m in ms
      ensures CallFor(m, stop) in CallsFor(ms, stop)
    {
      var i :| 0 <= i < |ms| && ms[i] == m;
      assert CallsFor(ms, stop)[i] == CallFor(m, stop);
    }
  }

  /** A pause with no ids given that does not fail stops every mounted
      store, and makes no call other than those stops. */
  lemma {:induction false} PauseStopsEvery(ds: DataStore, st: Stores, order: seq<MountId>)
    requires Enumerates(order, ds.mountpoints.Keys)
    requires Pause(ds, st, order, None).out.Ok?
    ensures var r := Pause(ds, st, order, None);
            && r.ds.log[..|ds.log|] == ds.log
            && (forall id :: id in ds.mountpoints ==> Stop(ds.mountpoints[id].handle) in r.ds.log[|ds.log|..])
            && (forall call :: call in r.ds.log[|ds.log|..] ==> call.Stop?)
  {
    SelectedEvery(ds, order, None);
    var ms := Selected(ds, order, None).value;
    CallsForMembers(ms, true);
    var r := Pause(ds, st, order, None);
    assert r.ds.log == ds.log + CallsFor(ms, true);
    assert r.ds.log[|ds.log|..] == CallsFor(ms, true);
    assert forall id :: id in ds.mountpoints ==> CallFor(ds.mountpoints[id], true) == Stop(ds.mountpoints[id].handle);
  }

  /** Pausing and then unpausing the same stores, with no call failing,
      stops each store in turn and then initializes each in turn. */
  lemma {:induction false} PauseThenUnpause(ds: DataStore, st: Stores, order: seq<MountId>, ids: Option<seq<MountId>>)
    requires Enumerates(order, ds.mountpoints.Keys)
    requires Pause(ds, st, order, ids).out.Ok?
    requires Unpause(Pause(ds, st, order, ids).ds, st, order, ids).out.Ok?
    ensures var ms := Selected(ds, order, ids).value;
            Unpause(Pause(ds, st, order, ids).ds, st, order, ids).ds.log == ds.log + CallsFor(ms, true) + CallsFor(ms, false)
  {
    var p := Pause(ds, st, order, ids);
    assert Selected(p.ds, order, ids) == Selected(ds, order, ids);
  }

  /** `_resolveMountpoint(mountpoint)` given an id or None: the mount filed
      under the id, KeyError for an id not in the table, the root for None. */
  function ResolveMountpoint(ds: DataStore, mountpoint: PyValue): (r: Result<Option<MountPoint>>)
    ensures mountpoint == PyNone ==> r == Ok(ds.root)
    ensures mountpoint.PyStr? && mountpoint.s in ds.mountpoints ==> r == Ok(Some(ds.mountpoints[mountpoint.s]))
    ensures r.Err? <==> mountpoint != PyNone && !(mountpoint.PyStr? && mountpoint.s in ds.mountpoints)
    ensures r.Err? ==> r.error == KeyError
  {
    if mountpoint == PyNone then Ok(ds.root)
    else if mountpoint.PyStr? && mountpoint.s in ds.mountpoints then Ok(Some(ds.mountpoints[mountpoint.s]))
    else Err(KeyError)
  }

  /** `_resolveMountpoint(props)` given a dictionary: pops its
      `mountpoint` entry, whatever the outcome, and resolves that. */
  function ResolveFromProps(ds: DataStore, props: map<string, PyValue>): (r: (Result<Option<MountPoint>>, map<string, PyValue>))
    ensures r.1 == props - {"mountpoint"}
    ensures "mountpoint" !in props ==> r.0 == Ok(ds.root)
    ensures "mountpoint" in props ==> r.0 == ResolveMountpoint(ds, props["mountpoint"])
  {
    var (v, rest) := Pop(props, "mountpoint");
    (ResolveMountpoint(ds, v), rest)
  }
}
