/** The object protocol of the facade: `checkin`, `checkout`, `copy` and
    `get`. Each picks a store (by explicit mount id, by the uid cache, or by
    scanning the mount table) and hands the request on to it.
 */
module Protocol {
  import opened Outcomes
  import opened PyValues
  import opened DataStores
  import opened Mounts
  import opened Resolver

  /** The properties a logged call handed to a store, if it handed any. */
  function SentProps(call: StoreCall): Option<map<string, PyValue>>
  {
    match call
    case Create(_, props, _) => Some(props)
    case Update(_, _, props, _) => Some(props)
    case CheckinCall(_, props, _) => Some(props)
    case UpdateProps(_, props, _) => Some(props)
    case _ => None
  }

  // ---- checkin ----

  /** Whether `checkin` consults the extended-attribute hint of the file:
      only for a non-empty file name, only when the properties name no
      mount, and only when the file carries a `mountpoint` attribute. */
  predicate UsesHint(props: map<string, PyValue>, filelike: Option<string>, hint: Option<PyValue>)
  {
    filelike.Some? && |filelike.value| > 0 && "mountpoint" !in props && hint.Some?
  }

  /** The store `checkin` writes to and the properties it hands on. The
      hint wins when it names a store; otherwise the `mountpoint` entry of
      the properties is popped and resolved. */
  function CheckinTarget(ds: DataStore, props: map<string, PyValue>, filelike: Option<string>, hint: Option<PyValue>)
    : (r: (Result<Option<MountPoint>>, map<string, PyValue>))
    ensures "mountpoint" !in r.1
    ensures r.1 == props - {"mountpoint"}
    ensures !UsesHint(props, filelike, hint) ==> r == ResolveFromProps(ds, props)
    ensures UsesHint(props, filelike, hint) && ResolveMountpoint(ds, hint.value).Err? ==> r.0 == Err(KeyError)
    ensures UsesHint(props, filelike, hint) && ResolveMountpoint(ds, hint.value) == Ok(None) ==> r.0 == Ok(ds.root)
    ensures UsesHint(props, filelike, hint) && hint.value.PyStr? && hint.value.s in ds.mountpoints ==>
              r.0 == Ok(Some(ds.mountpoints[hint.value.s]))
  {
    if UsesHint(props, filelike, hint) then
      match ResolveMountpoint(ds, hint.value)
      case Err(e) => (Err(e), props)
      case Ok(Some(m)) => (Ok(Some(m)), props)
      case Ok(None) => ResolveFromProps(ds, props)
    else ResolveFromProps(ds, props)
  }

  /** `checkin(props, filelike)`: returns the uid and the version id as a
      string. A store without versions gets `update` when the properties
      carry a true uid and `create` otherwise, and its version is always
      "1"; a versioning store gets `checkin`. The uid is then cached as
      living on that store. */
  function Checkin(ds: DataStore, st: Stores, rt: Runtime, props: map<string, PyValue>,
                   filelike: Option<string>, hint: Option<PyValue>): (r: Step<(PyValue, string)>)
    ensures r.ds.mountpoints == ds.mountpoints && r.ds.root == ds.root
    ensures r.ds.backends == ds.backends && r.ds.nextHandle == ds.nextHandle
    ensures CheckinTarget(ds, props, filelike, hint).0.Err? ==> r == Step(Err(KeyError), ds)
    ensures CheckinTarget(ds, props, filelike, hint).0 == Ok(None) ==> r == Step(Err(AttributeError), ds)
    ensures |ds.log| <= |r.ds.log| <= |ds.log| + 1 && r.ds.log[..|ds.log|] == ds.log
    ensures forall i :: |ds.log| <= i < |r.ds.log| ==>
              SentProps(r.ds.log[i]) == Some(props - {"mountpoint"})
    ensures r.out.Ok? ==>
              var m := CheckinTarget(ds, props, filelike, hint).0;
              && m.Ok? && m.value.Some?
              && r.ds.cache == ds.cache[r.out.value.0 := m.value]
              && (!m.value.value.versions ==> r.out.value.1 == "1")
    ensures r.out.Err? ==> r.ds.cache == ds.cache
    ensures var c := CheckinTarget(ds, props, filelike, hint);
            c.0.Ok? && c.0.value.Some? ==> r == WriteTo(ds, st, rt, c.0.value.value, c.1, filelike)
  {
    var (target, sent) := CheckinTarget(ds, props, filelike, hint);
    match target
    case Err(e) => Step(Err(e), ds)
    case Ok(None) => Step(Err(AttributeError), ds)
    case Ok(Some(mp)) => WriteTo(ds, st, rt, mp, sent, filelike)
  }

  /** The write `checkin` makes on the store it picked. A store without
      versions gets `update(uid, props, filelike)` when the properties carry
      a true uid and `create(props, filelike)` otherwise, and the version
      returned is "1"; a versioning store gets `checkin(props, filelike)`,
      whose version is returned as `str(vid)`. Whatever the store returns
      as the uid is cached as living on that store. */
  function WriteTo(ds: DataStore, st: Stores, rt: Runtime, mp: MountPoint, sent: map<string, PyValue>,
                   filelike: Option<string>): (r: Step<(PyValue, string)>)
    ensures r.ds == ds.(log := r.ds.log, cache := r.ds.cache)
    ensures r.out.Ok? ==> r.ds.cache == ds.cache[r.out.value.0 := Some(mp)]
    ensures r.out.Err? ==> r.ds.cache == ds.cache
    ensures var uid := if "uid" in sent then sent["uid"] else PyNone;
            !mp.versions && Truthy(uid) ==>
              var answer := st.update(ds.log, mp.handle, uid, sent, filelike);
              && r.ds.log == ds.log + [Update(mp.handle, uid, sent, filelike)]
              && (answer.Ok? ==> r.out == Ok((uid, "1")))
              && (answer.Err? ==> r.out == Err(answer.error))
    ensures var uid := if "uid" in sent then sent["uid"] else PyNone;
            !mp.versions && !Truthy(uid) ==>
              var answer := st.create(ds.log, mp.handle, sent, filelike);
              && r.ds.log == ds.log + [Create(mp.handle, sent, filelike)]
              && (answer.Ok? ==> r.out == Ok((answer.value, "1")))
              && (answer.Err? ==> r.out == Err(answer.error))
    ensures mp.versions ==>
              var answer := st.checkin(ds.log, mp.handle, sent, filelike);
              && r.ds.log == ds.log + [CheckinCall(mp.handle, sent, filelike)]
              && (answer.Ok? ==> r.out == Ok((answer.value.0, StrOf(answer.value.1, rt))))
              && (answer.Err? ==> r.out == Err(answer.error))
  {
    if !mp.versions then
      var uid := if "uid" in sent then sent["uid"] else PyNone;
      if Truthy(uid) then
        var ds1 := ds.(log := ds.log + [Update(mp.handle, uid, sent, filelike)]);
        match st.update(ds.log, mp.handle, uid, sent, filelike)
        case Err(e) => Step(Err(e), ds1)
        case Ok(_) => Step(Ok((uid, "1")), ds1.(cache := ds.cache[uid := Some(mp)]))
      else
        var ds1 := ds.(log := ds.log + [Create(mp.handle, sent, filelike)]);
        match st.create(ds.log, mp.handle, sent, filelike)
        case Err(e) => Step(Err(e), ds1)
        case Ok(newUid) => Step(Ok((newUid, "1")), ds1.(cache := ds.cache[newUid := Some(mp)]))
    else
      var ds1 := ds.(log := ds.log + [CheckinCall(mp.handle, sent, filelike)]);
      match st.checkin(ds.log, mp.handle, sent, filelike)
      case Err(e) => Step(Err(e), ds1)
      case Ok((uid, vid)) => Step(Ok((uid, StrOf(vid, rt))), ds1.(cache := ds.cache[uid := Some(mp)]))
  }

  /** Checking in to a store without versions, with properties that carry
      a true uid, updates that object in place and returns its uid. */
  lemma CheckinUpdatesInPlace(ds: DataStore, st: Stores, rt: Runtime, props: map<string, PyValue>,
                              filelike: Option<string>, hint: Option<PyValue>)
    requires CheckinTarget(ds, props, filelike, hint).0.Ok? && CheckinTarget(ds, props, filelike, hint).0.value.Some?
    requires !CheckinTarget(ds, props, filelike, hint).0.value.value.versions
    requires "uid" in props && Truthy(props["uid"])
    ensures var m := CheckinTarget(ds, props, filelike, hint).0.value.value;
            var r := Checkin(ds, st, rt, props, filelike, hint);
            && r.ds.log == ds.log + [Update(m.handle, props["uid"], props - {"mountpoint"}, filelike)]
            && (r.out.Ok? ==> r.out.value == (props["uid"], "1"))
  {
  }

  /** On a store without versions, checking in properties without a uid
      creates an object; checking in the same properties again with the
      uid returned updates that object on the same store. */
  lemma CreateThenUpdate(ds: DataStore, st: Stores, rt: Runtime, props: map<string, PyValue>,
                         filelike: Option<string>, hint: Option<PyValue>)
    requires "uid" !in props
    requires CheckinTarget(ds, props, filelike, hint).0.Ok? && CheckinTarget(ds, props, filelike, hint).0.value.Some?
    requires !CheckinTarget(ds, props, filelike, hint).0.value.value.versions
    requires Checkin(ds, st, rt, props, filelike, hint).out.Ok? && Truthy(Checkin(ds, st, rt, props, filelike, hint).out.value.0)
    ensures var m := CheckinTarget(ds, props, filelike, hint).0.value.value;
            var r := Checkin(ds, st, rt, props, filelike, hint);
            var u := r.out.value.0;
            && r.ds.log == ds.log + [Create(m.handle, props - {"mountpoint"}, filelike)]
            && Checkin(r.ds, st, rt, props["uid" := u], filelike, hint).ds.log
               == r.ds.log + [Update(m.handle, u, props["uid" := u] - {"mountpoint"}, filelike)]
  {
    var r := Checkin(ds, st, rt, props, filelike, hint);
    var u := r.out.value.0;
    SameTarget(ds, r.ds, props, u, filelike, hint);
  }

  /** The store `checkin` picks depends only on the mount table and the
      `mountpoint` entry, not on the uid. */
  lemma SameTarget(ds: DataStore, ds2: DataStore, props: map<string, PyValue>, u: PyValue,
                   filelike: Option<string>, hint: Option<PyValue>)
    requires ds2.mountpoints == ds.mountpoints && ds2.root == ds.root
    ensures CheckinTarget(ds2, props["uid" := u], filelike, hint).0 == CheckinTarget(ds, props, filelike, hint).0
  {
    var p2 := props["uid" := u];
    assert ("mountpoint" in p2) == ("mountpoint" in props);
    if "mountpoint" in props {
      assert p2["mountpoint"] == props["mountpoint"];
    }
  }

  /** A uid just checked in is resolved to the store it was written to,
      from the cache, whatever the stores would answer to a scan. */
  lemma CheckinThenResolve(ds: DataStore, st: Stores, rt: Runtime, order: seq<MountId>,
                           props: map<string, PyValue>, filelike: Option<string>, hint: Option<PyValue>)
    requires Enumerates(order, ds.mountpoints.Keys)
    requires Checkin(ds, st, rt, props, filelike, hint).out.Ok?
    ensures var r := Checkin(ds, st, rt, props, filelike, hint);
            var q := MountpointFor(r.ds, st, order, r.out.value.0);
            && q.out == CheckinTarget(ds, props, filelike, hint).0
            && q.ds == r.ds
  {
  }

  // ---- checkout ----

  /** D-Bus argument cleaning `x and str(x) or None`. */
  function Cleaned(v: PyValue, rt: Runtime): (r: Option<string>)
    ensures r.None? <==> !Truthy(v) || StrOf(v, rt) == ""
    ensures r.Some? ==> r.value == StrOf(v, rt)
  {
    if Truthy(v) && StrOf(v, rt) != "" then Some(StrOf(v, rt)) else None
  }

  /** What a store without versions gives `checkout`: the content's
      properties with `mountpoint` set to the id of the store holding it,
      and its file name. */
  function PlainCheckout(found: Lookup): (r: Result<(map<string, PyValue>, string)>)
    ensures found.Found? && found.content.filename.Some? <==> r.Ok?
    ensures r.Ok? ==> r.value.0 == found.content.properties["mountpoint" := PyStr(found.content.backingstore)]
                      && r.value.1 == found.content.filename.value
    ensures found.Missing? ==> r == Err(KeyError)
    ensures found.NotFound? ==> r == Err(AttributeError)
  {
    match found
    case Found(c) =>
      if c.filename.Some? then Ok((c.properties["mountpoint" := PyStr(c.backingstore)], c.filename.value))
      else Err(AttributeError)
    case NotFound => Err(AttributeError)
    case Missing => Err(KeyError)
    case Fails => Err(StoreFailure)
  }

  /** `checkout(uid, vid, mountpoint, target, dir)`: the store is the one
      `_mountpointFor` names (the mountpoint argument is cleaned and then
      ignored); no store raises KeyError. */
  function Checkout(ds: DataStore, st: Stores, rt: Runtime, order: seq<MountId>, uid: PyValue,
                    vid: PyValue, target: PyValue, dir: PyValue): (r: Step<(map<string, PyValue>, string)>)
    requires Enumerates(order, ds.mountpoints.Keys)
    ensures var q := MountpointFor(ds, st, order, PyStr(StrOf(uid, rt)));
            && r.ds == q.ds
            && (q.out.Err? ==> r.out == Err(q.out.error))
            && (q.out == Ok(None) ==> r.out == Err(KeyError))
            && (q.out.Ok? && q.out.value.Some? && !q.out.value.value.versions ==>
                  r.out == PlainCheckout(st.get(q.ds.log, q.out.value.value.handle, PyStr(StrOf(uid, rt)), None)))
            && (q.out.Ok? && q.out.value.Some? && q.out.value.value.versions ==>
                  r.out == st.checkout(q.ds.log, q.out.value.value.handle, PyStr(StrOf(uid, rt)),
                                       Cleaned(vid, rt), Cleaned(target, rt), Cleaned(dir, rt)))
  {
    var u := PyStr(StrOf(uid, rt));
    var q := MountpointFor(ds, st, order, u);
    match q.out
    case Err(e) => Step(Err(e), q.ds)
    case Ok(None) => Step(Err(KeyError), q.ds)
    case Ok(Some(mp)) =>
      if !mp.versions then Step(PlainCheckout(st.get(q.ds.log, mp.handle, u, None)), q.ds)
      else Step(st.checkout(q.ds.log, mp.handle, u, Cleaned(vid, rt), Cleaned(target, rt), Cleaned(dir, rt)), q.ds)
  }

  /** Checking out a uid just checked in to a store without versions reads it
      back from that very store, and the result names that store. */
  lemma CheckoutAfterCheckin(ds: DataStore, st: Stores, rt: Runtime, order: seq<MountId>,
                            props: map<string, PyValue>, filelike: Option<string>, hint: Option<PyValue>)
    requires Enumerates(order, ds.mountpoints.Keys)
    requires Checkin(ds, st, rt, props, filelike, hint).out.Ok?
    requires Checkin(ds, st, rt, props, filelike, hint).out.value.0 == PyStr(StrOf(Checkin(ds, st, rt, props, filelike, hint).out.value.0, rt))
    requires !CheckinTarget(ds, props, filelike, hint).0.value.value.versions
    ensures var c := Checkin(ds, st, rt, props, filelike, hint);
            var m := CheckinTarget(ds, props, filelike, hint).0.value.value;
            var u := c.out.value.0;
            && Checkout(c.ds, st, rt, order, u, PyNone, PyNone, PyNone)
               == Step(PlainCheckout(st.get(c.ds.log, m.handle, u, None)), c.ds)
  {
    var c := Checkin(ds, st, rt, props, filelike, hint);
    CheckinThenResolve(ds, st, rt, order, props, filelike, hint);
  }

  // ---- copy ----

  /** `copy(uid, vid, mountpoint, target_mountpoint)`. Between stores that
      do not both keep versions the object is re-created on the target
      without its uid, and the new uid and version "1" are returned. When
      both keep versions the whole history is copied raw, the properties
      are written over it, and nothing (None) is returned. */
  function Copy(ds: DataStore, st: Stores, uid: PyValue, mountpoint: PyValue, targetMountpoint: PyValue)
    : (r: Step<Option<(PyValue, string)>>)
    ensures r.ds.mountpoints == ds.mountpoints && r.ds.root == ds.root && r.ds.cache == ds.cache
    ensures r.ds.backends == ds.backends && r.ds.nextHandle == ds.nextHandle
    ensures ResolveMountpoint(ds, mountpoint).Err? || ResolveMountpoint(ds, mountpoint) == Ok(None) ==>
              r == Step(Err(KeyError), ds)
    ensures ResolveMountpoint(ds, targetMountpoint).Err? || ResolveMountpoint(ds, targetMountpoint) == Ok(None) ==>
              r == Step(Err(KeyError), ds)
    ensures r.out.Ok? ==>
              var s := ResolveMountpoint(ds, mountpoint).value.value;
              var t := ResolveMountpoint(ds, targetMountpoint).value.value;
              var l := st.get(ds.log, s.handle, uid, None);
              && l.Found?
              && var c := l.content;
              && c.filename.Some?
              && (r.out.value.Some? <==> !(s.versions && t.versions))
              && (r.out.value.Some? ==>
                    && "uid" in c.properties
                    && r.ds.log == ds.log + [Create(t.handle, c.properties - {"uid"}, c.filename)]
                    && st.create(ds.log, t.handle, c.properties - {"uid"}, c.filename) == Ok(r.out.value.value.0)
                    && r.out.value.value.1 == "1")
              && (r.out.value.None? ==>
                    r.ds.log == ds.log + [RawCopy(t.handle, s.handle), UpdateProps(t.handle, c.properties, c.filename)])
    ensures BothResolve(ds, mountpoint, targetMountpoint) ==>
              var s := ResolveMountpoint(ds, mountpoint).value.value;
              var l := st.get(ds.log, s.handle, uid, None);
              && (l.NotFound? ==> r == Step(Err(AttributeError), ds))
              && (l.Missing? ==> r == Step(Err(KeyError), ds))
              && (l.Fails? ==> r == Step(Err(StoreFailure), ds))
    ensures BothResolve(ds, mountpoint, targetMountpoint) ==>
              var s := ResolveMountpoint(ds, mountpoint).value.value;
              var t := ResolveMountpoint(ds, targetMountpoint).value.value;
              var l := st.get(ds.log, s.handle, uid, None);
              l.Found? && !(s.versions && t.versions) ==>
                var c := l.content;
                var sent := c.properties - {"uid"};
                var made := st.create(ds.log, t.handle, sent, c.filename);
                && ("uid" !in c.properties ==> r == Step(Err(KeyError), ds))
                && ("uid" in c.properties && c.filename.None? ==> r == Step(Err(AttributeError), ds))
                && ("uid" in c.properties && c.filename.Some? ==>
                      && r.ds.log == ds.log + [Create(t.handle, sent, c.filename)]
                      && (made.Ok? ==> r.out == Ok(Some((made.value, "1"))))
                      && (made.Err? ==> r.out == Err(made.error)))
    ensures BothResolve(ds, mountpoint, targetMountpoint) ==>
              var s := ResolveMountpoint(ds, mountpoint).value.value;
              var t := ResolveMountpoint(ds, targetMountpoint).value.value;
              var l := st.get(ds.log, s.handle, uid, None);
              l.Found? && s.versions && t.versions ==>
                var c := l.content;
                var log1 := ds.log + [RawCopy(t.handle, s.handle)];
                var copied := st.rawCopy(ds.log, t.handle, s.handle);
                var updated := st.updateProps(log1, t.handle, c.properties, c.filename);
                && (copied.Err? ==> r == Step(Err(copied.error), ds.(log := log1)))
                && (copied.Ok? && c.filename.None? ==> r == Step(Err(AttributeError), ds.(log := log1)))
                && (copied.Ok? && c.filename.Some? ==>
                      && r.ds.log == log1 + [UpdateProps(t.handle, c.properties, c.filename)]
                      && (updated.Ok? ==> r.out == Ok(None))
                      && (updated.Err? ==> r.out == Err(updated.error)))
  {
    match (ResolveMountpoint(ds, mountpoint), ResolveMountpoint(ds, targetMountpoint))
    case (Ok(Some(mp)), Ok(Some(mp2))) =>
      (match st.get(ds.log, mp.handle, uid, None)
       case Found(c) =>
         if !mp.versions || !mp2.versions then
           if "uid" !in c.properties then Step(Err(KeyError), ds)
           else if c.filename.None? then Step(Err(AttributeError), ds)
           else
             var sent := c.properties - {"uid"};
             var ds1 := ds.(log := ds.log + [Create(mp2.handle, sent, c.filename)]);
             (match st.create(ds.log, mp2.handle, sent, c.filename)
              case Err(e) => Step(Err(e), ds1)
              case Ok(newUid) => Step(Ok(Some((newUid, "1"))), ds1))
         else
           var ds1 := ds.(log := ds.log + [RawCopy(mp2.handle, mp.handle)]);
           (match st.rawCopy(ds.log, mp2.handle, mp.handle)
            case Err(e) => Step(Err(e), ds1)
            case Ok(_) =>
              if c.filename.None? then Step(Err(AttributeError), ds1)
              else
                var ds2 := ds1.(log := ds1.log + [UpdateProps(mp2.handle, c.properties, c.filename)]);
                (match st.updateProps(ds1.log, mp2.handle, c.properties, c.filename)
                 case Err(e) => Step(Err(e), ds2)
                 case Ok(_) => Step(Ok(None), ds2)))
       case NotFound => Step(Err(AttributeError), ds)
       case Missing => Step(Err(KeyError), ds)
       case Fails => Step(Err(StoreFailure), ds))
    case (Err(e), _) => Step(Err(e), ds)
    case (Ok(None), _) => Step(Err(KeyError), ds)
    case (_, Err(e)) => Step(Err(e), ds)
    case (_, Ok(None)) => Step(Err(KeyError), ds)
  }

  /** Both mount arguments of `copy` name a store. */
  predicate BothResolve(ds: DataStore, mountpoint: PyValue, targetMountpoint: PyValue)
  {
    && ResolveMountpoint(ds, mountpoint).Ok? && ResolveMountpoint(ds, mountpoint).value.Some?
    && ResolveMountpoint(ds, targetMountpoint).Ok? && ResolveMountpoint(ds, targetMountpoint).value.Some?
  }

  /** Copying onto a store without versions makes the same call, and
      returns the same uid and version, as checking the source's
      properties, without their uid, in to that store. */
  lemma CopyIsCreate(ds: DataStore, st: Stores, rt: Runtime, uid: PyValue, mountpoint: PyValue, targetMountpoint: PyValue)
    requires BothResolve(ds, mountpoint, targetMountpoint)
    requires var s := ResolveMountpoint(ds, mountpoint).value.value;
             var l := st.get(ds.log, s.handle, uid, None);
             l.Found? && "uid" in l.content.properties && l.content.filename.Some?
    requires !ResolveMountpoint(ds, targetMountpoint).value.value.versions
    ensures var s := ResolveMountpoint(ds, mountpoint).value.value;
            var t := ResolveMountpoint(ds, targetMountpoint).value.value;
            var c := st.get(ds.log, s.handle, uid, None).content;
            var r := Copy(ds, st, uid, mountpoint, targetMountpoint);
            var w := WriteTo(ds, st, rt, t, c.properties - {"uid"}, c.filename);
            && r.ds.log == w.ds.log
            && (r.out.Ok? <==> w.out.Ok?)
            && (r.out.Ok? ==> r.out.value == Some(w.out.value))
            && (r.out.Err? ==> r.out.error == w.out.error)
  {
    var s := ResolveMountpoint(ds, mountpoint).value.value;
    var c := st.get(ds.log, s.handle, uid, None).content;
    assert "uid" !in c.properties - {"uid"};
  }

  // ---- get ----

  /** A store answer `get` passes over: None, or KeyError raised. */
  predicate PassedOver(l: Lookup)
  {
    l.NotFound? || l.Missing?
  }

  /** The fallback scan of `get`: the first store in table order that
      returns content (versioning stores are asked for the revision, the
      others for the uid alone); a store raising KeyError or answering None
      is passed over, and any other exception propagates. */
  function GetScan(ds: DataStore, st: Stores, mounts: seq<MountPoint>, uid: PyValue, rev: Option<PyValue>)
    : (r: Result<Option<ContentView>>)
    ensures r.Ok? && r.value.Some? ==>
              exists i :: 0 <= i < |mounts| && AskRev(ds, st, mounts[i], uid, rev) == Found(r.value.value)
                          && forall j :: 0 <= j < i ==> PassedOver(AskRev(ds, st, mounts[j], uid, rev))
    ensures r == Ok(None) <==> forall i :: 0 <= i < |mounts| ==> PassedOver(AskRev(ds, st, mounts[i], uid, rev))
    ensures r.Err? ==>
              && r.error == StoreFailure
              && exists i :: 0 <= i < |mounts| && AskRev(ds, st, mounts[i], uid, rev).Fails?
                             && forall j :: 0 <= j < i ==> PassedOver(AskRev(ds, st, mounts[j], uid, rev))
  {
    if |mounts| == 0 then Ok(None)
    else
      match AskRev(ds, st, mounts[0], uid, rev)
      case Found(c) => Ok(Some(c))
      case Fails => Err(StoreFailure)
      case _ =>
        var r := GetScan(ds, st, mounts[1..], uid, rev);
        ScanShift(ds, st, mounts, uid, rev, r);
        r
  }

  /** The step of `GetScan` past a store that is passed over. */
  lemma ScanShift(ds: DataStore, st: Stores, mounts: seq<MountPoint>, uid: PyValue, rev: Option<PyValue>,
                  r: Result<Option<ContentView>>)
    requires |mounts| > 0 && PassedOver(AskRev(ds, st, mounts[0], uid, rev))
    requires r.Ok? && r.value.Some? ==>
               exists i :: 0 <= i < |mounts[1..]| && AskRev(ds, st, mounts[1..][i], uid, rev) == Found(r.value.value)
                           && forall j :: 0 <= j < i ==> PassedOver(AskRev(ds, st, mounts[1..][j], uid, rev))
    requires r == Ok(None) <==> forall i :: 0 <= i < |mounts[1..]| ==> PassedOver(AskRev(ds, st, mounts[1..][i], uid, rev))
    requires r.Err? ==>
               exists i :: 0 <= i < |mounts[1..]| && AskRev(ds, st, mounts[1..][i], uid, rev).Fails?
                           && forall j :: 0 <= j < i ==> PassedOver(AskRev(ds, st, mounts[1..][j], uid, rev))
    ensures r.Ok? && r.value.Some? ==>
              exists i :: 0 <= i < |mounts| && AskRev(ds, st, mounts[i], uid, rev) == Found(r.value.value)
                          && forall j :: 0 <= j < i ==> PassedOver(AskRev(ds, st, mounts[j], uid, rev))
    ensures r == Ok(None) <==> forall i :: 0 <= i < |mounts| ==> PassedOver(AskRev(ds, st, mounts[i], uid, rev))
    ensures r.Err? ==>
              exists i :: 0 <= i < |mounts| && AskRev(ds, st, mounts[i], uid, rev).Fails?
                          && forall j :: 0 <= j < i ==> PassedOver(AskRev(ds, st, mounts[j], uid, rev))
  {
    var tail := mounts[1..];
    assert forall i :: 0 <= i < |tail| ==> tail[i] == mounts[i + 1];
    if r.Ok? && r.value.Some? {
      var i :| 0 <= i < |tail| && AskRev(ds, st, tail[i], uid, rev) == Found(r.value.value)
               && forall j :: 0 <= j < i ==> PassedOver(AskRev(ds, st, tail[j], uid, rev));
      assert forall j :: 0 <= j < i + 1 ==> PassedOver(AskRev(ds, st, mounts[j], uid, rev)) by {
        forall j | 0 <= j < i + 1
          ensures PassedOver(AskRev(ds, st, mounts[j], uid, rev))
        {
          if j > 0 {
            assert mounts[j] == tail[j - 1];
          }
        }
      }
    }
    if r.Err? {
      var i :| 0 <= i < |tail| && AskRev(ds, st, tail[i], uid, rev).Fails?
               && forall j :: 0 <= j < i ==> PassedOver(AskRev(ds, st, tail[j], uid, rev));
      assert forall j :: 0 <= j < i + 1 ==> PassedOver(AskRev(ds, st, mounts[j], uid, rev)) by {
        forall j | 0 <= j < i + 1
          ensures PassedOver(AskRev(ds, st, mounts[j], uid, rev))
        {
          if j > 0 {
            assert mounts[j] == tail[j - 1];
          }
        }
      }
    }
    if forall i :: 0 <= i < |tail| ==> PassedOver(AskRev(ds, st, tail[i], uid, rev)) {
      forall i | 0 <= i < |mounts|
        ensures PassedOver(AskRev(ds, st, mounts[i], uid, rev))
      {
        if i > 0 {
          assert mounts[i] == tail[i - 1];
        }
      }
    }
  }

  /** How a store answers the fallback scan of `get`. */
  function AskRev(ds: DataStore, st: Stores, m: MountPoint, uid: PyValue, rev: Option<PyValue>): Lookup
  {
    if m.versions then st.get(ds.log, m.handle, uid, rev) else st.get(ds.log, m.handle, uid, None)
  }

  /** `get(uid, rev, mountpoint)`: asks the named store (the root when none
      is named) for the revision, and falls back to scanning the mount
      table. No content anywhere gives None. An unknown mount id raises
      KeyError; with no store mounted at all, the missing root raises
      AttributeError, which nothing catches. */
  function Get(ds: DataStore, st: Stores, order: seq<MountId>, uid: PyValue, rev: Option<PyValue>, mountpoint: PyValue)
    : (r: Result<Option<ContentView>>)
    requires Enumerates(order, ds.mountpoints.Keys)
    ensures ResolveMountpoint(ds, mountpoint).Err? ==> r == Err(KeyError)
    ensures ResolveMountpoint(ds, mountpoint) == Ok(None) ==> r == Err(AttributeError)
    ensures ResolveMountpoint(ds, mountpoint).Ok? && ResolveMountpoint(ds, mountpoint).value.Some? ==>
              var m := ResolveMountpoint(ds, mountpoint).value.value;
              && (st.get(ds.log, m.handle, uid, rev).Found? ==> r == Ok(Some(st.get(ds.log, m.handle, uid, rev).content)))
              && (st.get(ds.log, m.handle, uid, rev).Fails? ==> r == Err(StoreFailure))
              && (st.get(ds.log, m.handle, uid, rev).NotFound? || st.get(ds.log, m.handle, uid, rev).Missing? ==>
                    r == GetScan(ds, st, InOrder(ds, order), uid, rev))
  {
    match ResolveMountpoint(ds, mountpoint)
    case Err(e) => Err(e)
    case Ok(None) => Err(AttributeError)
    case Ok(Some(mp)) =>
      match st.get(ds.log, mp.handle, uid, rev)
      case Found(c) => Ok(Some(c))
      case Fails => Err(StoreFailure)
      case _ => GetScan(ds, st, InOrder(ds, order), uid, rev)
  }

  /** Content that `get` returns came from a mounted store or from the
      root, which `unmount` may have dropped from the table. */
  lemma GetFromSomeStore(ds: DataStore, st: Stores, order: seq<MountId>, uid: PyValue, rev: Option<PyValue>, mountpoint: PyValue)
    requires Enumerates(order, ds.mountpoints.Keys)
    requires Get(ds, st, order, uid, rev, mountpoint).Ok? && Get(ds, st, order, uid, rev, mountpoint).value.Some?
    ensures exists m, rv :: (m in ds.mountpoints.Values || Some(m) == ds.root)
                            && st.get(ds.log, m.handle, uid, rv) == Found(Get(ds, st, order, uid, rev, mountpoint).value.value)
  {
    var c := Get(ds, st, order, uid, rev, mountpoint).value.value;
    var mp := ResolveMountpoint(ds, mountpoint).value.value;
    if st.get(ds.log, mp.handle, uid, rev).Found? {
      assert mp in ds.mountpoints.Values || Some(mp) == ds.root;
    } else {
      var mounts := InOrder(ds, order);
      var i :| 0 <= i < |mounts| && AskRev(ds, st, mounts[i], uid, rev) == Found(c);
      assert mounts[i] == ds.mountpoints[order[i]];
      assert mounts[i] in ds.mountpoints.Values;
      if mounts[i].versions {
        assert st.get(ds.log, mounts[i].handle, uid, rev) == Found(c);
      } else {
        assert st.get(ds.log, mounts[i].handle, uid, None) == Found(c);
      }
    }
  }
}
