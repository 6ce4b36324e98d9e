/** `_mountpointFor(uid)`: which mounted store holds a uid.

    A cached answer, None included, is returned as is. Otherwise every
    mounted store is asked for the uid (versioning stores with
    `allow_many=True`); a store that raises KeyError, or answers None, does
    not hold it. Among several holders the candidates are sorted by
    `(int(vid), mtime)` and the first is taken: the code takes the SMALLEST
    key, the earliest-scanned one among equal keys, although the comment
    beside it speaks of the most recent revision. The answer is cached.
 */
module Resolver {
  import opened Outcomes
  import opened PyStrings
  import opened PyValues
  import opened DataStores

  /** A store that holds the uid, with the content it returned. */
  datatype Candidate = Candidate(mount: MountPoint, content: ContentView)

  /** How a store answers the scan's `get`. A versioning store is asked
      with `allow_many=True` and answers with a list of revisions; `Found`
      then stands for a non-empty list, and the content it carries is never
      read as a content object (see `VersionKey`). */
  function Ask(ds: DataStore, st: Stores, m: MountPoint, uid: PyValue): Lookup
  {
    if m.versions then st.getMany(ds.log, m.handle, uid) else st.get(ds.log, m.handle, uid, None)
  }

  /** The mount table's stores in iteration order. */
  function InOrder(ds: DataStore, order: seq<MountId>): (ms: seq<MountPoint>)
    requires forall id :: id in order ==> id in ds.mountpoints
    ensures |ms| == |order| && forall i :: 0 <= i < |order| ==> ms[i] == ds.mountpoints[order[i]]
  {
    seq(|order|, i requires 0 <= i < |order| => ds.mountpoints[order[i]])
  }

  /** The stores among `mounts` that hold the uid, with what they returned,
      in scan order: the scan's answer when no store fails. */
  function Holders(ds: DataStore, st: Stores, mounts: seq<MountPoint>, uid: PyValue): (hs: seq<Candidate>)
    ensures forall c :: c in hs ==> c.mount in mounts && Ask(ds, st, c.mount, uid) == Found(c.content)
    ensures forall i :: 0 <= i < |mounts| && Ask(ds, st, mounts[i], uid).Found? ==>
                        Candidate(mounts[i], Ask(ds, st, mounts[i], uid).content) in hs
    ensures |hs| <= |mounts|
  {
    if |mounts| == 0 then []
    else
      var rest := Holders(ds, st, mounts[1..], uid);
      assert forall i :: 1 <= i < |mounts| ==> mounts[i] == mounts[1..][i - 1];
      match Ask(ds, st, mounts[0], uid)
      case Found(c) => [Candidate(mounts[0], c)] + rest
      case _ => rest
  }

  /** The first store's entry, if it holds the uid, then the rest. */
  lemma HoldersStep(ds: DataStore, st: Stores, mounts: seq<MountPoint>, uid: PyValue)
    requires |mounts| > 0
    ensures Holders(ds, st, mounts, uid)
            == (if Ask(ds, st, mounts[0], uid).Found? then [Candidate(mounts[0], Ask(ds, st, mounts[0], uid).content)] else [])
               + Holders(ds, st, mounts[1..], uid)
  {
    if !Ask(ds, st, mounts[0], uid).Found? {
      assert [] + Holders(ds, st, mounts[1..], uid) == Holders(ds, st, mounts[1..], uid);
    }
  }

  /** `a` comes before `b` in `hs`. */
  predicate Before(hs: seq<Candidate>, a: Candidate, b: Candidate)
  {
    exists p, q :: 0 <= p < q < |hs| && hs[p] == a && hs[q] == b
  }

  /** Two entries in order stay in order behind a prefix. */
  lemma PrefixKeepsOrder(head: seq<Candidate>, rest: seq<Candidate>, a: Candidate, b: Candidate)
    requires Before(rest, a, b)
    ensures Before(head + rest, a, b)
  {
    var p, q :| 0 <= p < q < |rest| && rest[p] == a && rest[q] == b;
    assert (head + rest)[|head| + p] == a && (head + rest)[|head| + q] == b;
  }

  /** A holder listed first comes before any later holder. */
  lemma FirstBefore(a: Candidate, rest: seq<Candidate>, b: Candidate)
    requires b in rest
    ensures Before([a] + rest, a, b)
  {
    var q :| 0 <= q < |rest| && rest[q] == b;
    assert ([a] + rest)[0] == a && ([a] + rest)[q + 1] == b;
  }

  /** An order among the later holders survives the first store's entry. */
  lemma HoldersLater(ds: DataStore, st: Stores, mounts: seq<MountPoint>, uid: PyValue, a: Candidate, b: Candidate)
    requires |mounts| > 0 && Before(Holders(ds, st, mounts[1..], uid), a, b)
    ensures Before(Holders(ds, st, mounts, uid), a, b)
  {
    HoldersStep(ds, st, mounts, uid);
    var head := if Ask(ds, st, mounts[0], uid).Found? then [Candidate(mounts[0], Ask(ds, st, mounts[0], uid).content)] else [];
    PrefixKeepsOrder(head, Holders(ds, st, mounts[1..], uid), a, b);
  }

  /** The first store, when it holds the uid, comes before every later
      holder. */
  lemma HoldersFirst(ds: DataStore, st: Stores, mounts: seq<MountPoint>, uid: PyValue, j: int)
    requires 0 < j < |mounts| && Ask(ds, st, mounts[0], uid).Found? && Ask(ds, st, mounts[j], uid).Found?
    ensures Before(Holders(ds, st, mounts, uid),
                   Candidate(mounts[0], Ask(ds, st, mounts[0], uid).content),
                   Candidate(mounts[j], Ask(ds, st, mounts[j], uid).content))
  {
    HoldersStep(ds, st, mounts, uid);
    assert mounts[j] == mounts[1..][j - 1];
    FirstBefore(Candidate(mounts[0], Ask(ds, st, mounts[0], uid).content), Holders(ds, st, mounts[1..], uid),
                Candidate(mounts[j], Ask(ds, st, mounts[j], uid).content));
  }

  /** Of two holders, the one scanned first is listed first. */
  lemma {:induction false} HoldersInOrder(ds: DataStore, st: Stores, mounts: seq<MountPoint>, uid: PyValue, i: int, j: int)
    requires 0 <= i < j < |mounts|
    requires Ask(ds, st, mounts[i], uid).Found? && Ask(ds, st, mounts[j], uid).Found?
    ensures Before(Holders(ds, st, mounts, uid),
                   Candidate(mounts[i], Ask(ds, st, mounts[i], uid).content),
                   Candidate(mounts[j], Ask(ds, st, mounts[j], uid).content))
  {
    if i == 0 {
      HoldersFirst(ds, st, mounts, uid, j);
    } else {
      assert mounts[i] == mounts[1..][i - 1] && mounts[j] == mounts[1..][j - 1];
      HoldersInOrder(ds, st, mounts[1..], uid, i - 1, j - 1);
      HoldersLater(ds, st, mounts, uid,
                   Candidate(mounts[i], Ask(ds, st, mounts[i], uid).content),
                   Candidate(mounts[j], Ask(ds, st, mounts[j], uid).content));
    }
  }

  /** The scan loop: the stores that returned content, in scan order. Any
      exception but KeyError propagates. */
  function Scan(ds: DataStore, st: Stores, mounts: seq<MountPoint>, uid: PyValue): (r: Result<seq<Candidate>>)
    ensures r.Err? <==> exists i :: 0 <= i < |mounts| && Ask(ds, st, mounts[i], uid).Fails?
    ensures r.Err? ==> r.error == StoreFailure
    ensures r.Ok? ==> r.value == Holders(ds, st, mounts, uid)
  {
    if |mounts| == 0 then Ok([])
    else
      var rest :- Scan(ds, st, mounts[1..], uid);
      assert forall i :: 1 <= i < |mounts| ==> mounts[i] == mounts[1..][i - 1];
      match Ask(ds, st, mounts[0], uid)
      case Found(c) => Ok([Candidate(mounts[0], c)] + rest)
      case Fails => Err(StoreFailure)
      case _ => Ok(rest)
  }

  /** One scan step over a store that holds the uid. */
  lemma ScanFound(ds: DataStore, st: Stores, mounts: seq<MountPoint>, uid: PyValue)
    requires |mounts| > 0 && Ask(ds, st, mounts[0], uid).Found? && Scan(ds, st, mounts[1..], uid).Ok?
    ensures Scan(ds, st, mounts, uid)
            == Ok([Candidate(mounts[0], Ask(ds, st, mounts[0], uid).content)] + Scan(ds, st, mounts[1..], uid).value)
  {
  }

  // ---- the tie-break ----

  /** The sort key of a candidate: `int(vid)`, then `mtime` (0 when absent).
      A candidate without a vid raises AttributeError, and so does the list
      a versioning store answers with; a vid `int` cannot read raises
      TypeError or ValueError. */
  function VersionKey(c: Candidate): (r: Result<(int, PyValue)>)
    ensures c.mount.versions ==> r == Err(AttributeError)
    ensures "vid" !in c.content.properties ==> r == Err(AttributeError)
    ensures r.Ok? ==> "vid" in c.content.properties && IntOf(c.content.properties["vid"]) == Ok(r.value.0)
    ensures r.Ok? ==> r.value.1 == if "mtime" in c.content.properties then c.content.properties["mtime"] else PyInt(0)
  {
    if c.mount.versions then Err(AttributeError)
    else
      var vid :- GetProp(c.content, "vid", None);
      var v :- IntOf(vid);
      Ok((v, GetProp(c.content, "mtime", Some(PyInt(0))).value))
  }

  /** `versionCmp`: by version, then by modification time. */
  function KeyCmp(a: (int, PyValue), b: (int, PyValue)): int
  {
    if a.0 < b.0 then -1 else if a.0 > b.0 then 1 else Cmp(a.1, b.1)
  }

  lemma KeyCmpAntisymmetric(a: (int, PyValue), b: (int, PyValue))
    ensures KeyCmp(a, b) == -KeyCmp(b, a)
  {
    CmpAntisymmetric(a.1, b.1);
  }

  lemma KeyCmpTransitive(a: (int, PyValue), b: (int, PyValue), c: (int, PyValue))
    requires KeyCmp(a, b) <= 0 && KeyCmp(b, c) <= 0
    ensures KeyCmp(a, c) <= 0
  {
    if a.0 == b.0 && b.0 == c.0 {
      CmpTransitive(a.1, b.1, c.1);
    }
  }

  /** The keys of all candidates, or the error of the first one that has
      none. */
  function AllKeys(cs: seq<Candidate>): (r: Result<seq<(int, PyValue)>>)
    ensures r.Ok? <==> forall i :: 0 <= i < |cs| ==> VersionKey(cs[i]).Ok?
    ensures r.Ok? ==> |r.value| == |cs| && forall i :: 0 <= i < |cs| ==> r.value[i] == VersionKey(cs[i]).value
  {
    if |cs| == 0 then Ok([])
    else
      var k :- VersionKey(cs[0]);
      var rest :- AllKeys(cs[1..]);
      assert forall i :: 1 <= i < |cs| ==> cs[i] == cs[1..][i - 1];
      Ok([k] + rest)
  }

  /** The position a stable ascending sort moves to the front: a smallest
      key, the first of them when several are smallest. */
  function FirstMinimal(keys: seq<(int, PyValue)>): (i: nat)
    requires |keys| > 0
    ensures i < |keys| && MinimalAt(keys, i)
  {
    if |keys| == 1 then
      KeyCmpAntisymmetric(keys[0], keys[0]);
      0
    else
      var k := FirstMinimal(keys[1..]) + 1;
      assert forall j :: 1 <= j < |keys| ==> keys[j] == keys[1..][j - 1];
      if KeyCmp(keys[0], keys[k]) <= 0 then
        assert forall j :: 0 <= j < |keys| ==> KeyCmp(keys[0], keys[j]) <= 0 by {
          forall j | 0 <= j < |keys|
            ensures KeyCmp(keys[0], keys[j]) <= 0
          {
            if j == 0 {
              KeyCmpAntisymmetric(keys[0], keys[0]);
            } else {
              KeyCmpTransitive(keys[0], keys[k], keys[j]);
            }
          }
        }
        0
      else
        KeyCmpAntisymmetric(keys[0], keys[k]);
        k
  }

  /** `keys[i]` is a smallest key, and every key before it is larger. */
  predicate MinimalAt(keys: seq<(int, PyValue)>, i: int)
    requires 0 <= i < |keys|
  {
    && (forall j :: 0 <= j < |keys| ==> KeyCmp(keys[i], keys[j]) <= 0)
    && (forall j :: 0 <= j < i ==> KeyCmp(keys[j], keys[i]) > 0)
  }

  /** The store the tie-break settles on, given the holders in scan order. */
  function Pick(cs: seq<Candidate>): (r: Result<Option<MountPoint>>)
    ensures |cs| == 0 ==> r == Ok(None)
    ensures |cs| == 1 ==> r == Ok(Some(cs[0].mount))
    ensures |cs| >= 2 ==> (r.Ok? <==> AllKeys(cs).Ok?)
    ensures r.Ok? && r.value.Some? ==> exists c :: c in cs && c.mount == r.value.value
    ensures |cs| >= 2 && r.Ok? ==>
              exists i :: 0 <= i < |cs| && r.value == Some(cs[i].mount) && MinimalAt(AllKeys(cs).value, i)
  {
    if |cs| == 0 then Ok(None)
    else if |cs| == 1 then Ok(Some(cs[0].mount))
    else
      var keys :- AllKeys(cs);
      var i := FirstMinimal(keys);
      assert cs[i] in cs;
      Ok(Some(cs[i].mount))
  }

  /** `_mountpointFor(uid)`. */
  function MountpointFor(ds: DataStore, st: Stores, order: seq<MountId>, uid: PyValue): (r: Step<Option<MountPoint>>)
    requires Enumerates(order, ds.mountpoints.Keys)
    ensures uid in ds.cache ==> r == Step(Ok(ds.cache[uid]), ds)
    ensures r.ds == ds.(cache := r.ds.cache)
    ensures r.out.Ok? ==> r.ds.cache == ds.cache[uid := r.out.value]
    ensures r.out.Err? ==> r.ds == ds
    ensures uid !in ds.cache && r.out.Ok? ==>
              (r.out.value.None? <==> forall id :: id in order ==> !Ask(ds, st, ds.mountpoints[id], uid).Found?)
    ensures uid !in ds.cache && r.out.Ok? && r.out.value.Some? ==>
              r.out.value.value in ds.mountpoints.Values && Ask(ds, st, r.out.value.value, uid).Found?
    ensures uid !in ds.cache && (exists i :: 0 <= i < |order| && Ask(ds, st, ds.mountpoints[order[i]], uid).Fails?) ==>
              r == Step(Err(StoreFailure), ds)
    ensures uid !in ds.cache && (forall i :: 0 <= i < |order| ==> !Ask(ds, st, ds.mountpoints[order[i]], uid).Fails?) ==>
              r.out == Pick(Holders(ds, st, InOrder(ds, order), uid))
  {
    if uid in ds.cache then Step(Ok(ds.cache[uid]), ds)
    else
      var mounts := InOrder(ds, order);
      ScanTable(ds, st, order, uid);
      match Scan(ds, st, mounts, uid)
      case Err(e) => Step(Err(e), ds)
      case Ok(cs) =>
        PickFromTable(ds, st, order, uid);
        match Pick(cs)
        case Err(e) => Step(Err(e), ds)
        case Ok(m) => Step(Ok(m), ds.(cache := ds.cache[uid := m]))
  }

  /** Scanning the table in iteration order visits every mounted store,
      and fails iff one of them does. */
  lemma ScanTable(ds: DataStore, st: Stores, order: seq<MountId>, uid: PyValue)
    requires Enumerates(order, ds.mountpoints.Keys)
    ensures var mounts := InOrder(ds, order);
            && (forall id :: id in order ==> ds.mountpoints[id] in mounts)
            && (Scan(ds, st, mounts, uid).Err? <==>
                  exists i :: 0 <= i < |order| && Ask(ds, st, ds.mountpoints[order[i]], uid).Fails?)
  {
    var mounts := InOrder(ds, order);
    forall id | id in order
      ensures ds.mountpoints[id] in mounts
    {
      var i :| 0 <= i < |order| && order[i] == id;
      assert mounts[i] == ds.mountpoints[id];
    }
  }

  /** The tie-break over the table's holders settles on None iff no
      mounted store holds the uid, and otherwise on a mounted holder. */
  lemma PickFromTable(ds: DataStore, st: Stores, order: seq<MountId>, uid: PyValue)
    requires Enumerates(order, ds.mountpoints.Keys)
    ensures var p := Pick(Holders(ds, st, InOrder(ds, order), uid));
            && (p.Ok? ==> (p.value.None? <==> forall id :: id in order ==> !Ask(ds, st, ds.mountpoints[id], uid).Found?))
            && (p.Ok? && p.value.Some? ==> p.value.value in ds.mountpoints.Values && Ask(ds, st, p.value.value, uid).Found?)
  {
    HoldersNonEmpty(ds, st, order, uid);
    HoldersMounted(ds, st, order, uid);
  }

  /** Some mounted store holds the uid iff the table's holders are not
      none. */
  lemma HoldersNonEmpty(ds: DataStore, st: Stores, order: seq<MountId>, uid: PyValue)
    requires Enumerates(order, ds.mountpoints.Keys)
    ensures |Holders(ds, st, InOrder(ds, order), uid)| > 0 <==>
            exists id :: id in order && Ask(ds, st, ds.mountpoints[id], uid).Found?
  {
    var mounts := InOrder(ds, order);
    var hs := Holders(ds, st, mounts, uid);
    if |hs| > 0 {
      var c := hs[0];
      assert c in hs;
      var i :| 0 <= i < |mounts| && mounts[i] == c.mount;
      assert order[i] in order && Ask(ds, st, ds.mountpoints[order[i]], uid).Found?;
    }
    if exists id :: id in order && Ask(ds, st, ds.mountpoints[id], uid).Found? {
      var id :| id in order && Ask(ds, st, ds.mountpoints[id], uid).Found?;
      var i :| 0 <= i < |order| && order[i] == id;
      assert mounts[i] == ds.mountpoints[id];
      assert Candidate(mounts[i], Ask(ds, st, mounts[i], uid).content) in hs;
    }
  }

  /** Every holder of the table is a mounted store. */
  lemma HoldersMounted(ds: DataStore, st: Stores, order: seq<MountId>, uid: PyValue)
    requires Enumerates(order, ds.mountpoints.Keys)
    ensures forall c :: c in Holders(ds, st, InOrder(ds, order), uid) ==>
              c.mount in ds.mountpoints.Values && Ask(ds, st, c.mount, uid).Found?
  {
    var mounts := InOrder(ds, order);
    forall c | c in Holders(ds, st, mounts, uid)
      ensures c.mount in ds.mountpoints.Values && Ask(ds, st, c.mount, uid).Found?
    {
      var i :| 0 <= i < |mounts| && mounts[i] == c.mount;
      assert order[i] in ds.mountpoints;
    }
  }

  /** The scan of two stores that both hold the uid. */
  lemma ScanTwo(ds: DataStore, st: Stores, a: MountPoint, b: MountPoint, ca: ContentView, cb: ContentView, uid: PyValue)
    requires Ask(ds, st, a, uid) == Found(ca) && Ask(ds, st, b, uid) == Found(cb)
    ensures Scan(ds, st, [a, b], uid) == Ok([Candidate(a, ca), Candidate(b, cb)])
  {
    assert [b][1..] == [] && [a, b][1..] == [b];
    assert Scan(ds, st, [], uid) == Ok([]);
    ScanFound(ds, st, [b], uid);
    assert [Candidate(b, cb)] + [] == [Candidate(b, cb)];
    ScanFound(ds, st, [a, b], uid);
    assert [Candidate(a, ca)] + [Candidate(b, cb)] == [Candidate(a, ca), Candidate(b, cb)];
  }

  /** A vid written as the decimal digits of `n` reads back as `n`. */
  lemma VersionKeyDecimal(c: Candidate, n: int)
    requires !c.mount.versions
    requires "vid" in c.content.properties && c.content.properties["vid"] == PyStr(IntToDecimal(n))
    ensures VersionKey(c).Ok? && VersionKey(c).value.0 == n
  {
    IntOfDecimal(n);
  }

  /** Of two holders, the one with the smaller version wins, wherever it
      comes in the scan. */
  lemma PickSmallerVersion(cs: seq<Candidate>)
    requires |cs| == 2 && VersionKey(cs[0]).Ok? && VersionKey(cs[1]).Ok?
    requires VersionKey(cs[0]).value.0 > VersionKey(cs[1]).value.0
    ensures Pick(cs) == Ok(Some(cs[1].mount))
  {
    assert forall i :: 0 <= i < |cs| ==> VersionKey(cs[i]).Ok? by {
      forall i | 0 <= i < |cs|
        ensures VersionKey(cs[i]).Ok?
      {
        assert i == 0 || i == 1;
      }
    }
    var keys := AllKeys(cs).value;
    assert KeyCmp(keys[0], keys[1]) == 1;
    var p := Pick(cs);
    var i :| 0 <= i < |cs| && p.value == Some(cs[i].mount) && MinimalAt(keys, i);
    assert i == 1;
  }

  /** Once a versioning store is among several holders, the sort cannot
      compare its answer, a list, and the lookup raises. */
  lemma ManyAnswerBreaksSort(cs: seq<Candidate>, i: int)
    requires |cs| >= 2 && 0 <= i < |cs| && cs[i].mount.versions
    ensures Pick(cs).Err?
  {
    assert VersionKey(cs[i]).Err?;
  }

  /** Two stores hold the uid, one at version 5 scanned first and one at
      version 3: the resolver settles on the version 3 store, the older
      revision. */
  lemma OlderRevisionWins(ds: DataStore, st: Stores, newer: MountPoint, older: MountPoint,
                          cNew: ContentView, cOld: ContentView, uid: PyValue)
    requires ds.mountpoints == map[newer.id := newer, older.id := older] && newer.id != older.id
    requires !newer.versions && !older.versions
    requires uid !in ds.cache
    requires Ask(ds, st, newer, uid) == Found(cNew) && cNew.properties == map["vid" := PyStr("5")]
    requires Ask(ds, st, older, uid) == Found(cOld) && cOld.properties == map["vid" := PyStr("3")]
    ensures MountpointFor(ds, st, [newer.id, older.id], uid).out == Ok(Some(older))
  {
    var mounts := InOrder(ds, [newer.id, older.id]);
    assert mounts == [newer, older];
    ScanTwo(ds, st, newer, older, cNew, cOld, uid);
    var cs := [Candidate(newer, cNew), Candidate(older, cOld)];
    assert IntToDecimal(5) == "5" && IntToDecimal(3) == "3";
    VersionKeyDecimal(cs[0], 5);
    VersionKeyDecimal(cs[1], 3);
    PickSmallerVersion(cs);
  }

  /** A second lookup of the same uid is answered from the cache and agrees
      with the first. */
  lemma ResolveCaches(ds: DataStore, st: Stores, order: seq<MountId>, uid: PyValue)
    requires Enumerates(order, ds.mountpoints.Keys)
    requires MountpointFor(ds, st, order, uid).out.Ok?
    ensures var r := MountpointFor(ds, st, order, uid);
            MountpointFor(r.ds, st, order, uid) == Step(r.out, r.ds)
  {
  }
}
