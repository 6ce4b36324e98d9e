/** `find` and `get_uniquevaluesfor`: a query is sent to the selected
    stores; results from several stores are merged, sorted by the
    `order_by` names and reported as property dictionaries carrying `uid`
    and `mountpoint`.
 */
module Search {
  import opened Outcomes
  import opened PyStrings
  import opened PyValues
  import opened DataStores
  import opened Mounts
  import opened Resolver
  import opened Sorting
  import opened Merging

  /** `DEFAULT_LIMIT`. */
  const DefaultLimit: int := 65536

  /** The keyword arguments of `find`: the ones `find` itself consumes as
      typed fields, every other keyword in `filters`. */
  datatype FindArgs = FindArgs(
    filters: map<string, PyValue>,
    orderBy: Option<OrderBy>,
    limit: Option<int>,
    offset: Option<PyValue>,
    includeFiles: Option<PyValue>,
    mountpoints: Option<seq<PyValue>>
  )

  /** The positional `query` argument: a dictionary of keywords, or any
      other value. */
  datatype QueryArg = QueryDict(args: FindArgs) | QueryValue(value: PyValue)

  /** The keywords `find` and `_multiway_search` pop before the query goes
      to the stores. */
  const SpecialKeys: set<string> := {"include_files", "order_by", "limit", "offset", "mountpoints"}

  function Override<T>(a: Option<T>, b: Option<T>): (r: Option<T>)
    ensures b.Some? ==> r == b
    ensures b.None? ==> r == a
  {
    if b.Some? then b else a
  }

  /** `kwargs.update(query)` for a dictionary, otherwise
      `kwargs['query'] = query` unless a `query` keyword is present. */
  function Combine(kwargs: FindArgs, query: QueryArg): (r: FindArgs)
    ensures query.QueryDict? ==>
              && r.filters.Keys == kwargs.filters.Keys + query.args.filters.Keys
              && (forall k :: k in query.args.filters ==> r.filters[k] == query.args.filters[k])
              && (forall k :: k in kwargs.filters && k !in query.args.filters ==> r.filters[k] == kwargs.filters[k])
    ensures query.QueryValue? ==>
              r == kwargs.(filters := if "query" in kwargs.filters then kwargs.filters else kwargs.filters["query" := query.value])
    ensures query.QueryDict? && query.args.limit.Some? ==> r.limit == query.args.limit
    ensures query.QueryDict? && query.args.limit.None? ==> r.limit == kwargs.limit
    ensures query.QueryDict? ==>
              && r.orderBy == Override(kwargs.orderBy, query.args.orderBy)
              && r.offset == Override(kwargs.offset, query.args.offset)
              && r.includeFiles == Override(kwargs.includeFiles, query.args.includeFiles)
              && r.mountpoints == Override(kwargs.mountpoints, query.args.mountpoints)
  {
    match query
    case QueryDict(q) =>
      FindArgs(kwargs.filters + q.filters, Override(kwargs.orderBy, q.orderBy), Override(kwargs.limit, q.limit),
               Override(kwargs.offset, q.offset), Override(kwargs.includeFiles, q.includeFiles),
               Override(kwargs.mountpoints, q.mountpoints))
    case QueryValue(v) =>
      if "query" in kwargs.filters then kwargs else kwargs.(filters := kwargs.filters["query" := v])
  }

  /** The stores a query goes to: the listed ids (each passed through
      `str`), or every mounted store in table order. An unmounted id
      raises KeyError. */
  function Targets(ds: DataStore, order: seq<MountId>, mountpoints: Option<seq<PyValue>>, rt: Runtime)
    : (r: Result<seq<MountPoint>>)
    requires Enumerates(order, ds.mountpoints.Keys)
    ensures mountpoints.None? ==> r == Ok(InOrder(ds, order))
    ensures mountpoints.Some? ==>
              && (r.Ok? <==> forall i :: 0 <= i < |mountpoints.value| ==> StrOf(mountpoints.value[i], rt) in ds.mountpoints)
              && (r.Ok? ==> |r.value| == |mountpoints.value|
                            && forall i :: 0 <= i < |r.value| ==> r.value[i] == ds.mountpoints[StrOf(mountpoints.value[i], rt)])
    ensures r.Err? ==> r.error == KeyError
  {
    match mountpoints
    case None =>
      var r := LookupAll(ds.mountpoints, order);
      assert r.Ok?;
      assert r.value == InOrder(ds, order);
      r
    case Some(ms) =>
      var ids := seq(|ms|, i requires 0 <= i < |ms| => StrOf(ms[i], rt));
      assert forall i :: 0 <= i < |ms| ==> ids[i] == StrOf(ms[i], rt);
      LookupAll(ds.mountpoints, ids)
  }

  /** The store at `k` is the first whose `find` raises. */
  predicate FirstFindError(ds: DataStore, st: Stores, targets: seq<MountPoint>, query: map<string, PyValue>,
                           orderBy: OrderBy, limit: int, k: int)
  {
    && 0 <= k < |targets|
    && st.find(ds.log, targets[k].handle, query, orderBy, limit).Err?
    && forall j :: 0 <= j < k ==> st.find(ds.log, targets[j].handle, query, orderBy, limit).Ok?
  }

  /** Sends the query to each store in turn; the first store that raises
      ends the search, and its exception propagates. */
  function FindAll(ds: DataStore, st: Stores, targets: seq<MountPoint>, query: map<string, PyValue>,
                   orderBy: OrderBy, limit: int): (r: Result<seq<seq<ContentView>>>)
    ensures r.Ok? <==> forall i :: 0 <= i < |targets| ==> st.find(ds.log, targets[i].handle, query, orderBy, limit).Ok?
    ensures r.Ok? ==> |r.value| == |targets|
                      && forall i :: 0 <= i < |targets| ==> st.find(ds.log, targets[i].handle, query, orderBy, limit) == Ok(r.value[i])
    ensures r.Err? ==> exists k :: FirstFindError(ds, st, targets, query, orderBy, limit, k)
                                   && r.error == st.find(ds.log, targets[k].handle, query, orderBy, limit).error
  {
    if |targets| == 0 then Ok([])
    else
      match st.find(ds.log, targets[0].handle, query, orderBy, limit)
      case Err(e) =>
        assert FirstFindError(ds, st, targets, query, orderBy, limit, 0);
        Err(e)
      case Ok(first) =>
        var rest := FindAll(ds, st, targets[1..], query, orderBy, limit);
        assert forall i :: 1 <= i < |targets| ==> targets[i] == targets[1..][i - 1];
        match rest
        case Err(e) =>
          var k :| FirstFindError(ds, st, targets[1..], query, orderBy, limit, k)
                   && e == st.find(ds.log, targets[1..][k].handle, query, orderBy, limit).error;
          assert FirstFindError(ds, st, targets, query, orderBy, limit, k + 1);
          Err(e)
        case Ok(more) => Ok([first] + more)
  }

  /** The number of hits in all the lists together. */
  function TotalLength(lists: seq<seq<ContentView>>): nat
  {
    if |lists| == 0 then 0 else |lists[0]| + TotalLength(lists[1..])
  }

  /** Where the hits of store `i` start: after all the hits of the stores
      before it. */
  function Offset(lists: seq<seq<ContentView>>, i: int): nat
    requires 0 <= i <= |lists|
  {
    TotalLength(lists[..i])
  }

  /** `r` holds the lists one after another: exactly as many hits, and
      hit `j` of list `i` at `Offset(lists, i) + j`. */
  predicate LaidOut(r: seq<ContentView>, lists: seq<seq<ContentView>>)
  {
    && |r| == TotalLength(lists)
    && forall i, j :: 0 <= i < |lists| && 0 <= j < |lists[i]| ==> HitAt(r, lists, i, j)
  }

  /** Hit `j` of list `i` sits at `Offset(lists, i) + j` in `r`. */
  predicate HitAt(r: seq<ContentView>, lists: seq<seq<ContentView>>, i: int, j: int)
    requires 0 <= i < |lists| && 0 <= j < |lists[i]|
  {
    Offset(lists, i) + j < |r| && r[Offset(lists, i) + j] == lists[i][j]
  }

  /** The hits of every store, one store after another: the `results`
      lists in the order the merge loop visits them. */
  function Flatten(lists: seq<seq<ContentView>>): (r: seq<ContentView>)
    ensures forall i, x :: 0 <= i < |lists| && x in lists[i] ==> x in r
    ensures forall x :: x in r ==> exists i :: 0 <= i < |lists| && x in lists[i]
    ensures LaidOut(r, lists)
  {
    if |lists| == 0 then []
    else
      var rest := Flatten(lists[1..]);
      FlattenOffsets(lists, rest);
      assert forall i :: 1 <= i < |lists| ==> lists[i] == lists[1..][i - 1];
      assert forall x :: x in rest ==> exists i :: 0 <= i < |lists| && x in lists[i] by {
        forall x | x in rest
          ensures exists i :: 0 <= i < |lists| && x in lists[i]
        {
          var i :| 0 <= i < |lists[1..]| && x in lists[1..][i];
          assert x in lists[i + 1];
        }
      }
      lists[0] + rest
  }

  /** Past the first list, offsets move along by its length. */
  lemma OffsetStep(lists: seq<seq<ContentView>>, i: int)
    requires 0 < i <= |lists|
    ensures Offset(lists, i) == |lists[0]| + Offset(lists[1..], i - 1)
  {
    assert lists[..i][1..] == lists[1..][..i - 1];
  }

  /** One hit of a laid-out list. */
  lemma LaidAt(r: seq<ContentView>, lists: seq<seq<ContentView>>, i: int, j: int)
    requires LaidOut(r, lists) && 0 <= i < |lists| && 0 <= j < |lists[i]|
    ensures Offset(lists, i) + j < |r| && r[Offset(lists, i) + j] == lists[i][j]
  {
    assert HitAt(r, lists, i, j);
  }

  /** The hits of the first store come first, and every other store's
      hits move along by that many places. */
  lemma FlattenOffsets(lists: seq<seq<ContentView>>, rest: seq<ContentView>)
    requires |lists| > 0 && LaidOut(rest, lists[1..])
    ensures LaidOut(lists[0] + rest, lists)
  {
    var r := lists[0] + rest;
    assert |r| == TotalLength(lists);
    forall i, j | 0 <= i < |lists| && 0 <= j < |lists[i]|
      ensures HitAt(r, lists, i, j)
    {
      if i == 0 {
        assert lists[..0] == [];
        assert Offset(lists, 0) == 0;
        assert r[j] == lists[0][j];
      } else {
        OffsetStep(lists, i);
        var tail := lists[1..];
        var k := Offset(tail, i - 1) + j;
        assert lists[i] == tail[i - 1];
        LaidAt(rest, tail, i - 1, j);
        assert Offset(lists, i) + j == |lists[0]| + k;
        assert r[|lists[0]| + k] == rest[k];
      }
    }
    assert LaidOut(r, lists);
  }

  // ---- ordering ----

  /** Python truth of the `order_by` argument. */
  predicate OrderGiven(o: OrderBy)
  {
    match o
    case OrderList(keys) => |keys| > 0
    case OrderString(text) => |text| > 0
    case OrderOther(truthy) => truthy
  }

  /** `[o.strip() for o in order_by.split(',')]`. */
  function SplitNames(text: string): (names: seq<string>)
    ensures |names| == |Split(text, ',')|
    ensures forall i :: 0 <= i < |names| ==> names[i] == Strip(Split(text, ',')[i])
  {
    var parts := Split(text, ',');
    seq(|parts|, i requires 0 <= i < |parts| => Strip(parts[i]))
  }

  /** The sort of results merged from several stores. With no ordering the
      merged order stays. An `order_by` that is neither a string nor a list
      is replaced by None, and the comparator then fails with TypeError on
      its first call, which only a sort of two or more results makes. */
  function SortResults(merged: seq<ContentView>, orderBy: OrderBy): (r: Result<seq<ContentView>>)
    ensures !OrderGiven(orderBy) ==> r == Ok(merged)
    ensures r.Err? <==> OrderGiven(orderBy) && orderBy.OrderOther? && |merged| >= 2
    ensures r.Err? ==> r.error == TypeError
    ensures r.Ok? ==> multiset(r.value) == multiset(merged)
    ensures r.Ok? && OrderGiven(orderBy) && orderBy.OrderList? ==>
              r.value == SortBy(ParseCriteria(orderBy.keys), merged) && SortedBy(ParseCriteria(orderBy.keys), r.value)
    ensures r.Ok? && OrderGiven(orderBy) && orderBy.OrderString? ==>
              r.value == SortBy(ParseCriteria(SplitNames(orderBy.text)), merged)
              && SortedBy(ParseCriteria(SplitNames(orderBy.text)), r.value)
  {
    if !OrderGiven(orderBy) then Ok(merged)
    else match orderBy
      case OrderList(keys) =>
        SortByCorrect(ParseCriteria(keys), merged);
        Ok(SortBy(ParseCriteria(keys), merged))
      case OrderString(text) =>
        SortByCorrect(ParseCriteria(SplitNames(text)), merged);
        Ok(SortBy(ParseCriteria(SplitNames(text)), merged))
      case OrderOther(_) =>
        if |merged| >= 2 then Err(TypeError) else Ok(merged)
  }

  // ---- reporting ----

  /** The dictionary a result is reported as: its properties with `uid`
      set to its id and `mountpoint` set to the one store searched, or,
      when several were (or the id is empty), to the store holding it. */
  function Report(c: ContentView, mp: Option<string>): (p: map<string, PyValue>)
    ensures p.Keys == c.properties.Keys + {"uid", "mountpoint"}
    ensures p["uid"] == PyStr(c.id)
    ensures p["mountpoint"] == PyStr(if mp.Some? && mp.value != "" then mp.value else c.backingstore)
    ensures forall k :: k in c.properties && k != "uid" && k != "mountpoint" ==> p[k] == c.properties[k]
  {
    c.properties["uid" := PyStr(c.id)]["mountpoint" := PyStr(if mp.Some? && mp.value != "" then mp.value else c.backingstore)]
  }

  /** The reporting loop from its `c`-th turn on: report the result, count
      it, and stop once the count exceeds a non-zero limit. */
  function EmitFrom(results: seq<ContentView>, mp: Option<string>, limit: int, c: nat): seq<map<string, PyValue>>
    decreases |results|
  {
    if |results| == 0 then []
    else [Report(results[0], mp)] + (if limit != 0 && c + 1 > limit then [] else EmitFrom(results[1..], mp, limit, c + 1))
  }

  function Emit(results: seq<ContentView>, mp: Option<string>, limit: int): seq<map<string, PyValue>>
  {
    EmitFrom(results, mp, limit, 0)
  }

  function Min(a: int, b: int): int { if a < b then a else b }

  /** How many results the loop reports, in closed form: all of them for
      limit 0, and otherwise one more than the limit, though at least one. */
  function EmitCount(n: nat, limit: int): nat
  {
    if limit == 0 then n else if limit > 0 then Min(n, limit + 1) else Min(n, 1)
  }

  lemma {:induction false} EmitFromLength(results: seq<ContentView>, mp: Option<string>, limit: int, c: nat)
    requires limit > 0 ==> c <= limit
    ensures |EmitFrom(results, mp, limit, c)|
            == (if limit == 0 then |results| else if limit > 0 then Min(|results|, limit - c + 1) else Min(|results|, 1))
    decreases |results|
  {
    if |results| > 0 && !(limit != 0 && c + 1 > limit) {
      EmitFromLength(results[1..], mp, limit, c + 1);
    }
  }

  lemma {:induction false} EmitFromElements(results: seq<ContentView>, mp: Option<string>, limit: int, c: nat)
    ensures var r := EmitFrom(results, mp, limit, c);
            |r| <= |results| && forall i :: 0 <= i < |r| ==> r[i] == Report(results[i], mp)
    decreases |results|
  {
    if |results| > 0 && !(limit != 0 && c + 1 > limit) {
      EmitFromElements(results[1..], mp, limit, c + 1);
      PrependReport(results, mp, EmitFrom(results[1..], mp, limit, c + 1));
    }
  }

  lemma PrependReport(results: seq<ContentView>, mp: Option<string>, rest: seq<map<string, PyValue>>)
    requires |results| > 0 && |rest| <= |results| - 1
    requires forall i :: 0 <= i < |rest| ==> rest[i] == Report(results[1..][i], mp)
    ensures var r := [Report(results[0], mp)] + rest;
            |r| <= |results| && forall i :: 0 <= i < |r| ==> r[i] == Report(results[i], mp)
  {
    var r := [Report(results[0], mp)] + rest;
    forall i | 0 <= i < |r|
      ensures r[i] == Report(results[i], mp)
    {
      if i > 0 {
        assert r[i] == rest[i - 1];
      }
    }
  }

  /** The loop from its `c`-th turn reports the next results in order, as
      many as the count allows. */
  lemma EmitFromSpec(results: seq<ContentView>, mp: Option<string>, limit: int, c: nat)
    requires limit > 0 ==> c <= limit
    ensures var r := EmitFrom(results, mp, limit, c);
            && |r| == (if limit == 0 then |results| else if limit > 0 then Min(|results|, limit - c + 1) else Min(|results|, 1))
            && forall i :: 0 <= i < |r| ==> r[i] == Report(results[i], mp)
  {
    EmitFromLength(results, mp, limit, c);
    EmitFromElements(results, mp, limit, c);
  }

  /** The reported list is the first `EmitCount` results, each as its
      report: for a limit of `n` > 0, `n + 1` results when there are that
      many. */
  lemma EmitSpec(results: seq<ContentView>, mp: Option<string>, limit: int)
    ensures |Emit(results, mp, limit)| == EmitCount(|results|, limit)
    ensures forall i :: 0 <= i < |Emit(results, mp, limit)| ==> Emit(results, mp, limit)[i] == Report(results[i], mp)
  {
    EmitFromSpec(results, mp, limit, 0);
  }

  // ---- find ----

  /** Distinct ids survive the sort. */
  lemma {:induction false} InsertUnique(cs: seq<Criterion>, x: ContentView, s: seq<ContentView>)
    requires UniqueIds(s) && forall y :: y in s ==> y.id != x.id
    ensures UniqueIds(Insert(cs, x, s))
  {
    if |s| == 0 {
    } else if CompareBy(cs, s[|s| - 1], x) <= 0 {
      var r := s + [x];
      forall i, j | 0 <= i < j < |r|
        ensures r[i].id != r[j].id
      {
        if j == |s| {
          assert r[i] in s;
        }
      }
    } else {
      var init, last := s[..|s| - 1], s[|s| - 1];
      InsertUnique(cs, x, init);
      InsertMultiset(cs, x, init);
      var t := Insert(cs, x, init);
      forall y | y in t
        ensures y.id != last.id
      {
        assert y in multiset(t);
        if y != x {
          assert y in multiset(init);
          var k :| 0 <= k < |init| && init[k] == y;
          assert s[k] == y;
        }
      }
      var r := t + [last];
      assert Insert(cs, x, s) == r;
      forall i, j | 0 <= i < j < |r|
        ensures r[i].id != r[j].id
      {
        if j == |t| {
          assert r[i] in t;
        } else {
          assert r[i] == t[i] && r[j] == t[j];
        }
      }
    }
  }

  lemma {:induction false} SortUnique(cs: seq<Criterion>, s: seq<ContentView>)
    requires UniqueIds(s)
    ensures UniqueIds(SortBy(cs, s))
  {
    if |s| > 0 {
      var init, last := s[..|s| - 1], s[|s| - 1];
      SortUnique(cs, init);
      SortByCorrect(cs, init);
      var t := SortBy(cs, init);
      forall y | y in t
        ensures y.id != last.id
      {
        assert y in multiset(t);
        assert y in multiset(init);
        var k :| 0 <= k < |init| && init[k] == y;
        assert s[k] == y;
      }
      InsertUnique(cs, last, t);
    }
  }

  lemma SortResultsUnique(merged: seq<ContentView>, orderBy: OrderBy)
    requires UniqueIds(merged)
    ensures SortResults(merged, orderBy).Ok? ==> UniqueIds(SortResults(merged, orderBy).value)
  {
    if OrderGiven(orderBy) {
      match orderBy
      case OrderList(keys) => SortUnique(ParseCriteria(keys), merged);
      case OrderString(text) => SortUnique(ParseCriteria(SplitNames(text)), merged);
      case OrderOther(_) =>
    }
  }

  /** Reported dictionaries whose `uid` entries are pairwise distinct. */
  predicate UniqueUids(d: seq<map<string, PyValue>>)
  {
    forall i, j :: 0 <= i < j < |d| && "uid" in d[i] && "uid" in d[j] ==> d[i]["uid"] != d[j]["uid"]
  }

  /** `_single_search` and the reporting of its results: the store's own
      order is kept, every entry names the store of the first result (when
      its id is non-empty), and an empty answer raises IndexError at
      `results[0]`. */
  function SingleFind(ds: DataStore, st: Stores, m: MountPoint, filters: map<string, PyValue>,
                      orderBy: OrderBy, limit: int): (r: Result<seq<map<string, PyValue>>>)
    ensures st.find(ds.log, m.handle, filters, orderBy, limit).Err? ==>
              r == Err(st.find(ds.log, m.handle, filters, orderBy, limit).error)
    ensures st.find(ds.log, m.handle, filters, orderBy, limit) == Ok([]) ==> r == Err(IndexError)
    ensures st.find(ds.log, m.handle, filters, orderBy, limit).Ok? && |st.find(ds.log, m.handle, filters, orderBy, limit).value| > 0 ==>
              r.Ok?
    ensures r.Ok? ==> var res := st.find(ds.log, m.handle, filters, orderBy, limit).value;
              && |res| > 0
              && |r.value| == EmitCount(|res|, limit)
              && forall i :: 0 <= i < |r.value| ==> r.value[i] == Report(res[i], Some(res[0].backingstore))
  {
    var results :- st.find(ds.log, m.handle, filters, orderBy, limit);
    if |results| == 0 then Err(IndexError)
    else
      EmitSpec(results, Some(results[0].backingstore), limit);
      Ok(Emit(results, Some(results[0].backingstore), limit))
  }

  /** The merge, sort and report of the hits of several stores: hits
      sharing an id collapse to the first one with the greatest vid
      (AttributeError when a vid is missing); when `sort` holds the
      winners are sorted by `order_by`; every entry names the store
      holding it. */
  function MergeReport(hits: seq<ContentView>, orderBy: OrderBy, sort: bool, limit: int)
    : (r: Result<seq<map<string, PyValue>>>)
    ensures MissingVid(hits) ==> r == Err(AttributeError)
    ensures r.Ok? ==> UniqueUids(r.value)
    ensures r.Ok? ==> forall i :: 0 <= i < |r.value| ==>
              exists c :: c in hits && FirstMax(hits, c) && AtLeast(hits, c) && r.value[i] == Report(c, None)
    ensures r.Ok? ==> forall i :: 0 <= i < |r.value| ==> "uid" in r.value[i] && "mountpoint" in r.value[i]
    ensures r.Ok? && limit > 0 ==> |r.value| <= limit + 1
    ensures r.Ok? && limit < 0 ==> |r.value| <= 1
    ensures !MissingVid(hits) && !(sort && OrderGiven(orderBy) && orderBy.OrderOther?) ==> r.Ok?
    ensures r.Ok? ==> exists s :: Merged(s, hits) && Arrange(s, orderBy, sort).Ok?
                                  && r.value == Emit(Arrange(s, orderBy, sort).value, None, limit)
    ensures r.Ok? && (limit == 0 || limit >= |hits|) ==> ReportsEveryId(r.value, hits)
  {
    MergeSpec(hits);
    match Merge(hits)
    case Err(e) => Err(e)
    case Ok(merged) =>
      match Arrange(merged, orderBy, sort)
      case Err(e) => Err(e)
      case Ok(sorted) =>
        ReportOfMerge(hits, merged, sorted, orderBy, sort, limit);
        Ok(Emit(sorted, None, limit))
  }

  /** What the report of a successful merge and sort holds. */
  lemma ReportOfMerge(hits: seq<ContentView>, merged: seq<ContentView>, sorted: seq<ContentView>,
                      orderBy: OrderBy, sort: bool, limit: int)
    requires Merge(hits) == Ok(merged) && Merged(merged, hits) && Arrange(merged, orderBy, sort) == Ok(sorted)
    ensures var d := Emit(sorted, None, limit);
            && UniqueUids(d)
            && (forall i :: 0 <= i < |d| ==>
                  exists c :: c in hits && FirstMax(hits, c) && AtLeast(hits, c) && d[i] == Report(c, None))
            && (forall i :: 0 <= i < |d| ==> "uid" in d[i] && "mountpoint" in d[i])
            && (limit > 0 ==> |d| <= limit + 1)
            && (limit < 0 ==> |d| <= 1)
            && (exists s :: Merged(s, hits) && Arrange(s, orderBy, sort).Ok? && d == Emit(Arrange(s, orderBy, sort).value, None, limit))
            && ((limit == 0 || limit >= |hits|) ==> ReportsEveryId(d, hits))
  {
    var d := Emit(sorted, None, limit);
    assert multiset(sorted) == multiset(merged) && UniqueIds(sorted);
    ReportWinners(hits, merged, sorted, limit);
    MergeLength(hits);
    assert |merged| <= |hits|;
    ReportsCover(hits, merged, sorted, limit);
    assert Arrange(merged, orderBy, sort).value == sorted;
    assert Merged(merged, hits) && Arrange(merged, orderBy, sort).Ok?
           && d == Emit(Arrange(merged, orderBy, sort).value, None, limit);
  }

  /** Every hit's id is the `uid` of some reported entry. */
  predicate ReportsEveryId(d: seq<map<string, PyValue>>, hits: seq<ContentView>)
  {
    forall j :: 0 <= j < |hits| ==> exists i :: 0 <= i < |d| && "uid" in d[i] && d[i]["uid"] == PyStr(hits[j].id)
  }

  /** With no more ids than the limit allows, every hit's id is reported. */
  lemma ReportsCover(hits: seq<ContentView>, merged: seq<ContentView>, sorted: seq<ContentView>, limit: int)
    requires Merged(merged, hits) && multiset(sorted) == multiset(merged)
    requires |merged| <= |hits|
    ensures (limit == 0 || limit >= |hits|) ==> ReportsEveryId(Emit(sorted, None, limit), hits)
  {
    var d := Emit(sorted, None, limit);
    EmitSpec(sorted, None, limit);
    if limit == 0 || limit >= |hits| {
      assert |sorted| == |merged| by {
        assert |multiset(sorted)| == |multiset(merged)|;
      }
      forall j | 0 <= j < |hits|
        ensures exists i :: 0 <= i < |d| && "uid" in d[i] && d[i]["uid"] == PyStr(hits[j].id)
      {
        var k := IndexOf(merged, hits[j].id).value;
        assert merged[k] in multiset(sorted);
        var i :| 0 <= i < |sorted| && sorted[i] == merged[k];
        assert d[i] == Report(sorted[i], None);
      }
    }
  }

  /** The merged results, sorted by `order_by` when `sort` holds. */
  function Arrange(merged: seq<ContentView>, orderBy: OrderBy, sort: bool): (r: Result<seq<ContentView>>)
    requires UniqueIds(merged)
    ensures !sort ==> r == Ok(merged)
    ensures sort ==> r == SortResults(merged, orderBy)
    ensures r.Err? ==> sort && OrderGiven(orderBy) && orderBy.OrderOther?
    ensures r.Ok? ==> multiset(r.value) == multiset(merged) && UniqueIds(r.value)
  {
    if sort then
      SortResultsUnique(merged, orderBy);
      SortResults(merged, orderBy)
    else Ok(merged)
  }

  /** `_multiway_search` and the reporting of its results: the query goes
      to every store, any store that raises ends the search, and the hits
      of all stores are merged, sorted when two or more stores were
      searched, and reported. */
  function MultiFind(ds: DataStore, st: Stores, targets: seq<MountPoint>, filters: map<string, PyValue>,
                     orderBy: OrderBy, limit: int): (r: Result<seq<map<string, PyValue>>>)
    ensures (exists i :: 0 <= i < |targets| && st.find(ds.log, targets[i].handle, filters, orderBy, limit).Err?) ==> r.Err?
    ensures FindAll(ds, st, targets, filters, orderBy, limit).Err? ==>
              r == Err(FindAll(ds, st, targets, filters, orderBy, limit).error)
    ensures FindAll(ds, st, targets, filters, orderBy, limit).Ok? ==>
              r == MergeReport(Flatten(FindAll(ds, st, targets, filters, orderBy, limit).value), orderBy, |targets| > 1, limit)
  {
    var lists :- FindAll(ds, st, targets, filters, orderBy, limit);
    MergeReport(Flatten(lists), orderBy, |targets| > 1, limit)
  }

  /** A result of the merge is a winning hit. */
  lemma WinnerFromMerge(hits: seq<ContentView>, merged: seq<ContentView>, c: ContentView)
    requires Merged(merged, hits) && c in multiset(merged)
    ensures c in hits && FirstMax(hits, c) && AtLeast(hits, c)
  {
    var k :| 0 <= k < |merged| && merged[k] == c;
    assert FirstMax(hits, merged[k]);
  }

  /** The report of a sorted merge: one entry per id, each the winning hit. */
  lemma ReportWinners(hits: seq<ContentView>, merged: seq<ContentView>, sorted: seq<ContentView>, limit: int)
    requires Merged(merged, hits) && multiset(sorted) == multiset(merged) && UniqueIds(sorted)
    ensures var d := Emit(sorted, None, limit);
            && UniqueUids(d)
            && (forall i :: 0 <= i < |d| ==>
                  exists c :: c in hits && FirstMax(hits, c) && AtLeast(hits, c) && d[i] == Report(c, None))
            && (forall i :: 0 <= i < |d| ==> "uid" in d[i] && "mountpoint" in d[i])
            && (limit > 0 ==> |d| <= limit + 1)
            && (limit < 0 ==> |d| <= 1)
  {
    EmitSpec(sorted, None, limit);
    ReportsKeyed(sorted, limit);
    WinnersReported(hits, merged, sorted, Emit(sorted, None, limit));
  }

  /** Reports of the merged results, in any order, are reports of winners. */
  lemma WinnersReported(hits: seq<ContentView>, merged: seq<ContentView>, sorted: seq<ContentView>,
                        d: seq<map<string, PyValue>>)
    requires Merged(merged, hits) && multiset(sorted) == multiset(merged)
    requires |d| <= |sorted| && forall i :: 0 <= i < |d| ==> d[i] == Report(sorted[i], None)
    ensures forall i :: 0 <= i < |d| ==>
              exists c :: c in hits && FirstMax(hits, c) && AtLeast(hits, c) && d[i] == Report(c, None)
  {
    forall i | 0 <= i < |d|
      ensures exists c :: c in hits && FirstMax(hits, c) && AtLeast(hits, c) && d[i] == Report(c, None)
    {
      var c := sorted[i];
      assert c in multiset(sorted);
      WinnerFromMerge(hits, merged, c);
      assert c in hits && FirstMax(hits, c) && AtLeast(hits, c) && d[i] == Report(c, None);
    }
  }

  /** Reports of results with distinct ids carry distinct uids, and every
      report carries `uid` and `mountpoint`. */
  lemma ReportsKeyed(sorted: seq<ContentView>, limit: int)
    requires UniqueIds(sorted)
    ensures var d := Emit(sorted, None, limit);
            UniqueUids(d) && forall i :: 0 <= i < |d| ==> "uid" in d[i] && "mountpoint" in d[i]
  {
    EmitSpec(sorted, None, limit);
    var d := Emit(sorted, None, limit);
    forall i | 0 <= i < |d|
      ensures "uid" in d[i] && "mountpoint" in d[i]
    {
      assert d[i] == Report(sorted[i], None);
    }
    forall i, j | 0 <= i < j < |d|
      ensures d[i]["uid"] != d[j]["uid"]
    {
      assert d[i] == Report(sorted[i], None) && d[j] == Report(sorted[j], None);
    }
  }

  /** The reported dictionaries paired with their number, or the error. */
  function Counted(d: Result<seq<map<string, PyValue>>>): (r: Result<(seq<map<string, PyValue>>, int)>)
    ensures d.Err? ==> r == Err(d.error)
    ensures d.Ok? ==> r.Ok? && r.value.0 == d.value && r.value.1 == |d.value|
  {
    match d
    case Ok(v) => Ok((v, |v|))
    case Err(e) => Err(e)
  }

  /** `find(query, **kwargs)`: returns the reported dictionaries and their
      number. `offset` and `include_files` are read and ignored; `limit`
      (65536 by default) goes to each store and caps the report at one
      more than itself. With exactly one store selected its results are
      reported as it gives them; otherwise the answers are merged by id and,
      with two or more stores, sorted by `order_by`. */
  function Find(ds: DataStore, st: Stores, order: seq<MountId>, rt: Runtime, kwargs: FindArgs, query: QueryArg)
    : (r: Result<(seq<map<string, PyValue>>, int)>)
    requires Enumerates(order, ds.mountpoints.Keys)
    ensures Targets(ds, order, Combine(kwargs, query).mountpoints, rt).Err? ==> r == Err(KeyError)
    ensures r.Ok? ==> r.value.1 == |r.value.0|
    ensures r.Ok? ==> forall i :: 0 <= i < |r.value.0| ==> "uid" in r.value.0[i] && "mountpoint" in r.value.0[i]
    ensures r.Ok? && Combine(kwargs, query).limit.GetOr(DefaultLimit) > 0 ==>
              |r.value.0| <= Combine(kwargs, query).limit.GetOr(DefaultLimit) + 1
    ensures var args := Combine(kwargs, query);
            var t := Targets(ds, order, args.mountpoints, rt);
            t.Ok? && |t.value| == 1 ==>
              r == Counted(SingleFind(ds, st, t.value[0], args.filters - SpecialKeys,
                                      args.orderBy.GetOr(OrderList([])), args.limit.GetOr(DefaultLimit)))
    ensures var args := Combine(kwargs, query);
            var t := Targets(ds, order, args.mountpoints, rt);
            t.Ok? && |t.value| != 1 ==>
              r == Counted(MultiFind(ds, st, t.value, args.filters - SpecialKeys,
                                     args.orderBy.GetOr(OrderList([])), args.limit.GetOr(DefaultLimit)))
  {
    var args := Combine(kwargs, query);
    var orderBy := args.orderBy.GetOr(OrderList([]));
    var limit := args.limit.GetOr(DefaultLimit);
    var filters := args.filters - SpecialKeys;
    var targets :- Targets(ds, order, args.mountpoints, rt);
    var d :- if |targets| == 1 then SingleFind(ds, st, targets[0], filters, orderBy, limit)
             else MultiFind(ds, st, targets, filters, orderBy, limit);
    Ok((d, |d|))
  }

  /** Neither `offset` nor `include_files` changes the answer. */
  lemma FindIgnoresOffset(ds: DataStore, st: Stores, order: seq<MountId>, rt: Runtime, kwargs: FindArgs,
                          query: QueryArg, offset: Option<PyValue>, includeFiles: Option<PyValue>)
    requires Enumerates(order, ds.mountpoints.Keys)
    ensures Find(ds, st, order, rt, kwargs.(offset := offset, includeFiles := includeFiles), query)
            == Find(ds, st, order, rt, kwargs, query)
  {
    var a1, a2 := Combine(kwargs.(offset := offset, includeFiles := includeFiles), query), Combine(kwargs, query);
    assert a1 == a2.(offset := a1.offset, includeFiles := a1.includeFiles);
  }

  /** A limit of 1 over three results from one store reports two. */
  lemma LimitOneReportsTwo(results: seq<ContentView>, mp: Option<string>)
    requires |results| == 3
    ensures |Emit(results, mp, 1)| == 2
  {
    EmitSpec(results, mp, 1);
  }

  // ---- get_uniquevaluesfor ----

  /** The store at `k` is the first whose `get_uniquevaluesfor` raises. */
  predicate FirstUniqueError(ds: DataStore, st: Stores, targets: seq<MountPoint>, name: string, k: int)
  {
    && 0 <= k < |targets|
    && st.uniqueValues(ds.log, targets[k].handle, name).Err?
    && forall j :: 0 <= j < k ==> st.uniqueValues(ds.log, targets[j].handle, name).Ok?
  }

  /** The union of the stores' answers; the first store that raises ends
      the loop, and its exception propagates. */
  function UnionAll(ds: DataStore, st: Stores, targets: seq<MountPoint>, name: string): (r: Result<set<PyValue>>)
    ensures r.Ok? <==> forall i :: 0 <= i < |targets| ==> st.uniqueValues(ds.log, targets[i].handle, name).Ok?
    ensures r.Ok? ==> forall v :: v in r.value <==>
              exists i :: 0 <= i < |targets| && v in st.uniqueValues(ds.log, targets[i].handle, name).value
    ensures r.Err? ==> exists k :: FirstUniqueError(ds, st, targets, name, k)
                                   && r.error == st.uniqueValues(ds.log, targets[k].handle, name).error
  {
    if |targets| == 0 then Ok({})
    else
      match st.uniqueValues(ds.log, targets[0].handle, name)
      case Err(e) =>
        assert FirstUniqueError(ds, st, targets, name, 0);
        Err(e)
      case Ok(first) =>
        var rest := UnionAll(ds, st, targets[1..], name);
        assert forall i :: 1 <= i < |targets| ==> targets[i] == targets[1..][i - 1];
        match rest
        case Err(e) =>
          var k :| FirstUniqueError(ds, st, targets[1..], name, k)
                   && e == st.uniqueValues(ds.log, targets[1..][k].handle, name).error;
          FirstUniqueErrorShift(ds, st, targets, name, k);
          Err(e)
        case Ok(more) =>
          UnionStep(ds, st, targets, name, first, more);
          Ok(first + more)
  }

  /** A first failure among the later stores, after a first store that
      answered, is the first failure of them all. */
  lemma FirstUniqueErrorShift(ds: DataStore, st: Stores, targets: seq<MountPoint>, name: string, k: int)
    requires |targets| > 0 && st.uniqueValues(ds.log, targets[0].handle, name).Ok?
    requires FirstUniqueError(ds, st, targets[1..], name, k)
    ensures FirstUniqueError(ds, st, targets, name, k + 1) && targets[k + 1] == targets[1..][k]
  {
    forall j | 0 <= j < k + 1
      ensures st.uniqueValues(ds.log, targets[j].handle, name).Ok?
    {
      if j > 0 {
        assert targets[j] == targets[1..][j - 1];
      }
    }
  }

  /** The first store's values joined to the union of the others are the
      union of all of them. */
  lemma UnionStep(ds: DataStore, st: Stores, targets: seq<MountPoint>, name: string, first: set<PyValue>, more: set<PyValue>)
    requires |targets| > 0 && forall i :: 0 <= i < |targets| ==> st.uniqueValues(ds.log, targets[i].handle, name).Ok?
    requires st.uniqueValues(ds.log, targets[0].handle, name) == Ok(first)
    requires forall v :: v in more <==>
               exists i :: 1 <= i < |targets| && v in st.uniqueValues(ds.log, targets[i].handle, name).value
    ensures forall v :: v in first + more <==>
              exists i :: 0 <= i < |targets| && v in st.uniqueValues(ds.log, targets[i].handle, name).value
  {
    forall v | v in first + more
      ensures exists i :: 0 <= i < |targets| && v in st.uniqueValues(ds.log, targets[i].handle, name).value
    {
      if v in first {
        assert v in st.uniqueValues(ds.log, targets[0].handle, name).value;
      }
    }
  }

  /** `get_uniquevaluesfor(propertyname, query)`: the values any selected
      store reports for the property. Only the `mountpoints` entry of the
      query is read. */
  function UniqueValuesFor(ds: DataStore, st: Stores, order: seq<MountId>, rt: Runtime, name: string,
                           mountpoints: Option<seq<PyValue>>): (r: Result<set<PyValue>>)
    requires Enumerates(order, ds.mountpoints.Keys)
    ensures Targets(ds, order, mountpoints, rt).Err? ==> r == Err(KeyError)
    ensures r.Ok? ==> var ts := Targets(ds, order, mountpoints, rt).value;
              forall v :: v in r.value <==> exists i :: 0 <= i < |ts| && st.uniqueValues(ds.log, ts[i].handle, name).Ok? && v in st.uniqueValues(ds.log, ts[i].handle, name).value
    ensures mountpoints == Some([]) ==> r == Ok({})
    ensures Targets(ds, order, mountpoints, rt).Ok? ==> r == UnionAll(ds, st, Targets(ds, order, mountpoints, rt).value, name)
  {
    var targets :- Targets(ds, order, mountpoints, rt);
    assert mountpoints == Some([]) ==> targets == [];
    UnionAll(ds, st, targets, name)
  }

  /** With no `mountpoints` entry, `get_uniquevaluesfor` asks every mounted
      store: it fails iff one of them raises, and otherwise holds exactly
      the values some mounted store reports. */
  lemma {:induction false} UniqueValuesOfTable(ds: DataStore, st: Stores, order: seq<MountId>, rt: Runtime, name: string)
    requires Enumerates(order, ds.mountpoints.Keys)
    ensures var r := UniqueValuesFor(ds, st, order, rt, name, None);
            && (r.Ok? <==> forall id :: id in ds.mountpoints ==> st.uniqueValues(ds.log, ds.mountpoints[id].handle, name).Ok?)
            && (r.Ok? ==> forall v :: v in r.value <==>
                  exists id :: id in ds.mountpoints && v in st.uniqueValues(ds.log, ds.mountpoints[id].handle, name).value)
  {
    var ts := InOrder(ds, order);
    assert Targets(ds, order, None, rt) == Ok(ts);
    UnionCoversTable(ds, st, order, ts, name);
  }

  /** The stores of a table in the order `order` lists them answer as the
      table's stores do. */
  lemma UnionCoversTable(ds: DataStore, st: Stores, order: seq<MountId>, ts: seq<MountPoint>, name: string)
    requires Enumerates(order, ds.mountpoints.Keys) && ts == InOrder(ds, order)
    ensures UnionAll(ds, st, ts, name).Ok? <==>
              forall id :: id in ds.mountpoints ==> st.uniqueValues(ds.log, ds.mountpoints[id].handle, name).Ok?
    ensures UnionAll(ds, st, ts, name).Ok? ==> forall v :: v in UnionAll(ds, st, ts, name).value <==>
              exists id :: id in ds.mountpoints && v in st.uniqueValues(ds.log, ds.mountpoints[id].handle, name).value
  {
    InOrderStores(ds, order);
    UnionByMember(ds, st, ts, name);
    var r := UnionAll(ds, st, ts, name);
    if r.Ok? {
      forall v | v in r.value
        ensures exists id :: id in ds.mountpoints && v in st.uniqueValues(ds.log, ds.mountpoints[id].handle, name).value
      {
        var m :| m in ts && v in st.uniqueValues(ds.log, m.handle, name).value;
        var id :| id in ds.mountpoints && ds.mountpoints[id] == m;
      }
    }
  }

  /** The stores `InOrder` lists are exactly the table's. */
  lemma InOrderStores(ds: DataStore, order: seq<MountId>)
    requires Enumerates(order, ds.mountpoints.Keys)
    ensures forall id :: id in ds.mountpoints ==> ds.mountpoints[id] in InOrder(ds, order)
    ensures forall m :: m in InOrder(ds, order) ==> exists id :: id in ds.mountpoints && ds.mountpoints[id] == m
  {
    var ts := InOrder(ds, order);
    forall id | id in ds.mountpoints
      ensures ds.mountpoints[id] in ts
    {
      var i :| 0 <= i < |order| && order[i] == id;
      assert ts[i] == ds.mountpoints[id];
    }
    forall m | m in ts
      ensures exists id :: id in ds.mountpoints && ds.mountpoints[id] == m
    {
      var i :| 0 <= i < |ts| && ts[i] == m;
      assert order[i] in ds.mountpoints && ds.mountpoints[order[i]] == m;
    }
  }

  /** `UnionAll` in terms of which stores are asked, not where they sit. */
  lemma UnionByMember(ds: DataStore, st: Stores, ts: seq<MountPoint>, name: string)
    ensures UnionAll(ds, st, ts, name).Ok? <==> forall m :: m in ts ==> st.uniqueValues(ds.log, m.handle, name).Ok?
    ensures UnionAll(ds, st, ts, name).Ok? ==> forall v :: v in UnionAll(ds, st, ts, name).value <==>
              exists m :: m in ts && v in st.uniqueValues(ds.log, m.handle, name).value
  {
    var r := UnionAll(ds, st, ts, name);
    if r.Err? {
      var k :| FirstUniqueError(ds, st, ts, name, k);
      assert ts[k] in ts;
    } else {
      forall v | exists m :: m in ts && v in st.uniqueValues(ds.log, m.handle, name).value
        ensures v in r.value
      {
        var m :| m in ts && v in st.uniqueValues(ds.log, m.handle, name).value;
        var i :| 0 <= i < |ts| && ts[i] == m;
      }
    }
  }
}
