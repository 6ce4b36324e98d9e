/** The merge step of `_multiway_search`: hits from several stores are
    folded into one entry per object id. A later hit replaces the entry
    only when its version id compares strictly greater, so among hits with
    equal versions the earliest stays. Comparing needs both version ids;
    an id met twice where a hit lacks a vid raises AttributeError.

    Python keeps the entries in a dictionary; the model keeps them in the
    order their ids were first seen.
 */
module Merging {
  import opened Outcomes
  import opened PyValues
  import opened DataStores

  /** The version id of a hit, None when it has none. */
  function Vid(c: ContentView): PyValue
  {
    if "vid" in c.properties then c.properties["vid"] else PyNone
  }

  /** Where the entry for `id` sits in the merged list. */
  function IndexOf(d: seq<ContentView>, id: string): (r: Option<nat>)
    ensures r.Some? ==> r.value < |d| && d[r.value].id == id
    ensures r.None? ==> forall i :: 0 <= i < |d| ==> d[i].id != id
  {
    if |d| == 0 then None
    else if d[0].id == id then Some(0)
    else match IndexOf(d[1..], id)
      case Some(k) => Some(k + 1)
      case None => None
  }

  /** One turn of the merge loop: `existing = d.get(hit.id)`, replaced when
      `existing.get_property('vid') < hit.get_property('vid')`. */
  function MergeHit(d: seq<ContentView>, h: ContentView): (r: Result<seq<ContentView>>)
  {
    match IndexOf(d, h.id)
    case None => Ok(d + [h])
    case Some(k) =>
      var ev :- GetProp(d[k], "vid", None);
      var hv :- GetProp(h, "vid", None);
      if Cmp(ev, hv) < 0 then Ok(d[k := h]) else Ok(d)
  }

  /** The merge loop over all hits, in the order the stores returned them. */
  function Merge(hits: seq<ContentView>): Result<seq<ContentView>>
  {
    if |hits| == 0 then Ok([])
    else
      var d :- Merge(hits[..|hits| - 1]);
      MergeHit(d, hits[|hits| - 1])
  }

  // ---- what the merge computes ----

  predicate UniqueIds(d: seq<ContentView>)
  {
    forall i, j :: 0 <= i < j < |d| ==> d[i].id != d[j].id
  }

  /** Every hit's id has an entry. */
  predicate Covers(d: seq<ContentView>, hits: seq<ContentView>)
  {
    forall j :: 0 <= j < |hits| ==> IndexOf(d, hits[j].id).Some?
  }

  /** `x` is a hit, and every earlier hit with its id has a smaller vid. */
  predicate FirstMax(hits: seq<ContentView>, x: ContentView)
  {
    exists k :: 0 <= k < |hits| && hits[k] == x && forall j :: 0 <= j < k && hits[j].id == x.id ==> Cmp(Vid(hits[j]), Vid(x)) < 0
  }

  /** No hit with the id of `x` has a greater vid. */
  predicate AtLeast(hits: seq<ContentView>, x: ContentView)
  {
    forall j :: 0 <= j < |hits| && hits[j].id == x.id ==> Cmp(Vid(hits[j]), Vid(x)) <= 0
  }

  /** The entries are exactly one per id, each the first hit with the
      greatest vid among the hits with its id. */
  predicate Merged(d: seq<ContentView>, hits: seq<ContentView>)
  {
    && UniqueIds(d)
    && Covers(d, hits)
    && (forall i :: 0 <= i < |d| ==> FirstMax(hits, d[i]) && AtLeast(hits, d[i]))
  }

  /** Two distinct hits share an id and one of them has no vid. */
  predicate MissingVid(hits: seq<ContentView>)
  {
    exists i, j :: 0 <= i < |hits| && 0 <= j < |hits| && i != j && hits[i].id == hits[j].id && "vid" !in hits[i].properties
  }

  // ---- the proof ----

  lemma FirstMaxExtend(hits: seq<ContentView>, h: ContentView, x: ContentView)
    requires FirstMax(hits, x)
    ensures FirstMax(hits + [h], x)
  {
    var k :| 0 <= k < |hits| && hits[k] == x && forall j :: 0 <= j < k && hits[j].id == x.id ==> Cmp(Vid(hits[j]), Vid(x)) < 0;
    assert (hits + [h])[k] == x;
    assert forall j :: 0 <= j < k ==> (hits + [h])[j] == hits[j];
  }

  lemma AtLeastExtend(hits: seq<ContentView>, h: ContentView, x: ContentView)
    requires AtLeast(hits, x)
    requires h.id == x.id ==> Cmp(Vid(h), Vid(x)) <= 0
    ensures AtLeast(hits + [h], x)
  {
    assert forall j :: 0 <= j < |hits| ==> (hits + [h])[j] == hits[j];
  }

  lemma MissingVidExtend(hits: seq<ContentView>, h: ContentView)
    requires MissingVid(hits)
    ensures MissingVid(hits + [h])
  {
    var i, j :| 0 <= i < |hits| && 0 <= j < |hits| && i != j && hits[i].id == hits[j].id && "vid" !in hits[i].properties;
    assert (hits + [h])[i] == hits[i] && (hits + [h])[j] == hits[j];
  }

  /** A new hit pairs with an earlier hit of its id that has no vid. */
  lemma MissingVidWith(hits: seq<ContentView>, h: ContentView, k: nat)
    requires k < |hits| && hits[k].id == h.id
    requires "vid" !in hits[k].properties || "vid" !in h.properties
    ensures MissingVid(hits + [h])
  {
    var all := hits + [h];
    assert all[k] == hits[k] && all[|hits|] == h;
    if "vid" !in hits[k].properties {
      assert k != |hits| && all[k].id == all[|hits|].id && "vid" !in all[k].properties;
    } else {
      assert |hits| != k && all[|hits|].id == all[k].id && "vid" !in all[|hits|].properties;
    }
  }

  /** No pair lacks a vid once the new hit and every earlier hit of its id
      carry one. */
  lemma NoMissingVidExtend(hits: seq<ContentView>, h: ContentView)
    requires !MissingVid(hits)
    requires forall j :: 0 <= j < |hits| && hits[j].id == h.id ==> "vid" in hits[j].properties && "vid" in h.properties
    ensures !MissingVid(hits + [h])
  {
    var all := hits + [h];
    forall i, j | 0 <= i < |all| && 0 <= j < |all| && i != j && all[i].id == all[j].id
      ensures "vid" in all[i].properties
    {
      if i < |hits| && j < |hits| {
        assert hits[i] == all[i] && hits[j] == all[j];
      } else if i == |hits| {
        assert all[j] == hits[j];
      } else {
        assert all[i] == hits[i];
      }
    }
  }

  /** Every earlier hit with the id of an entry has a vid when the entry
      has one and no pair lacks a vid. */
  lemma VidsPresent(hits: seq<ContentView>, x: ContentView)
    requires !MissingVid(hits) && FirstMax(hits, x) && "vid" in x.properties
    ensures forall j :: 0 <= j < |hits| && hits[j].id == x.id ==> "vid" in hits[j].properties
  {
    var k :| 0 <= k < |hits| && hits[k] == x && forall j :: 0 <= j < k && hits[j].id == x.id ==> Cmp(Vid(hits[j]), Vid(x)) < 0;
    forall j | 0 <= j < |hits| && hits[j].id == x.id
      ensures "vid" in hits[j].properties
    {
      if j != k {
        assert hits[j].id == hits[k].id;
      }
    }
  }

  /** The step for a hit whose id has no entry yet. */
  lemma MergeNew(d: seq<ContentView>, hits: seq<ContentView>, h: ContentView)
    requires Merged(d, hits) && !MissingVid(hits) && IndexOf(d, h.id).None?
    ensures Merged(d + [h], hits + [h]) && !MissingVid(hits + [h])
  {
    var d2, all := d + [h], hits + [h];
    forall j | 0 <= j < |hits|
      ensures hits[j].id != h.id
    {
      assert IndexOf(d, hits[j].id).Some?;
    }
    NoMissingVidExtend(hits, h);
    assert UniqueIds(d2);
    AppendCovers(d, hits, h);
    forall i | 0 <= i < |d2|
      ensures FirstMax(all, d2[i]) && AtLeast(all, d2[i])
    {
      if i < |d| {
        assert d2[i] == d[i];
        FirstMaxExtend(hits, h, d[i]);
        assert h.id != d[i].id;
        AtLeastExtend(hits, h, d[i]);
      } else {
        assert all[|hits|] == h;
        assert forall j :: 0 <= j < |hits| ==> all[j] == hits[j];
        CmpReflexive(Vid(h));
      }
    }
  }

  /** Appending a hit as a new entry keeps every id covered. */
  lemma AppendCovers(d: seq<ContentView>, hits: seq<ContentView>, h: ContentView)
    requires Covers(d, hits)
    ensures Covers(d + [h], hits + [h])
  {
    var d2, all := d + [h], hits + [h];
    forall j | 0 <= j < |all|
      ensures IndexOf(d2, all[j].id).Some?
    {
      if j < |hits| {
        assert all[j] == hits[j];
        var k := IndexOf(d, hits[j].id).value;
        assert d2[k].id == all[j].id;
      } else {
        assert d2[|d|].id == all[j].id;
      }
    }
  }

  /** The step for a hit whose id has an entry and both carry a vid. */
  lemma MergeCompare(d: seq<ContentView>, hits: seq<ContentView>, h: ContentView, k: nat)
    requires Merged(d, hits) && !MissingVid(hits)
    requires k < |d| && d[k].id == h.id
    requires "vid" in d[k].properties && "vid" in h.properties
    ensures var d2 := if Cmp(Vid(d[k]), Vid(h)) < 0 then d[k := h] else d;
            Merged(d2, hits + [h]) && !MissingVid(hits + [h])
  {
    VidsPresent(hits, d[k]);
    NoMissingVidExtend(hits, h);
    if Cmp(Vid(d[k]), Vid(h)) < 0 {
      MergeReplace(d, hits, h, k);
    } else {
      MergeKeep(d, hits, h, k);
    }
  }

  /** A hit with a greater vid than its entry's becomes that entry. */
  lemma ReplacedEntry(hits: seq<ContentView>, h: ContentView, x: ContentView)
    requires FirstMax(hits, x) && AtLeast(hits, x)
    requires x.id == h.id && Cmp(Vid(x), Vid(h)) < 0
    ensures FirstMax(hits + [h], h) && AtLeast(hits + [h], h)
  {
    var all := hits + [h];
    assert forall j :: 0 <= j < |hits| ==> all[j] == hits[j];
    assert all[|hits|] == h;
    forall j | 0 <= j < |hits| && hits[j].id == h.id
      ensures Cmp(Vid(hits[j]), Vid(h)) < 0
    {
      CmpTransitive(Vid(hits[j]), Vid(x), Vid(h));
    }
    CmpReflexive(Vid(h));
  }

  lemma MergeReplace(d: seq<ContentView>, hits: seq<ContentView>, h: ContentView, k: nat)
    requires Merged(d, hits)
    requires k < |d| && d[k].id == h.id && Cmp(Vid(d[k]), Vid(h)) < 0
    ensures Merged(d[k := h], hits + [h])
  {
    var all, d2 := hits + [h], d[k := h];
    assert UniqueIds(d2);
    ReplaceCovers(d, hits, h, k);
    forall i | 0 <= i < |d2|
      ensures FirstMax(all, d2[i]) && AtLeast(all, d2[i])
    {
      if i == k {
        ReplacedEntry(hits, h, d[k]);
      } else {
        assert d2[i] == d[i] && d[i].id != h.id;
        FirstMaxExtend(hits, h, d[i]);
        AtLeastExtend(hits, h, d[i]);
      }
    }
  }

  /** Replacing an entry by a hit of its id keeps every id covered. */
  lemma ReplaceCovers(d: seq<ContentView>, hits: seq<ContentView>, h: ContentView, k: nat)
    requires Covers(d, hits)
    requires k < |d| && d[k].id == h.id
    ensures Covers(d[k := h], hits + [h])
  {
    var all, d2 := hits + [h], d[k := h];
    forall j | 0 <= j < |all|
      ensures IndexOf(d2, all[j].id).Some?
    {
      var id := all[j].id;
      if id == h.id {
        assert d2[k].id == id;
      } else {
        assert all[j] == hits[j];
        var m := IndexOf(d, id).value;
        assert d2[m].id == id;
      }
    }
  }

  lemma MergeKeep(d: seq<ContentView>, hits: seq<ContentView>, h: ContentView, k: nat)
    requires Merged(d, hits)
    requires k < |d| && d[k].id == h.id && Cmp(Vid(d[k]), Vid(h)) >= 0
    ensures Merged(d, hits + [h])
  {
    var all := hits + [h];
    assert forall j :: 0 <= j < |hits| ==> all[j] == hits[j];
    CmpAntisymmetric(Vid(d[k]), Vid(h));
    forall j | 0 <= j < |all|
      ensures IndexOf(d, all[j].id).Some?
    {
      if j == |hits| {
        assert all[j].id == d[k].id;
      }
    }
    forall i | 0 <= i < |d|
      ensures FirstMax(all, d[i]) && AtLeast(all, d[i])
    {
      FirstMaxExtend(hits, h, d[i]);
      AtLeastExtend(hits, h, d[i]);
    }
  }

  /** One turn of the loop keeps the merge's description true, or fails
      exactly when the new hit makes a pair without a vid. */
  lemma MergeStep(d: seq<ContentView>, hits: seq<ContentView>, h: ContentView)
    requires Merged(d, hits) && !MissingVid(hits)
    ensures MergeHit(d, h).Err? <==> MissingVid(hits + [h])
    ensures MergeHit(d, h).Err? ==> MergeHit(d, h).error == AttributeError
    ensures MergeHit(d, h).Ok? ==> Merged(MergeHit(d, h).value, hits + [h])
  {
    match IndexOf(d, h.id)
    case None =>
      MergeNew(d, hits, h);
    case Some(k) =>
      if "vid" !in d[k].properties || "vid" !in h.properties {
        MergeHitMissing(d, h, k);
        MissingVidEntry(d, hits, h, k);
      } else {
        MergeHitCompare(d, h, k);
        MergeCompare(d, hits, h, k);
      }
  }

  lemma MergeHitMissing(d: seq<ContentView>, h: ContentView, k: nat)
    requires IndexOf(d, h.id) == Some(k)
    requires "vid" !in d[k].properties || "vid" !in h.properties
    ensures MergeHit(d, h) == Err(AttributeError)
  {
  }

  lemma MergeHitCompare(d: seq<ContentView>, h: ContentView, k: nat)
    requires IndexOf(d, h.id) == Some(k)
    requires "vid" in d[k].properties && "vid" in h.properties
    ensures MergeHit(d, h) == Ok(if Cmp(Vid(d[k]), Vid(h)) < 0 then d[k := h] else d)
  {
  }

  /** An entry or a new hit of its id without a vid makes a pair without one. */
  lemma MissingVidEntry(d: seq<ContentView>, hits: seq<ContentView>, h: ContentView, k: nat)
    requires Merged(d, hits)
    requires k < |d| && d[k].id == h.id
    requires "vid" !in d[k].properties || "vid" !in h.properties
    ensures MissingVid(hits + [h])
  {
    var x := d[k];
    assert FirstMax(hits, x);
    var kx :| 0 <= kx < |hits| && hits[kx] == x && forall j :: 0 <= j < kx && hits[j].id == x.id ==> Cmp(Vid(hits[j]), Vid(x)) < 0;
    MissingVidWith(hits, h, kx);
  }

  /** Each hit adds at most one entry. */
  lemma {:induction false} MergeLength(hits: seq<ContentView>)
    ensures Merge(hits).Ok? ==> |Merge(hits).value| <= |hits|
  {
    if |hits| > 0 {
      MergeLength(hits[..|hits| - 1]);
    }
  }

  /** The merge succeeds exactly when no shared id has a hit without a
      vid; it then keeps one entry per id, the first hit carrying the
      greatest vid. */
  lemma {:induction false} MergeSpec(hits: seq<ContentView>)
    ensures Merge(hits).Err? <==> MissingVid(hits)
    ensures Merge(hits).Err? ==> Merge(hits).error == AttributeError
    ensures Merge(hits).Ok? ==> Merged(Merge(hits).value, hits)
  {
    if |hits| > 0 {
      var init, h := hits[..|hits| - 1], hits[|hits| - 1];
      assert hits == init + [h];
      MergeSpec(init);
      if Merge(init).Err? {
        MissingVidExtend(init, h);
      } else {
        MergeStep(Merge(init).value, init, h);
      }
    }
  }

  /** Two stores return the same object at versions "1" and "2": the merged
      list keeps the version 2 hit, whichever store came first. */
  lemma NewerVersionKept(a: ContentView, b: ContentView)
    requires a.id == b.id && a.properties == map["vid" := PyStr("1")] && b.properties == map["vid" := PyStr("2")]
    ensures Merge([a, b]) == Ok([b])
    ensures Merge([b, a]) == Ok([b])
  {
    assert [a, b][..1] == [a] && [b, a][..1] == [b] && [a][..0] == [] && [b][..0] == [];
    assert Merge([]) == Ok([]) && IndexOf([], a.id).None? && [] + [a] == [a] && [] + [b] == [b];
    assert Merge([a]) == Ok([a]);
    assert Merge([b]) == Ok([b]);
    assert IndexOf([a], b.id) == Some(0) && IndexOf([b], a.id) == Some(0);
    assert Cmp(PyStr("1"), PyStr("2")) < 0;
    assert Cmp(PyStr("2"), PyStr("1")) > 0;
    assert [a][0 := b] == [b];
    assert MergeHit([a], b) == Ok([b]);
    assert MergeHit([b], a) == Ok([b]);
  }
}
