/** The post-processing sort of `find` over results merged from several
    stores: a comparator built from the `order_by` property names, and the
    stable sort `list.sort` performs with it.
 */
module Sorting {
  import opened Outcomes
  import opened PyStrings
  import opened PyValues
  import opened DataStores

  /** One ordering criterion: a property name, descending when it was
      written with a leading `-`. */
  datatype Criterion = Criterion(key: string, descending: bool)

  /** Reads one `order_by` entry. */
  function ParseCriterion(s: string): (c: Criterion)
    ensures c.descending <==> StartsWith(s, "-")
    ensures (if c.descending then "-" + c.key else c.key) == s
  {
    if StartsWith(s, "-") then Criterion(s[1..], true) else Criterion(s, false)
  }

  function ParseCriteria(names: seq<string>): (cs: seq<Criterion>)
    ensures |cs| == |names| && forall i :: 0 <= i < |names| ==> cs[i] == ParseCriterion(names[i])
  {
    seq(|names|, i requires 0 <= i < |names| => ParseCriterion(names[i]))
  }

  /** `get_property(key, None)` on a result. */
  function PropOrNone(c: ContentView, key: string): (v: PyValue)
    ensures v == if key in c.properties then c.properties[key] else PyNone
  {
    GetProp(c, key, Some(PyNone)).value
  }

  /** The comparator of `find`: the first criterion on which the two
      results differ decides, reversed for a descending one; a missing
      property compares as None. */
  function CompareBy(cs: seq<Criterion>, a: ContentView, b: ContentView): (r: int)
    ensures r == -1 || r == 0 || r == 1
  {
    if |cs| == 0 then 0
    else
      var x := Cmp(PropOrNone(a, cs[0].key), PropOrNone(b, cs[0].key));
      var y := if cs[0].descending then -x else x;
      if y != 0 then y else CompareBy(cs[1..], a, b)
  }

  lemma {:induction false} CompareByAntisymmetric(cs: seq<Criterion>, a: ContentView, b: ContentView)
    ensures CompareBy(cs, a, b) == -CompareBy(cs, b, a)
  {
    if |cs| > 0 {
      CmpAntisymmetric(PropOrNone(a, cs[0].key), PropOrNone(b, cs[0].key));
      CompareByAntisymmetric(cs[1..], a, b);
    }
  }

  /** The comparator is a total preorder, so sorting with it is well
      defined. */
  lemma {:induction false} CompareByTransitive(cs: seq<Criterion>, a: ContentView, b: ContentView, c: ContentView)
    requires CompareBy(cs, a, b) <= 0 && CompareBy(cs, b, c) <= 0
    ensures CompareBy(cs, a, c) <= 0
    ensures CompareBy(cs, a, b) < 0 || CompareBy(cs, b, c) < 0 ==> CompareBy(cs, a, c) < 0
  {
    if |cs| > 0 {
      var k := cs[0].key;
      var pa, pb, pc := PropOrNone(a, k), PropOrNone(b, k), PropOrNone(c, k);
      CmpAntisymmetric(pa, pb);
      CmpAntisymmetric(pb, pc);
      CmpAntisymmetric(pa, pc);
      if cs[0].descending {
        if Cmp(pb, pa) <= 0 && Cmp(pc, pb) <= 0 {
          CmpTransitive(pc, pb, pa);
        }
      } else {
        if Cmp(pa, pb) <= 0 && Cmp(pb, pc) <= 0 {
          CmpTransitive(pa, pb, pc);
        }
      }
      if Cmp(pa, pb) == 0 && Cmp(pb, pc) == 0 {
        CompareByTransitive(cs[1..], a, b, c);
      }
    }
  }

  /** Equal under the comparator. */
  lemma SameTransitive(cs: seq<Criterion>, a: ContentView, b: ContentView, c: ContentView)
    requires CompareBy(cs, a, b) == 0 && CompareBy(cs, b, c) == 0
    ensures CompareBy(cs, a, c) == 0
  {
    CompareByAntisymmetric(cs, a, b);
    CompareByAntisymmetric(cs, b, c);
    CompareByTransitive(cs, a, b, c);
    CompareByTransitive(cs, c, b, a);
    CompareByAntisymmetric(cs, a, c);
  }

  /** A `-` in front of a property name reverses the order it gives. */
  lemma DescendingReverses(key: string, a: ContentView, b: ContentView)
    ensures CompareBy([ParseCriterion("-" + key)], a, b) == CompareBy([ParseCriterion(key)], b, a)
            || StartsWith(key, "-")
    ensures !StartsWith(key, "-") ==> CompareBy([ParseCriterion(key)], a, b) == Cmp(PropOrNone(a, key), PropOrNone(b, key))
  {
    StartsWithConcat("-", key);
    assert ("-" + key)[1..] == key;
    CmpAntisymmetric(PropOrNone(a, key), PropOrNone(b, key));
  }

  // ---- the stable sort ----

  predicate SortedBy(cs: seq<Criterion>, s: seq<ContentView>)
  {
    forall i, j :: 0 <= i < j < |s| ==> CompareBy(cs, s[i], s[j]) <= 0
  }

  /** Places `x` after every trailing element it is not below: after all
      its equals, as a stable sort must. */
  function Insert(cs: seq<Criterion>, x: ContentView, s: seq<ContentView>): (r: seq<ContentView>)
    ensures |r| == |s| + 1
  {
    if |s| == 0 then [x]
    else if CompareBy(cs, s[|s| - 1], x) <= 0 then s + [x]
    else Insert(cs, x, s[..|s| - 1]) + [s[|s| - 1]]
  }

  /** `list.sort(comparator)`: insertion sort, taking the elements in their
      original order. */
  function SortBy(cs: seq<Criterion>, s: seq<ContentView>): (r: seq<ContentView>)
    ensures |r| == |s|
  {
    if |s| == 0 then [] else Insert(cs, s[|s| - 1], SortBy(cs, s[..|s| - 1]))
  }

  lemma {:induction false} InsertMultiset(cs: seq<Criterion>, x: ContentView, s: seq<ContentView>)
    ensures multiset(Insert(cs, x, s)) == multiset(s) + multiset{x}
  {
    if |s| > 0 && CompareBy(cs, s[|s| - 1], x) > 0 {
      InsertMultiset(cs, x, s[..|s| - 1]);
      assert s == s[..|s| - 1] + [s[|s| - 1]];
    }
  }

  /** Appending an element no smaller than any other keeps a list sorted. */
  lemma SortedSnoc(cs: seq<Criterion>, t: seq<ContentView>, y: ContentView)
    requires SortedBy(cs, t)
    requires forall i :: 0 <= i < |t| ==> CompareBy(cs, t[i], y) <= 0
    ensures SortedBy(cs, t + [y])
  {
    var r := t + [y];
    forall i, j | 0 <= i < j < |r|
      ensures CompareBy(cs, r[i], r[j]) <= 0
    {
      assert r[i] == t[i];
      if j < |t| {
        assert r[j] == t[j];
      }
    }
  }

  lemma {:induction false} InsertSorted(cs: seq<Criterion>, x: ContentView, s: seq<ContentView>)
    requires SortedBy(cs, s)
    ensures SortedBy(cs, Insert(cs, x, s))
  {
    if |s| == 0 {
    } else if CompareBy(cs, s[|s| - 1], x) <= 0 {
      forall i | 0 <= i < |s|
        ensures CompareBy(cs, s[i], x) <= 0
      {
        if i < |s| - 1 {
          CompareByTransitive(cs, s[i], s[|s| - 1], x);
        }
      }
      SortedSnoc(cs, s, x);
    } else {
      var init, last := s[..|s| - 1], s[|s| - 1];
      SortedInit(cs, s);
      InsertSorted(cs, x, init);
      InsertMultiset(cs, x, init);
      var t := Insert(cs, x, init);
      CompareByAntisymmetric(cs, last, x);
      forall i | 0 <= i < |t|
        ensures CompareBy(cs, t[i], last) <= 0
      {
        assert t[i] in multiset(t);
        if t[i] != x {
          assert t[i] in multiset(init);
          var k :| 0 <= k < |init| && init[k] == t[i];
          assert s[k] == t[i];
        }
      }
      SortedSnoc(cs, t, last);
      assert Insert(cs, x, s) == t + [last];
    }
  }

  /** The elements of `s` equal to `e` under the comparator, in order. */
  function Equals(cs: seq<Criterion>, s: seq<ContentView>, e: ContentView): (r: seq<ContentView>)
    ensures |r| <= |s|
  {
    if |s| == 0 then []
    else Equals(cs, s[..|s| - 1], e) + EqualsOne(cs, s[|s| - 1], e)
  }

  lemma EqualsSnoc(cs: seq<Criterion>, s: seq<ContentView>, x: ContentView, e: ContentView)
    ensures Equals(cs, s + [x], e) == Equals(cs, s, e) + EqualsOne(cs, x, e)
  {
    assert (s + [x])[..|s|] == s;
  }

  /** The part of `Equals` one element contributes. */
  function EqualsOne(cs: seq<Criterion>, x: ContentView, e: ContentView): seq<ContentView>
  {
    if CompareBy(cs, x, e) == 0 then [x] else []
  }

  lemma SortedInit(cs: seq<Criterion>, s: seq<ContentView>)
    requires SortedBy(cs, s) && |s| > 0
    ensures SortedBy(cs, s[..|s| - 1])
  {
  }

  /** An element that sorts strictly above `x` is never in the same class
      of equals as `x`. */
  lemma EqualsOneSwap(cs: seq<Criterion>, x: ContentView, last: ContentView, e: ContentView)
    requires CompareBy(cs, last, x) > 0
    ensures EqualsOne(cs, x, e) + EqualsOne(cs, last, e) == EqualsOne(cs, last, e) + EqualsOne(cs, x, e)
  {
    if CompareBy(cs, x, e) == 0 && CompareBy(cs, last, e) == 0 {
      CompareByAntisymmetric(cs, x, e);
      SameTransitive(cs, last, e, x);
    }
  }

  /** Inserting `x` keeps the other elements' relative order within each
      class of equals, and puts `x` last in its own class. */
  lemma {:induction false} InsertEquals(cs: seq<Criterion>, x: ContentView, s: seq<ContentView>, e: ContentView)
    requires SortedBy(cs, s)
    ensures Equals(cs, Insert(cs, x, s), e) == Equals(cs, s, e) + EqualsOne(cs, x, e)
  {
    if |s| == 0 {
      EqualsSnoc(cs, [], x, e);
    } else if CompareBy(cs, s[|s| - 1], x) <= 0 {
      EqualsSnoc(cs, s, x, e);
    } else {
      var init, last := s[..|s| - 1], s[|s| - 1];
      var t := Insert(cs, x, init);
      assert Insert(cs, x, s) == t + [last];
      assert s == init + [last];
      SortedInit(cs, s);
      InsertEquals(cs, x, init, e);
      EqualsSnoc(cs, t, last, e);
      EqualsSnoc(cs, init, last, e);
      EqualsOneSwap(cs, x, last, e);
      SwapTail(Equals(cs, init, e), EqualsOne(cs, x, e), EqualsOne(cs, last, e));
    }
  }

  lemma SnocMultiset<T>(s: seq<T>, t: seq<T>)
    requires |s| > 0 && multiset(t) == multiset(s[..|s| - 1])
    ensures multiset(t) + multiset{s[|s| - 1]} == multiset(s)
  {
    assert s == s[..|s| - 1] + [s[|s| - 1]];
  }

  lemma SortBySnoc(cs: seq<Criterion>, s: seq<ContentView>)
    requires |s| > 0
    ensures SortBy(cs, s) == Insert(cs, s[|s| - 1], SortBy(cs, s[..|s| - 1]))
  {
  }

  lemma SwapTail<T>(a: seq<T>, b: seq<T>, c: seq<T>)
    requires b + c == c + b
    ensures a + b + c == a + c + b
  {
    calc {
      a + b + c;
      a + (b + c);
      a + (c + b);
      a + c + b;
    }
  }

  lemma {:induction false} SortBySorted(cs: seq<Criterion>, s: seq<ContentView>)
    ensures SortedBy(cs, SortBy(cs, s))
  {
    if |s| > 0 {
      SortBySorted(cs, s[..|s| - 1]);
      InsertSorted(cs, s[|s| - 1], SortBy(cs, s[..|s| - 1]));
    }
  }

  lemma {:induction false} SortByPermutes(cs: seq<Criterion>, s: seq<ContentView>)
    ensures multiset(SortBy(cs, s)) == multiset(s)
  {
    if |s| > 0 {
      var init, last := s[..|s| - 1], s[|s| - 1];
      var t := SortBy(cs, init);
      SortByPermutes(cs, init);
      InsertMultiset(cs, last, t);
      SnocMultiset(s, t);
      SortBySnoc(cs, s);
    }
  }

  lemma {:induction false} SortByStable(cs: seq<Criterion>, s: seq<ContentView>, e: ContentView)
    ensures Equals(cs, SortBy(cs, s), e) == Equals(cs, s, e)
  {
    if |s| > 0 {
      var init, last := s[..|s| - 1], s[|s| - 1];
      SortByStable(cs, init, e);
      SortBySorted(cs, init);
      InsertEquals(cs, last, SortBy(cs, init), e);
    }
  }

  /** The sort is a sorted permutation of its input that keeps equal
      elements in their original order: the one result a stable sort can
      give. */
  lemma SortByCorrect(cs: seq<Criterion>, s: seq<ContentView>)
    ensures SortedBy(cs, SortBy(cs, s))
    ensures multiset(SortBy(cs, s)) == multiset(s)
    ensures forall e :: Equals(cs, SortBy(cs, s), e) == Equals(cs, s, e)
  {
    SortBySorted(cs, s);
    SortByPermutes(cs, s);
    forall e
      ensures Equals(cs, SortBy(cs, s), e) == Equals(cs, s, e)
    {
      SortByStable(cs, s, e);
    }
  }
}
