/** `sort_by` / `sort_by_key` of Rust's standard library: a stable sort. Defined here by
    insertion, and characterised independently: it is the only sorted arrangement that keeps
    every class of equivalent elements in its original order. */
module StableSort {

  ghost predicate TotalPreorder<T(!new)>(le: (T, T) -> bool) {
    && (forall a, b :: le(a, b) || le(b, a))
    && (forall a, b, c :: le(a, b) && le(b, c) ==> le(a, c))
  }

  ghost predicate Sorted<T>(le: (T, T) -> bool, s: seq<T>) {
    forall i, j :: 0 <= i < j < |s| ==> le(s[i], s[j])
  }

  function Last<T>(s: seq<T>): T
    requires s != []
  {
    s[|s| - 1]
  }

  function Front<T>(s: seq<T>): seq<T>
    requires s != []
  {
    s[..|s| - 1]
  }

  /** `x` goes after everything not greater than it. */
  function Insert<T>(le: (T, T) -> bool, s: seq<T>, x: T): seq<T> {
    if s == [] then [x]
    else if le(Last(s), x) then s + [x]
    else Insert(le, Front(s), x) + [Last(s)]
  }

  function Sort<T>(le: (T, T) -> bool, s: seq<T>): seq<T> {
    if s == [] then [] else Insert(le, Sort(le, Front(s)), Last(s))
  }

  function Filter<T>(p: T -> bool, s: seq<T>): seq<T> {
    if s == [] then []
    else if p(Last(s)) then Filter(p, Front(s)) + [Last(s)]
    else Filter(p, Front(s))
  }

  // ----- Filtering -----

  lemma {:induction false} FilterConcat<T>(p: T -> bool, s: seq<T>, t: seq<T>)
    ensures Filter(p, s + t) == Filter(p, s) + Filter(p, t)
  {
    if t == [] {
      assert s + t == s;
      assert Filter(p, s) + [] == Filter(p, s);
    } else {
      assert Front(s + t) == s + Front(t);
      FilterConcat(p, s, Front(t));
    }
  }

  lemma {:induction false} FilterAll<T>(p: T -> bool, s: seq<T>)
    requires forall x :: x in s ==> p(x)
    ensures Filter(p, s) == s
  {
    if s != [] {
      var front, last := Front(s), Last(s);
      assert p(last) by {
        assert last in s;
      }
      assert forall x :: x in front ==> x in s;
      FilterAll(p, front);
    }
  }

  lemma {:induction false} FilterNone<T>(p: T -> bool, s: seq<T>)
    requires forall x :: x in s ==> !p(x)
    ensures Filter(p, s) == []
  {
    if s != [] {
      var front, last := Front(s), Last(s);
      assert !p(last) by {
        assert last in s;
      }
      assert forall x :: x in front ==> x in s;
      FilterNone(p, front);
    }
  }

  lemma {:induction false} FilterKeepsMembers<T>(p: T -> bool, s: seq<T>)
    ensures forall x :: x in Filter(p, s) <==> x in s && p(x)
  {
    if s != [] {
      FilterKeepsMembers(p, Front(s));
      assert s == Front(s) + [Last(s)];
    }
  }

  lemma {:induction false} FilterAgree<T>(p: T -> bool, q: T -> bool, s: seq<T>)
    requires forall x :: x in s ==> p(x) == q(x)
    ensures Filter(p, s) == Filter(q, s)
  {
    if s != [] {
      FilterAgree(p, q, Front(s));
    }
  }

  // ----- What sorting does -----

  lemma SplitLast<T>(s: seq<T>)
    requires s != []
    ensures multiset(s) == multiset(Front(s)) + multiset{Last(s)}
  {
    assert s == Front(s) + [Last(s)];
  }

  lemma {:induction false} InsertKeepsElements<T>(le: (T, T) -> bool, s: seq<T>, x: T)
    ensures multiset(Insert(le, s, x)) == multiset(s) + multiset{x}
  {
    if s != [] && !le(Last(s), x) {
      InsertKeepsElements(le, Front(s), x);
      SplitLast(s);
    }
  }

  lemma {:induction false} InsertIsSorted<T(!new)>(le: (T, T) -> bool, s: seq<T>, x: T)
    requires TotalPreorder(le) && Sorted(le, s)
    ensures Sorted(le, Insert(le, s, x))
  {
    if s == [] {
    } else if le(Last(s), x) {
      forall i | 0 <= i < |s|
        ensures le(s[i], x)
      {
        assert le(s[i], Last(s));
      }
    } else {
      InsertIsSorted(le, Front(s), x);
      InsertKeepsElements(le, Front(s), x);
      var inserted := Insert(le, Front(s), x);
      forall i | 0 <= i < |inserted|
        ensures le(inserted[i], Last(s))
      {
        assert inserted[i] in multiset(inserted);
        assert inserted[i] in Front(s) || inserted[i] == x;
      }
    }
  }

  lemma {:induction false} SortIsSorted<T(!new)>(le: (T, T) -> bool, s: seq<T>)
    requires TotalPreorder(le)
    ensures Sorted(le, Sort(le, s))
  {
    if s != [] {
      SortIsSorted(le, Front(s));
      InsertIsSorted(le, Sort(le, Front(s)), Last(s));
    }
  }

  lemma {:induction false} SortKeepsElements<T>(le: (T, T) -> bool, s: seq<T>)
    ensures multiset(Sort(le, s)) == multiset(s)
  {
    if s != [] {
      SortKeepsElements(le, Front(s));
      InsertKeepsElements(le, Sort(le, Front(s)), Last(s));
      SplitLast(s);
    }
  }

  lemma {:induction false} FilterInsert<T(!new)>(le: (T, T) -> bool, p: T -> bool, s: seq<T>, x: T)
    requires TotalPreorder(le) && Sorted(le, s)
    ensures Filter(p, Insert(le, s, x)) == if p(x) then Insert(le, Filter(p, s), x) else Filter(p, s)
  {
    if s == [] {
      assert Front([x]) == [];
    } else if le(Last(s), x) {
      assert Front(s + [x]) == s;
      var kept := Filter(p, s);
      if kept != [] {
        FilterKeepsMembers(p, s);
        assert Last(kept) in s;
        assert le(Last(kept), Last(s));
        assert le(Last(kept), x);
      }
    } else {
      FilterInsert(le, p, Front(s), x);
      var inserted := Insert(le, Front(s), x);
      assert Front(inserted + [Last(s)]) == inserted;
      var kept := Filter(p, Front(s));
      assert Front(kept + [Last(s)]) == kept;
    }
  }

  /** Sorting and dropping elements commute, whatever is dropped. */
  lemma {:induction false} FilterSort<T(!new)>(le: (T, T) -> bool, p: T -> bool, s: seq<T>)
    requires TotalPreorder(le)
    ensures Filter(p, Sort(le, s)) == Sort(le, Filter(p, s))
  {
    if s != [] {
      FilterSort(le, p, Front(s));
      SortIsSorted(le, Front(s));
      FilterInsert(le, p, Sort(le, Front(s)), Last(s));
      var kept := Filter(p, Front(s));
      assert Front(kept + [Last(s)]) == kept;
    }
  }

  lemma {:induction false} SortOfSorted<T>(le: (T, T) -> bool, s: seq<T>)
    requires Sorted(le, s)
    ensures Sort(le, s) == s
  {
    if s != [] {
      SortOfSorted(le, Front(s));
      assert s == Front(s) + [Last(s)];
    }
  }

  // ----- Stability, and why there is no other stable sort -----

  function Like<T>(le: (T, T) -> bool, x: T): T -> bool {
    y => le(x, y) && le(y, x)
  }

  lemma {:induction false} SortIsStable<T(!new)>(le: (T, T) -> bool, s: seq<T>, x: T)
    requires TotalPreorder(le)
    ensures Filter(Like(le, x), Sort(le, s)) == Filter(Like(le, x), s)
  {
    var like := Like(le, x);
    FilterSort(le, like, s);
    FilterKeepsMembers(like, s);
    var kept := Filter(like, s);
    assert Sorted(le, kept) by {
      forall i, j | 0 <= i < j < |kept| ensures le(kept[i], kept[j]) {
        assert kept[i] in kept && kept[j] in kept;
        assert like(kept[i]) && like(kept[j]);
      }
    }
    SortOfSorted(le, kept);
  }

  lemma {:induction false} LastOfClass<T(!new)>(le: (T, T) -> bool, s: seq<T>, t: seq<T>)
    requires TotalPreorder(le) && Sorted(le, s) && Sorted(le, t) && s != []
    requires forall x :: Filter(Like(le, x), s) == Filter(Like(le, x), t)
    ensures t != [] && le(Last(s), Last(t))
  {
    var x := Last(s);
    var like := Like(le, x);
    assert like(x);
    assert Filter(like, s) != [];
    FilterKeepsMembers(like, t);
    assert Last(Filter(like, s)) == x;
    assert x in Filter(like, t);
    assert x in t;
  }

  /** Two sorted sequences with the same classes in the same order are the same sequence. */
  lemma {:induction false} SortedIsUnique<T(!new)>(le: (T, T) -> bool, s: seq<T>, t: seq<T>)
    requires TotalPreorder(le) && Sorted(le, s) && Sorted(le, t)
    requires forall x :: Filter(Like(le, x), s) == Filter(Like(le, x), t)
    ensures s == t
    decreases |s|
  {
    if s == [] {
      if t != [] {
        LastOfClass(le, t, s);
      }
    } else {
      LastOfClass(le, s, t);
      LastOfClass(le, t, s);
      var x := Last(s);
      var like := Like(le, x);
      assert like(Last(s)) && like(Last(t));
      assert Last(Filter(like, s)) == Last(s);
      assert Last(Filter(like, t)) == Last(t);
      assert Last(s) == Last(t);
      forall y
        ensures Filter(Like(le, y), Front(s)) == Filter(Like(le, y), Front(t))
      {
        assert Filter(Like(le, y), s) == Filter(Like(le, y), t);
        var a, b := Filter(Like(le, y), Front(s)), Filter(Like(le, y), Front(t));
        if Like(le, y)(x) {
          assert Front(a + [x]) == a && Front(b + [x]) == b;
        }
      }
      SortedIsUnique(le, Front(s), Front(t));
      assert s == Front(s) + [x] && t == Front(t) + [x];
    }
  }

  /** `Sort` is the stable sort: any sorted rearrangement that keeps every class in order is it. */
  lemma {:induction false} SortIsTheStableSort<T(!new)>(le: (T, T) -> bool, s: seq<T>, t: seq<T>)
    requires TotalPreorder(le)
    ensures t == Sort(le, s) <==> Sorted(le, t) && forall x :: Filter(Like(le, x), t) == Filter(Like(le, x), s)
  {
    SortIsSorted(le, s);
    forall x
      ensures Filter(Like(le, x), Sort(le, s)) == Filter(Like(le, x), s)
    {
      SortIsStable(le, s, x);
    }
    if Sorted(le, t) && forall x :: Filter(Like(le, x), t) == Filter(Like(le, x), s) {
      SortedIsUnique(le, t, Sort(le, s));
    }
  }
}
