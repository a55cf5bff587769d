/**
  The iterator selections the strategies are built from, with the tie-breaks of
  the standard library they use: `min_by` keeps the first minimum, `max_by` the
  last maximum, `filter` keeps order, `find` returns the first match, and
  `sorted_by` is a stable sort.
*/
module Select {
  import opened Wrappers

  /**
    `min_by` on a non-empty sequence, as the left fold it is: the running choice
    is replaced only by a strictly smaller element. The result is the first
    element of least key.
  */
  function FirstMinIndex<T>(s: seq<T>, key: T -> int): (i: nat)
    requires |s| > 0
    ensures i < |s|
    ensures forall j :: 0 <= j < |s| ==> key(s[i]) <= key(s[j])
    ensures forall j :: 0 <= j < i ==> key(s[i]) < key(s[j])
  {
    if |s| == 1 then 0
    else
      var i := FirstMinIndex(s[..|s| - 1], key);
      if key(s[|s| - 1]) < key(s[i]) then |s| - 1 else i
  }

  /** The element `min_by` returns. */
  function MinBy<T>(s: seq<T>, key: T -> int): T
    requires |s| > 0
  {
    s[FirstMinIndex(s, key)]
  }

  /** Only one index is the first one of least key. */
  lemma FirstMinIsUnique<T>(s: seq<T>, key: T -> int, k: nat)
    requires k < |s|
    requires forall j :: 0 <= j < |s| ==> key(s[k]) <= key(s[j])
    requires forall j :: 0 <= j < k ==> key(s[k]) < key(s[j])
    ensures FirstMinIndex(s, key) == k
  {
    var i := FirstMinIndex(s, key);
    assert key(s[i]) <= key(s[k]) && key(s[k]) <= key(s[i]);
  }

  /**
    `max_by` on a non-empty sequence: the running choice is replaced by every
    element that is at least as large. The result is the last element of greatest key.
  */
  function LastMaxIndex<T>(s: seq<T>, key: T -> real): (i: nat)
    requires |s| > 0
    ensures i < |s|
    ensures forall j :: 0 <= j < |s| ==> key(s[j]) <= key(s[i])
    ensures forall j :: i < j < |s| ==> key(s[j]) < key(s[i])
  {
    if |s| == 1 then 0
    else
      var i := LastMaxIndex(s[..|s| - 1], key);
      if key(s[|s| - 1]) >= key(s[i]) then |s| - 1 else i
  }

  /** The elements that satisfy `q`, in their original order. */
  function Filter<T>(s: seq<T>, q: T -> bool): (r: seq<T>)
    ensures |r| <= |s|
    ensures forall i :: 0 <= i < |r| ==> r[i] in s && q(r[i])
    ensures forall i :: 0 <= i < |s| && q(s[i]) ==> s[i] in r
  {
    if s == [] then []
    else if q(s[|s| - 1]) then Filter(s[..|s| - 1], q) + [s[|s| - 1]]
    else Filter(s[..|s| - 1], q)
  }

  /** The first element that satisfies `q`, as `find` returns it. */
  function FindFirst<T>(s: seq<T>, q: T -> bool): (r: Option<T>)
    ensures r.None? <==> forall j :: 0 <= j < |s| ==> !q(s[j])
    ensures r.Some? ==> r.value in s && q(r.value)
  {
    if s == [] then None
    else if q(s[0]) then Some(s[0])
    else
      var r := FindFirst(s[1..], q);
      assert forall j :: 1 <= j < |s| ==> s[j] == s[1..][j - 1];
      r
  }

  /** The element found comes before every other element satisfying `q`. */
  lemma {:induction false} FindFirstIsFirst<T>(s: seq<T>, q: T -> bool)
    requires FindFirst(s, q).Some?
    ensures exists i :: 0 <= i < |s| && s[i] == FindFirst(s, q).value && forall j :: 0 <= j < i ==> !q(s[j])
  {
    if !q(s[0]) {
      FindFirstIsFirst(s[1..], q);
      var i :| 0 <= i < |s| - 1 && s[1..][i] == FindFirst(s, q).value && forall j :: 0 <= j < i ==> !q(s[1..][j]);
      assert s[i + 1] == FindFirst(s, q).value;
      forall j | 0 <= j < i + 1 ensures !q(s[j]) {
        if j > 0 { assert s[j] == s[1..][j - 1]; }
      }
    } else {
      assert s[0] == FindFirst(s, q).value;
    }
  }

  predicate SortedBy<T>(s: seq<T>, key: T -> int)
  {
    forall i, j :: 0 <= i < j < |s| ==> key(s[i]) <= key(s[j])
  }

  /** Puts `x` into a sorted sequence after every element whose key is not greater. */
  function InsertBy<T>(s: seq<T>, x: T, key: T -> int): seq<T>
  {
    if s == [] then [x]
    else if key(x) < key(s[0]) then [x] + s
    else [s[0]] + InsertBy(s[1..], x, key)
  }

  /** The stable sort: elements are inserted in their original order, each after its equals. */
  function SortBy<T>(s: seq<T>, key: T -> int): seq<T>
  {
    if s == [] then [] else InsertBy(SortBy(s[..|s| - 1], key), s[|s| - 1], key)
  }

  /** Inserting adds exactly one occurrence of `x`. */
  lemma {:induction false} InsertByKeeps<T>(s: seq<T>, x: T, key: T -> int)
    ensures multiset(InsertBy(s, x, key)) == multiset(s) + multiset{x}
  {
    if s != [] {
      assert s == [s[0]] + s[1..];
      if key(x) >= key(s[0]) {
        InsertByKeeps(s[1..], x, key);
      }
    }
  }

  /** Inserting into a sorted sequence keeps it sorted. */
  lemma {:induction false} InsertBySorted<T>(s: seq<T>, x: T, key: T -> int)
    requires SortedBy(s, key)
    ensures SortedBy(InsertBy(s, x, key), key)
  {
    if s != [] && key(x) >= key(s[0]) {
      var t := InsertBy(s[1..], x, key);
      assert SortedBy(s[1..], key);
      InsertBySorted(s[1..], x, key);
      InsertByAbove(s[1..], x, key, key(s[0]));
      assert InsertBy(s, x, key) == [s[0]] + t;
    }
  }

  /** Inserting an element whose key is at least `b` among such elements keeps every key at least `b`. */
  lemma {:induction false} InsertByAbove<T>(s: seq<T>, x: T, key: T -> int, b: int)
    requires forall i :: 0 <= i < |s| ==> b <= key(s[i])
    requires b <= key(x)
    ensures forall i :: 0 <= i < |InsertBy(s, x, key)| ==> b <= key(InsertBy(s, x, key)[i])
  {
    if s != [] && key(x) >= key(s[0]) {
      InsertByAbove(s[1..], x, key, b);
      var t := InsertBy(s[1..], x, key);
      assert InsertBy(s, x, key) == [s[0]] + t;
    }
  }

  /** The sort orders by key and keeps every element, as often as it occurs. */
  lemma {:induction false} SortBySorted<T>(s: seq<T>, key: T -> int)
    ensures SortedBy(SortBy(s, key), key)
    ensures multiset(SortBy(s, key)) == multiset(s)
  {
    if s != [] {
      SortBySorted(s[..|s| - 1], key);
      InsertBySorted(SortBy(s[..|s| - 1], key), s[|s| - 1], key);
      InsertByKeeps(SortBy(s[..|s| - 1], key), s[|s| - 1], key);
      assert s == s[..|s| - 1] + [s[|s| - 1]];
    }
  }

  /**
    Searching a sorted sequence after inserting `x`: `x` is found only when it
    matches and no match already present has a key at most its own.
  */
  lemma {:induction false} FindFirstInsert<T>(s: seq<T>, x: T, key: T -> int, q: T -> bool)
    requires SortedBy(s, key)
    ensures FindFirst(InsertBy(s, x, key), q) ==
      if !q(x) then FindFirst(s, q)
      else if FindFirst(s, q).Some? && key(FindFirst(s, q).value) <= key(x) then FindFirst(s, q)
      else Some(x)
  {
    if s != [] {
      if key(x) < key(s[0]) {
        var r := FindFirst(s, q);
        if r.Some? {
          var i :| 0 <= i < |s| && s[i] == r.value;
          assert key(s[0]) <= key(s[i]);
        }
        assert ([x] + s)[1..] == s;
      } else {
        assert SortedBy(s[1..], key);
        FindFirstInsert(s[1..], x, key, q);
        assert ([s[0]] + InsertBy(s[1..], x, key))[1..] == InsertBy(s[1..], x, key);
      }
    }
  }

  /**
    `find` after the stable sort picks, among the elements satisfying `q`, the
    first one of least key: exactly what `min_by` picks from the filtered sequence.
  */
  lemma {:induction false} FindAfterSort<T>(s: seq<T>, key: T -> int, q: T -> bool)
    ensures FindFirst(SortBy(s, key), q) ==
      if Filter(s, q) == [] then None else Some(MinBy(Filter(s, q), key))
  {
    if s != [] {
      var p, x := s[..|s| - 1], s[|s| - 1];
      FindAfterSort(p, key, q);
      SortBySorted(p, key);
      FindFirstInsert(SortBy(p, key), x, key, q);
      var f := Filter(p, q);
      if q(x) && f != [] {
        assert (f + [x])[..|f|] == f;
      }
    }
  }

  /** Index k holds the first element of least key among those satisfying `q`. */
  predicate FirstMinWhere<T>(s: seq<T>, q: T -> bool, key: T -> int, k: int)
  {
    && 0 <= k < |s| && q(s[k])
    && (forall j :: 0 <= j < |s| && q(s[j]) ==> key(s[k]) <= key(s[j]))
    && (forall j :: 0 <= j < k && q(s[j]) ==> key(s[k]) < key(s[j]))
  }

  /**
    `min_by` after `filter`: the element chosen is the first one of least key among
    the elements satisfying `q`, located in the unfiltered sequence.
  */
  lemma {:induction false} MinOfFilter<T>(s: seq<T>, q: T -> bool, key: T -> int) returns (k: nat)
    requires Filter(s, q) != []
    ensures FirstMinWhere(s, q, key, k) && s[k] == MinBy(Filter(s, q), key)
  {
    var p := s[..|s| - 1];
    if Filter(p, q) == [] {
      MinOfFilterFirst(s, q, key);
      k := |s| - 1;
    } else {
      var k0 := MinOfFilter(p, q, key);
      assert s[k0] == p[k0];
      if q(s[|s| - 1]) {
        k := MinOfFilterTaken(s, q, key, k0);
      } else {
        MinOfFilterSkipped(s, q, key, k0);
        k := k0;
      }
    }
  }

  /** The first element satisfying `q` is the choice when no earlier element does. */
  lemma MinOfFilterFirst<T>(s: seq<T>, q: T -> bool, key: T -> int)
    requires Filter(s, q) != [] && Filter(s[..|s| - 1], q) == []
    ensures FirstMinWhere(s, q, key, |s| - 1) && s[|s| - 1] == MinBy(Filter(s, q), key)
  {
    var p := s[..|s| - 1];
    assert forall j :: 0 <= j < |p| ==> s[j] == p[j] && !q(p[j]);
    assert Filter(s, q) == [s[|s| - 1]];
    FirstMinAtEnd(s, q, key);
  }

  /** An appended element not satisfying `q` changes neither the filter nor the choice. */
  lemma MinOfFilterSkipped<T>(s: seq<T>, q: T -> bool, key: T -> int, k: nat)
    requires s != [] && !q(s[|s| - 1])
    requires Filter(s[..|s| - 1], q) != []
    requires FirstMinWhere(s[..|s| - 1], q, key, k) && s[k] == MinBy(Filter(s[..|s| - 1], q), key)
    ensures FirstMinWhere(s, q, key, k) && s[k] == MinBy(Filter(s, q), key)
  {
    assert Filter(s, q) == Filter(s[..|s| - 1], q);
    FirstMinExtends(s, q, key, k);
  }

  /** An appended element satisfying `q` replaces the choice exactly when its key is strictly smaller. */
  lemma MinOfFilterTaken<T>(s: seq<T>, q: T -> bool, key: T -> int, k: nat) returns (k': nat)
    requires s != [] && q(s[|s| - 1])
    requires Filter(s[..|s| - 1], q) != []
    requires FirstMinWhere(s[..|s| - 1], q, key, k) && s[k] == MinBy(Filter(s[..|s| - 1], q), key)
    ensures FirstMinWhere(s, q, key, k') && s[k'] == MinBy(Filter(s, q), key)
  {
    var p, x := s[..|s| - 1], s[|s| - 1];
    var f := Filter(p, q);
    assert Filter(s, q) == f + [x];
    assert (f + [x])[..|f|] == f;
    if key(x) < key(s[k]) {
      assert forall j :: 0 <= j < |p| ==> s[j] == p[j];
      FirstMinAtEnd(s, q, key);
      k' := |s| - 1;
    } else {
      FirstMinExtends(s, q, key, k);
      k' := k;
    }
  }

  /** Appending an element that does not beat the choice keeps the choice. */
  lemma FirstMinExtends<T>(s: seq<T>, q: T -> bool, key: T -> int, k: nat)
    requires s != [] && FirstMinWhere(s[..|s| - 1], q, key, k)
    requires q(s[|s| - 1]) ==> key(s[k]) <= key(s[|s| - 1])
    ensures FirstMinWhere(s, q, key, k)
  {
    assert forall j :: 0 <= j < |s| - 1 ==> s[j] == s[..|s| - 1][j];
  }

  /** An appended element that beats every earlier one satisfying `q` becomes the choice. */
  lemma FirstMinAtEnd<T>(s: seq<T>, q: T -> bool, key: T -> int)
    requires s != [] && q(s[|s| - 1])
    requires forall j :: 0 <= j < |s| - 1 && q(s[j]) ==> key(s[|s| - 1]) < key(s[j])
    ensures FirstMinWhere(s, q, key, |s| - 1)
  {
  }

  /** `filter` with the same condition twice keeps what it kept the first time. */
  lemma {:induction false} FilterTwice<T>(s: seq<T>, q: T -> bool)
    ensures Filter(Filter(s, q), q) == Filter(s, q)
  {
    if s != [] {
      var p := s[..|s| - 1];
      FilterTwice(p, q);
      var f := Filter(p, q);
      if q(s[|s| - 1]) {
        assert (f + [s[|s| - 1]])[..|f|] == f;
      }
    }
  }

  /**
    What `find` returns after the stable sort: nothing exactly when no element
    satisfies `q`; otherwise an element satisfying `q` whose key is no greater than
    that of any other such element.
  */
  lemma FoundAfterSort<T>(s: seq<T>, key: T -> int, q: T -> bool)
    ensures var r := FindFirst(SortBy(s, key), q);
      && (r.None? <==> forall i :: 0 <= i < |s| ==> !q(s[i]))
      && (r.Some? ==> r.value in s && q(r.value))
      && (r.Some? ==> forall i :: 0 <= i < |s| && q(s[i]) ==> key(r.value) <= key(s[i]))
  {
    FindAfterSort(s, key, q);
    var won := Filter(s, q);
    if won != [] {
      var k := FirstMinIndex(won, key);
      forall i | 0 <= i < |s| && q(s[i]) ensures key(won[k]) <= key(s[i]) {
        assert s[i] in won;
      }
    }
  }

  /** A single element is kept exactly when it satisfies `q`. */
  lemma FilterSingle<T>(x: T, q: T -> bool)
    ensures Filter([x], q) == if q(x) then [x] else []
  {
    assert [x][..0] == [];
  }

  /**
    Filtering keeps the order and the repeats of the kept elements: filtering a
    concatenation is concatenating the filtered parts.
  */
  lemma {:induction false} FilterAppend<T>(s: seq<T>, t: seq<T>, q: T -> bool)
    ensures Filter(s + t, q) == Filter(s, q) + Filter(t, q)
  {
    if t == [] {
      assert s + t == s;
    } else {
      var u := s + t;
      var t' := t[..|t| - 1];
      assert u[..|u| - 1] == s + t';
      assert u[|u| - 1] == t[|t| - 1];
      FilterAppend(s, t', q);
    }
  }
}
