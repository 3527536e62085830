// Sets read in order, and stable sorting.
module Ordering {

  // ---- A set in order, as a B-tree's keys are read --------------------

  ghost predicate StrictTotal<T(!new)>(lt: (T, T) -> bool) {
    && (forall a :: !lt(a, a))
    && (forall a, b :: a != b ==> lt(a, b) || lt(b, a))
    && (forall a, b, c :: lt(a, b) && lt(b, c) ==> lt(a, c))
  }

  predicate First<T(==)>(s: set<T>, lt: (T, T) -> bool, m: T) {
    m in s && forall k :: k in s && k != m ==> lt(m, k)
  }

  lemma {:induction false} FirstExists<T(!new)>(s: set<T>, lt: (T, T) -> bool)
    requires StrictTotal(lt) && s != {}
    ensures exists m :: First(s, lt, m)
  {
    var x :| x in s;
    var rest := s - {x};
    if rest == {} {
      assert s == {x};
      assert First(s, lt, x);
    } else {
      FirstExists(rest, lt);
      var m :| First(rest, lt, m);
      assert forall k :: k in s ==> k == x || k in rest;
      assert First(s, lt, if lt(x, m) then x else m);
    }
  }

  function InOrder<T(!new, ==)>(s: set<T>, lt: (T, T) -> bool): (r: seq<T>)
    requires StrictTotal(lt)
  {
    if s == {} then []
    else
      FirstExists(s, lt);
      var m :| First(s, lt, m);
      [m] + InOrder(s - {m}, lt)
  }

  lemma {:induction false} InOrderHasAll<T(!new)>(s: set<T>, lt: (T, T) -> bool)
    requires StrictTotal(lt)
    ensures |InOrder(s, lt)| == |s|
    ensures forall k :: k in InOrder(s, lt) <==> k in s
  {
    if s != {} {
      FirstExists(s, lt);
      var m :| First(s, lt, m);
      InOrderHasAll(s - {m}, lt);
      assert InOrder(s, lt) == [m] + InOrder(s - {m}, lt);
    }
  }

  lemma {:induction false} InOrderIsSorted<T(!new)>(s: set<T>, lt: (T, T) -> bool, i: nat, j: nat)
    requires StrictTotal(lt)
    requires i < j < |InOrder(s, lt)|
    ensures lt(InOrder(s, lt)[i], InOrder(s, lt)[j])
  {
    FirstExists(s, lt);
    var m :| First(s, lt, m);
    var rest := InOrder(s - {m}, lt);
    assert InOrder(s, lt) == [m] + rest;
    InOrderHasAll(s - {m}, lt);
    if i == 0 {
      assert rest[j - 1] in rest;
    } else {
      InOrderIsSorted(s - {m}, lt, i - 1, j - 1);
    }
  }

  // ---- Stable sorting -------------------------------------------------

  ghost predicate TotalPreorder<T(!new)>(le: (T, T) -> bool) {
    && (forall a, b :: le(a, b) || le(b, a))
    && (forall a, b, c :: le(a, b) && le(b, c) ==> le(a, c))
  }

  // Into a sorted list, after everything no greater.
  function Insert<T>(x: T, s: seq<T>, le: (T, T) -> bool): seq<T> {
    if s != [] && le(s[0], x) then [s[0]] + Insert(x, s[1..], le) else [x] + s
  }

  function Sort<T>(s: seq<T>, le: (T, T) -> bool): seq<T> {
    if s == [] then [] else Insert(s[|s| - 1], Sort(s[..|s| - 1], le), le)
  }

  predicate Sorted<T>(s: seq<T>, le: (T, T) -> bool) {
    forall i, j :: 0 <= i < j < |s| ==> le(s[i], s[j])
  }

  lemma {:induction false} InsertKeeps<T>(x: T, s: seq<T>, le: (T, T) -> bool)
    ensures multiset(Insert(x, s, le)) == multiset{x} + multiset(s)
  {
    if s != [] && le(s[0], x) {
      InsertKeeps(x, s[1..], le);
      assert s == [s[0]] + s[1..];
    }
  }

  lemma {:induction false} InsertSorts<T(!new)>(x: T, s: seq<T>, le: (T, T) -> bool)
    requires TotalPreorder(le) && Sorted(s, le)
    ensures Sorted(Insert(x, s, le), le)
  {
    if s != [] && le(s[0], x) {
      InsertSorts(x, s[1..], le);
      var rest := Insert(x, s[1..], le);
      InsertKeeps(x, s[1..], le);
      forall j | 0 <= j < |rest| ensures le(s[0], rest[j]) {
        assert rest[j] in multiset(rest);
        assert rest[j] == x || rest[j] in s[1..];
      }
    }
  }

  // Sorting loses and adds nothing, and leaves the list in order.
  lemma {:induction false} SortSorts<T(!new)>(s: seq<T>, le: (T, T) -> bool)
    requires TotalPreorder(le)
    ensures Sorted(Sort(s, le), le) && multiset(Sort(s, le)) == multiset(s)
    ensures |Sort(s, le)| == |s|
  {
    if s != [] {
      var n := |s| - 1;
      SortSorts(s[..n], le);
      InsertSorts(s[n], Sort(s[..n], le), le);
      InsertKeeps(s[n], Sort(s[..n], le), le);
      assert s == s[..n] + [s[n]];
      assert |multiset(Sort(s, le))| == |multiset(s)|;
    }
  }

  function One<T>(x: T, f: T -> bool): seq<T> { if f(x) then [x] else [] }

  function Only<T>(s: seq<T>, f: T -> bool): seq<T> {
    if s == [] then [] else One(s[0], f) + Only(s[1..], f)
  }

  lemma {:induction false} OnlyOfAppend<T>(a: seq<T>, b: seq<T>, f: T -> bool)
    ensures Only(a + b, f) == Only(a, f) + Only(b, f)
  {
    hide One;
    if a == [] {
      assert a + b == b && Only(a, f) == [];
    } else {
      OnlyOfAppend(a[1..], b, f);
      assert (a + b)[1..] == a[1..] + b;
      Regroup(One(a[0], f), Only(a[1..], f), Only(b, f));
    }
  }

  lemma Regroup<T>(a: seq<T>, b: seq<T>, c: seq<T>)
    ensures a + (b + c) == a + b + c
  {
  }

  lemma {:induction false} InsertAfterEquals<T(!new)>(x: T, s: seq<T>, le: (T, T) -> bool, f: T -> bool)
    requires TotalPreorder(le) && Sorted(s, le)
    requires forall a, b :: f(a) && f(b) ==> le(a, b)
    ensures Only(Insert(x, s, le), f) == Only(s, f) + One(x, f)
  {
    if s != [] && le(s[0], x) {
      InsertAfterEquals(x, s[1..], le, f);
      hide One;
      assert ([s[0]] + Insert(x, s[1..], le))[1..] == Insert(x, s[1..], le);
      Regroup(One(s[0], f), Only(s[1..], f), One(x, f));
    } else {
      assert ([x] + s)[1..] == s;
      if f(x) {
        NoneAfter(x, s, le, f);
      }
    }
  }

  lemma {:induction false} NoneAfter<T(!new)>(x: T, s: seq<T>, le: (T, T) -> bool, f: T -> bool)
    requires TotalPreorder(le) && Sorted(s, le) && (s != [] ==> !le(s[0], x))
    requires forall a, b :: f(a) && f(b) ==> le(a, b)
    requires f(x)
    ensures Only(s, f) == []
  {
    if s != [] {
      if |s| > 1 {
        assert le(s[0], s[1]);
      }
      NoneAfter(x, s[1..], le, f);
    }
  }

  // What sorts as one stays in the order it was given.
  lemma {:induction false} SortIsStable<T(!new)>(s: seq<T>, le: (T, T) -> bool, f: T -> bool)
    requires TotalPreorder(le)
    requires forall a, b :: f(a) && f(b) ==> le(a, b)
    ensures Only(Sort(s, le), f) == Only(s, f)
  {
    if s != [] {
      var n := |s| - 1;
      SortIsStable(s[..n], le, f);
      SortSorts(s[..n], le);
      InsertAfterEquals(s[n], Sort(s[..n], le), le, f);
      OnlyOfAppend(s[..n], [s[n]], f);
      assert s == s[..n] + [s[n]] && [s[n]][1..] == [];
    }
  }

  // ---- Totals ---------------------------------------------------------

  function Sum<T>(s: seq<T>, f: T -> real): real {
    if s == [] then 0.0 else Sum(s[..|s| - 1], f) + f(s[|s| - 1])
  }

  lemma {:induction false} SumOfAppend<T>(a: seq<T>, b: seq<T>, f: T -> real)
    ensures Sum(a + b, f) == Sum(a, f) + Sum(b, f)
  {
    if b == [] {
      assert a + b == a;
    } else {
      var n := |b| - 1;
      SumOfAppend(a, b[..n], f);
      assert (a + b)[..|a + b| - 1] == a + b[..n];
    }
  }

  lemma {:induction false} SumOfInsert<T>(x: T, s: seq<T>, le: (T, T) -> bool, f: T -> real)
    ensures Sum(Insert(x, s, le), f) == f(x) + Sum(s, f)
  {
    if s != [] && le(s[0], x) {
      SumOfInsert(x, s[1..], le, f);
      SumOfAppend([s[0]], Insert(x, s[1..], le), f);
      SumOfAppend([s[0]], s[1..], f);
      assert s == [s[0]] + s[1..];
    } else {
      SumOfAppend([x], s, f);
    }
  }

  // A total is the same however the list is sorted.
  lemma {:induction false} SumOfSort<T>(s: seq<T>, le: (T, T) -> bool, f: T -> real)
    ensures Sum(Sort(s, le), f) == Sum(s, f)
  {
    if s != [] {
      SumOfSort(s[..|s| - 1], le, f);
      SumOfInsert(s[|s| - 1], Sort(s[..|s| - 1], le), le, f);
    }
  }
}
