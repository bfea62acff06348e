/** A stable sort, and why it may be done before or after a filter. */
module StableSort {
  /** Every two elements are in order, and order carries over. */
  ghost predicate TotalPreorder<T(!new)>(leq: (T, T) -> bool) {
    && (forall a: T, b: T :: leq(a, b) || leq(b, a))
    && (forall a: T, b: T, c: T :: leq(a, b) && leq(b, c) ==> leq(a, c))
  }

  function Keep<T>(s: seq<T>, test: T -> bool): (r: seq<T>)
    ensures |r| <= |s| && forall e :: e in r ==> e in s && test(e)
  {
    if s == [] then [] else (if test(s[0]) then [s[0]] else []) + Keep(s[1..], test)
  }

  /** Puts x before the elements it does not exceed. */
  function Insert<T>(x: T, s: seq<T>, leq: (T, T) -> bool): (r: seq<T>)
    ensures multiset(r) == multiset(s) + multiset{x}
  {
    if s == [] then [x]
    else if leq(x, s[0]) then [x] + s
    else
      var r := [s[0]] + Insert(x, s[1..], leq);
      assert s == [s[0]] + s[1..];
      r
  }

  function Sorted<T>(s: seq<T>, leq: (T, T) -> bool): (r: seq<T>)
    ensures multiset(r) == multiset(s)
  {
    if s == [] then []
    else
      assert s == [s[0]] + s[1..];
      Insert(s[0], Sorted(s[1..], leq), leq)
  }

  ghost predicate InOrder<T>(s: seq<T>, leq: (T, T) -> bool) {
    forall i, j :: 0 <= i < j < |s| ==> leq(s[i], s[j])
  }

  lemma {:induction false} InsertInOrder<T(!new)>(x: T, s: seq<T>, leq: (T, T) -> bool)
    requires TotalPreorder(leq) && InOrder(s, leq)
    ensures InOrder(Insert(x, s, leq), leq)
  {
    if s != [] {
      assert forall i :: 0 < i < |s| ==> leq(s[0], s[i]);
      if !leq(x, s[0]) {
        InsertInOrder(x, s[1..], leq);
        var rest := Insert(x, s[1..], leq);
        forall j | 0 <= j < |rest| ensures leq(s[0], rest[j]) {
          assert rest[j] in multiset(rest);
          assert rest[j] in s[1..] || rest[j] == x;
        }
      }
    }
  }

  lemma {:induction false} SortedInOrder<T(!new)>(s: seq<T>, leq: (T, T) -> bool)
    requires TotalPreorder(leq)
    ensures InOrder(Sorted(s, leq), leq)
  {
    if s != [] {
      SortedInOrder(s[1..], leq);
      InsertInOrder(s[0], Sorted(s[1..], leq), leq);
    }
  }

  lemma KeepCons<T(!new)>(x: T, s: seq<T>, test: T -> bool)
    ensures Keep([x] + s, test) == (if test(x) then [x] else []) + Keep(s, test)
  {
    assert ([x] + s)[1..] == s;
  }

  lemma InsertFront<T(!new)>(x: T, s: seq<T>, leq: (T, T) -> bool)
    requires s == [] || leq(x, s[0])
    ensures Insert(x, s, leq) == [x] + s
  {
  }

  lemma InsertLater<T(!new)>(x: T, y: T, s: seq<T>, leq: (T, T) -> bool)
    requires !leq(x, y)
    ensures Insert(x, [y] + s, leq) == [y] + Insert(x, s, leq)
  {
    assert ([y] + s)[1..] == s;
  }

  lemma {:induction false} KeepInsert<T(!new)>(x: T, s: seq<T>, leq: (T, T) -> bool, test: T -> bool)
    requires TotalPreorder(leq) && InOrder(s, leq)
    ensures Keep(Insert(x, s, leq), test) == if test(x) then Insert(x, Keep(s, test), leq) else Keep(s, test)
  {
    hide Insert, Keep, TotalPreorder;
    if s == [] || leq(x, s[0]) {
      InsertFront(x, s, leq);
      KeepCons(x, s, test);
      FrontKept(x, s, leq, test);
    } else {
      assert s == [s[0]] + s[1..];
      InsertLater(x, s[0], s[1..], leq);
      KeepCons(s[0], Insert(x, s[1..], leq), test);
      KeepCons(s[0], s[1..], test);
      KeepInsert(x, s[1..], leq, test);
      if test(s[0]) {
        InsertLater(x, s[0], Keep(s[1..], test), leq);
      } else {
        assert [] + Keep(s[1..], test) == Keep(s[1..], test);
        assert [] + Keep(Insert(x, s[1..], leq), test) == Keep(Insert(x, s[1..], leq), test);
      }
    }
  }

  lemma FrontKept<T(!new)>(x: T, s: seq<T>, leq: (T, T) -> bool, test: T -> bool)
    requires TotalPreorder(leq) && InOrder(s, leq) && (s == [] || leq(x, s[0]))
    ensures Insert(x, Keep(s, test), leq) == [x] + Keep(s, test)
  {
    hide Insert, Keep;
    var kept := Keep(s, test);
    if kept != [] {
      assert kept[0] in kept;
      var i :| 0 <= i < |s| && s[i] == kept[0];
      assert leq(x, s[0]) && (i == 0 || leq(s[0], s[i]));
    }
    InsertFront(x, kept, leq);
  }

  /** Sorting and then filtering is the same as filtering and then sorting. */
  lemma {:induction false} SortFilter<T(!new)>(s: seq<T>, leq: (T, T) -> bool, test: T -> bool)
    requires TotalPreorder(leq)
    ensures Keep(Sorted(s, leq), test) == Sorted(Keep(s, test), leq)
  {
    hide Insert, TotalPreorder;
    if s != [] {
      var rest := s[1..];
      SortFilter(rest, leq, test);
      SortedInOrder(rest, leq);
      KeepInsert(s[0], Sorted(rest, leq), leq, test);
      if test(s[0]) {
        SortedCons(s[0], Keep(rest, test), leq);
      } else {
        assert [] + Keep(rest, test) == Keep(rest, test);
      }
    }
  }

  lemma SortedCons<T(!new)>(x: T, s: seq<T>, leq: (T, T) -> bool)
    ensures Sorted([x] + s, leq) == Insert(x, Sorted(s, leq), leq)
  {
    hide Insert;
    assert ([x] + s)[1..] == s;
  }

  /** What is in order already is left as it is. */
  lemma {:induction false} SortedAlready<T(!new)>(s: seq<T>, leq: (T, T) -> bool)
    requires InOrder(s, leq)
    ensures Sorted(s, leq) == s
  {
    if s != [] {
      SortedAlready(s[1..], leq);
      assert s == [s[0]] + s[1..];
    }
  }

  /** The elements that are as good as v. */
  function Ties<T>(leq: (T, T) -> bool, v: T): T -> bool { e => leq(e, v) && leq(v, e) }

  /** Elements that are as good as v stay in their order. */
  lemma SortStable<T(!new)>(s: seq<T>, leq: (T, T) -> bool, v: T)
    requires TotalPreorder(leq)
    ensures Keep(Sorted(s, leq), Ties(leq, v)) == Keep(s, Ties(leq, v))
  {
    SortFilter(s, leq, Ties(leq, v));
    var kept := Keep(s, Ties(leq, v));
    forall i, j | 0 <= i < j < |kept| ensures leq(kept[i], kept[j]) {
      assert kept[i] in kept && kept[j] in kept;
    }
    SortedAlready(kept, leq);
  }
}
