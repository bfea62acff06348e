/** Sorted runs of (key, record) cells: the contents of one B-tree node, and of a whole tree. */
module Cells {
  import opened Values

  datatype Cell = Cell(key: int, val: Record)

  /** What the binary search inside a node reports. */
  datatype SearchResult = Equal(idx: nat) | LessThan(idx: nat) | Right

  ghost predicate Sorted(s: seq<Cell>) {
    forall i, j :: 0 <= i < j < |s| ==> s[i].key < s[j].key
  }

  /** Every key in s is below k. */
  ghost predicate Below(s: seq<Cell>, k: int) {
    forall i :: 0 <= i < |s| ==> s[i].key < k
  }

  ghost predicate Has(s: seq<Cell>, k: int) {
    exists i :: 0 <= i < |s| && s[i].key == k
  }

  /** The number of leading cells whose key is below k. */
  function Rank(s: seq<Cell>, k: int): (r: nat)
    ensures r <= |s|
    ensures forall i :: 0 <= i < r ==> s[i].key < k
    ensures r < |s| ==> k <= s[r].key
  {
    if s == [] || k <= s[0].key then 0 else 1 + Rank(s[1..], k)
  }

  function InsertCell(s: seq<Cell>, k: int, v: Record): seq<Cell> {
    var r := Rank(s, k);
    s[..r] + [Cell(k, v)] + s[r..]
  }

  function RemoveCell(s: seq<Cell>, k: int): seq<Cell> {
    var r := Rank(s, k);
    if r < |s| then s[..r] + s[r + 1..] else s
  }

  /** The key/record map a sorted run of cells stands for. */
  ghost function AsMap(s: seq<Cell>): map<int, Record>
    requires Sorted(s)
  {
    map i | 0 <= i < |s| :: s[i].key := s[i].val
  }

  /** What the source's search returns, stated by rank. */
  function Search(s: seq<Cell>, k: int): SearchResult {
    var r := Rank(s, k);
    if s == [] then LessThan(0)
    else if r == |s| then Right
    else if s[r].key == k then Equal(r)
    else LessThan(r)
  }

  lemma RankIs(s: seq<Cell>, k: int, r: nat)
    requires r <= |s|
    requires forall i :: 0 <= i < r ==> s[i].key < k
    requires r < |s| ==> k <= s[r].key
    ensures Rank(s, k) == r
  {
    var q := Rank(s, k);
    assert !(q < r) by {
      if q < r { assert false; }
    }
  }

  /** The answer of the search for a key whose rank is r. */
  lemma SearchIs(s: seq<Cell>, k: int, r: nat)
    requires r <= |s|
    requires forall i :: 0 <= i < r ==> s[i].key < k
    requires r < |s| ==> k <= s[r].key
    ensures Search(s, k) == (if s == [] then LessThan(0) else if r == |s| then Right else if s[r].key == k then Equal(r) else LessThan(r))
  {
    RankIs(s, k, r);
  }

  lemma PastLast(s: seq<Cell>)
    requires Sorted(s)
    ensures if s == [] then forall k :: Below(s, k) else Below(s, s[|s| - 1].key + 1)
  {
  }

  lemma HasRank(s: seq<Cell>, k: int)
    requires Sorted(s)
    ensures Has(s, k) <==> Rank(s, k) < |s| && s[Rank(s, k)].key == k
  {
    var r := Rank(s, k);
    if Has(s, k) {
      var i :| 0 <= i < |s| && s[i].key == k;
      assert r <= i;
    }
  }

  lemma InsertCellAt(s: seq<Cell>, k: int, v: Record, i: nat)
    requires i <= |s|
    ensures var t := InsertCell(s, k, v); var r := Rank(s, k);
            && |t| == |s| + 1
            && t[i] == if i < r then s[i] else if i == r then Cell(k, v) else s[i - 1]
  {
  }

  lemma RemoveCellAt(s: seq<Cell>, k: int, i: nat)
    requires Rank(s, k) < |s| && i + 1 < |s|
    ensures var t := RemoveCell(s, k);
            && |t| == |s| - 1
            && t[i] == if i < Rank(s, k) then s[i] else s[i + 1]
  {
  }

  lemma InsertCellSorted(s: seq<Cell>, k: int, v: Record)
    requires Sorted(s) && !Has(s, k)
    ensures Sorted(InsertCell(s, k, v))
  {
    var r := Rank(s, k);
    var t := InsertCell(s, k, v);
    assert r < |s| ==> s[r].key != k;
    forall i, j | 0 <= i < j < |t| ensures t[i].key < t[j].key {
      InsertCellAt(s, k, v, i);
      InsertCellAt(s, k, v, j);
    }
  }

  lemma RemoveCellSorted(s: seq<Cell>, k: int)
    requires Sorted(s)
    ensures Sorted(RemoveCell(s, k))
  {
    var t := RemoveCell(s, k);
    if Rank(s, k) < |s| {
      forall i, j | 0 <= i < j < |t| ensures t[i].key < t[j].key {
        RemoveCellAt(s, k, i);
        RemoveCellAt(s, k, j);
      }
    }
  }

  ghost predicate Binds(m: map<int, Record>, x: int, v: Record) {
    x in m && m[x] == v
  }

  lemma MapIn(s: seq<Cell>, x: int, v: Record)
    requires Sorted(s)
    ensures Cell(x, v) in s <==> Binds(AsMap(s), x, v)
  {
  }

  lemma InsertCellIn(s: seq<Cell>, k: int, v: Record, c: Cell)
    ensures c in InsertCell(s, k, v) <==> c in s || c == Cell(k, v)
  {
    var r := Rank(s, k);
    assert s == s[..r] + s[r..];
  }

  lemma RemoveCellIn(s: seq<Cell>, k: int, c: Cell)
    requires Sorted(s) && Has(s, k)
    ensures c in RemoveCell(s, k) <==> c in s && c.key != k
  {
    HasRank(s, k);
    var r := Rank(s, k);
    assert s == s[..r] + [s[r]] + s[r + 1..];
  }

  /** Inserting keeps the run sorted and adds exactly one binding. */
  lemma InsertCellMeaning(s: seq<Cell>, k: int, v: Record)
    requires Sorted(s) && !Has(s, k)
    ensures Sorted(InsertCell(s, k, v))
    ensures AsMap(InsertCell(s, k, v)) == AsMap(s)[k := v]
  {
    InsertCellSorted(s, k, v);
    var was, now := AsMap(s), AsMap(InsertCell(s, k, v));
    assert k !in was;
    forall x, w ensures Binds(now, x, w) <==> Binds(was[k := v], x, w) {
      MapIn(s, x, w);
      MapIn(InsertCell(s, k, v), x, w);
      InsertCellIn(s, k, v, Cell(x, w));
    }
    SameMap(now, was[k := v]);
  }

  /** Removing a present key keeps the run sorted and drops exactly that binding. */
  lemma RemoveCellMeaning(s: seq<Cell>, k: int)
    requires Sorted(s) && Has(s, k)
    ensures Sorted(RemoveCell(s, k))
    ensures AsMap(RemoveCell(s, k)) == AsMap(s) - {k}
  {
    RemoveCellSorted(s, k);
    var was, now := AsMap(s), AsMap(RemoveCell(s, k));
    forall x, w ensures Binds(now, x, w) <==> Binds(was - {k}, x, w) {
      MapIn(s, x, w);
      MapIn(RemoveCell(s, k), x, w);
      RemoveCellIn(s, k, Cell(x, w));
    }
    SameMap(now, was - {k});
  }

  lemma SameMap(a: map<int, Record>, b: map<int, Record>)
    requires forall x, w :: Binds(a, x, w) <==> Binds(b, x, w)
    ensures a == b
  {
    forall x | x in a ensures x in b && a[x] == b[x] {
      assert Binds(a, x, a[x]);
    }
    forall x | x in b ensures x in a {
      assert Binds(b, x, b[x]);
    }
  }

  lemma AsMapHas(s: seq<Cell>, k: int)
    requires Sorted(s)
    ensures k in AsMap(s) <==> Has(s, k)
    ensures Rank(s, k) < |s| && s[Rank(s, k)].key == k ==> k in AsMap(s) && AsMap(s)[k] == s[Rank(s, k)].val
  {
  }

  lemma RankInMiddle(a: seq<Cell>, b: seq<Cell>, c: seq<Cell>, k: int)
    requires Below(a, k)
    requires Rank(b, k) < |b| || c == []
    ensures Rank(a + b + c, k) == |a| + Rank(b, k)
  {
    var s := a + b + c;
    var r := |a| + Rank(b, k);
    forall i | 0 <= i < r ensures s[i].key < k {
      if i < |a| { assert s[i] == a[i]; } else { assert s[i] == b[i - |a|]; }
    }
    if r < |s| {
      assert s[r] == b[r - |a|];
    }
    RankIs(s, k, r);
  }

  lemma InsertInMiddle(a: seq<Cell>, b: seq<Cell>, c: seq<Cell>, k: int, v: Record)
    requires Below(a, k)
    requires Rank(b, k) < |b| || c == []
    ensures InsertCell(a + b + c, k, v) == a + InsertCell(b, k, v) + c
  {
    hide Rank, Below, Sorted;
    RankInMiddle(a, b, c, k);
    CutMiddle(a, b, c, Rank(b, k));
    Regroup5(a, b[..Rank(b, k)], [Cell(k, v)], b[Rank(b, k)..], c);
  }

  lemma Regroup5<T>(a: seq<T>, p: seq<T>, x: seq<T>, q: seq<T>, c: seq<T>)
    ensures (a + p) + x + (q + c) == a + (p + x + q) + c
  {
  }

  lemma RemoveAtRank(s: seq<Cell>, k: int)
    requires Rank(s, k) < |s|
    ensures RemoveCell(s, k) == s[..Rank(s, k)] + s[Rank(s, k) + 1..]
  {
  }

  lemma RemoveInMiddle(a: seq<Cell>, b: seq<Cell>, c: seq<Cell>, k: int)
    requires Below(a, k)
    requires Rank(b, k) < |b|
    ensures RemoveCell(a + b + c, k) == a + RemoveCell(b, k) + c
  {
    hide *;
    RankInMiddle(a, b, c, k);
    RemoveAtRank(a + b + c, k);
    RemoveAtRank(b, k);
    CutMiddle(a, b, c, Rank(b, k));
    CutMiddle(a, b, c, Rank(b, k) + 1);
    Regroup(a, b[..Rank(b, k)], b[Rank(b, k) + 1..], c);
  }

  lemma Regroup<T>(a: seq<T>, b: seq<T>, c: seq<T>, d: seq<T>)
    ensures (a + b) + (c + d) == a + (b + c) + d
  {
  }

  lemma CutMiddle<T>(a: seq<T>, b: seq<T>, c: seq<T>, r: nat)
    requires r <= |b|
    ensures (a + b + c)[..|a| + r] == a + b[..r]
    ensures (a + b + c)[|a| + r..] == b[r..] + c
  {
  }

  lemma SortedParts(a: seq<Cell>, b: seq<Cell>, c: seq<Cell>)
    requires Sorted(a + b + c)
    ensures Sorted(a) && Sorted(b) && Sorted(c)
    ensures forall i, j :: 0 <= i < |a| && 0 <= j < |b| ==> a[i].key < b[j].key
    ensures forall i, j :: 0 <= i < |b| && 0 <= j < |c| ==> b[i].key < c[j].key
  {
    var s := a + b + c;
    assert forall i :: 0 <= i < |a| ==> s[i] == a[i];
    assert forall i :: 0 <= i < |b| ==> s[|a| + i] == b[i];
    assert forall i :: 0 <= i < |c| ==> s[|a| + |b| + i] == c[i];
  }
}
