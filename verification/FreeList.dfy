/** Where new pages come from: pages freed in this transaction, then the on-disk chain, then the end of the file. */
module FreeList {
  import opened Values

  /**
   newFree is kept in ascending order and used from its end; the on-disk chain starts at `first`,
   has `len` pages and continues in `next`; `total` is the number of pages of the file.
   */
  datatype FreeState = FreeState(newFree: seq<nat>, first: nat, len: nat, next: map<nat, nat>, total: nat)

  function NextOf(next: map<nat, nat>, p: nat): nat {
    if p in next then next[p] else 0
  }

  /** One allocation. */
  function Take(f: FreeState): (nat, FreeState) {
    if f.newFree != [] then
      (f.newFree[|f.newFree| - 1], f.(newFree := f.newFree[..|f.newFree| - 1]))
    else if f.len == 0 then
      (f.total, f.(total := f.total + 1))
    else
      (f.first, f.(first := NextOf(f.next, f.first), len := f.len - 1))
  }

  /** The pages of the next n allocations. */
  function TakeN(f: FreeState, n: nat): (a: seq<nat>)
    ensures |a| == n
    decreases n
  {
    if n == 0 then [] else [Take(f).0] + TakeN(Take(f).1, n - 1)
  }

  function After(f: FreeState, n: nat): FreeState
    decreases n
  {
    if n == 0 then f else After(Take(f).1, n - 1)
  }

  /** The pages of the on-disk chain. */
  function ChainOf(first: nat, len: nat, next: map<nat, nat>): (c: seq<nat>)
    ensures |c| == len
    decreases len
  {
    if len == 0 then [] else [first] + ChainOf(NextOf(next, first), len - 1, next)
  }

  /** Where the pointer after the last page of the chain leads. */
  function ChainEnd(first: nat, len: nat, next: map<nat, nat>): nat
    decreases len
  {
    if len == 0 then first else ChainEnd(NextOf(next, first), len - 1, next)
  }

  ghost predicate Ascending(s: seq<nat>) {
    forall i, j :: 0 <= i < j < |s| ==> s[i] < s[j]
  }

  ghost function FreeChain(f: FreeState): seq<nat> { ChainOf(f.first, f.len, f.next) }

  /** All pages that are free. */
  ghost function Spare(f: FreeState): set<nat> {
    Members(f.newFree) + Members(FreeChain(f))
  }

  /** No page is free twice, the chain is acyclic and ends at 0, and free pages lie inside the file past the header. */
  ghost predicate FreeOk(f: FreeState) {
    && 0 < f.total
    && Ascending(f.newFree) && NoDup(FreeChain(f))
    && Members(f.newFree) !! Members(FreeChain(f))
    && ChainEnd(f.first, f.len, f.next) == 0
    && forall p :: p in Spare(f) ==> 0 < p < f.total
  }

  /** All pages up to total. */
  ghost function Upto(total: nat): (s: set<nat>)
    ensures forall p: nat :: p in s <==> p < total
  {
    if total == 0 then {} else Upto(total - 1) + {total - 1}
  }

  ghost predicate TakeKeeps(f: FreeState, p: nat, g: FreeState) {
    && FreeOk(g) && f.total <= g.total && 0 < p < g.total
    && (p in Spare(f) || p == f.total) && p !in Spare(g)
    && Spare(g) + {p} == Spare(f) + (Upto(g.total) - Upto(f.total))
  }

  lemma TakeOk(f: FreeState)
    requires FreeOk(f)
    ensures TakeKeeps(f, Take(f).0, Take(f).1)
  {
    if f.newFree != [] {
      TakeNewFree(f);
    } else if f.len == 0 {
      assert Spare(f) == {} && Spare(Take(f).1) == {};
    } else {
      TakeChain(f);
    }
  }

  lemma TakeNewFree(f: FreeState)
    requires FreeOk(f) && f.newFree != []
    ensures TakeKeeps(f, Take(f).0, Take(f).1)
  {
    var (p, g) := Take(f);
    var n := |f.newFree| - 1;
    assert f.newFree == f.newFree[..n] + [p];
    assert Members(f.newFree) == Members(g.newFree) + {p};
    assert forall i :: 0 <= i < n ==> f.newFree[i] < p;
    assert p !in Members(g.newFree);
    assert FreeChain(g) == FreeChain(f);
    assert p in Members(f.newFree);
    SpareStep(f, p, g);
  }

  lemma SpareStep(f: FreeState, p: nat, g: FreeState)
    requires FreeOk(f) && p in Spare(f) && f.total == g.total && Spare(g) + {p} == Spare(f)
    ensures 0 < p < f.total
    ensures forall q :: q in Spare(g) ==> 0 < q < g.total
  {
    forall q | q in Spare(g) ensures 0 < q < g.total {
      assert q in Spare(f);
    }
  }

  lemma TakeChain(f: FreeState)
    requires FreeOk(f) && f.newFree == [] && 0 < f.len
    ensures TakeKeeps(f, Take(f).0, Take(f).1)
  {
    var (p, g) := Take(f);
    var c := FreeChain(f);
    assert c == [p] + FreeChain(g);
    assert c[0] == p && p in c;
    assert Members(c) == {p} + Members(FreeChain(g));
    assert forall i :: 0 <= i < |FreeChain(g)| ==> c[i + 1] == FreeChain(g)[i];
    assert p !in FreeChain(g);
    assert Members(f.newFree) == {} && Members(g.newFree) == {};
    assert NoDup(FreeChain(g));
    SpareStep(f, p, g);
  }

  /** n allocations give n different pages that were free or lie past the old end of the file, and nothing is lost. */
  lemma {:induction false} TakeNOk(f: FreeState, n: nat)
    requires FreeOk(f)
    ensures var a := TakeN(f, n); var g := After(f, n);
            && NoDup(a) && FreeOk(g) && f.total <= g.total
            && Members(a) !! Spare(g)
            && (forall p :: p in a ==> 0 < p < g.total && (p in Spare(f) || f.total <= p))
            && Spare(g) + Members(a) == Spare(f) + (Upto(g.total) - Upto(f.total))
    decreases n
  {
    if n > 0 {
      TakeOk(f);
      TakeNOk(Take(f).1, n - 1);
      TakeNStep(f, n);
    }
  }

  lemma TakeNStep(f: FreeState, n: nat)
    requires 0 < n && FreeOk(f)
    requires TakeKeeps(f, Take(f).0, Take(f).1)
    requires var e := Take(f).1; var a := TakeN(e, n - 1); var g := After(e, n - 1);
             && NoDup(a) && e.total <= g.total && Members(a) !! Spare(g)
             && (forall p :: p in a ==> 0 < p < g.total && (p in Spare(e) || e.total <= p))
             && Spare(g) + Members(a) == Spare(e) + (Upto(g.total) - Upto(e.total))
    ensures var a := TakeN(f, n); var g := After(f, n);
            && NoDup(a) && Members(a) !! Spare(g)
            && (forall p :: p in a ==> 0 < p < g.total && (p in Spare(f) || f.total <= p))
            && Spare(g) + Members(a) == Spare(f) + (Upto(g.total) - Upto(f.total))
  {
    hide Take, NoDup;
    var (p, e) := Take(f);
    var b, g := TakeN(e, n - 1), After(e, n - 1);
    assert TakeN(f, n) == [p] + b && After(f, n) == g;
    MembersCons(p, b);
    assert p !in Members(b);
    assert Spare(g) + ({p} + Members(b)) == Spare(e) + {p} + (Upto(g.total) - Upto(e.total));
  }

  lemma MembersCons(p: nat, b: seq<nat>)
    ensures Members([p] + b) == {p} + Members(b)
    ensures NoDup(b) && p !in Members(b) ==> NoDup([p] + b)
  {
    var a := [p] + b;
    assert forall i :: 0 < i < |a| ==> a[i] == b[i - 1] && a[i] in Members(b);
    assert forall q :: q in a <==> q == p || q in b;
  }

  lemma {:induction false} AfterAdd(f: FreeState, a: nat, b: nat)
    ensures After(After(f, a), b) == After(f, a + b)
    ensures TakeN(f, a + b) == TakeN(f, a) + TakeN(After(f, a), b)
    decreases a
  {
    if a > 0 {
      AfterAdd(Take(f).1, a - 1, b);
    }
  }

  /** The i-th allocation, seen from the start and from where it happens. */
  lemma {:induction false} TakeNth(f: FreeState, i: nat, n: nat)
    requires i < n
    ensures TakeN(f, n)[i] == Take(After(f, i)).0
    ensures After(f, i + 1) == Take(After(f, i)).1
    decreases i
  {
    if i > 0 {
      TakeNth(Take(f).1, i - 1, n - 1);
    }
  }

  lemma NextPage(f: FreeState, alloc: seq<nat>, i: nat)
    requires i < |alloc| && alloc == TakeN(f, |alloc|)
    ensures Take(After(f, i)) == (alloc[i], After(f, i + 1))
  {
    TakeNth(f, i, |alloc|);
  }

  // ---------------------------------------------------------------- freeing a page

  /** The list with p added in its place, as pushing and sorting leaves it. */
  function AddSorted(s: seq<nat>, p: nat): seq<nat> {
    if s == [] || p < s[0] then [p] + s else [s[0]] + AddSorted(s[1..], p)
  }

  lemma {:induction false} AddSortedOk(s: seq<nat>, p: nat)
    requires Ascending(s) && p !in s
    ensures Ascending(AddSorted(s, p)) && Members(AddSorted(s, p)) == Members(s) + {p}
    decreases s
  {
    hide NoDup;
    if s != [] && p > s[0] {
      AddSortedOk(s[1..], p);
      var u := AddSorted(s[1..], p);
      forall i | 0 <= i < |u| ensures s[0] < u[i] {
        assert u[i] in Members(u);
      }
      AscendingCons(s[0], u);
      MembersCons(s[0], u);
      MembersCons(s[0], s[1..]);
      assert s == [s[0]] + s[1..];
    } else {
      AscendingCons(p, s);
      MembersCons(p, s);
    }
  }

  lemma AscendingCons(p: nat, s: seq<nat>)
    requires Ascending(s) && forall i :: 0 <= i < |s| ==> p < s[i]
    ensures Ascending([p] + s)
  {
  }

  function Release(f: FreeState, p: nat): FreeState { f.(newFree := AddSorted(f.newFree, p)) }

  lemma ReleaseOk(f: FreeState, p: nat)
    requires FreeOk(f) && p !in Spare(f) && 0 < p < f.total
    ensures FreeOk(Release(f, p)) && Spare(Release(f, p)) == Spare(f) + {p}
  {
    AddSortedOk(f.newFree, p);
  }

  // ---------------------------------------------------------------- committing the freed pages

  /** The next pointers once the first i freed pages have been written. */
  function Threaded(f: FreeState, i: nat): map<nat, nat>
    requires i <= |f.newFree|
  {
    if i == 0 then f.next
    else
      var p := f.newFree[i - 1];
      Threaded(f, i - 1)[p := if i < |f.newFree| then f.newFree[i] else if f.len != 0 then f.first else 0]
  }

  /** The committed chain: the freed pages in order, then the old chain. */
  function Committed(f: FreeState): FreeState {
    if f.newFree == [] then f
    else FreeState([], f.newFree[0], f.len + |f.newFree|, Threaded(f, |f.newFree|), f.total)
  }

  lemma {:induction false} ThreadedAt(f: FreeState, i: nat, p: nat)
    requires i <= |f.newFree| && NoDup(f.newFree)
    ensures p !in f.newFree ==> NextOf(Threaded(f, i), p) == NextOf(f.next, p)
    ensures forall j :: 0 <= j < i && f.newFree[j] == p ==>
              NextOf(Threaded(f, i), p) == (if j + 1 < |f.newFree| then f.newFree[j + 1] else if f.len != 0 then f.first else 0)
    decreases i
  {
    if i > 0 {
      ThreadedAt(f, i - 1, p);
    }
  }

  lemma {:induction false} OldChain(f: FreeState, first: nat, len: nat)
    requires NoDup(f.newFree)
    requires forall p :: p in ChainOf(first, len, f.next) ==> p !in f.newFree
    ensures ChainOf(first, len, Threaded(f, |f.newFree|)) == ChainOf(first, len, f.next)
    ensures ChainEnd(first, len, Threaded(f, |f.newFree|)) == ChainEnd(first, len, f.next)
    decreases len
  {
    if len > 0 {
      ThreadedAt(f, |f.newFree|, first);
      assert first in ChainOf(first, len, f.next);
      assert forall p :: p in ChainOf(NextOf(f.next, first), len - 1, f.next) ==> p in ChainOf(first, len, f.next);
      OldChain(f, NextOf(f.next, first), len - 1);
    }
  }

  lemma {:induction false} NewChain(f: FreeState, i: nat)
    requires FreeOk(f) && NoDup(f.newFree) && i < |f.newFree|
    ensures var next := Threaded(f, |f.newFree|); var n := |f.newFree| - i;
            && ChainOf(f.newFree[i], f.len + n, next) == f.newFree[i..] + FreeChain(f)
            && ChainEnd(f.newFree[i], f.len + n, next) == 0
    decreases |f.newFree| - i
  {
    var next := Threaded(f, |f.newFree|);
    ThreadedAt(f, |f.newFree|, f.newFree[i]);
    if i + 1 < |f.newFree| {
      NewChain(f, i + 1);
      assert f.newFree[i..] == [f.newFree[i]] + f.newFree[i + 1..];
    } else {
      assert forall p :: p in FreeChain(f) ==> p in Members(FreeChain(f));
      assert forall p :: p in f.newFree ==> p in Members(f.newFree);
      OldChain(f, f.first, f.len);
      assert f.newFree[i..] == [f.newFree[i]];
      if f.len == 0 {
        assert FreeChain(f) == [];
      }
    }
  }

  /** Committing keeps every free page, in a chain that is acyclic, ends at 0 and has the recorded length. */
  lemma CommittedOk(f: FreeState)
    requires FreeOk(f)
    ensures FreeOk(Committed(f)) && Spare(Committed(f)) == Spare(f)
    ensures FreeChain(Committed(f)) == f.newFree + FreeChain(f)
  {
    assert NoDup(f.newFree);
    if f.newFree != [] {
      NewChain(f, 0);
      assert f.newFree[0..] == f.newFree;
      var c, g := f.newFree + FreeChain(f), Committed(f);
      assert FreeChain(g) == c;
      assert Members(c) == Members(f.newFree) + Members(FreeChain(f));
      assert Members(g.newFree) == {};
      assert Spare(g) == Spare(f);
      NoDupAppend(f.newFree, FreeChain(f));
    } else {
      assert f.newFree + FreeChain(f) == FreeChain(f);
    }
  }

  lemma NoDupAppend(a: seq<nat>, b: seq<nat>)
    requires NoDup(a) && NoDup(b) && Members(a) !! Members(b)
    ensures NoDup(a + b)
  {
    var c := a + b;
    forall i, j | 0 <= i < j < |c| ensures c[i] != c[j] {
      if i < |a| <= j {
        assert c[i] in Members(a) && c[j] in Members(b);
      }
    }
  }
}
