/** What the page cache holds, as values: cached pages, the file under them, and the content users see. */
module PageCache {
  import opened Values
  import opened RollbackJournal

  /** A cached page: its users, whether it still has to be written, whether nobody has filled it yet, its content. */
  datatype Slot = Slot(refcnt: nat, dirty: bool, empty: bool, data: Page)

  /**
   The cache and the file, the content of every page as users see it, the file as of the last commit, the pages
   announced as modified, and the pages handed out past the end and not yet announced.
   */
  datatype State = State(cache: map<nat, Slot>, db: seq<Page>, pages: seq<Page>, base: seq<Page>, modified: set<nat>,
                         unfilled: set<nat>)

  ghost function PinnedOf(cache: map<nat, Slot>): set<nat> {
    set p | p in cache && cache[p].refcnt > 0
  }

  /** The count of pinned pages is exact, a page of x being counted before its first user has it. */
  ghost predicate Counted(cache: map<nat, Slot>, n: nat, unfilled: set<nat>, x: set<nat>) {
    n == |PinnedOf(cache) + x| && x <= cache.Keys && unfilled <= PinnedOf(cache) + x
  }

  lemma CountUnfilled(cache: map<nat, Slot>, n: nat, unfilled: set<nat>, x: set<nat>, p: nat)
    requires Counted(cache, n, unfilled, x) && p in PinnedOf(cache) + x
    ensures Counted(cache, n, unfilled + {p}, x)
  {
  }

  lemma CountFewer(cache: map<nat, Slot>, n: nat, unfilled: set<nat>, p: nat)
    requires Counted(cache, n, unfilled, {})
    ensures Counted(cache, n, unfilled - {p}, {})
  {
  }

  lemma CountMore(cache: map<nat, Slot>, n: nat, unfilled: set<nat>, p: nat)
    requires Counted(cache, n, unfilled, {}) && p in cache && cache[p].refcnt == 0
    ensures Counted(cache, n + 1, unfilled, {p}) && p !in unfilled
  {
    assert PinnedOf(cache) + {} == PinnedOf(cache);
  }

  lemma CountLess(cache: map<nat, Slot>, n: nat, unfilled: set<nat>, p: nat)
    requires Counted(cache, n, unfilled, {p}) && p !in unfilled && cache[p].refcnt == 0
    ensures n > 0 && Counted(cache, n - 1, unfilled, {})
  {
    assert PinnedOf(cache) + {p} - {p} == PinnedOf(cache) + {};
  }

  /** The first user of a counted page, or one more of a page in use. */
  lemma CountUsers(cache: map<nat, Slot>, n: nat, unfilled: set<nat>, p: nat, k: nat)
    requires p in cache && Counted(cache, n, unfilled, if cache[p].refcnt == 0 then {p} else {})
    ensures Counted(cache[p := cache[p].(refcnt := k)], n, unfilled, if k == 0 then {p} else {})
  {
    var after := cache[p := cache[p].(refcnt := k)];
    assert PinnedOf(after) + (if k == 0 then {p} else {}) == PinnedOf(cache) + (if cache[p].refcnt == 0 then {p} else {});
  }

  /** A page brought into the cache, in a new slot or in that of an unpinned page, is counted. */
  lemma CountFetched(cache: map<nat, Slot>, n: nat, unfilled: set<nat>, kept: map<nat, Slot>, p: nat, x: Slot, u: set<nat>)
    requires Counted(cache, n, unfilled, {}) && p !in cache && x.refcnt == 0 && unfilled <= u <= unfilled + {p}
    requires kept == cache || exists v :: v in cache && cache[v].refcnt == 0 && kept == cache - {v}
    ensures Counted(kept[p := x], n + 1, u, {p})
  {
    assert PinnedOf(kept[p := x]) == PinnedOf(cache) + {};
  }

  /** Only the users of a page matter to the count. */
  lemma CountOther(cache: map<nat, Slot>, n: nat, unfilled: set<nat>, p: nat, x: Slot, q: set<nat>)
    requires p in cache && Counted(cache, n, unfilled, q) && x.refcnt == cache[p].refcnt
    ensures Counted(cache[p := x], n, unfilled, q)
  {
    assert PinnedOf(cache[p := x]) == PinnedOf(cache);
  }

  ghost predicate InFile(s: State, p: nat) {
    p < |s.db| && p < |s.pages| && s.db[p] == s.pages[p]
  }

  /** Page p has its content: in the cache if it is there, in the file otherwise, and in both if it is clean. */
  ghost predicate PageOk(s: State, p: nat) {
    p < |s.pages| &&
    if p in s.cache then
      s.cache[p].data == s.pages[p] && (p in s.unfilled || (!s.cache[p].empty && (s.cache[p].dirty || InFile(s, p))))
    else InFile(s, p)
  }

  ghost predicate LeftOver(s: State, p: nat) {
    p in s.cache && !s.cache[p].dirty && s.cache[p].empty
  }

  /** Every page has its content, and past the last page the cache has only unfilled pages and clean remains. */
  ghost predicate Coherent(s: State) {
    && |s.db| <= |s.pages|
    && (forall p :: 0 <= p < |s.pages| ==> PageOk(s, p))
    && (forall p :: p in s.cache && |s.pages| <= p && p !in s.unfilled ==> LeftOver(s, p))
  }

  ghost predicate Untouched(s: State, p: nat) {
    p < |s.base| && p < |s.pages| && s.pages[p] == s.base[p] && (p in s.cache ==> !s.cache[p].dirty)
  }

  /** A page of the old file that was not announced as modified still has its old content, and is clean. */
  ghost predicate Guarded(s: State) {
    && |s.base| <= |s.pages|
    && (forall p :: 0 <= p < |s.base| && p !in s.modified ==> Untouched(s, p))
    && (forall p :: p in s.unfilled ==> |s.base| <= p)
  }

  ghost predicate StateOk(s: State) {
    Coherent(s) && Guarded(s)
  }

  // ---------------------------------------------------------------- what each step keeps

  /** The number of users of a page does not matter to its content. */
  lemma CountOk(s: State, p: nat, n: nat)
    requires StateOk(s) && p in s.cache
    ensures StateOk(s.(cache := s.cache[p := s.cache[p].(refcnt := n)]))
  {
    var t := s.(cache := s.cache[p := s.cache[p].(refcnt := n)]);
    forall q | 0 <= q < |t.pages| ensures PageOk(t, q) { assert PageOk(s, q); }
    forall q | q in t.cache && |t.pages| <= q && q !in t.unfilled ensures LeftOver(t, q) { assert LeftOver(s, q); }
    forall q | 0 <= q < |t.base| && q !in t.modified ensures Untouched(t, q) { assert Untouched(s, q); }
  }

  /** The file after page p has left the cache. */
  function Spilled(s: State, p: nat): seq<Page>
    requires p in s.cache
  {
    if s.cache[p].dirty then Written(s.db, p, s.cache[p].data) else s.db
  }

  /** A page that leaves the cache, written first if dirty, loses nothing. */
  lemma EvictOk(s: State, p: nat)
    requires StateOk(s) && p in s.cache && p !in s.unfilled
    ensures StateOk(s.(cache := s.cache - {p}, db := Spilled(s, p)))
    ensures s.cache[p].dirty ==> p < |s.pages| && (p < |s.base| ==> p in s.modified)
  {
    var t := s.(cache := s.cache - {p}, db := Spilled(s, p));
    assert |s.pages| <= p ==> LeftOver(s, p);
    assert p < |s.base| && p !in s.modified ==> Untouched(s, p);
    forall q | 0 <= q < |t.pages| ensures PageOk(t, q) { assert PageOk(s, q); assert PageOk(s, p) || |s.pages| <= p; }
    forall q | q in t.cache && |t.pages| <= q && q !in t.unfilled ensures LeftOver(t, q) { assert LeftOver(s, q); }
    forall q | 0 <= q < |t.base| && q !in t.modified ensures Untouched(t, q) { assert Untouched(s, q); }
  }

  /** A page read from the file into the cache. */
  lemma LoadOk(s: State, p: nat, n: nat)
    requires StateOk(s) && p !in s.cache && p < |s.pages|
    ensures p < |s.db| && StateOk(s.(cache := s.cache[p := Slot(n, false, false, s.db[p])]))
  {
    assert PageOk(s, p);
    var t := s.(cache := s.cache[p := Slot(n, false, false, s.db[p])]);
    forall q | 0 <= q < |t.pages| ensures PageOk(t, q) { assert PageOk(s, q); }
    forall q | q in t.cache && |t.pages| <= q && q !in t.unfilled ensures LeftOver(t, q) { assert LeftOver(s, q); }
    forall q | 0 <= q < |t.base| && q !in t.modified ensures Untouched(t, q) { assert Untouched(s, q); }
  }

  /** A page just past the end, in the cache for the first time or left there by an earlier transaction. */
  lemma UnfilledOk(s: State, x: Slot)
    requires StateOk(s)
    requires |s.pages| in s.cache ==> x.data == s.cache[|s.pages|].data
    ensures StateOk(s.(cache := s.cache[|s.pages| := x], unfilled := s.unfilled + {|s.pages|}))
  {
    var t := s.(cache := s.cache[|s.pages| := x], unfilled := s.unfilled + {|s.pages|});
    forall q | 0 <= q < |t.pages| ensures PageOk(t, q) { assert PageOk(s, q); }
    forall q | q in t.cache && |t.pages| <= q && q !in t.unfilled ensures LeftOver(t, q) { assert LeftOver(s, q); }
    forall q | 0 <= q < |t.base| && q !in t.modified ensures Untouched(t, q) { assert Untouched(s, q); }
  }

  lemma LeftOverOk(s: State)
    requires StateOk(s) && |s.pages| in s.cache
    ensures StateOk(s.(unfilled := s.unfilled + {|s.pages|}))
  {
    assert s.cache[|s.pages| := s.cache[|s.pages|]] == s.cache;
    UnfilledOk(s, s.cache[|s.pages|]);
  }

  /** Every pinned page but p is in the cache as it was. */
  ghost predicate PinsKept<T>(was: map<nat, Slot>, from: map<nat, T>, to: map<nat, T>, p: nat) {
    forall q :: q in was && q in from && was[q].refcnt > 0 && q != p ==> q in to && to[q] == from[q]
  }

  lemma PinsKeptRekeyed(was: map<nat, Slot>, v: nat, x: Slot, p: nat, y: Slot)
    requires v in was && was[v].refcnt == 0 && p !in was && y.refcnt == 0
    ensures var c := (was[v := x] - {v})[p := y]; PinsKept(was, was, c, p) && PinnedOf(c) == PinnedOf(was)
  {
    assert PinnedOf((was[v := x] - {v})[p := y]) == PinnedOf(was);
  }

  lemma PinsKeptAdded(was: map<nat, Slot>, p: nat, y: Slot)
    requires p !in was && y.refcnt == 0
    ensures PinsKept(was, was, was[p := y], p) && PinnedOf(was[p := y]) == PinnedOf(was)
  {
    assert PinnedOf(was[p := y]) == PinnedOf(was);
  }

  lemma PinnedSet(was: map<nat, Slot>, p: nat, n: nat)
    requires p in was
    ensures PinnedOf(was[p := was[p].(refcnt := n)]) == if n > 0 then PinnedOf(was) + {p} else PinnedOf(was) - {p}
  {
  }

  lemma PinnedSame(was: map<nat, Slot>, p: nat, x: Slot)
    requires p in was && x.refcnt == was[p].refcnt
    ensures PinnedOf(was[p := x]) == PinnedOf(was)
  {
  }

  /** The unfilled page past the end becomes the last page. */
  lemma ExtendOk(s: State)
    requires StateOk(s) && |s.pages| in s.cache && |s.pages| in s.unfilled
    ensures StateOk(s.(pages := s.pages + [s.cache[|s.pages|].data]))
  {
    var t := s.(pages := s.pages + [s.cache[|s.pages|].data]);
    forall q | 0 <= q < |t.pages| ensures PageOk(t, q) { if q < |s.pages| { assert PageOk(s, q); } }
    forall q | q in t.cache && |t.pages| <= q && q !in t.unfilled ensures LeftOver(t, q) { assert LeftOver(s, q); }
    forall q | 0 <= q < |t.base| && q !in t.modified ensures Untouched(t, q) { assert Untouched(s, q); }
  }

  /** One more page that was announced. */
  lemma SavedOk(s: State, p: nat)
    requires StateOk(s)
    ensures StateOk(s.(modified := s.modified + {p}))
  {
    var t := s.(modified := s.modified + {p});
    forall q | 0 <= q < |t.pages| ensures PageOk(t, q) { assert PageOk(s, q); }
    forall q | q in t.cache && |t.pages| <= q && q !in t.unfilled ensures LeftOver(t, q) { assert LeftOver(s, q); }
    forall q | 0 <= q < |t.base| && q !in t.modified ensures Untouched(t, q) { assert Untouched(s, q); }
  }

  /** A page that was announced becomes dirty, and counts as filled. */
  lemma AnnounceOk(s: State, p: nat)
    requires StateOk(s) && p in s.cache && p < |s.pages|
    requires p in s.unfilled ==> !s.cache[p].empty
    ensures StateOk(s.(cache := s.cache[p := s.cache[p].(dirty := true)], unfilled := s.unfilled - {p},
                       modified := if p < |s.base| then s.modified + {p} else s.modified))
  {
    var t := s.(cache := s.cache[p := s.cache[p].(dirty := true)], unfilled := s.unfilled - {p},
                modified := if p < |s.base| then s.modified + {p} else s.modified);
    forall q | 0 <= q < |t.pages| ensures PageOk(t, q) { assert PageOk(s, q); }
    forall q | q in t.cache && |t.pages| <= q && q !in t.unfilled ensures LeftOver(t, q) { assert LeftOver(s, q); }
    forall q | 0 <= q < |t.base| && q !in t.modified ensures Untouched(t, q) { assert Untouched(s, q); }
  }

  /** Marks an unfilled page as filled in. */
  lemma InitOk(s: State, p: nat)
    requires StateOk(s) && p in s.cache && (p < |s.pages| || p in s.unfilled)
    ensures StateOk(s.(cache := s.cache[p := s.cache[p].(empty := false)]))
  {
    var t := s.(cache := s.cache[p := s.cache[p].(empty := false)]);
    forall q | 0 <= q < |t.pages| ensures PageOk(t, q) { assert PageOk(s, q); }
    forall q | q in t.cache && |t.pages| <= q && q !in t.unfilled ensures LeftOver(t, q) { assert LeftOver(s, q); }
    forall q | 0 <= q < |t.base| && q !in t.modified ensures Untouched(t, q) { assert Untouched(s, q); }
  }

  /** New content for a dirty page. */
  lemma ModifyOk(s: State, p: nat, data: Page)
    requires StateOk(s) && p in s.cache && s.cache[p].dirty && p < |s.pages|
    ensures StateOk(s.(cache := s.cache[p := s.cache[p].(data := data)], pages := s.pages[p := data]))
  {
    var t := s.(cache := s.cache[p := s.cache[p].(data := data)], pages := s.pages[p := data]);
    forall q | 0 <= q < |t.pages| ensures PageOk(t, q) { assert PageOk(s, q); }
    forall q | q in t.cache && |t.pages| <= q && q !in t.unfilled ensures LeftOver(t, q) { assert LeftOver(s, q); }
    forall q | 0 <= q < |t.base| && q !in t.modified ensures Untouched(t, q) { assert Untouched(s, q); }
  }

  /** A dirty page goes to the file and stays in the cache. */
  lemma FlushOk(s: State, p: nat)
    requires StateOk(s) && p in s.cache && p !in s.unfilled
    ensures StateOk(s.(cache := s.cache[p := s.cache[p].(dirty := false)], db := Spilled(s, p)))
    ensures s.cache[p].dirty ==> p < |s.pages| && (p < |s.base| ==> p in s.modified)
  {
    EvictOk(s, p);
    var e := s.(cache := s.cache - {p}, db := Spilled(s, p));
    var t := s.(cache := s.cache[p := s.cache[p].(dirty := false)], db := Spilled(s, p));
    forall q | 0 <= q < |t.pages| ensures PageOk(t, q) { assert PageOk(e, q); assert PageOk(s, q); }
    forall q | q in t.cache && |t.pages| <= q && q !in t.unfilled ensures LeftOver(t, q) { assert LeftOver(s, q); }
    forall q | 0 <= q < |t.base| && q !in t.modified ensures Untouched(t, q) { assert Untouched(s, q); }
  }

  /** With no dirty page left the file is what the users see. */
  lemma FlushedAll(s: State)
    requires StateOk(s) && s.unfilled == {} && forall p :: p in s.cache ==> !s.cache[p].dirty
    ensures s.db == s.pages
    ensures StateOk(s.(base := s.pages, modified := {}))
  {
    forall p | 0 <= p < |s.pages| ensures InFile(s, p) { assert PageOk(s, p); }
    assert |s.db| < |s.pages| ==> InFile(s, |s.db|);
    assert forall p :: 0 <= p < |s.pages| ==> InFile(s, p) ==> s.db[p] == s.pages[p];
    var t := s.(base := s.pages, modified := {});
    forall q | 0 <= q < |t.pages| ensures PageOk(t, q) { assert PageOk(s, q); }
    forall q | q in t.cache && |t.pages| <= q && q !in t.unfilled ensures LeftOver(t, q) { assert LeftOver(s, q); }
    forall q | 0 <= q < |t.base| && q !in t.modified ensures Untouched(t, q) { assert PageOk(s, q); }
  }

  /** A cached page after the file was set back: read again, or emptied if the file has no such page any more. */
  function Reloaded(x: Slot, db: seq<Page>, p: nat): Slot {
    if p < |db| then x.(dirty := false, empty := false, data := db[p]) else x.(dirty := false, empty := true, data := [])
  }

  function ReloadedAll(cache: map<nat, Slot>, db: seq<Page>): map<nat, Slot> {
    map p | p in cache :: Reloaded(cache[p], db, p)
  }

  /** Any cache, reloaded, is coherent with the file. */
  lemma ReloadedOk(cache: map<nat, Slot>, db: seq<Page>)
    ensures StateOk(State(ReloadedAll(cache, db), db, db, db, {}, {}))
  {
    var t := State(ReloadedAll(cache, db), db, db, db, {}, {});
    forall q | 0 <= q < |t.pages| ensures PageOk(t, q) {}
    forall q | 0 <= q < |t.base| && q !in t.modified ensures Untouched(t, q) {}
  }

  lemma CountReloaded(cache: map<nat, Slot>, n: nat, unfilled: set<nat>, db: seq<Page>)
    requires Counted(cache, n, unfilled, {})
    ensures PinnedOf(ReloadedAll(cache, db)) == PinnedOf(cache) && Counted(ReloadedAll(cache, db), n, {}, {})
  {
    assert PinnedOf(ReloadedAll(cache, db)) == PinnedOf(cache);
  }
}
