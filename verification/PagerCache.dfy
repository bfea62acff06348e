/** The page cache over the journalled database file. */
module PagerCache {
  import opened Values
  import opened RollbackJournal
  import opened PageCache

  const MAX_PINNED: nat := 100
  const MAX_PAGES: nat := 10

  /** A page in memory, with the number of its users. */
  class PageInfo {
    var refcnt: nat
    var dirty: bool
    var pgno: nat
    var empty: bool
    var data: Page

    constructor (pgno: nat, data: Page)
      ensures this.pgno == pgno && this.data == data && refcnt == 0 && !dirty && !empty
    {
      refcnt, dirty, this.pgno, empty, this.data := 0, false, pgno, false, data;
    }
  }

  /** The list without one page. */
  function Without(list: seq<PageInfo>, page: PageInfo): (r: seq<PageInfo>)
    ensures page !in r && forall e :: e in r ==> e in list
    ensures |r| <= |list|
  {
    if list == [] then []
    else if list[0] == page then Without(list[1..], page)
    else [list[0]] + Without(list[1..], page)
  }

  ghost predicate Distinct(list: seq<PageInfo>) {
    forall i, j :: 0 <= i < j < |list| ==> list[i] != list[j]
  }

  lemma {:induction false} WithoutDistinct(list: seq<PageInfo>, page: PageInfo)
    requires Distinct(list)
    ensures Distinct(Without(list, page))
  {
    if list != [] {
      WithoutDistinct(list[1..], page);
      var rest := Without(list[1..], page);
      assert list[0] !in list[1..];
      assert forall i :: 0 <= i < |rest| ==> rest[i] in list[1..];
    }
  }

  lemma DistinctPrefix(list: seq<PageInfo>)
    requires Distinct(list) && list != []
    ensures Distinct(list[..|list| - 1]) && list[|list| - 1] !in list[..|list| - 1]
  {
  }

  class Pager {
    const journal: Journal
    var lru: seq<PageInfo>
    var pinnedPages: nat
    var initialPages: nat
    var totalPages: nat
    var pagesHash: map<nat, PageInfo>
    var modified: set<nat>
    /** The content of every page as users see it, and the file as of the last commit. */
    ghost var pages: seq<Page>
    ghost var base: seq<Page>
    /** Pages handed out past the end and not yet announced as modified. */
    ghost var unfilled: set<nat>

    constructor (journal: Journal, ghost base: seq<Page>)
      requires journal.valid ==> journal.InTx(base)
      requires !journal.valid ==> journal.Idle() && journal.db == base != [] && !journal.Writing()
      ensures this.journal == journal && this.base == base && Openable() && pinnedPages == 0 && pagesHash == map[] && lru == []
    {
      this.journal := journal;
      lru, pinnedPages, initialPages, totalPages, pagesHash, modified := [], 0, 0, 0, map[], {};
      this.base, pages, unfilled := base, base, {};
      new;
      ReloadedOk(map[], base);
      assert Cache() == map[] == ReloadedAll(map[], base);
    }

    // ---------------------------------------------------------------- the invariant

    ghost function Cache(): map<nat, Slot>
      reads this`pagesHash, pagesHash.Values
    {
      map p | p in pagesHash :: SlotOf(pagesHash[p])
    }

    lemma CacheAt(p: nat)
      ensures p in Cache() <==> p in pagesHash
      ensures p in pagesHash ==> Cache()[p] == SlotOf(pagesHash[p])
    {
    }

    ghost static function SlotOf(page: PageInfo): Slot
      reads page
    {
      Slot(page.refcnt, page.dirty, page.empty, page.data)
    }

    ghost function View(): State
      reads this`pagesHash, this`pages, this`base, this`modified, this`unfilled, journal, pagesHash.Values
    {
      State(Cache(), journal.db, pages, base, modified, unfilled)
    }

    /** The page is cached, under its own number. */
    ghost predicate Cached(page: PageInfo)
      reads this`pagesHash, page`pgno
    {
      page.pgno in pagesHash && pagesHash[page.pgno] == page
    }

    ghost predicate Keyed()
      reads this`pagesHash, pagesHash.Values`pgno
    {
      forall p :: p in pagesHash ==> pagesHash[p].pgno == p
    }

    /** The LRU list holds only unpinned cached pages, none twice. */
    ghost predicate Listed(x: set<nat>)
      reads this`pagesHash, this`lru, lru`pgno, lru`refcnt
    {
      Distinct(lru) && forall e :: e in lru ==> Cached(e) && e.refcnt == 0 && e.pgno !in x
    }

    ghost predicate CacheOk(x: set<nat>)
      reads this`pagesHash, this`lru, this`pinnedPages, this`unfilled, pagesHash.Values, lru
    {
      Keyed() && Listed(x) && Counted(Cache(), pinnedPages, unfilled, x)
    }

    /** What a write transaction, or its absence, means for the journal. */
    ghost predicate Logged()
      reads this`base, this`pages, this`modified, this`unfilled, journal
    {
      journal.Writing() == journal.valid &&
      if journal.valid then journal.InTx(base) && modified == journal.backupSet == Saved(journal.records)
      else journal.Idle() && modified == {} && unfilled == {} && journal.db == pages == base != []
    }

    /** The invariant between calls of the pager. */
    ghost predicate Valid(x: set<nat>)
      reads this, journal, pagesHash.Values, lru
    {
      CacheOk(x) && totalPages == |pages| && initialPages == |base| && StateOk(View()) && Logged()
    }

    /** As Valid, but the page counts may not be known yet, and a crash may have left a journal to be rolled back. */
    ghost predicate Openable()
      reads this, journal, pagesHash.Values, lru
    {
      CacheOk({}) &&
      if journal.valid then journal.InTx(base)
      else journal.Idle() && !journal.Writing() && journal.db == base != [] && modified == {} && unfilled == {}
           && StateOk(State(Cache(), base, base, base, {}, {}))
    }

    lemma ValidOpenable()
      requires Valid({})
      ensures Openable() && (!journal.valid ==> unfilled == {} && pages == base == journal.db)
    {
    }

    // ---------------------------------------------------------------- pins

    method PagePin(page: PageInfo)
      requires CacheOk({}) && Cached(page)
      modifies this`lru, this`pinnedPages
      ensures CacheOk(if page.refcnt == 0 then {page.pgno} else {})
    {
      hide Counted;
      if page.refcnt == 0 {
        WithoutDistinct(lru, page);
        CountMore(Cache(), pinnedPages, unfilled, page.pgno);
        lru := Without(lru, page);
        pinnedPages := pinnedPages + 1;
      }
    }

    method Acquire(page: PageInfo)
      requires Cached(page) && Valid(if page.refcnt == 0 then {page.pgno} else {})
      modifies page`refcnt
      ensures page.refcnt == old(page.refcnt) + 1
      ensures Valid({}) && Cache() == old(Cache())[page.pgno := old(SlotOf(page)).(refcnt := old(page.refcnt) + 1)]
      ensures PinnedOf(Cache()) == PinnedOf(old(Cache())) + {page.pgno}
    {
      hide Counted, Distinct, StateOk, Logged, Cache, PinnedOf;
      ghost var s := View();
      CacheAt(page.pgno);
      CountUsers(Cache(), pinnedPages, unfilled, page.pgno, page.refcnt + 1);
      CountOk(s, page.pgno, page.refcnt + 1);
      PinnedSet(Cache(), page.pgno, page.refcnt + 1);
      page.refcnt := page.refcnt + 1;
      SlotChanged(page);
      assert View() == s.(cache := Cache());
    }

    method PageUnpin(page: PageInfo)
      requires Cached(page) && page.refcnt == 0 && page.pgno !in unfilled && CacheOk({page.pgno})
      modifies this`lru, this`pinnedPages
      ensures CacheOk({})
    {
      hide Counted;
      CountLess(Cache(), pinnedPages, unfilled, page.pgno);
      lru := [page] + lru;
      pinnedPages := pinnedPages - 1;
    }

    twostate lemma SlotChanged(page: PageInfo)
      requires old(Keyed()) && old(Cached(page)) && pagesHash == old(pagesHash) && page.pgno == old(page.pgno)
      requires forall q :: q in pagesHash.Values && q != page ==> unchanged(q)
      ensures Cache() == old(Cache())[page.pgno := SlotOf(page)]
    {
      forall p | p in pagesHash ensures pagesHash[p] != page ==> SlotOf(pagesHash[p]) == old(SlotOf(pagesHash[p])) {
        assert pagesHash[p] in pagesHash.Values;
      }
    }

    method Release(page: PageInfo)
      requires Valid({}) && Cached(page) && page.refcnt > 0 && (page.refcnt == 1 ==> page.pgno !in unfilled)
      modifies page`refcnt, this`lru, this`pinnedPages
      ensures page.refcnt == old(page.refcnt) - 1
      ensures Valid({}) && Cache() == old(Cache())[page.pgno := old(SlotOf(page)).(refcnt := old(page.refcnt) - 1)]
      ensures PinnedOf(Cache()) == if page.refcnt > 0 then PinnedOf(old(Cache())) else PinnedOf(old(Cache())) - {page.pgno}
    {
      hide CacheOk, StateOk, Logged, Cache, PinnedOf;
      OneUserLess(page);
      if page.refcnt == 0 {
        PageUnpin(page);
      }
    }

    /** The page has one user less; without any it is still counted as pinned. */
    method OneUserLess(page: PageInfo)
      requires Valid({}) && Cached(page) && page.refcnt > 0
      modifies page`refcnt
      ensures page.refcnt == old(page.refcnt) - 1
      ensures CacheOk(if page.refcnt == 0 then {page.pgno} else {}) && StateOk(View()) && Logged()
      ensures Cache() == old(Cache())[page.pgno := old(SlotOf(page)).(refcnt := old(page.refcnt) - 1)]
      ensures PinnedOf(Cache()) == if page.refcnt > 0 then PinnedOf(old(Cache())) else PinnedOf(old(Cache())) - {page.pgno}
    {
      hide Counted, Distinct, StateOk, Logged, Cache;
      ghost var s := View();
      CacheAt(page.pgno);
      CountUsers(Cache(), pinnedPages, unfilled, page.pgno, page.refcnt - 1);
      PinnedSet(Cache(), page.pgno, page.refcnt - 1);
      CountOk(s, page.pgno, page.refcnt - 1);
      page.refcnt := page.refcnt - 1;
      SlotChanged(page);
      assert View() == s.(cache := Cache());
    }

    // ---------------------------------------------------------------- fetching

    /** A dirty page on its way out is written to the file, its pre-image being durable before. */
    method CommitPage(page: PageInfo)
      requires Keyed() && Cached(page) && page.pgno !in unfilled && StateOk(View()) && Logged()
      modifies page`dirty, journal
      ensures StateOk(View()) && Logged() && Cache() == old(Cache())[page.pgno := old(SlotOf(page)).(dirty := false)]
      ensures journal.valid == old(journal.valid)
      ensures Leads(old(journal.crashes), journal.crashes, {base})
    {
      hide StateOk, Journal.InTx, Journal.Idle;
      ghost var s := View();
      FlushOk(s, page.pgno);
      if page.dirty {
        CleanWhenIdle(page);
        journal.CommitPage(page.pgno, page.data, base);
      }
      page.dirty := false;
      assert Cache() == s.cache[page.pgno := s.cache[page.pgno].(dirty := false)];
      assert View() == s.(cache := Cache(), db := Spilled(s, page.pgno));
    }

    lemma CleanWhenIdle(page: PageInfo)
      requires Keyed() && Cached(page) && page.pgno !in unfilled && StateOk(View()) && Logged() && page.dirty
      ensures journal.valid
    {
      var s := View();
      assert |s.pages| <= page.pgno ==> LeftOver(s, page.pgno);
      assert !journal.valid ==> Untouched(s, page.pgno);
    }

    /** Brings the content of its page into a cached slot, or marks it as having none yet. */
    method Fill(page: PageInfo)
      requires Keyed() && Cached(page) && !page.dirty && page.pgno <= totalPages == |pages|
      requires page.pgno == totalPages ==> journal.valid
      requires StateOk(View().(cache := Cache() - {page.pgno})) && Logged()
      modifies page`data, page`empty, page`dirty, this`unfilled
      ensures StateOk(View()) && Logged() && Cache() == old(Cache())[page.pgno := SlotOf(page)]
      ensures unfilled == if page.pgno == totalPages then old(unfilled) + {page.pgno} else old(unfilled)
    {
      hide StateOk, Journal.InTx, Journal.Idle, Keyed, Cached;
      ghost var s := View().(cache := Cache() - {page.pgno});
      if page.pgno < totalPages {
        LoadOk(s, page.pgno, page.refcnt);
        page.empty := false;
        page.data := journal.ReadPage(page.pgno);
      } else {
        page.empty, page.dirty := true, true;
        UnfilledOk(s, SlotOf(page));
        unfilled := unfilled + {page.pgno};
      }
      SlotChanged(page);
      assert Cache() == s.cache[page.pgno := SlotOf(page)];
    }

    method InsertSlot(page: PageInfo)
      requires Keyed() && page.pgno !in pagesHash && Listed({}) && page !in lru
      modifies this`pagesHash
      ensures Keyed() && Listed({page.pgno}) && pagesHash == old(pagesHash)[page.pgno := page]
      ensures Cache() == old(Cache())[page.pgno := SlotOf(page)] && Cache() - {page.pgno} == old(Cache())
    {
      hide Distinct;
      pagesHash := pagesHash[page.pgno := page];
      assert Cache() - {page.pgno} == old(Cache());
      CacheAt(page.pgno);
    }

    method AllocPageAndRead(pgno: nat) returns (page: PageInfo)
      requires Valid({}) && pgno !in pagesHash && pgno <= totalPages && (pgno == totalPages ==> journal.valid)
      modifies this`pagesHash, this`pinnedPages, this`unfilled
      ensures Valid({pgno}) && page.refcnt == 0 && page.pgno == pgno && pagesHash == old(pagesHash)[pgno := page] && fresh(page)
      ensures Cache() == old(Cache())[pgno := SlotOf(page)]
      ensures unfilled == if pgno == totalPages then old(unfilled) + {pgno} else old(unfilled)
    {
      hide StateOk, Logged, Counted, Distinct, Cache, Listed, Keyed;
      CacheAt(pgno);
      ghost var cache := Cache();
      page := new PageInfo(pgno, []);
      InsertSlot(page);
      FillFetched(page, cache, cache);
    }

    /** Takes the oldest unpinned page off the list, and writes it to the file if it is dirty. */
    method PopOldest() returns (page: PageInfo)
      requires Valid({}) && lru != []
      modifies this`lru, lru[|lru| - 1], journal
      ensures Valid({}) && Listed({page.pgno}) && page == old(lru[|lru| - 1]) && lru == old(lru[..|lru| - 1])
      ensures Cached(page) && page.refcnt == 0 && !page.dirty
      ensures page.pgno in old(Cache()) && old(Cache())[page.pgno].refcnt == 0
      ensures Cache() == old(Cache())[page.pgno := SlotOf(page)]
      ensures journal.valid == old(journal.valid)
      ensures Leads(old(journal.crashes), journal.crashes, {base})
    {
      hide StateOk, Logged, Counted, Distinct;
      page := lru[|lru| - 1];
      assert Cached(page) && page.refcnt == 0;
      NotPinned(page.pgno);
      DistinctPrefix(lru);
      lru := lru[..|lru| - 1];
      assert Listed({page.pgno});
      CommitPage(page);
      CountOther(old(Cache()), pinnedPages, unfilled, page.pgno, SlotOf(page), {});
    }

    /** Gives the slot of an unpinned clean page to page pgno. */
    method Recycle(page: PageInfo, pgno: nat)
      requires Valid({}) && Listed({page.pgno}) && Cached(page) && page.refcnt == 0 && !page.dirty
      requires pgno !in pagesHash && pgno <= totalPages && (pgno == totalPages ==> journal.valid)
      modifies this`pagesHash, this`pinnedPages, this`unfilled, page
      ensures Valid({pgno}) && page.refcnt == 0 && page.pgno == pgno
      ensures pagesHash == (old(pagesHash) - {old(page.pgno)})[pgno := page]
      ensures Cache() == (old(Cache()) - {old(page.pgno)})[pgno := SlotOf(page)]
      ensures unfilled == if pgno == totalPages then old(unfilled) + {pgno} else old(unfilled)
    {
      hide StateOk, Logged, Counted, Distinct, Cache, Listed, PinnedOf, Saved, Without, Coherent;
      ghost var cache := Cache();
      NotPinned(page.pgno);
      var oldno := Vacate(page, pgno);
      assert Cache() - {pgno} == cache - {oldno};
      FillFetched(page, cache, cache - {oldno});
    }

    /** Fills a slot that has just got its number, and counts it. */
    method FillFetched(page: PageInfo, ghost was: map<nat, Slot>, ghost kept: map<nat, Slot>)
      requires Keyed() && Cached(page) && !page.dirty && page.refcnt == 0 && page.pgno <= totalPages == |pages|
      requires page.pgno == totalPages ==> journal.valid
      requires Logged() && Listed({page.pgno}) && Counted(was, pinnedPages, unfilled, {}) && page.pgno !in was
      requires kept == was || exists v :: v in was && was[v].refcnt == 0 && kept == was - {v}
      requires Cache() == kept[page.pgno := SlotOf(page)] && StateOk(View().(cache := kept))
      modifies this`pinnedPages, this`unfilled, page`data, page`empty, page`dirty
      ensures CacheOk({page.pgno}) && StateOk(View()) && Logged() && Cache() == kept[page.pgno := SlotOf(page)]
      ensures unfilled == if page.pgno == totalPages then old(unfilled) + {page.pgno} else old(unfilled)
    {
      hide StateOk, Logged, Counted, Distinct, Cache, Listed, PinnedOf;
      ghost var n := pinnedPages;
      assert Cache() - {page.pgno} == kept;
      Fill(page);
      pinnedPages := pinnedPages + 1;
      assert Cache() == kept[page.pgno := SlotOf(page)];
      CountFetched(was, n, old(unfilled), kept, page.pgno, SlotOf(page), unfilled);
    }

    /** The slot gets its new number; without it the cache is as it was without the old page. */
    method Vacate(page: PageInfo, pgno: nat) returns (oldno: nat)
      requires Keyed() && StateOk(View()) && Logged() && Listed({page.pgno}) && Cached(page) && !page.dirty
      requires page.pgno !in unfilled && pgno !in pagesHash
      modifies this`pagesHash, page`pgno
      ensures Keyed() && Cached(page) && page.pgno == pgno && oldno == old(page.pgno) && Listed({pgno}) && Logged()
      ensures pagesHash == (old(pagesHash) - {oldno})[pgno := page]
      ensures oldno in old(Cache()) && pgno !in old(Cache()) && Cache() == (old(Cache()) - {oldno})[pgno := SlotOf(page)]
      ensures StateOk(View().(cache := Cache() - {pgno})) && old(Cache())[oldno].refcnt == page.refcnt
    {
      hide StateOk, Logged, Distinct, Cache, Listed, Coherent;
      ghost var s := View();
      CacheAt(page.pgno);
      CacheAt(pgno);
      oldno := FetchkeyRekey(page, pgno);
      EvictOk(s, oldno);
      assert View().(cache := Cache() - {pgno}) == s.(cache := s.cache - {oldno}, db := Spilled(s, oldno));
    }

    /** Gives a cached page another number. */
    method FetchkeyRekey(page: PageInfo, pgno: nat) returns (oldno: nat)
      requires Keyed() && Cached(page) && pgno !in pagesHash && Listed({page.pgno})
      modifies page`pgno, this`pagesHash
      ensures Listed({pgno}) && Keyed() && Cached(page) && page.pgno == pgno && oldno == old(page.pgno)
      ensures pagesHash == (old(pagesHash) - {oldno})[pgno := page] && Cache() == (old(Cache()) - {oldno})[pgno := SlotOf(page)]
      ensures Cache() - {pgno} == old(Cache()) - {oldno}
    {
      hide Distinct;
      oldno := page.pgno;
      page.pgno := pgno;
      pagesHash := (pagesHash - {oldno})[pgno := page];
    }

    lemma NotPinned(p: nat)
      requires CacheOk({}) && p in pagesHash && pagesHash[p].refcnt == 0
      ensures p !in unfilled
    {
    }

    /** A cached page is pinned; past the end it is one that an undone transaction left behind. */
    method Reuse(page: PageInfo)
      requires Valid({}) && Cached(page) && page.pgno <= totalPages && (page.pgno == totalPages ==> journal.valid)
      modifies this`lru, this`pinnedPages, this`unfilled
      ensures Valid(if page.refcnt == 0 then {page.pgno} else {})
      ensures unfilled == if page.pgno == totalPages then old(unfilled) + {page.pgno} else old(unfilled)
    {
      hide StateOk, Counted, Distinct, Cache, Journal.InTx, Journal.Idle;
      ghost var s := View();
      CacheAt(page.pgno);
      PagePin(page);
      if page.pgno == totalPages {
        LeftOverOk(s);
        CountUnfilled(Cache(), pinnedPages, unfilled, if page.refcnt == 0 then {page.pgno} else {}, page.pgno);
        unfilled := unfilled + {page.pgno};
      }
    }

    /** A page without a user yet: the cached one, a recycled slot, or a new slot; none if too many are pinned. */
    method FetchCache(pgno: nat) returns (page: PageInfo?)
      requires Valid({}) && pgno <= totalPages && (pgno == totalPages ==> journal.valid)
      modifies this`lru, this`pagesHash, this`pinnedPages, this`unfilled, pagesHash.Values, journal
      ensures page == null <==> pgno !in old(pagesHash) && |old(pagesHash)| >= 10 && old(pinnedPages) >= 100
      ensures page == null ==> Valid({}) && unchanged(this) && unchanged(journal) && unchanged(old(pagesHash.Values))
      ensures page != null ==> Valid(if page.refcnt == 0 then {pgno} else {}) && Cached(page) && page.pgno == pgno
      ensures PinsKept(old(Cache()), old(Cache()), Cache(), pgno) && PinsKept(old(Cache()), old(pagesHash), pagesHash, pgno)
      ensures page != null ==> page.refcnt == (if pgno in old(pagesHash) then old(pagesHash[pgno].refcnt) else 0)
      ensures page != null ==> page in old(pagesHash.Values) || fresh(page)
      ensures forall e :: e in pagesHash.Values ==> e in old(pagesHash.Values) || fresh(e)
      ensures PinnedOf(Cache()) == PinnedOf(old(Cache()))
      ensures unfilled == if page != null && pgno == totalPages then old(unfilled) + {pgno} else old(unfilled)
      ensures journal.valid == old(journal.valid)
      ensures Leads(old(journal.crashes), journal.crashes, {base})
    {
      hide StateOk, Logged, Counted, Distinct, Cache, View, PinnedOf;
      CacheAt(pgno);
      if pgno in pagesHash {
        page := pagesHash[pgno];
        Reuse(page);
      } else if |pagesHash| >= MAX_PAGES {
        if pinnedPages >= MAX_PINNED {
          page := null;
        } else if lru != [] {
          page := ReuseOldest(pgno);
        } else {
          page := FetchNew(pgno);
        }
      } else {
        page := FetchNew(pgno);
      }
    }

    method FetchNew(pgno: nat) returns (page: PageInfo)
      requires Valid({}) && pgno !in pagesHash && pgno <= totalPages && (pgno == totalPages ==> journal.valid)
      modifies this`pagesHash, this`pinnedPages, this`unfilled
      ensures Valid({pgno}) && page.refcnt == 0 && page.pgno == pgno && Cached(page) && fresh(page)
      ensures forall e :: e in pagesHash.Values ==> e in old(pagesHash.Values) || fresh(e)
      ensures PinsKept(old(Cache()), old(Cache()), Cache(), pgno) && PinsKept(old(Cache()), old(pagesHash), pagesHash, pgno)
      ensures PinnedOf(Cache()) == PinnedOf(old(Cache()))
      ensures unfilled == if pgno == totalPages then old(unfilled) + {pgno} else old(unfilled)
    {
      hide StateOk, Logged, Counted, Distinct, Cache, View, PinnedOf;
      CacheAt(pgno);
      page := AllocPageAndRead(pgno);
      PinsKeptAdded(old(Cache()), pgno, SlotOf(page));
    }

    /** The slot of the longest unused page, for page pgno. */
    method ReuseOldest(pgno: nat) returns (page: PageInfo)
      requires Valid({}) && lru != [] && pgno !in pagesHash && pgno <= totalPages && (pgno == totalPages ==> journal.valid)
      modifies this`lru, this`pagesHash, this`pinnedPages, this`unfilled, pagesHash.Values, journal
      ensures Valid({pgno}) && page.refcnt == 0 && page.pgno == pgno && Cached(page) && page in old(pagesHash.Values)
      ensures forall e :: e in pagesHash.Values ==> e in old(pagesHash.Values)
      ensures PinsKept(old(Cache()), old(Cache()), Cache(), pgno) && PinsKept(old(Cache()), old(pagesHash), pagesHash, pgno)
      ensures PinnedOf(Cache()) == PinnedOf(old(Cache()))
      ensures unfilled == if pgno == totalPages then old(unfilled) + {pgno} else old(unfilled)
      ensures journal.valid == old(journal.valid)
      ensures Leads(old(journal.crashes), journal.crashes, {base})
    {
      hide StateOk, Logged, Counted, Distinct, Cache, View, PinnedOf, Leads;
      CacheAt(pgno);
      assert Cached(lru[|lru| - 1]);
      page := PopOldest();
      ghost var v, x := page.pgno, SlotOf(page);
      Recycle(page, pgno);
      PinsKeptRekeyed(old(Cache()), v, x, pgno, SlotOf(page));
    }

    /** A page and one more user for it, or nothing when too many pages are pinned. */
    method Fetch(pgno: nat) returns (page: PageInfo?)
      requires Valid({}) && pgno <= totalPages && (pgno == totalPages ==> journal.valid)
      modifies this`lru, this`pagesHash, this`pinnedPages, this`unfilled, pagesHash.Values, journal
      ensures Valid({}) && journal.valid == old(journal.valid)
      ensures page == null <==> pgno !in old(pagesHash) && |old(pagesHash)| >= 10 && old(pinnedPages) >= 100
      ensures page == null ==> unchanged(this) && unchanged(journal) && unchanged(old(pagesHash.Values))
      ensures page != null ==> pgno in pagesHash && pagesHash[pgno] == page && page.pgno == pgno
      ensures page != null ==> page.refcnt == (if pgno in old(pagesHash) then old(pagesHash[pgno].refcnt) else 0) + 1
      ensures page != null ==> page in old(pagesHash.Values) || fresh(page)
      ensures page != null ==> pgno < totalPages ==> page.data == pages[pgno] && (pgno !in unfilled ==> !page.empty)
      ensures page != null ==> PinsKept(old(Cache()), old(Cache()), Cache(), pgno) && PinsKept(old(Cache()), old(pagesHash), pagesHash, pgno)
      ensures forall e :: e in pagesHash.Values ==> e in old(pagesHash.Values) || fresh(e)
      ensures PinnedOf(Cache()) == PinnedOf(old(Cache())) + (if page == null then {} else {pgno})
      ensures unfilled == if page != null && pgno == totalPages then old(unfilled) + {pgno} else old(unfilled)
      ensures Leads(old(journal.crashes), journal.crashes, {base})
    {
      hide StateOk, Logged, Counted, Distinct, Cache, Listed, Leads, CacheOk, SlotOf;
      page := FetchCache(pgno);
      if page != null {
        Acquire(page);
        FilledOk(pgno);
      }
    }

    lemma FilledOk(p: nat)
      requires StateOk(View()) && totalPages == |pages| && p in pagesHash
      ensures p < totalPages ==> pagesHash[p].data == pages[p] && (p !in unfilled ==> !pagesHash[p].empty)
    {
      assert p < totalPages ==> PageOk(View(), p);
    }

    // ---------------------------------------------------------------- changing pages

    /** The page just past the end, handed out before, becomes part of the database. */
    method ExtendPageCount(pagecnt: nat)
      requires Valid({}) && pagecnt <= totalPages + 1
      requires pagecnt == totalPages + 1 ==> totalPages in unfilled && totalPages in pagesHash
      modifies this`totalPages, this`pages
      ensures Valid({}) && totalPages == (if pagecnt > old(totalPages) then pagecnt else old(totalPages))
      ensures pages == if pagecnt > old(totalPages) then old(pages) + [old(pagesHash[totalPages].data)] else old(pages)
    {
      hide StateOk, Counted, Distinct, Cache, Journal.InTx, Journal.Idle;
      if pagecnt > totalPages {
        CacheAt(totalPages);
        ExtendOk(View());
        pages := pages + [pagesHash[totalPages].data];
        totalPages := pagecnt;
      }
    }

    /** A page handed out gets its first content. */
    method MarkInited(page: PageInfo)
      requires Valid({}) && Cached(page) && (page.pgno < totalPages || page.pgno in unfilled)
      modifies page`empty
      ensures Valid({}) && !page.empty && Cache() == old(Cache())[page.pgno := SlotOf(page)]
      ensures PinnedOf(Cache()) == PinnedOf(old(Cache()))
    {
      hide StateOk, Counted, Distinct, Cache, Logged;
      ghost var s := View();
      CacheAt(page.pgno);
      InitOk(s, page.pgno);
      CountOther(Cache(), pinnedPages, unfilled, page.pgno, SlotOf(page).(empty := false), {});
      page.empty := false;
      SlotChanged(page);
      PinnedSame(s.cache, page.pgno, SlotOf(page));
      assert View() == s.(cache := Cache());
    }

    /** Before a page changes: the first time in a transaction a page of the old file is saved in the journal. */
    method WillModify(page: PageInfo)
      requires Valid({}) && Cached(page) && page.pgno < totalPages && journal.valid && (page.pgno in unfilled ==> !page.empty)
      modifies page`dirty, this`modified, this`unfilled, journal
      ensures Valid({}) && page.dirty && journal.valid && unfilled == old(unfilled) - {page.pgno}
      ensures Cache() == old(Cache())[page.pgno := SlotOf(page)]
      ensures page.pgno < initialPages ==> page.pgno in modified
      ensures Leads(old(journal.crashes), journal.crashes, {base})
      ensures PinnedOf(Cache()) == PinnedOf(old(Cache()))
    {
      hide Valid;
      SaveOld(page);
      MarkDirty(page);
    }

    /** Saves the content of a page of the old file in the journal, the first time in a transaction. */
    method SaveOld(page: PageInfo)
      requires Valid({}) && Cached(page) && journal.valid
      modifies this`modified, journal
      ensures Valid({}) && journal.valid && (page.pgno < initialPages ==> page.pgno in modified)
      ensures Leads(old(journal.crashes), journal.crashes, {base})
    {
      hide StateOk, CacheOk, Cache, Leads, Journal.InTx, Journal.Idle;
      LeadsSelf(journal.crashes, {base});
      if page.pgno < initialPages && page.pgno !in modified {
        OldContent(page);
        SavedOk(View(), page.pgno);
        modified := modified + {page.pgno};
        journal.BackupPage(page.pgno, page.data, base);
      }
    }

    method MarkDirty(page: PageInfo)
      requires Valid({}) && Cached(page) && page.pgno < totalPages && journal.valid && (page.pgno in unfilled ==> !page.empty)
      requires page.pgno < initialPages ==> page.pgno in modified
      modifies page`dirty, this`unfilled
      ensures Valid({}) && page.dirty && unfilled == old(unfilled) - {page.pgno}
      ensures Cache() == old(Cache())[page.pgno := SlotOf(page)]
      ensures PinnedOf(Cache()) == PinnedOf(old(Cache()))
    {
      hide StateOk, Counted, Distinct, Cache, Listed, PinnedOf, Journal.InTx, Journal.Idle;
      ghost var s := View();
      CacheAt(page.pgno);
      AnnounceOk(s, page.pgno);
      assert page.pgno < |base| ==> s.modified + {page.pgno} == s.modified;
      CountOther(Cache(), pinnedPages, unfilled, page.pgno, SlotOf(page).(dirty := true), {});
      page.dirty := true;
      CountFewer(old(Cache())[page.pgno := SlotOf(page)], pinnedPages, unfilled, page.pgno);
      unfilled := unfilled - {page.pgno};
      SlotChanged(page);
      PinnedSame(s.cache, page.pgno, SlotOf(page));
    }

    lemma OldContent(page: PageInfo)
      requires Valid({}) && Cached(page) && page.pgno < |base| && page.pgno !in modified
      ensures page.data == base[page.pgno] && page.pgno !in unfilled
    {
      assert PageOk(View(), page.pgno) && Untouched(View(), page.pgno);
    }

    /** New bytes for a page that was announced as modified. */
    method Write(page: PageInfo, data: Page)
      requires Valid({}) && Cached(page) && page.pgno < totalPages && page.dirty && page.pgno !in unfilled
      modifies page`data, this`pages
      ensures Valid({}) && page.data == data && pages == old(pages)[page.pgno := data]
      ensures Cache() == old(Cache())[page.pgno := SlotOf(page)]
      ensures PinnedOf(Cache()) == PinnedOf(old(Cache()))
    {
      hide StateOk, Counted, Distinct, Cache, Journal.InTx, Journal.Idle;
      ghost var s := View();
      CacheAt(page.pgno);
      CleanWhenIdle(page);
      ModifyOk(s, page.pgno, data);
      CountOther(Cache(), pinnedPages, unfilled, page.pgno, SlotOf(page).(data := data), {});
      page.data := data;
      pages := pages[page.pgno := data];
      SlotChanged(page);
      PinnedSame(s.cache, page.pgno, SlotOf(page));
      assert View() == s.(cache := Cache(), pages := pages);
    }

    // ---------------------------------------------------------------- transactions

    /**
     Commits: the pre-images are durable before the first page is written, the pages before the journal is no longer
     valid. Crash at any point, and the file is either the old one or the new one.
     */
    method EndTransactionWrite()
      requires Valid({}) && journal.valid && unfilled == {}
      modifies this`lru, this`modified, this`initialPages, this`base, pagesHash.Values, journal
      ensures Valid({}) && !journal.valid && pages == old(pages) == base == journal.db
      ensures Leads(old(journal.crashes), journal.crashes, {old(base), pages})
    {
      hide StateOk, Counted, Cache, Logged, Leads;
      PrepareCommit();
      ghost var c := journal.crashes;
      FlushAll();
      LeadsOn(old(journal.crashes), c, journal.crashes, base);
      c := journal.crashes;
      FinishCommit();
      LeadsTrans(old(journal.crashes), c, journal.crashes, {old(base)}, {old(base), pages});
      assert {old(base)} + {old(base), pages} == {old(base), pages};
    }

    /** Makes the pre-images durable. */
    method PrepareCommit()
      requires Valid({}) && journal.valid && unfilled == {}
      modifies this`lru, journal
      ensures Valid({}) && lru == [] && SyncedLog() && Leads(old(journal.crashes), journal.crashes, {base})
    {
      hide StateOk, Counted, Cache, Keyed, Leads, Logged;
      MakeJournalDurable();
      lru := [];
    }

    method MakeJournalDurable()
      requires Valid({}) && journal.valid
      modifies journal
      ensures Valid({}) && SyncedLog() && Leads(old(journal.crashes), journal.crashes, {base})
    {
      hide StateOk, CacheOk, Cache, Leads, Journal.InTx, Journal.Idle, Journal.Noted, Saved;
      journal.LockExclusive();
      journal.SyncJournal(base);
    }

    /** Makes the file durable, and then says that the journal is not valid. */
    method FinishCommit()
      requires Valid({}) && journal.valid && unfilled == {} && forall p :: p in pagesHash ==> !pagesHash[p].dirty
      modifies this`modified, this`initialPages, this`base, journal
      ensures Valid({}) && !journal.valid && pages == base == journal.db
      ensures Leads(old(journal.crashes), journal.crashes, {old(base), pages})
    {
      hide Valid, Leads, Journal.Settled;
      MakeDurable();
      ghost var c := journal.crashes;
      Commit();
      LeadsTrans(old(journal.crashes), c, journal.crashes, {old(base)}, {pages});
      assert {old(base)} + {pages} == {old(base), pages};
    }

    method MakeDurable()
      requires Valid({}) && journal.valid
      modifies journal
      ensures Valid({}) && journal.valid && journal.Settled() && Leads(old(journal.crashes), journal.crashes, {base})
    {
      hide StateOk, CacheOk, Cache, Leads, Journal.InTx, Journal.Settled, Journal.Idle;
      journal.SyncDb(base);
    }

    /** The commit point: from here on the file holds the new content, also for recovery. */
    method Commit()
      requires Valid({}) && journal.valid && journal.Settled() && unfilled == {} && forall p :: p in pagesHash ==> !pagesHash[p].dirty
      modifies this`modified, this`initialPages, this`base, journal
      ensures Valid({}) && !journal.valid && pages == base == journal.db
      ensures Leads(old(journal.crashes), journal.crashes, {pages})
    {
      hide StateOk, CacheOk, Cache, Leads, Journal.InTx, Journal.Settled;
      AllClean();
      assert 0 < |base| by { journal.BaseNotEmpty(base); }
      journal.InvalidateJournal();
      modified := {};
      base := pages;
      initialPages := totalPages;
      journal.UnlockWrite();
    }

    /** Writes the dirty pages, in any order. */
    method FlushAll()
      requires Valid({}) && lru == [] && unfilled == {} && SyncedLog()
      modifies pagesHash.Values, journal
      ensures Valid({}) && SyncedLog() && forall p :: p in pagesHash ==> !pagesHash[p].dirty
      ensures Leads(old(journal.crashes), journal.crashes, {base})
    {
      hide StateOk, Counted, Cache, Logged, SyncedLog;
      var todo := pagesHash.Keys;
      while todo != {}
        invariant Valid({}) && SyncedLog()
        invariant todo <= pagesHash.Keys && forall p :: p in pagesHash && p !in todo ==> !pagesHash[p].dirty
        invariant Leads(old(journal.crashes), journal.crashes, {base})
        decreases todo
      {
        var p :| p in todo;
        todo := todo - {p};
        if pagesHash[p].dirty {
          ghost var c := journal.crashes;
          Flush(pagesHash[p]);
          LeadsOn(old(journal.crashes), c, journal.crashes, base);
        }
      }
    }

    /** Every pre-image is durable. */
    ghost predicate SyncedLog()
      reads journal
    {
      journal.valid && journal.validSynced && journal.recordsSynced <= |journal.records| && journal.Safe() == Saved(journal.records)
    }

    lemma AllClean()
      requires StateOk(View()) && unfilled == {} && forall p :: p in pagesHash ==> !pagesHash[p].dirty
      ensures journal.db == pages && |base| <= |pages| && StateOk(View().(base := pages, modified := {}))
    {
      FlushedAll(View());
    }

    /** Writes one dirty page in place; its pre-image is durable. */
    method Flush(page: PageInfo)
      requires Valid({}) && Cached(page) && page.dirty && page.pgno !in unfilled && lru == []
      requires SyncedLog()
      modifies page`dirty, journal
      ensures Valid({}) && !page.dirty && SyncedLog()
      ensures Leads(old(journal.crashes), journal.crashes, {base})
    {
      hide StateOk, Counted, Distinct, Cache, Journal.InTx, Journal.Idle;
      ghost var s := View();
      CacheAt(page.pgno);
      FlushOk(s, page.pgno);
      CountOther(Cache(), pinnedPages, unfilled, page.pgno, SlotOf(page).(dirty := false), {});
      journal.WritePage(page.pgno, page.data, base);
      page.dirty := false;
      SlotChanged(page);
      assert View() == s.(cache := Cache(), db := journal.db);
    }

    /** Begins a write transaction, unless one is going on. */
    method BeginTransactionWrite()
      requires Valid({})
      modifies journal
      ensures Valid({}) && journal.valid
      ensures Leads(old(journal.crashes), journal.crashes, {base})
    {
      hide StateOk, CacheOk, Cache, Leads, Journal.InTx, Journal.Idle;
      LeadsSelf(journal.crashes, {base});
      if !journal.valid { BeginFits(); }
      journal.BeginTransactionWrite(totalPages);
      assert Saved([]) == {};
    }

    lemma BeginFits()
      requires Logged() && totalPages == |pages| && !journal.valid
      ensures journal.Idle() && totalPages == |journal.db| > 0
    {
    }

    /** Rolls back if the journal is valid: the transaction is undone in the file and in the cache. */
    method CheckAndTryRollback()
      requires Openable()
      modifies this`totalPages, this`initialPages, this`modified, this`pages, this`unfilled, pagesHash.Values, journal
      ensures Openable() && !journal.valid && PinnedOf(Cache()) == PinnedOf(old(Cache()))
      ensures old(journal.valid) ==> Valid({}) && pages == base == journal.db
      ensures !old(journal.valid) ==> unchanged(this) && unchanged(journal) && unchanged(pagesHash.Values)
      ensures Leads(old(journal.crashes), journal.crashes, {base})
    {
      hide StateOk, CacheOk, Cache, Leads;
      LeadsSelf(journal.crashes, {base});
      var valid := journal.IsJournalValid();
      if valid {
        journal.RecordsOk(base);
        var ok := journal.CheckJournal();
        if !ok { assert false; }
        Rollback();
      }
    }

    method Rollback()
      requires CacheOk({}) && journal.InTx(base)
      modifies this`totalPages, this`initialPages, this`modified, this`pages, this`unfilled, pagesHash.Values, journal
      ensures Valid({}) && !journal.valid && pages == base == journal.db && PinnedOf(Cache()) == PinnedOf(old(Cache()))
      ensures Leads(old(journal.crashes), journal.crashes, {base})
    {
      hide StateOk, Counted, Distinct, Cache, Leads, Journal.InTx, Journal.Idle, Keyed, Listed, ReloadedAll, PinnedOf, Saved, Valid;
      ghost var was := Cache();
      RestoreFile();
      modified := {};
      initialPages := totalPages;
      ReloadCacheAfterRollback();
      RestartAfter(was);
    }

    /** The cache agrees with the file; the counters and the lock start over. */
    method RestartAfter(ghost was: map<nat, Slot>)
      requires Keyed() && Listed({}) && Cache() == ReloadedAll(was, base) && Counted(was, pinnedPages, unfilled, {})
      requires journal.Idle() && !journal.valid && journal.db == base != [] && totalPages == |base| && modified == {}
      modifies this`initialPages, this`pages, this`unfilled, journal
      ensures Valid({}) && !journal.valid && pages == base == journal.db && PinnedOf(Cache()) == PinnedOf(was)
      ensures journal.crashes == old(journal.crashes)
    {
      hide StateOk, CacheOk, Counted, Cache, Journal.Idle, Keyed, Listed, ReloadedAll, PinnedOf;
      StartOver(was);
      initialPages := totalPages;
      journal.UnlockWrite();
    }

    /** Under the exclusive lock sets the file back to what it was, makes that durable, and then says that the journal is not valid. */
    method RestoreFile()
      requires journal.InTx(base)
      modifies this`totalPages, this`initialPages, journal
      ensures journal.Idle() && !journal.valid && journal.db == base != [] && totalPages == |base|
      ensures Leads(old(journal.crashes), journal.crashes, {base})
    {
      hide Leads, Journal.InTx, Journal.Idle, Journal.Noted, AgreesOff;
      PutPagesBack();
      ghost var c := journal.crashes;
      EndRollback();
      LeadsOn(old(journal.crashes), c, journal.crashes, base);
    }

    /** The recorded pages and the old length, in the file. */
    method PutPagesBack()
      requires journal.InTx(base)
      modifies this`totalPages, this`initialPages, journal
      ensures journal.InTx(base) && journal.db == base != [] && totalPages == |base|
      ensures Leads(old(journal.crashes), journal.crashes, {base})
    {
      hide Leads, Journal.InTx, Journal.Noted, AgreesOff;
      journal.BeginRollback();
      journal.LockExclusive();
      assert 0 < |base| by { journal.BaseNotEmpty(base); }
      var pagecnt := journal.Rollback(base);
      ghost var c := journal.crashes;
      CutExact(journal.db, base);
      if pagecnt != 0 {
        journal.Shrink(pagecnt, base);
        LeadsOn(old(journal.crashes), c, journal.crashes, base);
        totalPages := pagecnt;
        initialPages := pagecnt;
      }
    }

    /** The file is durable, and then the journal says nothing any more. */
    method EndRollback()
      requires journal.InTx(base) && journal.db == base != []
      modifies journal
      ensures journal.Idle() && !journal.valid && journal.db == base
      ensures Leads(old(journal.crashes), journal.crashes, {base})
    {
      hide Leads, Journal.InTx, Journal.Noted, Journal.Settled;
      journal.SyncDb(base);
      ghost var c := journal.crashes;
      journal.InvalidateJournal();
      LeadsOn(old(journal.crashes), c, journal.crashes, base);
    }

    method ReloadPage(page: PageInfo)
      requires totalPages == |journal.db|
      modifies page`data, page`empty, page`dirty
      ensures SlotOf(page) == Reloaded(old(SlotOf(page)), journal.db, page.pgno)
    {
      if page.pgno < totalPages {
        page.data := journal.ReadPage(page.pgno);
        page.empty := false;
      } else {
        page.data := [];
        page.empty := true;
      }
      page.dirty := false;
    }

    /** Brings every cached page in line with the file; pages the file no longer has are emptied. */
    method ReloadCacheAfterRollback()
      requires Keyed() && Listed({}) && totalPages == |journal.db|
      modifies pagesHash.Values
      ensures Keyed() && Listed({}) && Cache() == ReloadedAll(old(Cache()), journal.db)
    {
      hide Distinct;
      ghost var was := Cache();
      var todo := pagesHash.Keys;
      while todo != {}
        invariant Keyed() && Listed({}) && todo <= pagesHash.Keys
        invariant forall p :: p in pagesHash ==>
                    SlotOf(pagesHash[p]) == if p in todo then was[p] else Reloaded(was[p], journal.db, p)
        decreases todo
      {
        var p :| p in todo;
        todo := todo - {p};
        ReloadPage(pagesHash[p]);
      }
    }

    /** Nothing of the transaction is left. */
    ghost method StartOver(was: map<nat, Slot>)
      requires Keyed() && Listed({}) && Cache() == ReloadedAll(was, base) && Counted(was, pinnedPages, unfilled, {})
      requires journal.db == base && totalPages == |base| && modified == {}
      modifies this`pages, this`unfilled
      ensures CacheOk({}) && StateOk(View()) && pages == base && unfilled == {} && PinnedOf(Cache()) == PinnedOf(was)
    {
      hide StateOk, Counted, Distinct, PinnedOf, ReloadedAll, Cache;
      ReloadedOk(was, base);
      CountReloaded(was, pinnedPages, unfilled, base);
      pages, unfilled := base, {};
    }

    /** Begins reading: a transaction that a crash cut off is rolled back first. */
    method BeginTransactionRead()
      requires Openable()
      modifies this`totalPages, this`initialPages, this`modified, this`pages, this`unfilled, pagesHash.Values, journal
      ensures Valid({}) && !journal.valid && pages == base == journal.db && PinnedOf(Cache()) == PinnedOf(old(Cache()))
      ensures Leads(old(journal.crashes), journal.crashes, {base})
    {
      hide Openable, Valid, Cache, PinnedOf, Leads;
      LockShared();
      CheckAndTryRollback();
      CountPages();
    }

    method LockShared()
      requires Openable()
      modifies journal
      ensures Openable() && journal.valid == old(journal.valid) && journal.crashes == old(journal.crashes) && journal.db == old(journal.db)
    {
      hide StateOk, CacheOk, Cache, Journal.InTx, Journal.Idle;
      journal.BeginTransactionRead();
    }

    /** The page count as the file has it. */
    method CountPages()
      requires Openable() && !journal.valid
      modifies this`totalPages, this`initialPages, this`pages
      ensures Valid({}) && pages == base == journal.db
    {
      hide StateOk, CacheOk, Cache, Journal.InTx, Journal.Idle;
      var pagecnt := journal.FetchDbPagecnt();
      initialPages := pagecnt;
      totalPages := pagecnt;
      pages := base;
    }
  }
}
