/** Whole runs of the pager: transactions of page writes, committed or undone, and recovery from a crash anywhere in them. */
module PagerRun {
  import opened Values
  import opened RollbackJournal
  import opened PageCache
  import opened PagerCache

  /** A change of one page, or a new page at the end. */
  datatype PageOp = Put(pgno: nat, data: Page) | Append(data: Page)

  datatype Transaction = Transaction(ops: seq<PageOp>, commit: bool)

  function Apply(pages: seq<Page>, op: PageOp): (r: seq<Page>)
    ensures |pages| <= |r|
  {
    match op
    case Put(p, data) => if p < |pages| then pages[p := data] else pages
    case Append(data) => pages + [data]
  }

  function ApplyAll(pages: seq<Page>, ops: seq<PageOp>): (r: seq<Page>)
    ensures |pages| <= |r|
    decreases |ops|
  {
    if ops == [] then pages else Apply(ApplyAll(pages, ops[..|ops| - 1]), ops[|ops| - 1])
  }

  /** The database after the transactions that were committed. */
  function After(pages: seq<Page>, txs: seq<Transaction>): (r: seq<Page>)
    ensures |pages| <= |r|
    decreases |txs|
  {
    if txs == [] then pages
    else
      var before := After(pages, txs[..|txs| - 1]);
      if txs[|txs| - 1].commit then ApplyAll(before, txs[|txs| - 1].ops) else before
  }

  /** The databases there were between the transactions. */
  ghost function Stages(pages: seq<Page>, txs: seq<Transaction>): set<seq<Page>> {
    set k | 0 <= k <= |txs| :: After(pages, txs[..k])
  }

  lemma StagesOn(pages: seq<Page>, txs: seq<Transaction>, i: nat)
    requires i < |txs|
    ensures After(pages, txs[..i + 1]) ==
            if txs[i].commit then ApplyAll(After(pages, txs[..i]), txs[i].ops) else After(pages, txs[..i])
    ensures {After(pages, txs[..i]), After(pages, txs[..i + 1])} <= Stages(pages, txs)
  {
    assert txs[..i + 1][..i] == txs[..i] && txs[..i + 1][i] == txs[i];
  }

  /** In a write transaction or between two, with room for one more pinned page and no page half handed out. */
  ghost predicate Ready(p: Pager)
    reads p, p.journal, p.pagesHash.Values, p.lru
  {
    p.Valid({}) && p.unfilled == {} && p.pinnedPages < MAX_PINNED
  }

  /** Announces a fetched page, writes it and lets it go. */
  method Overwrite(p: Pager, page: PageInfo, data: Page)
    requires p.Valid({}) && p.Cached(page) && page.refcnt > 0 && page.pgno < p.totalPages == |p.pages| && p.journal.valid
    requires page.pgno in p.unfilled ==> !page.empty
    modifies page`dirty, page`data, page`refcnt, p`lru, p`pinnedPages, p`unfilled, p`pages, p`modified, p.journal
    ensures p.Valid({}) && p.journal.valid && p.pages == old(p.pages)[page.pgno := data]
    ensures p.unfilled == old(p.unfilled) - {page.pgno} && page.refcnt == old(page.refcnt) - 1
    ensures PinnedOf(p.Cache()) == PinnedOf(old(p.Cache())) - (if page.refcnt == 0 then {page.pgno} else {})
    ensures Leads(old(p.journal.crashes), p.journal.crashes, {p.base})
  {
    hide Pager.Valid, Leads, Pager.SlotOf, Pager.Cache, PinnedOf;
    p.WillModify(page);
    p.Write(page, data);
    p.Release(page);
  }

  /** Fetches a page, announces it, writes it and lets it go. */
  method PutPage(p: Pager, pgno: nat, data: Page)
    requires Ready(p) && p.journal.valid && pgno < p.totalPages
    modifies p`lru, p`pagesHash, p`pinnedPages, p`unfilled, p`pages, p`modified, p.pagesHash.Values, p.journal
    ensures Ready(p) && p.journal.valid && p.pages == old(p.pages)[pgno := data] && p.pinnedPages == old(p.pinnedPages)
    ensures forall e :: e in p.pagesHash.Values ==> e in old(p.pagesHash.Values) || fresh(e)
    ensures Leads(old(p.journal.crashes), p.journal.crashes, {p.base})
  {
    hide Pager.Valid, Leads, PinsKept, Pager.SlotOf, Pager.Cache, PinnedOf, Apply, ApplyAll, After, Stages;
    CountIs(p, pgno);
    var page := p.Fetch(pgno);
    ghost var c := p.journal.crashes;
    Overwrite(p, page, data);
    LeadsOn(old(p.journal.crashes), c, p.journal.crashes, p.base);
    CountIs(p, pgno);
  }

  /** Hands out the page past the end, and counts it. */
  method NewPage(p: Pager) returns (page: PageInfo)
    requires Ready(p) && p.journal.valid
    modifies p`lru, p`pagesHash, p`pinnedPages, p`unfilled, p`pages, p`totalPages, p.pagesHash.Values, p.journal
    ensures p.Valid({}) && p.journal.valid && p.unfilled == {page.pgno} && p.Cached(page)
    ensures page.pgno == old(p.totalPages) && p.totalPages == old(p.totalPages) + 1 && p.pages == old(p.pages) + [page.data]
    ensures page.refcnt == (if page.pgno in old(p.pagesHash) then old(p.pagesHash[p.totalPages].refcnt) else 0) + 1
    ensures page in old(p.pagesHash.Values) || fresh(page)
    ensures PinnedOf(p.Cache()) == PinnedOf(old(p.Cache())) + {page.pgno}
    ensures forall e :: e in p.pagesHash.Values ==> e in old(p.pagesHash.Values) || fresh(e)
    ensures Leads(old(p.journal.crashes), p.journal.crashes, {p.base})
  {
    hide Pager.Valid, Leads, PinsKept, Pager.SlotOf, Pager.Cache, PinnedOf;
    page := p.Fetch(p.totalPages);
    p.ExtendPageCount(p.totalPages + 1);
  }

  /** A new page at the end: handed out, filled and written. */
  method AppendPage(p: Pager, data: Page)
    requires Ready(p) && p.journal.valid
    modifies p`lru, p`pagesHash, p`pinnedPages, p`unfilled, p`pages, p`modified, p`totalPages, p.pagesHash.Values, p.journal
    ensures Ready(p) && p.journal.valid && p.pages == old(p.pages) + [data] && p.pinnedPages == old(p.pinnedPages)
    ensures forall e :: e in p.pagesHash.Values ==> e in old(p.pagesHash.Values) || fresh(e)
    ensures Leads(old(p.journal.crashes), p.journal.crashes, {p.base})
  {
    hide Pager.Valid, Leads, PinsKept, Pager.SlotOf, Pager.Cache, PinnedOf;
    CountIs(p, p.totalPages);
    var page := NewPage(p);
    p.MarkInited(page);
    ghost var c := p.journal.crashes;
    Overwrite(p, page, data);
    LeadsOn(old(p.journal.crashes), c, p.journal.crashes, p.base);
    CountIs(p, page.pgno);
  }

  /** Does one operation as the users of the pager do. */
  method Do(p: Pager, op: PageOp)
    requires Ready(p) && p.journal.valid
    modifies p`lru, p`pagesHash, p`pinnedPages, p`unfilled, p`pages, p`modified, p`totalPages, p.pagesHash.Values, p.journal
    ensures Ready(p) && p.journal.valid && p.pages == Apply(old(p.pages), op) && p.pinnedPages == old(p.pinnedPages)
    ensures Leads(old(p.journal.crashes), p.journal.crashes, {p.base})
    ensures forall e :: e in p.pagesHash.Values ==> e in old(p.pagesHash.Values) || fresh(e)
  {
    hide Pager.Valid, Leads;
    LeadsSelf(p.journal.crashes, {p.base});
    CountIs(p, 0);
    match op
    case Put(pgno, data) => if pgno < p.totalPages { PutPage(p, pgno, data); }
    case Append(data) => AppendPage(p, data);
  }

  lemma CountIs(p: Pager, q: nat)
    requires p.Valid({})
    ensures p.pinnedPages == |PinnedOf(p.Cache())| && |p.pages| == p.totalPages
    ensures q in PinnedOf(p.Cache()) <==> q in p.pagesHash && p.pagesHash[q].refcnt > 0
  {
    assert PinnedOf(p.Cache()) + {} == PinnedOf(p.Cache());
  }

  method DoAll(p: Pager, ops: seq<PageOp>)
    requires Ready(p) && p.journal.valid
    modifies p`lru, p`pagesHash, p`pinnedPages, p`unfilled, p`pages, p`modified, p`totalPages, p.pagesHash.Values, p.journal
    ensures Ready(p) && p.journal.valid && p.pages == ApplyAll(old(p.pages), ops)
    ensures Leads(old(p.journal.crashes), p.journal.crashes, {p.base})
    ensures forall e :: e in p.pagesHash.Values ==> e in old(p.pagesHash.Values) || fresh(e)
  {
    hide Pager.Valid, Leads;
    LeadsSelf(p.journal.crashes, {p.base});
    for i := 0 to |ops|
      invariant Ready(p) && p.journal.valid && p.pages == ApplyAll(old(p.pages), ops[..i])
      invariant Leads(old(p.journal.crashes), p.journal.crashes, {p.base})
      invariant forall e :: e in p.pagesHash.Values ==> e in old(p.pagesHash.Values) || fresh(e)
    {
      ghost var c := p.journal.crashes;
      Do(p, ops[i]);
      LeadsOn(old(p.journal.crashes), c, p.journal.crashes, p.base);
      assert ops[..i + 1][..i] == ops[..i];
    }
    assert ops[..|ops|] == ops;
  }

  /** One transaction: all its changes, or none of them, and after a crash at any moment also all or none. */
  method RunTransaction(p: Pager, tx: Transaction)
    requires Ready(p) && !p.journal.valid
    modifies p, p.pagesHash.Values, p.journal
    ensures Ready(p) && !p.journal.valid && p.base == p.pages == p.journal.db == After(old(p.pages), [tx])
    ensures Leads(old(p.journal.crashes), p.journal.crashes, {old(p.pages), After(old(p.pages), [tx])})
    ensures forall e :: e in p.pagesHash.Values ==> e in old(p.pagesHash.Values) || fresh(e)
  {
    hide Pager.Valid, Leads, Ready, After, ApplyAll;
    ghost var base := p.base;
    DoTransaction(p, tx.ops);
    ghost var c := p.journal.crashes;
    AfterOne(base, tx);
    if tx.commit {
      CommitTransaction(p, base);
      LeadsTrans(old(p.journal.crashes), c, p.journal.crashes, {base}, {base, p.pages});
      assert {base} + {base, p.pages} == {base, p.pages};
    } else {
      UndoTransaction(p);
      LeadsOn(old(p.journal.crashes), c, p.journal.crashes, base);
      assert {base, p.pages} == {base};
    }
  }

  lemma AfterOne(base: seq<Page>, tx: Transaction)
    ensures After(base, [tx]) == if tx.commit then ApplyAll(base, tx.ops) else base
  {
    assert [tx][..0] == [];
  }

  /** Everything of a transaction but its end. */
  method DoTransaction(p: Pager, ops: seq<PageOp>)
    requires Ready(p) && !p.journal.valid
    modifies p, p.pagesHash.Values, p.journal
    ensures Ready(p) && p.journal.valid && p.base == old(p.base) == old(p.pages) && p.pages == ApplyAll(p.base, ops)
    ensures Leads(old(p.journal.crashes), p.journal.crashes, {p.base})
    ensures forall e :: e in p.pagesHash.Values ==> e in old(p.pagesHash.Values) || fresh(e)
  {
    hide Pager.Valid, Leads;
    p.ValidOpenable();
    p.BeginTransactionRead();
    p.ValidOpenable();
    ghost var c := p.journal.crashes;
    p.BeginTransactionWrite();
    LeadsOn(old(p.journal.crashes), c, p.journal.crashes, p.base);
    c := p.journal.crashes;
    DoAll(p, ops);
    LeadsOn(old(p.journal.crashes), c, p.journal.crashes, p.base);
  }

  method CommitTransaction(p: Pager, ghost base: seq<Page>)
    requires Ready(p) && p.journal.valid && p.base == base
    modifies p, p.pagesHash.Values, p.journal
    ensures Ready(p) && !p.journal.valid && p.base == p.pages == p.journal.db == old(p.pages) && p.pagesHash == old(p.pagesHash)
    ensures Leads(old(p.journal.crashes), p.journal.crashes, {base, p.pages})
  {
    hide Pager.Valid, Leads;
    p.EndTransactionWrite();
    p.ValidOpenable();
  }

  method UndoTransaction(p: Pager)
    requires Ready(p) && p.journal.valid
    modifies p, p.pagesHash.Values, p.journal
    ensures Ready(p) && !p.journal.valid && p.base == p.pages == p.journal.db == old(p.base) && p.pagesHash == old(p.pagesHash)
    ensures Leads(old(p.journal.crashes), p.journal.crashes, {p.base})
  {
    hide Pager.Valid, Leads;
    p.ValidOpenable();
    p.CheckAndTryRollback();
    p.ValidOpenable();
  }

  /**
   A session of transactions one after the other: the database ends as the committed ones say, and whenever a crash
   comes, recovery gives the database as it was before or after one of the transactions.
   */
  method Session(p: Pager, txs: seq<Transaction>)
    requires Ready(p) && !p.journal.valid
    modifies p, p.pagesHash.Values, p.journal
    ensures Ready(p) && !p.journal.valid && p.base == p.pages == p.journal.db == After(old(p.pages), txs)
    ensures Leads(old(p.journal.crashes), p.journal.crashes, Stages(old(p.pages), txs))
  {
    hide Pager.Valid, Leads, ApplyAll, Stages;
    ghost var base := p.pages;
    p.ValidOpenable();
    LeadsSelf(p.journal.crashes, Stages(base, txs));
    for i := 0 to |txs|
      invariant Ready(p) && !p.journal.valid && p.base == p.pages == p.journal.db == After(base, txs[..i])
      invariant Leads(old(p.journal.crashes), p.journal.crashes, Stages(base, txs))
      invariant forall e :: e in p.pagesHash.Values ==> e in old(p.pagesHash.Values) || fresh(e)
    {
      ghost var c := p.journal.crashes;
      RunTransaction(p, txs[i]);
      StagesOn(base, txs, i);
      LeadsAmong(old(p.journal.crashes), c, p.journal.crashes, {After(base, txs[..i]), After(base, txs[..i + 1])}, Stages(base, txs));
    }
    assert txs[..|txs|] == txs;
  }

  lemma LeadsAmong(a: iset<Image>, b: iset<Image>, c: iset<Image>, x: set<seq<Page>>, y: set<seq<Page>>)
    requires Leads(a, b, y) && Leads(b, c, x) && x <= y
    ensures Leads(a, c, y)
  {
    LeadsTrans(a, b, c, y, x);
    assert y + x == y;
  }

  /**
   Opens what a crash left. The file comes back as it was when the transaction began, and should there be a crash
   again before that is done, so it does the next time.
   */
  method Recover(d: Image, journalExists: bool, ghost base: seq<Page>) returns (p: Pager)
    requires Recoverable(d, base) && (!journalExists ==> !d.valid)
    ensures fresh(p) && fresh(p.journal) && fresh(p.pagesHash.Values)
    ensures Ready(p) && !p.journal.valid && p.base == p.pages == p.journal.db == base == Recovered(d)
    ensures Leads(iset{}, p.journal.crashes, {base})
  {
    hide Pager.Valid, Leads, Pager.Openable;
    RecoverableGives(d, base);
    var journal := new Journal(d, journalExists);
    if d.valid {
      journal.Reopened(d, base);
    }
    p := new Pager(journal, base);
    assert p.pagesHash.Values == {};
    p.BeginTransactionRead();
    p.ValidOpenable();
  }
}
