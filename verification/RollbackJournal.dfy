/** Exclusive or of bytes. */
module ByteXor {
  import opened Values

  function Xor(a: byte, b: byte): byte { ((a as bv8) ^ (b as bv8)) as byte }

  lemma BitsBack(a: byte)
    ensures (a as bv8) as byte == a
  {
  }

  lemma BytesBack(x: bv8, y: bv8)
    ensures x as byte == y as byte ==> x == y
  {
  }

  lemma BitsCancel(x: bv8, y: bv8, z: bv8)
    ensures x ^ y == x ^ z ==> y == z
    ensures x ^ y == y ^ x && 0 ^ x == x
  {
  }

  lemma XorCancels(a: byte, b: byte, c: byte)
    ensures Xor(a, b) == Xor(a, c) ==> b == c
    ensures Xor(a, b) == Xor(b, a) && Xor(0, a) == a
  {
    var x, y, z := a as bv8, b as bv8, c as bv8;
    BitsCancel(x, y, z);
    BytesBack(x ^ y, x ^ z);
    BitsBack(a);
    BitsBack(b);
    BitsBack(c);
  }
}

/** The rollback journal beside the database file, what a crash may leave of both, and recovery. */
module RollbackJournal {
  import opened Values
  import opened ByteXor

  type Page = seq<byte>

  function XorFrom(sum: byte, data: Page): byte
    decreases data
  {
    if data == [] then sum else XorFrom(Xor(sum, data[0]), data[1..])
  }

  function Checksum(data: Page): byte { XorFrom(0, data) }

  lemma {:induction false} SumTells(x: byte, y: byte, data: Page)
    ensures XorFrom(x, data) == XorFrom(y, data) ==> x == y
    decreases data
  {
    if data != [] {
      SumTells(Xor(x, data[0]), Xor(y, data[0]), data[1..]);
      XorCancels(data[0], x, y);
      XorCancels(x, data[0], y);
      XorCancels(y, data[0], x);
    }
  }

  lemma {:induction false} SumNotices(x: byte, data: Page, i: nat, b: byte)
    requires i < |data| && data[i] != b
    ensures XorFrom(x, data[i := b]) != XorFrom(x, data)
    decreases data
  {
    var other := data[i := b];
    if i == 0 {
      assert other[1..] == data[1..];
      SumTells(Xor(x, data[0]), Xor(x, b), data[1..]);
      XorCancels(x, data[0], b);
    } else {
      assert other[1..] == data[1..][i - 1 := b];
      SumNotices(Xor(x, data[0]), data[1..], i - 1, b);
    }
  }

  /** The checksum of one byte is that byte, and a change of any single byte changes the checksum. */
  lemma ChecksumNotices(data: Page, i: nat, b: byte)
    requires i < |data| && data[i] != b
    ensures Checksum(data[i := b]) != Checksum(data) && Checksum([b]) == b
  {
    SumNotices(0, data, i, b);
    XorCancels(b, b, b);
    assert [b][1..] == [] && Checksum([b]) == XorFrom(Xor(0, b), []);
  }

  datatype JRecord = JRecord(pgno: nat, data: Page, sum: byte)

  predicate RecordOk(r: JRecord) { r.sum == Checksum(r.data) }

  /** What is on the disk after a crash: the database file, and the journal with its valid byte, page count and records. */
  datatype Image = Image(db: seq<Page>, valid: bool, pageCount: nat, records: seq<JRecord>)

  function Zeros(n: nat): (z: seq<Page>)
    ensures |z| == n
  {
    seq(n, _ => [])
  }

  /** The file after page p has been written, with a hole in between if p lies past its end. */
  function Written(db: seq<Page>, p: nat, data: Page): (q: seq<Page>)
    ensures |q| == (if p < |db| then |db| else p + 1)
    ensures q[p] == data
    ensures forall i :: 0 <= i < |db| && i != p ==> q[i] == db[i]
  {
    if p < |db| then db[p := data] else db + Zeros(p - |db|) + [data]
  }

  /** The file with the records written back. */
  function Restored(db: seq<Page>, records: seq<JRecord>): seq<Page>
    decreases records
  {
    if records == [] then db else Restored(Written(db, records[0].pgno, records[0].data), records[1..])
  }

  function Cut(db: seq<Page>, n: nat): seq<Page> {
    if n == 0 then db else if n <= |db| then db[..n] else db + Zeros(n - |db|)
  }

  /** The database file after recovery from a crash image. */
  function Recovered(d: Image): seq<Page> {
    if d.valid then Cut(Restored(d.db, d.records), d.pageCount) else d.db
  }

  // ---------------------------------------------------------------- pre-images

  /** Records hold pages of base, each at most once. */
  ghost predicate PreImages(records: seq<JRecord>, base: seq<Page>) {
    && (forall i :: 0 <= i < |records| ==> PreImage(records[i], base))
    && forall i, j :: 0 <= i < j < |records| ==> records[i].pgno != records[j].pgno
  }

  ghost predicate PreImage(r: JRecord, base: seq<Page>) {
    r.pgno < |base| && r.data == base[r.pgno] && RecordOk(r)
  }

  ghost function Saved(records: seq<JRecord>): set<nat> {
    set i | 0 <= i < |records| :: records[i].pgno
  }

  /** The file agrees with base on every page that is not saved. */
  ghost predicate AgreesOff(db: seq<Page>, base: seq<Page>, saved: set<nat>) {
    |base| <= |db| && forall p :: 0 <= p < |base| && p !in saved ==> db[p] == base[p]
  }

  lemma {:induction false} RestoreAgrees(db: seq<Page>, records: seq<JRecord>, base: seq<Page>)
    requires PreImages(records, base) && AgreesOff(db, base, Saved(records))
    ensures AgreesOff(Restored(db, records), base, {})
    decreases records
  {
    if records == [] {
      assert Saved(records) == {};
    } else {
      var r, rest := records[0], records[1..];
      var q := Written(db, r.pgno, r.data);
      assert PreImage(r, base);
      assert PreImages(rest, base) by { PreImagesTail(records, base); }
      SavedCons(records);
      RestoreAgrees(q, rest, base);
    }
  }

  lemma PreImagesTail(records: seq<JRecord>, base: seq<Page>)
    requires PreImages(records, base) && records != []
    ensures PreImages(records[1..], base)
  {
    var rest := records[1..];
    forall i | 0 <= i < |rest| ensures PreImage(rest[i], base) {
      assert PreImage(records[i + 1], base);
    }
  }

  lemma SavedCons(records: seq<JRecord>)
    requires records != []
    ensures Saved(records) == {records[0].pgno} + Saved(records[1..])
  {
    var rest := records[1..];
    assert forall i :: 0 < i < |records| ==> records[i] == rest[i - 1];
    forall p | p in {records[0].pgno} + Saved(rest) ensures p in Saved(records) {
      if p != records[0].pgno {
        var i :| 0 <= i < |rest| && rest[i].pgno == p;
        assert records[i + 1].pgno == p;
      }
    }
  }

  lemma PreImagesPrefix(records: seq<JRecord>, base: seq<Page>, k: nat)
    requires PreImages(records, base) && k <= |records|
    ensures PreImages(records[..k], base)
  {
    var part := records[..k];
    forall i | 0 <= i < |part| ensures PreImage(part[i], base) {
      assert PreImage(records[i], base);
    }
  }

  lemma SavedPrefix(records: seq<JRecord>, j: nat, k: nat)
    requires j <= k <= |records|
    ensures Saved(records[..j]) <= Saved(records[..k])
  {
    forall p | p in Saved(records[..j]) ensures p in Saved(records[..k]) {
      var i :| 0 <= i < j && records[..j][i].pgno == p;
      assert records[..k][i].pgno == p;
    }
  }

  lemma CutExact(db: seq<Page>, base: seq<Page>)
    requires AgreesOff(db, base, {}) && 0 < |base|
    ensures Cut(db, |base|) == base
  {
  }

  /** Recovery with pre-images for everything that may have changed gives the old file. */
  lemma RecoveredBase(d: Image, base: seq<Page>)
    requires d.valid && d.pageCount == |base| && 0 < |base|
    requires PreImages(d.records, base) && AgreesOff(d.db, base, Saved(d.records))
    ensures Recovered(d) == base
  {
    RestoreAgrees(d.db, d.records, base);
    CutExact(Restored(d.db, d.records), base);
  }

  // ---------------------------------------------------------------- the journal

  const NONE_LOCK: nat := 0
  const SHARED_LOCK: nat := 1
  const RESERVED_LOCK: nat := 2
  const EXCLUSIVE_LOCK: nat := 4

  /** What recovery needs of an image to get the file base out of it. */
  ghost predicate Recoverable(d: Image, base: seq<Page>) {
    0 < |base| &&
    if d.valid then d.pageCount == |base| && PreImages(d.records, base) && AgreesOff(d.db, base, Saved(d.records))
    else d.db == base
  }

  lemma RecoverableGives(d: Image, base: seq<Page>)
    requires Recoverable(d, base)
    ensures Recovered(d) == base
  {
    if d.valid { RecoveredBase(d, base); }
  }

  /** Every image that came up between was and now gives one of the files bases. */
  ghost predicate Leads(was: iset<Image>, now: iset<Image>, bases: set<seq<Page>>) {
    was <= now && forall d :: d in now && d !in was ==> exists base :: base in bases && Recoverable(d, base)
  }

  lemma LeadsTrans(a: iset<Image>, b: iset<Image>, c: iset<Image>, x: set<seq<Page>>, y: set<seq<Page>>)
    requires Leads(a, b, x) && Leads(b, c, y)
    ensures Leads(a, c, x + y)
  {
    forall d | d in c && d !in a ensures exists base :: base in x + y && Recoverable(d, base) {
      if d in b {
        var base :| base in x && Recoverable(d, base);
        assert base in x + y;
      } else {
        var base :| base in y && Recoverable(d, base);
        assert base in x + y;
      }
    }
  }

  lemma LeadsSelf(c: iset<Image>, x: set<seq<Page>>)
    ensures Leads(c, c, x)
  {
  }

  lemma LeadsOn(a: iset<Image>, b: iset<Image>, c: iset<Image>, base: seq<Page>)
    requires Leads(a, b, {base}) && Leads(b, c, {base})
    ensures Leads(a, c, {base})
  {
    LeadsTrans(a, b, c, {base}, {base});
    assert {base} + {base} == {base};
  }

  /**
   Both files as the running program sees them, and in ghost fields what of them is certain to survive a crash:
   the file as of the last sync, the page contents written since, bounds on its length, the durable header and the
   number of durable records.
   */
  class Journal {
    var db: seq<Page>
    var present: bool
    var valid: bool
    var pageCount: nat
    var records: seq<JRecord>
    var backupSet: set<nat>
    var dblock: nat
    ghost var dbSynced: seq<Page>
    ghost var written: set<(nat, Page)>
    ghost var minLen: nat
    ghost var maxLen: nat
    ghost var validSynced: bool
    ghost var countSynced: nat
    ghost var recordsSynced: nat
    /** Every image a crash could have left after one of the calls so far. */
    ghost var crashes: iset<Image>

    /** Opens the files as a crash or an orderly end has left them. */
    constructor (d: Image, journalExists: bool)
      requires !journalExists ==> !d.valid
      ensures db == d.db && present == journalExists && valid == d.valid && pageCount == d.pageCount && records == d.records
      ensures backupSet == {} && dblock == NONE_LOCK && Settled()
      ensures validSynced == valid && countSynced == pageCount && recordsSynced == |records| && crashes == iset{}
    {
      crashes := iset{};
      db, present, valid, pageCount, records := d.db, journalExists, d.valid, d.pageCount, d.records;
      backupSet, dblock := {}, NONE_LOCK;
      dbSynced, written, minLen, maxLen := d.db, {}, |d.db|, |d.db|;
      validSynced, countSynced, recordsSynced := d.valid, d.pageCount, |d.records|;
    }

    /** Nothing of the database file is left unsynced. */
    ghost predicate Settled()
      reads this`db, this`dbSynced, this`written, this`minLen, this`maxLen
    {
      dbSynced == db && written == {} && minLen == |db| && maxLen == |db|
    }

    /**
     The images a crash may leave now: each page is as it was synced or as it was written some time since, and past
     the synced end there may be anything; the header is the durable or the current one; unsynced records are lost
     from the end.
     */
    ghost predicate CanLeave(d: Image)
      reads this`dbSynced, this`written, this`minLen, this`maxLen, this`valid, this`pageCount, this`records, this`validSynced,
            this`countSynced, this`recordsSynced
    {
      && minLen <= |d.db| <= maxLen
      && (forall p :: 0 <= p < |d.db| && p < |dbSynced| ==> d.db[p] == dbSynced[p] || (p, d.db[p]) in written)
      && ((d.valid == validSynced && d.pageCount == countSynced) || (d.valid == valid && d.pageCount == pageCount))
      && recordsSynced <= |d.records| <= |records| && d.records == records[..|d.records|]
    }

    /** Everything a crash can leave now is among the crash images. */
    ghost predicate Noted()
      reads this`dbSynced, this`written, this`minLen, this`maxLen, this`valid, this`pageCount, this`records, this`validSynced,
            this`countSynced, this`recordsSynced, this`crashes
    {
      forall d :: CanLeave(d) ==> d in crashes
    }

    /** No transaction: the file is durable and the journal says nothing. */
    ghost predicate Idle()
      reads this`db, this`dbSynced, this`written, this`minLen, this`maxLen, this`valid, this`validSynced, this`records,
            this`recordsSynced
    {
      Settled() && !valid && !validSynced && recordsSynced <= |records|
    }

    /** The pages whose pre-images are durable. */
    ghost function Safe(): set<nat>
      requires recordsSynced <= |records|
      reads this`records, this`recordsSynced
    {
      Saved(records[..recordsSynced])
    }

    /**
     A write transaction, or its undoing, that began with the file base. Until the header is durable the file holds
     base, and other content than base's may have been written to a page only once its pre-image is durable.
     */
    ghost predicate InTx(base: seq<Page>)
      reads this`db, this`dbSynced, this`written, this`minLen, this`maxLen, this`present, this`valid, this`pageCount,
            this`records, this`validSynced, this`countSynced, this`recordsSynced
    {
      && 0 < |base| && present && valid && pageCount == |base|
      && PreImages(records, base) && recordsSynced <= |records|
      && AgreesOff(db, base, Safe()) && AgreesOff(dbSynced, base, Safe())
      && |base| <= minLen <= |dbSynced|
      && (forall w :: w in written && w.0 < |base| ==> w.1 == base[w.0] || w.0 in Safe())
      && (if validSynced then countSynced == |base|
          else db == base && dbSynced == base && maxLen == |base| && forall w :: w in written && w.0 < |base| ==> w.1 == base[w.0])
    }

    /** Whatever a crash leaves in the middle of a transaction, recovery gives the file from before it. */
    lemma CrashSafe(base: seq<Page>, d: Image)
      requires InTx(base) && CanLeave(d)
      ensures Recoverable(d, base) && Recovered(d) == base
    {
      if d.valid {
        var k := |d.records|;
        PreImagesPrefix(records, base, k);
        SavedPrefix(records, recordsSynced, k);
        assert AgreesOff(d.db, base, Saved(d.records));
      } else {
        assert d.db == base;
      }
      RecoverableGives(d, base);
    }

    lemma BaseNotEmpty(base: seq<Page>)
      requires InTx(base)
      ensures 0 < |base|
    {
    }

    /** A transaction's own records pass the check. */
    lemma RecordsOk(base: seq<Page>)
      requires InTx(base)
      ensures forall i :: 0 <= i < |records| ==> RecordOk(records[i])
    {
      forall i | 0 <= i < |records| ensures RecordOk(records[i]) { assert PreImage(records[i], base); }
    }

    /** Outside a transaction a crash loses nothing. */
    lemma IdleSafe(d: Image)
      requires Idle() && CanLeave(d) && 0 < |db|
      ensures Recoverable(d, db) && Recovered(d) == db
    {
      assert d.db == db;
    }

    /** Reopened after a crash with a valid journal, the transaction is still there to be undone. */
    lemma Reopened(d: Image, base: seq<Page>)
      requires Recoverable(d, base) && d.valid && present
      requires db == d.db && valid == d.valid && pageCount == d.pageCount && records == d.records && Settled()
      requires validSynced == valid && countSynced == pageCount && recordsSynced == |records|
      ensures InTx(base)
    {
      assert records[..|records|] == records;
    }

    /** Adds the images a crash may leave now. */
    ghost method Note(base: seq<Page>)
      requires InTx(base) || (Idle() && db == base && 0 < |base|)
      modifies this`crashes
      ensures Noted() && Leads(old(crashes), crashes, {base})
    {
      forall d | CanLeave(d) ensures Recoverable(d, base) {
        if InTx(base) { CrashSafe(base, d); } else { IdleSafe(d); }
      }
      crashes := crashes + iset d | CanLeave(d);
    }

    // ---------------------------------------------------------------- locks

    predicate Writing()
      reads this
    {
      dblock == RESERVED_LOCK || dblock == EXCLUSIVE_LOCK
    }

    method LockExclusive()
      modifies this`dblock
      ensures dblock == EXCLUSIVE_LOCK
    {
      dblock := EXCLUSIVE_LOCK;
    }

    method BeginTransactionRead()
      modifies this`dblock
      ensures dblock == if old(dblock) >= SHARED_LOCK then old(dblock) else SHARED_LOCK
    {
      if dblock < SHARED_LOCK { dblock := SHARED_LOCK; }
    }

    method BeginRollback()
      modifies this`dblock
      ensures dblock == if old(dblock) == EXCLUSIVE_LOCK then EXCLUSIVE_LOCK else RESERVED_LOCK
    {
      if !Writing() { dblock := RESERVED_LOCK; }
    }

    method UnlockWrite()
      modifies this`dblock
      ensures dblock == NONE_LOCK
    {
      dblock := NONE_LOCK;
    }

    // ---------------------------------------------------------------- the database file

    method ReadPage(pgno: nat) returns (data: Page)
      requires pgno < |db|
      ensures data == db[pgno]
    {
      data := db[pgno];
    }

    method FetchDbPagecnt() returns (n: nat)
      ensures n == |db|
    {
      n := |db|;
    }

    method SyncDb(ghost base: seq<Page>)
      requires InTx(base)
      modifies this`dbSynced, this`written, this`minLen, this`maxLen, this`crashes
      ensures Settled() && InTx(base) && Noted() && Leads(old(crashes), crashes, {base})
    {
      dbSynced, written, minLen, maxLen := db, {}, |db|, |db|;
      Note(base);
    }

    /** Writes a page; in a transaction other content than the old one needs a durable pre-image. */
    method WritePage(pgno: nat, data: Page, ghost base: seq<Page>)
      requires InTx(base)
      requires if pgno < |base| then data == base[pgno] || (validSynced && pgno in Safe()) else validSynced
      modifies this`db, this`written, this`maxLen, this`crashes
      ensures db == Written(old(db), pgno, data) && InTx(base) && Noted() && Leads(old(crashes), crashes, {base})
    {
      db := Written(db, pgno, data);
      written := written + {(pgno, data)};
      maxLen := if |db| > maxLen then |db| else maxLen;
      if !validSynced { assert db == base; }
      Note(base);
    }

    /** Sets the file to n pages; in a transaction only to its old length. */
    method Shrink(n: nat, ghost base: seq<Page>)
      requires InTx(base) && n == |base|
      modifies this`db, this`minLen, this`crashes
      ensures db == Cut(old(db), n) && InTx(base) && Noted() && Leads(old(crashes), crashes, {base})
    {
      db := Cut(db, n);
      minLen := if n < minLen then n else minLen;
      Note(base);
    }

    /** A page goes to the file before the end of the transaction: its pre-image must be durable first. */
    method CommitPage(pgno: nat, data: Page, ghost base: seq<Page>)
      requires InTx(base) && (pgno < |base| ==> pgno in Saved(records))
      modifies this
      ensures InTx(base) && validSynced && db == Written(old(db), pgno, data)
      ensures records == old(records) && backupSet == old(backupSet) && dblock == EXCLUSIVE_LOCK
      ensures Noted() && Leads(old(crashes), crashes, {base})
    {
      LockExclusive();
      SyncJournal(base);
      ghost var c := crashes;
      WritePage(pgno, data, base);
      LeadsOn(old(crashes), c, crashes, base);
    }

    // ---------------------------------------------------------------- the journal file

    method SyncJournal(ghost base: seq<Page>)
      requires InTx(base)
      modifies this`validSynced, this`countSynced, this`recordsSynced, this`crashes
      ensures InTx(base) && validSynced && recordsSynced == |records| && Safe() == Saved(records)
      ensures Noted() && Leads(old(crashes), crashes, {base})
    {
      SavedPrefix(records, recordsSynced, |records|);
      assert records[..|records|] == records;
      validSynced, countSynced, recordsSynced := valid, pageCount, |records|;
      Note(base);
    }

    /** A new journal is created with its header not yet durable; an old one is emptied and synced. */
    method BeginTransactionWrite(pagecnt: nat)
      requires !Writing() ==> Idle() && pagecnt == |db| > 0
      modifies this
      ensures old(Writing()) ==> unchanged(this)
      ensures old(!Writing()) ==>
                InTx(db) && valid && db == old(db) && records == [] && backupSet == {} && dblock == RESERVED_LOCK
                && Noted() && Leads(old(crashes), crashes, {db})
    {
      hide InTx, Idle, Noted, Leads;
      if Writing() {
        return;
      }
      StartJournal(pagecnt);
      Note(db);
    }

    method StartJournal(pagecnt: nat)
      requires Idle() && pagecnt == |db| > 0
      modifies this`dblock, this`backupSet, this`present, this`valid, this`pageCount, this`records, this`validSynced, this`countSynced,
               this`recordsSynced
      ensures InTx(db) && valid && records == [] && backupSet == {} && dblock == RESERVED_LOCK
    {
      dblock := RESERVED_LOCK;
      backupSet := {};
      if present {
        ResetJournal(pagecnt);
      } else {
        present, valid, pageCount, records := true, true, pagecnt, [];
        recordsSynced := 0;
      }
    }

    method ResetJournal(pagecnt: nat)
      modifies this`valid, this`pageCount, this`records, this`validSynced, this`countSynced, this`recordsSynced
      ensures valid && pageCount == pagecnt && records == [] && validSynced && countSynced == pagecnt && recordsSynced == 0
    {
      records, valid, pageCount := [], true, pagecnt;
      validSynced, countSynced, recordsSynced := valid, pageCount, 0;
    }

    /** Saves the content a page had at the start of the transaction, once. */
    method BackupPage(pgno: nat, data: Page, ghost base: seq<Page>)
      requires InTx(base) && backupSet == Saved(records) && pgno < |base| && (pgno !in backupSet ==> data == base[pgno])
      modifies this`records, this`backupSet, this`crashes
      ensures InTx(base) && backupSet == Saved(records) == old(backupSet) + {pgno}
      ensures old(Noted()) || pgno !in old(backupSet) ==> Noted()
      ensures Leads(old(crashes), crashes, {base})
    {
      if pgno in backupSet {
        return;
      }
      var checksum: byte := 0;
      assert data[0..] == data;
      for i := 0 to |data|
        invariant XorFrom(checksum, data[i..]) == Checksum(data)
      {
        assert data[i..][0] == data[i] && data[i..][1..] == data[i + 1..];
        checksum := Xor(checksum, data[i]);
      }
      assert data[|data|..] == [];
      ghost var was := records;
      records := records + [JRecord(pgno, data, checksum)];
      AppendRecord(was, JRecord(pgno, data, checksum), base);
      assert records[..recordsSynced] == was[..recordsSynced];
      backupSet := backupSet + {pgno};
      Note(base);
    }

    /** The commit point: a durable header that says the journal is not valid. */
    method InvalidateJournal()
      requires Settled() && 0 < |db|
      modifies this`valid, this`validSynced, this`countSynced, this`recordsSynced, this`backupSet, this`crashes
      ensures Idle() && backupSet == {} && Noted() && Leads(old(crashes), crashes, {db})
    {
      valid := false;
      validSynced, countSynced, recordsSynced := valid, pageCount, |records|;
      backupSet := {};
      Note(db);
    }

    method IsJournalValid() returns (v: bool)
      ensures v == (present && valid)
    {
      v := present && valid;
    }

    /** Whether every record has the checksum of its content. */
    method CheckJournal() returns (ok: bool)
      ensures ok <==> forall i :: 0 <= i < |records| ==> RecordOk(records[i])
    {
      for i := 0 to |records|
        invariant forall j :: 0 <= j < i ==> RecordOk(records[j])
      {
        if records[i].sum != Checksum(records[i].data) {
          return false;
        }
      }
      ok := true;
    }

    /** Writes every record back into the database file. */
    method Rollback(ghost base: seq<Page>) returns (pagecnt: nat)
      requires InTx(base)
      modifies this`db, this`written, this`maxLen, this`crashes
      ensures InTx(base) && pagecnt == |base| && AgreesOff(db, base, {})
      ensures old(Noted()) || records != [] ==> Noted()
      ensures Leads(old(crashes), crashes, {base})
    {
      ghost var db0 := db;
      AgreesMore(db, base, records, recordsSynced);
      RestoreAgrees(db, records, base);
      assert records[0..] == records;
      for i := 0 to |records|
        invariant InTx(base) && Restored(db0, records) == Restored(db, records[i..])
        invariant Leads(old(crashes), crashes, {base})
        invariant old(Noted()) || i > 0 ==> Noted()
      {
        assert records[i..][0] == records[i] && records[i..][1..] == records[i + 1..];
        assert PreImage(records[i], base);
        ghost var c := crashes;
        WritePage(records[i].pgno, records[i].data, base);
        LeadsOn(old(crashes), c, crashes, base);
      }
      assert records[|records|..] == [];
      pagecnt := pageCount;
    }
  }

  lemma AgreesMore(db: seq<Page>, base: seq<Page>, records: seq<JRecord>, k: nat)
    requires k <= |records| && AgreesOff(db, base, Saved(records[..k]))
    ensures AgreesOff(db, base, Saved(records))
  {
    SavedPrefix(records, k, |records|);
    assert records[..|records|] == records;
  }

  lemma AppendRecord(records: seq<JRecord>, r: JRecord, base: seq<Page>)
    requires PreImages(records, base) && PreImage(r, base) && r.pgno !in Saved(records)
    ensures PreImages(records + [r], base) && Saved(records + [r]) == Saved(records) + {r.pgno}
  {
    var more := records + [r];
    forall i | 0 <= i < |more| ensures PreImage(more[i], base) {
      if i < |records| { assert PreImage(records[i], base); }
    }
    forall i, j | 0 <= i < j < |more| ensures more[i].pgno != more[j].pgno {
      assert more[i] == records[i];
      if j == |records| { assert records[i].pgno in Saved(records); }
    }
    assert more[|records|] == r;
    forall p | p in Saved(records) + {r.pgno} ensures p in Saved(more) {
      if p != r.pgno {
        var i :| 0 <= i < |records| && records[i].pgno == p;
        assert more[i].pgno == p;
      } else {
        assert more[|records|].pgno == p;
      }
    }
  }
}
