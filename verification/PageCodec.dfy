/** B-tree nodes as pages of bytes: cell references grow up from the header, cells grow down from the end. */
module PageCodec {
  import opened Values
  import opened ByteCodec
  import opened RecordCodec

  const PAGE_SIZE: nat := 4096
  const HEADER_LEN: nat := 16
  const RCHILD: nat := 4
  const LEFT: nat := 8
  const RIGHT: nat := 12

  datatype PageNode = PageNode(isLeaf: bool, isData: bool, left: nat, right: nat, cells: seq<(Value, Record)>, kids: seq<nat>)

  function CellLen(c: (Value, Record)): nat { 12 + FieldSize(c.0) + RecordSize(c.1) }

  /** Where the first j cells end, counted down from the end of the page. */
  function Start(cells: seq<(Value, Record)>, j: nat): int
    requires j <= |cells|
    decreases j
  {
    if j == 0 then PAGE_SIZE else Start(cells, j - 1) - CellLen(cells[j - 1])
  }

  lemma {:induction false} StartDown(cells: seq<(Value, Record)>, i: nat, j: nat)
    requires i <= j <= |cells|
    ensures Start(cells, j) <= Start(cells, i) <= PAGE_SIZE
    ensures i < j ==> Start(cells, j) + 13 <= Start(cells, i)
    decreases j
  {
    if i < j {
      StartDown(cells, i, j - 1);
    } else if 0 < j {
      StartDown(cells, i - 1, j - 1);
    }
  }

  function CellBytes(fc: FloatCodec, n: PageNode, j: nat): seq<byte>
    requires j < |n.cells| && (!n.isLeaf ==> j < |n.kids|)
  {
    BeBytes(if n.isLeaf then 0 else n.kids[j], 4) + BeBytes(FieldSize(n.cells[j].0), 4) + BeBytes(RecordSize(n.cells[j].1), 4)
    + FieldBytes(fc, n.cells[j].0) + RecordBytes(fc, n.cells[j].1)
  }

  /** A node as it is in the tree: closed or open, its page numbers in four bytes, its numbers in eight. */
  ghost predicate NodeOk(fc: FloatCodec, n: PageNode) {
    && n.left < 0x1_0000_0000 && n.right < 0x1_0000_0000
    && (forall c :: c in n.kids ==> c < 0x1_0000_0000)
    && (if n.isLeaf then n.kids == [] else |n.cells| <= |n.kids| <= |n.cells| + 1)
    && (|n.kids| > |n.cells| ==> n.kids[|n.cells|] != 0)
    && forall c :: c in n.cells ==> CellOk(fc, c)
  }

  ghost predicate CellOk(fc: FloatCodec, c: (Value, Record)) {
    Encodable(fc, c.0) && forall i :: 0 <= i < |c.1| ==> Encodable(fc, c.1[i])
  }

  /** The header, the references and the cells have room on the page. */
  predicate FitsPage(n: PageNode) { HEADER_LEN + 2 * |n.cells| <= Start(n.cells, |n.cells|) }

  // ---------------------------------------------------------------- putting bytes in place

  function Splice(d: seq<byte>, at: nat, b: seq<byte>): (r: seq<byte>)
    requires at + |b| <= |d|
    ensures |r| == |d|
  {
    d[..at] + b + d[at + |b|..]
  }

  lemma SpliceAt(d: seq<byte>, at: nat, b: seq<byte>)
    requires at + |b| <= |d|
    ensures Splice(d, at, b)[at..at + |b|] == b
  {
  }

  lemma SpliceElsewhere(d: seq<byte>, at: nat, b: seq<byte>, lo: nat, hi: nat)
    requires at + |b| <= |d| && lo <= hi <= |d| && (hi <= at || at + |b| <= lo)
    ensures Splice(d, at, b)[lo..hi] == d[lo..hi]
  {
    var r := Splice(d, at, b);
    forall i | lo <= i < hi ensures r[i] == d[i] {
      if at + |b| <= i { assert r[i] == d[at + |b|..][i - (at + |b|)]; }
    }
  }

  lemma SpliceTwice(d: seq<byte>, at: nat, a: seq<byte>, b: seq<byte>)
    requires at + |a| + |b| <= |d|
    ensures Splice(Splice(d, at, a), at + |a|, b) == Splice(d, at, a + b)
  {
  }

  method PutBytes(page: array<byte>, at: nat, b: seq<byte>)
    requires at + |b| <= page.Length
    modifies page
    ensures page[..] == Splice(old(page[..]), at, b)
  {
    for i := 0 to |b|
      invariant forall k :: 0 <= k < i ==> page[at + k] == b[k]
      invariant forall k :: 0 <= k < page.Length && !(at <= k < at + i) ==> page[k] == old(page[k])
    {
      page[at + i] := b[i];
    }
  }

  // ---------------------------------------------------------------- writing

  /** Leaf and data flags, the number of cells, the last child and the two neighbours. */
  ghost predicate HeaderHas(d: seq<byte>, n: PageNode, rchild: nat) {
    && |d| == 4096
    && d[0] == (if n.isLeaf then 1 else 0) && d[1] == (if n.isData then 1 else 0)
    && d[2..4] == BeBytes(|n.cells|, 2) && d[4..8] == BeBytes(rchild, 4)
    && d[8..12] == BeBytes(n.left, 4) && d[12..16] == BeBytes(n.right, 4)
  }

  /** Cell j is in its place, and its reference too. */
  ghost predicate CellHas(fc: FloatCodec, d: seq<byte>, n: PageNode, j: nat)
    requires j < |n.cells| && (!n.isLeaf ==> j < |n.kids|)
  {
    && 0 <= Start(n.cells, j + 1) <= Start(n.cells, j) <= |d| && 18 + 2 * j <= |d|
    && d[16 + 2 * j..18 + 2 * j] == BeBytes(Start(n.cells, j + 1), 2)
    && d[Start(n.cells, j + 1)..Start(n.cells, j)] == CellBytes(fc, n, j)
  }

  ghost predicate CellsHave(fc: FloatCodec, d: seq<byte>, n: PageNode, k: nat)
    requires k <= |n.cells| && (!n.isLeaf ==> |n.cells| <= |n.kids|)
  {
    forall j :: 0 <= j < k ==> CellHas(fc, d, n, j)
  }

  /** The page holds the node. */
  ghost predicate PageHas(fc: FloatCodec, d: seq<byte>, n: PageNode) {
    && (!n.isLeaf ==> |n.cells| <= |n.kids|)
    && HeaderHas(d, n, if |n.cells| < |n.kids| then n.kids[|n.cells|] else 0)
    && CellsHave(fc, d, n, |n.cells|)
  }

  lemma CellBytesLength(fc: FloatCodec, n: PageNode, j: nat)
    requires NodeOk(fc, n) && j < |n.cells|
    ensures |CellBytes(fc, n, j)| == CellLen(n.cells[j])
  {
    assert CellOk(fc, n.cells[j]);
    SizeIs(fc, n.cells[j].0);
    RecordSizeIs(fc, n.cells[j].1);
  }

  lemma {:induction false} RecordSizeIs(fc: FloatCodec, rec: Record)
    requires forall i :: 0 <= i < |rec| ==> Encodable(fc, rec[i])
    ensures RecordSize(rec) == |RecordBytes(fc, rec)|
    decreases rec
  {
    if rec != [] {
      SizeIs(fc, rec[0]);
      RecordSizeIs(fc, rec[1..]);
    }
  }

  /** Putting the next cell and its reference leaves the header and the earlier cells alone: they never overlap. */
  lemma CellStep(fc: FloatCodec, d: seq<byte>, n: PageNode, k: nat, rchild: nat)
    requires NodeOk(fc, n) && FitsPage(n) && k < |n.cells| && HeaderHas(d, n, rchild) && CellsHave(fc, d, n, k)
    ensures HEADER_LEN + 2 * |n.cells| <= Start(n.cells, k + 1) && Start(n.cells, k + 1) + |CellBytes(fc, n, k)| == Start(n.cells, k) <= PAGE_SIZE
    ensures var e := Splice(Splice(d, Start(n.cells, k + 1), CellBytes(fc, n, k)), HEADER_LEN + 2 * k, BeBytes(Start(n.cells, k + 1), 2));
            HeaderHas(e, n, rchild) && CellsHave(fc, e, n, k + 1)
  {
    hide CellBytes, BeBytes, CellLen, Splice;
    StartDown(n.cells, k + 1, |n.cells|);
    StartDown(n.cells, 0, k);
    CellBytesLength(fc, n, k);
    StartStep(n.cells, k);
    var at, b, ref := Start(n.cells, k + 1), CellBytes(fc, n, k), HEADER_LEN + 2 * k;
    var m := Splice(d, at, b);
    var e := Splice(m, ref, BeBytes(at, 2));
    HeaderKept(d, n, rchild, at, b);
    HeaderKept(m, n, rchild, ref, BeBytes(at, 2));
    SpliceAt(d, at, b);
    SpliceElsewhere(m, ref, BeBytes(at, 2), at, Start(n.cells, k));
    SpliceAt(m, ref, BeBytes(at, 2));
    forall j | 0 <= j < k + 1 ensures CellHas(fc, e, n, j) {
      if j < k {
        StartDown(n.cells, j + 1, k);
        StartDown(n.cells, 0, j);
        StartDown(n.cells, j, j + 1);
        CellKept(fc, d, n, j, at, b);
        CellKept(fc, m, n, j, ref, BeBytes(at, 2));
      }
    }
  }

  lemma StartStep(cells: seq<(Value, Record)>, k: nat)
    requires k < |cells|
    ensures Start(cells, k + 1) + CellLen(cells[k]) == Start(cells, k)
  {
  }

  lemma HeaderKept(d: seq<byte>, n: PageNode, rchild: nat, at: nat, b: seq<byte>)
    requires HeaderHas(d, n, rchild) && HEADER_LEN <= at && at + |b| <= |d|
    ensures HeaderHas(Splice(d, at, b), n, rchild)
  {
    SpliceElsewhere(d, at, b, 0, 1);
    SpliceElsewhere(d, at, b, 1, 2);
    SpliceElsewhere(d, at, b, 2, 4);
    SpliceElsewhere(d, at, b, RCHILD, RCHILD + 4);
    SpliceElsewhere(d, at, b, LEFT, LEFT + 4);
    SpliceElsewhere(d, at, b, RIGHT, RIGHT + 4);
  }

  lemma CellKept(fc: FloatCodec, d: seq<byte>, n: PageNode, j: nat, at: nat, b: seq<byte>)
    requires j < |n.cells| && (!n.isLeaf ==> j < |n.kids|) && CellHas(fc, d, n, j) && at + |b| <= |d|
    requires HEADER_LEN + 2 * j + 2 <= at || at + |b| <= HEADER_LEN + 2 * j
    requires Start(n.cells, j) <= at || at + |b| <= Start(n.cells, j + 1)
    ensures CellHas(fc, Splice(d, at, b), n, j)
  {
    hide CellBytes, BeBytes, Splice;
    SpliceElsewhere(d, at, b, HEADER_LEN + 2 * j, HEADER_LEN + 2 * j + 2);
    SpliceElsewhere(d, at, b, Start(n.cells, j + 1), Start(n.cells, j));
  }

  /** Fills the page: header, then cell by cell from the end downwards, each with its reference. */
  method WriteBuf(fc: FloatCodec, n: PageNode, page: array<byte>)
    requires NodeOk(fc, n) && FitsPage(n) && page.Length == PAGE_SIZE
    modifies page
    ensures PageHas(fc, page[..], n)
  {
    hide CellBytes, BeBytes, CellLen, Splice, CellHas, HeaderHas, FieldBytes, RecordBytes;
    StartDown(n.cells, 0, |n.cells|);
    WriteHeader(fc, n, page);
    var prevstart := PAGE_SIZE;
    var refIdx := HEADER_LEN;
    for k := 0 to |n.cells|
      invariant HeaderHas(page[..], n, 0) && CellsHave(fc, page[..], n, k)
      invariant prevstart == Start(n.cells, k) && refIdx == HEADER_LEN + 2 * k
    {
      CellStep(fc, page[..], n, k, 0);
      StartStep(n.cells, k);
      var c := n.cells[k];
      var cellLen := 4 + 4 + 4 + FieldSize(c.0) + RecordSize(c.1);
      CellLenIs(c);
      prevstart := prevstart - cellLen;
      WriteCell(fc, n, k, page, prevstart);
      PutBytes(page, refIdx, BeBytes(prevstart, 2));
      refIdx := refIdx + 2;
    }
    if |n.cells| < |n.kids| {
      RchildWritten(fc, page[..], n);
      PutBytes(page, RCHILD, BeBytes(n.kids[|n.kids| - 1], 4));
    }
  }

  lemma CellLenIs(c: (Value, Record))
    ensures CellLen(c) == 12 + FieldSize(c.0) + RecordSize(c.1)
  {
  }

  method WriteHeader(fc: FloatCodec, n: PageNode, page: array<byte>)
    requires NodeOk(fc, n) && FitsPage(n) && page.Length == PAGE_SIZE
    modifies page
    ensures HeaderHas(page[..], n, 0)
  {
    for i := 0 to page.Length
      invariant forall k :: 0 <= k < i ==> page[k] == 0
    {
      page[i] := 0;
    }
    if n.isLeaf { page[0] := 1; }
    if n.isData { page[1] := 1; }
    ghost var d := page[..];
    PutBytes(page, 2, BeBytes(|n.cells|, 2));
    PutBytes(page, LEFT, BeBytes(n.left, 4));
    PutBytes(page, RIGHT, BeBytes(n.right, 4));
    HeaderDone(d, n, page[..]);
  }

  lemma HeaderDone(d: seq<byte>, n: PageNode, e: seq<byte>)
    requires |d| == PAGE_SIZE && d[0] == (if n.isLeaf then 1 else 0) && d[1] == (if n.isData then 1 else 0)
    requires forall k :: 2 <= k < PAGE_SIZE ==> d[k] == 0
    requires e == Splice(Splice(Splice(d, 2, BeBytes(|n.cells|, 2)), LEFT, BeBytes(n.left, 4)), RIGHT, BeBytes(n.right, 4))
    ensures HeaderHas(e, n, 0)
  {
    hide BeBytes, Splice;
    var a := Splice(d, 2, BeBytes(|n.cells|, 2));
    var b := Splice(a, LEFT, BeBytes(n.left, 4));
    SpliceAt(d, 2, BeBytes(|n.cells|, 2));
    SpliceAt(a, LEFT, BeBytes(n.left, 4));
    SpliceAt(b, RIGHT, BeBytes(n.right, 4));
    Untouched3(d, a, b, n, 0, 1);
    Untouched3(d, a, b, n, 1, 2);
    Untouched3(d, a, b, n, RCHILD, RCHILD + 4);
    SpliceElsewhere(a, LEFT, BeBytes(n.left, 4), 2, 4);
    SpliceElsewhere(b, RIGHT, BeBytes(n.right, 4), 2, 4);
    SpliceElsewhere(b, RIGHT, BeBytes(n.right, 4), LEFT, LEFT + 4);
    ZeroBytes(d);
  }

  lemma Untouched3(d: seq<byte>, a: seq<byte>, b: seq<byte>, n: PageNode, lo: nat, hi: nat)
    requires |d| == PAGE_SIZE && a == Splice(d, 2, BeBytes(|n.cells|, 2)) && b == Splice(a, LEFT, BeBytes(n.left, 4))
    requires lo <= hi <= 2 || 4 <= lo <= hi <= LEFT
    ensures Splice(b, RIGHT, BeBytes(n.right, 4))[lo..hi] == d[lo..hi]
  {
    hide BeBytes, Splice;
    SpliceElsewhere(d, 2, BeBytes(|n.cells|, 2), lo, hi);
    SpliceElsewhere(a, LEFT, BeBytes(n.left, 4), lo, hi);
    SpliceElsewhere(b, RIGHT, BeBytes(n.right, 4), lo, hi);
  }

  lemma ZeroBytes(d: seq<byte>)
    requires |d| == PAGE_SIZE && forall k :: 2 <= k < PAGE_SIZE ==> d[k] == 0
    ensures d[RCHILD..RCHILD + 4] == BeBytes(0, 4)
  {
    assert BeBytes(0, 1) == [0];
    assert BeBytes(0, 2) == [0, 0];
    assert BeBytes(0, 3) == [0, 0, 0];
  }

  /** One cell: left child, the two lengths, key and value. */
  method WriteCell(fc: FloatCodec, n: PageNode, k: nat, page: array<byte>, at: nat)
    requires k < |n.cells| && NodeOk(fc, n) && at + |CellBytes(fc, n, k)| <= page.Length
    modifies page
    ensures page[..] == Splice(old(page[..]), at, CellBytes(fc, n, k))
  {
    hide BeBytes, Splice, FieldBytes, RecordBytes, CellOk;
    var c := n.cells[k];
    assert CellOk(fc, c);
    KeySize(fc, c);
    var child := if n.isLeaf then 0 else n.kids[k];
    ghost var a, b, e := BeBytes(child, 4), BeBytes(FieldSize(c.0), 4), BeBytes(RecordSize(c.1), 4);
    ghost var key, val := FieldBytes(fc, c.0), RecordBytes(fc, c.1);
    ghost var d := page[..];
    PutBytes(page, at, BeBytes(child, 4));
    PutBytes(page, at + 4, BeBytes(FieldSize(c.0), 4));
    SpliceTwice(d, at, a, b);
    PutBytes(page, at + 8, BeBytes(RecordSize(c.1), 4));
    SpliceTwice(d, at, a + b, e);
    PutBytes(page, at + 12, FieldBytes(fc, c.0));
    SpliceTwice(d, at, a + b + e, key);
    if RecordSize(c.1) != 0 {
      PutBytes(page, at + 12 + FieldSize(c.0), RecordBytes(fc, c.1));
      SpliceTwice(d, at, a + b + e + key, val);
    } else {
      assert val == [] && a + b + e + key + val == a + b + e + key;
    }
  }

  lemma KeySize(fc: FloatCodec, c: (Value, Record))
    requires CellOk(fc, c)
    ensures |FieldBytes(fc, c.0)| == FieldSize(c.0) && |RecordBytes(fc, c.1)| == RecordSize(c.1)
  {
    SizeIs(fc, c.0);
    RecordSizeIs(fc, c.1);
  }

  lemma RchildWritten(fc: FloatCodec, d: seq<byte>, n: PageNode)
    requires NodeOk(fc, n) && FitsPage(n) && HeaderHas(d, n, 0) && CellsHave(fc, d, n, |n.cells|) && |n.cells| < |n.kids|
    ensures var e := Splice(d, RCHILD, BeBytes(n.kids[|n.kids| - 1], 4)); PageHas(fc, e, n)
  {
    hide CellBytes, BeBytes, CellLen, Splice;
    var b := BeBytes(n.kids[|n.kids| - 1], 4);
    var e := Splice(d, RCHILD, b);
    SpliceAt(d, RCHILD, b);
    SpliceElsewhere(d, RCHILD, b, 0, 1);
    SpliceElsewhere(d, RCHILD, b, 1, 2);
    SpliceElsewhere(d, RCHILD, b, 2, 4);
    SpliceElsewhere(d, RCHILD, b, LEFT, LEFT + 4);
    SpliceElsewhere(d, RCHILD, b, RIGHT, RIGHT + 4);
    forall j | 0 <= j < |n.cells| ensures CellHas(fc, e, n, j) {
      assert CellHas(fc, d, n, j);
      StartDown(n.cells, j + 1, |n.cells|);
      CellKept(fc, d, n, j, RCHILD, b);
    }
  }

  // ---------------------------------------------------------------- loading

  function Bytes4(d: seq<byte>, at: nat): nat
    requires at + 4 <= |d|
  {
    BeValue(d[at..at + 4])
  }

  /** The cell at an offset: left child, key and value; None where reading it fails. */
  function CellAt(fc: FloatCodec, d: seq<byte>, at: nat): Option<(nat, Value, Record)> {
    if |d| < at + 12 then None
    else
      var keylen, vallen := Bytes4(d, at + 4), Bytes4(d, at + 8);
      if |d| < at + 12 + keylen + vallen || keylen == 0 then None
      else
        var kb, vb := d[at + 12..at + 12 + keylen], d[at + 12 + keylen..at + 12 + keylen + vallen];
        match (FieldAt(fc, kb), RecordAt(fc, vb))
        case (Some(key), Some(val)) => Some((Bytes4(d, at), key, val))
        case _ => None
  }

  /** The first k cells, with their left children. */
  function CellsAt(fc: FloatCodec, d: seq<byte>, k: nat): Option<(seq<(Value, Record)>, seq<nat>)>
    requires HEADER_LEN + 2 * k <= |d|
    decreases k
  {
    if k == 0 then Some(([], []))
    else
      match CellsAt(fc, d, k - 1)
      case None => None
      case Some((cells, kids)) =>
        match CellAt(fc, d, BeValue(d[HEADER_LEN + 2 * (k - 1)..HEADER_LEN + 2 * k]))
        case None => None
        case Some((child, key, val)) => Some((cells + [(key, val)], kids + [child]))
  }

  function Load(fc: FloatCodec, d: seq<byte>): Option<PageNode> {
    if |d| < HEADER_LEN || |d| < HEADER_LEN + 2 * BeValue(d[2..4]) then None
    else
      match CellsAt(fc, d, BeValue(d[2..4]))
      case None => None
      case Some((cells, kids)) =>
        var isLeaf, rchild := d[0] != 0, Bytes4(d, RCHILD);
        Some(PageNode(isLeaf, d[1] != 0, Bytes4(d, LEFT), Bytes4(d, RIGHT), cells,
                      (if isLeaf then [] else kids) + if rchild != 0 then [rchild] else []))
  }

  method LoadPage(fc: FloatCodec, page: array<byte>) returns (r: Option<PageNode>)
    ensures r == Load(fc, page[..])
  {
    hide CellAt, BeValue, FieldAt, RecordAt;
    ghost var d := page[..];
    if page.Length < HEADER_LEN { return None; }
    var isLeaf := page[0] != 0;
    var count := BeValue(page[2..4]);
    assert page[2..4] == d[2..4];
    if page.Length < HEADER_LEN + 2 * count { return None; }
    var cells: seq<(Value, Record)> := [];
    var kids: seq<nat> := [];
    ghost var lefts: seq<nat> := [];
    for k := 0 to count
      invariant CellsAt(fc, d, k) == Some((cells, lefts)) && kids == if isLeaf then [] else lefts
    {
      var offset := BeValue(page[HEADER_LEN + 2 * k..HEADER_LEN + 2 * (k + 1)]);
      assert page[HEADER_LEN + 2 * k..HEADER_LEN + 2 * (k + 1)] == d[HEADER_LEN + 2 * k..HEADER_LEN + 2 * (k + 1)];
      var cell := CellAt(fc, page[..], offset);
      if cell.None? {
        NoCells(fc, d, k + 1, count);
        return None;
      }
      if !isLeaf { kids := kids + [cell.value.0]; }
      lefts := lefts + [cell.value.0];
      cells := cells + [(cell.value.1, cell.value.2)];
    }
    var rchild := BeValue(page[RCHILD..RCHILD + 4]);
    assert page[RCHILD..RCHILD + 4] == d[RCHILD..RCHILD + 4];
    assert kids + [] == kids;
    if rchild != 0 { kids := kids + [rchild]; }
    assert page[LEFT..LEFT + 4] == d[LEFT..LEFT + 4] && page[RIGHT..RIGHT + 4] == d[RIGHT..RIGHT + 4];
    return Some(PageNode(isLeaf, page[1] != 0, BeValue(page[LEFT..LEFT + 4]), BeValue(page[RIGHT..RIGHT + 4]), cells, kids));
  }

  lemma {:induction false} NoCells(fc: FloatCodec, d: seq<byte>, k: nat, n: nat)
    requires k <= n && HEADER_LEN + 2 * n <= |d| && CellsAt(fc, d, k).None?
    ensures CellsAt(fc, d, n).None?
    decreases n - k
  {
    if k < n { NoCells(fc, d, k, n - 1); }
  }

  // ---------------------------------------------------------------- round trip

  /** The children as they are read off the cells: a leaf has zeros there. */
  function Lefts(n: PageNode, k: nat): seq<nat>
    requires n.isLeaf || k <= |n.kids|
  {
    if n.isLeaf then seq(k, _ => 0) else n.kids[..k]
  }

  lemma CellRead(fc: FloatCodec, d: seq<byte>, n: PageNode, j: nat)
    requires NodeOk(fc, n) && FitsPage(n) && j < |n.cells| && CellHas(fc, d, n, j) && |d| == PAGE_SIZE
    ensures CellAt(fc, d, Start(n.cells, j + 1)) ==
            Some((if n.isLeaf then 0 else n.kids[j], n.cells[j].0, n.cells[j].1))
  {
    hide BeBytes, BeValue, FieldAt, RecordAt, FieldBytes, RecordBytes, Encodable, CellLen, Start, LengthFits, FieldSize, RecordSize;
    var at := Start(n.cells, j + 1);
    var c := n.cells[j];
    var child := if n.isLeaf then 0 else n.kids[j];
    assert CellOk(fc, c);
    KeySize(fc, c);
    StartStep(n.cells, j);
    StartDown(n.cells, 0, j);
    StartDown(n.cells, j + 1, |n.cells|);
    assert child < 0x1_0000_0000 by { if !n.isLeaf { assert n.kids[j] in n.kids; } }
    FourBytes(child);
    FourBytes(FieldSize(c.0));
    FourBytes(RecordSize(c.1));
    var a, b, e := BeBytes(child, 4), BeBytes(FieldSize(c.0), 4), BeBytes(RecordSize(c.1), 4);
    CellParts(d, at, a, b, e, FieldBytes(fc, c.0), RecordBytes(fc, c.1));
    FieldRoundTrip(fc, c.0, []);
    assert FieldBytes(fc, c.0) + [] == FieldBytes(fc, c.0);
    SmallFits(c.0);
    SmallRecord(c.1);
    RecordRoundTrip(fc, c.1);
  }

  lemma FourBytes(n: nat)
    requires n < 0x1_0000_0000
    ensures BeValue(BeBytes(n, 4)) == n
  {
    Powers();
    BeExact(n, 4);
  }

  lemma CellParts(d: seq<byte>, at: nat, a: seq<byte>, b: seq<byte>, e: seq<byte>, key: seq<byte>, val: seq<byte>)
    requires |a| == |b| == |e| == 4 && at + 12 + |key| + |val| <= |d|
    requires d[at..at + 12 + |key| + |val|] == a + b + e + key + val
    ensures d[at..at + 4] == a && d[at + 4..at + 8] == b && d[at + 8..at + 12] == e
    ensures d[at + 12..at + 12 + |key|] == key && d[at + 12 + |key|..at + 12 + |key| + |val|] == val
  {
    var all := a + b + e + key + val;
    Part(d, at, all, 0, 4);
    Part(d, at, all, 4, 8);
    Part(d, at, all, 8, 12);
    Part(d, at, all, 12, 12 + |key|);
    Part(d, at, all, 12 + |key|, |all|);
    Split5(a, b, e, key, val);
  }

  lemma Split5(a: seq<byte>, b: seq<byte>, e: seq<byte>, key: seq<byte>, val: seq<byte>)
    requires |a| == |b| == |e| == 4
    ensures var all := a + b + e + key + val;
            all[0..4] == a && all[4..8] == b && all[8..12] == e && all[12..12 + |key|] == key && all[12 + |key|..|all|] == val
  {
  }

  lemma Part(d: seq<byte>, at: nat, all: seq<byte>, lo: nat, hi: nat)
    requires at + |all| <= |d| && d[at..at + |all|] == all && lo <= hi <= |all|
    ensures d[at + lo..at + hi] == all[lo..hi]
  {
    var s := d[at..at + |all|];
    var t := d[at + lo..at + hi];
    assert |t| == hi - lo && |s[lo..hi]| == hi - lo;
    forall i | 0 <= i < hi - lo ensures t[i] == s[lo..hi][i] {
      assert t[i] == d[at + lo + i] && s[lo..hi][i] == s[lo + i] && s[lo + i] == d[at + (lo + i)];
    }
  }

  /** What is on a page is short enough for two-byte lengths. */
  lemma SmallFits(v: Value)
    requires FieldSize(v) <= PAGE_SIZE
    ensures LengthFits(v)
  {
  }

  lemma {:induction false} SmallRecord(rec: Record)
    requires RecordSize(rec) <= PAGE_SIZE
    ensures forall i :: 0 <= i < |rec| ==> LengthFits(rec[i])
    decreases rec
  {
    if rec != [] {
      SmallFits(rec[0]);
      SmallRecord(rec[1..]);
      forall i | 0 <= i < |rec| ensures LengthFits(rec[i]) {
        if i > 0 { assert rec[i] == rec[1..][i - 1]; }
      }
    }
  }

  lemma {:induction false} CellsRead(fc: FloatCodec, d: seq<byte>, n: PageNode, k: nat)
    requires NodeOk(fc, n) && FitsPage(n) && |d| == PAGE_SIZE && k <= |n.cells| && CellsHave(fc, d, n, |n.cells|)
    ensures HEADER_LEN + 2 * k <= |d| && CellsAt(fc, d, k) == Some((n.cells[..k], Lefts(n, k)))
    decreases k
  {
    hide CellAt, BeBytes, BeValue, CellBytes, Start, CellLen, CellOk, HeaderHas;
    StartDown(n.cells, 0, |n.cells|);
    if k > 0 {
      CellsRead(fc, d, n, k - 1);
      assert CellHas(fc, d, n, k - 1);
      CellRead(fc, d, n, k - 1);
      StartDown(n.cells, 0, k);
      StartDown(n.cells, k, |n.cells|);
      TwoBytes(Start(n.cells, k));
      assert n.cells[..k] == n.cells[..k - 1] + [n.cells[k - 1]];
      assert Lefts(n, k) == Lefts(n, k - 1) + [if n.isLeaf then 0 else n.kids[k - 1]];
    } else {
      assert Lefts(n, 0) == [] && n.cells[..0] == [];
    }
  }

  lemma TwoBytes(n: nat)
    requires n < 0x1_0000
    ensures BeValue(BeBytes(n, 2)) == n
  {
    Powers();
    BeExact(n, 2);
  }

  /**
   Loading a written page gives the node back: flags, links, cells, and the children of a closed node as of an open
   one.
   */
  lemma LoadWritten(fc: FloatCodec, d: seq<byte>, n: PageNode)
    requires NodeOk(fc, n) && FitsPage(n) && PageHas(fc, d, n)
    ensures Load(fc, d) == Some(n)
  {
    hide BeBytes, BeValue, CellsAt, CellHas;
    StartDown(n.cells, 0, |n.cells|);
    TwoBytes(|n.cells|);
    FourBytes(n.left);
    FourBytes(n.right);
    CellsRead(fc, d, n, |n.cells|);
    assert n.cells[..|n.cells|] == n.cells;
    if |n.cells| < |n.kids| {
      assert n.kids[|n.cells|] in n.kids;
      FourBytes(n.kids[|n.cells|]);
      assert n.kids == n.kids[..|n.cells|] + [n.kids[|n.cells|]];
    } else {
      FourBytes(0);
      var kids: seq<nat> := if n.isLeaf then [] else Lefts(n, |n.cells|);
      assert kids + [] == n.kids;
    }
  }
}
