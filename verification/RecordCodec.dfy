/** Values and records as bytes. */
module RecordCodec {
  import opened Values
  import opened ByteCodec

  /** How floating-point numbers become eight bytes and back. */
  datatype FloatCodec = FloatCodec(encode: real -> seq<byte>, decode: seq<byte> -> real)

  /** The number is one that eight bytes can hold. */
  predicate FloatOk(fc: FloatCodec, r: real) {
    |fc.encode(r)| == 8 && fc.decode(fc.encode(r)) == r
  }

  function FieldSize(v: Value): (n: nat)
    ensures n > 0
  {
    match v
    case Null => 1
    case Integer(_) => 9
    case Real(_) => 9
    case Text(s) => |TextBytes(s)| + 3
    case Blob(b) => |b| + 3
  }

  /** Texts and blobs carry their length in two bytes, cut off if it does not fit. */
  function FieldBytes(fc: FloatCodec, v: Value): seq<byte> {
    match v
    case Null => [0]
    case Integer(n) => [1] + BeBytes(n, 8)
    case Real(r) => [2] + fc.encode(r)
    case Text(s) => [3] + BeBytes(|TextBytes(s)|, 2) + TextBytes(s)
    case Blob(b) => [4] + BeBytes(|b|, 2) + b
  }

  /** A type byte, then eight bytes, or a two-byte length and that many bytes; the highest byte comes first. */
  lemma FieldLayout(fc: FloatCodec, v: Value)
    ensures var b := FieldBytes(fc, v);
            match v
            case Null => b == [0]
            case Integer(n) => |b| == 9 && b[0] == 1 && forall i :: 0 <= i < 8 ==> b[8 - i] as int == n / Pow256(i) % 256
            case Real(r) => b[0] == 2 && b[1..] == fc.encode(r)
            case Text(s) => |b| >= 3 && b[0] == 3 && (b[1] as int) * 256 + b[2] as int == |TextBytes(s)| % 65536 && b[3..] == TextBytes(s)
            case Blob(c) => |b| >= 3 && b[0] == 4 && (b[1] as int) * 256 + b[2] as int == |c| % 65536 && b[3..] == c
  {
    match v
    case Integer(n) => forall i | 0 <= i < 8 ensures FieldBytes(fc, v)[8 - i] as int == n / Pow256(i) % 256 { BeDigit(n, 8, 7 - i); }
    case Text(s) => TwoBytes(|TextBytes(s)|);
    case Blob(c) => TwoBytes(|c|);
    case _ =>
  }

  lemma TwoBytes(n: nat)
    ensures (BeBytes(n, 2)[0] as int) * 256 + BeBytes(n, 2)[1] as int == n % 65536
  {
    BeDigit(n, 2, 0);
    BeDigit(n, 2, 1);
    assert Pow256(0) == 1 && Pow256(1) == 256;
  }

  function RecordSize(rec: Record): nat {
    if rec == [] then 0 else FieldSize(rec[0]) + RecordSize(rec[1..])
  }

  function RecordBytes(fc: FloatCodec, rec: Record): seq<byte> {
    if rec == [] then [] else FieldBytes(fc, rec[0]) + RecordBytes(fc, rec[1..])
  }

  /** The value at the start of the bytes; None where reading fails, or a text is not valid UTF-8. */
  function FieldAt(fc: FloatCodec, buf: seq<byte>): Option<Value>
    requires buf != []
  {
    match buf[0]
    case 0 => Some(Null)
    case 1 => if |buf| < 9 then None else (Powers(); BeBound(buf[1..9]); Some(Integer(BeValue(buf[1..9]))))
    case 2 => if |buf| < 9 then None else Some(Real(fc.decode(buf[1..9])))
    case 3 =>
      if |buf| < 3 || |buf| < BeValue(buf[1..3]) + 3 then None
      else (match BytesText(buf[3..BeValue(buf[1..3]) + 3])
            case None => None
            case Some(s) => Some(Text(s)))
    case _ =>
      if |buf| < 3 || |buf| < BeValue(buf[1..3]) + 3 then None
      else Some(Blob(buf[3..BeValue(buf[1..3]) + 3]))
  }

  lemma {:induction false} BeBound(b: seq<byte>)
    ensures BeValue(b) < Pow256(|b|)
    decreases |b|
  {
    if b != [] { BeBound(b[..|b| - 1]); }
  }

  /** The values that fill the bytes. */
  function RecordAt(fc: FloatCodec, buf: seq<byte>): Option<Record>
    decreases |buf|
  {
    if buf == [] then Some([])
    else
      match FieldAt(fc, buf)
      case None => None
      case Some(v) =>
        match RecordAt(fc, if FieldSize(v) <= |buf| then buf[FieldSize(v)..] else [])
        case None => None
        case Some(rest) => Some([v] + rest)
  }

  // ---------------------------------------------------------------- the loops

  method GetBytes(fc: FloatCodec, rec: Record) returns (res: seq<byte>)
    ensures res == RecordBytes(fc, rec)
  {
    res := [];
    assert rec[0..] == rec;
    for i := 0 to |rec|
      invariant res + RecordBytes(fc, rec[i..]) == RecordBytes(fc, rec)
    {
      assert rec[i..][1..] == rec[i + 1..];
      ghost var was := res;
      res := res + FieldBytes(fc, rec[i]);
      assert was + (FieldBytes(fc, rec[i]) + RecordBytes(fc, rec[i + 1..])) == res + RecordBytes(fc, rec[i + 1..]);
    }
    assert rec[|rec|..] == [] && res + [] == res;
  }

  method NewRecord(fc: FloatCodec, buf: seq<byte>) returns (r: Option<Record>)
    ensures r == RecordAt(fc, buf)
  {
    var iter: nat := 0;
    var v: Record := [];
    assert buf[0..] == buf;
    AfterNothing(RecordAt(fc, buf));
    while iter < |buf|
      invariant RecordAt(fc, buf) == After(v, RecordAt(fc, From(buf, iter)))
      decreases |buf| - iter
    {
      ghost var rest := From(buf, iter);
      var field := FieldAt(fc, buf[iter..]);
      if field.None? { return None; }
      iter := iter + FieldSize(field.value);
      assert From(buf, iter) == if FieldSize(field.value) <= |rest| then rest[FieldSize(field.value)..] else [];
      AfterMore(v, field.value, RecordAt(fc, From(buf, iter)));
      v := v + [field.value];
    }
    assert From(buf, iter) == [] && v + [] == v;
    return Some(v);
  }

  ghost function From(buf: seq<byte>, i: nat): seq<byte> { if i <= |buf| then buf[i..] else [] }

  ghost function After(v: Record, rest: Option<Record>): Option<Record> {
    match rest
    case None => None
    case Some(r) => Some(v + r)
  }

  lemma AfterNothing(rest: Option<Record>)
    ensures After([], rest) == rest
  {
    if rest.Some? { assert [] + rest.value == rest.value; }
  }

  lemma AfterMore(v: Record, x: Value, rest: Option<Record>)
    ensures After(v, After([x], rest)) == After(v + [x], rest)
  {
    if rest.Some? { assert v + ([x] + rest.value) == v + [x] + rest.value; }
  }

  // ---------------------------------------------------------------- round trip

  /** The length fits in two bytes. */
  predicate LengthFits(v: Value) {
    match v
    case Text(s) => |TextBytes(s)| < 0x1_0000
    case Blob(b) => |b| < 0x1_0000
    case _ => true
  }

  predicate Encodable(fc: FloatCodec, v: Value) {
    v.Real? ==> FloatOk(fc, v.r)
  }

  lemma SizeIs(fc: FloatCodec, v: Value)
    requires Encodable(fc, v)
    ensures FieldSize(v) == |FieldBytes(fc, v)|
  {
  }

  lemma CharLength(b: seq<byte>)
    requires b != [] && FirstChar(b).Some?
    ensures |CharBytes(FirstChar(b).value.0)| == FirstChar(b).value.1 <= |b|
  {
  }

  lemma {:induction false} TextLength(b: seq<byte>)
    ensures BytesText(b).Some? ==> |TextBytes(BytesText(b).value)| == |b|
    decreases |b|
  {
    if b != [] && FirstChar(b).Some? {
      CharLength(b);
      var (c, n) := FirstChar(b).value;
      TextLength(b[n..]);
      if BytesText(b[n..]).Some? {
        assert ([c] + BytesText(b[n..]).value)[1..] == BytesText(b[n..]).value;
      }
    }
  }

  /** One value comes back exactly if its length fits. */
  lemma FieldRoundTrip(fc: FloatCodec, v: Value, rest: seq<byte>)
    requires Encodable(fc, v)
    ensures FieldAt(fc, FieldBytes(fc, v) + rest) == Some(v) <==> LengthFits(v)
  {
    hide BytesText, TextBytes, BeBytes, BeValue, Cut16, Pow256;
    var b := FieldBytes(fc, v) + rest;
    Powers();
    match v
    case Null =>
    case Integer(n) =>
      assert b[1..9] == BeBytes(n, 8);
      BeExact(n, 8);
    case Real(r) =>
      assert b[1..9] == fc.encode(r);
    case Text(s) =>
      LengthRead(b, 3, TextBytes(s), rest);
      TextRoundTrip(s);
      TextLength(b[3..Cut16(|TextBytes(s)|) + 3]);
    case Blob(x) =>
      LengthRead(b, 4, x, rest);
  }

  lemma LengthRead(b: seq<byte>, tag: byte, x: seq<byte>, rest: seq<byte>)
    requires b == [tag] + BeBytes(|x|, 2) + x + rest
    ensures BeValue(b[1..3]) == Cut16(|x|) && b[0] == tag && b[3..Cut16(|x|) + 3] == x[..Cut16(|x|)]
  {
    hide BeBytes, BeValue, Pow256, Cut16;
    var n := BeBytes(|x|, 2);
    LengthCut(|x|);
    Header(b, tag, n, x, rest);
    SliceIn([tag] + n, x, rest, Cut16(|x|));
  }

  lemma Header(b: seq<byte>, tag: byte, n: seq<byte>, x: seq<byte>, rest: seq<byte>)
    requires b == [tag] + n + x + rest && |n| == 2
    ensures b[0] == tag && b[1..3] == n
  {
  }

  /** What two bytes hold of a length. */
  function Cut16(n: nat): (r: nat)
    ensures r <= n && (r == n <==> n < 0x1_0000)
  {
    n % 0x1_0000
  }

  lemma LengthCut(n: nat)
    ensures BeValue(BeBytes(n, 2)) == Cut16(n)
  {
    hide BeBytes, BeValue;
    Powers();
    BeRoundTrip(n, 2);
  }

  lemma SliceIn(a: seq<byte>, x: seq<byte>, c: seq<byte>, k: nat)
    requires k <= |x|
    ensures (a + x + c)[|a|..|a| + k] == x[..k]
  {
  }

  /** A record comes back from its bytes exactly if the length of each of its texts and blobs fits in two bytes. */
  lemma {:induction false} RecordRoundTrip(fc: FloatCodec, rec: Record)
    requires forall i :: 0 <= i < |rec| ==> Encodable(fc, rec[i])
    ensures RecordAt(fc, RecordBytes(fc, rec)) == Some(rec) <==> forall i :: 0 <= i < |rec| ==> LengthFits(rec[i])
    decreases rec
  {
    hide FieldAt, FieldBytes, FieldSize, LengthFits, Encodable;
    if rec != [] {
      var rest := rec[1..];
      var tail := RecordBytes(fc, rest);
      var b := FieldBytes(fc, rec[0]) + tail;
      FieldRoundTrip(fc, rec[0], tail);
      SizeIs(fc, rec[0]);
      RecordRoundTrip(fc, rest);
      assert rec == [rec[0]] + rest;
      if LengthFits(rec[0]) {
        assert b[FieldSize(rec[0])..] == tail;
        assert (forall i :: 0 <= i < |rec| ==> LengthFits(rec[i])) <==> forall i :: 0 <= i < |rest| ==> LengthFits(rest[i]);
        if RecordAt(fc, b) == Some(rec) { assert [rec[0]] + RecordAt(fc, tail).value == rec; assert RecordAt(fc, tail).value == rest; }
      }
    }
  }

  /** What a register stands for as a row: a blob is read as a record, any other value is a record of its own. */
  function RecordFromRegister(fc: FloatCodec, v: Value): Option<Record> {
    match v
    case Blob(b) => RecordAt(fc, b)
    case _ => Some([v])
  }

  /** Making a record in a register and taking it out again changes nothing, if the lengths fit. */
  lemma MakeRecordBack(fc: FloatCodec, fields: Record)
    requires forall i :: 0 <= i < |fields| ==> Encodable(fc, fields[i])
    ensures RecordFromRegister(fc, Blob(RecordBytes(fc, fields))) == Some(fields) <==>
            forall i :: 0 <= i < |fields| ==> LengthFits(fields[i])
  {
    RecordRoundTrip(fc, fields);
  }
}
