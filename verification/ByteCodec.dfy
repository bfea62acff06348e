/** Numbers and texts as bytes: big-endian integers and UTF-8. */
module ByteCodec {
  import opened Values

  function Pow256(k: nat): (p: nat)
    ensures p > 0
  {
    if k == 0 then 1 else 256 * Pow256(k - 1)
  }

  /** The low k bytes of n, the highest first. */
  function BeBytes(n: nat, k: nat): (b: seq<byte>)
    ensures |b| == k
    decreases k
  {
    if k == 0 then [] else BeBytes(n / 256, k - 1) + [n % 256]
  }

  function BeValue(b: seq<byte>): nat
    decreases |b|
  {
    if b == [] then 0 else BeValue(b[..|b| - 1]) * 256 + b[|b| - 1]
  }

  /** Byte i counts the powers of 256 that its distance from the end says. */
  lemma {:induction false} BeDigit(n: nat, k: nat, i: nat)
    requires i < k
    ensures BeBytes(n, k)[i] as int == n / Pow256(k - 1 - i) % 256
    decreases k
  {
    if i < k - 1 {
      BeDigit(n / 256, k - 1, i);
      var p := Pow256(k - 2 - i);
      DivTwice(n, p);
      assert Pow256(k - 1 - i) == 256 * p;
    }
  }

  lemma DivTwice(n: nat, p: nat)
    requires p > 0
    ensures n / 256 / p == n / (256 * p)
  {
    var a := n / 256;
    var q, r := a / p, a % p;
    assert n == 256 * (p * q + r) + n % 256;
    assert 256 * (p * q + r) == (256 * p) * q + 256 * r;
    DivUnique(n, 256 * p, q, 256 * r + n % 256);
    Quotient(n, 256 * p, q, 256 * r + n % 256);
  }

  lemma Quotient(n: nat, p: nat, q: nat, d: nat)
    requires p > 0 && n == p * q + d && d < p
    ensures n / p == q
  {
    DivUnique(n, p, q, d);
    var c := n / p;
    assert p * c + n % p == n;
    assert p * c == p * q;
    SameFactor(p, c, q);
  }

  lemma SameFactor(p: nat, c: nat, q: nat)
    requires p > 0 && p * c == p * q
    ensures c == q
  {
    assert p * (c - q) == 0;
  }

  /** k bytes give back n exactly as far as it fits in them. */
  lemma {:induction false} BeRoundTrip(n: nat, k: nat)
    ensures BeValue(BeBytes(n, k)) == n % Pow256(k)
    decreases k
  {
    if k > 0 {
      var b := BeBytes(n, k);
      assert b[..k - 1] == BeBytes(n / 256, k - 1);
      BeRoundTrip(n / 256, k - 1);
      DivMod(n, Pow256(k - 1));
    }
  }

  lemma DivMod(n: nat, p: nat)
    requires p > 0
    ensures (n / 256) % p * 256 + n % 256 == n % (256 * p)
  {
    var q, r := n / 256, n % 256;
    var c, d := q / p, q % p;
    assert q == c * p + d;
    assert n == 256 * (c * p + d) + r;
    assert n == (256 * p) * c + (256 * d + r) by { assert 256 * (c * p) == (256 * p) * c; }
    assert 256 * d + r < 256 * p;
    DivUnique(n, 256 * p, c, 256 * d + r);
  }

  lemma DivUnique(n: nat, p: nat, c: nat, d: nat)
    requires p > 0 && n == p * c + d && d < p
    ensures n % p == d
  {
    var q := n / p;
    Multiple(n, p);
    Ahead(p, q, c);
    Ahead(p, c, q);
  }

  lemma Multiple(n: nat, p: nat)
    requires p > 0
    ensures n == p * (n / p) + n % p
  {
  }

  lemma Ahead(p: nat, a: nat, b: nat)
    ensures a < b ==> p * a + p <= p * b
  {
    if a < b {
      AtLeast(p, b - a);
      Spread(p, a, b - a);
    }
  }

  lemma Spread(p: nat, a: nat, k: nat)
    ensures p * (a + k) == p * a + p * k
  {
  }

  lemma {:induction false} AtLeast(p: nat, k: nat)
    requires k > 0
    ensures p * k >= p
    decreases k
  {
    if k > 1 {
      AtLeast(p, k - 1);
      Spread(p, k - 1, 1);
    }
  }

  lemma BeExact(n: nat, k: nat)
    requires n < Pow256(k)
    ensures BeValue(BeBytes(n, k)) == n
  {
    BeRoundTrip(n, k);
  }

  lemma Powers()
    ensures Pow256(1) == 0x100 && Pow256(2) == 0x1_0000 && Pow256(4) == 0x1_0000_0000 && Pow256(8) == U64_LIMIT
  {
    assert Pow256(3) == 0x100_0000;
    assert Pow256(5) == 0x100_0000_0000;
    assert Pow256(6) == 0x1_0000_0000_0000;
    assert Pow256(7) == 0x100_0000_0000_0000;
  }

  // ---------------------------------------------------------------- UTF-8

  function Tail(n: nat): byte { 128 + n % 64 }

  function CharBytes(c: char): (b: seq<byte>)
    ensures 1 <= |b| <= 4
  {
    var n := c as int;
    if n < 0x80 then [n]
    else if n < 0x800 then [192 + n / 64, Tail(n)]
    else if n < 0x1_0000 then [224 + n / 4096, Tail(n / 64), Tail(n)]
    else [240 + n / 262144, Tail(n / 4096), Tail(n / 64), Tail(n)]
  }

  function TextBytes(s: string): seq<byte> {
    if s == [] then [] else CharBytes(s[0]) + TextBytes(s[1..])
  }

  predicate IsTail(b: byte) { 128 <= b < 192 }

  function Low(b: byte): int { b - 128 }

  predicate IsScalar(n: int) { 0 <= n < 0xD800 || 0xE000 <= n < 0x11_0000 }

  /** The first character and the number of its bytes; None if the bytes do not start with one. */
  function FirstChar(b: seq<byte>): Option<(char, nat)>
    requires b != []
  {
    var x: int := b[0];
    if b[0] < 128 then Some((b[0] as char, 1))
    else if 192 <= b[0] < 224 && 2 <= |b| && IsTail(b[1]) then
      var n := (x - 192) * 64 + Low(b[1]);
      if 0x80 <= n then Some((n as char, 2)) else None
    else if 224 <= b[0] < 240 && 3 <= |b| && IsTail(b[1]) && IsTail(b[2]) then
      var n := (x - 224) * 4096 + Low(b[1]) * 64 + Low(b[2]);
      if 0x800 <= n && IsScalar(n) then Some((n as char, 3)) else None
    else if 240 <= b[0] < 248 && 4 <= |b| && IsTail(b[1]) && IsTail(b[2]) && IsTail(b[3]) then
      var n := (x - 240) * 262144 + Low(b[1]) * 4096 + Low(b[2]) * 64 + Low(b[3]);
      if 0x1_0000 <= n && IsScalar(n) then Some((n as char, 4)) else None
    else None
  }

  /** The text, if the bytes are valid UTF-8. */
  function BytesText(b: seq<byte>): Option<string>
    decreases |b|
  {
    if b == [] then Some([])
    else
      match FirstChar(b)
      case None => None
      case Some((c, n)) =>
        if n > |b| || n == 0 then None
        else
          match BytesText(b[n..])
          case None => None
          case Some(rest) => Some([c] + rest)
  }

  lemma Digits3(n: nat)
    ensures n == n / 4096 * 4096 + (n / 64) % 64 * 64 + n % 64
  {
  }

  lemma Digits4(n: nat)
    ensures n == n / 262144 * 262144 + (n / 4096) % 64 * 4096 + (n / 64) % 64 * 64 + n % 64
  {
    var a := n / 64;
    Digits3(a);
    assert a / 64 == n / 4096 && a / 4096 == n / 262144;
  }

  lemma CharRoundTrip(c: char, rest: seq<byte>)
    ensures FirstChar(CharBytes(c) + rest) == Some((c, |CharBytes(c)|))
  {
    var n := c as int;
    var b := CharBytes(c) + rest;
    assert forall i :: 0 <= i < |CharBytes(c)| ==> b[i] == CharBytes(c)[i];
    if 0x800 <= n < 0x1_0000 {
      Digits3(n);
    } else if 0x1_0000 <= n {
      Digits4(n);
    }
  }

  lemma {:induction false} TextRoundTrip(s: string)
    ensures BytesText(TextBytes(s)) == Some(s)
    decreases s
  {
    if s != [] {
      var head, rest := CharBytes(s[0]), TextBytes(s[1..]);
      CharRoundTrip(s[0], rest);
      assert (head + rest)[|head|..] == rest;
      TextRoundTrip(s[1..]);
      assert s == [s[0]] + s[1..];
    }
  }
}
