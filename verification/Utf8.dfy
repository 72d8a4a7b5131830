/**
 UTF-8 (section 3 of RFC 3629) and the fact both languages' key sorting rests on: Rust's
 `String::cmp` compares bytes, Python's `str` compares code points, and the two agree.
 */
module Utf8 {
  import opened Text

  type Byte = n: int | 0 <= n < 256
  type Bytes = seq<Byte>

  function EncodeChar(c: char): (bytes: Bytes)
    ensures 1 <= |bytes| <= 4
  {
    var n := c as int;
    if n < 0x80 then [n]
    else if n < 0x800 then [0xC0 + n / 64, 0x80 + n % 64]
    else if n < 0x10000 then [0xE0 + n / 4096, 0x80 + n / 64 % 64, 0x80 + n % 64]
    else [0xF0 + n / 262144, 0x80 + n / 4096 % 64, 0x80 + n / 64 % 64, 0x80 + n % 64]
  }

  function Encode(s: string): Bytes {
    if s == "" then [] else EncodeChar(s[0]) + Encode(s[1..])
  }

  /** Rust's `String::cmp(..) == Less`: lexicographic on bytes. */
  predicate BytesLess(a: Bytes, b: Bytes) {
    b != [] && (a == [] || a[0] < b[0] || (a[0] == b[0] && BytesLess(a[1..], b[1..])))
  }

  lemma {:induction false} LessAtFirstDifference(a: Bytes, b: Bytes, i: nat)
    requires i < |a| && i < |b| && a[..i] == b[..i] && a[i] < b[i]
    ensures BytesLess(a, b) && !BytesLess(b, a)
  {
    if i > 0 {
      assert a[0] == a[..i][0] && b[0] == b[..i][0];
      assert a[1..][..i - 1] == a[..i][1..] && b[1..][..i - 1] == b[..i][1..];
      LessAtFirstDifference(a[1..], b[1..], i - 1);
    }
  }

  lemma {:induction false} CommonPrefix(p: Bytes, a: Bytes, b: Bytes)
    ensures BytesLess(p + a, p + b) == BytesLess(a, b)
  {
    if p == [] {
      assert p + a == a && p + b == b;
    } else {
      assert (p + a)[1..] == p[1..] + a && (p + b)[1..] == p[1..] + b;
      CommonPrefix(p[1..], a, b);
    }
  }

  /** Base-64 digits decide order from the most significant one down. */
  lemma DigitOrder(n: nat, m: nat)
    requires n < m
    ensures n / 64 < m / 64 || (n / 64 == m / 64 && n % 64 < m % 64)
  {
  }

  lemma DivideTwice(n: nat)
    ensures n / 4096 == n / 64 / 64 && n / 262144 == n / 64 / 64 / 64
  {
  }

  /** Encodings of different characters already differ, in the right direction, before either ends. */
  lemma CharOrder(c: char, d: char) returns (i: nat)
    requires c < d
    ensures i < |EncodeChar(c)| && i < |EncodeChar(d)|
    ensures EncodeChar(c)[..i] == EncodeChar(d)[..i] && EncodeChar(c)[i] < EncodeChar(d)[i]
  {
    var n, m := c as int, d as int;
    if |EncodeChar(c)| != |EncodeChar(d)| {
      i := 0;
    } else {
      i := SameLengthOrder(n, m, c, d);
    }
  }

  lemma SameLengthOrder(n: nat, m: nat, c: char, d: char) returns (i: nat)
    requires n == c as int && m == d as int && n < m && |EncodeChar(c)| == |EncodeChar(d)|
    ensures i < |EncodeChar(c)| && EncodeChar(c)[..i] == EncodeChar(d)[..i]
    ensures EncodeChar(c)[i] < EncodeChar(d)[i]
  {
    DivideTwice(n);
    DivideTwice(m);
    var last := |EncodeChar(c)| - 1;
    DigitOrder(n, m);
    if n < 0x80 || n / 64 == m / 64 {
      i := last;
    } else if n < 0x800 {
      i := 0;
    } else {
      DigitOrder(n / 64, m / 64);
      if n / 64 / 64 == m / 64 / 64 {
        i := last - 1;
      } else if n < 0x10000 {
        i := 0;
      } else {
        DigitOrder(n / 64 / 64, m / 64 / 64);
        i := if n / 64 / 64 / 64 == m / 64 / 64 / 64 then 1 else 0;
      }
    }
  }

  /** The four forms of section 3 of RFC 3629, each for its own range, with the character's bits in them. */
  lemma EncodedForm(c: char)
    ensures var n: int, b: seq<int> := c as int, EncodeChar(c);
      if n <= 0x7F then b == [n]
      else if n <= 0x7FF then |b| == 2 && 0xC2 <= b[0] <= 0xDF && 0x80 <= b[1] <= 0xBF && n == (b[0] - 0xC0) * 64 + (b[1] - 0x80)
      else if n <= 0xFFFF then
        && |b| == 3 && 0xE0 <= b[0] <= 0xEF && 0x80 <= b[1] <= 0xBF && 0x80 <= b[2] <= 0xBF
        && n == ((b[0] - 0xE0) * 64 + (b[1] - 0x80)) * 64 + (b[2] - 0x80)
      else
        && |b| == 4 && 0xF0 <= b[0] <= 0xF4 && 0x80 <= b[1] <= 0xBF && 0x80 <= b[2] <= 0xBF && 0x80 <= b[3] <= 0xBF
        && n == (((b[0] - 0xF0) * 64 + (b[1] - 0x80)) * 64 + (b[2] - 0x80)) * 64 + (b[3] - 0x80)
  {
    DivideTwice(c as int);
  }

  lemma CharOrderThroughTails(c: char, d: char, x: Bytes, y: Bytes)
    requires c < d
    ensures BytesLess(EncodeChar(c) + x, EncodeChar(d) + y)
    ensures !BytesLess(EncodeChar(d) + y, EncodeChar(c) + x)
  {
    var i := CharOrder(c, d);
    var a, b := EncodeChar(c), EncodeChar(d);
    assert (a + x)[..i] == a[..i] && (b + y)[..i] == b[..i];
    LessAtFirstDifference(a + x, b + y, i);
  }

  /** Comparing UTF-8 bytes and comparing code points order any two strings the same way. */
  lemma {:induction false} KeyOrderAgrees(a: string, b: string)
    ensures BytesLess(Encode(a), Encode(b)) <==> Less(a, b)
  {
    if a != "" && b != "" {
      if a[0] == b[0] {
        CommonPrefix(EncodeChar(a[0]), Encode(a[1..]), Encode(b[1..]));
        KeyOrderAgrees(a[1..], b[1..]);
      } else if a[0] < b[0] {
        CharOrderThroughTails(a[0], b[0], Encode(a[1..]), Encode(b[1..]));
      } else {
        CharOrderThroughTails(b[0], a[0], Encode(b[1..]), Encode(a[1..]));
      }
    }
  }

  /** Different texts have different bytes. */
  lemma EncodeInjective(a: string, b: string)
    requires Encode(a) == Encode(b)
    ensures a == b
  {
    LessTotal(a, b);
    KeyOrderAgrees(a, b);
    KeyOrderAgrees(b, a);
    KeyOrderAgrees(a, a);
    LessTotal(a, a);
  }
}
