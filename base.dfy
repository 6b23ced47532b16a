/**
 * Value types shared by the whole model: optional values, bytes, the
 * little-endian 32-bit encodings the engine's binary formats use, and the
 * decimal text that `general::ToString` produces for unsigned integers.
 */
module Base {

  datatype Option<T> = None | Some(value: T)

  /** How a C++ call ends: it returns a value, or it throws an exception carrying a message. */
  datatype Outcome<T> = Return(value: T) | Throw(message: string)

  /** An unsigned 8-bit value (`unsigned char`). */
  type byte = x: int | 0 <= x < 256

  const TwoTo32: int := 0x1_0000_0000
  const TwoTo31: int := 0x8000_0000

  /** The smaller of two naturals. */
  function Min(a: nat, b: nat): (r: nat)
    ensures r <= a && r <= b && (r == a || r == b)
  {
    if a <= b then a else b
  }

  /** `n` zero bytes: what a buffer grows by when it is widened or resized. */
  function Zeros(n: nat): (r: seq<byte>)
    ensures |r| == n && forall k :: 0 <= k < n ==> r[k] == 0
  {
    seq<byte>(n, k => 0)
  }

  /** `s` without its element at `i`: what `vector::erase(begin() + i)` leaves. */
  function RemoveAt<T>(s: seq<T>, i: nat): (r: seq<T>)
    requires i < |s|
    ensures |r| == |s| - 1
    ensures forall j :: 0 <= j < i ==> r[j] == s[j]
    ensures forall j :: i <= j < |r| ==> r[j] == s[j + 1]
  {
    s[..i] + s[i + 1..]
  }

  /** `s` with `w` written over it from position `at` on: a cursor-driven fill of a buffer. */
  function Overwrite<T>(s: seq<T>, at: nat, w: seq<T>): (r: seq<T>)
    requires at + |w| <= |s|
    ensures |r| == |s|
  {
    s[..at] + w + s[at + |w|..]
  }

  /** Position by position: `w` inside the window, `s` outside it. */
  lemma {:induction false} OverwriteAt<T>(s: seq<T>, at: nat, w: seq<T>)
    requires at + |w| <= |s|
    ensures forall j :: 0 <= j < |s| ==> Overwrite(s, at, w)[j] == if at <= j < at + |w| then w[j - at] else s[j]
  {
  }

  /** Updating one position is writing a one-element window there. */
  lemma {:induction false} OverwriteOne<T>(s: seq<T>, i: nat, x: T)
    requires i < |s|
    ensures s[i := x] == Overwrite(s, i, [x])
  {
    assert forall j :: 0 <= j < |s| ==> s[i := x][j] == Overwrite(s, i, [x])[j];
  }

  /** A window written in two parts, the second right after the first, is the whole window written. */
  lemma {:induction false} OverwriteParts<T>(s: seq<T>, at: nat, w1: seq<T>, w2: seq<T>, w: seq<T>, mid: seq<T>, after: seq<T>)
    requires w == w1 + w2 && at + |w| <= |s|
    requires mid == Overwrite(s, at, w1) && after == Overwrite(mid, at + |w1|, w2)
    ensures after == Overwrite(s, at, w)
  {
    OverwriteTwice(s, at, w1, at + |w1|, w2);
  }

  /** Writing nothing leaves the buffer as it was. */
  lemma {:induction false} OverwriteNothing<T>(s: seq<T>, at: nat)
    requires at <= |s|
    ensures Overwrite(s, at, []) == s
  {
    assert s[..at] + [] + s[at..] == s;
  }

  /** What precedes the window, then the window. */
  lemma {:induction false} OverwritePrefix<T>(s: seq<T>, at: nat, w: seq<T>)
    requires at + |w| <= |s|
    ensures Overwrite(s, at, w)[..at + |w|] == s[..at] + w
  {
  }

  /** Writing `w1` and then `w2` right after it is writing `w1 + w2`. */
  lemma {:induction false} OverwriteTwice<T>(s: seq<T>, at: nat, w1: seq<T>, next: nat, w2: seq<T>)
    requires next == at + |w1| && next + |w2| <= |s|
    ensures Overwrite(Overwrite(s, at, w1), next, w2) == Overwrite(s, at, w1 + w2)
  {
    var mid := Overwrite(s, at, w1);
    OverwriteAt(s, at, w1);
    OverwriteAt(mid, next, w2);
    OverwriteAt(s, at, w1 + w2);
    var lhs := Overwrite(mid, next, w2);
    var rhs := Overwrite(s, at, w1 + w2);
    assert forall j :: 0 <= j < |s| ==> lhs[j] == rhs[j];
  }

  /** The four bytes of `x` in little-endian order, as an x86 build lays out an `unsigned int`. */
  function U32Bytes(x: nat): (r: seq<byte>)
    requires x < TwoTo32
    ensures |r| == 4
    ensures DecodeU32(r) == x
  {
    var y := x / 256;
    var z := y / 256;
    [x % 256, y % 256, z % 256, z / 256]
  }

  /** The unsigned value of four little-endian bytes. */
  function DecodeU32(b: seq<byte>): (r: nat)
    requires |b| == 4
    ensures r < TwoTo32
  {
    var b0: int, b1: int, b2: int, b3: int := b[0], b[1], b[2], b[3];
    b0 + 256 * b1 + 65536 * b2 + 16777216 * b3
  }

  /** The signed (two's complement) value of four little-endian bytes, as an `int` field reads them. */
  function DecodeI32(b: seq<byte>): (r: int)
    requires |b| == 4
    ensures -TwoTo31 <= r < TwoTo31
    ensures r >= 0 <==> DecodeU32(b) < TwoTo31
  {
    var u := DecodeU32(b);
    if u < TwoTo31 then u else u - TwoTo32
  }

  /** Decoding is a left inverse of encoding: every 4-byte group decodes and re-encodes to itself. */
  lemma {:induction false} U32BytesDecode(b: seq<byte>)
    requires |b| == 4
    ensures U32Bytes(DecodeU32(b)) == b
  {
    var b0: int, b1: int, b2: int, b3: int := b[0], b[1], b[2], b[3];
    var z := b2 + 256 * b3;
    var y := b1 + 256 * z;
    var x := b0 + 256 * y;
    assert DecodeU32(b) == x;
    ByteSplit(b0, y);
    ByteSplit(b1, z);
    ByteSplit(b2, b3);
    assert b == [b[0], b[1], b[2], b[3]];
  }

  /** The low byte and the rest of `a + 256 * r`. */
  lemma {:induction false} ByteSplit(a: int, r: int)
    requires 0 <= a < 256 && 0 <= r
    ensures (a + 256 * r) % 256 == a && (a + 256 * r) / 256 == r
  {
  }

  function DigitChar(d: nat): (c: char)
    requires d < 10
    ensures '0' <= c <= '9'
  {
    ('0' as int + d) as char
  }

  /** The decimal text of `n` with no leading zeros: what a `std::stringstream` prints for an unsigned value. */
  function NatToString(n: nat): (s: string)
    ensures 1 <= |s|
    ensures forall i :: 0 <= i < |s| ==> '0' <= s[i] <= '9'
    ensures |s| > 1 ==> s[0] != '0'
    decreases n
  {
    if n < 10 then [DigitChar(n)] else NatToString(n / 10) + [DigitChar(n % 10)]
  }

  /** Reads a string of decimal digits back as a number. */
  function ParseDecimal(s: string): nat
    requires forall i :: 0 <= i < |s| ==> '0' <= s[i] <= '9'
  {
    if |s| == 0 then 0
    else 10 * ParseDecimal(s[..|s| - 1]) + (s[|s| - 1] as int - '0' as int)
  }

  /** `ParseDecimal` inverts `NatToString`, so different numbers print differently. */
  lemma {:induction false} ParseNatToString(n: nat)
    ensures ParseDecimal(NatToString(n)) == n
    decreases n
  {
    if n >= 10 {
      var s := NatToString(n);
      assert s[..|s| - 1] == NatToString(n / 10);
      ParseNatToString(n / 10);
    }
  }

  lemma {:induction false} NatToStringInjective(m: nat, n: nat)
    requires NatToString(m) == NatToString(n)
    ensures m == n
  {
    ParseNatToString(m);
    ParseNatToString(n);
  }

  /** Appending to a common prefix keeps distinct suffixes distinct. */
  lemma {:induction false} SuffixCancel<T>(p: seq<T>, a: seq<T>, b: seq<T>)
    requires p + a == p + b
    ensures a == b
  {
    assert a == (p + a)[|p|..];
    assert b == (p + b)[|p|..];
  }

  /** A window of `s` of length `m + n` that holds `a + b` holds `a`, then `b`. */
  lemma {:induction false} SliceSplit<T>(s: seq<T>, at: nat, k: nat, w: seq<T>, a: seq<T>, b: seq<T>, m: nat, n: nat)
    requires at + k <= |s| && s[at..at + k] == w
    requires w == a + b && k == m + n && |a| == m && |b| == n
    ensures s[at..at + m] == a && s[at + m..at + m + n] == b
  {
    assert s[at..at + m] == w[..m];
    assert s[at + m..at + m + n] == w[m..];
  }

  /** A non-empty sequence is its first element followed by the rest. */
  lemma {:induction false} HeadTail<T>(s: seq<T>)
    requires |s| > 0
    ensures [s[0]] + s[1..] == s
  {
    assert ([s[0]] + s[1..])[0] == s[0];
  }

  lemma {:induction false} AppendAssociates<T>(a: seq<T>, b: seq<T>, c: seq<T>)
    ensures a + b + c == a + (b + c)
  {
  }

  /** Appending `b` and then `c` is appending `whole` when `whole` is `b + c`. */
  lemma {:induction false} AppendParts<T>(a: seq<T>, b: seq<T>, c: seq<T>, whole: seq<T>, mid: seq<T>, after: seq<T>)
    requires whole == b + c && mid == a + b && after == mid + c
    ensures after == a + whole
  {
    AppendAssociates(a, b, c);
  }

  /** A position inside a grid of cells `w` wide: cell `k`, offset `j`. */
  function Idx(k: nat, j: nat, w: nat): nat
  {
    k * w + j
  }

  /** Grid positions are in bounds and every position of a grid is one. */
  lemma {:induction false} IdxBound(k: nat, j: nat, w: nat, count: nat)
    requires k < count && j < w
    ensures Idx(k, j, w) < count * w
  {
    assert Idx(k, j, w) < (k + 1) * w <= count * w;
  }

  lemma {:induction false} IdxSplit(p: nat, w: nat)
    requires w > 0
    ensures p % w < w && p == Idx(p / w, p % w, w)
  {
  }

  /** A position before the end of the grid lies in one of its cells. */
  lemma {:induction false} CellBelow(p: nat, w: nat, count: nat)
    requires w > 0 && p < w * count
    ensures p / w < count
  {
    IdxSplit(p, w);
    MulCancelLess(p / w, count, w);
  }

  lemma {:induction false} MulCancelLess(a: int, b: int, w: int)
    requires w > 0 && a * w < b * w
    ensures a < b
  {
  }

  lemma {:induction false} IdxUnique(k: nat, j: nat, w: nat)
    requires j < w
    ensures Idx(k, j, w) / w == k && Idx(k, j, w) % w == j
  {
    var p := Idx(k, j, w);
    IdxSplit(p, w);
    var k', j' := p / w, p % w;
    assert k' * w <= p < (k + 1) * w;
    MulCancelLess(k', k + 1, w);
    assert k * w <= p < (k' + 1) * w;
    MulCancelLess(k, k' + 1, w);
  }

  /** Multiplication facts the cursor arithmetic needs. */
  lemma {:induction false} MulSucc(a: int, w: int)
    ensures (a + 1) * w == a * w + w
  {
  }

  lemma {:induction false} MulMonoLe(a: int, b: int, w: int)
    requires 0 <= a <= b && w >= 0
    ensures a * w <= b * w
  {
  }
}
