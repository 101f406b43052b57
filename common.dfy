/**
 * Values and JavaScript built-ins that the COLLADA importer relies on:
 * Option, parsed coordinates, Array.prototype.slice, the quotient that a
 * `length / stride` division produces, and the decimal rendering of a
 * number that string concatenation performs.
 */
module Common {

  datatype Option<T> = None | Some(value: T)

  /** A parsed coordinate. The importer only compares coordinates with `===`; it never computes with them. */
  type Coord = int

  function Min(a: nat, b: nat): nat { if a < b then a else b }

  /**
   * `s.slice(lo, hi)` for non-negative arguments: both ends are clamped to the
   * length of `s`, and an empty range gives the empty sequence.
   */
  function Slice<T>(s: seq<T>, lo: nat, hi: nat): (r: seq<T>)
    ensures |r| == (if Min(hi, |s|) <= Min(lo, |s|) then 0 else Min(hi, |s|) - lo)
    ensures forall i :: 0 <= i < |r| ==> lo + i < |s| && r[i] == s[lo + i]
  {
    var a, b := Min(lo, |s|), Min(hi, |s|);
    if b <= a then [] else s[a..b]
  }

  lemma SliceWithin<T>(s: seq<T>, lo: nat, hi: nat)
    requires lo <= hi <= |s|
    ensures Slice(s, lo, hi) == s[lo..hi]
  {
  }

  /** A slice that ends inside `a` does not see what is appended after `a`. */
  lemma SliceOfAppend<T>(a: seq<T>, b: seq<T>, lo: nat, hi: nat)
    requires lo <= hi <= |a|
    ensures Slice(a + b, lo, hi) == Slice(a, lo, hi)
  {
    assert (a + b)[lo..hi] == a[lo..hi];
  }

  /** Where record `u` of width `stride` starts: `u * stride`. */
  function RecordStart(u: nat, stride: nat): nat
  {
    u * stride
  }

  /** The number of whole records of width `stride` in `len` elements: `len / stride` rounded down. */
  function RecordCount(len: nat, stride: nat): nat
    requires 0 < stride
  {
    len / stride
  }

  /** `data.slice(u * stride, u * stride + stride)`: record `u`, or less of it past the end of `data`. */
  function Record<T>(data: seq<T>, stride: nat, u: nat): seq<T>
  {
    Slice(data, RecordStart(u, stride), RecordStart(u, stride) + stride)
  }

  /** A slice that ends inside a prefix `data` of `v` is the same slice of `data`. */
  lemma SliceOfPrefix<T>(v: seq<T>, data: seq<T>, lo: nat, hi: nat)
    requires lo <= hi <= |data| <= |v| && v[..|data|] == data
    ensures Slice(v, lo, hi) == Slice(data, lo, hi)
  {
    forall i | lo <= i < hi ensures v[i] == data[i] {
      assert v[..|data|][i] == v[i];
    }
    assert v[lo..hi] == data[lo..hi];
  }

  /**
   * The number `a / b` as JavaScript computes it when the importer divides an
   * array length by a stride: a whole number when the division is exact, and
   * otherwise a fraction, NaN (0/0) or Infinity, which the model keeps unevaluated.
   */
  datatype Count = Whole(n: nat) | Inexact(numerator: nat, denominator: nat)

  function Quotient(a: nat, b: nat): (c: Count)
    ensures c.Whole? <==> b > 0 && a % b == 0
    ensures c.Whole? ==> c.n * b == a
    ensures c.Inexact? ==> c.numerator == a && c.denominator == b
  {
    if b > 0 && a % b == 0 then Whole(a / b) else Inexact(a, b)
  }

  predicate IsDigit(c: char) { '0' <= c <= '9' }

  function DigitChar(d: nat): (c: char)
    requires d < 10
    ensures IsDigit(c) && c as int - '0' as int == d
  {
    ('0' as int + d) as char
  }

  /** How `"world" + n` and `name + (i + 1)` render a non-negative integer: decimal, no leading zeros. */
  function Decimal(n: nat): (s: string)
    ensures |s| > 0
    ensures forall i :: 0 <= i < |s| ==> IsDigit(s[i])
    ensures n >= 10 <==> |s| > 1
    ensures |s| > 1 ==> s[0] != '0'
    decreases n
  {
    if n < 10 then [DigitChar(n)] else Decimal(n / 10) + [DigitChar(n % 10)]
  }

  /** Reads back a string of decimal digits (the partner of Decimal). */
  function ReadDecimal(s: string): nat
    requires forall i :: 0 <= i < |s| ==> IsDigit(s[i])
  {
    if |s| == 0 then 0
    else
      assert IsDigit(s[|s| - 1]);
      ReadDecimal(s[..|s| - 1]) * 10 + (s[|s| - 1] as int - '0' as int)
  }

  lemma {:induction false} DecimalRoundTrip(n: nat)
    ensures ReadDecimal(Decimal(n)) == n
    decreases n
  {
    if n >= 10 {
      var s := Decimal(n);
      assert s[..|s| - 1] == Decimal(n / 10);
      DecimalRoundTrip(n / 10);
    }
  }

  /** Different numbers render as different strings. */
  lemma DecimalInjective(m: nat, n: nat)
    requires m != n
    ensures Decimal(m) != Decimal(n)
  {
    DecimalRoundTrip(m);
    DecimalRoundTrip(n);
  }

  // ----- non-linear arithmetic, one step at a time -----

  lemma Distribute(a: nat, b: nat)
    ensures (a + 1) * b == a * b + b
  {
  }

  lemma MulMono(a: nat, b: nat, m: nat)
    requires a <= b
    ensures a * m <= b * m
  {
  }

  lemma MulLess(a: nat, b: nat, m: nat)
    requires a * m < b * m
    ensures a < b
  {
    if b <= a {
      MulMono(b, a, m);
    }
  }

  /** Record `u` of width `m` ends where record `c` starts or before. */
  lemma RecordFits(u: nat, c: nat, m: nat)
    requires u < c
    ensures RecordStart(u, m) + m <= RecordStart(c, m)
  {
    Distribute(u, m);
    MulMono(u + 1, c, m);
  }

  lemma DivBounds(a: nat, m: nat)
    requires 0 < m
    ensures RecordStart(RecordCount(a, m), m) <= a < RecordStart(RecordCount(a, m), m) + m
  {
  }

  lemma CountMono(a: nat, b: nat, m: nat)
    requires 0 < m && a <= b
    ensures RecordCount(a, m) <= RecordCount(b, m)
  {
    var qa, qb := RecordCount(a, m), RecordCount(b, m);
    DivBounds(a, m);
    DivBounds(b, m);
    Distribute(qb, m);
    assert qa * m < (qb + 1) * m;
    MulLess(qa, qb + 1, m);
  }

  /** A record below the number of whole records lies inside the data. */
  lemma RecordInside(u: nat, len: nat, m: nat)
    requires 0 < m && u < RecordCount(len, m)
    ensures RecordStart(u, m) + m <= len
  {
    RecordFits(u, RecordCount(len, m), m);
    DivBounds(len, m);
  }

  lemma ExactCount(c: nat, m: nat)
    requires 0 < m
    ensures RecordCount(RecordStart(c, m), m) == c && RecordStart(c, m) % m == 0
  {
    var q := (c * m) / m;
    DivBounds(c * m, m);
    Distribute(c, m);
    Distribute(q, m);
    MulLess(q, c + 1, m);
    MulLess(c, q + 1, m);
  }

  /** Appending one record to aligned data adds one to the record count. */
  lemma OneMoreRecord(len: nat, m: nat)
    requires 0 < m && len % m == 0
    ensures (len + m) % m == 0 && RecordCount(len + m, m) == RecordCount(len, m) + 1
    ensures RecordStart(RecordCount(len, m), m) == len
  {
    var c := RecordCount(len, m);
    DivBounds(len, m);
    Distribute(c, m);
    ExactCount(c + 1, m);
  }
}
