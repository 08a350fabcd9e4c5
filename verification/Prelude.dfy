/** Types and facts every component shares: results, machine integers, text order, sequence windows. */
module Prelude {

  datatype Option<+T> = None | Some(value: T)

  datatype Result<+T, +E> = Ok(value: T) | Err(error: E)

  // ----- machine integers -----

  const TWO_15 := 0x8000
  const TWO_16 := 0x1_0000
  const TWO_63 := 0x8000_0000_0000_0000
  const TWO_64 := 0x1_0000_0000_0000_0000

  type i16 = n: int | -TWO_15 <= n < TWO_15
  type u16 = n: int | 0 <= n < TWO_16
  type u64 = n: int | 0 <= n < TWO_64
  type i64 = n: int | -TWO_63 <= n < TWO_63

  /** `n as i16`, and a wrapping i16 subtraction: the low sixteen bits, read as a signed number. */
  function WrapI16(n: int): i16 {
    (n + TWO_15) % TWO_16 - TWO_15
  }

  function WrapI64(n: int): i64 {
    (n + TWO_63) % TWO_64 - TWO_63
  }

  /** What Rust does when i64 arithmetic leaves the range: a debug build panics, a release build wraps. */
  datatype Profile = Debug | Release

  function Fit(n: int, p: Profile): Option<i64> {
    if -TWO_63 <= n < TWO_63 then Some(n)
    else if p.Release? then Some(WrapI64(n))
    else None
  }

  /** Integer division of Rust: the quotient is truncated toward zero. */
  function Quot(a: int, b: int): int
    requires b != 0
  {
    if (a >= 0) == (b >= 0) then Abs(a) / Abs(b) else -(Abs(a) / Abs(b))
  }

  function Abs(a: int): nat {
    if a < 0 then -a else a
  }

  /** The remainder is smaller than the divisor and has the sign of the dividend. */
  predicate Truncated(a: int, b: int, product: int) {
    var r := a - product;
    Abs(r) < Abs(b) && (r > 0 ==> a > 0) && (r < 0 ==> a < 0)
  }

  lemma QuotTruncates(a: int, b: int)
    requires b != 0
    ensures Truncated(a, b, b * Quot(a, b))
  {
    hide Truncated, Quot, Abs;
    QuotSigns(a, b);
    DivisionBounds(Abs(a), Abs(b));
    SignedProduct(a, b, Abs(a) / Abs(b), Quot(a, b));
    SignedRemainder(a, b, Abs(b) * (Abs(a) / Abs(b)), b * Quot(a, b));
  }

  lemma QuotSigns(a: int, b: int)
    requires b != 0
    ensures Abs(b) > 0 && Quot(a, b) == if (a >= 0) == (b >= 0) then Abs(a) / Abs(b) else -(Abs(a) / Abs(b))
  {
  }

  lemma DivisionBounds(n: nat, d: nat)
    requires d > 0
    ensures 0 <= d * (n / d) <= n < d * (n / d) + d
  {
  }

  lemma SignedProduct(a: int, b: int, m: int, q: int)
    requires q == if (a >= 0) == (b >= 0) then m else -m
    ensures b * q == if a >= 0 then Abs(b) * m else -(Abs(b) * m)
  {
    Signs(b, m);
  }

  lemma SignedRemainder(a: int, b: int, p: int, product: int)
    requires 0 <= p <= Abs(a) < p + Abs(b) && product == if a >= 0 then p else -p
    ensures Truncated(a, b, product)
  {
  }

  lemma Signs(x: int, y: int)
    ensures (-x) * (-y) == x * y && (-x) * y == -(x * y) && x * (-y) == -(x * y)
  {
  }

  // ----- text order -----

  /** Strict lexicographic order by code point, which is the byte order Rust compares `String`s by. */
  predicate TextLess(a: string, b: string) {
    if b == [] then false
    else if a == [] then true
    else a[0] < b[0] || (a[0] == b[0] && TextLess(a[1..], b[1..]))
  }

  lemma {:induction false} TextLessTotal(a: string, b: string)
    ensures TextLess(a, b) || TextLess(b, a) || a == b
  {
    if a != [] && b != [] && a[0] == b[0] {
      TextLessTotal(a[1..], b[1..]);
      assert a[1..] == b[1..] ==> a == [a[0]] + a[1..] == [b[0]] + b[1..] == b;
    }
  }

  lemma {:induction false} TextLessAsymmetric(a: string, b: string)
    requires TextLess(a, b)
    ensures !TextLess(b, a)
  {
    if a != [] && a[0] == b[0] {
      TextLessAsymmetric(a[1..], b[1..]);
    }
  }

  lemma {:induction false} TextLessTransitive(a: string, b: string, c: string)
    requires TextLess(a, b) && TextLess(b, c)
    ensures TextLess(a, c)
  {
    if a != [] && a[0] == b[0] == c[0] {
      TextLessTransitive(a[1..], b[1..], c[1..]);
    }
  }

  // ----- windows of a sequence -----

  lemma Assoc<T>(a: seq<T>, b: seq<T>, c: seq<T>)
    ensures (a + b) + c == a + (b + c)
  {
  }

  lemma Assoc3<T>(a: seq<T>, b: seq<T>, c: seq<T>, d: seq<T>)
    ensures ((a + b) + c) + d == a + ((b + c) + d)
  {
  }

  /** `part` stands in `s` at position `i`. */
  predicate At<T(==)>(s: seq<T>, i: nat, part: seq<T>) {
    i + |part| <= |s| && s[i..i + |part|] == part
  }

  lemma AtSplit<T>(s: seq<T>, i: nat, a: seq<T>, b: seq<T>)
    requires At(s, i, a + b)
    ensures At(s, i, a) && At(s, i + |a|, b)
  {
    assert s[i..i + |a|] == s[i..i + |a + b|][..|a|];
    assert s[i + |a|..i + |a| + |b|] == s[i..i + |a + b|][|a|..];
  }

  lemma AtIndex<T>(s: seq<T>, i: nat, part: seq<T>, k: nat)
    requires At(s, i, part) && k < |part|
    ensures s[i + k] == part[k]
  {
    assert part[k] == s[i..i + |part|][k];
  }
}
