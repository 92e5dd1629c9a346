/** Small shared vocabulary: optional values, 32-bit words, and the byte-wise order of strcmp. */
module Prelude {

  datatype Option<+T> = None | Some(value: T)

  type u32 = x: int | 0 <= x < 0x1_0000_0000

  type Byte = bv8

  /** Conversion to a 32-bit int. */
  function Wrap(x: int): (r: int)
    ensures -0x8000_0000 <= r < 0x8000_0000 && (r - x) % 0x1_0000_0000 == 0
  {
    var low := x % 0x1_0000_0000;
    if low < 0x8000_0000 then low else low - 0x1_0000_0000
  }

  /** The sign of strcmp(a, b). */
  function StrCmp(a: string, b: string): (r: int)
    ensures -1 <= r <= 1
  {
    if a == [] && b == [] then 0
    else if a == [] then -1
    else if b == [] then 1
    else if a[0] < b[0] then -1
    else if a[0] > b[0] then 1
    else StrCmp(a[1..], b[1..])
  }

  lemma {:induction false} StrCmpZero(a: string, b: string)
    ensures StrCmp(a, b) == 0 <==> a == b
  {
    if a != [] && b != [] {
      StrCmpZero(a[1..], b[1..]);
      assert a == [a[0]] + a[1..] && b == [b[0]] + b[1..];
    }
  }

  lemma {:induction false} StrCmpAntisymmetric(a: string, b: string)
    ensures StrCmp(a, b) == -StrCmp(b, a)
  {
    if a != [] && b != [] {
      StrCmpAntisymmetric(a[1..], b[1..]);
    }
  }

  lemma {:induction false} StrCmpTransitive(a: string, b: string, c: string)
    requires StrCmp(a, b) <= 0 && StrCmp(b, c) <= 0
    ensures StrCmp(a, c) <= 0
  {
    if a != [] && b != [] && c != [] && a[0] == b[0] == c[0] {
      StrCmpTransitive(a[1..], b[1..], c[1..]);
    }
  }

  /** The first different character decides. */
  lemma {:induction false} StrCmpFirstDifference(p: string, c: char, x: string, d: char, y: string)
    requires c < d
    ensures StrCmp(p + [c] + x, p + [d] + y) == -1
  {
    if p == [] {
      assert p + [c] + x == [c] + x && p + [d] + y == [d] + y;
    } else {
      StrCmpFirstDifference(p[1..], c, x, d, y);
      assert (p + [c] + x)[1..] == p[1..] + [c] + x && (p + [d] + y)[1..] == p[1..] + [d] + y;
    }
  }

  /** Where there is none, the shorter string comes first. */
  lemma {:induction false} StrCmpPrefix(p: string, x: string)
    requires x != []
    ensures StrCmp(p, p + x) == -1
  {
    if p == [] {
      assert p + x == x;
    } else {
      StrCmpPrefix(p[1..], x);
      assert (p + x)[1..] == p[1..] + x;
    }
  }
}
