/** Bytes as six-bit digits, most significant bits first: what every base-64 text is made of. The last
    group may be short; the spare bits of its last digit are zero. */
module Radix64 {
  import opened Prelude

  // ---------- Six-bit digits ----------

  function D0(a: Byte): Byte { a >> 2 }
  function D1(a: Byte, b: Byte): Byte { ((a & 0x03) << 4) | (b >> 4) }
  function D2(b: Byte, c: Byte): Byte { ((b & 0x0F) << 2) | (c >> 6) }
  function D3(c: Byte): Byte { c & 0x3F }

  function B0(c1: Byte, c2: Byte): Byte { (c1 << 2) | ((c2 & 0x30) >> 4) }
  function B1(c2: Byte, c3: Byte): Byte { ((c2 & 0x0F) << 4) | ((c3 & 0x3C) >> 2) }
  function B2(c3: Byte, c4: Byte): Byte { ((c3 & 0x03) << 6) | c4 }

  lemma DigitsThenBytes(a: Byte, b: Byte, c: Byte)
    ensures D0(a) < 64 && D1(a, b) < 64 && D2(b, c) < 64 && D3(c) < 64
    ensures B0(D0(a), D1(a, b)) == a && B1(D1(a, b), D2(b, c)) == b && B2(D2(b, c), D3(c)) == c
  {
  }

  lemma BytesThenDigits(c1: Byte, c2: Byte, c3: Byte, c4: Byte)
    requires c1 < 64 && c2 < 64 && c3 < 64 && c4 < 64
    ensures var a, b, c := B0(c1, c2), B1(c2, c3), B2(c3, c4);
            && D0(a) == c1 && D1(a, b) == c2 && D2(b, c) == c3 && D3(c) == c4
            && D1(a, 0) == c2 & 0x30 && D2(b, 0) == c3 & 0x3C
  {
  }

  /** Three bytes and their four digits are the same 24 bits. */
  lemma SameBits(a: Byte, b: Byte, c: Byte)
    ensures (D0(a) as bv24 << 18) | (D1(a, b) as bv24 << 12) | (D2(b, c) as bv24 << 6) | D3(c) as bv24
            == (a as bv24 << 16) | (b as bv24 << 8) | c as bv24
  {
  }

  // ---------- Bytes and digits ----------

  /** Four digits for three bytes; one byte takes two digits, and two take three. */
  function EncodedLength(n: nat): nat { if n == 0 then 0 else if n < 3 then n + 1 else 4 + EncodedLength(n - 3) }

  function Split(x: seq<Byte>): (v: seq<Byte>)
    ensures |v| == EncodedLength(|x|)
  {
    if |x| == 0 then []
    else if |x| == 1 then [D0(x[0]), D1(x[0], 0)]
    else if |x| == 2 then [D0(x[0]), D1(x[0], x[1]), D2(x[1], 0)]
    else [D0(x[0]), D1(x[0], x[1]), D2(x[1], x[2]), D3(x[2])] + Split(x[3..])
  }

  function Join(v: seq<Byte>, n: nat): (x: seq<Byte>)
    requires |v| == EncodedLength(n)
    ensures |x| == n
    decreases n
  {
    if n == 0 then []
    else if n == 1 then [B0(v[0], v[1])]
    else if n == 2 then [B0(v[0], v[1]), B1(v[1], v[2])]
    else [B0(v[0], v[1]), B1(v[1], v[2]), B2(v[2], v[3])] + Join(v[4..], n - 3)
  }

  lemma {:induction false} JoinUndoesSplit(x: seq<Byte>)
    ensures Join(Split(x), |x|) == x
    decreases |x|
  {
    if |x| <= 3 {
      OneGroup(x);
    } else {
      hide Split, Join, EncodedLength;
      SplitGroup(x);
      GroupLength(|x|);
      GroupLength(3);
      Halves(Split(x[..3]), Split(x[3..]));
      JoinGroup(Split(x), |x|);
      OneGroup(x[..3]);
      JoinUndoesSplit(x[3..]);
      assert x == x[..3] + x[3..];
    }
  }

  lemma Halves<T>(a: seq<T>, b: seq<T>)
    ensures (a + b)[..|a|] == a && (a + b)[|a|..] == b
  {
  }

  lemma OneGroup(x: seq<Byte>)
    requires |x| <= 3
    ensures Join(Split(x), |x|) == x
  {
    hide D0, D1, D2, D3, B0, B1, B2;
    if |x| > 0 {
      DigitsThenBytes(x[0], if |x| >= 2 then x[1] else 0, if |x| >= 3 then x[2] else 0);
    }
    if |x| == 3 { assert Split(x[3..]) == [] && Split(x)[4..] == []; }
  }

  predicate AllSmall(v: seq<Byte>) { forall i :: 0 <= i < |v| ==> v[i] < 64 }

  lemma {:induction false} SplitIsSmall(x: seq<Byte>)
    ensures AllSmall(Split(x))
    decreases |x|
  {
    if |x| > 0 {
      DigitsThenBytes(x[0], if |x| >= 2 then x[1] else 0, if |x| >= 3 then x[2] else 0);
      DigitsThenBytes(x[0], 0, 0);
    }
    if |x| >= 3 {
      SplitIsSmall(x[3..]);
    }
  }

  /** The bits of the last digit that carry data. */
  function Significant(n: nat, d: Byte): Byte { if n % 3 == 1 then d & 0x30 else if n % 3 == 2 then d & 0x3C else d }

  /** The digits with the spare bits of the last one cleared. */
  function Cleared(v: seq<Byte>, n: nat): seq<Byte>
    requires |v| == EncodedLength(n)
  {
    if n == 0 then v else v[|v| - 1 := Significant(n, v[|v| - 1])]
  }

  lemma OneSplit(c1: Byte, c2: Byte)
    requires c1 < 64 && c2 < 64
    ensures Split([B0(c1, c2)]) == [c1, Significant(1, c2)]
  {
    BytesThenDigits(c1, c2, 0, 0);
  }

  lemma TwoSplit(c1: Byte, c2: Byte, c3: Byte)
    requires c1 < 64 && c2 < 64 && c3 < 64
    ensures Split([B0(c1, c2), B1(c2, c3)]) == [c1, c2, Significant(2, c3)]
  {
    BytesThenDigits(c1, c2, c3, 0);
  }

  lemma GroupSplit(c1: Byte, c2: Byte, c3: Byte, c4: Byte, rest: seq<Byte>)
    requires c1 < 64 && c2 < 64 && c3 < 64 && c4 < 64
    ensures Split([B0(c1, c2), B1(c2, c3), B2(c3, c4)] + rest) == [c1, c2, c3, c4] + Split(rest)
  {
    BytesThenDigits(c1, c2, c3, c4);
    var x := [B0(c1, c2), B1(c2, c3), B2(c3, c4)] + rest;
    assert x[3..] == rest;
  }

  lemma GroupLength(n: nat)
    requires n >= 3
    ensures EncodedLength(n) == 4 + EncodedLength(n - 3) && EncodedLength(0) == 0
    ensures n > 3 ==> EncodedLength(n - 3) > 0
  {
  }

  lemma SignificantPeriod(n: nat, d: Byte)
    requires n >= 3
    ensures Significant(n, d) == Significant(n - 3, d) && (n == 3 ==> Significant(n, d) == d)
  {
  }

  lemma ClearedGroup(v: seq<Byte>, n: nat)
    requires n >= 3 && |v| == EncodedLength(n)
    ensures Cleared(v, n) == [v[0], v[1], v[2], v[3]] + Cleared(v[4..], n - 3)
  {
    hide Significant, EncodedLength;
    GroupLength(n);
    assert v == [v[0], v[1], v[2], v[3]] + v[4..];
    SignificantPeriod(n, v[|v| - 1]);
  }

  lemma {:induction false} SplitUndoesJoin(v: seq<Byte>, n: nat)
    requires |v| == EncodedLength(n) && AllSmall(v)
    ensures Split(Join(v, n)) == Cleared(v, n)
    decreases n
  {
    if n == 1 {
      OneSplit(v[0], v[1]);
    } else if n == 2 {
      TwoSplit(v[0], v[1], v[2]);
    } else if n >= 3 {
      SplitUndoesJoin(v[4..], n - 3);
      GroupSplit(v[0], v[1], v[2], v[3], Join(v[4..], n - 3));
      ClearedGroup(v, n);
    }
  }

  // ---------- Group by group ----------

  function GroupSize(n: nat): nat { if n < 3 then n else 3 }

  lemma JoinGroup(v: seq<Byte>, n: nat)
    requires n >= 3 && |v| == EncodedLength(n)
    ensures Join(v, n) == Join(v[..4], 3) + Join(v[4..], n - 3)
  {
  }

  lemma SplitGroup(x: seq<Byte>)
    requires |x| >= 3
    ensures Split(x) == Split(x[..3]) + Split(x[3..])
  {
    var y := x[..3];
    assert y[3..] == [] && y[0] == x[0] && y[1] == x[1] && y[2] == x[2];
    assert Split(y) == [D0(x[0]), D1(x[0], x[1]), D2(x[1], x[2]), D3(x[2])];
  }
}
