/** Quoting (src/libvxutil/util.c): base 64 by section 4 of RFC 4648, and backslashes before quotes. */
module Quoting {
  import opened Prelude
  import opened Radix64

  // ---------- The base 64 of RFC 4648 ----------

  /** Capitals, small letters, digits, '+' and '/'. */
  function Letter(d: Byte): Byte {
    if d < 26 then d + 0x41
    else if d < 52 then d - 26 + 0x61
    else if d < 62 then d - 52 + 0x30
    else if d == 62 then 0x2B
    else 0x2F
  }

  function DigitFor(c: Byte): Option<Byte> {
    if 0x41 <= c <= 0x5A then Some(c - 0x41)
    else if 0x61 <= c <= 0x7A then Some(c - 0x61 + 26)
    else if 0x30 <= c <= 0x39 then Some(c - 0x30 + 52)
    else if c == 0x2B then Some(62)
    else if c == 0x2F then Some(63)
    else None
  }

  const PAD: Byte := 0x3D

  lemma LetterInverse(d: Byte)
    requires d < 64
    ensures DigitFor(Letter(d)) == Some(d) && Letter(d) != PAD
  {
  }

  function Letters(v: seq<Byte>): (s: seq<Byte>)
    ensures |s| == |v| && forall i :: 0 <= i < |v| ==> s[i] == Letter(v[i])
  {
    seq(|v|, i requires 0 <= i < |v| => Letter(v[i]))
  }

  function Padding(n: nat): seq<Byte> { if n % 3 == 1 then [PAD, PAD] else if n % 3 == 2 then [PAD] else [] }

  function Encode64(x: seq<Byte>): seq<Byte> { Letters(Split(x)) + Padding(|x|) }

  // ---------- An independent decoder ----------

  /** How many of the last two characters are padding. */
  function Pads(s: seq<Byte>): (p: nat)
    ensures p <= 2 && p <= |s|
  {
    if s == [] || s[|s| - 1] != PAD then 0 else if |s| == 1 || s[|s| - 2] != PAD then 1 else 2
  }

  function DigitsOf(s: seq<Byte>): Option<seq<Byte>> {
    if s == [] then Some([])
    else match (DigitFor(s[0]), DigitsOf(s[1..])) case (Some(d), Some(rest)) => Some([d] + rest) case (_, _) => None
  }

  /** Whole groups of four; the padding tells how many bytes the last group lacks. */
  function Decode64(s: seq<Byte>): Option<seq<Byte>> {
    if |s| % 4 != 0 then None
    else
      var n := |s| / 4 * 3 - Pads(s);
      match DigitsOf(s[..|s| - Pads(s)])
      case None => None
      case Some(v) => if n >= 0 && |v| == EncodedLength(n) then Some(Join(v, n)) else None
  }

  lemma {:induction false} DigitsOfLetters(v: seq<Byte>)
    requires AllSmall(v)
    ensures DigitsOf(Letters(v)) == Some(v)
  {
    if v != [] {
      LetterInverse(v[0]);
      assert Letters(v)[1..] == Letters(v[1..]);
      DigitsOfLetters(v[1..]);
      assert v == [v[0]] + v[1..];
    }
  }

  /** In terms of whole groups and the bytes behind them. */
  lemma {:induction false} LengthOf(groups: nat, rest: nat)
    requires rest < 3
    ensures EncodedLength(3 * groups + rest) == 4 * groups + if rest == 0 then 0 else rest + 1
  {
    if groups > 0 {
      LengthOf(groups - 1, rest);
    }
  }

  lemma LengthIs(n: nat)
    ensures EncodedLength(n) + |Padding(n)| == (n + 2) / 3 * 4
  {
    LengthOf(n / 3, n % 3);
  }

  lemma PadsOfEncoded(x: seq<Byte>)
    ensures Pads(Encode64(x)) == |Padding(|x|)|
    ensures Encode64(x)[..|Encode64(x)| - Pads(Encode64(x))] == Letters(Split(x))
  {
    hide Split, Letter;
    var s, v := Encode64(x), Split(x);
    SplitIsSmall(x);
    if |v| > 0 {
      LetterInverse(v[|v| - 1]);
      assert Letters(v)[|v| - 1] != PAD;
    }
    if |x| % 3 != 0 { assert |v| > 0 by { LengthIs(|x|); } }
  }

  /** Decoding by the standard gives the input back, for every byte string. */
  lemma DecodesToInput(x: seq<Byte>)
    ensures Decode64(Encode64(x)) == Some(x)
  {
    hide Letters, Split, Join, DigitsOf, Encode64, Pads, EncodedLength;
    PadsOfEncoded(x);
    SplitIsSmall(x);
    DigitsOfLetters(Split(x));
    JoinUndoesSplit(x);
    EncodedSize(x);
  }

  lemma GroupsOf(n: nat)
    ensures var groups := (n + 2) / 3;
            groups * 4 / 4 == groups && groups * 4 % 4 == 0 && groups * 3 == n + |Padding(n)|
  {
    var groups, rest := n / 3, n % 3;
    assert n == 3 * groups + rest;
  }

  /** The text has four characters for every three bytes begun. */
  lemma EncodedSize(x: seq<Byte>)
    ensures |Encode64(x)| == (|x| + 2) / 3 * 4
    ensures |Encode64(x)| / 4 * 3 - |Padding(|x|)| == |x| && |Encode64(x)| % 4 == 0
  {
    hide Padding, Split, Letters;
    LengthIs(|x|);
    GroupsOf(|x|);
  }

  // ---------- The program's encoder ----------

  lemma PaddingPeriod(n: nat)
    requires n >= 3
    ensures Padding(n) == Padding(n - 3) && Padding(3) == []
  {
  }

  lemma FirstGroup(s: seq<Byte>, i: nat)
    requires i < |s|
    ensures var n := GroupSize(|s| - i); Encode64(s[i..]) == Encode64(s[i..i + n]) + Encode64(s[i + n..])
  {
    hide Letters, Split, Padding;
    var x := s[i..];
    if |x| > 3 {
      SplitGroup(x);
      LettersConcat(Split(x[..3]), Split(x[3..]));
      assert x[..3] == s[i..i + 3] && x[3..] == s[i + 3..];
      PaddingPeriod(|x|);
    } else {
      NothingEncoded();
      assert s[i..i + |x|] == x && s[i + |x|..] == [] && Encode64([]) == [];
    }
  }

  lemma LettersConcat(a: seq<Byte>, b: seq<Byte>)
    ensures Letters(a + b) == Letters(a) + Letters(b)
  {
  }

  /** The loop body: four characters for up to three bytes. */
  method EncodeGroup(s: seq<Byte>, i: nat) returns (d: seq<Byte>)
    requires i < |s|
    ensures d == Encode64(s[i..i + GroupSize(|s| - i)])
  {
    hide Letter;
    var len := |s| - i;
    if len >= 3 {
      assert s[i..i + 3][3..] == [];
      d := [Letter(D0(s[i])), Letter(D1(s[i], s[i + 1])), Letter(D2(s[i + 1], s[i + 2])), Letter(D3(s[i + 2]))];
    } else if len == 2 {
      d := [Letter(D0(s[i])), Letter(D1(s[i], s[i + 1])), Letter(D2(s[i + 1], 0)), PAD];
    } else {
      d := [Letter(D0(s[i])), Letter(D1(s[i], 0)), PAD, PAD];
    }
  }

  /** Copies characters into the destination. */
  method Put(dest: array<Byte>, at: nat, d: seq<Byte>)
    requires at + |d| <= dest.Length
    modifies dest
    ensures dest[..at + |d|] == old(dest[..at]) + d
  {
    for k := 0 to |d|
      invariant dest[..at] == old(dest[..at]) && dest[at..at + k] == d[..k]
    {
      dest[at + k] := d[k];
    }
    assert dest[..at + |d|] == dest[..at] + dest[at..at + |d|];
  }

  /** Writes the text and a NUL; the destination has the computed size and one byte more. */
  method QuoteBase64(s: seq<Byte>, dest: array<Byte>)
    requires dest.Length == QuotedSize(s, BASE64) + 1
    modifies dest
    ensures dest[..] == Encode64(s) + [0]
  {
    hide Encode64;
    var i: nat, d: nat := 0, 0;
    ghost var done: seq<Byte> := [];
    EncodedSize(s);
    assert s[0..] == s && done + Encode64(s) == Encode64(s);
    while i < |s|
      invariant i <= |s| && |done| == d && done + Encode64(s[i..]) == Encode64(s)
      invariant d <= dest.Length && dest[..d] == done
    {
      ghost var rest := Encode64(s[i + GroupSize(|s| - i)..]);
      FirstGroup(s, i);
      var group := EncodeGroup(s, i);
      assert done + (group + rest) == done + group + rest;
      Put(dest, d, group);
      done := done + group;
      i, d := i + GroupSize(|s| - i), d + |group|;
    }
    NothingEncoded();
    assert s[|s|..] == [] && done + [] == done;
    dest[d] := 0;
    assert dest[..] == dest[..d] + [0];
  }

  lemma NothingEncoded()
    ensures Encode64([]) == []
  {
  }

  // ---------- Backslash quoting ----------

  datatype Kind = SINGLE | DOUBLE | BASE64

  const BACKSLASH: Byte := 0x5C

  /** The characters that need a backslash: the quote and the backslash itself. */
  function Quote(kind: Kind): Byte { if kind == SINGLE then 0x27 else 0x22 }

  predicate Special(kind: Kind, c: Byte) { c == Quote(kind) || c == BACKSLASH }

  function Escaped(s: seq<Byte>, kind: Kind): seq<Byte> {
    if s == [] then []
    else if Special(kind, s[0]) then [BACKSLASH, s[0]] + Escaped(s[1..], kind)
    else [s[0]] + Escaped(s[1..], kind)
  }

  /** What the quoted text stands for: a backslash makes the next character an ordinary one. */
  function Unescape(t: seq<Byte>): seq<Byte> {
    if t == [] then []
    else if t[0] == BACKSLASH && |t| > 1 then [t[1]] + Unescape(t[2..])
    else [t[0]] + Unescape(t[1..])
  }

  /** The text can stand between quotes: none of them is unescaped, and it does not end in a backslash
      that would escape the closing one. */
  predicate Closed(t: seq<Byte>, quote: Byte) {
    t == [] || (if t[0] == BACKSLASH then |t| > 1 && Closed(t[2..], quote) else t[0] != quote && Closed(t[1..], quote))
  }

  /** Unescaping undoes the quoting, and no quote is left bare. */
  lemma {:induction false} QuotingIsSafe(s: seq<Byte>, kind: Kind)
    ensures Unescape(Escaped(s, kind)) == s && Closed(Escaped(s, kind), Quote(kind))
  {
    if s != [] {
      QuotingIsSafe(s[1..], kind);
      var rest := Escaped(s[1..], kind);
      assert s == [s[0]] + s[1..];
      if Special(kind, s[0]) {
        assert ([BACKSLASH, s[0]] + rest)[2..] == rest;
      } else {
        assert ([s[0]] + rest)[1..] == rest;
      }
    }
  }

  /** Different texts stay different. */
  lemma QuotingIsInjective(s: seq<Byte>, t: seq<Byte>, kind: Kind)
    ensures Escaped(s, kind) == Escaped(t, kind) <==> s == t
  {
    QuotingIsSafe(s, kind);
    QuotingIsSafe(t, kind);
  }

  function Specials(s: seq<Byte>, kind: Kind): nat {
    if s == [] then 0 else (if Special(kind, s[0]) then 1 else 0) + Specials(s[1..], kind)
  }

  /** The computed size. */
  function QuotedSize(s: seq<Byte>, kind: Kind): nat {
    if kind == BASE64 then (|s| + 2) / 3 * 4 else |s| + Specials(s, kind)
  }

  lemma {:induction false} EscapedSize(s: seq<Byte>, kind: Kind)
    ensures |Escaped(s, kind)| == |s| + Specials(s, kind)
  {
    if s != [] {
      EscapedSize(s[1..], kind);
    }
  }

  /** The size is exact for every kind of quoting. */
  lemma SizeIsExact(s: seq<Byte>, kind: Kind)
    ensures QuotedSize(s, kind) == |if kind == BASE64 then Encode64(s) else Escaped(s, kind)|
  {
    if kind == BASE64 { EncodedSize(s); } else { EscapedSize(s, kind); }
  }

  /** Length of the segment in front of the next special character. */
  function Segment(s: seq<Byte>, kind: Kind): (n: nat)
    ensures n <= |s| && (n < |s| ==> Special(kind, s[n])) && forall i :: 0 <= i < n ==> !Special(kind, s[i])
  {
    if s == [] || Special(kind, s[0]) then 0 else 1 + Segment(s[1..], kind)
  }

  lemma JoinFirst(b: Byte, s: seq<Byte>, t: seq<Byte>)
    ensures [b] + (s + t) == [b] + s + t
  {
  }

  lemma {:induction false} SegmentStays(s: seq<Byte>, kind: Kind, n: nat)
    requires n <= |s| && forall i :: 0 <= i < n ==> !Special(kind, s[i])
    ensures Escaped(s, kind) == s[..n] + Escaped(s[n..], kind) && Specials(s, kind) == Specials(s[n..], kind)
  {
    hide Special;
    if n == 0 {
      assert s[0..] == s && [] + Escaped(s, kind) == Escaped(s, kind);
    } else {
      var tail := s[1..];
      SegmentStays(tail, kind, n - 1);
      assert Escaped(s, kind) == [s[0]] + Escaped(tail, kind) && Specials(s, kind) == Specials(tail, kind);
      assert tail[n - 1..] == s[n..] && s[..n] == [s[0]] + tail[..n - 1];
      JoinFirst(s[0], tail[..n - 1], Escaped(s[n..], kind));
    }
  }

  lemma NothingEscaped(kind: Kind)
    ensures Escaped([], kind) == []
  {
  }

  lemma SpecialEscaped(s: seq<Byte>, kind: Kind)
    requires s != [] && Special(kind, s[0])
    ensures Escaped(s, kind) == [BACKSLASH, s[0]] + Escaped(s[1..], kind)
  {
  }

  /** quoted_size's loop: one more for every special character. */
  method CountSize(s: seq<Byte>, kind: Kind) returns (n: nat)
    ensures n == QuotedSize(s, kind)
  {
    if kind == BASE64 { return (|s| + 2) / 3 * 4; }
    n := |s|;
    var p := s;
    while Segment(p, kind) < |p|
      invariant n + Specials(p, kind) == |s| + Specials(s, kind)
      decreases |p|
    {
      SegmentStays(p, kind, Segment(p, kind));
      n := n + 1;
      p := p[Segment(p, kind)..][1..];
    }
    SegmentStays(p, kind, |p|);
    assert p[|p|..] == [];
  }

  /** The quoting loop: ordinary segments are copied, special characters get a backslash. Text without
      special characters is returned as it is. */
  method QuoteText(s: seq<Byte>, kind: Kind) returns (r: seq<Byte>)
    requires kind != BASE64
    ensures r == Escaped(s, kind) && |r| == QuotedSize(s, kind)
  {
    hide Special, Escaped, Specials;
    EscapedSize(s, kind);
    NothingEscaped(kind);
    if Segment(s, kind) == |s| {
      SegmentStays(s, kind, |s|);
      assert s[|s|..] == [] && s[..|s|] + [] == s;
      return s;
    }
    r := [];
    var src := s;
    assert [] + Escaped(s, kind) == Escaped(s, kind);
    while src != []
      invariant r + Escaped(src, kind) == Escaped(s, kind)
      decreases |src|
    {
      var n := Segment(src, kind);
      SegmentStays(src, kind, n);
      assert r + (src[..n] + Escaped(src[n..], kind)) == r + src[..n] + Escaped(src[n..], kind);
      r, src := r + src[..n], src[n..];
      if src == [] { break; }
      SpecialEscaped(src, kind);
      assert r + ([BACKSLASH, src[0]] + Escaped(src[1..], kind)) == r + [BACKSLASH, src[0]] + Escaped(src[1..], kind);
      r, src := r + [BACKSLASH, src[0]], src[1..];
    }
    assert r + [] == r;
  }

  // ---------- The two alphabets of quoting ----------

  /** The alphabet of table 1 in section 4 of RFC 4648: where its blocks begin and end, and that it is
      consecutive within them. */
  lemma LetterIsOfTable(d: Byte)
    requires d < 64
    ensures Letter(0) == Code('A') && Letter(25) == Code('Z') && Letter(26) == Code('a') && Letter(51) == Code('z')
    ensures Letter(52) == Code('0') && Letter(61) == Code('9') && Letter(62) == Code('+') && Letter(63) == Code('/')
    ensures d !in {25, 51, 61, 62, 63} ==> Letter(d + 1) == Letter(d) + 1
  {
  }

  function Code(c: char): Byte
    requires c as int < 128
  {
    c as int as Byte
  }

  /** Between single quotes these and backslashes get a backslash, between double quotes those; other
      characters stay, and texts are quoted piece by piece. */
  lemma EscapedOneByOne(c: Byte)
    ensures Escaped([c], SINGLE) == if c == 0x27 || c == 0x5C then [0x5C, c] else [c]
    ensures Escaped([c], DOUBLE) == if c == 0x22 || c == 0x5C then [0x5C, c] else [c]
  {
    assert [c][1..] == [];
  }

  lemma {:induction false} EscapedConcat(a: seq<Byte>, b: seq<Byte>, kind: Kind)
    ensures Escaped(a + b, kind) == Escaped(a, kind) + Escaped(b, kind)
  {
    hide Special;
    if a == [] {
      assert a + b == b;
    } else {
      EscapedConcat(a[1..], b, kind);
      var x, y := Escaped(a[1..], kind), Escaped(b, kind);
      assert (a + b)[1..] == a[1..] + b && (a + b)[0] == a[0];
      assert [BACKSLASH, a[0]] + (x + y) == [BACKSLASH, a[0]] + x + y;
      assert [a[0]] + (x + y) == [a[0]] + x + y;
    }
  }

  /** Padding is with "=", two for one byte in the last group and one for two. */
  lemma PaddingIs(n: nat)
    ensures Padding(3 * n) == [] && Padding(3 * n + 1) == [Code('='), Code('=')] && Padding(3 * n + 2) == [Code('=')]
  {
  }
}
