/** The base-64 form of bcrypt's salts and hashes (src/libvxutil/blowfish.c): six bits a character,
    most significant first, no padding, and an alphabet of its own. */
module BcryptBase64 {
  import opened Prelude
  import opened Radix64

  // ---------- The alphabet: "./", capitals, small letters, digits ----------

  function Itoa(d: Byte): Byte {
    if d < 2 then d + 0x2E
    else if d < 28 then d - 2 + 0x41
    else if d < 54 then d - 28 + 0x61
    else d - 54 + 0x30
  }

  function Atoi(c: Byte): Option<Byte> {
    if 0x2E <= c <= 0x2F then Some(c - 0x2E)
    else if 0x30 <= c <= 0x39 then Some(c - 0x30 + 54)
    else if 0x41 <= c <= 0x5A then Some(c - 0x41 + 2)
    else if 0x61 <= c <= 0x7A then Some(c - 0x61 + 28)
    else None
  }

  lemma AlphabetInverse(d: Byte)
    requires d < 64
    ensures Atoi(Itoa(d)) == Some(d)
  {
  }

  lemma AlphabetOnto(c: Byte)
    requires Atoi(c).Some?
    ensures Atoi(c).value < 64 && Itoa(Atoi(c).value) == c
  {
  }

  // ---------- Digits and characters ----------

  function Chars(v: seq<Byte>): (s: seq<Byte>)
    ensures |s| == |v| && forall i :: 0 <= i < |v| ==> s[i] == Itoa(v[i])
  {
    seq(|v|, i requires 0 <= i < |v| => Itoa(v[i]))
  }

  /** The digit at position i; None for the terminating NUL and for characters outside the alphabet. */
  function Digit(src: seq<Byte>, i: nat): Option<Byte> { if i < |src| then Atoi(src[i]) else None }

  function Value(src: seq<Byte>, i: nat): Byte { if Digit(src, i).Some? then Digit(src, i).value else 0 }

  function Values(src: seq<Byte>, p: nat, len: nat): (v: seq<Byte>)
    ensures |v| == len && forall i :: 0 <= i < len ==> v[i] == Value(src, p + i)
  {
    seq(len, i requires 0 <= i < len => Value(src, p + i))
  }

  predicate InAlphabet(src: seq<Byte>, p: nat, len: nat) { forall i :: p <= i < p + len ==> Digit(src, i).Some? }

  lemma CharsAreDigits(v: seq<Byte>, src: seq<Byte>, p: nat)
    requires AllSmall(v) && p <= |src| && Chars(v) <= src[p..]
    ensures InAlphabet(src, p, |v|) && Values(src, p, |v|) == v
  {
    forall i | p <= i < p + |v|
      ensures Digit(src, i) == Some(v[i - p])
    {
      assert src[i] == src[p..][i - p] == Chars(v)[i - p];
      AlphabetInverse(v[i - p]);
    }
  }

  lemma DigitsAreChars(src: seq<Byte>, p: nat, len: nat)
    requires len > 0 && InAlphabet(src, p, len)
    ensures p + len <= |src| && AllSmall(Values(src, p, len))
    ensures Chars(Values(src, p, len)) == src[p..p + len]
  {
    assert Digit(src, p + len - 1).Some?;
    forall i | p <= i < p + len
      ensures Value(src, i) < 64 && Itoa(Value(src, i)) == src[i]
    {
      assert Digit(src, i).Some?;
      AlphabetOnto(src[i]);
    }
  }

  // ---------- Encoding and decoding ----------

  function Encode(x: seq<Byte>): (s: seq<Byte>)
    ensures |s| == EncodedLength(|x|)
  {
    Chars(Split(x))
  }

  /** The n bytes that the digits from position p on stand for. */
  function BytesAt(src: seq<Byte>, p: nat, n: nat): (x: seq<Byte>)
    ensures |x| == n
  {
    Join(Values(src, p, EncodedLength(n)), n)
  }

  /** The n bytes whose text stands at position p. */
  function Decode(src: seq<Byte>, p: nat, n: nat): (r: Option<seq<Byte>>)
    ensures r.Some? ==> |r.value| == n
  {
    if InAlphabet(src, p, EncodedLength(n)) then Some(BytesAt(src, p, n)) else None
  }

  /** Decoding undoes encoding, for every size and whatever stands around the text. */
  lemma DecodeUndoesEncode(x: seq<Byte>, src: seq<Byte>, p: nat)
    requires p <= |src| && Encode(x) <= src[p..]
    ensures Decode(src, p, |x|) == Some(x)
  {
    var v := Split(x);
    SplitIsSmall(x);
    CharsAreDigits(v, src, p);
    JoinUndoesSplit(x);
  }

  lemma EncodedBytes(src: seq<Byte>, p: nat, n: nat)
    requires n > 0 && InAlphabet(src, p, EncodedLength(n))
    ensures Encode(BytesAt(src, p, n)) == Chars(Cleared(Values(src, p, EncodedLength(n)), n))
  {
    DigitsAreChars(src, p, EncodedLength(n));
    SplitUndoesJoin(Values(src, p, EncodedLength(n)), n);
  }

  lemma ClearedText(src: seq<Byte>, p: nat, n: nat)
    requires n > 0 && InAlphabet(src, p, EncodedLength(n))
    ensures var last := p + EncodedLength(n) - 1;
            && last < |src|
            && Chars(Cleared(Values(src, p, EncodedLength(n)), n))
               == src[p..last] + [Itoa(Significant(n, Value(src, last)))]
  {
    hide Chars, Cleared, Significant, Itoa, InAlphabet, AllSmall;
    var last := p + EncodedLength(n) - 1;
    DigitsAreChars(src, p, EncodedLength(n));
    ClearedChars(Values(src, p, EncodedLength(n)), n);
    InitialPart(src, p, last);
  }

  /** Encoding what was decoded gives the text back, but for the spare bits of its last character. */
  lemma EncodeUndoesDecode(src: seq<Byte>, p: nat, n: nat, x: seq<Byte>)
    requires n > 0 && Decode(src, p, n) == Some(x)
    ensures var last := p + EncodedLength(n) - 1;
            last < |src| && Encode(x) == src[p..last] + [Itoa(Significant(n, Value(src, last)))]
  {
    EncodedBytes(src, p, n);
    ClearedText(src, p, n);
  }

  lemma InitialPart<T>(s: seq<T>, p: nat, last: nat)
    requires p <= last < |s|
    ensures s[p..last + 1][..last - p] == s[p..last]
  {
  }

  lemma ClearedChars(v: seq<Byte>, n: nat)
    requires n > 0 && |v| == EncodedLength(n)
    ensures Chars(Cleared(v, n)) == Chars(v)[..|v| - 1] + [Itoa(Significant(n, v[|v| - 1]))]
  {
  }

  // ---------- The program's procedures, a group at a time ----------

  /** The bytes of a text are those of its first group, and the rest. */
  lemma DecodeAt(src: seq<Byte>, p: nat, n: nat)
    requires n > 0
    ensures var g := GroupSize(n);
            EncodedLength(n) == g + 1 + EncodedLength(n - g)
              && BytesAt(src, p, n) == BytesAt(src, p, g) + BytesAt(src, p + g + 1, n - g)
  {
    if n >= 3 {
      assert EncodedLength(n) == 4 + EncodedLength(n - 3);
      var v := Values(src, p, EncodedLength(n));
      assert v[4..] == Values(src, p + 4, EncodedLength(n - 3));
      assert Values(src, p, 4) == v[..4];
      JoinGroup(v, n);
    }
  }

  /** The buffer begins with `done` and has `behind` from position `size` on. */
  predicate Filled(now: seq<Byte>, size: nat, done: seq<Byte>, behind: seq<Byte>) {
    |done| <= size <= |now| && now[..|done|] == done && now[size..] == behind
  }

  /** The loop body of decoding: one group, cut short where the buffer is full. */
  method DecodeGroup(dst: array<Byte>, d: nat, src: seq<Byte>, p: nat, size: nat, ghost done: seq<Byte>,
                     ghost behind: seq<Byte>)
    returns (ok: bool)
    requires d == |done| < size && Filled(dst[..], size, done, behind)
    modifies dst
    ensures ok <==> InAlphabet(src, p, GroupSize(size - d) + 1)
    ensures dst[size..] == behind
    ensures ok ==> Filled(dst[..], size, done + BytesAt(src, p, GroupSize(size - d)), behind)
  {
    var c1, c2 := Digit(src, p), Digit(src, p + 1);
    if c1.None? || c2.None? { return false; }
    dst[d] := B0(c1.value, c2.value);
    if d + 1 >= size { return true; }
    var c3 := Digit(src, p + 2);
    if c3.None? { return false; }
    dst[d + 1] := B1(c2.value, c3.value);
    if d + 2 >= size { return true; }
    var c4 := Digit(src, p + 3);
    if c4.None? { return false; }
    dst[d + 2] := B2(c3.value, c4.value);
    return true;
  }

  /** The text up to p is decoded to `done`, and that of `left` bytes is left. */
  ghost predicate Decoding(src: seq<Byte>, size: nat, done: seq<Byte>, p: nat, left: nat) {
    && |done| + left == size && p + EncodedLength(left) == EncodedLength(size) && InAlphabet(src, 0, p)
    && BytesAt(src, 0, size) == done + BytesAt(src, p, left)
  }

  lemma Regroup<T>(a: seq<T>, b: seq<T>, c: seq<T>)
    ensures a + (b + c) == a + b + c
  {
  }

  lemma DecodingStep(src: seq<Byte>, size: nat, done: seq<Byte>, p: nat, left: nat)
    requires Decoding(src, size, done, p, left) && left > 0
    ensures var g := GroupSize(left);
            if InAlphabet(src, p, g + 1) then Decoding(src, size, done + BytesAt(src, p, g), p + g + 1, left - g)
            else Decode(src, 0, size).None?
  {
    var g := GroupSize(left);
    DecodeAt(src, p, left);
    AlphabetConcat(src, p, g + 1, EncodedLength(size));
    Regroup(done, BytesAt(src, p, g), BytesAt(src, p + g + 1, left - g));
  }

  lemma AlphabetConcat(src: seq<Byte>, p: nat, more: nat, len: nat)
    requires InAlphabet(src, 0, p) && p + more <= len
    ensures if InAlphabet(src, p, more) then InAlphabet(src, 0, p + more) else !InAlphabet(src, 0, len)
  {
  }

  lemma GroupFits(n: nat)
    requires n > 0
    ensures 0 < GroupSize(n) <= n
  {
  }

  lemma DecodingStarts(src: seq<Byte>, size: nat)
    ensures Decoding(src, size, [], 0, size)
  {
  }

  lemma DecodingEnds(src: seq<Byte>, size: nat, done: seq<Byte>, p: nat)
    requires Decoding(src, size, done, p, 0)
    ensures Decode(src, 0, size) == Some(done)
  {
    assert BytesAt(src, p, 0) == [] && done + [] == done;
  }

  /** Fills the first `size` bytes of the buffer; false on a character outside the alphabet. */
  method DecodeInto(dst: array<Byte>, src: seq<Byte>, size: nat) returns (ok: bool)
    requires 0 < size <= dst.Length
    modifies dst
    ensures Decode(src, 0, size) == if ok then Some(dst[..size]) else None
    ensures dst[size..] == old(dst[size..])
  {
    hide Decode, Decoding, Filled, BytesAt, InAlphabet, EncodedLength, GroupSize;
    var d: nat, p: nat := 0, 0;
    ghost var done: seq<Byte>, left: nat, behind := [], size, dst[size..];
    DecodingStarts(src, size);
    FillingStarts(dst[..], size);
    while d < size
      invariant d + left == size && d == |done| && Filled(dst[..], size, done, behind)
      invariant Decoding(src, size, done, p, left)
      decreases left
    {
      GroupFits(size - d);
      ok := DecodeGroup(dst, d, src, p, size, done, behind);
      DecodingStep(src, size, done, p, left);
      if !ok { return; }
      var g := GroupSize(size - d);
      done, left := done + BytesAt(src, p, g), left - g;
      d, p := d + g, p + g + 1;
    }
    ok := true;
    DecodingEnds(src, size, done, p);
    FillingEnds(dst[..], size, done, behind);
  }

  lemma FillingStarts(now: seq<Byte>, size: nat)
    requires size <= |now|
    ensures Filled(now, size, [], now[size..])
  {
  }

  lemma FillingEnds(now: seq<Byte>, size: nat, done: seq<Byte>, behind: seq<Byte>)
    requires |done| == size && Filled(now, size, done, behind)
    ensures size <= |now| && now[..size] == done && now[size..] == behind
  {
  }

  /** The text of the group that starts at position i. */
  function Text(src: seq<Byte>, i: nat): (s: seq<Byte>)
    requires i < |src|
    ensures |s| == GroupSize(|src| - i) + 1
  {
    Encode(src[i..i + GroupSize(|src| - i)])
  }

  lemma EncodeAt(src: seq<Byte>, i: nat)
    requires i < |src|
    ensures Encode(src[i..]) == Text(src, i) + Encode(src[i + GroupSize(|src| - i)..])
  {
    if |src| - i >= 3 {
      SplitFirst(src[i..]);
      assert src[i..][3..] == src[i + 3..] && src[i..][..3] == src[i..i + 3];
    } else {
      assert src[i..i + GroupSize(|src| - i)] == src[i..];
    }
  }

  lemma SplitFirst(x: seq<Byte>)
    requires |x| >= 3
    ensures Encode(x) == Encode(x[..3]) + Encode(x[3..])
  {
    SplitGroup(x);
    CharsConcat(Split(x[..3]), Split(x[3..]));
  }

  lemma CharsConcat(a: seq<Byte>, b: seq<Byte>)
    ensures Chars(a + b) == Chars(a) + Chars(b)
  {
  }

  /** The loop body of encoding: one group, cut short at the end of the bytes. */
  method EncodeGroup(dst: array<Byte>, d: nat, src: seq<Byte>, i: nat)
    requires i < |src| && d + |Text(src, i)| <= dst.Length
    modifies dst
    ensures dst[..] == old(dst[..d]) + Text(src, i) + old(dst[d + |Text(src, i)|..])
  {
    dst[d] := Itoa(D0(src[i]));
    if i + 1 >= |src| {
      dst[d + 1] := Itoa(D1(src[i], 0));
      return;
    }
    dst[d + 1] := Itoa(D1(src[i], src[i + 1]));
    if i + 2 >= |src| {
      dst[d + 2] := Itoa(D2(src[i + 1], 0));
      return;
    }
    dst[d + 2] := Itoa(D2(src[i + 1], src[i + 2]));
    dst[d + 3] := Itoa(D3(src[i + 2]));
  }

  /** Of the buffer that was, the text of the first i bytes is written behind `at`, up to d. */
  ghost predicate Encoding(was: seq<Byte>, now: seq<Byte>, at: nat, src: seq<Byte>, i: nat, d: nat) {
    && i <= |src| && at <= d && d + EncodedLength(|src| - i) == at + EncodedLength(|src|) <= |was| == |now|
    && now[..at] == was[..at] && now[at..d] + Encode(src[i..]) == Encode(src)
    && now[at + EncodedLength(|src|)..] == was[at + EncodedLength(|src|)..]
  }

  lemma Splice<T>(mid: seq<T>, now: seq<T>, at: nat, d: nat, t: seq<T>, rest: seq<T>, whole: seq<T>, end: nat)
    requires at <= d && d + |t| <= end <= |mid| && now == mid[..d] + t + mid[d + |t|..]
    requires mid[at..d] + (t + rest) == whole
    ensures |now| == |mid| && now[..at] == mid[..at] && now[end..] == mid[end..]
    ensures now[at..d + |t|] + rest == whole
  {
    assert now[at..d + |t|] == mid[at..d] + t;
    assert mid[at..d] + t + rest == mid[at..d] + (t + rest);
  }

  lemma Pieces<T>(now: seq<T>, a: nat, b: nat)
    requires a <= b <= |now|
    ensures now == now[..a] + (now[a..b] + []) + now[b..]
  {
  }

  lemma EncodingStep(was: seq<Byte>, mid: seq<Byte>, now: seq<Byte>, at: nat, src: seq<Byte>, i: nat, d: nat)
    requires Encoding(was, mid, at, src, i, d) && i < |src|
    requires d + |Text(src, i)| <= |mid| && now == mid[..d] + Text(src, i) + mid[d + |Text(src, i)|..]
    ensures var g := GroupSize(|src| - i); Encoding(was, now, at, src, i + g, d + g + 1)
  {
    EncodeAt(src, i);
    Splice(mid, now, at, d, Text(src, i), Encode(src[i + GroupSize(|src| - i)..]), Encode(src),
           at + EncodedLength(|src|));
  }

  lemma EncodingRoom(was: seq<Byte>, now: seq<Byte>, at: nat, src: seq<Byte>, i: nat, d: nat)
    requires Encoding(was, now, at, src, i, d) && i < |src|
    ensures 0 < GroupSize(|src| - i) <= |src| - i && d + |Text(src, i)| <= |now|
  {
    if |src| - i >= 3 { GroupLength(|src| - i); }
  }

  lemma EncodingEnds(was: seq<Byte>, now: seq<Byte>, at: nat, src: seq<Byte>, d: nat)
    requires Encoding(was, now, at, src, |src|, d)
    ensures now == was[..at] + Encode(src) + was[at + EncodedLength(|src|)..]
  {
    assert src[|src|..] == [];
    Pieces(now, at, d);
  }

  /** Writes the text of a non-empty byte string at position `at` of the buffer. */
  method EncodeInto(dst: array<Byte>, at: nat, src: seq<Byte>)
    requires |src| > 0 && at + EncodedLength(|src|) <= dst.Length
    modifies dst
    ensures dst[..] == old(dst[..at]) + Encode(src) + old(dst[at + EncodedLength(|src|)..])
  {
    hide Encode, Encoding, EncodedLength, Text, GroupSize;
    var d: nat, i: nat := at, 0;
    ghost var was, now := dst[..], dst[..];
    EncodingStarts(was, at, src);
    while i < |src|
      invariant i <= |src| && dst[..] == now && Encoding(was, now, at, src, i, d)
      decreases |src| - i
    {
      var g := GroupSize(|src| - i);
      EncodingRoom(was, now, at, src, i, d);
      EncodeGroup(dst, d, src, i);
      EncodingStep(was, now, dst[..], at, src, i, d);
      now := dst[..];
      i, d := i + g, d + g + 1;
    }
    EncodingEnds(was, now, at, src, d);
  }

  lemma EncodingStarts(was: seq<Byte>, at: nat, src: seq<Byte>)
    requires at + EncodedLength(|src|) <= |was|
    ensures Encoding(was, was, at, src, 0, at)
  {
    assert src[0..] == src && was[at..at] == [];
  }

  // ---------- The alphabet, by its blocks ----------

  /** Where the blocks of bcrypt's alphabet begin and end, and that it is consecutive within them. */
  lemma ItoaIsOfTable(d: Byte)
    requires d < 64
    ensures Itoa(0) == Code('.') && Itoa(1) == Code('/') && Itoa(2) == Code('A') && Itoa(27) == Code('Z')
    ensures Itoa(28) == Code('a') && Itoa(53) == Code('z') && Itoa(54) == Code('0') && Itoa(63) == Code('9')
    ensures d !in {1, 27, 53, 63} ==> Itoa(d + 1) == Itoa(d) + 1
  {
  }

  function Code(c: char): Byte
    requires c as int < 128
  {
    c as int as Byte
  }
}
