/** The key schedule's input (src/libvxutil/blowfish.c, BF_set_key): the password as eighteen words,
    with the emulated sign-extension bug and the measure against the collisions it causes. */
module BcryptKey {
  import opened Prelude
  import opened Blowfish

  /** A password is a C string. */
  predicate NoNul(key: seq<Byte>) { 0 !in key }

  /** The k-th byte of the password and its NUL, repeated for ever. */
  function Cyclic(key: seq<Byte>, k: nat): Byte {
    var i := k % (|key| + 1);
    if i < |key| then key[i] else 0
  }

  // ---------- Words, as they should be and with the bug ----------

  function Shift(w: Word, b: Byte): Word { (w << 8) | (b as Word) }

  /** The byte is taken for a signed one, and its sign fills the upper bits of the word. */
  function ShiftSigned(w: Word, b: Byte): Word {
    (w << 8) | (if b < 0x80 then b as Word else 0xFFFF_FF00 | (b as Word))
  }

  function Correct(a: Byte, b: Byte, c: Byte, d: Byte): Word { Shift(Shift(Shift(Shift(0, a), b), c), d) }

  function Buggy(a: Byte, b: Byte, c: Byte, d: Byte): Word {
    ShiftSigned(ShiftSigned(ShiftSigned(ShiftSigned(0, a), b), c), d)
  }

  /** The word's value after its first n bytes. */
  function CorrectPart(key: seq<Byte>, i: nat, n: nat): Word {
    if n == 0 then 0 else Shift(CorrectPart(key, i, n - 1), Cyclic(key, 4 * i + (n - 1)))
  }

  function BuggyPart(key: seq<Byte>, i: nat, n: nat): Word {
    if n == 0 then 0 else ShiftSigned(BuggyPart(key, i, n - 1), Cyclic(key, 4 * i + (n - 1)))
  }

  function CorrectWord(key: seq<Byte>, i: nat): Word { CorrectPart(key, i, 4) }

  function BuggyWord(key: seq<Byte>, i: nat): Word { BuggyPart(key, i, 4) }

  /** The correct word is the four bytes, most significant first. */
  lemma CorrectIsBigEndian(a: Byte, b: Byte, c: Byte, d: Byte)
    ensures Byte3(Correct(a, b, c, d)) == a && Byte2(Correct(a, b, c, d)) == b
    ensures Byte1(Correct(a, b, c, d)) == c && Byte0(Correct(a, b, c, d)) == d
  {
  }

  /** In front of every byte from 0x80 on there are only bytes 0xFF in its word. */
  predicate Masked(a: Byte, b: Byte, c: Byte, d: Byte) {
    && (b >= 0x80 ==> a == 0xFF)
    && (c >= 0x80 ==> a == 0xFF && b == 0xFF)
    && (d >= 0x80 ==> a == 0xFF && b == 0xFF && c == 0xFF)
  }

  /** A signed byte overwrites all those before it. */
  function Overwritten(x: Byte, signed: bool): Byte { if signed then 0xFF else x }

  lemma BuggyShifts(a: Byte, b: Byte, c: Byte, d: Byte)
    ensures Buggy(a, b, c, d)
         == Correct(Overwritten(a, b >= 0x80 || c >= 0x80 || d >= 0x80),
                    Overwritten(b, c >= 0x80 || d >= 0x80),
                    Overwritten(c, d >= 0x80),
                    d)
  {
  }

  lemma SameBytesSameWord(a: Byte, b: Byte, c: Byte, d: Byte, a': Byte, b': Byte, c': Byte, d': Byte)
    ensures Correct(a, b, c, d) == Correct(a', b', c', d') <==> a == a' && b == b' && c == c' && d == d'
  {
    CorrectIsBigEndian(a, b, c, d);
    CorrectIsBigEndian(a', b', c', d');
  }

  /** Both words agree exactly when every signed byte overwrites nothing but bytes 0xFF. */
  lemma AgreeIffMasked(a: Byte, b: Byte, c: Byte, d: Byte)
    ensures Correct(a, b, c, d) == Buggy(a, b, c, d) <==> Masked(a, b, c, d)
  {
    BuggyShifts(a, b, c, d);
    SameBytesSameWord(a, b, c, d,
                      Overwritten(a, b >= 0x80 || c >= 0x80 || d >= 0x80),
                      Overwritten(b, c >= 0x80 || d >= 0x80),
                      Overwritten(c, d >= 0x80),
                      d);
  }

  lemma WordsOfBytes(key: seq<Byte>, i: nat)
    ensures var a, b, c, d :=
            Cyclic(key, 4 * i), Cyclic(key, 4 * i + 1), Cyclic(key, 4 * i + 2), Cyclic(key, 4 * i + 3);
            CorrectWord(key, i) == Correct(a, b, c, d) && BuggyWord(key, i) == Buggy(a, b, c, d)
  {
    assert CorrectPart(key, i, 0) == 0 && BuggyPart(key, i, 0) == 0;
    assert CorrectPart(key, i, 1) == Shift(0, Cyclic(key, 4 * i))
           && BuggyPart(key, i, 1) == ShiftSigned(0, Cyclic(key, 4 * i));
    assert CorrectPart(key, i, 2) == Shift(CorrectPart(key, i, 1), Cyclic(key, 4 * i + 1));
    assert BuggyPart(key, i, 2) == ShiftSigned(BuggyPart(key, i, 1), Cyclic(key, 4 * i + 1));
    assert CorrectPart(key, i, 3) == Shift(CorrectPart(key, i, 2), Cyclic(key, 4 * i + 2));
    assert BuggyPart(key, i, 3) == ShiftSigned(BuggyPart(key, i, 2), Cyclic(key, 4 * i + 2));
  }

  // ---------- The safety measure ----------

  /** One of the first n bytes of word i, other than its very first, is signed. */
  predicate SignedPart(key: seq<Byte>, i: nat, n: nat) {
    n > 1 && (SignedPart(key, i, n - 1) || Cyclic(key, 4 * i + (n - 1)) >= 0x80)
  }

  predicate SignedWords(key: seq<Byte>, n: nat) { n > 0 && (SignedWords(key, n - 1) || SignedPart(key, n - 1, 4)) }

  predicate AgreeingWords(key: seq<Byte>, n: nat) {
    n > 0 ==> AgreeingWords(key, n - 1) && CorrectWord(key, n - 1) == BuggyWord(key, n - 1)
  }

  /** The condition for deviating from the correct algorithm. */
  predicate Collides(key: seq<Byte>) { AgreeingWords(key, 18) && SignedWords(key, 18) }

  lemma CollidesAsTested(key: seq<Byte>)
    ensures Collides(key) <==> AgreeingWords(key, 18) && SignedWords(key, 18)
  {
  }

  function ExpandedKey(key: seq<Byte>, bug: bool): (p: Subkeys)
    ensures forall i :: 0 <= i < 18 ==> p[i] == if bug then BuggyWord(key, i) else CorrectWord(key, i)
  {
    seq(18, i requires 0 <= i < 18 => if bug then BuggyWord(key, i) else CorrectWord(key, i))
  }

  function Flip(key: seq<Byte>, safety: bool): Word { if safety && Collides(key) then 0x1_0000 else 0 }

  function InitialKey(key: seq<Byte>, bug: bool, safety: bool, init: Subkeys): (p: Subkeys)
    ensures forall i :: 0 < i < 18 ==> p[i] == Xor(init[i], ExpandedKey(key, bug)[i])
    ensures p[0] == Xor(Xor(init[0], ExpandedKey(key, bug)[0]), Flip(key, safety))
  {
    var p := seq(18, i requires 0 <= i < 18 => Xor(init[i], ExpandedKey(key, bug)[i]));
    p[0 := Xor(p[0], Flip(key, safety))]
  }

  // ---------- The program's bit operations ----------

  function SignBit(signed: bool): Word { if signed then 0x80 else 0 }

  lemma SignOf(sign: bool, w: Word, b: Byte)
    ensures SignBit(sign) | (ShiftSigned(w, b) & 0x80) == SignBit(sign || b >= 0x80)
  {
  }

  /** A word is zero exactly when the differences so far and the new one are. */
  lemma DiffOf(diff: Word, a: Word, b: Word)
    ensures diff | (a ^ b) == 0 <==> diff == 0 && a == b
  {
  }

  lemma FlagBits(diff: Word, sign: bool, safety: bool)
    ensures var d := ((diff | (diff >> 16)) & 0xFFFF) + 0xFFFF;
            (SignBit(sign) << 9) & (!d & (if safety then 0x1_0000 else 0))
            == if diff == 0 && sign && safety then 0x1_0000 else 0
  {
  }

  lemma SafetyBits(flags: Byte)
    ensures ((flags as Word) & 2) << 15 == if flags & 2 != 0 then 0x1_0000 else 0
  {
  }

  /** The byte under the pointer, and the pointer's next position. */
  function At(key: seq<Byte>, ptr: nat): Byte { if ptr < |key| then key[ptr] else 0 }

  lemma NextPosition(key: seq<Byte>, k: nat)
    requires NoNul(key)
    ensures var m := |key| + 1;
            (k + 1) % m == if At(key, k % m) == 0 then 0 else k % m + 1
  {
    var m := |key| + 1;
    if k % m < |key| { assert key[k % m] in key; }
    NextModulo(k, m);
  }

  lemma NextModulo(k: nat, m: nat)
    requires m > 0
    ensures (k + 1) % m == if k % m == m - 1 then 0 else k % m + 1
  {
    var q, r := k / m, k % m;
    assert k == q * m + r;
    if r == m - 1 {
      assert k + 1 == (q + 1) * m;
      Modulo(q + 1, 0, m);
    } else {
      Modulo(q, r + 1, m);
    }
  }

  lemma Modulo(q: nat, r: nat, m: nat)
    requires r < m
    ensures (q * m + r) % m == r
  {
    var k, s := (q * m + r) / m, (q * m + r) % m;
    assert k * m + s == q * m + r;
    Multiples(k + 1, q, m);
    Multiples(q + 1, k, m);
  }

  lemma Multiples(a: nat, b: nat, m: nat)
    ensures a <= b ==> a * m <= b * m
  {
  }

  /** The inner loop: four bytes, folded in both ways. */
  method KeyWord(key: seq<Byte>, ptr0: nat, sign0: Word, ghost i: nat, ghost signed: bool)
    returns (correct: Word, buggy: Word, ptr: nat, sign: Word)
    requires NoNul(key) && ptr0 == (4 * i) % (|key| + 1) && sign0 == SignBit(signed)
    ensures correct == CorrectWord(key, i) && buggy == BuggyWord(key, i)
    ensures ptr == (4 * i + 4) % (|key| + 1) && sign == SignBit(signed || SignedPart(key, i, 4))
  {
    correct, buggy, ptr, sign := 0, 0, ptr0, sign0;
    for j := 0 to 4
      invariant correct == CorrectPart(key, i, j) && buggy == BuggyPart(key, i, j)
      invariant ptr == (4 * i + j) % (|key| + 1) && sign == SignBit(signed || SignedPart(key, i, j))
    {
      var b := At(key, ptr);
      SignOf(signed || SignedPart(key, i, j), buggy, b);
      correct, buggy := Shift(correct, b), ShiftSigned(buggy, b);
      if j != 0 { sign := sign | (buggy & 0x80); }
      NextPosition(key, 4 * i + j);
      ptr := if b == 0 then 0 else ptr + 1;
    }
  }

  /** The end of the procedure: no branch, but a bit exactly if all words agree, one has the sign and the
      flags ask for safety. */
  method Measure(diff0: Word, sign0: Word, flags: Byte, ghost signed: bool) returns (sign: Word)
    requires sign0 == SignBit(signed)
    ensures sign == if diff0 == 0 && signed && flags & 2 != 0 then 0x1_0000 else 0
  {
    var diff, safety := diff0, ((flags as Word) & 2) << 15;
    SafetyBits(flags);
    FlagBits(diff, signed, flags & 2 != 0);
    diff := diff | (diff >> 16);
    diff := diff & 0xFFFF;
    diff := diff + 0xFFFF;
    sign := sign0 << 9;
    sign := sign & (!diff & safety);
  }

  /** Bit 0 of the flags asks for the bug, bit 1 for the safety measure. */
  method SetKey(key: seq<Byte>, expanded: array<Word>, initial: array<Word>, init: Subkeys, flags: Byte)
    requires NoNul(key) && expanded.Length == 18 && initial.Length == 18 && expanded != initial
    modifies expanded, initial
    ensures expanded[..] == ExpandedKey(key, flags & 1 != 0)
    ensures initial[..] == InitialKey(key, flags & 1 != 0, flags & 2 != 0, init)
  {
    hide Xor, CorrectWord, BuggyWord, SignedPart, Collides;
    var bug := flags & 1;
    var ptr, sign, diff: Word := 0, 0, 0;
    for i := 0 to 18
      invariant ptr == (4 * i) % (|key| + 1) && sign == SignBit(SignedWords(key, i))
      invariant diff == 0 <==> AgreeingWords(key, i)
      invariant forall k :: 0 <= k < i ==>
                expanded[k] == ExpandedKey(key, bug != 0)[k] && initial[k] == Xor(init[k], expanded[k])
    {
      var correct, buggy;
      correct, buggy, ptr, sign := KeyWord(key, ptr, sign, i, SignedWords(key, i));
      DiffOf(diff, correct, buggy);
      diff := diff | (correct ^ buggy);
      expanded[i] := if bug != 0 then buggy else correct;
      initial[i] := Xor(init[i], expanded[i]);
    }
    CollidesAsTested(key);
    sign := Measure(diff, sign, flags, SignedWords(key, 18));
    initial[0] := Xor(initial[0], sign);
  }

  // ---------- Main results ----------

  /** Without the bug the subkeys are the password and its NUL, repeated for ever, most significant byte
      of a word first. */
  lemma ExpandedKeyIsCyclic(key: seq<Byte>, i: nat)
    requires i < 18
    ensures var w := ExpandedKey(key, false)[i];
            && Byte3(w) == Cyclic(key, 4 * i) && Byte2(w) == Cyclic(key, 4 * i + 1)
            && Byte1(w) == Cyclic(key, 4 * i + 2) && Byte0(w) == Cyclic(key, 4 * i + 3)
  {
    WordsOfBytes(key, i);
    CorrectIsBigEndian(Cyclic(key, 4 * i), Cyclic(key, 4 * i + 1), Cyclic(key, 4 * i + 2), Cyclic(key, 4 * i + 3));
  }

  predicate MaskedAt(key: seq<Byte>, i: nat) {
    Masked(Cyclic(key, 4 * i), Cyclic(key, 4 * i + 1), Cyclic(key, 4 * i + 2), Cyclic(key, 4 * i + 3))
  }

  /** Word i has a signed byte other than its first. */
  predicate SignedAt(key: seq<Byte>, i: nat) {
    Cyclic(key, 4 * i + 1) >= 0x80 || Cyclic(key, 4 * i + 2) >= 0x80 || Cyclic(key, 4 * i + 3) >= 0x80
  }

  lemma SignedPartIs(key: seq<Byte>, i: nat)
    ensures SignedPart(key, i, 4) <==> SignedAt(key, i)
  {
    assert !SignedPart(key, i, 1);
    assert SignedPart(key, i, 2) <==> Cyclic(key, 4 * i + 1) >= 0x80;
    assert SignedPart(key, i, 3) <==> SignedPart(key, i, 2) || Cyclic(key, 4 * i + 2) >= 0x80;
  }

  lemma {:induction false} AgreeingExactly(key: seq<Byte>, n: nat)
    ensures AgreeingWords(key, n) <==> forall i :: 0 <= i < n ==> MaskedAt(key, i)
  {
    if n > 0 {
      AgreeingExactly(key, n - 1);
      AgreeAt(key, n - 1);
    }
  }

  lemma AgreeAt(key: seq<Byte>, i: nat)
    ensures CorrectWord(key, i) == BuggyWord(key, i) <==> MaskedAt(key, i)
  {
    WordsOfBytes(key, i);
    AgreeIffMasked(Cyclic(key, 4 * i), Cyclic(key, 4 * i + 1), Cyclic(key, 4 * i + 2), Cyclic(key, 4 * i + 3));
  }

  lemma {:induction false} SignedExactly(key: seq<Byte>, n: nat)
    ensures SignedWords(key, n) <==> exists i :: 0 <= i < n && SignedAt(key, i)
  {
    if n > 0 {
      SignedExactly(key, n - 1);
      SignedPartIs(key, n - 1);
    }
  }

  /** When the measure deviates from the algorithm: some word has a signed byte that is not its first,
      and in every word the bytes in front of a signed one are all 0xFF. */
  lemma CollidesIff(key: seq<Byte>)
    ensures Collides(key)
            <==> (exists i :: 0 <= i < 18 && SignedAt(key, i)) && (forall i :: 0 <= i < 18 ==> MaskedAt(key, i))
  {
    AgreeingExactly(key, 18);
    SignedExactly(key, 18);
  }

  lemma FlipShows(a: Word, b: Word, c: Word)
    ensures Xor(Xor(a, b), c) == Xor(a, b) <==> c == 0
  {
    XorUnchanged(Xor(a, b), c);
  }

  lemma XorUnchanged(w: Word, c: Word)
    ensures Xor(w, c) == w <==> c == 0
  {
  }

  /** A state that the measure has touched cannot be reached from any password without it, with or
      without the bug: the untouched subkeys and the initial ones no longer belong together. */
  lemma DeviationIsUnreachable(key: seq<Byte>, bug: bool, other: seq<Byte>, bug': bool, safety': bool, init: Subkeys)
    requires Collides(key) && Flip(other, safety') == 0
    ensures (ExpandedKey(key, bug), InitialKey(key, bug, true, init))
            != (ExpandedKey(other, bug'), InitialKey(other, bug', safety', init))
  {
    FlipShows(init[0], ExpandedKey(key, bug)[0], Flip(key, true));
    FlipShows(init[0], ExpandedKey(other, bug')[0], 0);
  }

  /** The buggy word is the correct word of the bytes that remain, and its bytes are masked by those. */
  lemma BuggyIsMasked(a: Byte, b: Byte, c: Byte, d: Byte, a': Byte, b': Byte, c': Byte, d': Byte)
    requires Correct(a, b, c, d) == Buggy(a', b', c', d')
    ensures Masked(a, b, c, d)
    ensures !Masked(a', b', c', d') ==> b >= 0x80 || c >= 0x80 || d >= 0x80
  {
    var a'', b'', c'' :=
      Overwritten(a', b' >= 0x80 || c' >= 0x80 || d' >= 0x80),
      Overwritten(b', c' >= 0x80 || d' >= 0x80),
      Overwritten(c', d' >= 0x80);
    BuggyShifts(a', b', c', d');
    SameBytesSameWord(a, b, c, d, a'', b'', c'', d');
  }

  /** The measure is complete: wherever a password's correct expansion is one that the bug makes of another
      password, and the bug matters to that one, the measure acts. */
  lemma MeasureIsComplete(key: seq<Byte>, other: seq<Byte>)
    requires ExpandedKey(key, false) == ExpandedKey(other, true)
    requires ExpandedKey(other, true) != ExpandedKey(other, false)
    ensures Collides(key)
  {
    forall i | 0 <= i < 18
      ensures MaskedAt(key, i) && (!MaskedAt(other, i) ==> SignedAt(key, i))
    {
      WordsOfBytes(key, i);
      WordsOfBytes(other, i);
      assert ExpandedKey(key, false)[i] == ExpandedKey(other, true)[i];
      BuggyIsMasked(Cyclic(key, 4 * i), Cyclic(key, 4 * i + 1), Cyclic(key, 4 * i + 2), Cyclic(key, 4 * i + 3),
                    Cyclic(other, 4 * i), Cyclic(other, 4 * i + 1), Cyclic(other, 4 * i + 2), Cyclic(other, 4 * i + 3));
    }
    var i :| 0 <= i < 18 && ExpandedKey(other, true)[i] != ExpandedKey(other, false)[i];
    AgreeAt(other, i);
    CollidesIff(key);
  }
}
