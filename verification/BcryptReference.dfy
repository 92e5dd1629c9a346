/** The hash once more, said of characters, bytes, 32-bit words and runs of plain memory: what a setting asks
    for, what the key schedule does to its 1042 words, and which bytes come out. */
module BcryptReference {
  import opened Prelude
  import opened Feistel
  import opened Blowfish
  import opened BcryptBase64
  import opened BcryptKey
  import opened BcryptSchedule
  import opened BcryptHash

  /** Four bytes as one word, the first most significant. */
  function Packed(a: Byte, b: Byte, c: Byte, d: Byte): Word {
    (a as Word << 24) | (b as Word << 16) | (c as Word << 8) | d as Word
  }

  // ---------- The cipher ----------

  lemma BytesOfPacked(a: Byte, b: Byte, c: Byte, d: Byte)
    ensures Byte3(Packed(a, b, c, d)) == a && Byte2(Packed(a, b, c, d)) == b
    ensures Byte1(Packed(a, b, c, d)) == c && Byte0(Packed(a, b, c, d)) == d
  {
  }

  lemma RoundOfBytes(s: Boxes, x: Word)
    ensures F(s, x) == Mix(Box(s, 0, Byte3(x)), Box(s, 1, Byte2(x)), Box(s, 2, Byte1(x)), Box(s, 3, Byte0(x)))
  {
    hide Mix, Box, Byte0, Byte1, Byte2, Byte3;
  }

  /** The boxes lie end to end. */
  lemma BoxWords(s: Boxes, i: bv8)
    ensures Box(s, 0, i) == s[i as int] && Box(s, 1, i) == s[256 + i as int]
    ensures Box(s, 2, i) == s[512 + i as int] && Box(s, 3, i) == s[768 + i as int]
  {
  }

  /** Four words, added, mixed and added. */
  lemma MixIs(a: Word, b: Word, c: Word, d: Word)
    ensures Mix(a, b, c, d) == ((a + b) ^ c) + d
  {
  }

  /** The round function mixes one word of each box, the first box for the word's most significant byte. */
  lemma RoundFunction(s: Boxes, a: Byte, b: Byte, c: Byte, d: Byte)
    ensures F(s, Packed(a, b, c, d)) == Mix(Box(s, 0, a), Box(s, 1, b), Box(s, 2, c), Box(s, 3, d))
  {
    hide Packed, Byte0, Byte1, Byte2, Byte3, Box, Mix, F;
    BytesOfPacked(a, b, c, d);
    RoundOfBytes(s, Packed(a, b, c, d));
  }

  /** Sixteen rounds of the textbook lead from the block to these halves. */
  predicate Rounds(p: Subkeys, s: Boxes, l: seq<Word>, r: seq<Word>, n: nat)
    requires n <= 16 && |l| == |r| == 17
  {
    forall i :: 0 <= i < n ==> l[i + 1] == Xor(r[i], F(s, Xor(l[i], p[i]))) && r[i + 1] == Xor(l[i], p[i])
  }

  lemma StepIs(s: Boxes, l: Word, r: Word, k: Word)
    ensures Step(CipherOf(s), Block(l, r), k) == Block(Xor(r, F(s, Xor(l, k))), Xor(l, k))
  {
    hide F, Xor;
  }

  lemma {:induction false} RoundsAreState(p: Subkeys, s: Boxes, l: seq<Word>, r: seq<Word>, n: nat)
    requires |l| == |r| == 17 && n <= 16 && Rounds(p, s, l, r, n)
    ensures State(CipherOf(s), p, Block(l[0], r[0]), n) == Block(l[n], r[n])
  {
    hide F, CipherOf, Feistel.Step, Xor;
    if n > 0 {
      RoundsAreState(p, s, l, r, n - 1);
      StepIs(s, l[n - 1], r[n - 1], p[n - 1]);
    }
  }

  /** A block is encrypted by sixteen rounds, the last without its exchange, and the last two subkeys. */
  lemma EncryptionInRounds(p: Subkeys, s: Boxes, l: seq<Word>, r: seq<Word>)
    requires |l| == |r| == 17
    requires forall i :: 0 <= i < 16 ==> l[i + 1] == Xor(r[i], F(s, Xor(l[i], p[i]))) && r[i + 1] == Xor(l[i], p[i])
    ensures Encrypted(p, s, Block(l[0], r[0])) == Block(Xor(r[16], p[17]), Xor(l[16], p[16]))
  {
    hide F, Xor;
    RoundsAreState(p, s, l, r, 16);
  }

  // ---------- The password's words ----------

  lemma CyclicBytes(key: seq<Byte>, k: nat)
    ensures k < |key| ==> Cyclic(key, k) == key[k]
    ensures Cyclic(key, |key|) == 0 && Cyclic(key, k + |key| + 1) == Cyclic(key, k)
  {
    Periods(k, |key| + 1);
  }

  lemma Periods(k: nat, m: nat)
    requires m > 0
    ensures (k + m) % m == k % m && (k < m ==> k % m == k)
  {
    var q, r := k / m, k % m;
    assert k == q * m + r && k + m == (q + 1) * m + r;
    Modulo(q + 1, r, m);
  }

  /** Byte n of word i in the cyclic password. */
  function KeyByte(key: seq<Byte>, i: nat, n: nat): Byte { Cyclic(key, 4 * i + n) }

  lemma PackedIsCorrect(a: Byte, b: Byte, c: Byte, d: Byte)
    ensures Correct(a, b, c, d) == Packed(a, b, c, d)
  {
  }

  /** Both expansions: with the bug, a byte from 0x80 on leaves 0xFF in the places before it. */
  lemma ExpandedWords(key: seq<Byte>, i: nat)
    requires i < 18
    ensures var a, b, c, d := KeyByte(key, i, 0), KeyByte(key, i, 1), KeyByte(key, i, 2), KeyByte(key, i, 3);
            && ExpandedKey(key, false)[i] == Packed(a, b, c, d)
            && ExpandedKey(key, true)[i]
               == Packed(if b >= 0x80 || c >= 0x80 || d >= 0x80 then 0xFF else a,
                         if c >= 0x80 || d >= 0x80 then 0xFF else b,
                         if d >= 0x80 then 0xFF else c,
                         d)
  {
    hide Packed, Correct, Buggy;
    var a, b, c, d := KeyByte(key, i, 0), KeyByte(key, i, 1), KeyByte(key, i, 2), KeyByte(key, i, 3);
    WordsOfBytes(key, i);
    BuggyShifts(a, b, c, d);
    PackedIsCorrect(a, b, c, d);
    PackedIsCorrect(Overwritten(a, b >= 0x80 || c >= 0x80 || d >= 0x80), Overwritten(b, c >= 0x80 || d >= 0x80),
                    Overwritten(c, d >= 0x80), d);
  }

  /** A signed byte stands behind another byte of its word. */
  predicate SignBehind(key: seq<Byte>) {
    exists i, n :: 0 <= i < 18 && 1 <= n < 4 && KeyByte(key, i, n) >= 0x80
  }

  /** Bytes in front of a signed one, in word i, are 0xFF. */
  predicate FullAt(key: seq<Byte>, i: nat) {
    forall m, n :: 0 <= m < n < 4 && KeyByte(key, i, n) >= 0x80 ==> KeyByte(key, i, m) == 0xFF
  }

  predicate FullInFront(key: seq<Byte>) { forall i :: 0 <= i < 18 ==> FullAt(key, i) }

  lemma MaskedIs(key: seq<Byte>, i: nat)
    ensures MaskedAt(key, i)
            <==> Masked(KeyByte(key, i, 0), KeyByte(key, i, 1), KeyByte(key, i, 2), KeyByte(key, i, 3))
  {
    hide Cyclic, Masked;
  }

  lemma MaskedIsFull(key: seq<Byte>, i: nat)
    ensures MaskedAt(key, i) <==> FullAt(key, i)
  {
    hide KeyByte, MaskedAt;
    MaskedIs(key, i);
    if FullAt(key, i) {
      var a, b, c, d := KeyByte(key, i, 0), KeyByte(key, i, 1), KeyByte(key, i, 2), KeyByte(key, i, 3);
    } else {
      var m, n :| 0 <= m < n < 4 && KeyByte(key, i, n) >= 0x80 && KeyByte(key, i, m) != 0xFF;
      assert n == 1 || n == 2 || n == 3;
      assert m == 0 || m == 1 || m == 2;
    }
  }

  lemma AllMasked(key: seq<Byte>)
    ensures FullInFront(key) <==> forall i :: 0 <= i < 18 ==> MaskedAt(key, i)
  {
    hide MaskedAt, FullAt;
    forall i | 0 <= i < 18 ensures MaskedAt(key, i) <==> FullAt(key, i) { MaskedIsFull(key, i); }
  }

  lemma SomeSigned(key: seq<Byte>)
    ensures SignBehind(key) <==> exists i :: 0 <= i < 18 && SignedAt(key, i)
  {
    hide Cyclic;
    if i :| 0 <= i < 18 && SignedAt(key, i) {
      assert KeyByte(key, i, 1) >= 0x80 || KeyByte(key, i, 2) >= 0x80 || KeyByte(key, i, 3) >= 0x80;
    }
    if i, n :| 0 <= i < 18 && 1 <= n < 4 && KeyByte(key, i, n) >= 0x80 {
      assert n == 1 || n == 2 || n == 3;
      assert SignedAt(key, i);
    }
  }

  lemma CollidesByBytes(key: seq<Byte>)
    ensures Collides(key) <==> SignBehind(key) && FullInFront(key)
  {
    hide Collides, MaskedAt, SignedAt, SignBehind, FullInFront;
    CollidesIff(key);
    AllMasked(key);
    SomeSigned(key);
  }

  /** Mixing words is exclusive or. */
  lemma XorIs(a: Word, b: Word)
    ensures Xor(a, b) == a ^ b && a ^ 0 == a
  {
  }

  lemma FlipIs(key: seq<Byte>, safety: bool)
    ensures Flip(key, safety) == if safety && SignBehind(key) && FullInFront(key) then 0x1_0000 else 0
  {
    hide Collides, SignBehind, FullInFront;
    CollidesByBytes(key);
  }

  /** The initial subkeys are mixed with the expanded password, and the safety measure flips bit 16 of the
      first one. */
  lemma InitialWords(key: seq<Byte>, bug: bool, safety: bool, init: Subkeys, i: nat)
    requires i < 18
    ensures i > 0 ==> InitialKey(key, bug, safety, init)[i] == Xor(init[i], ExpandedKey(key, bug)[i])
    ensures InitialKey(key, bug, safety, init)[0]
            == Xor(Xor(init[0], ExpandedKey(key, bug)[0]),
                   if safety && SignBehind(key) && FullInFront(key) then 0x1_0000 else 0)
  {
    hide InitialKey, Flip, SignBehind, FullInFront, Xor, ExpandedKey;
    FlipIs(key, safety);
  }

  // ---------- The key schedule ----------

  /** The 1042 words of the tables in memory: subkeys, then boxes. */
  function Memory(t: Tables<Word>): (m: seq<Word>)
    requires Complete(t)
    ensures |m| == 1042 && m[..18] == t.p && m[18..] == t.s
  {
    t.p + t.s
  }

  /** The words from position 2 * j on, before block j is computed, are those of the block before it. */
  function LastBlock(m: seq<Word>, j: nat): Block<Word>
    requires |m| == 1042 && 2 * j <= 1042
  {
    if j == 0 then Block(0, 0) else Block(m[2 * j - 2], m[2 * j - 1])
  }

  /** One block: the one before it, mixed with one half of the salt, is encrypted in place. */
  predicate Advances(m: seq<Word>, salt: seq<Word>, j: nat, m': seq<Word>)
    requires |m| == 1042 && |salt| == 4 && j < 521
  {
    var x, h := LastBlock(m, j), 2 * (j % 2);
    var e := Encrypted(m[..18], m[18..], Block(Xor(x.l, salt[h]), Xor(x.r, salt[h + 1])));
    m' == m[2 * j := e.l][2 * j + 1 := e.r]
  }

  function SaltHalves(salt: seq<Word>): Salt<Word>
    requires |salt| == 4
  {
    Salt(Block(salt[0], salt[1]), Block(salt[2], salt[3]))
  }

  lemma StoreInMemory(t: Tables<Word>, j: nat, b: Block<Word>)
    requires Complete(t) && j < 521
    ensures Memory(Store(t, j, b)) == Memory(t)[2 * j := b.l][2 * j + 1 := b.r]
  {
  }

  lemma LastWords(m: seq<Word>, j: nat, e: Block<Word>)
    requires |m| == 1042 && j < 521
    ensures LastBlock(m[2 * j := e.l][2 * j + 1 := e.r], j + 1) == e
  {
  }

  lemma SaltedWords(salt: seq<Word>, j: nat, b: Block<Word>)
    requires |salt| == 4
    ensures Salted(WordKit(), SaltHalves(salt), j, b)
            == Block(Xor(b.l, salt[2 * (j % 2)]), Xor(b.r, salt[2 * (j % 2) + 1]))
  {
    hide Encrypted, BoxCipher, Xor;
    var h := if j % 2 == 0 then 0 else 2;
    assert 2 * (j % 2) == h;
    assert XorBlocks(WordKit(), b, Block(salt[h], salt[h + 1])) == Block(Xor(b.l, salt[h]), Xor(b.r, salt[h + 1]));
  }

  lemma NextInMemory(t: Tables<Word>, last: Block<Word>, salt: seq<Word>, j: nat, m: seq<Word>, m': seq<Word>)
    requires Complete(t) && |salt| == 4 && j < 521 && m == Memory(t) && last == LastBlock(m, j)
    requires Advances(m, salt, j, m')
    ensures var x := NextBlock(WordKit(), Progress(t, last), SaltHalves(salt), j);
            m' == Memory(x.t) && x.last == LastBlock(m', j + 1)
  {
    hide Encrypted, Store, Salted, Memory, LastBlock, Xor;
    SaltedWords(salt, j, last);
    var e := Encrypted(t.p, t.s, Salted(WordKit(), SaltHalves(salt), j, last));
    StoreInMemory(t, j, e);
    LastWords(m, j, e);
  }

  lemma {:induction false} ExpansionInMemory(t: Tables<Word>, salt: seq<Word>, m: seq<seq<Word>>, n: nat)
    requires Complete(t) && |salt| == 4 && |m| == 522 && n <= 521
    requires forall j :: 0 <= j < 522 ==> |m[j]| == 1042
    requires m[0] == Memory(t) && forall j :: 0 <= j < 521 ==> Advances(m[j], salt, j, m[j + 1])
    ensures var x := Expansion(WordKit(), t, SaltHalves(salt), n); m[n] == Memory(x.t) && x.last == LastBlock(m[n], n)
  {
    hide WordKit, NextBlock, Advances, Memory, LastBlock;
    if n == 0 {
      ExpansionStarts(t, SaltHalves(salt), m[0]);
    } else {
      ExpansionInMemory(t, salt, m, n - 1);
      var x := Expansion(WordKit(), t, SaltHalves(salt), n - 1);
      Continue(WordKit(), t, SaltHalves(salt), n - 1);
      NextInMemory(x.t, x.last, salt, n - 1, m[n - 1], m[n]);
    }
  }

  lemma ExpansionStarts(t: Tables<Word>, salt: Salt<Word>, m: seq<Word>)
    requires Complete(t) && m == Memory(t)
    ensures var x := Expansion(WordKit(), t, salt, 0); x.t == t && x.last == LastBlock(m, 0)
  {
  }

  /** State expansion on plain memory: 521 blocks, each written over the words that it stands for. */
  lemma ExpandedInMemory(t: Tables<Word>, salt: seq<Word>, m: seq<seq<Word>>)
    requires Complete(t) && |salt| == 4 && |m| == 522
    requires forall j :: 0 <= j < 522 ==> |m[j]| == 1042
    requires m[0] == Memory(t) && forall j :: 0 <= j < 521 ==> Advances(m[j], salt, j, m[j + 1])
    ensures Memory(Expanded(WordKit(), t, SaltHalves(salt))) == m[521]
  {
    hide WordKit, NextBlock, Advances, Memory, LastBlock;
    ExpansionInMemory(t, salt, m, 521);
  }

  /** Subkeys mixed with eighteen words. */
  predicate MixedWith(p: seq<Word>, w: seq<Word>, q: seq<Word>)
    requires |p| == |w| == 18
  {
    |q| == 18 && forall i :: 0 <= i < 18 ==> q[i] == Xor(p[i], w[i])
  }

  /** One turn: the subkeys are mixed with the key and the state is expanded, and then once more with the
      words of the salt, repeated, in the place of the key; neither expansion is salted. */
  ghost predicate TurnsTo(t: Tables<Word>, key: seq<Word>, salt: seq<Word>, t': Tables<Word>)
    requires Complete(t) && |key| == 18 && |salt| == 4
  {
    exists p: seq<Word>, mid: Tables<Word>, q: seq<Word> ::
      && Complete(mid) && MixedWith(t.p, key, p)
      && mid == Expanded(WordKit(), Tables(p, t.s), SaltHalves([0, 0, 0, 0]))
      && MixedWith(mid.p, salt + salt + salt + salt + salt[..2], q)
      && t' == Expanded(WordKit(), Tables(q, mid.s), SaltHalves([0, 0, 0, 0]))
  }

  lemma MixedIs(p: seq<Word>, w: seq<Word>, q: seq<Word>)
    requires |p| == |w| == 18 && MixedWith(p, w, q)
    ensures Mixed(WordKit(), p, w) == q
  {
    hide Xor;
  }

  lemma SaltKeyIs(salt: seq<Word>)
    requires |salt| == 4
    ensures SaltKey(SaltHalves(salt)) == salt + salt + salt + salt + salt[..2]
  {
    var w := salt + salt + salt + salt + salt[..2];
    forall i | 0 <= i < 18
      ensures SaltKey(SaltHalves(salt))[i] == w[i]
    {
      assert w[i] == salt[i % 4];
    }
  }

  lemma TurnIs(t: Tables<Word>, key: seq<Word>, salt: seq<Word>, t': Tables<Word>)
    requires Complete(t) && |key| == 18 && |salt| == 4 && TurnsTo(t, key, salt, t')
    ensures Turn(WordKit(), t, key, SaltHalves(salt)) == t'
  {
    hide Expanded;
    var p: seq<Word>, mid: Tables<Word>, q: seq<Word> :|
      && Complete(mid) && MixedWith(t.p, key, p)
      && mid == Expanded(WordKit(), Tables(p, t.s), SaltHalves([0, 0, 0, 0]))
      && MixedWith(mid.p, salt + salt + salt + salt + salt[..2], q)
      && t' == Expanded(WordKit(), Tables(q, mid.s), SaltHalves([0, 0, 0, 0]));
    MixedIs(t.p, key, p);
    SaltKeyIs(salt);
    MixedIs(mid.p, salt + salt + salt + salt + salt[..2], q);
  }

  /** The whole schedule: a salted expansion, and then as many turns as asked for. */
  lemma {:induction false} ScheduleInTurns(t: Tables<Word>, key: seq<Word>, salt: seq<Word>, z: seq<Tables<Word>>)
    requires Complete(t) && |key| == 18 && |salt| == 4 && |z| > 0
    requires z[0] == Expanded(WordKit(), t, SaltHalves(salt))
    requires forall k :: 0 <= k < |z| ==> Complete(z[k])
    requires forall k :: 0 <= k < |z| - 1 ==> TurnsTo(z[k], key, salt, z[k + 1])
    ensures Schedule(WordKit(), t, key, SaltHalves(salt), |z| - 1) == z[|z| - 1]
    decreases |z|
  {
    hide Expanded, WordKit, Turn, TurnsTo;
    var n := |z| - 1;
    if n > 0 {
      ScheduleInTurns(t, key, salt, z[..n]);
      TurnIs(z[n - 1], key, salt, z[n]);
    }
  }

  // ---------- Settings ----------

  /** How often a setting's two digits make the costly loop turn. */
  function TwoTo(n: nat): nat
    requires n <= 31
  {
    ((1 as bv32) << n) as int
  }

  lemma {:induction false} PowerAdds(a: nat, b: nat)
    ensures Power(a + b) == Power(a) * Power(b) && Power(1) == 2
    decreases a
  {
    assert Power(1) == 2 * Power(0);
    if a > 0 {
      PowerAdds(a - 1, b);
      assert Power(a + b) == 2 * Power(a - 1 + b);
    }
  }

  lemma ShiftsBelow16()
    ensures TwoTo(0) == 0x1 && TwoTo(1) == 0x2 && TwoTo(2) == 0x4 && TwoTo(3) == 0x8
    ensures TwoTo(4) == 0x10 && TwoTo(5) == 0x20 && TwoTo(6) == 0x40 && TwoTo(7) == 0x80
    ensures TwoTo(8) == 0x100 && TwoTo(9) == 0x200 && TwoTo(10) == 0x400 && TwoTo(11) == 0x800
    ensures TwoTo(12) == 0x1000 && TwoTo(13) == 0x2000 && TwoTo(14) == 0x4000 && TwoTo(15) == 0x8000
  {
  }

  lemma ShiftsFrom16()
    ensures TwoTo(16) == 0x10000 && TwoTo(17) == 0x20000 && TwoTo(18) == 0x40000 && TwoTo(19) == 0x80000
    ensures TwoTo(20) == 0x100000 && TwoTo(21) == 0x200000 && TwoTo(22) == 0x400000 && TwoTo(23) == 0x800000
    ensures TwoTo(24) == 0x1000000 && TwoTo(25) == 0x2000000 && TwoTo(26) == 0x4000000 && TwoTo(27) == 0x8000000
    ensures TwoTo(28) == 0x10000000 && TwoTo(29) == 0x20000000 && TwoTo(30) == 0x40000000 && TwoTo(31) == 0x80000000
  {
  }

  lemma ShiftDoubles(n: nat)
    requires n < 31
    ensures TwoTo(n + 1) == 2 * TwoTo(n) && TwoTo(0) == 1
  {
    hide TwoTo;
    ShiftsBelow16();
    ShiftsFrom16();
    assert n == 0 || n == 1 || n == 2 || n == 3 || n == 4 || n == 5 || n == 6 || n == 7 || n == 8 || n == 9 || n == 10
           || n == 11 || n == 12 || n == 13 || n == 14 || n == 15 || n == 16 || n == 17 || n == 18 || n == 19
           || n == 20 || n == 21 || n == 22 || n == 23 || n == 24 || n == 25 || n == 26 || n == 27 || n == 28
           || n == 29 || n == 30;
  }

  lemma {:induction false} PowerIsShift(n: nat)
    requires n <= 31
    ensures Power(n) == TwoTo(n)
  {
    hide TwoTo;
    if n == 0 {
      ShiftDoubles(0);
    } else {
      PowerIsShift(n - 1);
      ShiftDoubles(n - 1);
    }
  }

  /** A character of bcrypt's alphabet. */
  predicate Letter(c: Byte) {
    c == Code('.') || c == Code('/') || Code('A') <= c <= Code('Z') || Code('a') <= c <= Code('z')
    || Code('0') <= c <= Code('9')
  }

  /** The cost that two digits at their place stand for; 100 if they are no digits. */
  function CostIn(s: seq<Byte>): nat {
    if |s| > 5 && Code('0') <= s[4] <= Code('9') && Code('0') <= s[5] <= Code('9')
    then 10 * (s[4] - Code('0')) as nat + (s[5] - Code('0')) as nat
    else 100
  }

  predicate HasSubtype(s: seq<Byte>, c: char)
    requires c as int < 128
  {
    |s| > 2 && s[2] == Code(c)
  }

  predicate GoodPrefix(s: seq<Byte>) {
    && |s| > 6 && s[0] == Code('$') && s[1] == Code('2') && s[3] == Code('$') && s[6] == Code('$')
    && (HasSubtype(s, 'a') || HasSubtype(s, 'x') || HasSubtype(s, 'y'))
  }

  /** A setting begins with "$2a$", "$2x$" or "$2y$" and a cost from "00$" to "31$", of which two to that
      power has to reach the minimum, and then has 22 characters of the alphabet. */
  predicate GoodSetting(s: seq<Byte>, min: nat) {
    && GoodPrefix(s) && CostIn(s) <= 31 && TwoTo(CostIn(s)) >= min
    && |s| >= 29 && forall i :: 7 <= i < 29 ==> Letter(s[i])
  }

  lemma LetterIs(c: Byte)
    ensures Letter(c) <==> Atoi(c).Some?
  {
  }

  lemma CodesOfSetting()
    ensures Code('$') == 0x24 && Code('2') == 0x32 && Code('0') == 0x30 && Code('3') == 0x33 && Code('9') == 0x39
    ensures Code('1') == 0x31 && Code('a') == 0x61 && Code('x') == 0x78 && Code('y') == 0x79
  {
  }

  /** What the tests of the program mean, character by character. */
  lemma GoodHead(s: seq<Byte>)
    requires |s| > 6
    ensures WellFormed(s) <==> GoodPrefix(s) && CostIn(s) <= 31
    ensures WellFormed(s) ==> Cost(s) == CostIn(s)
  {
    hide Code;
    CodesOfSetting();
    if 0x30 <= s[4] <= 0x39 && 0x30 <= s[5] <= 0x39 { DigitsLimit(s[4], s[5]); }
  }

  lemma DigitsLimit(tens: Byte, ones: Byte)
    requires 0x30 <= tens <= 0x39 && 0x30 <= ones <= 0x39
    ensures 10 * (tens - 0x30) as nat + (ones - 0x30) as nat <= 31
            <==> tens <= 0x33 && (tens == 0x33 ==> ones <= 0x31)
  {
  }

  /** Exactly these settings are accepted. */
  lemma AcceptedIff(s: seq<Byte>, min: nat)
    ensures Accepted(s, min) <==> GoodSetting(s, min)
  {
    hide WellFormed, Cost, GoodPrefix, CostIn, Power, TwoTo, Letter;
    Lengths();
    if |s| > 6 { GoodHead(s); }
    if WellFormed(s) && CostIn(s) <= 31 { PowerIsShift(CostIn(s)); }
    if Accepted(s, min) {
      AcceptedLength(s, min);
      forall i | 7 <= i < 29 ensures Letter(s[i]) { assert Digit(s, i).Some?; LetterIs(s[i]); }
    }
    if GoodSetting(s, min) { GoodMeansLetters(s, min); }
  }

  lemma GoodMeansLetters(s: seq<Byte>, min: nat)
    requires GoodSetting(s, min)
    ensures InAlphabet(s, 7, 22)
  {
    hide GoodPrefix, CostIn, TwoTo, Letter;
    forall i | 7 <= i < 29 ensures Digit(s, i).Some? { LetterIs(s[i]); }
  }

  // ---------- From a setting to the text of a hash ----------

  /** The prefix says whether the bug is asked for, "$2x$", or the safety measure, "$2a$". */
  lemma FlagBitsOf(s: seq<Byte>)
    requires GoodPrefix(s)
    ensures FlagsOf(CharAt(s, 2)) & 1 != 0 <==> HasSubtype(s, 'x')
    ensures FlagsOf(CharAt(s, 2)) & 2 != 0 <==> HasSubtype(s, 'a')
  {
    hide Code;
    CodesOfSetting();
  }

  /** The salt's bytes as four words, most significant byte first. */
  function SaltWords(b: seq<Byte>): (w: seq<Word>)
    requires |b| == 16
    ensures |w| == 4
  {
    seq(4, i requires 0 <= i < 4 => Packed(b[4 * i], b[4 * i + 1], b[4 * i + 2], b[4 * i + 3]))
  }

  lemma SaltOfWords(b: seq<Byte>)
    requires |b| == 16
    ensures SaltOf(b) == SaltHalves(SaltWords(b))
  {
    hide Packed, Correct;
    forall i | 0 <= i < 4
      ensures BigEndian(b, i) == SaltWords(b)[i]
    {
      PackedIsCorrect(b[4 * i], b[4 * i + 1], b[4 * i + 2], b[4 * i + 3]);
    }
  }

  /** The tables that a password and the parts of a setting lead to. */
  function TablesFor(init: Tables<Word>, key: seq<Byte>, bug: bool, safety: bool, cost: nat, salt: seq<Byte>)
    : (t: Tables<Word>)
    requires Complete(init) && cost <= 31 && |salt| == 16
    ensures Complete(t)
  {
    Schedule(WordKit(), Tables(InitialKey(key, bug, safety, init.p), init.s), ExpandedKey(key, bug),
             SaltHalves(SaltWords(salt)), TwoTo(cost))
  }

  lemma ScheduledTables(init: Tables<Word>, key: seq<Byte>, s: seq<Byte>, min: nat)
    requires Complete(init) && Accepted(s, min)
    ensures CostIn(s) <= 31
    ensures Scheduled(init, key, FlagsOf(CharAt(s, 2)), Power(Cost(s)), SaltBytes(s))
            == TablesFor(init, key, HasSubtype(s, 'x'), HasSubtype(s, 'a'), CostIn(s), SaltBytes(s))
  {
    hide Schedule, InitialKey, ExpandedKey, SaltOf, SaltWords, FlagsOf, Code, Power, TwoTo, WellFormed,
         Decode, Cost, CostIn, WordKit, Letter, GoodPrefix, HasSubtype;
    AcceptedIff(s, min);
    GoodHead(s);
    PowerIsShift(CostIn(s));
    FlagBitsOf(s);
    SaltOfWords(SaltBytes(s));
  }

  lemma {:induction false} BytesAreWords(words: seq<Word>, i: nat)
    requires i < |words|
    ensures var d := BytesOf(words); Packed(d[4 * i], d[4 * i + 1], d[4 * i + 2], d[4 * i + 3]) == words[i]
  {
    if i == 0 {
      WordOfBytes(words[0]);
    } else {
      BytesAreWords(words[1..], i - 1);
    }
  }

  lemma WordOfBytes(w: Word)
    ensures Packed(Byte3(w), Byte2(w), Byte1(w), Byte0(w)) == w
  {
  }

  function Word4(a: char, b: char, c: char, d: char): Word
    requires a as int < 128 && b as int < 128 && c as int < 128 && d as int < 128
  {
    Packed(Code(a), Code(b), Code(c), Code(d))
  }

  lemma MagicIsText()
    ensures MAGIC[0] == Word4('O', 'r', 'p', 'h') && MAGIC[1] == Word4('e', 'a', 'n', 'B')
    ensures MAGIC[2] == Word4('e', 'h', 'o', 'l') && MAGIC[3] == Word4('d', 'e', 'r', 'S')
    ensures MAGIC[4] == Word4('c', 'r', 'y', 'D') && MAGIC[5] == Word4('o', 'u', 'b', 't')
  {
    hide Word4;
    assert 0x4F72_7068 == Word4('O', 'r', 'p', 'h') && 0x6561_6E42 == Word4('e', 'a', 'n', 'B') by { FirstWords(); }
    assert 0x6568_6F6C == Word4('e', 'h', 'o', 'l') && 0x6465_7253 == Word4('d', 'e', 'r', 'S') by { MiddleWords(); }
    assert 0x6372_7944 == Word4('c', 'r', 'y', 'D') && 0x6F75_6274 == Word4('o', 'u', 'b', 't') by { LastTwoWords(); }
  }

  lemma FirstWords()
    ensures Word4('O', 'r', 'p', 'h') == 0x4F72_7068 && Word4('e', 'a', 'n', 'B') == 0x6561_6E42
  {
  }

  lemma MiddleWords()
    ensures Word4('e', 'h', 'o', 'l') == 0x6568_6F6C && Word4('d', 'e', 'r', 'S') == 0x6465_7253
  {
  }

  lemma LastTwoWords()
    ensures Word4('c', 'r', 'y', 'D') == 0x6372_7944 && Word4('o', 'u', 'b', 't') == 0x6F75_6274
  {
  }

  /** The block after 64 encryptions. */
  predicate Encryptions(t: Tables<Word>, first: Block<Word>, e: seq<Block<Word>>)
    requires Complete(t)
  {
    |e| == 65 && e[0] == first && forall i :: 0 <= i < 64 ==> e[i + 1] == Encrypted(t.p, t.s, e[i])
  }

  lemma {:induction false} AgainIs(t: Tables<Word>, first: Block<Word>, e: seq<Block<Word>>, n: nat)
    requires Complete(t) && Encryptions(t, first, e) && n <= 64
    ensures Again(WordKit(), t, first, n) == e[n]
  {
    hide Encrypted;
    if n > 0 {
      AgainIs(t, first, e, n - 1);
    }
  }

  /** The text of a hash: the setting up to the salt's last character, that character with its spare bits
      clear, and 23 of the 24 bytes of the text "OrpheanBeholderScryDoubt", every eight of them encrypted 64
      times under the tables that password, prefix, cost and salt lead to. */
  lemma HashInBlocks(init: Tables<Word>, key: seq<Byte>, s: seq<Byte>, min: nat, h: seq<Byte>, t: Tables<Word>,
                     e: seq<Block<Word>>, e': seq<Block<Word>>, e'': seq<Block<Word>>)
    returns (d: seq<Byte>)
    requires Complete(init) && Hash(init, key, s, min) == Some(h) && CostIn(s) <= 31
    requires t == TablesFor(init, key, HasSubtype(s, 'x'), HasSubtype(s, 'a'), CostIn(s), SaltBytes(s))
    requires Encryptions(t, Block(Word4('O', 'r', 'p', 'h'), Word4('e', 'a', 'n', 'B')), e)
    requires Encryptions(t, Block(Word4('e', 'h', 'o', 'l'), Word4('d', 'e', 'r', 'S')), e')
    requires Encryptions(t, Block(Word4('c', 'r', 'y', 'D'), Word4('o', 'u', 'b', 't')), e'')
    ensures |d| == 24
    ensures var w := [e[64].l, e[64].r, e'[64].l, e'[64].r, e''[64].l, e''[64].r];
            forall i :: 0 <= i < 6 ==> Packed(d[4 * i], d[4 * i + 1], d[4 * i + 2], d[4 * i + 3]) == w[i]
    ensures |s| >= 29 && h[..28] == s[..28] && h[7..29] == Encode(SaltBytes(s)) && h[29..] == Encode(d[..23])
  {
    hide TablesFor, Encryptions, Scheduled, WordKit, Word4, Packed, Again, CostIn, HasSubtype, Encode, Decode,
         SaltBytes, GoodSetting, WellFormed, Power, Cost;
    AcceptedLength(s, min);
    ScheduledTables(init, key, s, min);
    MagicIsText();
    AgainIs(t, Block(MAGIC[0], MAGIC[1]), e, 64);
    AgainIs(t, Block(MAGIC[2], MAGIC[3]), e', 64);
    AgainIs(t, Block(MAGIC[4], MAGIC[5]), e'', 64);
    var w := Ciphertext(WordKit(), t, MAGIC);
    d := BytesOf(w);
    forall i | 0 <= i < 6
      ensures Packed(d[4 * i], d[4 * i + 1], d[4 * i + 2], d[4 * i + 3]) == w[i]
    {
      BytesAreWords(w, i);
    }
    HashShape(init, key, s, min, h);
  }

  /** What the salt generator accepts: sixteen bytes, a cost of four to 31, or 0, and "$2a" or "$2y" in front. */
  lemma GeneratesIff(prefix: seq<Byte>, count: nat, input: seq<Byte>)
    ensures CanGenerate(prefix, count, input)
            <==> |input| >= 16 && (count == 0 || 4 <= count < 32)
                 && |prefix| >= 3 && prefix[0] == Code('$') && prefix[1] == Code('2')
                 && (HasSubtype(prefix, 'a') || HasSubtype(prefix, 'y'))
  {
    hide Code;
    CodesOfSetting();
  }
}
