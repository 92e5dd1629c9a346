/** The block cipher under bcrypt (src/libvxutil/blowfish.c): round function, block encryption in the
    program's form and in the textbook form, and its inverse. The tables are arbitrary. */
module Blowfish {
  import opened Feistel

  type Word = bv32

  /** Four substitution boxes of 256 words, laid end to end as in memory. */
  type Boxes = s: seq<Word> | |s| == 1024 witness seq(1024, i => 0)

  type Subkeys = p: seq<Word> | |p| == 18 witness seq(18, i => 0)

  // ---------- The round function ----------

  function Byte0(x: Word): bv8 { (x & 0xFF) as bv8 }
  function Byte1(x: Word): bv8 { ((x >> 8) & 0xFF) as bv8 }
  function Byte2(x: Word): bv8 { ((x >> 16) & 0xFF) as bv8 }
  function Byte3(x: Word): bv8 { (x >> 24) as bv8 }

  function Box(s: Boxes, n: nat, i: bv8): Word
    requires n < 4
  {
    s[256 * n + i as int]
  }

  function Mix(a: Word, b: Word, c: Word, d: Word): Word { ((b + a) ^ c) + d }

  function F(s: Boxes, x: Word): Word {
    Mix(Box(s, 0, Byte3(x)), Box(s, 1, Byte2(x)), Box(s, 2, Byte1(x)), Box(s, 3, Byte0(x)))
  }

  /** The table access of machines without scaled addressing: words lie four bytes apart in a box. */
  function BoxAtOffset(s: Boxes, n: nat, offset: Word): Word
    requires n < 4 && offset <= 0x3FC && offset & 3 == 0
  {
    Box(s, n, (offset >> 2) as bv8)
  }

  function FByOffsets(s: Boxes, x: Word): Word {
    OffsetsFit(x);
    Mix(BoxAtOffset(s, 0, (x >> 22) & 0x3FC), BoxAtOffset(s, 1, (x >> 14) & 0x3FC),
        BoxAtOffset(s, 2, (x >> 6) & 0x3FC), BoxAtOffset(s, 3, (x & 0xFF) << 2))
  }

  lemma OffsetsFit(x: Word)
    ensures ((x & 0xFF) << 2) <= 0x3FC && ((x >> 6) & 0x3FC) <= 0x3FC
    ensures ((x >> 14) & 0x3FC) <= 0x3FC && ((x >> 22) & 0x3FC) <= 0x3FC
    ensures ((x & 0xFF) << 2) & 3 == 0 && ((x >> 6) & 0x3FC) & 3 == 0
    ensures ((x >> 14) & 0x3FC) & 3 == 0 && ((x >> 22) & 0x3FC) & 3 == 0
  {
  }

  lemma OffsetsAreBytes(x: Word)
    ensures ((((x & 0xFF) << 2) >> 2) as bv8) == Byte0(x)
    ensures ((((x >> 6) & 0x3FC) >> 2) as bv8) == Byte1(x)
    ensures ((((x >> 14) & 0x3FC) >> 2) as bv8) == Byte2(x)
    ensures ((((x >> 22) & 0x3FC) >> 2) as bv8) == Byte3(x)
  {
  }

  /** Both forms of the round function agree on every input. */
  lemma RoundFormsAgree(s: Boxes, x: Word)
    ensures F(s, x) == FByOffsets(s, x)
  {
    OffsetsAreBytes(x);
    OffsetsFit(x);
    assert BoxAtOffset(s, 3, (x & 0xFF) << 2) == Box(s, 3, Byte0(x));
    assert BoxAtOffset(s, 2, (x >> 6) & 0x3FC) == Box(s, 2, Byte1(x));
    assert BoxAtOffset(s, 1, (x >> 14) & 0x3FC) == Box(s, 1, Byte2(x));
    assert BoxAtOffset(s, 0, (x >> 22) & 0x3FC) == Box(s, 0, Byte3(x));
  }

  // ---------- The cipher ----------

  function CipherOf(s: Boxes): (c: Cipher<Word>)
    ensures forall a, b :: c.xor(a, b) == Xor(a, b)
    ensures forall x :: c.f(x) == F(s, x)
  {
    Cipher((a, b) => Xor(a, b), x => F(s, x))
  }

  function Xor(a: Word, b: Word): Word { a ^ b }

  lemma WordsMix(s: Boxes)
    ensures Mixes(CipherOf(s).xor)
  {
    forall a, b, c ensures Law(CipherOf(s).xor, a, b, c) { XorLaw(s, a, b, c); }
  }

  lemma XorLaw(s: Boxes, a: Word, b: Word, c: Word)
    ensures Law(CipherOf(s).xor, a, b, c)
  {
    var xor := CipherOf(s).xor;
    XorFacts(a, b, c);
    assert xor(a, b) == Xor(a, b) && xor(Xor(a, b), b) == Xor(Xor(a, b), b);
    assert xor(a, c) == Xor(a, c) && xor(Xor(a, c), b) == Xor(Xor(a, c), b);
    assert xor(Xor(a, b), c) == Xor(Xor(a, b), c);
  }

  lemma XorTwice(a: Word, b: Word)
    ensures Xor(Xor(a, b), b) == a
  {
  }

  lemma XorAssociative(a: Word, b: Word, c: Word)
    ensures Xor(Xor(a, b), c) == Xor(a, Xor(b, c))
  {
  }

  lemma XorCommutative(a: Word, b: Word)
    ensures Xor(a, b) == Xor(b, a)
  {
  }

  lemma XorFacts(a: Word, b: Word, c: Word)
    ensures Xor(Xor(a, b), b) == a && Xor(Xor(a, b), c) == Xor(Xor(a, c), b)
  {
    hide Xor;
    XorTwice(a, b);
    XorAssociative(a, b, c);
    XorCommutative(b, c);
    XorAssociative(a, c, b);
  }

  function Encrypted(p: Subkeys, s: Boxes, b: Block<Word>): Block<Word> { Network(CipherOf(s), p, b) }

  /** Encrypting with the subkeys reversed undoes the encryption, for all tables and blocks. */
  lemma ReversedSubkeysDecrypt(p: Subkeys, s: Boxes, b: Block<Word>)
    ensures Encrypted(Reversed(p), s, Encrypted(p, s, b)) == b
  {
    WordsMix(s);
    NetworkUndone(CipherOf(s), p, b);
  }

  /** So the encryption of blocks is a bijection: two blocks with one image are equal, and every block
      is the image of its decryption. */
  lemma EncryptionIsBijective(p: Subkeys, s: Boxes, a: Block<Word>, b: Block<Word>)
    ensures Encrypted(p, s, a) == Encrypted(p, s, b) ==> a == b
    ensures Encrypted(p, s, Encrypted(Reversed(p), s, b)) == b
  {
    ReversedSubkeysDecrypt(p, s, a);
    ReversedSubkeysDecrypt(p, s, b);
    assert Reversed(Reversed(p)) == p;
    ReversedSubkeysDecrypt(Reversed(p), s, b);
  }
}
