/** Hashing and verifying (src/libvxutil/blowfish.c, BF_swap, BF_crypt and the salt generator): settings,
    the digest, and why a hash can be its own setting. The initial tables are arbitrary. */
module BcryptHash {
  import opened Prelude
  import opened Feistel
  import opened Blowfish
  import opened Radix64
  import opened BcryptBase64
  import opened BcryptKey
  import opened BcryptSchedule

  // ---------- Words in memory ----------

  /** The program's byte swap. */
  function SwapWord(w: Word): Word {
    var t := (w << 16) | (w >> 16);
    ((t & 0x00FF_00FF) << 8) | ((t >> 8) & 0x00FF_00FF)
  }

  lemma SwapReverses(a: Byte, b: Byte, c: Byte, d: Byte)
    ensures SwapWord(Correct(a, b, c, d)) == Correct(d, c, b, a)
  {
  }

  method Swap(x: array<Word>, count: nat)
    requires 0 < count <= x.Length
    modifies x
    ensures forall i :: 0 <= i < x.Length ==> x[i] == if i < count then SwapWord(old(x[i])) else old(x[i])
  {
    var i := 0;
    while i < count
      invariant i <= count
      invariant forall k :: 0 <= k < x.Length ==> x[k] == if k < i then SwapWord(old(x[k])) else old(x[k])
    {
      x[i] := SwapWord(x[i]);
      i := i + 1;
    }
  }

  /** Word i of bytes in memory, as a little-endian machine loads it. */
  function Load(bytes: seq<Byte>, i: nat): Word
    requires 4 * i + 3 < |bytes|
  {
    Correct(bytes[4 * i + 3], bytes[4 * i + 2], bytes[4 * i + 1], bytes[4 * i])
  }

  function BigEndian(bytes: seq<Byte>, i: nat): Word
    requires 4 * i + 3 < |bytes|
  {
    Correct(bytes[4 * i], bytes[4 * i + 1], bytes[4 * i + 2], bytes[4 * i + 3])
  }

  lemma LoadThenSwap(bytes: seq<Byte>, i: nat)
    requires 4 * i + 3 < |bytes|
    ensures SwapWord(Load(bytes, i)) == BigEndian(bytes, i)
  {
    SwapReverses(bytes[4 * i + 3], bytes[4 * i + 2], bytes[4 * i + 1], bytes[4 * i]);
  }

  /** The bytes of words, least significant first, as a little-endian machine keeps them. */
  function Stored(words: seq<Word>): (bytes: seq<Byte>)
    ensures |bytes| == 4 * |words|
  {
    if words == [] then []
    else [Byte0(words[0]), Byte1(words[0]), Byte2(words[0]), Byte3(words[0])] + Stored(words[1..])
  }

  function BytesOf(words: seq<Word>): (bytes: seq<Byte>)
    ensures |bytes| == 4 * |words|
  {
    if words == [] then []
    else [Byte3(words[0]), Byte2(words[0]), Byte1(words[0]), Byte0(words[0])] + BytesOf(words[1..])
  }

  lemma SwapBytes(w: Word)
    ensures Byte0(SwapWord(w)) == Byte3(w) && Byte1(SwapWord(w)) == Byte2(w)
    ensures Byte2(SwapWord(w)) == Byte1(w) && Byte3(SwapWord(w)) == Byte0(w)
  {
  }

  function Swapped(words: seq<Word>): (r: seq<Word>)
    ensures |r| == |words| && forall i :: 0 <= i < |words| ==> r[i] == SwapWord(words[i])
  {
    seq(|words|, i requires 0 <= i < |words| => SwapWord(words[i]))
  }

  /** Swapping words before they are stored puts their bytes in big-endian order. */
  lemma {:induction false} SwapThenStore(words: seq<Word>)
    ensures Stored(Swapped(words)) == BytesOf(words)
  {
    if words != [] {
      SwapBytes(words[0]);
      SwapThenStore(words[1..]);
      assert Swapped(words)[1..] == Swapped(words[1..]);
    }
  }

  // ---------- The schedule over 32-bit words ----------

  /** Boxes of the wrong size make no cipher; this one does nothing. */
  function BoxCipher(s: seq<Word>): Cipher<Word> {
    if |s| == S_WORDS then CipherOf(s) else Cipher((a, b) => Xor(a, b), x => x)
  }

  function WordKit(): Kit<Word> {
    Kit((a, b) => Xor(a, b), 0, s => BoxCipher(s),
        (t: Tables<Word>, b: Block<Word>) => if Complete(t) then Encrypted(t.p, t.s, b) else b)
  }

  lemma BoxCipherMixes(s: seq<Word>)
    ensures Mixes(BoxCipher(s).xor)
  {
    if |s| == S_WORDS {
      WordsMix(s);
    } else {
      forall a, b, c ensures Law(BoxCipher(s).xor, a, b, c) { XorFacts(a, b, c); }
    }
  }

  lemma WordKitValid()
    ensures ValidKit(WordKit())
  {
    var kit := WordKit();
    forall s ensures Mixes(kit.cipher(s).xor) { BoxCipherMixes(s); }
    forall w: Word ensures kit.xor(w, kit.zero) == w { XorUnchanged(w, 0); }
    forall t: Tables<Word>, b: Block<Word> ensures EncryptsBy(kit, t, b) {}
  }

  // ---------- The digest ----------

  const MAGIC: seq<Word> := [0x4F72_7068, 0x6561_6E42, 0x6568_6F6C, 0x6465_7253, 0x6372_7944, 0x6F75_6274]

  function SaltOf(bytes: seq<Byte>): Salt<Word>
    requires |bytes| == 16
  {
    Salt(Block(BigEndian(bytes, 0), BigEndian(bytes, 1)), Block(BigEndian(bytes, 2), BigEndian(bytes, 3)))
  }

  function Again<W>(kit: Kit<W>, t: Tables<W>, b: Block<W>, n: nat): Block<W>
    decreases n, t
  {
    if n == 0 then b else kit.encrypt(t, Again(kit, t, b, n - 1))
  }

  function Pair<W>(b: Block<W>): (r: seq<W>)
    ensures |r| == 2
  {
    [b.l, b.r]
  }

  /** Every pair of words is encrypted 64 times. */
  function Ciphertext<W>(kit: Kit<W>, t: Tables<W>, words: seq<W>): (r: seq<W>)
    requires |words| == 6
    ensures |r| == 6
  {
    Pair(Again(kit, t, Block(words[0], words[1]), 64)) + Pair(Again(kit, t, Block(words[2], words[3]), 64))
    + Pair(Again(kit, t, Block(words[4], words[5]), 64))
  }

  method EncryptPair<W(!new)>(c: Context<W>, l0: W, r0: W) returns (l: W, r: W)
    requires c.Valid()
    ensures Block(l, r) == Again(c.kit, c.Content(), Block(l0, r0), 64)
  {
    l, r := l0, r0;
    var count := 64;
    ghost var n: nat := 0;
    while count > 0
      invariant n + count == 64 && Block(l, r) == Again(c.kit, c.Content(), Block(l0, r0), n)
    {
      l, r := c.Encrypt(l, r);
      count, n := count - 1, n + 1;
    }
  }

  method EncryptWords<W(!new)>(c: Context<W>, words: seq<W>) returns (out: seq<W>)
    requires c.Valid() && |words| == 6
    ensures out == Ciphertext(c.kit, c.Content(), words)
  {
    out := [];
    var l, r := EncryptPair(c, words[0], words[1]);
    out := [l, r];
    l, r := EncryptPair(c, words[2], words[3]);
    out := out + [l, r];
    l, r := EncryptPair(c, words[4], words[5]);
    out := out + [l, r];
  }

  /** The 24 bytes that a password, its flags, the number of turns and a salt make. */
  function Digest(init: Tables<Word>, key: seq<Byte>, flags: Byte, turns: nat, salt: seq<Byte>): (r: seq<Byte>)
    requires Complete(init) && |salt| == 16
    ensures |r| == 24
  {
    BytesOf(Ciphertext(WordKit(), Scheduled(init, key, flags, turns, salt), MAGIC))
  }

  function Scheduled(init: Tables<Word>, key: seq<Byte>, flags: Byte, turns: nat, salt: seq<Byte>): (t: Tables<Word>)
    requires Complete(init) && |salt| == 16
    ensures Complete(t)
  {
    Schedule(WordKit(), Tables(InitialKey(key, flags & 1 != 0, flags & 2 != 0, init.p), init.s),
             ExpandedKey(key, flags & 1 != 0), SaltOf(salt), turns)
  }

  /** The salt's words, loaded from its decoded bytes and swapped. */
  method LoadSalt(bytes: array<Byte>) returns (salt: Salt<Word>)
    requires bytes.Length == 16
    ensures salt == SaltOf(bytes[..])
  {
    hide SwapWord, Correct;
    var b := bytes[..];
    var w := new Word[4](i requires 0 <= i < 4 => Load(b, i));
    Swap(w, 4);
    LoadThenSwap(b, 0);
    LoadThenSwap(b, 1);
    LoadThenSwap(b, 2);
    LoadThenSwap(b, 3);
    salt := Salt(Block(w[0], w[1]), Block(w[2], w[3]));
  }

  method ComputeDigest(init: Tables<Word>, key: seq<Byte>, flags: Byte, turns: nat, salt: array<Byte>)
    returns (out: seq<Byte>)
    requires Complete(init) && NoNul(key) && salt.Length == 16 && turns > 0
    ensures out == Digest(init, key, flags, turns, salt[..])[..23]
  {
    hide WordKit, Schedule, Ciphertext, InitialKey, ExpandedKey, SaltOf;
    var expanded, initial := new Word[18], new Word[18];
    SetKey(key, expanded, initial, init.p, flags);
    WordKitValid();
    var c := new Context<Word>(WordKit(), Tables(initial[..], init.s));
    var saltWords := LoadSalt(salt);
    c.Setup(expanded[..], saltWords, turns);
    var words := EncryptWords(c, MAGIC);
    var binary := new Word[6](i requires 0 <= i < 6 => words[i]);
    Swap(binary, 6);
    assert binary[..] == Swapped(words);
    SwapThenStore(words);
    out := Stored(binary[..])[..23];
  }

  // ---------- Settings ----------

  const SALT_AT := 7
  const LAST := 28
  const DIGEST_AT := 29
  const HASH_LENGTH := 60

  function CharAt(s: seq<Byte>, i: nat): Byte { if i < |s| then s[i] else 0 }

  /** The flags of the three known prefixes, "$2a$", "$2x$" and "$2y$"; 0 for all others. */
  function FlagsOf(subtype: Byte): Byte {
    if subtype == 0x61 then 2 else if subtype == 0x78 then 1 else if subtype == 0x79 then 4 else 0
  }

  predicate WellFormed(setting: seq<Byte>) {
    && CharAt(setting, 0) == 0x24 && CharAt(setting, 1) == 0x32 && FlagsOf(CharAt(setting, 2)) != 0
    && CharAt(setting, 3) == 0x24
    && 0x30 <= CharAt(setting, 4) <= 0x33 && 0x30 <= CharAt(setting, 5) <= 0x39
    && (CharAt(setting, 4) == 0x33 ==> CharAt(setting, 5) <= 0x31)
    && CharAt(setting, 6) == 0x24
  }

  function Cost(setting: seq<Byte>): (c: nat)
    requires WellFormed(setting)
    ensures c <= 31
  {
    (CharAt(setting, 4) - 0x30) as int * 10 + (CharAt(setting, 5) - 0x30) as int
  }

  function Power(n: nat): (r: nat)
    ensures r > 0
  {
    if n == 0 then 1 else 2 * Power(n - 1)
  }

  /** A setting of known form, with enough turns and a salt in the alphabet. */
  predicate Accepted(setting: seq<Byte>, min: nat) {
    WellFormed(setting) && Power(Cost(setting)) >= min && Decode(setting, SALT_AT, 16).Some?
  }

  function SaltBytes(setting: seq<Byte>): (b: seq<Byte>)
    requires Decode(setting, SALT_AT, 16).Some?
    ensures |b| == 16
  {
    Decode(setting, SALT_AT, 16).value
  }

  function DigestFor(init: Tables<Word>, key: seq<Byte>, setting: seq<Byte>): (r: seq<Byte>)
    requires Complete(init) && WellFormed(setting) && Decode(setting, SALT_AT, 16).Some?
    ensures |r| == 23
  {
    Digest(init, key, FlagsOf(CharAt(setting, 2)), Power(Cost(setting)), SaltBytes(setting))[..23]
  }

  /** Four or five bytes more than a multiple of three, spelled out. */
  lemma Lengths()
    ensures EncodedLength(16) == 22 && EncodedLength(23) == 31
  {
    assert EncodedLength(2) == 3 && EncodedLength(5) == 7 && EncodedLength(8) == 11 && EncodedLength(11) == 15;
    assert EncodedLength(14) == 19 && EncodedLength(17) == 23 && EncodedLength(20) == 27;
    assert EncodedLength(1) == 2 && EncodedLength(4) == 6 && EncodedLength(7) == 10 && EncodedLength(10) == 14;
    assert EncodedLength(13) == 18;
  }

  lemma DecodeBehind(src: seq<Byte>, p: nat, n: nat)
    requires p <= |src|
    ensures Decode(src[p..], 0, n) == Decode(src, p, n)
  {
    var len := EncodedLength(n);
    forall i | 0 <= i < len ensures Digit(src[p..], i) == Digit(src, p + i) {}
    assert Values(src[p..], 0, len) == Values(src, p, len);
    forall i | p <= i < p + len ensures Digit(src, i) == Digit(src[p..], i - p) {}
  }

  lemma AcceptedLength(setting: seq<Byte>, min: nat)
    requires Accepted(setting, min)
    ensures |setting| > LAST
  {
    Lengths();
    assert Digit(setting, LAST).Some?;
  }

  /** The text of a hash: the setting up to the salt's last character, that character with its spare bits
      cleared, and 23 of the digest's bytes. */
  function Hash(init: Tables<Word>, key: seq<Byte>, setting: seq<Byte>, min: nat): (h: Option<seq<Byte>>)
    requires Complete(init)
  {
    if !Accepted(setting, min) then None
    else
      AcceptedLength(setting, min);
      Some(setting[..LAST] + [Itoa(Value(setting, LAST) & 0x30)] + Encode(DigestFor(init, key, setting)))
  }

  datatype Error = ERANGE | EINVAL

  /** None stands for success. A rejected setting leaves the output as it is. */
  method Crypt(init: Tables<Word>, key: seq<Byte>, setting: seq<Byte>, output: array<Byte>, min: nat)
    returns (err: Option<Error>)
    requires Complete(init) && NoNul(key)
    modifies output
    ensures err == if output.Length < HASH_LENGTH + 1 then Some(ERANGE)
                   else if Hash(init, key, setting, min).None? then Some(EINVAL) else None
    ensures if err.Some? then output[..] == old(output[..])
            else Some(output[..HASH_LENGTH]) == Hash(init, key, setting, min) && output[HASH_LENGTH] == 0
  {
    hide Digest, Encode, Decode, Itoa, Power;
    if output.Length < HASH_LENGTH + 1 { return Some(ERANGE); }
    if !WellFormed(setting) { return Some(EINVAL); }
    var count := Power(Cost(setting));
    if count < min { return Some(EINVAL); }
    var salt := new Byte[16];
    var ok := DecodeInto(salt, setting[SALT_AT..], 16);
    DecodeBehind(setting, SALT_AT, 16);
    if !ok { return Some(EINVAL); }
    AcceptedLength(setting, min);
    assert salt[..16] == salt[..];
    var digest := ComputeDigest(init, key, FlagsOf(CharAt(setting, 2)), count, salt);
    var i := 0;
    while i < LAST
      invariant i <= LAST && forall k :: 0 <= k < i ==> output[k] == setting[k]
    {
      output[i] := setting[i];
      i := i + 1;
    }
    output[LAST] := Itoa(Value(setting, LAST) & 0x30);
    Lengths();
    ghost var head := output[..DIGEST_AT];
    EncodeInto(output, DIGEST_AT, digest);
    output[HASH_LENGTH] := 0;
    assert output[..HASH_LENGTH] == head + Encode(digest);
    assert head == setting[..LAST] + [Itoa(Value(setting, LAST) & 0x30)];
    return None;
  }

  // ---------- Main results ----------

  /** A hash is sixty characters: prefix and cost copied, then the canonical text of the salt. */
  lemma HashShape(init: Tables<Word>, key: seq<Byte>, setting: seq<Byte>, min: nat, h: seq<Byte>)
    requires Complete(init) && Hash(init, key, setting, min) == Some(h)
    ensures |h| == HASH_LENGTH && h[..SALT_AT] == setting[..SALT_AT]
    ensures h[SALT_AT..DIGEST_AT] == Encode(SaltBytes(setting))
            && h[DIGEST_AT..] == Encode(DigestFor(init, key, setting))
  {
    hide Digest, Power, Itoa, Encode, Atoi, DigestFor;
    Lengths();
    AcceptedLength(setting, min);
    EncodeUndoesDecode(setting, SALT_AT, 16, SaltBytes(setting));
    var last := [Itoa(Value(setting, LAST) & 0x30)];
    assert Encode(SaltBytes(setting)) == setting[SALT_AT..LAST] + last;
    assert h[SALT_AT..DIGEST_AT] == setting[SALT_AT..LAST] + last;
  }

  /** A hash, taken for a setting, is accepted and stands for the same salt, cost and flags. */
  lemma HashIsSetting(init: Tables<Word>, key: seq<Byte>, setting: seq<Byte>, min: nat, h: seq<Byte>)
    requires Complete(init) && Hash(init, key, setting, min) == Some(h)
    ensures Accepted(h, min) && FlagsOf(CharAt(h, 2)) == FlagsOf(CharAt(setting, 2))
    ensures Cost(h) == Cost(setting) && SaltBytes(h) == SaltBytes(setting)
  {
    hide Digest, Power, Itoa, Encode, Atoi, DigestFor, Decode;
    Lengths();
    HashShape(init, key, setting, min, h);
    AcceptedLength(setting, min);
    forall i | 0 <= i < SALT_AT ensures CharAt(h, i) == CharAt(setting, i) {
      assert h[..SALT_AT][i] == setting[..SALT_AT][i];
    }
    assert Encode(SaltBytes(setting)) <= h[SALT_AT..];
    DecodeUndoesEncode(SaltBytes(setting), h, SALT_AT);
  }

  /** Verification compares digests: another password, hashed with a hash as the setting, gives that
      hash back exactly when the 23 digest bytes are the same. */
  lemma VerifiesIff(init: Tables<Word>, key: seq<Byte>, other: seq<Byte>, setting: seq<Byte>, min: nat, h: seq<Byte>)
    requires Complete(init) && Hash(init, key, setting, min) == Some(h)
    ensures Accepted(h, min)
    ensures Hash(init, other, h, min) == Some(h) <==> DigestFor(init, other, setting) == DigestFor(init, key, setting)
  {
    hide Digest, Power, Itoa, Encode, Atoi, Decode;
    HashIsSetting(init, key, setting, min, h);
    HashShape(init, key, setting, min, h);
    var h' := Hash(init, other, h, min).value;
    HashShape(init, other, h, min, h');
    assert h == h[..SALT_AT] + h[SALT_AT..DIGEST_AT] + h[DIGEST_AT..];
    assert h' == h'[..SALT_AT] + h'[SALT_AT..DIGEST_AT] + h'[DIGEST_AT..];
    EncodeInjective(DigestFor(init, other, setting), DigestFor(init, key, setting));
  }

  lemma EncodeInjective(x: seq<Byte>, y: seq<Byte>)
    requires |x| == |y|
    ensures Encode(x) == Encode(y) ==> x == y
  {
    DecodeUndoesEncode(x, Encode(x), 0);
    DecodeUndoesEncode(y, Encode(y), 0);
  }

  /** Hashing the password again with the hash as the setting gives the hash. */
  lemma HashVerifies(init: Tables<Word>, key: seq<Byte>, setting: seq<Byte>, min: nat, h: seq<Byte>)
    requires Complete(init) && Hash(init, key, setting, min) == Some(h)
    ensures Hash(init, key, h, min) == Some(h)
  {
    VerifiesIff(init, key, key, setting, min, h);
  }

  // ---------- New settings ----------

  function SettingFor(subtype: Byte, count: nat, input: seq<Byte>): seq<Byte>
    requires count <= 31
  {
    SettingHead(subtype, count) + Encode(input)
  }

  /** What the generator accepts: enough random bytes, a cost of four to 31 or the default, and one of
      two prefixes. */
  predicate CanGenerate(prefix: seq<Byte>, count: nat, input: seq<Byte>) {
    && |input| >= 16 && (count == 0 || 4 <= count <= 31)
    && CharAt(prefix, 0) == 0x24 && CharAt(prefix, 1) == 0x32
    && (CharAt(prefix, 2) == 0x61 || CharAt(prefix, 2) == 0x79)
  }

  function SettingHead(subtype: Byte, count: nat): (h: seq<Byte>)
    requires count <= 31
    ensures |h| == SALT_AT
  {
    [0x24, 0x32, subtype, 0x24, 0x30 + (count / 10) as Byte, 0x30 + (count % 10) as Byte, 0x24]
  }

  method WriteHead(output: array<Byte>, subtype: Byte, cost: nat)
    requires output.Length >= SALT_AT && cost <= 31
    modifies output
    ensures output[..SALT_AT] == SettingHead(subtype, cost)
  {
    output[0], output[1], output[2], output[3] := 0x24, 0x32, subtype, 0x24;
    output[4], output[5], output[6] := 0x30 + (cost / 10) as Byte, 0x30 + (cost % 10) as Byte, 0x24;
  }

  /** Generates a setting from sixteen random bytes; a count of 0 stands for the default of 5. */
  method GenerateSalt(prefix: seq<Byte>, count: nat, input: seq<Byte>, output: array<Byte>) returns (err: Option<Error>)
    modifies output
    ensures err == if output.Length < 30 then Some(ERANGE)
                   else if !CanGenerate(prefix, count, input) then Some(EINVAL)
                   else None
    ensures err.Some? && output.Length > 0 ==> output[0] == 0
    ensures err.None? ==>
              output[..DIGEST_AT] == SettingFor(CharAt(prefix, 2), if count == 0 then 5 else count, input[..16])
              && output[DIGEST_AT] == 0
  {
    hide Encode, EncodedLength, SettingHead;
    if output.Length < 30 || !CanGenerate(prefix, count, input) {
      if output.Length > 0 { output[0] := 0; }
      return if output.Length < 30 then Some(ERANGE) else Some(EINVAL);
    }
    WriteHead(output, CharAt(prefix, 2), if count == 0 then 5 else count);
    Lengths();
    ghost var head := output[..SALT_AT];
    EncodeInto(output, SALT_AT, input[..16]);
    output[DIGEST_AT] := 0;
    assert output[..DIGEST_AT] == head + Encode(input[..16]);
    return None;
  }

  lemma PowerGrows(n: nat)
    requires n >= 4
    ensures Power(n) >= 16
    decreases n
  {
    if n > 4 {
      PowerGrows(n - 1);
    } else {
      assert Power(4) == 2 * Power(3) && Power(3) == 2 * Power(2) && Power(2) == 2 * Power(1);
    }
  }

  lemma DigitBytes(count: nat)
    requires count <= 31
    ensures var tens, ones := 0x30 + (count / 10) as Byte, 0x30 + (count % 10) as Byte;
            && 0x30 <= tens <= 0x33 && 0x30 <= ones <= 0x39 && (tens == 0x33 ==> ones <= 0x31)
            && (tens - 0x30) as int * 10 + (ones - 0x30) as int == count
  {
  }

  lemma HeadIsWellFormed(subtype: Byte, count: nat, s: seq<Byte>)
    requires FlagsOf(subtype) != 0 && count <= 31 && SettingHead(subtype, count) <= s
    ensures WellFormed(s) && CharAt(s, 2) == subtype && Cost(s) == count
  {
    hide FlagsOf;
    var h := SettingHead(subtype, count);
    DigitBytes(count);
    forall i | 0 <= i < SALT_AT ensures CharAt(s, i) == h[i] {}
    assert CharAt(s, 0) == 0x24 && CharAt(s, 1) == 0x32 && CharAt(s, 2) == subtype && CharAt(s, 3) == 0x24
           && CharAt(s, 6) == 0x24;
    assert CharAt(s, 4) == 0x30 + (count / 10) as Byte && CharAt(s, 5) == 0x30 + (count % 10) as Byte;
  }

  /** A generated setting is accepted, and stands for the bytes it was made from and for its count. */
  lemma SettingIsAccepted(subtype: Byte, count: nat, input: seq<Byte>)
    requires FlagsOf(subtype) != 0 && 4 <= count <= 31 && |input| == 16
    ensures var s := SettingFor(subtype, count, input);
            Accepted(s, 16) && FlagsOf(CharAt(s, 2)) == FlagsOf(subtype) && Cost(s) == count && SaltBytes(s) == input
  {
    hide Encode, Decode, WellFormed, Cost, Power, SettingHead;
    var s := SettingFor(subtype, count, input);
    HeadIsWellFormed(subtype, count, s);
    PowerGrows(count);
    assert s[SALT_AT..] == Encode(input);
    DecodeUndoesEncode(input, s, SALT_AT);
  }
}
