/** The expensive key schedule (src/libvxutil/blowfish.c, BF_body and the loops of BF_crypt): the
    program's differently shaped loops all perform one state expansion, the one of the bcrypt paper.
    Nothing here depends on what words are and how a round mixes them. */
module BcryptSchedule {
  import opened Feistel

  /** Eighteen subkeys, and four boxes of 256 words laid end to end. */
  datatype Tables<W> = Tables(p: seq<W>, s: seq<W>)

  const P_WORDS := 18
  const S_WORDS := 1024

  predicate Complete<W>(t: Tables<W>) { |t.p| == P_WORDS && |t.s| == S_WORDS }

  /** How words are mixed, the cipher that given boxes make, and what it does to a block. */
  datatype Kit<!W> = Kit(xor: (W, W) -> W, zero: W, cipher: seq<W> -> Cipher<W>,
    encrypt: (Tables<W>, Block<W>) -> Block<W>)

  ghost predicate ValidKit<W(!new)>(kit: Kit<W>) {
    && (forall s :: Mixes(kit.cipher(s).xor))
    && (forall w :: kit.xor(w, kit.zero) == w)
    && (forall t, b :: EncryptsBy(kit, t, b))
  }

  predicate EncryptsBy<W(==)>(kit: Kit<W>, t: Tables<W>, b: Block<W>) {
    Complete(t) ==> kit.encrypt(t, b) == Network(kit.cipher(t.s), t.p, b)
  }

  /** Four words, as two halves. */
  datatype Salt<W> = Salt(first: Block<W>, second: Block<W>)

  function NoSalt<W>(kit: Kit<W>): Salt<W> { Salt(Block(kit.zero, kit.zero), Block(kit.zero, kit.zero)) }

  const P_BLOCKS := 9
  const BLOCKS := 521

  // ---------- State expansion, as defined ----------

  /** The two words of block j: nine blocks of subkeys, then the boxes. */
  function Store<W>(t: Tables<W>, j: nat, b: Block<W>): (r: Tables<W>)
    requires Complete(t) && j < BLOCKS
    ensures Complete(r)
  {
    if j < P_BLOCKS then t.(p := t.p[2 * j := b.l][2 * j + 1 := b.r])
    else t.(s := t.s[2 * (j - P_BLOCKS) := b.l][2 * (j - P_BLOCKS) + 1 := b.r])
  }

  function XorBlocks<W>(kit: Kit<W>, b: Block<W>, x: Block<W>): Block<W> { Block(kit.xor(b.l, x.l), kit.xor(b.r, x.r)) }

  /** The halves of the salt alternate from block to block. */
  function Salted<W>(kit: Kit<W>, salt: Salt<W>, j: nat, b: Block<W>): Block<W> {
    XorBlocks(kit, b, if j % 2 == 0 then salt.first else salt.second)
  }

  datatype Progress<W> = Progress(t: Tables<W>, last: Block<W>)

  /** Block j becomes the encryption, under the tables as they are by then, of the block before it,
      salted. */
  function NextBlock<W>(kit: Kit<W>, x: Progress<W>, salt: Salt<W>, j: nat): (r: Progress<W>)
    requires Complete(x.t) && j < BLOCKS
    ensures Complete(r.t)
  {
    var e := kit.encrypt(x.t, Salted(kit, salt, j, x.last));
    Progress(Store(x.t, j, e), e)
  }

  function Expansion<W>(kit: Kit<W>, t: Tables<W>, salt: Salt<W>, n: nat): (r: Progress<W>)
    requires Complete(t) && n <= BLOCKS
    ensures Complete(r.t)
    decreases n, t
  {
    if n == 0 then Progress(t, Block(kit.zero, kit.zero))
    else NextBlock(kit, Expansion(kit, t, salt, n - 1), salt, n - 1)
  }

  function Expanded<W>(kit: Kit<W>, t: Tables<W>, salt: Salt<W>): (r: Tables<W>)
    requires Complete(t)
    ensures Complete(r)
  {
    Expansion(kit, t, salt, BLOCKS).t
  }

  lemma UnsaltedBlock<W(!new)>(kit: Kit<W>, j: nat, b: Block<W>)
    requires ValidKit(kit)
    ensures Salted(kit, NoSalt(kit), j, b) == b
  {
  }

  /** The paper's state expansion with a key: the key is mixed into the subkeys first. */
  function ExpandKey<W>(kit: Kit<W>, t: Tables<W>, salt: Salt<W>, key: seq<W>): (r: Tables<W>)
    requires Complete(t) && |key| == P_WORDS
    ensures Complete(r)
  {
    Expanded(kit, Tables(Mixed(kit, t.p, key), t.s), salt)
  }

  function Mixed<W>(kit: Kit<W>, p: seq<W>, key: seq<W>): (q: seq<W>)
    requires |p| == |key| == P_WORDS
    ensures |q| == P_WORDS && forall i :: 0 <= i < P_WORDS ==> q[i] == kit.xor(p[i], key[i])
  {
    seq(P_WORDS, i requires 0 <= i < P_WORDS => kit.xor(p[i], key[i]))
  }

  function SaltWord<W>(salt: Salt<W>, i: nat): W {
    if i % 4 == 0 then salt.first.l
    else if i % 4 == 1 then salt.first.r
    else if i % 4 == 2 then salt.second.l
    else salt.second.r
  }

  /** The salt as a key: its four words repeated. */
  function SaltKey<W>(salt: Salt<W>): (q: seq<W>)
    ensures |q| == P_WORDS && forall i :: 0 <= i < P_WORDS ==> q[i] == SaltWord(salt, i)
  {
    seq(P_WORDS, i requires 0 <= i < P_WORDS => SaltWord(salt, i))
  }

  /** One turn of the costly loop: expand with the key, then with the salt in the place of the key. */
  function Turn<W>(kit: Kit<W>, t: Tables<W>, key: seq<W>, salt: Salt<W>): (r: Tables<W>)
    requires Complete(t) && |key| == P_WORDS
    ensures Complete(r)
  {
    ExpandKey(kit, ExpandKey(kit, t, NoSalt(kit), key), NoSalt(kit), SaltKey(salt))
  }

  function Turns<W>(kit: Kit<W>, t: Tables<W>, key: seq<W>, salt: Salt<W>, n: nat): (r: Tables<W>)
    requires Complete(t) && |key| == P_WORDS
    ensures Complete(r)
    decreases n, t
  {
    if n == 0 then t else Turn(kit, Turns(kit, t, key, salt, n - 1), key, salt)
  }

  /** Start from the initial subkeys and the salted expansion, then take the turns. */
  function Schedule<W>(kit: Kit<W>, t: Tables<W>, key: seq<W>, salt: Salt<W>, turns: nat): (r: Tables<W>)
    requires Complete(t) && |key| == P_WORDS
    ensures Complete(r)
  {
    Turns(kit, Expanded(kit, t, salt), key, salt, turns)
  }

  // ---------- The program's loops ----------

  lemma Continue<W>(kit: Kit<W>, t: Tables<W>, salt: Salt<W>, n: nat)
    requires Complete(t) && n < BLOCKS
    ensures Expansion(kit, t, salt, n + 1) == NextBlock(kit, Expansion(kit, t, salt, n), salt, n)
  {
  }

  class Context<W(!new)> {
    const kit: Kit<W>
    const P: array<W>
    const S: array<W>

    ghost predicate Valid() { P.Length == P_WORDS && S.Length == S_WORDS && P != S && ValidKit(kit) }

    function Content(): (t: Tables<W>)
      reads P, S
      ensures Valid() ==> Complete(t)
    {
      Tables(P[..], S[..])
    }

    constructor (kit: Kit<W>, t: Tables<W>)
      requires ValidKit(kit) && Complete(t)
      ensures Valid() && fresh(P) && fresh(S) && this.kit == kit && Content() == t
    {
      this.kit := kit;
      P := new W[P_WORDS](i requires 0 <= i < P_WORDS => t.p[i]);
      S := new W[S_WORDS](i requires 0 <= i < S_WORDS => t.s[i]);
    }

    method Encrypt(l0: W, r0: W) returns (l: W, r: W)
      requires Valid()
      ensures Block(l, r) == kit.encrypt(Content(), Block(l0, r0))
    {
      assert EncryptsBy(kit, Content(), Block(l0, r0));
      l, r := EncryptInPlace(kit.cipher(S[..]), P[..], l0, r0);
    }

    /** Encrypts the current block and writes it over block j. */
    method Overwrite(j: nat, l0: W, r0: W, ghost x: Progress<W>, ghost salt: Salt<W>) returns (l: W, r: W)
      requires Valid() && j < BLOCKS && x.t == Content() && Block(l0, r0) == Salted(kit, salt, j, x.last)
      modifies P, S
      ensures Progress(Content(), Block(l, r)) == NextBlock(kit, x, salt, j)
    {
      l, r := Encrypt(l0, r0);
      if j < P_BLOCKS {
        P[2 * j] := l;
        P[2 * j + 1] := r;
      } else {
        S[2 * (j - P_BLOCKS)] := l;
        S[2 * (j - P_BLOCKS) + 1] := r;
      }
    }

    /** The first expansion: subkeys with the salt indexed by i & 2, then the boxes two blocks at a time. */
    method ExpandSalted(salt: Salt<W>)
      requires Valid()
      modifies P, S
      ensures Content() == Expanded(kit, old(Content()), salt)
    {
      ghost var t := Content();
      var l, r := ExpandSubkeys(salt);
      l, r := ExpandBoxes(salt, l, r, t);
    }

    method ExpandSubkeys(salt: Salt<W>) returns (l: W, r: W)
      requires Valid()
      modifies P, S
      ensures Progress(Content(), Block(l, r)) == Expansion(kit, old(Content()), salt, P_BLOCKS)
    {
      hide NextBlock;
      ghost var t := Content();
      l, r := kit.zero, kit.zero;
      var i := 0;
      ghost var j: nat := 0;
      while i < P_WORDS
        invariant i == 2 * j && j <= P_BLOCKS && Progress(Content(), Block(l, r)) == Expansion(kit, t, salt, j)
      {
        var k := i / 2 % 2 * 2;
        Continue(kit, t, salt, j);
        l, r := Overwrite(i / 2, kit.xor(l, SaltWord(salt, k)), kit.xor(r, SaltWord(salt, k + 1)),
                          Expansion(kit, t, salt, j), salt);
        i, j := i + 2, j + 1;
      }
    }

    method ExpandBoxes(salt: Salt<W>, l0: W, r0: W, ghost t: Tables<W>) returns (l: W, r: W)
      requires Valid() && Complete(t) && Progress(Content(), Block(l0, r0)) == Expansion(kit, t, salt, P_BLOCKS)
      modifies P, S
      ensures Progress(Content(), Block(l, r)) == Expansion(kit, t, salt, BLOCKS)
    {
      hide NextBlock;
      l, r := l0, r0;
      var ptr := 0;
      ghost var j: nat := P_BLOCKS;
      while ptr < S_WORDS - 1
        invariant ptr % 4 == 0 && j == P_BLOCKS + ptr / 2 <= BLOCKS
        invariant Progress(Content(), Block(l, r)) == Expansion(kit, t, salt, j)
      {
        l, r := TwoBlocks(P_BLOCKS + ptr / 2, l, r, t, salt);
        ptr, j := ptr + 4, j + 2;
      }
    }

    /** The second loop's body: one block with the salt's second half, one with its first. */
    method TwoBlocks(j: nat, l0: W, r0: W, ghost t: Tables<W>, salt: Salt<W>) returns (l: W, r: W)
      requires Valid() && Complete(t) && P_BLOCKS <= j && j + 2 <= BLOCKS && j % 2 == 1
      requires Progress(Content(), Block(l0, r0)) == Expansion(kit, t, salt, j)
      modifies P, S
      ensures Progress(Content(), Block(l, r)) == Expansion(kit, t, salt, j + 2)
    {
      hide NextBlock;
      Continue(kit, t, salt, j);
      Continue(kit, t, salt, j + 1);
      l, r := Overwrite(j, kit.xor(l0, SaltWord(salt, 2)), kit.xor(r0, SaltWord(salt, 3)),
                        Expansion(kit, t, salt, j), salt);
      l, r := Overwrite(j + 1, kit.xor(l, SaltWord(salt, 0)), kit.xor(r, SaltWord(salt, 1)),
                        Expansion(kit, t, salt, j + 1), salt);
    }

    /** The expansion without a salt: one loop over the subkeys and one over the boxes. */
    method Body()
      requires Valid()
      modifies P, S
      ensures Content() == Expanded(kit, old(Content()), NoSalt(kit))
    {
      ghost var t := Content();
      var l, r := UnsaltedBlocks(0, P_BLOCKS, kit.zero, kit.zero, t);
      l, r := UnsaltedBlocks(P_BLOCKS, BLOCKS, l, r, t);
    }

    /** Either loop of the body: the blocks from `from` up to `to`. */
    method UnsaltedBlocks(from: nat, to: nat, l0: W, r0: W, ghost t: Tables<W>) returns (l: W, r: W)
      requires Valid() && Complete(t) && from <= to <= BLOCKS
               && Progress(Content(), Block(l0, r0)) == Expansion(kit, t, NoSalt(kit), from)
      modifies P, S
      ensures Progress(Content(), Block(l, r)) == Expansion(kit, t, NoSalt(kit), to)
    {
      hide NextBlock;
      l, r := l0, r0;
      var j := from;
      while j < to
        invariant from <= j <= to && Progress(Content(), Block(l, r)) == Expansion(kit, t, NoSalt(kit), j)
      {
        Continue(kit, t, NoSalt(kit), j);
        l, r := UnsaltedStep(j, l, r, Expansion(kit, t, NoSalt(kit), j));
        j := j + 1;
      }
    }

    method UnsaltedStep(j: nat, l0: W, r0: W, ghost x: Progress<W>) returns (l: W, r: W)
      requires Valid() && j < BLOCKS && x == Progress(Content(), Block(l0, r0))
      modifies P, S
      ensures Progress(Content(), Block(l, r)) == NextBlock(kit, x, NoSalt(kit), j)
    {
      UnsaltedBlock(kit, j, Block(l0, r0));
      l, r := Overwrite(j, l0, r0, x, NoSalt(kit));
    }

    method MixKey(key: seq<W>)
      requires Valid() && |key| == P_WORDS
      modifies P
      ensures P[..] == Mixed(kit, old(P[..]), key)
    {
      var i := 0;
      while i < P_WORDS
        invariant i <= P_WORDS && i % 2 == 0
        invariant forall k :: 0 <= k < P_WORDS ==> P[k] == if k < i then kit.xor(old(P[k]), key[k]) else old(P[k])
      {
        P[i] := kit.xor(P[i], key[i]);
        P[i + 1] := kit.xor(P[i + 1], key[i + 1]);
        i := i + 2;
      }
    }

    /** Four subkeys from the i-th on get the four words of the salt. */
    method MixFour(salt: Salt<W>, i: nat)
      requires Valid() && i + 4 <= P_WORDS && i % 4 == 0
      modifies P
      ensures forall k :: 0 <= k < P_WORDS ==>
              P[k] == if i <= k < i + 4 then kit.xor(old(P[k]), SaltWord(salt, k)) else old(P[k])
    {
      P[i] := kit.xor(P[i], SaltWord(salt, 0));
      P[i + 1] := kit.xor(P[i + 1], SaltWord(salt, 1));
      P[i + 2] := kit.xor(P[i + 2], SaltWord(salt, 2));
      P[i + 3] := kit.xor(P[i + 3], SaltWord(salt, 3));
    }

    method MixSalt(salt: Salt<W>)
      requires Valid()
      modifies P
      ensures P[..] == Mixed(kit, old(P[..]), SaltKey(salt))
    {
      var i := 0;
      while i < 16
        invariant i <= 16 && i % 4 == 0
        invariant forall k :: 0 <= k < P_WORDS ==>
                  P[k] == if k < i then kit.xor(old(P[k]), SaltWord(salt, k)) else old(P[k])
      {
        MixFour(salt, i);
        i := i + 4;
      }
      P[16] := kit.xor(P[16], SaltWord(salt, 0));
      P[17] := kit.xor(P[17], SaltWord(salt, 1));
    }

    /** The inner loop with its flag: the body runs twice, and the salt is mixed in between. */
    method TakeTurn(key: seq<W>, salt: Salt<W>)
      requires Valid() && |key| == P_WORDS
      modifies P, S
      ensures Content() == Turn(kit, old(Content()), key, salt)
    {
      ghost var t := Content();
      MixKey(key);
      ghost var half := ExpandKey(kit, t, NoSalt(kit), key);
      var done := false;
      while true
        invariant Content() == if done then Tables(Mixed(kit, half.p, SaltKey(salt)), half.s)
                               else Tables(Mixed(kit, t.p, key), t.s)
        decreases !done
      {
        Body();
        if done { break; }
        done := true;
        MixSalt(salt);
      }
    }

    /** The costly loop; `count` is at least one, and counted down. */
    method TakeTurns(key: seq<W>, salt: Salt<W>, count: nat)
      requires Valid() && |key| == P_WORDS && count > 0
      modifies P, S
      ensures Content() == Turns(kit, old(Content()), key, salt, count)
    {
      hide Turn;
      ghost var start, taken: nat := Content(), 0;
      var left := count;
      while left > 0
        invariant left + taken == count && Content() == Turns(kit, start, key, salt, taken)
      {
        TakeTurn(key, salt);
        left, taken := left - 1, taken + 1;
      }
    }

    method Setup(key: seq<W>, salt: Salt<W>, count: nat)
      requires Valid() && |key| == P_WORDS && count > 0
      modifies P, S
      ensures Content() == Schedule(kit, old(Content()), key, salt, count)
    {
      ExpandSalted(salt);
      TakeTurns(key, salt, count);
    }
  }
}
